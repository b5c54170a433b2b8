/**
 The font list of the appearance editor: its rows, where its highlight stands,
 and which rows the Down key reaches. Families compare without regard to case,
 so two that differ in case alone stop the highlight between them.
 */
module FontList {
  import opened Common

  datatype Entry = ResetEntry | Header(title: string) | Family(name: string, saved: bool)
  datatype Pick = PickReset | PickFamily(name: string)

  /** What a row picks; a header picks nothing. */
  function PickOf(e: Entry): Option<Pick> {
    match e
    case ResetEntry => Some(PickReset)
    case Header(_) => None
    case Family(name, _) => Some(PickFamily(name))
  }

  predicate Pickable(e: Entry) { PickOf(e).Some? }

  function AsciiLower(c: char): char { if 'A' <= c <= 'Z' then c - 'A' + 'a' else c }

  /** Folding takes each of the 26 capitals to its small letter and leaves every other character. */
  lemma AsciiLowerIsExact(c: char)
    ensures 65 <= c as int <= 90 ==> AsciiLower(c) as int == c as int + 32
    ensures !(65 <= c as int <= 90) ==> AsciiLower(c) == c
  {
  }

  /** Whether two families are one: their names differ at most in ASCII case. */
  predicate SameFamily(a: string, b: string) {
    |a| == |b| && forall i | 0 <= i < |a| :: AsciiLower(a[i]) == AsciiLower(b[i])
  }

  predicate SamePick(a: Pick, b: Pick) {
    match (a, b)
    case (PickReset, PickReset) => true
    case (PickFamily(x), PickFamily(y)) => SameFamily(x, y)
    case _ => false
  }

  // ----- the rows

  /** The families of one group that match, as rows. */
  function Matching(names: seq<string>, saved: bool, matches: string -> bool): seq<Entry> {
    if names == [] then []
    else
      var rest, last := Matching(names[..|names| - 1], saved, matches), names[|names| - 1];
      if matches(last) then rest + [Family(last, saved)] else rest
  }

  /** One group under its header; nothing for a group with no match. */
  function Group(title: string, names: seq<string>, saved: bool, matches: string -> bool): seq<Entry> {
    var shown := Matching(names, saved, matches);
    if shown == [] then [] else [Header(title)] + shown
  }

  /** Whether `x` is one of the families `names`. */
  predicate HasFamily(names: seq<string>, x: string) {
    exists i | 0 <= i < |names| :: SameFamily(x, names[i])
  }

  /** The level's own family, where the lists do not hold it. */
  function Saved(bundled: seq<string>, system: seq<string>, own: Option<string>): seq<string> {
    if own.Some? && !HasFamily(bundled + system, own.value) then [own.value] else []
  }

  /** The whole list, opening on the reset row. */
  function FamilyEntries(
    bundled: seq<string>, system: seq<string>, own: Option<string>, matches: string -> bool
  ): seq<Entry> {
    [ResetEntry] + Group("Current", Saved(bundled, system, own), true, matches)
    + Group("Bundled", bundled, false, matches) + Group("System", system, false, matches)
  }

  method PushGroup(entries: seq<Entry>, title: string, names: seq<string>, saved: bool, matches: string -> bool)
    returns (pushed: seq<Entry>)
    ensures pushed == entries + Group(title, names, saved, matches)
  {
    var shown := [];
    for i := 0 to |names|
      invariant shown == Matching(names[..i], saved, matches)
    {
      assert names[..i + 1][..i] == names[..i];
      if matches(names[i]) {
        shown := shown + [Family(names[i], saved)];
      }
    }
    assert names[..|names|] == names;
    pushed := if shown == [] then entries else entries + [Header(title)] + shown;
  }

  method BuildEntries(bundled: seq<string>, system: seq<string>, own: Option<string>, matches: string -> bool)
    returns (entries: seq<Entry>)
    ensures entries == FamilyEntries(bundled, system, own, matches)
  {
    entries := PushGroup([ResetEntry], "Current", Saved(bundled, system, own), true, matches);
    entries := PushGroup(entries, "Bundled", bundled, false, matches);
    entries := PushGroup(entries, "System", system, false, matches);
  }

  lemma {:induction false} MatchingHas(names: seq<string>, saved: bool, matches: string -> bool, e: Entry)
    ensures e in Matching(names, saved, matches) <==>
            e.Family? && e.saved == saved && e.name in names && matches(e.name)
  {
    if names == [] {
    } else {
      var n := |names| - 1;
      MatchingHas(names[..n], saved, matches, e);
      assert names == names[..n] + [names[n]];
    }
  }

  lemma {:induction false} GroupHas(title: string, names: seq<string>, saved: bool, matches: string -> bool, e: Entry)
    ensures e in Group(title, names, saved, matches) <==>
            || (e.Family? && e.saved == saved && e.name in names && matches(e.name))
            || (e == Header(title) && exists x | x in names :: matches(x))
  {
    MatchingHas(names, saved, matches, e);
    var shown := Matching(names, saved, matches);
    if x :| x in names && matches(x) {
      MatchingHas(names, saved, matches, Family(x, saved));
    }
    if shown != [] {
      MatchingHas(names, saved, matches, shown[0]);
      assert shown[0] in shown;
    }
  }

  /**
   The rows of the list: reset; every bundled and installed family that matches;
   the level's own family, as saved, where it matches and neither list holds it;
   and the header of each group that has a row.
   */
  lemma {:induction false} EntriesHave(
    bundled: seq<string>, system: seq<string>, own: Option<string>, matches: string -> bool, e: Entry)
    ensures e in FamilyEntries(bundled, system, own, matches) <==>
            match e
            case ResetEntry => true
            case Family(name, false) => (name in bundled || name in system) && matches(name)
            case Family(name, true) => own == Some(name) && !HasFamily(bundled + system, name) && matches(name)
            case Header(title) =>
              || (title == "Current" && own.Some? && !HasFamily(bundled + system, own.value) && matches(own.value))
              || (title == "Bundled" && exists x | x in bundled :: matches(x))
              || (title == "System" && exists x | x in system :: matches(x))
  {
    var saved := Saved(bundled, system, own);
    assert forall x :: x in saved <==> own == Some(x) && !HasFamily(bundled + system, x);
    GroupHas("Current", saved, true, matches, e);
    GroupHas("Bundled", bundled, false, matches, e);
    GroupHas("System", system, false, matches, e);
  }

  // ----- the highlight

  /** Whether the row picks `wanted`. */
  predicate Picks(e: Entry, wanted: Pick) {
    Pickable(e) && SamePick(wanted, PickOf(e).value)
  }

  /** The first row from place `from` on that `good` takes. */
  function FirstRow(entries: seq<Entry>, from: nat, good: Entry -> bool): (r: Option<nat>)
    requires from <= |entries|
    ensures r.None? <==> forall k | from <= k < |entries| :: !good(entries[k])
    ensures r.Some? ==> from <= r.value < |entries| && good(entries[r.value])
    ensures r.Some? ==> forall k | from <= k < r.value :: !good(entries[k])
    decreases |entries| - from
  {
    if from == |entries| then None
    else if good(entries[from]) then Some(from)
    else FirstRow(entries, from + 1, good)
  }

  /** The last row before place `upto` that `good` takes. */
  function LastRow(entries: seq<Entry>, upto: nat, good: Entry -> bool): (r: Option<nat>)
    requires upto <= |entries|
    ensures r.None? <==> forall k | 0 <= k < upto :: !good(entries[k])
    ensures r.Some? ==> r.value < upto && good(entries[r.value])
    ensures r.Some? ==> forall k | r.value < k < upto :: !good(entries[k])
  {
    if upto == 0 then None
    else if good(entries[upto - 1]) then Some(upto - 1)
    else LastRow(entries, upto - 1, good)
  }

  /** What the highlight wants to stand on: itself, else the chosen family, else the reset row. */
  function WantedPick(highlight: Option<Pick>, chosen: Option<string>): Pick {
    if highlight.Some? then highlight.value else if chosen.Some? then PickFamily(chosen.value) else PickReset
  }

  function Highlight(entries: seq<Entry>, highlight: Option<Pick>, chosen: Option<string>): (at: Option<nat>)
    ensures at.Some? ==> at.value < |entries| && Pickable(entries[at.value])
  {
    var wanted := WantedPick(highlight, chosen);
    var found := FirstRow(entries, 0, e => Picks(e, wanted));
    if found.Some? then found else FirstRow(entries, 0, Pickable)
  }

  /** What the highlight moves to, one pickable row down or up, staying put at the ends. */
  function StepFamily(entries: seq<Entry>, highlight: Option<Pick>, chosen: Option<string>, down: bool): Option<Pick> {
    var at := Highlight(entries, highlight, chosen);
    if at.None? then None
    else
      var next := if down then FirstRow(entries, at.value + 1, Pickable) else LastRow(entries, at.value, Pickable);
      PickOf(entries[if next.Some? then next.value else at.value])
  }

  /** The highlight stands on the first row that picks what it wants, and on the reset row when none does. */
  lemma HighlightIsPickable(bundled: seq<string>, system: seq<string>, own: Option<string>, matches: string -> bool,
                            highlight: Option<Pick>, chosen: Option<string>)
    ensures var entries := FamilyEntries(bundled, system, own, matches);
            var at, wanted := Highlight(entries, highlight, chosen), WantedPick(highlight, chosen);
            && at.Some? && Pickable(entries[at.value])
            && (forall k | 0 <= k < at.value :: !Picks(entries[k], wanted))
            && (Picks(entries[at.value], wanted)
                || (at.value == 0 && forall k | 0 <= k < |entries| :: !Picks(entries[k], wanted)))
  {
    var entries := FamilyEntries(bundled, system, own, matches);
    assert Pickable(entries[0]);
  }

  /** `r` is the next pickable row from `at`, down or up, or `at` itself when there is none. */
  ghost predicate IsBeside(entries: seq<Entry>, at: nat, down: bool, r: nat)
    requires at < |entries|
  {
    && r < |entries| && Pickable(entries[r])
    && (if down then at <= r && forall k | at < k < (if r == at then |entries| else r) :: !Pickable(entries[k])
        else r <= at && forall k | (if r == at then -1 else r) < k < at :: !Pickable(entries[k]))
  }

  /** A step picks the next pickable row from the highlight, past any header. */
  lemma StepLandsBeside(entries: seq<Entry>, highlight: Option<Pick>, chosen: Option<string>, down: bool)
    returns (r: nat)
    requires Highlight(entries, highlight, chosen).Some?
    ensures IsBeside(entries, Highlight(entries, highlight, chosen).value, down, r)
    ensures StepFamily(entries, highlight, chosen, down) == PickOf(entries[r])
  {
    var at := Highlight(entries, highlight, chosen).value;
    var next := if down then FirstRow(entries, at + 1, Pickable) else LastRow(entries, at, Pickable);
    r := if next.Some? then next.value else at;
  }

  // ----- what Down reaches

  /** Row `k` picks what an earlier row picks. */
  ghost predicate Repeats(entries: seq<Entry>, k: nat)
    requires k < |entries|
  {
    Pickable(entries[k]) && exists i | 0 <= i < k :: Picks(entries[i], PickOf(entries[k]).value)
  }

  /** The highlight after `n` presses of Down from the top. */
  function Pressed(entries: seq<Entry>, chosen: Option<string>, n: nat): Option<Pick> {
    if n == 0 then Some(PickReset) else StepFamily(entries, Pressed(entries, chosen, n - 1), chosen, true)
  }

  function RowAfter(entries: seq<Entry>, chosen: Option<string>, n: nat): Option<nat> {
    Highlight(entries, Pressed(entries, chosen, n), chosen)
  }

  ghost predicate Reached(entries: seq<Entry>, chosen: Option<string>, k: nat) {
    exists n :: RowAfter(entries, chosen, n) == Some(k)
  }

  ghost predicate OpensOnReset(entries: seq<Entry>) {
    entries != [] && entries[0] == ResetEntry
  }

  lemma FreshRowHolds(entries: seq<Entry>, chosen: Option<string>, k: nat)
    requires k < |entries| && Pickable(entries[k]) && !Repeats(entries, k)
    ensures Highlight(entries, PickOf(entries[k]), chosen) == Some(k)
  {
    assert Picks(entries[k], PickOf(entries[k]).value);
  }

  /** A row that repeats an earlier one is never highlighted, whatever is wanted. */
  lemma RepeatIsNeverHighlighted(entries: seq<Entry>, highlight: Option<Pick>, chosen: Option<string>, k: nat)
    requires k < |entries| && Repeats(entries, k)
    ensures Highlight(entries, highlight, chosen) != Some(k)
  {
    var wanted := WantedPick(highlight, chosen);
    var i :| 0 <= i < k && Picks(entries[i], PickOf(entries[k]).value);
    if Picks(entries[k], wanted) {
      assert Picks(entries[i], wanted);
    }
  }

  lemma {:induction false} OneDown(
    entries: seq<Entry>, highlight: Option<Pick>, chosen: Option<string>, at: nat, k: nat)
    requires at < k < |entries| && Pickable(entries[k]) && Highlight(entries, highlight, chosen) == Some(at)
    requires forall j | at < j < k :: !Pickable(entries[j])
    ensures StepFamily(entries, highlight, chosen, true) == PickOf(entries[k])
  {
    var r := StepLandsBeside(entries, highlight, chosen, true);
  }

  lemma {:induction false} NextRowAfter(entries: seq<Entry>, chosen: Option<string>, n: nat, at: nat, k: nat)
    requires at < k < |entries| && Pickable(entries[k]) && RowAfter(entries, chosen, n) == Some(at)
    requires !Repeats(entries, k) && forall j | at < j < k :: !Pickable(entries[j])
    ensures RowAfter(entries, chosen, n + 1) == Some(k)
  {
    OneDown(entries, Pressed(entries, chosen, n), chosen, at, k);
    FreshRowHolds(entries, chosen, k);
  }

  /** The pickable row above `k`. */
  lemma {:induction false} RowAbove(entries: seq<Entry>, k: nat) returns (before: nat)
    requires OpensOnReset(entries) && 0 < k < |entries|
    ensures before < k && Pickable(entries[before]) && forall j | before < j < k :: !Pickable(entries[j])
  {
    assert Pickable(entries[0]);
    before := LastRow(entries, k, Pickable).value;
  }

  lemma {:induction false} ReachRow(entries: seq<Entry>, chosen: Option<string>, k: nat) returns (n: nat)
    requires OpensOnReset(entries) && k < |entries| && Pickable(entries[k])
    requires forall j | 0 <= j <= k :: !Repeats(entries, j)
    ensures RowAfter(entries, chosen, n) == Some(k)
  {
    if k == 0 {
      n := 0;
      FreshRowHolds(entries, chosen, 0);
    } else {
      var before := RowAbove(entries, k);
      n := ReachRow(entries, chosen, before);
      NextRowAfter(entries, chosen, n, before, k);
      n := n + 1;
    }
  }

  /** Picking a row up to a repeat puts the highlight above the repeat. */
  lemma {:induction false} PickLandsAbove(entries: seq<Entry>, chosen: Option<string>, r: nat, j: nat)
    requires r <= j < |entries| && Pickable(entries[r]) && Repeats(entries, j)
    ensures var at := Highlight(entries, PickOf(entries[r]), chosen); at.Some? && at.value < j
  {
    assert Picks(entries[r], PickOf(entries[r]).value);
    RepeatIsNeverHighlighted(entries, PickOf(entries[r]), chosen, j);
  }

  lemma {:induction false} DownStaysAbove(entries: seq<Entry>, highlight: Option<Pick>, chosen: Option<string>, j: nat)
    requires j < |entries| && Repeats(entries, j)
    requires var at := Highlight(entries, highlight, chosen); at.Some? && at.value < j
    ensures var at := Highlight(entries, StepFamily(entries, highlight, chosen, true), chosen);
            at.Some? && at.value < j
  {
    var r := StepLandsBeside(entries, highlight, chosen, true);
    assert r <= j by { assert Pickable(entries[j]); }
    PickLandsAbove(entries, chosen, r, j);
  }

  /** Down never passes a row that repeats an earlier one. */
  lemma {:induction false} StaysAbove(entries: seq<Entry>, chosen: Option<string>, n: nat, j: nat)
    requires OpensOnReset(entries) && j < |entries| && Repeats(entries, j)
    ensures RowAfter(entries, chosen, n).Some? && RowAfter(entries, chosen, n).value < j
  {
    if n == 0 {
      PickLandsAbove(entries, chosen, 0, j);
    } else {
      StaysAbove(entries, chosen, n - 1, j);
      DownStaysAbove(entries, Pressed(entries, chosen, n - 1), chosen, j);
    }
  }

  /** From the top, Down reaches exactly the rows above the first that repeats an earlier one. */
  lemma DownReachesIff(entries: seq<Entry>, chosen: Option<string>, k: nat)
    requires OpensOnReset(entries) && k < |entries| && Pickable(entries[k])
    ensures Reached(entries, chosen, k) <==> forall j | 0 <= j <= k :: !Repeats(entries, j)
  {
    if forall j | 0 <= j <= k :: !Repeats(entries, j) {
      var n := ReachRow(entries, chosen, k);
    } else {
      var j :| 0 <= j <= k && Repeats(entries, j);
      forall n ensures RowAfter(entries, chosen, n) != Some(k) {
        StaysAbove(entries, chosen, n, j);
      }
    }
  }

  // ----- in terms of the families listed

  /** The names that match, in order. */
  function Filtered(names: seq<string>, matches: string -> bool): seq<string> {
    if names == [] then []
    else
      var rest, last := Filtered(names[..|names| - 1], matches), names[|names| - 1];
      if matches(last) then rest + [last] else rest
  }

  /** The families the rows name, in order. */
  function Names(entries: seq<Entry>): seq<string> {
    if entries == [] then []
    else
      var rest, last := Names(entries[..|entries| - 1]), entries[|entries| - 1];
      if last.Family? then rest + [last.name] else rest
  }

  /** No two of the names are one family. */
  ghost predicate Unalike(names: seq<string>) {
    forall i, j | 0 <= i < j < |names| :: !SameFamily(names[j], names[i])
  }

  lemma UnalikeSnoc(names: seq<string>, x: string)
    ensures Unalike(names + [x]) <==> Unalike(names) && !HasFamily(names, x)
  {
    var all := names + [x];
    assert all[|names|] == x;
    assert forall i | 0 <= i < |names| :: all[i] == names[i];
  }

  lemma {:induction false} NamesHave(entries: seq<Entry>, x: string)
    ensures HasFamily(Names(entries), x) <==> exists i | 0 <= i < |entries| :: Picks(entries[i], PickFamily(x))
  {
    if entries == [] {
    } else {
      var n := |entries| - 1;
      NamesHave(entries[..n], x);
      HasFamilySnoc(Names(entries[..n]), entries[n], x);
      if i :| 0 <= i < n && Picks(entries[..n][i], PickFamily(x)) {
        assert Picks(entries[i], PickFamily(x));
      }
      if i :| 0 <= i < |entries| && Picks(entries[i], PickFamily(x)) {
        assert i < n ==> Picks(entries[..n][i], PickFamily(x));
      }
    }
  }

  lemma HasFamilySnoc(names: seq<string>, e: Entry, x: string)
    ensures HasFamily(if e.Family? then names + [e.name] else names, x)
            <==> HasFamily(names, x) || Picks(e, PickFamily(x))
  {
    if e.Family? {
      var all := names + [e.name];
      assert all[|names|] == e.name;
      if i :| 0 <= i < |names| && SameFamily(x, names[i]) {
        assert SameFamily(x, all[i]);
      }
    }
  }

  /** Rows with one reset row, the first, repeat nothing exactly when the families they name are unalike. */
  lemma {:induction false} RepeatsIff(entries: seq<Entry>)
    requires OpensOnReset(entries) && forall i | 0 < i < |entries| :: entries[i] != ResetEntry
    ensures (forall j | 0 <= j < |entries| :: !Repeats(entries, j)) <==> Unalike(Names(entries))
  {
    var n := |entries| - 1;
    if n == 0 {
      assert Names(entries[..0]) == [];
    } else {
      var init, e := entries[..n], entries[n];
      RepeatsIff(init);
      forall j | 0 <= j < n ensures Repeats(entries, j) <==> Repeats(init, j) {
        RepeatsCarries(entries, n, j);
      }
      if e.Family? {
        NamesHave(init, e.name);
        UnalikeSnoc(Names(init), e.name);
        assert Repeats(entries, n) <==> HasFamily(Names(init), e.name) by {
          RepeatsLast(entries);
        }
      }
      assert (forall j | 0 <= j < |entries| :: !Repeats(entries, j))
          <==> (forall j | 0 <= j < n :: !Repeats(entries, j)) && !Repeats(entries, n);
    }
  }

  lemma RepeatsCarries(entries: seq<Entry>, n: nat, j: nat)
    requires j < n <= |entries|
    ensures Repeats(entries, j) <==> Repeats(entries[..n], j)
  {
    assert forall i | 0 <= i <= j :: entries[..n][i] == entries[i];
  }

  lemma RepeatsLast(entries: seq<Entry>)
    requires entries != [] && entries[|entries| - 1].Family?
    ensures var n := |entries| - 1;
            Repeats(entries, n) <==> exists i | 0 <= i < n :: Picks(entries[..n][i], PickFamily(entries[n].name))
  {
    var n := |entries| - 1;
    assert forall i | 0 <= i < n :: entries[..n][i] == entries[i];
  }

  lemma {:induction false} NamesJoin(a: seq<Entry>, b: seq<Entry>)
    ensures Names(a + b) == Names(a) + Names(b)
  {
    if b == [] {
      assert a + b == a;
    } else {
      var n := |b| - 1;
      NamesJoin(a, b[..n]);
      assert (a + b)[..|a| + n] == a + b[..n];
    }
  }

  lemma {:induction false} MatchingNames(names: seq<string>, saved: bool, matches: string -> bool)
    ensures Names(Matching(names, saved, matches)) == Filtered(names, matches)
    ensures forall e | e in Matching(names, saved, matches) :: e.Family?
  {
    if names == [] {
    } else {
      var n := |names| - 1;
      MatchingNames(names[..n], saved, matches);
      var rest := Matching(names[..n], saved, matches);
      assert (rest + [Family(names[n], saved)])[..|rest|] == rest;
    }
  }

  lemma GroupNames(title: string, names: seq<string>, saved: bool, matches: string -> bool)
    ensures Names(Group(title, names, saved, matches)) == Filtered(names, matches)
    ensures forall e | e in Group(title, names, saved, matches) :: e != ResetEntry
  {
    var shown := Matching(names, saved, matches);
    MatchingNames(names, saved, matches);
    NamesJoin([Header(title)], shown);
    assert [Header(title)][..0] == [];
  }

  lemma {:induction false} FilteredHas(names: seq<string>, matches: string -> bool, x: string)
    ensures x in Filtered(names, matches) ==> x in names
  {
    if names == [] {
    } else {
      FilteredHas(names[..|names| - 1], matches, x);
    }
  }

  /** The families the whole list names; the level's own is unlike the rest. */
  lemma {:induction false} EntryNames(
    bundled: seq<string>, system: seq<string>, own: Option<string>, matches: string -> bool)
    ensures var entries := FamilyEntries(bundled, system, own, matches);
            && OpensOnReset(entries) && (forall i | 0 < i < |entries| :: entries[i] != ResetEntry)
            && Names(entries) == Filtered(Saved(bundled, system, own), matches)
                                 + (Filtered(bundled, matches) + Filtered(system, matches))
  {
    var saved := Group("Current", Saved(bundled, system, own), true, matches);
    var shipped, installed := Group("Bundled", bundled, false, matches), Group("System", system, false, matches);
    GroupNames("Current", Saved(bundled, system, own), true, matches);
    GroupNames("Bundled", bundled, false, matches);
    GroupNames("System", system, false, matches);
    NamesOfGroups(saved, shipped, installed);
  }

  lemma {:induction false} NamesOfGroups(a: seq<Entry>, b: seq<Entry>, c: seq<Entry>)
    requires forall e | e in a || e in b || e in c :: e != ResetEntry
    ensures var entries := [ResetEntry] + a + b + c;
            && OpensOnReset(entries) && (forall i | 0 < i < |entries| :: entries[i] != ResetEntry)
            && Names(entries) == Names(a) + (Names(b) + Names(c))
  {
    var rest := a + b + c;
    assert [ResetEntry] + a + b + c == [ResetEntry] + rest;
    forall i | 0 <= i < |rest| ensures rest[i] != ResetEntry {
      assert rest[i] in rest;
    }
    NamesJoin([ResetEntry] + a + b, c);
    NamesJoin([ResetEntry] + a, b);
    NamesJoin([ResetEntry], a);
    assert [ResetEntry][..0] == [] && Names([ResetEntry]) == [];
  }

  lemma UnalikeCons(x: string, names: seq<string>)
    requires forall y | y in names :: !SameFamily(x, y)
    ensures Unalike([x] + names) <==> Unalike(names)
  {
    var all := [x] + names;
    assert forall i | 0 <= i < |names| :: all[i + 1] == names[i];
    forall j | 0 < j < |all| ensures !SameFamily(all[j], all[0]) {
      assert all[j] == names[j - 1] && names[j - 1] in names;
      assert !SameFamily(x, all[j]);
    }
    if Unalike(all) {
      forall i, j | 0 <= i < j < |names| ensures !SameFamily(names[j], names[i]) {
        assert !SameFamily(all[j + 1], all[i + 1]);
      }
    }
  }

  /** The level's own family, listed, is unlike every other row. */
  lemma {:induction false} SavedIsUnlike(
    bundled: seq<string>, system: seq<string>, own: Option<string>, matches: string -> bool)
    ensures var rest := Filtered(bundled, matches) + Filtered(system, matches);
            Unalike(Filtered(Saved(bundled, system, own), matches) + rest) <==> Unalike(rest)
  {
    var saved, rest := Saved(bundled, system, own), Filtered(bundled, matches) + Filtered(system, matches);
    if saved == [] {
      assert Filtered(saved, matches) + rest == rest;
    } else {
      var x := own.value;
      assert saved == [x] && saved[..0] == [];
      forall y | y in rest ensures !SameFamily(x, y) {
        FilteredHas(bundled, matches, y);
        FilteredHas(system, matches, y);
        assert y in bundled + system;
      }
      UnalikeCons(x, rest);
      assert Filtered(saved, matches) == (if matches(x) then [x] else []);
      assert [] + rest == rest;
    }
  }

  /**
   Down from the top reaches every row that picks something if and only if no
   two of the bundled and installed families that match the filter differ in
   case alone.
   */
  lemma DownReachesAllIff(bundled: seq<string>, system: seq<string>, own: Option<string>, matches: string -> bool,
                          chosen: Option<string>)
    ensures var entries := FamilyEntries(bundled, system, own, matches);
            (forall k | 0 <= k < |entries| && Pickable(entries[k]) :: Reached(entries, chosen, k))
            <==> Unalike(Filtered(bundled, matches) + Filtered(system, matches))
  {
    var entries := FamilyEntries(bundled, system, own, matches);
    EntryNames(bundled, system, own, matches);
    SavedIsUnlike(bundled, system, own, matches);
    RepeatsIff(entries);
    forall k | 0 <= k < |entries| && Pickable(entries[k])
      ensures Reached(entries, chosen, k) <==> forall j | 0 <= j <= k :: !Repeats(entries, j)
    {
      DownReachesIff(entries, chosen, k);
    }
  }

  /** A bundled family installed under another case: Down never gets to the families after it. */
  lemma TwinStopsDown(chosen: Option<string>)
    ensures var entries := FamilyEntries(["Fira Code"], ["FIRA CODE", "Menlo"], None, _ => true);
            entries == [ResetEntry, Header("Bundled"), Family("Fira Code", false), Header("System"),
                        Family("FIRA CODE", false), Family("Menlo", false)]
            && !Reached(entries, chosen, 5)
  {
    var entries := FamilyEntries(["Fira Code"], ["FIRA CODE", "Menlo"], None, _ => true);
    var shown := [ResetEntry, Header("Bundled"), Family("Fira Code", false), Header("System"),
                  Family("FIRA CODE", false), Family("Menlo", false)];
    assert ["Fira Code"][..0] == [] && ["FIRA CODE", "Menlo"][..1] == ["FIRA CODE"] && ["FIRA CODE"][..0] == [];
    assert entries == shown;
    assert Picks(entries[2], PickFamily("FIRA CODE"));
    assert Repeats(entries, 4);
    DownReachesIff(entries, chosen, 5);
  }
}
