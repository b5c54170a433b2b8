/**
 The keyboard stops of the Appearance rows: the ring Tab walks, where the
 keyboard goes when its stop is lost, and which stops each level has.
 */
module AppearanceStops {
  import opened Common

  datatype ColorRow = AccentRow | BackgroundRow
  datatype SwatchLine = Presets | Recent
  datatype ResetRow = ColorReset(row: ColorRow) | FrameWidthReset | SizeReset | TermWeightReset

  datatype Stop =
    | Theme
    | Swatches(row: ColorRow, line: SwatchLine)
    | Hex(row: ColorRow)
    | Apply(row: ColorRow)
    | Reset(reset: ResetRow)
    | FrameWidthDown | FrameWidthUp
    | FamilyFilter | FamilyList
    | UiFamilyFilter | UiFamilyList
    | UiTextSizeDown | UiTextSizeUp
    | UiWeight(place: nat)
    | SizeDown | SizeUp
    | TermWeight(place: nat)
    | Close

  predicate CanDisable(stop: Stop) {
    || stop.Apply? || stop.Reset? || stop.FrameWidthDown? || stop.FrameWidthUp?
    || stop.UiTextSizeDown? || stop.UiTextSizeUp?
  }

  function ColorStops(row: ColorRow, hasRecent: bool): seq<Stop> {
    [Swatches(row, Presets)] + (if hasRecent then [Swatches(row, Recent)] else [])
    + [Hex(row), Apply(row), Reset(ColorReset(row))]
  }

  function TopStops(hasRecent: bool, appLevel: bool): seq<Stop> {
    if appLevel then [Theme] else ColorStops(AccentRow, hasRecent) + ColorStops(BackgroundRow, hasRecent)
  }

  const WIDTH_STOPS := [FrameWidthDown, FrameWidthUp, Reset(FrameWidthReset)]

  function UiStops(appLevel: bool): seq<Stop> {
    if appLevel
    then [UiFamilyFilter, UiFamilyList, UiTextSizeDown, UiTextSizeUp, UiWeight(0), UiWeight(1), UiWeight(2)]
    else []
  }

  const FONT_STOPS :=
    [FamilyFilter, FamilyList, SizeDown, SizeUp, Reset(SizeReset),
     TermWeight(0), TermWeight(1), TermWeight(2), TermWeight(3), Reset(TermWeightReset)]

  function EndStops(close: bool): seq<Stop> { if close then [Close] else [] }

  /** Every stop of a level, enabled or not, in reading order. */
  function FullOrder(hasRecent: bool, appLevel: bool, close: bool): seq<Stop> {
    TopStops(hasRecent, appLevel) + WIDTH_STOPS + UiStops(appLevel) + FONT_STOPS + EndStops(close)
  }

  /** A stop's place on the page, whichever stops a level has. */
  function Rank(stop: Stop): int {
    match stop
    case Theme => 0
    case Swatches(row, line) => RowRank(row) + (if line.Presets? then 0 else 1)
    case Hex(row) => RowRank(row) + 2
    case Apply(row) => RowRank(row) + 3
    case Reset(ColorReset(row)) => RowRank(row) + 4
    case FrameWidthDown => 11
    case FrameWidthUp => 12
    case Reset(FrameWidthReset) => 13
    case UiFamilyFilter => 14
    case UiFamilyList => 15
    case UiTextSizeDown => 16
    case UiTextSizeUp => 17
    case UiWeight(place) => if place < 3 then 18 + place else -1
    case FamilyFilter => 21
    case FamilyList => 22
    case SizeDown => 23
    case SizeUp => 24
    case Reset(SizeReset) => 25
    case TermWeight(place) => if place < 4 then 26 + place else -1
    case Reset(TermWeightReset) => 30
    case Close => 31
  }

  function RowRank(row: ColorRow): int { if row.AccentRow? then 1 else 6 }

  ghost predicate Ascending(stops: seq<Stop>) {
    forall i, j | 0 <= i < j < |stops| :: Rank(stops[i]) < Rank(stops[j])
  }

  ghost predicate Within(stops: seq<Stop>, lo: int, hi: int) {
    forall i | 0 <= i < |stops| :: lo <= Rank(stops[i]) < hi
  }

  lemma AscendingJoins(a: seq<Stop>, b: seq<Stop>, lo: int, mid: int, hi: int)
    requires Ascending(a) && Within(a, lo, mid) && Ascending(b) && Within(b, mid, hi) && lo <= mid <= hi
    ensures Ascending(a + b) && Within(a + b, lo, hi)
  {
  }

  lemma ColorStopsAscend(row: ColorRow, hasRecent: bool)
    ensures Ascending(ColorStops(row, hasRecent)) && Within(ColorStops(row, hasRecent), RowRank(row), RowRank(row) + 5)
  {
    var stops := ColorStops(row, hasRecent);
    assert forall i | 0 <= i < |stops| :: Rank(stops[i]) == RowRank(row) + (if i > 0 && !hasRecent then i + 1 else i);
  }

  lemma TopStopsAscend(hasRecent: bool, appLevel: bool)
    ensures Ascending(TopStops(hasRecent, appLevel)) && Within(TopStops(hasRecent, appLevel), 0, 11)
  {
    ColorStopsAscend(AccentRow, hasRecent);
    ColorStopsAscend(BackgroundRow, hasRecent);
    AscendingJoins(ColorStops(AccentRow, hasRecent), ColorStops(BackgroundRow, hasRecent), 1, 6, 11);
  }

  lemma WidthStopsAscend()
    ensures Ascending(WIDTH_STOPS) && Within(WIDTH_STOPS, 11, 14)
  {
    assert forall i | 0 <= i < |WIDTH_STOPS| :: Rank(WIDTH_STOPS[i]) == 11 + i;
  }

  lemma UiStopsAscend(appLevel: bool)
    ensures Ascending(UiStops(appLevel)) && Within(UiStops(appLevel), 14, 21)
  {
    var stops := UiStops(appLevel);
    assert forall i | 0 <= i < |stops| :: Rank(stops[i]) == 14 + i;
  }

  lemma FontStopsAscend()
    ensures Ascending(FONT_STOPS) && Within(FONT_STOPS, 21, 31)
  {
    var stops := FONT_STOPS;
    assert forall i | 0 <= i < |stops| :: Rank(stops[i]) == 21 + i;
  }

  /** Every level's stops stand in reading order, so none occurs twice. */
  lemma FullOrderAscends(hasRecent: bool, appLevel: bool, close: bool)
    ensures Ascending(FullOrder(hasRecent, appLevel, close))
  {
    var top, ui, end := TopStops(hasRecent, appLevel), UiStops(appLevel), EndStops(close);
    TopStopsAscend(hasRecent, appLevel);
    WidthStopsAscend();
    AscendingJoins(top, WIDTH_STOPS, 0, 11, 14);
    UiStopsAscend(appLevel);
    AscendingJoins(top + WIDTH_STOPS, ui, 0, 14, 21);
    FontStopsAscend();
    AscendingJoins(top + WIDTH_STOPS + ui, FONT_STOPS, 0, 21, 31);
    AscendingJoins(top + WIDTH_STOPS + ui + FONT_STOPS, end, 0, 31, 32);
  }

  /** Which stops a level has. */
  predicate OnLevel(stop: Stop, hasRecent: bool, appLevel: bool, close: bool) {
    match stop
    case Theme => appLevel
    case Swatches(_, line) => !appLevel && (line.Recent? ==> hasRecent)
    case Hex(_) => !appLevel
    case Apply(_) => !appLevel
    case Reset(ColorReset(_)) => !appLevel
    case UiFamilyFilter => appLevel
    case UiFamilyList => appLevel
    case UiTextSizeDown => appLevel
    case UiTextSizeUp => appLevel
    case UiWeight(place) => appLevel && place < 3
    case TermWeight(place) => place < 4
    case Close => close
    case _ => true
  }

  lemma ColorStopsHave(row: ColorRow, hasRecent: bool, stop: Stop)
    ensures stop in ColorStops(row, hasRecent) <==>
            stop in {Swatches(row, Presets), Hex(row), Apply(row), Reset(ColorReset(row))}
            || (hasRecent && stop == Swatches(row, Recent))
  {
  }

  /** The full order holds exactly the stops the level has. */
  lemma FullOrderHas(hasRecent: bool, appLevel: bool, close: bool, stop: Stop)
    ensures stop in FullOrder(hasRecent, appLevel, close) <==> OnLevel(stop, hasRecent, appLevel, close)
  {
    TopStopsHave(hasRecent, appLevel, stop);
    assert stop in WIDTH_STOPS <==> stop in {FrameWidthDown, FrameWidthUp, Reset(FrameWidthReset)};
    FontStopsHave(stop);
    UiStopsHave(appLevel, stop);
    assert stop in EndStops(close) <==> close && stop == Close;
    var top, ui := TopStops(hasRecent, appLevel), UiStops(appLevel);
    assert stop in FullOrder(hasRecent, appLevel, close) <==>
           stop in top || stop in WIDTH_STOPS || stop in ui || stop in FONT_STOPS || stop in EndStops(close);
  }

  lemma TopStopsHave(hasRecent: bool, appLevel: bool, stop: Stop)
    ensures stop in TopStops(hasRecent, appLevel) <==>
            match stop
            case Theme => appLevel
            case Swatches(_, line) => !appLevel && (line.Recent? ==> hasRecent)
            case Hex(_) => !appLevel
            case Apply(_) => !appLevel
            case Reset(ColorReset(_)) => !appLevel
            case _ => false
  {
    ColorStopsHave(AccentRow, hasRecent, stop);
    ColorStopsHave(BackgroundRow, hasRecent, stop);
    var rows := ColorStops(AccentRow, hasRecent) + ColorStops(BackgroundRow, hasRecent);
    assert stop in rows <==> stop in ColorStops(AccentRow, hasRecent) || stop in ColorStops(BackgroundRow, hasRecent);
    match stop {
      case Swatches(row, line) => assert (row.AccentRow? || row.BackgroundRow?) && (line.Presets? || line.Recent?);
      case Hex(row) => assert row.AccentRow? || row.BackgroundRow?;
      case Apply(row) => assert row.AccentRow? || row.BackgroundRow?;
      case Reset(ColorReset(row)) => assert row.AccentRow? || row.BackgroundRow?;
      case _ =>
    }
  }

  lemma UiStopsHave(appLevel: bool, stop: Stop)
    ensures stop in UiStops(appLevel) <==>
            && appLevel
            && (stop in {UiFamilyFilter, UiFamilyList, UiTextSizeDown, UiTextSizeUp}
                || (stop.UiWeight? && stop.place < 3))
  {
    if stop.UiWeight? && stop.place < 3 && appLevel {
      assert UiStops(true)[4 + stop.place] == stop;
    }
  }

  lemma FontStopsHave(stop: Stop)
    ensures stop in FONT_STOPS <==>
            stop in {FamilyFilter, FamilyList, SizeDown, SizeUp, Reset(SizeReset), Reset(TermWeightReset)}
            || (stop.TermWeight? && stop.place < 4)
  {
    assert FONT_STOPS[0] == FamilyFilter && FONT_STOPS[1] == FamilyList && FONT_STOPS[2] == SizeDown;
    assert FONT_STOPS[3] == SizeUp && FONT_STOPS[4] == Reset(SizeReset) && FONT_STOPS[9] == Reset(TermWeightReset);
    if stop.TermWeight? && stop.place < 4 {
      assert FONT_STOPS[5 + stop.place] == stop;
    }
  }

  /** The stops that are on whatever `enabled` says: fields, lists, swatches, weights, terminal sizes, Theme, Close. */
  lemma AlwaysOnIff(stop: Stop)
    ensures !CanDisable(stop) <==>
            || stop.Theme? || stop.Swatches? || stop.Hex? || stop.FamilyFilter? || stop.FamilyList?
            || stop.UiFamilyFilter? || stop.UiFamilyList? || stop.UiWeight? || stop.TermWeight?
            || stop.SizeDown? || stop.SizeUp? || stop.Close?
  {
  }

  /** The stops of `order` that are on now. */
  function Kept(order: seq<Stop>, enabled: Stop -> bool): seq<Stop> {
    if order == [] then []
    else
      var rest, last := Kept(order[..|order| - 1], enabled), order[|order| - 1];
      if !CanDisable(last) || enabled(last) then rest + [last] else rest
  }

  lemma {:induction false} KeptStop(order: seq<Stop>, enabled: Stop -> bool, stop: Stop)
    ensures stop in Kept(order, enabled) <==> stop in order && (!CanDisable(stop) || enabled(stop))
  {
    if order == [] {
    } else {
      KeptStop(order[..|order| - 1], enabled, stop);
      assert order == order[..|order| - 1] + [order[|order| - 1]];
    }
  }

  lemma {:induction false} KeptAscends(order: seq<Stop>, enabled: Stop -> bool)
    requires Ascending(order)
    ensures Ascending(Kept(order, enabled))
  {
    if order == [] {
    } else {
      var n := |order| - 1;
      KeptAscends(order[..n], enabled);
      var rest := Kept(order[..n], enabled);
      forall i | 0 <= i < |rest| ensures Rank(rest[i]) < Rank(order[n]) {
        KeptStop(order[..n], enabled, rest[i]);
        var k :| 0 <= k < n && order[..n][k] == rest[i];
      }
    }
  }

  /** Every stop of a level, pushed in reading order. */
  method AllStops(hasRecent: bool, appLevel: bool, close: bool) returns (all: seq<Stop>)
    ensures all == FullOrder(hasRecent, appLevel, close)
  {
    if appLevel {
      all := [Theme];
    } else {
      all := [];
      for i := 0 to 2
        invariant all == if i == 0 then []
                         else if i == 1 then ColorStops(AccentRow, hasRecent) else TopStops(hasRecent, false)
      {
        var row := if i == 0 then AccentRow else BackgroundRow;
        var line := [Swatches(row, Presets)];
        if hasRecent {
          line := line + [Swatches(row, Recent)];
        }
        line := line + [Hex(row), Apply(row), Reset(ColorReset(row))];
        assert line == ColorStops(row, hasRecent);
        all := all + line;
      }
    }
    all := all + WIDTH_STOPS;
    all := all + UiStops(appLevel);
    all := all + FONT_STOPS;
    all := all + EndStops(close);
  }

  /** The stops Tab walks: those of the full order that are on, in its order, each once. */
  method Stops(hasRecent: bool, appLevel: bool, close: bool, enabled: Stop -> bool) returns (ring: seq<Stop>)
    ensures Distinct(ring) && Ascending(ring)
    ensures forall stop ::
              stop in ring <==> OnLevel(stop, hasRecent, appLevel, close) && (!CanDisable(stop) || enabled(stop))
  {
    var all := AllStops(hasRecent, appLevel, close);
    ring := Retain(all, enabled);
    RingIsKept(hasRecent, appLevel, close, enabled);
    forall stop ensures stop in all <==> OnLevel(stop, hasRecent, appLevel, close) {
      FullOrderHas(hasRecent, appLevel, close, stop);
    }
  }

  /** Drops the stops that are off. */
  method Retain(all: seq<Stop>, enabled: Stop -> bool) returns (ring: seq<Stop>)
    ensures ring == Kept(all, enabled)
  {
    ring := [];
    for i := 0 to |all|
      invariant ring == Kept(all[..i], enabled)
    {
      assert all[..i + 1][..i] == all[..i];
      if !CanDisable(all[i]) || enabled(all[i]) {
        ring := ring + [all[i]];
      }
    }
    assert all[..|all|] == all;
  }

  lemma RingIsKept(hasRecent: bool, appLevel: bool, close: bool, enabled: Stop -> bool)
    ensures var order := FullOrder(hasRecent, appLevel, close);
            && Distinct(Kept(order, enabled)) && Ascending(Kept(order, enabled))
            && forall stop :: stop in Kept(order, enabled) <==> stop in order && (!CanDisable(stop) || enabled(stop))
  {
    var order := FullOrder(hasRecent, appLevel, close);
    FullOrderAscends(hasRecent, appLevel, close);
    KeptAscends(order, enabled);
    forall stop ensures stop in Kept(order, enabled) <==> stop in order && (!CanDisable(stop) || enabled(stop)) {
      KeptStop(order, enabled, stop);
    }
  }

  // ----- walking the ring

  /** One key press along the ring; off the ring it enters at the near end. */
  function Step<T(==)>(ring: seq<T>, at: Option<T>, back: bool): Option<T> {
    if ring == [] then None
    else
      var last := |ring| - 1;
      var place := if at.Some? then Position(ring, at.value) else None;
      Some(ring[match place
                case None => if back then last else 0
                case Some(index) =>
                  if back then (if index == 0 then last else index - 1)
                  else if index == last then 0 else index + 1])
  }

  /** The place a Tab or Shift-Tab from place `i` leads to. */
  function Beside(i: nat, size: nat, back: bool): nat
    requires i < size
  {
    if back then (if i == 0 then size - 1 else i - 1) else if i == size - 1 then 0 else i + 1
  }

  lemma StepsBeside<T>(ring: seq<T>, i: nat, back: bool)
    requires Distinct(ring) && i < |ring|
    ensures Step(ring, Some(ring[i]), back) == Some(ring[Beside(i, |ring|, back)])
  {
    PositionAt(ring, i);
  }

  /** With the keyboard on no stop of the ring, Tab enters at its first and Shift-Tab at its last. */
  lemma TabEnters<T>(ring: seq<T>, at: Option<T>, back: bool)
    requires at.None? || at.value !in ring
    ensures ring == [] ==> Step(ring, at, back) == None
    ensures ring != [] ==> Step(ring, at, back) == Some(if back then ring[|ring| - 1] else ring[0])
  {
  }

  /** Tab and Shift-Tab undo each other. */
  lemma TabsUndo<T>(ring: seq<T>, i: nat, back: bool)
    requires Distinct(ring) && i < |ring|
    ensures Step(ring, Step(ring, Some(ring[i]), back), !back) == Some(ring[i])
  {
    StepsBeside(ring, i, back);
    StepsBeside(ring, Beside(i, |ring|, back), !back);
  }

  function Tabs<T(==)>(ring: seq<T>, from: T, n: nat): Option<T> {
    if n == 0 then Some(from) else Step(ring, Tabs(ring, from, n - 1), false)
  }

  /** The place `k` on from `at`, round a ring of `size`. */
  function Round(at: nat, k: nat, size: nat): nat
    requires at < size && k <= size
  {
    if at + k < size then at + k else at + k - size
  }

  lemma RoundStep(i: nat, n: nat, size: nat)
    requires i < size && 0 < n <= size
    ensures Beside(Round(i, n - 1, size), size, false) == Round(i, n, size)
  {
  }

  /** After `n` Tabs, up to a whole round, the keyboard stands `n` places on. */
  lemma {:induction false} TabsWalk<T>(ring: seq<T>, i: nat, n: nat)
    requires Distinct(ring) && i < |ring| && n <= |ring|
    ensures Tabs(ring, ring[i], n) == Some(ring[Round(i, n, |ring|)])
  {
    if n == 0 {
    } else {
      TabsWalk(ring, i, n - 1);
      StepsBeside(ring, Round(i, n - 1, |ring|), false);
      RoundStep(i, n, |ring|);
    }
  }

  /** A ring's length of Tabs comes back, and passes each stop exactly once on the way. */
  lemma TabsVisitAll<T>(ring: seq<T>, i: nat, j: nat) returns (n: nat)
    requires Distinct(ring) && i < |ring| && j < |ring|
    ensures Tabs(ring, ring[i], |ring|) == Some(ring[i])
    ensures n < |ring| && Tabs(ring, ring[i], n) == Some(ring[j])
    ensures forall m | 0 <= m < |ring| && Tabs(ring, ring[i], m) == Some(ring[j]) :: m == n
  {
    TabsWalk(ring, i, |ring|);
    n := if i <= j then j - i else j + |ring| - i;
    TabsWalk(ring, i, n);
    forall m | 0 <= m < |ring| && Tabs(ring, ring[i], m) == Some(ring[j]) ensures m == n {
      TabsWalk(ring, i, m);
      assert ring[Round(i, m, |ring|)] == ring[Round(i, n, |ring|)];
    }
  }

  // ----- a lost stop

  /** The first of `order` from place `from` on that `ring` still holds. */
  function FirstHeld<T(==)>(order: seq<T>, ring: seq<T>): Option<T> {
    if order == [] then None else if order[0] in ring then Some(order[0]) else FirstHeld(order[1..], ring)
  }

  /** Where the keyboard goes when `stop` left the ring. */
  function AfterLost<T(==)>(order: seq<T>, ring: seq<T>, stop: T): Option<T> {
    var at := Position(order, stop);
    if at.None? then None else FirstHeld(order[at.value + 1..] + order[..at.value], ring)
  }

  lemma {:induction false} FirstHeldAt<T>(order: seq<T>, ring: seq<T>)
    ensures match FirstHeld(order, ring) {
              case None => forall k | 0 <= k < |order| :: order[k] !in ring
              case Some(x) => exists k :: 0 <= k < |order| && order[k] == x && x in ring
                                          && forall m | 0 <= m < k :: order[m] !in ring
            }
  {
    if order == [] || order[0] in ring {
    } else {
      FirstHeldAt(order[1..], ring);
      match FirstHeld(order[1..], ring) {
        case None =>
        case Some(x) =>
          var k :| && 0 <= k < |order[1..]| && order[1..][k] == x && x in ring
                   && forall m | 0 <= m < k :: order[1..][m] !in ring;
          assert order[k + 1] == x;
          forall m | 0 <= m < k + 1 ensures order[m] !in ring {
            if m > 0 { assert order[1..][m - 1] == order[m]; }
          }
      }
    }
  }

  /** A lost stop passes the keyboard to the next stop round the order that the ring still holds, if any does. */
  lemma AfterLostIsNext<T>(order: seq<T>, ring: seq<T>, at: nat)
    requires Distinct(order) && at < |order|
    ensures match AfterLost(order, ring, order[at]) {
              case None => forall k | 1 <= k < |order| :: order[Round(at, k, |order|)] !in ring
              case Some(x) => exists k :: 1 <= k < |order| && order[Round(at, k, |order|)] == x && x in ring
                                          && forall m | 1 <= m < k :: order[Round(at, m, |order|)] !in ring
            }
  {
    PositionAt(order, at);
    var size := |order|;
    var turned := order[at + 1..] + order[..at];
    forall k | 0 <= k < size - 1 ensures turned[k] == order[Round(at, k + 1, size)] {}
    FirstHeldAt(turned, ring);
    match AfterLost(order, ring, order[at]) {
      case None =>
        forall k | 1 <= k < size ensures order[Round(at, k, size)] !in ring { assert turned[k - 1] !in ring; }
      case Some(x) =>
        var k :| 0 <= k < |turned| && turned[k] == x && x in ring && forall m | 0 <= m < k :: turned[m] !in ring;
        forall m | 1 <= m < k + 1 ensures order[Round(at, m, size)] !in ring { assert turned[m - 1] !in ring; }
        assert order[Round(at, k + 1, size)] == x;
    }
  }
}
