/**
 The bounded list of recent colours. It is a window on the full history: the
 first twelve of the distinct colours pushed, newest first.
 */
module RecentColors {
  import opened Common
  import opened HexColor

  const LIMIT: nat := 12

  function Take<T>(s: seq<T>, n: nat): seq<T> { if |s| <= n then s else s[..n] }

  /** `s` without `x`. */
  function Without(s: seq<nat>, x: nat): (r: seq<nat>)
    ensures forall y :: y in r <==> y in s && y != x
  {
    if s == [] then []
    else
      var rest := Without(s[1..], x);
      assert forall y :: y in s <==> y == s[0] || y in s[1..];
      if s[0] == x then rest else [s[0]] + rest
  }

  /** The distinct values of `pushed`, the one pushed last first. */
  function NewestFirst(pushed: seq<nat>): seq<nat> {
    if pushed == [] then []
    else
      var last := pushed[|pushed| - 1];
      [last] + Without(NewestFirst(pushed[..|pushed| - 1]), last)
  }

  lemma {:induction false} WithoutAbsent(s: seq<nat>, x: nat)
    requires x !in s
    ensures Without(s, x) == s
  {
    if s == [] {
    } else {
      WithoutAbsent(s[1..], x);
    }
  }

  /** Removing a value keeps the order of the rest. */
  lemma {:induction false} WithoutKeepsOrder(s: seq<nat>, x: nat, i: nat, j: nat) returns (p: nat, q: nat)
    requires i < j < |Without(s, x)|
    ensures p < q < |s| && s[p] == Without(s, x)[i] && s[q] == Without(s, x)[j]
  {
    if s[0] == x {
      p, q := WithoutKeepsOrder(s[1..], x, i, j);
      p, q := p + 1, q + 1;
    } else if i > 0 {
      p, q := WithoutKeepsOrder(s[1..], x, i - 1, j - 1);
      p, q := p + 1, q + 1;
    } else {
      var y := Without(s, x)[j];
      assert y == Without(s[1..], x)[j - 1] && y in s[1..];
      var k :| 0 <= k < |s[1..]| && s[1..][k] == y;
      p, q := 0, k + 1;
    }
  }

  /** `p` is the last place of `x` in `s`. */
  ghost predicate LastAt(s: seq<nat>, x: nat, p: nat) {
    p < |s| && s[p] == x && forall k | p < k < |s| :: s[k] != x
  }

  /** The reference order: every pushed value once, by its last push, newest first. */
  lemma {:induction false} NewestFirstIsByLastPush(pushed: seq<nat>)
    ensures forall x :: x in NewestFirst(pushed) <==> x in pushed
    ensures Distinct(NewestFirst(pushed))
    ensures forall i, j, p, q | 0 <= i < j < |NewestFirst(pushed)| && LastAt(pushed, NewestFirst(pushed)[i], p)
              && LastAt(pushed, NewestFirst(pushed)[j], q) :: q < p
  {
    if pushed == [] {
    } else {
      var init, last := pushed[..|pushed| - 1], pushed[|pushed| - 1];
      NewestFirstIsByLastPush(init);
      var before, all := NewestFirst(init), NewestFirst(pushed);
      assert pushed == init + [last];
      assert forall x :: x in all <==> x == last || x in before;
      forall i, j | 0 <= i < j < |all| ensures all[i] != all[j] {
        OrderStep(before, last, i, j);
      }
      forall i, j, p, q | 0 <= i < j < |all| && LastAt(pushed, all[i], p) && LastAt(pushed, all[j], q) ensures q < p {
        OrderStep(before, last, i, j);
        if i > 0 {
          var a, b := WithoutKeepsOrder(before, last, i - 1, j - 1);
          assert LastAt(init, before[a], p) && LastAt(init, before[b], q);
        }
      }
    }
  }

  lemma OrderStep(before: seq<nat>, last: nat, i: nat, j: nat)
    requires Distinct(before) && i < j <= |Without(before, last)|
    ensures var all := [last] + Without(before, last);
            all[j] != last && all[i] != all[j] && (i > 0 ==> all[i] != last)
  {
    var rest := Without(before, last);
    assert rest[j - 1] in rest;
    if i > 0 {
      assert rest[i - 1] in rest;
      var a, b := WithoutKeepsOrder(before, last, i - 1, j - 1);
    }
  }

  /** Cutting the list before a push loses nothing the next cut would keep. */
  lemma {:induction false} CutThenPush(all: seq<nat>, x: nat, n: nat)
    requires Distinct(all)
    ensures Take(Without(Take(all, n + 1), x), n) == Take(Without(all, x), n)
  {
    if |all| <= n + 1 || (n == 0 && all[0] != x) {
    } else if all[0] == x {
      assert x !in all[1..];
      WithoutAbsent(all[1..], x);
      assert all[..n + 1][1..] == all[1..][..n] && x !in all[1..][..n];
      WithoutAbsent(all[1..][..n], x);
    } else {
      CutThenPush(all[1..], x, n - 1);
      assert all[..n + 1][1..] == all[1..][..n];
      var rest, cut := Without(all[1..], x), Without(all[1..][..n], x);
      assert Without(all, x) == [all[0]] + rest && Without(all[..n + 1], x) == [all[0]] + cut;
      assert Take(rest, n - 1) == Take(cut, n - 1);
      TakeCons(all[0], rest, n);
      TakeCons(all[0], cut, n);
    }
  }

  lemma TakeCons(x: nat, s: seq<nat>, n: nat)
    requires n > 0
    ensures Take([x] + s, n) == [x] + Take(s, n - 1)
  {
  }

  function HexAll(colors: seq<nat>): seq<string> {
    seq(|colors|, i requires 0 <= i < |colors| => Hex(colors[i]))
  }

  /** `recent` without the entries that read as colour `value`. */
  function Retained(recent: seq<string>, value: nat): seq<string> {
    if recent == [] then []
    else if ParseColor(recent[0]) == Some(value) then Retained(recent[1..], value)
    else [recent[0]] + Retained(recent[1..], value)
  }

  ghost predicate AllColors(s: seq<nat>) { forall i | 0 <= i < |s| :: s[i] < COLORS }

  lemma HexReads(color: nat)
    requires color < COLORS
    ensures ParseColor(Hex(color)) == Some(color)
  {
    HexRoundTrip(color);
  }

  lemma {:induction false} RetainedIsWithout(colors: seq<nat>, value: nat)
    requires AllColors(colors)
    ensures Retained(HexAll(colors), value) == HexAll(Without(colors, value))
  {
    if colors == [] {
    } else {
      var c := colors[0];
      HexReads(c);
      assert HexAll(colors)[1..] == HexAll(colors[1..]);
      RetainedIsWithout(colors[1..], value);
      assert HexAll([c] + Without(colors[1..], value)) == [Hex(c)] + HexAll(Without(colors[1..], value));
    }
  }

  /** The colours the entries read as, each once, in order: the fold `RecentSwatches` runs. */
  function Readable(recent: seq<string>): seq<nat> {
    if recent == [] then []
    else
      var rest := Readable(recent[..|recent| - 1]);
      var color := ParseColor(recent[|recent| - 1]);
      if color.None? || color.value in rest then rest else rest + [color.value]
  }

  /** The colours to offer from a stored list, whatever it holds. */
  method RecentSwatches(recent: seq<string>) returns (swatches: seq<nat>)
    ensures swatches == Take(Readable(recent), 12)
  {
    swatches := [];
    for i := 0 to |recent|
      invariant swatches == Readable(recent[..i])
    {
      assert recent[..i + 1][..i] == recent[..i];
      var color := ParseColor(recent[i]);
      if color.Some? && color.value !in swatches {
        swatches := swatches + [color.value];
      }
    }
    assert recent[..|recent|] == recent;
    swatches := Take(swatches, LIMIT);
  }

  lemma {:induction false} ReadableHolds(recent: seq<string>)
    ensures Distinct(Readable(recent))
    ensures forall x :: x in Readable(recent) <==> exists i :: 0 <= i < |recent| && ParseColor(recent[i]) == Some(x)
  {
    if recent == [] {
    } else {
      var n := |recent| - 1;
      ReadableHolds(recent[..n]);
      forall x ensures x in Readable(recent) <==> exists i :: 0 <= i < |recent| && ParseColor(recent[i]) == Some(x) {
        if x in Readable(recent[..n]) {
          var i :| 0 <= i < n && ParseColor(recent[..n][i]) == Some(x);
          assert ParseColor(recent[i]) == Some(x);
        }
        if i :| 0 <= i < |recent| && ParseColor(recent[i]) == Some(x) {
          if i < n { assert recent[..n][i] == recent[i]; }
        }
      }
    }
  }

  /** `p` is the first entry that reads as `x`. */
  ghost predicate FirstRead(recent: seq<string>, x: nat, p: nat) {
    p < |recent| && ParseColor(recent[p]) == Some(x) && forall k | 0 <= k < p :: ParseColor(recent[k]) != Some(x)
  }

  /** A colour the list already reads has its first entry before the last, and the same without it. */
  lemma {:induction false} FirstReadEarlier(recent: seq<string>, x: nat, p: nat)
    requires recent != [] && FirstRead(recent, x, p) && x in Readable(recent[..|recent| - 1])
    ensures p < |recent| - 1 && FirstRead(recent[..|recent| - 1], x, p)
  {
    var init := recent[..|recent| - 1];
    ReadableHolds(init);
    var i :| 0 <= i < |init| && ParseColor(init[i]) == Some(x);
    assert ParseColor(recent[i]) == Some(x);
  }

  lemma {:induction false} ReadEarly(recent: seq<string>, n: nat, q: nat)
    requires q < n <= |recent| && ParseColor(recent[q]).Some?
    ensures ParseColor(recent[q]).value in Readable(recent[..n])
  {
    ReadableHolds(recent[..n]);
    assert recent[..n][q] == recent[q];
  }

  lemma {:induction false} ReadableOrder(recent: seq<string>, i: nat, j: nat, p: nat, q: nat)
    requires i < j < |Readable(recent)|
    requires FirstRead(recent, Readable(recent)[i], p) && FirstRead(recent, Readable(recent)[j], q)
    ensures p < q
  {
    var n := |recent| - 1;
    var rest, all := Readable(recent[..n]), Readable(recent);
    assert all[i] == rest[i];
    FirstReadEarlier(recent, all[i], p);
    if j < |rest| {
      assert all[j] == rest[j];
      FirstReadEarlier(recent, all[j], q);
      ReadableOrder(recent[..n], i, j, p, q);
    } else if q < n {
      ReadEarly(recent, n, q);
    }
  }

  /** Each colour some entry of a stored list reads as is offered once, by its first entry, and nothing else is. */
  lemma {:induction false} ReadableIsDistinct(recent: seq<string>)
    ensures Distinct(Readable(recent))
    ensures forall x :: x in Readable(recent) <==> exists i :: 0 <= i < |recent| && ParseColor(recent[i]) == Some(x)
    ensures forall i, j, p, q | 0 <= i < j < |Readable(recent)| && FirstRead(recent, Readable(recent)[i], p)
              && FirstRead(recent, Readable(recent)[j], q) :: p < q
  {
    ReadableHolds(recent);
    forall i, j, p, q | 0 <= i < j < |Readable(recent)| && FirstRead(recent, Readable(recent)[i], p)
        && FirstRead(recent, Readable(recent)[j], q)
      ensures p < q
    {
      ReadableOrder(recent, i, j, p, q);
    }
  }

  lemma {:induction false} ReadsBack(colors: seq<nat>)
    requires Distinct(colors) && AllColors(colors)
    ensures Readable(HexAll(colors)) == colors
  {
    if colors == [] {
    } else {
      var n := |colors| - 1;
      assert HexAll(colors)[..n] == HexAll(colors[..n]);
      ReadsBack(colors[..n]);
      var texts := HexAll(colors);
      HexReads(colors[n]);
      assert texts[n] == Hex(colors[n]) && colors[n] !in colors[..n];
      assert Readable(texts) == Readable(texts[..n]) + [colors[n]];
    }
  }

  /** The recent list from empty, with every colour pushed so far as a ghost history. */
  class RecentList {
    var recent: seq<string>
    ghost var pushed: seq<nat>

    /** The list is the newest twelve distinct colours of the whole history. */
    ghost predicate Valid()
      reads this
    {
      AllColors(pushed) && recent == HexAll(Take(NewestFirst(pushed), LIMIT))
    }

    constructor ()
      ensures Valid() && pushed == []
    {
      recent, pushed := [], [];
    }

    method Push(color: string) returns (went: bool)
      requires Valid()
      modifies this
      ensures Valid()
      ensures went == ParseColor(color).Some?
      ensures pushed == if went then old(pushed) + [ParseColor(color).value] else old(pushed)
    {
      var parsed := ParseColor(color);
      if parsed.None? {
        return false;
      }
      var value := parsed.value;
      ghost var before := NewestFirst(pushed);
      recent := Take([Hex(value)] + Retained(recent, value), LIMIT);
      went := true;
      ParseThenHex(color);
      NewestFirstIsByLastPush(pushed);
      KeptAreColors(pushed);
      RetainedIsWithout(Take(before, LIMIT), value);
      PushStep(before, value);
      assert (pushed + [value])[..|pushed|] == pushed;
      pushed := pushed + [value];
    }

    /** Reads back exactly the colours kept. */
    method Swatches() returns (swatches: seq<nat>)
      requires Valid()
      ensures swatches == Take(NewestFirst(pushed), 12)
    {
      swatches := RecentSwatches(recent);
      NewestFirstIsByLastPush(pushed);
      KeptAreColors(pushed);
      ReadsBack(Take(NewestFirst(pushed), LIMIT));
    }
  }

  lemma KeptAreColors(pushed: seq<nat>)
    requires AllColors(pushed)
    ensures AllColors(NewestFirst(pushed)) && AllColors(Take(NewestFirst(pushed), LIMIT))
  {
    NewestFirstIsByLastPush(pushed);
    var all := NewestFirst(pushed);
    forall i | 0 <= i < |all| ensures all[i] < COLORS {
      assert all[i] in pushed;
    }
  }

  lemma PushStep(before: seq<nat>, value: nat)
    requires Distinct(before)
    ensures Take([Hex(value)] + HexAll(Without(Take(before, LIMIT), value)), LIMIT)
            == HexAll(Take([value] + Without(before, value), LIMIT))
  {
    CutThenPush(before, value, LIMIT - 1);
    var cut, all := Without(Take(before, LIMIT), value), Without(before, value);
    TakeCons(value, all, LIMIT);
    assert HexAll([value] + Take(cut, LIMIT - 1)) == [Hex(value)] + HexAll(Take(cut, LIMIT - 1));
    assert HexAll(Take(cut, LIMIT - 1)) == Take(HexAll(cut), LIMIT - 1);
  }
}
