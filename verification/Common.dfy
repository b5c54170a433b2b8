/** What the models share: an `Option`, the larger of two numbers, and the places of values in a list. */
module Common {
  datatype Option<+T> = None | Some(value: T)

  function Max(a: int, b: int): int { if a < b then b else a }

  /** Whether no value occurs twice in `s`. */
  ghost predicate Distinct<T>(s: seq<T>) {
    forall i, j | 0 <= i < j < |s| :: s[i] != s[j]
  }

  /** The first place of `x` in `s`. */
  function Position<T(==)>(s: seq<T>, x: T): (r: Option<nat>)
    ensures r.None? <==> x !in s
    ensures r.Some? ==> r.value < |s| && s[r.value] == x && x !in s[..r.value]
  {
    if s == [] then None
    else if s[0] == x then Some(0)
    else
      var rest := Position(s[1..], x);
      assert s == [s[0]] + s[1..];
      if rest.None? then None
      else
        assert s[..rest.value + 1] == [s[0]] + s[1..][..rest.value];
        Some(rest.value + 1)
  }

  /** In a list without repeats, the place of each value is its own. */
  lemma PositionAt<T>(s: seq<T>, i: nat)
    requires Distinct(s) && i < |s|
    ensures Position(s, s[i]) == Some(i)
  {
    assert s[Position(s, s[i]).value] == s[i];
  }

  function Dropped<T>(s: seq<T>, i: nat): seq<T>
    requires i < |s|
  {
    s[..i] + s[i + 1..]
  }

  /** Dropping an inner place keeps the last value, over the rest without that place. */
  lemma DroppedInit<T>(s: seq<T>, i: nat)
    requires i + 1 < |s|
    ensures var n, left := |s| - 1, Dropped(s, i);
            left[n - 1] == s[n] && left[..n - 1] == Dropped(s[..n], i) && s[..n][..i] == s[..i]
  {
  }

  lemma DroppedMultiset<T>(s: seq<T>, i: nat)
    requires i < |s|
    ensures multiset(Dropped(s, i)) == multiset(s) - multiset{s[i]}
    ensures s[i] in multiset(s)
  {
    assert s == s[..i] + [s[i]] + s[i + 1..];
  }

  lemma PlaceIn<T>(s: seq<T>, x: T) returns (p: nat)
    requires x in multiset(s)
    ensures p < |s| && s[p] == x
  {
    assert x in s;
    p :| 0 <= p < |s| && s[p] == x;
  }

  lemma DroppedKeeps<T>(s: seq<T>, i: nat, j: nat)
    requires i < |s| && j < |s| && i != j
    ensures s[j] in multiset(Dropped(s, i))
  {
    assert Dropped(s, i)[if j < i then j else j - 1] == s[j];
  }

  lemma OtherPlace<T>(s: seq<T>, p: nat, x: T) returns (q: nat)
    requires p < |s| && x in multiset(Dropped(s, p))
    ensures q < |s| && q != p && s[q] == x
  {
    var m := PlaceIn(Dropped(s, p), x);
    q := if m < p then m else m + 1;
  }

  /** Two places of a list have two places of their own in any rearrangement of it. */
  lemma TwoPlaces<T>(s: seq<T>, t: seq<T>, i: nat, j: nat) returns (p: nat, q: nat)
    requires multiset(s) == multiset(t) && i < |t| && j < |t| && i != j
    ensures p < |s| && q < |s| && p != q && s[p] == t[i] && s[q] == t[j]
  {
    DroppedMultiset(t, i);
    p := PlaceIn(s, t[i]);
    DroppedMultiset(s, p);
    DroppedKeeps(t, i, j);
    q := OtherPlace(s, p, t[j]);
  }

  /** A text longer than every one in use, and so none of them. */
  lemma {:induction false} FreshId(used: set<string>) returns (id: string)
    ensures forall x | x in used :: |x| < |id|
  {
    if used == {} {
      id := "";
    } else {
      var x :| x in used;
      var longer := FreshId(used - {x});
      id := seq(|longer| + |x| + 1, _ => 'a');
      assert forall y | y in used :: y == x || y in used - {x};
    }
  }
}
