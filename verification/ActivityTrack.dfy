/**
 The Dashboard's activity track: stretches clipped to a window, merged into
 spans, totalled, and placed on a bar. Times are whole ticks; a span holds the
 instants from its start up to, not including, its end.
 */
module ActivityTrack {
  import opened Common

  datatype Kind = SessionKind | Dispatch | Hold | GapKind | UnknownKind
  datatype Activity = Working | Asking | Idle | UnknownActivity

  datatype Segment = Segment(kind: Kind, activity: Option<Activity>, from: int, to: Option<int>)

  datatype Span = Span(from: int, to: int)

  /** Ticks in an hour: nanoseconds. */
  const HOUR: int := 3_600_000_000_000

  datatype Window = Window(end: int, hours: nat) {
    function Start(): int { end - hours * HOUR }
  }

  function Min(a: int, b: int): int { if a < b then a else b }

  /** What the window shows of the segment, one still open reaching up to the window's end. */
  function Clip(w: Window, s: Segment): Option<Span> {
    var from := Max(s.from, w.Start());
    var to := Min(if s.to.Some? then s.to.value else w.end, w.end);
    if from < to then Some(Span(from, to)) else None
  }

  /** The segment was under way at instant `t`. */
  predicate Active(w: Window, s: Segment, t: int) {
    s.from <= t && (s.to.Some? ==> t < s.to.value) && w.Start() <= t < w.end
  }

  /** Clipping keeps exactly the instants of the segment that lie in the window. */
  lemma ClipKeepsInstants(w: Window, s: Segment, t: int)
    ensures Active(w, s, t) <==> Clip(w, s).Some? && Clip(w, s).value.from <= t < Clip(w, s).value.to
  {
  }

  // ----- spans

  predicate Before(a: Span, b: Span) { a.from < b.from || (a.from == b.from && a.to <= b.to) }

  ghost predicate Sorted(spans: seq<Span>) {
    forall i, j | 0 <= i < j < |spans| :: Before(spans[i], spans[j])
  }

  ghost predicate Proper(spans: seq<Span>) {
    forall i | 0 <= i < |spans| :: spans[i].from < spans[i].to
  }

  ghost predicate Covers(spans: seq<Span>, t: int) {
    exists i :: 0 <= i < |spans| && spans[i].from <= t < spans[i].to
  }

  /** Non-empty spans in order, with time between each two neighbours. */
  ghost predicate Separated(spans: seq<Span>) {
    Proper(spans) && forall i, j | 0 <= i < j < |spans| :: spans[i].to < spans[j].from
  }

  function Inserted(span: Span, spans: seq<Span>): seq<Span> {
    if spans == [] || Before(span, spans[0]) then [span] + spans else [spans[0]] + Inserted(span, spans[1..])
  }

  lemma {:induction false} InsertedMultiset(span: Span, spans: seq<Span>)
    ensures multiset(Inserted(span, spans)) == multiset(spans) + multiset{span}
  {
    if spans == [] || Before(span, spans[0]) {
    } else {
      InsertedMultiset(span, spans[1..]);
      assert spans == [spans[0]] + spans[1..];
    }
  }

  lemma {:induction false} InsertedSorts(span: Span, spans: seq<Span>)
    requires Sorted(spans)
    ensures Sorted(Inserted(span, spans))
  {
    if spans == [] || Before(span, spans[0]) {
    } else {
      var rest := Inserted(span, spans[1..]);
      InsertedSorts(span, spans[1..]);
      InsertedMultiset(span, spans[1..]);
      forall k | 0 <= k < |rest| ensures Before(spans[0], rest[k]) {
        assert rest[k] in multiset(rest);
        assert rest[k] == span || rest[k] in spans[1..];
      }
    }
  }

  /** The spans in order: what `sort_unstable` gives, the order being total. */
  function SortedSpans(spans: seq<Span>): seq<Span> {
    if spans == [] then [] else Inserted(spans[0], SortedSpans(spans[1..]))
  }

  lemma {:induction false} SortedSpansSorts(spans: seq<Span>)
    ensures Sorted(SortedSpans(spans)) && multiset(SortedSpans(spans)) == multiset(spans)
  {
    if spans == [] {
    } else {
      SortedSpansSorts(spans[1..]);
      InsertedSorts(spans[0], SortedSpans(spans[1..]));
      InsertedMultiset(spans[0], SortedSpans(spans[1..]));
      assert spans == [spans[0]] + spans[1..];
    }
  }

  lemma CoversIn(spans: seq<Span>, t: int)
    ensures Covers(spans, t) <==> exists s :: s in multiset(spans) && s.from <= t < s.to
  {
    if s :| s in multiset(spans) && s.from <= t < s.to {
      assert s in spans;
    }
    if i :| 0 <= i < |spans| && spans[i].from <= t < spans[i].to {
      assert spans[i] in multiset(spans);
    }
  }

  // ----- merging

  predicate Counts(s: Segment, activity: Activity) {
    s.kind == SessionKind && s.activity == Some(activity)
  }

  /** The session was at `activity` at instant `t`. */
  ghost predicate Busy(segments: seq<Segment>, w: Window, activity: Activity, t: int) {
    exists i :: 0 <= i < |segments| && Counts(segments[i], activity) && Active(w, segments[i], t)
  }

  function Clipped(segments: seq<Segment>, w: Window, activity: Activity): seq<Span> {
    if segments == [] then []
    else
      var rest := Clipped(segments[..|segments| - 1], w, activity);
      var last := segments[|segments| - 1];
      if Counts(last, activity) && Clip(w, last).Some? then rest + [Clip(w, last).value] else rest
  }

  lemma CoversSnoc(spans: seq<Span>, span: Span, t: int)
    ensures Covers(spans + [span], t) <==> Covers(spans, t) || span.from <= t < span.to
  {
    var all := spans + [span];
    assert all[|spans|] == span;
    if i :| 0 <= i < |spans| && spans[i].from <= t < spans[i].to {
      assert all[i] == spans[i];
    }
  }

  lemma {:induction false} ClippedCovers(segments: seq<Segment>, w: Window, activity: Activity, t: int)
    ensures Proper(Clipped(segments, w, activity))
    ensures Covers(Clipped(segments, w, activity), t) <==> Busy(segments, w, activity, t)
  {
    if segments == [] {
    } else {
      var n := |segments| - 1;
      var init, last := segments[..n], segments[n];
      ClippedCovers(init, w, activity, t);
      ClipKeepsInstants(w, last, t);
      var rest := Clipped(init, w, activity);
      if Counts(last, activity) && Clip(w, last).Some? {
        CoversSnoc(rest, Clip(w, last).value, t);
      }
      if Busy(init, w, activity, t) {
        var i :| 0 <= i < n && Counts(init[i], activity) && Active(w, init[i], t);
        assert segments[i] == init[i];
      }
      if Busy(segments, w, activity, t) {
        var i :| 0 <= i < |segments| && Counts(segments[i], activity) && Active(w, segments[i], t);
        if i < n { assert init[i] == segments[i]; }
      }
    }
  }

  /** One more span, in order, folded into what is merged so far. */
  function Merged(merged: seq<Span>, span: Span): seq<Span> {
    var n := |merged|;
    if n > 0 && span.from <= merged[n - 1].to
    then merged[n - 1 := Span(merged[n - 1].from, Max(span.to, merged[n - 1].to))]
    else merged + [span]
  }

  lemma MergedSeparates(merged: seq<Span>, span: Span)
    requires Separated(merged) && span.from < span.to
    requires merged != [] ==> merged[|merged| - 1].from <= span.from
    ensures Separated(Merged(merged, span))
    ensures Merged(merged, span)[|Merged(merged, span)| - 1].from <= span.from
  {
    var n, next := |merged|, Merged(merged, span);
    assert forall i | 0 <= i < n - 1 :: next[i] == merged[i];
  }

  lemma MergedCovers(merged: seq<Span>, span: Span, t: int)
    requires Proper(merged) && span.from < span.to
    requires merged != [] ==> merged[|merged| - 1].from <= span.from
    ensures Covers(Merged(merged, span), t) <==> Covers(merged, t) || span.from <= t < span.to
  {
    var n, next := |merged|, Merged(merged, span);
    if Covers(merged, t) {
      var i :| 0 <= i < n && merged[i].from <= t < merged[i].to;
      assert next[i].from <= t < next[i].to;
    }
    if span.from <= t < span.to {
      var k := |next| - 1;
      assert next[k].from <= t < next[k].to;
    }
    if Covers(next, t) && !(span.from <= t < span.to) {
      var i :| 0 <= i < |next| && next[i].from <= t < next[i].to;
      assert i < n;
      assert merged[i].from <= t < merged[i].to;
    }
  }

  /** What the merge loop makes of spans in order. */
  function MergedAll(spans: seq<Span>): seq<Span> {
    if spans == [] then [] else Merged(MergedAll(spans[..|spans| - 1]), spans[|spans| - 1])
  }

  lemma {:induction false} MergedAllSeparates(spans: seq<Span>, t: int)
    requires Sorted(spans) && Proper(spans)
    ensures Separated(MergedAll(spans))
    ensures Covers(MergedAll(spans), t) <==> Covers(spans, t)
    ensures spans != [] ==> MergedAll(spans) != []
                            && MergedAll(spans)[|MergedAll(spans)| - 1].from <= spans[|spans| - 1].from
  {
    if spans == [] {
    } else {
      var n := |spans| - 1;
      MergedAllSeparates(spans[..n], t);
      assert n > 0 ==> Before(spans[n - 1], spans[n]);
      MergedSeparates(MergedAll(spans[..n]), spans[n]);
      MergedCovers(MergedAll(spans[..n]), spans[n], t);
      PrefixCovers(spans, n, t);
      assert spans[..n + 1] == spans;
    }
  }

  /**
   The merged spans of one activity: in order, apart,
   and covering exactly the instants the session was at it.
   */
  method StretchUnion(segments: seq<Segment>, w: Window, activity: Activity) returns (merged: seq<Span>)
    ensures Separated(merged)
    ensures forall t :: Covers(merged, t) <==> Busy(segments, w, activity, t)
  {
    var clipped: seq<Span> := [];
    for i := 0 to |segments|
      invariant clipped == Clipped(segments[..i], w, activity)
    {
      assert segments[..i + 1][..i] == segments[..i];
      if Counts(segments[i], activity) {
        var span := Clip(w, segments[i]);
        if span.Some? {
          clipped := clipped + [span.value];
        }
      }
    }
    assert segments[..|segments|] == segments;
    var spans := SortedSpans(clipped);
    merged := [];
    for i := 0 to |spans|
      invariant merged == MergedAll(spans[..i])
    {
      assert spans[..i + 1][..i] == spans[..i];
      var (from, to) := (spans[i].from, spans[i].to);
      if merged != [] && from <= merged[|merged| - 1].to {
        var last := merged[|merged| - 1];
        merged := merged[|merged| - 1 := Span(last.from, Max(to, last.to))];
      } else {
        merged := merged + [spans[i]];
      }
    }
    assert spans[..|spans|] == spans;
    UnionIsExact(segments, w, activity);
  }

  /** Clipping, sorting and merging give separated spans of exactly the busy instants. */
  lemma UnionIsExact(segments: seq<Segment>, w: Window, activity: Activity)
    ensures var merged := MergedAll(SortedSpans(Clipped(segments, w, activity)));
            Separated(merged) && forall t :: Covers(merged, t) <==> Busy(segments, w, activity, t)
  {
    var clipped := Clipped(segments, w, activity);
    var spans := SortedSpans(clipped);
    ClippedCovers(segments, w, activity, 0);
    SortedProper(clipped);
    SortedSpansSorts(clipped);
    MergedAllSeparates(spans, 0);
    forall t ensures Covers(MergedAll(spans), t) <==> Busy(segments, w, activity, t) {
      MergedAllSeparates(spans, t);
      CoversIn(spans, t);
      CoversIn(clipped, t);
      ClippedCovers(segments, w, activity, t);
    }
  }

  lemma PrefixCovers(spans: seq<Span>, i: nat, t: int)
    requires i < |spans|
    ensures Covers(spans[..i + 1], t) <==> Covers(spans[..i], t) || spans[i].from <= t < spans[i].to
  {
    if Covers(spans[..i], t) {
      var k :| 0 <= k < i && spans[..i][k].from <= t < spans[..i][k].to;
      assert spans[..i + 1][k] == spans[..i][k];
    }
    if Covers(spans[..i + 1], t) {
      var k :| 0 <= k < i + 1 && spans[..i + 1][k].from <= t < spans[..i + 1][k].to;
      if k < i { assert spans[..i][k] == spans[..i + 1][k]; }
    }
    if spans[i].from <= t < spans[i].to {
      assert spans[..i + 1][i] == spans[i];
    }
  }

  lemma SortedProper(spans: seq<Span>)
    requires Proper(spans)
    ensures Proper(SortedSpans(spans)) && Sorted(SortedSpans(spans))
  {
    SortedSpansSorts(spans);
    var sorted := SortedSpans(spans);
    forall i | 0 <= i < |sorted| ensures sorted[i].from < sorted[i].to {
      assert sorted[i] in multiset(spans);
    }
  }

  // ----- the union is determined by the instants alone

  lemma FirstInstant(a: seq<Span>, b: seq<Span>)
    requires Separated(a) && Separated(b) && b != []
    requires forall t :: Covers(b, t) ==> Covers(a, t)
    ensures a != [] && a[0].from <= b[0].from
  {
    assert b[0].from <= b[0].from < b[0].to;
    assert Covers(b, b[0].from);
    var i :| 0 <= i < |a| && a[i].from <= b[0].from < a[i].to;
    assert i > 0 ==> a[0].to < a[i].from;
  }

  /** The instant a separated list's first span ends is covered by nothing. */
  lemma GapAfterFirst(a: seq<Span>)
    requires Separated(a) && a != []
    ensures !Covers(a, a[0].to)
  {
    forall i | 0 <= i < |a| ensures !(a[i].from <= a[0].to < a[i].to) {
      assert i > 0 ==> a[0].to < a[i].from;
    }
  }

  lemma FirstEnd(a: seq<Span>, b: seq<Span>)
    requires Separated(a) && Separated(b) && a != [] && b != [] && a[0].from == b[0].from
    requires forall t :: Covers(b, t) ==> Covers(a, t)
    ensures b[0].to <= a[0].to
  {
    GapAfterFirst(a);
    var end := a[0].to;
    assert b[0].from <= end < b[0].to ==> Covers(b, end);
  }

  lemma TailCovers(a: seq<Span>, t: int)
    requires Separated(a) && a != []
    ensures Separated(a[1..])
    ensures Covers(a[1..], t) <==> Covers(a, t) && a[0].to <= t
  {
    if Covers(a[1..], t) {
      var i :| 0 <= i < |a[1..]| && a[1..][i].from <= t < a[1..][i].to;
      assert a[i + 1] == a[1..][i] && a[0].to < a[i + 1].from;
    }
    if Covers(a, t) && a[0].to <= t {
      var i :| 0 <= i < |a| && a[i].from <= t < a[i].to;
      assert a[1..][i - 1] == a[i];
    }
  }

  /** Separated spans that cover the same instants are the same spans. */
  lemma {:induction false} SeparatedIsUnique(a: seq<Span>, b: seq<Span>)
    requires Separated(a) && Separated(b) && forall t :: Covers(a, t) <==> Covers(b, t)
    ensures a == b
  {
    if b != [] {
      FirstInstant(a, b);
      FirstInstant(b, a);
      FirstEnd(a, b);
      FirstEnd(b, a);
      forall t ensures Covers(a[1..], t) <==> Covers(b[1..], t) {
        TailCovers(a, t);
        TailCovers(b, t);
      }
      TailCovers(a, 0);
      TailCovers(b, 0);
      SeparatedIsUnique(a[1..], b[1..]);
      assert a == [a[0]] + a[1..] && b == [b[0]] + b[1..];
    } else if a != [] {
      FirstInstant(b, a);
    }
  }

  /** Reordering or repeating segments changes neither the instants nor the merged spans. */
  lemma UnionIgnoresOrder(a: seq<Segment>, b: seq<Segment>, w: Window, activity: Activity, ma: seq<Span>, mb: seq<Span>)
    requires forall s :: s in a <==> s in b
    requires Separated(ma) && forall t :: Covers(ma, t) <==> Busy(a, w, activity, t)
    requires Separated(mb) && forall t :: Covers(mb, t) <==> Busy(b, w, activity, t)
    ensures BusyInstants(a, w, activity) == BusyInstants(b, w, activity) && ma == mb
  {
    forall t ensures Busy(a, w, activity, t) <==> Busy(b, w, activity, t) {
      if i :| 0 <= i < |a| && Counts(a[i], activity) && Active(w, a[i], t) {
        assert a[i] in b;
        var k :| 0 <= k < |b| && b[k] == a[i];
      }
      if i :| 0 <= i < |b| && Counts(b[i], activity) && Active(w, b[i], t) {
        assert b[i] in a;
        var k :| 0 <= k < |a| && a[k] == b[i];
      }
    }
    SeparatedIsUnique(ma, mb);
  }

  // ----- the total is a measure

  /** The instants of the window at which the session was at `activity`. */
  ghost function BusyInstants(segments: seq<Segment>, w: Window, activity: Activity): set<int> {
    set t | w.Start() <= t < w.end && Busy(segments, w, activity, t)
  }

  function Total(spans: seq<Span>): int {
    if spans == [] then 0 else Total(spans[..|spans| - 1]) + (spans[|spans| - 1].to - spans[|spans| - 1].from)
  }

  predicate Apart(a: Span, b: Span) { a.to <= b.from || b.to <= a.from }

  ghost predicate AllApart(spans: seq<Span>) {
    forall i, j | 0 <= i < j < |spans| :: Apart(spans[i], spans[j])
  }

  predicate Between(lo: int, t: int, hi: int) { lo <= t < hi }

  function Interval(lo: int, hi: int): set<int> { set t | lo <= t < hi && Between(lo, t, hi) }

  lemma {:induction false} IntervalSize(lo: int, hi: int)
    requires lo <= hi
    ensures |Interval(lo, hi)| == hi - lo
    decreases hi - lo
  {
    if lo == hi {
    } else {
      IntervalSize(lo, hi - 1);
      assert Interval(lo, hi) == Interval(lo, hi - 1) + {hi - 1};
    }
  }

  /** The instants of `lo` up to `hi` the spans cover. */
  ghost function Covered(spans: seq<Span>, lo: int, hi: int): set<int> {
    set t | lo <= t < hi && Covers(spans, t)
  }

  /** One more span that overlaps none of the others adds its own instants and no others. */
  lemma CoveredSplits(spans: seq<Span>, lo: int, hi: int)
    requires spans != [] && Proper(spans) && AllApart(spans)
    requires lo <= spans[|spans| - 1].from && spans[|spans| - 1].to <= hi
    ensures var n := |spans| - 1;
            && Covered(spans, lo, hi) == Covered(spans[..n], lo, hi) + Interval(spans[n].from, spans[n].to)
            && Covered(spans[..n], lo, hi) !! Interval(spans[n].from, spans[n].to)
  {
    var n := |spans| - 1;
    assert spans[..n + 1] == spans;
    forall t ensures Covers(spans, t) <==> Covers(spans[..n], t) || Between(spans[n].from, t, spans[n].to) {
      PrefixCovers(spans, n, t);
    }
    forall t | Covers(spans[..n], t) ensures !Between(spans[n].from, t, spans[n].to) {
      var i :| 0 <= i < n && spans[..n][i].from <= t < spans[..n][i].to;
      assert Apart(spans[i], spans[n]);
    }
  }

  /** The lengths of spans that do not overlap add up to the number of instants they cover. */
  lemma {:induction false} TotalCounts(spans: seq<Span>, lo: int, hi: int)
    requires Proper(spans) && AllApart(spans)
    requires forall i | 0 <= i < |spans| :: lo <= spans[i].from && spans[i].to <= hi
    ensures |Covered(spans, lo, hi)| == Total(spans)
  {
    if spans == [] {
      assert Covered(spans, lo, hi) == {};
    } else {
      var n := |spans| - 1;
      TotalCounts(spans[..n], lo, hi);
      IntervalSize(spans[n].from, spans[n].to);
      CoveredSplits(spans, lo, hi);
    }
  }

  lemma SeparatedInWindow(merged: seq<Span>, segments: seq<Segment>, w: Window, activity: Activity)
    requires Separated(merged) && forall t :: Covers(merged, t) <==> Busy(segments, w, activity, t)
    ensures AllApart(merged)
    ensures forall i | 0 <= i < |merged| :: w.Start() <= merged[i].from && merged[i].to <= w.end
  {
    forall i | 0 <= i < |merged| ensures w.Start() <= merged[i].from && merged[i].to <= w.end {
      assert merged[i].from <= merged[i].from < merged[i].to && merged[i].from <= merged[i].to - 1 < merged[i].to;
      assert Covers(merged, merged[i].from) && Covers(merged, merged[i].to - 1);
    }
  }

  /** The merged spans of a track add up to the number of its busy instants. */
  lemma UnionMeasures(merged: seq<Span>, segments: seq<Segment>, w: Window, activity: Activity)
    requires Separated(merged) && forall t :: Covers(merged, t) <==> Busy(segments, w, activity, t)
    ensures Total(merged) == |BusyInstants(segments, w, activity)| <= w.hours * HOUR
  {
    SeparatedInWindow(merged, segments, w, activity);
    TotalCounts(merged, w.Start(), w.end);
    assert Covered(merged, w.Start(), w.end) == BusyInstants(segments, w, activity);
    IntervalSize(w.Start(), w.end);
    SubsetSize(BusyInstants(segments, w, activity), Interval(w.Start(), w.end));
  }

  lemma {:induction false} SubsetSize(a: set<int>, b: set<int>)
    requires a <= b
    ensures |a| <= |b|
  {
    assert b == a + (b - a);
  }

  /** Busy time is the number of busy instants, and never more than the window holds. */
  method StretchSpan(segments: seq<Segment>, w: Window, activity: Activity) returns (total: int)
    ensures total == |BusyInstants(segments, w, activity)|
    ensures 0 <= total <= w.hours * HOUR
  {
    var merged := StretchUnion(segments, w, activity);
    total := 0;
    for i := 0 to |merged|
      invariant total == Total(merged[..i])
    {
      assert merged[..i + 1][..i] == merged[..i];
      total := total + (merged[i].to - merged[i].from);
    }
    assert merged[..|merged|] == merged;
    UnionMeasures(merged, segments, w, activity);
  }
}
