/**
 The bar of an activity track: each segment's stretch as a fraction of the
 window, left to right. Fractions are exact reals.
 */
module BarRuns {
  import opened Common
  import opened ActivityTrack

  datatype RunKind = WorkingRun | AskingRun | IdleRun | FinishedRun | GapRun
  datatype BarRun = BarRun(start: real, width: real, kind: RunKind)

  /** Ticks as seconds, never below zero. */
  function Seconds(ticks: int): real {
    if ticks < 0 then 0.0 else ticks as real / 1_000_000_000.0
  }

  /** An instant's share of the window. */
  function Fraction(w: Window, at: int): real
    requires w.hours > 0
  {
    Seconds(at - w.Start()) / Seconds(w.end - w.Start())
  }

  function KindOf(s: Segment, finished: bool): Option<RunKind> {
    match (s.kind, s.activity)
    case (GapKind, _) => Some(GapRun)
    case (SessionKind, Some(Working)) => Some(WorkingRun)
    case (SessionKind, Some(Asking)) => Some(AskingRun)
    case (SessionKind, Some(Idle)) => if finished then Some(FinishedRun) else Some(IdleRun)
    case _ => None
  }

  /** The last of the session stretches that start latest, as `max_by_key` picks it. */
  function LastStretch(segments: seq<Segment>): (r: Option<nat>)
    ensures r.None? <==> forall i | 0 <= i < |segments| :: segments[i].kind != SessionKind
    ensures r.Some? ==> r.value < |segments| && segments[r.value].kind == SessionKind
  {
    if segments == [] then None
    else
      var n := |segments| - 1;
      var before := LastStretch(segments[..n]);
      if segments[n].kind != SessionKind then before
      else if before.None? || segments[before.value].from <= segments[n].from then Some(n)
      else before
  }

  /** No session stretch starts later, and none that starts as late stands after it. */
  lemma {:induction false} LastStretchIsLatest(segments: seq<Segment>, i: nat)
    requires i < |segments| && segments[i].kind == SessionKind
    ensures var last := LastStretch(segments).value;
            segments[i].from < segments[last].from || (segments[i].from == segments[last].from && i <= last)
  {
    var n := |segments| - 1;
    if i < n {
      assert segments[..n][i] == segments[i];
      LastStretchIsLatest(segments[..n], i);
    } else if LastStretch(segments[..n]).Some? {
      LastStretchIsLatest(segments[..n], LastStretch(segments[..n]).value);
    }
  }

  /** The run segment `i` draws, if it draws one. */
  function RunAt(segments: seq<Segment>, i: nat, w: Window, unseen: bool): Option<BarRun>
    requires i < |segments| && w.hours > 0
  {
    var kind := KindOf(segments[i], unseen && LastStretch(segments) == Some(i));
    var span := Clip(w, segments[i]);
    if kind.None? || span.None? then None
    else
      var start := Fraction(w, span.value.from);
      Some(BarRun(start, Fraction(w, span.value.to) - start, kind.value))
  }

  /** The runs of the first `n` segments, in the segments' order. */
  function RunsOf(segments: seq<Segment>, n: nat, w: Window, unseen: bool): seq<BarRun>
    requires n <= |segments| && w.hours > 0
  {
    if n == 0 then []
    else
      var rest := RunsOf(segments, n - 1, w, unseen);
      var run := RunAt(segments, n - 1, w, unseen);
      if run.Some? then rest + [run.value] else rest
  }

  ghost predicate LeftToRight(runs: seq<BarRun>) {
    forall i, j | 0 <= i < j < |runs| :: runs[i].start <= runs[j].start
  }

  function InsertedRun(run: BarRun, runs: seq<BarRun>): seq<BarRun> {
    if runs == [] || run.start <= runs[0].start then [run] + runs else [runs[0]] + InsertedRun(run, runs[1..])
  }

  lemma {:induction false} InsertedRunMultiset(run: BarRun, runs: seq<BarRun>)
    ensures multiset(InsertedRun(run, runs)) == multiset(runs) + multiset{run}
  {
    if runs == [] || run.start <= runs[0].start {
    } else {
      InsertedRunMultiset(run, runs[1..]);
      assert runs == [runs[0]] + runs[1..];
    }
  }

  lemma {:induction false} InsertedRunFloor(run: BarRun, runs: seq<BarRun>, low: real)
    requires low <= run.start && forall k | 0 <= k < |runs| :: low <= runs[k].start
    ensures forall k | 0 <= k < |InsertedRun(run, runs)| :: low <= InsertedRun(run, runs)[k].start
  {
    if runs == [] || run.start <= runs[0].start {
    } else {
      InsertedRunFloor(run, runs[1..], low);
    }
  }

  lemma {:induction false} InsertedRunSorts(run: BarRun, runs: seq<BarRun>)
    requires LeftToRight(runs)
    ensures LeftToRight(InsertedRun(run, runs))
  {
    if runs == [] || run.start <= runs[0].start {
    } else {
      InsertedRunSorts(run, runs[1..]);
      InsertedRunFloor(run, runs[1..], runs[0].start);
    }
  }

  /** The bar's runs: those of the segments, rearranged left to right. */
  method BarRunsOf(segments: seq<Segment>, w: Window, unseen: bool) returns (runs: seq<BarRun>)
    requires w.hours > 0
    ensures LeftToRight(runs)
    ensures multiset(runs) == multiset(RunsOf(segments, |segments|, w, unseen))
  {
    var drawn: seq<BarRun> := [];
    for i := 0 to |segments|
      invariant drawn == RunsOf(segments, i, w, unseen)
    {
      var run := RunAt(segments, i, w, unseen);
      if run.Some? {
        drawn := drawn + [run.value];
      }
    }
    runs := [];
    for i := 0 to |drawn|
      invariant LeftToRight(runs) && multiset(runs) == multiset(drawn[..i])
    {
      assert drawn[..i + 1] == drawn[..i] + [drawn[i]];
      InsertedRunSorts(drawn[i], runs);
      InsertedRunMultiset(drawn[i], runs);
      runs := InsertedRun(drawn[i], runs);
    }
    assert drawn[..|drawn|] == drawn;
  }

  // ----- geometry

  /** Positive width, inside the bar. */
  predicate OnBar(run: BarRun) { run.width > 0.0 && 0.0 <= run.start && run.start + run.width <= 1.0 }

  predicate Clear(a: BarRun, b: BarRun) { a.start + a.width <= b.start || b.start + b.width <= a.start }

  function Length(w: Window): int { w.hours * HOUR }

  /** Fractions keep the order of times, from 0 at the window's start to 1 at its end. */
  lemma FractionIsLinear(w: Window, at: int)
    requires w.hours > 0 && w.Start() <= at <= w.end
    ensures Fraction(w, at) == (at - w.Start()) as real / Length(w) as real
  {
    var n, d := (at - w.Start()) as real, Length(w) as real;
    var k := 1_000_000_000.0;
    assert d > 0.0;
    assert Fraction(w, at) == (n / k) / (d / k);
    assert (n / k) / (d / k) == n / d by { CancelScale(n, d, k); }
  }

  lemma CancelScale(n: real, d: real, k: real)
    requires d > 0.0 && k > 0.0
    ensures d / k > 0.0 && (n / k) / (d / k) == n / d
  {
    var x := n / d;
    assert n == x * d;
    assert n / k == x * (d / k);
  }

  lemma DivideDifference(a: real, b: real, d: real)
    requires d > 0.0
    ensures b / d - a / d == (b - a) / d
    ensures a < b ==> a / d < b / d
    ensures a <= b ==> a / d <= b / d
  {
  }

  /** A run is its clipped span, scaled to the bar. */
  lemma RunIsScaledSpan(segments: seq<Segment>, i: nat, w: Window, unseen: bool)
    requires i < |segments| && w.hours > 0 && RunAt(segments, i, w, unseen).Some?
    ensures Clip(w, segments[i]).Some?
    ensures var run, span, d := RunAt(segments, i, w, unseen).value, Clip(w, segments[i]).value, Length(w) as real;
            && d > 0.0
            && run.start == (span.from - w.Start()) as real / d
            && run.start + run.width == (span.to - w.Start()) as real / d
            && run.width == (span.to - span.from) as real / d
  {
    var span, d := Clip(w, segments[i]).value, Length(w) as real;
    FractionIsLinear(w, span.from);
    FractionIsLinear(w, span.to);
    DivideDifference((span.from - w.Start()) as real, (span.to - w.Start()) as real, d);
  }

  lemma RunIsOnBar(segments: seq<Segment>, i: nat, w: Window, unseen: bool)
    requires i < |segments| && w.hours > 0 && RunAt(segments, i, w, unseen).Some?
    ensures OnBar(RunAt(segments, i, w, unseen).value)
  {
    RunIsScaledSpan(segments, i, w, unseen);
    var span, d := Clip(w, segments[i]).value, Length(w) as real;
    DivideDifference(0.0, (span.to - span.from) as real, d);
    DivideDifference(0.0, (span.from - w.Start()) as real, d);
    DivideDifference((span.to - w.Start()) as real, d, d);
  }

  /** Where the runs come from: each place holds the run of a segment, in the segments' order. */
  lemma {:induction false} RunSource(segments: seq<Segment>, n: nat, w: Window, unseen: bool, k: nat) returns (i: nat)
    requires n <= |segments| && w.hours > 0 && k < |RunsOf(segments, n, w, unseen)|
    ensures i < n && RunAt(segments, i, w, unseen) == Some(RunsOf(segments, n, w, unseen)[k])
    ensures k == |RunsOf(segments, i, w, unseen)|
  {
    var rest := RunsOf(segments, n - 1, w, unseen);
    if k < |rest| {
      i := RunSource(segments, n - 1, w, unseen, k);
    } else {
      i := n - 1;
    }
  }

  /** Every run lies on the bar, whatever order the sort gave ties. */
  lemma RunsAreOnBar(segments: seq<Segment>, w: Window, unseen: bool, runs: seq<BarRun>)
    requires w.hours > 0 && multiset(runs) == multiset(RunsOf(segments, |segments|, w, unseen))
    ensures forall k | 0 <= k < |runs| :: OnBar(runs[k])
  {
    var drawn := RunsOf(segments, |segments|, w, unseen);
    forall k | 0 <= k < |runs| ensures OnBar(runs[k]) {
      assert runs[k] in multiset(runs);
      assert runs[k] in drawn;
      var p :| 0 <= p < |drawn| && drawn[p] == runs[k];
      var i := RunSource(segments, |segments|, w, unseen, p);
      RunIsOnBar(segments, i, w, unseen);
    }
  }

  /** Two places of the bar hold the runs of two different segments. */
  lemma TwoSources(segments: seq<Segment>, w: Window, unseen: bool, runs: seq<BarRun>, a: nat, b: nat)
    returns (i: nat, j: nat)
    requires w.hours > 0 && multiset(runs) == multiset(RunsOf(segments, |segments|, w, unseen))
    requires a < |runs| && b < |runs| && a != b
    ensures i < |segments| && j < |segments| && i != j
    ensures RunAt(segments, i, w, unseen) == Some(runs[a]) && RunAt(segments, j, w, unseen) == Some(runs[b])
  {
    var drawn := RunsOf(segments, |segments|, w, unseen);
    var p, q := TwoPlaces(drawn, runs, a, b);
    i := RunSource(segments, |segments|, w, unseen, p);
    j := RunSource(segments, |segments|, w, unseen, q);
  }

  /** At most one run shows as finished. */
  lemma OneFinished(segments: seq<Segment>, w: Window, unseen: bool, runs: seq<BarRun>, a: nat, b: nat)
    requires w.hours > 0 && multiset(runs) == multiset(RunsOf(segments, |segments|, w, unseen))
    requires a < |runs| && b < |runs| && runs[a].kind == FinishedRun && runs[b].kind == FinishedRun
    ensures a == b
  {
    if a != b {
      var i, j := TwoSources(segments, w, unseen, runs, a, b);
      assert false;
    }
  }

  /** The parts of two segments inside the window do not overlap. */
  ghost predicate ClippedApart(w: Window, s: Segment, t: Segment) {
    Clip(w, s).Some? && Clip(w, t).Some? ==> Apart(Clip(w, s).value, Clip(w, t).value)
  }

  predicate Draws(segments: seq<Segment>, i: nat, w: Window, unseen: bool)
    requires i < |segments| && w.hours > 0
  {
    RunAt(segments, i, w, unseen).Some?
  }

  /** Every two segments that draw a run do not overlap in the window. */
  ghost predicate DrawnApart(segments: seq<Segment>, w: Window, unseen: bool)
    requires w.hours > 0
  {
    forall i, j | 0 <= i < j < |segments| && Draws(segments, i, w, unseen) && Draws(segments, j, w, unseen) ::
      ClippedApart(w, segments[i], segments[j])
  }

  /** Each run starts where the one before it has ended, or later. */
  ghost predicate InSequence(runs: seq<BarRun>) {
    forall a, b | 0 <= a < b < |runs| :: runs[a].start + runs[a].width <= runs[b].start
  }

  /** Two segments' runs are clear of each other exactly when the segments are, inside the window. */
  lemma ClearIffApart(segments: seq<Segment>, w: Window, unseen: bool, i: nat, j: nat)
    requires w.hours > 0 && i < |segments| && j < |segments|
    requires RunAt(segments, i, w, unseen).Some? && RunAt(segments, j, w, unseen).Some?
    ensures Clear(RunAt(segments, i, w, unseen).value, RunAt(segments, j, w, unseen).value)
            <==> ClippedApart(w, segments[i], segments[j])
  {
    RunIsScaledSpan(segments, i, w, unseen);
    RunIsScaledSpan(segments, j, w, unseen);
    var a, b, d := Clip(w, segments[i]).value, Clip(w, segments[j]).value, Length(w) as real;
    ScalesOrder(a.to - w.Start(), b.from - w.Start(), d);
    ScalesOrder(b.to - w.Start(), a.from - w.Start(), d);
  }

  lemma ScalesOrder(a: int, b: int, d: real)
    requires d > 0.0
    ensures a as real / d <= b as real / d <==> a <= b
  {
    DivideDifference(a as real, b as real, d);
    DivideDifference(b as real, a as real, d);
  }

  lemma {:induction false} RunsGrow(segments: seq<Segment>, w: Window, unseen: bool, i: nat, j: nat)
    requires w.hours > 0 && i <= j <= |segments|
    ensures RunsOf(segments, i, w, unseen) <= RunsOf(segments, j, w, unseen)
    decreases j
  {
    if i == j {
    } else {
      RunsGrow(segments, w, unseen, i, j - 1);
    }
  }

  /** The runs of two segments have two places of their own on the bar. */
  lemma {:induction false} TwoRuns(
    segments: seq<Segment>, w: Window, unseen: bool, runs: seq<BarRun>, i: nat, j: nat) returns (a: nat, b: nat)
    requires w.hours > 0 && multiset(runs) == multiset(RunsOf(segments, |segments|, w, unseen))
    requires i < j < |segments| && RunAt(segments, i, w, unseen).Some? && RunAt(segments, j, w, unseen).Some?
    ensures a < |runs| && b < |runs| && a != b
    ensures RunAt(segments, i, w, unseen) == Some(runs[a]) && RunAt(segments, j, w, unseen) == Some(runs[b])
  {
    var drawn, p, q := RunsOf(segments, |segments|, w, unseen), |RunsOf(segments, i, w, unseen)|,
                       |RunsOf(segments, j, w, unseen)|;
    RunsGrow(segments, w, unseen, i + 1, j);
    RunsGrow(segments, w, unseen, i + 1, |segments|);
    RunsGrow(segments, w, unseen, j + 1, |segments|);
    assert drawn[p] == RunsOf(segments, i + 1, w, unseen)[p];
    assert drawn[q] == RunsOf(segments, j + 1, w, unseen)[q];
    a, b := TwoPlaces(runs, drawn, p, q);
  }

  /**
   The runs follow one another exactly when no two segments that draw one overlap
   in the window; holds and dispatches, which draw none, may lie over them.
   */
  lemma RunsDoNotOverlap(segments: seq<Segment>, w: Window, unseen: bool, runs: seq<BarRun>)
    requires w.hours > 0 && LeftToRight(runs) && multiset(runs) == multiset(RunsOf(segments, |segments|, w, unseen))
    ensures InSequence(runs) <==> DrawnApart(segments, w, unseen)
  {
    if DrawnApart(segments, w, unseen) {
      RunsAreOnBar(segments, w, unseen, runs);
      forall a, b | 0 <= a < b < |runs| ensures runs[a].start + runs[a].width <= runs[b].start {
        var i, j := TwoSources(segments, w, unseen, runs, a, b);
        ClearIffApart(segments, w, unseen, i, j);
        assert ClippedApart(w, segments[if i < j then i else j], segments[if i < j then j else i]);
        assert OnBar(runs[a]) && OnBar(runs[b]);
      }
    }
    if InSequence(runs) {
      forall i, j | 0 <= i < j < |segments| && Draws(segments, i, w, unseen) && Draws(segments, j, w, unseen)
        ensures ClippedApart(w, segments[i], segments[j])
      {
        var a, b := TwoRuns(segments, w, unseen, runs, i, j);
        ClearIffApart(segments, w, unseen, i, j);
      }
    }
  }

  // ----- widths

  /** The kinds of run a stretch of each activity may be drawn as; an unknown activity is not drawn. */
  function KindsOf(activity: Activity): set<RunKind> {
    match activity
    case Working => {WorkingRun}
    case Asking => {AskingRun}
    case Idle => {IdleRun, FinishedRun}
    case UnknownActivity => {}
  }

  /** The width of the bar the runs of some kinds take. */
  function WidthOf(runs: seq<BarRun>, kinds: set<RunKind>): real {
    if runs == [] then 0.0
    else WidthOf(runs[..|runs| - 1], kinds) + (if runs[|runs| - 1].kind in kinds then runs[|runs| - 1].width else 0.0)
  }

  lemma {:induction false} WidthDrops(s: seq<BarRun>, p: nat, kinds: set<RunKind>)
    requires p < |s|
    ensures WidthOf(s, kinds) == WidthOf(Dropped(s, p), kinds) + (if s[p].kind in kinds then s[p].width else 0.0)
  {
    var n := |s| - 1;
    if p == n {
      assert Dropped(s, p) == s[..n];
    } else {
      DroppedInit(s, p);
      WidthDrops(s[..n], p, kinds);
    }
  }

  lemma {:induction false} WidthIgnoresOrder(s: seq<BarRun>, t: seq<BarRun>, kinds: set<RunKind>)
    requires multiset(s) == multiset(t)
    ensures WidthOf(s, kinds) == WidthOf(t, kinds)
    decreases |t|
  {
    assert |multiset(s)| == |s| && |multiset(t)| == |t|;
    if t == [] {
    } else {
      var n := |t| - 1;
      DroppedMultiset(t, n);
      var p := PlaceIn(s, t[n]);
      DroppedMultiset(s, p);
      assert Dropped(t, n) == t[..n];
      WidthIgnoresOrder(Dropped(s, p), t[..n], kinds);
      WidthDrops(s, p, kinds);
    }
  }

  lemma WidthSnoc(runs: seq<BarRun>, run: BarRun, kinds: set<RunKind>)
    ensures WidthOf(runs + [run], kinds) == WidthOf(runs, kinds) + (if run.kind in kinds then run.width else 0.0)
  {
    assert (runs + [run])[..|runs|] == runs;
  }

  lemma TotalSnoc(spans: seq<Span>, span: Span)
    ensures Total(spans + [span]) == Total(spans) + (span.to - span.from)
  {
    assert (spans + [span])[..|spans|] == spans;
  }

  lemma DivideSum(a: int, b: int, d: real)
    requires d > 0.0
    ensures a as real / d + b as real / d == (a + b) as real / d
  {
  }

  /** A segment draws a run of an activity exactly when it counts as that activity and shows in the window. */
  lemma ActivityRunIff(segments: seq<Segment>, i: nat, w: Window, unseen: bool, activity: Activity)
    requires i < |segments| && w.hours > 0 && activity != UnknownActivity
    ensures (RunAt(segments, i, w, unseen).Some? && RunAt(segments, i, w, unseen).value.kind in KindsOf(activity))
            <==> Counts(segments[i], activity) && Clip(w, segments[i]).Some?
  {
  }

  /** One more segment adds its span to the width and to the total alike. */
  lemma ActivityStep(
    segments: seq<Segment>, i: nat, w: Window, unseen: bool, activity: Activity, rest: seq<BarRun>, spans: seq<Span>)
    requires i < |segments| && w.hours > 0 && RunAt(segments, i, w, unseen).Some?
    requires WidthOf(rest, KindsOf(activity)) == Total(spans) as real / Length(w) as real
    ensures Clip(w, segments[i]).Some?
    ensures var run := RunAt(segments, i, w, unseen).value;
            WidthOf(rest + [run], KindsOf(activity)) ==
            (if run.kind in KindsOf(activity) then Total(spans + [Clip(w, segments[i]).value])
             else Total(spans)) as real / Length(w) as real
  {
    var run := RunAt(segments, i, w, unseen).value;
    RunIsScaledSpan(segments, i, w, unseen);
    WidthSnoc(rest, run, KindsOf(activity));
    if run.kind in KindsOf(activity) {
      var span := Clip(w, segments[i]).value;
      TotalSnoc(spans, span);
      DivideSum(Total(spans), span.to - span.from, Length(w) as real);
    }
  }

  lemma {:induction false} ActivityWidth(segments: seq<Segment>, n: nat, w: Window, unseen: bool, activity: Activity)
    requires n <= |segments| && w.hours > 0 && activity != UnknownActivity
    ensures WidthOf(RunsOf(segments, n, w, unseen), KindsOf(activity))
            == Total(Clipped(segments[..n], w, activity)) as real / Length(w) as real
  {
    if n == 0 {
    } else {
      var i := n - 1;
      ActivityWidth(segments, i, w, unseen, activity);
      assert segments[..n][..i] == segments[..i] && segments[..n][i] == segments[i];
      ActivityRunIff(segments, i, w, unseen, activity);
      if RunAt(segments, i, w, unseen).Some? {
        ActivityStep(
          segments, i, w, unseen, activity, RunsOf(segments, i, w, unseen), Clipped(segments[..i], w, activity));
      }
    }
  }

  /** Each clipped span comes from a segment that counts, in order. */
  lemma {:induction false} ClippedSource(segments: seq<Segment>, w: Window, activity: Activity, k: nat) returns (i: nat)
    requires k < |Clipped(segments, w, activity)|
    ensures i < |segments| && Counts(segments[i], activity)
    ensures Clip(w, segments[i]) == Some(Clipped(segments, w, activity)[k])
    ensures k == |Clipped(segments[..i], w, activity)|
  {
    var n := |segments| - 1;
    var rest := Clipped(segments[..n], w, activity);
    if k < |rest| {
      i := ClippedSource(segments[..n], w, activity, k);
      assert segments[..n][..i] == segments[..i];
    } else {
      i := n;
    }
  }

  ghost predicate StretchesApart(segments: seq<Segment>, w: Window, activity: Activity) {
    forall i, j | 0 <= i < j < |segments| && Counts(segments[i], activity) && Counts(segments[j], activity) ::
      ClippedApart(w, segments[i], segments[j])
  }

  lemma ApartSpans(segments: seq<Segment>, w: Window, activity: Activity)
    requires StretchesApart(segments, w, activity)
    ensures AllApart(Clipped(segments, w, activity))
  {
    var spans := Clipped(segments, w, activity);
    forall a, b | 0 <= a < b < |spans| ensures Apart(spans[a], spans[b]) {
      var i := ClippedSource(segments, w, activity, a);
      var j := ClippedSource(segments, w, activity, b);
      if i < j {
        assert ClippedApart(w, segments[i], segments[j]);
      } else {
        assert ClippedApart(w, segments[j], segments[i]);
      }
    }
  }

  lemma UnionSize(a: set<int>, b: set<int>)
    ensures |a + b| <= |a| + |b|
    ensures |a + b| == |a| + |b| ==> a !! b
  {
    assert |a + b| == |a| + |b| - |a * b|;
    if |a * b| == 0 {
      assert a * b == {};
      forall x | x in a ensures x !in b {
        assert x in b ==> x in a * b;
      }
    }
  }

  lemma CoveredJoins(spans: seq<Span>, lo: int, hi: int)
    requires spans != [] && lo <= spans[|spans| - 1].from && spans[|spans| - 1].to <= hi
    ensures var n := |spans| - 1;
            Covered(spans, lo, hi) == Covered(spans[..n], lo, hi) + Interval(spans[n].from, spans[n].to)
  {
    var n := |spans| - 1;
    assert spans[..n + 1] == spans;
    forall t ensures Covers(spans, t) <==> Covers(spans[..n], t) || Between(spans[n].from, t, spans[n].to) {
      PrefixCovers(spans, n, t);
    }
  }

  lemma LastIsApart(spans: seq<Span>, lo: int, hi: int)
    requires spans != [] && Proper(spans) && AllApart(spans[..|spans| - 1])
    requires forall i | 0 <= i < |spans| :: lo <= spans[i].from && spans[i].to <= hi
    requires Covered(spans[..|spans| - 1], lo, hi) !! Interval(spans[|spans| - 1].from, spans[|spans| - 1].to)
    ensures AllApart(spans)
  {
    var n := |spans| - 1;
    forall i, j | 0 <= i < j < |spans| ensures Apart(spans[i], spans[j]) {
      if j < n {
        assert Apart(spans[..n][i], spans[..n][j]);
      } else if !Apart(spans[i], spans[j]) {
        SharedInstant(spans, i, n, lo, hi);
      }
    }
  }

  /** One more span covers at most its own length more, and so much only if it shares no instant. */
  lemma {:induction false} CoveredStep(spans: seq<Span>, lo: int, hi: int)
    requires spans != [] && Proper(spans) && forall i | 0 <= i < |spans| :: lo <= spans[i].from && spans[i].to <= hi
    ensures var n := |spans| - 1;
            var before, last := Covered(spans[..n], lo, hi), Interval(spans[n].from, spans[n].to);
            && |Covered(spans, lo, hi)| <= |before| + (spans[n].to - spans[n].from)
            && (|Covered(spans, lo, hi)| == |before| + (spans[n].to - spans[n].from) ==> before !! last)
  {
    var n := |spans| - 1;
    IntervalSize(spans[n].from, spans[n].to);
    CoveredJoins(spans, lo, hi);
    UnionSize(Covered(spans[..n], lo, hi), Interval(spans[n].from, spans[n].to));
  }

  /** Lengths add up to at least the instants covered, and to more as soon as two spans overlap. */
  lemma {:induction false} TotalIsAtLeastCovered(spans: seq<Span>, lo: int, hi: int)
    requires Proper(spans) && forall i | 0 <= i < |spans| :: lo <= spans[i].from && spans[i].to <= hi
    ensures |Covered(spans, lo, hi)| <= Total(spans)
    ensures |Covered(spans, lo, hi)| == Total(spans) ==> AllApart(spans)
  {
    if spans == [] {
      assert Covered(spans, lo, hi) == {};
    } else {
      var n := |spans| - 1;
      TotalIsAtLeastCovered(spans[..n], lo, hi);
      CoveredStep(spans, lo, hi);
      if |Covered(spans, lo, hi)| == Total(spans) {
        LastIsApart(spans, lo, hi);
      }
    }
  }

  lemma SharedInstant(spans: seq<Span>, i: nat, n: nat, lo: int, hi: int)
    requires i < n < |spans| && spans[i].from < spans[i].to && spans[n].from < spans[n].to && !Apart(spans[i], spans[n])
    requires lo <= spans[i].from && spans[i].to <= hi
    ensures !(Covered(spans[..n], lo, hi) !! Interval(spans[n].from, spans[n].to))
  {
    var t := Max(spans[i].from, spans[n].from);
    assert spans[..n][i].from <= t < spans[..n][i].to;
    assert Covers(spans[..n], t) && Between(spans[n].from, t, spans[n].to);
    assert t in Covered(spans[..n], lo, hi) && t in Interval(spans[n].from, spans[n].to);
  }

  /** A counting segment that shows has its own place among the clipped spans. */
  lemma {:induction false} ClippedPlace(segments: seq<Segment>, w: Window, activity: Activity, i: nat) returns (k: nat)
    requires i < |segments| && Counts(segments[i], activity) && Clip(w, segments[i]).Some?
    ensures k < |Clipped(segments, w, activity)| && Clipped(segments, w, activity)[k] == Clip(w, segments[i]).value
    ensures k == |Clipped(segments[..i], w, activity)|
  {
    var n := |segments| - 1;
    if i < n {
      assert segments[..n][..i] == segments[..i] && segments[..n][i] == segments[i];
      k := ClippedPlace(segments[..n], w, activity, i);
    } else {
      k := |Clipped(segments[..n], w, activity)|;
    }
  }

  lemma {:induction false} ClippedGrows(segments: seq<Segment>, w: Window, activity: Activity, i: nat, j: nat)
    requires i <= j <= |segments|
    ensures |Clipped(segments[..i], w, activity)| <= |Clipped(segments[..j], w, activity)|
    decreases j
  {
    if i == j {
    } else {
      assert segments[..j][..j - 1] == segments[..j - 1];
      ClippedGrows(segments, w, activity, i, j - 1);
    }
  }

  lemma SpansApartMeansApart(segments: seq<Segment>, w: Window, activity: Activity)
    requires AllApart(Clipped(segments, w, activity))
    ensures StretchesApart(segments, w, activity)
  {
    var spans := Clipped(segments, w, activity);
    forall i, j | 0 <= i < j < |segments| && Counts(segments[i], activity) && Counts(segments[j], activity)
      ensures ClippedApart(w, segments[i], segments[j])
    {
      if Clip(w, segments[i]).Some? && Clip(w, segments[j]).Some? {
        var a := ClippedPlace(segments, w, activity, i);
        var b := ClippedPlace(segments, w, activity, j);
        assert segments[..i + 1][..i] == segments[..i];
        ClippedGrows(segments, w, activity, i + 1, j);
        assert a < b && Apart(spans[a], spans[b]);
      }
    }
  }

  lemma QuotientsCompare(a: int, b: int, d: real)
    requires d > 0.0 && b <= a
    ensures b as real / d <= a as real / d
    ensures a as real / d == b as real / d <==> a == b
  {
    assert (a as real / d) * d == a as real && (b as real / d) * d == b as real;
  }

  /** The lengths of the working spans add up to no less than the busy instants, and to as many only if none overlap. */
  lemma TotalIff(segments: seq<Segment>, w: Window, activity: Activity)
    ensures |BusyInstants(segments, w, activity)| <= Total(Clipped(segments, w, activity))
    ensures Total(Clipped(segments, w, activity)) == |BusyInstants(segments, w, activity)|
            <==> StretchesApart(segments, w, activity)
  {
    var spans, busy := Clipped(segments, w, activity), BusyInstants(segments, w, activity);
    ClippedCovers(segments, w, activity, 0);
    forall t ensures Covers(spans, t) <==> Busy(segments, w, activity, t) {
      ClippedCovers(segments, w, activity, t);
    }
    assert Covered(spans, w.Start(), w.end) == busy;
    SpansInWindow(segments, w, activity);
    TotalIsAtLeastCovered(spans, w.Start(), w.end);
    if StretchesApart(segments, w, activity) {
      ApartSpans(segments, w, activity);
      TotalCounts(spans, w.Start(), w.end);
    } else if Total(spans) == |busy| {
      SpansApartMeansApart(segments, w, activity);
      assert false;
    }
  }

  /**
   An activity's share of the bar is never below its share of the window, and is
   that share exactly when no two of its stretches overlap in it.
   */
  lemma ShareIsBusyShareIff(
    segments: seq<Segment>, w: Window, unseen: bool, runs: seq<BarRun>, activity: Activity)
    requires w.hours > 0 && multiset(runs) == multiset(RunsOf(segments, |segments|, w, unseen))
    requires activity != UnknownActivity
    ensures WidthOf(runs, KindsOf(activity)) == |BusyInstants(segments, w, activity)| as real / Length(w) as real
            <==> StretchesApart(segments, w, activity)
    ensures WidthOf(runs, KindsOf(activity)) >= |BusyInstants(segments, w, activity)| as real / Length(w) as real
  {
    WidthIgnoresOrder(runs, RunsOf(segments, |segments|, w, unseen), KindsOf(activity));
    ActivityWidth(segments, |segments|, w, unseen, activity);
    assert segments[..|segments|] == segments;
    TotalIff(segments, w, activity);
    QuotientsCompare(
      Total(Clipped(segments, w, activity)), |BusyInstants(segments, w, activity)|, Length(w) as real);
  }

  /** The share of the window an activity takes. */
  ghost function BusyShare(segments: seq<Segment>, w: Window, activity: Activity): real
    requires w.hours > 0
  {
    |BusyInstants(segments, w, activity)| as real / Length(w) as real
  }

  /** The bar's shares kind by kind: working, asking, and idle with finished together. */
  lemma SharesByKind(segments: seq<Segment>, w: Window, unseen: bool, runs: seq<BarRun>)
    requires w.hours > 0 && multiset(runs) == multiset(RunsOf(segments, |segments|, w, unseen))
    ensures WidthOf(runs, {WorkingRun}) == BusyShare(segments, w, Working) <==> StretchesApart(segments, w, Working)
    ensures WidthOf(runs, {AskingRun}) == BusyShare(segments, w, Asking) <==> StretchesApart(segments, w, Asking)
    ensures WidthOf(runs, {IdleRun, FinishedRun}) == BusyShare(segments, w, Idle)
            <==> StretchesApart(segments, w, Idle)
  {
    ShareIsBusyShareIff(segments, w, unseen, runs, Working);
    ShareIsBusyShareIff(segments, w, unseen, runs, Asking);
    ShareIsBusyShareIff(segments, w, unseen, runs, Idle);
  }

  // ----- which segments draw which runs

  /** Stretch `i` starts latest of all session stretches, the last of those that do. */
  ghost predicate StartsLatest(segments: seq<Segment>, i: int) {
    && 0 <= i < |segments| && segments[i].kind == SessionKind
    && forall j | 0 <= j < |segments| && segments[j].kind == SessionKind ::
         segments[j].from < segments[i].from || (segments[j].from == segments[i].from && j <= i)
  }

  lemma {:induction false} StartsLatestIff(segments: seq<Segment>, i: nat)
    requires i < |segments|
    ensures LastStretch(segments) == Some(i) <==> StartsLatest(segments, i)
  {
    if segments[i].kind == SessionKind {
      LastStretchIsLatest(segments, i);
      forall j | 0 <= j < |segments| && segments[j].kind == SessionKind
        ensures var last := LastStretch(segments).value;
                segments[j].from < segments[last].from || (segments[j].from == segments[last].from && j <= last)
      {
        LastStretchIsLatest(segments, j);
      }
    }
  }

  /** A run of `runs` is the run some segment draws, and every segment that draws one has it there. */
  lemma {:induction false} DrawnOnBar(segments: seq<Segment>, w: Window, unseen: bool, runs: seq<BarRun>, run: BarRun)
    requires w.hours > 0 && multiset(runs) == multiset(RunsOf(segments, |segments|, w, unseen))
    ensures run in runs <==> exists i | 0 <= i < |segments| :: RunAt(segments, i, w, unseen) == Some(run)
  {
    var drawn := RunsOf(segments, |segments|, w, unseen);
    assert run in runs <==> run in multiset(runs);
    assert run in drawn <==> run in multiset(drawn);
    if run in drawn {
      var p :| 0 <= p < |drawn| && drawn[p] == run;
      var i := RunSource(segments, |segments|, w, unseen, p);
    }
    if i :| 0 <= i < |segments| && RunAt(segments, i, w, unseen) == Some(run) {
      RunsGrow(segments, w, unseen, i + 1, |segments|);
      var p := |RunsOf(segments, i, w, unseen)|;
      assert drawn[p] == RunsOf(segments, i + 1, w, unseen)[p];
    }
  }

  /** The latest stretch is `i`, an idle one that shows in the window. */
  ghost predicate EndsIdle(segments: seq<Segment>, w: Window, i: int) {
    StartsLatest(segments, i) && segments[i].activity == Some(Idle) && Clip(w, segments[i]).Some?
  }

  lemma {:induction false} FinishedAt(segments: seq<Segment>, i: nat, w: Window, unseen: bool)
    requires i < |segments| && w.hours > 0
    ensures (Draws(segments, i, w, unseen) && RunAt(segments, i, w, unseen).value.kind == FinishedRun)
            <==> unseen && EndsIdle(segments, w, i)
  {
    StartsLatestIff(segments, i);
  }

  ghost predicate HasFinished(runs: seq<BarRun>) {
    exists run | run in runs :: run.kind == FinishedRun
  }

  /**
   A finished run is on the bar exactly when the session has something unseen and
   its latest stretch is an idle one that shows in the window.
   */
  lemma {:induction false} FinishedIff(segments: seq<Segment>, w: Window, unseen: bool, runs: seq<BarRun>)
    requires w.hours > 0 && multiset(runs) == multiset(RunsOf(segments, |segments|, w, unseen))
    ensures HasFinished(runs) <==> unseen && exists i :: EndsIdle(segments, w, i)
  {
    if HasFinished(runs) {
      var run :| run in runs && run.kind == FinishedRun;
      DrawnOnBar(segments, w, unseen, runs, run);
      var i :| 0 <= i < |segments| && RunAt(segments, i, w, unseen) == Some(run);
      FinishedAt(segments, i, w, unseen);
    }
    if i :| unseen && EndsIdle(segments, w, i) {
      FinishedAt(segments, i, w, unseen);
      var run := RunAt(segments, i, w, unseen).value;
      DrawnOnBar(segments, w, unseen, runs, run);
    }
  }

  /** The part of the bar a segment shows over. */
  function Stretch(w: Window, s: Segment, kind: RunKind): BarRun
    requires w.hours > 0 && Clip(w, s).Some?
  {
    var span := Clip(w, s).value;
    BarRun(Fraction(w, span.from), Fraction(w, span.to) - Fraction(w, span.from), kind)
  }

  /** `s` is a gap that shows, and `run` its stretch of the bar. */
  ghost predicate GapAt(s: Segment, w: Window, run: BarRun)
    requires w.hours > 0
  {
    s.kind == GapKind && Clip(w, s).Some? && run == Stretch(w, s, GapRun)
  }

  lemma {:induction false} GapIsDrawn(segments: seq<Segment>, i: nat, w: Window, unseen: bool, run: BarRun)
    requires i < |segments| && w.hours > 0 && run.kind == GapRun
    ensures RunAt(segments, i, w, unseen) == Some(run) <==> GapAt(segments[i], w, run)
  {
  }

  /** A gap is drawn over its stretch exactly for each gap that shows. */
  lemma {:induction false} GapsAreDrawn(segments: seq<Segment>, w: Window, unseen: bool, runs: seq<BarRun>, run: BarRun)
    requires w.hours > 0 && multiset(runs) == multiset(RunsOf(segments, |segments|, w, unseen))
    requires run.kind == GapRun
    ensures run in runs <==>
            exists i | 0 <= i < |segments| :: GapAt(segments[i], w, run)
  {
    DrawnOnBar(segments, w, unseen, runs, run);
    forall i | 0 <= i < |segments|
      ensures RunAt(segments, i, w, unseen) == Some(run) <==> GapAt(segments[i], w, run)
    {
      GapIsDrawn(segments, i, w, unseen, run);
    }
  }

  /** Two stretches of work that overlap: the bar counts the hour they share twice. */
  lemma OverlapCountsTwice(unseen: bool)
    ensures var w := Window(4 * HOUR, 4);
            var segments := [Segment(SessionKind, Some(Working), 0, Some(2 * HOUR)),
                             Segment(SessionKind, Some(Working), HOUR, Some(3 * HOUR))];
            && !StretchesApart(segments, w, Working)
            && WidthOf(RunsOf(segments, 2, w, unseen), KindsOf(Working))
               > |BusyInstants(segments, w, Working)| as real / Length(w) as real
  {
    var w := Window(4 * HOUR, 4);
    var segments := [Segment(SessionKind, Some(Working), 0, Some(2 * HOUR)),
                     Segment(SessionKind, Some(Working), HOUR, Some(3 * HOUR))];
    assert Clip(w, segments[0]) == Some(Span(0, 2 * HOUR)) && Clip(w, segments[1]) == Some(Span(HOUR, 3 * HOUR));
    assert !ClippedApart(w, segments[0], segments[1]);
    ShareIsBusyShareIff(segments, w, unseen, RunsOf(segments, 2, w, unseen), Working);
  }

  lemma SpansInWindow(segments: seq<Segment>, w: Window, activity: Activity)
    ensures forall a | 0 <= a < |Clipped(segments, w, activity)| ::
              w.Start() <= Clipped(segments, w, activity)[a].from && Clipped(segments, w, activity)[a].to <= w.end
  {
    var spans := Clipped(segments, w, activity);
    forall a | 0 <= a < |spans| ensures w.Start() <= spans[a].from && spans[a].to <= w.end {
      var i := ClippedSource(segments, w, activity, a);
    }
  }
}
