/**
 One session's appearance between this client and its daemon: edits built on
 what is shown, sent in order, stored in order, answered in order, with answers
 that a lagging connection may lose. What the user sees is what the user last
 asked for, at every moment of every run.
 */
module AppearanceProtocol {
  import opened Common
  import opened HexColor
  import opened Appearance
  import opened StoredForm

  // ----- the step system

  datatype Wire = Wire(id: RequestId, value: Overrides)

  /** What the daemon sends: the session's snapshot, answering a send of ours or none, or a refusal. */
  datatype Reply = Snapshot(value: Overrides, answers: Option<RequestId>) | Refusal(id: RequestId)

  datatype State = State(
    stored: Overrides,
    inFlight: seq<Send>,
    toDaemon: seq<Wire>,
    daemon: Overrides,
    toClient: seq<Reply>,
    used: set<RequestId>)

  function Init(start: Overrides): State {
    State(start, [], [], start, [], {})
  }

  datatype Step =
    /** The user sets `change`; it takes `id` if it goes out. */
    | Edit(change: Change, id: RequestId)
    /** The daemon handles the oldest send. */
    | Handle
    /** The daemon announces the session for another reason. */
    | Touch
    /**
     The connection lags: of the replies on their way the first `kept` are out
     already and the last `late` came after the new subscription; the rest is
     lost, and the session list goes in its place.
     */
    | Lag(kept: nat, late: nat)
    /** The client takes the oldest reply. */
    | Deliver

  predicate Enabled(s: State, step: Step) {
    match step
    case Edit(_, id) => id !in s.used
    case Handle => s.toDaemon != []
    case Touch => true
    case Lag(kept, late) => kept + late <= |s.toClient|
    case Deliver => s.toClient != []
  }

  function Shown(s: State): Overrides {
    Overlay(s.stored, s.inFlight)
  }

  /** The send half of an edit: nothing for a change that is refused or changes nothing. */
  function Edited(s: State, change: Change, id: RequestId): State {
    var values := Normalized(change.values);
    if values.None? then s
    else
      var normal := change.(values := values.value);
      if ChangesNothing(normal, Shown(s)) then s
      else
        s.(inFlight := s.inFlight + [Send(id, normal)],
           toDaemon := s.toDaemon + [Wire(id, Applied(normal, Shown(s)))],
           used := s.used + {id})
  }

  function Handled(s: State): State
    requires s.toDaemon != []
  {
    var wire, rest := s.toDaemon[0], s.(toDaemon := s.toDaemon[1..]);
    var value := Normalized(wire.value);
    if value.None? then rest.(toClient := s.toClient + [Refusal(wire.id)])
    else rest.(daemon := value.value, toClient := s.toClient + [Snapshot(value.value, Some(wire.id))])
  }

  function Delivered(s: State): State
    requires s.toClient != []
  {
    var rest := s.(toClient := s.toClient[1..]);
    match s.toClient[0]
    case Refusal(id) => rest.(inFlight := AfterRefusal(s.inFlight, id))
    case Snapshot(value, None) => rest.(stored := value)
    case Snapshot(value, Some(id)) => rest.(stored := value, inFlight := AfterAnswer(s.inFlight, id))
  }

  /** A list without its stretch from `kept` to `from`, with `x` in its place. */
  function Spliced<T>(s: seq<T>, kept: nat, from: nat, x: T): seq<T>
    requires kept <= from <= |s|
  {
    s[..kept] + [x] + s[from..]
  }

  /** The daemon's value goes out after the first `kept` replies and before the last `late`, for those between. */
  function Listed(s: State, kept: nat, late: nat): State
    requires kept + late <= |s.toClient|
  {
    s.(toClient := Spliced(s.toClient, kept, |s.toClient| - late, Snapshot(s.daemon, None)))
  }

  function Next(s: State, step: Step): State
    requires Enabled(s, step)
  {
    match step
    case Edit(change, id) => Edited(s, change, id)
    case Handle => Handled(s)
    case Touch => Listed(s, |s.toClient|, 0)
    case Lag(kept, late) => Listed(s, kept, late)
    case Deliver => Delivered(s)
  }

  predicate Legal(s: State, steps: seq<Step>)
    decreases |steps|
  {
    steps == [] || (Enabled(s, steps[0]) && Legal(Next(s, steps[0]), steps[1..]))
  }

  function After(s: State, steps: seq<Step>): State
    requires Legal(s, steps)
    decreases |steps|
  {
    if steps == [] then s else After(Next(s, steps[0]), steps[1..])
  }

  /** What one step asks for over `base`: an edit the protocol takes lays its change over it. */
  function Asked(base: Overrides, step: Step): Overrides {
    if step.Edit? && Normalized(step.change.values).Some?
    then Applied(step.change.(values := Normalized(step.change.values).value), base)
    else base
  }

  /** What the user asked for, from the edits alone: every change the protocol takes, one over the other. */
  function Wanted(start: Overrides, steps: seq<Step>): Overrides
    decreases |steps|
  {
    if steps == [] then start else Wanted(Asked(start, steps[0]), steps[1..])
  }

  // ----- the invariant, over the log of every send

  datatype Sent = Sent(id: RequestId, change: Change, value: Overrides)

  /** Every send with the value it makes, in stored form; `exact` if the session began in stored form. */
  datatype Log = Log(start: Overrides, sent: seq<Sent>, exact: bool)

  /** `a` is stored as `b`, and is `b` already where everything is exact. */
  ghost predicate Like(exact: bool, a: Overrides, b: Overrides) {
    Normalized(a) == Some(b) && (exact ==> a == b)
  }

  lemma {:induction false} LikeItself(exact: bool, a: Overrides, b: Overrides)
    requires Like(exact, a, b)
    ensures Like(exact, b, b)
  {
    NormalizedIsNormal(a);
  }

  lemma {:induction false} LikeApplied(exact: bool, a: Overrides, b: Overrides, change: Change)
    requires Like(exact, a, b) && IsNormal(change.values)
    ensures Like(exact, Applied(change, a), Applied(change, b))
  {
    NormalizedApplied(change.fields, change.values, a);
  }

  ghost predicate NormalSends(sends: seq<Send>) {
    forall i | 0 <= i < |sends| :: IsNormal(sends[i].change.values)
  }

  lemma {:induction false} LikeOverlay(exact: bool, a: Overrides, b: Overrides, sends: seq<Send>)
    requires Like(exact, a, b) && NormalSends(sends)
    ensures Like(exact, Overlay(a, sends), Overlay(b, sends))
  {
    if sends == [] {
    } else {
      var n := |sends| - 1;
      LikeOverlay(exact, a, b, sends[..n]);
      LikeApplied(exact, Overlay(a, sends[..n]), Overlay(b, sends[..n]), sends[n].change);
    }
  }

  /** The session's value after the first `k` sends. */
  function ValueAt(l: Log, k: nat): Overrides
    requires k <= |l.sent|
  {
    if k == 0 then l.start else l.sent[k - 1].value
  }

  function Last(l: Log): Overrides { ValueAt(l, |l.sent|) }

  /** The log as the client holds it in flight. */
  function Sends(sent: seq<Sent>): (sends: seq<Send>)
    ensures |sends| == |sent|
    ensures forall i | 0 <= i < |sent| :: sends[i] == Send(sent[i].id, sent[i].change)
  {
    if sent == [] then [] else Sends(sent[..|sent| - 1]) + [Send(sent[|sent| - 1].id, sent[|sent| - 1].change)]
  }

  /** Send `k`'s value is its change over the value before it. */
  ghost predicate Link(l: Log, k: nat)
    requires k < |l.sent|
  {
    l.sent[k].value == Applied(l.sent[k].change, ValueAt(l, k))
  }

  ghost predicate Chained(l: Log) {
    forall k | 0 <= k < |l.sent| :: Link(l, k)
  }

  ghost predicate FreshIds(l: Log) {
    forall i, j | 0 <= i < j < |l.sent| :: l.sent[i].id != l.sent[j].id
  }

  function UsedIds(l: Log): set<RequestId> {
    set k | 0 <= k < |l.sent| :: l.sent[k].id
  }

  /**
   Where each part of the system stands in the log: the client dropped the
   first `dropped` sends, mirrors the value after `mirrored`, the daemon handled
   `handled`, and reply `i` carries the value after `marks[i]` sends.
   */
  datatype Marks = Marks(dropped: nat, mirrored: nat, handled: nat, marks: seq<nat>)

  ghost predicate Ordered(l: Log, m: Marks) {
    m.dropped <= m.mirrored <= m.handled <= |l.sent|
  }

  ghost predicate AscendsAt(replies: seq<Reply>, marks: seq<nat>, i: nat, j: nat)
    requires i < j < |marks| == |replies|
  {
    replies[i].Snapshot? && replies[i].answers.Some? ==> marks[i] <= marks[j]
  }

  /** An answer is followed by nothing older than itself; a snapshot that answers nothing may be. */
  ghost predicate AnswersAscend(replies: seq<Reply>, marks: seq<nat>)
    requires |marks| == |replies|
  {
    forall i, j | 0 <= i < j < |marks| :: AscendsAt(replies, marks, i, j)
  }

  ghost predicate ReplyAt(l: Log, r: Reply, k: nat) {
    && k <= |l.sent| && r.Snapshot? && Like(l.exact, r.value, ValueAt(l, k))
    && (r.answers.Some? ==> k > 0 && r.answers.value == l.sent[k - 1].id)
  }

  ghost predicate ReplyIn(l: Log, replies: seq<Reply>, m: Marks, i: nat)
    requires i < |replies| == |m.marks|
  {
    ReplyAt(l, replies[i], m.marks[i]) && m.dropped <= m.marks[i] <= m.handled
  }

  ghost predicate RepliesInv(l: Log, replies: seq<Reply>, m: Marks) {
    && |m.marks| == |replies|
    && (forall i | 0 <= i < |replies| :: ReplyIn(l, replies, m, i))
    && AnswersAscend(replies, m.marks)
    && (if m.marks == [] then m.mirrored == m.handled else m.marks[|m.marks| - 1] == m.handled)
  }

  ghost predicate WireAt(l: Log, queue: seq<Wire>, handled: nat, i: nat)
    requires i < |queue| && handled + i < |l.sent|
  {
    queue[i].id == l.sent[handled + i].id && Like(l.exact, queue[i].value, l.sent[handled + i].value)
  }

  ghost predicate QueueInv(l: Log, queue: seq<Wire>, handled: nat)
    requires handled <= |l.sent|
  {
    |queue| == |l.sent| - handled
    && forall i | 0 <= i < |queue| :: WireAt(l, queue, handled, i)
  }

  ghost predicate Inv(s: State, l: Log, m: Marks) {
    && Chained(l) && FreshIds(l) && Ordered(l, m) && UsedIds(l) <= s.used
    && RepliesInv(l, s.toClient, m) && QueueInv(l, s.toDaemon, m.handled)
    && Like(l.exact, s.stored, ValueAt(l, m.mirrored))
    && s.inFlight == Sends(l.sent)[m.dropped..] && NormalSends(Sends(l.sent))
    && Like(l.exact, s.daemon, ValueAt(l, m.handled))
  }

  lemma {:induction false} LoggedSend(l: Log, k: nat)
    requires Chained(l) && k < |l.sent|
    ensures ValueAt(l, k + 1) == Applied(Sends(l.sent)[k].change, ValueAt(l, k))
  {
    assert Link(l, k);
  }

  /** Laying sends over the first of the values they step through gives the last. */
  lemma {:induction false} OverlayFollows(values: seq<Overrides>, sends: seq<Send>)
    requires |values| == |sends| + 1
    requires forall i | 0 <= i < |sends| :: values[i + 1] == Applied(sends[i].change, values[i])
    ensures Overlay(values[0], sends) == values[|sends|]
  {
    if sends == [] {
    } else {
      var n := |sends| - 1;
      OverlayFollows(values[..n + 1], sends[..n]);
    }
  }

  /** Laying the sends `k` up to `n` over the value they started from gives the value of the last. */
  lemma {:induction false} ReplayLog(l: Log, sends: seq<Send>, k: nat, n: nat)
    requires Chained(l) && k <= n <= |l.sent| && sends == Sends(l.sent)
    ensures Overlay(ValueAt(l, k), sends[k..n]) == ValueAt(l, n)
  {
    var values := seq(n - k + 1, i requires 0 <= i <= n - k => ValueAt(l, k + i));
    var part := sends[k..n];
    forall i | 0 <= i < |part| ensures values[i + 1] == Applied(part[i].change, values[i]) {
      LoggedSend(l, k + i);
    }
    OverlayFollows(values, part);
  }

  /** Sends already in the mirrored value may lie over it again. */
  lemma {:induction false} OverlayFromLog(l: Log, d: nat, k: nat)
    requires Chained(l) && d <= k <= |l.sent|
    ensures Overlay(ValueAt(l, k), Sends(l.sent)[d..]) == Last(l)
  {
    var n, sends := |l.sent|, Sends(l.sent);
    ReplayLog(l, sends, d, k);
    ReplayLog(l, sends, k, n);
    OverlayIsIdempotent(ValueAt(l, d), sends[d..k]);
    assert sends[d..] == sends[d..k] + sends[k..n];
    OverlayJoins(ValueAt(l, k), sends[d..k], sends[k..n]);
  }

  // ----- what every step keeps

  lemma {:induction false} ChainGrows(l: Log, sent: Sent)
    requires Chained(l) && sent.value == Applied(sent.change, Last(l))
    ensures Chained(l.(sent := l.sent + [sent]))
  {
    var t := l.(sent := l.sent + [sent]);
    forall k | 0 <= k < |t.sent| ensures Link(t, k) {
      assert ValueAt(t, k) == ValueAt(l, k);
      if k < |l.sent| { assert Link(l, k); }
    }
  }

  lemma {:induction false} IdsGrow(l: Log, sent: Sent)
    requires FreshIds(l) && sent.id !in UsedIds(l)
    ensures FreshIds(l.(sent := l.sent + [sent]))
    ensures UsedIds(l.(sent := l.sent + [sent])) == UsedIds(l) + {sent.id}
  {
    var t, n := l.(sent := l.sent + [sent]), |l.sent|;
    forall i | 0 <= i < n ensures t.sent[i].id == l.sent[i].id && l.sent[i].id in UsedIds(l) {}
    assert t.sent[n].id == sent.id;
    forall id | id in UsedIds(l) ensures id in UsedIds(t) {
      var k :| 0 <= k < n && l.sent[k].id == id;
      assert t.sent[k].id == id;
    }
  }

  lemma {:induction false} LogGrows(l: Log, sent: Sent) returns (t: Log)
    requires Chained(l) && FreshIds(l) && sent.id !in UsedIds(l) && sent.value == Applied(sent.change, Last(l))
    ensures t == l.(sent := l.sent + [sent]) && Chained(t) && FreshIds(t)
    ensures UsedIds(t) == UsedIds(l) + {sent.id}
    ensures forall k | 0 <= k <= |l.sent| :: ValueAt(t, k) == ValueAt(l, k)
    ensures Sends(t.sent) == Sends(l.sent) + [Send(sent.id, sent.change)]
  {
    t := l.(sent := l.sent + [sent]);
    ChainGrows(l, sent);
    IdsGrow(l, sent);
    assert t.sent[..|l.sent|] == l.sent;
  }

  /** The state once `send` is in flight with the value `value`. */
  function WithSend(s: State, send: Send, value: Overrides): State {
    s.(inFlight := s.inFlight + [send], toDaemon := s.toDaemon + [Wire(send.id, value)], used := s.used + {send.id})
  }

  lemma {:induction false} RepliesOutgrow(l: Log, t: Log, replies: seq<Reply>, m: Marks)
    requires RepliesInv(l, replies, m) && l.start == t.start && l.sent <= t.sent && l.exact == t.exact
    ensures RepliesInv(t, replies, m)
  {
    forall i | 0 <= i < |replies| ensures ReplyIn(t, replies, m, i) {
      assert ReplyIn(l, replies, m, i);
    }
  }

  lemma {:induction false} QueueGrows(l: Log, queue: seq<Wire>, handled: nat, sent: Sent, value: Overrides)
    requires handled <= |l.sent| && QueueInv(l, queue, handled) && Like(l.exact, value, sent.value)
    ensures QueueInv(l.(sent := l.sent + [sent]), queue + [Wire(sent.id, value)], handled)
  {
    var t, all := l.(sent := l.sent + [sent]), queue + [Wire(sent.id, value)];
    forall i | 0 <= i < |all| ensures WireAt(t, all, handled, i) {
      if i < |queue| { assert WireAt(l, queue, handled, i); }
    }
  }

  /** What is shown is stored as the last value of the log. */
  lemma {:induction false} ShownIsLast(s: State, l: Log, m: Marks)
    requires Inv(s, l, m)
    ensures Like(l.exact, Shown(s), Last(l))
  {
    OverlayFromLog(l, m.dropped, m.mirrored);
    LikeOverlay(l.exact, s.stored, ValueAt(l, m.mirrored), s.inFlight);
  }

  lemma {:induction false} FlightGrows(l: Log, sent: Sent, dropped: nat)
    requires NormalSends(Sends(l.sent)) && IsNormal(sent.change.values) && dropped <= |l.sent|
    requires Sends(l.sent + [sent]) == Sends(l.sent) + [Send(sent.id, sent.change)]
    ensures NormalSends(Sends(l.sent + [sent]))
    ensures Sends(l.sent + [sent])[dropped..] == Sends(l.sent)[dropped..] + [Send(sent.id, sent.change)]
  {
  }

  lemma {:induction false} SendKeeps(s: State, l: Log, m: Marks, send: Send) returns (t: Log)
    requires Inv(s, l, m) && send.id !in s.used && IsNormal(send.change.values)
    ensures t == l.(sent := l.sent + [Sent(send.id, send.change, Applied(send.change, Last(l)))])
    ensures Inv(WithSend(s, send, Applied(send.change, Shown(s))), t, m)
  {
    var sent := Sent(send.id, send.change, Applied(send.change, Last(l)));
    ShownIsLast(s, l, m);
    LikeApplied(l.exact, Shown(s), Last(l), send.change);
    t := LogGrows(l, sent);
    RepliesOutgrow(l, t, s.toClient, m);
    QueueGrows(l, s.toDaemon, m.handled, sent, Applied(send.change, Shown(s)));
    FlightGrows(l, sent, m.dropped);
    assert ValueAt(t, m.mirrored) == ValueAt(l, m.mirrored) && ValueAt(t, m.handled) == ValueAt(l, m.handled);
  }

  lemma {:induction false} EditKeeps(s: State, l: Log, m: Marks, change: Change, id: RequestId) returns (t: Log)
    requires Inv(s, l, m) && id !in s.used
    ensures Inv(Edited(s, change, id), t, m) && t.exact == l.exact
    ensures Last(t) == Asked(Last(l), Edit(change, id))
  {
    t := l;
    var values := Normalized(change.values);
    if values.Some? {
      var normal := change.(values := values.value);
      NormalizedIsNormal(change.values);
      if ChangesNothing(normal, Shown(s)) {
        ShownIsLast(s, l, m);
        LikeApplied(l.exact, Shown(s), Last(l), normal);
        ChangesNothingIffApplyingDoes(normal, Shown(s));
      } else {
        t := SendKeeps(s, l, m, Send(id, normal));
        assert Edited(s, change, id) == WithSend(s, Send(id, normal), Applied(normal, Shown(s)));
      }
    }
  }

  /** The oldest send on its way is the first the daemon has not handled, and is stored as the log has it. */
  lemma {:induction false} SendsAreStored(s: State, l: Log, m: Marks)
    requires Inv(s, l, m) && s.toDaemon != []
    ensures m.handled < |l.sent|
    ensures s.toDaemon[0].id == l.sent[m.handled].id
    ensures Normalized(s.toDaemon[0].value) == Some(l.sent[m.handled].value)
    ensures Like(l.exact, l.sent[m.handled].value, l.sent[m.handled].value)
  {
    assert WireAt(l, s.toDaemon, m.handled, 0);
    LikeItself(l.exact, s.toDaemon[0].value, l.sent[m.handled].value);
  }

  lemma {:induction false} StoreKeeps(s: State, l: Log, m: Marks, sent: Sent) returns (t: Marks)
    requires Inv(s, l, m) && m.handled < |l.sent| && sent == l.sent[m.handled] && Like(l.exact, sent.value, sent.value)
    ensures Inv(s.(toDaemon := s.toDaemon[1..], daemon := sent.value,
                   toClient := s.toClient + [Snapshot(sent.value, Some(sent.id))]), l, t)
  {
    t := m.(handled := m.handled + 1, marks := m.marks + [m.handled + 1]);
    StoreAnswers(l, s.toClient, m);
    QueueShrinks(l, s.toDaemon, m.handled);
  }

  lemma {:induction false} StoreAnswers(l: Log, replies: seq<Reply>, m: Marks)
    requires RepliesInv(l, replies, m) && Ordered(l, m) && m.handled < |l.sent|
    requires Like(l.exact, l.sent[m.handled].value, l.sent[m.handled].value)
    ensures var k, sent := m.handled + 1, l.sent[m.handled];
            RepliesInv(l, replies + [Snapshot(sent.value, Some(sent.id))], m.(handled := k, marks := m.marks + [k]))
  {
    var k, sent := m.handled + 1, l.sent[m.handled];
    var all := replies + [Snapshot(sent.value, Some(sent.id))];
    var t := m.(handled := k, marks := m.marks + [k]);
    forall i | 0 <= i < |all| ensures ReplyIn(l, all, t, i) {
      if i < |replies| { assert ReplyIn(l, replies, m, i); }
    }
    forall i, j | 0 <= i < j < |t.marks| ensures AscendsAt(all, t.marks, i, j) {
      assert ReplyIn(l, replies, m, i);
      if j < |replies| { assert AscendsAt(replies, m.marks, i, j); }
    }
  }

  lemma {:induction false} QueueShrinks(l: Log, queue: seq<Wire>, handled: nat)
    requires handled < |l.sent| && QueueInv(l, queue, handled)
    ensures QueueInv(l, queue[1..], handled + 1)
  {
    var rest, next := queue[1..], handled + 1;
    forall i | 0 <= i < |rest| ensures WireAt(l, rest, next, i) {
      assert WireAt(l, queue, handled, i + 1);
    }
  }

  lemma {:induction false} HandleKeeps(s: State, l: Log, m: Marks) returns (t: Marks)
    requires Inv(s, l, m) && s.toDaemon != []
    ensures Inv(Handled(s), l, t)
  {
    SendsAreStored(s, l, m);
    t := StoreKeeps(s, l, m, l.sent[m.handled]);
  }

  lemma {:induction false} ListAscends(
    replies: seq<Reply>, marks: seq<nat>, kept: nat, from: nat, value: Overrides, handled: nat)
    requires |marks| == |replies| && kept <= from <= |replies| && AnswersAscend(replies, marks)
    requires forall i | 0 <= i < |marks| :: marks[i] <= handled
    ensures AnswersAscend(Spliced(replies, kept, from, Snapshot(value, None)), Spliced(marks, kept, from, handled))
  {
    var after, ranks := Spliced(replies, kept, from, Snapshot(value, None)), Spliced(marks, kept, from, handled);
    forall i, j | 0 <= i < j < |ranks| ensures AscendsAt(after, ranks, i, j) {
      if i != kept {
        var p := if i < kept then i else from + (i - kept - 1);
        assert after[i] == replies[p] && ranks[i] == marks[p];
        if j != kept {
          var q := if j < kept then j else from + (j - kept - 1);
          assert ranks[j] == marks[q] && AscendsAt(replies, marks, p, q);
        }
      }
    }
  }

  lemma {:induction false} ListCarries(l: Log, replies: seq<Reply>, m: Marks, kept: nat, from: nat, value: Overrides)
    requires RepliesInv(l, replies, m) && Ordered(l, m) && kept <= from <= |replies|
    requires Like(l.exact, value, ValueAt(l, m.handled))
    ensures RepliesInv(l, Spliced(replies, kept, from, Snapshot(value, None)),
                       m.(marks := Spliced(m.marks, kept, from, m.handled)))
  {
    var after, ranks := Spliced(replies, kept, from, Snapshot(value, None)), Spliced(m.marks, kept, from, m.handled);
    forall i | 0 <= i < |after| ensures ReplyIn(l, after, m.(marks := ranks), i) {
      if i != kept {
        var p := if i < kept then i else from + (i - kept - 1);
        assert ReplyIn(l, replies, m, p);
      }
    }
    forall i | 0 <= i < |m.marks| ensures m.marks[i] <= m.handled {
      assert ReplyIn(l, replies, m, i);
    }
    ListAscends(replies, m.marks, kept, from, value, m.handled);
  }

  lemma {:induction false} WithReplies(s: State, l: Log, m: Marks, replies: seq<Reply>, marks: seq<nat>)
    requires Inv(s, l, m) && RepliesInv(l, replies, m.(marks := marks))
    ensures Inv(s.(toClient := replies), l, m.(marks := marks))
  {
  }

  /** A snapshot with no id may stand in for any of the replies, older ones still following it. */
  lemma {:induction false} ListKeeps(s: State, l: Log, m: Marks, kept: nat, late: nat) returns (t: Marks)
    requires Inv(s, l, m) && kept + late <= |s.toClient|
    ensures Inv(Listed(s, kept, late), l, t)
  {
    var from := |s.toClient| - late;
    t := m.(marks := Spliced(m.marks, kept, from, m.handled));
    ListCarries(l, s.toClient, m, kept, from, s.daemon);
    WithReplies(s, l, m, Spliced(s.toClient, kept, from, Snapshot(s.daemon, None)), t.marks);
  }

  lemma {:induction false} FlightIds(l: Log, d: nat)
    requires FreshIds(l) && d <= |l.sent|
    ensures var ids := Ids(Sends(l.sent)[d..]);
            |ids| == |l.sent| - d && Distinct(ids) && forall i | 0 <= i < |ids| :: ids[i] == l.sent[d + i].id
  {
    var ids := Ids(Sends(l.sent)[d..]);
    forall i, j | 0 <= i < j < |ids| ensures ids[i] != ids[j] {
      assert l.sent[d + i].id != l.sent[d + j].id;
    }
  }

  lemma {:induction false} AnswerAt(flight: seq<Send>, p: nat)
    requires p < |flight| && Distinct(Ids(flight))
    ensures AfterAnswer(flight, flight[p].id) == flight[p + 1..]
  {
    PositionAt(Ids(flight), p);
  }

  lemma {:induction false} AnswerAbsent(flight: seq<Send>, id: RequestId)
    requires forall i | 0 <= i < |flight| :: flight[i].id != id
    ensures AfterAnswer(flight, id) == flight
  {
    assert id !in Ids(flight);
  }

  /** The answer to send `k - 1` leaves exactly the sends from `k` on. */
  lemma {:induction false} AnswerDrops(l: Log, d: nat, k: nat)
    requires FreshIds(l) && d <= k <= |l.sent| && k > 0
    ensures AfterAnswer(Sends(l.sent)[d..], l.sent[k - 1].id) == Sends(l.sent)[k..]
  {
    var sends, id := Sends(l.sent), l.sent[k - 1].id;
    var flight := sends[d..];
    FlightIds(l, d);
    if k == d {
      forall i | 0 <= i < |flight| ensures flight[i].id != id {
        assert flight[i].id == l.sent[d + i].id;
      }
      AnswerAbsent(flight, id);
    } else {
      AnswerAt(flight, k - 1 - d);
      assert flight[k - d..] == sends[k..];
    }
  }

  lemma {:induction false} RepliesTail(l: Log, replies: seq<Reply>, m: Marks, t: Marks)
    requires RepliesInv(l, replies, m) && replies != []
    requires t.mirrored == m.marks[0] && t.handled == m.handled && t.marks == m.marks[1..]
    requires t.dropped == if replies[0].Snapshot? && replies[0].answers.Some? then m.marks[0] else m.dropped
    ensures RepliesInv(l, replies[1..], t)
  {
    var rest := replies[1..];
    forall i | 0 <= i < |rest| ensures ReplyIn(l, rest, t, i) {
      assert ReplyIn(l, replies, m, i + 1) && AscendsAt(replies, m.marks, 0, i + 1);
    }
    forall i, j | 0 <= i < j < |rest| ensures AscendsAt(rest, t.marks, i, j) {
      assert AscendsAt(replies, m.marks, i + 1, j + 1);
    }
  }

  /** The state once the client took `value`, with `flight` left in flight and `rest` on its way. */
  lemma {:induction false} TakenKeeps(
    s: State, l: Log, m: Marks, t: Marks, rest: seq<Reply>, value: Overrides, flight: seq<Send>)
    requires Inv(s, l, m) && t.handled == m.handled && t.dropped <= t.mirrored <= t.handled
    requires RepliesInv(l, rest, t) && Like(l.exact, value, ValueAt(l, t.mirrored))
    requires flight == Sends(l.sent)[t.dropped..]
    ensures Inv(s.(toClient := rest, stored := value, inFlight := flight), l, t)
  {
  }

  /** The sends left in flight once the client took `r`. */
  function LeftBy(flight: seq<Send>, r: Reply): seq<Send>
    requires r.Snapshot?
  {
    if r.answers.None? then flight else AfterAnswer(flight, r.answers.value)
  }

  lemma {:induction false} SnapshotKeeps(s: State, l: Log, m: Marks) returns (t: Marks)
    requires Inv(s, l, m) && s.toClient != []
    ensures s.toClient[0].Snapshot?
    ensures Inv(s.(toClient := s.toClient[1..], stored := s.toClient[0].value,
                   inFlight := LeftBy(s.inFlight, s.toClient[0])), l, t)
  {
    var k, r := m.marks[0], s.toClient[0];
    assert ReplyIn(l, s.toClient, m, 0);
    t := m.(mirrored := k, dropped := if r.answers.Some? then k else m.dropped, marks := m.marks[1..]);
    RepliesTail(l, s.toClient, m, t);
    if r.answers.Some? {
      AnswerDrops(l, m.dropped, k);
    }
    TakenKeeps(s, l, m, t, s.toClient[1..], r.value, LeftBy(s.inFlight, r));
  }

  lemma {:induction false} DeliverKeeps(s: State, l: Log, m: Marks) returns (t: Marks)
    requires Inv(s, l, m) && s.toClient != []
    ensures Inv(Delivered(s), l, t)
  {
    t := SnapshotKeeps(s, l, m);
  }

  lemma {:induction false} StepKeeps(s: State, l: Log, m: Marks, step: Step) returns (l': Log, m': Marks)
    requires Inv(s, l, m) && Enabled(s, step)
    ensures Inv(Next(s, step), l', m') && l'.exact == l.exact && Last(l') == Asked(Last(l), step)
  {
    l', m' := l, m;
    match step {
      case Edit(change, id) => l' := EditKeeps(s, l, m, change, id);
      case Handle => m' := HandleKeeps(s, l, m);
      case Touch => m' := ListKeeps(s, l, m, |s.toClient|, 0);
      case Lag(kept, late) => m' := ListKeeps(s, l, m, kept, late);
      case Deliver => m' := DeliverKeeps(s, l, m);
    }
  }

  /** What the mirror holds once `replies` have all been taken. */
  function Newest(replies: seq<Reply>, stored: Overrides): Overrides {
    if replies == [] then stored
    else
      var last := replies[|replies| - 1];
      if last.Snapshot? then last.value else Newest(replies[..|replies| - 1], stored)
  }

  lemma {:induction false} NewestJoins(a: seq<Reply>, b: seq<Reply>, stored: Overrides)
    ensures Newest(a + b, stored) == Newest(b, Newest(a, stored))
  {
    if b == [] {
      assert a + b == a;
    } else {
      var n := |b| - 1;
      NewestJoins(a, b[..n], stored);
      assert (a + b)[..|a| + n] == a + b[..n];
    }
  }

  lemma NewestOfOne(r: Reply, stored: Overrides)
    ensures Newest([r], stored) == if r.Snapshot? then r.value else stored
  {
    assert [r][..0] == [];
  }

  /** Taking replies over the value they end in ends in that value. */
  lemma {:induction false} NewestStays(replies: seq<Reply>, stored: Overrides)
    ensures Newest(replies, Newest(replies, stored)) == Newest(replies, stored)
  {
    if replies == [] {
    } else {
      var n := |replies| - 1;
      NewestStays(replies[..n], stored);
      NewestBase(replies[..n], stored, Newest(replies, stored));
    }
  }

  /** Either some reply decides, or nothing changes. */
  lemma {:induction false} NewestBase(replies: seq<Reply>, a: Overrides, b: Overrides)
    ensures Newest(replies, a) == Newest(replies, b) || (Newest(replies, a) == a && Newest(replies, b) == b)
  {
    if replies == [] {
    } else {
      NewestBase(replies[..|replies| - 1], a, b);
    }
  }

  /** Once everything on its way is taken, the mirror holds the daemon's value. */
  ghost predicate Mirrors(s: State) {
    Newest(s.toClient, s.stored) == s.daemon
  }

  lemma {:induction false} AppendedIsNewest(replies: seq<Reply>, r: Reply, stored: Overrides)
    ensures Newest(replies + [r], stored) == if r.Snapshot? then r.value else Newest(replies, stored)
  {
    NewestJoins(replies, [r], stored);
    NewestOfOne(r, Newest(replies, stored));
  }

  lemma {:induction false} SplicedIsNewest(replies: seq<Reply>, stored: Overrides, kept: nat, from: nat)
    requires kept <= from <= |replies|
    ensures var daemon := Newest(replies, stored);
            Newest(Spliced(replies, kept, from, Snapshot(daemon, None)), stored) == daemon
  {
    var daemon := Newest(replies, stored);
    assert replies == replies[..from] + replies[from..];
    NewestJoins(replies[..from], replies[from..], stored);
    NewestStays(replies[from..], Newest(replies[..from], stored));
    AppendedIsNewest(replies[..kept], Snapshot(daemon, None), stored);
    NewestJoins(replies[..kept] + [Snapshot(daemon, None)], replies[from..], stored);
  }

  lemma {:induction false} TakenIsNewest(replies: seq<Reply>, stored: Overrides)
    requires replies != []
    ensures Newest(replies, stored) ==
            Newest(replies[1..], if replies[0].Snapshot? then replies[0].value else stored)
  {
    assert replies == [replies[0]] + replies[1..];
    NewestJoins([replies[0]], replies[1..], stored);
    NewestOfOne(replies[0], stored);
  }

  /** Every step keeps the mirror on its way to the daemon's value, refusals included. */
  lemma {:induction false} StepMirrors(s: State, step: Step)
    requires Mirrors(s) && Enabled(s, step)
    ensures Mirrors(Next(s, step))
  {
    var n := |s.toClient|;
    match step {
      case Edit(change, id) =>
        var t := Edited(s, change, id);
        assert t.toClient == s.toClient && t.stored == s.stored && t.daemon == s.daemon;
      case Touch => SplicedIsNewest(s.toClient, s.stored, n, n);
      case Lag(kept, late) => SplicedIsNewest(s.toClient, s.stored, kept, n - late);
      case Handle => AppendedIsNewest(s.toClient, Handled(s).toClient[n], s.stored);
      case Deliver => TakenIsNewest(s.toClient, s.stored);
    }
  }

  lemma {:induction false} RunKeeps(s: State, l: Log, m: Marks, steps: seq<Step>) returns (l': Log, m': Marks)
    requires Inv(s, l, m) && Mirrors(s) && Legal(s, steps)
    ensures Inv(After(s, steps), l', m') && Mirrors(After(s, steps))
    ensures l'.exact == l.exact && Last(l') == Wanted(Last(l), steps)
    decreases |steps|
  {
    l', m' := l, m;
    if steps == [] {
    } else {
      StepMirrors(s, steps[0]);
      l', m' := StepKeeps(s, l, m, steps[0]);
      l', m' := RunKeeps(Next(s, steps[0]), l', m', steps[1..]);
    }
  }

  lemma {:induction false} LikeWanted(exact: bool, a: Overrides, b: Overrides, steps: seq<Step>)
    requires Like(exact, a, b)
    ensures Like(exact, Wanted(a, steps), Wanted(b, steps))
    decreases |steps|
  {
    if steps == [] {
    } else {
      var step := steps[0];
      if step.Edit? && Normalized(step.change.values).Some? {
        NormalizedIsNormal(step.change.values);
        LikeApplied(exact, a, b, step.change.(values := Normalized(step.change.values).value));
      }
      LikeWanted(exact, Asked(a, step), Asked(b, step), steps[1..]);
    }
  }

  // ----- the results, over every run from an appearance the daemon would store

  /**
   Answering is invisible: what is shown is always stored as what the user last
   asked for, and is exactly that if the session began in stored form, whichever
   answers have come, been skipped or been lost; and no send is refused.
   */
  lemma {:induction false} AnsweringIsInvisible(start: Overrides, steps: seq<Step>)
    requires Normalized(start).Some? && Legal(Init(start), steps)
    ensures var s, wanted := After(Init(start), steps), Wanted(start, steps);
            && Normalized(wanted).Some? && Normalized(Shown(s)) == Normalized(wanted)
            && (IsNormal(start) ==> Shown(s) == wanted)
            && AllSnapshots(s.toClient)
            && (s.toDaemon == [] ==> Normalized(s.daemon) == Normalized(wanted))
            && (s.toClient == [] ==> s.stored == s.daemon)
  {
    InvisibleFromRest(Init(start), steps);
  }

  /** Nothing is in flight either way, and the mirror is the daemon's value; ids may have been used before. */
  predicate Rests(s: State) {
    s == Init(s.stored).(used := s.used)
  }

  /** The same from any state at rest. */
  lemma {:induction false} InvisibleFromRest(s0: State, steps: seq<Step>)
    requires Rests(s0) && Normalized(s0.stored).Some? && Legal(s0, steps)
    ensures var s, wanted := After(s0, steps), Wanted(s0.stored, steps);
            && Normalized(wanted).Some? && Normalized(Shown(s)) == Normalized(wanted)
            && (IsNormal(s0.stored) ==> Shown(s) == wanted)
            && AllSnapshots(s.toClient)
            && (s.toDaemon == [] ==> Normalized(s.daemon) == Normalized(wanted))
            && (s.toClient == [] ==> s.stored == s.daemon)
  {
    var start := s0.stored;
    var first, exact := Normalized(start).value, IsNormal(start);
    NormalizedIsNormal(start);
    LikeWanted(exact, start, first, steps);
    var l, m := RunKeeps(s0, Log(first, [], exact), Marks(0, 0, 0, []), steps);
    AtRest(After(s0, steps), l, m);
  }

  lemma {:induction false} AtRest(s: State, l: Log, m: Marks)
    requires Inv(s, l, m)
    ensures Like(l.exact, Shown(s), Last(l))
    ensures AllSnapshots(s.toClient)
    ensures s.toDaemon == [] ==> Like(l.exact, s.daemon, Last(l))
  {
    ShownIsLast(s, l, m);
    forall i | 0 <= i < |s.toClient| ensures s.toClient[i].Snapshot? {
      assert ReplyIn(l, s.toClient, m, i);
    }
  }

  // ----- exactly when

  /** In every run from `start`, what is shown is what the user last asked for. */
  ghost predicate Invisible(start: Overrides) {
    forall steps | Legal(Init(start), steps) :: Shown(After(Init(start), steps)) == Wanted(start, steps)
  }

  /** A change in stored form that changes `start`. */
  ghost predicate GoesOut(change: Change, start: Overrides) {
    IsNormal(change.values) && Applied(change, start) != start
  }

  /** The client, at rest before, just sent an edit. */
  function FirstSent(s: State, change: Change, id: RequestId): State {
    State(s.stored, [Send(id, change)], [Wire(id, Applied(change, s.stored))], s.daemon, [], s.used + {id})
  }

  lemma {:induction false} SentOut(s: State, change: Change, id: RequestId)
    requires Rests(s) && GoesOut(change, s.stored)
    ensures Edited(s, change, id) == FirstSent(s, change, id)
  {
    assert change.(values := Normalized(change.values).value) == change;
    assert Shown(s) == s.stored;
    ChangesNothingIffApplyingDoes(change, s.stored);
  }

  /** The daemon's answer to the one edit, taken by the client, leaves everything at rest. */
  lemma {:induction false} EditComesBack(s: State, change: Change, id: RequestId)
    requires Rests(s)
    ensures var stored := Normalized(Applied(change, s.stored));
            var t := Delivered(Handled(FirstSent(s, change, id)));
            Rests(t) && t.used == s.used + {id} && t.stored == if stored.None? then s.stored else stored.value
  {
    var sends := [Send(id, change)];
    assert Ids(sends)[0] == id;
    assert Position(Ids(sends), id) == Some(0);
    assert AfterAnswer(sends, id) == [] && AfterRefusal(sends, id) == [];
  }

  lemma {:induction false} EditRun(start: Overrides, change: Change)
    requires GoesOut(change, start)
    ensures var steps := [Edit(change, "e"), Handle, Deliver];
            && Legal(Init(start), steps) && Wanted(start, steps) == Applied(change, start)
            && After(Init(start), steps) == Delivered(Handled(FirstSent(Init(start), change, "e")))
    ensures var steps := [Edit(change, "e"), Handle];
            Legal(Init(start), steps) && After(Init(start), steps) == Handled(FirstSent(Init(start), change, "e"))
  {
    SentOut(Init(start), change, "e");
    var steps := [Edit(change, "e"), Handle, Deliver];
    var s1 := FirstSent(Init(start), change, "e");
    var s2 := Handled(s1);
    assert steps[1..] == [Handle, Deliver] && steps[1..][1..] == [Deliver] && [Deliver][1..] == [];
    assert Legal(s2, [Deliver]) && After(s2, [Deliver]) == Delivered(s2);
    assert Legal(s1, [Handle, Deliver]) && After(s1, [Handle, Deliver]) == After(s2, [Deliver]);
    assert [Edit(change, "e"), Handle][1..] == [Handle] && [Handle][1..] == [];
    assert Legal(s1, [Handle]) && After(s1, [Handle]) == s2;
    var want := Applied(change, start);
    assert Asked(start, steps[0]) == want;
    assert Wanted(want, [Deliver]) == Wanted(want, []) && Wanted(want, [Handle, Deliver]) == Wanted(want, [Deliver]);
  }

  /** An edit that leaves a field out of stored form standing shows: the answer brings it in stored form, or refuses. */
  lemma {:induction false} EditShows(start: Overrides, change: Change)
    requires GoesOut(change, start) && !IsNormal(Applied(change, start))
    ensures var steps := [Edit(change, "e"), Handle, Deliver];
            Legal(Init(start), steps) && Shown(After(Init(start), steps)) != Wanted(start, steps)
  {
    EditRun(start, change);
    EditComesBack(Init(start), change, "e");
  }

  lemma {:induction false} AppliedOne(values: Overrides, f: Field, base: Overrides)
    ensures Applied(Change(values, [f]), base) == Copied(f, values, base)
  {
    assert [f][..0] == [] && CopiedAll([], values, base) == base;
  }

  /** Some field can be edited and leave the rest out of stored form. */
  lemma {:induction false} EditBesides(start: Overrides) returns (change: Change)
    requires !IsNormal(start)
    ensures GoesOut(change, start) && !IsNormal(Applied(change, start))
    ensures Normalized(start).None? ==> Normalized(Applied(change, start)).None?
  {
    if SizeAllowed(start.size) {
      change := Change(UNSET.(size := if start.size == Some(14) then Some(15) else Some(14)), [FontSize]);
      AppliedOne(change.values, FontSize, start);
    } else {
      change := Change(UNSET.(frameWidth := if start.frameWidth == Some(1) then Some(2) else Some(1)), [FrameWidth]);
      AppliedOne(change.values, FrameWidth, start);
    }
  }

  /** Answering is invisible from a session's first appearance on if and only if that is in stored form. */
  lemma {:induction false} AnsweringIsInvisibleIff(start: Overrides)
    ensures Invisible(start) <==> IsNormal(start)
  {
    if IsNormal(start) {
      forall steps | Legal(Init(start), steps) ensures Shown(After(Init(start), steps)) == Wanted(start, steps) {
        AnsweringIsInvisible(start, steps);
      }
    } else {
      var change := EditBesides(start);
      EditShows(start, change);
      assert Legal(Init(start), [Edit(change, "e"), Handle, Deliver]);
    }
  }

  /** In every run from `start`, no answer on its way is a refusal. */
  ghost predicate NeverRefused(start: Overrides) {
    forall steps | Legal(Init(start), steps) :: AllSnapshots(After(Init(start), steps).toClient)
  }

  ghost predicate AllSnapshots(replies: seq<Reply>) {
    forall i | 0 <= i < |replies| :: replies[i].Snapshot?
  }

  /** No send is ever refused if and only if the daemon would store the session's first appearance. */
  lemma {:induction false} NeverRefusedIff(start: Overrides)
    ensures NeverRefused(start) <==> Normalized(start).Some?
  {
    if Normalized(start).Some? {
      forall steps | Legal(Init(start), steps) ensures AllSnapshots(After(Init(start), steps).toClient) {
        AnsweringIsInvisible(start, steps);
      }
    } else {
      var change := EditBesides(start);
      EditRun(start, change);
      var steps := [Edit(change, "e"), Handle];
      assert After(Init(start), steps).toClient == [Refusal("e")];
      assert Legal(Init(start), steps) && !After(Init(start), steps).toClient[0].Snapshot?;
    }
  }

  /** A session restored with an accent in capitals: the answer to a new font size changes the accent shown. */
  lemma {:induction false} RestoredMayShow()
    ensures var start, change := UNSET.(accent := Some("#FB7185")), Change(UNSET.(size := Some(14)), [FontSize]);
            var steps := [Edit(change, "e"), Handle, Deliver];
            && Legal(Init(start), steps)
            && Shown(After(Init(start), steps)).accent == Some("#fb7185")
            && Wanted(start, steps).accent == Some("#FB7185")
  {
    var start, change := UNSET.(accent := Some("#FB7185")), Change(UNSET.(size := Some(14)), [FontSize]);
    var digits := "FB7185";
    assert "#FB7185" == "#" + digits && IsSixHex(digits);
    HashedIsTrimmed(digits);
    assert ("#" + digits)[1..] == digits;
    assert Lower(digits) == "fb7185";
    assert "#" + Lower(digits) == "#fb7185";
    AppliedOne(change.values, FontSize, start);
    assert Normalized(Applied(change, start)) == Some(Applied(change, start).(accent := Some("#fb7185")));
    EditRun(start, change);
    EditComesBack(Init(start), change, "e");
  }
}
