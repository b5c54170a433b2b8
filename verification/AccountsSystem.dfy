/**
 One host's daemon and this client as a step system: the daemon's cache and its
 announcements, the broadcasts in flight on the current connection (and what a
 lagging connection loses), the asks and replies on the way, and the client's
 fold. Replies may overtake broadcasts and each other, and may come from an
 older connection.
 */
module AccountsSystem {
  import opened Common
  import opened AccountsFold

  /**
   The daemon's snapshots in the order it took them, the last one current; a
   version is an index into them. Until the driver's first poll nothing is cached
   (`polled`), and asks are answered from readings of the store. `askedAt`,
   `told`, `heard` and `shown` are history: the version current when each ask
   went out, the newest version the connection was told of, the newest broadcast
   it heard (both from the version at its Welcome), and the version of the
   payload that landed last on it.
   */
  datatype System = System(
    snapshots: seq<Payload>,
    polled: bool,
    unannounced: bool,
    queue: seq<nat>,
    asks: set<RequestId>,
    replies: set<(RequestId, nat)>,
    client: Held,
    askedAt: map<RequestId, nat>,
    told: nat,
    heard: nat,
    shown: Option<nat>)
  {
    function Version(): int { |snapshots| - 1 }
  }

  /** A daemon just started: the store holds `first`, and nothing is cached or announced. */
  function Init(first: Payload): System {
    System([first], false, true, [], {}, {}, None, map[], 0, 0, None)
  }

  datatype Step =
    /** Before the first poll, an ask reads the store; the reading is neither cached nor announced. */
    | Read(payload: Payload)
    /** The driver caches a changed snapshot, then broadcasts it. */
    | Store(payload: Payload)
    | Announce
    /** The connection lags: the broadcasts `from` up to `upto` are lost and the cached snapshot goes in their place. */
    | Lag(from: nat, upto: nat)
    /** A new connection's Welcome. */
    | Connect
    | AskList(id: RequestId)
    | AskWrite(action: WriteAction, id: RequestId)
    /** The daemon answers an ask with what it has cached now. */
    | Answer(id: RequestId)
    | HearBroadcast
    /** `newId` is the id a re-ask takes, should the fold want one. */
    | HearReply(id: RequestId, version: nat, newId: RequestId)
    | HearRefusal(id: RequestId, text: string)
    | HearLogin(state: LoginState, sessionId: Option<string>, message: Option<string>, answers: Option<RequestId>)
    | ForgetLogin

  ghost predicate Enabled(s: System, step: Step) {
    match step
    case Read(_) => !s.polled
    case Store(_) => !s.polled || !s.unannounced
    case Announce => s.polled && s.unannounced
    case Lag(from, upto) => s.polled && from <= upto <= |s.queue|
    case AskList(id) => id !in s.askedAt
    case AskWrite(_, id) => id !in s.askedAt && !Writing(s.client)
    case Answer(id) => id in s.asks
    case HearBroadcast => s.queue != [] && s.queue[0] <= s.Version()
    case HearReply(id, version, newId) => (id, version) in s.replies && version <= s.Version() && newId !in s.askedAt
    case _ => true
  }

  /** What the fold makes of the reply. */
  function FoldedReply(s: System, id: RequestId, version: nat): (Held, Folded)
    requires version < |s.snapshots|
  {
    FoldHost(s.client, Accounts(s.snapshots[version], Some(id)))
  }

  /** Whether the reply of a `HearReply` step lands. */
  ghost predicate ReplyLands(s: System, step: Step)
    requires step.HearReply? && Enabled(s, step)
  {
    FoldedReply(s, step.id, step.version).1 == Folded(true, false)
  }

  /** The system once `client` recorded the ask `id` and sent it. */
  function Asking(s: System, id: RequestId, client: Held): System
    requires s.snapshots != []
  {
    s.(client := client, asks := s.asks + {id}, askedAt := s.askedAt[id := s.Version()])
  }

  /** The system once a reply was folded to `client` and `did`, with the re-ask the view sends for it. */
  function WithReply(s: System, version: nat, newId: RequestId, client: Held, did: Folded): System
    requires s.snapshots != []
  {
    var t := s.(client := client, shown := if did == Folded(true, false) then Some(version) else s.shown);
    if did.askAgain then Asking(t, newId, SentListHost(client, newId)) else t
  }

  ghost function Next(s: System, step: Step): System
    requires Enabled(s, step) && s.snapshots != []
  {
    match step
    case Read(payload) => s.(snapshots := s.snapshots + [payload])
    case Store(payload) => s.(snapshots := s.snapshots + [payload], polled := true, unannounced := true)
    case Announce => s.(unannounced := false, queue := s.queue + [s.Version()], told := s.Version())
    case Lag(from, upto) =>
      s.(queue := s.queue[..from] + [s.Version()] + s.queue[upto..],
         told := if upto == |s.queue| then s.Version() else s.told)
    case Connect =>
      s.(queue := [], client := Apply(s.client, Received(Welcome)),
         told := s.Version(), heard := s.Version(), shown := None)
    case AskList(id) => Asking(s, id, Apply(s.client, SentList(id)))
    case AskWrite(action, id) => Asking(s, id, Apply(s.client, SentWrite(action, id)))
    case Answer(id) => s.(asks := s.asks - {id}, replies := s.replies + {(id, s.Version())})
    case HearBroadcast =>
      var v := s.queue[0];
      s.(queue := s.queue[1..], client := Apply(s.client, Received(AccountsUpdated(s.snapshots[v]))),
         heard := Max(s.heard, v), shown := Some(v))
    case HearReply(id, version, newId) =>
      var (client, did) := FoldedReply(s, id, version);
      WithReply(s, version, newId, client, did)
    case HearRefusal(id, text) => s.(client := Apply(s.client, Refused(id, text)))
    case HearLogin(state, sessionId, message, answers) =>
      s.(client := Apply(s.client, Received(AccountLogin(state, sessionId, message, answers))))
    case ForgetLogin => s.(client := Apply(s.client, ClearedLogin))
  }

  // ----- runs

  ghost predicate Legal(s: System, steps: seq<Step>)
    decreases |steps|
  {
    s.snapshots != [] && (steps == [] || (Enabled(s, steps[0]) && Legal(Next(s, steps[0]), steps[1..])))
  }

  ghost function After(s: System, steps: seq<Step>): (t: System)
    requires Legal(s, steps)
    ensures t.snapshots != []
    decreases |steps|
  {
    if steps == [] then s else After(Next(s, steps[0]), steps[1..])
  }

  // ----- what every step keeps

  /** An ask whose stamp still stands was sent after every broadcast heard so far. */
  ghost predicate AskBounds(s: System, ask: Option<Ask>) {
    ask.Some? ==>
      && ask.value.requestId in s.askedAt
      && ask.value.updatesAtAsk <= Seen(s.client)
      && (ask.value.updatesAtAsk == Seen(s.client) ==> s.heard <= s.askedAt[ask.value.requestId])
  }

  /** Whether every broadcast on its way carries a snapshot up to `version`. */
  ghost predicate Cached(queue: seq<nat>, version: nat) {
    forall i | 0 <= i < |queue| :: queue[i] <= version
  }

  ghost predicate DaemonInv(s: System) {
    && s.snapshots != []
    && Cached(s.queue, s.Version())
    && s.told <= s.Version() && s.heard <= s.Version() && (s.polled || s.unannounced)
    && (!s.unannounced ==> s.told == s.Version())
    && (if s.queue != [] then s.queue[|s.queue| - 1] == s.told else s.told <= s.heard)
  }

  ghost predicate AsksInv(s: System) {
    && (forall id | id in s.askedAt :: s.askedAt[id] <= s.Version())
    && s.asks <= s.askedAt.Keys
    && (forall r | r in s.replies :: r.0 in s.askedAt && s.askedAt[r.0] <= r.1 <= s.Version())
  }

  ghost predicate ClientInv(s: System)
    requires s.snapshots != []
  {
    && AskBounds(s, ListAsk(s.client)) && AskBounds(s, WriteAskOf(s.client))
    && (s.shown.None? ==> Shown(s.client) == NO_ACCOUNTS)
    && (s.shown.Some? ==> s.shown.value <= s.Version() && Shown(s.client) == s.snapshots[s.shown.value])
    && (s.shown.Some? && s.queue == [] ==> s.told <= s.shown.value)
  }

  ghost predicate Inv(s: System) {
    DaemonInv(s) && AsksInv(s) && ClientInv(s)
  }

  lemma LagCached(queue: seq<nat>, from: nat, upto: nat, version: nat)
    requires Cached(queue, version) && from <= upto <= |queue|
    ensures var after := queue[..from] + [version] + queue[upto..];
            Cached(after, version) && after[|after| - 1] == if upto == |queue| then version else queue[|queue| - 1]
  {
  }

  lemma HeardCached(queue: seq<nat>, version: nat)
    requires Cached(queue, version) && queue != []
    ensures Cached(queue[1..], version)
  {
  }

  lemma {:induction false} HeardKeepsDaemon(s: System)
    requires DaemonInv(s) && Enabled(s, HearBroadcast)
    ensures DaemonInv(Next(s, HearBroadcast))
  {
    HeardCached(s.queue, s.Version());
  }

  lemma {:induction false} LagKeepsDaemon(s: System, from: nat, upto: nat)
    requires DaemonInv(s) && Enabled(s, Lag(from, upto))
    ensures DaemonInv(Next(s, Lag(from, upto)))
  {
    LagCached(s.queue, from, upto, s.Version());
  }

  lemma {:induction false} AnnounceKeepsDaemon(s: System)
    requires DaemonInv(s) && Enabled(s, Announce)
    ensures DaemonInv(Next(s, Announce))
  {
    var n := |s.queue|;
    LagCached(s.queue, n, n, s.Version());
    assert s.queue + [s.Version()] == s.queue[..n] + [s.Version()] + s.queue[n..];
  }

  lemma OtherKeepsDaemon(s: System, step: Step)
    requires DaemonInv(s) && Enabled(s, step) && !(step.HearBroadcast? || step.Lag? || step.Announce?)
    ensures DaemonInv(Next(s, step))
  {
  }

  lemma StepKeepsAsks(s: System, step: Step)
    requires DaemonInv(s) && AsksInv(s) && Enabled(s, step)
    ensures AsksInv(Next(s, step))
  {
  }

  /** A reply that lands was answered no earlier than the newest broadcast heard. */
  lemma LandingIsNoOlder(s: System, step: Step)
    requires Inv(s) && step.HearReply? && Enabled(s, step)
    ensures ReplyLands(s, step) ==> s.heard <= step.version
  {
    assert (step.id, step.version) in s.replies;
    ReplyEffects(s.client, step.id, s.snapshots[step.version]);
  }

  /** An ask's bounds outlive any step that moves the count with every broadcast it hears. */
  lemma AskBoundsCarry(s: System, t: System, ask: Option<Ask>)
    requires AskBounds(s, ask)
    requires ask.Some? ==>
               && ask.value.requestId in t.askedAt
               && t.askedAt[ask.value.requestId] == s.askedAt[ask.value.requestId]
    requires Seen(s.client) < Seen(t.client) || (Seen(s.client) == Seen(t.client) && t.heard == s.heard)
    ensures AskBounds(t, ask)
  {
  }

  lemma WithReplyKeepsClient(s: System, version: nat, newId: RequestId, c: Held, did: Folded)
    requires Inv(s) && newId !in s.askedAt && version <= s.Version() && Seen(c) == Seen(s.client)
    requires ListAsk(c).None? || ListAsk(c) == ListAsk(s.client)
    requires WriteAskOf(c).None? || WriteAskOf(c) == WriteAskOf(s.client)
    requires if did == Folded(true, false) then Shown(c) == s.snapshots[version] && s.heard <= version
             else Shown(c) == Shown(s.client)
    ensures ClientInv(WithReply(s, version, newId, c, did))
  {
    var t := WithReply(s, version, newId, c, did);
    AskBoundsCarry(s, t, ListAsk(c));
    AskBoundsCarry(s, t, WriteAskOf(c));
  }

  lemma ReplyKeepsClient(s: System, step: Step)
    requires Inv(s) && step.HearReply? && Enabled(s, step)
    ensures ClientInv(Next(s, step))
  {
    LandingIsNoOlder(s, step);
    ReplyEffects(s.client, step.id, s.snapshots[step.version]);
    var (c, did) := FoldedReply(s, step.id, step.version);
    WithReplyKeepsClient(s, step.version, step.newId, c, did);
  }

  lemma AskKeepsClient(s: System, step: Step)
    requires Inv(s) && Enabled(s, step) && (step.AskList? || step.AskWrite?)
    ensures ClientInv(Next(s, step))
  {
    var t := Next(s, step);
    assert Seen(t.client) == Seen(s.client);
    AskBoundsCarry(s, t, ListAsk(s.client));
    AskBoundsCarry(s, t, WriteAskOf(s.client));
  }

  lemma BroadcastKeepsClient(s: System)
    requires Inv(s) && Enabled(s, HearBroadcast)
    ensures ClientInv(Next(s, HearBroadcast))
  {
    var t := Next(s, HearBroadcast);
    assert Seen(t.client) == Seen(s.client) + 1;
    AskBoundsCarry(s, t, ListAsk(s.client));
    AskBoundsCarry(s, t, WriteAskOf(s.client));
  }

  /** An event that changes no snapshot at the client, at most freeing a slot. */
  lemma QuietKeepsClient(s: System, e: Event)
    requires Inv(s) && (e.Refused? || e.ClearedLogin? || (e.Received? && e.msg.AccountLogin?))
    ensures ClientInv(s.(client := Apply(s.client, e)))
  {
    QuietEffects(s.client, e);
    FreedSlotsKeep(s, Apply(s.client, e));
  }

  lemma FreedSlotsKeep(s: System, c: Held)
    requires Inv(s) && Seen(c) == Seen(s.client) && Shown(c) == Shown(s.client)
    requires ListAsk(c).None? || ListAsk(c) == ListAsk(s.client)
    requires WriteAskOf(c).None? || WriteAskOf(c) == WriteAskOf(s.client)
    ensures ClientInv(s.(client := c))
  {
  }

  /** The daemon's own steps and a Welcome, which reach the client only by clearing it. */
  lemma DaemonStepKeepsClient(s: System, step: Step)
    requires Inv(s) && Enabled(s, step)
    requires step.Read? || step.Store? || step.Announce? || step.Lag? || step.Answer? || step.Connect?
    ensures ClientInv(Next(s, step))
  {
  }

  lemma StepKeepsClient(s: System, step: Step)
    requires Inv(s) && Enabled(s, step)
    ensures ClientInv(Next(s, step))
  {
    match step {
      case HearReply(_, _, _) => ReplyKeepsClient(s, step);
      case AskList(_) => AskKeepsClient(s, step);
      case AskWrite(_, _) => AskKeepsClient(s, step);
      case HearBroadcast => BroadcastKeepsClient(s);
      case HearRefusal(id, text) => QuietKeepsClient(s, Refused(id, text));
      case HearLogin(state, sessionId, message, answers) =>
        QuietKeepsClient(s, Received(AccountLogin(state, sessionId, message, answers)));
      case ForgetLogin => QuietKeepsClient(s, ClearedLogin);
      case _ => DaemonStepKeepsClient(s, step);
    }
  }

  lemma StepKeepsDaemon(s: System, step: Step)
    requires DaemonInv(s) && Enabled(s, step)
    ensures DaemonInv(Next(s, step))
  {
    match step {
      case HearBroadcast => HeardKeepsDaemon(s);
      case Lag(from, upto) => LagKeepsDaemon(s, from, upto);
      case Announce => AnnounceKeepsDaemon(s);
      case _ => OtherKeepsDaemon(s, step);
    }
  }

  lemma {:induction false} StepKeeps(s: System, step: Step)
    requires Inv(s) && Enabled(s, step)
    ensures Inv(Next(s, step))
  {
    StepKeepsDaemon(s, step);
    StepKeepsAsks(s, step);
    StepKeepsClient(s, step);
  }

  lemma {:induction false} RunKeepsInv(s: System, steps: seq<Step>)
    requires Inv(s) && Legal(s, steps)
    ensures Inv(After(s, steps))
    decreases |steps|
  {
    if steps == [] {
    } else {
      StepKeeps(s, steps[0]);
      RunKeepsInv(Next(s, steps[0]), steps[1..]);
    }
  }

  // ----- the results, over every run from a daemon's start

  /**
   Convergence: once the driver is idle and nothing is in flight, a connection
   that any payload landed on shows the daemon's current snapshot.
   */
  lemma QuietClientIsCurrent(first: Payload, steps: seq<Step>)
    requires Legal(Init(first), steps)
    ensures var s := After(Init(first), steps);
            s.queue == [] && !s.unannounced && s.shown.Some? ==>
              Shown(s.client) == s.snapshots[|s.snapshots| - 1]
  {
    RunKeepsInv(Init(first), steps);
  }

  /**
   A stale view is always being repaired: while the driver is idle and what is
   shown is not current, a broadcast of the current snapshot is in flight, last.
   */
  lemma StaleViewIsBeingRepaired(first: Payload, steps: seq<Step>)
    requires Legal(Init(first), steps)
    ensures var s := After(Init(first), steps);
            s.shown.Some? && !s.unannounced && s.shown.value != s.Version() ==>
              s.queue != [] && s.queue[|s.queue| - 1] == s.Version()
  {
    RunKeepsInv(Init(first), steps);
  }

  /** Nothing in flight is out of the daemon's range, so every broadcast and every reply can be heard. */
  lemma InFlightCanBeHeard(first: Payload, steps: seq<Step>, newId: RequestId)
    requires Legal(Init(first), steps) && newId !in After(Init(first), steps).askedAt
    ensures var s := After(Init(first), steps);
            && (s.queue != [] ==> Enabled(s, HearBroadcast))
            && (forall r | r in s.replies :: Enabled(s, HearReply(r.0, r.1, newId)))
  {
    RunKeepsInv(Init(first), steps);
  }

  /** What the client shows is always a snapshot the daemon took, cached or read before its first poll, or nothing. */
  lemma ShownIsCached(first: Payload, steps: seq<Step>)
    requires Legal(Init(first), steps)
    ensures var s := After(Init(first), steps);
            Shown(s.client) == NO_ACCOUNTS || Shown(s.client) in s.snapshots
  {
    RunKeepsInv(Init(first), steps);
  }

  lemma {:induction false} LegalSplit(s: System, steps: seq<Step>, k: nat)
    requires Legal(s, steps) && k <= |steps|
    ensures Legal(s, steps[..k]) && Legal(After(s, steps[..k]), steps[k..])
    ensures After(s, steps) == After(After(s, steps[..k]), steps[k..])
    decreases k
  {
    if k == 0 {
      assert steps[0..] == steps;
    } else {
      LegalSplit(Next(s, steps[0]), steps[1..], k - 1);
      assert steps[..k][1..] == steps[1..][..k - 1] && steps[k..] == steps[1..][k - 1..];
    }
  }

  lemma {:induction false} HeardOnlyGrows(s: System, steps: seq<Step>)
    requires Legal(s, steps) && forall k | 0 <= k < |steps| :: !steps[k].Connect?
    ensures s.heard <= After(s, steps).heard
    decreases |steps|
  {
    if steps == [] {
    } else {
      assert s.heard <= Next(s, steps[0]).heard;
      HeardOnlyGrows(Next(s, steps[0]), steps[1..]);
    }
  }

  /**
   No regression: in any run, a reply that lands is at least as new as every
   broadcast heard before it on the same connection, in whatever order the two
   travelled.
   */
  lemma {:induction false} NoRegression(first: Payload, steps: seq<Step>, b: nat, r: nat)
    requires Legal(Init(first), steps)
    requires b < r < |steps| && steps[b].HearBroadcast? && steps[r].HearReply?
    requires forall k | b < k < r :: !steps[k].Connect?
    ensures Legal(Init(first), steps[..b]) && Legal(Init(first), steps[..r])
    ensures Enabled(After(Init(first), steps[..b]), steps[b]) && Enabled(After(Init(first), steps[..r]), steps[r])
    ensures ReplyLands(After(Init(first), steps[..r]), steps[r]) ==>
              After(Init(first), steps[..b]).queue[0] <= steps[r].version
  {
    LegalSplit(Init(first), steps, r);
    var upToReply := steps[..r];
    LegalSplit(Init(first), upToReply, b);
    assert upToReply[..b] == steps[..b];
    var s := After(Init(first), steps[..b]);
    var rest := upToReply[b..];
    assert rest[0] == steps[b];
    forall k | 0 <= k < |rest[1..]| ensures !rest[1..][k].Connect? {
      assert rest[1..][k] == steps[b + 1 + k];
    }
    HeardOnlyGrows(Next(s, steps[b]), rest[1..]);
    RunKeepsInv(Init(first), upToReply);
    assert steps[r..][0] == steps[r];
    LandingIsNoOlder(After(Init(first), upToReply), steps[r]);
  }

  // ----- when what is shown goes back

  /** Whether the step replaces what is shown by an older version, on one connection. */
  ghost predicate GoesBack(s: System, step: Step)
    requires Enabled(s, step) && s.snapshots != []
  {
    s.shown.Some? && Next(s, step).shown.Some? && Next(s, step).shown.value < s.shown.value
  }

  ghost predicate Ascending(queue: seq<nat>) {
    forall i, j | 0 <= i < j < |queue| :: queue[i] <= queue[j]
  }

  /** Nothing in flight is older than what is shown, or than what is in flight before it. */
  ghost predicate InOrder(s: System) {
    Ascending(s.queue) && (s.shown.Some? && s.queue != [] ==> s.shown.value <= s.queue[0])
  }

  /** Whether the step puts a newer version before a broadcast on its way: a reply that lands, or a lag's snapshot. */
  ghost predicate Overtakes(s: System, step: Step)
    requires Enabled(s, step)
  {
    || (step.HearReply? && ReplyLands(s, step) && s.queue != [] && s.queue[0] < step.version)
    || (step.Lag? && step.upto < |s.queue| && s.queue[step.upto] < s.Version())
  }

  /** Whether reply `r` is on its way to an ask that still counts, so that hearing it would land it. */
  ghost predicate WouldLand(s: System, r: (RequestId, nat)) {
    && r in s.replies
    && (Current(ListAsk(s.client), r.0, Seen(s.client)) || Current(WriteAskOf(s.client), r.0, Seen(s.client)))
  }

  /** No reply that would land is older than what is shown. */
  ghost predicate RepliesInOrder(s: System) {
    forall r | WouldLand(s, r) :: s.shown.Some? ==> s.shown.value <= r.1
  }

  /** Whether the step lands a reply before an older one that would land too. */
  ghost predicate OvertakesReply(s: System, step: Step)
    requires Enabled(s, step)
  {
    && step.HearReply? && ReplyLands(s, step)
    && exists r: (RequestId, nat) :: WouldLand(s, r) && r.0 != step.id && r.1 < step.version
  }

  lemma LagOrders(queue: seq<nat>, from: nat, upto: nat, version: nat)
    requires Ascending(queue) && Cached(queue, version) && from <= upto <= |queue|
    ensures Ascending(queue[..from] + [version] + queue[upto..]) <==> (upto < |queue| ==> version <= queue[upto])
  {
    var after := queue[..from] + [version] + queue[upto..];
    assert upto < |queue| ==> after[from + 1] == queue[upto];
    assert after[from] == version;
  }

  lemma HearingOrders(queue: seq<nat>)
    requires queue != []
    ensures Ascending(queue) <==> Ascending(queue[1..]) && (|queue| > 1 ==> queue[0] <= queue[1])
  {
    var rest := queue[1..];
    assert forall i | 0 <= i < |rest| :: rest[i] == queue[i + 1];
    if Ascending(rest) && (|queue| > 1 ==> queue[0] <= queue[1]) {
      forall i, j | 0 <= i < j < |queue| ensures queue[i] <= queue[j] {
        assert rest[0] <= rest[j - 1];
        if i > 0 { assert rest[i - 1] <= rest[j - 1]; }
      }
    }
  }

  /** Order is lost exactly by overtaking. */
  lemma {:induction false} OrderIsKeptIff(s: System, step: Step)
    requires Inv(s) && Enabled(s, step) && InOrder(s)
    ensures InOrder(Next(s, step)) <==> !Overtakes(s, step)
  {
    match step {
      case Lag(from, upto) => LagOrders(s.queue, from, upto, s.Version());
      case HearBroadcast => HearingOrders(s.queue);
      case _ =>
    }
  }

  // the replies

  /** The two slots never wait for the same request. */
  ghost predicate SlotsApart(c: Held) {
    ListAsk(c).Some? && WriteAskOf(c).Some? ==> ListAsk(c).value.requestId != WriteAskOf(c).value.requestId
  }

  /** A reply frees the slot that waits for it and no other, and lands exactly for an ask nothing overtook. */
  lemma ReplySlots(c: Held, id: RequestId, snapshot: Payload)
    requires SlotsApart(c)
    ensures var (t, did) := ReplyHost(c, Some(id), snapshot);
            && Seen(t) == Seen(c)
            && ListAsk(t) == (if IsAsk(ListAsk(c), id) then None else ListAsk(c))
            && WriteAskOf(t) == (if IsAsk(WriteAskOf(c), id) then None else WriteAskOf(c))
            && (did == Folded(true, false) <==> Current(ListAsk(c), id, Seen(c)) || Current(WriteAskOf(c), id, Seen(c)))
  {
  }

  /** A re-ask goes out only for a reply that did not land, and takes the list slot under a new id. */
  lemma {:induction false} HeardReply(s: System, step: Step)
    requires Inv(s) && SlotsApart(s.client) && step.HearReply? && Enabled(s, step)
    ensures ReplyLands(s, step) <==> WouldLand(s, (step.id, step.version))
    ensures var t := Next(s, step);
            && Seen(t.client) == Seen(s.client) && t.replies == s.replies
            && t.shown == (if ReplyLands(s, step) then Some(step.version) else s.shown)
            && WriteAskOf(t.client) == (if IsAsk(WriteAskOf(s.client), step.id) then None else WriteAskOf(s.client))
            && (|| ListAsk(t.client) == (if IsAsk(ListAsk(s.client), step.id) then None else ListAsk(s.client))
                || (!ReplyLands(s, step) && ListAsk(t.client) == Some(Ask(step.newId, Seen(s.client)))))
  {
    ReplySlots(s.client, step.id, s.snapshots[step.version]);
    var (c, did) := FoldedReply(s, step.id, step.version);
  }

  lemma {:induction false} StepKeepsSlots(s: System, step: Step)
    requires Inv(s) && SlotsApart(s.client) && Enabled(s, step)
    ensures SlotsApart(Next(s, step).client)
  {
    match step {
      case HearReply(_, _, _) => HeardReply(s, step);
      case HearRefusal(id, text) => QuietEffects(s.client, Refused(id, text));
      case HearLogin(state, sessionId, message, answers) =>
        QuietEffects(s.client, Received(AccountLogin(state, sessionId, message, answers)));
      case ForgetLogin => QuietEffects(s.client, ClearedLogin);
      case _ =>
    }
  }

  /** Order among the replies outlives a step that shows nothing else and lets no reply land that would not have. */
  lemma {:induction false} FewerLand(s: System, t: System)
    requires RepliesInOrder(s) && t.shown == s.shown && (forall r | WouldLand(t, r) :: WouldLand(s, r))
    ensures RepliesInOrder(t)
  {
  }

  /** Hearing a reply keeps the replies in order exactly when it overtakes none. */
  lemma {:induction false} HearingKeepsReplies(s: System, step: Step)
    requires Inv(s) && SlotsApart(s.client) && RepliesInOrder(s) && step.HearReply? && Enabled(s, step)
    ensures RepliesInOrder(Next(s, step)) <==> !OvertakesReply(s, step)
  {
    var t := Next(s, step);
    HeardReply(s, step);
    forall r: (RequestId, nat) | WouldLand(t, r) ensures WouldLand(s, r) && r.0 != step.id {
      assert r in s.replies && r.0 in s.askedAt;
    }
    if ReplyLands(s, step) {
      forall r: (RequestId, nat) | WouldLand(s, r) && r.0 != step.id ensures WouldLand(t, r) {}
    } else {
      FewerLand(s, t);
    }
  }

  /** A broadcast makes every pending ask stale, so that no reply on its way lands any more. */
  lemma {:induction false} BroadcastStalesReplies(s: System)
    requires Inv(s) && Enabled(s, HearBroadcast)
    ensures RepliesInOrder(Next(s, HearBroadcast))
  {
    var t := Next(s, HearBroadcast);
    forall r ensures !WouldLand(t, r) {
      assert AskBounds(s, ListAsk(s.client)) && AskBounds(s, WriteAskOf(s.client));
    }
  }

  /** A new ask has no reply on its way yet. */
  lemma {:induction false} AskingKeepsReplies(s: System, step: Step)
    requires Inv(s) && RepliesInOrder(s) && Enabled(s, step) && (step.AskList? || step.AskWrite?)
    ensures RepliesInOrder(Next(s, step))
  {
    var t := Next(s, step);
    forall r | WouldLand(t, r) ensures WouldLand(s, r) {
      assert r in s.replies && r.0 in s.askedAt;
    }
    FewerLand(s, t);
  }

  lemma {:induction false} QuietKeepsReplies(s: System, e: Event)
    requires RepliesInOrder(s) && (e.Refused? || e.ClearedLogin? || (e.Received? && e.msg.AccountLogin?))
    ensures RepliesInOrder(s.(client := Apply(s.client, e)))
  {
    QuietEffects(s.client, e);
    FewerLand(s, s.(client := Apply(s.client, e)));
  }

  /** The daemon's own steps: an answer carries the current version. */
  lemma {:induction false} DaemonKeepsReplies(s: System, step: Step)
    requires Inv(s) && RepliesInOrder(s) && Enabled(s, step)
    requires step.Read? || step.Store? || step.Announce? || step.Lag? || step.Answer? || step.Connect?
    ensures RepliesInOrder(Next(s, step))
  {
    var t := Next(s, step);
    forall r | WouldLand(t, r) && t.shown.Some? ensures t.shown.value <= r.1 {
      if r in s.replies { assert WouldLand(s, r); }
    }
  }

  /** Order among the replies is lost exactly by one overtaking another. */
  lemma {:induction false} ReplyOrderIsKeptIff(s: System, step: Step)
    requires Inv(s) && SlotsApart(s.client) && Enabled(s, step) && RepliesInOrder(s)
    ensures RepliesInOrder(Next(s, step)) <==> !OvertakesReply(s, step)
  {
    match step {
      case HearReply(_, _, _) => HearingKeepsReplies(s, step);
      case HearBroadcast => BroadcastStalesReplies(s);
      case AskList(_) => AskingKeepsReplies(s, step);
      case AskWrite(_, _) => AskingKeepsReplies(s, step);
      case HearRefusal(id, text) => QuietKeepsReplies(s, Refused(id, text));
      case HearLogin(state, sessionId, message, answers) =>
        QuietKeepsReplies(s, Received(AccountLogin(state, sessionId, message, answers)));
      case ForgetLogin => QuietKeepsReplies(s, ClearedLogin);
      case _ => DaemonKeepsReplies(s, step);
    }
  }

  /** Whether no reply on its way, heard now, takes the view back. */
  ghost predicate HearsForward(s: System)
    requires s.snapshots != []
  {
    forall step: Step | step.HearReply? && Enabled(s, step) :: !GoesBack(s, step)
  }

  /** No reply on its way takes the view back exactly when the replies that would land are in order. */
  lemma {:induction false} HearsForwardIff(s: System)
    requires Inv(s) && SlotsApart(s.client)
    ensures HearsForward(s) <==> RepliesInOrder(s)
  {
    forall step: Step | step.HearReply? && Enabled(s, step)
      ensures GoesBack(s, step) <==>
              WouldLand(s, (step.id, step.version)) && s.shown.Some? && step.version < s.shown.value
    {
      HeardReply(s, step);
    }
    if !RepliesInOrder(s) {
      var r: (RequestId, nat) :| WouldLand(s, r) && s.shown.Some? && r.1 < s.shown.value;
      var newId := FreshId(s.askedAt.Keys);
      var step := HearReply(r.0, r.1, newId);
      assert r == (step.id, step.version) && Enabled(s, step) && GoesBack(s, step);
    }
  }

  /** With broadcasts and replies in order, no step takes the view back. */
  lemma {:induction false} InOrderGoesForward(s: System, step: Step)
    requires Inv(s) && SlotsApart(s.client) && Enabled(s, step) && InOrder(s) && RepliesInOrder(s)
    ensures !GoesBack(s, step)
  {
    if step.HearReply? {
      HeardReply(s, step);
      assert ReplyLands(s, step) ==> WouldLand(s, (step.id, step.version));
    }
  }

  // every run

  /** Whether hearing every broadcast on its way never takes the view back. */
  ghost predicate DrainsForward(s: System)
    requires DaemonInv(s)
    decreases |s.queue|
  {
    s.queue == []
    || (StepKeepsDaemon(s, HearBroadcast);
        !GoesBack(s, HearBroadcast) && DrainsForward(Next(s, HearBroadcast)))
  }

  /** What is in flight drains forward exactly when it is in order. */
  lemma {:induction false} DrainsForwardIff(s: System)
    requires DaemonInv(s)
    ensures DrainsForward(s) <==> InOrder(s)
    decreases |s.queue|
  {
    if s.queue == [] {
    } else {
      StepKeepsDaemon(s, HearBroadcast);
      DrainsForwardIff(Next(s, HearBroadcast));
      HearingOrders(s.queue);
    }
  }

  /** No step of the run takes the view back. */
  ghost predicate NeverBack(s: System, steps: seq<Step>)
    requires Legal(s, steps)
    decreases |steps|
  {
    steps == [] || (!GoesBack(s, steps[0]) && NeverBack(Next(s, steps[0]), steps[1..]))
  }

  /** No step of the run takes the view back, and at no point would hearing what is in flight, of either kind. */
  ghost predicate ForwardThroughout(s: System, steps: seq<Step>)
    requires Inv(s) && Legal(s, steps)
    decreases |steps|
  {
    && DrainsForward(s) && HearsForward(s)
    && (steps == []
        || (StepKeeps(s, steps[0]);
            !GoesBack(s, steps[0]) && ForwardThroughout(Next(s, steps[0]), steps[1..])))
  }

  /** No step of the run overtakes a broadcast or a reply on its way. */
  ghost predicate NoOvertaking(s: System, steps: seq<Step>)
    requires Legal(s, steps)
    decreases |steps|
  {
    steps == []
    || (!Overtakes(s, steps[0]) && !OvertakesReply(s, steps[0]) && NoOvertaking(Next(s, steps[0]), steps[1..]))
  }

  lemma {:induction false} RunGoesForwardIff(s: System, steps: seq<Step>)
    requires Inv(s) && SlotsApart(s.client) && InOrder(s) && RepliesInOrder(s) && Legal(s, steps)
    ensures ForwardThroughout(s, steps) <==> NoOvertaking(s, steps)
    ensures NoOvertaking(s, steps) ==> NeverBack(s, steps)
    decreases |steps|
  {
    DrainsForwardIff(s);
    HearsForwardIff(s);
    if steps == [] {
    } else {
      var t := Next(s, steps[0]);
      StepKeeps(s, steps[0]);
      StepKeepsSlots(s, steps[0]);
      OrderIsKeptIff(s, steps[0]);
      ReplyOrderIsKeptIff(s, steps[0]);
      InOrderGoesForward(s, steps[0]);
      if InOrder(t) && RepliesInOrder(t) {
        RunGoesForwardIff(t, steps[1..]);
      } else {
        DrainsForwardIff(t);
        HearsForwardIff(t);
      }
    }
  }

  /**
   Exactly when the view only moves forward: no step of a run from a daemon's start
   takes it back, nor at any point would hearing the broadcasts then in flight, or
   any reply then in flight, if and only if no step puts a newer snapshot before an
   older broadcast or an older reply that is still to land.
   */
  lemma {:induction false} ViewGoesForwardIff(first: Payload, steps: seq<Step>)
    requires Legal(Init(first), steps)
    ensures ForwardThroughout(Init(first), steps) <==> NoOvertaking(Init(first), steps)
    ensures NoOvertaking(Init(first), steps) ==> NeverBack(Init(first), steps)
  {
    RunGoesForwardIff(Init(first), steps);
  }

  lemma {:induction false} AfterSnoc(s: System, steps: seq<Step>, step: Step)
    requires Legal(s, steps) && Enabled(After(s, steps), step)
    ensures Legal(s, steps + [step]) && After(s, steps + [step]) == Next(After(s, steps), step)
    decreases |steps|
  {
    if steps == [] {
      assert [step][1..] == [];
    } else {
      AfterSnoc(Next(s, steps[0]), steps[1..], step);
      assert (steps + [step])[1..] == steps[1..] + [step];
    }
  }

  /** A legal run to `s`, one step longer. */
  lemma Extend(s0: System, steps: seq<Step>, s: System, step: Step) returns (steps': seq<Step>, s': System)
    requires Legal(s0, steps) && After(s0, steps) == s && Enabled(s, step)
    ensures steps' == steps + [step] && Legal(s0, steps') && After(s0, steps') == s' == Next(s, step)
  {
    AfterSnoc(s0, steps, step);
    steps', s' := steps + [step], Next(s, step);
  }

  /** Two snapshots cached, the first announced and in flight, the list asked for and answered since. */
  function Raced(first: Payload, a: Payload, b: Payload): System {
    System([first, a, b], true, true, [1], {}, {("q", 2)}, Some(NEW_HOST.(list := Some(Ask("q", 0)))),
           map["q" := 2], 1, 0, None)
  }

  lemma {:induction false} ReachRaced(first: Payload, a: Payload, b: Payload)
    ensures var steps := [Store(a), Announce, Store(b), AskList("q"), Answer("q")];
            Legal(Init(first), steps) && After(Init(first), steps) == Raced(first, a, b)
  {
    var s0 := Init(first);
    var steps, s := Extend(s0, [], s0, Store(a));
    steps, s := Extend(s0, steps, s, Announce);
    steps, s := Extend(s0, steps, s, Store(b));
    assert s.snapshots == [first, a, b];
    steps, s := Extend(s0, steps, s, AskList("q"));
    steps, s := Extend(s0, steps, s, Answer("q"));
    assert steps == [Store(a), Announce, Store(b), AskList("q"), Answer("q")];
  }

  /** One way back: a reply overtakes a broadcast, which then puts an older snapshot back until the next arrives. */
  lemma {:induction false} BroadcastMayRegress(first: Payload, a: Payload, b: Payload)
    ensures var steps := [Store(a), Announce, Store(b), AskList("q"), Answer("q"), HearReply("q", 2, "r")];
            && Legal(Init(first), steps) && Legal(Init(first), steps + [HearBroadcast])
            && Shown(After(Init(first), steps).client) == b
            && Shown(After(Init(first), steps + [HearBroadcast]).client) == a
  {
    var s0, s := Init(first), Raced(first, a, b);
    var steps := [Store(a), Announce, Store(b), AskList("q"), Answer("q")];
    ReachRaced(first, a, b);
    steps, s := Extend(s0, steps, s, HearReply("q", 2, "r"));
    assert steps == [Store(a), Announce, Store(b), AskList("q"), Answer("q"), HearReply("q", 2, "r")];
    steps, s := Extend(s0, steps, s, HearBroadcast);
  }

  /** Another: a lagging connection gets the cached snapshot, then goes on with older broadcasts it still buffers. */
  lemma {:induction false} LagMayRegress(first: Payload, a: Payload, b: Payload, c: Payload)
    ensures var steps := [Store(a), Announce, Store(b), Announce, Store(c), Lag(0, 1), HearBroadcast];
            && Legal(Init(first), steps) && Legal(Init(first), steps + [HearBroadcast])
            && Shown(After(Init(first), steps).client) == c
            && Shown(After(Init(first), steps + [HearBroadcast]).client) == b
  {
    var s0 := Init(first);
    var steps, s := Extend(s0, [], s0, Store(a));
    steps, s := Extend(s0, steps, s, Announce);
    steps, s := Extend(s0, steps, s, Store(b));
    steps, s := Extend(s0, steps, s, Announce);
    assert s == s0.(snapshots := [first, a, b], polled := true, unannounced := false, queue := [1, 2], told := 2);
    steps, s := Extend(s0, steps, s, Store(c));
    assert s.snapshots == [first, a, b, c];
    steps, s := Extend(s0, steps, s, Lag(0, 1));
    assert s.queue == [3, 2];
    steps, s := Extend(s0, steps, s, HearBroadcast);
    assert steps == [Store(a), Announce, Store(b), Announce, Store(c), Lag(0, 1), HearBroadcast];
    assert s.queue == [2];
    steps, s := Extend(s0, steps, s, HearBroadcast);
  }

  /** A write and then the list asked for before the first poll. */
  function BothAsked(first: Payload, action: WriteAction): System {
    Init(first).(
      asks := {"q", "w"}, askedAt := map["q" := 0, "w" := 0],
      client := Some(NEW_HOST.(list := Some(Ask("q", 0)), write := Some(WriteAsk(action, Ask("w", 0))))))
  }

  lemma {:induction false} ReachBothAsked(first: Payload, action: WriteAction)
    ensures var steps := [AskWrite(action, "w"), AskList("q")];
            Legal(Init(first), steps) && After(Init(first), steps) == BothAsked(first, action)
  {
    var s0 := Init(first);
    var steps, s := Extend(s0, [], s0, AskWrite(action, "w"));
    steps, s := Extend(s0, steps, s, AskList("q"));
    assert steps == [AskWrite(action, "w"), AskList("q")];
  }

  /** The list answered from a reading, the write once its refresh was cached and announced. */
  function BothAnswered(first: Payload, a: Payload, action: WriteAction): System {
    BothAsked(first, action).(
      snapshots := [first, a], polled := true, unannounced := false, queue := [1], told := 1,
      asks := {}, replies := {("q", 0), ("w", 1)})
  }

  lemma {:induction false} ReachBothAnswered(first: Payload, a: Payload, action: WriteAction)
    ensures var steps := [AskWrite(action, "w"), AskList("q"), Answer("q"), Store(a), Announce, Answer("w")];
            Legal(Init(first), steps) && After(Init(first), steps) == BothAnswered(first, a, action)
  {
    var s0, s := Init(first), BothAsked(first, action);
    var steps := [AskWrite(action, "w"), AskList("q")];
    ReachBothAsked(first, action);
    steps, s := Extend(s0, steps, s, Answer("q"));
    steps, s := Extend(s0, steps, s, Store(a));
    assert s.snapshots == [first, a];
    steps, s := Extend(s0, steps, s, Announce);
    steps, s := Extend(s0, steps, s, Answer("w"));
    assert s.asks == {} && s.replies == {("q", 0), ("w", 1)} && s.queue == [1];
    assert steps == [AskWrite(action, "w"), AskList("q"), Answer("q"), Store(a), Announce, Answer("w")];
  }

  /** The third: a write's reply overtakes the list's, read before the first poll, which then lands though older. */
  lemma {:induction false} ReplyMayRegress(first: Payload, a: Payload, action: WriteAction)
    ensures var steps := [AskWrite(action, "w"), AskList("q"), Answer("q"), Store(a), Announce, Answer("w"),
                          HearReply("w", 1, "r")];
            && Legal(Init(first), steps) && Legal(Init(first), steps + [HearReply("q", 0, "r")])
            && Shown(After(Init(first), steps).client) == a
            && Shown(After(Init(first), steps + [HearReply("q", 0, "r")]).client) == first
  {
    var s0, s := Init(first), BothAnswered(first, a, action);
    var steps := [AskWrite(action, "w"), AskList("q"), Answer("q"), Store(a), Announce, Answer("w")];
    ReachBothAnswered(first, a, action);
    steps, s := Extend(s0, steps, s, HearReply("w", 1, "r"));
    assert steps == [AskWrite(action, "w"), AskList("q"), Answer("q"), Store(a), Announce, Answer("w"),
                     HearReply("w", 1, "r")];
    steps, s := Extend(s0, steps, s, HearReply("q", 0, "r"));
  }
}
