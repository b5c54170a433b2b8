/**
 The stale-reply rule, read off a host's history instead of its counters: which
 asks are pending, which payloads land, and which one is shown. The client's
 counters and slots are proved to decide exactly this, in every history whose
 request ids are fresh.
 */
module AccountsHistory {
  import opened Common
  import opened AccountsFold

  predicate IsWelcome(e: Event) { e.Received? && e.msg.Welcome? }
  predicate IsBroadcast(e: Event) { e.Received? && e.msg.AccountsUpdated? }
  predicate IsReply(e: Event) { e.Received? && e.msg.Accounts? }
  predicate IsReplyTo(e: Event, id: RequestId) { IsReply(e) && e.msg.answers == Some(id) }
  predicate IsSend(e: Event) { e.SentList? || e.SentWrite? }

  /** What ends a list ask: its reply or its refusal. */
  predicate EndsList(e: Event, id: RequestId) {
    IsReplyTo(e, id) || (e.Refused? && e.refusedId == id)
  }

  /** What ends a write: its reply, its refusal or the login event answering it. */
  predicate EndsWrite(e: Event, id: RequestId) {
    EndsList(e, id) || (e.Received? && e.msg.AccountLogin? && e.msg.loginAnswers == Some(id))
  }

  /** Every send carries a request id of its own. */
  ghost predicate FreshIds(h: seq<Event>) {
    forall i, j | 0 <= i < j < |h| && IsSend(h[i]) && IsSend(h[j]) :: h[i].id != h[j].id
  }

  /** Event `i` is the newest list ask since the last Welcome, still unanswered before event `n`. */
  ghost predicate PendingList(h: seq<Event>, i: int, n: int) {
    0 <= i < n <= |h| && h[i].SentList?
    && forall k | i < k < n :: !IsWelcome(h[k]) && !h[k].SentList? && !EndsList(h[k], h[i].id)
  }

  /** Event `i` is the newest write since the last Welcome, still unanswered before event `n`. */
  ghost predicate PendingWrite(h: seq<Event>, i: int, n: int) {
    0 <= i < n <= |h| && h[i].SentWrite?
    && forall k | i < k < n :: !IsWelcome(h[k]) && !h[k].SentWrite? && !EndsWrite(h[k], h[i].id)
  }

  /** No broadcast arrived between event `i` and event `n`. */
  ghost predicate Quiet(h: seq<Event>, i: int, n: int)
    requires 0 <= i <= n <= |h|
  {
    forall k | i < k < n :: !IsBroadcast(h[k])
  }

  /** Event `j` answers ask `i`, pending and not overtaken by a broadcast. */
  ghost predicate Answers(h: seq<Event>, i: int, j: int) {
    0 <= i < j < |h| && (PendingList(h, i, j) || PendingWrite(h, i, j))
    && IsReplyTo(h[j], h[i].id) && Quiet(h, i, j)
  }

  /** Event `j` replaces what the host shows. */
  ghost predicate Lands(h: seq<Event>, j: int) {
    0 <= j < |h| && (IsBroadcast(h[j]) || exists i :: Answers(h, i, j))
  }

  function Carried(e: Event): Payload
    requires IsBroadcast(e) || IsReply(e)
  {
    if IsBroadcast(e) then e.msg.update else e.msg.snapshot
  }

  /** Event `j` is the last to land before event `n`, with no Welcome since. */
  ghost predicate LastLanding(h: seq<Event>, j: int, n: int) {
    0 <= j < n <= |h| && Lands(h, j) && forall k | j < k < n :: !IsWelcome(h[k]) && !Lands(h, k)
  }

  /** `ask` is the record of event `i`: its id, and a stamp that tells whether a broadcast came since. */
  ghost predicate Records(h: seq<Event>, i: int, n: int, ask: Ask, seen: nat)
    requires 0 <= i < n <= |h| && IsSend(h[i])
  {
    ask.requestId == h[i].id && ask.updatesAtAsk <= seen
    && (ask.updatesAtAsk == seen <==> Quiet(h, i, n))
  }

  ghost predicate ListTracked(h: seq<Event>, n: nat)
    requires n <= |h|
  {
    match ListAsk(Run(h, n))
    case None => forall i :: !PendingList(h, i, n)
    case Some(ask) => exists i :: PendingList(h, i, n) && Records(h, i, n, ask, Seen(Run(h, n)))
  }

  ghost predicate WriteTracked(h: seq<Event>, n: nat)
    requires n <= |h|
  {
    match WriteAskOf(Run(h, n))
    case None => forall i :: !PendingWrite(h, i, n)
    case Some(ask) => exists i :: PendingWrite(h, i, n) && Records(h, i, n, ask, Seen(Run(h, n)))
  }

  /** How one event moves the update count. */
  lemma SeenStep(s: Held, e: Event)
    ensures Seen(Apply(s, e)) == if IsWelcome(e) then 0 else if IsBroadcast(e) then Seen(s) + 1 else Seen(s)
  {
  }

  /** How one event other than a new list ask moves the list slot, ids being fresh. */
  lemma ListSlotStep(s: Held, e: Event)
    requires !e.SentList?
    requires ListAsk(s).Some? ==> !IsAsk(WriteAskOf(s), ListAsk(s).value.requestId)
    ensures ListAsk(Apply(s, e)) ==
            if IsWelcome(e) || ListAsk(s).None? || EndsList(e, ListAsk(s).value.requestId) then None else ListAsk(s)
  {
  }

  /** How one event other than a new write moves the write slot, ids being fresh. */
  lemma WriteSlotStep(s: Held, e: Event)
    requires !e.SentWrite?
    requires WriteAskOf(s).Some? ==> !IsAsk(ListAsk(s), WriteAskOf(s).value.requestId)
    ensures WriteAskOf(Apply(s, e)) ==
            if IsWelcome(e) || WriteAskOf(s).None? || EndsWrite(e, WriteAskOf(s).value.requestId) then None
            else WriteAskOf(s)
  {
  }

  /** A pending list ask and a pending write carry different ids. */
  lemma SlotsDiffer(h: seq<Event>, n: nat)
    requires n <= |h| && FreshIds(h) && ListTracked(h, n) && WriteTracked(h, n)
    ensures ListAsk(Run(h, n)).Some? ==> !IsAsk(WriteAskOf(Run(h, n)), ListAsk(Run(h, n)).value.requestId)
  {
    var s := Run(h, n);
    if ListAsk(s).Some? && WriteAskOf(s).Some? {
      var i :| PendingList(h, i, n) && Records(h, i, n, ListAsk(s).value, Seen(s));
      var j :| PendingWrite(h, j, n) && Records(h, j, n, WriteAskOf(s).value, Seen(s));
      assert i < j || j < i;
    }
  }

  /** The list slot and its stamp hold exactly the history's pending list ask. */
  lemma {:induction false} TrackList(h: seq<Event>, n: nat)
    requires n <= |h| && FreshIds(h)
    ensures ListTracked(h, n)
  {
    if n == 0 {
    } else {
      TrackList(h, n - 1);
      TrackWrite(h, n - 1);
      SlotsDiffer(h, n - 1);
      var s, e := Run(h, n - 1), h[n - 1];
      SeenStep(s, e);
      forall i | PendingList(h, i, n) ensures i == n - 1 || PendingList(h, i, n - 1) {}
      if e.SentList? {
        assert PendingList(h, n - 1, n);
      } else {
        ListSlotStep(s, e);
        if ListAsk(s).Some? {
          var i :| PendingList(h, i, n - 1) && Records(h, i, n - 1, ListAsk(s).value, Seen(s));
          assert PendingList(h, i, n) <==> !IsWelcome(e) && !EndsList(e, h[i].id);
        }
      }
    }
  }

  /** The write slot and its stamp hold exactly the history's pending write. */
  lemma {:induction false} TrackWrite(h: seq<Event>, n: nat)
    requires n <= |h| && FreshIds(h)
    ensures WriteTracked(h, n)
  {
    if n == 0 {
    } else {
      TrackList(h, n - 1);
      TrackWrite(h, n - 1);
      SlotsDiffer(h, n - 1);
      var s, e := Run(h, n - 1), h[n - 1];
      SeenStep(s, e);
      forall i | PendingWrite(h, i, n) ensures i == n - 1 || PendingWrite(h, i, n - 1) {}
      if e.SentWrite? {
        assert PendingWrite(h, n - 1, n);
      } else {
        WriteSlotStep(s, e);
        if WriteAskOf(s).Some? {
          var i :| PendingWrite(h, i, n - 1) && Records(h, i, n - 1, WriteAskOf(s).value, Seen(s));
          assert PendingWrite(h, i, n) <==> !IsWelcome(e) && !EndsWrite(e, h[i].id);
        }
      }
    }
  }

  /** The counter stamp refines the history rule: the fold takes a reply exactly when it lands. */
  lemma {:induction false} ReplyLandsIff(h: seq<Event>, j: nat)
    requires j < |h| && FreshIds(h) && IsReply(h[j])
    ensures FoldHost(Run(h, j), h[j].msg).1 == Folded(true, false) <==> Lands(h, j)
    ensures Lands(h, j) ==> Shown(Run(h, j + 1)) == Carried(h[j])
    ensures !Lands(h, j) ==> Shown(Run(h, j + 1)) == Shown(Run(h, j))
  {
    TrackList(h, j);
    TrackWrite(h, j);
    var s := Run(h, j);
    var id := h[j].msg.answers;
    if id.Some? && IsAsk(ListAsk(s), id.value) {
      var i :| PendingList(h, i, j) && Records(h, i, j, ListAsk(s).value, Seen(s));
      assert Answers(h, i, j) <==> Quiet(h, i, j);
    } else if id.Some? && IsAsk(WriteAskOf(s), id.value) {
      var i :| PendingWrite(h, i, j) && Records(h, i, j, WriteAskOf(s).value, Seen(s));
      assert Answers(h, i, j) <==> Quiet(h, i, j);
    } else {
      forall i ensures !Answers(h, i, j) {}
    }
  }

  /** In every history the host shows exactly the last payload that landed since its last Welcome. */
  lemma {:induction false} ShowsLastLanding(h: seq<Event>, n: nat)
    requires n <= |h| && FreshIds(h)
    ensures forall j | LastLanding(h, j, n) :: Shown(Run(h, n)) == Carried(h[j])
    ensures (forall j :: !LastLanding(h, j, n)) ==> Shown(Run(h, n)) == NO_ACCOUNTS
  {
    if n == 0 {
    } else {
      var m, e := n - 1, h[n - 1];
      ShowsLastLanding(h, m);
      assert LastLanding(h, m, n) <==> Lands(h, m);
      if IsReply(e) {
        ReplyLandsIff(h, m);
      }
      forall j | 0 <= j < m
        ensures LastLanding(h, j, n) <==> LastLanding(h, j, m) && !IsWelcome(e) && !Lands(h, m)
      {}
      if !IsWelcome(e) && !Lands(h, m) {
        assert Shown(Run(h, n)) == Shown(Run(h, m));
        forall j | LastLanding(h, j, m) ensures LastLanding(h, j, n) {}
      }
    }
  }

  // ----- writes one at a time

  /** What the view lets through: a write goes out only while the slot is free. */
  ghost predicate ViewSends(h: seq<Event>) {
    forall n | 0 <= n < |h| && h[n].SentWrite? :: !Writing(Run(h, n))
  }

  /** Between two writes of one connection, the first was answered under its own id. */
  lemma WritesAreSerial(h: seq<Event>, i: nat, j: nat)
    requires FreshIds(h) && ViewSends(h)
    requires i < j < |h| && h[i].SentWrite? && h[j].SentWrite?
    requires forall k | i < k < j :: !IsWelcome(h[k])
    ensures exists k | i < k < j :: EndsWrite(h[k], h[i].id)
    decreases j - i
  {
    if k :| i < k < j && h[k].SentWrite? {
      WritesAreSerial(h, i, k);
    } else {
      TrackWrite(h, j);
      assert !PendingWrite(h, i, j);
    }
  }

  // ----- every host together

  /** The view's rule on every host's own events. */
  ghost predicate Serial(h: seq<HostEvent>) {
    forall host :: ViewSends(EventsOf(h, host))
  }

  lemma ViewSendsSnoc(h: seq<Event>, e: Event)
    requires ViewSends(h) && (e.SentWrite? ==> !Writing(Run(h, |h|)))
    ensures ViewSends(h + [e])
  {
    forall n | 0 <= n < |h + [e]| && (h + [e])[n].SentWrite? ensures !Writing(Run(h + [e], n)) {
      RunPrefix(h, e, n);
      if n < |h| { assert h[n].SentWrite?; }
    }
  }

  lemma SerialSnoc(h: seq<HostEvent>, e: HostEvent)
    requires Serial(h) && (e.event.SentWrite? ==> !Writing(Get(RunHosts(h), e.host)))
    ensures Serial(h + [e])
  {
    forall host ensures ViewSends(EventsOf(h + [e], host)) {
      assert (h + [e])[..|h|] == h;
      if e.host == host {
        HostsAreIndependent(h, host);
        ViewSendsSnoc(EventsOf(h, host), e.event);
      }
    }
  }

  /** Whatever the other hosts do, a host shows the last payload of its own that landed, or nothing if none did. */
  lemma HostShowsLastLanding(h: seq<HostEvent>, host: HostKey)
    requires FreshIds(EventsOf(h, host))
    ensures var own := EventsOf(h, host);
            && (forall j | LastLanding(own, j, |own|) :: Shown(Get(RunHosts(h), host)) == Carried(own[j]))
            && ((forall j :: !LastLanding(own, j, |own|)) ==> Shown(Get(RunHosts(h), host)) == NO_ACCOUNTS)
  {
    HostsAreIndependent(h, host);
    ShowsLastLanding(EventsOf(h, host), |EventsOf(h, host)|);
  }
}
