/**
 What a host shows beside its accounts, read off its history: the login run, and
 the text of the last refusal. The fields the fold keeps are proved to hold
 exactly that, and what a fold reports as changed is proved to be what changed.
 */
module AccountsNotices {
  import opened Common
  import opened AccountsFold
  import opened AccountsHistory

  function LoginOf(s: Held): Option<Login> { if s.Some? then s.value.login else None }
  function ErrorOf(s: Held): Option<string> { if s.Some? then s.value.error else None }

  predicate IsLogin(e: Event) { e.Received? && e.msg.AccountLogin? }
  predicate IsTerminal(state: LoginState) { state.Succeeded? || state.Failed? || state.Cancelled? }

  // ----- whether the client holds the host

  /** Event `i` is a broadcast or a send of ours, with no Welcome since. */
  ghost predicate HeldSince(h: seq<Event>, i: int, n: int) {
    0 <= i < n <= |h| && (IsBroadcast(h[i]) || IsSend(h[i])) && forall k | i < k < n :: !IsWelcome(h[k])
  }

  ghost predicate HeldAt(h: seq<Event>, n: int) { exists i :: HeldSince(h, i, n) }

  lemma HeldStep(s: Held, e: Event)
    ensures Apply(s, e).Some? <==> !IsWelcome(e) && (s.Some? || IsBroadcast(e) || IsSend(e))
  {
  }

  lemma {:induction false} HeldIff(h: seq<Event>, n: nat)
    requires n <= |h|
    ensures Run(h, n).Some? <==> HeldAt(h, n)
  {
    if n == 0 {
    } else {
      var m, e := n - 1, h[n - 1];
      HeldIff(h, m);
      HeldStep(Run(h, m), e);
      forall i ensures HeldSince(h, i, n) <==>
                       if i == m then IsBroadcast(e) || IsSend(e) else HeldSince(h, i, m) && !IsWelcome(e)
      {
      }
      assert HeldSince(h, m, n) <==> IsBroadcast(e) || IsSend(e);
    }
  }

  // ----- the login run

  /** Event `j` ends a login of a host the client holds. */
  ghost predicate IsEnd(h: seq<Event>, j: int) {
    0 <= j < |h| && IsLogin(h[j]) && IsTerminal(h[j].msg.state) && HeldAt(h, j)
  }

  ghost predicate IsStart(h: seq<Event>, j: int) {
    0 <= j < |h| && IsLogin(h[j]) && h[j].msg.state.Started? && HeldAt(h, j)
  }

  /** Event `k` forgets the login: a Welcome, or the user clearing it. */
  ghost predicate Forgets(h: seq<Event>, k: int) {
    0 <= k < |h| && (IsWelcome(h[k]) || h[k].ClearedLogin?)
  }

  ghost predicate Breaks(h: seq<Event>, k: int) { Forgets(h, k) || IsEnd(h, k) }

  /** Event `j` ended a login, and neither a forgetting, an end nor a start came since. */
  ghost predicate EndShown(h: seq<Event>, j: int, n: int) {
    0 <= j < n <= |h| && IsEnd(h, j) && forall k | j < k < n :: !Breaks(h, k) && !IsStart(h, k)
  }

  /** Event `j` is the first start since the last end or forgetting, and none of those came since. */
  ghost predicate StartShown(h: seq<Event>, j: int, n: int) {
    && 0 <= j < n <= |h| && IsStart(h, j)
    && (forall k | j < k < n :: !Breaks(h, k))
    && (forall i | 0 <= i < j && IsStart(h, i) :: BreakBetween(h, i, j))
  }

  ghost predicate BreakBetween(h: seq<Event>, i: int, j: int) {
    exists k :: i < k < j && Breaks(h, k)
  }

  /** How one event moves the login of a host. */
  lemma LoginStep(s: Held, e: Event)
    ensures LoginOf(Apply(s, e)) ==
            if IsWelcome(e) || e.ClearedLogin? then None
            else if s.None? || !IsLogin(e) then LoginOf(s)
            else if IsTerminal(e.msg.state) then Some(Ended(e.msg.state, e.msg.message))
            else if e.msg.state.Started? && !(LoginOf(s).Some? && LoginOf(s).value.Running?)
            then Some(Running(e.msg.sessionId))
            else LoginOf(s)
  {
  }

  /** From any start with no break since, going back finds the first one. */
  lemma {:induction false} FirstStart(h: seq<Event>, i: nat, n: nat) returns (j: nat)
    requires i < n <= |h| && IsStart(h, i) && forall k | i < k < n :: !Breaks(h, k)
    ensures StartShown(h, j, n)
  {
    if forall p | 0 <= p < i && IsStart(h, p) :: BreakBetween(h, p, i) {
      j := i;
    } else {
      var p :| 0 <= p < i && IsStart(h, p) && !BreakBetween(h, p, i);
      forall k | p < k < n ensures !Breaks(h, k) {
        if k == i { assert !IsTerminal(h[i].msg.state); }
      }
      j := FirstStart(h, p, n);
    }
  }

  /** At most one event decides the login shown. */
  lemma {:induction false} OneDecides(h: seq<Event>, i: int, j: int, n: int)
    ensures EndShown(h, i, n) && EndShown(h, j, n) ==> i == j
    ensures StartShown(h, i, n) && StartShown(h, j, n) ==> i == j
    ensures !(EndShown(h, i, n) && StartShown(h, j, n))
  {
    assert IsEnd(h, i) ==> Breaks(h, i);
    assert IsEnd(h, j) ==> Breaks(h, j);
    assert i < j && StartShown(h, j, n) && IsStart(h, i) && i >= 0 ==> BreakBetween(h, i, j);
    assert j < i && StartShown(h, i, n) && IsStart(h, j) && j >= 0 ==> BreakBetween(h, j, i);
  }

  ghost predicate LoginTracked(h: seq<Event>, n: nat)
    requires n <= |h|
  {
    match LoginOf(Run(h, n))
    case None => forall j :: !EndShown(h, j, n) && !StartShown(h, j, n)
    case Some(Ended(state, message)) =>
      exists j :: EndShown(h, j, n) && state == h[j].msg.state && message == h[j].msg.message
    case Some(Running(sessionId)) => exists j :: StartShown(h, j, n) && sessionId == h[j].msg.sessionId
  }

  /** An event that touches no login leaves the deciding event as it was. */
  lemma {:induction false} ShownStays(h: seq<Event>, j: int, m: nat)
    requires m < |h| && !Breaks(h, m)
    ensures StartShown(h, j, m) ==> StartShown(h, j, m + 1)
    ensures EndShown(h, j, m) && !IsStart(h, m) ==> EndShown(h, j, m + 1)
  {
  }

  lemma {:induction false} ShownBefore(h: seq<Event>, j: int, m: nat)
    requires m < |h| && j != m
    ensures StartShown(h, j, m + 1) ==> StartShown(h, j, m) && !Breaks(h, m)
    ensures EndShown(h, j, m + 1) ==> EndShown(h, j, m) && !Breaks(h, m) && !IsStart(h, m)
  {
  }

  lemma {:induction false} ForgettingTracks(h: seq<Event>, m: nat)
    requires m < |h| && Forgets(h, m)
    ensures LoginTracked(h, m + 1)
  {
    LoginStep(Run(h, m), h[m]);
    var n := m + 1;
    forall j ensures !EndShown(h, j, n) && !StartShown(h, j, n) {
      if j != m { ShownBefore(h, j, m); }
    }
  }

  lemma {:induction false} StartTracks(h: seq<Event>, m: nat)
    requires m < |h| && LoginTracked(h, m) && IsStart(h, m)
    ensures LoginTracked(h, m + 1)
  {
    HeldIff(h, m);
    LoginStep(Run(h, m), h[m]);
    var was := LoginOf(Run(h, m));
    if was.Some? && was.value.Running? {
      var j :| StartShown(h, j, m) && was.value.sessionId == h[j].msg.sessionId;
      ShownStays(h, j, m);
    } else {
      forall i | 0 <= i < m && IsStart(h, i) ensures BreakBetween(h, i, m) {
        if !BreakBetween(h, i, m) {
          var j := FirstStart(h, i, m);
          if was.Some? {
            var e :| EndShown(h, e, m) && was.value.state == h[e].msg.state && was.value.message == h[e].msg.message;
            OneDecides(h, e, j, m);
          }
          assert false;
        }
      }
      assert StartShown(h, m, m + 1);
    }
  }

  lemma {:induction false} OtherTracks(h: seq<Event>, m: nat)
    requires m < |h|
    ensures LoginTracked(h, m) && !Breaks(h, m) && !IsStart(h, m) ==> LoginTracked(h, m + 1)
  {
    if !LoginTracked(h, m) || Breaks(h, m) || IsStart(h, m) {
      return;
    }
    HeldIff(h, m);
    LoginStep(Run(h, m), h[m]);
    var n := m + 1;
    match LoginOf(Run(h, m)) {
      case None =>
        forall j ensures !EndShown(h, j, n) && !StartShown(h, j, n) {
          if j != m { ShownBefore(h, j, m); }
        }
      case Some(Ended(state, message)) =>
        var j :| EndShown(h, j, m) && state == h[j].msg.state && message == h[j].msg.message;
        ShownStays(h, j, m);
      case Some(Running(sessionId)) =>
        var j :| StartShown(h, j, m) && sessionId == h[j].msg.sessionId;
        ShownStays(h, j, m);
    }
  }

  lemma {:induction false} TrackLogin(h: seq<Event>, n: nat)
    requires n <= |h|
    ensures LoginTracked(h, n)
  {
    if n == 0 {
    } else {
      var m := n - 1;
      TrackLogin(h, m);
      if Forgets(h, m) {
        ForgettingTracks(h, m);
      } else if IsEnd(h, m) {
        HeldIff(h, m);
        LoginStep(Run(h, m), h[m]);
        assert EndShown(h, m, n);
      } else if IsStart(h, m) {
        StartTracks(h, m);
      } else {
        OtherTracks(h, m);
      }
    }
  }

  /**
   The login a host shows is the last end, or else the first start since, of those
   the client heard while it held the host; nothing if neither stands.
   */
  lemma {:induction false} ShowsLastLogin(h: seq<Event>, n: nat)
    requires n <= |h|
    ensures forall j | EndShown(h, j, n) :: LoginOf(Run(h, n)) == Some(Ended(h[j].msg.state, h[j].msg.message))
    ensures forall j | StartShown(h, j, n) :: LoginOf(Run(h, n)) == Some(Running(h[j].msg.sessionId))
    ensures (forall j :: !EndShown(h, j, n) && !StartShown(h, j, n)) ==> LoginOf(Run(h, n)) == None
  {
    TrackLogin(h, n);
    forall i, j ensures EndShown(h, i, n) && EndShown(h, j, n) ==> i == j {
      OneDecides(h, i, j, n);
    }
    forall i, j ensures StartShown(h, i, n) && StartShown(h, j, n) ==> i == j {
      OneDecides(h, i, j, n);
    }
    forall i, j ensures !(EndShown(h, i, n) && StartShown(h, j, n)) {
      OneDecides(h, i, j, n);
    }
  }

  // ----- the last refusal

  /** Event `j` refuses an ask pending then. */
  ghost predicate Refuses(h: seq<Event>, j: int) {
    && 0 <= j < |h| && h[j].Refused?
    && exists i :: (PendingList(h, i, j) || PendingWrite(h, i, j)) && h[i].id == h[j].refusedId
  }

  /** Event `k` takes a refusal's text off: a Welcome, a new write, or a reply that lands. */
  ghost predicate TakesOff(h: seq<Event>, k: int) {
    0 <= k < |h| && (IsWelcome(h[k]) || h[k].SentWrite? || (IsReply(h[k]) && Lands(h, k)))
  }

  ghost predicate RefusalShown(h: seq<Event>, j: int, n: int) {
    0 <= j < n <= |h| && Refuses(h, j) && forall k | j < k < n :: !Refuses(h, k) && !TakesOff(h, k)
  }

  lemma ErrorStep(s: Held, e: Event)
    ensures ErrorOf(Apply(s, e)) ==
            if IsWelcome(e) || e.SentWrite? then None
            else if IsReply(e) && FoldHost(s, e.msg).1 == Folded(true, false) then None
            else if e.Refused? && (IsAsk(WriteAskOf(s), e.refusedId) || IsAsk(ListAsk(s), e.refusedId))
            then Some(e.text)
            else ErrorOf(s)
  {
  }

  lemma {:induction false} RefusesIff(h: seq<Event>, j: nat)
    requires j < |h| && FreshIds(h) && h[j].Refused?
    ensures var s, id := Run(h, j), h[j].refusedId;
            Refuses(h, j) <==> IsAsk(WriteAskOf(s), id) || IsAsk(ListAsk(s), id)
  {
    TrackList(h, j);
    TrackWrite(h, j);
    var s, id := Run(h, j), h[j].refusedId;
    if i :| (PendingList(h, i, j) || PendingWrite(h, i, j)) && h[i].id == id {
      if PendingList(h, i, j) {
        var p :| PendingList(h, p, j) && Records(h, p, j, ListAsk(s).value, Seen(s));
        assert p == i;
      } else {
        var p :| PendingWrite(h, p, j) && Records(h, p, j, WriteAskOf(s).value, Seen(s));
        assert p == i;
      }
    }
    if IsAsk(ListAsk(s), id) {
      var i :| PendingList(h, i, j) && Records(h, i, j, ListAsk(s).value, Seen(s));
    }
    if IsAsk(WriteAskOf(s), id) {
      var i :| PendingWrite(h, i, j) && Records(h, i, j, WriteAskOf(s).value, Seen(s));
    }
  }

  /** The refusal a host shows is the last one that answered an ask, until a Welcome, a write or a landing reply. */
  lemma {:induction false} ShowsLastRefusal(h: seq<Event>, n: nat)
    requires n <= |h| && FreshIds(h)
    ensures forall j | RefusalShown(h, j, n) :: ErrorOf(Run(h, n)) == Some(h[j].text)
    ensures (forall j :: !RefusalShown(h, j, n)) ==> ErrorOf(Run(h, n)) == None
  {
    if n == 0 {
    } else {
      var m, s, e := n - 1, Run(h, n - 1), h[n - 1];
      ShowsLastRefusal(h, m);
      ErrorStep(s, e);
      if e.Refused? { RefusesIff(h, m); }
      if IsReply(e) { ReplyLandsIff(h, m); }
      forall j ensures RefusalShown(h, j, n) <==>
                       if j == m then Refuses(h, m) else RefusalShown(h, j, m) && !Refuses(h, m) && !TakesOff(h, m)
      {
      }
    }
  }

  /** A refusal frees the slot that waits for it, the write's before the list's, and no other. */
  lemma RefusalFrees(s: Held, id: RequestId, message: string)
    ensures var (t, answered) := RefusedHost(s, id, message);
            && Shown(t) == Shown(s) && LoginOf(t) == LoginOf(s) && Seen(t) == Seen(s)
            && WriteAskOf(t) == (if IsAsk(WriteAskOf(s), id) then None else WriteAskOf(s))
            && ListAsk(t) == (if !IsAsk(WriteAskOf(s), id) && IsAsk(ListAsk(s), id) then None else ListAsk(s))
            && (answered <==> IsAsk(WriteAskOf(s), id) || IsAsk(ListAsk(s), id))
            && ErrorOf(t) == (if answered then Some(message) else ErrorOf(s))
  {
  }

  // ----- what a fold reports

  /** A fold that reports no change leaves everything shown, and the pending write, as it was. */
  lemma UnchangedIsUnchanged(s: Held, msg: DaemonMessage)
    ensures var (t, did) := FoldHost(s, msg);
            !did.changed ==>
              && Shown(t) == Shown(s) && LoginOf(t) == LoginOf(s) && ErrorOf(t) == ErrorOf(s)
              && WriteAskOf(t) == WriteAskOf(s)
  {
  }

  /** Exactly what a fold reports as a change, and when it wants the list again. */
  lemma ChangedIff(s: Held, msg: DaemonMessage)
    ensures var e, did := Received(msg), FoldHost(s, msg).1;
            && (did.changed <==>
                  || IsBroadcast(e)
                  || (IsWelcome(e) && s.Some?)
                  || (IsReply(e) && msg.answers.Some?
                      && (IsAsk(WriteAskOf(s), msg.answers.value)
                          || Current(ListAsk(s), msg.answers.value, Seen(s)))
                      && (IsAsk(ListAsk(s), msg.answers.value) ==> Current(ListAsk(s), msg.answers.value, Seen(s))))
                  || (IsLogin(e) && s.Some?
                      && (|| EndsPendingWrite(s, msg)
                          || IsTerminal(msg.state)
                          || (msg.state.Started? && !(LoginOf(s).Some? && LoginOf(s).value.Running?)))))
            && (did.askAgain <==>
                  && IsReply(e) && msg.answers.Some? && !IsAsk(ListAsk(s), msg.answers.value)
                  && IsAsk(WriteAskOf(s), msg.answers.value)
                  && !Current(WriteAskOf(s), msg.answers.value, Seen(s)))
  {
  }

  /** The login event answers the write pending on the host. */
  predicate EndsPendingWrite(s: Held, msg: DaemonMessage) {
    msg.AccountLogin? && msg.loginAnswers.Some? && IsAsk(WriteAskOf(s), msg.loginAnswers.value)
  }
}
