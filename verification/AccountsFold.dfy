/**
 One host's saved accounts as a fold over what happened to that host:
 broadcasts, replies, refusals, login events and sends, and the class that
 keeps one such fold per host.
 */
module AccountsFold {
  import opened Common

  type HostKey = string
  type RequestId = string

  datatype AccountSnapshot = AccountSnapshot(number: nat, email: string, active: bool)
  datatype AutoSwitchState = AutoSwitchState(enabled: bool, thresholdPct: real)

  /** What one `Accounts` or `AccountsUpdated` carries. */
  datatype Payload = Payload(accounts: seq<AccountSnapshot>, auto: Option<AutoSwitchState>)

  const NO_ACCOUNTS := Payload([], None)

  datatype LoginState = Started | Succeeded | Failed | Cancelled | UnknownLogin
  datatype Login =
    | Running(sessionId: Option<string>)
    | Ended(state: LoginState, message: Option<string>)

  datatype WriteAction =
    | Switch(number: nat) | AddLogin | LogIn | CancelLogin | Remove(number: nat)
    | Alias(number: nat) | Order | AutoSwitch | Rules

  /** A pending request, stamped with the update count that stood as it went out. */
  datatype Ask = Ask(requestId: RequestId, updatesAtAsk: nat)
  datatype WriteAsk = WriteAsk(action: WriteAction, ask: Ask)

  datatype HostAccounts = HostAccounts(
    accounts: seq<AccountSnapshot>,
    auto: Option<AutoSwitchState>,
    updatesSeen: nat,
    list: Option<Ask>,
    write: Option<WriteAsk>,
    error: Option<string>,
    login: Option<Login>)

  const NEW_HOST := HostAccounts([], None, 0, None, None, None, None)

  datatype DaemonMessage =
    | Welcome
    | AccountsUpdated(update: Payload)
    | Accounts(snapshot: Payload, answers: Option<RequestId>)
    | AccountLogin(
        state: LoginState, sessionId: Option<string>, message: Option<string>, loginAnswers: Option<RequestId>)
    | OtherMessage

  /** What a fold did: whether what is shown changed, and whether the client must ask again. */
  datatype Folded = Folded(changed: bool, askAgain: bool)
  const NOTHING := Folded(false, false)

  /** A host the client holds nothing for is `None`. */
  type Held = Option<HostAccounts>

  function OrNew(s: Held): HostAccounts {
    if s.Some? then s.value else NEW_HOST
  }

  /** The accounts and auto-switch state a host shows. */
  function Shown(s: Held): Payload {
    if s.Some? then Payload(s.value.accounts, s.value.auto) else NO_ACCOUNTS
  }

  function ListAsk(s: Held): Option<Ask> {
    if s.Some? then s.value.list else None
  }

  function WriteAskOf(s: Held): Option<Ask> {
    if s.Some? && s.value.write.Some? then Some(s.value.write.value.ask) else None
  }

  function Seen(s: Held): nat {
    if s.Some? then s.value.updatesSeen else 0
  }

  predicate IsAsk(ask: Option<Ask>, id: RequestId) {
    ask.Some? && ask.value.requestId == id
  }

  predicate Writing(s: Held) {
    WriteAskOf(s).Some?
  }

  /** What is left of an overtaken or answered ask, and the snapshot when it still counts. */
  function Settle(s: HostAccounts, ask: Ask, write: bool, snapshot: Payload): (HostAccounts, Folded) {
    if ask.updatesAtAsk != s.updatesSeen then (s, Folded(write, write))
    else (s.(accounts := snapshot.accounts, auto := snapshot.auto, error := None), Folded(true, false))
  }

  /** The `Accounts` reply `id`, under the stale-reply rule. */
  function ReplyHost(s: Held, id: Option<RequestId>, snapshot: Payload): (Held, Folded) {
    if s.None? || id.None? then (s, NOTHING)
    else if IsAsk(s.value.list, id.value) then
      var (host, did) := Settle(s.value.(list := None), s.value.list.value, false, snapshot);
      (Some(host), did)
    else if IsAsk(WriteAskOf(s), id.value) then
      var (host, did) := Settle(s.value.(write := None), s.value.write.value.ask, true, snapshot);
      (Some(host), did)
    else (s, NOTHING)
  }

  /** Whether `ask` is request `id` and no broadcast arrived since it was sent. */
  predicate Current(ask: Option<Ask>, id: RequestId, seen: nat) {
    IsAsk(ask, id) && ask.value.updatesAtAsk == seen
  }

  /** A reply can only free slots, and it replaces what is shown only for an ask nothing overtook. */
  lemma ReplyEffects(s: Held, id: RequestId, snapshot: Payload)
    ensures var (t, did) := ReplyHost(s, Some(id), snapshot);
            && Seen(t) == Seen(s)
            && (ListAsk(t).None? || ListAsk(t) == ListAsk(s))
            && (WriteAskOf(t).None? || WriteAskOf(t) == WriteAskOf(s))
            && (did == Folded(true, false) ==>
                  Shown(t) == snapshot && (Current(ListAsk(s), id, Seen(s)) || Current(WriteAskOf(s), id, Seen(s))))
            && (did != Folded(true, false) ==> Shown(t) == Shown(s))
  {
  }

  function LoginHost(
    s: Held, state: LoginState, sessionId: Option<string>, message: Option<string>, id: Option<RequestId>
  ): (Held, Folded) {
    if s.None? then (s, NOTHING)
    else
      var answered := id.Some? && IsAsk(WriteAskOf(s), id.value);
      var host := if answered then s.value.(write := None) else s.value;
      match state
      case Started =>
        if host.login.Some? && host.login.value.Running? then (Some(host), Folded(answered, false))
        else (Some(host.(login := Some(Running(sessionId)))), Folded(true, false))
      case UnknownLogin => (Some(host), Folded(answered, false))
      case _ => (Some(host.(login := Some(Ended(state, message)))), Folded(true, false))
  }

  function FoldHost(s: Held, msg: DaemonMessage): (Held, Folded) {
    match msg
    case Welcome => (None, Folded(s.Some?, false))
    case AccountsUpdated(update) =>
      var host := OrNew(s);
      var next := host.(updatesSeen := host.updatesSeen + 1, accounts := update.accounts, auto := update.auto);
      (Some(next), Folded(true, false))
    case Accounts(snapshot, id) => ReplyHost(s, id, snapshot)
    case AccountLogin(state, sessionId, message, id) => LoginHost(s, state, sessionId, message, id)
    case OtherMessage => (s, NOTHING)
  }

  function RefusedHost(s: Held, id: RequestId, message: string): (Held, bool) {
    if IsAsk(WriteAskOf(s), id) then (Some(s.value.(write := None, error := Some(message))), true)
    else if IsAsk(ListAsk(s), id) then (Some(s.value.(list := None, error := Some(message))), true)
    else (s, false)
  }

  function SentListHost(s: Held, id: RequestId): Held {
    var host := OrNew(s);
    Some(host.(list := Some(Ask(id, host.updatesSeen))))
  }

  function SentWriteHost(s: Held, action: WriteAction, id: RequestId): Held {
    var host := OrNew(s);
    Some(host.(write := Some(WriteAsk(action, Ask(id, host.updatesSeen))), error := None))
  }

  function ClearLoginHost(s: Held): Held {
    if s.Some? then Some(s.value.(login := None)) else None
  }

  /** Everything that can happen to one host's accounts. */
  datatype Event =
    | Received(msg: DaemonMessage)
    | Refused(refusedId: RequestId, text: string)
    | SentList(id: RequestId)
    | SentWrite(action: WriteAction, id: RequestId)
    | ClearedLogin

  function Apply(s: Held, e: Event): Held {
    match e
    case Received(msg) => FoldHost(s, msg).0
    case Refused(id, text) => RefusedHost(s, id, text).0
    case SentList(id) => SentListHost(s, id)
    case SentWrite(action, id) => SentWriteHost(s, action, id)
    case ClearedLogin => ClearLoginHost(s)
  }

  /** A refusal, a login event and a forgotten login change no snapshot and can only free slots. */
  lemma QuietEffects(s: Held, e: Event)
    requires e.Refused? || e.ClearedLogin? || (e.Received? && e.msg.AccountLogin?)
    ensures var t := Apply(s, e);
            && Seen(t) == Seen(s) && Shown(t) == Shown(s)
            && (ListAsk(t).None? || ListAsk(t) == ListAsk(s))
            && (WriteAskOf(t).None? || WriteAskOf(t) == WriteAskOf(s))
  {
  }

  /** One host after its first `n` events, from nothing. */
  function Run(h: seq<Event>, n: nat): Held
    requires n <= |h|
  {
    if n == 0 then None else Apply(Run(h, n - 1), h[n - 1])
  }

  // ----- every host together

  type Hosts = map<HostKey, HostAccounts>

  function Get(hosts: Hosts, host: HostKey): Held {
    if host in hosts then Some(hosts[host]) else None
  }

  function Put(hosts: Hosts, host: HostKey, s: Held): Hosts {
    if s.Some? then hosts[host := s.value] else hosts - {host}
  }

  datatype HostEvent = HostEvent(host: HostKey, event: Event)

  function RunHosts(h: seq<HostEvent>): Hosts {
    if h == [] then map[]
    else
      var last := h[|h| - 1];
      var before := RunHosts(h[..|h| - 1]);
      Put(before, last.host, Apply(Get(before, last.host), last.event))
  }

  /** The events of `h` that concern `host`. */
  function EventsOf(h: seq<HostEvent>, host: HostKey): seq<Event> {
    if h == [] then []
    else
      var rest := EventsOf(h[..|h| - 1], host);
      if h[|h| - 1].host == host then rest + [h[|h| - 1].event] else rest
  }

  lemma {:induction false} RunPrefix(h: seq<Event>, e: Event, n: nat)
    requires n <= |h|
    ensures Run(h + [e], n) == Run(h, n)
  {
    if n == 0 {
    } else {
      RunPrefix(h, e, n - 1);
      assert (h + [e])[n - 1] == h[n - 1];
    }
  }

  /** Hosts are independent: each host's state is the fold of its own events alone. */
  lemma {:induction false} HostsAreIndependent(h: seq<HostEvent>, host: HostKey)
    ensures Get(RunHosts(h), host) == Run(EventsOf(h, host), |EventsOf(h, host)|)
  {
    if h == [] {
    } else {
      var before, last := h[..|h| - 1], h[|h| - 1];
      HostsAreIndependent(before, host);
      if last.host == host {
        var own := EventsOf(before, host);
        RunPrefix(own, last.event, |own|);
        assert (own + [last.event])[|own|] == last.event;
      }
    }
  }

  lemma RunHostsSnoc(h: seq<HostEvent>, e: HostEvent)
    ensures RunHosts(h + [e]) == Put(RunHosts(h), e.host, Apply(Get(RunHosts(h), e.host), e.event))
  {
    assert (h + [e])[..|h|] == h;
  }

  /** Every host's accounts, with the events that led to them as a ghost history. */
  class AccountsState {
    var hosts: Hosts
    ghost var history: seq<HostEvent>

    ghost predicate Valid()
      reads this
    {
      hosts == RunHosts(history)
    }

    constructor ()
      ensures Valid() && hosts == map[] && history == []
    {
      hosts := map[];
      history := [];
    }

    /** Files `event` in the history; the caller has already folded it. */
    ghost method Record(host: HostKey, event: Event)
      requires hosts == Put(RunHosts(history), host, Apply(Get(RunHosts(history), host), event))
      modifies this`history
      ensures Valid()
      ensures history == old(history) + [HostEvent(host, event)]
    {
      RunHostsSnoc(history, HostEvent(host, event));
      history := history + [HostEvent(host, event)];
    }

    method Fold(host: HostKey, msg: DaemonMessage) returns (folded: Folded)
      requires Valid()
      modifies this
      ensures Valid() && history == old(history) + [HostEvent(host, Received(msg))]
      ensures folded == FoldHost(Get(old(hosts), host), msg).1
    {
      match msg {
        case Welcome =>
          folded := Folded(host in hosts, false);
          hosts := hosts - {host};
        case AccountsUpdated(update) =>
          var state := if host in hosts then hosts[host] else NEW_HOST;
          var seen := state.updatesSeen + 1;
          hosts := hosts[host := state.(updatesSeen := seen, accounts := update.accounts, auto := update.auto)];
          folded := Folded(true, false);
        case Accounts(snapshot, id) =>
          folded := Reply(host, id, snapshot);
        case AccountLogin(state, sessionId, message, id) =>
          folded := LoginEvent(host, state, sessionId, message, id);
        case OtherMessage =>
          folded := NOTHING;
      }
      assert hosts == Put(old(hosts), host, Apply(Get(old(hosts), host), Received(msg)));
      Record(host, Received(msg));
    }

    method LoginEvent(
      host: HostKey, state: LoginState, sessionId: Option<string>, message: Option<string>, id: Option<RequestId>)
      returns (folded: Folded)
      modifies this`hosts
      ensures var (s, did) := LoginHost(Get(old(hosts), host), state, sessionId, message, id);
              hosts == Put(old(hosts), host, s) && folded == did
    {
      if host !in hosts {
        return NOTHING;
      }
      var own := hosts[host];
      var changed := false;
      if id.Some? && own.write.Some? && own.write.value.ask.requestId == id.value {
        own := own.(write := None);
        changed := true;
      }
      match state {
        case Started =>
          if !(own.login.Some? && own.login.value.Running?) {
            own := own.(login := Some(Running(sessionId)));
            changed := true;
          }
        case UnknownLogin =>
        case _ =>
          own := own.(login := Some(Ended(state, message)));
          changed := true;
      }
      hosts := hosts[host := own];
      folded := Folded(changed, false);
    }

    method Reply(host: HostKey, id: Option<RequestId>, snapshot: Payload) returns (folded: Folded)
      modifies this`hosts
      ensures var (s, did) := ReplyHost(Get(old(hosts), host), id, snapshot);
              hosts == Put(old(hosts), host, s) && folded == did
    {
      if host !in hosts || id.None? {
        return NOTHING;
      }
      var own := hosts[host];
      var asked: Ask;
      var write: bool;
      if own.list.Some? && own.list.value.requestId == id.value {
        asked, write := own.list.value, false;
        own := own.(list := None);
      } else if own.write.Some? && own.write.value.ask.requestId == id.value {
        asked, write := own.write.value.ask, true;
        own := own.(write := None);
      } else {
        return NOTHING;
      }
      if asked.updatesAtAsk != own.updatesSeen {
        hosts := hosts[host := own];
        return Folded(write, write);
      }
      own := own.(accounts := snapshot.accounts, auto := snapshot.auto, error := None);
      hosts := hosts[host := own];
      folded := Folded(true, false);
    }

    method Refuse(host: HostKey, id: RequestId, message: string) returns (answered: bool)
      requires Valid()
      modifies this
      ensures Valid() && history == old(history) + [HostEvent(host, Refused(id, message))]
      ensures answered == RefusedHost(Get(old(hosts), host), id, message).1
    {
      answered := false;
      if host in hosts {
        var own := hosts[host];
        if own.write.Some? && own.write.value.ask.requestId == id {
          hosts := hosts[host := own.(write := None, error := Some(message))];
          answered := true;
        } else if own.list.Some? && own.list.value.requestId == id {
          hosts := hosts[host := own.(list := None, error := Some(message))];
          answered := true;
        }
      }
      Record(host, Refused(id, message));
    }

    method RecordList(host: HostKey, id: RequestId)
      requires Valid()
      modifies this
      ensures Valid() && history == old(history) + [HostEvent(host, SentList(id))]
    {
      var own := if host in hosts then hosts[host] else NEW_HOST;
      hosts := hosts[host := own.(list := Some(Ask(id, own.updatesSeen)))];
      Record(host, SentList(id));
    }

    method RecordWrite(host: HostKey, action: WriteAction, id: RequestId)
      requires Valid()
      modifies this
      ensures Valid() && history == old(history) + [HostEvent(host, SentWrite(action, id))]
    {
      var own := if host in hosts then hosts[host] else NEW_HOST;
      hosts := hosts[host := own.(write := Some(WriteAsk(action, Ask(id, own.updatesSeen))), error := None)];
      Record(host, SentWrite(action, id));
    }

    method ClearLogin(host: HostKey)
      requires Valid()
      modifies this
      ensures Valid() && history == old(history) + [HostEvent(host, ClearedLogin)]
    {
      if host in hosts {
        hosts := hosts[host := hosts[host].(login := None)];
      }
      Record(host, ClearedLogin);
    }
  }
}
