/**
 The sending half of the accounts protocol: what the root view sends for each
 folded message and for each press, one outbox for every host.
 */
module AccountsView {
  import opened Common
  import opened AccountsFold
  import opened AccountsHistory

  datatype ClientMessage =
    | ListAccounts(requestId: RequestId)
    | AccountWrite(action: WriteAction, requestId: RequestId)

  datatype Outgoing = Outgoing(host: HostKey, message: ClientMessage)

  /** The view's account model and what it sent; `newId` stands for the fresh id each send takes. */
  class RootView {
    const accounts: AccountsState
    var outbox: seq<Outgoing>

    /** The model stands on its history, and no write ever went out over a pending one. */
    ghost predicate Valid()
      reads this, accounts
    {
      accounts.Valid() && Serial(accounts.history)
    }

    constructor ()
      ensures fresh(accounts) && Valid() && accounts.history == [] && outbox == []
    {
      accounts := new AccountsState();
      outbox := [];
    }

    method AskAccounts(host: HostKey, newId: RequestId)
      requires Valid()
      modifies this, accounts
      ensures Valid() && accounts.history == old(accounts.history) + [HostEvent(host, SentList(newId))]
      ensures outbox == old(outbox) + [Outgoing(host, ListAccounts(newId))]
    {
      SerialSnoc(accounts.history, HostEvent(host, SentList(newId)));
      accounts.RecordList(host, newId);
      outbox := outbox + [Outgoing(host, ListAccounts(newId))];
    }

    /**
     Folds `msg`. A pending write's reply always leaves the host with that
     write's snapshot shown and nothing sent, or with a list ask sent and
     pending, stamped with the count as it now stands.
     */
    method OnAccountsMessage(host: HostKey, msg: DaemonMessage, newId: RequestId) returns (notify: bool)
      requires Valid()
      modifies this, accounts
      ensures Valid()
      ensures var did := FoldHost(Get(old(accounts.hosts), host), msg).1;
              && notify == did.changed
              && accounts.history == old(accounts.history) + [HostEvent(host, Received(msg))]
                   + (if did.askAgain then [HostEvent(host, SentList(newId))] else [])
              && outbox == old(outbox) + (if did.askAgain then [Outgoing(host, ListAccounts(newId))] else [])
      ensures var before, now := Get(old(accounts.hosts), host), Get(accounts.hosts, host);
              msg.Accounts? && msg.answers.Some?
              && IsAsk(WriteAskOf(before), msg.answers.value) && !IsAsk(ListAsk(before), msg.answers.value) ==>
                && !Writing(now)
                && (if WriteAskOf(before).value.updatesAtAsk == Seen(before)
                    then Shown(now) == msg.snapshot && outbox == old(outbox)
                    else Shown(now) == Shown(before) && ListAsk(now) == Some(Ask(newId, Seen(now)))
                         && outbox == old(outbox) + [Outgoing(host, ListAccounts(newId))])
    {
      RunHostsSnoc(accounts.history, HostEvent(host, Received(msg)));
      SerialSnoc(accounts.history, HostEvent(host, Received(msg)));
      var folded := accounts.Fold(host, msg);
      if folded.askAgain {
        RunHostsSnoc(accounts.history, HostEvent(host, SentList(newId)));
        AskAccounts(host, newId);
      }
      notify := folded.changed;
    }

    /** A refusal of a pending ask ends that ask and shows its text; any other changes nothing. */
    method OnAccountsRefused(host: HostKey, id: RequestId, text: string) returns (answered: bool)
      requires Valid()
      modifies accounts
      ensures Valid() && accounts.history == old(accounts.history) + [HostEvent(host, Refused(id, text))]
      ensures var was := Get(old(accounts.hosts), host);
              answered == (IsAsk(WriteAskOf(was), id) || IsAsk(ListAsk(was), id))
      ensures !answered ==> Get(accounts.hosts, host) == Get(old(accounts.hosts), host)
      ensures Shown(Get(accounts.hosts, host)) == Shown(Get(old(accounts.hosts), host))
    {
      RunHostsSnoc(accounts.history, HostEvent(host, Refused(id, text)));
      SerialSnoc(accounts.history, HostEvent(host, Refused(id, text)));
      answered := accounts.Refuse(host, id, text);
    }

    /** Sends a write unless one is pending; a write that does go out is the only one pending. */
    method SendAccountWrite(host: HostKey, action: WriteAction, newId: RequestId) returns (sent: bool)
      requires Valid()
      modifies this, accounts
      ensures Valid()
      ensures sent == !Writing(Get(old(accounts.hosts), host))
      ensures accounts.history ==
              old(accounts.history) + (if sent then [HostEvent(host, SentWrite(action, newId))] else [])
      ensures outbox == old(outbox) + (if sent then [Outgoing(host, AccountWrite(action, newId))] else [])
    {
      if host in accounts.hosts && accounts.hosts[host].write.Some? {
        return false;
      }
      SerialSnoc(accounts.history, HostEvent(host, SentWrite(action, newId)));
      accounts.RecordWrite(host, action, newId);
      outbox := outbox + [Outgoing(host, AccountWrite(action, newId))];
      sent := true;
    }
  }
}
