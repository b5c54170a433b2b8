/** The editor's press on a session's appearance: what it holds in flight and what it sends. */
module AppearanceView {
  import opened Common
  import opened Appearance
  import opened StoredForm
  import opened AppearanceProtocol

  datatype Outgoing = Outgoing(session: SessionRef, wire: Wire)

  class AppearanceEditor {
    const pending: InFlight
    var outbox: seq<Outgoing>

    constructor ()
      ensures fresh(pending) && pending.Valid() && pending.bySession == map[] && outbox == []
    {
      pending := new InFlight();
      outbox := [];
    }

    /**
     Sets `change` on the session whose stored appearance is `stored`. A change
     that is taken shows at once, and what goes out is exactly what then shows;
     one that changes nothing, or is refused, sends nothing.
     */
    method ChangeSession(key: SessionRef, stored: Overrides, change: Change, newId: RequestId) returns (taken: bool)
      requires pending.Valid()
      modifies this, pending
      ensures pending.Valid()
      ensures taken == Normalized(change.values).Some?
      ensures forall other | other != key :: SendsOf(pending.bySession, other) == SendsOf(old(pending.bySession), other)
      ensures var before := Overlay(stored, SendsOf(old(pending.bySession), key));
              var now := Overlay(stored, SendsOf(pending.bySession, key));
              && now == (if taken then Applied(change.(values := Normalized(change.values).value), before) else before)
              && outbox == old(outbox) + (if now == before then [] else [Outgoing(key, Wire(newId, now))])
    {
      var values := Normalized(change.values);
      if values.None? {
        return false;
      }
      var normal := change.(values := values.value);
      var own := pending.Overlaid(key, stored);
      ChangesNothingIffApplyingDoes(normal, own);
      if ChangesNothing(normal, own) {
        return true;
      }
      var appearance := ApplyTo(normal, own);
      OverlaySnoc(stored, SendsOf(pending.bySession, key), Send(newId, normal));
      pending.Push(key, newId, normal);
      outbox := outbox + [Outgoing(key, Wire(newId, appearance))];
      taken := true;
    }
  }
}
