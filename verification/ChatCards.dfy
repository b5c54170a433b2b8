/**
 The marks on a session's prompt cards: the one submitted and still up, the
 reason an answer was refused, and the answers recent enough to recognise.
 */
module ChatCards {
  import opened Common

  const SENT_CAP: nat := 16

  datatype Busy = Busy(promptId: string, requestId: string)
  datatype Refusal = Refusal(promptId: string, message: string)
  datatype Record = Record(requestId: string, promptId: string)
  datatype AnswerRefusal = Late | Freed

  /** The last sixteen of `sends`. */
  function Recent(sends: seq<Record>): seq<Record> {
    if |sends| <= SENT_CAP then sends else sends[|sends| - SENT_CAP..]
  }

  lemma RecentSnoc(sends: seq<Record>, r: Record)
    ensures Recent(sends + [r]) ==
            if |Recent(sends)| + 1 > SENT_CAP then (Recent(sends) + [r])[1..] else Recent(sends) + [r]
  {
  }

  /** The prompt a recorded answer went to. */
  function PromptOf(sent: seq<Record>, requestId: string): (r: Option<string>)
    ensures r.None? <==> forall i | 0 <= i < |sent| :: sent[i].requestId != requestId
    ensures r.Some? ==> Record(requestId, r.value) in sent
  {
    if sent == [] then None
    else if sent[0].requestId == requestId then Some(sent[0].promptId)
    else PromptOf(sent[1..], requestId)
  }

  ghost predicate FreshIds(sends: seq<Record>) {
    forall i, j | 0 <= i < j < |sends| :: sends[i].requestId != sends[j].requestId
  }

  /** With fresh ids, a record found by its id is the one that was sent. */
  lemma RecordIsUnique(sends: seq<Record>, a: Record, b: Record)
    requires FreshIds(sends) && a in sends && b in sends && a.requestId == b.requestId
    ensures a == b
  {
  }

  lemma RecentIsSent(sends: seq<Record>, r: Record)
    requires r in Recent(sends)
    ensures r in sends
  {
  }

  /** The marks, fed the prompt the screen truly shows and a fresh id for every answer. */
  class CardState {
    var busy: Option<Busy>
    var refusal: Option<Refusal>
    var elsewhere: bool
    var sent: seq<Record>
    var shown: Option<string>
    /** Every answer ever sent. */
    ghost var sends: seq<Record>

    /**
     A busy mark and a refusal belong to the card on screen, never both at once;
     a busy card's answer is one that was sent; and the queue is the last sixteen
     of all answers.
     */
    ghost predicate Valid()
      reads this
    {
      && (busy.Some? ==> shown == Some(busy.value.promptId))
      && (busy.Some? ==> Record(busy.value.requestId, busy.value.promptId) in sends)
      && (refusal.Some? ==> shown == Some(refusal.value.promptId))
      && (busy.None? || refusal.None?)
      && sent == Recent(sends)
      && FreshIds(sends)
    }

    constructor ()
      ensures Valid() && sends == [] && busy.None? && refusal.None? && shown.None? && !elsewhere
    {
      busy, refusal, elsewhere, sent, shown, sends := None, None, false, [], None, [];
    }

    ghost predicate IsFresh(requestId: string)
      reads this
    {
      forall i | 0 <= i < |sends| :: sends[i].requestId != requestId
    }

    predicate IsBusy(promptId: string)
      reads this
    {
      busy.Some? && busy.value.promptId == promptId
    }

    method Remember(promptId: string, requestId: string)
      requires sent == Recent(sends) && FreshIds(sends) && IsFresh(requestId)
      modifies `refusal, `sent, `sends
      ensures sends == old(sends) + [Record(requestId, promptId)]
      ensures sent == Recent(sends) && FreshIds(sends)
      ensures sent == sends[if |sends| <= 16 then 0 else |sends| - 16..]
      ensures refusal == if old(refusal).Some? && old(refusal).value.promptId == promptId then None else old(refusal)
    {
      if refusal.Some? && refusal.value.promptId == promptId {
        refusal := None;
      }
      RecentSnoc(sends, Record(requestId, promptId));
      sent := sent + [Record(requestId, promptId)];
      if |sent| > SENT_CAP {
        sent := sent[1..];
      }
      sends := sends + [Record(requestId, promptId)];
    }

    /** An answer to the card drawn for `promptId` while the stack shows `current`. */
    method Clicked(promptId: string, current: Option<string>, requestId: string, toggle: bool)
      requires Valid() && current == shown && IsFresh(requestId)
      modifies this
      ensures Valid() && sends == old(sends) + [Record(requestId, promptId)]
      ensures shown == old(shown) && elsewhere == old(elsewhere)
      ensures busy == if current == Some(promptId) && !toggle then Some(Busy(promptId, requestId)) else old(busy)
      ensures refusal == if current == Some(promptId) then None else old(refusal)
    {
      Remember(promptId, requestId);
      if current == Some(promptId) && !toggle {
        busy := Some(Busy(promptId, requestId));
      }
      assert forall r | r in old(sends) :: r in sends;
      assert sends[|sends| - 1] == Record(requestId, promptId);
    }

    /** A screen reading: `before` was up, `after` is. */
    method OnScreen(before: Option<string>, after: Option<string>)
      requires Valid() && before == shown
      modifies this
      ensures Valid() && shown == after && sends == old(sends)
      ensures before == after ==> busy == old(busy) && refusal == old(refusal) && elsewhere == old(elsewhere)
      ensures before != after ==> busy.None? && refusal.None?
      ensures before != after ==> elsewhere == (old(elsewhere) || (before.Some? && old(busy).None?))
    {
      shown := after;
      if before.None? || before == after {
        return;
      }
      if IsBusy(before.value) {
        busy := None;
      } else {
        elsewhere := true;
      }
      if refusal.Some? && refusal.value.promptId == before.value {
        refusal := None;
      }
    }

    method OnNewEntry()
      requires Valid()
      modifies `elsewhere
      ensures Valid() && !elsewhere
    {
      elsewhere := false;
    }

    /**
     The daemon refused `requestId`. It is known exactly while it is among the
     last sixteen answers; it frees the card exactly when it refused the answer
     the card waits for, or, with none waiting, an answer to the card on screen;
     otherwise nothing changes at all.
     */
    method Refused(requestId: string, message: string) returns (r: Option<AnswerRefusal>)
      requires Valid()
      modifies this
      ensures Valid() && sends == old(sends) && shown == old(shown) && elsewhere == old(elsewhere)
      ensures r.None? <==> forall i | 0 <= i < |Recent(sends)| :: Recent(sends)[i].requestId != requestId
      ensures r == Some(Freed) <==>
              && (exists p :: Record(requestId, p) in Recent(sends) && shown == Some(p))
              && (old(busy).Some? ==> old(busy).value.requestId == requestId)
      ensures r == Some(Freed) ==> busy.None? && shown.Some? && refusal == Some(Refusal(shown.value, message))
      ensures r != Some(Freed) ==> busy == old(busy) && refusal == old(refusal)
    {
      var promptId := PromptOf(sent, requestId);
      if promptId.None? {
        return None;
      }
      var record := Record(requestId, promptId.value);
      RecentIsSent(sends, record);
      forall p | Record(requestId, p) in Recent(sends) ensures p == promptId.value {
        RecentIsSent(sends, Record(requestId, p));
        RecordIsUnique(sends, Record(requestId, p), record);
      }
      if busy.Some? && busy.value.requestId == requestId {
        RecordIsUnique(sends, record, Record(busy.value.requestId, busy.value.promptId));
      }
      var current := if busy.Some? then busy.value.requestId == requestId else shown == promptId;
      if !current {
        return Some(Late);
      }
      busy := None;
      refusal := Some(Refusal(promptId.value, message));
      r := Some(Freed);
    }
  }
}
