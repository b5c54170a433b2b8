/**
 Appearance overrides, the changes the editor sends for them, and the changes
 in flight laid over what the daemon last stored.
 */
module Appearance {
  import opened Common

  type RequestId = string

  datatype Overrides = Overrides(
    accent: Option<string>,
    background: Option<string>,
    frame: Option<string>,
    family: Option<string>,
    size: Option<nat>,
    bold: Option<bool>,
    weight: Option<nat>,
    frameWidth: Option<nat>)

  const UNSET := Overrides(None, None, None, None, None, None, None, None)

  datatype Field = Accent | Background | Frame | FontFamily | FontSize | FontWeight | FrameWidth

  /** What one field holds; the weight carries the older bold switch with it. */
  datatype FieldValue =
    | Text(text: Option<string>)
    | Number(number: Option<nat>)
    | Weight(weight: Option<nat>, bold: Option<bool>)

  function Value(f: Field, o: Overrides): FieldValue {
    match f
    case Accent => Text(o.accent)
    case Background => Text(o.background)
    case Frame => Text(o.frame)
    case FontFamily => Text(o.family)
    case FontSize => Number(o.size)
    case FontWeight => Weight(o.weight, o.bold)
    case FrameWidth => Number(o.frameWidth)
  }

  /** `to` with this field's value copied from `from`. */
  function Copied(f: Field, from: Overrides, to: Overrides): Overrides {
    match f
    case Accent => to.(accent := from.accent)
    case Background => to.(background := from.background)
    case Frame => to.(frame := from.frame)
    case FontFamily => to.(family := from.family)
    case FontSize => to.(size := from.size)
    case FontWeight => to.(weight := from.weight, bold := from.bold)
    case FrameWidth => to.(frameWidth := from.frameWidth)
  }

  /** An edit: new values for the listed fields, where `None` clears; the other values are ignored. */
  datatype Change = Change(values: Overrides, fields: seq<Field>)

  /** Overrides that agree in every field are the same. */
  lemma FieldsDecide(a: Overrides, b: Overrides)
    requires forall f :: Value(f, a) == Value(f, b)
    ensures a == b
  {
    assert Value(Accent, a) == Value(Accent, b) && Value(Background, a) == Value(Background, b);
    assert Value(Frame, a) == Value(Frame, b) && Value(FontFamily, a) == Value(FontFamily, b);
    assert Value(FontSize, a) == Value(FontSize, b) && Value(FontWeight, a) == Value(FontWeight, b);
    assert Value(FrameWidth, a) == Value(FrameWidth, b);
  }

  lemma CopiedField(f: Field, g: Field, from: Overrides, to: Overrides)
    ensures Value(g, Copied(f, from, to)) == Value(g, if f == g then from else to)
  {
  }

  function CopiedAll(fields: seq<Field>, from: Overrides, to: Overrides): Overrides {
    if fields == [] then to
    else Copied(fields[|fields| - 1], from, CopiedAll(fields[..|fields| - 1], from, to))
  }

  function Applied(change: Change, base: Overrides): Overrides {
    CopiedAll(change.fields, change.values, base)
  }

  lemma {:induction false} CopiedAllField(fields: seq<Field>, from: Overrides, to: Overrides, g: Field)
    ensures Value(g, CopiedAll(fields, from, to)) == Value(g, if g in fields then from else to)
  {
    if fields == [] {
    } else {
      var init, last := fields[..|fields| - 1], fields[|fields| - 1];
      CopiedAllField(init, from, to, g);
      CopiedField(last, g, from, CopiedAll(init, from, to));
      assert fields == init + [last];
    }
  }

  /** The field loop gives each field the change's value where it lists the field, else the base's. */
  method ApplyTo(change: Change, base: Overrides) returns (out: Overrides)
    ensures out == Applied(change, base)
    ensures forall f :: Value(f, out) == Value(f, if f in change.fields then change.values else base)
  {
    out := base;
    for i := 0 to |change.fields|
      invariant out == CopiedAll(change.fields[..i], change.values, base)
    {
      assert change.fields[..i + 1][..i] == change.fields[..i];
      out := Copied(change.fields[i], change.values, out);
    }
    assert change.fields[..|change.fields|] == change.fields;
    forall f ensures Value(f, out) == Value(f, if f in change.fields then change.values else base) {
      CopiedAllField(change.fields, change.values, base, f);
    }
  }

  /** Whether the change's values already stand in `base`. */
  predicate ChangesNothing(change: Change, base: Overrides) {
    forall i | 0 <= i < |change.fields| :: Value(change.fields[i], change.values) == Value(change.fields[i], base)
  }

  /** The check before a send is exact: nothing changes exactly when applying gives the base back. */
  lemma ChangesNothingIffApplyingDoes(change: Change, base: Overrides)
    ensures ChangesNothing(change, base) <==> Applied(change, base) == base
  {
    forall f ensures Value(f, Applied(change, base)) == Value(f, if f in change.fields then change.values else base) {
      CopiedAllField(change.fields, change.values, base, f);
    }
    if ChangesNothing(change, base) {
      FieldsDecide(Applied(change, base), base);
    }
  }

  // ----- changes in flight

  datatype Send = Send(id: RequestId, change: Change)

  function Overlay(stored: Overrides, sends: seq<Send>): Overrides {
    if sends == [] then stored else Applied(sends[|sends| - 1].change, Overlay(stored, sends[..|sends| - 1]))
  }

  /** The last send that sets field `f`. */
  function LastSetter(sends: seq<Send>, f: Field): (at: Option<nat>)
    ensures at.Some? ==> at.value < |sends|
  {
    if sends == [] then None
    else if f in sends[|sends| - 1].change.fields then Some(|sends| - 1)
    else LastSetter(sends[..|sends| - 1], f)
  }

  lemma {:induction false} LastSetterIsLast(sends: seq<Send>, f: Field)
    ensures match LastSetter(sends, f) {
              case None => forall k | 0 <= k < |sends| :: f !in sends[k].change.fields
              case Some(at) => f in sends[at].change.fields
                               && forall k | at < k < |sends| :: f !in sends[k].change.fields
            }
  {
    if sends == [] {
    } else {
      LastSetterIsLast(sends[..|sends| - 1], f);
    }
  }

  /** What a field would show had its last setter the last word. */
  function LastWritten(stored: Overrides, sends: seq<Send>, f: Field): FieldValue {
    match LastSetter(sends, f)
    case Some(k) => Value(f, sends[k].change.values)
    case None => Value(f, stored)
  }

  /** Last writer wins: each field shows the last send that sets it, else the stored value. */
  lemma {:induction false} OverlayIsLastWriter(stored: Overrides, sends: seq<Send>, f: Field)
    ensures Value(f, Overlay(stored, sends)) == LastWritten(stored, sends, f)
  {
    if sends == [] {
    } else {
      var n := |sends| - 1;
      OverlayIsLastWriter(stored, sends[..n], f);
      CopiedAllField(sends[n].change.fields, sends[n].change.values, Overlay(stored, sends[..n]), f);
    }
  }

  lemma {:induction false} OverlaySnoc(stored: Overrides, sends: seq<Send>, send: Send)
    ensures Overlay(stored, sends + [send]) == Applied(send.change, Overlay(stored, sends))
  {
    assert (sends + [send])[..|sends|] == sends;
  }

  lemma {:induction false} OverlayJoins(stored: Overrides, first: seq<Send>, second: seq<Send>)
    ensures Overlay(stored, first + second) == Overlay(Overlay(stored, first), second)
  {
    if second == [] {
      assert first + second == first;
    } else {
      var n := |second| - 1;
      var before, send := second[..n], second[n];
      OverlayJoins(stored, first, before);
      OverlaySnoc(stored, first + before, send);
      assert first + second == first + before + [send];
    }
  }

  /** Laying the same sends twice changes nothing more. */
  lemma OverlayIsIdempotent(stored: Overrides, sends: seq<Send>)
    ensures Overlay(Overlay(stored, sends), sends) == Overlay(stored, sends)
  {
    forall f ensures Value(f, Overlay(Overlay(stored, sends), sends)) == Value(f, Overlay(stored, sends)) {
      OverlayIsLastWriter(stored, sends, f);
      OverlayIsLastWriter(Overlay(stored, sends), sends, f);
    }
    FieldsDecide(Overlay(Overlay(stored, sends), sends), Overlay(stored, sends));
  }

  /** Whatever the daemon stores in field `f` is what shows. */
  ghost predicate ShowsThrough(sends: seq<Send>, f: Field) {
    forall stored :: Value(f, Overlay(stored, sends)) == Value(f, stored)
  }

  /** A stored field shows through exactly when no send in flight sets it. */
  lemma StoredShowsIffUnset(sends: seq<Send>, f: Field)
    ensures ShowsThrough(sends, f) <==> forall k | 0 <= k < |sends| :: f !in sends[k].change.fields
  {
    LastSetterIsLast(sends, f);
    if LastSetter(sends, f).None? {
      forall stored ensures Value(f, Overlay(stored, sends)) == Value(f, stored) {
        OverlayIsLastWriter(stored, sends, f);
      }
    } else {
      var other := Overrides(Some("a"), Some("a"), Some("a"), Some("a"), Some(0), Some(true), Some(0), Some(0));
      OverlayIsLastWriter(other, sends, f);
      OverlayIsLastWriter(UNSET, sends, f);
      assert Value(f, other) != Value(f, UNSET);
      assert Value(f, Overlay(other, sends)) == Value(f, Overlay(UNSET, sends));
    }
  }

  function Ids(sends: seq<Send>): seq<RequestId> {
    seq(|sends|, i requires 0 <= i < |sends| => sends[i].id)
  }

  /** The sends still in flight once `id` was stored: those after it. */
  function AfterAnswer(sends: seq<Send>, id: RequestId): seq<Send> {
    match Position(Ids(sends), id)
    case None => sends
    case Some(at) => sends[at + 1..]
  }

  /** The sends still in flight once `id` was refused: all but it. */
  function AfterRefusal(sends: seq<Send>, id: RequestId): seq<Send> {
    match Position(Ids(sends), id)
    case None => sends
    case Some(at) => sends[..at] + sends[at + 1..]
  }

  /** Who sets `f` last once send `at` is gone. */
  lemma {:induction false} LastSetterWithout(sends: seq<Send>, at: nat, f: Field)
    requires at < |sends|
    ensures var was, now := LastSetter(sends, f), LastSetter(Dropped(sends, at), f);
            now == if was == Some(at) then LastSetter(sends[..at], f)
                   else if was.Some? && was.value > at then Some(was.value - 1) else was
  {
    var n := |sends| - 1;
    if at == n {
      assert Dropped(sends, at) == sends[..n];
    } else {
      DroppedInit(sends, at);
      LastSetterWithout(sends[..n], at, f);
    }
  }

  lemma {:induction false} RemovalTakesBack(stored: Overrides, sends: seq<Send>, at: nat, f: Field)
    requires at < |sends|
    ensures LastWritten(stored, Dropped(sends, at), f) ==
            LastWritten(stored, if LastSetter(sends, f) == Some(at) then sends[..at] else sends, f)
  {
    LastSetterWithout(sends, at, f);
  }

  /** A refusal takes back exactly the fields the refused send was showing, to what stood before it. */
  lemma {:induction false} RefusalTakesBack(stored: Overrides, sends: seq<Send>, id: RequestId, f: Field)
    requires id in Ids(sends)
    ensures var at := Position(Ids(sends), id).value;
            Value(f, Overlay(stored, AfterRefusal(sends, id))) ==
            Value(f, Overlay(stored, if LastSetter(sends, f) == Some(at) then sends[..at] else sends))
  {
    var at := Position(Ids(sends), id).value;
    OverlayIsLastWriter(stored, sends, f);
    OverlayIsLastWriter(stored, Dropped(sends, at), f);
    OverlayIsLastWriter(stored, sends[..at], f);
    RemovalTakesBack(stored, sends, at, f);
  }

  datatype SessionRef = SessionRef(host: string, session: string)

  function SendsOf(bySession: map<SessionRef, seq<Send>>, key: SessionRef): seq<Send> {
    if key in bySession then bySession[key] else []
  }

  ghost predicate Holds(bySession: map<SessionRef, seq<Send>>, key: SessionRef, id: RequestId) {
    key in bySession && id in Ids(bySession[key])
  }

  /** `after` is `before` without the first send `id` of the session `key`. */
  ghost predicate DropsOne(
    before: map<SessionRef, seq<Send>>, after: map<SessionRef, seq<Send>>, key: SessionRef, id: RequestId)
  {
    && Holds(before, key, id)
    && SendsOf(after, key) == AfterRefusal(before[key], id)
    && forall other | other != key :: SendsOf(after, other) == SendsOf(before, other)
  }

  /** The sends by session once `key`'s are `left`: an empty list is not kept. */
  function WithLeft(bySession: map<SessionRef, seq<Send>>, key: SessionRef, left: seq<Send>)
    : map<SessionRef, seq<Send>>
  {
    if left == [] then bySession - {key} else bySession[key := left]
  }

  lemma LeavesOne(before: map<SessionRef, seq<Send>>, key: SessionRef, id: RequestId)
    requires Holds(before, key, id)
    ensures DropsOne(before, WithLeft(before, key, AfterRefusal(before[key], id)), key, id)
  {
  }

  /** The sends of each host's session, in the order they went out; no session keeps an empty list. */
  class InFlight {
    var bySession: map<SessionRef, seq<Send>>

    ghost predicate Valid()
      reads this
    {
      forall key | key in bySession :: bySession[key] != []
    }

    constructor ()
      ensures Valid() && bySession == map[]
    {
      bySession := map[];
    }

    /** `stored` with the session's sends over it. */
    method Overlaid(key: SessionRef, stored: Overrides) returns (shown: Overrides)
      ensures shown == Overlay(stored, SendsOf(bySession, key))
    {
      shown := stored;
      if key in bySession {
        var sends := bySession[key];
        for i := 0 to |sends|
          invariant shown == Overlay(stored, sends[..i])
        {
          assert sends[..i + 1][..i] == sends[..i];
          shown := ApplyTo(sends[i].change, shown);
        }
        assert sends[..|sends|] == sends;
      }
    }

    method Push(key: SessionRef, id: RequestId, change: Change)
      requires Valid()
      modifies this
      ensures Valid() && bySession == old(bySession)[key := SendsOf(old(bySession), key) + [Send(id, change)]]
    {
      var sends := if key in bySession then bySession[key] else [];
      bySession := bySession[key := sends + [Send(id, change)]];
    }

    /** Drops send `id` and every send before it, in its own session alone. */
    method Answered(key: SessionRef, id: RequestId) returns (known: bool)
      requires Valid()
      modifies this
      ensures Valid()
      ensures known == (id in Ids(SendsOf(old(bySession), key)))
      ensures SendsOf(bySession, key) == AfterAnswer(SendsOf(old(bySession), key), id)
      ensures forall other | other != key :: SendsOf(bySession, other) == SendsOf(old(bySession), other)
    {
      if key !in bySession {
        return false;
      }
      var at := Position(Ids(bySession[key]), id);
      if at.Some? {
        bySession := bySession[key := bySession[key][at.value + 1..]];
      }
      if bySession[key] == [] {
        bySession := bySession - {key};
      }
      known := at.Some?;
    }

    /** Drops send `id` alone, from one session that holds it. */
    method Refused(id: RequestId) returns (known: bool)
      requires Valid()
      modifies this
      ensures Valid()
      ensures known <==> exists key :: Holds(old(bySession), key, id)
      ensures !known ==> bySession == old(bySession)
      ensures known ==> exists key :: DropsOne(old(bySession), bySession, key, id)
    {
      known := false;
      if key :| key in bySession && id in Ids(bySession[key]) {
        var sends := bySession[key];
        var at := Position(Ids(sends), id).value;
        LeavesOne(bySession, key, id);
        bySession := WithLeft(bySession, key, sends[..at] + sends[at + 1..]);
        known := true;
        assert Holds(old(bySession), key, id);
      } else {
        assert forall key :: !Holds(old(bySession), key, id);
      }
    }

    /** Keeps the sends of the sessions `listed` still names. */
    method RetainSessions(listed: (string, string) -> bool)
      requires Valid()
      modifies this
      ensures Valid()
      ensures forall key ::
                SendsOf(bySession, key) ==
                if listed(key.host, key.session) then SendsOf(old(bySession), key) else []
    {
      bySession := map key | key in bySession && listed(key.host, key.session) :: bySession[key];
    }

    /** Drops one host's sends, as its new connection does. */
    method ClearHost(host: string)
      requires Valid()
      modifies this
      ensures Valid()
      ensures forall key :: SendsOf(bySession, key) == if key.host == host then [] else SendsOf(old(bySession), key)
    {
      bySession := map key | key in bySession && key.host != host :: bySession[key];
    }
  }
}
