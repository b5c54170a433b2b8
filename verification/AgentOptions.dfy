/**
 One agent's spawn options: defaults, hide rules, trusted locks, the minimal
 wire form a spawn sends, the daemon's reading of it, and the replay of a
 stored spawn.
 */
module AgentOptions {
  import opened Common
  import opened HexColor

  datatype OptionValue = Bool(on: bool) | Text(text: string) | Null
  datatype Kind = Toggle | Choice(choices: seq<string>) | TextField | ModelField | UnknownKind

  /** A `when` rule: while `ifField` holds `equals`, the field is `hidden`. */
  datatype Rule = Rule(ifField: string, equals: OptionValue, hidden: Option<bool>)

  datatype Placement = Main | Advanced | HiddenPlacement | UnknownPlacement

  datatype Field = Field(
    id: string, kind: Kind, default: OptionValue, spawn: Placement, lockedWhenTrusted: bool, when: seq<Rule>)

  type Values = map<string, OptionValue>

  ghost predicate DistinctIds(fields: seq<Field>) {
    forall i, j | 0 <= i < j < |fields| :: fields[i].id != fields[j].id
  }

  predicate HasField(fields: seq<Field>, id: string) {
    exists i | 0 <= i < |fields| :: fields[i].id == id
  }

  /** The stored values this agent has a field for. */
  function Known(fields: seq<Field>, stored: Values): Values {
    map id | id in stored && HasField(fields, id) :: stored[id]
  }

  /** `value` as `field` reads it. */
  function Read(field: Field, value: OptionValue): OptionValue {
    match (field.kind, value)
    case (UnknownKind, _) => value
    case (Toggle, Bool(_)) => value
    case (TextField, Null) => value
    case (ModelField, Null) => value
    case (TextField, Text(text)) => ReadText(text)
    case (ModelField, Text(text)) => ReadText(text)
    case (Choice(choices), Text(text)) => if text in choices then value else field.default
    case (Choice(_), Null) => if field.default == Null then Null else field.default
    case _ => field.default
  }

  /** A text trimmed, blank as no value. */
  function ReadText(text: string): OptionValue {
    if Trim(text) == [] then Null else Text(Trim(text))
  }

  predicate Matches(rule: Rule, values: Values) {
    rule.hidden == Some(true) && rule.ifField in values && values[rule.ifField] == rule.equals
  }

  predicate IsHidden(field: Field, values: Values) {
    exists r | 0 <= r < |field.when| :: Matches(field.when[r], values)
  }

  /** The value one field contributes to a spawn. */
  function ResolvedField(field: Field, values: Values, trusted: bool): OptionValue {
    if field.id in values && !(trusted && field.lockedWhenTrusted) then Read(field, values[field.id]) else field.default
  }

  /** Every field's value, collected in the descriptor's order. */
  function Resolved(fields: seq<Field>, values: Values, trusted: bool): Values {
    if fields == [] then map[]
    else
      var last := fields[|fields| - 1];
      Resolved(fields[..|fields| - 1], values, trusted)[last.id := ResolvedField(last, values, trusted)]
  }

  /** Whether a field goes on the wire while the fields hold `resolved`. */
  predicate Sent(field: Field, resolved: Values) {
    !IsHidden(field, resolved) && field.id in resolved && resolved[field.id] != field.default
  }

  function SentValues(fields: seq<Field>, resolved: Values): Values {
    if fields == [] then map[]
    else
      var last, rest := fields[|fields| - 1], SentValues(fields[..|fields| - 1], resolved);
      if Sent(last, resolved) then rest[last.id := resolved[last.id]] else rest
  }

  /** The values a spawn sends: shown fields set away from their defaults. */
  function WireValues(fields: seq<Field>, values: Values, trusted: bool): Values {
    SentValues(fields, Resolved(fields, values, trusted))
  }

  // ----- lookups, ids being distinct

  lemma {:induction false} ResolvedAt(fields: seq<Field>, values: Values, trusted: bool, i: nat)
    requires DistinctIds(fields) && i < |fields|
    ensures fields[i].id in Resolved(fields, values, trusted)
    ensures Resolved(fields, values, trusted)[fields[i].id] == ResolvedField(fields[i], values, trusted)
  {
    var n := |fields| - 1;
    if i == n {
    } else {
      assert fields[..n][i] == fields[i];
      ResolvedAt(fields[..n], values, trusted, i);
    }
  }

  lemma {:induction false} ResolvedKeys(fields: seq<Field>, values: Values, trusted: bool, id: string)
    ensures id in Resolved(fields, values, trusted) <==> HasField(fields, id)
  {
    if fields == [] {
    } else {
      var n := |fields| - 1;
      ResolvedKeys(fields[..n], values, trusted, id);
      if i :| 0 <= i < |fields| && fields[i].id == id {
        if i < n { assert fields[..n][i].id == id; }
      }
    }
  }

  lemma {:induction false} SentAt(fields: seq<Field>, resolved: Values, i: nat)
    requires DistinctIds(fields) && i < |fields|
    ensures fields[i].id in SentValues(fields, resolved) <==> Sent(fields[i], resolved)
    ensures Sent(fields[i], resolved) ==> SentValues(fields, resolved)[fields[i].id] == resolved[fields[i].id]
  {
    var n := |fields| - 1;
    if i < n {
      assert fields[..n][i] == fields[i];
      SentAt(fields[..n], resolved, i);
    } else {
      SentKeys(fields[..n], resolved, fields[n].id);
    }
  }

  lemma {:induction false} SentKeys(fields: seq<Field>, resolved: Values, id: string)
    ensures id in SentValues(fields, resolved) ==> exists i | 0 <= i < |fields| :: fields[i].id == id
  {
    if fields == [] {
    } else {
      var n := |fields| - 1;
      SentKeys(fields[..n], resolved, id);
      if i :| 0 <= i < n && fields[..n][i].id == id {
        assert fields[i].id == id;
      }
    }
  }

  /** Every key on the wire names a field that is shown, with its resolved value, away from its default. */
  lemma SentField(fields: seq<Field>, resolved: Values, id: string) returns (i: nat)
    requires DistinctIds(fields) && id in SentValues(fields, resolved)
    ensures i < |fields| && fields[i].id == id && Sent(fields[i], resolved)
    ensures SentValues(fields, resolved)[id] == resolved[id]
  {
    SentKeys(fields, resolved, id);
    i :| 0 <= i < |fields| && fields[i].id == id;
    SentAt(fields, resolved, i);
  }

  // ----- replay

  /** Reading twice changes nothing more, once the value is not the default. */
  lemma ReadIsStable(field: Field, value: OptionValue)
    requires Read(field, value) != field.default
    ensures Read(field, Read(field, value)) == Read(field, value)
  {
    if value.Text? {
      TrimTrims(value.text);
    }
  }

  /** The wire form of a stored wire form: seed the options with it and send again. */
  function Replay(fields: seq<Field>, wire: Values, trusted: bool): Values {
    WireValues(fields, Known(fields, wire), trusted)
  }

  lemma WireIsKnown(fields: seq<Field>, values: Values, trusted: bool)
    requires DistinctIds(fields)
    ensures Known(fields, WireValues(fields, values, trusted)) == WireValues(fields, values, trusted)
  {
    var wire := WireValues(fields, values, trusted);
    forall id | id in wire ensures HasField(fields, id) {
      var i := SentField(fields, Resolved(fields, values, trusted), id);
    }
  }

  /** After a replay each field holds what it sent, and its default if it sent nothing. */
  lemma ReplayResolves(fields: seq<Field>, values: Values, trusted: bool, i: nat)
    requires DistinctIds(fields) && i < |fields|
    ensures var f, wire := fields[i], WireValues(fields, values, trusted);
            ResolvedField(f, wire, trusted) == if f.id in wire then wire[f.id] else f.default
  {
    var f, resolved := fields[i], Resolved(fields, values, trusted);
    SentAt(fields, resolved, i);
    ResolvedAt(fields, values, trusted, i);
    if Sent(f, resolved) {
      ReadIsStable(f, values[f.id]);
    }
  }

  /** Field `f` holds a value of its own that its hiding keeps off the wire. */
  predicate Lost(f: Field, resolved: Values) {
    IsHidden(f, resolved) && f.id in resolved && resolved[f.id] != f.default
  }

  /** What a replay resolves each field to: what it held, unless its value was lost. */
  lemma ReplayedValue(fields: seq<Field>, values: Values, trusted: bool, i: nat)
    requires DistinctIds(fields) && i < |fields|
    ensures var f, first := fields[i], Resolved(fields, values, trusted);
            var again := Resolved(fields, WireValues(fields, values, trusted), trusted);
            && f.id in again && f.id in first
            && again[f.id] == if Lost(f, first) then f.default else first[f.id]
  {
    var wire := WireValues(fields, values, trusted);
    ReplayResolves(fields, values, trusted, i);
    ResolvedAt(fields, wire, trusted, i);
    ResolvedAt(fields, values, trusted, i);
    SentAt(fields, Resolved(fields, values, trusted), i);
  }

  ghost predicate Submap(a: Values, b: Values) {
    forall id | id in a :: id in b && a[id] == b[id]
  }

  /** Replaying a spawn sends a part of what the spawn sent. */
  lemma ReplayIsSubmap(fields: seq<Field>, values: Values, trusted: bool)
    requires DistinctIds(fields)
    ensures Submap(Replay(fields, WireValues(fields, values, trusted), trusted), WireValues(fields, values, trusted))
  {
    var wire := WireValues(fields, values, trusted);
    WireIsKnown(fields, values, trusted);
    var again := Resolved(fields, wire, trusted);
    forall id | id in Replay(fields, wire, trusted)
      ensures id in wire && Replay(fields, wire, trusted)[id] == wire[id]
    {
      var i := SentField(fields, again, id);
      ReplayedValue(fields, values, trusted, i);
      SentAt(fields, Resolved(fields, values, trusted), i);
    }
  }

  /** A rule of a sent field that a replay turns on: it waits for the default of a field whose value gets lost. */
  ghost predicate Trips(fields: seq<Field>, resolved: Values, i: nat, r: nat, g: nat)
    requires i < |fields| && r < |fields[i].when| && g < |fields|
  {
    var rule := fields[i].when[r];
    Sent(fields[i], resolved) && rule.hidden == Some(true) && rule.ifField == fields[g].id
    && Lost(fields[g], resolved) && rule.equals == fields[g].default
  }

  ghost predicate TripsAt(fields: seq<Field>, resolved: Values, i: nat)
    requires i < |fields|
  {
    exists r, g :: 0 <= r < |fields[i].when| && 0 <= g < |fields| && Trips(fields, resolved, i, r, g)
  }

  ghost predicate AnyTrips(fields: seq<Field>, resolved: Values) {
    exists i | 0 <= i < |fields| :: TripsAt(fields, resolved, i)
  }

  /** A rule that matches after a replay but not before reads a lost field. */
  lemma NewMatch(fields: seq<Field>, values: Values, trusted: bool, rule: Rule) returns (g: nat)
    requires DistinctIds(fields)
    requires Matches(rule, Resolved(fields, WireValues(fields, values, trusted), trusted))
    requires !Matches(rule, Resolved(fields, values, trusted))
    ensures g < |fields| && fields[g].id == rule.ifField && Lost(fields[g], Resolved(fields, values, trusted))
    ensures rule.equals == fields[g].default
  {
    ResolvedKeys(fields, WireValues(fields, values, trusted), trusted, rule.ifField);
    g :| 0 <= g < |fields| && fields[g].id == rule.ifField;
    ReplayedValue(fields, values, trusted, g);
  }

  /** A sent field stays sent through a replay exactly when no rule of its trips. */
  lemma StaysSentIff(fields: seq<Field>, values: Values, trusted: bool, i: nat)
    requires DistinctIds(fields) && i < |fields| && Sent(fields[i], Resolved(fields, values, trusted))
    ensures Sent(fields[i], Resolved(fields, WireValues(fields, values, trusted), trusted)) <==>
            !TripsAt(fields, Resolved(fields, values, trusted), i)
  {
    var f, first := fields[i], Resolved(fields, values, trusted);
    var again := Resolved(fields, WireValues(fields, values, trusted), trusted);
    ReplayedValue(fields, values, trusted, i);
    if IsHidden(f, again) {
      var r :| 0 <= r < |f.when| && Matches(f.when[r], again);
      var g := NewMatch(fields, values, trusted, f.when[r]);
      assert Trips(fields, first, i, r, g);
    }
    if r, g :| 0 <= r < |f.when| && 0 <= g < |fields| && Trips(fields, first, i, r, g) {
      ReplayedValue(fields, values, trusted, g);
      assert Matches(f.when[r], again);
    }
  }

  /** A field is sent again exactly when it was sent and no rule of its trips. */
  lemma ReplayedIff(fields: seq<Field>, values: Values, trusted: bool, i: nat)
    requires DistinctIds(fields) && i < |fields|
    ensures var first := Resolved(fields, values, trusted);
            fields[i].id in Replay(fields, WireValues(fields, values, trusted), trusted) <==>
            && fields[i].id in WireValues(fields, values, trusted)
            && !TripsAt(fields, first, i)
  {
    var wire, first := WireValues(fields, values, trusted), Resolved(fields, values, trusted);
    WireIsKnown(fields, values, trusted);
    SentAt(fields, first, i);
    SentAt(fields, Resolved(fields, wire, trusted), i);
    if Sent(fields[i], first) {
      StaysSentIff(fields, values, trusted, i);
    } else {
      ReplayIsSubmap(fields, values, trusted);
    }
  }

  /** A replay sends everything again exactly when no rule trips. */
  lemma ReplayIsExactIff(fields: seq<Field>, values: Values, trusted: bool)
    requires DistinctIds(fields)
    ensures Replay(fields, WireValues(fields, values, trusted), trusted) == WireValues(fields, values, trusted)
            <==> !AnyTrips(fields, Resolved(fields, values, trusted))
  {
    var wire, first := WireValues(fields, values, trusted), Resolved(fields, values, trusted);
    var replay := Replay(fields, wire, trusted);
    ReplayIsSubmap(fields, values, trusted);
    if AnyTrips(fields, first) {
      var id := TrippedIsDropped(fields, values, trusted);
    } else {
      forall id | id in wire ensures id in replay {
        var i := SentField(fields, first, id);
        assert !TripsAt(fields, first, i);
        ReplayedIff(fields, values, trusted, i);
      }
      assert replay.Keys == wire.Keys;
      assert replay == wire;
    }
  }

  lemma TrippedIsDropped(fields: seq<Field>, values: Values, trusted: bool) returns (id: string)
    requires DistinctIds(fields) && AnyTrips(fields, Resolved(fields, values, trusted))
    ensures var wire := WireValues(fields, values, trusted);
            id in wire && id !in Replay(fields, wire, trusted)
  {
    var first := Resolved(fields, values, trusted);
    var i :| 0 <= i < |fields| && TripsAt(fields, first, i);
    SentAt(fields, first, i);
    ReplayedIff(fields, values, trusted, i);
    id := fields[i].id;
  }

  /** No field that a hide rule reads can be hidden itself. */
  ghost predicate FlatRules(fields: seq<Field>) {
    forall i, r, g | 0 <= i < |fields| && 0 <= r < |fields[i].when| && 0 <= g < |fields|
        && fields[i].when[r].hidden == Some(true) && fields[g].id == fields[i].when[r].ifField ::
      forall q | 0 <= q < |fields[g].when| :: fields[g].when[q].hidden != Some(true)
  }

  lemma FlatRulesNeverTrip(fields: seq<Field>, resolved: Values)
    requires FlatRules(fields)
    ensures !AnyTrips(fields, resolved)
  {
  }

  // ----- the replay settles

  function Replays(fields: seq<Field>, values: Values, trusted: bool, n: nat): Values {
    if n == 0 then WireValues(fields, values, trusted)
    else Replay(fields, Replays(fields, values, trusted, n - 1), trusted)
  }

  lemma {:induction false} ReplaysAreWire(fields: seq<Field>, values: Values, trusted: bool, n: nat)
    returns (source: Values)
    requires DistinctIds(fields)
    ensures Replays(fields, values, trusted, n) == WireValues(fields, source, trusted)
  {
    source := if n == 0 then values else Known(fields, Replays(fields, values, trusted, n - 1));
  }

  ghost predicate SettledAt(fields: seq<Field>, values: Values, trusted: bool, n: nat) {
    Replays(fields, values, trusted, n + 1) == Replays(fields, values, trusted, n)
  }

  lemma SubmapShrinks(a: Values, b: Values)
    requires Submap(a, b)
    ensures |a| <= |b| && (|a| == |b| ==> a == b)
  {
    assert a.Keys <= b.Keys;
    assert b.Keys == a.Keys + (b.Keys - a.Keys);
    if |a| == |b| {
      assert |b.Keys - a.Keys| == 0;
      assert a.Keys == b.Keys;
    }
  }

  lemma {:induction false} ReplayShrinks(fields: seq<Field>, values: Values, trusted: bool, n: nat)
    requires DistinctIds(fields)
    ensures |Replays(fields, values, trusted, n + 1)| < |Replays(fields, values, trusted, n)|
            || SettledAt(fields, values, trusted, n)
  {
    var source := ReplaysAreWire(fields, values, trusted, n);
    ReplayIsSubmap(fields, source, trusted);
    SubmapShrinks(Replays(fields, values, trusted, n + 1), Replays(fields, values, trusted, n));
  }

  lemma {:induction false} SentIsSmall(fields: seq<Field>, resolved: Values)
    ensures |SentValues(fields, resolved)| <= |fields|
  {
    if fields == [] {
    } else {
      SentIsSmall(fields[..|fields| - 1], resolved);
    }
  }

  lemma {:induction false} ReplaysShrink(fields: seq<Field>, values: Values, trusted: bool, n: nat)
    requires DistinctIds(fields)
    ensures |Replays(fields, values, trusted, n)| + n <= |fields|
            || exists k | 0 <= k < n :: SettledAt(fields, values, trusted, k)
  {
    if n == 0 {
      SentIsSmall(fields, Resolved(fields, values, trusted));
    } else {
      ReplaysShrink(fields, values, trusted, n - 1);
      ReplayShrinks(fields, values, trusted, n - 1);
    }
  }

  lemma {:induction false} SettledStays(fields: seq<Field>, values: Values, trusted: bool, k: nat, n: nat)
    requires k <= n && SettledAt(fields, values, trusted, k)
    ensures Replays(fields, values, trusted, n) == Replays(fields, values, trusted, k)
  {
    if k == n {
    } else {
      SettledStays(fields, values, trusted, k, n - 1);
    }
  }

  /** Replaying reaches a form it keeps, within as many rounds as there are fields. */
  lemma ReplaySettles(fields: seq<Field>, values: Values, trusted: bool, n: nat)
    requires DistinctIds(fields) && n >= |fields|
    ensures Replays(fields, values, trusted, n) == Replays(fields, values, trusted, |fields|)
  {
    var m := |fields|;
    ReplaysShrink(fields, values, trusted, m + 1);
    var k :| 0 <= k < m + 1 && SettledAt(fields, values, trusted, k);
    SettledStays(fields, values, trusted, k, m);
    SettledStays(fields, values, trusted, k, n);
  }

  // ----- the daemon's reading

  /** Whether `field` takes `value`. */
  predicate Accepts(field: Field, value: OptionValue) {
    match (field.kind, value)
    case (UnknownKind, _) => true
    case (Toggle, Bool(_)) => true
    case (TextField, Text(_)) => true
    case (TextField, Null) => true
    case (ModelField, Text(_)) => true
    case (ModelField, Null) => true
    case (Choice(choices), Text(text)) => text in choices
    case (Choice(_), Null) => field.default == Null
    case _ => false
  }

  function FilledField(field: Field, values: Values): OptionValue {
    if field.id in values then values[field.id] else field.default
  }

  /** The values with every missing field at its default. */
  function Filled(fields: seq<Field>, values: Values): Values {
    if fields == [] then map[]
    else
      var last := fields[|fields| - 1];
      Filled(fields[..|fields| - 1], values)[last.id := FilledField(last, values)]
  }

  function HiddenIds(fields: seq<Field>, values: Values): set<string> {
    set i | 0 <= i < |fields| && IsHidden(fields[i], values) :: fields[i].id
  }

  /** What the daemon runs a spawn with: nothing for values it refuses, else the filled values of the shown fields. */
  function Validate(fields: seq<Field>, values: Values): Option<Values> {
    if exists id | id in values :: !HasField(fields, id) then None
    else if exists i | 0 <= i < |fields| :: !Accepts(fields[i], FilledField(fields[i], values)) then None
    else Some(Filled(fields, values) - HiddenIds(fields, Filled(fields, values)))
  }

  predicate TakesText(field: Field) { field.kind == TextField || field.kind == ModelField }

  /**
   A field reads a value the daemon takes as that value, a text on a text or model
   field without the space around it and blank as no value, and any other value as
   its default.
   */
  lemma ReadIsExact(field: Field, value: OptionValue)
    ensures Accepts(field, value) && !(TakesText(field) && value.Text?) ==> Read(field, value) == value
    ensures TakesText(field) && value.Text? && AllSpace(value.text) ==> Read(field, value) == Null
    ensures TakesText(field) && value.Text? && !AllSpace(value.text) ==>
              && Read(field, value).Text? && IsTrimmed(Read(field, value).text)
              && exists before, after :: AllSpace(before) && AllSpace(after)
                                         && value.text == before + Read(field, value).text + after
    ensures TakesText(field) && value.Text? && IsTrimmed(value.text) && value.text != [] ==> Read(field, value) == value
    ensures !Accepts(field, value) ==> Read(field, value) == field.default
  {
    if TakesText(field) && value.Text? {
      BlankIff(value.text);
      TrimTrims(value.text);
      var before, after := TrimSplits(value.text);
    }
  }

  /**
   A value set on a field is what a spawn sends for it exactly while the field is
   shown, not locked, and reads the value as other than its default; otherwise
   nothing is sent for it.
   */
  lemma SetIsSent(fields: seq<Field>, values: Values, trusted: bool, i: nat, value: OptionValue)
    requires DistinctIds(fields) && i < |fields|
    ensures var f, now := fields[i], values[fields[i].id := value];
            var wire := WireValues(fields, now, trusted);
            && (f.id in wire <==>
                  && !IsHidden(f, Resolved(fields, now, trusted)) && !(trusted && f.lockedWhenTrusted)
                  && Read(f, value) != f.default)
            && (f.id in wire ==> wire[f.id] == Read(f, value))
  {
    var now := values[fields[i].id := value];
    ResolvedAt(fields, now, trusted, i);
    SentAt(fields, Resolved(fields, now, trusted), i);
  }

  /** What a field reads its value as is a value the daemon takes, unless it fell back to the default. */
  lemma ReadIsAccepted(field: Field, value: OptionValue)
    requires Read(field, value) != field.default
    ensures Accepts(field, Read(field, value))
  {
  }

  lemma {:induction false} FilledIsReplayed(fields: seq<Field>, wire: Values, trusted: bool)
    requires forall i | 0 <= i < |fields| :: ResolvedField(fields[i], wire, trusted) == FilledField(fields[i], wire)
    ensures Filled(fields, wire) == Resolved(fields, wire, trusted)
  {
    if fields == [] {
    } else {
      FilledIsReplayed(fields[..|fields| - 1], wire, trusted);
    }
  }

  /** The daemon fills a spawn's values to what a replay of that spawn resolves. */
  lemma DaemonFillsAsReplay(fields: seq<Field>, values: Values, trusted: bool)
    requires DistinctIds(fields)
    ensures var wire := WireValues(fields, values, trusted);
            Filled(fields, wire) == Resolved(fields, wire, trusted)
  {
    forall i | 0 <= i < |fields|
      ensures ResolvedField(fields[i], WireValues(fields, values, trusted), trusted)
              == FilledField(fields[i], WireValues(fields, values, trusted))
    {
      ReplayResolves(fields, values, trusted, i);
    }
    FilledIsReplayed(fields, WireValues(fields, values, trusted), trusted);
  }

  /**
   Filled with defaults, the wire form means the resolved values: a shown field
   holds its own, a hidden or locked one its default.
   */
  lemma FillPreservesMeaning(fields: seq<Field>, values: Values, trusted: bool, i: nat)
    requires DistinctIds(fields) && i < |fields|
    ensures var f, first := fields[i], Resolved(fields, values, trusted);
            var filled := Filled(fields, WireValues(fields, values, trusted));
            && f.id in filled && f.id in first
            && (!IsHidden(f, first) ==> filled[f.id] == first[f.id])
            && (IsHidden(f, first) ==> filled[f.id] == f.default)
            && (trusted && f.lockedWhenTrusted ==>
                  filled[f.id] == f.default && f.id !in WireValues(fields, values, trusted))
  {
    DaemonFillsAsReplay(fields, values, trusted);
    ReplayedValue(fields, values, trusted, i);
    ResolvedAt(fields, values, trusted, i);
    SentAt(fields, Resolved(fields, values, trusted), i);
  }

  /** The daemon takes a spawn's values exactly when it takes the default of every field they leave out. */
  lemma DaemonTakesIff(fields: seq<Field>, values: Values, trusted: bool)
    requires DistinctIds(fields)
    ensures var wire := WireValues(fields, values, trusted);
            Validate(fields, wire).Some? <==>
            forall i | 0 <= i < |fields| :: fields[i].id in wire || Accepts(fields[i], fields[i].default)
  {
    var wire, first := WireValues(fields, values, trusted), Resolved(fields, values, trusted);
    forall id | id in wire ensures HasField(fields, id) {
      var i := SentField(fields, first, id);
    }
    forall i | 0 <= i < |fields| && fields[i].id in wire ensures Accepts(fields[i], FilledField(fields[i], wire)) {
      SentAt(fields, first, i);
      ResolvedAt(fields, values, trusted, i);
      ReadIsAccepted(fields[i], values[fields[i].id]);
    }
  }

  /** The fields the client shows, with their resolved values. */
  function ShownValues(fields: seq<Field>, resolved: Values): Values {
    resolved - HiddenIds(fields, resolved)
  }

  /** A rule of field `i` matches, and reads a field that keeps its value. */
  ghost predicate FirmHit(fields: seq<Field>, resolved: Values, i: nat)
    requires i < |fields|
  {
    exists r :: 0 <= r < |fields[i].when| && Matches(fields[i].when[r], resolved)
                && !LostId(fields, resolved, fields[i].when[r].ifField)
  }

  ghost predicate LostId(fields: seq<Field>, resolved: Values, id: string) {
    exists g :: 0 <= g < |fields| && fields[g].id == id && Lost(fields[g], resolved)
  }

  /** A rule of field `i` reads a lost field and waits for its default. */
  ghost predicate DefaultHit(fields: seq<Field>, resolved: Values, i: nat)
    requires i < |fields|
  {
    exists r, g :: 0 <= r < |fields[i].when| && 0 <= g < |fields| && fields[i].when[r].hidden == Some(true)
                   && fields[i].when[r].ifField == fields[g].id && Lost(fields[g], resolved)
                   && fields[i].when[r].equals == fields[g].default
  }

  /** The daemon hides a field exactly when a rule hits it on kept values, or on the default of a lost one. */
  lemma DaemonHidesIff(fields: seq<Field>, values: Values, trusted: bool, i: nat)
    requires DistinctIds(fields) && i < |fields|
    ensures IsHidden(fields[i], Filled(fields, WireValues(fields, values, trusted))) <==>
            || FirmHit(fields, Resolved(fields, values, trusted), i)
            || DefaultHit(fields, Resolved(fields, values, trusted), i)
  {
    var f, first := fields[i], Resolved(fields, values, trusted);
    var again := Resolved(fields, WireValues(fields, values, trusted), trusted);
    DaemonFillsAsReplay(fields, values, trusted);
    if IsHidden(f, again) {
      var r :| 0 <= r < |f.when| && Matches(f.when[r], again);
      ResolvedKeys(fields, WireValues(fields, values, trusted), trusted, f.when[r].ifField);
      var g :| 0 <= g < |fields| && fields[g].id == f.when[r].ifField;
      ReplayedValue(fields, values, trusted, g);
      if !Lost(fields[g], first) {
        assert Matches(f.when[r], first) && !LostId(fields, first, f.when[r].ifField);
      }
    }
    if FirmHit(fields, first, i) {
      var r :| 0 <= r < |f.when| && Matches(f.when[r], first) && !LostId(fields, first, f.when[r].ifField);
      ResolvedKeys(fields, values, trusted, f.when[r].ifField);
      var g :| 0 <= g < |fields| && fields[g].id == f.when[r].ifField;
      ReplayedValue(fields, values, trusted, g);
      assert Matches(f.when[r], again);
    }
    if DefaultHit(fields, first, i) {
      var r, g :| 0 <= r < |f.when| && 0 <= g < |fields| && f.when[r].hidden == Some(true)
                  && f.when[r].ifField == fields[g].id && Lost(fields[g], first)
                  && f.when[r].equals == fields[g].default;
      ReplayedValue(fields, values, trusted, g);
      assert Matches(f.when[r], again);
    }
  }

  lemma {:induction false} FilledKeys(fields: seq<Field>, wire: Values, id: string)
    ensures id in Filled(fields, wire) <==> HasField(fields, id)
  {
    if fields == [] {
    } else {
      var n := |fields| - 1;
      FilledKeys(fields[..n], wire, id);
      if i :| 0 <= i < |fields| && fields[i].id == id {
        if i < n { assert fields[..n][i].id == id; }
      }
    }
  }

  lemma HiddenIdIff(fields: seq<Field>, values: Values, i: nat)
    requires DistinctIds(fields) && i < |fields|
    ensures fields[i].id in HiddenIds(fields, values) <==> IsHidden(fields[i], values)
  {
  }

  /** Field `i` shows in the client and in the daemon, or in neither. */
  ghost predicate HidesAlike(fields: seq<Field>, resolved: Values, i: nat)
    requires i < |fields|
  {
    IsHidden(fields[i], resolved) <==> FirmHit(fields, resolved, i) || DefaultHit(fields, resolved, i)
  }

  /** The daemon runs a spawn on exactly the values shown for it, if and only if it hides the same fields. */
  lemma DaemonRunsWhatIsShownIff(fields: seq<Field>, values: Values, trusted: bool)
    requires DistinctIds(fields) && Validate(fields, WireValues(fields, values, trusted)).Some?
    ensures var first := Resolved(fields, values, trusted);
            Validate(fields, WireValues(fields, values, trusted)).value == ShownValues(fields, first)
            <==> forall i | 0 <= i < |fields| :: HidesAlike(fields, first, i)
  {
    var wire, first := WireValues(fields, values, trusted), Resolved(fields, values, trusted);
    var filled := Filled(fields, wire);
    var run, shown := Validate(fields, wire).value, ShownValues(fields, first);
    forall i | 0 <= i < |fields|
      ensures fields[i].id in shown <==> !IsHidden(fields[i], first)
      ensures fields[i].id in run <==> !(FirmHit(fields, first, i) || DefaultHit(fields, first, i))
      ensures fields[i].id in shown && fields[i].id in run ==> shown[fields[i].id] == run[fields[i].id]
    {
      FillPreservesMeaning(fields, values, trusted, i);
      DaemonHidesIff(fields, values, trusted, i);
      HiddenIdIff(fields, first, i);
      HiddenIdIff(fields, filled, i);
    }
    if forall i | 0 <= i < |fields| :: HidesAlike(fields, first, i) {
      forall id ensures id in shown <==> id in run {
        FilledKeys(fields, wire, id);
        ResolvedKeys(fields, values, trusted, id);
        if i :| 0 <= i < |fields| && fields[i].id == id {
          assert HidesAlike(fields, first, i);
        }
      }
      forall id | id in shown ensures shown[id] == run[id] {
        ResolvedKeys(fields, values, trusted, id);
        var i :| 0 <= i < |fields| && fields[i].id == id;
      }
      assert run == shown;
    } else {
      var i :| 0 <= i < |fields| && !HidesAlike(fields, first, i);
      assert fields[i].id in shown <==> fields[i].id !in run;
    }
  }

  /** Where no rule reads a field that can be hidden, the daemon runs every spawn on what is shown. */
  lemma FlatRulesHideAlike(fields: seq<Field>, values: Values, trusted: bool, i: nat)
    requires FlatRules(fields) && i < |fields|
    ensures HidesAlike(fields, Resolved(fields, values, trusted), i)
  {
    var first := Resolved(fields, values, trusted);
    if IsHidden(fields[i], first) {
      var r :| 0 <= r < |fields[i].when| && Matches(fields[i].when[r], first);
      assert !LostId(fields, first, fields[i].when[r].ifField);
    }
  }

  // ----- both fail on a chain of rules

  const A := Field("a", Toggle, Bool(false), Main, false, [])
  const B := Field("b", Toggle, Bool(false), Main, false, [Rule("a", Bool(true), Some(true))])
  /** Hidden while `b` holds `equals`. */
  function C(equals: OptionValue): Field {
    Field("c", Toggle, Bool(false), Main, false, [Rule("b", equals, Some(true))])
  }

  const ALL_ON: Values := map["a" := Bool(true), "b" := Bool(true), "c" := Bool(true)]

  lemma ChainResolves(equals: OptionValue)
    ensures DistinctIds([A, B, C(equals)])
    ensures Resolved([A, B, C(equals)], ALL_ON, false) == ALL_ON
    ensures IsHidden(B, ALL_ON) && (IsHidden(C(equals), ALL_ON) <==> equals == Bool(true))
  {
    var fields := [A, B, C(equals)];
    assert fields[..2] == [A, B] && [A, B][..1] == [A] && [A][..0] == [];
    assert Resolved([A], ALL_ON, false) == map["a" := Bool(true)];
    assert Resolved([A, B], ALL_ON, false) == map["a" := Bool(true), "b" := Bool(true)];
    assert Matches(B.when[0], ALL_ON);
    assert Matches(C(equals).when[0], ALL_ON) <==> equals == Bool(true);
  }

  /** A field hidden by the default of a lost field drops out of the replay. */
  lemma ReplayMayShrink()
    ensures var fields := [A, B, C(Bool(false))];
            && "c" in WireValues(fields, ALL_ON, false)
            && "c" !in Replay(fields, WireValues(fields, ALL_ON, false), false)
  {
    var fields := [A, B, C(Bool(false))];
    ChainResolves(Bool(false));
    SentAt(fields, ALL_ON, 2);
    assert Trips(fields, ALL_ON, 2, 0, 1);
    assert TripsAt(fields, ALL_ON, 2);
    ReplayedIff(fields, ALL_ON, false, 2);
  }

  /** A field hidden by the value of a lost field shows at the daemon, on its default. */
  lemma DaemonMayShowMore()
    ensures var fields := [A, B, C(Bool(true))];
            && Validate(fields, WireValues(fields, ALL_ON, false)).Some?
            && "c" in Validate(fields, WireValues(fields, ALL_ON, false)).value
            && "c" !in ShownValues(fields, Resolved(fields, ALL_ON, false))
  {
    var fields := [A, B, C(Bool(true))];
    ChainResolves(Bool(true));
    DaemonTakesIff(fields, ALL_ON, false);
    HiddenIdIff(fields, ALL_ON, 2);
    assert Lost(fields[1], ALL_ON) && LostId(fields, ALL_ON, "b");
    assert !FirmHit(fields, ALL_ON, 2) && !DefaultHit(fields, ALL_ON, 2);
    DaemonHidesIff(fields, ALL_ON, false, 2);
    HiddenIdIff(fields, Filled(fields, WireValues(fields, ALL_ON, false)), 2);
    FilledKeys(fields, WireValues(fields, ALL_ON, false), "c");
    assert fields[2].id == "c";
  }

  // ----- the dialog's fields and the options' changes

  datatype FieldView = FieldView(id: string, value: OptionValue, disabled: bool)

  predicate Drawn(field: Field, resolved: Values) {
    (field.spawn == Main || field.spawn == Advanced) && !IsHidden(field, resolved)
  }

  /** The fields the spawn dialog draws, in the descriptor's order. */
  function Views(fields: seq<Field>, resolved: Values, kept: Values, trusted: bool): seq<FieldView> {
    if fields == [] then []
    else
      var last, rest := fields[|fields| - 1], Views(fields[..|fields| - 1], resolved, kept, trusted);
      if Drawn(last, resolved) then
        rest + [FieldView(last.id, if last.id in kept then kept[last.id] else last.default,
                          last.kind == UnknownKind || (trusted && last.lockedWhenTrusted))]
      else rest
  }

  lemma {:induction false} ViewSource(fields: seq<Field>, resolved: Values, kept: Values, trusted: bool, k: nat)
    returns (i: nat)
    requires k < |Views(fields, resolved, kept, trusted)|
    ensures i < |fields| && Drawn(fields[i], resolved)
    ensures var v := Views(fields, resolved, kept, trusted)[k];
            && v.id == fields[i].id && v.value == (if v.id in kept then kept[v.id] else fields[i].default)
            && v.disabled == (fields[i].kind == UnknownKind || (trusted && fields[i].lockedWhenTrusted))
  {
    var n := |fields| - 1;
    var rest := Views(fields[..n], resolved, kept, trusted);
    if k < |rest| {
      i := ViewSource(fields[..n], resolved, kept, trusted, k);
    } else {
      i := n;
    }
  }

  /** The dialog draws a field exactly when it is placed in the dialog and no rule hides it now. */
  lemma {:induction false} DrawnIff(fields: seq<Field>, resolved: Values, kept: Values, trusted: bool, i: nat)
    requires DistinctIds(fields) && i < |fields|
    ensures (exists k | 0 <= k < |Views(fields, resolved, kept, trusted)| ::
               Views(fields, resolved, kept, trusted)[k].id == fields[i].id)
            <==> fields[i].spawn in {Main, Advanced} && !IsHidden(fields[i], resolved)
  {
    var views := Views(fields, resolved, kept, trusted);
    if k :| 0 <= k < |views| && views[k].id == fields[i].id {
      var j := ViewSource(fields, resolved, kept, trusted, k);
      assert j == i;
    }
    if fields[i].spawn in {Main, Advanced} && !IsHidden(fields[i], resolved) {
      var k := ViewPlace(fields, resolved, kept, trusted, i);
    }
  }

  /** A drawn field's place, after the drawn fields before it. */
  lemma {:induction false} ViewPlace(fields: seq<Field>, resolved: Values, kept: Values, trusted: bool, i: nat)
    returns (k: nat)
    requires i < |fields| && Drawn(fields[i], resolved)
    ensures k == |Views(fields[..i], resolved, kept, trusted)|
    ensures k < |Views(fields, resolved, kept, trusted)| && Views(fields, resolved, kept, trusted)[k].id == fields[i].id
  {
    var n := |fields| - 1;
    if i == n {
      k := |Views(fields[..n], resolved, kept, trusted)|;
    } else {
      k := ViewPlace(fields[..n], resolved, kept, trusted, i);
      assert fields[..n][..i] == fields[..i];
    }
  }

  /** A drawn field shows what an untrusted spawn would run, trusted or not; a spawn sends it unless it is locked. */
  lemma TrustedShowsKept(fields: seq<Field>, values: Values, trusted: bool, k: nat)
    requires DistinctIds(fields)
    requires k < |Views(fields, Resolved(fields, values, trusted), Resolved(fields, values, false), trusted)|
    ensures var v := Views(fields, Resolved(fields, values, trusted), Resolved(fields, values, false), trusted)[k];
            exists i :: && 0 <= i < |fields| && fields[i].id == v.id
                        && v.value == ResolvedField(fields[i], values, false)
                        && (if trusted && fields[i].lockedWhenTrusted then v.id !in WireValues(fields, values, trusted)
                            else FilledField(fields[i], WireValues(fields, values, trusted)) == v.value)
  {
    var first := Resolved(fields, values, trusted);
    var i := ViewSource(fields, first, Resolved(fields, values, false), trusted, k);
    ResolvedAt(fields, values, false, i);
    ResolvedAt(fields, values, trusted, i);
    SentAt(fields, first, i);
  }

  /** The options of a spawn as the dialog changes them. */
  class Options {
    const fields: seq<Field>
    var values: Values

    constructor (fields: seq<Field>, settings: Option<Values>)
      ensures this.fields == fields
      ensures values == if settings.Some? then Known(fields, settings.value) else map[]
    {
      this.fields := fields;
      values := if settings.Some? then Known(fields, settings.value) else map[];
    }

    /** Takes a stored spawn's values, forgets what stood before, and then sends what a replay of them sends. */
    method Seed(stored: Values)
      modifies this
      ensures forall id :: id in values <==> id in stored && HasField(fields, id)
      ensures forall id | id in values :: values[id] == stored[id]
      ensures forall trusted :: WireValues(fields, values, trusted) == Replay(fields, stored, trusted)
      ensures forall kept, trusted | DistinctIds(fields) && stored == WireValues(fields, kept, trusted) ::
                Submap(WireValues(fields, values, trusted), stored)
    {
      values := Known(fields, stored);
      forall kept, trusted | DistinctIds(fields) && stored == WireValues(fields, kept, trusted)
        ensures Submap(WireValues(fields, values, trusted), stored)
      {
        ReplayIsSubmap(fields, kept, trusted);
      }
    }

    /** Sets a field the agent has, and no other, to what it reads the value as; any other id changes nothing. */
    method Set(id: string, value: OptionValue)
      modifies this
      ensures HasField(fields, id) ==> id in values && values[id] == value && values - {id} == old(values) - {id}
      ensures !HasField(fields, id) ==> values == old(values)
      ensures forall i, trusted | 0 <= i < |fields| ::
                ResolvedField(fields[i], values, trusted) ==
                if fields[i].id != id then ResolvedField(fields[i], old(values), trusted)
                else if trusted && fields[i].lockedWhenTrusted then fields[i].default
                else Read(fields[i], value)
    {
      if HasField(fields, id) {
        values := values[id := value];
      }
    }

    /** Copies one field from `from`, absence included, and leaves the rest alone. */
    method KeepField(id: string, from: Options)
      modifies this
      ensures id in values <==> id in old(from.values)
      ensures id in values ==> values[id] == old(from.values)[id]
      ensures values - {id} == old(values) - {id}
    {
      if id in from.values {
        values := values[id := from.values[id]];
      } else {
        values := values - {id};
      }
    }

    /** What a spawn sends; seeding with it again sends part of it again, and everything where no rule trips. */
    method Spawn(trusted: bool) returns (wire: Values)
      requires DistinctIds(fields)
      ensures wire == WireValues(fields, values, trusted)
      ensures Submap(Replay(fields, wire, trusted), wire)
      ensures Replay(fields, wire, trusted) == wire <==> !AnyTrips(fields, Resolved(fields, values, trusted))
    {
      wire := WireValues(fields, values, trusted);
      ReplayIsSubmap(fields, values, trusted);
      ReplayIsExactIff(fields, values, trusted);
    }
  }
}
