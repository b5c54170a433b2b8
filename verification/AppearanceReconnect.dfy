/**
 One session's appearance over several connections. A reconnect forgets the
 client's sends in flight and loses what was on its way; sends the daemon had
 received on the old connection may still be stored, at any later moment. The
 client always comes back to what the daemon holds, and answering is invisible
 again exactly once no such send is left.
 */
module AppearanceReconnect {
  import opened Common
  import opened Appearance
  import opened StoredForm
  import opened AppearanceProtocol

  /** The current connection, and the sends of older ones the daemon received and has not handled. */
  datatype Link = Link(state: State, stray: seq<Wire>)

  datatype Move =
    /** A step of the current connection. */
    | Do(step: Step)
    /** The daemon handles the oldest stray send; its answer names no request of the current connection. */
    | HandleStray
    /** A new connection: the daemon received the first `received` sends of the old one, the rest are lost. */
    | Reconnect(received: nat)

  predicate CanMove(k: Link, move: Move) {
    match move
    case Do(step) => Enabled(k.state, step)
    case HandleStray => k.stray != []
    case Reconnect(received) => received <= |k.state.toDaemon|
  }

  /** The session once the daemon handled a send of an older connection. */
  function Strayed(s: State, wire: Wire): State {
    var value := Normalized(wire.value);
    if value.None? then s
    else s.(daemon := value.value, toClient := s.toClient + [Snapshot(value.value, None)])
  }

  /** The session as the new connection opens: nothing in flight, the session list on its way. */
  function Reopened(s: State): State {
    s.(inFlight := [], toDaemon := [], toClient := [Snapshot(s.daemon, None)])
  }

  function Moved(k: Link, move: Move): Link
    requires CanMove(k, move)
  {
    match move
    case Do(step) => k.(state := Next(k.state, step))
    case HandleStray => Link(Strayed(k.state, k.stray[0]), k.stray[1..])
    case Reconnect(received) => Link(Reopened(k.state), k.stray + k.state.toDaemon[..received])
  }

  predicate LegalMoves(k: Link, moves: seq<Move>)
    decreases |moves|
  {
    moves == [] || (CanMove(k, moves[0]) && LegalMoves(Moved(k, moves[0]), moves[1..]))
  }

  function AfterMoves(k: Link, moves: seq<Move>): Link
    requires LegalMoves(k, moves)
    decreases |moves|
  {
    if moves == [] then k else AfterMoves(Moved(k, moves[0]), moves[1..])
  }

  function Opened(start: Overrides): Link { Link(Init(start), []) }

  // ----- the client comes back to the daemon's value

  lemma {:induction false} MoveMirrors(k: Link, move: Move)
    requires Mirrors(k.state) && CanMove(k, move)
    ensures Mirrors(Moved(k, move).state)
  {
    var s := k.state;
    match move {
      case Do(step) => StepMirrors(s, step);
      case HandleStray =>
        var value := Normalized(k.stray[0].value);
        if value.Some? { AppendedIsNewest(s.toClient, Snapshot(value.value, None), s.stored); }
      case Reconnect(_) => NewestOfOne(Snapshot(s.daemon, None), s.stored);
    }
  }

  lemma {:induction false} RunMirrors(k: Link, moves: seq<Move>)
    requires Mirrors(k.state) && LegalMoves(k, moves)
    ensures Mirrors(AfterMoves(k, moves).state)
    decreases |moves|
  {
    if moves == [] {
    } else {
      MoveMirrors(k, moves[0]);
      RunMirrors(Moved(k, moves[0]), moves[1..]);
    }
  }

  /** In every run, from any appearance, a client with no answer left to take mirrors the daemon. */
  lemma MirrorCatchesUp(start: Overrides, moves: seq<Move>)
    requires LegalMoves(Opened(start), moves)
    ensures var s := AfterMoves(Opened(start), moves).state;
            s.toClient == [] ==> s.stored == s.daemon
  {
    RunMirrors(Opened(start), moves);
  }

  ghost predicate NoEdits(moves: seq<Move>) {
    forall i | 0 <= i < |moves| :: moves[i].Do? ==> !moves[i].step.Edit?
  }

  /** With nothing in flight, only an edit puts something there. */
  lemma {:induction false} NothingInFlight(k: Link, moves: seq<Move>)
    requires k.state.inFlight == [] && LegalMoves(k, moves) && NoEdits(moves)
    ensures AfterMoves(k, moves).state.inFlight == []
    decreases |moves|
  {
    if moves == [] {
    } else {
      assert moves[0].Do? ==> !moves[0].step.Edit?;
      forall i | 0 <= i < |moves[1..]| ensures moves[1..][i].Do? ==> !moves[1..][i].step.Edit? {
        assert moves[1..][i] == moves[i + 1];
      }
      NothingInFlight(Moved(k, moves[0]), moves[1..]);
    }
  }

  lemma {:induction false} MovesSplit(k: Link, before: seq<Move>, after: seq<Move>)
    requires LegalMoves(k, before + after)
    ensures LegalMoves(k, before) && LegalMoves(AfterMoves(k, before), after)
    ensures AfterMoves(k, before + after) == AfterMoves(AfterMoves(k, before), after)
    decreases |before|
  {
    if before == [] {
      assert before + after == after;
    } else {
      assert (before + after)[1..] == before[1..] + after;
      MovesSplit(Moved(k, before[0]), before[1..], after);
    }
  }

  /**
   After a reconnect with no edit since, the client shows what it mirrors, and
   once every answer is taken that is what the daemon holds.
   */
  lemma {:induction false} ReconnectShowsDaemon(start: Overrides, before: seq<Move>, received: nat, since: seq<Move>)
    requires LegalMoves(Opened(start), before + ([Reconnect(received)] + since)) && NoEdits(since)
    ensures var s := AfterMoves(Opened(start), before + ([Reconnect(received)] + since)).state;
            Shown(s) == s.stored && (s.toClient == [] ==> Shown(s) == s.daemon)
  {
    var rest := [Reconnect(received)] + since;
    MirrorCatchesUp(start, before + rest);
    MovesSplit(Opened(start), before, rest);
    var k := AfterMoves(Opened(start), before);
    assert rest[1..] == since;
    NothingInFlight(Moved(k, Reconnect(received)), since);
  }

  // ----- what every move keeps, from an appearance the daemon would store

  predicate Storable(o: Overrides) { Normalized(o).Some? }

  ghost predicate StorableWires(wires: seq<Wire>) {
    forall i | 0 <= i < |wires| :: Storable(wires[i].value)
  }

  ghost predicate StorableReplies(replies: seq<Reply>) {
    forall i | 0 <= i < |replies| :: replies[i].Snapshot? && Storable(replies[i].value)
  }

  ghost predicate StorableState(s: State) {
    && Storable(s.stored) && Storable(s.daemon) && NormalSends(s.inFlight)
    && StorableWires(s.toDaemon) && StorableReplies(s.toClient)
  }

  lemma {:induction false} ShownIsStorable(stored: Overrides, sends: seq<Send>)
    requires Storable(stored) && NormalSends(sends)
    ensures Storable(Overlay(stored, sends))
  {
    LikeOverlay(false, stored, Normalized(stored).value, sends);
  }

  lemma {:induction false} EditStores(s: State, change: Change, id: RequestId)
    requires StorableState(s)
    ensures StorableState(Edited(s, change, id))
  {
    var values := Normalized(change.values);
    if values.Some? {
      var normal := change.(values := values.value);
      NormalizedIsNormal(change.values);
      ShownIsStorable(s.stored, s.inFlight);
      NormalizedApplied(normal.fields, normal.values, Shown(s));
    }
  }

  lemma {:induction false} DeliverStores(s: State)
    requires StorableState(s) && s.toClient != []
    ensures StorableState(Delivered(s))
  {
    var r := s.toClient[0];
    assert r.Snapshot? && Storable(r.value);
    assert StorableReplies(s.toClient[1..]);
    if r.answers.Some? {
      assert NormalSends(AfterAnswer(s.inFlight, r.answers.value));
    }
  }

  lemma {:induction false} StepStores(s: State, step: Step)
    requires StorableState(s) && Enabled(s, step)
    ensures StorableState(Next(s, step))
  {
    match step {
      case Edit(change, id) => EditStores(s, change, id);
      case Handle => NormalizedIsNormal(s.toDaemon[0].value);
      case Deliver => DeliverStores(s);
      case _ =>
    }
  }

  lemma {:induction false} MoveStores(k: Link, move: Move)
    requires StorableState(k.state) && StorableWires(k.stray) && CanMove(k, move)
    ensures StorableState(Moved(k, move).state) && StorableWires(Moved(k, move).stray)
  {
    match move {
      case Do(step) => StepStores(k.state, step);
      case HandleStray => NormalizedIsNormal(k.stray[0].value);
      case Reconnect(_) =>
    }
  }

  lemma {:induction false} RunStores(k: Link, moves: seq<Move>)
    requires StorableState(k.state) && StorableWires(k.stray) && LegalMoves(k, moves)
    ensures StorableState(AfterMoves(k, moves).state) && StorableWires(AfterMoves(k, moves).stray)
    decreases |moves|
  {
    if moves == [] {
    } else {
      MoveStores(k, moves[0]);
      RunStores(Moved(k, moves[0]), moves[1..]);
    }
  }

  // ----- exactly when answering is invisible again

  ghost predicate NoReconnect(moves: seq<Move>) {
    forall i | 0 <= i < |moves| :: !moves[i].Reconnect?
  }

  /** The steps among the moves. */
  function StepsOf(moves: seq<Move>): seq<Step> {
    if moves == [] then []
    else (if moves[0].Do? then [moves[0].step] else []) + StepsOf(moves[1..])
  }

  /** On this connection, whatever comes, what is shown is stored as what the user last asked for. */
  ghost predicate InvisibleOn(k: Link) {
    forall moves | LegalMoves(k, moves) && NoReconnect(moves) ::
      Normalized(Shown(AfterMoves(k, moves).state)) == Normalized(Wanted(k.state.stored, StepsOf(moves)))
  }

  /** Without stray sends the moves are steps of the one connection. */
  lemma {:induction false} MovesAreSteps(k: Link, moves: seq<Move>)
    requires k.stray == [] && LegalMoves(k, moves) && NoReconnect(moves)
    ensures Legal(k.state, StepsOf(moves))
    ensures AfterMoves(k, moves) == Link(After(k.state, StepsOf(moves)), [])
    decreases |moves|
  {
    if moves == [] {
    } else {
      var rest := moves[1..];
      assert !moves[0].Reconnect?;
      forall i | 0 <= i < |rest| ensures !rest[i].Reconnect? {
        assert rest[i] == moves[i + 1];
      }
      MovesAreSteps(Moved(k, moves[0]), rest);
      assert StepsOf(moves)[1..] == StepsOf(rest);
    }
  }

  lemma {:induction false} NoStrayInvisible(k: Link)
    requires k.stray == [] && Rests(k.state) && Storable(k.state.stored)
    ensures InvisibleOn(k)
  {
    forall moves | LegalMoves(k, moves) && NoReconnect(moves)
      ensures Normalized(Shown(AfterMoves(k, moves).state)) == Normalized(Wanted(k.state.stored, StepsOf(moves)))
    {
      MovesAreSteps(k, moves);
      InvisibleFromRest(k.state, StepsOf(moves));
    }
  }

  /** A continuation after which what is shown is not stored as what was asked for over `base`. */
  ghost predicate Betrays(k: Link, base: Overrides, moves: seq<Move>) {
    && LegalMoves(k, moves) && NoReconnect(moves)
    && Normalized(Shown(AfterMoves(k, moves).state)) != Normalized(Wanted(base, StepsOf(moves)))
  }

  lemma {:induction false} BetraysNow(k: Link, base: Overrides)
    requires Normalized(Shown(k.state)) != Normalized(base)
    ensures Betrays(k, base, [])
  {
  }

  lemma {:induction false} BetraysLater(k: Link, base: Overrides, move: Move, moves: seq<Move>)
    requires CanMove(k, move) && !move.Reconnect?
    requires Betrays(Moved(k, move), if move.Do? then Asked(base, move.step) else base, moves)
    ensures Betrays(k, base, [move] + moves)
  {
    var all := [move] + moves;
    assert all[1..] == moves;
    if move.Do? {
      assert StepsOf(all)[1..] == StepsOf(moves);
    } else {
      assert StepsOf(all) == StepsOf(moves);
    }
  }

  /** At rest, a stray send stored as something else than `base` shows. */
  lemma {:induction false} StrayShows(k: Link, base: Overrides) returns (moves: seq<Move>)
    requires Rests(k.state) && k.stray != [] && Storable(k.stray[0].value)
    requires Normalized(k.stray[0].value) != Normalized(base)
    ensures Betrays(k, base, moves)
  {
    NormalizedIsNormal(k.stray[0].value);
    var k1 := Moved(k, HandleStray);
    var k2 := Moved(k1, Do(Deliver));
    BetraysNow(k2, base);
    BetraysLater(k1, base, Do(Deliver), []);
    BetraysLater(k, base, HandleStray, [Do(Deliver)] + []);
    moves := [HandleStray] + ([Do(Deliver)] + []);
  }

  /** An edit that changes what is stored, whatever the storable value it starts from. */
  lemma {:induction false} SizeEdit(base: Overrides) returns (change: Change)
    requires Storable(base)
    ensures GoesOut(change, base) && Storable(Applied(change, base))
    ensures Normalized(Applied(change, base)) != Normalized(base)
  {
    change := Change(UNSET.(size := if base.size == Some(14) then Some(15) else Some(14)), [FontSize]);
    AppliedOne(change.values, FontSize, base);
  }

  /** At rest, a stray send stored as what stands already shows once an edit was answered. */
  lemma {:induction false} StrayReverts(k: Link) returns (moves: seq<Move>)
    requires Rests(k.state) && Storable(k.state.stored) && k.stray != []
    requires Storable(k.stray[0].value) && Normalized(k.stray[0].value) == Normalized(k.state.stored)
    ensures Betrays(k, k.state.stored, moves)
  {
    var s, base := k.state, k.state.stored;
    var change := SizeEdit(base);
    var id := FreshId(s.used);
    SentOut(s, change, id);
    EditComesBack(s, change, id);
    var edit := Edit(change, id);
    var k1 := Moved(k, Do(edit));
    var k2 := Moved(k1, Do(Handle));
    var k3 := Moved(k2, Do(Deliver));
    var wanted := Applied(change, base);
    assert Asked(base, edit) == wanted;
    var rest := StrayShows(k3, wanted);
    BetraysLater(k2, wanted, Do(Deliver), rest);
    BetraysLater(k1, wanted, Do(Handle), [Do(Deliver)] + rest);
    BetraysLater(k, base, Do(edit), [Do(Handle)] + ([Do(Deliver)] + rest));
    moves := [Do(edit)] + ([Do(Handle)] + ([Do(Deliver)] + rest));
  }

  lemma {:induction false} StrayBetrays(k: Link) returns (moves: seq<Move>)
    requires Rests(k.state) && Storable(k.state.stored) && k.stray != [] && Storable(k.stray[0].value)
    ensures Betrays(k, k.state.stored, moves)
  {
    if Normalized(k.stray[0].value) == Normalized(k.state.stored) {
      moves := StrayReverts(k);
    } else {
      moves := StrayShows(k, k.state.stored);
    }
  }

  /**
   Exactly when answering is invisible again: in any run of connections from an
   appearance the daemon would store, at a moment with nothing in flight on the
   current one, what is shown from then on is stored as what the user last asked
   for, if and only if no send of an older connection is left to be handled.
   */
  lemma {:induction false} InvisibleAgainIff(start: Overrides, moves: seq<Move>)
    requires Storable(start) && LegalMoves(Opened(start), moves)
    ensures var k := AfterMoves(Opened(start), moves);
            k.state.inFlight == [] && k.state.toDaemon == [] && k.state.toClient == [] ==>
              (InvisibleOn(k) <==> k.stray == [])
  {
    var k := AfterMoves(Opened(start), moves);
    RunStores(Opened(start), moves);
    MirrorCatchesUp(start, moves);
    if k.state.inFlight == [] && k.state.toDaemon == [] && k.state.toClient == [] {
      assert Rests(k.state);
      if k.stray == [] {
        NoStrayInvisible(k);
      } else {
        var bad := StrayBetrays(k);
        assert LegalMoves(k, bad);
      }
    }
  }

  lemma {:induction false} MoveFirst(k: Link, move: Move, moves: seq<Move>)
    requires CanMove(k, move) && LegalMoves(Moved(k, move), moves)
    ensures LegalMoves(k, [move] + moves) && AfterMoves(k, [move] + moves) == AfterMoves(Moved(k, move), moves)
  {
    assert ([move] + moves)[1..] == moves;
  }

  /** A connection lost with an edit received and not yet stored: at rest on the next, the edit is still to come. */
  lemma {:induction false} StrayIsReached(start: Overrides, change: Change)
    requires GoesOut(change, start)
    ensures var moves := [Do(Edit(change, "e"))] + ([Reconnect(1)] + ([Do(Deliver)] + []));
            && LegalMoves(Opened(start), moves)
            && Rests(AfterMoves(Opened(start), moves).state)
            && AfterMoves(Opened(start), moves).stray == [Wire("e", Applied(change, start))]
  {
    var k := Opened(start);
    SentOut(k.state, change, "e");
    var k1 := Moved(k, Do(Edit(change, "e")));
    assert k1 == Link(FirstSent(k.state, change, "e"), []);
    var k2 := Moved(k1, Reconnect(1));
    assert k2.stray == [Wire("e", Applied(change, start))];
    MoveFirst(k2, Do(Deliver), []);
    MoveFirst(k1, Reconnect(1), [Do(Deliver)] + []);
    MoveFirst(k, Do(Edit(change, "e")), [Reconnect(1)] + ([Do(Deliver)] + []));
  }
}
