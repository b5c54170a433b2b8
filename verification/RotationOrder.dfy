/**
 The Settings page's Up and Down moves of the rotation order. Every move is a
 permutation, Up and Down undo each other, and every order is within reach.
 */
module RotationOrder {
  import opened Common
  import opened AccountsFold

  function Numbers(accounts: seq<AccountSnapshot>): seq<nat> {
    seq(|accounts|, i requires 0 <= i < |accounts| => accounts[i].number)
  }

  function Swapped(order: seq<nat>, i: nat, j: nat): seq<nat>
    requires i < |order| && j < |order|
  {
    order[i := order[j]][j := order[i]]
  }

  /** The order one move makes; `None` when there is nothing to move or nowhere to move it. */
  function Moved(order: seq<nat>, number: nat, up: bool): Option<seq<nat>> {
    match Position(order, number)
    case None => None
    case Some(at) =>
      if up then (if at == 0 then None else Some(Swapped(order, at, at - 1)))
      else if at + 1 == |order| then None else Some(Swapped(order, at, at + 1))
  }

  method MovedOrder(accounts: seq<AccountSnapshot>, number: nat, up: bool) returns (moved: Option<seq<nat>>)
    ensures moved == Moved(Numbers(accounts), number, up)
    ensures moved.Some? ==> exists at, to :: Exchanged(accounts, moved.value, number, at, to, up)
  {
    var order := new nat[|accounts|](i requires 0 <= i < |accounts| => accounts[i].number);
    assert order[..] == Numbers(accounts);
    var at := Position(order[..], number);
    if at.None? {
      return None;
    }
    var to: int := if up then at.value as int - 1 else at.value + 1;
    if to < 0 || to >= order.Length {
      return None;
    }
    order[at.value], order[to] := order[to], order[at.value];
    moved := Some(order[..]);
    assert Exchanged(accounts, moved.value, number, at.value, to, up);
  }

  /** `order` is the accounts' numbers, but for the account `number` at `at` and its neighbour at `to` exchanged. */
  ghost predicate Exchanged(accounts: seq<AccountSnapshot>, order: seq<nat>, number: nat, at: int, to: int, up: bool) {
    && |order| == |accounts| && 0 <= at < |accounts| && 0 <= to < |accounts|
    && to == (if up then at - 1 else at + 1)
    && accounts[at].number == number && order[to] == number && order[at] == accounts[to].number
    && forall k | 0 <= k < |accounts| && k != at && k != to :: order[k] == accounts[k].number
  }

  /** A move only permutes, and it is refused exactly off the list and at the end it heads for. */
  lemma MoveIsPermutation(order: seq<nat>, number: nat, up: bool)
    ensures Moved(order, number, up).None? <==>
            number !in order || (if up then number == order[0] else number !in order[..|order| - 1])
    ensures Moved(order, number, up).Some? ==> multiset(Moved(order, number, up).value) == multiset(order)
  {
    var p := Position(order, number);
    if p.Some? {
      assert p.value + 1 < |order| ==> order[p.value] == order[..|order| - 1][p.value];
      assert p.value + 1 == |order| ==> order[..p.value] == order[..|order| - 1];
      assert p.value > 0 ==> order[..p.value][0] == order[0];
    }
  }

  /** In an order without repeats, the opposite move brings the old order back. */
  lemma OppositeMoveUndoes(order: seq<nat>, number: nat, up: bool)
    requires Distinct(order) && Moved(order, number, up).Some?
    ensures Distinct(Moved(order, number, up).value)
    ensures Moved(Moved(order, number, up).value, number, !up) == Some(order)
  {
    var at := Position(order, number).value;
    var to := if up then at - 1 else at + 1;
    var next := Moved(order, number, up).value;
    assert next == Swapped(order, at, to) && next[to] == number;
    PositionAt(next, to);
    assert Swapped(next, to, at) == order;
  }

  datatype Move = Move(number: nat, up: bool)

  /** The order after `moves`, each of which must be taken. */
  function Play(order: seq<nat>, moves: seq<Move>): Option<seq<nat>>
    decreases |moves|
  {
    if moves == [] then Some(order)
    else
      var next := Moved(order, moves[0].number, moves[0].up);
      if next.None? then None else Play(next.value, moves[1..])
  }

  lemma {:induction false} PlayJoins(order: seq<nat>, first: seq<Move>, second: seq<Move>)
    requires Play(order, first).Some?
    ensures Play(order, first + second) == Play(Play(order, first).value, second)
    decreases |first|
  {
    if first == [] {
      assert first + second == second;
    } else {
      assert (first + second)[1..] == first[1..] + second;
      PlayJoins(Moved(order, first[0].number, first[0].up).value, first[1..], second);
    }
  }

  /** Moves that bring the account at `from` up to `to` and leave everything before `to` alone. */
  lemma {:induction false} LiftByMoves(order: seq<nat>, from: nat, to: nat) returns (moves: seq<Move>, lifted: seq<nat>)
    requires Distinct(order) && to <= from < |order|
    ensures Play(order, moves) == Some(lifted)
    ensures Distinct(lifted) && |lifted| == |order| && multiset(lifted) == multiset(order)
    ensures lifted[to] == order[from] && lifted[..to] == order[..to]
    decreases from - to
  {
    if from == to {
      moves, lifted := [], order;
    } else {
      PositionAt(order, from);
      MoveIsPermutation(order, order[from], true);
      OppositeMoveUndoes(order, order[from], true);
      var next := Moved(order, order[from], true).value;
      assert next[..to] == order[..to];
      var rest;
      rest, lifted := LiftByMoves(next, from - 1, to);
      moves := [Move(order[from], true)] + rest;
      assert moves[1..] == rest;
    }
  }

  lemma NextIsLater(order: seq<nat>, goal: seq<nat>, done: nat)
    requires multiset(order) == multiset(goal) && |order| == |goal| && done < |goal| && order[..done] == goal[..done]
    ensures exists p :: done <= p < |order| && order[p] == goal[done]
  {
    assert order == order[..done] + order[done..] && goal == goal[..done] + goal[done..];
    assert multiset(order) == multiset(order[..done]) + multiset(order[done..]);
    assert multiset(goal) == multiset(goal[..done]) + multiset(goal[done..]);
    var x := goal[done];
    assert goal[done..][0] == x;
    assert x in multiset(goal[done..]);
    assert multiset(order)[x] == multiset(goal)[x];
    assert x in multiset(order[done..]);
    var k :| 0 <= k < |order[done..]| && order[done..][k] == x;
    assert order[done + k] == x;
  }

  lemma {:induction false} ReachFrom(order: seq<nat>, goal: seq<nat>, done: nat) returns (moves: seq<Move>)
    requires Distinct(order) && multiset(order) == multiset(goal) && |order| == |goal|
    requires done <= |goal| && order[..done] == goal[..done]
    ensures Play(order, moves) == Some(goal)
    decreases |goal| - done
  {
    if done == |goal| {
      moves := [];
      assert order == order[..done] && goal == goal[..done];
    } else {
      NextIsLater(order, goal, done);
      var p :| done <= p < |order| && order[p] == goal[done];
      var first, next := LiftByMoves(order, p, done);
      assert next[..done + 1] == goal[..done + 1];
      var rest := ReachFrom(next, goal, done + 1);
      moves := first + rest;
      PlayJoins(order, first, rest);
    }
  }

  /** Every order of the same accounts is reached by some moves. */
  lemma EveryOrderIsReachable(order: seq<nat>, goal: seq<nat>)
    requires Distinct(order) && multiset(order) == multiset(goal)
    ensures exists moves :: Play(order, moves) == Some(goal)
  {
    assert |order| == |multiset(order)| == |multiset(goal)| == |goal|;
    var moves := ReachFrom(order, goal, 0);
  }
}
