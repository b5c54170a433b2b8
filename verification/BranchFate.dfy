/**
 The confirm dialog for deleting a worktree: the decision it draws from the
 members' fates, the buttons it offers, and where the focus stands while
 previews, ticks and key presses come in any order.
 */
module BranchFate {
  import opened Common

  const U32_MAX: nat := 0xffff_ffff

  datatype Fate =
    | WillDelete(into: string)
    | KeptByDefault(uniqueCommits: Option<nat>)
    | Untouched
    | UnknownFate

  datatype Choice = DeleteAll | Choose(lostCommits: Option<nat>) | WorktreeOnlyChoice
  datatype Mode = Loading | Ready(choice: Choice)
  datatype Button = Cancel | KeepBranch | DeleteBranch | WorktreeOnly

  // ----- the decision

  /** Whether a member forces the keep or delete choice. */
  predicate NeedsChoice(fate: Fate) { fate.KeptByDefault? || fate.UnknownFate? }

  /** Whether what a delete loses of the member cannot be counted. */
  predicate Uncountable(fate: Fate) { fate.UnknownFate? || fate == KeptByDefault(None) }

  function Lost(fate: Fate): nat {
    if fate.KeptByDefault? && fate.uniqueCommits.Some? then fate.uniqueCommits.value else 0
  }

  /** The commits a delete loses, without a cap. */
  function TotalLost(fates: seq<Fate>): nat {
    if fates == [] then 0 else TotalLost(fates[..|fates| - 1]) + Lost(fates[|fates| - 1])
  }

  function Capped(n: nat): nat { if n > U32_MAX then U32_MAX else n }

  function LostCommits(fates: seq<Fate>): Option<nat> {
    if AnyUncountable(fates) then None else Some(Capped(TotalLost(fates)))
  }

  /** The saturating count: unknown exactly when a member is uncountable, else the true sum up to the cap. */
  method LostCommitCount(fates: seq<Fate>) returns (lost: Option<nat>)
    ensures lost == LostCommits(fates)
  {
    var total := 0;
    for i := 0 to |fates|
      invariant total == Capped(TotalLost(fates[..i]))
      invariant forall k | 0 <= k < i :: !Uncountable(fates[k])
    {
      assert fates[..i + 1][..i] == fates[..i];
      match fates[i] {
        case UnknownFate => return None;
        case KeptByDefault(commits) =>
          if commits.None? {
            return None;
          }
          total := if total + commits.value > U32_MAX then U32_MAX else total + commits.value;
        case WillDelete(_) =>
        case Untouched =>
      }
    }
    assert fates[..|fates|] == fates;
    lost := Some(total);
  }

  function DiscardChoice(fates: seq<Fate>): Choice {
    if AnyNeedsChoice(fates) then Choose(LostCommits(fates))
    else if AnyLanded(fates) then DeleteAll
    else WorktreeOnlyChoice
  }

  /** One button deletes everything exactly when a branch landed and every other landed or is left alone. */
  lemma DeleteAllIff(fates: seq<Fate>)
    ensures DiscardChoice(fates) == DeleteAll <==>
            && AnyLanded(fates)
            && (forall i | 0 <= i < |fates| :: fates[i].WillDelete? || fates[i] == Untouched)
  {
    if DiscardChoice(fates) == DeleteAll {
      forall i | 0 <= i < |fates| ensures fates[i].WillDelete? || fates[i] == Untouched {
        assert !NeedsChoice(fates[i]);
      }
    }
  }

  /** The dialog asks exactly when some branch is kept by default or cannot be read, and says what a delete loses. */
  lemma ChooseIff(fates: seq<Fate>)
    ensures DiscardChoice(fates).Choose? <==>
            exists i | 0 <= i < |fates| :: fates[i].KeptByDefault? || fates[i].UnknownFate?
    ensures DiscardChoice(fates).Choose? ==> DiscardChoice(fates).lostCommits == LostCommits(fates)
  {
    if i :| 0 <= i < |fates| && (fates[i].KeptByDefault? || fates[i].UnknownFate?) {
      assert NeedsChoice(fates[i]);
    }
  }

  /** Only the worktree is at stake exactly when every branch is left alone. */
  lemma WorktreeOnlyIff(fates: seq<Fate>)
    ensures DiscardChoice(fates) == WorktreeOnlyChoice <==> forall i | 0 <= i < |fates| :: fates[i] == Untouched
  {
    forall i | 0 <= i < |fates| ensures fates[i] == Untouched <==> !NeedsChoice(fates[i]) && !fates[i].WillDelete? {
    }
    ChooseIff(fates);
    DeleteAllIff(fates);
  }

  /** What one more branch adds to the loss: its own commits if it is kept by default, nothing otherwise. */
  lemma LossAdds(fates: seq<Fate>, fate: Fate)
    ensures TotalLost([]) == 0
    ensures fate.KeptByDefault? && fate.uniqueCommits.Some? ==>
              TotalLost(fates + [fate]) == TotalLost(fates) + fate.uniqueCommits.value
    ensures fate.WillDelete? || fate == Untouched ==> TotalLost(fates + [fate]) == TotalLost(fates)
  {
    assert (fates + [fate])[..|fates|] == fates;
  }

  /** The count is unknown exactly when a branch cannot be counted, and is the loss, or the largest count below it. */
  lemma LostCommitsIff(fates: seq<Fate>)
    ensures LostCommits(fates).None? <==>
            exists i | 0 <= i < |fates| :: fates[i] == UnknownFate || fates[i] == KeptByDefault(None)
    ensures LostCommits(fates).Some? ==>
              && LostCommits(fates).value <= TotalLost(fates) && LostCommits(fates).value <= 0xffff_ffff
              && (LostCommits(fates).value == TotalLost(fates) || LostCommits(fates).value == 0xffff_ffff)
  {
    if i :| 0 <= i < |fates| && (fates[i] == UnknownFate || fates[i] == KeptByDefault(None)) {
      assert Uncountable(fates[i]);
    }
  }

  lemma {:induction false} TotalLostDrops(a: seq<Fate>, p: nat)
    requires p < |a|
    ensures TotalLost(a) == TotalLost(Dropped(a, p)) + Lost(a[p])
  {
    var n := |a| - 1;
    if p == n {
      assert Dropped(a, p) == a[..n];
    } else {
      DroppedInit(a, p);
      TotalLostDrops(a[..n], p);
    }
  }

  lemma {:induction false} TotalLostIgnoresOrder(a: seq<Fate>, b: seq<Fate>)
    requires multiset(a) == multiset(b)
    ensures TotalLost(a) == TotalLost(b)
    decreases |b|
  {
    assert |multiset(a)| == |a| && |multiset(b)| == |b|;
    if b == [] {
    } else {
      var n := |b| - 1;
      var p := SameMembers(b, a, n);
      DroppedMultiset(b, n);
      DroppedMultiset(a, p);
      assert Dropped(b, n) == b[..n];
      TotalLostIgnoresOrder(Dropped(a, p), b[..n]);
      TotalLostDrops(a, p);
    }
  }

  lemma SameMembers(a: seq<Fate>, b: seq<Fate>, i: nat) returns (j: nat)
    requires multiset(a) == multiset(b) && i < |a|
    ensures j < |b| && b[j] == a[i]
  {
    assert a[i] in multiset(a);
    assert a[i] in b;
    j :| 0 <= j < |b| && b[j] == a[i];
  }

  predicate AnyNeedsChoice(fates: seq<Fate>) { exists i | 0 <= i < |fates| :: NeedsChoice(fates[i]) }
  predicate AnyUncountable(fates: seq<Fate>) { exists i | 0 <= i < |fates| :: Uncountable(fates[i]) }
  predicate AnyLanded(fates: seq<Fate>) { exists i | 0 <= i < |fates| :: fates[i].WillDelete? }

  lemma MembersCarry(a: seq<Fate>, b: seq<Fate>)
    requires multiset(a) == multiset(b)
    ensures AnyNeedsChoice(a) ==> AnyNeedsChoice(b)
    ensures AnyUncountable(a) ==> AnyUncountable(b)
    ensures AnyLanded(a) ==> AnyLanded(b)
  {
    if AnyNeedsChoice(a) {
      var i :| 0 <= i < |a| && NeedsChoice(a[i]);
      var j := SameMembers(a, b, i);
    }
    if AnyUncountable(a) {
      var i :| 0 <= i < |a| && Uncountable(a[i]);
      var j := SameMembers(a, b, i);
    }
    if AnyLanded(a) {
      var i :| 0 <= i < |a| && a[i].WillDelete?;
      var j := SameMembers(a, b, i);
    }
  }

  /** The decision and its count depend only on which fates the members have, not on their order. */
  lemma ChoiceIgnoresOrder(a: seq<Fate>, b: seq<Fate>)
    requires multiset(a) == multiset(b)
    ensures DiscardChoice(a) == DiscardChoice(b)
  {
    TotalLostIgnoresOrder(a, b);
    MembersCarry(a, b);
    MembersCarry(b, a);
  }

  // ----- the footer

  function ButtonsOf(mode: Mode): seq<Button> {
    match mode
    case Loading => [Cancel]
    case Ready(WorktreeOnlyChoice) => [Cancel, WorktreeOnly]
    case Ready(DeleteAll) => [Cancel, DeleteBranch]
    case Ready(Choose(_)) => [Cancel, KeepBranch, DeleteBranch]
  }

  predicate IsDanger(b: Button) { b == DeleteBranch || b == WorktreeOnly }

  function SafeButton(mode: Mode): Button {
    if mode.Ready? && mode.choice.Choose? then KeepBranch else Cancel
  }

  /** What a button answers for every branch; `None` cancels. */
  datatype Cleanup = KeepIt | DeleteIt

  function CleanupOf(b: Button): Option<Cleanup> {
    match b
    case Cancel => None
    case KeepBranch => Some(KeepIt)
    case WorktreeOnly => Some(KeepIt)
    case DeleteBranch => Some(DeleteIt)
  }

  /**
   The footer a preview leads to: Cancel always, keeping the branch exactly when
   some branch is kept by default or unknown, deleting it exactly when some branch
   is not left alone, and the worktree alone exactly when every branch is.
   */
  lemma FooterIff(fates: seq<Fate>)
    ensures var footer := ButtonsOf(Ready(DiscardChoice(fates)));
            && footer[0] == Cancel && Distinct(footer)
            && (KeepBranch in footer <==>
                  exists i | 0 <= i < |fates| :: fates[i].KeptByDefault? || fates[i].UnknownFate?)
            && (DeleteBranch in footer <==> exists i | 0 <= i < |fates| :: fates[i] != Untouched)
            && (WorktreeOnly in footer <==> forall i | 0 <= i < |fates| :: fates[i] == Untouched)
  {
    ChooseIff(fates);
    WorktreeOnlyIff(fates);
  }

  /**
   The safe button is offered and deletes no branch; of the others only Cancel is
   not destructive. No branch is deleted but by a destructive button.
   */
  lemma SafeIff(mode: Mode, b: Button)
    requires b in ButtonsOf(mode)
    ensures SafeButton(mode) in ButtonsOf(mode) && CleanupOf(SafeButton(mode)) != Some(DeleteIt)
    ensures IsDanger(b) <==> b != Cancel && b != SafeButton(mode)
    ensures CleanupOf(b) == Some(DeleteIt) ==> IsDanger(b)
    ensures CleanupOf(b).None? <==> b == Cancel
    ensures SafeButton(mode) == if KeepBranch in ButtonsOf(mode) then KeepBranch else Cancel
  {
  }

  /** The button after (or before) `focused`, wrapping round the footer. */
  function Stepped(buttons: seq<Button>, focused: Button, forward: bool): (b: Button)
    requires focused in buttons
    ensures b in buttons
  {
    buttons[Moved(Position(buttons, focused).value, |buttons|, forward)]
  }

  /** Taking the remainder of a number below twice the size takes the size off at most once. */
  lemma Wraps(n: nat, size: nat)
    requires n < 2 * size
    ensures n % size == if n < size then n else n - size
  {
    var q := n / size;
    assert q * size <= n;
    assert q >= 2 ==> q * size >= 2 * size;
    assert q == 0 || q == 1;
  }

  lemma WrapUndo(at: nat, count: nat)
    requires at < count
    ensures ((at + 1) % count + count - 1) % count == at && ((at + count - 1) % count + 1) % count == at
  {
    Wraps(at + 1, count);
    Wraps((at + 1) % count + count - 1, count);
    Wraps(at + count - 1, count);
    Wraps((at + count - 1) % count + 1, count);
  }

  /** The place one move leads to. */
  function Moved(at: nat, count: nat, forward: bool): (to: nat)
    requires at < count
    ensures to < count
  {
    if forward then (at + 1) % count else (at + count - 1) % count
  }

  lemma SteppedAt(buttons: seq<Button>, at: nat, forward: bool)
    requires Distinct(buttons) && at < |buttons|
    ensures Stepped(buttons, buttons[at], forward) == buttons[Moved(at, |buttons|, forward)]
  {
    PositionAt(buttons, at);
  }

  lemma StepsUndo(buttons: seq<Button>, at: nat, forward: bool)
    requires Distinct(buttons) && at < |buttons|
    ensures Stepped(buttons, Stepped(buttons, buttons[at], forward), !forward) == buttons[at]
  {
    SteppedAt(buttons, at, forward);
    SteppedAt(buttons, Moved(at, |buttons|, forward), !forward);
    WrapUndo(at, |buttons|);
  }

  /** Forward and backward moves undo each other, on every footer the dialog shows. */
  lemma MovesUndo(mode: Mode, focused: Button, forward: bool)
    requires focused in ButtonsOf(mode)
    ensures Stepped(ButtonsOf(mode), Stepped(ButtonsOf(mode), focused, forward), !forward) == focused
  {
    var at := Position(ButtonsOf(mode), focused).value;
    StepsUndo(ButtonsOf(mode), at, forward);
  }

  /** The open dialog; `moved` remembers whether the user moved the focus since the buttons last changed. */
  class DeleteWorktreeConfirm {
    const sessionId: string
    const deadline: int
    var members: Option<seq<Fate>>
    var timedOut: bool
    var focused: Button
    ghost var moved: bool

    function ModeNow(): Mode
      reads this
    {
      if timedOut then Ready(Choose(None))
      else if members.None? then Loading
      else Ready(DiscardChoice(members.value))
    }

    function Buttons(): seq<Button>
      reads this
    {
      ButtonsOf(ModeNow())
    }

    /** The focused button is offered, and a destructive one is focused only by the user's own move. */
    ghost predicate Valid()
      reads this
    {
      focused in Buttons() && (IsDanger(focused) ==> moved)
    }

    constructor (sessionId: string, now: int, timeout: int)
      ensures Valid() && ModeNow() == Loading && focused == Cancel && !moved
      ensures this.sessionId == sessionId && deadline == now + timeout
    {
      this.sessionId, deadline := sessionId, now + timeout;
      members, timedOut, focused, moved := None, false, Cancel, false;
    }

    /** Resets the focus after a change of the button set. */
    method RefocusIfChanged(before: seq<Button>)
      modifies `focused, `moved
      ensures focused ==
              if Buttons() != before || old(focused) !in Buttons() then SafeButton(ModeNow()) else old(focused)
      ensures moved == (old(moved) && Buttons() == before)
    {
      var now := Buttons();
      if now != before || focused !in now {
        focused := SafeButton(ModeNow());
      }
      moved := moved && now == before;
    }

    method OnPreview(session: string, fates: seq<Fate>) returns (own: bool)
      requires Valid()
      modifies this
      ensures Valid() && own == (session == sessionId)
      ensures own ==> ModeNow() == Ready(DiscardChoice(fates))
      ensures moved == (old(moved) && Buttons() == old(Buttons()))
      ensures Buttons() != old(Buttons()) ==> focused == SafeButton(ModeNow())
      ensures Buttons() == old(Buttons()) ==> focused == old(focused)
      ensures !own ==> members == old(members) && timedOut == old(timedOut)
    {
      if session != sessionId {
        return false;
      }
      var before := Buttons();
      members, timedOut := Some(fates), false;
      RefocusIfChanged(before);
      own := true;
    }

    /** The clock: an unanswered dialog offers the explicit choice once its time is up. */
    method Tick(now: int) returns (fell: bool)
      requires Valid()
      modifies this
      ensures Valid() && fell == (old(members).None? && deadline <= now)
      ensures fell ==> ModeNow() == Ready(Choose(None))
      ensures moved == (old(moved) && Buttons() == old(Buttons()))
      ensures Buttons() != old(Buttons()) ==> focused == SafeButton(ModeNow())
      ensures Buttons() == old(Buttons()) ==> focused == old(focused)
      ensures !fell ==> members == old(members) && timedOut == old(timedOut)
    {
      if members.Some? || now < deadline {
        return false;
      }
      var before := Buttons();
      members, timedOut := Some([]), true;
      RefocusIfChanged(before);
      fell := true;
    }

    /** Pressing the focused button: a branch is deleted only where the user moved since the buttons changed. */
    method Press() returns (cleanup: Option<Cleanup>)
      requires Valid()
      ensures cleanup == CleanupOf(focused)
      ensures cleanup == Some(DeleteIt) ==> moved && DeleteBranch in Buttons()
      ensures !moved ==> cleanup != Some(DeleteIt) && (cleanup.Some? ==> KeepBranch in Buttons())
    {
      SafeIff(ModeNow(), focused);
      cleanup := CleanupOf(focused);
    }

    method MoveFocus(forward: bool)
      modifies `focused, `moved
      ensures Valid() && moved && Buttons() == old(Buttons())
      ensures focused ==
              if old(focused) in Buttons() then Stepped(Buttons(), old(focused), forward) else SafeButton(ModeNow())
    {
      var buttons := Buttons();
      var at := Position(buttons, focused);
      if at.None? {
        focused := SafeButton(ModeNow());
      } else {
        var count := |buttons|;
        var next := if forward then (at.value + 1) % count else (at.value + count - 1) % count;
        focused := buttons[next];
      }
      moved := true;
    }
  }
}
