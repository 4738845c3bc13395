/**
 Concrete definitions and runs: one for each place where the code does something else than its
 documentation says. The exact conditions are in WorkflowVisits, WorkflowReplay, WorkflowReturns and WorkflowLog.
 */
module WorkflowExamples {
  import opened Wrappers
  import opened Identities
  import opened WorkflowSteps
  import opened WorkflowInstances
  import opened WorkflowVisits
  import opened WorkflowReplay
  import opened WorkflowAccess
  import opened WorkflowReach
  import opened WorkflowReturns
  import opened WorkflowLog

  /** A step for one user, without bounds, timeout or escalation. */
  function UserStep(id: StepId, number: int, user: UserId, rejectTo: Option<int>): Step {
    Step(id, number, SpecificUser, Some(user), None, None, None, None, false, None, None, rejectTo)
  }

  /* ---- One step ---- */

  /** A definition of one step for user 10, which a rejection leaves for `rejectTo`. */
  function Single(rejectTo: Option<int>): Chain {
    Chain([UserStep(1, 1, 10, rejectTo)], None)
  }

  lemma SingleGroup(rejectTo: Option<int>)
    ensures FirstNumber(Single(rejectTo)) == Some(1)
    ensures forall n :: At(Single(rejectTo), n) == if n == 1 then Single(rejectTo).steps else []
    ensures ChainSchemaValid(Single(rejectTo))
  {
    var s := UserStep(1, 1, 10, rejectTo);
    assert [s] + [] == [s];
    forall n ensures At(Single(rejectTo), n) == if n == 1 then [s] else [] {
      GroupCons(s, [], n, None);
    }
    NextDoor(Single(rejectTo), 0);
  }

  /** The log row of a final approval says pending, though the instance is approved. */
  lemma FinalApprovalRowSaysPending(c: Chain, op: Op)
    requires c == Single(None) && op == DoApprove(10, None, 0)
    ensures FirstNumber(c).Some?
    ensures var i := Run(c, 0, [op]).inst;
            i.status == Approved && i.log == [Action(1, Approve, 10, Some(Pending), Some(Pending), None)]
  {
    SingleGroup(None);
    LeaderFound(c, Opening(c, 0).inst);
    OneApprovalMovesOn(c, Opening(c, 0).inst, op.actor, op.role, op.now);
    NextNumberIsLeast(c, 1);
    RunOne(c, 0, op);
  }

  /** A rejection to a number nothing carries leaves a pending instance that nobody can decide. */
  lemma RejectionStrands(c: Chain, op: Op)
    requires c == Single(Some(99)) && op == DoReject(10, None, 0)
    ensures FirstNumber(c).Some? && ChainSchemaValid(c)
    ensures var i := Run(c, 0, [op]).inst;
            i.status == Pending && i.current == 99 && forall user, role :: !InInbox(c, i, user, role)
  {
    SingleGroup(Some(99));
    LeaderFound(c, Opening(c, 0).inst);
    RunOne(c, 0, op);
    SomeoneCanActExactlyWhenLive(c, Run(c, 0, [op]).inst);
  }

  /* ---- A parallel group ---- */

  /** A step for holders of one role, without bounds, timeout or escalation. */
  function RoleStep(id: StepId, number: int, role: RoleId, rejectTo: Option<int>): Step {
    Step(id, number, SpecificRole, None, Some(role), None, None, None, false, None, None, rejectTo)
  }

  /** Two steps at number 1, for roles 1 and 2, returning to different numbers. */
  function Forked(): Chain {
    Chain([RoleStep(1, 1, 1, Some(1)), RoleStep(2, 1, 2, Some(2)), RoleStep(3, 2, 1, None)], None)
  }

  lemma PairAndOther(a: Step, b: Step, other: Step, n: int, amount: Option<int>)
    requires a.number == b.number == n != other.number && Applies(a, amount) && Applies(b, amount)
    ensures Group([a, b, other], n, amount) == [a, b]
  {
    assert [a] + [b, other] == [a, b, other] && [b] + [other] == [b, other] && [other] + [] == [other];
    GroupCons(a, [b, other], n, amount);
    GroupCons(b, [other], n, amount);
    GroupCons(other, [], n, amount);
  }

  lemma ForkedGroup()
    ensures FirstNumber(Forked()) == Some(1)
    ensures At(Forked(), 1) == [RoleStep(1, 1, 1, Some(1)), RoleStep(2, 1, 2, Some(2))]
    ensures ChainSchemaValid(Forked())
  {
    var a, b, other := RoleStep(1, 1, 1, Some(1)), RoleStep(2, 1, 2, Some(2)), RoleStep(3, 2, 1, None);
    PairAndOther(a, b, other, 1, None);
    assert Live(Forked(), 0 + 1);
    NextDoor(Forked(), 0);
  }

  /** Holding role 1, user 7 acts through the first step; holding role 2, through the second. */
  lemma ForkedFound(role: RoleId)
    requires role == 1 || role == 2
    ensures FirstNumber(Forked()).Some?
    ensures FindActionable(Forked(), Opening(Forked(), 0).inst, 7, Some(role)) ==
            Some(RoleStep(role, 1, role, Some(role)))
  {
    ForkedGroup();
    var group := At(Forked(), 1);
    assert Delegates([], 1) == {};
    FirstWhereAt(group, ByRight(false, 7, Some(role)), role - 1);
  }

  /** On a fresh instance this approval is accepted, passes the coded group test and fails the documented one. */
  ghost predicate SkipsAnApproval(c: Chain, op: Op) {
    && FirstNumber(c).Some? && ChainSchemaValid(c)
    && var i := Opening(c, 0).inst;
       && op.DoApprove? && Decide(c, i, op).Ok?
       && AllSatisfied(c, i.current, [Entry(i, op, Stay)])
       && !GroupApproved(c, i.current, 0, [Entry(i, op, Stay)], [NoteOf(c, i, op)])
  }

  /**
   The documentation completes a parallel group when every step in it is approved. Here one approval
   passes the coded test, and the second step of the group has none.
   */
  lemma OneApprovalCompletesAGroup(op: Op)
    requires op == DoApprove(7, Some(1), 0)
    ensures SkipsAnApproval(Forked(), op)
  {
    ForkedGroup();
    ForkedFound(1);
    var c, i, second := Forked(), Opening(Forked(), 0).inst, At(Forked(), 1)[1];
    OneApprovalMovesOn(c, i, op.actor, op.role, op.now);
    var rows, notes := [Entry(i, op, Stay)], [NoteOf(c, i, op)];
    assert i.log + rows == rows;
    assert second in At(c, 1) && notes[0].via != Some(second);
  }

  /** User 7, holding role 1 or 2, rejects at number 1. */
  lemma ForkedRejection(role: RoleId)
    requires role == 1 || role == 2
    ensures FirstNumber(Forked()).Some?
    ensures var i := Run(Forked(), 0, [DoReject(7, Some(role), 0)]).inst;
            i.current == role && i.log == [Action(1, Reject, 7, Some(Pending), Some(Pending), None)]
  {
    ForkedGroup();
    ForkedFound(role);
    var op := DoReject(7, Some(role), 0);
    RunOne(Forked(), 0, op);
    assert Decide(Forked(), Opening(Forked(), 0).inst, op) == Ok(Enter(role));
  }

  /** Two runs on one definition that the log cannot tell apart, standing on different steps. */
  ghost predicate Confusable(c: Chain, ops: seq<Op>, ops': seq<Op>) {
    && FirstNumber(c).Some? && ChainSchemaValid(c)
    && Run(c, 0, ops).inst.log == Run(c, 0, ops').inst.log
    && Run(c, 0, ops).inst.current != Run(c, 0, ops').inst.current
  }

  /** What user 7 does on the forked definition, holding one role or the other. */
  function Rejecting(role: RoleId): seq<Op> {
    [DoReject(7, Some(role), 0)]
  }

  lemma ForkedConfusable(r: RoleId, s: RoleId)
    requires (r == 1 || r == 2) && (s == 1 || s == 2) && r != s
    ensures Confusable(Forked(), Rejecting(r), Rejecting(s))
  {
    ForkedRejection(r);
    ForkedRejection(s);
    ForkedGroup();
  }

  /**
   One user holding either of two roles rejects through steps with different targets, and the two
   logs are the same: here no reading of the log gives the step.
   */
  lemma SameLogDifferentStep()
    ensures exists c, ops, ops' :: Confusable(c, ops, ops')
  {
    ForkedConfusable(1, 2);
  }

  /** Two steps at number 1, for users 10 and 20, returning to different numbers. */
  function TwoUsers(): Chain {
    Chain([UserStep(1, 1, 10, Some(1)), UserStep(2, 1, 20, Some(2)), UserStep(3, 2, 10, None)], None)
  }

  lemma TwoUsersGroup()
    ensures FirstNumber(TwoUsers()) == Some(1) && ChainSchemaValid(TwoUsers())
    ensures At(TwoUsers(), 1) == [UserStep(1, 1, 10, Some(1)), UserStep(2, 1, 20, Some(2))]
  {
    var a, b, other := UserStep(1, 1, 10, Some(1)), UserStep(2, 1, 20, Some(2)), UserStep(3, 2, 10, None);
    PairAndOther(a, b, other, 1, None);
    assert Live(TwoUsers(), 0 + 1);
    NextDoor(TwoUsers(), 0);
  }

  /**
   Here the targets of one number differ, so folding the targets alone goes wrong, and yet the log determines
   the step.
   */
  lemma AuthorsTellTheStep()
    ensures FirstNumber(TwoUsers()).Some?
    ensures !ReturnsLogged(TwoUsers()) && LogDetermines(TwoUsers(), 0)
  {
    var c := TwoUsers();
    TwoUsersGroup();
    var s := At(c, 1)[1];
    assert s in c.steps && FirstForApprover(At(c, 1), 1);
    assert CanReturn(c, s) && ReturnTarget(At(c, 1)) != s.rejectTo;
    forall n ensures !Ambiguous(At(c, n)) {
      NoRolesNoAmbiguity(At(c, n));
    }
    LogDeterminesExactly(c, 0);
  }

  /* ---- Rework ---- */

  /** Step 1 for user 10, step 2 for user 20 with rework to step 1. */
  function Rework(): Chain {
    Chain([UserStep(1, 1, 10, None), UserStep(2, 2, 20, Some(1))], None)
  }

  lemma TwoSingletons(a: Step, b: Step, amount: Option<int>)
    requires a.number != b.number && Applies(a, amount) && Applies(b, amount)
    ensures Group([a, b], a.number, amount) == [a] && Group([a, b], b.number, amount) == [b]
  {
    assert [a] + [b] == [a, b] && [b] + [] == [b];
    GroupCons(a, [b], a.number, amount);
    GroupCons(b, [], a.number, amount);
    GroupCons(a, [b], b.number, amount);
    GroupCons(b, [], b.number, amount);
  }

  lemma ReworkGroups()
    ensures FirstNumber(Rework()) == Some(1) && NextNumber(Rework(), 1) == Some(2)
    ensures At(Rework(), 1) == [UserStep(1, 1, 10, None)] && At(Rework(), 2) == [UserStep(2, 2, 20, Some(1))]
    ensures ChainSchemaValid(Rework())
  {
    TwoSingletons(UserStep(1, 1, 10, None), UserStep(2, 2, 20, Some(1)), None);
    NextDoor(Rework(), 0);
    NextDoor(Rework(), 1);
  }

  /** User 10 delegates step 1 to user 99 and approves it. */
  lemma ReworkApproved(first: Op, second: Op)
    requires first == DoDelegate(10, None, 99) && second == DoApprove(10, None, 0)
    ensures FirstNumber(Rework()).Some?
    ensures var i := Run(Rework(), 0, [first] + [second]).inst;
            i.status == Pending && i.current == 2 && 99 in Delegates(i.log, 1)
  {
    var c := Rework();
    ReworkGroups();
    LeaderFound(c, Opening(c, 0).inst);
    RunOne(c, 0, first);
    var i := Run(c, 0, [first]).inst;
    LeaderFound(c, i);
    OneApprovalMovesOn(c, i, second.actor, second.role, second.now);
    RunMore(c, 0, [first], second);
    var j := Run(c, 0, [first] + [second]).inst;
    assert j.log[0] in j.log;
  }

  /**
   The documentation scopes a delegation to the current pass over a step. The code does not: when
   user 20 then returns the instance, the delegate of the first pass may decide in the second.
   */
  lemma DelegationOutlivesItsPass(ops: seq<Op>)
    requires ops == [DoDelegate(10, None, 99)] + [DoApprove(10, None, 0)] + [DoReject(20, None, 0)]
    ensures FirstNumber(Rework()).Some? && ChainSchemaValid(Rework())
    ensures Run(Rework(), 0, ops).inst.current == 1 && Outlived(Rework(), 0, ops, 99, None)
  {
    var c, back := Rework(), DoReject(20, None, 0);
    var first, second := DoDelegate(10, None, 99), DoApprove(10, None, 0);
    ReworkGroups();
    ReworkApproved(first, second);
    var i := Run(c, 0, [first] + [second]).inst;
    LeaderFound(c, i);
    RunMore(c, 0, [first] + [second], back);
    OtherRowsDelegateNothing(i.log, Entry(i, back, Enter(1)));
    OldDelegateActs(c, 0, [first] + [second], ops, 1, 99, None);
  }
}
