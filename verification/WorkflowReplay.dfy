/**
 The action log as a record: folding it over the definition gives back the status of the
 instance, and its step too when the reject targets within each number agree.
 */
module WorkflowReplay {
  import opened Wrappers
  import opened Timing
  import opened WorkflowSteps
  import opened WorkflowInstances

  /**
   What each accepted request adds to the log: one row, naming the step the instance was on, the
   caller (or the system) and the status it had. The new status a row records is the resulting
   one in every case but the final approval, whose row still says pending.
   */
  lemma OneRowPerRequest(c: Chain, i: Instance, op: Op)
    requires Decide(c, i, op).Ok?
    ensures var j := Do(c, i, op).value;
            && |j.log| == |i.log| + 1 && j.log[..|i.log|] == i.log
            && var row := Last(j.log);
               && row.stepNumber == i.current
               && row.actor == (if !op.DoEscalate? then op.actor
                                else if op.caller.Some? then op.caller.value
                                else SYSTEM_ACTOR_ID)
               && (!op.DoComment? ==> row.oldStatus == Some(i.status) && row.newStatus.Some?)
               && (!op.DoComment? ==>
                   (row.newStatus == Some(j.status) <==> !(op.DoApprove? && NextNumber(c, i.current).None?)))
               && (op.DoDelegate? <==> row.delegatedTo.Some?) && (op.DoDelegate? ==> row.delegatedTo == Some(op.to))
  {
    var d := Decide(c, i, op);
    assert Last(Do(c, i, op).value.log) == Entry(i, op, d.value);
    if op.DoApprove? {
      OneApprovalMovesOn(c, i, op.actor, op.role, op.now);
    }
  }

  datatype Position = Position(status: Status, current: int)

  function PositionOf(i: Instance): Position {
    Position(i.status, i.current)
  }

  /** The first configured reject target of a group. */
  function ReturnTarget(group: seq<Step>): Option<int> {
    if group == [] then None
    else if group[0].rejectTo.Some? then group[0].rejectTo
    else ReturnTarget(group[1..])
  }

  /** What one log row says about the position; the definition supplies where approvals and returns lead. */
  function ReplayRow(c: Chain, p: Position, a: Action): Position {
    match a.kind
    case Approve =>
      (match NextNumber(c, a.stepNumber)
       case None => p.(status := Approved)
       case Some(n) => Position(Pending, n))
    case Reject =>
      if a.newStatus != Some(Pending) then p.(status := Rejected)
      else
        (match ReturnTarget(At(c, a.stepNumber))
         case None => p
         case Some(n) => Position(Pending, n))
    case Cancel => p.(status := Cancelled)
    case _ => p
  }

  function Replay(c: Chain, log: seq<Action>): Position
    requires FirstNumber(c).Some?
  {
    if log == [] then Position(Pending, FirstNumber(c).value)
    else ReplayRow(c, Replay(c, log[..|log| - 1]), log[|log| - 1])
  }

  /** Non-null reject targets within one number agree. */
  predicate TargetsAgree(c: Chain) {
    forall s, t | s in c.steps && t in c.steps && s.number == t.number
                  && Applies(s, c.amount) && Applies(t, c.amount) ::
      s.rejectTo.Some? && t.rejectTo.Some? ==> s.rejectTo == t.rejectTo
  }

  lemma {:induction false} ReturnTargetMember(group: seq<Step>)
    ensures ReturnTarget(group).Some? <==> exists s :: s in group && s.rejectTo.Some?
    ensures ReturnTarget(group).Some? ==> exists s :: s in group && s.rejectTo == ReturnTarget(group)
  {
    if group == [] {
    } else {
      ReturnTargetMember(group[1..]);
      if group[0].rejectTo.Some? {
        assert group[0] in group;
      }
      assert forall s :: s in group <==> s == group[0] || s in group[1..];
    }
  }

  lemma ReplayAppend(c: Chain, log: seq<Action>, a: Action)
    requires FirstNumber(c).Some?
    ensures Replay(c, log + [a]) == ReplayRow(c, Replay(c, log), a)
  {
    assert (log + [a])[..|log|] == log;
  }

  /** One request: the replayed status follows, and so does the step when the return target is the logged group's. */
  lemma ReplayFollows(c: Chain, i: Instance, p: Position, op: Op)
    requires Decide(c, i, op).Ok?
    requires p.status == i.status
    ensures var m := Decide(c, i, op).value;
            var q := ReplayRow(c, p, Entry(i, op, m));
            && q.status == Commit(c, i, op, m).status
            && (p.current == i.current ==>
                (q.current == Commit(c, i, op, m).current <==>
                 (op.DoReject? && m.Enter? ==> ReturnTarget(At(c, i.current)) == Some(m.number))))
  {
    var m := Decide(c, i, op).value;
    if op.DoApprove? {
      OneApprovalMovesOn(c, i, op.actor, op.role, op.now);
    } else if op.DoReject? && m.Enter? {
      FindActionableDecides(c, i, op.actor, op.role);
      ReturnTargetMember(At(c, i.current));
    }
  }

  /** Folding the log reproduces the status on every reachable state. */
  lemma {:induction false} ReplayGivesStatus(c: Chain, now: Time, ops: seq<Op>)
    requires FirstNumber(c).Some?
    ensures var i := Run(c, now, ops).inst; Replay(c, i.log).status == i.status
  {
    if ops == [] {
    } else {
      ReplayGivesStatus(c, now, ops[..|ops| - 1]);
      var i := Run(c, now, ops[..|ops| - 1]).inst;
      var d := Decide(c, i, Last(ops));
      if d.Ok? {
        ReplayFollows(c, i, Replay(c, i.log), Last(ops));
        ReplayAppend(c, i.log, Entry(i, Last(ops), d.value));
      }
    }
  }
}
