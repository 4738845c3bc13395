/**
 Which step of a parallel group anyone can act through at all, and which step numbers a run can
 stand on: both as conditions on the definition that can be evaluated before it is activated,
 and both proved to be exactly what the engine's search and its runs give.
 */
module WorkflowReach {
  import opened Wrappers
  import opened Identities
  import opened Timing
  import opened WorkflowSteps
  import opened WorkflowInstances
  import opened WorkflowVisits
  import opened WorkflowAccess

  /* ---- Acting through a given step of a group ---- */

  predicate NamesUser(s: Step, user: Option<UserId>) {
    s.approverType == SpecificUser && s.specificUser == user
  }

  predicate NamesRole(s: Step, role: Option<RoleId>) {
    s.approverType == SpecificRole && s.requiredRole == role
  }

  /** The k-th step names an approver, and no earlier step has the same one. */
  predicate FirstForApprover(group: seq<Step>, k: nat)
    requires k < |group|
  {
    if group[k].approverType == SpecificUser then
      group[k].specificUser.Some? && forall j | 0 <= j < k :: !NamesUser(group[j], group[k].specificUser)
    else
      forall j | 0 <= j < k :: !NamesRole(group[j], group[k].requiredRole)
  }

  /** The k-th step escalates to a user no step of the group names and no earlier step escalates to. */
  predicate FirstForTargetUser(group: seq<Step>, k: nat)
    requires k < |group|
  {
    var user := group[k].escalateToUser;
    && user.Some?
    && (forall s | s in group :: !NamesUser(s, user))
    && forall j | 0 <= j < k :: group[j].escalateToUser != user
  }

  /** The k-th step escalates to a role no step of the group requires and no earlier step escalates to. */
  predicate FirstForTargetRole(group: seq<Step>, k: nat)
    requires k < |group|
  {
    var role := group[k].escalateToRole;
    && role.Some?
    && (forall s | s in group :: !NamesRole(s, role))
    && forall j | 0 <= j < k :: group[j].escalateToRole != role
  }

  /** Someone can act through this step of the group, rather than through an earlier one. */
  predicate ActedThrough(group: seq<Step>, s: Step) {
    exists k: nat | k < |group| ::
      && group[k] == s
      && (k == 0 || FirstForApprover(group, k) || FirstForTargetUser(group, k) || FirstForTargetRole(group, k))
  }

  function Beyond(id: Option<nat>): nat {
    if id.Some? then id.value + 1 else 0
  }

  /** A user no step of the group mentions. */
  function FreshUser(group: seq<Step>): (u: UserId)
    ensures forall s :: s in group ==> Beyond(s.specificUser) <= u && Beyond(s.escalateToUser) <= u
  {
    if group == [] then 0
    else Beyond(group[0].specificUser) + Beyond(group[0].escalateToUser) + FreshUser(group[1..])
  }

  /** A role no step of the group mentions. */
  function FreshRole(group: seq<Step>): (r: RoleId)
    ensures forall s :: s in group ==> Beyond(s.requiredRole) <= r && Beyond(s.escalateToRole) <= r
  {
    if group == [] then 0
    else Beyond(group[0].requiredRole) + Beyond(group[0].escalateToRole) + FreshRole(group[1..])
  }

  lemma FoundByRight(group: seq<Step>, k: nat) returns (user: UserId, role: Option<RoleId>)
    requires k < |group| && FirstForApprover(group, k)
    ensures FindIn(group, false, false, user, role) == Some(group[k])
  {
    if group[k].approverType == SpecificUser {
      user, role := group[k].specificUser.value, Some(FreshRole(group));
    } else {
      user, role := FreshUser(group), group[k].requiredRole;
    }
    forall j | 0 <= j < k ensures !ByRight(false, user, role)(group[j]) {
      assert group[j] in group;
    }
    FirstWhereAt(group, ByRight(false, user, role), k);
  }

  lemma FoundByTarget(group: seq<Step>, k: nat) returns (user: UserId, role: Option<RoleId>)
    requires k < |group| && (FirstForTargetUser(group, k) || FirstForTargetRole(group, k))
    ensures FindIn(group, false, true, user, role) == Some(group[k])
  {
    if FirstForTargetUser(group, k) {
      user, role := group[k].escalateToUser.value, Some(FreshRole(group));
    } else {
      user, role := FreshUser(group), group[k].escalateToRole;
    }
    forall s | s in group ensures !ByRight(false, user, role)(s) {
      assert !NamesUser(s, Some(user)) && !NamesRole(s, role);
    }
    forall j | 0 <= j < k ensures !ByEscalation(user, role)(group[j]) {
      assert group[j] in group;
    }
    FirstWhereAt(group, ByEscalation(user, role), k);
  }

  lemma {:induction false} FirstWhereIndex(group: seq<Step>, cond: Step -> bool) returns (k: nat)
    requires FirstWhere(group, cond).Some?
    ensures k < |group| && FirstWhere(group, cond) == Some(group[k]) && cond(group[k])
    ensures forall j :: 0 <= j < k ==> !cond(group[j])
  {
    if cond(group[0]) {
      k := 0;
    } else {
      var rest := FirstWhereIndex(group[1..], cond);
      k := rest + 1;
    }
  }

  /** The first step a user holds in their own right is the first one with that approver. */
  lemma RightIsFirst(group: seq<Step>, k: nat, user: UserId, role: Option<RoleId>)
    requires k < |group| && Configured(group[k], user, role)
    requires forall j :: 0 <= j < k ==> !Configured(group[j], user, role)
    ensures FirstForApprover(group, k)
  {
  }

  /** The first step escalating to a user with no right of their own is the first one with that target. */
  lemma TargetIsFirst(group: seq<Step>, k: nat, user: UserId, role: Option<RoleId>)
    requires k < |group| && EscalatesTo(group[k], user, role)
    requires forall s :: s in group ==> !Configured(s, user, role)
    requires forall j :: 0 <= j < k ==> !EscalatesTo(group[j], user, role)
    ensures FirstForTargetUser(group, k) || FirstForTargetRole(group, k)
  {
    if group[k].escalateToUser == Some(user) {
      assert forall s :: s in group && NamesUser(s, Some(user)) ==> Configured(s, user, role);
    } else {
      assert forall s :: s in group && NamesRole(s, role) ==> Configured(s, user, role);
    }
  }

  /** Whatever the search returns satisfies the condition. */
  lemma FoundIsActedThrough(group: seq<Step>, delegated: bool, escalated: bool, user: UserId, role: Option<RoleId>)
    requires FindIn(group, delegated, escalated, user, role).Some?
    ensures ActedThrough(group, FindIn(group, delegated, escalated, user, role).value)
  {
    var direct := ByRight(delegated, user, role);
    if FirstWhere(group, direct).Some? {
      var k := FirstWhereIndex(group, direct);
      if delegated {
        assert k == 0 by {
          assert direct(group[0]);
        }
      } else {
        assert forall j :: 0 <= j < k ==> !direct(group[j]);
        RightIsFirst(group, k, user, role);
      }
    } else {
      var k := FirstWhereIndex(group, ByEscalation(user, role));
      assert forall s :: s in group ==> !direct(s);
      assert forall j :: 0 <= j < k ==> !ByEscalation(user, role)(group[j]);
      TargetIsFirst(group, k, user, role);
    }
  }

  /** In a schema-valid group no delegation is needed for it. */
  lemma SomeoneActsThrough(group: seq<Step>, s: Step) returns (escalated: bool, user: UserId, role: Option<RoleId>)
    requires ActedThrough(group, s) && SchemaValid(group[0])
    ensures FindIn(group, false, escalated, user, role) == Some(s)
    ensures escalated ==> s in group && (s.escalateToUser.Some? || s.escalateToRole.Some?)
  {
    var k: nat :| k < |group| && group[k] == s
      && (k == 0 || FirstForApprover(group, k) || FirstForTargetUser(group, k) || FirstForTargetRole(group, k));
    if k == 0 || FirstForApprover(group, k) {
      escalated := false;
      user, role := FoundByRight(group, k);
    } else {
      escalated := true;
      user, role := FoundByTarget(group, k);
    }
  }

  /**
   The condition is what the engine's search amounts to: it returns this step for some user, role
   and state exactly when the step leads the group, is the first for its approver, or escalates
   first to somebody without a right of their own in the group.
   */
  lemma ActedThroughExactly(group: seq<Step>, s: Step)
    ensures ActedThrough(group, s) <==>
            exists delegated, escalated, user, role :: FindIn(group, delegated, escalated, user, role) == Some(s)
  {
    if ActedThrough(group, s) {
      if group[0] == s {
        FirstWhereAt(group, ByRight(true, 0, None), 0);
        assert FindIn(group, true, false, 0, None) == Some(s);
      } else {
        var k: nat :| 0 < k < |group| && group[k] == s
          && (FirstForApprover(group, k) || FirstForTargetUser(group, k) || FirstForTargetRole(group, k));
        if FirstForApprover(group, k) {
          var user, role := FoundByRight(group, k);
        } else {
          var user, role := FoundByTarget(group, k);
        }
      }
    }
    if delegated, escalated, user: UserId, role: Option<RoleId> :|
      FindIn(group, delegated, escalated, user, role) == Some(s)
    {
      FoundIsActedThrough(group, delegated, escalated, user, role);
    }
  }

  /** Someone can act through this step when an instance stands on its number. */
  predicate CanActThrough(c: Chain, s: Step) {
    ActedThrough(At(c, s.number), s)
  }

  lemma FoundCanActThrough(c: Chain, i: Instance, user: UserId, role: Option<RoleId>)
    ensures var found := FindActionable(c, i, user, role);
            found.Some? ==>
              && found.value in c.steps && found.value.number == i.current
              && CanActThrough(c, found.value) && Live(c, i.current)
  {
    if FindActionable(c, i, user, role).Some? {
      FindActionableDecides(c, i, user, role);
      FoundIsActedThrough(At(c, i.current), user in Delegates(i.log, i.current), i.escalatedAt.Some?, user, role);
    }
  }

  /* ---- The numbers a run can stand on ---- */

  /** A step at or beyond `from` whose rejection leads to an applicable number. */
  predicate ReturnsFrom(c: Chain, s: Step, from: int) {
    s.number >= from && CanActThrough(c, s) && s.rejectTo.Some? && Live(c, s.rejectTo.value)
  }

  /** The lowest number such a rejection leads to, if it is below `from`. */
  function LowestReturn(c: Chain, steps: seq<Step>, from: int): (r: int)
    ensures r <= from
    ensures forall s :: s in steps && ReturnsFrom(c, s, from) ==> r <= s.rejectTo.value
    ensures r < from ==> exists s :: s in steps && ReturnsFrom(c, s, from) && s.rejectTo == Some(r)
  {
    if steps == [] then from
    else
      var rest := LowestReturn(c, steps[1..], from);
      assert forall s :: s in steps <==> s == steps[0] || s in steps[1..];
      if ReturnsFrom(c, steps[0], from) && steps[0].rejectTo.value < rest then steps[0].rejectTo.value else rest
  }

  function LiveBelow(c: Chain, n: int): set<int> {
    set m | m in LiveNumbers(c) && m < n
  }

  lemma LowerLeavesLess(c: Chain, n: int, from: int)
    requires Live(c, n) && n < from
    ensures |LiveBelow(c, n)| < |LiveBelow(c, from)|
  {
    assert n in LiveBelow(c, from);
    SubsetSize(LiveBelow(c, n), LiveBelow(c, from) - {n});
  }

  /** The lowest number that walking up from `from`, and returning, can come to. */
  function Lowest(c: Chain, from: int): (r: int)
    ensures r <= from
    ensures forall s :: s in c.steps && ReturnsFrom(c, s, r) ==> r <= s.rejectTo.value
    decreases |LiveBelow(c, from)|
  {
    var lower := LowestReturn(c, c.steps, from);
    if lower < from then
      LowerLeavesLess(c, lower, from);
      Lowest(c, lower)
    else
      from
  }

  /** An applicable number that is not below all a run can come to. */
  predicate Visitable(c: Chain, n: int) {
    FirstNumber(c).Some? && Live(c, n) && n >= Lowest(c, FirstNumber(c).value)
  }

  /** Returns to applicable numbers stay visitable, and so does moving on. */
  lemma TargetIsVisitable(c: Chain, s: Step)
    requires s in c.steps && Visitable(c, s.number) && CanActThrough(c, s)
    requires s.rejectTo.Some? && Live(c, s.rejectTo.value)
    ensures Visitable(c, s.rejectTo.value)
  {
    assert ReturnsFrom(c, s, Lowest(c, FirstNumber(c).value));
  }

  lemma NextIsVisitable(c: Chain, n: int)
    requires Visitable(c, n) && NextNumber(c, n).Some?
    ensures Visitable(c, NextNumber(c, n).value)
  {
    NextNumberIsLeast(c, n);
  }

  /** No run stands, pending, on an applicable number that is not visitable. */
  lemma {:induction false} RunStaysVisitable(c: Chain, now: Time, ops: seq<Op>)
    requires FirstNumber(c).Some?
    ensures var i := Run(c, now, ops).inst;
            i.status == Pending && Live(c, i.current) ==> Visitable(c, i.current)
  {
    if ops == [] {
      NextNumberIsLeast(c, 0);
    } else {
      RunStaysVisitable(c, now, ops[..|ops| - 1]);
      var i, op := Run(c, now, ops[..|ops| - 1]).inst, Last(ops);
      if Decide(c, i, op).Ok? && Decide(c, i, op).value.Enter? {
        FoundCanActThrough(c, i, op.actor, op.role);
        if op.DoApprove? {
          OneApprovalMovesOn(c, i, op.actor, op.role, op.now);
          NextIsVisitable(c, i.current);
        } else if Live(c, Decide(c, i, op).value.number) {
          TargetIsVisitable(c, FindActionable(c, i, op.actor, op.role).value);
        }
      }
    }
  }

  /* ---- Building runs ---- */

  lemma RunMore(c: Chain, now: Time, before: seq<Op>, op: Op)
    requires FirstNumber(c).Some?
    ensures Run(c, now, before + [op]) == Observe(c, Run(c, now, before), op)
  {
    assert (before + [op])[..|before|] == before;
  }

  ghost predicate SameDelegates(log: seq<Action>, log': seq<Action>) {
    forall n :: Delegates(log', n) == Delegates(log, n)
  }

  lemma DelegatesAppend(log: seq<Action>, a: Action, n: int)
    ensures Delegates(log + [a], n) ==
            Delegates(log, n) +
            (if a.kind == Delegate && a.stepNumber == n && a.delegatedTo.Some? then {a.delegatedTo.value} else {})
  {
    assert forall b :: b in log + [a] <==> b in log || b == a;
  }

  lemma OtherRowsDelegateNothing(log: seq<Action>, a: Action)
    requires a.kind != Delegate
    ensures SameDelegates(log, log + [a])
  {
    forall n ensures Delegates(log + [a], n) == Delegates(log, n) {
      DelegatesAppend(log, a, n);
    }
  }

  /** The run `ops` has just entered step n, with the delegations the run `before` had. */
  ghost predicate Entered(c: Chain, now: Time, before: seq<Op>, ops: seq<Op>, n: int)
    requires FirstNumber(c).Some?
  {
    var t, u := Run(c, now, before), Run(c, now, ops);
    && u.inst.status == Pending && u.inst.current == n && u.inst.escalatedAt.None?
    && u.visits != [] && Last(u.visits).from == |u.inst.log|
    && SameDelegates(t.inst.log, u.inst.log)
  }

  /** The approver of the leading step moves the instance on to the next applicable number. */
  lemma LeaderApproves(c: Chain, now: Time, before: seq<Op>) returns (ops: seq<Op>)
    requires FirstNumber(c).Some? && ChainSchemaValid(c)
    requires var i := Run(c, now, before).inst;
             i.status == Pending && Live(c, i.current) && NextNumber(c, i.current).Some?
    ensures Entered(c, now, before, ops, NextNumber(c, Run(c, now, before).inst.current).value)
  {
    var i := Run(c, now, before).inst;
    assert At(c, i.current)[0] in At(c, i.current);
    LeaderFound(c, i);
    var (user, role) := Approver(At(c, i.current)[0]);
    var op := DoApprove(user, role, now);
    OneApprovalMovesOn(c, i, user, role, now);
    ops := before + [op];
    RunMore(c, now, before, op);
    OtherRowsDelegateNothing(i.log, Entry(i, op, Decide(c, i, op).value));
  }

  /** Approvals by the leaders' approvers walk an instance up to any applicable number. */
  lemma {:induction false} Walk(c: Chain, now: Time, start: seq<Op>, before: seq<Op>, from: int, n: int)
    returns (ops: seq<Op>)
    requires FirstNumber(c).Some? && ChainSchemaValid(c)
    requires Entered(c, now, start, before, from) && Live(c, from) && Live(c, n) && from <= n
    ensures Entered(c, now, start, ops, n)
    decreases n - from
  {
    if from == n {
      ops := before;
    } else {
      NextNumberIsLeast(c, from);
      var next := LeaderApproves(c, now, before);
      ops := Walk(c, now, start, next, NextNumber(c, from).value, n);
    }
  }

  /** The run is `before`, escalated if need be, and this user now acts through step s. */
  ghost predicate ReadyThrough(c: Chain, now: Time, before: seq<Op>, ops: seq<Op>, s: Step, user: UserId,
          role: Option<RoleId>)
    requires FirstNumber(c).Some?
  {
    var t, u := Run(c, now, before), Run(c, now, ops);
    && u.inst.status == Pending && u.inst.current == s.number
    && SameDelegates(t.inst.log, u.inst.log)
    && FindActionable(c, u.inst, user, role) == Some(s)
  }

  /** An escalation, where the current group has a target and was not escalated yet. */
  lemma Escalates(c: Chain, now: Time, before: seq<Op>)
    requires FirstNumber(c).Some?
    requires var i := Run(c, now, before).inst;
             i.status == Pending && i.escalatedAt.None? && HasTarget(c, i.current)
    ensures var i, j := Run(c, now, before).inst, Run(c, now, before + [DoEscalate(None, now)]).inst;
            j == i.(escalatedAt := Some(now), log := j.log) && SameDelegates(i.log, j.log)
  {
    var i, op := Run(c, now, before).inst, DoEscalate(None, now);
    RunMore(c, now, before, op);
    OtherRowsDelegateNothing(i.log, Entry(i, op, Stay));
  }

  /** The run escalated, if asked. */
  lemma EscalateIf(c: Chain, now: Time, before: seq<Op>, escalated: bool) returns (ops: seq<Op>)
    requires FirstNumber(c).Some?
    requires var i := Run(c, now, before).inst; i.status == Pending && i.escalatedAt.None?
    requires escalated ==> HasTarget(c, Run(c, now, before).inst.current)
    ensures var i, j := Run(c, now, before).inst, Run(c, now, ops).inst;
            && j.status == Pending && j.current == i.current && j.escalatedAt.Some? == escalated
            && SameDelegates(i.log, j.log)
  {
    if escalated {
      Escalates(c, now, before);
      ops := before + [DoEscalate(None, now)];
    } else {
      ops := before;
    }
  }

  lemma GetReady(c: Chain, now: Time, before: seq<Op>, s: Step, escalated: bool, user: UserId, role: Option<RoleId>)
    returns (ops: seq<Op>)
    requires FirstNumber(c).Some?
    requires var i := Run(c, now, before).inst;
             i.status == Pending && i.current == s.number && i.escalatedAt.None? && user !in Delegates(i.log, i.current)
    requires FindIn(At(c, s.number), false, escalated, user, role) == Some(s) && (escalated ==> HasTarget(c, s.number))
    ensures ReadyThrough(c, now, before, ops, s, user, role)
  {
    ops := EscalateIf(c, now, before, escalated);
  }

  /** A rejection through a step that returns enters the step's target. */
  lemma RejectThrough(c: Chain, now: Time, before: seq<Op>, ready: seq<Op>, s: Step, user: UserId, role: Option<RoleId>)
    requires FirstNumber(c).Some?
    requires ReadyThrough(c, now, before, ready, s, user, role) && s.rejectTo.Some?
    ensures Entered(c, now, before, ready + [DoReject(user, role, now)], s.rejectTo.value)
  {
    var i, op := Run(c, now, ready).inst, DoReject(user, role, now);
    RunMore(c, now, ready, op);
    OtherRowsDelegateNothing(i.log, Entry(i, op, Enter(s.rejectTo.value)));
  }

  /** From a run that has just entered the number of a step, someone gets ready to act through it. */
  lemma ReadyFor(c: Chain, now: Time, before: seq<Op>, s: Step)
    returns (ops: seq<Op>, user: UserId, role: Option<RoleId>)
    requires FirstNumber(c).Some? && ChainSchemaValid(c) && CanActThrough(c, s)
    requires Entered(c, now, [], before, s.number)
    ensures ReadyThrough(c, now, [], ops, s, user, role)
  {
    var group, escalated := At(c, s.number), false;
    assert group[0] in group;
    escalated, user, role := SomeoneActsThrough(group, s);
    assert Delegates(Run(c, now, []).inst.log, s.number) == {};
    ops := GetReady(c, now, before, s, escalated, user, role);
  }

  /** From a run entering `from`, some run stands freshly on every applicable number not below `Lowest`. */
  lemma {:induction false} StandOnFrom(c: Chain, now: Time, at: seq<Op>, from: int, n: int) returns (ops: seq<Op>)
    requires FirstNumber(c).Some? && ChainSchemaValid(c)
    requires Entered(c, now, [], at, from) && Live(c, from) && Live(c, n) && n >= Lowest(c, from)
    ensures Entered(c, now, [], ops, n)
    decreases |LiveBelow(c, from)|
  {
    if from <= n {
      ops := Walk(c, now, [], at, from, n);
    } else {
      var lower := LowestReturn(c, c.steps, from);
      var s :| s in c.steps && ReturnsFrom(c, s, from) && s.rejectTo == Some(lower);
      LowerLeavesLess(c, lower, from);
      var above := Walk(c, now, [], at, from, s.number);
      var ready, user, role := ReadyFor(c, now, above, s);
      RejectThrough(c, now, [], ready, s, user, role);
      ops := StandOnFrom(c, now, ready + [DoReject(user, role, now)], lower, n);
    }
  }

  /** Every visitable number is freshly stood on in some run without delegations. */
  lemma StandOn(c: Chain, now: Time, n: int) returns (ops: seq<Op>)
    requires ChainSchemaValid(c) && Visitable(c, n)
    ensures Entered(c, now, [], ops, n)
  {
    NextNumberIsLeast(c, 0);
    ops := StandOnFrom(c, now, [], FirstNumber(c).value, n);
  }

  /** The visitable numbers are exactly the applicable ones some run stands on while pending. */
  lemma VisitableExactly(c: Chain, now: Time, n: int)
    requires FirstNumber(c).Some? && ChainSchemaValid(c)
    ensures Visitable(c, n) <==>
            Live(c, n) && exists ops :: Run(c, now, ops).inst.status == Pending && Run(c, now, ops).inst.current == n
  {
    if Visitable(c, n) {
      var ops := StandOn(c, now, n);
      assert Run(c, now, ops).inst.current == n;
    }
    if ops :| Run(c, now, ops).inst.status == Pending && Run(c, now, ops).inst.current == n {
      RunStaysVisitable(c, now, ops);
    }
  }
}
