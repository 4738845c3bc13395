/**
 What each request does to an instance, as its caller sees it: when it is accepted, with which error
 it is refused otherwise, and every field it leaves. All of it is said of the steps of the definition,
 the log and the request, without the functions the operations are made of.
 */
module WorkflowOutcomes {
  import opened Wrappers
  import opened Timing
  import opened Identities
  import opened WorkflowSteps
  import opened WorkflowInstances
  import opened WorkflowVisits

  /** A step of the definition at this number whose bounds, if it has any, admit the amount. */
  ghost predicate InForce(c: Chain, n: int, s: Step) {
    && s in c.steps && s.number == n
    && (|| (s.minimum.None? && s.maximum.None?)
        || (&& c.amount.Some?
            && (s.minimum.Some? ==> s.minimum.value <= c.amount.value)
            && (s.maximum.Some? ==> c.amount.value <= s.maximum.value)))
  }

  lemma InForceIsAt(c: Chain, n: int)
    ensures forall s :: InForce(c, n, s) <==> s in At(c, n)
    ensures Live(c, n) <==> exists s :: InForce(c, n, s)
  {
    if Live(c, n) {
      assert At(c, n)[0] in At(c, n);
      assert InForce(c, n, At(c, n)[0]);
    }
  }

  /* ---- Due dates ---- */

  ghost predicate TimesOut(c: Chain, n: int, s: Step) {
    InForce(c, n, s) && s.timeoutHours.Some? && s.timeoutHours.value > 0
  }

  /** Entered at this moment, step n is due when the shortest of its timeouts has passed, and never if it has none. */
  ghost predicate DueAfter(c: Chain, n: int, entered: Time, due: Option<Time>) {
    match due
    case None => forall s :: !TimesOut(c, n, s)
    case Some(t) =>
      && (exists s :: TimesOut(c, n, s) && t == entered + s.timeoutHours.value * 3_600_000_000)
      && (forall s :: TimesOut(c, n, s) ==> t <= entered + s.timeoutHours.value * 3_600_000_000)
  }

  lemma DueAtIsDueAfter(c: Chain, n: int, entered: Time)
    ensures DueAfter(c, n, entered, DueAt(c, n, entered))
  {
    InForceIsAt(c, n);
    DueAtIsStrictest(c, n, entered);
    var due := DueAt(c, n, entered);
    if due.Some? {
      var s :| s in At(c, n) && Timed(s) && due.value == entered + s.timeoutHours.value * HOUR;
      assert TimesOut(c, n, s);
    } else {
      forall s ensures !TimesOut(c, n, s) {
        assert s in At(c, n) ==> !Timed(s);
      }
    }
  }

  /* ---- Who may decide ---- */

  ghost predicate Delegated(i: Instance, user: UserId) {
    exists a :: a in i.log && a.kind == Delegate && a.stepNumber == i.current && a.delegatedTo == Some(user)
  }

  /** The step names the user or the role they present, or anyone it was delegated to includes them. */
  ghost predicate HoldsRight(i: Instance, s: Step, user: UserId, role: Option<RoleId>) {
    || Delegated(i, user)
    || (s.approverType == SpecificUser && s.specificUser == Some(user))
    || (s.approverType == SpecificRole && s.requiredRole == role)
  }

  /** The step has been escalated, to the user or to the role they present. */
  ghost predicate HoldsTarget(i: Instance, s: Step, user: UserId, role: Option<RoleId>) {
    && i.escalatedAt.Some?
    && (s.escalateToUser == Some(user) || (s.escalateToRole.Some? && s.escalateToRole == role))
  }

  ghost predicate Entitled(c: Chain, i: Instance, user: UserId, role: Option<RoleId>) {
    exists s :: InForce(c, i.current, s) && (HoldsRight(i, s, user, role) || HoldsTarget(i, s, user, role))
  }

  /** Position k of the definition holds the first step in force that meets a condition. */
  ghost predicate FirstInForce(c: Chain, n: int, k: nat, cond: Step -> bool) {
    && k < |c.steps| && InForce(c, n, c.steps[k]) && cond(c.steps[k])
    && forall j :: 0 <= j < k && InForce(c, n, c.steps[j]) ==> !cond(c.steps[j])
  }

  /** The user acts through s: the first step of their own right, or failing any, the first escalated to them. */
  ghost predicate ActsThrough(c: Chain, i: Instance, user: UserId, role: Option<RoleId>, s: Step) {
    exists k: nat :: k < |c.steps| && c.steps[k] == s &&
      (|| FirstInForce(c, i.current, k, x => HoldsRight(i, x, user, role))
       || (&& (forall x :: InForce(c, i.current, x) ==> !HoldsRight(i, x, user, role))
           && FirstInForce(c, i.current, k, x => HoldsTarget(i, x, user, role))))
  }

  predicate Hit(s: Step, n: int, amount: Option<int>, cond: Step -> bool) {
    s.number == n && Applies(s, amount) && cond(s)
  }

  lemma FirstOfMore(s: Step, rest: seq<Step>, amount: Option<int>, n: int, cond: Step -> bool)
    ensures FirstWhere(Group([s] + rest, n, amount), cond) ==
            if Hit(s, n, amount, cond) then Some(s) else FirstWhere(Group(rest, n, amount), cond)
  {
    GroupCons(s, rest, n, amount);
    assert ([s] + Group(rest, n, amount))[1..] == Group(rest, n, amount) == [] + Group(rest, n, amount);
  }

  /** The first of a group, if any, is the first of the definition, in its order, that is in the group. */
  lemma {:induction false} FirstOfGroup(steps: seq<Step>, amount: Option<int>, n: int, cond: Step -> bool)
    returns (k: nat)
    ensures k <= |steps| && forall j :: 0 <= j < k ==> !Hit(steps[j], n, amount, cond)
    ensures k < |steps| ==> Hit(steps[k], n, amount, cond)
    ensures FirstWhere(Group(steps, n, amount), cond) == if k < |steps| then Some(steps[k]) else None
  {
    k := 0;
    if steps == [] {
    } else {
      var s, rest := steps[0], steps[1..];
      assert steps == [s] + rest;
      FirstOfMore(s, rest, amount, n, cond);
      if !Hit(s, n, amount, cond) {
        var j := FirstOfGroup(rest, amount, n, cond);
        k := j + 1;
      }
    }
  }

  lemma FirstHitIsFirstInForce(c: Chain, n: int, k: nat, cond: Step -> bool, means: Step -> bool)
    requires k < |c.steps| && Hit(c.steps[k], n, c.amount, cond)
    requires forall j :: 0 <= j < k ==> !Hit(c.steps[j], n, c.amount, cond)
    requires forall s :: cond(s) == means(s)
    ensures FirstInForce(c, n, k, means)
  {
    forall j | 0 <= j <= k
      ensures Hit(c.steps[j], n, c.amount, cond) <==> InForce(c, n, c.steps[j]) && means(c.steps[j])
    {
      assert c.steps[j] in c.steps;
    }
  }

  lemma DelegatedIsDelegate(i: Instance, user: UserId)
    ensures Delegated(i, user) <==> user in Delegates(i.log, i.current)
  {
  }

  lemma FoundIsActsThrough(c: Chain, i: Instance, user: UserId, role: Option<RoleId>)
    requires FindActionable(c, i, user, role).Some?
    ensures ActsThrough(c, i, user, role, FindActionable(c, i, user, role).value)
  {
    var group := At(c, i.current);
    var right := ByRight(user in Delegates(i.log, i.current), user, role);
    DelegatedIsDelegate(i, user);
    InForceIsAt(c, i.current);
    if FirstWhere(group, right).Some? {
      var k := FirstOfGroup(c.steps, c.amount, i.current, right);
      FirstHitIsFirstInForce(c, i.current, k, right, x => HoldsRight(i, x, user, role));
    } else {
      var k := FirstOfGroup(c.steps, c.amount, i.current, ByEscalation(user, role));
      FirstHitIsFirstInForce(c, i.current, k, ByEscalation(user, role), x => HoldsTarget(i, x, user, role));
      assert forall s :: s in group ==> !right(s);
    }
  }

  lemma EntitledIsFound(c: Chain, i: Instance, user: UserId, role: Option<RoleId>)
    ensures Entitled(c, i, user, role) <==> FindActionable(c, i, user, role).Some?
  {
    DelegatedIsDelegate(i, user);
    InForceIsAt(c, i.current);
    FindActionableDecides(c, i, user, role);
  }

  /** The three decisions are open to the entitled while the instance is pending, and to nobody else. */
  lemma DecisionAccepted(c: Chain, i: Instance, op: Op)
    requires op.DoApprove? || op.DoReject? || op.DoDelegate?
    ensures Do(c, i, op).Ok? <==> i.status == Pending && Entitled(c, i, op.actor, op.role)
    ensures i.status != Pending ==> Do(c, i, op) == Err(NotPending(i.status))
    ensures i.status == Pending && Do(c, i, op).Err? ==> Do(c, i, op) == Err(NotAnApprover)
  {
    EntitledIsFound(c, i, op.actor, op.role);
  }

  /* ---- What a decision leaves ---- */

  function RowFor(i: Instance, kind: ActionType, actor: UserId, newStatus: Status, to: Option<UserId>): Action {
    Action(i.current, kind, actor, Some(i.status), Some(newStatus), to)
  }

  /** The instance entered step n at this moment: pending there, due accordingly, unescalated, one row longer. */
  ghost predicate EnteredStep(c: Chain, i: Instance, j: Instance, n: int, now: Time, row: Action) {
    && j.status == Pending && j.current == n && DueAfter(c, n, now, j.dueAt) && j.escalatedAt.None?
    && j.log == i.log + [row]
  }

  /** The least number beyond the current one with a step in force. */
  ghost predicate NextInForce(c: Chain, after: int, n: int) {
    && n > after && (exists s :: InForce(c, n, s))
    && forall m, s :: after < m < n ==> !InForce(c, m, s)
  }

  ghost predicate NothingLater(c: Chain, after: int) {
    forall m, s :: m > after ==> !InForce(c, m, s)
  }

  lemma NextIsNextInForce(c: Chain, after: int)
    ensures match NextNumber(c, after)
            case None => NothingLater(c, after)
            case Some(n) => NextInForce(c, after, n)
  {
    NextNumberIsLeast(c, after);
    forall m, s | InForce(c, m, s) ensures Live(c, m) {
      InForceIsAt(c, m);
      assert s in At(c, m);
    }
    if NextNumber(c, after).Some? {
      InForceIsAt(c, NextNumber(c, after).value);
    }
  }

  /** An approval leads to the next number in force, entered at the caller's moment, or finishes if there is none. */
  ghost predicate ApprovalOutcome(c: Chain, i: Instance, actor: UserId, now: Time, j: Instance) {
    var row := RowFor(i, Approve, actor, Pending, None);
    if j.status == Approved
    then NothingLater(c, i.current) && j == i.(status := Approved, dueAt := None, log := i.log + [row])
    else NextInForce(c, i.current, j.current) && EnteredStep(c, i, j, j.current, now, row)
  }

  lemma ApprovalLeads(c: Chain, i: Instance, actor: UserId, role: Option<RoleId>, now: Time)
    ensures match Do(c, i, DoApprove(actor, role, now))
            case Err(_) => i.status != Pending || !Entitled(c, i, actor, role)
            case Ok(j) => i.status == Pending && Entitled(c, i, actor, role) && ApprovalOutcome(c, i, actor, now, j)
  {
    DecisionAccepted(c, i, DoApprove(actor, role, now));
    if Do(c, i, DoApprove(actor, role, now)).Ok? {
      OneApprovalMovesOn(c, i, actor, role, now);
      NextIsNextInForce(c, i.current);
      if NextNumber(c, i.current).Some? {
        DueAtIsDueAfter(c, NextNumber(c, i.current).value, now);
      }
    }
  }

  /** A rejection goes where the step acted through says: back, entered at the caller's moment, or to the end. */
  ghost predicate RejectionOutcome(c: Chain, i: Instance, actor: UserId, role: Option<RoleId>, now: Time, j: Instance) {
    exists s :: ActsThrough(c, i, actor, role, s) &&
      match s.rejectTo
      case None => j == i.(status := Rejected, dueAt := None, log := i.log + [RowFor(i, Reject, actor, Rejected, None)])
      case Some(n) => EnteredStep(c, i, j, n, now, RowFor(i, Reject, actor, Pending, None))
  }

  lemma RejectionLeads(c: Chain, i: Instance, actor: UserId, role: Option<RoleId>, now: Time)
    ensures match Do(c, i, DoReject(actor, role, now))
            case Err(_) => i.status != Pending || !Entitled(c, i, actor, role)
            case Ok(j) =>
              i.status == Pending && Entitled(c, i, actor, role) && RejectionOutcome(c, i, actor, role, now, j)
  {
    DecisionAccepted(c, i, DoReject(actor, role, now));
    if Do(c, i, DoReject(actor, role, now)).Ok? {
      FoundIsActsThrough(c, i, actor, role);
      var s := FindActionable(c, i, actor, role).value;
      assert ActsThrough(c, i, actor, role, s);
      if s.rejectTo.Some? {
        DueAtIsDueAfter(c, s.rejectTo.value, now);
      }
    }
  }

  /** An accepted delegation writes its row and entitles the delegate on this number, whatever role they present. */
  lemma DelegationLeads(c: Chain, i: Instance, actor: UserId, role: Option<RoleId>, to: UserId, any: Option<RoleId>)
    requires Do(c, i, DoDelegate(actor, role, to)).Ok?
    ensures var j := Do(c, i, DoDelegate(actor, role, to)).value;
            j == i.(log := i.log + [RowFor(i, Delegate, actor, Pending, Some(to))]) && Entitled(c, j, to, any)
  {
    EntitledIsFound(c, i, actor, role);
    var j := Do(c, i, DoDelegate(actor, role, to)).value;
    var s :| InForce(c, i.current, s);
    assert j.log[|i.log|] in j.log;
    assert Delegated(j, to) && InForce(c, j.current, s) && HoldsRight(j, s, to, any);
  }

  /* ---- The other requests ---- */

  /** Cancelling is open to anyone while the instance is pending, and to nobody after. */
  lemma CancellationLeads(c: Chain, i: Instance, actor: UserId)
    ensures Do(c, i, DoCancel(actor)) ==
            if i.status == Pending
            then Ok(i.(status := Cancelled, dueAt := None, log := i.log + [RowFor(i, Cancel, actor, Cancelled, None)]))
            else Err(NotPending(i.status))
  {
  }

  /** Comments are open to anyone at any time, finished instances included, and change nothing else. */
  lemma CommentLeads(c: Chain, i: Instance, actor: UserId)
    ensures Do(c, i, DoComment(actor)) == Ok(i.(log := i.log + [Action(i.current, Comment, actor, None, None, None)]))
  {
  }

  ghost predicate Targeted(c: Chain, n: int) {
    exists s :: InForce(c, n, s) && (s.escalateToUser.Some? || s.escalateToRole.Some?)
  }

  /** An escalation, by a person or the scheduler, is accepted once per stay, where there is somebody to escalate to. */
  lemma EscalationLeads(c: Chain, i: Instance, caller: Option<UserId>, now: Time)
    ensures var actor := if caller.Some? then caller.value else 0;
            Do(c, i, DoEscalate(caller, now)) ==
            if i.status != Pending then Err(NotPending(i.status))
            else if i.escalatedAt.Some? then Err(AlreadyEscalated)
            else if !Targeted(c, i.current) then Err(NoEscalationTarget)
            else Ok(i.(escalatedAt := Some(now), log := i.log + [RowFor(i, Escalate, actor, Pending, None)]))
  {
    InForceIsAt(c, i.current);
    if HasTarget(c, i.current) {
      var s :| s in At(c, i.current) && (s.escalateToUser.Some? || s.escalateToRole.Some?);
      assert InForce(c, i.current, s);
    }
  }

  /** A new instance stands pending on the least positive number with a step in force, entered at its start. */
  lemma StartLeads(c: Chain, now: Time)
    ensures match Start(c, now)
            case Err(e) => e == NoApplicableSteps && NothingLater(c, 0)
            case Ok(i) =>
              && NextInForce(c, 0, i.current) && i.status == Pending && i.escalatedAt.None? && i.log == []
              && DueAfter(c, i.current, now, i.dueAt)
  {
    NextIsNextInForce(c, 0);
    if FirstNumber(c).Some? {
      DueAtIsDueAfter(c, FirstNumber(c).value, now);
    }
  }

  /* ---- Over runs ---- */

  /** The request was accepted and took the instance to a step: on from the current one, or back to one. */
  ghost predicate Enters(c: Chain, i: Instance, op: Op) {
    && Do(c, i, op).Ok? && Do(c, i, op).value.status == Pending
    && (op.DoApprove? || op.DoReject?)
  }

  /** The moment the caller of the last entering request gave, or the start. */
  ghost function LastEntered(c: Chain, start: Time, ops: seq<Op>): Time
    requires FirstNumber(c).Some?
  {
    if ops == [] then start
    else
      var front, op := ops[..|ops| - 1], ops[|ops| - 1];
      if Enters(c, Run(c, start, front).inst, op) then
        (if op.DoApprove? then op.now else if op.DoReject? then op.now else start)
      else LastEntered(c, start, front)
  }

  /** The entry an approval or a rejection makes is at the caller's moment. */
  lemma EnteredAtTheMoment(c: Chain, i: Instance, op: Op)
    requires op.DoApprove? || op.DoReject?
    ensures var r := Do(c, i, op);
            r.Ok? && r.value.status == Pending ==> DueAfter(c, r.value.current, op.now, r.value.dueAt)
  {
    if op.DoApprove? {
      ApprovalLeads(c, i, op.actor, op.role, op.now);
    } else {
      RejectionLeads(c, i, op.actor, op.role, op.now);
    }
  }

  /** Any other request keeps a pending instance its position and due date, or finishes it and takes the due date. */
  lemma OthersStay(c: Chain, i: Instance, op: Op)
    requires !op.DoApprove? && !op.DoReject? && Do(c, i, op).Ok?
    ensures var j := Do(c, i, op).value;
            if j.status == Pending then j.current == i.current && j.dueAt == i.dueAt && i.status == Pending
            else i.status == Pending ==> j.dueAt.None?
  {
    match op
    case DoEscalate(caller, now) => EscalationLeads(c, i, caller, now);
    case _ =>
  }

  /** After any run a pending instance is due by the moment its step was entered, a finished one never. */
  lemma {:induction false} DueSinceTheLastEntry(c: Chain, start: Time, ops: seq<Op>)
    requires FirstNumber(c).Some?
    ensures var i := Run(c, start, ops).inst;
            if i.status == Pending then DueAfter(c, i.current, LastEntered(c, start, ops), i.dueAt) else i.dueAt.None?
  {
    if ops == [] {
      StartLeads(c, start);
    } else {
      var front, op := ops[..|ops| - 1], ops[|ops| - 1];
      var t := Run(c, start, front);
      DueSinceTheLastEntry(c, start, front);
      RunKeeps(c, start, ops);
      ObserveIsDo(c, t, op);
      if op.DoApprove? || op.DoReject? {
        EnteredAtTheMoment(c, t.inst, op);
      } else if Do(c, t.inst, op).Ok? {
        OthersStay(c, t.inst, op);
      }
    }
  }

  /** And the history beside the row agrees: the last visit was entered at that moment. */
  lemma {:induction false} VisitsAreTheEntries(c: Chain, start: Time, ops: seq<Op>)
    requires FirstNumber(c).Some?
    ensures var t := Run(c, start, ops); t.visits != [] && Last(t.visits).entered == LastEntered(c, start, ops)
  {
    if ops == [] {
    } else {
      var front, op := ops[..|ops| - 1], ops[|ops| - 1];
      VisitsAreTheEntries(c, start, front);
      var i := Run(c, start, front).inst;
      if Do(c, i, op).Ok? && op.DoApprove? {
        OneApprovalMovesOn(c, i, op.actor, op.role, op.now);
      }
    }
  }
}
