/**
 One running approval as a value: what each operation of the engine does to an instance and
 its action log, and what a run of operations leaves behind.

 An operation is split in two. `Decide` says whether the engine accepts it and, if so, whether
 the instance stays on its step, enters another one, or finishes. `Commit` carries that out.
 The classes of module WorkflowEngine do both at once, field by field, and are proved against `Do`.
 */
module WorkflowInstances {
  import opened Wrappers
  import opened Identities
  import opened Timing
  import opened WorkflowSteps

  /** Recorded as the actor of an escalation performed by the scheduler. */
  const SYSTEM_ACTOR_ID: UserId := 0

  datatype Status = Pending | Approved | Rejected | Cancelled

  datatype ActionType = Approve | Reject | Comment | Delegate | Escalate | Cancel

  /** One row of the action log. */
  datatype Action = Action(
    stepNumber: int,
    kind: ActionType,
    actor: UserId,
    oldStatus: Option<Status>,
    newStatus: Option<Status>,
    delegatedTo: Option<UserId>)

  datatype Instance = Instance(
    status: Status,
    current: int,
    dueAt: Option<Time>,
    escalatedAt: Option<Time>,
    log: seq<Action>)

  datatype Error =
    | NoApplicableSteps
    | NotPending(status: Status)
    | NotAnApprover
    | AlreadyEscalated
    | NoEscalationTarget

  /** A request to the engine, with the role claim of the caller and the clock reading it uses. */
  datatype Op =
    | DoApprove(actor: UserId, role: Option<RoleId>, now: Time)
    | DoReject(actor: UserId, role: Option<RoleId>, now: Time)
    | DoDelegate(actor: UserId, role: Option<RoleId>, to: UserId)
    | DoCancel(actor: UserId)
    | DoComment(actor: UserId)
    | DoEscalate(caller: Option<UserId>, now: Time)

  /** Operations open only to someone who may act on the current step. */
  predicate Decision(op: Op) {
    op.DoApprove? || op.DoReject? || op.DoDelegate?
  }

  /* ---- Who may act ---- */

  /** Everyone the log says step number n was ever delegated to. */
  function Delegates(log: seq<Action>, n: int): (r: set<UserId>)
    ensures forall u :: u in r <==>
            exists a :: a in log && a.kind == Delegate && a.stepNumber == n && a.delegatedTo == Some(u)
  {
    set a | a in log && a.kind == Delegate && a.stepNumber == n && a.delegatedTo.Some? :: a.delegatedTo.value
  }

  /** The step names this user, or the role the user holds. */
  predicate Configured(s: Step, user: UserId, role: Option<RoleId>) {
    || (s.approverType == SpecificUser && s.specificUser == Some(user))
    || (s.approverType == SpecificRole && s.requiredRole == role)
  }

  /** The step escalates to this user, or to the role the user holds. */
  predicate EscalatesTo(s: Step, user: UserId, role: Option<RoleId>) {
    || s.escalateToUser == Some(user)
    || (s.escalateToRole.Some? && s.escalateToRole == role)
  }

  /** The first step of a group satisfying a condition. */
  function FirstWhere(group: seq<Step>, cond: Step -> bool): (r: Option<Step>)
    ensures r.None? <==> forall s :: s in group ==> !cond(s)
    ensures r.Some? ==> r.value in group && cond(r.value)
  {
    if group == [] then None
    else if cond(group[0]) then Some(group[0])
    else FirstWhere(group[1..], cond)
  }

  /** The position of the hit is what makes it the first. */
  lemma {:induction false} FirstWhereAt(group: seq<Step>, cond: Step -> bool, k: nat)
    requires k <= |group| && forall j :: 0 <= j < k ==> !cond(group[j])
    requires k < |group| ==> cond(group[k])
    ensures FirstWhere(group, cond) == if k < |group| then Some(group[k]) else None
  {
    if k == 0 {
    } else {
      FirstWhereAt(group[1..], cond, k - 1);
    }
  }

  /** Steps a user acts through in their own right: any step for a delegate, else those naming them. */
  function ByRight(delegated: bool, user: UserId, role: Option<RoleId>): Step -> bool {
    s => delegated || Configured(s, user, role)
  }

  function ByEscalation(user: UserId, role: Option<RoleId>): Step -> bool {
    s => EscalatesTo(s, user, role)
  }

  /** The search over a group: in the user's own right first, then, once escalated, as an escalation target. */
  function FindIn(group: seq<Step>, delegated: bool, escalated: bool, user: UserId, role: Option<RoleId>)
    : Option<Step>
  {
    var direct := FirstWhere(group, ByRight(delegated, user, role));
    if direct.Some? then direct
    else if escalated then FirstWhere(group, ByEscalation(user, role))
    else None
  }

  /**
   The step through which a user may act on the current group: the first one for a delegate,
   else the first one naming them, else, once escalated, the first one escalating to them.
   */
  function FindActionable(c: Chain, i: Instance, user: UserId, role: Option<RoleId>): Option<Step> {
    FindIn(At(c, i.current), user in Delegates(i.log, i.current), i.escalatedAt.Some?, user, role)
  }

  /** Acting rights, stated without the search: who is in the set the search decides. */
  predicate MayAct(c: Chain, i: Instance, user: UserId, role: Option<RoleId>) {
    exists s :: s in At(c, i.current) &&
      (|| user in Delegates(i.log, i.current)
       || Configured(s, user, role)
       || (i.escalatedAt.Some? && EscalatesTo(s, user, role)))
  }

  /** The search succeeds exactly for those who may act, and returns an applicable step of the current group. */
  lemma FindActionableDecides(c: Chain, i: Instance, user: UserId, role: Option<RoleId>)
    ensures FindActionable(c, i, user, role).Some? <==> MayAct(c, i, user, role)
    ensures FindActionable(c, i, user, role).Some? ==> FindActionable(c, i, user, role).value in At(c, i.current)
  {
    var group := At(c, i.current);
    var delegated := user in Delegates(i.log, i.current);
    var direct := FirstWhere(group, ByRight(delegated, user, role));
    if direct.None? {
      assert forall s :: s in group ==> !ByRight(delegated, user, role)(s);
      if i.escalatedAt.Some? {
        var target := FirstWhere(group, ByEscalation(user, role));
        assert target.None? ==> forall s :: s in group ==> !ByEscalation(user, role)(s);
      }
    }
  }

  /* ---- Group satisfaction, as coded ---- */

  predicate Logged(log: seq<Action>, n: int, kind: ActionType) {
    exists a :: a in log && a.stepNumber == n && a.kind == kind
  }

  /** Every applicable step at n has an approval logged under its number, by anyone, at any time. */
  predicate AllSatisfied(c: Chain, n: int, log: seq<Action>) {
    forall s :: s in At(c, n) ==> Logged(log, s.number, Approve)
  }

  /* ---- Operations ---- */

  /** What an accepted operation does to the position of the instance. */
  datatype Move = Stay | Enter(number: int) | Finish(status: Status)

  /** The log row an accepted operation writes. */
  function Entry(i: Instance, op: Op, m: Move): Action {
    match op
    case DoApprove(actor, _, _) => Action(i.current, Approve, actor, Some(i.status), Some(i.status), None)
    case DoReject(actor, _, _) =>
      Action(i.current, Reject, actor, Some(i.status), Some(if m.Enter? then Pending else Rejected), None)
    case DoDelegate(actor, _, to) => Action(i.current, Delegate, actor, Some(i.status), Some(i.status), Some(to))
    case DoCancel(actor) => Action(i.current, Cancel, actor, Some(i.status), Some(Cancelled), None)
    case DoComment(actor) => Action(i.current, Comment, actor, None, None, None)
    case DoEscalate(caller, _) =>
      var actor := if caller.Some? then caller.value else SYSTEM_ACTOR_ID;
      Action(i.current, Escalate, actor, Some(i.status), Some(i.status), None)
  }

  function Decide(c: Chain, i: Instance, op: Op): Result<Move, Error> {
    if op.DoComment? then Ok(Stay)
    else if i.status != Pending then Err(NotPending(i.status))
    else
      match op
      case DoApprove(actor, role, _) =>
        if FindActionable(c, i, actor, role).None? then Err(NotAnApprover)
        else if !AllSatisfied(c, i.current, i.log + [Entry(i, op, Stay)]) then Ok(Stay)
        else
          (match NextNumber(c, i.current)
           case None => Ok(Finish(Approved))
           case Some(n) => Ok(Enter(n)))
      case DoReject(actor, role, _) =>
        (match FindActionable(c, i, actor, role)
         case None => Err(NotAnApprover)
         case Some(s) => if s.rejectTo.Some? then Ok(Enter(s.rejectTo.value)) else Ok(Finish(Rejected)))
      case DoDelegate(actor, role, _) =>
        if FindActionable(c, i, actor, role).None? then Err(NotAnApprover) else Ok(Stay)
      case DoCancel(_) => Ok(Finish(Cancelled))
      case DoEscalate(_, _) =>
        if i.escalatedAt.Some? then Err(AlreadyEscalated)
        else if !HasTarget(c, i.current) then Err(NoEscalationTarget)
        else Ok(Stay)
  }

  /** Moves an instance to a step: position, due date, and no escalation. */
  function EnterStep(c: Chain, i: Instance, n: int, now: Time): Instance {
    i.(current := n, dueAt := DueAt(c, n, now), escalatedAt := None)
  }

  function Clock(op: Op): Time {
    match op
    case DoApprove(_, _, now) => now
    case DoReject(_, _, now) => now
    case DoEscalate(_, now) => now
    case _ => 0
  }

  function Commit(c: Chain, i: Instance, op: Op, m: Move): Instance {
    var logged := i.(log := i.log + [Entry(i, op, m)]);
    match m
    case Stay => if op.DoEscalate? then logged.(escalatedAt := Some(op.now)) else logged
    case Enter(n) => EnterStep(c, logged, n, Clock(op))
    case Finish(status) => logged.(status := status, dueAt := None)
  }

  function Do(c: Chain, i: Instance, op: Op): Result<Instance, Error> {
    match Decide(c, i, op)
    case Err(e) => Err(e)
    case Ok(m) => Ok(Commit(c, i, op, m))
  }

  /** The request was carried out as `Do` says, or refused with its error and nothing changed. */
  ghost predicate Performed(c: Chain, before: Instance, op: Op, r: Outcome<Error>, after: Instance) {
    match Do(c, before, op)
    case Ok(i) => r == Pass && after == i
    case Err(e) => r == Fail(e) && after == before
  }

  /** A freshly started instance, or the refusal to start one. */
  function Start(c: Chain, now: Time): Result<Instance, Error> {
    match FirstNumber(c)
    case None => Err(NoApplicableSteps)
    case Some(n) => Ok(Instance(Pending, n, DueAt(c, n, now), None, []))
  }

  /**
   The coded test never holds an accepted approval back: the row just written carries the
   number of every step of the group, so one approval moves the whole group on.
   */
  lemma OneApprovalMovesOn(c: Chain, i: Instance, actor: UserId, role: Option<RoleId>, now: Time)
    requires Decide(c, i, DoApprove(actor, role, now)).Ok?
    ensures AllSatisfied(c, i.current, i.log + [Entry(i, DoApprove(actor, role, now), Stay)])
    ensures Decide(c, i, DoApprove(actor, role, now)) ==
            match NextNumber(c, i.current) case None => Ok(Finish(Approved)) case Some(n) => Ok(Enter(n))
  {
    var entry := Entry(i, DoApprove(actor, role, now), Stay);
    assert entry in i.log + [entry];
  }

  /* ---- Runs ---- */

  /** One stay on a step: its number, when it was entered, and the length of the log just after. */
  datatype Visit = Visit(number: int, entered: Time, from: nat)

  /** Beside each log row: the role its author held, and the step found for a decision. */
  datatype Note = Note(role: Option<RoleId>, via: Option<Step>)

  /** An instance together with the history its row does not keep. */
  datatype Trace = Trace(inst: Instance, visits: seq<Visit>, notes: seq<Note>)

  function NoteOf(c: Chain, i: Instance, op: Op): Note {
    if Decision(op) then Note(op.role, FindActionable(c, i, op.actor, op.role)) else Note(None, None)
  }

  /** One request: refused requests change nothing. */
  function Observe(c: Chain, t: Trace, op: Op): Trace {
    match Decide(c, t.inst, op)
    case Err(_) => t
    case Ok(m) =>
      var next := Commit(c, t.inst, op, m);
      Trace(
        next,
        if m.Enter? then t.visits + [Visit(m.number, Clock(op), |next.log|)] else t.visits,
        t.notes + [NoteOf(c, t.inst, op)])
  }

  function Opening(c: Chain, now: Time): Trace
    requires FirstNumber(c).Some?
  {
    Trace(Start(c, now).value, [Visit(FirstNumber(c).value, now, 0)], [])
  }

  /** Any requests, in any order, from any trace. */
  function Continue(c: Chain, t: Trace, ops: seq<Op>): Trace {
    if ops == [] then t else Observe(c, Continue(c, t, ops[..|ops| - 1]), ops[|ops| - 1])
  }

  /** Everything that can happen to one instance: start it, then any requests in any order. */
  function Run(c: Chain, now: Time, ops: seq<Op>): Trace
    requires FirstNumber(c).Some?
  {
    Continue(c, Opening(c, now), ops)
  }

  lemma RunOne(c: Chain, now: Time, op: Op)
    requires FirstNumber(c).Some?
    ensures Run(c, now, [op]) == Observe(c, Opening(c, now), op)
  {
    assert [op][..0] == [];
    assert Continue(c, Opening(c, now), []) == Opening(c, now);
  }

  /** The trace keeps exactly what applying `Do` to the instance gives. */
  lemma ObserveIsDo(c: Chain, t: Trace, op: Op)
    ensures Observe(c, t, op).inst == match Do(c, t.inst, op) case Ok(i) => i case Err(_) => t.inst
  {
  }

  function Last<T>(s: seq<T>): T
    requires s != []
  {
    s[|s| - 1]
  }
}
