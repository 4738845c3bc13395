/**
 What the action log determines. A row names its author but not the role they presented, nor the step
 they were found through; so two runs may leave the same log on different steps. Here is exactly when.
 */
module WorkflowLog {
  import opened Wrappers
  import opened Timing
  import opened Identities
  import opened WorkflowSteps
  import opened WorkflowInstances
  import opened WorkflowVisits
  import opened WorkflowReplay
  import opened WorkflowReach
  import opened WorkflowReturns

  /* ---- Two ways for one user ---- */

  /** The step a user acts through without a delegation, once the group is escalated if it can be. */
  function Reached(group: seq<Step>, user: UserId, role: Option<RoleId>): Option<Step> {
    FindIn(group, false, TargetIn(group), user, role)
  }

  /** Presenting one role or the other, the user returns the instance to different numbers. */
  predicate TwoWays(group: seq<Step>, user: UserId, r: Option<RoleId>, r': Option<RoleId>) {
    var s, s' := Reached(group, user, r), Reached(group, user, r');
    && s.Some? && s'.Some? && s.value.rejectTo.Some? && s'.value.rejectTo.Some?
    && s.value.rejectTo != s'.value.rejectTo
  }

  /** The users a group mentions, and one it does not. */
  function UsersOf(group: seq<Step>): set<UserId> {
    (set s | s in group && s.specificUser.Some? :: s.specificUser.value)
    + (set s | s in group && s.escalateToUser.Some? :: s.escalateToUser.value)
    + {FreshUser(group)}
  }

  /** The roles a group mentions, one it does not, and none. */
  function RolesOf(group: seq<Step>): set<Option<RoleId>> {
    (set s | s in group :: s.requiredRole) + (set s | s in group :: s.escalateToRole) + {None, Some(FreshRole(group))}
  }

  /** Some user the group knows, or a stranger, has two ways. */
  predicate Ambiguous(group: seq<Step>) {
    exists user, r, r' | user in UsersOf(group) && r in RolesOf(group) && r' in RolesOf(group) ::
      TwoWays(group, user, r, r')
  }

  /** Some run stands on a number where it matters. */
  predicate LogAmbiguous(c: Chain) {
    exists n | n in LiveNumbers(c) :: Visitable(c, n) && Ambiguous(At(c, n))
  }

  /* ---- Strangers are alike ---- */

  function KnownUser(group: seq<Step>, user: UserId): UserId {
    if user in UsersOf(group) then user else FreshUser(group)
  }

  function KnownRole(group: seq<Step>, role: Option<RoleId>): Option<RoleId> {
    if role in RolesOf(group) then role else Some(FreshRole(group))
  }

  lemma SameToTheGroup(group: seq<Step>, s: Step, user: UserId, role: Option<RoleId>)
    requires s in group
    ensures Configured(s, user, role) <==> Configured(s, KnownUser(group, user), KnownRole(group, role))
    ensures EscalatesTo(s, user, role) <==> EscalatesTo(s, KnownUser(group, user), KnownRole(group, role))
  {
    assert s.specificUser.Some? ==> s.specificUser.value in UsersOf(group);
    assert s.escalateToUser.Some? ==> s.escalateToUser.value in UsersOf(group);
    assert s.requiredRole in RolesOf(group) && s.escalateToRole in RolesOf(group);
  }

  lemma {:induction false} FirstWhereSame(group: seq<Step>, f: Step -> bool, g: Step -> bool)
    requires forall s :: s in group ==> f(s) == g(s)
    ensures FirstWhere(group, f) == FirstWhere(group, g)
  {
    if group == [] {
    } else {
      assert f(group[0]) == g(group[0]);
      FirstWhereSame(group[1..], f, g);
    }
  }

  lemma ReachedByKnown(group: seq<Step>, user: UserId, role: Option<RoleId>)
    ensures Reached(group, user, role) == Reached(group, KnownUser(group, user), KnownRole(group, role))
  {
    var u, r := KnownUser(group, user), KnownRole(group, role);
    forall s | s in group
      ensures ByRight(false, user, role)(s) == ByRight(false, u, r)(s)
      ensures ByEscalation(user, role)(s) == ByEscalation(u, r)(s)
    {
      SameToTheGroup(group, s, user, role);
    }
    FirstWhereSame(group, ByRight(false, user, role), ByRight(false, u, r));
    FirstWhereSame(group, ByEscalation(user, role), ByEscalation(u, r));
  }

  /** Looking at the known users and roles is enough. */
  lemma AmbiguousExactly(group: seq<Step>)
    ensures Ambiguous(group) <==> exists user, r, r' :: TwoWays(group, user, r, r')
  {
    if user: UserId, r: Option<RoleId>, r': Option<RoleId> :| TwoWays(group, user, r, r') {
      ReachedByKnown(group, user, r);
      ReachedByKnown(group, user, r');
      assert TwoWays(group, KnownUser(group, user), KnownRole(group, r), KnownRole(group, r'));
    }
  }

  /** Without required roles and escalation roles nobody has two ways. */
  lemma NoRolesNoAmbiguity(group: seq<Step>)
    requires forall s :: s in group ==> s.approverType == SpecificUser && s.escalateToRole.None?
    ensures !Ambiguous(group)
  {
    forall user, r: Option<RoleId>, r': Option<RoleId> ensures Reached(group, user, r) == Reached(group, user, r') {
      FirstWhereSame(group, ByRight(false, user, r), ByRight(false, user, r'));
      FirstWhereSame(group, ByEscalation(user, r), ByEscalation(user, r'));
    }
  }

  /* ---- Equal logs, equal positions ---- */

  /** What the search gives in a state without delegation is what it gives once escalated. */
  lemma FoundIsReached(c: Chain, i: Instance, user: UserId, role: Option<RoleId>)
    requires FindActionable(c, i, user, role).Some? && user !in Delegates(i.log, i.current)
    requires i.escalatedAt.Some? ==> HasTarget(c, i.current)
    ensures FindActionable(c, i, user, role) == Reached(At(c, i.current), user, role)
  {
  }

  /** A pending instance carries the mark only where there is somebody to escalate to. */
  lemma {:induction false} MarkHasTarget(c: Chain, now: Time, ops: seq<Op>)
    requires FirstNumber(c).Some?
    ensures var i := Run(c, now, ops).inst; i.escalatedAt.Some? ==> HasTarget(c, i.current)
  {
    if ops == [] {
    } else {
      MarkHasTarget(c, now, ops[..|ops| - 1]);
    }
  }

  /** The part of an instance that decides what its next row does to it. */
  ghost predicate Alike(i: Instance, j: Instance) {
    i.log == j.log && i.status == j.status && i.current == j.current && (i.escalatedAt.Some? <==> j.escalatedAt.Some?)
  }

  /** Two returns by one user from alike instances lead to one number, unless the group is ambiguous. */
  lemma SameReturn(c: Chain, i: Instance, j: Instance, user: UserId, r: Option<RoleId>, r': Option<RoleId>)
    requires Alike(i, j) && !Ambiguous(At(c, i.current))
    requires (i.escalatedAt.Some? ==> HasTarget(c, i.current))
    requires FindActionable(c, i, user, r).Some? && FindActionable(c, i, user, r).value.rejectTo.Some?
    requires FindActionable(c, j, user, r').Some? && FindActionable(c, j, user, r').value.rejectTo.Some?
    ensures FindActionable(c, i, user, r).value.rejectTo == FindActionable(c, j, user, r').value.rejectTo
  {
    var group := At(c, i.current);
    if user in Delegates(i.log, i.current) {
      FindActionableDecides(c, i, user, r);
      FirstWhereAt(group, ByRight(true, user, r), 0);
      FirstWhereAt(group, ByRight(true, user, r'), 0);
    } else {
      FoundIsReached(c, i, user, r);
      FoundIsReached(c, j, user, r');
      AmbiguousExactly(group);
      assert !TwoWays(group, user, r, r');
    }
  }

  /** The same row, written to alike instances, makes the same move. */
  lemma SameRowSameMove(c: Chain, i: Instance, j: Instance, op: Op, op': Op)
    requires Alike(i, j) && Decide(c, i, op).Ok? && Decide(c, j, op').Ok?
    requires Entry(i, op, Decide(c, i, op).value) == Entry(j, op', Decide(c, j, op').value)
    requires i.escalatedAt.Some? ==> HasTarget(c, i.current)
    requires Live(c, i.current) && i.status == Pending ==> !Ambiguous(At(c, i.current))
    ensures Decide(c, i, op).value == Decide(c, j, op').value
  {
    if op.DoApprove? {
      OneApprovalMovesOn(c, i, op.actor, op.role, op.now);
      OneApprovalMovesOn(c, j, op'.actor, op'.role, op'.now);
    } else if op.DoReject? && Decide(c, i, op).value.Enter? {
      FindActionableDecides(c, i, op.actor, op.role);
      SameReturn(c, i, j, op.actor, op.role, op'.role);
    }
  }

  /** And leaves them alike. */
  lemma SameMoveAlike(c: Chain, i: Instance, j: Instance, op: Op, op': Op, m: Move)
    requires Alike(i, j) && Decide(c, i, op) == Ok(m) && Decide(c, j, op') == Ok(m)
    requires Entry(i, op, m) == Entry(j, op', m)
    ensures Alike(Commit(c, i, op, m), Commit(c, j, op', m))
  {
  }

  lemma SameLastRow(a: seq<Action>, x: Action, b: seq<Action>, y: Action)
    requires a + [x] == b + [y]
    ensures a == b && x == y
  {
    assert (a + [x])[|a|] == x && (b + [y])[|b|] == y;
    assert a == (a + [x])[..|a|] && b == (b + [y])[..|b|];
  }

  /** On a definition without ambiguity, runs with equal logs stand alike. */
  lemma {:induction false} EqualLogsStandAlike(c: Chain, now: Time, ops: seq<Op>, ops': seq<Op>)
    requires FirstNumber(c).Some? && !LogAmbiguous(c)
    requires Run(c, now, ops).inst.log == Run(c, now, ops').inst.log
    ensures Alike(Run(c, now, ops).inst, Run(c, now, ops').inst)
    decreases |ops| + |ops'|
  {
    if ops != [] && Decide(c, Run(c, now, ops[..|ops| - 1]).inst, Last(ops)).Err? {
      EqualLogsStandAlike(c, now, ops[..|ops| - 1], ops');
    } else if ops' != [] && Decide(c, Run(c, now, ops'[..|ops'| - 1]).inst, Last(ops')).Err? {
      EqualLogsStandAlike(c, now, ops, ops'[..|ops'| - 1]);
    } else if ops == [] || ops' == [] {
      assert ops == [] && ops' == [];
    } else {
      var t, t' := Run(c, now, ops[..|ops| - 1]), Run(c, now, ops'[..|ops'| - 1]);
      LogAfter(c, t, Last(ops));
      LogAfter(c, t', Last(ops'));
      SameLastRow(t.inst.log, Entry(t.inst, Last(ops), Decide(c, t.inst, Last(ops)).value),
                  t'.inst.log, Entry(t'.inst, Last(ops'), Decide(c, t'.inst, Last(ops')).value));
      EqualLogsStandAlike(c, now, ops[..|ops| - 1], ops'[..|ops'| - 1]);
      MarkHasTarget(c, now, ops[..|ops| - 1]);
      RunStaysVisitable(c, now, ops[..|ops| - 1]);
      SameRowSameMove(c, t.inst, t'.inst, Last(ops), Last(ops'));
      SameMoveAlike(c, t.inst, t'.inst, Last(ops), Last(ops'), Decide(c, t.inst, Last(ops)).value);
    }
  }

  /* ---- Ambiguity is met ---- */

  /** Some run stands where the user has two ways, with the mark the search supposes. */
  lemma StandBeforeTwoWays(c: Chain, now: Time, n: int) returns (ops: seq<Op>)
    requires ChainSchemaValid(c) && Visitable(c, n)
    ensures var i := Run(c, now, ops).inst;
            && i.status == Pending && i.current == n && i.escalatedAt.Some? == TargetIn(At(c, n))
            && Delegates(i.log, n) == {}
  {
    var before := StandOn(c, now, n);
    assert Delegates(Run(c, now, []).inst.log, n) == {};
    ops := EscalateIf(c, now, before, TargetIn(At(c, n)));
  }

  /** The rejection writes one row whichever role is presented, and enters the step's target. */
  lemma RejectedAs(c: Chain, now: Time, ops: seq<Op>, user: UserId, role: Option<RoleId>)
    requires FirstNumber(c).Some?
    requires var i := Run(c, now, ops).inst;
             && i.status == Pending && FindActionable(c, i, user, role).Some?
             && FindActionable(c, i, user, role).value.rejectTo.Some?
    ensures var i, j := Run(c, now, ops).inst, Run(c, now, ops + [DoReject(user, role, now)]).inst;
            && j.current == FindActionable(c, i, user, role).value.rejectTo.value
            && j.log == i.log + [Action(i.current, Reject, user, Some(Pending), Some(Pending), None)]
  {
    RunMore(c, now, ops, DoReject(user, role, now));
  }

  /** Two runs that the log cannot tell apart, standing on different numbers. */
  ghost predicate Confused(c: Chain, now: Time, ops: seq<Op>, ops': seq<Op>)
    requires FirstNumber(c).Some?
  {
    && Run(c, now, ops).inst.log == Run(c, now, ops').inst.log
    && PositionOf(Run(c, now, ops).inst) != PositionOf(Run(c, now, ops').inst)
  }

  lemma TwoWaysConfuse(c: Chain, now: Time, n: int, user: UserId, r: Option<RoleId>, r': Option<RoleId>)
    returns (ops: seq<Op>, ops': seq<Op>)
    requires ChainSchemaValid(c) && Visitable(c, n) && TwoWays(At(c, n), user, r, r')
    ensures Confused(c, now, ops, ops')
  {
    var before := StandBeforeTwoWays(c, now, n);
    RejectedAs(c, now, before, user, r);
    RejectedAs(c, now, before, user, r');
    ops, ops' := before + [DoReject(user, r, now)], before + [DoReject(user, r', now)];
  }

  /** Equal logs mean equal status and step number, over all pairs of runs. */
  ghost predicate LogDetermines(c: Chain, now: Time)
    requires FirstNumber(c).Some?
  {
    forall ops, ops' :: !Confused(c, now, ops, ops')
  }

  /**
   The log determines the position, whatever one does with it, if and only if there is no number some
   run stands on where one user, presenting one role or another, returns the instance to two numbers.
   */
  lemma LogDeterminesExactly(c: Chain, now: Time)
    requires FirstNumber(c).Some? && ChainSchemaValid(c)
    ensures LogDetermines(c, now) <==> !LogAmbiguous(c)
  {
    if LogAmbiguous(c) {
      var n :| n in LiveNumbers(c) && Visitable(c, n) && Ambiguous(At(c, n));
      var user, r, r' :| user in UsersOf(At(c, n)) && TwoWays(At(c, n), user, r, r');
      var ops, ops' := TwoWaysConfuse(c, now, n, user, r, r');
    } else {
      forall ops, ops' ensures !Confused(c, now, ops, ops') {
        if Run(c, now, ops).inst.log == Run(c, now, ops').inst.log {
          EqualLogsStandAlike(c, now, ops, ops');
        }
      }
    }
  }

  /** Where folding the log gives the position the log determines it; not conversely. */
  lemma ReplayedIsDetermined(c: Chain, now: Time)
    requires FirstNumber(c).Some? && ReturnsLogged(c)
    ensures LogDetermines(c, now)
  {
    forall ops, ops' ensures !Confused(c, now, ops, ops') {
      ReplayFollowsRun(c, now, ops);
      ReplayFollowsRun(c, now, ops');
    }
  }

  /* ---- Reading the log as well as can be ---- */

  /** Presenting this role, the user reaches a step that returns. */
  predicate ReturnsAs(group: seq<Step>, user: UserId, role: Option<RoleId>) {
    Reached(group, user, role).Some? && Reached(group, user, role).value.rejectTo.Some?
  }

  /** Where a return by this user leads: a delegate's by the leading step, anyone else's by a step they reach. */
  ghost function ReturnBy(group: seq<Step>, delegated: bool, user: UserId): Option<int> {
    if delegated then (if group == [] then None else group[0].rejectTo)
    else if r :| r in RolesOf(group) && ReturnsAs(group, user, r) then Reached(group, user, r).value.rejectTo
    else None
  }

  /** What a row says after the rows before it. */
  ghost function ReadRow(c: Chain, before: seq<Action>, p: Position, a: Action): Position {
    if a.kind == Reject && a.newStatus == Some(Pending) then
      match ReturnBy(At(c, a.stepNumber), a.actor in Delegates(before, a.stepNumber), a.actor)
      case None => p
      case Some(n) => Position(Pending, n)
    else ReplayRow(c, p, a)
  }

  ghost function Read(c: Chain, log: seq<Action>): Position
    requires FirstNumber(c).Some?
  {
    if log == [] then Position(Pending, FirstNumber(c).value)
    else
      var before := log[..|log| - 1];
      ReadRow(c, before, Read(c, before), log[|log| - 1])
  }

  lemma ReadAppend(c: Chain, log: seq<Action>, a: Action)
    requires FirstNumber(c).Some?
    ensures Read(c, log + [a]) == ReadRow(c, log, Read(c, log), a)
  {
    assert (log + [a])[..|log|] == log;
  }

  /** A role the group does not know is as good as one it knows. */
  lemma ReachedAsKnown(group: seq<Step>, user: UserId, role: Option<RoleId>)
    ensures KnownRole(group, role) in RolesOf(group)
    ensures Reached(group, user, role) == Reached(group, user, KnownRole(group, role))
  {
    ReachedByKnown(group, user, role);
    ReachedByKnown(group, user, KnownRole(group, role));
  }

  /** Unless the group is ambiguous, all the user's returns lead where this one leads. */
  lemma ReturnIsUnique(group: seq<Step>, user: UserId, role: Option<RoleId>)
    requires !Ambiguous(group) && ReturnsAs(group, user, role)
    ensures ReturnBy(group, false, user) == Reached(group, user, role).value.rejectTo
  {
    ReachedAsKnown(group, user, role);
    assert ReturnsAs(group, user, KnownRole(group, role));
    AmbiguousExactly(group);
    forall r | ReturnsAs(group, user, r)
      ensures Reached(group, user, r).value.rejectTo == Reached(group, user, role).value.rejectTo
    {
      assert !TwoWays(group, user, r, role);
    }
  }

  lemma ReturnIsRead(c: Chain, i: Instance, user: UserId, role: Option<RoleId>)
    requires !Ambiguous(At(c, i.current)) && (i.escalatedAt.Some? ==> HasTarget(c, i.current))
    requires FindActionable(c, i, user, role).Some? && FindActionable(c, i, user, role).value.rejectTo.Some?
    ensures ReturnBy(At(c, i.current), user in Delegates(i.log, i.current), user) ==
            FindActionable(c, i, user, role).value.rejectTo
  {
    if user in Delegates(i.log, i.current) {
      FindActionableDecides(c, i, user, role);
      FirstWhereAt(At(c, i.current), ByRight(true, user, role), 0);
    } else {
      FoundIsReached(c, i, user, role);
      ReturnIsUnique(At(c, i.current), user, role);
    }
  }

  /** One request: the row it writes is read as the move it made. */
  lemma ReadFollows(c: Chain, i: Instance, op: Op)
    requires Decide(c, i, op).Ok? && (i.escalatedAt.Some? ==> HasTarget(c, i.current))
    requires i.status == Pending && Live(c, i.current) ==> !Ambiguous(At(c, i.current))
    ensures var m := Decide(c, i, op).value;
            ReadRow(c, i.log, PositionOf(i), Entry(i, op, m)) == PositionOf(Commit(c, i, op, m))
  {
    if op.DoReject? && Decide(c, i, op).value.Enter? {
      FoundCanActThrough(c, i, op.actor, op.role);
      ReturnIsRead(c, i, op.actor, op.role);
    } else {
      ReplayFollows(c, i, PositionOf(i), op);
    }
  }

  lemma ReadFollowsObserve(c: Chain, t: Trace, op: Op)
    requires FirstNumber(c).Some? && Read(c, t.inst.log) == PositionOf(t.inst)
    requires t.inst.escalatedAt.Some? ==> HasTarget(c, t.inst.current)
    requires t.inst.status == Pending && Live(c, t.inst.current) ==> !Ambiguous(At(c, t.inst.current))
    ensures var i := Observe(c, t, op).inst; Read(c, i.log) == PositionOf(i)
  {
    if Decide(c, t.inst, op).Ok? {
      ReadFollows(c, t.inst, op);
      ReadAppend(c, t.inst.log, Entry(t.inst, op, Decide(c, t.inst, op).value));
      LogAfter(c, t, op);
    }
  }

  lemma {:induction false} ReadFollowsRun(c: Chain, now: Time, ops: seq<Op>)
    requires FirstNumber(c).Some? && !LogAmbiguous(c)
    ensures var i := Run(c, now, ops).inst; Read(c, i.log) == PositionOf(i)
  {
    if ops == [] {
    } else {
      var before := ops[..|ops| - 1];
      ReadFollowsRun(c, now, before);
      MarkHasTarget(c, now, before);
      RunStaysVisitable(c, now, before);
      ReadFollowsObserve(c, Run(c, now, before), Last(ops));
    }
  }

  /**
   So this reading is the best there is: it gives status and step number in every reachable state
   whenever the log determines them.
   */
  lemma ReadGivesPositionExactly(c: Chain, now: Time)
    requires FirstNumber(c).Some? && ChainSchemaValid(c)
    ensures (forall ops :: Read(c, Run(c, now, ops).inst.log) == PositionOf(Run(c, now, ops).inst)) <==>
            LogDetermines(c, now)
  {
    LogDeterminesExactly(c, now);
    if LogDetermines(c, now) {
      forall ops ensures Read(c, Run(c, now, ops).inst.log) == PositionOf(Run(c, now, ops).inst) {
        ReadFollowsRun(c, now, ops);
      }
    }
  }
}
