/**
 What rejections to another step do to a definition: exactly when they strand an instance, exactly
 when the log stops giving its step, and exactly when a delegation outlives the pass it was made in.
 Each answer is a condition on the definition that can be evaluated before it is activated.
 */
module WorkflowReturns {
  import opened Wrappers
  import opened Identities
  import opened Timing
  import opened WorkflowSteps
  import opened WorkflowInstances
  import opened WorkflowVisits
  import opened WorkflowReplay
  import opened WorkflowProvenance
  import opened WorkflowAccess
  import opened WorkflowReach

  /** Some run rejects through this step and goes where it returns to. */
  predicate CanReturn(c: Chain, s: Step) {
    Visitable(c, s.number) && CanActThrough(c, s) && s.rejectTo.Some?
  }

  /** Every accepted rejection that does not end the instance goes through such a step. */
  lemma RejectionReturns(c: Chain, now: Time, ops: seq<Op>, op: Op)
    requires FirstNumber(c).Some? && op.DoReject?
    requires var d := Decide(c, Run(c, now, ops).inst, op); d.Ok? && d.value.Enter?
    ensures var i := Run(c, now, ops).inst;
            var found := FindActionable(c, i, op.actor, op.role);
            && found.Some? && found.value in c.steps && found.value.number == i.current
            && CanReturn(c, found.value) && found.value.rejectTo == Some(Decide(c, i, op).value.number)
  {
    RunStaysVisitable(c, now, ops);
    FoundCanActThrough(c, Run(c, now, ops).inst, op.actor, op.role);
  }

  /** And every such step is rejected through in some run. */
  lemma SomeRunIsReady(c: Chain, now: Time, s: Step) returns (ops: seq<Op>, user: UserId, role: Option<RoleId>)
    requires ChainSchemaValid(c) && CanReturn(c, s)
    ensures ReadyThrough(c, now, [], ops, s, user, role)
  {
    var before := StandOn(c, now, s.number);
    ops, user, role := ReadyFor(c, now, before, s);
  }

  /* ---- Stranding ---- */

  /** Every return leads to a number with an applicable step. */
  predicate ReturnsLive(c: Chain) {
    forall s | s in c.steps :: CanReturn(c, s) ==> Live(c, s.rejectTo.value)
  }

  /** No reachable pending instance stands on an empty group. */
  ghost predicate NeverStranded(c: Chain, now: Time)
    requires FirstNumber(c).Some?
  {
    forall ops :: Run(c, now, ops).inst.status == Pending ==> Live(c, Run(c, now, ops).inst.current)
  }

  lemma {:induction false} PendingGroupIsLive(c: Chain, now: Time, ops: seq<Op>)
    requires FirstNumber(c).Some? && ReturnsLive(c)
    ensures Run(c, now, ops).inst.status == Pending ==> Live(c, Run(c, now, ops).inst.current)
  {
    if ops == [] {
      NextNumberIsLeast(c, 0);
    } else {
      PendingGroupIsLive(c, now, ops[..|ops| - 1]);
      var i, op := Run(c, now, ops[..|ops| - 1]).inst, Last(ops);
      if op.DoApprove? && Decide(c, i, op).Ok? {
        OneApprovalMovesOn(c, i, op.actor, op.role, op.now);
        NextNumberIsLeast(c, i.current);
      } else if op.DoReject? && Decide(c, i, op).Ok? && Decide(c, i, op).value.Enter? {
        RejectionReturns(c, now, ops[..|ops| - 1], op);
      }
    }
  }

  lemma SomeRunStrands(c: Chain, now: Time, s: Step) returns (ops: seq<Op>)
    requires ChainSchemaValid(c) && CanReturn(c, s) && !Live(c, s.rejectTo.value)
    ensures Run(c, now, ops).inst.status == Pending && !Live(c, Run(c, now, ops).inst.current)
  {
    var ready, user, role := SomeRunIsReady(c, now, s);
    RejectThrough(c, now, [], ready, s, user, role);
    ops := ready + [DoReject(user, role, now)];
  }

  /**
   No reachable pending instance is stranded if and only if every step that someone can act through,
   on a number some run stands on, returns to a number with an applicable step, or nowhere.
   */
  lemma StrandedExactlyByBadTargets(c: Chain, now: Time)
    requires FirstNumber(c).Some? && ChainSchemaValid(c)
    ensures NeverStranded(c, now) <==> ReturnsLive(c)
  {
    if ReturnsLive(c) {
      forall ops ensures Run(c, now, ops).inst.status == Pending ==> Live(c, Run(c, now, ops).inst.current) {
        PendingGroupIsLive(c, now, ops);
      }
    } else {
      var s :| s in c.steps && CanReturn(c, s) && !Live(c, s.rejectTo.value);
      var ops := SomeRunStrands(c, now, s);
    }
  }

  /** Progress: someone can act on every reachable pending instance under the same condition, and only then. */
  lemma EveryReachableInstanceCanMove(c: Chain, now: Time)
    requires FirstNumber(c).Some? && ChainSchemaValid(c)
    ensures (forall ops :: Run(c, now, ops).inst.status == Pending ==>
                             exists user, role :: InInbox(c, Run(c, now, ops).inst, user, role)) <==> ReturnsLive(c)
  {
    StrandedExactlyByBadTargets(c, now);
    forall ops | Run(c, now, ops).inst.status == Pending
      ensures (exists user, role :: InInbox(c, Run(c, now, ops).inst, user, role)) <==>
              Live(c, Run(c, now, ops).inst.current)
    {
      SomeoneCanActExactlyWhenLive(c, Run(c, now, ops).inst);
    }
  }

  /** Without parallel groups every schema-valid step can be acted through. */
  lemma AloneCanActThrough(c: Chain, s: Step)
    requires At(c, s.number) == [s]
    ensures CanActThrough(c, s)
  {
    assert At(c, s.number)[0] == s;
  }

  /* ---- Replaying the log ---- */

  /** Every return leads to the first configured target of its number. */
  predicate ReturnsLogged(c: Chain) {
    forall s | s in c.steps :: CanReturn(c, s) ==> ReturnTarget(At(c, s.number)) == s.rejectTo
  }

  /** Folding the log of this instance gives its status and its step number. */
  ghost predicate Replays(c: Chain, i: Instance)
    requires FirstNumber(c).Some?
  {
    Replay(c, i.log) == PositionOf(i)
  }

  lemma {:induction false} ReplayFollowsRun(c: Chain, now: Time, ops: seq<Op>)
    requires FirstNumber(c).Some? && ReturnsLogged(c)
    ensures Replays(c, Run(c, now, ops).inst)
  {
    if ops == [] {
    } else {
      ReplayFollowsRun(c, now, ops[..|ops| - 1]);
      var i, op := Run(c, now, ops[..|ops| - 1]).inst, Last(ops);
      var d := Decide(c, i, op);
      if d.Ok? {
        ReplayFollows(c, i, Replay(c, i.log), op);
        ReplayAppend(c, i.log, Entry(i, op, d.value));
        if op.DoReject? && d.value.Enter? {
          RejectionReturns(c, now, ops[..|ops| - 1], op);
        }
      }
    }
  }

  /** A run in which a return leaves its number by another way than the logged one is replayed wrongly. */
  lemma ReplayStrays(c: Chain, now: Time, ready: seq<Op>, s: Step, user: UserId, role: Option<RoleId>)
    requires FirstNumber(c).Some? && ReadyThrough(c, now, [], ready, s, user, role)
    requires s.rejectTo.Some? && ReturnTarget(At(c, s.number)) != s.rejectTo
    requires Replays(c, Run(c, now, ready).inst)
    ensures !Replays(c, Run(c, now, ready + [DoReject(user, role, now)]).inst)
  {
    var i, op := Run(c, now, ready).inst, DoReject(user, role, now);
    RunMore(c, now, ready, op);
    ReplayFollows(c, i, Replay(c, i.log), op);
    ReplayAppend(c, i.log, Entry(i, op, Enter(s.rejectTo.value)));
  }

  lemma SomeRunStrays(c: Chain, now: Time, s: Step) returns (ops: seq<Op>)
    requires ChainSchemaValid(c) && CanReturn(c, s) && ReturnTarget(At(c, s.number)) != s.rejectTo
    ensures !Replays(c, Run(c, now, ops).inst)
  {
    var ready, user, role := SomeRunIsReady(c, now, s);
    ops := ready;
    if Replays(c, Run(c, now, ready).inst) {
      ReplayStrays(c, now, ready, s, user, role);
      ops := ready + [DoReject(user, role, now)];
    }
  }

  /**
   Folding the log gives the status and the step number on every reachable state if and only if
   every step that can return goes to the first configured target of its number.
   */
  lemma ReplayGivesPositionExactly(c: Chain, now: Time)
    requires FirstNumber(c).Some? && ChainSchemaValid(c)
    ensures (forall ops :: Replays(c, Run(c, now, ops).inst)) <==> ReturnsLogged(c)
  {
    if ReturnsLogged(c) {
      forall ops ensures Replays(c, Run(c, now, ops).inst) {
        ReplayFollowsRun(c, now, ops);
      }
    } else {
      var s :| s in c.steps && CanReturn(c, s) && ReturnTarget(At(c, s.number)) != s.rejectTo;
      var ops := SomeRunStrays(c, now, s);
    }
  }

  /** In particular when the targets within each number agree. */
  lemma ReplayGivesPosition(c: Chain, now: Time, ops: seq<Op>)
    requires FirstNumber(c).Some? && TargetsAgree(c)
    ensures Replays(c, Run(c, now, ops).inst)
  {
    forall s | s in c.steps && CanReturn(c, s) ensures ReturnTarget(At(c, s.number)) == s.rejectTo {
      ReturnTargetMember(At(c, s.number));
      assert s in At(c, s.number);
    }
    ReplayFollowsRun(c, now, ops);
  }

  /* ---- Delegations and passes ---- */

  /** The log rows of the current visit. */
  function ThisPass(t: Trace): seq<Action> {
    if t.visits == [] || Last(t.visits).from > |t.inst.log| then t.inst.log else t.inst.log[Last(t.visits).from..]
  }

  /** A right to act that rests on no delegation of an earlier visit. */
  ghost predicate RightOfThisPass(c: Chain, t: Trace, user: UserId, role: Option<RoleId>) {
    || ConfiguredAt(c, t.inst.current, user, role)
    || (t.inst.escalatedAt.Some? && TargetAt(c, t.inst.current, user, role))
    || user in Delegates(ThisPass(t), t.inst.current)
  }

  /** The documented scope: over every run, a delegation counts only in the pass it was made in. */
  ghost predicate PassScoped(c: Chain, now: Time)
    requires FirstNumber(c).Some?
  {
    forall ops, user, role :: InInbox(c, Run(c, now, ops).inst, user, role) ==>
      RightOfThisPass(c, Run(c, now, ops), user, role)
  }

  /** Every return to an applicable number leads strictly forward. */
  predicate ReturnsForward(c: Chain) {
    forall s | s in c.steps :: CanReturn(c, s) && Live(c, s.rejectTo.value) ==> s.number < s.rejectTo.value
  }

  /** Everything logged before the current visit was logged under a smaller number. */
  ghost predicate EarlierRowsBelow(t: Trace) {
    forall k :: 0 <= k < |t.inst.log| - |ThisPass(t)| ==> t.inst.log[k].stepNumber < t.inst.current
  }

  /** Entering a larger number keeps that so. */
  lemma EnteringAbove(c: Chain, t: Trace, op: Op)
    requires Kept(c, t) && t.inst.status == Pending && EarlierRowsBelow(t)
    requires var d := Decide(c, t.inst, op); d.Ok? && d.value.Enter? && t.inst.current < d.value.number
    ensures EarlierRowsBelow(Observe(c, t, op))
  {
    forall k | 0 <= k < |t.inst.log| ensures t.inst.log[k].stepNumber <= t.inst.current {
      assert k < |t.inst.log| - |ThisPass(t)| || ThisVisit(t, k);
    }
  }

  /** One accepted request that enters a step leads forward, or nowhere. */
  lemma EntryGoesForward(c: Chain, now: Time, before: seq<Op>, op: Op)
    requires FirstNumber(c).Some? && ReturnsForward(c)
    requires var d := Decide(c, Run(c, now, before).inst, op); d.Ok? && d.value.Enter?
    ensures var i := Run(c, now, before).inst;
            var n := Decide(c, i, op).value.number;
            i.status == Pending && Live(c, i.current) && (Live(c, n) ==> i.current < n)
  {
    var i := Run(c, now, before).inst;
    FoundCanActThrough(c, i, op.actor, op.role);
    if op.DoApprove? {
      OneApprovalMovesOn(c, i, op.actor, op.role, op.now);
      NextNumberIsLeast(c, i.current);
    } else {
      RejectionReturns(c, now, before, op);
    }
  }

  lemma {:induction false} VisitsGoForward(c: Chain, now: Time, ops: seq<Op>)
    requires FirstNumber(c).Some? && ReturnsForward(c)
    ensures var t := Run(c, now, ops);
            t.inst.status == Pending && Live(c, t.inst.current) ==> EarlierRowsBelow(t)
  {
    if ops == [] {
    } else {
      var before := ops[..|ops| - 1];
      VisitsGoForward(c, now, before);
      RunKeeps(c, now, before);
      var t, op := Run(c, now, before), Last(ops);
      var d := Decide(c, t.inst, op);
      if d.Ok? && d.value.Enter? {
        EntryGoesForward(c, now, before, op);
        if Live(c, d.value.number) {
          EnteringAbove(c, t, op);
        }
      }
    }
  }

  /** Then a delegate of the current number was delegated it in this visit. */
  lemma DelegatedInThisPass(t: Trace, user: UserId)
    requires EarlierRowsBelow(t) && user in Delegates(t.inst.log, t.inst.current)
    ensures user in Delegates(ThisPass(t), t.inst.current)
  {
    var k := DelegationRow(t.inst.log, t.inst.current, user);
    var first := |t.inst.log| - |ThisPass(t)|;
    assert ThisPass(t)[k - first] == t.inst.log[k];
  }

  /** One user was delegated one step number, and nobody any other. */
  ghost predicate OnlyDelegate(log: seq<Action>, n: int, to: UserId) {
    forall m :: Delegates(log, m) == if m == n then {to} else {}
  }

  /** The approver of the leading step delegates the current number to a user. */
  lemma LeaderDelegates(c: Chain, now: Time, before: seq<Op>, n: int, to: UserId) returns (ops: seq<Op>)
    requires FirstNumber(c).Some? && ChainSchemaValid(c) && Live(c, n)
    requires Entered(c, now, [], before, n)
    ensures var i := Run(c, now, ops).inst;
            i.status == Pending && i.current == n && i.escalatedAt.None? && OnlyDelegate(i.log, n, to)
  {
    var i := Run(c, now, before).inst;
    assert At(c, n)[0] in At(c, n);
    LeaderFound(c, i);
    var (user, role) := Approver(At(c, n)[0]);
    var op := DoDelegate(user, role, to);
    ops := before + [op];
    RunMore(c, now, before, op);
    forall m ensures Delegates(i.log + [Entry(i, op, Stay)], m) == if m == n then {to} else {} {
      DelegatesAppend(i.log, Entry(i, op, Stay), m);
      assert Delegates(Run(c, now, []).inst.log, m) == {};
    }
  }

  /** The leaders walk an instance on to a later applicable number, or leave it where it is. */
  lemma WalkOnFrom(c: Chain, now: Time, before: seq<Op>, n: int) returns (ops: seq<Op>)
    requires FirstNumber(c).Some? && ChainSchemaValid(c) && Live(c, n)
    requires var i := Run(c, now, before).inst;
             i.status == Pending && i.escalatedAt.None? && Live(c, i.current) && i.current <= n
    ensures var i := Run(c, now, ops).inst;
            && i.status == Pending && i.current == n && i.escalatedAt.None?
            && SameDelegates(Run(c, now, before).inst.log, i.log)
  {
    var m := Run(c, now, before).inst.current;
    if m == n {
      ops := before;
    } else {
      NextNumberIsLeast(c, m);
      var next := LeaderApproves(c, now, before);
      ops := Walk(c, now, before, next, NextNumber(c, m).value, n);
    }
  }

  /** Some run delegates step n to a user and then stands, unescalated, on a later number. */
  lemma DelegateAndWalk(c: Chain, now: Time, n: int, to: UserId, above: int) returns (ops: seq<Op>)
    requires ChainSchemaValid(c) && Visitable(c, n) && Live(c, above) && n <= above
    ensures var i := Run(c, now, ops).inst;
            i.status == Pending && i.current == above && i.escalatedAt.None? && OnlyDelegate(i.log, n, to)
  {
    var first := StandOn(c, now, n);
    var delegated := LeaderDelegates(c, now, first, n, to);
    ops := WalkOnFrom(c, now, delegated, above);
  }

  /** The run returns to a step with a delegate of an earlier visit, whom nothing else entitles. */
  ghost predicate Outlived(c: Chain, now: Time, ops: seq<Op>, user: UserId, role: Option<RoleId>)
    requires FirstNumber(c).Some?
  {
    InInbox(c, Run(c, now, ops).inst, user, role) && !RightOfThisPass(c, Run(c, now, ops), user, role)
  }

  /** Nobody configured at n, the user acts there on a fresh visit by an old delegation. */
  lemma OldDelegateActs(c: Chain, now: Time, before: seq<Op>, ops: seq<Op>, n: int, user: UserId, role: Option<RoleId>)
    requires FirstNumber(c).Some? && Entered(c, now, before, ops, n) && Live(c, n)
    requires user in Delegates(Run(c, now, before).inst.log, n)
    requires forall s :: s in At(c, n) ==> !Configured(s, user, role)
    ensures Outlived(c, now, ops, user, role)
  {
    var t := Run(c, now, ops);
    assert At(c, n)[0] in At(c, n);
    FindActionableDecides(c, t.inst, user, role);
    assert ThisPass(t) == [];
  }

  /** Someone other than the delegate returns the instance through s. */
  lemma ReturnThrough(c: Chain, now: Time, before: seq<Op>, s: Step, escalated: bool, user: UserId,
          role: Option<RoleId>)
    returns (ops: seq<Op>)
    requires FirstNumber(c).Some? && s.rejectTo.Some?
    requires var i := Run(c, now, before).inst;
             i.status == Pending && i.current == s.number && i.escalatedAt.None? && user !in Delegates(i.log, i.current)
    requires FindIn(At(c, s.number), false, escalated, user, role) == Some(s) && (escalated ==> HasTarget(c, s.number))
    ensures Entered(c, now, before, ops, s.rejectTo.value)
  {
    var ready := GetReady(c, now, before, s, escalated, user, role);
    RejectThrough(c, now, before, ready, s, user, role);
    ops := ready + [DoReject(user, role, now)];
  }

  /** The step a return leads to is delegated before the return. */
  lemma DelegateAndReturn(c: Chain, now: Time, s: Step, to: UserId, escalated: bool, user: UserId, role: Option<RoleId>)
    returns (before: seq<Op>, ops: seq<Op>)
    requires ChainSchemaValid(c) && s.rejectTo.Some? && s.rejectTo.value <= s.number
    requires Visitable(c, s.rejectTo.value) && Live(c, s.number) && user != to
    requires FindIn(At(c, s.number), false, escalated, user, role) == Some(s) && (escalated ==> HasTarget(c, s.number))
    ensures Entered(c, now, before, ops, s.rejectTo.value)
    ensures to in Delegates(Run(c, now, before).inst.log, s.rejectTo.value)
  {
    before := DelegateAndWalk(c, now, s.rejectTo.value, to, s.number);
    ops := ReturnThrough(c, now, before, s, escalated, user, role);
  }

  /** A return that does not lead forward lets a delegation outlive its pass. */
  lemma SomeDelegationOutlives(c: Chain, now: Time, s: Step) returns (ops: seq<Op>, to: UserId, role: Option<RoleId>)
    requires ChainSchemaValid(c) && s in c.steps && CanReturn(c, s) && Live(c, s.rejectTo.value)
             && s.rejectTo.value <= s.number
    ensures Outlived(c, now, ops, to, role)
  {
    var n, group := s.rejectTo.value, At(c, s.number);
    assert group[0] in group;
    TargetIsVisitable(c, s);
    var escalated, user, userRole := SomeoneActsThrough(group, s);
    to, role := FreshUser(At(c, n)) + user + 1, Some(FreshRole(At(c, n)));
    var before;
    before, ops := DelegateAndReturn(c, now, s, to, escalated, user, userRole);
    OldDelegateActs(c, now, before, ops, n, to, role);
  }

  /**
   The documented scope of a delegation holds over every run of a definition if and only if none
   of its returns leads to an applicable number at or below its own.
   */
  lemma PassScopedExactly(c: Chain, now: Time)
    requires FirstNumber(c).Some? && ChainSchemaValid(c)
    ensures PassScoped(c, now) <==> ReturnsForward(c)
  {
    if ReturnsForward(c) {
      forall ops, user, role | InInbox(c, Run(c, now, ops).inst, user, role)
        ensures RightOfThisPass(c, Run(c, now, ops), user, role)
      {
        var t := Run(c, now, ops);
        VisitsGoForward(c, now, ops);
        FoundCanActThrough(c, t.inst, user, role);
        FindActionableDecides(c, t.inst, user, role);
        if user in Delegates(t.inst.log, t.inst.current) {
          DelegatedInThisPass(t, user);
        }
      }
    } else {
      var s :| s in c.steps && CanReturn(c, s) && Live(c, s.rejectTo.value) && s.rejectTo.value <= s.number;
      var ops, user, role := SomeDelegationOutlives(c, now, s);
    }
  }
}
