/**
 Who can act, who is told, and whether anyone can: the inbox against the permission checks,
 the notified users against both, and progress of every reachable instance.
 */
module WorkflowAccess {
  import opened Wrappers
  import opened Identities
  import opened Timing
  import opened WorkflowSteps
  import opened WorkflowInstances
  import opened WorkflowVisits

  /* ---- Inbox and permission ---- */

  /** What the inbox shows a user: pending instances with a step found for them. */
  predicate InInbox(c: Chain, i: Instance, user: UserId, role: Option<RoleId>) {
    i.status == Pending && FindActionable(c, i, user, role).Some?
  }

  /** An instance is in a user's inbox exactly when approving, rejecting and delegating it would each be accepted. */
  lemma InboxIsPermission(c: Chain, i: Instance, user: UserId, role: Option<RoleId>, to: UserId, now: Time)
    ensures InInbox(c, i, user, role) <==> i.status == Pending && MayAct(c, i, user, role)
    ensures InInbox(c, i, user, role) <==> Do(c, i, DoApprove(user, role, now)).Ok?
    ensures InInbox(c, i, user, role) <==> Do(c, i, DoReject(user, role, now)).Ok?
    ensures InInbox(c, i, user, role) <==> Do(c, i, DoDelegate(user, role, to)).Ok?
  {
    FindActionableDecides(c, i, user, role);
  }

  /* ---- Notification ---- */

  /** The users of a tenant with the role each holds. */
  type Directory = map<UserId, Option<RoleId>>

  predicate Named(s: Step, user: UserId, dir: Directory) {
    || (s.approverType == SpecificUser && s.specificUser == Some(user))
    || (s.approverType == SpecificRole && s.requiredRole.Some? && user in dir && dir[user] == s.requiredRole)
  }

  predicate NamedTarget(s: Step, user: UserId, dir: Directory) {
    || s.escalateToUser == Some(user)
    || (s.escalateToRole.Some? && user in dir && dir[user] == s.escalateToRole)
  }

  /** The users told when an instance enters step number n. */
  function Notified(c: Chain, n: int, dir: Directory): (r: set<UserId>)
    ensures forall u :: u in r <==> exists s :: s in At(c, n) && Named(s, u, dir)
  {
    var named := set s | s in At(c, n) && s.approverType == SpecificUser && s.specificUser.Some?
      :: s.specificUser.value;
    var holders := set u | u in dir && exists s ::
      s in At(c, n) && s.approverType == SpecificRole && s.requiredRole.Some? && dir[u] == s.requiredRole;
    assert forall u :: u in named ==>
        exists s :: s in At(c, n) && s.approverType == SpecificUser && s.specificUser == Some(u);
    named + holders
  }

  /** The users told of an escalation at step number n. */
  function EscalationUsers(c: Chain, n: int, dir: Directory): (r: set<UserId>)
    ensures forall u :: u in r <==> exists s :: s in At(c, n) && NamedTarget(s, u, dir)
  {
    var named := set s | s in At(c, n) && s.escalateToUser.Some? :: s.escalateToUser.value;
    var holders := set u | u in dir && exists s ::
      s in At(c, n) && s.escalateToRole.Some? && dir[u] == s.escalateToRole;
    assert forall u :: u in named ==> exists s :: s in At(c, n) && s.escalateToUser == Some(u);
    named + holders
  }

  /** The role claim a user presents is the one the directory gives them. */
  predicate Presents(dir: Directory, user: UserId, role: Option<RoleId>) {
    user in dir ==> role == dir[user]
  }

  /**
   For users of the directory on a schema-valid definition, the right to act is exactly: told on
   entry of this step, delegated this step number, or told of the escalation in force.
   */
  lemma ActingIsBeingTold(c: Chain, i: Instance, dir: Directory, user: UserId)
    requires ChainSchemaValid(c) && user in dir
    ensures MayAct(c, i, user, dir[user]) <==>
            || user in Notified(c, i.current, dir)
            || (Live(c, i.current) && user in Delegates(i.log, i.current))
            || (i.escalatedAt.Some? && user in EscalationUsers(c, i.current, dir))
  {
    forall s | s in At(c, i.current)
      ensures Configured(s, user, dir[user]) <==> Named(s, user, dir)
      ensures EscalatesTo(s, user, dir[user]) <==> NamedTarget(s, user, dir)
    {
      assert SchemaValid(s);
    }
    if Live(c, i.current) {
      assert At(c, i.current)[0] in At(c, i.current);
    }
  }

  /** Whoever is told that an instance entered its step finds it in their inbox, in the directory or not. */
  lemma ToldOnEntryHaveIt(c: Chain, i: Instance, dir: Directory, user: UserId, role: Option<RoleId>)
    requires i.status == Pending && user in Notified(c, i.current, dir) && Presents(dir, user, role)
    ensures InInbox(c, i, user, role)
  {
    var s :| s in At(c, i.current) && Named(s, user, dir);
    assert Configured(s, user, role);
    FindActionableDecides(c, i, user, role);
  }

  /** Whoever is told of an escalation finds the instance in their inbox once it is recorded. */
  lemma ToldOfEscalationHaveIt(c: Chain, i: Instance, caller: Option<UserId>, now: Time, dir: Directory,
          user: UserId, role: Option<RoleId>)
    requires Do(c, i, DoEscalate(caller, now)).Ok?
    requires user in EscalationUsers(c, i.current, dir) && Presents(dir, user, role)
    ensures InInbox(c, Do(c, i, DoEscalate(caller, now)).value, user, role)
  {
    var j := Do(c, i, DoEscalate(caller, now)).value;
    var s :| s in At(c, i.current) && NamedTarget(s, user, dir);
    assert s in At(c, j.current) && EscalatesTo(s, user, role);
    FindActionableDecides(c, j, user, role);
  }

  /* ---- Progress ---- */

  /** Someone the first step of a group is configured for. */
  function Approver(s: Step): (UserId, Option<RoleId>) {
    if s.approverType == SpecificUser && s.specificUser.Some? then (s.specificUser.value, None) else (1, s.requiredRole)
  }

  /** The approver of the leading step of the group is found through that step. */
  lemma LeaderFound(c: Chain, i: Instance)
    requires Live(c, i.current) && SchemaValid(At(c, i.current)[0])
    ensures var (user, role) := Approver(At(c, i.current)[0]);
            FindActionable(c, i, user, role) == Some(At(c, i.current)[0])
  {
    assert Configured(At(c, i.current)[0], Approver(At(c, i.current)[0]).0, Approver(At(c, i.current)[0]).1);
  }

  /** With schema-valid approvers, someone can act exactly when the current group is not empty. */
  lemma SomeoneCanActExactlyWhenLive(c: Chain, i: Instance)
    requires ChainSchemaValid(c) && i.status == Pending
    ensures (exists user, role :: InInbox(c, i, user, role)) <==> Live(c, i.current)
  {
    if Live(c, i.current) {
      assert At(c, i.current)[0] in At(c, i.current);
      LeaderFound(c, i);
      assert InInbox(c, i, Approver(At(c, i.current)[0]).0, Approver(At(c, i.current)[0]).1);
    }
    if user: UserId, role: Option<RoleId> :| InInbox(c, i, user, role) {
      FindActionableDecides(c, i, user, role);
    }
  }

  /** An instance on an empty group never leaves it: it can only be commented on or cancelled. */
  lemma {:induction false} EmptyGroupIsADeadEnd(c: Chain, t: Trace, ops: seq<Op>)
    requires !Live(c, t.inst.current)
    ensures var i := Continue(c, t, ops).inst;
            && i.current == t.inst.current
            && (t.inst.status == Pending ==> i.status == Pending || i.status == Cancelled)
            && forall k :: |t.inst.log| <= k < |i.log| ==> i.log[k].kind in {Comment, Cancel}
  {
    if ops == [] {
    } else {
      EmptyGroupIsADeadEnd(c, t, ops[..|ops| - 1]);
      var i, op := Continue(c, t, ops[..|ops| - 1]).inst, Last(ops);
      LogOnlyGrows(c, t, ops[..|ops| - 1]);
      if Decision(op) {
        FindActionableDecides(c, i, op.actor, op.role);
      }
    }
  }
}
