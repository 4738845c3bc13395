/**
 Seat conservation: no operation takes a tenant's seats in use beyond the larger of its limit
 and what was in use before, and accepting an invitation moves a seat without changing the count.
 */
module MembershipSeats {
  import opened Wrappers
  import opened Identities
  import opened Credentials
  import opened Timing
  import opened Membership

  function Max(a: nat, b: nat): nat {
    if a < b then b else a
  }

  /** Every row belongs to a tenant that exists. */
  ghost predicate Housed(o: Org) {
    && (forall u :: u in o.users ==> o.users[u].tenant in o.tenants)
    && (forall i :: i in o.invitations ==> o.invitations[i].tenant in o.tenants)
    && (forall r :: r in o.roles ==> o.roles[r] in o.tenants)
  }

  lemma AfterHoused(o: Org, op: OrgOp)
    requires Housed(o)
    ensures Housed(After(o, op)) && o.tenants.Keys <= After(o, op).tenants.Keys
  {
  }

  lemma {:induction false} RunHoused(o: Org, ops: seq<OrgOp>)
    requires Housed(o)
    ensures Housed(RunOrg(o, ops)) && o.tenants.Keys <= RunOrg(o, ops).tenants.Keys
  {
    if ops == [] {
    } else {
      RunHoused(o, ops[..|ops| - 1]);
      AfterHoused(RunOrg(o, ops[..|ops| - 1]), ops[|ops| - 1]);
    }
  }

  lemma OneUser(o: Org, p: Org, user: UserId, v: User, t: TenantId)
    requires p.users == o.users[user := v]
    ensures ActiveUsers(p, t) ==
            if v.tenant == t && v.status == Active then ActiveUsers(o, t) + {user}
            else ActiveUsers(o, t) - {user}
  {
  }

  lemma OneInvitation(o: Org, p: Org, id: InvitationId, v: Invitation, t: TenantId)
    requires p.invitations == o.invitations[id := v]
    ensures PendingInvitations(p, t) ==
            if v.tenant == t && v.status == Pending then PendingInvitations(o, t) + {id}
            else PendingInvitations(o, t) - {id}
  {
  }

  predicate IsActive(o: Org, user: UserId) {
    user in o.users && o.users[user].status == Active
  }

  /** The tenant whose rows a call changes. */
  function Acting(o: Org, op: OrgOp): Option<TenantId> {
    match op
    case Accept(token, _, _, now) =>
      (match Lookup(o, token, now)
       case None => None
       case Some(id) => Some(o.invitations[id].tenant))
    case _ => Some(op.tenant)
  }

  /** Seats an accepted call takes (or, below zero, frees) in its own tenant. */
  function SeatsTaken(o: Org, op: OrgOp): int {
    match op
    case SignUp(_, _, _, _, _, _) => 1
    case Invite(_, _, _, _, _, _, _) => 1
    case CancelInvitation(_, _) => -1
    case Suspend(_, user) => if IsActive(o, user) then -1 else 0
    case Remove(_, user) => if IsActive(o, user) then -1 else 0
    case Reactivate(_, user, _) => if IsActive(o, user) then 0 else 1
    case _ => 0
  }

  /** The exact change of the seats of tenant t. */
  ghost predicate SeatsMove(o: Org, op: OrgOp, t: TenantId) {
    Seats(After(o, op), t) ==
    Seats(o, t) + (if OrgDo(o, op).Ok? && Acting(o, op) == Some(t) then SeatsTaken(o, op) else 0)
  }

  /** Accepting turns a pending invitation into an active user: the count stays. */
  lemma AcceptKeepsSeats(o: Org, op: OrgOp, t: TenantId)
    requires op.Accept?
    ensures SeatsMove(o, op, t)
  {
    if OrgDo(o, op).Ok? {
      var p, id := After(o, op), Lookup(o, op.token, op.now).value;
      var i := o.invitations[id];
      OneUser(o, p, op.user, User(i.tenant, i.email, Some(i.role), Active), t);
      OneInvitation(o, p, id, i.(status := Accepted), t);
    }
  }

  /** Putting one element in or taking it out. */
  lemma ResizedBy<T>(a: set<T>, b: set<T>, x: T, now: bool)
    requires b == if now then a + {x} else a - {x}
    ensures |b| == |a| - (if x in a then 1 else 0) + (if now then 1 else 0)
  {
    assert a == (a - {x}) + (if x in a then {x} else {});
    assert a + {x} == (a - {x}) + {x};
  }

  /** Writing one invitation's row moves the count by that row alone. */
  lemma OneInvitationSeats(o: Org, p: Org, id: InvitationId, v: Invitation, t: TenantId)
    requires p.invitations == o.invitations[id := v] && p.users == o.users
    ensures var now := v.tenant == t && v.status == Pending;
            Seats(p, t) == Seats(o, t) - (if PendingOf(o, t, id) then 1 else 0) + (if now then 1 else 0)
  {
    OneInvitation(o, p, id, v, t);
    ResizedBy(PendingInvitations(o, t), PendingInvitations(p, t), id, v.tenant == t && v.status == Pending);
    assert ActiveUsers(p, t) == ActiveUsers(o, t);
  }

  lemma InvitationSeats(o: Org, op: OrgOp, t: TenantId)
    requires op.Invite? || op.Resend? || op.CancelInvitation?
    ensures SeatsMove(o, op, t)
  {
    if OrgDo(o, op).Ok? {
      OneInvitationSeats(o, After(o, op), op.invitation, After(o, op).invitations[op.invitation], t);
    }
  }

  /** Rewriting one user's row moves the count by that row alone. */
  lemma OneUserSeats(o: Org, p: Org, user: UserId, v: User, t: TenantId)
    requires p.users == o.users[user := v] && p.invitations == o.invitations
    ensures var before := IsActive(o, user) && o.users[user].tenant == t;
            var now := v.status == Active && v.tenant == t;
            Seats(p, t) == Seats(o, t) - (if before then 1 else 0) + (if now then 1 else 0)
  {
    OneUser(o, p, user, v, t);
    ResizedBy(ActiveUsers(o, t), ActiveUsers(p, t), user, v.tenant == t && v.status == Active);
    assert PendingInvitations(p, t) == PendingInvitations(o, t);
  }

  lemma UserSeats(o: Org, op: OrgOp, t: TenantId)
    requires op.Suspend? || op.Reactivate? || op.Remove?
    ensures SeatsMove(o, op, t)
  {
    if OrgDo(o, op).Ok? {
      OneUserSeats(o, After(o, op), op.user, After(o, op).users[op.user], t);
    }
  }

  lemma SignUpSeats(o: Org, op: OrgOp, t: TenantId)
    requires op.SignUp? || op.AddRole?
    ensures SeatsMove(o, op, t)
  {
    var p := After(o, op);
    assert PendingInvitations(p, t) == PendingInvitations(o, t);
    if OrgDo(o, op).Ok? && op.SignUp? {
      OneUser(o, p, op.user, p.users[op.user], t);
      assert op.user !in ActiveUsers(o, t);
    } else {
      assert ActiveUsers(p, t) == ActiveUsers(o, t);
    }
  }

  /** Every call moves the seats of its own tenant by exactly what it takes, and of no other tenant. */
  lemma EveryCallMovesSeats(o: Org, op: OrgOp, t: TenantId)
    ensures SeatsMove(o, op, t)
  {
    match op
    case Accept(_, _, _, _) => AcceptKeepsSeats(o, op, t);
    case Invite(_, _, _, _, _, _, _) => InvitationSeats(o, op, t);
    case Resend(_, _, _, _) => InvitationSeats(o, op, t);
    case CancelInvitation(_, _) => InvitationSeats(o, op, t);
    case SignUp(_, _, _, _, _, _) => SignUpSeats(o, op, t);
    case AddRole(_, _) => SignUpSeats(o, op, t);
    case _ => UserSeats(o, op, t);
  }

  /** Whenever a call checks tenant t's limit, it is this one. */
  ghost predicate LimitIs(op: OrgOp, t: TenantId, limit: nat) {
    (op.Invite? || op.Reactivate?) && op.tenant == t ==> op.limit == Some(limit)
  }

  /** With a fixed limit, a tenant within it stays within it over every run; started above it, it never climbs. */
  lemma {:induction false} SeatsNeverExceed(o: Org, ops: seq<OrgOp>, t: TenantId, limit: nat)
    requires Housed(o) && t in o.tenants
    requires forall k :: 0 <= k < |ops| ==> LimitIs(ops[k], t, limit)
    ensures Seats(RunOrg(o, ops), t) <= Max(limit, Seats(o, t))
  {
    if ops == [] {
    } else {
      var front, op := ops[..|ops| - 1], ops[|ops| - 1];
      SeatsNeverExceed(o, front, t, limit);
      RunHoused(o, front);
      var p := RunOrg(o, front);
      EveryCallMovesSeats(p, op, t);
      assert LimitIs(op, t, limit);
      if op.SignUp? && op.tenant == t {
        assert OrgDo(p, op).Err?;
      }
    }
  }

  /** An expired invitation still holds its seat: nothing but accepting or cancelling it releases one. */
  lemma ExpiryFreesNothing(o: Org, t: TenantId, id: InvitationId, token: RawToken, now: Time)
    requires PendingOf(o, t, id) && o.invitations[id].expiresAt < now
    ensures Lookup(o, token, now) != Some(id)
    ensures Seats(o, t) >= 1
    ensures Seats(After(o, CancelInvitation(t, id)), t) == Seats(o, t) - 1
  {
    assert id in PendingInvitations(o, t);
    EveryCallMovesSeats(o, CancelInvitation(t, id), t);
  }
}
