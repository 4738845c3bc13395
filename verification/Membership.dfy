/**
 Organisation membership as values: users, invitations and the two lookup tables beside them,
 and what signing up, inviting, resending, cancelling, accepting, suspending, reactivating and
 removing do to them. The database's unique constraints are written out as refusals.
 */
module Membership {
  import opened Wrappers
  import opened Timing
  import opened Identities
  import opened Credentials
  import opened MembershipInput

  type InvitationId = nat

  const INVITATION_TTL: int := 7 * DAY

  datatype UserStatus = Active | Suspended | Removed

  datatype User = User(tenant: TenantId, email: Email, role: Option<RoleId>, status: UserStatus)

  datatype InvitationStatus = Pending | Accepted | Cancelled

  datatype Invitation = Invitation(
    tenant: TenantId, email: Email, role: RoleId, hash: Hash, status: InvitationStatus, expiresAt: Time)

  datatype EmailRow = EmailRow(user: UserId, tenant: TenantId)

  datatype TokenRow = TokenRow(invitation: InvitationId, tenant: TenantId)

  /** The tables, tenants with their names. `emails` and `tokens` are keyed by their globally unique columns. */
  datatype Org = Org(
    roles: map<RoleId, TenantId>,
    tenants: map<TenantId, string>,
    users: map<UserId, User>,
    invitations: map<InvitationId, Invitation>,
    emails: map<Email, EmailRow>,
    tokens: map<Hash, TokenRow>)

  const EMPTY: Org := Org(map[], map[], map[], map[], map[], map[])

  datatype OrgError =
    | NameRequired
    | InvalidEmail
    | RoleNotFound
    | UserExists
    | AlreadyPending
    | SeatLimitReached
    | InvitationNotFound
    | InvalidInvitation
    | ShortPassword
    | UserNotFound
    | IntegrityError

  /**
   A service call; emails and names are as typed. New row ids and tokens are what the generators hand
   out; `limit` is the plan's, None meaning none.
   */
  datatype OrgOp =
    | SignUp(tenant: TenantId, role: RoleId, user: UserId, name: string, email: string, passwordLength: nat)
    | AddRole(tenant: TenantId, role: RoleId)
    | Invite(tenant: TenantId, email: string, role: RoleId, limit: Option<nat>, token: RawToken,
        invitation: InvitationId, now: Time)
    | Resend(tenant: TenantId, invitation: InvitationId, token: RawToken, now: Time)
    | CancelInvitation(tenant: TenantId, invitation: InvitationId)
    | Accept(token: RawToken, passwordLength: nat, user: UserId, now: Time)
    | Suspend(tenant: TenantId, user: UserId)
    | Reactivate(tenant: TenantId, user: UserId, limit: Option<nat>)
    | Remove(tenant: TenantId, user: UserId)

  /* ---- Queries ---- */

  predicate Present(u: User) {
    u.status != Removed
  }

  function ActiveUsers(o: Org, t: TenantId): set<UserId> {
    set u | u in o.users && o.users[u].tenant == t && o.users[u].status == Active
  }

  function PendingInvitations(o: Org, t: TenantId): set<InvitationId> {
    set i | i in o.invitations && o.invitations[i].tenant == t && o.invitations[i].status == Pending
  }

  /** Active users and pending invitations: what a seat limit counts. */
  function Seats(o: Org, t: TenantId): nat {
    |ActiveUsers(o, t)| + |PendingInvitations(o, t)|
  }

  predicate Full(o: Org, t: TenantId, limit: Option<nat>) {
    limit.Some? && Seats(o, t) >= limit.value
  }

  /** A user of the tenant with this email who has not been removed. */
  predicate HasUser(o: Org, t: TenantId, email: Email) {
    exists u :: u in o.users && o.users[u].tenant == t && o.users[u].email == email && Present(o.users[u])
  }

  /** The same, other than the given one: what the partial unique index on users forbids. */
  predicate HasOther(o: Org, user: UserId)
    requires user in o.users
  {
    exists u :: u in o.users && u != user && o.users[u].tenant == o.users[user].tenant
                && o.users[u].email == o.users[user].email && Present(o.users[u])
  }

  predicate HasPending(o: Org, t: TenantId, email: Email) {
    exists i :: i in o.invitations && o.invitations[i].tenant == t && o.invitations[i].email == email
        && o.invitations[i].status == Pending
  }

  /** The digest is stored for an invitation other than the given one. */
  predicate HashTaken(o: Org, hash: Hash, except: Option<InvitationId>) {
    || (exists i :: i in o.invitations && o.invitations[i].hash == hash && except != Some(i))
    || (hash in o.tokens && except != Some(o.tokens[hash].invitation))
  }

  predicate PendingOf(o: Org, t: TenantId, id: InvitationId) {
    id in o.invitations && o.invitations[id].tenant == t && o.invitations[id].status == Pending
  }

  predicate UserOf(o: Org, t: TenantId, user: UserId) {
    user in o.users && o.users[user].tenant == t
  }

  /** The invitation a raw token opens at time `now`, found through the token table. */
  function Lookup(o: Org, token: RawToken, now: Time): Option<InvitationId> {
    if Sha256(token) !in o.tokens then None
    else
      var row := o.tokens[Sha256(token)];
      if row.invitation !in o.invitations || o.invitations[row.invitation].tenant != row.tenant then None
      else if o.invitations[row.invitation].status != Pending then None
      else if o.invitations[row.invitation].expiresAt < now then None
      else Some(row.invitation)
  }

  /* ---- Operations ---- */

  /** The token table with the rows of one invitation replaced by one row. */
  function Repointed(tokens: map<Hash, TokenRow>, id: InvitationId, hash: Hash, t: TenantId): map<Hash, TokenRow> {
    (map h | h in tokens && tokens[h].invitation != id :: tokens[h])[hash := TokenRow(id, t)]
  }

  function SetStatus(o: Org, user: UserId, status: UserStatus): Result<Org, OrgError>
    requires user in o.users
  {
    if HasOther(o, user) then Err(IntegrityError)
    else Ok(o.(users := o.users[user := o.users[user].(status := status)]))
  }

  function OrgDo(o: Org, op: OrgOp): Result<Org, OrgError> {
    match op
    case SignUp(t, role, user, name, email, passwordLength) =>
      if Strip(name) == "" then Err(NameRequired)
      else if !LooksLikeEmail(email) then Err(InvalidEmail)
      else if passwordLength < MIN_PASSWORD_LENGTH then Err(ShortPassword)
      else if t in o.tenants || role in o.roles || user in o.users || Normalise(email) in o.emails then
        Err(IntegrityError)
      else Ok(o.(tenants := o.tenants[t := Strip(name)],
                 roles := o.roles[role := t],
                 users := o.users[user := User(t, Normalise(email), Some(role), Active)],
                 emails := o.emails[Normalise(email) := EmailRow(user, t)]))
    case AddRole(t, role) =>
      if role in o.roles || t !in o.tenants then Err(IntegrityError) else Ok(o.(roles := o.roles[role := t]))
    case Invite(t, typed, role, limit, token, id, now) =>
      var email := Normalise(typed);
      if !(role in o.roles && o.roles[role] == t) then Err(RoleNotFound)
      else if HasUser(o, t, email) then Err(UserExists)
      else if HasPending(o, t, email) then Err(AlreadyPending)
      else if Full(o, t, limit) then Err(SeatLimitReached)
      else if id in o.invitations || HashTaken(o, Sha256(token), None) then Err(IntegrityError)
      else
        var invitation := Invitation(t, email, role, Sha256(token), Pending, now + INVITATION_TTL);
        Ok(o.(invitations := o.invitations[id := invitation],
                 tokens := o.tokens[Sha256(token) := TokenRow(id, t)]))
    case Resend(t, id, token, now) =>
      if !PendingOf(o, t, id) then Err(InvitationNotFound)
      else if HashTaken(o, Sha256(token), Some(id)) then Err(IntegrityError)
      else
        var renewed := o.invitations[id].(hash := Sha256(token), expiresAt := now + INVITATION_TTL);
        Ok(o.(invitations := o.invitations[id := renewed],
                 tokens := Repointed(o.tokens, id, Sha256(token), t)))
    case CancelInvitation(t, id) =>
      if !PendingOf(o, t, id) then Err(InvitationNotFound)
      else Ok(o.(invitations := o.invitations[id := o.invitations[id].(status := Cancelled)]))
    case Accept(token, passwordLength, user, now) =>
      (match Lookup(o, token, now)
       case None => Err(InvalidInvitation)
       case Some(id) =>
         var i := o.invitations[id];
         if passwordLength < MIN_PASSWORD_LENGTH then Err(ShortPassword)
         else if user in o.users || HasUser(o, i.tenant, i.email) || i.email in o.emails then Err(IntegrityError)
         else Ok(o.(users := o.users[user := User(i.tenant, i.email, Some(i.role), Active)],
                    emails := o.emails[i.email := EmailRow(user, i.tenant)],
                    invitations := o.invitations[id := i.(status := Accepted)])))
    case Suspend(t, user) =>
      if !UserOf(o, t, user) then Err(UserNotFound)
      else SetStatus(o, user, Suspended)
    case Reactivate(t, user, limit) =>
      if !UserOf(o, t, user) then Err(UserNotFound)
      else if Full(o, t, limit) then Err(SeatLimitReached)
      else SetStatus(o, user, Active)
    case Remove(t, user) =>
      if !UserOf(o, t, user) then Err(UserNotFound)
      else Ok(o.(users := o.users[user := o.users[user].(status := Removed)],
                 emails := map e | e in o.emails && o.emails[e].user != user :: o.emails[e]))
  }

  /** A refused call is rolled back. */
  function After(o: Org, op: OrgOp): Org {
    match OrgDo(o, op)
    case Ok(p) => p
    case Err(_) => o
  }

  function RunOrg(o: Org, ops: seq<OrgOp>): Org {
    if ops == [] then o else After(RunOrg(o, ops[..|ops| - 1]), ops[|ops| - 1])
  }
}
