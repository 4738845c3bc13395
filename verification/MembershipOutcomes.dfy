/**
 What each membership call does, as its caller sees it: when it is accepted, with which error it is refused
 otherwise, and what it leaves. It is said of the rows themselves, and, for invitations, of the calls made
 since the beginning.
 */
module MembershipOutcomes {
  import opened Wrappers
  import opened Timing
  import opened Identities
  import opened Credentials
  import opened Membership
  import opened MembershipInput
  import opened MembershipTokens
  import opened MembershipEmails

  /* ---- Reading the rows ---- */

  /** A user of the tenant with this email, other than the one excepted, who has not been removed. */
  ghost predicate Member(o: Org, t: TenantId, email: Email, except: Option<UserId>) {
    exists u :: u in o.users && except != Some(u)
      && o.users[u].tenant == t && o.users[u].email == email && o.users[u].status != Removed
  }

  ghost predicate Invited(o: Org, t: TenantId, email: Email) {
    exists i :: i in o.invitations
      && o.invitations[i].tenant == t && o.invitations[i].email == email && o.invitations[i].status == Pending
  }

  /** The plan's limit is reached by the active users and the pending invitations. */
  ghost predicate NoSeat(o: Org, t: TenantId, limit: Option<nat>) {
    && limit.Some?
    && var users := set u | u in o.users && o.users[u].tenant == t && o.users[u].status == Active;
       var pending := set i | i in o.invitations && o.invitations[i].tenant == t && o.invitations[i].status == Pending;
       limit.value <= |users| + |pending|
  }

  /** The token is stored for an invitation other than the one excepted. */
  ghost predicate TokenStored(o: Org, token: RawToken, except: Option<InvitationId>) {
    || (exists i :: i in o.invitations && except != Some(i) && o.invitations[i].hash == Sha256(token))
    || (Sha256(token) in o.tokens && except != Some(o.tokens[Sha256(token)].invitation))
  }

  lemma NoSeatIsFull(o: Org, t: TenantId, limit: Option<nat>)
    ensures NoSeat(o, t, limit) <==> Full(o, t, limit)
  {
    var users := set u | u in o.users && o.users[u].tenant == t && o.users[u].status == Active;
    var pending := set i | i in o.invitations && o.invitations[i].tenant == t && o.invitations[i].status == Pending;
    assert users == ActiveUsers(o, t) && pending == PendingInvitations(o, t);
  }

  /* ---- Acceptance ---- */

  /** Why an invitation is refused, or None. */
  ghost function InviteRefusal(o: Org, op: OrgOp): Option<OrgError>
    requires op.Invite?
  {
    var email := Normalise(op.email);
    if op.role !in o.roles || o.roles[op.role] != op.tenant then Some(RoleNotFound)
    else if Member(o, op.tenant, email, None) then Some(UserExists)
    else if Invited(o, op.tenant, email) then Some(AlreadyPending)
    else if NoSeat(o, op.tenant, op.limit) then Some(SeatLimitReached)
    else if op.invitation in o.invitations || TokenStored(o, op.token, None) then Some(IntegrityError)
    else None
  }

  /**
   An invitation is accepted exactly when nothing refuses it, and adds one invitation, pending for seven
   days, with its token.
   */
  lemma InviteLeads(o: Org, op: OrgOp)
    requires op.Invite?
    ensures match InviteRefusal(o, op)
            case Some(e) => OrgDo(o, op) == Err(e)
            case None =>
              var row := Invitation(op.tenant, Normalise(op.email), op.role, Sha256(op.token), Pending,
                op.now + 604_800_000_000);
              OrgDo(o, op) == Ok(Org(o.roles, o.tenants, o.users, o.invitations[op.invitation := row], o.emails,
                o.tokens[Sha256(op.token) := TokenRow(op.invitation, op.tenant)]))
  {
    NoSeatIsFull(o, op.tenant, op.limit);
    InvitedIsPending(o, op.tenant, Normalise(op.email));
    MemberIsUser(o, op.tenant, Normalise(op.email));
    StoredIsTaken(o, op.token, None);
  }

  lemma MemberIsUser(o: Org, t: TenantId, email: Email)
    ensures Member(o, t, email, None) <==> HasUser(o, t, email)
  {
    if Member(o, t, email, None) {
      var u :| u in o.users && o.users[u].tenant == t && o.users[u].email == email && o.users[u].status != Removed;
      assert Present(o.users[u]);
    }
  }

  lemma MemberIsOther(o: Org, user: UserId)
    requires user in o.users
    ensures Member(o, o.users[user].tenant, o.users[user].email, Some(user)) <==> HasOther(o, user)
  {
    if Member(o, o.users[user].tenant, o.users[user].email, Some(user)) {
      var u :| u in o.users && Some(user) != Some(u) && o.users[u].tenant == o.users[user].tenant
        && o.users[u].email == o.users[user].email && o.users[u].status != Removed;
      assert Present(o.users[u]);
    }
  }

  lemma InvitedIsPending(o: Org, t: TenantId, email: Email)
    ensures Invited(o, t, email) <==> HasPending(o, t, email)
  {
  }

  lemma StoredIsTaken(o: Org, token: RawToken, except: Option<InvitationId>)
    ensures TokenStored(o, token, except) <==> HashTaken(o, Sha256(token), except)
  {
  }

  /** A new invitation opens at once, for seven days. */
  lemma InvitedOpens(o: Org, op: OrgOp)
    requires op.Invite? && OrgDo(o, op).Ok?
    ensures forall t :: Lookup(After(o, op), op.token, t) == Some(op.invitation) <==> t <= op.now + 604_800_000_000
  {
    InviteLeads(o, op);
  }

  /** Resending and cancelling are open for the tenant's pending invitations only. */
  lemma ResendLeads(o: Org, op: OrgOp)
    requires op.Resend?
    ensures OrgDo(o, op).Err? ==>
              OrgDo(o, op) == Err(if op.invitation in o.invitations && o.invitations[op.invitation].tenant == op.tenant
                                     && o.invitations[op.invitation].status == Pending
                                  then IntegrityError else InvitationNotFound)
    ensures OrgDo(o, op).Ok? <==>
              && op.invitation in o.invitations && o.invitations[op.invitation].tenant == op.tenant
              && o.invitations[op.invitation].status == Pending
              && !TokenStored(o, op.token, Some(op.invitation))
    ensures OrgDo(o, op).Ok? ==>
              var p, before := OrgDo(o, op).value, o.invitations[op.invitation];
              && p == o.(invitations := p.invitations, tokens := p.tokens)
              && p.invitations == o.invitations[op.invitation := Invitation(
                   op.tenant, before.email, before.role, Sha256(op.token), Pending, op.now + 604_800_000_000)]
              && (forall h :: h in p.tokens <==>
                    h == Sha256(op.token) || (h in o.tokens && o.tokens[h].invitation != op.invitation))
              && (forall h :: h in p.tokens ==>
                    p.tokens[h] == if h == Sha256(op.token) then TokenRow(op.invitation, op.tenant) else o.tokens[h])
  {
    StoredIsTaken(o, op.token, Some(op.invitation));
  }

  lemma CancelLeads(o: Org, t: TenantId, id: InvitationId)
    ensures OrgDo(o, CancelInvitation(t, id)) ==
            if id in o.invitations && o.invitations[id].tenant == t && o.invitations[id].status == Pending
            then Ok(o.(invitations := o.invitations[id := o.invitations[id].(status := Cancelled)]))
            else Err(InvitationNotFound)
  {
  }

  /** Why a status change is refused, or None. */
  ghost function StatusRefusal(o: Org, op: OrgOp): Option<OrgError>
    requires op.Suspend? || op.Reactivate? || op.Remove?
  {
    if op.user !in o.users || o.users[op.user].tenant != op.tenant then Some(UserNotFound)
    else if op.Reactivate? && NoSeat(o, op.tenant, op.limit) then Some(SeatLimitReached)
    else if !op.Remove? && Member(o, op.tenant, o.users[op.user].email, Some(op.user)) then Some(IntegrityError)
    else None
  }

  /** A status change touches that user's status and, on removal, the index rows leading to them. */
  lemma StatusLeads(o: Org, op: OrgOp)
    requires op.Suspend? || op.Reactivate? || op.Remove?
    ensures match StatusRefusal(o, op)
            case Some(e) => OrgDo(o, op) == Err(e)
            case None =>
              && OrgDo(o, op).Ok?
              && var p := OrgDo(o, op).value;
                 && p == o.(users := p.users, emails := p.emails)
                 && p.users == o.users[op.user := o.users[op.user].(
                      status := if op.Suspend? then Suspended else if op.Reactivate? then Active else Removed)]
                 && (!op.Remove? ==> p.emails == o.emails)
                 && (op.Remove? ==>
                       && (forall e :: e in p.emails <==> e in o.emails && o.emails[e].user != op.user)
                       && (forall e :: e in p.emails ==> p.emails[e] == o.emails[e]))
  {
    if op.user in o.users && o.users[op.user].tenant == op.tenant {
      MemberIsOther(o, op.user);
      if op.Reactivate? {
        NoSeatIsFull(o, op.tenant, op.limit);
      }
    }
  }

  /** Suspending an active user and bringing them back restores the tables; the seat is theirs if nobody took it. */
  lemma ReactivatingUndoesSuspending(o: Org, t: TenantId, user: UserId, limit: Option<nat>)
    requires UsersUnique(o) && user in o.users && o.users[user].tenant == t && o.users[user].status == Active
    ensures OrgDo(o, Suspend(t, user)).Ok?
    ensures OrgDo(After(o, Suspend(t, user)), Reactivate(t, user, limit)) ==
            if limit.Some? && limit.value < Seats(o, t) then Err(SeatLimitReached) else Ok(o)
  {
    var p := After(o, Suspend(t, user));
    assert !HasOther(o, user) && !HasOther(p, user);
    assert ActiveUsers(p, t) == ActiveUsers(o, t) - {user} && PendingInvitations(p, t) == PendingInvitations(o, t);
    assert user in ActiveUsers(o, t);
    assert p.users[user := p.users[user].(status := Active)] == o.users;
  }

  /** Why a sign-up is refused, or None. */
  ghost function SignUpRefusal(o: Org, op: OrgOp): Option<OrgError>
    requires op.SignUp?
  {
    if forall k :: 0 <= k < |op.name| ==> Blank(op.name[k]) then Some(NameRequired)
    else if !LooksLikeEmail(op.email) then Some(InvalidEmail)
    else if op.passwordLength < 8 then Some(ShortPassword)
    else if op.tenant in o.tenants || op.role in o.roles || op.user in o.users || Normalise(op.email) in o.emails then
      Some(IntegrityError)
    else None
  }

  lemma BlankIsStripped(s: string)
    ensures Strip(s) == "" <==> forall k :: 0 <= k < |s| ==> Blank(s[k])
  {
    var i, j := StripCuts(s);
    if i < j {
      assert Strip(s)[0] == s[i] && !Blank(s[i]);
    }
  }

  /** A sign-up makes a tenant, its administrator role, an active user holding it, and the row that finds them. */
  lemma SignUpLeads(o: Org, op: OrgOp)
    requires op.SignUp?
    ensures match SignUpRefusal(o, op)
            case Some(e) => OrgDo(o, op) == Err(e)
            case None =>
              && OrgDo(o, op).Ok?
              && var p, email := OrgDo(o, op).value, Normalise(op.email);
                 && p.tenants == o.tenants[op.tenant := Strip(op.name)] && p.roles == o.roles[op.role := op.tenant]
                 && p.users == o.users[op.user := User(op.tenant, email, Some(op.role), Active)]
                 && p.emails == o.emails[email := EmailRow(op.user, op.tenant)]
                 && p.invitations == o.invitations && p.tokens == o.tokens
  {
    BlankIsStripped(op.name);
  }

  /** A role belongs to the tenant that made it, and then that tenant invites for it. */
  lemma RoleLeads(o: Org, t: TenantId, role: RoleId)
    ensures OrgDo(o, AddRole(t, role)) ==
            if role in o.roles || t !in o.tenants then Err(IntegrityError) else Ok(o.(roles := o.roles[role := t]))
  {
  }

  /* ---- Invitations over runs ---- */

  /** An invitation as its calls made it: for whom, and the last token with the moment it was issued. */
  datatype Issued = Issued(tenant: TenantId, email: Email, role: RoleId, token: RawToken, at: Time)

  /** What an accepted call makes of the open issue of an invitation. */
  ghost function IssuedBy(before: Option<Issued>, op: OrgOp, id: InvitationId): Option<Issued> {
    match op
    case Invite(t, email, role, _, token, i, now) =>
      if i == id then Some(Issued(t, Normalise(email), role, token, now)) else before
    case Resend(_, i, token, now) =>
      if i == id && before.Some? then Some(before.value.(token := token, at := now)) else before
    case CancelInvitation(_, i) => if i == id then None else before
    case Accept(token, _, _, _) => if before.Some? && before.value.token == token then None else before
    case _ => before
  }

  /** The open issue after a run: the last invitation or resend of this id, unless cancelled or taken up since. */
  ghost function Issue(ops: seq<OrgOp>, id: InvitationId): Option<Issued> {
    if ops == [] then None
    else
      var front, op := ops[..|ops| - 1], ops[|ops| - 1];
      if OrgDo(RunOrg(EMPTY, front), op).Ok? then IssuedBy(Issue(front, id), op, id) else Issue(front, id)
  }

  /** The stored invitation agrees with its open issue; without one it is not pending. */
  ghost predicate StoredAs(o: Org, id: InvitationId, issue: Option<Issued>) {
    match issue
    case None => id in o.invitations ==> o.invitations[id].status != Pending
    case Some(x) =>
      id in o.invitations
      && o.invitations[id] == Invitation(x.tenant, x.email, x.role, Sha256(x.token), Pending, x.at + 604_800_000_000)
  }

  lemma TakenUpIsTheIssued(o: Org, op: OrgOp, id: InvitationId, issue: Option<Issued>)
    requires TokensAgree(o) && StoredAs(o, id, issue) && op.Accept? && OrgDo(o, op).Ok?
    ensures Lookup(o, op.token, op.now) == Some(id) <==> issue.Some? && issue.value.token == op.token
  {
  }

  lemma IssuingStoredAs(o: Org, op: OrgOp, id: InvitationId, issue: Option<Issued>)
    requires StoredAs(o, id, issue) && (op.Invite? || op.Resend?) && OrgDo(o, op).Ok?
    ensures StoredAs(After(o, op), id, IssuedBy(issue, op, id))
  {
    if op.Invite? {
      InviteLeads(o, op);
    } else {
      ResendLeads(o, op);
    }
  }

  lemma AfterStoredAs(o: Org, op: OrgOp, id: InvitationId, issue: Option<Issued>)
    requires TokensAgree(o) && StoredAs(o, id, issue) && OrgDo(o, op).Ok?
    ensures StoredAs(After(o, op), id, IssuedBy(issue, op, id))
  {
    match op
    case Invite(_, _, _, _, _, _, _) => IssuingStoredAs(o, op, id, issue);
    case Resend(_, _, _, _) => IssuingStoredAs(o, op, id, issue);
    case Accept(_, _, _, _) => TakenUpIsTheIssued(o, op, id, issue);
    case _ =>
  }

  lemma {:induction false} RunStoredAs(ops: seq<OrgOp>, id: InvitationId)
    ensures TokensAgree(RunOrg(EMPTY, ops)) && StoredAs(RunOrg(EMPTY, ops), id, Issue(ops, id))
  {
    if ops == [] {
    } else {
      var front, op := ops[..|ops| - 1], ops[|ops| - 1];
      RunStoredAs(front, id);
      AfterTokensAgree(RunOrg(EMPTY, front), op);
      if OrgDo(RunOrg(EMPTY, front), op).Ok? {
        AfterStoredAs(RunOrg(EMPTY, front), op, id, Issue(front, id));
      }
    }
  }

  /**
   After any run a token opens an invitation exactly when it is the last one issued for it, no more than seven
   days ago, and the invitation has been neither cancelled nor taken up.
   */
  lemma OpensForSevenDays(ops: seq<OrgOp>, id: InvitationId, token: RawToken, now: Time)
    ensures Lookup(RunOrg(EMPTY, ops), token, now) == Some(id) <==>
            var x := Issue(ops, id); x.Some? && x.value.token == token && now <= x.value.at + 604_800_000_000
  {
    RunStoredAs(ops, id);
  }

  /** A new or renewed invitation opens at once, for seven days. */
  lemma NewInvitationOpens(ops: seq<OrgOp>, op: OrgOp, now: Time)
    requires (op.Invite? || op.Resend?) && OrgDo(RunOrg(EMPTY, ops), op).Ok?
    ensures Lookup(After(RunOrg(EMPTY, ops), op), op.token, now) == Some(op.invitation) <==>
            now <= op.now + 604_800_000_000
  {
    RunOneMore(ops, op);
    assert (ops + [op])[..|ops|] == ops;
    RunStoredAs(ops, op.invitation);
    OpensForSevenDays(ops + [op], op.invitation, op.token, now);
  }

  /** Why an acceptance is refused, or None, when the token was issued as x. */
  ghost function AcceptRefusal(o: Org, op: OrgOp, x: Issued): Option<OrgError>
    requires op.Accept?
  {
    if op.now > x.at + 604_800_000_000 then Some(InvalidInvitation)
    else if op.passwordLength < 8 then Some(ShortPassword)
    else if op.user in o.users || Member(o, x.tenant, x.email, None) || x.email in o.emails then Some(IntegrityError)
    else None
  }

  /** An active user is there, found under the invitation's email, and the invitation is closed. */
  ghost predicate TakenUp(o: Org, p: Org, user: UserId, id: InvitationId, x: Issued) {
    && id in o.invitations
    && p == Org(o.roles, o.tenants,
                o.users[user := User(x.tenant, x.email, Some(x.role), Active)],
                o.invitations[id := o.invitations[id].(status := Accepted)],
                o.emails[x.email := EmailRow(user, x.tenant)], o.tokens)
  }

  lemma AcceptOfIssued(o: Org, op: OrgOp, id: InvitationId, x: Issued)
    requires op.Accept? && TokensAgree(o) && StoredAs(o, id, Some(x)) && x.token == op.token
    ensures match AcceptRefusal(o, op, x)
            case Some(e) => OrgDo(o, op) == Err(e)
            case None => OrgDo(o, op).Ok? && TakenUp(o, OrgDo(o, op).value, op.user, id, x)
  {
    MemberIsUser(o, x.tenant, x.email);
    assert Lookup(o, op.token, op.now) == if op.now > x.at + 604_800_000_000 then None else Some(id);
  }

  /**
   Whoever accepts an invitation becomes an active user of the tenant, with the email and the role the
   invitation was made with, found under that email; the invitation is closed and no other row changes.
   */
  lemma AcceptLeads(ops: seq<OrgOp>, op: OrgOp, id: InvitationId)
    requires op.Accept? && Issue(ops, id).Some? && Issue(ops, id).value.token == op.token
    ensures var o, x := RunOrg(EMPTY, ops), Issue(ops, id).value;
            match AcceptRefusal(o, op, x)
            case Some(e) => OrgDo(o, op) == Err(e)
            case None => OrgDo(o, op).Ok? && TakenUp(o, OrgDo(o, op).value, op.user, id, x)
  {
    RunStoredAs(ops, id);
    AcceptOfIssued(RunOrg(EMPTY, ops), op, id, Issue(ops, id).value);
  }

  /** A token not open for any invitation is refused. */
  lemma NothingToAccept(ops: seq<OrgOp>, op: OrgOp)
    requires op.Accept?
    requires forall id :: Issue(ops, id).Some? ==> Issue(ops, id).value.token != op.token
    ensures OrgDo(RunOrg(EMPTY, ops), op) == Err(InvalidInvitation)
  {
    var found := Lookup(RunOrg(EMPTY, ops), op.token, op.now);
    if found.Some? {
      OpensForSevenDays(ops, found.value, op.token, op.now);
    }
  }

  /**
   Removing a user frees their email: the same address can be invited again, and taken up by a new user, who is
   then the one found under it.
   */
  lemma RemovedCanReturn(o: Org, t: TenantId, user: UserId, invite: OrgOp, accept: OrgOp)
    requires IndexSound(o) && UsersUnique(o) && NoneInvitedTwice(o) && UserOf(o, t, user) && Present(o.users[user])
    requires o.users[user].email in o.emails && o.emails[o.users[user].email].user == user
    requires invite.Invite? && invite.tenant == t && Normalise(invite.email) == o.users[user].email
    requires invite.role in o.roles && o.roles[invite.role] == t && !NoSeat(After(o, Remove(t, user)), t, invite.limit)
    requires invite.invitation !in o.invitations && !TokenStored(o, invite.token, None)
    requires accept.Accept? && accept.token == invite.token && accept.passwordLength >= 8 && accept.user !in o.users
    requires accept.now <= invite.now + 604_800_000_000
    ensures var p := After(o, Remove(t, user));
            var q := After(p, invite);
            var email := o.users[user].email;
            && OrgDo(o, Remove(t, user)).Ok? && OrgDo(p, invite).Ok? && OrgDo(q, accept).Ok?
            && email in After(q, accept).emails && After(q, accept).emails[email].user == accept.user
  {
    var p := After(o, Remove(t, user));
    StatusLeads(o, Remove(t, user));
    assert p.invitations == o.invitations && p.tokens == o.tokens;
    MemberIsUser(p, t, o.users[user].email);
    assert !Member(p, t, o.users[user].email, None);
    assert !Invited(p, t, o.users[user].email);
    InviteLeads(p, invite);
    assert Lookup(After(p, invite), accept.token, accept.now) == Some(invite.invitation);
  }
}
