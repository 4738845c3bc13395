/**
 Membership as the program has it: tables that each service call updates row by row. Every method
 is tied to the value-level operation of module Membership and keeps what the tables promise one another.
 */
module MembershipStore {
  import opened Wrappers
  import opened Timing
  import opened Identities
  import opened Credentials
  import opened Membership
  import opened MembershipInput
  import opened MembershipSeats
  import opened MembershipTokens
  import opened MembershipEmails
  import opened MembershipOutcomes

  /**
   The tables agree: tokens with invitations, index rows with users, emails with their normal form, rows with
   tenants.
   */
  ghost predicate Kept(o: Org) {
    TokensAgree(o) && IndexSound(o) && EmailsUnique(o) && EmailsNormal(o) && Housed(o)
  }

  lemma AfterKept(o: Org, op: OrgOp)
    requires Kept(o)
    ensures Kept(After(o, op))
  {
    AfterTokensAgree(o, op);
    AfterIndexSound(o, op);
    AfterEmailsUnique(o, op);
    AfterEmailsNormal(o, op);
    AfterHoused(o, op);
  }

  /** The token table holds no row of the invitation but that of its digest. */
  ghost predicate OneRow(o: Org, id: InvitationId) {
    id in o.invitations ==>
      forall h :: h in o.tokens && o.tokens[h].invitation == id ==>
        h == o.invitations[id].hash && o.tokens[h].tenant == o.invitations[id].tenant
  }

  /** Then replacing the one row found replaces all of them. */
  lemma OneRowRepointed(o: Org, id: InvitationId, row: Hash, hash: Hash)
    requires OneRow(o, id) && id in o.invitations && row in o.tokens && o.tokens[row].invitation == id
    ensures Repointed(o.tokens, id, hash, o.invitations[id].tenant) ==
            (o.tokens - {row})[hash := TokenRow(id, o.tokens[row].tenant)]
  {
    assert o.tokens - {row} == map h | h in o.tokens && o.tokens[h].invitation != id :: o.tokens[h];
  }

  /** And without one there is nothing to replace. */
  lemma NoRowRepointed(o: Org, id: InvitationId, hash: Hash)
    requires id in o.invitations && forall h :: h in o.tokens ==> o.tokens[h].invitation != id
    ensures Repointed(o.tokens, id, hash, o.invitations[id].tenant) ==
            o.tokens[hash := TokenRow(id, o.invitations[id].tenant)]
  {
    assert o.tokens == map h | h in o.tokens && o.tokens[h].invitation != id :: o.tokens[h];
  }

  /** Where the index is sound, a user's rows are those under their email. */
  lemma RowsOfUser(o: Org, user: UserId)
    requires IndexSound(o) && user in o.users
    ensures (map e | e in o.emails && o.emails[e].user != user :: o.emails[e]) ==
            if o.users[user].email in o.emails && o.emails[o.users[user].email].user == user
            then o.emails - {o.users[user].email} else o.emails
  {
  }

  class Store {
    var roles: map<RoleId, TenantId>
    var tenants: map<TenantId, string>
    var users: map<UserId, User>
    var invitations: map<InvitationId, Invitation>
    var emails: map<Email, EmailRow>
    var tokens: map<Hash, TokenRow>

    function View(): Org
      reads this
    {
      Org(roles, tenants, users, invitations, emails, tokens)
    }

    ghost predicate Valid()
      reads this
    {
      Kept(View())
    }

    /** The call was carried out as `OrgDo` says, or refused with its error and nothing changed. */
    ghost predicate Performed(before: Org, op: OrgOp, r: Outcome<OrgError>)
      reads this
    {
      match OrgDo(before, op)
      case Ok(after) => r == Pass && View() == after
      case Err(e) => r == Fail(e) && View() == before
    }

    constructor ()
      ensures View() == EMPTY && Valid()
    {
      roles, tenants, users, invitations, emails, tokens := map[], map[], map[], map[], map[], map[];
    }

    /* ---- Rows ---- */

    /** A tenant with its role, its user and the user's index row. */
    method AddTenant(t: TenantId, name: string, role: RoleId, user: UserId, email: Email)
      modifies this
      ensures View() == old(View()).(
        tenants := old(tenants)[t := name],
        roles := old(roles)[role := t],
        users := old(users)[user := User(t, email, Some(role), Active)],
        emails := old(emails)[email := EmailRow(user, t)])
    {
      tenants := tenants[t := name];
      roles := roles[role := t];
      users := users[user := User(t, email, Some(role), Active)];
      emails := emails[email := EmailRow(user, t)];
    }

    /** An invitation and its row of the token table. */
    method AddInvitation(id: InvitationId, i: Invitation)
      modifies this
      ensures View() == old(View()).(
        invitations := old(invitations)[id := i],
        tokens := old(tokens)[i.hash := TokenRow(id, i.tenant)])
    {
      invitations := invitations[id := i];
      tokens := tokens[i.hash := TokenRow(id, i.tenant)];
    }

    /** The first row of the token table for an invitation, in no particular order. */
    method FirstTokenRow(id: InvitationId) returns (found: Option<Hash>)
      ensures found.Some? ==> found.value in tokens && tokens[found.value].invitation == id
      ensures found.None? ==> forall h :: h in tokens ==> tokens[h].invitation != id
    {
      if exists h :: h in tokens && tokens[h].invitation == id {
        var h :| h in tokens && tokens[h].invitation == id;
        return Some(h);
      }
      return None;
    }

    /**
     A new digest and expiry for an invitation. One row of the token table is found and given the new
     digest, or one is added: no other row of the invitation is left behind because it had exactly one.
     */
    method RenewInvitation(id: InvitationId, hash: Hash, expiresAt: Time)
      requires OneRow(View(), id) && id in invitations
      modifies this`invitations, this`tokens
      ensures View() == old(View()).(
        invitations := old(invitations)[id := old(invitations)[id].(hash := hash, expiresAt := expiresAt)],
        tokens := Repointed(old(tokens), id, hash, old(invitations)[id].tenant))
    {
      var row := FirstTokenRow(id);
      if row.Some? {
        OneRowRepointed(View(), id, row.value, hash);
        tokens := (tokens - {row.value})[hash := TokenRow(id, tokens[row.value].tenant)];
      } else {
        NoRowRepointed(View(), id, hash);
        tokens := tokens[hash := TokenRow(id, invitations[id].tenant)];
      }
      invitations := invitations[id := invitations[id].(hash := hash, expiresAt := expiresAt)];
    }

    /** The user an invitation makes, with their index row. */
    method Join(user: UserId, id: InvitationId)
      requires id in invitations
      modifies this
      ensures var i := old(invitations)[id];
              View() == old(View()).(
                users := old(users)[user := User(i.tenant, i.email, Some(i.role), Active)],
                emails := old(emails)[i.email := EmailRow(user, i.tenant)],
                invitations := old(invitations)[id := i.(status := Accepted)])
    {
      var i := invitations[id];
      users := users[user := User(i.tenant, i.email, Some(i.role), Active)];
      emails := emails[i.email := EmailRow(user, i.tenant)];
      invitations := invitations[id := i.(status := Accepted)];
    }

    /** Soft removal: the user's row stays, their index rows go. */
    method Leave(user: UserId)
      requires user in users
      modifies this
      ensures View() == old(View()).(
        users := old(users)[user := old(users)[user].(status := Removed)],
        emails := map e | e in old(emails) && old(emails)[e].user != user :: old(emails)[e])
    {
      users := users[user := users[user].(status := Removed)];
      var rows := set e | e in emails && emails[e].user == user;
      emails := emails - rows;
      assert emails == map e | e in old(emails) && old(emails)[e].user != user :: old(emails)[e];
    }

    /* ---- Service calls ---- */

    /** A new tenant with its administrator role, its first user, and the user's index row. */
    method SignUpTenant(t: TenantId, role: RoleId, user: UserId, name: string, typed: string, passwordLength: nat)
      returns (r: Outcome<OrgError>)
      requires Valid()
      modifies this
      ensures Valid() && Performed(old(View()), SignUp(t, role, user, name, typed, passwordLength), r)
    {
      AfterKept(View(), SignUp(t, role, user, name, typed, passwordLength));
      if Strip(name) == "" {
        return Fail(NameRequired);
      }
      if !LooksLikeEmail(typed) {
        return Fail(InvalidEmail);
      }
      if passwordLength < MIN_PASSWORD_LENGTH {
        return Fail(ShortPassword);
      }
      var email := Normalise(typed);
      if t in tenants || role in roles || user in users || email in emails {
        return Fail(IntegrityError);
      }
      AddTenant(t, Strip(name), role, user, email);
      return Pass;
    }

    method CreateRole(t: TenantId, role: RoleId) returns (r: Outcome<OrgError>)
      requires Valid()
      modifies this
      ensures Valid() && Performed(old(View()), AddRole(t, role), r)
    {
      AfterKept(View(), AddRole(t, role));
      if role in roles || t !in tenants {
        return Fail(IntegrityError);
      }
      roles := roles[role := t];
      return Pass;
    }

    /** The checks of an invitation in the order they are made, and its rows. */
    method Reserve(t: TenantId, typed: string, role: RoleId, limit: Option<nat>,
                   token: RawToken, id: InvitationId, now: Time) returns (r: Outcome<OrgError>)
      modifies this
      ensures Performed(old(View()), Invite(t, typed, role, limit, token, id, now), r)
    {
      var email := Normalise(typed);
      if !(role in roles && roles[role] == t) {
        return Fail(RoleNotFound);
      }
      if HasUser(View(), t, email) {
        return Fail(UserExists);
      }
      if HasPending(View(), t, email) {
        return Fail(AlreadyPending);
      }
      if limit.Some? && Seats(View(), t) >= limit.value {
        return Fail(SeatLimitReached);
      }
      var hash := Sha256(token);
      if id in invitations || HashTaken(View(), hash, None) {
        return Fail(IntegrityError);
      }
      AddInvitation(id, Invitation(t, email, role, hash, Pending, now + INVITATION_TTL));
      return Pass;
    }

    method CreateInvitation(t: TenantId, typed: string, role: RoleId, limit: Option<nat>,
                            token: RawToken, id: InvitationId, now: Time) returns (r: Outcome<OrgError>)
      requires Valid()
      modifies this
      ensures Valid() && Performed(old(View()), Invite(t, typed, role, limit, token, id, now), r)
      ensures match InviteRefusal(old(View()), Invite(t, typed, role, limit, token, id, now))
              case Some(e) => r == Fail(e)
              case None =>
                r == Pass && forall at :: Lookup(View(), token, at) == Some(id) <==> at <= now + 604_800_000_000
    {
      ghost var op := Invite(t, typed, role, limit, token, id, now);
      AfterKept(View(), op);
      InviteLeads(View(), op);
      if OrgDo(View(), op).Ok? {
        InvitedOpens(View(), op);
      }
      r := Reserve(t, typed, role, limit, token, id, now);
    }

    method Reissue(t: TenantId, id: InvitationId, token: RawToken, now: Time) returns (r: Outcome<OrgError>)
      requires OneRow(View(), id)
      modifies this`invitations, this`tokens
      ensures Performed(old(View()), Resend(t, id, token, now), r)
    {
      if !PendingOf(View(), t, id) {
        return Fail(InvitationNotFound);
      }
      var hash := Sha256(token);
      if HashTaken(View(), hash, Some(id)) {
        return Fail(IntegrityError);
      }
      RenewInvitation(id, hash, now + INVITATION_TTL);
      return Pass;
    }

    /** A new token for a pending invitation; the old one opens nothing any more. */
    method ResendInvitation(t: TenantId, id: InvitationId, token: RawToken, now: Time) returns (r: Outcome<OrgError>)
      requires Valid()
      modifies this
      ensures Valid() && Performed(old(View()), Resend(t, id, token, now), r)
    {
      AfterKept(View(), Resend(t, id, token, now));
      r := Reissue(t, id, token, now);
    }

    method CancelInvite(t: TenantId, id: InvitationId) returns (r: Outcome<OrgError>)
      requires Valid()
      modifies this
      ensures Valid() && Performed(old(View()), CancelInvitation(t, id), r)
    {
      AfterKept(View(), CancelInvitation(t, id));
      if !PendingOf(View(), t, id) {
        return Fail(InvitationNotFound);
      }
      invitations := invitations[id := invitations[id].(status := Cancelled)];
      return Pass;
    }

    /** The invitation a raw token opens, if any: the one that stores its digest. */
    method GetInvitationByToken(token: RawToken, now: Time) returns (found: Option<InvitationId>)
      requires Valid()
      ensures found == Lookup(View(), token, now)
      ensures found.Some? ==> found.value in invitations && invitations[found.value].hash == Sha256(token)
    {
      var hash := Sha256(token);
      if hash !in tokens {
        return None;
      }
      var row := tokens[hash];
      if row.invitation !in invitations || invitations[row.invitation].tenant != row.tenant {
        return None;
      }
      var invitation := invitations[row.invitation];
      if invitation.status != Pending || invitation.expiresAt < now {
        return None;
      }
      return Some(row.invitation);
    }

    method AcceptInvitation(token: RawToken, passwordLength: nat, user: UserId, now: Time)
      returns (r: Outcome<OrgError>)
      requires Valid()
      modifies this
      ensures Valid() && Performed(old(View()), Accept(token, passwordLength, user, now), r)
    {
      AfterKept(View(), Accept(token, passwordLength, user, now));
      var found := GetInvitationByToken(token, now);
      if found.None? {
        return Fail(InvalidInvitation);
      }
      if passwordLength < MIN_PASSWORD_LENGTH {
        return Fail(ShortPassword);
      }
      var invitation := invitations[found.value];
      if user in users || HasUser(View(), invitation.tenant, invitation.email) || invitation.email in emails {
        return Fail(IntegrityError);
      }
      Join(user, found.value);
      return Pass;
    }

    method SuspendUser(t: TenantId, user: UserId) returns (r: Outcome<OrgError>)
      requires Valid()
      modifies this
      ensures Valid() && Performed(old(View()), Suspend(t, user), r)
      ensures r == Fail(IntegrityError) ==> users[user].status == Removed
    {
      AfterKept(View(), Suspend(t, user));
      if !UserOf(View(), t, user) {
        return Fail(UserNotFound);
      }
      if HasOther(View(), user) {
        return Fail(IntegrityError);
      }
      users := users[user := users[user].(status := Suspended)];
      return Pass;
    }

    method ReactivateUser(t: TenantId, user: UserId, limit: Option<nat>) returns (r: Outcome<OrgError>)
      requires Valid()
      modifies this
      ensures Valid() && Performed(old(View()), Reactivate(t, user, limit), r)
      ensures r == Fail(IntegrityError) ==> users[user].status == Removed
    {
      AfterKept(View(), Reactivate(t, user, limit));
      if !UserOf(View(), t, user) {
        return Fail(UserNotFound);
      }
      if limit.Some? && Seats(View(), t) >= limit.value {
        return Fail(SeatLimitReached);
      }
      if HasOther(View(), user) {
        return Fail(IntegrityError);
      }
      users := users[user := users[user].(status := Active)];
      return Pass;
    }

    /** The user loses their one index row, if they have it, and nobody else loses any. */
    method RemoveUser(t: TenantId, user: UserId) returns (r: Outcome<OrgError>)
      requires Valid()
      modifies this
      ensures Valid() && Performed(old(View()), Remove(t, user), r)
      ensures r == Pass ==> emails == old(emails) || emails == old(emails) - {users[user].email}
    {
      AfterKept(View(), Remove(t, user));
      if !UserOf(View(), t, user) {
        return Fail(UserNotFound);
      }
      RowsOfUser(View(), user);
      Leave(user);
      return Pass;
    }

    /** One call, whichever it is. */
    method Handle(op: OrgOp) returns (r: Outcome<OrgError>)
      requires Valid()
      modifies this
      ensures Valid() && Performed(old(View()), op, r)
    {
      match op {
        case SignUp(t, role, user, name, email, length) => r := SignUpTenant(t, role, user, name, email, length);
        case AddRole(t, role) => r := CreateRole(t, role);
        case Invite(t, email, role, limit, token, id, now) =>
            r := CreateInvitation(t, email, role, limit, token, id, now);
        case Resend(t, id, token, now) => r := ResendInvitation(t, id, token, now);
        case CancelInvitation(t, id) => r := CancelInvite(t, id);
        case Accept(token, length, user, now) => r := AcceptInvitation(token, length, user, now);
        case Suspend(t, user) => r := SuspendUser(t, user);
        case Reactivate(t, user, limit) => r := ReactivateUser(t, user, limit);
        case Remove(t, user) => r := RemoveUser(t, user);
      }
    }
  }

  /** A store that receives any calls, in any order, goes through the runs the whole-run theorems are about. */
  method HandleAll(ops: seq<OrgOp>) returns (store: Store)
    ensures fresh(store) && store.Valid() && store.View() == RunOrg(EMPTY, ops)
  {
    store := new Store();
    for n := 0 to |ops|
      invariant fresh(store) && store.Valid() && store.View() == RunOrg(EMPTY, ops[..n])
    {
      assert ops[..n + 1][..n] == ops[..n];
      var r := store.Handle(ops[n]);
    }
    assert ops[..|ops|] == ops;
  }
}
