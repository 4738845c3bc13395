/**
 Sessions as the program has them: account rows, the email index, the expiring blocklist and the
 reset-link table, changed by the auth routes and services. Every method is tied to the value-level
 operation and keeps what the tables promise one another.
 */
module SessionStore {
  import opened Wrappers
  import opened Timing
  import opened Identities
  import opened Credentials
  import opened Sessions
  import opened SessionRotation
  import opened SessionPasswords
  import opened SessionOutcomes

  /**
   Portal users stay apart from accounts; and as long as the calls were orderly, token ids are
   unique and no token or epoch is ahead of its time.
   */
  ghost predicate Kept(a: Auth, clock: Time, orderly: bool) {
    PortalsApart(a) && (orderly ==> IdsUnique(a) && EpochsOrdered(a, clock))
  }

  /** The clock did not run backwards and new token ids were new. */
  ghost predicate StillOrderly(a: Auth, clock: Time, orderly: bool, op: AuthOp) {
    orderly && clock <= op.now && FreshIds(a, op)
  }

  lemma AfterKept(a: Auth, clock: Time, orderly: bool, op: AuthOp)
    requires Kept(a, clock, orderly)
    ensures Kept(After(a, op), op.now, StillOrderly(a, clock, orderly, op))
  {
    AfterPortalsApart(a, op);
    if StillOrderly(a, clock, orderly, op) {
      AfterEpochsOrdered(a, clock, op);
      AfterIdsUnique(a, op);
    }
  }

  /** A rotated token is one of staff: portal users have no account to be found. */
  lemma RotatedIsStaff(a: Auth, op: AuthOp)
    requires PortalsApart(a) && op.Rotate? && AuthDo(a, op).Ok?
    ensures op.token.audience == Staff
  {
  }

  /** Spending a token revokes no other. */
  lemma SpendsOneToken(a: Auth, op: AuthOp, k: SessionToken, t: Time)
    requires IdsUnique(a) && (op.Rotate? || op.Logout?) && AuthDo(a, op).Ok? && k in a.issued && k != op.token
    ensures Revoked(After(a, op), k.jti, t) <==> Revoked(a, k.jti, t)
  {
    assert k.jti != op.token.jti;
  }

  /** What the invariant makes of a call. */
  lemma HandledMeans(a: Auth, clock: Time, orderly: bool, op: AuthOp)
    requires Kept(a, clock, orderly)
    ensures op.Rotate? && AuthDo(a, op).Ok? ==> op.token.audience == Staff
    ensures orderly && (op.Rotate? || op.Logout?) && AuthDo(a, op).Ok? ==>
              forall k, t :: k in a.issued && k != op.token ==>
                               (Revoked(After(a, op), k.jti, t) <==> Revoked(a, k.jti, t))
    ensures orderly && clock < op.now && Rekeyed(a, op).Some? ==>
              forall k :: k in a.issued && Rekeyed(a, op) == Some(k.user) ==> !CheckPwdTs(After(a, op), k)
  {
    if op.Rotate? && AuthDo(a, op).Ok? {
      RotatedIsStaff(a, op);
    }
    if orderly && (op.Rotate? || op.Logout?) && AuthDo(a, op).Ok? {
      forall k, t | k in a.issued && k != op.token ensures Revoked(After(a, op), k.jti, t) <==> Revoked(a, k.jti, t) {
        SpendsOneToken(a, op, k, t);
      }
    }
    if orderly && clock < op.now {
      forall k | k in a.issued && Rekeyed(a, op) == Some(k.user) ensures !CheckPwdTs(After(a, op), k) {
        ChangeEndsSessions(a, clock, op, k);
      }
    }
  }

  class Store {
    var accounts: map<UserId, Account>
    var emails: map<Email, IndexRow>
    var permissions: map<RoleId, seq<string>>
    var suspended: set<TenantId>
    var outsiders: set<UserId>
    var blocklist: map<Jti, Time>
    var resets: map<Hash, ResetRow>
    /** Tokens the signing key has been used on: what a signature check accepts. */
    var issued: set<SessionToken>
    /** The last reading of the clock, and whether all calls so far were orderly. */
    ghost var clock: Time
    ghost var orderly: bool

    function View(): Auth
      reads this
    {
      Auth(accounts, emails, permissions, suspended, outsiders, issued, blocklist, resets)
    }

    ghost predicate Valid()
      reads this
    {
      Kept(View(), clock, orderly)
    }

    /** The call was carried out as `AuthDo` says, or refused with its error and nothing changed. */
    ghost predicate Performed(before: Auth, op: AuthOp, r: Outcome<AuthError>)
      reads this
    {
      match AuthDo(before, op)
      case Ok(after) => r == Pass && View() == after
      case Err(e) => r == Fail(e) && View() == before
    }

    constructor ()
      ensures View() == EMPTY && Valid() && orderly && clock == 0
    {
      accounts, emails, permissions, suspended, outsiders := map[], map[], map[], {}, {};
      blocklist, resets, issued := map[], map[], {};
      clock, orderly := 0, true;
    }

    /* ---- Rows ---- */

    /**
     The id is blocked from now on for the given seconds, or for one second if that is longer, and
     not beyond; every other id is as it was.
     */
    method RevokeRefreshToken(jti: Jti, expiresInSeconds: int, now: Time)
      modifies this`blocklist
      ensures forall t :: now <= t ==>
                (Revoked(View(), jti, t) <==> t - now < SECOND || t - now < expiresInSeconds * SECOND)
      ensures jti in blocklist && blocklist - {jti} == old(blocklist) - {jti}
    {
      blocklist := blocklist[jti := now + (if expiresInSeconds < 1 then 1 else expiresInSeconds) * SECOND];
    }

    /** A presented token is blocked for what is left of its life. */
    method Spend(k: SessionToken, now: Time)
      modifies this`blocklist
      ensures blocklist == old(blocklist)[k.jti := BlockedUntil(k.exp, now)]
    {
      var remaining := WholeSeconds(k.exp * SECOND - now);
      RevokeRefreshToken(k.jti, if remaining < 1 then 1 else remaining, now);
      assert !Revoked(View(), k.jti, BlockedUntil(k.exp, now)) && Revoked(View(), k.jti, BlockedUntil(k.exp, now) - 1);
      assert blocklist == (old(blocklist) - {k.jti})[k.jti := BlockedUntil(k.exp, now)];
    }

    method IssuePair(user: UserId, audience: Audience, claims: Claims, access: Jti, refresh: Jti, now: Time)
      modifies this`issued
      ensures issued == old(issued) + Pair(user, audience, claims, access, refresh, now)
    {
      issued := issued + { SessionToken(access, Access, audience, user, claims, (now + ACCESS_TTL) / SECOND) };
      issued := issued + { SessionToken(refresh, Refresh, audience, user, claims, (now + REFRESH_TTL) / SECOND) };
    }

    method SetPassword(user: UserId, next: string, now: Time)
      requires user in accounts
      modifies this`accounts
      ensures View() == Rekey(old(View()), user, next, now)
    {
      accounts := accounts[user := accounts[user].(password := next)];
      accounts := accounts[user := accounts[user].(pwdTs := Some(now))];
    }

    /* ---- Administration ---- */

    method OpenAccount(user: UserId, email: Email, tenant: TenantId, role: Option<RoleId>, password: string, now: Time)
      returns (r: Outcome<AuthError>)
      modifies this`accounts, this`emails
      ensures Performed(old(View()), Open(user, email, tenant, role, password, now), r)
    {
      if user in accounts || user in outsiders || email in emails {
        return Fail(Duplicate);
      }
      accounts := accounts[user := Account(tenant, role, true, password, None, None)];
      emails := emails[email := IndexRow(tenant, user)];
      return Pass;
    }

    method CloseAccount(user: UserId, now: Time) returns (r: Outcome<AuthError>)
      modifies this`accounts, this`emails
      ensures Performed(old(View()), Close(user, now), r)
    {
      if user !in accounts {
        return Fail(UserNotFound);
      }
      accounts := accounts[user := accounts[user].(active := false)];
      emails := map e | e in emails && emails[e].user != user :: emails[e];
      return Pass;
    }

    method ChangeStatus(user: UserId, active: bool, now: Time) returns (r: Outcome<AuthError>)
      modifies this`accounts
      ensures Performed(old(View()), SetActive(user, active, now), r)
    {
      if user !in accounts {
        return Fail(UserNotFound);
      }
      accounts := accounts[user := accounts[user].(active := active)];
      return Pass;
    }

    method ChangeRole(user: UserId, role: Option<RoleId>, now: Time) returns (r: Outcome<AuthError>)
      modifies this`accounts
      ensures Performed(old(View()), SetRole(user, role, now), r)
    {
      if user !in accounts {
        return Fail(UserNotFound);
      }
      accounts := accounts[user := accounts[user].(role := role)];
      return Pass;
    }

    method ChangePermissions(role: RoleId, granted: seq<string>, now: Time) returns (r: Outcome<AuthError>)
      modifies this`permissions
      ensures Performed(old(View()), SetPermissions(role, granted, now), r)
    {
      permissions := permissions[role := granted];
      return Pass;
    }

    method SuspendTenant(tenant: TenantId, suspend: bool, now: Time) returns (r: Outcome<AuthError>)
      modifies this`suspended
      ensures Performed(old(View()), SetSuspended(tenant, suspend, now), r)
    {
      suspended := if suspend then suspended + {tenant} else suspended - {tenant};
      return Pass;
    }

    /* ---- Sessions ---- */

    method LogInToPortal(client: bool, user: UserId, claims: Claims, access: Jti, refresh: Jti, now: Time)
      returns (r: Outcome<AuthError>)
      modifies this`outsiders, this`issued
      ensures Performed(old(View()), PortalLogin(client, user, claims, access, refresh, now), r)
    {
      if user in accounts {
        return Fail(Duplicate);
      }
      outsiders := outsiders + {user};
      IssuePair(user, if client then Client else Partner, claims, access, refresh, now);
      return Pass;
    }

    /** The active user the email index leads to. */
    method FindByEmail(email: Email) returns (user: Option<UserId>)
      ensures user == ByEmail(View(), email)
    {
      if email == "" || email !in emails {
        return None;
      }
      var row := emails[email];
      if !Seen(View(), row.tenant, row.user) || !accounts[row.user].active {
        return None;
      }
      return Some(row.user);
    }

    method LogIn(email: Email, password: string, access: Jti, refresh: Jti, now: Time) returns (r: Outcome<AuthError>)
      modifies this`accounts, this`issued
      ensures Performed(old(View()), Login(email, password, access, refresh, now), r)
      ensures r == Pass ==> exists user ::
                && LeadsTo(old(View()), email, user) && MayLogIn(old(View()), user, password)
                && SessionBegun(old(View()), issued, user, Staff, ClaimsOf(old(View()), old(accounts)[user]),
                  Login(email, password, access, refresh, now))
    {
      LoginLeads(View(), Login(email, password, access, refresh, now));
      var found := FindByEmail(email);
      if password == "" || found.None? {
        return Fail(InvalidCredentials);
      }
      var account := accounts[found.value];
      if account.tenant in suspended || account.password != password {
        return Fail(InvalidCredentials);
      }
      var claims := ClaimsOf(View(), account);
      accounts := accounts[found.value := account.(lastLogin := Some(now))];
      IssuePair(found.value, Staff, claims, access, refresh, now);
      return Pass;
    }

    /** Single-use rotation: the presented token is spent and a new pair issued, with the claims of the moment. */
    method RefreshSession(token: SessionToken, access: Jti, refresh: Jti, now: Time) returns (r: Outcome<AuthError>)
      modifies this`blocklist, this`issued
      ensures Performed(old(View()), Rotate(token, access, refresh, now), r)
      ensures match RotateRefusal(old(View()), token, now)
              case Some(e) => r == Fail(e)
              case None =>
                && r == Pass && Spent(old(View()), blocklist, token, now)
                && SessionBegun(old(View()), issued, token.user, Staff,
                  ClaimsOf(old(View()), old(accounts)[token.user]), Rotate(token, access, refresh, now))
    {
      RotateLeads(View(), Rotate(token, access, refresh, now));
      if !Accepted(View(), token, now) {
        return Fail(Unauthorized);
      }
      if token.audience == Client {
        return Fail(NotStaffSession);
      }
      if !CheckPwdTs(View(), token) {
        return Fail(SessionNoLongerValid);
      }
      if !Seen(View(), token.claims.tenant, token.user) {
        return Fail(SessionNoLongerValid);
      }
      var claims := ClaimsOf(View(), accounts[token.user]);
      Spend(token, now);
      IssuePair(token.user, Staff, claims, access, refresh, now);
      return Pass;
    }

    method LogOut(token: SessionToken, now: Time) returns (r: Outcome<AuthError>)
      modifies this`blocklist
      ensures Performed(old(View()), Logout(token, now), r)
    {
      if !Accepted(View(), token, now) {
        return Fail(Unauthorized);
      }
      Spend(token, now);
      return Pass;
    }

    /* ---- Passwords ---- */

    method ChangeOwnPassword(tenant: TenantId, user: UserId, current: string, next: string, now: Time)
      returns (r: Outcome<AuthError>)
      modifies this`accounts
      ensures Performed(old(View()), ChangePassword(tenant, user, current, next, now), r)
      ensures match ChangeRefusal(old(View()), ChangePassword(tenant, user, current, next, now))
              case Some(e) => r == Fail(e)
              case None => r == Pass && PasswordGiven(old(View()), accounts, user, next, now)
    {
      ChangeLeads(View(), ChangePassword(tenant, user, current, next, now));
      if |next| < MIN_PASSWORD_LENGTH {
        return Fail(PasswordTooShort);
      }
      if !Seen(View(), tenant, user) {
        return Fail(UserNotFound);
      }
      if accounts[user].password != current {
        return Fail(WrongPassword);
      }
      SetPassword(user, next, now);
      return Pass;
    }

    /** Silent when the email leads to no active user. */
    method RequestPasswordReset(email: Email, raw: RawToken, now: Time) returns (r: Outcome<AuthError>)
      modifies this`resets
      ensures Performed(old(View()), RequestReset(email, raw, now), r)
    {
      var found := FindByEmail(email);
      if found.None? {
        return Pass;
      }
      if Sha256(raw) in resets {
        return Fail(Duplicate);
      }
      resets := resets[Sha256(raw) := ResetRow(accounts[found.value].tenant, found.value, now + RESET_TTL, None)];
      return Pass;
    }

    method RedeemReset(raw: RawToken, next: string, now: Time) returns (r: Outcome<AuthError>)
      modifies this`accounts, this`resets
      ensures Performed(old(View()), ResetPassword(raw, next, now), r)
    {
      if |next| < MIN_PASSWORD_LENGTH {
        return Fail(PasswordTooShort);
      }
      var hash := Sha256(raw);
      if hash !in resets {
        return Fail(InvalidLink);
      }
      var row := resets[hash];
      if row.usedAt.Some? || row.expiresAt < now {
        return Fail(InvalidLink);
      }
      if !Seen(View(), row.tenant, row.user) {
        return Fail(InvalidLink);
      }
      SetPassword(row.user, next, now);
      resets := resets[hash := row.(usedAt := Some(now))];
      return Pass;
    }

    /* ---- Everything at once ---- */

    method Administer(op: AuthOp) returns (r: Outcome<AuthError>)
      requires op.Open? || op.Close? || op.SetActive? || op.SetRole? || op.SetPermissions? || op.SetSuspended?
      modifies this`accounts, this`emails, this`permissions, this`suspended
      ensures Performed(old(View()), op, r)
    {
      match op {
        case Open(user, email, tenant, role, password, now) =>
            r := OpenAccount(user, email, tenant, role, password, now);
        case Close(user, now) => r := CloseAccount(user, now);
        case SetActive(user, active, now) => r := ChangeStatus(user, active, now);
        case SetRole(user, role, now) => r := ChangeRole(user, role, now);
        case SetPermissions(role, granted, now) => r := ChangePermissions(role, granted, now);
        case SetSuspended(tenant, suspend, now) => r := SuspendTenant(tenant, suspend, now);
      }
    }

    method Serve(op: AuthOp) returns (r: Outcome<AuthError>)
      modifies this`accounts, this`emails, this`permissions, this`suspended, this`outsiders, this`issued,
          this`blocklist, this`resets
      ensures Performed(old(View()), op, r)
    {
      match op {
        case PortalLogin(client, user, claims, access, refresh, now) =>
            r := LogInToPortal(client, user, claims, access, refresh, now);
        case Login(email, password, access, refresh, now) => r := LogIn(email, password, access, refresh, now);
        case Rotate(token, access, refresh, now) => r := RefreshSession(token, access, refresh, now);
        case Logout(token, now) => r := LogOut(token, now);
        case ChangePassword(tenant, user, current, next, now) =>
            r := ChangeOwnPassword(tenant, user, current, next, now);
        case RequestReset(email, raw, now) => r := RequestPasswordReset(email, raw, now);
        case ResetPassword(raw, next, now) => r := RedeemReset(raw, next, now);
        case _ => r := Administer(op);
      }
    }

    /**
     One call, whichever it is. A rotation never takes a portal's token; after orderly calls, spending a
     token revokes no other, and a changed password ends every session its user had.
     */
    method Handle(op: AuthOp) returns (r: Outcome<AuthError>)
      requires Valid()
      modifies this
      ensures op.Rotate? && r == Pass ==> op.token.audience == Staff
      ensures old(orderly) && (op.Rotate? || op.Logout?) && r == Pass ==>
                forall k, t :: k in old(issued) && k != op.token ==>
                                 (Revoked(View(), k.jti, t) <==> Revoked(old(View()), k.jti, t))
      ensures old(orderly) && old(clock) < op.now && Rekeyed(old(View()), op).Some? ==>
                forall k :: k in old(issued) && Rekeyed(old(View()), op) == Some(k.user) ==> !CheckPwdTs(View(), k)
      ensures Valid() && clock == op.now && orderly == StillOrderly(old(View()), old(clock), old(orderly), op)
      ensures Performed(old(View()), op, r) && View() == After(old(View()), op)
    {
      AfterKept(View(), clock, orderly, op);
      HandledMeans(View(), clock, orderly, op);
      ghost var still := StillOrderly(View(), clock, orderly, op);
      r := Serve(op);
      clock, orderly := op.now, still;
    }
  }

  /**
   A store that receives any calls, in any order, goes through the runs the whole-run theorems are
   about, and is orderly when they are.
   */
  method HandleAll(ops: seq<AuthOp>) returns (store: Store)
    ensures fresh(store) && store.Valid() && store.View() == RunAuth(EMPTY, ops)
    ensures Orderly(ops) ==> store.orderly
  {
    store := new Store();
    for n := 0 to |ops|
      invariant fresh(store) && store.Valid() && store.View() == RunAuth(EMPTY, ops[..n])
      invariant Orderly(ops) ==> store.orderly && store.clock == SessionRotation.RunHistory(ops[..n]).clock
    {
      assert ops[..n + 1][..n] == ops[..n];
      SessionRotation.HistoryFollowsRun(ops[..n]);
      var r := store.Handle(ops[n]);
    }
    assert ops[..|ops|] == ops;
  }
}
