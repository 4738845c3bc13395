/**
 Staff sessions and credentials as values: login through the email index, single-use refresh tokens
 against an expiring blocklist, logout, password changes and one-shot reset links, each reading a clock.
 */
module Sessions {
  import opened Wrappers
  import opened Timing
  import opened Identities
  import opened Credentials

  type Jti = nat

  const ACCESS_TTL: int := 15 * 60 * SECOND
  const REFRESH_TTL: int := 30 * DAY

  datatype Kind = Access | Refresh

  /** Whom a token was made for: staff, a client portal user, or a user of the other portals. */
  datatype Audience = Staff | Client | Partner

  /** What a token says of its user. `pwdTs` is the password epoch it was issued under. */
  datatype Claims = Claims(tenant: TenantId, role: Option<RoleId>, permissions: seq<string>, pwdTs: Option<Time>)

  /** A signed token. `exp` is in whole seconds. */
  datatype SessionToken = SessionToken(jti: Jti, kind: Kind, audience: Audience, user: UserId, claims: Claims, exp: int)

  /** `password` stands for its hash: verification is taken to be equality. */
  datatype Account = Account(
    tenant: TenantId, role: Option<RoleId>, active: bool,
    password: string, pwdTs: Option<Time>, lastLogin: Option<Time>)

  datatype IndexRow = IndexRow(tenant: TenantId, user: UserId)

  datatype ResetRow = ResetRow(tenant: TenantId, user: UserId, expiresAt: Time, usedAt: Option<Time>)

  /**
   The tables. `emails` is the index consulted before a tenant is known, `outsiders` the users of the
   portals, whose ids differ from those of accounts; `issued` is what the signing key vouches for;
   `blocklist` maps a token id to the moment its entry expires.
   */
  datatype Auth = Auth(
    accounts: map<UserId, Account>,
    emails: map<Email, IndexRow>,
    permissions: map<RoleId, seq<string>>,
    suspended: set<TenantId>,
    outsiders: set<UserId>,
    issued: set<SessionToken>,
    blocklist: map<Jti, Time>,
    resets: map<Hash, ResetRow>)

  const EMPTY: Auth := Auth(map[], map[], map[], {}, {}, {}, map[], map[])

  datatype AuthError =
    | InvalidCredentials
    | Unauthorized
    | NotStaffSession
    | SessionNoLongerValid
    | PasswordTooShort
    | WrongPassword
    | UserNotFound
    | InvalidLink
    | Duplicate

  datatype AuthOp =
    | Open(user: UserId, email: Email, tenant: TenantId, role: Option<RoleId>, password: string, now: Time)
    | Close(user: UserId, now: Time)
    | SetActive(user: UserId, active: bool, now: Time)
    | SetRole(user: UserId, role: Option<RoleId>, now: Time)
    | SetPermissions(grantee: RoleId, permissions: seq<string>, now: Time)
    | SetSuspended(tenant: TenantId, suspended: bool, now: Time)
    | PortalLogin(client: bool, user: UserId, claims: Claims, access: Jti, refresh: Jti, now: Time)
    | Login(email: Email, password: string, access: Jti, refresh: Jti, now: Time)
    | Rotate(token: SessionToken, access: Jti, refresh: Jti, now: Time)
    | Logout(token: SessionToken, now: Time)
    | ChangePassword(tenant: TenantId, user: UserId, current: string, next: string, now: Time)
    | RequestReset(email: Email, raw: RawToken, now: Time)
    | ResetPassword(raw: RawToken, next: string, now: Time)

  /* ---- Lookups ---- */

  /** The row-level policy: within a tenant only its own users are seen. */
  predicate Seen(a: Auth, tenant: TenantId, user: UserId) {
    user in a.accounts && a.accounts[user].tenant == tenant
  }

  /** The active user an email leads to, through the index and then the tenant it names. */
  function ByEmail(a: Auth, email: Email): Option<UserId> {
    if email == "" || email !in a.emails then None
    else
      var row := a.emails[email];
      if Seen(a, row.tenant, row.user) && a.accounts[row.user].active then Some(row.user) else None
  }

  /** What a token issued now says of an account. */
  function ClaimsOf(a: Auth, u: Account): Claims {
    var permissions := if u.role.Some? && u.role.value in a.permissions then a.permissions[u.role.value] else [];
    Claims(u.tenant, u.role, permissions, u.pwdTs)
  }

  /* ---- Token checks ---- */

  predicate Unexpired(k: SessionToken, now: Time) {
    now < k.exp * SECOND
  }

  predicate Revoked(a: Auth, jti: Jti, now: Time) {
    jti in a.blocklist && now < a.blocklist[jti]
  }

  /** What a route that takes a refresh token verifies before it runs. */
  predicate Accepted(a: Auth, k: SessionToken, now: Time) {
    k.kind == Refresh && k in a.issued && Unexpired(k, now) && !Revoked(a, k.jti, now)
  }

  /** The token's password epoch is the user's current one; a user who is not seen passes. */
  predicate CheckPwdTs(a: Auth, k: SessionToken) {
    Seen(a, k.claims.tenant, k.user) ==> a.accounts[k.user].pwdTs == k.claims.pwdTs
  }

  /** Truncation toward zero of a duration to whole seconds. */
  function WholeSeconds(d: int): int {
    if d >= 0 then d / SECOND else -((-d) / SECOND)
  }

  /** The blocklist lifetime given to a revoked token: its remaining whole seconds, at least one. */
  function BlockSeconds(exp: int, now: Time): int {
    var remaining := WholeSeconds(exp * SECOND - now);
    if remaining < 1 then 1 else remaining
  }

  function BlockedUntil(exp: int, now: Time): Time {
    now + BlockSeconds(exp, now) * SECOND
  }

  /** The two tokens of a new or rotated session. */
  function Pair(user: UserId, audience: Audience, claims: Claims, access: Jti, refresh: Jti, now: Time)
    : set<SessionToken>
  {
    { SessionToken(access, Access, audience, user, claims, (now + ACCESS_TTL) / SECOND),
      SessionToken(refresh, Refresh, audience, user, claims, (now + REFRESH_TTL) / SECOND) }
  }

  /* ---- Operations ---- */

  function Rekey(a: Auth, user: UserId, next: string, now: Time): Auth
    requires user in a.accounts
  {
    a.(accounts := a.accounts[user := a.accounts[user].(password := next, pwdTs := Some(now))])
  }

  function AuthDo(a: Auth, op: AuthOp): Result<Auth, AuthError> {
    match op
    case Open(user, email, tenant, role, password, _) =>
      if user in a.accounts || user in a.outsiders || email in a.emails then Err(Duplicate)
      else Ok(a.(accounts := a.accounts[user := Account(tenant, role, true, password, None, None)],
                 emails := a.emails[email := IndexRow(tenant, user)]))
    case Close(user, _) =>
      if user !in a.accounts then Err(UserNotFound)
      else Ok(a.(accounts := a.accounts[user := a.accounts[user].(active := false)],
                 emails := map e | e in a.emails && a.emails[e].user != user :: a.emails[e]))
    case SetActive(user, active, _) =>
      if user !in a.accounts then Err(UserNotFound)
      else Ok(a.(accounts := a.accounts[user := a.accounts[user].(active := active)]))
    case SetRole(user, role, _) =>
      if user !in a.accounts then Err(UserNotFound)
      else Ok(a.(accounts := a.accounts[user := a.accounts[user].(role := role)]))
    case SetPermissions(role, permissions, _) => Ok(a.(permissions := a.permissions[role := permissions]))
    case SetSuspended(tenant, suspended, _) =>
      Ok(a.(suspended := if suspended then a.suspended + {tenant} else a.suspended - {tenant}))
    case PortalLogin(client, user, claims, access, refresh, now) =>
      if user in a.accounts then Err(Duplicate)
      else Ok(a.(outsiders := a.outsiders + {user},
                 issued := a.issued + Pair(user, if client then Client else Partner, claims, access, refresh, now)))
    case Login(email, password, access, refresh, now) =>
      (match ByEmail(a, email)
       case None => Err(InvalidCredentials)
       case Some(user) =>
         var account := a.accounts[user];
         if password == "" || account.tenant in a.suspended || account.password != password then Err(InvalidCredentials)
         else Ok(a.(accounts := a.accounts[user := account.(lastLogin := Some(now))],
                    issued := a.issued + Pair(user, Staff, ClaimsOf(a, account), access, refresh, now))))
    case Rotate(k, access, refresh, now) =>
      if !Accepted(a, k, now) then Err(Unauthorized)
      else if k.audience == Client then Err(NotStaffSession)
      else if !CheckPwdTs(a, k) || !Seen(a, k.claims.tenant, k.user) then Err(SessionNoLongerValid)
      else Ok(a.(issued := a.issued + Pair(k.user, Staff, ClaimsOf(a, a.accounts[k.user]), access, refresh, now),
                 blocklist := a.blocklist[k.jti := BlockedUntil(k.exp, now)]))
    case Logout(k, now) =>
      if !Accepted(a, k, now) then Err(Unauthorized)
      else Ok(a.(blocklist := a.blocklist[k.jti := BlockedUntil(k.exp, now)]))
    case ChangePassword(tenant, user, current, next, now) =>
      if |next| < MIN_PASSWORD_LENGTH then Err(PasswordTooShort)
      else if !Seen(a, tenant, user) then Err(UserNotFound)
      else if a.accounts[user].password != current then Err(WrongPassword)
      else Ok(Rekey(a, user, next, now))
    case RequestReset(email, raw, now) =>
      (match ByEmail(a, email)
       case None => Ok(a)
       case Some(user) =>
         if Sha256(raw) in a.resets then Err(Duplicate)
         else Ok(a.(resets := a.resets[Sha256(raw) := ResetRow(a.accounts[user].tenant, user, now + RESET_TTL, None)])))
    case ResetPassword(raw, next, now) =>
      if |next| < MIN_PASSWORD_LENGTH then Err(PasswordTooShort)
      else if Sha256(raw) !in a.resets then Err(InvalidLink)
      else
        var row := a.resets[Sha256(raw)];
        if row.usedAt.Some? || row.expiresAt < now || !Seen(a, row.tenant, row.user) then Err(InvalidLink)
        else Ok(Rekey(a, row.user, next, now).(resets := a.resets[Sha256(raw) := row.(usedAt := Some(now))]))
  }

  function After(a: Auth, op: AuthOp): Auth {
    match AuthDo(a, op)
    case Ok(b) => b
    case Err(_) => a
  }

  function RunAuth(a: Auth, ops: seq<AuthOp>): Auth {
    if ops == [] then a else After(RunAuth(a, ops[..|ops| - 1]), ops[|ops| - 1])
  }

  /** Token ids handed out by an operation are new, as random UUIDs are. */
  predicate FreshIds(a: Auth, op: AuthOp) {
    op.Login? || op.PortalLogin? || op.Rotate? ==>
      op.access != op.refresh && forall k :: k in a.issued ==> k.jti != op.access && k.jti != op.refresh
  }
}
