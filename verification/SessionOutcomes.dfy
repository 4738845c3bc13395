/**
 What each call on sessions and passwords does, as its caller sees it: when it is accepted, with which error it
 is refused otherwise, and what it leaves. Lifetimes are written out, and over runs a token, a password and a
 link are followed from the call that made them.
 */
module SessionOutcomes {
  import opened Wrappers
  import opened Timing
  import opened Identities
  import opened Credentials
  import opened Sessions
  import opened SessionRotation
  import opened SessionPasswords

  /* ---- Logging in ---- */

  /** The index row of the email and the account it names agree, and the account is active. */
  ghost predicate LeadsTo(a: Auth, email: Email, user: UserId) {
    && email != "" && email in a.emails && a.emails[email].user == user
    && user in a.accounts && a.accounts[user].tenant == a.emails[email].tenant && a.accounts[user].active
  }

  lemma LeadsIsByEmail(a: Auth, email: Email, user: UserId)
    ensures ByEmail(a, email) == Some(user) <==> LeadsTo(a, email, user)
  {
  }

  /** A token says of its user what the account and the role's permissions are. */
  lemma ClaimsSay(a: Auth, user: UserId)
    requires user in a.accounts
    ensures var u, claims := a.accounts[user], ClaimsOf(a, a.accounts[user]);
            && claims.tenant == u.tenant && claims.role == u.role && claims.pwdTs == u.pwdTs
            && (u.role.Some? && u.role.value in a.permissions ==> claims.permissions == a.permissions[u.role.value])
            && (u.role.None? || u.role.value !in a.permissions ==> claims.permissions == [])
  {
  }

  /** An access token to the whole second of fifteen minutes from now, and a refresh token to that of thirty days. */
  ghost predicate SessionBegun(a: Auth, issued: set<SessionToken>, user: UserId, audience: Audience, claims: Claims,
          op: AuthOp)
    requires op.Login? || op.Rotate? || op.PortalLogin?
  {
    issued == a.issued + {
      SessionToken(op.access, Access, audience, user, claims, (op.now + 900_000_000) / 1_000_000),
      SessionToken(op.refresh, Refresh, audience, user, claims, (op.now + 2_592_000_000_000) / 1_000_000) }
  }

  ghost predicate MayLogIn(a: Auth, user: UserId, password: string) {
    && user in a.accounts && password != "" && a.accounts[user].password == password
    && a.accounts[user].tenant !in a.suspended
  }

  /**
   A login is accepted exactly when the email leads to a user whose password it gives and whose tenant is not
   suspended; it begins that user's session and stamps the account.
   */
  lemma LoginLeads(a: Auth, op: AuthOp)
    requires op.Login?
    ensures AuthDo(a, op).Ok? <==> exists user :: LeadsTo(a, op.email, user) && MayLogIn(a, user, op.password)
    ensures AuthDo(a, op).Err? ==> AuthDo(a, op) == Err(InvalidCredentials)
    ensures AuthDo(a, op).Ok? ==>
              var b, user := AuthDo(a, op).value, a.emails[op.email].user;
              && LeadsTo(a, op.email, user) && b == a.(accounts := b.accounts, issued := b.issued)
              && b.accounts == a.accounts[user := a.accounts[user].(lastLogin := Some(op.now))]
              && SessionBegun(a, b.issued, user, Staff, ClaimsOf(a, a.accounts[user]), op)
  {
    if op.email in a.emails {
      LeadsIsByEmail(a, op.email, a.emails[op.email].user);
    }
  }

  /** A login of a portal begins a session that is marked as the portal's. */
  lemma PortalLoginLeads(a: Auth, op: AuthOp)
    requires op.PortalLogin?
    ensures AuthDo(a, op).Err? ==> AuthDo(a, op) == Err(Duplicate)
    ensures AuthDo(a, op).Ok? <==> op.user !in a.accounts
    ensures AuthDo(a, op).Ok? ==>
              var b := AuthDo(a, op).value;
              && b == a.(outsiders := a.outsiders + {op.user}, issued := b.issued)
              && SessionBegun(a, b.issued, op.user, if op.client then Client else Partner, op.claims, op)
  {
  }

  /* ---- Spending a refresh token ---- */

  /** Issued as a refresh token, before its last second is over, and not blocked. */
  ghost predicate Presentable(a: Auth, k: SessionToken, now: Time) {
    && k.kind == Refresh && k in a.issued && now < k.exp * 1_000_000
    && (k.jti in a.blocklist ==> a.blocklist[k.jti] <= now)
  }

  /** Why a rotation is refused, or None. */
  ghost function RotateRefusal(a: Auth, k: SessionToken, now: Time): Option<AuthError> {
    if !Presentable(a, k, now) then Some(Unauthorized)
    else if k.audience == Client then Some(NotStaffSession)
    else if k.user !in a.accounts || a.accounts[k.user].tenant != k.claims.tenant
            || a.accounts[k.user].pwdTs != k.claims.pwdTs then Some(SessionNoLongerValid)
    else None
  }

  /** The token is blocked for what is left of its life in whole seconds, and for at least one; no other is. */
  ghost predicate Spent(a: Auth, blocklist: map<Jti, Time>, k: SessionToken, now: Time) {
    var left := (k.exp * 1_000_000 - now) / 1_000_000;
    blocklist == a.blocklist[k.jti := now + (if left < 1 then 1 else left) * 1_000_000]
  }

  /** A rotation spends the token and begins a session of the same user, with the claims of the moment. */
  lemma RotateLeads(a: Auth, op: AuthOp)
    requires op.Rotate?
    ensures match RotateRefusal(a, op.token, op.now)
            case Some(e) => AuthDo(a, op) == Err(e)
            case None =>
              && AuthDo(a, op).Ok?
              && var b := AuthDo(a, op).value;
                 && b == a.(issued := b.issued, blocklist := b.blocklist)
                 && Spent(a, b.blocklist, op.token, op.now)
                 && SessionBegun(a, b.issued, op.token.user, Staff, ClaimsOf(a, a.accounts[op.token.user]), op)
  {
  }

  lemma LogoutLeads(a: Auth, op: AuthOp)
    requires op.Logout?
    ensures AuthDo(a, op).Err? ==> AuthDo(a, op) == Err(Unauthorized)
    ensures AuthDo(a, op).Ok? <==> Presentable(a, op.token, op.now)
    ensures AuthDo(a, op).Ok? ==>
              var b := AuthDo(a, op).value; b == a.(blocklist := b.blocklist) && Spent(a, b.blocklist, op.token, op.now)
  {
  }

  /* ---- The life of a session ---- */

  /** A new access token is good for fifteen minutes and a new refresh token for thirty days, to the whole second. */
  lemma NewTokensLive(a: Auth, op: AuthOp, k: SessionToken, now: Time)
    requires (op.Login? || op.Rotate? || op.PortalLogin?) && AuthDo(a, op).Ok?
    requires k in After(a, op).issued && k !in a.issued
    ensures k.kind == Access ==> (Unexpired(k, now) <==> now < (op.now + 900_000_000) / 1_000_000 * 1_000_000)
    ensures k.kind == Refresh ==> (Unexpired(k, now) <==> now < (op.now + 2_592_000_000_000) / 1_000_000 * 1_000_000)
  {
    if op.Login? {
      LoginLeads(a, op);
    } else if op.Rotate? {
      RotateLeads(a, op);
    } else {
      PortalLoginLeads(a, op);
    }
  }

  /** Every call of the run hands out new token ids. */
  ghost predicate NewIds(a: Auth, ops: seq<AuthOp>) {
    ops != [] ==>
      var front := ops[..|ops| - 1];
      NewIds(a, front) && FreshIds(RunAuth(a, front), ops[|ops| - 1])
  }

  predicate Spends(a: Auth, op: AuthOp, k: SessionToken) {
    (op.Rotate? || op.Logout?) && op.token == k && AuthDo(a, op).Ok?
  }

  /** Some call of the run rotated this token or logged it out. */
  ghost predicate SpentIn(a: Auth, ops: seq<AuthOp>, k: SessionToken) {
    && ops != []
    && var front := ops[..|ops| - 1];
       SpentIn(a, front, k) || Spends(RunAuth(a, front), ops[|ops| - 1], k)
  }

  ghost predicate BlockedWereIssued(a: Auth) {
    forall j :: j in a.blocklist ==> exists k :: k in a.issued && k.jti == j
  }

  lemma AfterBlockedWereIssued(a: Auth, op: AuthOp)
    requires BlockedWereIssued(a)
    ensures BlockedWereIssued(After(a, op))
  {
    var b := After(a, op);
    forall j | j in b.blocklist ensures exists k :: k in b.issued && k.jti == j {
      if j in a.blocklist {
        var k :| k in a.issued && k.jti == j;
        assert k in b.issued;
      } else {
        assert op.token in b.issued && op.token.jti == j;
      }
    }
  }

  lemma {:induction false} RunIdsKept(ops: seq<AuthOp>)
    requires NewIds(EMPTY, ops)
    ensures IdsUnique(RunAuth(EMPTY, ops)) && BlockedWereIssued(RunAuth(EMPTY, ops))
  {
    if ops == [] {
    } else {
      var front := ops[..|ops| - 1];
      RunIdsKept(front);
      AfterIdsUnique(RunAuth(EMPTY, front), ops[|ops| - 1]);
      AfterBlockedWereIssued(RunAuth(EMPTY, front), ops[|ops| - 1]);
    }
  }

  /** What is kept of a staff token: who it is for, its epoch until that changes, and no block until it is spent. */
  ghost predicate Standing(a: Auth, k: SessionToken, spent: bool, changed: bool) {
    && k in a.issued && k.user in a.accounts && a.accounts[k.user].tenant == k.claims.tenant
    && (!changed ==> a.accounts[k.user].pwdTs == k.claims.pwdTs)
    && (!spent ==> k.jti !in a.blocklist)
  }

  lemma StandsOn(a: Auth, op: AuthOp, k: SessionToken, spent: bool, changed: bool)
    requires IdsUnique(a) && Standing(a, k, spent, changed)
    ensures Standing(After(a, op), k, spent || Spends(a, op, k), changed || Rekeyed(a, op) == Some(k.user))
  {
  }

  lemma {:induction false} RunStands(a: Auth, ops: seq<AuthOp>, k: SessionToken)
    requires IdsUnique(a) && NewIds(a, ops) && Standing(a, k, false, false)
    ensures IdsUnique(RunAuth(a, ops))
    ensures Standing(RunAuth(a, ops), k, SpentIn(a, ops, k), RekeyedIn(a, ops, k.user))
  {
    if ops == [] {
    } else {
      var front, op := ops[..|ops| - 1], ops[|ops| - 1];
      RunStands(a, front, k);
      AfterIdsUnique(RunAuth(a, front), op);
      StandsOn(RunAuth(a, front), op, k, SpentIn(a, front, k), RekeyedIn(a, front, k.user));
    }
  }

  /** The refresh token that an accepted login or rotation makes. */
  ghost predicate NewRefresh(a: Auth, op: AuthOp, k: SessionToken) {
    && (op.Login? || op.Rotate?) && AuthDo(a, op).Ok? && FreshIds(a, op)
    && k.kind == Refresh && k in After(a, op).issued && k !in a.issued
  }

  lemma NewRefreshStands(a: Auth, op: AuthOp, k: SessionToken)
    requires BlockedWereIssued(a) && NewRefresh(a, op, k)
    ensures Standing(After(a, op), k, false, false) && k.audience == Staff
    ensures k.exp == (op.now + 2_592_000_000_000) / 1_000_000
  {
    NewTokensAreCurrent(a, op, k);
    if op.Login? {
      LoginLeads(a, op);
    } else {
      RotateLeads(a, op);
    }
  }

  /**
   A session can be refreshed for thirty days: through any calls, the refresh token of an accepted login or
   rotation is itself rotated exactly before its last second is over, until it is spent or the password changes.
   */
  lemma RefreshesForThirtyDays(before: seq<AuthOp>, op: AuthOp, after: seq<AuthOp>, k: SessionToken, access: Jti,
          refresh: Jti, now: Time)
    requires NewIds(EMPTY, before) && NewRefresh(RunAuth(EMPTY, before), op, k)
    requires NewIds(After(RunAuth(EMPTY, before), op), after)
    requires !SpentIn(After(RunAuth(EMPTY, before), op), after, k)
    ensures var b := RunAuth(After(RunAuth(EMPTY, before), op), after);
            && (AuthDo(b, Logout(k, now)).Ok? <==> now < (op.now + 2_592_000_000_000) / 1_000_000 * 1_000_000)
            && (!RekeyedIn(After(RunAuth(EMPTY, before), op), after, k.user) ==>
                  (AuthDo(b, Rotate(k, access, refresh, now)).Ok? <==>
                     now < (op.now + 2_592_000_000_000) / 1_000_000 * 1_000_000))
  {
    var a := RunAuth(EMPTY, before);
    RunIdsKept(before);
    NewRefreshStands(a, op, k);
    AfterIdsUnique(a, op);
    RunStands(After(a, op), after, k);
    var b := RunAuth(After(a, op), after);
    RotateLeads(b, Rotate(k, access, refresh, now));
    LogoutLeads(b, Logout(k, now));
  }

  /** A token spent by a whole-second clock is blocked for all of its life. */
  ghost predicate Barred(a: Auth, k: SessionToken, spent: bool) {
    spent ==> k.jti in a.blocklist && k.exp * SECOND <= a.blocklist[k.jti]
  }

  lemma BarredOn(a: Auth, op: AuthOp, k: SessionToken, spent: bool)
    requires IdsUnique(a) && k in a.issued && Barred(a, k, spent) && op.now % SECOND == 0
    ensures Barred(After(a, op), k, spent || Spends(a, op, k))
  {
    if (op.Rotate? || op.Logout?) && AuthDo(a, op).Ok? {
      BlockReaches(op.token.exp, op.now, 0);
    }
  }

  lemma {:induction false} RunBarred(a: Auth, ops: seq<AuthOp>, k: SessionToken)
    requires IdsUnique(a) && NewIds(a, ops) && Standing(a, k, false, false) && WholeClock(ops)
    ensures Barred(RunAuth(a, ops), k, SpentIn(a, ops, k))
  {
    if ops == [] {
    } else {
      var front, op := ops[..|ops| - 1], ops[|ops| - 1];
      assert forall n :: 0 <= n < |front| ==> front[n] == ops[n];
      RunBarred(a, front, k);
      RunStands(a, front, k);
      BarredOn(RunAuth(a, front), op, k, SpentIn(a, front, k));
    }
  }

  /** What an accepted login or rotation leaves for its new refresh token. */
  lemma NewSessionKept(before: seq<AuthOp>, op: AuthOp, k: SessionToken, start: Time)
    requires NewIds(EMPTY, before) && NewRefresh(RunAuth(EMPTY, before), op, k)
    requires StrictClock(start, before) && ClockAfter(start, before) < op.now
    ensures var b := After(RunAuth(EMPTY, before), op);
            && IdsUnique(b) && PortalsApart(b) && EpochsOrdered(b, op.now) && Standing(b, k, false, false)
            && k.audience == Staff && k.exp == (op.now + 2_592_000_000_000) / 1_000_000
  {
    var a := RunAuth(EMPTY, before);
    RunIdsKept(before);
    NewRefreshStands(a, op, k);
    AfterIdsUnique(a, op);
    RunPortalsApart(before);
    AfterPortalsApart(a, op);
    RunEpochsOrdered(EMPTY, start, before);
    AfterEpochsOrdered(a, ClockAfter(start, before), op);
  }

  lemma RotatesExactlyFrom(b: Auth, start: Time, after: seq<AuthOp>, k: SessionToken, access: Jti, refresh: Jti,
          now: Time)
    requires IdsUnique(b) && PortalsApart(b) && EpochsOrdered(b, start) && Standing(b, k, false, false)
    requires NewIds(b, after) && WholeClock(after) && StrictClock(start, after)
    requires k.audience == Staff && k.kind == Refresh
    ensures AuthDo(RunAuth(b, after), Rotate(k, access, refresh, now)).Ok? <==>
            now < k.exp * 1_000_000 && !SpentIn(b, after, k) && !RekeyedIn(b, after, k.user)
  {
    RunFollowed(b, start, after, k);
    RunBarred(b, after, k);
    RunStands(b, after, k);
    RotateLeads(RunAuth(b, after), Rotate(k, access, refresh, now));
  }

  /**
   With a clock of whole seconds that goes on, the token is rotated exactly while its thirty days last, it has
   not been spent and the password has not changed.
   */
  lemma RefreshesExactly(before: seq<AuthOp>, op: AuthOp, after: seq<AuthOp>, k: SessionToken, access: Jti,
          refresh: Jti, now: Time, start: Time)
    requires NewIds(EMPTY, before) && NewRefresh(RunAuth(EMPTY, before), op, k)
    requires StrictClock(start, before) && ClockAfter(start, before) < op.now
    requires NewIds(After(RunAuth(EMPTY, before), op), after) && WholeClock(after) && StrictClock(op.now, after)
    ensures var b := After(RunAuth(EMPTY, before), op);
            AuthDo(RunAuth(b, after), Rotate(k, access, refresh, now)).Ok? <==>
            && now < (op.now + 2_592_000_000_000) / 1_000_000 * 1_000_000
            && !SpentIn(b, after, k) && !RekeyedIn(b, after, k.user)
  {
    NewSessionKept(before, op, k, start);
    RotatesExactlyFrom(After(RunAuth(EMPTY, before), op), op.now, after, k, access, refresh, now);
  }

  /* ---- Passwords ---- */

  /** Why a change of password is refused, or None. */
  ghost function ChangeRefusal(a: Auth, op: AuthOp): Option<AuthError>
    requires op.ChangePassword?
  {
    if |op.next| < 8 then Some(PasswordTooShort)
    else if op.user !in a.accounts || a.accounts[op.user].tenant != op.tenant then Some(UserNotFound)
    else if op.current != a.accounts[op.user].password then Some(WrongPassword)
    else None
  }

  /** The account's password is the new one, as of this moment, and nothing else of the accounts changed. */
  ghost predicate PasswordGiven(a: Auth, accounts: map<UserId, Account>, user: UserId, next: string, now: Time) {
    && user in a.accounts
    && var u := a.accounts[user];
       accounts == a.accounts[user := Account(u.tenant, u.role, u.active, next, Some(now), u.lastLogin)]
  }

  lemma ChangeLeads(a: Auth, op: AuthOp)
    requires op.ChangePassword?
    ensures match ChangeRefusal(a, op)
            case Some(e) => AuthDo(a, op) == Err(e)
            case None =>
              && AuthDo(a, op).Ok?
              && var b := AuthDo(a, op).value;
                 b == a.(accounts := b.accounts) && PasswordGiven(a, b.accounts, op.user, op.next, op.now)
  {
  }

  /** A change takes exactly the password a login takes. */
  lemma ChangeTakesWhatLoginTakes(a: Auth, op: AuthOp, login: AuthOp)
    requires op.ChangePassword? && |op.next| >= 8 && login.Login? && login.password == op.current != ""
    requires LeadsTo(a, login.email, op.user) && a.accounts[op.user].tenant == op.tenant && op.tenant !in a.suspended
    ensures AuthDo(a, op).Ok? <==> AuthDo(a, login).Ok?
  {
    ChangeLeads(a, op);
    LoginLeads(a, login);
  }

  /* ---- Links ---- */

  /** A reset link as its request made it. */
  datatype Link = Link(user: UserId, at: Time)

  /** The accepted calls that make or use up the link of a raw token. */
  ghost function LinkAfter(a: Auth, before: Option<Link>, op: AuthOp, raw: RawToken): Option<Link> {
    match op
    case RequestReset(email, r, now) =>
      if r == raw && exists user :: LeadsTo(a, email, user) then Some(Link(a.emails[email].user, now)) else before
    case ResetPassword(r, _, _) => if r == raw then None else before
    case _ => before
  }

  /** The unused link of a raw token after a run. */
  ghost function OpenLink(ops: seq<AuthOp>, raw: RawToken): Option<Link> {
    if ops == [] then None
    else
      var front, op := ops[..|ops| - 1], ops[|ops| - 1];
      var a := RunAuth(EMPTY, front);
      if AuthDo(a, op).Ok? then LinkAfter(a, OpenLink(front, raw), op, raw) else OpenLink(front, raw)
  }

  /** A request is answered by a link for whoever the email leads to, open for an hour, or by nothing. */
  lemma RequestLeads(a: Auth, op: AuthOp)
    requires op.RequestReset?
    ensures AuthDo(a, op).Ok? <==> (Sha256(op.raw) in a.resets ==> !exists user :: LeadsTo(a, op.email, user))
    ensures AuthDo(a, op).Err? ==> AuthDo(a, op) == Err(Duplicate)
    ensures AuthDo(a, op).Ok? && (forall user :: !LeadsTo(a, op.email, user)) ==> AuthDo(a, op) == Ok(a)
    ensures forall user :: AuthDo(a, op).Ok? && LeadsTo(a, op.email, user) ==>
              AuthDo(a, op) == Ok(a.(resets := a.resets[Sha256(op.raw) :=
                ResetRow(a.accounts[user].tenant, user, op.now + 3_600_000_000, None)]))
  {
    if op.email in a.emails {
      LeadsIsByEmail(a, op.email, a.emails[op.email].user);
    }
  }

  ghost predicate LinkStored(a: Auth, raw: RawToken, link: Option<Link>) {
    match link
    case None => Sha256(raw) in a.resets ==> a.resets[Sha256(raw)].usedAt.Some?
    case Some(x) =>
      x.user in a.accounts && Sha256(raw) in a.resets
      && a.resets[Sha256(raw)] == ResetRow(a.accounts[x.user].tenant, x.user, x.at + 3_600_000_000, None)
  }

  /** Why a redemption is refused, or None, when the token's link is this. */
  ghost function ResetRefusal(link: Option<Link>, next: string, now: Time): Option<AuthError> {
    if |next| < 8 then Some(PasswordTooShort)
    else if link.None? || now > link.value.at + 3_600_000_000 then Some(InvalidLink)
    else None
  }

  lemma ResetLeads(a: Auth, op: AuthOp, link: Option<Link>)
    requires op.ResetPassword? && LinkStored(a, op.raw, link)
    ensures match ResetRefusal(link, op.next, op.now)
            case Some(e) => AuthDo(a, op) == Err(e)
            case None =>
              && AuthDo(a, op).Ok?
              && var b := AuthDo(a, op).value;
                 && b == a.(accounts := b.accounts, resets := b.resets)
                 && PasswordGiven(a, b.accounts, link.value.user, op.next, op.now)
                 && b.resets == a.resets[Sha256(op.raw) := a.resets[Sha256(op.raw)].(usedAt := Some(op.now))]
  {
  }

  lemma AfterLinkStored(a: Auth, op: AuthOp, raw: RawToken, link: Option<Link>)
    requires LinkStored(a, raw, link) && AuthDo(a, op).Ok?
    ensures LinkStored(After(a, op), raw, LinkAfter(a, link, op, raw))
  {
    if op.RequestReset? {
      RequestLeads(a, op);
    }
  }

  lemma {:induction false} RunLinkStored(ops: seq<AuthOp>, raw: RawToken)
    ensures LinkStored(RunAuth(EMPTY, ops), raw, OpenLink(ops, raw))
  {
    if ops == [] {
    } else {
      var front, op := ops[..|ops| - 1], ops[|ops| - 1];
      RunLinkStored(front, raw);
      if AuthDo(RunAuth(EMPTY, front), op).Ok? {
        AfterLinkStored(RunAuth(EMPTY, front), op, raw, OpenLink(front, raw));
      }
    }
  }

  /**
   After any run a link sets a password exactly when it was requested no more than an hour ago by an email that
   led to a user, and not used since; it sets that user's, and is used.
   */
  lemma LinkOpensForAnHour(ops: seq<AuthOp>, op: AuthOp)
    requires op.ResetPassword?
    ensures var a, link := RunAuth(EMPTY, ops), OpenLink(ops, op.raw);
            match ResetRefusal(link, op.next, op.now)
            case Some(e) => AuthDo(a, op) == Err(e)
            case None => AuthDo(a, op).Ok? && PasswordGiven(a, After(a, op).accounts, link.value.user, op.next, op.now)
                         && OpenLink(ops + [op], op.raw) == None
  {
    RunLinkStored(ops, op.raw);
    ResetLeads(RunAuth(EMPTY, ops), op, OpenLink(ops, op.raw));
    assert (ops + [op])[..|ops|] == ops;
  }

  /* ---- The password in force ---- */

  /** The password an accepted call gives this user. */
  ghost function GivenBy(before: Option<string>, op: AuthOp, user: UserId, links: Option<Link>): Option<string> {
    match op
    case Open(u, _, _, _, password, _) => if u == user then Some(password) else before
    case ChangePassword(_, u, _, next, _) => if u == user then Some(next) else before
    case ResetPassword(_, next, _) => if links.Some? && links.value.user == user then Some(next) else before
    case _ => before
  }

  /** The password the user's last accepted opening, change or reset gave. */
  ghost function PasswordSet(ops: seq<AuthOp>, user: UserId): Option<string> {
    if ops == [] then None
    else
      var front, op := ops[..|ops| - 1], ops[|ops| - 1];
      if AuthDo(RunAuth(EMPTY, front), op).Ok?
      then GivenBy(PasswordSet(front, user), op, user, if op.ResetPassword? then OpenLink(front, op.raw) else None)
      else PasswordSet(front, user)
  }

  ghost predicate PasswordStored(a: Auth, user: UserId, password: Option<string>) {
    && (user in a.accounts <==> password.Some?)
    && (password.Some? ==> a.accounts[user].password == password.value)
  }

  lemma AfterPasswordStored(a: Auth, op: AuthOp, user: UserId, password: Option<string>, link: Option<Link>)
    requires PasswordStored(a, user, password) && AuthDo(a, op).Ok?
    requires op.ResetPassword? ==> LinkStored(a, op.raw, link)
    ensures PasswordStored(After(a, op), user, GivenBy(password, op, user, link))
  {
    match op
    case ChangePassword(_, _, _, _, _) => ChangeLeads(a, op);
    case ResetPassword(_, _, _) => ResetLeads(a, op, link);
    case Login(_, _, _, _, _) => LoginLeads(a, op);
    case _ =>
  }

  lemma {:induction false} RunPasswordStored(ops: seq<AuthOp>, user: UserId)
    ensures PasswordStored(RunAuth(EMPTY, ops), user, PasswordSet(ops, user))
  {
    if ops == [] {
    } else {
      var front, op := ops[..|ops| - 1], ops[|ops| - 1];
      RunPasswordStored(front, user);
      var link := if op.ResetPassword? then OpenLink(front, op.raw) else None;
      if op.ResetPassword? {
        RunLinkStored(front, op.raw);
      }
      if AuthDo(RunAuth(EMPTY, front), op).Ok? {
        AfterPasswordStored(RunAuth(EMPTY, front), op, user, PasswordSet(front, user), link);
      }
    }
  }

  /**
   After any run, whoever is seen can change their password exactly by giving the one their last accepted
   opening, change or reset gave them.
   */
  lemma ChangeTakesTheLastPassword(ops: seq<AuthOp>, op: AuthOp)
    requires op.ChangePassword? && Seen(RunAuth(EMPTY, ops), op.tenant, op.user)
    ensures AuthDo(RunAuth(EMPTY, ops), op).Ok? <==> |op.next| >= 8 && PasswordSet(ops, op.user) == Some(op.current)
  {
    RunPasswordStored(ops, op.user);
    ChangeLeads(RunAuth(EMPTY, ops), op);
  }

  /** And whoever an email leads to logs in with exactly that one, unless it is empty or their tenant is suspended. */
  lemma LoginTakesTheLastPassword(ops: seq<AuthOp>, op: AuthOp, user: UserId)
    requires op.Login? && LeadsTo(RunAuth(EMPTY, ops), op.email, user)
    ensures AuthDo(RunAuth(EMPTY, ops), op).Ok? <==>
            && PasswordSet(ops, user) == Some(op.password) && op.password != ""
            && RunAuth(EMPTY, ops).accounts[user].tenant !in RunAuth(EMPTY, ops).suspended
  {
    RunPasswordStored(ops, user);
    LoginLeads(RunAuth(EMPTY, ops), op);
  }

  /* ---- Administration ---- */

  /** A new account is reached by its email and no other, and every other email leads where it did. */
  lemma OpeningLetsIn(a: Auth, op: AuthOp, email: Email, user: UserId)
    requires op.Open?
    ensures AuthDo(a, op).Err? ==> AuthDo(a, op) == Err(Duplicate)
    ensures AuthDo(a, op).Ok? <==> op.user !in a.accounts && op.user !in a.outsiders && op.email !in a.emails
    ensures AuthDo(a, op).Ok? ==>
              var b := AuthDo(a, op).value;
              && b == a.(accounts := b.accounts, emails := b.emails)
              && b.accounts == a.accounts[op.user := Account(op.tenant, op.role, true, op.password, None, None)]
              && (email == op.email ==> (LeadsTo(b, email, user) <==> email != "" && user == op.user))
              && (email != op.email && user != op.user ==> (LeadsTo(b, email, user) <==> LeadsTo(a, email, user)))
  {
  }

  /** A closed account is reached by no email; a deactivated one by none until it is activated again. */
  lemma ClosingShutsOut(a: Auth, op: AuthOp, email: Email, user: UserId)
    requires op.Close? || op.SetActive?
    ensures AuthDo(a, op) == Err(UserNotFound) || AuthDo(a, op).Ok?
    ensures AuthDo(a, op).Ok? <==> op.user in a.accounts
    ensures AuthDo(a, op).Ok? ==>
              var b := AuthDo(a, op).value;
              && b == a.(accounts := b.accounts, emails := b.emails)
              && b.accounts == a.accounts[op.user := a.accounts[op.user].(active := op.SetActive? && op.active)]
              && (user != op.user ==> (LeadsTo(b, email, user) <==> LeadsTo(a, email, user)))
              && (op.Close? ==> !LeadsTo(b, email, op.user))
              && (op.SetActive? && !op.active ==> !LeadsTo(b, email, op.user))
              && (op.SetActive? ==> b.emails == a.emails)
  {
  }

  /** But sessions already begun go on: closing or deactivating an account takes no token out of use. */
  lemma ClosingLeavesSessions(a: Auth, op: AuthOp, use: AuthOp)
    requires (op.Close? || op.SetActive?) && (use.Rotate? || use.Logout?)
    ensures AuthDo(After(a, op), use).Ok? <==> AuthDo(a, use).Ok?
  {
    if use.Rotate? {
      RotateLeads(a, use);
      RotateLeads(After(a, op), use);
    }
  }

  /** A suspension holds until it is lifted, and concerns one tenant. */
  lemma SuspendingLeads(a: Auth, op: AuthOp, tenant: TenantId)
    requires op.SetSuspended?
    ensures AuthDo(a, op).Ok?
    ensures var b := AuthDo(a, op).value;
            b == a.(suspended := b.suspended) &&
            (tenant in b.suspended <==> if tenant == op.tenant then op.suspended else tenant in a.suspended)
  {
  }

  /** A new role, or new permissions of it, are what tokens say from then on. */
  lemma RolesAreSaid(a: Auth, op: AuthOp, user: UserId)
    requires (op.SetRole? || op.SetPermissions?) && user in a.accounts
    ensures op.SetRole? && op.user !in a.accounts ==> AuthDo(a, op) == Err(UserNotFound)
    ensures op.SetPermissions? || op.user in a.accounts ==>
              && AuthDo(a, op).Ok?
              && var b := AuthDo(a, op).value;
                 && b == a.(accounts := b.accounts, permissions := b.permissions)
                 && user in b.accounts
                 && var said := ClaimsOf(b, b.accounts[user]);
                    && said.role == (if op.SetRole? && op.user == user then op.role else a.accounts[user].role)
                    && (op.SetPermissions? && said.role == Some(op.grantee) ==> said.permissions == op.permissions)
                    && (op.SetPermissions? && said.role != Some(op.grantee) ==>
                          said == ClaimsOf(a, a.accounts[user]))
                    && b.accounts[user] == a.accounts[user].(role := said.role)
                    && (op.SetRole? ==> b.permissions == a.permissions)
  {
  }
}
