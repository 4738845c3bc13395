/**
 Password epochs and reset links: a password change puts every earlier token out of use for
 good, and a reset link changes one password, once, in time.
 */
module SessionPasswords {
  import opened Wrappers
  import opened Timing
  import opened Identities
  import opened Credentials
  import opened Sessions

  /* ---- Epochs ---- */

  predicate Before(a: Option<Time>, b: Option<Time>) {
    b.Some? && (a.None? || a.value < b.value)
  }

  /** Portal users have no account, and only staff tokens are made for accounts. */
  ghost predicate PortalsApart(a: Auth) {
    && a.accounts.Keys !! a.outsiders
    && forall k :: k in a.issued && k.audience != Staff ==> k.user in a.outsiders
  }

  ghost predicate TokensBehind(a: Auth) {
    forall k :: k in a.issued && k.audience == Staff ==>
      Seen(a, k.claims.tenant, k.user) && !Before(a.accounts[k.user].pwdTs, k.claims.pwdTs)
  }

  ghost predicate EpochsPast(a: Auth, clock: Time) {
    forall u :: u in a.accounts && a.accounts[u].pwdTs.Some? ==> a.accounts[u].pwdTs.value <= clock
  }

  /**
   No staff token is ahead of its user's epoch, each is under its user's tenant, and no epoch is ahead of the
   clock.
   */
  ghost predicate EpochsOrdered(a: Auth, clock: Time) {
    TokensBehind(a) && EpochsPast(a, clock)
  }

  lemma AfterPortalsApart(a: Auth, op: AuthOp)
    requires PortalsApart(a)
    ensures PortalsApart(After(a, op))
  {
    if op.Rotate? && AuthDo(a, op).Ok? {
      assert op.token.user in a.accounts;
    }
  }

  lemma AfterTokensBehind(a: Auth, clock: Time, op: AuthOp)
    requires EpochsOrdered(a, clock) && clock <= op.now
    ensures TokensBehind(After(a, op))
  {
  }

  lemma AfterEpochsPast(a: Auth, clock: Time, op: AuthOp)
    requires EpochsPast(a, clock) && clock <= op.now
    ensures EpochsPast(After(a, op), op.now)
  {
  }

  lemma AfterEpochsOrdered(a: Auth, clock: Time, op: AuthOp)
    requires EpochsOrdered(a, clock) && clock <= op.now
    ensures EpochsOrdered(After(a, op), op.now)
  {
    AfterTokensBehind(a, clock, op);
    AfterEpochsPast(a, clock, op);
  }

  /** The token was issued under an earlier password than the user's current one. */
  predicate Stale(a: Auth, k: SessionToken) {
    Seen(a, k.claims.tenant, k.user) && Before(k.claims.pwdTs, a.accounts[k.user].pwdTs)
  }

  lemma StaleStays(a: Auth, clock: Time, op: AuthOp, k: SessionToken)
    requires EpochsOrdered(a, clock) && clock <= op.now && Stale(a, k)
    ensures Stale(After(a, op), k)
  {
  }

  function ClockAfter(start: Time, ops: seq<AuthOp>): Time {
    if ops == [] then start else ops[|ops| - 1].now
  }

  /** Each reading of a run is later than the one before. */
  ghost predicate StrictClock(start: Time, ops: seq<AuthOp>) {
    ops != [] ==>
      var front := ops[..|ops| - 1];
      StrictClock(start, front) && ClockAfter(start, front) < ops[|ops| - 1].now
  }

  lemma {:induction false} RunPortalsApart(ops: seq<AuthOp>)
    ensures PortalsApart(RunAuth(EMPTY, ops))
  {
    if ops == [] {
    } else {
      RunPortalsApart(ops[..|ops| - 1]);
      AfterPortalsApart(RunAuth(EMPTY, ops[..|ops| - 1]), ops[|ops| - 1]);
    }
  }

  lemma {:induction false} RunEpochsOrdered(a: Auth, start: Time, ops: seq<AuthOp>)
    requires EpochsOrdered(a, start) && StrictClock(start, ops)
    ensures EpochsOrdered(RunAuth(a, ops), ClockAfter(start, ops))
  {
    if ops == [] {
    } else {
      RunEpochsOrdered(a, start, ops[..|ops| - 1]);
      AfterEpochsOrdered(RunAuth(a, ops[..|ops| - 1]), ClockAfter(start, ops[..|ops| - 1]), ops[|ops| - 1]);
    }
  }

  lemma {:induction false} RunStale(a: Auth, start: Time, ops: seq<AuthOp>, k: SessionToken)
    requires EpochsOrdered(a, start) && StrictClock(start, ops) && Stale(a, k)
    ensures Stale(RunAuth(a, ops), k)
  {
    if ops == [] {
    } else {
      var front := ops[..|ops| - 1];
      RunStale(a, start, front, k);
      RunEpochsOrdered(a, start, front);
      StaleStays(RunAuth(a, front), ClockAfter(start, front), ops[|ops| - 1], k);
    }
  }

  /** Whose password an accepted operation sets. */
  function Rekeyed(a: Auth, op: AuthOp): Option<UserId> {
    if AuthDo(a, op).Err? then None
    else
      match op
      case ChangePassword(_, user, _, _, _) => Some(user)
      case ResetPassword(raw, _, _) => Some(a.resets[Sha256(raw)].user)
      case _ => None
  }

  /**
   Right after a change, the user's tokens that still pass are exactly those already carrying its
   very reading. (A token under another tenant is not looked at.)
   */
  lemma ChangeInvalidatesExactly(a: Auth, op: AuthOp, k: SessionToken)
    requires Rekeyed(a, op) == Some(k.user)
    ensures CheckPwdTs(After(a, op), k) <==>
            k.claims.pwdTs == Some(op.now) || k.claims.tenant != a.accounts[k.user].tenant
  {
  }

  /** So none issued earlier does, when the clock has moved on. */
  lemma ChangeEndsSessions(a: Auth, clock: Time, op: AuthOp, k: SessionToken)
    requires PortalsApart(a) && EpochsOrdered(a, clock) && clock < op.now
    requires k in a.issued && Rekeyed(a, op) == Some(k.user)
    ensures !CheckPwdTs(After(a, op), k)
  {
    ChangeInvalidatesExactly(a, op, k);
    assert k.user in a.accounts;
  }

  /** A token issued before a change is stale right after it. */
  lemma StaleAfterChange(a: Auth, clock: Time, op: AuthOp, k: SessionToken)
    requires PortalsApart(a) && EpochsOrdered(a, clock) && clock < op.now
    requires k in a.issued && Rekeyed(a, op) == Some(k.user)
    ensures Stale(After(a, op), k)
  {
    assert k.user in a.accounts;
  }

  lemma StaleCannotRotate(b: Auth, k: SessionToken)
    requires Stale(b, k)
    ensures !CheckPwdTs(b, k) && forall access, refresh, now :: AuthDo(b, Rotate(k, access, refresh, now)).Err?
  {
  }

  lemma NeverPassesFrom(a: Auth, clock: Time, op: AuthOp, after: seq<AuthOp>, k: SessionToken)
    requires PortalsApart(a) && EpochsOrdered(a, clock) && clock < op.now && StrictClock(op.now, after)
    requires k in a.issued && Rekeyed(a, op) == Some(k.user)
    ensures var b := RunAuth(After(a, op), after);
            !CheckPwdTs(b, k) && forall access, refresh, now :: AuthDo(b, Rotate(k, access, refresh, now)).Err?
  {
    AfterEpochsOrdered(a, clock, op);
    StaleAfterChange(a, clock, op, k);
    RunStale(After(a, op), op.now, after, k);
    StaleCannotRotate(RunAuth(After(a, op), after), k);
  }

  /**
   With strictly increasing clock readings: once a user's password is changed or reset, no token
   issued to them before passes the timestamp check again, or can be rotated into a new one, in any later run.
   */
  lemma OldTokensNeverPass(before: seq<AuthOp>, op: AuthOp, after: seq<AuthOp>, k: SessionToken, start: Time)
    requires StrictClock(start, before) && ClockAfter(start, before) < op.now && StrictClock(op.now, after)
    requires var a := RunAuth(EMPTY, before); k in a.issued && Rekeyed(a, op) == Some(k.user)
    ensures var b := RunAuth(After(RunAuth(EMPTY, before), op), after);
            && !CheckPwdTs(b, k)
            && forall access, refresh, now :: AuthDo(b, Rotate(k, access, refresh, now)).Err?
  {
    RunPortalsApart(before);
    RunEpochsOrdered(EMPTY, start, before);
    NeverPassesFrom(RunAuth(EMPTY, before), ClockAfter(start, before), op, after, k);
  }

  /** Nobody else's tokens are affected by a change, nor anybody's by any other call. */
  lemma OthersKeepTheirSessions(a: Auth, op: AuthOp, k: SessionToken)
    requires Rekeyed(a, op) != Some(k.user) && (Rekeyed(a, op).Some? || k.user in a.accounts)
    ensures CheckPwdTs(After(a, op), k) <==> CheckPwdTs(a, k)
    ensures Seen(a, k.claims.tenant, k.user) ==> Seen(After(a, op), k.claims.tenant, k.user)
  {
  }

  /** Some call of the run changed or reset this user's password. */
  ghost predicate RekeyedIn(a: Auth, ops: seq<AuthOp>, user: UserId) {
    && ops != []
    && var front := ops[..|ops| - 1];
       RekeyedIn(a, front, user) || Rekeyed(RunAuth(a, front), ops[|ops| - 1]) == Some(user)
  }

  /** What is kept of a token while the run goes on: it is issued, and passes or is stale. */
  ghost predicate Followed(a: Auth, k: SessionToken, changed: bool) {
    && k in a.issued && Seen(a, k.claims.tenant, k.user)
    && if changed then Stale(a, k) else CheckPwdTs(a, k)
  }

  lemma FollowedOn(a: Auth, clock: Time, op: AuthOp, k: SessionToken, changed: bool)
    requires PortalsApart(a) && EpochsOrdered(a, clock) && clock < op.now && Followed(a, k, changed)
    ensures Followed(After(a, op), k, changed || Rekeyed(a, op) == Some(k.user))
  {
    if changed {
      StaleStays(a, clock, op, k);
    } else if Rekeyed(a, op) == Some(k.user) {
      StaleAfterChange(a, clock, op, k);
    } else {
      OthersKeepTheirSessions(a, op, k);
    }
  }

  lemma {:induction false} RunFollowed(a: Auth, start: Time, ops: seq<AuthOp>, k: SessionToken)
    requires PortalsApart(a) && EpochsOrdered(a, start) && StrictClock(start, ops) && Followed(a, k, false)
    ensures PortalsApart(RunAuth(a, ops)) && Followed(RunAuth(a, ops), k, RekeyedIn(a, ops, k.user))
  {
    if ops == [] {
    } else {
      var front, op := ops[..|ops| - 1], ops[|ops| - 1];
      RunFollowed(a, start, front, k);
      RunEpochsOrdered(a, start, front);
      AfterPortalsApart(RunAuth(a, front), op);
      FollowedOn(RunAuth(a, front), ClockAfter(start, front), op, k, RekeyedIn(a, front, k.user));
    }
  }

  /**
   With strictly increasing clock readings, a token of an account that passes the timestamp check
   goes on passing it over any run until its user's password is changed or reset, and never after.
   */
  lemma SessionLastsUntilTheChange(before: seq<AuthOp>, after: seq<AuthOp>, k: SessionToken, start: Time)
    requires StrictClock(start, before) && StrictClock(ClockAfter(start, before), after)
    requires var a := RunAuth(EMPTY, before); k in a.issued && k.user in a.accounts && CheckPwdTs(a, k)
    ensures var a := RunAuth(EMPTY, before);
            CheckPwdTs(RunAuth(a, after), k) <==> !RekeyedIn(a, after, k.user)
  {
    RunPortalsApart(before);
    RunEpochsOrdered(EMPTY, start, before);
    RunFollowed(RunAuth(EMPTY, before), ClockAfter(start, before), after, k);
  }

  /** The password an accepted operation sets. */
  function NewPassword(op: AuthOp): string {
    match op
    case ChangePassword(_, _, _, next, _) => next
    case ResetPassword(_, next, _) => next
    case _ => ""
  }

  /**
   After a change or reset, the email that leads to the user logs in with the new password and no
   other, unless their tenant is suspended; every other email logs in as before.
   */
  lemma LoginFollowsThePassword(a: Auth, op: AuthOp, email: Email, password: string, access: Jti, refresh: Jti,
          now: Time)
    requires Rekeyed(a, op).Some?
    ensures var login := Login(email, password, access, refresh, now);
            AuthDo(After(a, op), login).Ok? <==>
              if ByEmail(a, email) == Rekeyed(a, op)
              then a.accounts[Rekeyed(a, op).value].tenant !in a.suspended && password == NewPassword(op)
              else AuthDo(a, login).Ok?
  {
    assert ByEmail(After(a, op), email) == ByEmail(a, email);
  }

  /** Suspending a tenant refuses its users' logins, and takes nobody's session away. */
  lemma SuspensionStopsLogins(a: Auth, tenant: TenantId, at: Time, op: AuthOp)
    ensures var b := After(a, SetSuspended(tenant, true, at));
            && (op.Rotate? || op.Logout? ==> (AuthDo(b, op).Ok? <==> AuthDo(a, op).Ok?))
            && (op.Login? ==>
                (AuthDo(b, op).Ok? <==>
                   AuthDo(a, op).Ok? && a.accounts[ByEmail(a, op.email).value].tenant != tenant))
  {
    var b := After(a, SetSuspended(tenant, true, at));
    if op.Login? {
      assert ByEmail(b, op.email) == ByEmail(a, op.email);
    }
  }

  /* ---- What tokens say ---- */

  /**
   A login or a rotation issues one access and one refresh token, both for staff and saying what the
   account, its role and its epoch are at that moment, whatever the token rotated said.
   */
  lemma NewTokensAreCurrent(a: Auth, op: AuthOp, k: SessionToken)
    requires (op.Login? || op.Rotate?) && AuthDo(a, op).Ok? && FreshIds(a, op)
    requires k in After(a, op).issued && k !in a.issued
    ensures var b := After(a, op);
            && k.audience == Staff && k.user in b.accounts && k.claims == ClaimsOf(b, b.accounts[k.user])
            && Some(k.user) == (if op.Login? then ByEmail(a, op.email) else Some(op.token.user))
            && CheckPwdTs(b, k)
            && (k.kind == Access ==> k.jti == op.access) && (k.kind == Refresh ==> k.jti == op.refresh)
  {
  }

  /** Over any run no token of a portal is taken by the staff refresh, and every staff token is an account's. */
  lemma PortalTokensStayOut(ops: seq<AuthOp>, k: SessionToken, access: Jti, refresh: Jti, now: Time)
    requires k in RunAuth(EMPTY, ops).issued
    ensures k.audience != Staff ==> AuthDo(RunAuth(EMPTY, ops), Rotate(k, access, refresh, now)).Err?
    ensures k.audience != Staff ==> k.user !in RunAuth(EMPTY, ops).accounts
  {
    RunPortalsApart(ops);
  }

  /* ---- Reset links ---- */

  /** A link that changed a password. */
  datatype Redemption = Redemption(link: Hash, user: UserId, at: Time)

  datatype History = History(auth: Auth, redeemed: seq<Redemption>)

  function Record(h: History, op: AuthOp): History {
    History(After(h.auth, op),
            if op.ResetPassword? && AuthDo(h.auth, op).Ok?
            then h.redeemed + [Redemption(Sha256(op.raw), h.auth.resets[Sha256(op.raw)].user, op.now)]
            else h.redeemed)
  }

  function RunHistory(ops: seq<AuthOp>): History {
    if ops == [] then History(EMPTY, []) else Record(RunHistory(ops[..|ops| - 1]), ops[|ops| - 1])
  }

  /** A request for a link is answered alike whether or not the email has an account. */
  lemma RequestsTellNothing(a: Auth, email: Email, other: Email, raw: RawToken, now: Time)
    requires Sha256(raw) !in a.resets
    ensures AuthDo(a, RequestReset(email, raw, now)).Ok? && AuthDo(a, RequestReset(other, raw, now)).Ok?
    ensures var b := After(a, RequestReset(email, raw, now));
            && b == a.(resets := b.resets)
            && (b == a <==> ByEmail(a, email).None?)
            && forall l :: l in b.resets && l !in a.resets ==> Some(b.resets[l].user) == ByEmail(a, email)
  {
    var b := After(a, RequestReset(email, raw, now));
    if ByEmail(a, email).Some? {
      assert Sha256(raw) in b.resets;
    }
  }

  /** Each redemption was of a link of that user, in time, and left the link used. */
  ghost predicate RedeemedAsIssued(h: History) {
    forall i :: 0 <= i < |h.redeemed| ==>
      var r := h.redeemed[i];
      r.link in h.auth.resets && h.auth.resets[r.link].usedAt == Some(r.at)
      && h.auth.resets[r.link].user == r.user && r.at <= h.auth.resets[r.link].expiresAt
  }

  ghost predicate RedeemedDistinct(h: History) {
    forall i, j :: 0 <= i < j < |h.redeemed| ==> h.redeemed[i].link != h.redeemed[j].link
  }

  ghost predicate HasRedemption(h: History, l: Hash) {
    exists i :: 0 <= i < |h.redeemed| && h.redeemed[i].link == l
  }

  ghost predicate UsedWereRedeemed(h: History) {
    forall l :: l in h.auth.resets && h.auth.resets[l].usedAt.Some? ==> HasRedemption(h, l)
  }

  lemma RecordRedeemedAsIssued(h: History, op: AuthOp)
    requires RedeemedAsIssued(h)
    ensures RedeemedAsIssued(Record(h, op))
  {
  }

  lemma RecordRedeemedDistinct(h: History, op: AuthOp)
    requires RedeemedAsIssued(h) && RedeemedDistinct(h)
    ensures RedeemedDistinct(Record(h, op))
  {
  }

  lemma RedemptionStays(h: History, op: AuthOp, l: Hash)
    requires HasRedemption(h, l)
    ensures HasRedemption(Record(h, op), l)
  {
    var i :| 0 <= i < |h.redeemed| && h.redeemed[i].link == l;
    assert Record(h, op).redeemed[i].link == l;
  }

  /** Only a redemption marks a link used. */
  lemma NewlyUsed(h: History, op: AuthOp, l: Hash)
    requires var b := After(h.auth, op); l in b.resets && b.resets[l].usedAt.Some?
    ensures (l in h.auth.resets && h.auth.resets[l].usedAt.Some?) || HasRedemption(Record(h, op), l)
  {
    if op.ResetPassword? && AuthDo(h.auth, op).Ok? {
      assert Record(h, op).redeemed[|h.redeemed|].link == Sha256(op.raw);
    }
  }

  lemma RecordUsedWereRedeemed(h: History, op: AuthOp)
    requires UsedWereRedeemed(h)
    ensures UsedWereRedeemed(Record(h, op))
  {
    var h' := Record(h, op);
    forall l | l in h'.auth.resets && h'.auth.resets[l].usedAt.Some?
      ensures HasRedemption(h', l)
    {
      NewlyUsed(h, op, l);
      if HasRedemption(h, l) {
        RedemptionStays(h, op, l);
      }
    }
  }

  /**
   Over any run, each reset link changes a password at most once, that of the user it was made
   for, and never after its expiry; and the links marked used are exactly those that did.
   */
  lemma {:induction false} LinksAreOneShot(ops: seq<AuthOp>)
    ensures var h := RunHistory(ops);
            h.auth == RunAuth(EMPTY, ops) && RedeemedAsIssued(h) && RedeemedDistinct(h) && UsedWereRedeemed(h)
  {
    if ops == [] {
    } else {
      LinksAreOneShot(ops[..|ops| - 1]);
      var h := RunHistory(ops[..|ops| - 1]);
      RecordRedeemedAsIssued(h, ops[|ops| - 1]);
      RecordRedeemedDistinct(h, ops[|ops| - 1]);
      RecordUsedWereRedeemed(h, ops[|ops| - 1]);
    }
  }
}
