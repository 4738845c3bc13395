/**
 Single use of refresh tokens: exact with a whole-second clock, and with a finer one up to the
 last second of a token's life, because the blocklist lifetime is truncated.
 */
module SessionRotation {
  import opened Wrappers
  import opened Timing
  import opened Sessions

  /* ---- One revocation ---- */

  /** A token revoked while unexpired stays blocked until less than a second before it expires. */
  lemma BlockCoversAllButLastSecond(exp: int, now: Time)
    requires now < exp * SECOND
    ensures now < BlockedUntil(exp, now)
    ensures exp * SECOND - SECOND < BlockedUntil(exp, now)
  {
  }

  /** The block lapses early exactly when more than a second, and not a whole number of seconds, was left. */
  lemma BlockLapsesEarlyExactly(exp: int, now: Time)
    requires now < exp * SECOND
    ensures BlockedUntil(exp, now) < exp * SECOND <==> exp * SECOND - now > SECOND && (exp * SECOND - now) % SECOND != 0
  {
    var d := exp * SECOND - now;
    assert d == d / SECOND * SECOND + d % SECOND;
  }

  /**
   After an accepted rotation or logout at `now`, the token is accepted again, say by another logout, at
   some later moment of its life exactly when the block lapses early.
   */
  lemma AcceptedAgainExactly(a: Auth, op: AuthOp)
    requires (op.Rotate? || op.Logout?) && AuthDo(a, op).Ok?
    ensures (exists later :: op.now <= later && AuthDo(After(a, op), Logout(op.token, later)).Ok?) <==>
            var d := op.token.exp * SECOND - op.now; d > SECOND && d % SECOND != 0
  {
    var k, b := op.token, After(a, op);
    BlockLapsesEarlyExactly(k.exp, op.now);
    BlockCoversAllButLastSecond(k.exp, op.now);
    var until := BlockedUntil(k.exp, op.now);
    assert b.blocklist[k.jti] == until;
    if until < k.exp * SECOND {
      assert AuthDo(b, Logout(k, until)).Ok?;
    }
  }

  /**
   After an accepted rotation at `now`, the token can be rotated again at some later moment of its
   life exactly when the block lapses early. (The accounts are as they were.)
   */
  lemma SecondUseExactly(a: Auth, op: AuthOp, access: Jti, refresh: Jti)
    requires op.Rotate? && AuthDo(a, op).Ok?
    ensures (exists later :: op.now <= later && AuthDo(After(a, op), Rotate(op.token, access, refresh, later)).Ok?) <==>
            var d := op.token.exp * SECOND - op.now; d > SECOND && d % SECOND != 0
  {
    var k, b := op.token, After(a, op);
    BlockLapsesEarlyExactly(k.exp, op.now);
    BlockCoversAllButLastSecond(k.exp, op.now);
    var until := BlockedUntil(k.exp, op.now);
    assert b.blocklist[k.jti] == until;
    if until < k.exp * SECOND {
      assert AuthDo(b, Rotate(k, access, refresh, until)).Ok?;
    }
  }

  /* ---- Whole runs ---- */

  /** An accepted use of a refresh token: rotated or logged out. */
  datatype Use = Use(token: SessionToken, at: Time)

  datatype History = History(auth: Auth, clock: Time, uses: seq<Use>)

  function Record(h: History, op: AuthOp): History {
    History(After(h.auth, op), op.now,
            if (op.Rotate? || op.Logout?) && AuthDo(h.auth, op).Ok? then h.uses + [Use(op.token, op.now)] else h.uses)
  }

  function RunHistory(ops: seq<AuthOp>): History {
    if ops == [] then History(EMPTY, 0, []) else Record(RunHistory(ops[..|ops| - 1]), ops[|ops| - 1])
  }

  lemma {:induction false} HistoryFollowsRun(ops: seq<AuthOp>)
    ensures RunHistory(ops).auth == RunAuth(EMPTY, ops)
  {
    if ops == [] {
    } else {
      HistoryFollowsRun(ops[..|ops| - 1]);
    }
  }

  /** The clock never runs backwards and new token ids are new. */
  ghost predicate Orderly(ops: seq<AuthOp>) {
    forall k :: 0 <= k < |ops| ==>
      var h := RunHistory(ops[..k]); h.clock <= ops[k].now && FreshIds(h.auth, ops[k])
  }

  lemma OrderlyFront(ops: seq<AuthOp>)
    requires Orderly(ops) && ops != []
    ensures Orderly(ops[..|ops| - 1])
    ensures var h := RunHistory(ops[..|ops| - 1]); h.clock <= ops[|ops| - 1].now && FreshIds(h.auth, ops[|ops| - 1])
  {
    var front := ops[..|ops| - 1];
    forall k | 0 <= k < |front|
      ensures var h := RunHistory(front[..k]); h.clock <= front[k].now && FreshIds(h.auth, front[k])
    {
      assert front[..k] == ops[..k];
    }
  }

  ghost predicate IdsUnique(a: Auth) {
    forall k, m :: k in a.issued && m in a.issued && k.jti == m.jti ==> k == m
  }

  /** Every used token is blocked at least to this margin before its expiry. */
  ghost predicate UsesBlocked(h: History, margin: int) {
    forall n :: 0 <= n < |h.uses| ==>
      var k := h.uses[n].token;
      k in h.auth.issued && k.jti in h.auth.blocklist && h.auth.blocklist[k.jti] >= k.exp * SECOND - margin
  }

  lemma AfterIdsUnique(a: Auth, op: AuthOp)
    requires IdsUnique(a) && FreshIds(a, op)
    ensures IdsUnique(After(a, op))
  {
  }

  /** How far a block reaches: to the expiry with a whole-second clock, else to within a second of it. */
  lemma BlockReaches(exp: int, now: Time, margin: int)
    requires now < exp * SECOND
    requires margin == SECOND - 1 || (margin == 0 && now % SECOND == 0)
    ensures BlockedUntil(exp, now) >= exp * SECOND - margin
  {
    BlockCoversAllButLastSecond(exp, now);
    BlockLapsesEarlyExactly(exp, now);
    if margin == 0 {
      assert (exp * SECOND - now) % SECOND == 0;
    }
  }

  lemma RecordUsesBlocked(h: History, op: AuthOp, margin: int)
    requires IdsUnique(h.auth) && UsesBlocked(h, margin) && 0 <= margin < SECOND
    requires margin == 0 ==> op.now % SECOND == 0
    requires margin == 0 || margin == SECOND - 1
    ensures UsesBlocked(Record(h, op), margin)
  {
    if (op.Rotate? || op.Logout?) && AuthDo(h.auth, op).Ok? {
      BlockReaches(op.token.exp, op.now, margin);
    }
  }

  ghost predicate WholeClock(ops: seq<AuthOp>) {
    forall k :: 0 <= k < |ops| ==> ops[k].now % SECOND == 0
  }

  lemma {:induction false} RunUsesBlocked(ops: seq<AuthOp>, margin: int)
    requires Orderly(ops) && (margin == SECOND - 1 || (margin == 0 && WholeClock(ops)))
    ensures var h := RunHistory(ops); IdsUnique(h.auth) && UsesBlocked(h, margin)
  {
    if ops == [] {
    } else {
      OrderlyFront(ops);
      RunUsesBlocked(ops[..|ops| - 1], margin);
      var h := RunHistory(ops[..|ops| - 1]);
      AfterIdsUnique(h.auth, ops[|ops| - 1]);
      RecordUsesBlocked(h, ops[|ops| - 1], margin);
    }
  }

  /** An accepted use of an already used token falls within the margin before its expiry. */
  lemma ReuseOnlyWithinMargin(h: History, op: AuthOp, margin: int, n: nat)
    requires UsesBlocked(h, margin) && n < |h.uses|
    requires (op.Rotate? || op.Logout?) && AuthDo(h.auth, op).Ok? && op.token.jti == h.uses[n].token.jti
             && IdsUnique(h.auth)
    ensures op.token.exp * SECOND - margin <= op.now < op.token.exp * SECOND
  {
  }

  /**
   With a whole-second clock, each refresh token is accepted at most once over any run, and never after its
   logout.
   */
  lemma {:induction false} EachTokenUsedOnce(ops: seq<AuthOp>)
    requires Orderly(ops) && WholeClock(ops)
    ensures var h := RunHistory(ops);
            && h.auth == RunAuth(EMPTY, ops)
            && forall i, j :: 0 <= i < j < |h.uses| ==> h.uses[i].token.jti != h.uses[j].token.jti
  {
    HistoryFollowsRun(ops);
    if ops == [] {
    } else {
      var front, op := ops[..|ops| - 1], ops[|ops| - 1];
      OrderlyFront(ops);
      EachTokenUsedOnce(front);
      RunUsesBlocked(front, 0);
      var h := RunHistory(front);
      if (op.Rotate? || op.Logout?) && AuthDo(h.auth, op).Ok? {
        forall i | 0 <= i < |h.uses| ensures h.uses[i].token.jti != op.token.jti {
          if h.uses[i].token.jti == op.token.jti {
            ReuseOnlyWithinMargin(h, op, 0, i);
          }
        }
      }
    }
  }

  /** With any clock, a token accepted again is accepted in the last second of its life. */
  lemma {:induction false} ReuseOnlyInLastSecond(ops: seq<AuthOp>)
    requires Orderly(ops)
    ensures var h := RunHistory(ops);
            && h.auth == RunAuth(EMPTY, ops)
            && forall i, j :: 0 <= i < j < |h.uses| && h.uses[i].token.jti == h.uses[j].token.jti ==>
                             h.uses[j].token.exp * SECOND - SECOND < h.uses[j].at < h.uses[j].token.exp * SECOND
  {
    HistoryFollowsRun(ops);
    if ops == [] {
    } else {
      var front, op := ops[..|ops| - 1], ops[|ops| - 1];
      OrderlyFront(ops);
      ReuseOnlyInLastSecond(front);
      RunUsesBlocked(front, SECOND - 1);
      var h := RunHistory(front);
      if (op.Rotate? || op.Logout?) && AuthDo(h.auth, op).Ok? {
        forall i | 0 <= i < |h.uses| && h.uses[i].token.jti == op.token.jti
          ensures op.token.exp * SECOND - SECOND < op.now < op.token.exp * SECOND
        {
          ReuseOnlyWithinMargin(h, op, SECOND - 1, i);
        }
      }
    }
  }

  /* ---- It happens ---- */

  /** A refresh token as a login at time zero makes it: it expires after 2 592 000 seconds. */
  const ISSUED: SessionToken := SessionToken(11, Refresh, Staff, 1, Claims(1, None, [], None), 2_592_000)

  lemma RecordNext(ops: seq<AuthOp>, op: AuthOp)
    ensures RunHistory(ops + [op]) == Record(RunHistory(ops), op)
  {
    assert (ops + [op])[..|ops|] == ops;
  }

  lemma LogsInAfterOpening(h: History, open: AuthOp, login: AuthOp)
    requires h == History(EMPTY, 0, [])
    requires open == Open(1, "a@b.c", 1, None, "password", 0) && login == Login("a@b.c", "password", 10, 11, 0)
    ensures var g := Record(Record(h, open), login);
            && g.uses == [] && g.auth.blocklist == map[] && ISSUED in g.auth.issued
            && g.auth.accounts == map[1 := Account(1, None, true, "password", None, Some(0))]
  {
    assert ISSUED in Pair(1, Staff, Claims(1, None, [], None), 10, 11, 0);
  }

  lemma OpenedAndLoggedIn(open: AuthOp, login: AuthOp)
    requires open == Open(1, "a@b.c", 1, None, "password", 0) && login == Login("a@b.c", "password", 10, 11, 0)
    ensures var h := RunHistory([] + [open] + [login]);
            && h.uses == [] && h.auth.blocklist == map[] && ISSUED in h.auth.issued
            && h.auth.accounts == map[1 := Account(1, None, true, "password", None, Some(0))]
  {
    RecordNext([], open);
    RecordNext([] + [open], login);
    LogsInAfterOpening(RunHistory([]), open, login);
  }

  /**
   Rotated one and a half seconds before its expiry, the token is blocked for one second, and
   accepted again half a second before its expiry.
   */
  lemma SecondUseHappens(open: AuthOp, login: AuthOp, first: AuthOp, second: AuthOp)
    requires open == Open(1, "a@b.c", 1, None, "password", 0) && login == Login("a@b.c", "password", 10, 11, 0)
    requires first == Rotate(ISSUED, 12, 13, 2_591_998_500_000)
    requires second == Rotate(ISSUED, 14, 15, 2_591_999_500_000)
    ensures RunHistory([] + [open] + [login] + [first] + [second]).uses ==
            [Use(ISSUED, first.now), Use(ISSUED, second.now)]
  {
    OpenedAndLoggedIn(open, login);
    var ops := [] + [open] + [login];
    RecordNext(ops, first);
    RecordNext(ops + [first], second);
    var h := RunHistory(ops + [first]);
    assert BlockedUntil(ISSUED.exp, first.now) == second.now;
    assert h.auth.blocklist[11] == second.now;
    assert h.auth.accounts == map[1 := Account(1, None, true, "password", None, Some(0))];
  }
}
