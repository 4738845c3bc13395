/**
 Reset links of the client, subcontractor and vendor portals: one request makes a link for every
 active account an email is registered with, a link works once and in time, and changing the
 password by another route voids the links still outstanding.
 */
module PortalResets {
  import opened Wrappers
  import opened Timing
  import opened Identities
  import opened Credentials

  datatype Portal = Subcontractor | Vendor | Client

  datatype Holder = Holder(portal: Portal, user: UserId)

  datatype Account = Account(tenant: TenantId, active: bool, password: string, pwdTs: Option<Time>)

  /** One email may be registered with several tenants of a portal. */
  datatype IndexRow = IndexRow(email: Email, tenant: TenantId, holder: Holder)

  datatype LinkRow = LinkRow(tenant: TenantId, holder: Holder, expiresAt: Time, usedAt: Option<Time>)

  datatype Portals = Portals(accounts: map<Holder, Account>, index: seq<IndexRow>, links: map<Hash, LinkRow>)

  const EMPTY: Portals := Portals(map[], [], map[])

  datatype PortalError = PasswordTooShort | InvalidLink | Duplicate

  /** The row-level policy: within a tenant only its own accounts are seen. */
  predicate ActiveIn(accounts: map<Holder, Account>, tenant: TenantId, h: Holder) {
    h in accounts && accounts[h].tenant == tenant && accounts[h].active
  }

  /** The index rows behind an email on a portal; none for the empty email. */
  function Behind(index: seq<IndexRow>, portal: Portal, email: Email): (rows: seq<IndexRow>)
    ensures forall r :: r in rows <==> r in index && r.holder.portal == portal && r.email == email && email != ""
  {
    if index == [] then []
    else
      var n := |index| - 1;
      var rest := Behind(index[..n], portal, email);
      if index[n].holder.portal == portal && index[n].email == email && email != "" then rest + [index[n]] else rest
  }

  /** The link a raw token opens on a portal at `now`. */
  predicate Opens(p: Portals, portal: Portal, raw: RawToken, now: Time) {
    && Sha256(raw) in p.links
    && var row := p.links[Sha256(raw)];
       && row.holder.portal == portal && row.usedAt.None? && now <= row.expiresAt
       && ActiveIn(p.accounts, row.tenant, row.holder)
  }

  function LinkFor(r: IndexRow, now: Time): LinkRow {
    LinkRow(r.tenant, r.holder, now + RESET_TTL, None)
  }

  /**
   The links after one request: row k's own token, for active accounts only. A digest already
   stored violates the table's unique constraint and undoes the whole request.
   */
  function Linked(p: Portals, rows: seq<IndexRow>, raws: seq<RawToken>, now: Time): Option<map<Hash, LinkRow>>
    requires |raws| == |rows|
  {
    if rows == [] then Some(p.links)
    else
      var n := |rows| - 1;
      var before := Linked(p, rows[..n], raws[..n], now);
      if before.None? || !ActiveIn(p.accounts, rows[n].tenant, rows[n].holder) then before
      else if Sha256(raws[n]) in before.value then None
      else Some(before.value[Sha256(raws[n]) := LinkFor(rows[n], now)])
  }

  lemma {:induction false} CollisionUndoes(p: Portals, rows: seq<IndexRow>, raws: seq<RawToken>, now: Time, k: nat)
    requires k <= |rows| == |raws| && Linked(p, rows[..k], raws[..k], now).None?
    ensures Linked(p, rows, raws, now).None?
  {
    if k < |rows| {
      var n := |rows| - 1;
      assert rows[..n][..k] == rows[..k] && raws[..n][..k] == raws[..k];
      CollisionUndoes(p, rows[..n], raws[..n], now, k);
    } else {
      assert rows[..k] == rows && raws[..k] == raws;
    }
  }

  /** No earlier link changes. */
  lemma {:induction false} LinksStay(p: Portals, rows: seq<IndexRow>, raws: seq<RawToken>, now: Time)
    requires |raws| == |rows| && Linked(p, rows, raws, now).Some?
    ensures var links := Linked(p, rows, raws, now).value;
            forall l :: l in p.links ==> l in links && links[l] == p.links[l]
  {
    if rows == [] {
    } else {
      LinksStay(p, rows[..|rows| - 1], raws[..|raws| - 1], now);
    }
  }

  /** Row k, if active, gets a link of its own. */
  lemma {:induction false} RowGetsALink(p: Portals, rows: seq<IndexRow>, raws: seq<RawToken>, now: Time, k: nat)
    requires |raws| == |rows| && Linked(p, rows, raws, now).Some?
    requires k < |rows| && ActiveIn(p.accounts, rows[k].tenant, rows[k].holder)
    ensures var links := Linked(p, rows, raws, now).value;
            Sha256(raws[k]) !in p.links && Sha256(raws[k]) in links && links[Sha256(raws[k])] == LinkFor(rows[k], now)
  {
    var n := |rows| - 1;
    LinksStay(p, rows[..n], raws[..n], now);
    if k < n {
      RowGetsALink(p, rows[..n], raws[..n], now, k);
    }
  }

  /** Every new link is some active row's, unused. */
  lemma {:induction false} LinkIsSomeRows(p: Portals, rows: seq<IndexRow>, raws: seq<RawToken>, now: Time, l: Hash)
    requires |raws| == |rows| && Linked(p, rows, raws, now).Some?
    requires l in Linked(p, rows, raws, now).value && l !in p.links
    ensures exists r :: r in rows && ActiveIn(p.accounts, r.tenant, r.holder)
                        && Linked(p, rows, raws, now).value[l] == LinkFor(r, now)
    ensures exists k :: 0 <= k < |raws| && l == Sha256(raws[k])
  {
    var n := |rows| - 1;
    if n >= 0 {
      if l in Linked(p, rows[..n], raws[..n], now).value {
        LinkIsSomeRows(p, rows[..n], raws[..n], now, l);
        var r :| r in rows[..n] && ActiveIn(p.accounts, r.tenant, r.holder)
          && Linked(p, rows[..n], raws[..n], now).value[l] == LinkFor(r, now);
        assert r in rows;
        var k :| 0 <= k < n && l == Sha256(raws[..n][k]);
        assert raws[k] == raws[..n][k];
      } else {
        assert rows[n] in rows && l == Sha256(raws[n]);
      }
    }
  }

  /* ---- Operations ---- */

  datatype PortalOp =
    | Request(portal: Portal, email: Email, raws: seq<RawToken>, now: Time)
    | Redeem(portal: Portal, raw: RawToken, next: string, now: Time)
    | Void(holder: Holder)
    | SetAccount(holder: Holder, account: Account)
    | Register(row: IndexRow)

  /** A request for links, with a token for each row behind the email. */
  function Requested(p: Portals, portal: Portal, email: Email, raws: seq<RawToken>, now: Time)
    : Result<Portals, PortalError>
  {
    var rows := Behind(p.index, portal, email);
    if |raws| != |rows| || Linked(p, rows, raws, now).None? then Err(Duplicate)
    else Ok(p.(links := Linked(p, rows, raws, now).value))
  }

  /** A redemption: the password and its epoch change, and the link is spent. */
  function Redeemed(p: Portals, portal: Portal, raw: RawToken, next: string, now: Time): Result<Portals, PortalError> {
    if |next| < MIN_PASSWORD_LENGTH then Err(PasswordTooShort)
    else if !Opens(p, portal, raw, now) then Err(InvalidLink)
    else
      var row := p.links[Sha256(raw)];
      Ok(p.(accounts := p.accounts[row.holder := p.accounts[row.holder].(password := next, pwdTs := Some(now))],
            links := p.links[Sha256(raw) := row.(usedAt := Some(now))]))
  }

  /** The links once every unused one of a holder is void. */
  function Voided(links: map<Hash, LinkRow>, h: Holder): map<Hash, LinkRow> {
    map l | l in links && !(links[l].holder == h && links[l].usedAt.None?) :: links[l]
  }

  /**
   One request gives every active account registered with the email on that portal its own link, which opens
   there.
   */
  lemma EachActiveHolderGetsALink(p: Portals, portal: Portal, email: Email, raws: seq<RawToken>, now: Time, r: IndexRow)
    returns (raw: RawToken)
    requires Requested(p, portal, email, raws, now).Ok?
    requires r in p.index && r.holder.portal == portal && r.email == email && email != ""
    requires ActiveIn(p.accounts, r.tenant, r.holder)
    ensures var q := Requested(p, portal, email, raws, now).value;
            && raw in raws && Sha256(raw) !in p.links && Sha256(raw) in q.links
            && q.links[Sha256(raw)] == LinkFor(r, now) && Opens(q, portal, raw, now)
  {
    var rows := Behind(p.index, portal, email);
    var k :| 0 <= k < |rows| && rows[k] == r;
    raw := raws[k];
    RowGetsALink(p, rows, raws, now, k);
  }

  /** And nothing else: a new link is unused and belongs to an active account so registered. */
  lemma NewLinksAreTheirs(p: Portals, portal: Portal, email: Email, raws: seq<RawToken>, now: Time, l: Hash)
    requires Requested(p, portal, email, raws, now).Ok?
    requires l in Requested(p, portal, email, raws, now).value.links && l !in p.links
    ensures exists r :: r in p.index && r.holder.portal == portal && r.email == email
                        && ActiveIn(p.accounts, r.tenant, r.holder)
                        && Requested(p, portal, email, raws, now).value.links[l] == LinkFor(r, now)
  {
    LinkIsSomeRows(p, Behind(p.index, portal, email), raws, now, l);
  }

  /** A redeemed link is spent on every portal for good, and no other holder is touched. */
  lemma RedeemedOnce(p: Portals, portal: Portal, raw: RawToken, next: string, now: Time, other: Portal, later: Time)
    requires Redeemed(p, portal, raw, next, now).Ok?
    ensures var q := Redeemed(p, portal, raw, next, now).value;
            var row := p.links[Sha256(raw)];
            && row.holder.portal == portal && now <= row.expiresAt
            && !Opens(q, other, raw, later)
            && q.accounts[row.holder].password == next && q.accounts[row.holder].pwdTs == Some(now)
            && forall h :: h in p.accounts && h != row.holder ==> h in q.accounts && q.accounts[h] == p.accounts[h]
  {
  }

  /** Right after voiding, none of the holder's links opens; everybody else's do exactly as before. */
  lemma VoidingIsExact(p: Portals, h: Holder, portal: Portal, raw: RawToken, now: Time)
    ensures Opens(p.(links := Voided(p.links, h)), portal, raw, now) <==>
            Opens(p, portal, raw, now) && p.links[Sha256(raw)].holder != h
  {
  }

  /* ---- Runs ---- */

  datatype History = History(portals: Portals, redeemed: seq<Hash>)

  function Record(h: History, op: PortalOp): History {
    var p := h.portals;
    match op
    case Request(portal, email, raws, now) =>
      (match Requested(p, portal, email, raws, now)
       case Ok(q) => h.(portals := q)
       case Err(_) => h)
    case Redeem(portal, raw, next, now) =>
      (match Redeemed(p, portal, raw, next, now)
       case Ok(q) => History(q, h.redeemed + [Sha256(raw)])
       case Err(_) => h)
    case Void(holder) => h.(portals := p.(links := Voided(p.links, holder)))
    case SetAccount(holder, account) => h.(portals := p.(accounts := p.accounts[holder := account]))
    case Register(row) => h.(portals := p.(index := p.index + [row]))
  }

  function RunFrom(h: History, ops: seq<PortalOp>): History {
    if ops == [] then h else Record(RunFrom(h, ops[..|ops| - 1]), ops[|ops| - 1])
  }

  function RunHistory(ops: seq<PortalOp>): History {
    RunFrom(History(EMPTY, []), ops)
  }

  ghost predicate SpentForGood(h: History) {
    && (forall i :: 0 <= i < |h.redeemed| ==>
          h.redeemed[i] in h.portals.links && h.portals.links[h.redeemed[i]].usedAt.Some?)
    && (forall i, j :: 0 <= i < j < |h.redeemed| ==> h.redeemed[i] != h.redeemed[j])
  }

  lemma RecordSpent(h: History, op: PortalOp)
    requires SpentForGood(h)
    ensures SpentForGood(Record(h, op))
  {
    if op.Request? && Requested(h.portals, op.portal, op.email, op.raws, op.now).Ok? {
      LinksStay(h.portals, Behind(h.portals.index, op.portal, op.email), op.raws, op.now);
    }
  }

  /** Over any run of requests, redemptions, voidings and account changes, no link is redeemed twice. */
  lemma {:induction false} PortalLinksAreOneShot(ops: seq<PortalOp>)
    ensures SpentForGood(RunHistory(ops))
  {
    if ops == [] {
    } else {
      PortalLinksAreOneShot(ops[..|ops| - 1]);
      RecordSpent(RunHistory(ops[..|ops| - 1]), ops[|ops| - 1]);
    }
  }

  /** The token is not handed out again, as random ones are not. */
  predicate NotReissued(ops: seq<PortalOp>, raw: RawToken) {
    forall k :: 0 <= k < |ops| && ops[k].Request? ==> raw !in ops[k].raws
  }

  /** No stored, unused link for the token. */
  predicate Shut(p: Portals, raw: RawToken) {
    Sha256(raw) in p.links ==> p.links[Sha256(raw)].usedAt.Some?
  }

  lemma RecordStaysShut(h: History, op: PortalOp, raw: RawToken)
    requires Shut(h.portals, raw) && (op.Request? ==> raw !in op.raws)
    ensures Shut(Record(h, op).portals, raw)
  {
    if op.Request? && Requested(h.portals, op.portal, op.email, op.raws, op.now).Ok? {
      var rows := Behind(h.portals.index, op.portal, op.email);
      LinksStay(h.portals, rows, op.raws, op.now);
      if Sha256(raw) in Record(h, op).portals.links && Sha256(raw) !in h.portals.links {
        LinkIsSomeRows(h.portals, rows, op.raws, op.now, Sha256(raw));
      }
    }
  }

  lemma {:induction false} RunStaysShut(h: History, ops: seq<PortalOp>, raw: RawToken)
    requires Shut(h.portals, raw) && NotReissued(ops, raw)
    ensures Shut(RunFrom(h, ops).portals, raw)
  {
    if ops == [] {
    } else {
      RunStaysShut(h, ops[..|ops| - 1], raw);
      RecordStaysShut(RunFrom(h, ops[..|ops| - 1]), ops[|ops| - 1], raw);
    }
  }

  /**
   A link of a holder whose links are voided opens on no portal in any later run, while a link of
   another holder opens right after exactly where it did.
   */
  lemma VoidedLinksNeverOpen(h: History, holder: Holder, ops: seq<PortalOp>, raw: RawToken, portal: Portal, now: Time)
    requires Sha256(raw) in h.portals.links && NotReissued(ops, raw)
    ensures var q := Record(h, Void(holder));
            && (h.portals.links[Sha256(raw)].holder == holder ==> !Opens(RunFrom(q, ops).portals, portal, raw, now))
            && (h.portals.links[Sha256(raw)].holder != holder ==>
                (Opens(q.portals, portal, raw, now) <==> Opens(h.portals, portal, raw, now)))
  {
    VoidingIsExact(h.portals, holder, portal, raw, now);
    if h.portals.links[Sha256(raw)].holder == holder {
      RunStaysShut(Record(h, Void(holder)), ops, raw);
    }
  }

  /* ---- The program's tables ---- */

  class Store {
    var accounts: map<Holder, Account>
    var index: seq<IndexRow>
    var links: map<Hash, LinkRow>
    /** The links redeemed so far. */
    ghost var redeemed: seq<Hash>

    function View(): Portals
      reads this
    {
      Portals(accounts, index, links)
    }

    ghost function Past(): History
      reads this
    {
      History(View(), redeemed)
    }

    constructor ()
      ensures Past() == History(EMPTY, [])
    {
      accounts, index, links, redeemed := map[], [], map[], [];
    }

    method IndexRows(portal: Portal, email: Email) returns (rows: seq<IndexRow>)
      ensures rows == Behind(index, portal, email)
    {
      rows := [];
      for k := 0 to |index|
        invariant rows == Behind(index[..k], portal, email)
      {
        assert index[..k + 1][..k] == index[..k];
        if index[k].holder.portal == portal && index[k].email == email && email != "" {
          rows := rows + [index[k]];
        }
      }
      assert index[..|index|] == index;
    }

    /** The links with one more for each active account among the rows, or none on a collision. */
    method LinkRows(rows: seq<IndexRow>, raws: seq<RawToken>, now: Time) returns (pending: Option<map<Hash, LinkRow>>)
      requires |raws| == |rows|
      ensures pending == Linked(View(), rows, raws, now)
    {
      var sofar := links;
      for k := 0 to |rows|
        invariant Linked(View(), rows[..k], raws[..k], now) == Some(sofar)
      {
        assert rows[..k + 1][..k] == rows[..k] && raws[..k + 1][..k] == raws[..k];
        if !ActiveIn(accounts, rows[k].tenant, rows[k].holder) {
          continue;
        }
        if Sha256(raws[k]) in sofar {
          CollisionUndoes(View(), rows, raws, now, k + 1);
          return None;
        }
        sofar := sofar[Sha256(raws[k]) := LinkFor(rows[k], now)];
      }
      assert rows[..|rows|] == rows && raws[..|raws|] == raws;
      return Some(sofar);
    }

    /** One link per active account behind the email; written only if the whole request goes through. */
    method RequestReset(portal: Portal, email: Email, raws: seq<RawToken>, now: Time) returns (r: Outcome<PortalError>)
      requires |raws| == |Behind(index, portal, email)|
      modifies this`links
      ensures match Requested(old(View()), portal, email, raws, now)
              case Ok(after) => r == Pass && View() == after
              case Err(e) => r == Fail(e) && View() == old(View())
    {
      var rows := IndexRows(portal, email);
      var pending := LinkRows(rows, raws, now);
      if pending.None? {
        return Fail(Duplicate);
      }
      links := pending.value;
      return Pass;
    }

    method ResetPassword(portal: Portal, raw: RawToken, next: string, now: Time) returns (r: Outcome<PortalError>)
      modifies this`accounts, this`links
      ensures match Redeemed(old(View()), portal, raw, next, now)
              case Ok(after) => r == Pass && View() == after
              case Err(e) => r == Fail(e) && View() == old(View())
    {
      if |next| < MIN_PASSWORD_LENGTH {
        return Fail(PasswordTooShort);
      }
      var hash := Sha256(raw);
      if hash !in links || links[hash].holder.portal != portal {
        return Fail(InvalidLink);
      }
      var row := links[hash];
      if row.usedAt.Some? || row.expiresAt < now {
        return Fail(InvalidLink);
      }
      if !ActiveIn(accounts, row.tenant, row.holder) {
        return Fail(InvalidLink);
      }
      accounts := accounts[row.holder := accounts[row.holder].(password := next, pwdTs := Some(now))];
      links := links[hash := row.(usedAt := Some(now))];
      return Pass;
    }

    method InvalidateResetTokens(h: Holder)
      modifies this`links
      ensures links == Voided(old(links), h)
    {
      var outstanding := set l | l in links && links[l].holder == h && links[l].usedAt.None?;
      links := links - outstanding;
      assert links == Voided(old(links), h);
    }

    method PutAccount(h: Holder, account: Account)
      modifies this`accounts
      ensures accounts == old(accounts)[h := account]
    {
      accounts := accounts[h := account];
    }

    method AddIndexRow(row: IndexRow)
      modifies this`index
      ensures index == old(index) + [row]
    {
      index := index + [row];
    }

    /** One call, whichever it is; a request needs a token for each row behind its email. */
    method Handle(op: PortalOp)
      modifies this
      ensures Past() == Record(old(Past()), op)
    {
      match op {
        case Request(portal, email, raws, now) =>
          if |raws| == |Behind(index, portal, email)| {
            var r := RequestReset(portal, email, raws, now);
          }
        case Redeem(portal, raw, next, now) =>
          var r := ResetPassword(portal, raw, next, now);
          if r == Pass {
            redeemed := redeemed + [Sha256(raw)];
          }
        case Void(holder) => InvalidateResetTokens(holder);
        case SetAccount(holder, account) => PutAccount(holder, account);
        case Register(row) => AddIndexRow(row);
      }
    }
  }

  /** A store that receives any calls, in any order, goes through the runs the whole-run lemmas are about. */
  method HandleAll(ops: seq<PortalOp>) returns (store: Store)
    ensures fresh(store) && store.Past() == RunHistory(ops) && SpentForGood(store.Past())
  {
    store := new Store();
    for n := 0 to |ops|
      invariant fresh(store) && store.Past() == RunHistory(ops[..n])
    {
      assert ops[..n + 1][..n] == ops[..n];
      store.Handle(ops[n]);
    }
    assert ops[..|ops|] == ops;
    PortalLinksAreOneShot(ops);
  }
}
