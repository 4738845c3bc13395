/**
 What requests and redemptions of portal reset links do, as their caller sees them: when each is accepted, what
 it leaves, and for how long a link opens, over any run of calls.
 */
module PortalOutcomes {
  import opened Wrappers
  import opened Timing
  import opened Identities
  import opened Credentials
  import opened PortalResets

  /** The holder's account is there, under the tenant, and active. */
  ghost predicate InGoodStanding(p: Portals, tenant: TenantId, h: Holder) {
    h in p.accounts && p.accounts[h].tenant == tenant && p.accounts[h].active
  }

  /* ---- Requests ---- */

  /** The tokens for accounts in good standing are new, and differ from one another. */
  ghost predicate TokensNew(p: Portals, rows: seq<IndexRow>, raws: seq<RawToken>)
    requires |raws| == |rows|
  {
    && (forall k :: 0 <= k < |rows| && InGoodStanding(p, rows[k].tenant, rows[k].holder) ==>
          Sha256(raws[k]) !in p.links)
    && (forall j, k ::
          0 <= j < k < |rows| && InGoodStanding(p, rows[j].tenant, rows[j].holder)
          && InGoodStanding(p, rows[k].tenant, rows[k].holder) ==>
            raws[j] != raws[k])
  }

  /** The token goes to an account in good standing. */
  ghost predicate Gives(p: Portals, rows: seq<IndexRow>, raws: seq<RawToken>, raw: RawToken)
    requires |raws| == |rows|
  {
    exists k :: 0 <= k < |rows| && raws[k] == raw && InGoodStanding(p, rows[k].tenant, rows[k].holder)
  }

  lemma GivesOneMore(p: Portals, rows: seq<IndexRow>, raws: seq<RawToken>, raw: RawToken)
    requires |raws| == |rows| > 0
    ensures var n := |rows| - 1;
            Gives(p, rows, raws, raw) <==>
            Gives(p, rows[..n], raws[..n], raw)
            || (raws[n] == raw && InGoodStanding(p, rows[n].tenant, rows[n].holder))
  {
    var n := |rows| - 1;
    if Gives(p, rows[..n], raws[..n], raw) {
      var k :| 0 <= k < n && raws[..n][k] == raw && InGoodStanding(p, rows[..n][k].tenant, rows[..n][k].holder);
      assert raws[k] == raw && InGoodStanding(p, rows[k].tenant, rows[k].holder);
    }
    if Gives(p, rows, raws, raw) {
      var k :| 0 <= k <= n && raws[k] == raw && InGoodStanding(p, rows[k].tenant, rows[k].holder);
      assert k < n ==> raws[..n][k] == raw && InGoodStanding(p, rows[..n][k].tenant, rows[..n][k].holder);
    }
  }

  lemma TokensNewOneMore(p: Portals, rows: seq<IndexRow>, raws: seq<RawToken>)
    requires |raws| == |rows| > 0
    ensures var n := |rows| - 1;
            TokensNew(p, rows, raws) <==>
            && TokensNew(p, rows[..n], raws[..n])
            && (InGoodStanding(p, rows[n].tenant, rows[n].holder) ==>
                  Sha256(raws[n]) !in p.links && !Gives(p, rows[..n], raws[..n], raws[n]))
  {
    var n := |rows| - 1;
    assert forall k :: 0 <= k < n ==> rows[..n][k] == rows[k] && raws[..n][k] == raws[k];
    if TokensNew(p, rows, raws) {
      assert TokensNew(p, rows[..n], raws[..n]);
    }
  }

  /** The request adds the tokens of the accounts in good standing, or fails because one is not new. */
  lemma {:induction false} LinkedExactly(p: Portals, rows: seq<IndexRow>, raws: seq<RawToken>, now: Time)
    requires |raws| == |rows|
    ensures Linked(p, rows, raws, now).Some? <==> TokensNew(p, rows, raws)
    ensures Linked(p, rows, raws, now).Some? ==>
              forall raw :: Sha256(raw) in Linked(p, rows, raws, now).value <==>
                            Sha256(raw) in p.links || Gives(p, rows, raws, raw)
  {
    if rows == [] {
    } else {
      LinkedExactly(p, rows[..|rows| - 1], raws[..|rows| - 1], now);
      TokensNewOneMore(p, rows, raws);
      forall raw ensures var n := |rows| - 1; Gives(p, rows, raws, raw) <==>
            Gives(p, rows[..n], raws[..n], raw)
            || (raws[n] == raw && InGoodStanding(p, rows[n].tenant, rows[n].holder))
      {
        GivesOneMore(p, rows, raws, raw);
      }
    }
  }

  /** A request with a token for each row behind the email is accepted exactly when those it uses are new. */
  lemma RequestAccepted(p: Portals, portal: Portal, email: Email, raws: seq<RawToken>, now: Time)
    ensures var rows := Behind(p.index, portal, email);
            Requested(p, portal, email, raws, now).Ok? <==> |raws| == |rows| && TokensNew(p, rows, raws)
    ensures Requested(p, portal, email, raws, now).Err? ==> Requested(p, portal, email, raws, now) == Err(Duplicate)
    ensures Requested(p, portal, email, raws, now).Ok? ==>
              var q := Requested(p, portal, email, raws, now).value;
              q == p.(links := q.links) && forall l :: l in p.links ==> l in q.links && q.links[l] == p.links[l]
  {
    var rows := Behind(p.index, portal, email);
    if |raws| == |rows| {
      LinkedExactly(p, rows, raws, now);
      if Linked(p, rows, raws, now).Some? {
        LinksStay(p, rows, raws, now);
      }
    }
  }

  /* ---- Links over runs ---- */

  /** A link as its request made it. */
  datatype Link = Link(tenant: TenantId, holder: Holder, at: Time)

  /** What a call makes of the unused link of a token: a request gives it, a redemption or a voiding takes it. */
  ghost function LinkAfter(p: Portals, before: Option<Link>, op: PortalOp, raw: RawToken): Option<Link> {
    match op
    case Request(portal, email, raws, now) =>
      var rows := Behind(p.index, portal, email);
      if |raws| == |rows| && TokensNew(p, rows, raws) && Gives(p, rows, raws, raw) then
        var k :| 0 <= k < |rows| && raws[k] == raw && InGoodStanding(p, rows[k].tenant, rows[k].holder);
        Some(Link(rows[k].tenant, rows[k].holder, now))
      else before
    case Redeem(portal, r, next, now) =>
      if r == raw && RedeemRefusal(p, before, portal, next, now).None? then None else before
    case Void(h) => if before.Some? && before.value.holder == h then None else before
    case _ => before
  }

  /** Why a redemption is refused, or None, when the token's unused link is this. */
  ghost function RedeemRefusal(p: Portals, link: Option<Link>, portal: Portal, next: string, now: Time)
    : Option<PortalError>
  {
    if |next| < 8 then Some(PasswordTooShort)
    else if link.None? || link.value.holder.portal != portal || now > link.value.at + 3_600_000_000
            || !InGoodStanding(p, link.value.tenant, link.value.holder) then Some(InvalidLink)
    else None
  }

  /** The unused link of a token after a run. */
  ghost function OpenLink(ops: seq<PortalOp>, raw: RawToken): Option<Link> {
    if ops == [] then None
    else
      var front := ops[..|ops| - 1];
      LinkAfter(RunHistory(front).portals, OpenLink(front, raw), ops[|ops| - 1], raw)
  }

  ghost predicate LinkStored(p: Portals, raw: RawToken, link: Option<Link>) {
    match link
    case None => Sha256(raw) in p.links ==> p.links[Sha256(raw)].usedAt.Some?
    case Some(x) =>
      Sha256(raw) in p.links
      && p.links[Sha256(raw)] == LinkRow(x.tenant, x.holder, x.at + 3_600_000_000, None)
  }

  /** A redemption sets the holder's password as of this moment and marks the link used; nothing else changes. */
  lemma RedeemLeads(p: Portals, link: Option<Link>, portal: Portal, raw: RawToken, next: string, now: Time)
    requires LinkStored(p, raw, link)
    ensures match RedeemRefusal(p, link, portal, next, now)
            case Some(e) => Redeemed(p, portal, raw, next, now) == Err(e)
            case None =>
              && Redeemed(p, portal, raw, next, now).Ok?
              && var q, x := Redeemed(p, portal, raw, next, now).value, link.value;
                 && q == p.(accounts := q.accounts, links := q.links)
                 && q.accounts == p.accounts[x.holder := Account(x.tenant, true, next, Some(now))]
                 && q.links ==
                    p.links[Sha256(raw) := LinkRow(x.tenant, x.holder, x.at + 3_600_000_000, Some(now))]
  {
  }

  lemma RequestStores(p: Portals, op: PortalOp, raw: RawToken, link: Option<Link>)
    requires op.Request? && LinkStored(p, raw, link)
    requires Requested(p, op.portal, op.email, op.raws, op.now).Ok?
    ensures LinkStored(Requested(p, op.portal, op.email, op.raws, op.now).value, raw, LinkAfter(p, link, op, raw))
  {
    var rows := Behind(p.index, op.portal, op.email);
    RequestAccepted(p, op.portal, op.email, op.raws, op.now);
    LinkedExactly(p, rows, op.raws, op.now);
    if Gives(p, rows, op.raws, raw) {
      var x := LinkAfter(p, link, op, raw).value;
      var k :| 0 <= k < |rows| && op.raws[k] == raw && InGoodStanding(p, rows[k].tenant, rows[k].holder)
        && x == Link(rows[k].tenant, rows[k].holder, op.now);
      RowGetsALink(p, rows, op.raws, op.now, k);
    }
  }

  lemma RecordStores(h: History, op: PortalOp, raw: RawToken, link: Option<Link>)
    requires LinkStored(h.portals, raw, link)
    ensures LinkStored(Record(h, op).portals, raw, LinkAfter(h.portals, link, op, raw))
  {
    match op
    case Request(portal, email, raws, now) =>
      RequestAccepted(h.portals, portal, email, raws, now);
      if Requested(h.portals, portal, email, raws, now).Ok? {
        RequestStores(h.portals, op, raw, link);
      }
    case Redeem(portal, r, next, now) =>
      if r == raw {
        RedeemLeads(h.portals, link, portal, raw, next, now);
      }
    case _ =>
  }

  lemma {:induction false} RunStores(ops: seq<PortalOp>, raw: RawToken)
    ensures LinkStored(RunHistory(ops).portals, raw, OpenLink(ops, raw))
  {
    if ops == [] {
    } else {
      var front := ops[..|ops| - 1];
      RunStores(front, raw);
      RecordStores(RunHistory(front), ops[|ops| - 1], raw, OpenLink(front, raw));
    }
  }

  /**
   After any run a link is redeemed exactly on its own portal, for a password of eight or more characters, within
   an hour of the request that made it, once, unless voided, and while its holder's account is in good standing;
   it sets that account's password.
   */
  lemma LinkOpensForAnHour(ops: seq<PortalOp>, portal: Portal, raw: RawToken, next: string, now: Time)
    ensures var p, link := RunHistory(ops).portals, OpenLink(ops, raw);
            match RedeemRefusal(p, link, portal, next, now)
            case Some(e) => Redeemed(p, portal, raw, next, now) == Err(e)
            case None =>
              && Redeemed(p, portal, raw, next, now).Ok?
              && var q, x := Redeemed(p, portal, raw, next, now).value, link.value;
                 q.accounts == p.accounts[x.holder := Account(x.tenant, true, next, Some(now))]
                 && OpenLink(ops + [Redeem(portal, raw, next, now)], raw) == None
  {
    RunStores(ops, raw);
    RedeemLeads(RunHistory(ops).portals, OpenLink(ops, raw), portal, raw, next, now);
    assert (ops + [Redeem(portal, raw, next, now)])[..|ops|] == ops;
  }

  /**
   Each account in good standing registered with the email gets a token of its own, which right after the request
   is redeemed exactly within the hour.
   */
  lemma EachHolderHasAnHour(ops: seq<PortalOp>, op: PortalOp, r: IndexRow, next: string, now: Time)
    returns (raw: RawToken)
    requires op.Request? && var p := RunHistory(ops).portals;
             Requested(p, op.portal, op.email, op.raws, op.now).Ok? && InGoodStanding(p, r.tenant, r.holder)
             && r in p.index && r.holder.portal == op.portal && r.email == op.email != "" && |next| >= 8
    ensures raw in op.raws && OpenLink(ops + [op], raw) == Some(Link(r.tenant, r.holder, op.now))
    ensures Redeemed(RunHistory(ops + [op]).portals, op.portal, raw, next, now).Ok? <==> now <= op.now + 3_600_000_000
  {
    var p := RunHistory(ops).portals;
    raw := EachActiveHolderGetsALink(p, op.portal, op.email, op.raws, op.now, r);
    assert (ops + [op])[..|ops|] == ops;
    RunStores(ops + [op], raw);
    LinkOpensForAnHour(ops + [op], op.portal, raw, next, now);
    LinkIsOpen(RunHistory(ops + [op]).portals, raw, OpenLink(ops + [op], raw), r, op.now);
  }

  lemma LinkIsOpen(q: Portals, raw: RawToken, link: Option<Link>, r: IndexRow, at: Time)
    requires LinkStored(q, raw, link) && Sha256(raw) in q.links && q.links[Sha256(raw)] == LinkFor(r, at)
    ensures link == Some(Link(r.tenant, r.holder, at))
  {
  }

  /** Voiding takes away the unused links of that holder, and no used one and nobody else's. */
  lemma VoidLeads(h: History, holder: Holder)
    ensures var q := Record(h, Void(holder)).portals;
            && q == h.portals.(links := q.links)
            && (forall l :: l in q.links <==>
                  l in h.portals.links && (h.portals.links[l].holder != holder || h.portals.links[l].usedAt.Some?))
            && (forall l :: l in q.links ==> q.links[l] == h.portals.links[l])
  {
  }
}
