/**
 Invitation tokens: the token table and the invitations agree, a token opens exactly the pending,
 unexpired invitation it was last issued for, and an invitation makes at most one user.
 */
module MembershipTokens {
  import opened Wrappers
  import opened Timing
  import opened Identities
  import opened Credentials
  import opened Membership

  ghost predicate InvitationsIndexed(o: Org) {
    forall i :: i in o.invitations ==>
      && o.invitations[i].hash in o.tokens
      && o.tokens[o.invitations[i].hash] == TokenRow(i, o.invitations[i].tenant)
  }

  ghost predicate RowsFounded(o: Org) {
    forall h :: h in o.tokens ==>
      && o.tokens[h].invitation in o.invitations
      && o.invitations[o.tokens[h].invitation].hash == h
  }

  /** Each invitation has exactly one row in the token table, under its stored digest, and no other rows exist. */
  ghost predicate TokensAgree(o: Org) {
    InvitationsIndexed(o) && RowsFounded(o)
  }

  lemma AfterInvitationsIndexed(o: Org, op: OrgOp)
    requires TokensAgree(o)
    ensures InvitationsIndexed(After(o, op))
  {
  }

  lemma AfterRowsFounded(o: Org, op: OrgOp)
    requires TokensAgree(o)
    ensures RowsFounded(After(o, op))
  {
  }

  lemma AfterTokensAgree(o: Org, op: OrgOp)
    requires TokensAgree(o)
    ensures TokensAgree(After(o, op))
  {
    AfterInvitationsIndexed(o, op);
    AfterRowsFounded(o, op);
  }

  /** What the tables do not keep: the last token issued for each invitation, and who joined through which. */
  datatype History = History(org: Org, latest: map<InvitationId, RawToken>, joined: seq<(InvitationId, UserId)>)

  function Record(h: History, op: OrgOp): History {
    if OrgDo(h.org, op).Err? then h
    else
      match op
      case Invite(_, _, _, _, token, id, _) => History(After(h.org, op), h.latest[id := token], h.joined)
      case Resend(_, id, token, _) => History(After(h.org, op), h.latest[id := token], h.joined)
      case Accept(token, _, user, now) =>
        History(After(h.org, op), h.latest, h.joined + [(Lookup(h.org, token, now).value, user)])
      case _ => h.(org := After(h.org, op))
  }

  function RunHistory(ops: seq<OrgOp>): History {
    if ops == [] then History(EMPTY, map[], []) else Record(RunHistory(ops[..|ops| - 1]), ops[|ops| - 1])
  }

  lemma {:induction false} HistoryFollowsRun(ops: seq<OrgOp>)
    ensures RunHistory(ops).org == RunOrg(EMPTY, ops)
  {
    if ops == [] {
    } else {
      HistoryFollowsRun(ops[..|ops| - 1]);
    }
  }

  ghost predicate LatestStored(h: History) {
    && h.latest.Keys == h.org.invitations.Keys
    && forall i :: i in h.latest ==> h.org.invitations[i].hash == Sha256(h.latest[i])
  }

  ghost predicate JoinedOnce(h: History) {
    && (forall k :: 0 <= k < |h.joined| ==>
          h.joined[k].0 in h.org.invitations && h.org.invitations[h.joined[k].0].status == Accepted)
    && (forall j, k :: 0 <= j < k < |h.joined| ==> h.joined[j].0 != h.joined[k].0)
  }

  lemma RecordLatest(h: History, op: OrgOp)
    requires LatestStored(h)
    ensures LatestStored(Record(h, op))
  {
  }

  lemma RecordJoined(h: History, op: OrgOp)
    requires JoinedOnce(h)
    ensures JoinedOnce(Record(h, op))
  {
  }

  lemma {:induction false} RunKept(ops: seq<OrgOp>)
    ensures var h := RunHistory(ops);
            h.org == RunOrg(EMPTY, ops) && TokensAgree(h.org) && LatestStored(h) && JoinedOnce(h)
  {
    HistoryFollowsRun(ops);
    if ops == [] {
    } else {
      RunKept(ops[..|ops| - 1]);
      var h := RunHistory(ops[..|ops| - 1]);
      AfterTokensAgree(h.org, ops[|ops| - 1]);
      RecordLatest(h, ops[|ops| - 1]);
      RecordJoined(h, ops[|ops| - 1]);
    }
  }

  /**
   In every reachable state a token is valid exactly when it is the latest issued for a pending, unexpired
   invitation.
   */
  lemma {:induction false} TokenOpensItsInvitation(ops: seq<OrgOp>, token: RawToken, now: Time, id: InvitationId)
    ensures var h := RunHistory(ops);
            && h.org == RunOrg(EMPTY, ops)
            && (Lookup(h.org, token, now) == Some(id) <==>
              && id in h.latest && h.latest[id] == token && id in h.org.invitations
              && h.org.invitations[id].status == Pending && now <= h.org.invitations[id].expiresAt)
  {
    RunKept(ops);
  }

  /** Each invitation creates at most one user over any run, and is closed for good once it has. */
  lemma OneUserPerInvitation(ops: seq<OrgOp>, j: nat, token: RawToken, now: Time)
    requires j < |RunHistory(ops).joined|
    ensures var h := RunHistory(ops);
            && (forall k :: 0 <= k < |h.joined| && k != j ==> h.joined[k].0 != h.joined[j].0)
            && Lookup(RunOrg(EMPTY, ops), token, now) != Some(h.joined[j].0)
  {
    RunKept(ops);
  }

  /** Resending replaces the token: the new one opens the invitation, and the old one nothing. */
  lemma ResendingSupersedes(ops: seq<OrgOp>, op: OrgOp, now: Time)
    requires op.Resend? && OrgDo(RunHistory(ops).org, op).Ok?
    requires var h := RunHistory(ops); op.invitation in h.latest ==> h.latest[op.invitation] != op.token
    requires op.now <= now <= op.now + INVITATION_TTL
    ensures var h := RunHistory(ops);
            && op.invitation in h.latest
            && Lookup(After(h.org, op), op.token, now) == Some(op.invitation)
            && Lookup(After(h.org, op), h.latest[op.invitation], now) == None
  {
    RunKept(ops);
    AfterTokensAgree(RunHistory(ops).org, op);
  }
}
