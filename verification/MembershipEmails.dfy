/**
 The email index against the users: every row points to a present user of the same email and
 tenant, and, as long as removed users are left alone, every present user has exactly one row.
 */
module MembershipEmails {
  import opened Wrappers
  import opened Timing
  import opened Identities
  import opened Credentials
  import opened Membership
  import opened MembershipInput
  import opened MembershipSeats

  /** Every index row points to a user who is there, with the row's email and tenant. */
  ghost predicate IndexSound(o: Org) {
    forall e :: e in o.emails ==>
      var row := o.emails[e];
      row.user in o.users && o.users[row.user].email == e && o.users[row.user].tenant == row.tenant
          && Present(o.users[row.user])
  }

  /** What the two partial unique indexes enforce. */
  ghost predicate UsersUnique(o: Org) {
    forall u, v :: u in o.users && v in o.users && u != v && Present(o.users[u]) && Present(o.users[v]) ==>
      !(o.users[u].tenant == o.users[v].tenant && o.users[u].email == o.users[v].email)
  }

  ghost predicate InvitationsUnique(o: Org) {
    forall i, j :: i in o.invitations && j in o.invitations && i != j
                       && o.invitations[i].status == Pending && o.invitations[j].status == Pending ==>
      !(o.invitations[i].tenant == o.invitations[j].tenant && o.invitations[i].email == o.invitations[j].email)
  }

  ghost predicate EmailsUnique(o: Org) {
    UsersUnique(o) && InvitationsUnique(o)
  }

  /** Every present user is found under their email; with IndexSound, under no other. */
  ghost predicate IndexComplete(o: Org) {
    forall u :: u in o.users && Present(o.users[u]) ==>
        o.users[u].email in o.emails && o.emails[o.users[u].email].user == u
  }

  /** Nobody present is also invited. */
  ghost predicate NoneInvitedTwice(o: Org) {
    forall u, i :: u in o.users && Present(o.users[u]) && i in o.invitations && o.invitations[i].status == Pending ==>
      !(o.users[u].tenant == o.invitations[i].tenant && o.users[u].email == o.invitations[i].email)
  }

  /** Every stored email is in its normal form, however it was typed. */
  ghost predicate EmailsNormal(o: Org) {
    && (forall u :: u in o.users ==> Normal(o.users[u].email))
    && (forall i :: i in o.invitations ==> Normal(o.invitations[i].email))
    && (forall e :: e in o.emails ==> Normal(e))
  }

  lemma SignUpEmailsNormal(o: Org, op: OrgOp)
    requires EmailsNormal(o) && (op.SignUp? || op.Invite?)
    ensures EmailsNormal(After(o, op))
  {
    NormaliseIsNormal(op.email);
  }

  lemma AfterEmailsNormal(o: Org, op: OrgOp)
    requires EmailsNormal(o)
    ensures EmailsNormal(After(o, op))
  {
    if op.SignUp? || op.Invite? {
      SignUpEmailsNormal(o, op);
    }
  }

  lemma AfterIndexSound(o: Org, op: OrgOp)
    requires IndexSound(o)
    ensures IndexSound(After(o, op))
  {
  }

  lemma AfterUsersUnique(o: Org, op: OrgOp)
    requires UsersUnique(o) && Housed(o)
    ensures UsersUnique(After(o, op))
  {
  }

  lemma AfterInvitationsUnique(o: Org, op: OrgOp)
    requires InvitationsUnique(o)
    ensures InvitationsUnique(After(o, op))
  {
  }

  lemma AfterEmailsUnique(o: Org, op: OrgOp)
    requires EmailsUnique(o) && Housed(o)
    ensures EmailsUnique(After(o, op))
  {
    AfterUsersUnique(o, op);
    AfterInvitationsUnique(o, op);
  }

  /** Unconditionally, over every run: the index never points to a removed or unrelated user. */
  lemma {:induction false} IndexAlwaysSound(ops: seq<OrgOp>)
    ensures var o := RunOrg(EMPTY, ops); IndexSound(o) && EmailsUnique(o) && EmailsNormal(o) && Housed(o)
  {
    RunHoused(EMPTY, ops);
    if ops == [] {
    } else {
      IndexAlwaysSound(ops[..|ops| - 1]);
      AfterIndexSound(RunOrg(EMPTY, ops[..|ops| - 1]), ops[|ops| - 1]);
      AfterEmailsUnique(RunOrg(EMPTY, ops[..|ops| - 1]), ops[|ops| - 1]);
      AfterEmailsNormal(RunOrg(EMPTY, ops[..|ops| - 1]), ops[|ops| - 1]);
    }
  }

  /** The call does not, if accepted, suspend or reactivate a removed user. */
  ghost predicate LeavesRemovedAlone(o: Org, op: OrgOp) {
    (op.Suspend? || op.Reactivate?) && OrgDo(o, op).Ok? ==> Present(o.users[op.user])
  }

  lemma AfterIndexComplete(o: Org, op: OrgOp)
    requires IndexSound(o) && IndexComplete(o) && LeavesRemovedAlone(o, op)
    ensures IndexComplete(After(o, op))
  {
  }

  lemma AfterNoneInvitedTwice(o: Org, op: OrgOp)
    requires NoneInvitedTwice(o) && EmailsUnique(o) && Housed(o) && LeavesRemovedAlone(o, op)
    ensures NoneInvitedTwice(After(o, op))
  {
  }

  /** Every call of the run leaves removed users alone. */
  ghost predicate RemovalIsFinal(ops: seq<OrgOp>) {
    forall k :: 0 <= k < |ops| ==> LeavesRemovedAlone(RunOrg(EMPTY, ops[..k]), ops[k])
  }

  /**
   When removed users are left alone, every present user has exactly one index row, and no email
   has both a pending invitation and a present user in one tenant.
   */
  lemma {:induction false} IndexCompleteWhenRemovalIsFinal(ops: seq<OrgOp>)
    requires RemovalIsFinal(ops)
    ensures var o := RunOrg(EMPTY, ops);
            && IndexComplete(o) && NoneInvitedTwice(o)
            && forall u, e :: u in o.users && Present(o.users[u]) ==>
                                (e in o.emails && o.emails[e].user == u <==> e == o.users[u].email)
  {
    IndexAlwaysSound(ops);
    if ops == [] {
    } else {
      var front, op := ops[..|ops| - 1], ops[|ops| - 1];
      forall k | 0 <= k < |front| ensures LeavesRemovedAlone(RunOrg(EMPTY, front[..k]), front[k]) {
        assert front[..k] == ops[..k];
      }
      IndexCompleteWhenRemovalIsFinal(front);
      IndexAlwaysSound(front);
      assert LeavesRemovedAlone(RunOrg(EMPTY, ops[..|ops| - 1]), op);
      AfterIndexComplete(RunOrg(EMPTY, front), op);
      AfterNoneInvitedTwice(RunOrg(EMPTY, front), op);
    }
  }

  /**
   The condition is exact: an accepted suspension or reactivation keeps the index complete if and
   only if the user had not been removed.
   */
  lemma RevivingBreaksTheIndex(o: Org, op: OrgOp)
    requires IndexSound(o) && IndexComplete(o)
    requires (op.Suspend? || op.Reactivate?) && OrgDo(o, op).Ok?
    ensures IndexComplete(After(o, op)) <==> Present(o.users[op.user])
  {
    if Present(o.users[op.user]) {
      AfterIndexComplete(o, op);
    } else {
      assert Present(After(o, op).users[op.user]);
    }
  }

  /** The index is complete after every stretch of the calls. */
  ghost predicate AlwaysComplete(ops: seq<OrgOp>) {
    forall k :: 0 <= k <= |ops| ==> IndexComplete(RunOrg(EMPTY, ops[..k]))
  }

  lemma CompleteSoFar(ops: seq<OrgOp>, k: nat)
    requires RemovalIsFinal(ops) && k <= |ops|
    ensures IndexComplete(RunOrg(EMPTY, ops[..k]))
  {
    forall j | 0 <= j < k ensures LeavesRemovedAlone(RunOrg(EMPTY, ops[..k][..j]), ops[..k][j]) {
      assert ops[..k][..j] == ops[..j];
    }
    IndexCompleteWhenRemovalIsFinal(ops[..k]);
  }

  lemma NotRevived(ops: seq<OrgOp>, k: nat)
    requires AlwaysComplete(ops) && k < |ops|
    ensures LeavesRemovedAlone(RunOrg(EMPTY, ops[..k]), ops[k])
  {
    var o, op := RunOrg(EMPTY, ops[..k]), ops[k];
    if (op.Suspend? || op.Reactivate?) && OrgDo(o, op).Ok? {
      IndexAlwaysSound(ops[..k]);
      assert ops[..k + 1][..k] == ops[..k];
      assert RunOrg(EMPTY, ops[..k + 1]) == After(o, op);
      RevivingBreaksTheIndex(o, op);
    }
  }

  /**
   Over whole runs too: every present user can be found by email at all times if and only if no
   accepted suspension or reactivation concerned a removed user.
   */
  lemma IndexCompleteExactly(ops: seq<OrgOp>)
    ensures AlwaysComplete(ops) <==> RemovalIsFinal(ops)
  {
    if RemovalIsFinal(ops) {
      forall k | 0 <= k <= |ops| ensures IndexComplete(RunOrg(EMPTY, ops[..k])) {
        CompleteSoFar(ops, k);
      }
    }
    if AlwaysComplete(ops) {
      forall k | 0 <= k < |ops| ensures LeavesRemovedAlone(RunOrg(EMPTY, ops[..k]), ops[k]) {
        NotRevived(ops, k);
      }
    }
  }

  lemma RunOneMore(ops: seq<OrgOp>, op: OrgOp)
    ensures RunOrg(EMPTY, ops + [op]) == After(RunOrg(EMPTY, ops), op)
  {
    assert (ops + [op])[..|ops|] == ops;
  }

  /** The sign-up of a company by its administrator. */
  const FOUNDED: OrgOp := SignUp(1, 2, 3, "Acme", "a@b.c", 8)

  lemma Founded()
    ensures OrgDo(EMPTY, FOUNDED) ==
            Ok(EMPTY.(tenants := map[1 := "Acme"], roles := map[2 := 1],
                      users := map[3 := User(1, "a@b.c", Some(2), Active)], emails := map["a@b.c" := EmailRow(3, 1)]))
  {
    TrimmedStays("Acme");
    var email := "a@b.c";
    assert email[1] == '@' && email[3] == '.';
    assert Address(email);
    NormaliseIsNormal(email);
  }

  /** Sign up, then remove the administrator: no index row is left. */
  lemma RemovedAdministrator()
    ensures var o := RunOrg(EMPTY, [FOUNDED, Remove(1, 3)]);
            o.users == map[3 := User(1, "a@b.c", Some(2), Removed)] && o.emails == map[]
  {
    var a, b := FOUNDED, Remove(1, 3);
    Founded();
    RunOneMore([], a);
    RunOneMore([a], b);
    assert [] + [a] == [a] && [a] + [b] == [a, b];
    assert RunOrg(EMPTY, [a]).users == map[3 := User(1, "a@b.c", Some(2), Active)];
  }

  /** It can happen: sign up, remove the administrator, reactivate them. */
  lemma RevivedUserHasNoRow()
    ensures !IndexComplete(RunOrg(EMPTY, [FOUNDED, Remove(1, 3)] + [Reactivate(1, 3, None)]))
  {
    var ops, op := [FOUNDED, Remove(1, 3)], Reactivate(1, 3, None);
    RemovedAdministrator();
    RunOneMore(ops, op);
    var o := RunOrg(EMPTY, ops + [op]);
    assert !HasOther(RunOrg(EMPTY, ops), 3);
    assert 3 in o.users && Present(o.users[3]) && o.emails == map[];
  }

  /**
   Where removed users are left alone, an invitation can be taken up exactly when its token is
   valid, the password is long enough, and no other tenant holds the email.
   */
  lemma AcceptSucceedsExactly(o: Org, token: RawToken, passwordLength: nat, user: UserId, now: Time)
    requires IndexSound(o) && IndexComplete(o) && NoneInvitedTwice(o) && user !in o.users
    ensures OrgDo(o, Accept(token, passwordLength, user, now)).Ok? <==>
            && Lookup(o, token, now).Some?
            && passwordLength >= MIN_PASSWORD_LENGTH
            && var i := o.invitations[Lookup(o, token, now).value];
               !exists u :: u in o.users && o.users[u].tenant != i.tenant && o.users[u].email == i.email
                   && Present(o.users[u])
  {
    var found := Lookup(o, token, now);
    if found.Some? {
      var i := o.invitations[found.value];
      assert !HasUser(o, i.tenant, i.email);
      if i.email in o.emails {
        var u := o.emails[i.email].user;
        assert u in o.users && o.users[u].tenant != i.tenant && o.users[u].email == i.email && Present(o.users[u]);
      }
    }
  }
}
