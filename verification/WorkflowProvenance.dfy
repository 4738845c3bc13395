/**
 Where the right to act comes from: every approval, rejection and delegation in the log of any
 run is rooted, through a finite chain of earlier delegations of the same step number, in a
 configured approver or in an escalation target acting after an escalation.
 */
module WorkflowProvenance {
  import opened Wrappers
  import opened Identities
  import opened Timing
  import opened WorkflowSteps
  import opened WorkflowInstances
  import opened WorkflowVisits

  ghost predicate ConfiguredAt(c: Chain, n: int, user: UserId, role: Option<RoleId>) {
    exists s :: s in At(c, n) && Configured(s, user, role)
  }

  ghost predicate TargetAt(c: Chain, n: int, user: UserId, role: Option<RoleId>) {
    exists s :: s in At(c, n) && EscalatesTo(s, user, role)
  }

  /** Position j holds an escalation of step n that no decision separates from position k. */
  ghost predicate EscalatedSince(log: seq<Action>, j: nat, k: nat, n: int)
    requires k <= |log|
  {
    && j < k && log[j].kind == Escalate && log[j].stepNumber == n
    && forall i :: j <= i < k ==> log[i].kind != Approve && log[i].kind != Reject
  }

  /** The author of row k held the right to act on its own: no delegation involved. */
  ghost predicate Root(c: Chain, log: seq<Action>, notes: seq<Note>, k: nat)
    requires |notes| == |log| && k < |log|
  {
    var a, role := log[k], notes[k].role;
    || ConfiguredAt(c, a.stepNumber, a.actor, role)
    || (TargetAt(c, a.stepNumber, a.actor, role) && exists j: nat :: EscalatedSince(log, j, k, a.stepNumber))
  }

  /** Row j delegates its step number to the author of the later row k, who acts on the same number. */
  ghost predicate Hands(log: seq<Action>, j: nat, k: nat)
    requires k < |log|
  {
    j < k && log[j].kind == Delegate && log[j].stepNumber == log[k].stepNumber
        && log[j].delegatedTo == Some(log[k].actor)
  }

  /** A chain of log positions from a root, each handing the step to the next, ending at k. */
  ghost predicate Rooted(c: Chain, log: seq<Action>, notes: seq<Note>, links: seq<nat>, k: nat)
    requires |notes| == |log| && k < |log|
  {
    && links != [] && Last(links) == k
    && (forall i :: 0 <= i < |links| ==> links[i] <= k)
    && (forall i :: 0 <= i < |links| - 1 ==> Hands(log, links[i], links[i + 1]))
    && Root(c, log, notes, links[0])
  }

  ghost predicate NeedsRight(a: Action) {
    a.kind in {Approve, Reject, Delegate}
  }

  ghost predicate AllRooted(c: Chain, log: seq<Action>, notes: seq<Note>)
    requires |notes| == |log|
  {
    forall k: nat :: k < |log| && NeedsRight(log[k]) ==> exists links :: Rooted(c, log, notes, links, k)
  }

  lemma RootedLater(c: Chain, log: seq<Action>, notes: seq<Note>, a: Action, note: Note, links: seq<nat>, k: nat)
    requires |notes| == |log| && k < |log|
    requires Rooted(c, log, notes, links, k)
    ensures Rooted(c, log + [a], notes + [note], links, k)
  {
    var log', r := log + [a], links[0];
    forall i | 0 <= i < |links| - 1 ensures Hands(log', links[i], links[i + 1]) {
      assert Hands(log, links[i], links[i + 1]);
    }
    if !ConfiguredAt(c, log[r].stepNumber, log[r].actor, notes[r].role) {
      var j: nat :| EscalatedSince(log, j, r, log[r].stepNumber);
      assert EscalatedSince(log', j, r, log'[r].stepNumber);
    }
  }

  lemma RootedExtended(c: Chain, log: seq<Action>, notes: seq<Note>, links: seq<nat>, j: nat, k: nat)
    requires |notes| == |log| && j < k < |log|
    requires Rooted(c, log, notes, links, j) && Hands(log, j, k)
    ensures Rooted(c, log, notes, links + [k], k)
  {
    var longer := links + [k];
    forall i | 0 <= i < |longer| - 1 ensures Hands(log, longer[i], longer[i + 1]) {
      assert i < |links| - 1 ==> Hands(log, links[i], links[i + 1]);
    }
  }

  lemma DelegationRow(log: seq<Action>, n: int, user: UserId) returns (j: nat)
    requires user in Delegates(log, n)
    ensures j < |log| && log[j].kind == Delegate && log[j].stepNumber == n && log[j].delegatedTo == Some(user)
  {
    var d :| d in log && d.kind == Delegate && d.stepNumber == n && d.delegatedTo == Some(user);
    j :| j < |log| && log[j] == d;
  }

  lemma DelegateRooted(c: Chain, log: seq<Action>, notes: seq<Note>, a: Action, note: Note)
    requires |notes| == |log| && AllRooted(c, log, notes)
    requires a.actor in Delegates(log, a.stepNumber)
    ensures exists links :: Rooted(c, log + [a], notes + [note], links, |log|)
  {
    var j := DelegationRow(log, a.stepNumber, a.actor);
    var before :| Rooted(c, log, notes, before, j);
    RootedLater(c, log, notes, a, note, before, j);
    assert Hands(log + [a], j, |log|);
    RootedExtended(c, log + [a], notes + [note], before, j, |log|);
  }

  lemma OwnRightRooted(c: Chain, log: seq<Action>, notes: seq<Note>, a: Action, note: Note)
    requires |notes| == |log|
    requires || ConfiguredAt(c, a.stepNumber, a.actor, note.role)
             || (TargetAt(c, a.stepNumber, a.actor, note.role)
                 && exists j: nat :: EscalatedSince(log, j, |log|, a.stepNumber))
    ensures exists links :: Rooted(c, log + [a], notes + [note], links, |log|)
  {
    if !ConfiguredAt(c, a.stepNumber, a.actor, note.role) {
      var j: nat :| EscalatedSince(log, j, |log|, a.stepNumber);
      assert EscalatedSince(log + [a], j, |log|, a.stepNumber);
    }
    assert Rooted(c, log + [a], notes + [note], [|log|], |log|);
  }

  /** While the escalation mark is set, the log shows the escalation, with no decision since. */
  lemma MarkIsLogged(c: Chain, t: Trace)
    requires Kept(c, t) && t.inst.status == Pending && t.inst.escalatedAt.Some?
    ensures exists j: nat :: EscalatedSince(t.inst.log, j, |t.inst.log|, t.inst.current)
  {
    var j: nat :| ThisVisit(t, j) && t.inst.log[j].kind == Escalate;
    forall i | j <= i < |t.inst.log| ensures t.inst.log[i].kind != Approve && t.inst.log[i].kind != Reject {
      assert ThisVisit(t, i);
    }
    assert EscalatedSince(t.inst.log, j, |t.inst.log|, t.inst.current);
  }

  /** The next row of an accepted decision is rooted, given that all earlier rows are. */
  lemma DecisionRooted(c: Chain, t: Trace, op: Op, a: Action, note: Note)
    requires Kept(c, t) && AllRooted(c, t.inst.log, t.notes)
    requires t.inst.status == Pending && Decision(op) && FindActionable(c, t.inst, op.actor, op.role).Some?
    requires a.actor == op.actor && a.stepNumber == t.inst.current && note.role == op.role
    ensures exists links :: Rooted(c, t.inst.log + [a], t.notes + [note], links, |t.inst.log|)
  {
    FindActionableDecides(c, t.inst, op.actor, op.role);
    if op.actor in Delegates(t.inst.log, t.inst.current) {
      DelegateRooted(c, t.inst.log, t.notes, a, note);
    } else {
      if !ConfiguredAt(c, t.inst.current, op.actor, op.role) {
        MarkIsLogged(c, t);
      }
      OwnRightRooted(c, t.inst.log, t.notes, a, note);
    }
  }

  lemma OldRowRooted(c: Chain, t: Trace, a: Action, note: Note, k: nat)
    requires |t.notes| == |t.inst.log| && AllRooted(c, t.inst.log, t.notes)
    requires k < |t.inst.log| && NeedsRight(t.inst.log[k])
    ensures exists links :: Rooted(c, t.inst.log + [a], t.notes + [note], links, k)
  {
    var links :| Rooted(c, t.inst.log, t.notes, links, k);
    RootedLater(c, t.inst.log, t.notes, a, note, links, k);
  }

  lemma AppendRooted(c: Chain, t: Trace, a: Action, note: Note)
    requires |t.notes| == |t.inst.log| && AllRooted(c, t.inst.log, t.notes)
    requires NeedsRight(a) ==> exists links :: Rooted(c, t.inst.log + [a], t.notes + [note], links, |t.inst.log|)
    ensures AllRooted(c, t.inst.log + [a], t.notes + [note])
  {
    var log := t.inst.log + [a];
    forall k: nat | k < |log| && NeedsRight(log[k])
      ensures exists links :: Rooted(c, log, t.notes + [note], links, k)
    {
      if k < |t.inst.log| {
        OldRowRooted(c, t, a, note, k);
      }
    }
  }

  lemma ObserveRooted(c: Chain, t: Trace, op: Op)
    requires Kept(c, t) && AllRooted(c, t.inst.log, t.notes)
    ensures var t' := Observe(c, t, op); |t'.notes| == |t'.inst.log| && AllRooted(c, t'.inst.log, t'.notes)
  {
    if Decide(c, t.inst, op).Ok? {
      if Decision(op) {
        DecisionRooted(c, t, op, Entry(t.inst, op, Decide(c, t.inst, op).value), NoteOf(c, t.inst, op));
      }
      AppendRooted(c, t, Entry(t.inst, op, Decide(c, t.inst, op).value), NoteOf(c, t.inst, op));
      LogAfter(c, t, op);
    }
  }

  /** Over every run, every decision in the log is rooted. */
  lemma {:induction false} EveryDecisionIsRooted(c: Chain, now: Time, ops: seq<Op>)
    requires FirstNumber(c).Some?
    ensures var t := Run(c, now, ops); |t.notes| == |t.inst.log| && AllRooted(c, t.inst.log, t.notes)
  {
    if ops == [] {
    } else {
      var t := Run(c, now, ops[..|ops| - 1]);
      EveryDecisionIsRooted(c, now, ops[..|ops| - 1]);
      RunKeeps(c, now, ops[..|ops| - 1]);
      ObserveRooted(c, t, Last(ops));
    }
  }

  /* ---- How long a delegation lasts ---- */

  /**
   A delegation is keyed by step number alone, so it never lapses: after any further run, the
   delegate may decide whenever the instance stands on that number again and its group is not empty.
   */
  lemma {:induction false} DelegationNeverLapses(c: Chain, t: Trace, ops: seq<Op>, user: UserId, role: Option<RoleId>)
    requires user in Delegates(t.inst.log, t.inst.current)
    ensures var i := Continue(c, t, ops).inst;
            i.status == Pending && i.current == t.inst.current ==>
              (Decide(c, i, DoApprove(user, role, 0)).Ok? <==> Live(c, i.current))
  {
    LogOnlyGrows(c, t, ops);
    var i := Continue(c, t, ops).inst;
    if i.current == t.inst.current {
      var a :| a in t.inst.log && a.kind == Delegate && a.stepNumber == t.inst.current && a.delegatedTo == Some(user);
      var j :| 0 <= j < |t.inst.log| && t.inst.log[j] == a;
      assert i.log[j] == a;
      FindActionableDecides(c, i, user, role);
      if Live(c, i.current) {
        assert At(c, i.current)[0] in At(c, i.current);
      }
    }
  }

  /**
   A delegate acts through the leading step of the group, whichever step the delegation was found
   through: through the delegator's own step exactly when that one leads.
   */
  lemma DelegateActsThroughTheLeader(c: Chain, i: Instance, op: Op, role: Option<RoleId>)
    requires op.DoDelegate? && Do(c, i, op).Ok?
    ensures Live(c, i.current)
    ensures FindActionable(c, Do(c, i, op).value, op.to, role) == Some(At(c, i.current)[0])
    ensures FindActionable(c, Do(c, i, op).value, op.to, role) == FindActionable(c, i, op.actor, op.role) <==>
            NoteOf(c, i, op).via == Some(At(c, i.current)[0])
  {
    FindActionableDecides(c, i, op.actor, op.role);
    var j := Do(c, i, op).value;
    assert j.log == i.log + [Entry(i, op, Stay)];
    assert Entry(i, op, Stay) in j.log;
    assert op.to in Delegates(j.log, j.current);
    FirstWhereAt(At(c, i.current), ByRight(true, op.to, role), 0);
  }
}
