/**
 Amount-based skipping preserves meaning: an instance with amount `a` on the full definition
 behaves, request by request, like an instance on the definition cut down to the steps that
 apply to `a`, with their amount bounds erased, whatever amount that second instance carries.
 */
module WorkflowSkipping {
  import opened Wrappers
  import opened Identities
  import opened Timing
  import opened WorkflowSteps
  import opened WorkflowInstances
  import opened WorkflowSweep

  function Erase(s: Step): Step {
    s.(minimum := None, maximum := None)
  }

  function EraseAll(steps: seq<Step>): (r: seq<Step>)
    ensures |r| == |steps| && forall i :: 0 <= i < |r| ==> r[i] == Erase(steps[i])
  {
    if steps == [] then [] else [Erase(steps[0])] + EraseAll(steps[1..])
  }

  /** The steps that apply to an amount, without their bounds. */
  function Specialise(steps: seq<Step>, amount: Option<int>): seq<Step> {
    if steps == [] then []
    else if Applies(steps[0], amount) then [Erase(steps[0])] + Specialise(steps[1..], amount)
    else Specialise(steps[1..], amount)
  }

  function SpecialChain(c: Chain, other: Option<int>): Chain {
    Chain(Specialise(c.steps, c.amount), other)
  }

  lemma EraseAllCons(s: Step, rest: seq<Step>)
    ensures EraseAll([s] + rest) == [Erase(s)] + EraseAll(rest)
  {
    assert ([s] + rest)[1..] == rest;
  }

  lemma {:induction false} GroupSpecialised(steps: seq<Step>, n: int, amount: Option<int>, other: Option<int>)
    ensures Group(Specialise(steps, amount), n, other) == EraseAll(Group(steps, n, amount))
  {
    if steps == [] {
    } else {
      var s, rest := steps[0], steps[1..];
      var group := Group(rest, n, amount);
      GroupSpecialised(rest, n, amount, other);
      assert steps == [s] + rest;
      GroupCons(s, rest, n, amount);
      EraseAllCons(s, group);
      if Applies(s, amount) {
        GroupCons(Erase(s), Specialise(rest, amount), n, other);
      }
    }
  }

  lemma AtSpecialised(c: Chain, n: int, other: Option<int>)
    ensures At(SpecialChain(c, other), n) == EraseAll(At(c, n))
    ensures Live(SpecialChain(c, other), n) <==> Live(c, n)
  {
    GroupSpecialised(c.steps, n, c.amount, other);
  }

  /** The two chains search the same numbers, although the full one has more candidates. */
  lemma NextSpecialised(c: Chain, n: int, other: Option<int>)
    ensures NextNumber(SpecialChain(c, other), n) == NextNumber(c, n)
  {
    var d := SpecialChain(c, other);
    forall m ensures Live(d, m) <==> Live(c, m) {
      AtSpecialised(c, m, other);
    }
    NextNumberIsLeast(c, n);
    NextNumberIsLeast(d, n);
    match NextNumber(c, n)
    case None =>
    case Some(m) => assert NextNumber(d, n) == Some(m);
  }

  lemma {:induction false} TimeoutsErased(group: seq<Step>)
    ensures Timeouts(EraseAll(group)) == Timeouts(group)
  {
    if group == [] {
    } else {
      assert EraseAll(group)[1..] == EraseAll(group[1..]);
      TimeoutsErased(group[1..]);
    }
  }

  lemma DueOfErased(group: seq<Step>, now: Time)
    ensures DueOf(EraseAll(group), now) == DueOf(group, now)
  {
    TimeoutsErased(group);
  }

  lemma DueSpecialised(c: Chain, n: int, now: Time, other: Option<int>)
    ensures DueAt(SpecialChain(c, other), n, now) == DueAt(c, n, now)
  {
    AtSpecialised(c, n, other);
    DueOfErased(At(c, n), now);
  }

  lemma {:induction false} FirstWhereErased(group: seq<Step>, f: Step -> bool, g: Step -> bool)
    requires forall s :: g(Erase(s)) == f(s)
    ensures FirstWhere(EraseAll(group), g) ==
            match FirstWhere(group, f) case None => None case Some(s) => Some(Erase(s))
  {
    if group == [] {
    } else {
      assert EraseAll(group)[1..] == EraseAll(group[1..]);
      FirstWhereErased(group[1..], f, g);
    }
  }

  lemma FindInErased(group: seq<Step>, delegated: bool, escalated: bool, user: UserId, role: Option<RoleId>)
    ensures FindIn(EraseAll(group), delegated, escalated, user, role) ==
            match FindIn(group, delegated, escalated, user, role) case None => None case Some(s) => Some(Erase(s))
  {
    var right, target := ByRight(delegated, user, role), ByEscalation(user, role);
    FirstWhereErased(group, right, right);
    FirstWhereErased(group, target, target);
  }

  lemma FindSpecialised(c: Chain, i: Instance, user: UserId, role: Option<RoleId>, other: Option<int>)
    ensures FindActionable(SpecialChain(c, other), i, user, role) ==
            match FindActionable(c, i, user, role) case None => None case Some(s) => Some(Erase(s))
  {
    AtSpecialised(c, i.current, other);
    FindInErased(At(c, i.current), user in Delegates(i.log, i.current), i.escalatedAt.Some?, user, role);
  }

  lemma ErasedMembers(group: seq<Step>)
    ensures forall s :: s in group ==> Erase(s) in EraseAll(group)
    ensures forall e :: e in EraseAll(group) ==> exists s :: s in group && e == Erase(s)
  {
    forall s | s in group ensures Erase(s) in EraseAll(group) {
      var k :| 0 <= k < |group| && group[k] == s;
      assert EraseAll(group)[k] == Erase(s);
    }
  }

  lemma HasTargetSpecialised(c: Chain, n: int, other: Option<int>)
    ensures HasTarget(SpecialChain(c, other), n) <==> HasTarget(c, n)
  {
    AtSpecialised(c, n, other);
    ErasedMembers(At(c, n));
    if HasTarget(c, n) {
      var s :| s in At(c, n) && (s.escalateToUser.Some? || s.escalateToRole.Some?);
      assert Erase(s) in At(SpecialChain(c, other), n);
    }
  }

  lemma AutoEscalatesSpecialised(c: Chain, n: int, other: Option<int>)
    ensures AutoEscalates(SpecialChain(c, other), n) <==> AutoEscalates(c, n)
  {
    AtSpecialised(c, n, other);
    ErasedMembers(At(c, n));
    if AutoEscalates(c, n) {
      var s :| s in At(c, n) && s.autoEscalate;
      assert Erase(s) in At(SpecialChain(c, other), n);
    }
  }

  lemma AllSatisfiedSpecialised(c: Chain, n: int, log: seq<Action>, other: Option<int>)
    ensures AllSatisfied(SpecialChain(c, other), n, log) <==> AllSatisfied(c, n, log)
  {
    AtSpecialised(c, n, other);
    ErasedMembers(At(c, n));
    if AllSatisfied(SpecialChain(c, other), n, log) {
      forall s | s in At(c, n) ensures Logged(log, s.number, Approve) {
        assert Erase(s) in At(SpecialChain(c, other), n);
      }
    }
  }

  /** Each request is accepted or refused alike, with the same error, and moves both instances alike. */
  lemma DecideSpecialised(c: Chain, i: Instance, op: Op, other: Option<int>)
    ensures Decide(SpecialChain(c, other), i, op) == Decide(c, i, op)
    ensures Do(SpecialChain(c, other), i, op) == Do(c, i, op)
  {
    if Decision(op) {
      FindSpecialised(c, i, op.actor, op.role, other);
    }
    if op.DoApprove? {
      AllSatisfiedSpecialised(c, i.current, i.log + [Entry(i, op, Stay)], other);
      NextSpecialised(c, i.current, other);
    }
    HasTargetSpecialised(c, i.current, other);
    var d := Decide(c, i, op);
    assert Decide(SpecialChain(c, other), i, op) == d;
    if d.Ok? && d.value.Enter? {
      DueSpecialised(c, d.value.number, Clock(op), other);
    }
  }

  /** The overdue sweep escalates, reports and ignores alike. */
  lemma SweepSpecialised(tenant: TenantId, c: Chain, i: Instance, now: Time, clock: Time, other: Option<int>)
    ensures FateOf(Row(tenant, SpecialChain(c, other), i), now) == FateOf(Row(tenant, c, i), now)
    ensures SweepOne(SpecialChain(c, other), i, now, clock) == SweepOne(c, i, now, clock)
  {
    AutoEscalatesSpecialised(c, i.current, other);
    HasTargetSpecialised(c, i.current, other);
    DecideSpecialised(c, i, DoEscalate(None, clock), other);
  }

  lemma StartSpecialised(c: Chain, now: Time, other: Option<int>)
    ensures Start(SpecialChain(c, other), now) == Start(c, now)
  {
    NextSpecialised(c, 0, other);
    if FirstNumber(c).Some? {
      DueSpecialised(c, FirstNumber(c).value, now, other);
    }
  }

  /**
   Amount skipping preserves meaning over whole runs: the same requests leave the same status,
   step, due date, escalation mark, log and step entries on the cut-down definition.
   */
  lemma {:induction false} SkippingPreservesRuns(c: Chain, now: Time, ops: seq<Op>, other: Option<int>)
    requires FirstNumber(c).Some?
    ensures FirstNumber(SpecialChain(c, other)).Some?
    ensures var t, u := Run(c, now, ops), Run(SpecialChain(c, other), now, ops);
            t.inst == u.inst && t.visits == u.visits
  {
    NextSpecialised(c, 0, other);
    if ops == [] {
      StartSpecialised(c, now, other);
    } else {
      SkippingPreservesRuns(c, now, ops[..|ops| - 1], other);
      DecideSpecialised(c, Run(c, now, ops[..|ops| - 1]).inst, Last(ops), other);
    }
  }

  /** Nothing of the second definition is ever skipped: every one of its steps applies to every amount. */
  lemma {:induction false} NothingLeftToSkip(steps: seq<Step>, amount: Option<int>, any: Option<int>)
    ensures forall s :: s in Specialise(steps, amount) ==> Applies(s, any)
    ensures |Specialise(steps, amount)| <= |steps|
  {
    if steps == [] {
    } else {
      NothingLeftToSkip(steps[1..], amount, any);
    }
  }
}
