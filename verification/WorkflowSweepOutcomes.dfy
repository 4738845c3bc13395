/**
 What the overdue sweep does, read off the rows and the steps: which instances it escalates, which it
 reports and which it leaves, what it writes, and when an instance nobody acts on comes up in it.
 */
module WorkflowSweepOutcomes {
  import opened Wrappers
  import opened Identities
  import opened Timing
  import opened WorkflowSteps
  import opened WorkflowInstances
  import opened WorkflowOutcomes
  import opened WorkflowSweep

  /** Pending, not escalated since its step was entered, and due by now. */
  ghost predicate PastDue(i: Instance, now: Time) {
    i.status == Pending && i.escalatedAt == None && exists d :: i.dueAt == Some(d) && d <= now
  }

  ghost predicate Automatic(c: Chain, n: int) {
    exists s :: InForce(c, n, s) && s.autoEscalate
  }

  lemma AutomaticIsCoded(c: Chain, n: int)
    ensures Automatic(c, n) <==> AutoEscalates(c, n)
    ensures Targeted(c, n) <==> HasTarget(c, n)
  {
    InForceIsAt(c, n);
    if AutoEscalates(c, n) {
      var s :| s in At(c, n) && s.autoEscalate;
      assert InForce(c, n, s);
    }
    if HasTarget(c, n) {
      var s :| s in At(c, n) && (s.escalateToUser.Some? || s.escalateToRole.Some?);
      assert InForce(c, n, s);
    }
  }

  lemma PastDueIsCoded(i: Instance, now: Time)
    ensures PastDue(i, now) <==> Overdue(i, now)
  {
    if Overdue(i, now) {
      assert i.dueAt == Some(i.dueAt.value);
    }
  }

  /**
   Of the instances past due whose step in force escalates by itself, those with somebody to escalate to are
   escalated and the others reported; everything else is ignored.
   */
  lemma FateExactly(r: Row, now: Time)
    ensures FateOf(r, now) ==
            if !PastDue(r.inst, now) || !Automatic(r.chain, r.inst.current) then Ignored
            else if Targeted(r.chain, r.inst.current) then Escalated
            else Reported
  {
    PastDueIsCoded(r.inst, now);
    AutomaticIsCoded(r.chain, r.inst.current);
  }

  ghost predicate ToEscalate(r: Row, tenant: TenantId, now: Time) {
    && r.tenant == tenant && PastDue(r.inst, now)
    && Automatic(r.chain, r.inst.current) && Targeted(r.chain, r.inst.current)
  }

  ghost predicate ToReport(r: Row, tenant: TenantId, now: Time) {
    && r.tenant == tenant && PastDue(r.inst, now)
    && Automatic(r.chain, r.inst.current) && !Targeted(r.chain, r.inst.current)
  }

  /** The mark, and one row by the system actor; everything else of the instance stays. */
  function EscalatedBySystem(i: Instance, clock: Time): Instance {
    Instance(i.status, i.current, i.dueAt, Some(clock),
             i.log + [Action(i.current, Escalate, 0, Some(Pending), Some(Pending), None)])
  }

  /** The rows to escalate have been, each at its own reading of the clock, and no other row has changed. */
  ghost predicate SweptExactly(before: seq<Row>, after: seq<Row>, tenant: TenantId, now: Time, clocks: seq<Time>) {
    && |clocks| == |before| == |after|
    && forall k :: 0 <= k < |before| ==>
         after[k] == if ToEscalate(before[k], tenant, now)
                     then Row(before[k].tenant, before[k].chain, EscalatedBySystem(before[k].inst, clocks[k]))
                     else before[k]
  }

  ghost function Escalating(table: seq<Row>, tenant: TenantId, now: Time): set<int> {
    set k | 0 <= k < |table| && ToEscalate(table[k], tenant, now)
  }

  ghost function Reporting(table: seq<Row>, tenant: TenantId, now: Time): set<int> {
    set k | 0 <= k < |table| && ToReport(table[k], tenant, now)
  }

  lemma SweepRowExactly(r: Row, now: Time, clock: Time)
    ensures SweepRow(r, now, clock) ==
            if ToEscalate(r, r.tenant, now) then Row(r.tenant, r.chain, EscalatedBySystem(r.inst, clock)) else r
  {
    PastDueIsCoded(r.inst, now);
    AutomaticIsCoded(r.chain, r.inst.current);
    EscalationLeads(r.chain, r.inst, None, clock);
  }

  /** The sweep of a tenant and its two counts, from the rows alone. */
  lemma SweepLeads(before: seq<Row>, after: seq<Row>, tenant: TenantId, now: Time, clocks: seq<Time>)
    requires SweptFor(before, after, tenant, now, clocks)
    ensures SweptExactly(before, after, tenant, now, clocks)
    ensures Fated(before, tenant, now, Escalated) == Escalating(before, tenant, now)
    ensures Fated(before, tenant, now, Reported) == Reporting(before, tenant, now)
  {
    forall k | 0 <= k < |before|
      ensures after[k] == if ToEscalate(before[k], tenant, now)
                          then Row(before[k].tenant, before[k].chain, EscalatedBySystem(before[k].inst, clocks[k]))
                          else before[k]
      ensures k in Fated(before, tenant, now, Escalated) <==> ToEscalate(before[k], tenant, now)
      ensures k in Fated(before, tenant, now, Reported) <==> ToReport(before[k], tenant, now)
    {
      SweepRowExactly(before[k], now, clocks[k]);
      FateExactly(before[k], now);
    }
  }

  /** Some timeout of the step in force, counted from when it was entered, has passed. */
  ghost predicate TimedOut(c: Chain, n: int, entered: Time, now: Time) {
    exists s :: TimesOut(c, n, s) && entered + s.timeoutHours.value * 3_600_000_000 <= now
  }

  /**
   After any run, a sweep escalates the instance exactly when it is still pending and unescalated on a step
   that escalates by itself to somebody, and a timeout of that step has passed since the request that led there.
   */
  lemma SweptOnceTimedOut(c: Chain, start: Time, ops: seq<Op>, tenant: TenantId, now: Time)
    requires FirstNumber(c).Some?
    ensures var i := Run(c, start, ops).inst;
            FateOf(Row(tenant, c, i), now) == Escalated <==>
            && i.status == Pending && i.escalatedAt.None?
            && Automatic(c, i.current) && Targeted(c, i.current)
            && TimedOut(c, i.current, LastEntered(c, start, ops), now)
  {
    var i := Run(c, start, ops).inst;
    var entered := LastEntered(c, start, ops);
    DueSinceTheLastEntry(c, start, ops);
    FateExactly(Row(tenant, c, i), now);
    if i.status == Pending {
      DueIsTimedOut(c, i.current, entered, i.dueAt, now);
    }
  }

  lemma DueIsTimedOut(c: Chain, n: int, entered: Time, due: Option<Time>, now: Time)
    requires DueAfter(c, n, entered, due)
    ensures TimedOut(c, n, entered, now) <==> exists d :: due == Some(d) && d <= now
  {
    if due.Some? {
      assert due == Some(due.value);
    }
  }
}
