/**
 The overdue sweep on one instance: which instances it escalates, which it reports for want of
 a target, and why running it again changes nothing.
 */
module WorkflowSweep {
  import opened Wrappers
  import opened Identities
  import opened Timing
  import opened WorkflowSteps
  import opened WorkflowInstances

  /** Pending, not escalated, and past its due date. */
  predicate Overdue(i: Instance, now: Time) {
    i.status == Pending && i.escalatedAt.None? && i.dueAt.Some? && i.dueAt.value <= now
  }

  predicate Escalatable(c: Chain, i: Instance, now: Time) {
    Overdue(i, now) && AutoEscalates(c, i.current) && HasTarget(c, i.current)
  }

  /** Overdue with automatic escalation on and nobody to escalate to: reported, left alone. */
  predicate Skipped(c: Chain, i: Instance, now: Time) {
    Overdue(i, now) && AutoEscalates(c, i.current) && !HasTarget(c, i.current)
  }

  /** What the sweep makes of one instance; `clock` is the reading the escalation itself takes. */
  function SweepOne(c: Chain, i: Instance, now: Time, clock: Time): Instance {
    if Escalatable(c, i, now) then
      match Do(c, i, DoEscalate(None, clock))
      case Ok(j) => j
      case Err(_) => i
    else i
  }

  /**
   An escalation the sweep attempts is never refused; it leaves exactly one more log row, by the
   system actor, and the mark; and afterwards the instance is no longer overdue.
   */
  lemma SweepOneEscalates(c: Chain, i: Instance, now: Time, clock: Time)
    requires Escalatable(c, i, now)
    ensures Do(c, i, DoEscalate(None, clock)).Ok?
    ensures var j := SweepOne(c, i, now, clock);
            && j == i.(escalatedAt := Some(clock), log := j.log)
            && |j.log| == |i.log| + 1 && j.log[..|i.log|] == i.log
            && Last(j.log).kind == Escalate && Last(j.log).actor == SYSTEM_ACTOR_ID
            && Last(j.log).stepNumber == i.current
            && !Overdue(j, now)
  {
  }

  /** A second sweep at the same time escalates nothing, changes nothing, and skips the same instances. */
  lemma SweepTwiceIsOnce(c: Chain, i: Instance, now: Time, clock: Time, later: Time)
    ensures var j := SweepOne(c, i, now, clock);
            && !Escalatable(c, j, now)
            && SweepOne(c, j, now, later) == j
            && (Skipped(c, j, now) <==> Skipped(c, i, now))
  {
    if Escalatable(c, i, now) {
      SweepOneEscalates(c, i, now, clock);
    }
  }

  /** The sweep is nothing but requests any run may contain, so every whole-run theorem covers it. */
  lemma SweepOneIsAnEscalation(c: Chain, t: Trace, now: Time, clock: Time)
    ensures SweepOne(c, t.inst, now, clock) ==
            if Escalatable(c, t.inst, now) then Observe(c, t, DoEscalate(None, clock)).inst else t.inst
  {
    ObserveIsDo(c, t, DoEscalate(None, clock));
  }

  /* ---- The sweep over a whole table ---- */

  /** One instance with what the sweep consults about it. */
  datatype Row = Row(tenant: TenantId, chain: Chain, inst: Instance)

  /** What becomes of one overdue instance. */
  datatype Fate = Ignored | Reported | Escalated | Failed(error: Error)

  function FateOf(r: Row, now: Time): Fate {
    if Escalatable(r.chain, r.inst, now) then Escalated
    else if Skipped(r.chain, r.inst, now) then Reported
    else Ignored
  }

  function SweepRow(r: Row, now: Time, clock: Time): Row {
    r.(inst := SweepOne(r.chain, r.inst, now, clock))
  }

  /** Sweeping the listed rows one after another. */
  function SweepListed(table: seq<Row>, rows: seq<int>, now: Time, clocks: seq<Time>): (r: seq<Row>)
    requires |clocks| == |table|
    ensures |r| == |table|
  {
    if rows == [] then table
    else
      var k, before := rows[|rows| - 1], SweepListed(table, rows[..|rows| - 1], now, clocks);
      if 0 <= k < |table| then before[k := SweepRow(before[k], now, clocks[k])] else before
  }

  /** How many listed rows are in a set. */
  function CountIn(rows: seq<int>, hits: set<int>): nat {
    if rows == [] then 0
    else CountIn(rows[..|rows| - 1], hits) + (if rows[|rows| - 1] in hits then 1 else 0)
  }

  function WithFate(table: seq<Row>, now: Time, f: Fate): set<int> {
    set k | 0 <= k < |table| && FateOf(table[k], now) == f
  }

  /** How many listed rows meet a fate. */
  function CountFate(table: seq<Row>, rows: seq<int>, now: Time, f: Fate): nat {
    CountIn(rows, WithFate(table, now, f))
  }

  /** The rows of a tenant that meet a fate. */
  function Fated(table: seq<Row>, tenant: TenantId, now: Time, f: Fate): set<int> {
    set k | 0 <= k < |table| && table[k].tenant == tenant && FateOf(table[k], now) == f
  }

  /** A list without repetition changes each listed row once and no other. */
  lemma {:induction false} SweepListedAt(table: seq<Row>, rows: seq<int>, now: Time, clocks: seq<Time>, k: int)
    requires |clocks| == |table| && Increasing(rows) && 0 <= k < |table|
    ensures SweepListed(table, rows, now, clocks)[k] ==
            if k in rows then SweepRow(table[k], now, clocks[k]) else table[k]
  {
    if rows == [] {
    } else {
      var n := |rows| - 1;
      SweepListedAt(table, rows[..n], now, clocks, k);
      assert rows == rows[..n] + [rows[n]];
    }
  }

  /** The rows the sweep's query returns: the tenant's overdue ones. */
  ghost predicate IsQuery(table: seq<Row>, rows: seq<int>, tenant: TenantId, now: Time) {
    && Increasing(rows)
    && forall k :: k in rows <==> 0 <= k < |table| && table[k].tenant == tenant && Overdue(table[k].inst, now)
  }

  lemma QueriedInRange(table: seq<Row>, rows: seq<int>, tenant: TenantId, now: Time)
    requires IsQuery(table, rows, tenant, now)
    ensures forall i :: 0 <= i < |rows| ==> 0 <= rows[i] < |table| && Overdue(table[rows[i]].inst, now)
  {
    assert forall i :: 0 <= i < |rows| ==> rows[i] in rows;
  }

  /** One turn of the sweep's loop: the next listed row is still as it was, and is swept and counted. */
  lemma SweepListedStep(table: seq<Row>, rows: seq<int>, now: Time, clocks: seq<Time>, n: nat)
    requires |clocks| == |table| && Increasing(rows) && n < |rows| && 0 <= rows[n] < |table|
    ensures var k, before := rows[n], SweepListed(table, rows[..n], now, clocks);
            && before[k] == table[k]
            && SweepListed(table, rows[..n + 1], now, clocks) == before[k := SweepRow(table[k], now, clocks[k])]
            && forall f :: CountFate(table, rows[..n + 1], now, f) ==
                             CountFate(table, rows[..n], now, f) + (if FateOf(table[k], now) == f then 1 else 0)
  {
    assert rows[..n + 1][..n] == rows[..n];
    SweepListedAt(table, rows[..n], now, clocks, rows[n]);
  }

  /** The listed rows that are in a set. */
  function Hits(rows: seq<int>, hits: set<int>): set<int> {
    set k | k in rows && k in hits
  }

  lemma HitsAppend(rows: seq<int>, k: int, hits: set<int>)
    ensures Hits(rows + [k], hits) == if k in hits then Hits(rows, hits) + {k} else Hits(rows, hits)
  {
  }

  lemma {:induction false} CountInIsSize(rows: seq<int>, hits: set<int>)
    requires Increasing(rows)
    ensures CountIn(rows, hits) == |Hits(rows, hits)|
  {
    if rows == [] {
    } else {
      var n := |rows| - 1;
      CountInIsSize(rows[..n], hits);
      assert rows == rows[..n] + [rows[n]];
      HitsAppend(rows[..n], rows[n], hits);
      assert rows[n] !in rows[..n];
    }
  }

  /** Every row of the tenant has been swept and no other row touched. */
  ghost predicate SweptFor(before: seq<Row>, after: seq<Row>, tenant: TenantId, now: Time, clocks: seq<Time>) {
    && |clocks| == |before| == |after|
    && forall k :: 0 <= k < |before| ==>
         after[k] == if before[k].tenant == tenant then SweepRow(before[k], now, clocks[k]) else before[k]
  }

  function SweptTable(table: seq<Row>, tenant: TenantId, now: Time, clocks: seq<Time>): (r: seq<Row>)
    requires |clocks| == |table|
    ensures SweptFor(table, r, tenant, now, clocks)
  {
    seq(|table|, k requires 0 <= k < |table| =>
      if table[k].tenant == tenant then SweepRow(table[k], now, clocks[k]) else table[k])
  }

  lemma SweptForIsSwept(before: seq<Row>, after: seq<Row>, tenant: TenantId, now: Time, clocks: seq<Time>)
    requires SweptFor(before, after, tenant, now, clocks)
    ensures after == SweptTable(before, tenant, now, clocks)
  {
  }

  /** The counts of a swept query are those of the tenant's rows. */
  lemma SweepCounts(table: seq<Row>, rows: seq<int>, tenant: TenantId, now: Time, f: Fate)
    requires IsQuery(table, rows, tenant, now) && (f == Escalated || f == Reported)
    ensures CountFate(table, rows, now, f) == |Fated(table, tenant, now, f)|
  {
    CountInIsSize(rows, WithFate(table, now, f));
    assert Hits(rows, WithFate(table, now, f)) == Fated(table, tenant, now, f);
  }

  /**
   The sweep as a whole: every row of the tenant is swept and no other row is touched; the two
   counts are the numbers of rows escalated and reported.
   */
  lemma SweepOfQuery(table: seq<Row>, rows: seq<int>, tenant: TenantId, now: Time, clocks: seq<Time>)
    requires |clocks| == |table| && IsQuery(table, rows, tenant, now)
    ensures SweptFor(table, SweepListed(table, rows, now, clocks), tenant, now, clocks)
    ensures CountFate(table, rows, now, Escalated) == |Fated(table, tenant, now, Escalated)|
    ensures CountFate(table, rows, now, Reported) == |Fated(table, tenant, now, Reported)|
  {
    forall k | 0 <= k < |table|
      ensures SweepListed(table, rows, now, clocks)[k] ==
              if table[k].tenant == tenant then SweepRow(table[k], now, clocks[k]) else table[k]
    {
      SweepListedAt(table, rows, now, clocks, k);
    }
    SweepCounts(table, rows, tenant, now, Escalated);
    SweepCounts(table, rows, tenant, now, Reported);
  }

  /** After a sweep at `now` there is nothing left to escalate at `now`, and what is reported stays reported. */
  lemma NothingLeft(before: seq<Row>, after: seq<Row>, tenant: TenantId, now: Time, clocks: seq<Time>)
    requires SweptFor(before, after, tenant, now, clocks)
    ensures Fated(after, tenant, now, Escalated) == {}
    ensures Fated(after, tenant, now, Reported) == Fated(before, tenant, now, Reported)
  {
    forall k | 0 <= k < |before| && before[k].tenant == tenant
      ensures FateOf(after[k], now) != Escalated
      ensures FateOf(after[k], now) == Reported <==> FateOf(before[k], now) == Reported
    {
      SweepTwiceIsOnce(before[k].chain, before[k].inst, now, clocks[k], now);
    }
  }

  /* ---- Rows as runs ---- */

  /** How an instance came about: on which chain and when it was started, and what it was asked since. */
  datatype History = History(chain: Chain, started: Time, ops: seq<Op>)

  ghost predicate RunsAs(r: Row, h: History) {
    r.chain == h.chain && FirstNumber(h.chain).Some? && r.inst == Run(h.chain, h.started, h.ops).inst
  }

  /** Every row is what its history makes of it. */
  ghost predicate AllRun(table: seq<Row>, histories: seq<History>) {
    |histories| == |table| && forall k :: 0 <= k < |table| ==> RunsAs(table[k], histories[k])
  }

  function Asked(h: History, op: Op): History {
    h.(ops := h.ops + [op])
  }

  function RowAfter(r: Row, op: Op): Row {
    match Do(r.chain, r.inst, op)
    case Ok(i) => r.(inst := i)
    case Err(_) => r
  }

  lemma AskedRuns(r: Row, h: History, op: Op)
    requires RunsAs(r, h)
    ensures RunsAs(RowAfter(r, op), Asked(h, op))
  {
    assert (h.ops + [op])[..|h.ops|] == h.ops;
    ObserveIsDo(r.chain, Run(h.chain, h.started, h.ops), op);
  }

  lemma AskedAllRun(table: seq<Row>, histories: seq<History>, k: nat, op: Op)
    requires AllRun(table, histories) && k < |table|
    ensures AllRun(table[k := RowAfter(table[k], op)], histories[k := Asked(histories[k], op)])
  {
    AskedRuns(table[k], histories[k], op);
  }

  /** A fresh row, of which nothing was asked yet. */
  lemma StartedRuns(table: seq<Row>, histories: seq<History>, r: Row, now: Time)
    requires AllRun(table, histories) && Start(r.chain, now) == Ok(r.inst)
    ensures AllRun(table + [r], histories + [History(r.chain, now, [])])
  {
    assert RunsAs(r, History(r.chain, now, []));
  }

  /** A sweep is a request to escalate for each row it escalates, and none for the others. */
  function SweptHistory(r: Row, h: History, tenant: TenantId, now: Time, clock: Time): History {
    if r.tenant == tenant && Escalatable(r.chain, r.inst, now) then Asked(h, DoEscalate(None, clock)) else h
  }

  lemma SweptRuns(r: Row, h: History, tenant: TenantId, now: Time, clock: Time)
    requires RunsAs(r, h)
    ensures RunsAs(if r.tenant == tenant then SweepRow(r, now, clock) else r, SweptHistory(r, h, tenant, now, clock))
  {
    if r.tenant == tenant && Escalatable(r.chain, r.inst, now) {
      AskedRuns(r, h, DoEscalate(None, clock));
      SweepOneIsAnEscalation(r.chain, Run(h.chain, h.started, h.ops), now, clock);
    }
  }

  function SweptHistories(table: seq<Row>, histories: seq<History>, tenant: TenantId, now: Time,
          clocks: seq<Time>): (r: seq<History>)
    requires |table| == |histories| == |clocks|
    ensures |r| == |table|
  {
    seq(|table|, k requires 0 <= k < |table| => SweptHistory(table[k], histories[k], tenant, now, clocks[k]))
  }

  lemma SweepKeepsRuns(before: seq<Row>, after: seq<Row>, histories: seq<History>, tenant: TenantId, now: Time,
          clocks: seq<Time>)
    requires AllRun(before, histories) && SweptFor(before, after, tenant, now, clocks)
    ensures AllRun(after, SweptHistories(before, histories, tenant, now, clocks))
  {
    forall k | 0 <= k < |after|
      ensures RunsAs(after[k], SweptHistories(before, histories, tenant, now, clocks)[k])
    {
      SweptRuns(before[k], histories[k], tenant, now, clocks[k]);
    }
  }

  /** Rows stay under the tenant and the chain they started with. */
  ghost predicate SameChains(a: seq<Row>, b: seq<Row>) {
    |a| <= |b| && forall k :: 0 <= k < |a| ==> b[k].tenant == a[k].tenant && b[k].chain == a[k].chain
  }

  /** Nothing of the tenant is left to escalate, and what was reported still is. */
  ghost predicate Settled(before: seq<Row>, after: seq<Row>, tenant: TenantId, now: Time) {
    Fated(after, tenant, now, Escalated) == {}
        && Fated(after, tenant, now, Reported) == Fated(before, tenant, now, Reported)
  }

  lemma SweptSettles(table: seq<Row>, tenant: TenantId, now: Time, clocks: seq<Time>)
    requires |clocks| == |table|
    ensures Settled(table, SweptTable(table, tenant, now, clocks), tenant, now)
  {
    NothingLeft(table, SweptTable(table, tenant, now, clocks), tenant, now, clocks);
  }

  /** What sweeping the queried rows comes to. */
  lemma SweepOutcome(before: seq<Row>, rows: seq<int>, tenant: TenantId, now: Time, clocks: seq<Time>)
    requires |clocks| == |before| && IsQuery(before, rows, tenant, now)
    ensures SweepListed(before, rows, now, clocks) == SweptTable(before, tenant, now, clocks)
    ensures CountFate(before, rows, now, Escalated) == |Fated(before, tenant, now, Escalated)|
    ensures CountFate(before, rows, now, Reported) == |Fated(before, tenant, now, Reported)|
  {
    SweepOfQuery(before, rows, tenant, now, clocks);
    SweptForIsSwept(before, SweepListed(before, rows, now, clocks), tenant, now, clocks);
  }
}
