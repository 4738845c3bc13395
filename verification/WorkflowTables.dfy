/**
 The engine's tables as one value, and what any calls in any order make of them: definitions,
 instances, and beside each instance what it has been asked.
 */
module WorkflowTables {
  import opened Wrappers
  import opened Timing
  import opened Identities
  import opened WorkflowSteps
  import opened WorkflowInstances
  import opened WorkflowSweep
  import opened WorkflowRegistry

  /** An instance as the sweep and the inbox see it. */
  function RowOf(d: DefRow, amount: Option<int>, i: Instance): Row {
    Row(d.key.tenant, Chain(d.draft.steps, amount), i)
  }

  /** A call of the engine's interface, with who makes it and the readings its clock gives. */
  datatype Call =
    | Change(change: RegistryOp, caller: UserId, now: Time)
    | Ask(k: nat, op: Op)
    | Sweep(tenant: TenantId, now: Time, clocks: seq<Time>)

  /** One history for each row, one row for each use of a definition. */
  datatype State = State(registry: Registry, table: seq<Row>, histories: seq<History>)

  const NOTHING: State := State(WorkflowRegistry.EMPTY, [], [])

  /** What one call makes of the tables; a call that names no instance, or not one reading each, is none. */
  function CallDo(s: State, call: Call): State {
    match call
    case Change(change, _, now) =>
      if change.Begin? && RegistryDo(s.registry, change).Ok? then
        var d := s.registry.defs[change.d];
        var chain := Chain(d.draft.steps, change.amount);
        State(After(s.registry, change),
              s.table + [RowOf(d, change.amount, Start(chain, now).value)],
              s.histories + [History(chain, now, [])])
      else
        s.(registry := After(s.registry, change))
    case Ask(k, op) =>
      if k < |s.table| == |s.histories| then
        s.(table := s.table[k := RowAfter(s.table[k], op)], histories := s.histories[k := Asked(s.histories[k], op)])
      else s
    case Sweep(tenant, now, clocks) =>
      if |clocks| == |s.table| == |s.histories| then
        s.(table := SweptTable(s.table, tenant, now, clocks),
           histories := SweptHistories(s.table, s.histories, tenant, now, clocks))
      else s
  }

  /** What calls leave, from empty tables. */
  function RunCalls(calls: seq<Call>): State {
    if calls == [] then NOTHING else CallDo(RunCalls(calls[..|calls| - 1]), calls[|calls| - 1])
  }

  /** Every row is the run, on the chain it was started on, of what it was asked since. */
  lemma CallKeepsRuns(s: State, call: Call)
    requires AllRun(s.table, s.histories)
    ensures AllRun(CallDo(s, call).table, CallDo(s, call).histories)
  {
    match call
    case Change(change, _, now) =>
      if change.Begin? && RegistryDo(s.registry, change).Ok? {
        var d := s.registry.defs[change.d];
        var chain := Chain(d.draft.steps, change.amount);
        StartedRuns(s.table, s.histories, RowOf(d, change.amount, Start(chain, now).value), now);
      }
    case Ask(k, op) =>
      if k < |s.table| {
        AskedAllRun(s.table, s.histories, k, op);
      }
    case Sweep(tenant, now, clocks) =>
      if |clocks| == |s.table| {
        SweepKeepsRuns(s.table, SweptTable(s.table, tenant, now, clocks), s.histories, tenant, now, clocks);
      }
  }

  /** What a sweep makes of the tables. */
  lemma SweepCall(s: State, tenant: TenantId, now: Time, clocks: seq<Time>)
    requires AllRun(s.table, s.histories) && |clocks| == |s.table|
    ensures var t := CallDo(s, Sweep(tenant, now, clocks));
            && t.registry == s.registry && t.table == SweptTable(s.table, tenant, now, clocks)
            && AllRun(t.table, t.histories)
            && SweptFor(s.table, t.table, tenant, now, clocks) && Settled(s.table, t.table, tenant, now)
  {
    SweptSettles(s.table, tenant, now, clocks);
    CallKeepsRuns(s, Sweep(tenant, now, clocks));
  }

  lemma CallKeepsChains(s: State, call: Call)
    ensures SameChains(s.table, CallDo(s, call).table)
  {
  }

  /** Whatever the calls, every instance is a run, so the theorems about runs are about every row. */
  lemma {:induction false} EveryRowIsARun(calls: seq<Call>)
    ensures AllRun(RunCalls(calls).table, RunCalls(calls).histories)
  {
    if calls == [] {
    } else {
      EveryRowIsARun(calls[..|calls| - 1]);
      CallKeepsRuns(RunCalls(calls[..|calls| - 1]), calls[|calls| - 1]);
    }
  }

  /** And no later call moves an instance to another tenant or chain. */
  lemma {:induction false} ChainsStay(calls: seq<Call>, n: nat)
    requires n <= |calls|
    ensures SameChains(RunCalls(calls[..n]).table, RunCalls(calls).table)
    decreases |calls|
  {
    if n == |calls| {
      assert calls[..n] == calls;
    } else {
      var front := calls[..|calls| - 1];
      assert front[..n] == calls[..n];
      ChainsStay(front, n);
      CallKeepsChains(RunCalls(front), calls[|calls| - 1]);
    }
  }

  /** The calls that concern the registry: the definitions, and what is started under them. */
  function Changes(calls: seq<Call>): seq<RegistryOp> {
    if calls == [] then []
    else
      var call, before := calls[|calls| - 1], Changes(calls[..|calls| - 1]);
      if call.Change? then before + [call.change] else before
  }

  /** The registry is the run of these alone, so the theorems about registries are about every engine's. */
  lemma {:induction false} RegistryIsARun(calls: seq<Call>)
    ensures RunCalls(calls).registry == RunRegistry(WorkflowRegistry.EMPTY, Changes(calls))
  {
    if calls == [] {
    } else {
      var front, call := calls[..|calls| - 1], calls[|calls| - 1];
      RegistryIsARun(front);
      if call.Change? {
        assert Changes(calls)[..|Changes(front)|] == Changes(front);
      }
    }
  }

  /** The requests sent to instance k, in order. */
  function SentTo(calls: seq<Call>, k: nat): seq<Op> {
    if calls == [] then []
    else
      var call, before := calls[|calls| - 1], SentTo(calls[..|calls| - 1], k);
      if call.Ask? && call.k == k then before + [call.op] else before
  }

  /** Requests other than the scheduler's escalations. */
  function ByPeople(ops: seq<Op>): seq<Op> {
    if ops == [] then []
    else
      var op, before := ops[|ops| - 1], ByPeople(ops[..|ops| - 1]);
      if op.DoEscalate? && op.caller.None? then before else before + [op]
  }

  lemma ByPeopleAppend(ops: seq<Op>, op: Op)
    ensures ByPeople(ops + [op]) == if op.DoEscalate? && op.caller.None? then ByPeople(ops) else ByPeople(ops) + [op]
  {
    assert (ops + [op])[..|ops|] == ops;
  }

  /** One more call on one row: its history gains exactly the request sent to it, or an escalation by the scheduler. */
  lemma HistoryGains(s: State, call: Call, k: nat)
    requires AllRun(s.table, s.histories) && k < |s.table|
    ensures var t := CallDo(s, call);
            && k < |t.histories|
            && ByPeople(t.histories[k].ops) ==
               if call.Ask? && call.k == k then ByPeople(s.histories[k].ops + [call.op])
               else ByPeople(s.histories[k].ops)
  {
    if call.Sweep? && |call.clocks| == |s.table| {
      ByPeopleAppend(s.histories[k].ops, DoEscalate(None, call.clocks[k]));
    }
  }

  lemma SentToAppend(calls: seq<Call>, call: Call, k: nat)
    ensures SentTo(calls + [call], k) ==
            if call.Ask? && call.k == k then SentTo(calls, k) + [call.op] else SentTo(calls, k)
  {
    assert (calls + [call])[..|calls|] == calls;
  }

  /** What more is sent, and what more is kept, are the same. */
  lemma GainedAlike(kept: seq<Op>, start: seq<Op>, sent: seq<Op>, op: Op)
    requires ByPeople(kept) == start + ByPeople(sent)
    ensures ByPeople(kept + [op]) == start + ByPeople(sent + [op])
  {
    ByPeopleAppend(kept, op);
    ByPeopleAppend(sent, op);
  }

  /**
   Nothing is lost and nothing added: from the time instance k is there, what people ask of it is what
   its history gains, in that order; the rest of the history are the scheduler's escalations.
   */
  lemma {:induction false} HistoriesAreTheCalls(calls: seq<Call>, n: nat, k: nat)
    requires n <= |calls| && k < |RunCalls(calls[..n]).histories|
    ensures k < |RunCalls(calls).histories|
    ensures ByPeople(RunCalls(calls).histories[k].ops) ==
            ByPeople(RunCalls(calls[..n]).histories[k].ops) + ByPeople(SentTo(calls[n..], k))
    decreases |calls|
  {
    if n == |calls| {
      assert calls[..n] == calls && calls[n..] == [];
    } else {
      var front, call := calls[..|calls| - 1], calls[|calls| - 1];
      var start := ByPeople(RunCalls(calls[..n]).histories[k].ops);
      assert front[..n] == calls[..n];
      assert calls[n..] == front[n..] + [call];
      HistoriesAreTheCalls(front, n, k);
      EveryRowIsARun(front);
      HistoryGains(RunCalls(front), call, k);
      SentToAppend(front[n..], call, k);
      if call.Ask? && call.k == k {
        GainedAlike(RunCalls(front).histories[k].ops, start, SentTo(front[n..], k), call.op);
      }
    }
  }
}
