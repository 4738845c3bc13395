/**
 What the calls on definitions and tables do, as their caller sees them: when each is accepted, which rows it
 writes and which it leaves.
 */
module WorkflowCallOutcomes {
  import opened Wrappers
  import opened Identities
  import opened Timing
  import opened WorkflowSteps
  import opened WorkflowInstances
  import opened WorkflowOutcomes
  import opened WorkflowSweep
  import opened WorkflowRegistry
  import opened WorkflowTables

  /** The definitions of a key so far. */
  ghost function OfKey(defs: seq<DefRow>, key: Key): set<int> {
    set i | 0 <= i < |defs| && defs[i].key == key
  }

  lemma {:induction false} CountIsSize(defs: seq<DefRow>, key: Key)
    ensures CountKey(defs, key) == |OfKey(defs, key)|
  {
    if defs == [] {
    } else {
      var n := |defs| - 1;
      CountIsSize(defs[..n], key);
      assert OfKey(defs, key) == OfKey(defs[..n], key) + (if defs[n].key == key then {n} else {});
    }
  }

  /** A new definition is inactive, the next version of its key, by its author, and behind all others. */
  lemma CreateLeads(r: Registry, key: Key, draft: Draft, author: UserId)
    ensures RegistryDo(r, Create(key, draft, author)).Ok?
    ensures var s := After(r, Create(key, draft, author));
            && s.uses == r.uses && |s.defs| == |r.defs| + 1 && s.defs[..|r.defs|] == r.defs
            && s.defs[|r.defs|] == DefRow(key, false, |OfKey(r.defs, key)| + 1, draft, author, None)
  {
    CountIsSize(r.defs, key);
  }

  /** Switching one definition on switches its siblings off, and switching one off touches no other. */
  lemma SwitchLeads(r: Registry, op: RegistryOp, i: nat)
    requires (op.Activate? || op.Deactivate?) && i < |r.defs|
    ensures RegistryDo(r, op).Ok? <==> op.d < |r.defs|
    ensures RegistryDo(r, op).Err? ==> RegistryDo(r, op) == Err(NotFound)
    ensures RegistryDo(r, op).Ok? ==>
              var s, before := After(r, op), r.defs[i];
              && s.uses == r.uses && |s.defs| == |r.defs|
              && s.defs[i] == before.(
                   active := if i == op.d then op.Activate?
                             else before.active && (op.Deactivate? || before.key != r.defs[op.d].key),
                   updatedBy := if i == op.d && op.actor.Some? then op.actor else before.updatedBy)
  {
  }

  /** Why an edit is refused, or None. */
  ghost function UpdateRefusal(r: Registry, d: nat): Option<RegistryError> {
    if d >= |r.defs| then Some(NotFound)
    else if r.defs[d].active then Some(ActiveNotEditable)
    else if exists k :: 0 <= k < |r.uses| && r.uses[k] == d then Some(UsedNotEditable)
    else None
  }

  lemma UpdateRefused(r: Registry, d: nat, edit: Edit, actor: Option<UserId>)
    ensures match UpdateRefusal(r, d)
            case Some(e) => RegistryDo(r, Update(d, edit, actor)) == Err(e)
            case None => RegistryDo(r, Update(d, edit, actor)).Ok?
  {
    if d in r.uses {
      var k :| 0 <= k < |r.uses| && r.uses[k] == d;
    }
  }

  /** Some step with a positive number is in force. */
  ghost predicate Startable(c: Chain) {
    exists n, s :: n > 0 && InForce(c, n, s)
  }

  lemma StartableIsStart(c: Chain)
    ensures Startable(c) <==> FirstNumber(c).Some?
  {
    NextIsNextInForce(c, 0);
    if FirstNumber(c).Some? {
      var s :| InForce(c, FirstNumber(c).value, s);
    }
  }

  /** What a submission adds: a pending instance of the definition's tenant on its first step in force, due from now. */
  ghost predicate Begun(r: Row, d: DefRow, amount: Option<int>, now: Time) {
    && r.tenant == d.key.tenant && r.chain == Chain(d.draft.steps, amount)
    && NextInForce(r.chain, 0, r.inst.current) && DueAfter(r.chain, r.inst.current, now, r.inst.dueAt)
    && r.inst.status == Pending && r.inst.escalatedAt.None? && r.inst.log == []
  }

  /** A submission is accepted exactly when the definition is there and some step of it applies to the amount. */
  lemma BeginLeads(s: State, d: nat, amount: Option<int>, caller: UserId, now: Time)
    ensures var op, t := Begin(d, amount), CallDo(s, Change(Begin(d, amount), caller, now));
            && (RegistryDo(s.registry, op).Ok? <==>
                  d < |s.registry.defs| && Startable(Chain(s.registry.defs[d].draft.steps, amount)))
            && (RegistryDo(s.registry, op).Err? ==>
                  && t == s
                  && RegistryDo(s.registry, op).error == if d < |s.registry.defs| then NothingApplies else NotFound)
            && (RegistryDo(s.registry, op).Ok? ==>
                  && t.registry == s.registry.(uses := s.registry.uses + [d])
                  && |t.table| == |s.table| + 1 && t.table[..|s.table|] == s.table
                  && Begun(t.table[|s.table|], s.registry.defs[d], amount, now))
  {
    if d < |s.registry.defs| {
      var chain := Chain(s.registry.defs[d].draft.steps, amount);
      StartableIsStart(chain);
      StartLeads(chain, now);
    }
  }

  /** A request reaches one row, which keeps its tenant and chain; a refused one reaches none. */
  lemma AskLeads(s: State, k: nat, op: Op)
    requires k < |s.table| == |s.histories|
    ensures var t, r := CallDo(s, Ask(k, op)), s.table[k];
            && t.registry == s.registry
            && (Do(r.chain, r.inst, op).Err? ==> t.table == s.table)
            && (Do(r.chain, r.inst, op).Ok? ==>
                  t.table == s.table[k := Row(r.tenant, r.chain, Do(r.chain, r.inst, op).value)])
  {
  }
}
