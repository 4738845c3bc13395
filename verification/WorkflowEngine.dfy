/**
 The engine as the program has it: definition and instance objects whose fields the operations
 assign, the overdue sweep over all instances of a tenant, the inbox, and the definition registry.
 Every method is tied to the value-level operations whose whole-run properties are proved elsewhere.
 */
module WorkflowEngine {
  import opened Wrappers
  import opened Identities
  import opened Timing
  import opened WorkflowSteps
  import opened WorkflowInstances
  import opened WorkflowOutcomes
  import opened WorkflowSweep
  import opened WorkflowSweepOutcomes
  import opened WorkflowRegistry
  import opened WorkflowTables

  class WorkflowDefinition {
    const key: Key
    const version: nat
    const createdBy: UserId
    var active: bool
    var workflowName: string
    var description: Option<string>
    var steps: seq<Step>
    var updatedBy: Option<UserId>

    constructor (key: Key, version: nat, draft: Draft, createdBy: UserId)
      ensures Row() == DefRow(key, false, version, draft, createdBy, None)
    {
      this.key, this.version, this.createdBy := key, version, createdBy;
      active, workflowName, description, steps := false, draft.name, draft.description, draft.steps;
      updatedBy := None;
    }

    function Row(): DefRow
      reads this
    {
      DefRow(key, active, version, Draft(workflowName, description, steps), createdBy, updatedBy)
    }

    method Sign(actor: Option<UserId>)
      modifies this`updatedBy
      ensures Row() == Stamp(old(Row()), actor)
    {
      if actor.Some? {
        updatedBy := actor;
      }
    }

    method Revise(e: Edit)
      modifies this
      ensures Row() == old(Row()).(draft := Apply(old(Row()).draft, e))
    {
      if e.name.Some? {
        workflowName := e.name.value;
      }
      if e.description.Some? {
        description := e.description;
      }
      if e.steps.Some? {
        steps := e.steps.value;
      }
    }
  }

  class WorkflowInstance {
    const workflow: WorkflowDefinition
    const amount: Option<int>
    const initiatedBy: UserId
    var status: Status
    var currentStepNumber: int
    var stepDueAt: Option<Time>
    var escalatedAt: Option<Time>
    var actions: seq<Action>

    /** A new row, standing on step number `first`. */
    constructor (workflow: WorkflowDefinition, amount: Option<int>, initiatedBy: UserId, first: int, now: Time)
      ensures this.workflow == workflow && this.amount == amount && this.initiatedBy == initiatedBy
      ensures View() == Instance(Pending, first, DueAt(Chain(workflow.steps, amount), first, now), None, [])
    {
      this.workflow, this.amount, this.initiatedBy := workflow, amount, initiatedBy;
      status, currentStepNumber, escalatedAt, actions := Pending, first, None, [];
      stepDueAt := DueAt(Chain(workflow.steps, amount), first, now);
    }

    function View(): Instance
      reads this
    {
      Instance(status, currentStepNumber, stepDueAt, escalatedAt, actions)
    }

    function OwnChain(): Chain
      reads workflow
    {
      Chain(workflow.steps, amount)
    }

    /** The instance as the overdue sweep sees it. */
    function TableRow(): Row
      reads this, workflow
    {
      Row(workflow.key.tenant, OwnChain(), View())
    }

    /** The step through which this user may act on the current group, if any. */
    method FindActionableStep(user: UserId, role: Option<RoleId>) returns (found: Option<Step>)
      ensures found == FindActionable(OwnChain(), View(), user, role)
    {
      var candidates := At(OwnChain(), currentStepNumber);
      var delegated := Delegates(actions, currentStepNumber);
      ghost var right, target := ByRight(user in delegated, user, role), ByEscalation(user, role);
      for k := 0 to |candidates|
        invariant forall j :: 0 <= j < k ==> !right(candidates[j])
      {
        if user in delegated || Configured(candidates[k], user, role) {
          FirstWhereAt(candidates, right, k);
          return Some(candidates[k]);
        }
      }
      FirstWhereAt(candidates, right, |candidates|);
      if escalatedAt.Some? {
        for k := 0 to |candidates|
          invariant forall j :: 0 <= j < k ==> !target(candidates[j])
        {
          if EscalatesTo(candidates[k], user, role) {
            FirstWhereAt(candidates, target, k);
            return Some(candidates[k]);
          }
        }
        FirstWhereAt(candidates, target, |candidates|);
      }
      return None;
    }

    method MoveTo(number: int, now: Time)
      modifies this
      ensures View() == EnterStep(OwnChain(), old(View()), number, now)
    {
      currentStepNumber := number;
      stepDueAt := DueAt(OwnChain(), number, now);
      escalatedAt := None;
    }

    method Record(kind: ActionType, actor: UserId, newStatus: Option<Status>, delegatedTo: Option<UserId>)
      modifies this`actions
      ensures var oldStatus := if kind == Comment then None else Some(status);
              actions == old(actions) + [Action(currentStepNumber, kind, actor, oldStatus, newStatus, delegatedTo)]
    {
      var oldStatus := if kind == Comment then None else Some(status);
      actions := actions + [Action(currentStepNumber, kind, actor, oldStatus, newStatus, delegatedTo)];
    }

    method ApproveStep(actor: UserId, role: Option<RoleId>, now: Time) returns (r: Outcome<Error>)
      modifies this
      ensures Performed(OwnChain(), old(View()), DoApprove(actor, role, now), r, View())
      ensures r == Pass && status == Pending ==> DueAfter(OwnChain(), currentStepNumber, now, stepDueAt)
    {
      EnteredAtTheMoment(OwnChain(), View(), DoApprove(actor, role, now));
      if status != Pending {
        return Fail(NotPending(status));
      }
      var step := FindActionableStep(actor, role);
      if step.None? {
        return Fail(NotAnApprover);
      }
      Record(Approve, actor, Some(status), None);

      var required := At(OwnChain(), currentStepNumber);
      var allSatisfied := true;
      for k := 0 to |required|
        invariant allSatisfied <==> forall j :: 0 <= j < k ==> Logged(actions, required[j].number, Approve)
      {
        allSatisfied := allSatisfied && Logged(actions, required[k].number, Approve);
      }
      assert allSatisfied <==> AllSatisfied(OwnChain(), currentStepNumber, actions);
      if allSatisfied {
        var next := NextNumber(OwnChain(), currentStepNumber);
        if next.None? {
          status, stepDueAt := Approved, None;
        } else {
          MoveTo(next.value, now);
        }
      }
      return Pass;
    }

    method RejectStep(actor: UserId, role: Option<RoleId>, now: Time) returns (r: Outcome<Error>)
      modifies this
      ensures Performed(OwnChain(), old(View()), DoReject(actor, role, now), r, View())
      ensures r == Pass && status == Pending ==> DueAfter(OwnChain(), currentStepNumber, now, stepDueAt)
    {
      EnteredAtTheMoment(OwnChain(), View(), DoReject(actor, role, now));
      if status != Pending {
        return Fail(NotPending(status));
      }
      var step := FindActionableStep(actor, role);
      if step.None? {
        return Fail(NotAnApprover);
      }
      FindActionableDecides(OwnChain(), View(), actor, role);
      var oldStatus, newStatus := status, Pending;
      if step.value.rejectTo.Some? {
        MoveTo(step.value.rejectTo.value, now);
      } else {
        status, stepDueAt, newStatus := Rejected, None, Rejected;
      }
      actions := actions + [Action(step.value.number, Reject, actor, Some(oldStatus), Some(newStatus), None)];
      return Pass;
    }

    method DelegateStep(actor: UserId, role: Option<RoleId>, to: UserId) returns (r: Outcome<Error>)
      modifies this
      ensures Performed(OwnChain(), old(View()), DoDelegate(actor, role, to), r, View())
    {
      if status != Pending {
        return Fail(NotPending(status));
      }
      var step := FindActionableStep(actor, role);
      if step.None? {
        return Fail(NotAnApprover);
      }
      Record(Delegate, actor, Some(status), Some(to));
      return Pass;
    }

    method CancelInstance(actor: UserId) returns (r: Outcome<Error>)
      modifies this
      ensures Performed(OwnChain(), old(View()), DoCancel(actor), r, View())
    {
      if status != Pending {
        return Fail(NotPending(status));
      }
      var oldStatus := status;
      status, stepDueAt := Cancelled, None;
      actions := actions + [Action(currentStepNumber, Cancel, actor, Some(oldStatus), Some(Cancelled), None)];
      return Pass;
    }

    method AddComment(actor: UserId) returns (r: Outcome<Error>)
      modifies this
      ensures Performed(OwnChain(), old(View()), DoComment(actor), r, View())
    {
      Record(Comment, actor, None, None);
      return Pass;
    }

    method EscalateInstance(caller: Option<UserId>, clock: Time) returns (r: Outcome<Error>)
      modifies this
      ensures Performed(OwnChain(), old(View()), DoEscalate(caller, clock), r, View())
    {
      if status != Pending {
        return Fail(NotPending(status));
      }
      if escalatedAt.Some? {
        return Fail(AlreadyEscalated);
      }
      if !HasTarget(OwnChain(), currentStepNumber) {
        return Fail(NoEscalationTarget);
      }
      escalatedAt := Some(clock);
      Record(Escalate, if caller.Some? then caller.value else SYSTEM_ACTOR_ID, Some(status), None);
      return Pass;
    }
  }

  /** The row belongs in this user's inbox: of the tenant, pending, and theirs to decide. */
  ghost predicate Shown(r: Row, tenant: TenantId, user: UserId, role: Option<RoleId>) {
    r.tenant == tenant && r.inst.status == Pending && Entitled(r.chain, r.inst, user, role)
  }

  /** A new instance object, standing on the first number of its chain. */
  method NewInstance(workflow: WorkflowDefinition, amount: Option<int>, initiatedBy: UserId, first: int, now: Time)
    returns (i: WorkflowInstance)
    requires FirstNumber(Chain(workflow.steps, amount)) == Some(first)
    ensures fresh(i) && i.amount == amount && i.initiatedBy == initiatedBy && i.workflow == workflow
    ensures Start(i.OwnChain(), now) == Ok(i.View())
  {
    i := new WorkflowInstance(workflow, amount, initiatedBy, first, now);
  }

  lemma AppendedInOrder(rows: seq<int>, k: int)
    requires Increasing(rows) && forall j :: j in rows ==> j < k
    ensures Increasing(rows + [k])
    ensures forall j :: j in rows + [k] <==> j in rows || j == k
  {
    assert forall i :: 0 <= i < |rows| ==> rows[i] in rows;
  }

  /** The rows, in order, among the first k that belong in this user's inbox. */
  ghost predicate IsInbox(table: seq<Row>, rows: seq<int>, k: nat, tenant: TenantId, user: UserId, role: Option<RoleId>)
    requires k <= |table|
  {
    Increasing(rows) && forall j :: j in rows <==> 0 <= j < k && Shown(table[j], tenant, user, role)
  }

  lemma InboxNext(table: seq<Row>, rows: seq<int>, k: nat, tenant: TenantId, user: UserId, role: Option<RoleId>)
    requires k < |table| && IsInbox(table, rows, k, tenant, user, role)
    ensures IsInbox(table, if Shown(table[k], tenant, user, role) then rows + [k] else rows, k + 1, tenant, user, role)
  {
    AppendedInOrder(rows, k);
  }

  /** One request to an instance, whichever it is. */
  method Handle(i: WorkflowInstance, op: Op) returns (r: Outcome<Error>)
    modifies i
    ensures Performed(i.OwnChain(), old(i.View()), op, r, i.View())
  {
    match op {
      case DoApprove(actor, role, now) => r := i.ApproveStep(actor, role, now);
      case DoReject(actor, role, now) => r := i.RejectStep(actor, role, now);
      case DoDelegate(actor, role, to) => r := i.DelegateStep(actor, role, to);
      case DoCancel(actor) => r := i.CancelInstance(actor);
      case DoComment(actor) => r := i.AddComment(actor);
      case DoEscalate(caller, now) => r := i.EscalateInstance(caller, now);
    }
  }

  /**
   An instance object that receives requests, in any order, goes through the runs the whole-run theorems are
   about.
   */
  method HandleAll(i: WorkflowInstance, ops: seq<Op>, ghost t: Trace)
    requires t.inst == i.View()
    modifies i
    ensures i.View() == Continue(i.OwnChain(), t, ops).inst
  {
    for n := 0 to |ops|
      invariant i.View() == Continue(i.OwnChain(), t, ops[..n]).inst
    {
      assert ops[..n + 1][..n] == ops[..n];
      ObserveIsDo(i.OwnChain(), Continue(i.OwnChain(), t, ops[..n]), ops[n]);
      var r := Handle(i, ops[n]);
    }
    assert ops[..|ops|] == ops;
  }

  function FateAfter(r: Outcome<Error>): Fate {
    match r
    case Pass => Escalated
    case Fail(e) => Failed(e)
  }

  /** The tables of the engine. */
  class Engine {
    var definitions: seq<WorkflowDefinition>
    var instances: seq<WorkflowInstance>
    /** The definitions, and the definition of each instance, as values. */
    ghost var registry: Registry
    /** The instances as values, and what each has been asked so far. */
    ghost var table: seq<Row>
    ghost var histories: seq<History>

    /** The definition objects are the registry's rows. */
    ghost predicate Registered()
      reads `definitions, `registry, definitions
    {
      && (forall i, j :: 0 <= i < j < |definitions| ==> definitions[i] != definitions[j])
      && |registry.defs| == |definitions|
      && forall i :: 0 <= i < |definitions| ==> registry.defs[i] == definitions[i].Row()
    }

    /** The instances point to them. */
    ghost predicate Linked()
      reads `definitions, `instances, `registry
    {
      && (forall i, j :: 0 <= i < j < |instances| ==> instances[i] != instances[j])
      && |registry.uses| == |instances|
      && forall k :: 0 <= k < |instances| ==>
           registry.uses[k] < |definitions| && instances[k].workflow == definitions[registry.uses[k]]
    }

    /** The instance objects are the rows of the table. */
    ghost predicate Mirrored()
      reads `instances, `registry, `table, instances
    {
      && |table| == |registry.uses| == |instances|
      && forall k :: 0 <= k < |instances| ==>
           && registry.uses[k] < |registry.defs|
           && table[k] == RowOf(registry.defs[registry.uses[k]], instances[k].amount, instances[k].View())
    }

    ghost predicate Tabled()
      reads `definitions, `instances, `registry, `table, definitions, instances
    {
      Registered() && Linked() && Mirrored()
    }

    /** And every instance is the run, on its own chain, of what it was asked since it was started. */
    ghost predicate Valid()
      reads this, definitions, instances
    {
      Tabled() && AllRun(table, histories)
    }

    constructor ()
      ensures Valid() && Tables() == NOTHING && definitions == [] && instances == []
    {
      definitions, instances, registry, table, histories := [], [], EMPTY, [], [];
    }

    ghost function Tables(): State
      reads `registry, `table, `histories
    {
      State(registry, table, histories)
    }

    lemma RowIs(k: nat)
      requires Tabled() && k < |instances|
      ensures instances[k].TableRow() == table[k] && instances[k].OwnChain() == table[k].chain
    {
    }

    /* ---- Definitions ---- */

    method CountVersions(key: Key) returns (existing: nat)
      requires Registered()
      ensures existing == CountKey(registry.defs, key)
    {
      existing := 0;
      for i := 0 to |definitions|
        invariant existing == CountKey(registry.defs[..i], key)
      {
        assert registry.defs[..i + 1][..i] == registry.defs[..i];
        if definitions[i].key == key {
          existing := existing + 1;
        }
      }
      assert registry.defs[..|definitions|] == registry.defs;
    }

    /** Brings the registry up to the definition objects, when those in use have kept their key and draft. */
    ghost method Restate(defs: seq<DefRow>)
      requires Linked() && Mirrored() && AllRun(table, histories)
      requires forall i, j :: 0 <= i < j < |definitions| ==> definitions[i] != definitions[j]
      requires |registry.defs| <= |defs| == |definitions|
      requires forall i :: 0 <= i < |definitions| ==> defs[i] == definitions[i].Row()
      requires forall k :: 0 <= k < |registry.uses| ==>
                 && defs[registry.uses[k]].key == registry.defs[registry.uses[k]].key
                 && defs[registry.uses[k]].draft == registry.defs[registry.uses[k]].draft
      modifies `registry
      ensures Valid() && registry == old(registry).(defs := defs)
    {
      registry := registry.(defs := defs);
    }

    method CreateDefinition(key: Key, draft: Draft, createdBy: UserId) returns (d: nat)
      requires Valid()
      modifies `definitions, `registry
      ensures Valid() && RegistryDo(old(registry), Create(key, draft, createdBy)) == Ok(registry)
      ensures d == |old(definitions)| && |definitions| == d + 1
      ensures definitions[..d] == old(definitions) && fresh(definitions[d])
    {
      var existing := CountVersions(key);
      var definition := new WorkflowDefinition(key, existing + 1, draft, createdBy);
      d := |definitions|;
      definitions := definitions + [definition];
      Restate(registry.defs + [definition.Row()]);
    }

    /** No instance has ever run under definition d. */
    method Unused(d: nat) returns (unused: bool)
      requires Tabled() && d < |definitions|
      ensures unused <==> d !in registry.uses
    {
      for k := 0 to |instances|
        invariant d !in registry.uses[..k]
      {
        if instances[k].workflow == definitions[d] {
          assert registry.uses[k] == d;
          return false;
        }
        assert registry.uses[..k + 1] == registry.uses[..k] + [registry.uses[k]];
      }
      assert registry.uses[..|instances|] == registry.uses;
      return true;
    }

    /** Revises a definition no instance runs under. */
    method Rewrite(d: nat, e: Edit, actor: Option<UserId>)
      requires Valid() && d < |definitions| && d !in registry.uses
      modifies definitions, `registry
      ensures Valid()
      ensures var row := old(registry).defs[d];
              registry == old(registry).(defs := Put(old(registry).defs, d, row.(draft := Apply(row.draft, e)), actor))
    {
      assert forall k :: 0 <= k < |instances| ==> registry.uses[k] in registry.uses;
      definitions[d].Revise(e);
      definitions[d].Sign(actor);
      Restate(registry.defs[d := definitions[d].Row()]);
    }

    method UpdateDefinition(d: nat, e: Edit, actor: Option<UserId>) returns (r: Outcome<RegistryError>)
      requires Valid()
      modifies definitions, `registry
      ensures Valid()
      ensures match RegistryDo(old(registry), Update(d, e, actor))
              case Ok(next) => r == Pass && registry == next
              case Err(e) => r == Fail(e) && registry == old(registry)
    {
      if d >= |definitions| {
        return Fail(NotFound);
      }
      if definitions[d].active {
        return Fail(ActiveNotEditable);
      }
      var unused := Unused(d);
      if !unused {
        return Fail(UsedNotEditable);
      }
      Rewrite(d, e, actor);
      return Pass;
    }

    /** Switches every active version of a definition off and this one on. */
    method SwitchOver(d: nat, actor: Option<UserId>)
      requires Registered() && d < |definitions|
      modifies definitions
      ensures forall j :: 0 <= j < |definitions| ==>
                definitions[j].Row() ==
                    Put(OnlyActive(registry.defs, d), d, registry.defs[d].(active := true), actor)[j]
    {
      for i := 0 to |definitions|
        invariant forall j :: 0 <= j < |definitions| ==>
                    definitions[j].Row() ==
                    if j < i && definitions[j].key == definitions[d].key then registry.defs[j].(active := false)
                    else registry.defs[j]
      {
        if definitions[i].key == definitions[d].key && definitions[i].active {
          definitions[i].active := false;
        }
      }
      definitions[d].active := true;
      definitions[d].Sign(actor);
    }

    method ActivateDefinition(d: nat, actor: Option<UserId>) returns (r: Outcome<RegistryError>)
      requires Valid()
      modifies definitions, `registry
      ensures Valid()
      ensures match RegistryDo(old(registry), Activate(d, actor))
              case Ok(next) => r == Pass && registry == next
              case Err(e) => r == Fail(e) && registry == old(registry)
    {
      if d >= |definitions| {
        return Fail(NotFound);
      }
      SwitchOver(d, actor);
      Restate(Put(OnlyActive(registry.defs, d), d, registry.defs[d].(active := true), actor));
      return Pass;
    }

    method DeactivateDefinition(d: nat, actor: Option<UserId>) returns (r: Outcome<RegistryError>)
      requires Valid()
      modifies definitions, `registry
      ensures Valid()
      ensures match RegistryDo(old(registry), Deactivate(d, actor))
              case Ok(next) => r == Pass && registry == next
              case Err(e) => r == Fail(e) && registry == old(registry)
    {
      if d >= |definitions| {
        return Fail(NotFound);
      }
      definitions[d].active := false;
      definitions[d].Sign(actor);
      Restate(registry.defs[d := definitions[d].Row()]);
      return Pass;
    }

    /* ---- Instances ---- */

    /** A new row at the end of the table. */
    method AddInstance(instance: WorkflowInstance, d: nat)
      requires Tabled() && instance !in instances && d < |definitions| && instance.workflow == definitions[d]
      modifies `instances, `registry, `table
      ensures Tabled() && instances == old(instances) + [instance]
      ensures registry == old(registry).(uses := old(registry).uses + [d])
              && table == old(table) + [instance.TableRow()]
    {
      instances := instances + [instance];
      registry := registry.(uses := registry.uses + [d]);
      table := table + [instance.TableRow()];
    }

    /** The new instance of an accepted submission, standing on its first number. */
    method Admit(d: nat, amount: Option<int>, initiatedBy: UserId, first: int, now: Time) returns (i: WorkflowInstance)
      requires Valid() && d < |definitions| && FirstNumber(Chain(definitions[d].steps, amount)) == Some(first)
      modifies `instances, `registry, `table, `histories
      ensures Valid() && fresh(i) && instances == old(instances) + [i] && table == old(table) + [i.TableRow()]
      ensures registry == old(registry).(uses := old(registry).uses + [d])
      ensures i.amount == amount && i.initiatedBy == initiatedBy && i.workflow == definitions[d]
      ensures Start(i.OwnChain(), now) == Ok(i.View()) && histories == old(histories) + [History(i.OwnChain(), now, [])]
    {
      i := NewInstance(definitions[d], amount, initiatedBy, first, now);
      StartedRuns(table, histories, i.TableRow(), now);
      histories := histories + [History(i.OwnChain(), now, [])];
      AddInstance(i, d);
    }

    method StartInstance(d: nat, amount: Option<int>, initiatedBy: UserId, now: Time)
      returns (r: Outcome<RegistryError>)
      requires Valid()
      modifies `instances, `registry, `table, `histories
      ensures Valid() && Tables() == CallDo(old(Tables()), Change(Begin(d, amount), initiatedBy, now))
      ensures match RegistryDo(old(registry), Begin(d, amount))
              case Err(e) => r == Fail(e) && instances == old(instances)
              case Ok(next) =>
                && r == Pass && instances != []
                && var i := Last(instances);
                   && fresh(i) && instances == old(instances) + [i]
                   && i.amount == amount && i.initiatedBy == initiatedBy && d < |definitions|
                       && i.workflow == definitions[d]
                   && Start(i.OwnChain(), now) == Ok(i.View())
    {
      if d >= |definitions| {
        return Fail(NotFound);
      }
      var first := FirstNumber(Chain(definitions[d].steps, amount));
      if first.None? {
        return Fail(NothingApplies);
      }
      var i := Admit(d, amount, initiatedBy, first.value, now);
      return Pass;
    }

    /** The row of one instance follows a request to it. */
    method Forward(k: nat, op: Op) returns (r: Outcome<Error>)
      requires Tabled() && k < |instances|
      modifies instances[k], `table
      ensures Tabled() && table == old(table)[k := RowAfter(old(table)[k], op)]
      ensures Performed(table[k].chain, old(table)[k].inst, op, r, table[k].inst)
    {
      RowIs(k);
      r := Handle(instances[k], op);
      table := table[k := RowAfter(table[k], op)];
    }

    /** One request to one instance. */
    method Request(k: nat, op: Op) returns (r: Outcome<Error>)
      requires Valid() && k < |instances|
      modifies instances[k], `table, `histories
      ensures Valid() && Tables() == CallDo(old(Tables()), Ask(k, op))
      ensures Performed(table[k].chain, old(table)[k].inst, op, r, table[k].inst)
    {
      AskedAllRun(table, histories, k, op);
      histories := histories[k := Asked(histories[k], op)];
      r := Forward(k, op);
    }

    method CheckInstance(k: nat, tenant: TenantId, user: UserId, role: Option<RoleId>) returns (shown: bool)
      requires Tabled() && k < |instances|
      ensures shown <==> Shown(table[k], tenant, user, role)
    {
      RowIs(k);
      if instances[k].workflow.key.tenant != tenant || instances[k].status != Pending {
        return false;
      }
      var step := instances[k].FindActionableStep(user, role);
      EntitledIsFound(instances[k].OwnChain(), instances[k].View(), user, role);
      return step.Some?;
    }

    /** The rows of a tenant's instances that this user can act on. */
    method GetPendingApprovals(tenant: TenantId, user: UserId, role: Option<RoleId>) returns (rows: seq<int>)
      requires Tabled()
      ensures IsInbox(table, rows, |table|, tenant, user, role)
    {
      rows := [];
      for k := 0 to |instances|
        invariant IsInbox(table, rows, k, tenant, user, role)
      {
        InboxNext(table, rows, k, tenant, user, role);
        var shown := CheckInstance(k, tenant, user, role);
        if shown {
          rows := rows + [k];
        }
      }
    }

    /* ---- The overdue sweep ---- */

    /** The rows of a tenant's pending, unescalated, past-due instances. */
    method OverdueRows(tenant: TenantId, now: Time) returns (rows: seq<int>)
      requires Tabled()
      ensures IsQuery(table, rows, tenant, now)
    {
      rows := [];
      for k := 0 to |instances|
        invariant Increasing(rows)
        invariant forall j :: j in rows <==> 0 <= j < k && table[j].tenant == tenant && Overdue(table[j].inst, now)
      {
        RowIs(k);
        AppendedInOrder(rows, k);
        if instances[k].workflow.key.tenant == tenant && Overdue(instances[k].View(), now) {
          rows := rows + [k];
        }
      }
    }

    /** The sweep on one overdue instance. */
    method SweepInstance(instance: WorkflowInstance, now: Time, clock: Time) returns (fate: Fate)
      requires Overdue(instance.View(), now)
      modifies instance
      ensures instance.TableRow() == SweepRow(old(instance.TableRow()), now, clock)
      ensures fate == FateOf(old(instance.TableRow()), now)
    {
      if !AutoEscalates(instance.OwnChain(), instance.currentStepNumber) {
        return Ignored;
      }
      if !HasTarget(instance.OwnChain(), instance.currentStepNumber) {
        return Reported;
      }
      var r := instance.EscalateInstance(None, clock);
      return FateAfter(r);
    }

    /** The sweep on one row leaves the other rows as they were. */
    method SweepAt(k: int, now: Time, clock: Time) returns (fate: Fate)
      requires Tabled()
      requires 0 <= k < |table| && Overdue(table[k].inst, now)
      modifies instances[k], `table
      ensures Tabled() && table == old(table)[k := SweepRow(old(table)[k], now, clock)]
      ensures fate == FateOf(old(table)[k], now)
    {
      RowIs(k);
      fate := SweepInstance(instances[k], now, clock);
      table := table[k := SweepRow(table[k], now, clock)];
    }

    /** The loop of the sweep over the rows the query returned. */
    method SweepRows(rows: seq<int>, tenant: TenantId, now: Time, clocks: seq<Time>)
      returns (escalated: nat, skippedNoTarget: nat, errors: seq<Error>)
      requires Tabled() && |clocks| == |table| && IsQuery(table, rows, tenant, now)
      modifies instances, `table
      ensures Tabled() && errors == []
      ensures table == SweepListed(old(table), rows, now, clocks)
      ensures escalated == CountFate(old(table), rows, now, Escalated)
      ensures skippedNoTarget == CountFate(old(table), rows, now, Reported)
    {
      ghost var before := table;
      QueriedInRange(before, rows, tenant, now);
      escalated, skippedNoTarget, errors := 0, 0, [];
      for n := 0 to |rows|
        invariant Tabled() && errors == []
        invariant table == SweepListed(before, rows[..n], now, clocks)
        invariant escalated == CountFate(before, rows[..n], now, Escalated)
        invariant skippedNoTarget == CountFate(before, rows[..n], now, Reported)
      {
        var k := rows[n];
        SweepListedStep(before, rows, now, clocks, n);
        var fate := SweepAt(k, now, clocks[k]);
        match fate {
          case Ignored =>
          case Reported => skippedNoTarget := skippedNoTarget + 1;
          case Escalated => escalated := escalated + 1;
          case Failed(e) => errors := errors + [e];
        }
      }
      assert rows[..|rows|] == rows;
    }

    /** Queries what is overdue and sweeps it. */
    method SweepTenant(tenant: TenantId, now: Time, clocks: seq<Time>)
      returns (escalated: nat, skippedNoTarget: nat, errors: seq<Error>)
      requires Tabled() && |clocks| == |table|
      modifies instances, `table
      ensures Tabled() && errors == []
      ensures table == SweptTable(old(table), tenant, now, clocks)
      ensures escalated == |Fated(old(table), tenant, now, Escalated)|
      ensures skippedNoTarget == |Fated(old(table), tenant, now, Reported)|
    {
      var rows := OverdueRows(tenant, now);
      SweepOutcome(table, rows, tenant, now, clocks);
      escalated, skippedNoTarget, errors := SweepRows(rows, tenant, now, clocks);
    }

    /** The sweep of a tenant as one call on the tables. */
    method SweepOverdue(tenant: TenantId, now: Time, clocks: seq<Time>)
      returns (escalated: nat, skippedNoTarget: nat, errors: seq<Error>)
      requires Valid() && |clocks| == |instances|
      modifies instances, `table, `histories
      ensures Valid() && errors == []
      ensures Tables() == CallDo(old(Tables()), Sweep(tenant, now, clocks))
      ensures Settled(old(table), table, tenant, now)
      ensures escalated == |Fated(old(table), tenant, now, Escalated)|
      ensures skippedNoTarget == |Fated(old(table), tenant, now, Reported)|
    {
      ghost var after := CallDo(Tables(), Sweep(tenant, now, clocks));
      SweepCall(Tables(), tenant, now, clocks);
      escalated, skippedNoTarget, errors := SweepTenant(tenant, now, clocks);
      assert table == after.table && registry == after.registry;
      histories := after.histories;
    }

    /** Sweeping twice at the same time escalates nothing the second time and reports the same number. */
    method SweepTwice(tenant: TenantId, now: Time, clocks: seq<Time>, later: seq<Time>)
      returns (first: nat, second: nat, skipped: nat, skippedAgain: nat)
      requires Valid() && |clocks| == |later| == |instances|
      modifies instances, `table, `histories
      ensures Valid() && second == 0 && skippedAgain == skipped
    {
      var errors;
      first, skipped, errors := SweepOverdue(tenant, now, clocks);
      assert instances == old(instances);
      second, skippedAgain, errors := SweepOverdue(tenant, now, later);
    }

    /**
     Escalates what is overdue. `clocks` holds the reading each escalation would take. No escalation
     it attempts is refused; exactly the rows to escalate are, and the counts are those of the rows to
     escalate and of the rows to report.
     */
    method EscalateOverdueInstances(tenant: TenantId, now: Time, clocks: seq<Time>)
      returns (escalated: nat, skippedNoTarget: nat, errors: seq<Error>)
      requires Valid() && |clocks| == |instances|
      modifies instances, `table, `histories
      ensures Valid() && errors == []
      ensures Tables() == CallDo(old(Tables()), Sweep(tenant, now, clocks))
      ensures SweptExactly(old(table), table, tenant, now, clocks) && Settled(old(table), table, tenant, now)
      ensures escalated == |Escalating(old(table), tenant, now)|
      ensures skippedNoTarget == |Reporting(old(table), tenant, now)|
    {
      ghost var after := CallDo(Tables(), Sweep(tenant, now, clocks));
      SweepCall(Tables(), tenant, now, clocks);
      SweepLeads(table, after.table, tenant, now, clocks);
      escalated, skippedNoTarget, errors := SweepOverdue(tenant, now, clocks);
    }

    /* ---- Everything at once ---- */

    method ChangeDefinition(change: RegistryOp)
      requires Valid() && (change.Update? || change.Activate? || change.Deactivate?)
      modifies definitions, `registry
      ensures Valid() && Tables() == old(Tables()).(registry := After(old(registry), change))
    {
      match change {
        case Update(d, e, actor) => var r := UpdateDefinition(d, e, actor);
        case Activate(d, actor) => var r := ActivateDefinition(d, actor);
        case Deactivate(d, actor) => var r := DeactivateDefinition(d, actor);
      }
    }

    method ChangeRegistry(change: RegistryOp, caller: UserId, now: Time)
      requires Valid()
      modifies `definitions, `instances, `registry, `table, `histories, definitions
      ensures Valid() && Tables() == CallDo(old(Tables()), Change(change, caller, now))
      ensures old(definitions) <= definitions && fresh(definitions[|old(definitions)|..])
      ensures old(instances) <= instances && fresh(instances[|old(instances)|..])
    {
      match change {
        case Create(key, draft, createdBy) =>
          var d := CreateDefinition(key, draft, createdBy);
        case Begin(d, amount) =>
          var r := StartInstance(d, amount, caller, now);
        case _ => ChangeDefinition(change);
      }
    }

    /** One call, whichever it is. */
    method Perform(call: Call)
      requires Valid()
      modifies this, definitions, instances
      ensures Valid() && Tables() == CallDo(old(Tables()), call)
      ensures old(definitions) <= definitions && fresh(definitions[|old(definitions)|..])
      ensures old(instances) <= instances && fresh(instances[|old(instances)|..])
    {
      match call {
        case Change(change, caller, now) => ChangeRegistry(change, caller, now);
        case Ask(k, op) => if k < |instances| { var r := Request(k, op); }
        case Sweep(tenant, now, clocks) =>
          if |clocks| == |instances| {
            var escalated, skipped, errors := EscalateOverdueInstances(tenant, now, clocks);
          }
      }
    }
  }

  lemma Appended<T>(a: seq<T>, b: seq<T>, c: seq<T>)
    requires a <= b <= c
    ensures c == a + c[|a|..] && c[|a|..] == b[|a|..] + c[|b|..]
  {
  }

  /**
   An engine that receives any calls, in any order, holds exactly what the calls make of empty tables.
   By `EveryRowIsARun` each of its rows is then a run of the requests sent to that instance, and by
   `RegistryIsARun` its definitions are a run of the changes.
   */
  method PerformAll(calls: seq<Call>) returns (engine: Engine)
    ensures fresh(engine) && engine.Valid() && engine.Tables() == RunCalls(calls)
  {
    engine := new Engine();
    for n := 0 to |calls|
      invariant engine.Valid() && engine.Tables() == RunCalls(calls[..n])
      invariant fresh(engine) && fresh(engine.definitions) && fresh(engine.instances)
    {
      ghost var definitions, instances := engine.definitions, engine.instances;
      assert calls[..n + 1][..n] == calls[..n];
      engine.Perform(calls[n]);
      Appended(definitions, definitions, engine.definitions);
      Appended(instances, instances, engine.instances);
    }
    assert calls[..|calls|] == calls;
  }
}
