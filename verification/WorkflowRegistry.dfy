/**
 The versioned registry of workflow definitions: creating, editing, activating and deactivating
 them, and starting instances under them.
 */
module WorkflowRegistry {
  import opened Wrappers
  import opened Identities
  import opened WorkflowSteps

  /** What a definition is a version of. */
  datatype Key = Key(tenant: TenantId, moduleName: string, entityType: string)

  /** What a definition is called and the steps it lists: the part an edit may replace. */
  datatype Draft = Draft(name: string, description: Option<string>, steps: seq<Step>)

  /** `createdBy` and `updatedBy` say who made the definition and who, if known, changed it last. */
  datatype DefRow = DefRow(
    key: Key, active: bool, version: nat, draft: Draft, createdBy: UserId, updatedBy: Option<UserId>)

  /** An edit: each part is replaced when given, and a description cannot be taken away again. */
  datatype Edit = Edit(name: Option<string>, description: Option<string>, steps: Option<seq<Step>>)

  function Given<T>(given: Option<T>, before: T): T {
    if given.Some? then given.value else before
  }

  /** The definitions in order of creation, and for every instance the definition it runs under. */
  datatype Registry = Registry(defs: seq<DefRow>, uses: seq<nat>)

  function Apply(draft: Draft, e: Edit): Draft {
    var description := if e.description.Some? then e.description else draft.description;
    Draft(Given(e.name, draft.name), description, Given(e.steps, draft.steps))
  }

  datatype RegistryError = NotFound | ActiveNotEditable | UsedNotEditable | NothingApplies

  datatype RegistryOp =
    | Create(key: Key, draft: Draft, createdBy: UserId)
    | Update(d: nat, edit: Edit, actor: Option<UserId>)
    | Activate(d: nat, actor: Option<UserId>)
    | Deactivate(d: nat, actor: Option<UserId>)
    | Begin(d: nat, amount: Option<int>)

  function CountKey(defs: seq<DefRow>, key: Key): nat {
    if defs == [] then 0
    else CountKey(defs[..|defs| - 1], key) + (if defs[|defs| - 1].key == key then 1 else 0)
  }

  function OnlyActive(defs: seq<DefRow>, d: nat): (r: seq<DefRow>)
    requires d < |defs|
    ensures |r| == |defs|
  {
    seq(|defs|, i requires 0 <= i < |defs| =>
      if i == d then defs[i].(active := true)
      else if defs[i].key == defs[d].key then defs[i].(active := false)
      else defs[i])
  }

  /** The mark an actor leaves on a definition, when there is one. */
  function Stamp(row: DefRow, actor: Option<UserId>): DefRow {
    if actor.Some? then row.(updatedBy := actor) else row
  }

  /** The definitions with one row replaced and stamped. */
  function Put(defs: seq<DefRow>, d: nat, row: DefRow, actor: Option<UserId>): (r: seq<DefRow>)
    requires d < |defs|
    ensures |r| == |defs|
  {
    defs[d := Stamp(row, actor)]
  }

  function RegistryDo(r: Registry, op: RegistryOp): Result<Registry, RegistryError> {
    match op
    case Create(key, draft, createdBy) =>
      Ok(r.(defs := r.defs + [DefRow(key, false, CountKey(r.defs, key) + 1, draft, createdBy, None)]))
    case Update(d, edit, actor) =>
      if d >= |r.defs| then Err(NotFound)
      else if r.defs[d].active then Err(ActiveNotEditable)
      else if d in r.uses then Err(UsedNotEditable)
      else Ok(r.(defs := Put(r.defs, d, r.defs[d].(draft := Apply(r.defs[d].draft, edit)), actor)))
    case Activate(d, actor) =>
      if d >= |r.defs| then Err(NotFound)
      else Ok(r.(defs := Put(OnlyActive(r.defs, d), d, r.defs[d].(active := true), actor)))
    case Deactivate(d, actor) =>
      if d >= |r.defs| then Err(NotFound) else Ok(r.(defs := Put(r.defs, d, r.defs[d].(active := false), actor)))
    case Begin(d, amount) =>
      if d >= |r.defs| then Err(NotFound)
      else if FirstNumber(Chain(r.defs[d].draft.steps, amount)).None? then Err(NothingApplies)
      else Ok(r.(uses := r.uses + [d]))
  }

  function After(r: Registry, op: RegistryOp): Registry {
    match RegistryDo(r, op)
    case Ok(s) => s
    case Err(_) => r
  }

  function RunRegistry(r: Registry, ops: seq<RegistryOp>): Registry {
    if ops == [] then r else After(RunRegistry(r, ops[..|ops| - 1]), ops[|ops| - 1])
  }

  const EMPTY: Registry := Registry([], [])

  /** At most one version of each key is active. */
  ghost predicate OneActive(defs: seq<DefRow>) {
    forall i, j :: 0 <= i < j < |defs| && defs[i].key == defs[j].key ==> !(defs[i].active && defs[j].active)
  }

  /** Every version is one more than the number of earlier versions of its key. */
  ghost predicate VersionsCount(defs: seq<DefRow>) {
    forall i :: 0 <= i < |defs| ==> defs[i].version == CountKey(defs[..i], defs[i].key) + 1
  }

  ghost predicate RegistryKept(r: Registry) {
    && OneActive(r.defs) && VersionsCount(r.defs)
    && forall k :: 0 <= k < |r.uses| ==> r.uses[k] < |r.defs|
  }

  /** The part of the definitions that no operation ever changes. */
  ghost predicate SameVersions(a: seq<DefRow>, b: seq<DefRow>) {
    |a| <= |b| && forall i :: 0 <= i < |a| ==> a[i].key == b[i].key && a[i].version == b[i].version
  }

  lemma {:induction false} CountSame(a: seq<DefRow>, b: seq<DefRow>, key: Key)
    requires |a| == |b| && SameVersions(a, b)
    ensures CountKey(a, key) == CountKey(b, key)
  {
    if a == [] {
    } else {
      CountSame(a[..|a| - 1], b[..|b| - 1], key);
    }
  }

  lemma VersionsStay(a: seq<DefRow>, b: seq<DefRow>)
    requires |a| == |b| && SameVersions(a, b) && VersionsCount(a)
    ensures VersionsCount(b)
  {
    forall i | 0 <= i < |b| ensures b[i].version == CountKey(b[..i], b[i].key) + 1 {
      CountSame(a[..i], b[..i], b[i].key);
    }
  }

  lemma AfterSame(r: Registry, op: RegistryOp)
    ensures SameVersions(r.defs, After(r, op).defs) && r.uses <= After(r, op).uses
    ensures !op.Create? ==> |After(r, op).defs| == |r.defs|
  {
  }

  lemma AfterOneActive(r: Registry, op: RegistryOp)
    requires OneActive(r.defs)
    ensures OneActive(After(r, op).defs)
  {
  }

  lemma CreateCounts(defs: seq<DefRow>, row: DefRow)
    requires VersionsCount(defs) && row.version == CountKey(defs, row.key) + 1
    ensures VersionsCount(defs + [row])
  {
    var more := defs + [row];
    forall i | 0 <= i < |more| ensures more[i].version == CountKey(more[..i], more[i].key) + 1 {
      assert more[..i] == if i < |defs| then defs[..i] else defs;
    }
  }

  lemma AfterVersionsCount(r: Registry, op: RegistryOp)
    requires VersionsCount(r.defs)
    ensures VersionsCount(After(r, op).defs)
  {
    if op.Create? {
      CreateCounts(r.defs, DefRow(op.key, false, CountKey(r.defs, op.key) + 1, op.draft, op.createdBy, None));
    } else {
      AfterSame(r, op);
      VersionsStay(r.defs, After(r, op).defs);
    }
  }

  lemma AfterUsesInRange(r: Registry, op: RegistryOp)
    requires forall k :: 0 <= k < |r.uses| ==> r.uses[k] < |r.defs|
    ensures var s := After(r, op); forall k :: 0 <= k < |s.uses| ==> s.uses[k] < |s.defs|
  {
  }

  lemma AfterKeeps(r: Registry, op: RegistryOp)
    requires RegistryKept(r)
    ensures RegistryKept(After(r, op))
  {
    AfterOneActive(r, op);
    AfterVersionsCount(r, op);
    AfterUsesInRange(r, op);
  }

  /** At most one active definition per key, and versions by counting, in every reachable registry. */
  lemma {:induction false} EveryRegistryKept(ops: seq<RegistryOp>)
    ensures RegistryKept(RunRegistry(EMPTY, ops))
  {
    if ops == [] {
    } else {
      EveryRegistryKept(ops[..|ops| - 1]);
      AfterKeeps(RunRegistry(EMPTY, ops[..|ops| - 1]), ops[|ops| - 1]);
    }
  }

  ghost predicate HasVersion(defs: seq<DefRow>, key: Key, v: int) {
    exists i :: 0 <= i < |defs| && defs[i].key == key && defs[i].version == v
  }

  lemma {:induction false} CountMonotone(defs: seq<DefRow>, i: nat, key: Key)
    requires i <= |defs|
    ensures CountKey(defs[..i], key) <= CountKey(defs, key)
    decreases |defs|
  {
    if i == |defs| {
      assert defs[..i] == defs;
    } else {
      CountMonotone(defs[..|defs| - 1], i, key);
      assert defs[..|defs| - 1][..i] == defs[..i];
    }
  }

  lemma HasVersionAppend(defs: seq<DefRow>, row: DefRow, key: Key, v: int)
    ensures HasVersion(defs + [row], key, v) <==> HasVersion(defs, key, v) || (row.key == key && row.version == v)
  {
    var more := defs + [row];
    if HasVersion(defs, key, v) {
      var i :| 0 <= i < |defs| && defs[i].key == key && defs[i].version == v;
      assert more[i].key == key && more[i].version == v;
    }
    if row.key == key && row.version == v {
      assert more[|defs|].key == key && more[|defs|].version == v;
    }
  }

  lemma FrontCounts(defs: seq<DefRow>)
    requires VersionsCount(defs) && defs != []
    ensures VersionsCount(defs[..|defs| - 1])
  {
    var front := defs[..|defs| - 1];
    forall i | 0 <= i < |front| ensures front[i].version == CountKey(front[..i], front[i].key) + 1 {
      assert front[..i] == defs[..i];
    }
  }

  /** The versions of a key are exactly 1 to n, n being how many there are. */
  lemma {:induction false} VersionsAreOneToN(defs: seq<DefRow>, key: Key, v: int)
    requires VersionsCount(defs)
    ensures HasVersion(defs, key, v) <==> 1 <= v <= CountKey(defs, key)
  {
    if defs == [] {
    } else {
      var n := |defs| - 1;
      FrontCounts(defs);
      VersionsAreOneToN(defs[..n], key, v);
      HasVersionAppend(defs[..n], defs[n], key, v);
      assert defs[..n] + [defs[n]] == defs;
    }
  }

  /** No two definitions of one key share a version. */
  lemma VersionsDistinct(defs: seq<DefRow>, i: nat, j: nat)
    requires VersionsCount(defs) && i < j < |defs| && defs[i].key == defs[j].key
    ensures defs[i].version < defs[j].version
  {
    CountMonotone(defs[..j], i + 1, defs[i].key);
    assert defs[..j][..i + 1] == defs[..i + 1];
    assert defs[..i + 1][..i] == defs[..i];
  }

  lemma StillUsed(a: seq<nat>, b: seq<nat>, d: nat)
    requires a <= b && d in a
    ensures d in b
  {
    var k :| 0 <= k < |a| && a[k] == d;
    assert b[k] == d;
  }

  /** Only drafts are edited, and an accepted edit replaces what it gives in one row and nothing else. */
  lemma EditsTouchOneDraft(r: Registry, d: nat, e: Edit, actor: Option<UserId>)
    ensures RegistryDo(r, Update(d, e, actor)).Ok? <==> d < |r.defs| && !r.defs[d].active && d !in r.uses
    ensures RegistryDo(r, Update(d, e, actor)).Ok? ==>
              var s := After(r, Update(d, e, actor));
              && s.uses == r.uses && |s.defs| == |r.defs|
              && (forall i :: 0 <= i < |r.defs| && i != d ==> s.defs[i] == r.defs[i])
              && s.defs[d] == r.defs[d].(draft := s.defs[d].draft, updatedBy := s.defs[d].updatedBy)
              && (e.name.Some? ==> s.defs[d].draft.name == e.name.value)
              && (e.name.None? ==> s.defs[d].draft.name == r.defs[d].draft.name)
              && (e.description.Some? ==> s.defs[d].draft.description == e.description)
              && (e.description.None? ==> s.defs[d].draft.description == r.defs[d].draft.description)
              && (e.steps.Some? ==> s.defs[d].draft.steps == e.steps.value)
              && (e.steps.None? ==> s.defs[d].draft.steps == r.defs[d].draft.steps)
              && (actor.Some? ==> s.defs[d].updatedBy == actor)
              && (actor.None? ==> s.defs[d].updatedBy == r.defs[d].updatedBy)
  {
  }

  lemma AfterFreezesUsed(r: Registry, op: RegistryOp, d: nat)
    requires d in r.uses && d < |r.defs|
    ensures d < |After(r, op).defs| && After(r, op).defs[d].draft == r.defs[d].draft
  {
    if op.Update? {
      EditsTouchOneDraft(r, op.d, op.edit, op.actor);
    }
  }

  /**
   From any reachable registry and through any further operations: keys and versions never
   change, no definition disappears, and the name, description and steps of a definition in use are frozen.
   */
  lemma {:induction false} UsedStepsNeverChange(r: Registry, ops: seq<RegistryOp>, d: nat)
    requires RegistryKept(r) && d in r.uses
    ensures var s := RunRegistry(r, ops);
            && RegistryKept(s) && SameVersions(r.defs, s.defs) && r.uses <= s.uses
            && d < |r.defs| && s.defs[d].draft == r.defs[d].draft
  {
    if ops == [] {
    } else {
      UsedStepsNeverChange(r, ops[..|ops| - 1], d);
      var s := RunRegistry(r, ops[..|ops| - 1]);
      StillUsed(r.uses, s.uses, d);
      AfterSame(s, ops[|ops| - 1]);
      AfterKeeps(s, ops[|ops| - 1]);
      AfterFreezesUsed(s, ops[|ops| - 1], d);
    }
  }

  /** The definition new submissions are routed to: the first active one of the key. */
  function ActiveFor(defs: seq<DefRow>, key: Key, from: nat := 0): Option<nat>
    requires from <= |defs|
    decreases |defs| - from
  {
    if from == |defs| then None
    else if defs[from].key == key && defs[from].active then Some(from)
    else ActiveFor(defs, key, from + 1)
  }

  lemma {:induction false} ActiveForFinds(defs: seq<DefRow>, key: Key, from: nat)
    requires from <= |defs|
    ensures match ActiveFor(defs, key, from)
            case None => forall i :: from <= i < |defs| && defs[i].key == key ==> !defs[i].active
            case Some(d) => from <= d < |defs| && defs[d].key == key && defs[d].active
    decreases |defs| - from
  {
    if from == |defs| || (defs[from].key == key && defs[from].active) {
    } else {
      ActiveForFinds(defs, key, from + 1);
    }
  }

  /** Routing follows the last activation: exactly one definition of the key is active afterwards, the activated one. */
  lemma ActivationRoutes(r: Registry, d: nat, actor: Option<UserId>)
    requires RegistryKept(r) && d < |r.defs|
    ensures var s := After(r, Activate(d, actor));
            && ActiveFor(s.defs, r.defs[d].key) == Some(d)
            && forall i :: 0 <= i < |r.defs| && r.defs[i].key != r.defs[d].key ==> s.defs[i] == r.defs[i]
  {
    var s := After(r, Activate(d, actor));
    AfterKeeps(r, Activate(d, actor));
    ActiveForFinds(s.defs, r.defs[d].key, 0);
    assert s.defs[d].active && s.defs[d].key == r.defs[d].key;
  }

  /** Switching the key's active version off leaves nothing to route to. */
  lemma DeactivationStopsRouting(r: Registry, d: nat, actor: Option<UserId>)
    requires RegistryKept(r) && d < |r.defs| && r.defs[d].active
    ensures ActiveFor(After(r, Deactivate(d, actor)).defs, r.defs[d].key) == None
  {
    ActiveForFinds(After(r, Deactivate(d, actor)).defs, r.defs[d].key, 0);
  }
}
