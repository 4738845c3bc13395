/**
 Whole-run properties of one instance: due dates and escalation per visit, what a finished
 instance may still do, the documented group rule against the coded one, how long a run can
 last, and which steps a run without rejections visits.
 */
module WorkflowVisits {
  import opened Wrappers
  import opened Timing
  import opened WorkflowSteps
  import opened WorkflowInstances

  /* ---- Due dates and escalation marks ---- */

  /** Log positions written since the current step was entered. */
  ghost predicate ThisVisit(t: Trace, i: int)
    requires t.visits != []
  {
    Last(t.visits).from <= i < |t.inst.log|
  }

  ghost predicate WellKept(t: Trace) {
    && t.visits != []
    && |t.notes| == |t.inst.log|
    && Last(t.visits).from <= |t.inst.log|
  }

  /** The position and due date are those of the last step entry; a finished instance has no due date. */
  ghost predicate DueDateKept(c: Chain, t: Trace)
    requires WellKept(t)
  {
    var v := Last(t.visits);
    && t.inst.current == v.number
    && t.inst.dueAt == if t.inst.status == Pending then DueAt(c, v.number, v.entered) else None
  }

  /** The escalation mark is set exactly when this visit has logged an escalation, and it logs at most one. */
  ghost predicate EscalationKept(t: Trace)
    requires WellKept(t)
  {
    && (t.inst.escalatedAt.Some? <==> exists i :: ThisVisit(t, i) && t.inst.log[i].kind == Escalate)
    && forall i, j :: ThisVisit(t, i) && ThisVisit(t, j) && i < j ==>
                        !(t.inst.log[i].kind == Escalate && t.inst.log[j].kind == Escalate)
  }

  /** While pending, this visit has logged no approval, rejection or cancellation, and nothing under another number. */
  ghost predicate VisitOpen(t: Trace)
    requires WellKept(t)
  {
    t.inst.status == Pending ==>
      forall i :: ThisVisit(t, i) ==>
        && t.inst.log[i].kind !in {Approve, Reject, Cancel}
        && t.inst.log[i].stepNumber == t.inst.current
  }

  ghost predicate Kept(c: Chain, t: Trace) {
    WellKept(t) && DueDateKept(c, t) && EscalationKept(t) && VisitOpen(t)
  }

  lemma ObserveKeeps(c: Chain, t: Trace, op: Op)
    requires Kept(c, t)
    ensures Kept(c, Observe(c, t, op))
  {
    var t' := Observe(c, t, op);
    var d := Decide(c, t.inst, op);
    if d.Ok? && !d.value.Enter? {
      if op.DoApprove? {
        OneApprovalMovesOn(c, t.inst, op.actor, op.role, op.now);
      }
      assert t'.visits == t.visits;
      var last := |t.inst.log|;
      assert t'.inst.log[last] == Entry(t.inst, op, d.value);
      assert forall i :: ThisVisit(t', i) <==> ThisVisit(t, i) || i == last;
      assert forall i :: ThisVisit(t, i) ==> t'.inst.log[i] == t.inst.log[i];
      assert ThisVisit(t', last);
    }
  }

  /** Due dates, escalation marks and open visits after any run of any operations. */
  lemma {:induction false} RunKeeps(c: Chain, now: Time, ops: seq<Op>)
    requires FirstNumber(c).Some?
    ensures Kept(c, Run(c, now, ops))
  {
    if ops == [] {
    } else {
      RunKeeps(c, now, ops[..|ops| - 1]);
      ObserveKeeps(c, Run(c, now, ops[..|ops| - 1]), Last(ops));
    }
  }

  lemma LogAfter(c: Chain, t: Trace, op: Op)
    requires Decide(c, t.inst, op).Ok?
    ensures Observe(c, t, op).inst.log == t.inst.log + [Entry(t.inst, op, Decide(c, t.inst, op).value)]
  {
  }

  /** Rows are only ever appended. */
  lemma {:induction false} LogOnlyGrows(c: Chain, t: Trace, ops: seq<Op>)
    ensures t.inst.log <= Continue(c, t, ops).inst.log
  {
    if ops == [] {
    } else {
      LogOnlyGrows(c, t, ops[..|ops| - 1]);
      var u := Continue(c, t, ops[..|ops| - 1]);
      if Decide(c, u.inst, Last(ops)).Ok? {
        LogAfter(c, u, Last(ops));
      }
    }
  }

  /** An approved, rejected or cancelled instance accepts comments and nothing else, whatever the run. */
  lemma {:induction false} FinishedOnlyGainsComments(c: Chain, t: Trace, ops: seq<Op>)
    requires t.inst.status != Pending
    ensures var i := Continue(c, t, ops).inst;
            && i == t.inst.(log := i.log)
            && t.inst.log <= i.log
            && forall k :: |t.inst.log| <= k < |i.log| ==> i.log[k].kind == Comment
  {
    if ops == [] {
    } else {
      FinishedOnlyGainsComments(c, t, ops[..|ops| - 1]);
    }
  }

  /* ---- The documented group rule ---- */

  /**
   The documented rule: every step of the group has been approved in this visit. An approval counts
   for the step the engine found for its author, so the rule asks for one approval per step, and a
   user whom two steps of a group name cannot supply both.
   */
  ghost predicate GroupApproved(c: Chain, n: int, from: nat, log: seq<Action>, notes: seq<Note>)
    requires |notes| == |log|
  {
    forall s :: s in At(c, n) ==>
      exists i :: from <= i < |log| && log[i].kind == Approve && notes[i].via == Some(s)
  }

  /**
   On every reachable state, whenever an approval is accepted, the coded test passes, while the
   documented rule holds exactly when the group is nothing but the approver's own step.
   */
  lemma CodedGroupRuleIsWeaker(c: Chain, now: Time, ops: seq<Op>, op: Op)
    requires FirstNumber(c).Some? && op.DoApprove?
    requires Decide(c, Run(c, now, ops).inst, op).Ok?
    ensures var t := Run(c, now, ops);
            var log := t.inst.log + [Entry(t.inst, op, Stay)];
            var note := NoteOf(c, t.inst, op);
            && |t.notes| == |t.inst.log| && t.visits != [] && note.via.Some?
            && AllSatisfied(c, t.inst.current, log)
            && (GroupApproved(c, t.inst.current, Last(t.visits).from, log, t.notes + [note]) <==>
                forall s :: s in At(c, t.inst.current) ==> s == note.via.value)
  {
    var t := Run(c, now, ops);
    var log := t.inst.log + [Entry(t.inst, op, Stay)];
    var notes := t.notes + [NoteOf(c, t.inst, op)];
    RunKeeps(c, now, ops);
    OneApprovalMovesOn(c, t.inst, op.actor, op.role, op.now);
    var from := Last(t.visits).from;
    assert forall i :: from <= i < |t.inst.log| ==> ThisVisit(t, i) && log[i].kind != Approve;
    assert log[|t.inst.log|].kind == Approve && notes[|t.inst.log|].via == NoteOf(c, t.inst, op).via;
  }

  /** Every step row has its own id. */
  predicate DistinctSteps(steps: seq<Step>) {
    forall i, j :: 0 <= i < j < |steps| ==> steps[i].id != steps[j].id
  }

  lemma {:induction false} GroupKeepsIdsDistinct(steps: seq<Step>, n: int, amount: Option<int>)
    requires DistinctSteps(steps)
    ensures DistinctSteps(Group(steps, n, amount))
  {
    if steps == [] {
    } else {
      var tail := steps[1..];
      var rest := Group(tail, n, amount);
      assert forall i :: 0 <= i < |tail| ==> tail[i] == steps[i + 1];
      GroupKeepsIdsDistinct(tail, n, amount);
      forall k | 0 <= k < |rest|
        ensures rest[k].id != steps[0].id
      {
        assert rest[k] in tail;
        var j :| 0 <= j < |tail| && tail[j] == rest[k];
        assert steps[0].id != steps[j + 1].id;
      }
    }
  }

  lemma SingletonGroup(group: seq<Step>, found: Step)
    requires DistinctSteps(group)
    requires found in group
    ensures (forall s :: s in group ==> s == found) <==> |group| == 1
  {
    if |group| > 1 {
      assert group[0] in group && group[1] in group && group[0].id != group[1].id;
    }
  }

  lemma FoundIsSingleton(c: Chain, i: Instance, op: Op)
    requires Decision(op) && NoteOf(c, i, op).via.Some? && DistinctSteps(c.steps)
    ensures (forall s :: s in At(c, i.current) ==> s == NoteOf(c, i, op).via.value) <==> |At(c, i.current)| == 1
  {
    FindActionableDecides(c, i, op.actor, op.role);
    GroupKeepsIdsDistinct(c.steps, i.current, c.amount);
    SingletonGroup(At(c, i.current), NoteOf(c, i, op).via.value);
  }

  /**
   The coded rule and the documented one agree at an accepted approval exactly when the current
   group has a single applicable step; old approvals left in the log by rework do not matter.
   */
  lemma GroupRulesAgreeExactlyOnSingletons(c: Chain, now: Time, ops: seq<Op>, op: Op)
    requires FirstNumber(c).Some? && op.DoApprove? && DistinctSteps(c.steps)
    requires Decide(c, Run(c, now, ops).inst, op).Ok?
    ensures var t := Run(c, now, ops);
            var log := t.inst.log + [Entry(t.inst, op, Stay)];
            && |t.notes| == |t.inst.log| && t.visits != []
            && ((AllSatisfied(c, t.inst.current, log) <==>
                 GroupApproved(c, t.inst.current, Last(t.visits).from, log, t.notes + [NoteOf(c, t.inst, op)])) <==>
                |At(c, t.inst.current)| == 1)
  {
    CodedGroupRuleIsWeaker(c, now, ops, op);
    var t := Run(c, now, ops);
    FoundIsSingleton(c, t.inst, op);
  }

  /* ---- How long a run can last ---- */

  datatype Tally = Approvals | Returns | Escalations

  /** Approvals, rejections that sent the instance back, and escalations, as logged. */
  predicate Tallied(k: Tally, a: Action) {
    match k
    case Approvals => a.kind == Approve
    case Returns => a.kind == Reject && a.newStatus == Some(Pending)
    case Escalations => a.kind == Escalate
  }

  function Count(k: Tally, log: seq<Action>): nat {
    if log == [] then 0 else Count(k, log[..|log| - 1]) + (if Tallied(k, log[|log| - 1]) then 1 else 0)
  }

  lemma CountAppend(k: Tally, log: seq<Action>, a: Action)
    ensures Count(k, log + [a]) == Count(k, log) + (if Tallied(k, a) then 1 else 0)
  {
    assert (log + [a])[..|log|] == log;
  }

  /** The distinct applicable step numbers. */
  function LiveNumbers(c: Chain): (r: set<int>)
    ensures forall n :: n in r <==> Live(c, n)
  {
    var r := set s | s in c.steps && Applies(s, c.amount) :: s.number;
    assert forall n :: n in r <==> Live(c, n) by {
      forall n ensures n in r <==> Live(c, n) { LiveMeans(c, n); }
    }
    r
  }

  function LiveFrom(c: Chain, n: int): set<int> {
    set m | m in LiveNumbers(c) && m >= n
  }

  lemma SubsetSize<T>(a: set<T>, b: set<T>)
    requires a <= b
    ensures |a| <= |b|
  {
    assert b == a + (b - a);
  }

  /** Approvals still possible before the instance finishes, if nobody sends it back. */
  function Remaining(c: Chain, i: Instance): nat {
    if i.status == Pending then |LiveFrom(c, i.current)| else 0
  }

  /** Room for approvals: one round of n, and one more for every return. */
  function Rounds(backs: nat, n: nat): nat {
    if backs == 0 then n else Rounds(backs - 1, n) + n
  }

  lemma {:induction false} RoundsIsProduct(backs: nat, n: nat)
    ensures Rounds(backs, n) == (backs + 1) * n
  {
    if backs == 0 {
    } else {
      RoundsIsProduct(backs - 1, n);
      assert (backs + 1) * n == backs * n + n;
    }
  }

  ghost predicate ApprovalsBounded(c: Chain, t: Trace) {
    var log := t.inst.log;
    Count(Approvals, log) + Remaining(c, t.inst) <= Rounds(Count(Returns, log), |LiveNumbers(c)|)
  }

  ghost predicate EntriesBounded(t: Trace) {
    var log := t.inst.log;
    && Count(Escalations, log) + (if t.inst.escalatedAt.None? then 1 else 0) <= |t.visits|
    && |t.visits| <= 1 + Count(Approvals, log) + Count(Returns, log)
  }

  /** Moving on to the next number uses up at least one of the numbers left. */
  lemma NextUsesUp(c: Chain, i: Instance)
    requires Live(c, i.current)
    ensures match NextNumber(c, i.current)
            case None => |LiveFrom(c, i.current)| >= 1
            case Some(n) => |LiveFrom(c, n)| + 1 <= |LiveFrom(c, i.current)|
  {
    var here := LiveFrom(c, i.current);
    assert i.current in here;
    NextNumberIsLeast(c, i.current);
    match NextNumber(c, i.current)
    case None => assert |here| == |here - {i.current}| + 1;
    case Some(n) =>
      SubsetSize(LiveFrom(c, n), here - {i.current});
  }

  predicate Adds(k: Tally, op: Op, m: Move) {
    match k
    case Approvals => op.DoApprove?
    case Returns => op.DoReject? && m.Enter?
    case Escalations => op.DoEscalate?
  }

  lemma EntryTallied(k: Tally, i: Instance, op: Op, m: Move)
    ensures Tallied(k, Entry(i, op, m)) <==> Adds(k, op, m)
  {
  }

  /** What one accepted operation adds to a count. */
  lemma CountAfter(k: Tally, c: Chain, t: Trace, op: Op)
    requires Decide(c, t.inst, op).Ok?
    ensures Count(k, Observe(c, t, op).inst.log) ==
            Count(k, t.inst.log) + (if Adds(k, op, Decide(c, t.inst, op).value) then 1 else 0)
  {
    var m := Decide(c, t.inst, op).value;
    LogAfter(c, t, op);
    CountAppend(k, t.inst.log, Entry(t.inst, op, m));
    EntryTallied(k, t.inst, op, m);
  }

  lemma RemainingAfterApproval(c: Chain, t: Trace, op: Op)
    requires op.DoApprove? && Decide(c, t.inst, op).Ok?
    ensures Remaining(c, Observe(c, t, op).inst) + 1 <= Remaining(c, t.inst)
  {
    OneApprovalMovesOn(c, t.inst, op.actor, op.role, op.now);
    FindActionableDecides(c, t.inst, op.actor, op.role);
    NextUsesUp(c, t.inst);
  }

  lemma RemainingOtherwise(c: Chain, t: Trace, op: Op)
    requires !op.DoApprove? && Decide(c, t.inst, op).Ok?
    ensures var returned := op.DoReject? && Decide(c, t.inst, op).value.Enter?;
            var bound := if returned then |LiveNumbers(c)| else Remaining(c, t.inst);
            Remaining(c, Observe(c, t, op).inst) <= bound
  {
    var m := Decide(c, t.inst, op).value;
    if m.Enter? {
      SubsetSize(LiveFrom(c, m.number), LiveNumbers(c));
    }
  }

  /** The bound carries over one more approval, one more return, or neither. */
  lemma BoundCarries(c: Chain, t: Trace, u: Trace, approved: bool, returned: bool)
    requires ApprovalsBounded(c, t) && !(approved && returned)
    requires Count(Approvals, u.inst.log) == Count(Approvals, t.inst.log) + (if approved then 1 else 0)
    requires Count(Returns, u.inst.log) == Count(Returns, t.inst.log) + (if returned then 1 else 0)
    requires Remaining(c, u.inst) + (if approved then 1 else 0) <=
             if returned then |LiveNumbers(c)| else Remaining(c, t.inst)
    ensures ApprovalsBounded(c, u)
  {
  }

  lemma ObserveApprovalsBounded(c: Chain, t: Trace, op: Op)
    requires ApprovalsBounded(c, t)
    ensures ApprovalsBounded(c, Observe(c, t, op))
  {
    var d := Decide(c, t.inst, op);
    if d.Ok? {
      CountAfter(Approvals, c, t, op);
      CountAfter(Returns, c, t, op);
      if op.DoApprove? {
        RemainingAfterApproval(c, t, op);
      } else {
        RemainingOtherwise(c, t, op);
      }
      BoundCarries(c, t, Observe(c, t, op), Adds(Approvals, op, d.value), Adds(Returns, op, d.value));
    }
  }

  /**
   So does the bound on entries: every approval or return enters at most one step, and only an entry clears
   the mark.
   */
  lemma EntriesCarry(t: Trace, u: Trace, op: Op, m: Move)
    requires EntriesBounded(t)
    requires Count(Approvals, u.inst.log) == Count(Approvals, t.inst.log) + (if Adds(Approvals, op, m) then 1 else 0)
    requires Count(Returns, u.inst.log) == Count(Returns, t.inst.log) + (if Adds(Returns, op, m) then 1 else 0)
    requires Count(Escalations, u.inst.log) ==
             Count(Escalations, t.inst.log) + (if Adds(Escalations, op, m) then 1 else 0)
    requires |u.visits| == |t.visits| + (if m.Enter? then 1 else 0) && (m.Enter? ==> op.DoApprove? || op.DoReject?)
    requires if m.Enter? then u.inst.escalatedAt.None?
             else if op.DoEscalate? then t.inst.escalatedAt.None? && u.inst.escalatedAt.Some?
             else u.inst.escalatedAt == t.inst.escalatedAt
    ensures EntriesBounded(u)
  {
  }

  /** Only an entry adds a visit and clears the mark; only an escalation sets it. */
  lemma MarkAfter(c: Chain, t: Trace, op: Op)
    requires Decide(c, t.inst, op).Ok?
    ensures var u, m := Observe(c, t, op), Decide(c, t.inst, op).value;
            && |u.visits| == |t.visits| + (if m.Enter? then 1 else 0) && (m.Enter? ==> op.DoApprove? || op.DoReject?)
            && if m.Enter? then u.inst.escalatedAt.None?
               else if op.DoEscalate? then t.inst.escalatedAt.None? && u.inst.escalatedAt.Some?
               else u.inst.escalatedAt == t.inst.escalatedAt
  {
  }

  lemma ObserveEntriesBounded(c: Chain, t: Trace, op: Op)
    requires EntriesBounded(t)
    ensures EntriesBounded(Observe(c, t, op))
  {
    var d := Decide(c, t.inst, op);
    if d.Ok? {
      var u := Observe(c, t, op);
      CountAfter(Approvals, c, t, op);
      CountAfter(Returns, c, t, op);
      CountAfter(Escalations, c, t, op);
      MarkAfter(c, t, op);
      EntriesCarry(t, u, op, d.value);
    }
  }

  /** The bounds hold after every run. */
  lemma {:induction false} RunKeepsBounds(c: Chain, now: Time, ops: seq<Op>)
    requires FirstNumber(c).Some?
    ensures ApprovalsBounded(c, Run(c, now, ops)) && EntriesBounded(Run(c, now, ops))
  {
    if ops == [] {
      SubsetSize(LiveFrom(c, FirstNumber(c).value), LiveNumbers(c));
    } else {
      var t := Run(c, now, ops[..|ops| - 1]);
      RunKeepsBounds(c, now, ops[..|ops| - 1]);
      ObserveApprovalsBounded(c, t, Last(ops));
      ObserveEntriesBounded(c, t, Last(ops));
    }
  }

  /**
   With N distinct applicable numbers, a run with k returning rejections logs at most (k+1)*N
   approvals, enters at most one step per approval or return beyond the first, and escalates
   at most once per step entry.
   */
  lemma RunBounded(c: Chain, now: Time, ops: seq<Op>)
    requires FirstNumber(c).Some?
    ensures var t := Run(c, now, ops);
            var k := Count(Returns, t.inst.log);
            && Count(Approvals, t.inst.log) + Remaining(c, t.inst) <= (k + 1) * |LiveNumbers(c)|
            && Count(Escalations, t.inst.log) <= |t.visits| <= 1 + Count(Approvals, t.inst.log) + k
  {
    RunKeepsBounds(c, now, ops);
    RoundsIsProduct(Count(Returns, Run(c, now, ops).inst.log), |LiveNumbers(c)|);
  }

  /* ---- Runs without rejections ---- */

  function Numbers(visits: seq<Visit>): seq<int> {
    if visits == [] then [] else Numbers(visits[..|visits| - 1]) + [visits[|visits| - 1].number]
  }

  /** The step numbers of the approvals in a log, in order. */
  function ApprovedNumbers(log: seq<Action>): seq<int> {
    if log == [] then []
    else
      var rest := ApprovedNumbers(log[..|log| - 1]);
      if log[|log| - 1].kind == Approve then rest + [log[|log| - 1].stepNumber] else rest
  }

  ghost predicate NeverRejected(log: seq<Action>) {
    forall a :: a in log ==> a.kind != Reject
  }

  ghost predicate Straight(c: Chain, t: Trace) {
    && t.visits != []
    && t.inst.current == Last(t.visits).number
    && LiveAfter(c, 0) == Numbers(t.visits) + LiveAfter(c, t.inst.current)
    && (if t.inst.status == Approved
        then LiveAfter(c, t.inst.current) == [] && ApprovedNumbers(t.inst.log) == Numbers(t.visits)
        else ApprovedNumbers(t.inst.log) + [t.inst.current] == Numbers(t.visits))
  }

  lemma ApprovedNumbersAppend(log: seq<Action>, a: Action)
    ensures ApprovedNumbers(log + [a]) == ApprovedNumbers(log) + (if a.kind == Approve then [a.stepNumber] else [])
  {
    assert (log + [a])[..|log|] == log;
  }

  /** Moving one number from what is ahead to what is behind. */
  lemma Shifted(all: seq<int>, behind: seq<int>, n: int, ahead: seq<int>)
    requires all == behind + ([n] + ahead)
    ensures all == (behind + [n]) + ahead
  {
  }

  lemma NumbersAppend(visits: seq<Visit>, more: seq<Visit>)
    requires more != [] && more[..|more| - 1] == visits
    ensures Numbers(more) == Numbers(visits) + [Last(more).number]
  {
  }

  /** An approval of the current number that moves on to the next. */
  lemma StraightMovesOn(c: Chain, t: Trace, u: Trace, n: int)
    requires Straight(c, t) && t.inst.status != Approved && NextNumber(c, t.inst.current) == Some(n)
    requires ApprovedNumbers(u.inst.log) == ApprovedNumbers(t.inst.log) + [t.inst.current]
    requires u.inst.status == Pending && u.inst.current == n
    requires u.visits != [] && Last(u.visits).number == n && u.visits[..|u.visits| - 1] == t.visits
    ensures Straight(c, u)
  {
    LiveAfterUnfolds(c, t.inst.current);
    NumbersAppend(t.visits, u.visits);
    Shifted(LiveAfter(c, 0), Numbers(t.visits), n, LiveAfter(c, n));
  }

  /** An approval of the last number finishes. */
  lemma StraightFinishes(c: Chain, t: Trace, u: Trace)
    requires Straight(c, t) && t.inst.status != Approved && NextNumber(c, t.inst.current).None?
    requires ApprovedNumbers(u.inst.log) == ApprovedNumbers(t.inst.log) + [t.inst.current]
    requires u.inst.status == Approved && u.inst.current == t.inst.current && u.visits == t.visits
    ensures Straight(c, u)
  {
    LiveAfterUnfolds(c, t.inst.current);
  }

  lemma ApprovalStaysStraight(c: Chain, t: Trace, op: Op)
    requires Straight(c, t) && op.DoApprove? && Decide(c, t.inst, op).Ok?
    ensures Straight(c, Observe(c, t, op))
  {
    var u := Observe(c, t, op);
    OneApprovalMovesOn(c, t.inst, op.actor, op.role, op.now);
    LogAfter(c, t, op);
    ApprovedNumbersAppend(t.inst.log, Entry(t.inst, op, Decide(c, t.inst, op).value));
    match NextNumber(c, t.inst.current)
    case None => StraightFinishes(c, t, u);
    case Some(n) => StraightMovesOn(c, t, u, n);
  }

  lemma ObserveStraight(c: Chain, t: Trace, op: Op)
    requires Straight(c, t) && NeverRejected(Observe(c, t, op).inst.log)
    ensures Straight(c, Observe(c, t, op))
  {
    if Decide(c, t.inst, op).Ok? {
      if op.DoApprove? {
        ApprovalStaysStraight(c, t, op);
      } else {
        var entry := Entry(t.inst, op, Decide(c, t.inst, op).value);
        LogAfter(c, t, op);
        ApprovedNumbersAppend(t.inst.log, entry);
        assert entry in Observe(c, t, op).inst.log;
      }
    }
  }

  /** The strictly increasing applicable positive numbers are what a run without rejections walks. */
  lemma {:induction false} RunIsStraight(c: Chain, now: Time, ops: seq<Op>)
    requires FirstNumber(c).Some?
    requires NeverRejected(Run(c, now, ops).inst.log)
    ensures Straight(c, Run(c, now, ops))
  {
    if ops == [] {
      LiveAfterUnfolds(c, 0);
      assert Numbers(Opening(c, now).visits) == [FirstNumber(c).value];
    } else {
      var t := Run(c, now, ops[..|ops| - 1]);
      assert t.inst.log <= Observe(c, t, Last(ops)).inst.log;
      forall a | a in t.inst.log
        ensures a in Observe(c, t, Last(ops)).inst.log
      {
        var i :| 0 <= i < |t.inst.log| && t.inst.log[i] == a;
        assert Observe(c, t, Last(ops)).inst.log[i] == a;
      }
      RunIsStraight(c, now, ops[..|ops| - 1]);
      ObserveStraight(c, t, Last(ops));
    }
  }

  /**
   A run without rejections visits an initial stretch of the sorted, distinct, applicable positive
   numbers, each once and with one approval per number left behind; it is approved exactly when
   every one of them has its approval.
   */
  lemma StraightRunWalksTheList(c: Chain, now: Time, ops: seq<Op>)
    requires FirstNumber(c).Some?
    requires NeverRejected(Run(c, now, ops).inst.log)
    ensures var t := Run(c, now, ops);
            var all := LiveAfter(c, 0);
            && Increasing(all)
            && (forall n :: n in all <==> n > 0 && Live(c, n))
            && Numbers(t.visits) <= all
            && ApprovedNumbers(t.inst.log) <= all
            && (t.inst.status == Approved <==> ApprovedNumbers(t.inst.log) == all)
            && (t.inst.status == Approved ==> Numbers(t.visits) == all)
            && (t.inst.status != Approved ==> ApprovedNumbers(t.inst.log) + [t.inst.current] == Numbers(t.visits))
  {
    RunIsStraight(c, now, ops);
    var t := Run(c, now, ops);
    forall n ensures n in LiveAfter(c, 0) <==> n > 0 && Live(c, n) {
      LiveMeans(c, n);
    }
    if t.inst.status != Approved {
      assert |ApprovedNumbers(t.inst.log)| < |Numbers(t.visits)|;
    }
  }

  /** Starting is refused exactly when no positive step number has an applicable step. */
  lemma StartRefusedExactlyWhenNothingApplies(c: Chain, now: Time)
    ensures Start(c, now) == Err(NoApplicableSteps) <==> LiveAfter(c, 0) == []
    ensures Start(c, now).Err? <==> forall s :: s in c.steps && s.number > 0 ==> !Applies(s, c.amount)
  {
    LiveAfterUnfolds(c, 0);
    NextNumberIsLeast(c, 0);
    forall s | s in c.steps && s.number > 0 && Applies(s, c.amount)
      ensures Live(c, s.number)
    {
      LiveMeans(c, s.number);
    }
    if Start(c, now).Ok? {
      var n := FirstNumber(c).value;
      assert At(c, n)[0] in At(c, n);
    }
  }
}
