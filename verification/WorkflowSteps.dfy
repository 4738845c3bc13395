/**
 The configured side of an approval workflow: numbered steps with optional amount ranges,
 which of them apply to an amount, which step number comes next, and when a step falls due.
 */
module WorkflowSteps {
  import opened Wrappers
  import opened Identities
  import opened Timing

  type StepId = nat

  datatype ApproverType = SpecificUser | SpecificRole

  datatype Step = Step(
    id: StepId,
    number: int,
    approverType: ApproverType,
    specificUser: Option<UserId>,
    requiredRole: Option<RoleId>,
    minimum: Option<int>,
    maximum: Option<int>,
    timeoutHours: Option<int>,
    autoEscalate: bool,
    escalateToUser: Option<UserId>,
    escalateToRole: Option<RoleId>,
    rejectTo: Option<int>)

  /** The steps of a definition together with the amount of the instance that walks them. */
  datatype Chain = Chain(steps: seq<Step>, amount: Option<int>)

  /** What the request schema guarantees of a step: its kind of approver is really named. */
  predicate SchemaValid(s: Step) {
    match s.approverType
    case SpecificUser => s.specificUser.Some?
    case SpecificRole => s.requiredRole.Some?
  }

  predicate ChainSchemaValid(c: Chain) {
    forall s :: s in c.steps ==> SchemaValid(s)
  }

  /** A step without bounds always applies; a bounded one needs an amount inside its bounds. */
  predicate Applies(s: Step, amount: Option<int>): (r: bool)
    ensures r <==> || (s.minimum.None? && s.maximum.None?)
                   || (amount.Some? && (s.minimum.Some? ==> s.minimum.value <= amount.value)
                                    && (s.maximum.Some? ==> amount.value <= s.maximum.value))
  {
    if s.minimum.None? && s.maximum.None? then true
    else if amount.None? then false
    else if s.minimum.Some? && amount.value < s.minimum.value then false
    else if s.maximum.Some? && amount.value > s.maximum.value then false
    else true
  }

  /** The applicable steps carrying one number: a parallel group. */
  function Group(steps: seq<Step>, n: int, amount: Option<int>): (r: seq<Step>)
    ensures forall s :: s in r <==> s in steps && s.number == n && Applies(s, amount)
  {
    if steps == [] then []
    else if steps[0].number == n && Applies(steps[0], amount) then
      [steps[0]] + Group(steps[1..], n, amount)
    else
      Group(steps[1..], n, amount)
  }

  lemma GroupCons(s: Step, rest: seq<Step>, n: int, amount: Option<int>)
    ensures Group([s] + rest, n, amount) ==
            (if s.number == n && Applies(s, amount) then [s] else []) + Group(rest, n, amount)
  {
    assert ([s] + rest)[1..] == rest;
  }

  function At(c: Chain, n: int): seq<Step> {
    Group(c.steps, n, c.amount)
  }

  /** Some applicable step carries this number. */
  predicate Live(c: Chain, n: int) {
    At(c, n) != []
  }

  lemma LiveMeans(c: Chain, n: int)
    ensures Live(c, n) <==> exists s :: s in c.steps && s.number == n && Applies(s, c.amount)
  {
    if Live(c, n) {
      assert At(c, n)[0] in At(c, n);
    }
  }

  /* ---- Sorted, duplicate-free step numbers ---- */

  predicate Increasing(s: seq<int>) {
    forall i, j :: 0 <= i < j < |s| ==> s[i] < s[j]
  }

  function Insert(n: int, s: seq<int>): (r: seq<int>)
    requires Increasing(s)
    ensures Increasing(r)
    ensures forall m :: m in r <==> m == n || m in s
  {
    if s == [] || n < s[0] then [n] + s
    else if n == s[0] then s
    else
      var rest := Insert(n, s[1..]);
      assert forall m :: m in rest ==> m == n || m in s[1..];
      assert forall m :: m in s <==> m == s[0] || m in s[1..];
      assert forall i :: 0 <= i < |rest| ==> rest[i] in rest;
      [s[0]] + rest
  }

  /** The distinct step numbers beyond `after`, in order. */
  function NumbersAfter(steps: seq<Step>, after: int): (r: seq<int>)
    ensures Increasing(r)
    ensures forall m :: m in r <==> m > after && exists s :: s in steps && s.number == m
  {
    if steps == [] then []
    else
      var rest := NumbersAfter(steps[1..], after);
      assert forall s :: s in steps <==> s == steps[0] || s in steps[1..];
      if steps[0].number > after then Insert(steps[0].number, rest) else rest
  }

  /** The candidates whose group is not empty. */
  function LiveAmong(c: Chain, numbers: seq<int>): (r: seq<int>)
    requires Increasing(numbers)
    ensures Increasing(r)
    ensures forall m :: m in r <==> m in numbers && Live(c, m)
  {
    if numbers == [] then []
    else
      var rest := LiveAmong(c, numbers[1..]);
      assert forall i :: 0 <= i < |rest| ==> rest[i] in rest;
      if Live(c, numbers[0]) then [numbers[0]] + rest else rest
  }

  /** Every applicable step number beyond `after`, in order. */
  function LiveAfter(c: Chain, after: int): seq<int> {
    LiveAmong(c, NumbersAfter(c.steps, after))
  }

  /** The first candidate with a non-empty group. */
  function FirstLive(c: Chain, numbers: seq<int>): Option<int> {
    if numbers == [] then None
    else if Live(c, numbers[0]) then Some(numbers[0])
    else FirstLive(c, numbers[1..])
  }

  /** The next applicable step number strictly beyond `after`. */
  function NextNumber(c: Chain, after: int): Option<int> {
    FirstLive(c, NumbersAfter(c.steps, after))
  }

  function FirstNumber(c: Chain): Option<int> {
    NextNumber(c, 0)
  }

  lemma {:induction false} FirstLiveIsHead(c: Chain, numbers: seq<int>)
    requires Increasing(numbers)
    ensures FirstLive(c, numbers) == if LiveAmong(c, numbers) == [] then None else Some(LiveAmong(c, numbers)[0])
  {
    if numbers == [] || Live(c, numbers[0]) {
    } else {
      FirstLiveIsHead(c, numbers[1..]);
    }
  }

  /** The search returns the least applicable number beyond `after`, and None only when there is none. */
  lemma NextNumberIsLeast(c: Chain, after: int)
    ensures NextNumber(c, after).None? <==> forall m :: m > after ==> !Live(c, m)
    ensures forall n :: NextNumber(c, after) == Some(n) <==>
                        n > after && Live(c, n) && forall m :: after < m < n ==> !Live(c, m)
  {
    var numbers := NumbersAfter(c.steps, after);
    var live := LiveAmong(c, numbers);
    FirstLiveIsHead(c, numbers);
    forall m | m > after && Live(c, m)
      ensures m in live
    {
      LiveMeans(c, m);
    }
    if live != [] {
      assert live[0] in live;
      assert forall m :: m in live ==> live[0] <= m;
    }
  }

  lemma IncreasingUnique(a: seq<int>, b: seq<int>)
    requires Increasing(a) && Increasing(b)
    requires forall m :: m in a <==> m in b
    ensures a == b
  {
    assert a != [] ==> a[0] in a;
    assert b != [] ==> b[0] in b;
    if a == [] || b == [] {
    } else {
      assert a[0] == b[0];
      forall m ensures m in a[1..] <==> m in b[1..] {
        assert m in a <==> m == a[0] || m in a[1..];
        assert m in b <==> m == b[0] || m in b[1..];
        assert a[0] !in a[1..] && b[0] !in b[1..];
      }
      IncreasingUnique(a[1..], b[1..]);
    }
  }

  /** Beyond the least applicable number lie the other applicable numbers. */
  lemma LiveAfterFirst(c: Chain, after: int, n: int)
    requires n > after && Live(c, n) && forall m :: after < m < n ==> !Live(c, m)
    ensures forall m :: m in LiveAfter(c, after) <==> m == n || m in LiveAfter(c, n)
  {
    forall m | Live(c, m) ensures exists s :: s in c.steps && s.number == m {
      LiveMeans(c, m);
    }
  }

  lemma PrependIncreasing(n: int, rest: seq<int>)
    requires Increasing(rest) && forall m :: m in rest ==> n < m
    ensures Increasing([n] + rest)
  {
    assert forall i :: 0 <= i < |rest| ==> rest[i] in rest;
  }

  /** The search walks the sorted list of applicable numbers one at a time. */
  lemma LiveAfterUnfolds(c: Chain, after: int)
    ensures match NextNumber(c, after)
            case None => LiveAfter(c, after) == []
            case Some(n) => LiveAfter(c, after) == [n] + LiveAfter(c, n)
  {
    NextNumberIsLeast(c, after);
    match NextNumber(c, after)
    case None => FirstLiveIsHead(c, NumbersAfter(c.steps, after));
    case Some(n) =>
      LiveAfterFirst(c, after, n);
      PrependIncreasing(n, LiveAfter(c, n));
      IncreasingUnique(LiveAfter(c, after), [n] + LiveAfter(c, n));
  }

  lemma NextDoor(c: Chain, n: int)
    requires Live(c, n + 1)
    ensures NextNumber(c, n) == Some(n + 1)
  {
    NextNumberIsLeast(c, n);
  }

  /* ---- Due dates and escalation targets ---- */

  predicate Timed(s: Step) {
    s.timeoutHours.Some? && s.timeoutHours.value > 0
  }

  /** The positive timeouts of a group. */
  function Timeouts(group: seq<Step>): seq<int> {
    if group == [] then []
    else if Timed(group[0]) then [group[0].timeoutHours.value] + Timeouts(group[1..])
    else Timeouts(group[1..])
  }

  lemma {:induction false} TimeoutsMeans(group: seq<Step>)
    ensures forall h :: h in Timeouts(group) <==> exists s :: s in group && Timed(s) && s.timeoutHours.value == h
  {
    if group == [] {
    } else {
      TimeoutsMeans(group[1..]);
      assert forall s :: s in group <==> s == group[0] || s in group[1..];
    }
  }

  function Least(s: seq<int>): (r: int)
    requires s != []
    ensures r in s && forall m :: m in s ==> r <= m
  {
    if |s| == 1 then s[0]
    else
      var rest := Least(s[1..]);
      assert forall m :: m in s <==> m == s[0] || m in s[1..];
      if s[0] < rest then s[0] else rest
  }

  function DueOf(group: seq<Step>, now: Time): Option<Time> {
    var timeouts := Timeouts(group);
    if timeouts == [] then None else Some(now + Least(timeouts) * HOUR)
  }

  /** When an instance that enters step number n at time `now` falls due. */
  function DueAt(c: Chain, n: int, now: Time): Option<Time> {
    DueOf(At(c, n), now)
  }

  /** A group is due at its strictest positive timeout, and never when it has none. */
  lemma DueAtIsStrictest(c: Chain, n: int, now: Time)
    ensures var due := DueAt(c, n, now);
            && (due.None? <==> forall s :: s in At(c, n) ==> !Timed(s))
            && (due.Some? ==> exists s :: s in At(c, n) && Timed(s) && due.value == now + s.timeoutHours.value * HOUR)
            && (due.Some? ==> forall s :: s in At(c, n) && Timed(s) ==>
                now < due.value <= now + s.timeoutHours.value * HOUR)
  {
    var timeouts := Timeouts(At(c, n));
    TimeoutsMeans(At(c, n));
    assert forall s :: s in At(c, n) && Timed(s) ==> s.timeoutHours.value in timeouts;
    if timeouts != [] {
      assert Least(timeouts) in timeouts;
    }
  }

  /** Somebody to escalate a group to. */
  predicate TargetIn(group: seq<Step>) {
    exists s :: s in group && (s.escalateToUser.Some? || s.escalateToRole.Some?)
  }

  predicate HasTarget(c: Chain, n: int) {
    TargetIn(At(c, n))
  }

  predicate AutoEscalates(c: Chain, n: int) {
    exists s :: s in At(c, n) && s.autoEscalate
  }
}
