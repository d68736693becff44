/** The canonical ancestry graphs and the trees they denote. */
module Plan {
  import opened Codes
  import opened Wrappers
  import opened Words

  datatype Operation = OpLift | OpJoin | OpResolve

  datatype Inputs =
    | LiftOf(segmentIndex: uint32)
    | JoinOf(leftStep: uint32, rightStep: uint32)
    | ResolveOf(conditionalStep: uint32)

  datatype PlannedStep = PlannedStep(operation: Operation, inputs: Inputs)

  datatype Family = TerminalJoin | TerminalResolve | ResolveThenJoin

  datatype PlanError = WrongCardinality | OrdinalTooLarge

  // ---------- Trees ----------

  datatype Tree = LiftTree(segment: nat) | JoinTree(left: Tree, right: Tree) | ResolveTree(conditional: Tree)

  /** The earlier steps an operation consumes, in order. */
  function Consumed(inputs: Inputs): seq<nat> {
    match inputs
    case LiftOf(_) => []
    case JoinOf(l, r) => [l, r]
    case ResolveOf(c) => [c]
  }

  /** The segment an operation lifts, if any. */
  function Lifted(inputs: Inputs): seq<nat> {
    match inputs
    case LiftOf(i) => [i]
    case _ => []
  }

  predicate RefersBack(inputs: Inputs, k: nat) {
    match inputs
    case LiftOf(_) => true
    case JoinOf(l, r) => l < k && r < k
    case ResolveOf(c) => c < k
  }

  ghost predicate Backward(inputs: seq<Inputs>) {
    forall k :: 0 <= k < |inputs| ==> RefersBack(inputs[k], k)
  }

  /** The operation tree below step `k`. */
  ghost function TreeAt(inputs: seq<Inputs>, k: nat): Tree
    requires Backward(inputs) && k < |inputs|
    decreases k
  {
    assert RefersBack(inputs[k], k);
    match inputs[k]
    case LiftOf(i) => LiftTree(i)
    case JoinOf(l, r) => JoinTree(TreeAt(inputs, l), TreeAt(inputs, r))
    case ResolveOf(c) => ResolveTree(TreeAt(inputs, c))
  }

  function Leaves(t: Tree): seq<nat> {
    match t
    case LiftTree(i) => [i]
    case JoinTree(l, r) => Leaves(l) + Leaves(r)
    case ResolveTree(c) => Leaves(c)
  }

  /** Lift 0 joined with lift 1, the result with lift 2, and so on. */
  function LeftFold(n: nat): Tree
    requires n >= 1
  {
    if n == 1 then LiftTree(0) else JoinTree(LeftFold(n - 1), LiftTree(n - 1))
  }

  function Times(s: seq<nat>, k: nat): nat {
    if s == [] then 0 else (if s[0] == k then 1 else 0) + Times(s[1..], k)
  }

  lemma {:induction false} TimesAppend(a: seq<nat>, b: seq<nat>, k: nat)
    ensures Times(a + b, k) == Times(a, k) + Times(b, k)
  {
    if a == [] {
      assert a + b == b;
    } else {
      TimesAppend(a[1..], b, k);
      assert (a + b)[1..] == a[1..] + b;
    }
  }

  /** How often step `k` is consumed by the steps of a plan. */
  ghost function TimesConsumed(inputs: seq<Inputs>, k: nat): nat {
    Times(FlatMap(inputs, Consumed), k)
  }

  /** How often segment `i` is lifted. */
  ghost function TimesLifted(inputs: seq<Inputs>, i: nat): nat {
    Times(FlatMap(inputs, Lifted), i)
  }

  /** One tree over `n` segments: every segment is lifted once, every step but the last is consumed once,
      and the last, the root, is not consumed. */
  ghost predicate LinearTree(inputs: seq<Inputs>, n: nat) {
    && Backward(inputs) && inputs != []
    && (forall i :: 0 <= i < n ==> TimesLifted(inputs, i) == 1)
    && (forall i :: i >= n ==> TimesLifted(inputs, i) == 0)
    && (forall k :: 0 <= k < |inputs| - 1 ==> TimesConsumed(inputs, k) == 1)
    && (forall k :: k >= |inputs| - 1 ==> TimesConsumed(inputs, k) == 0)
  }

  // ---------- The join plan for any number of segments ----------

  /** The `i`-th join takes the previous join, or lift 0 at first, and lift `i`. */
  function LeftOf(n: nat, i: nat): nat
    requires 1 <= i
  {
    if i == 1 then 0 else n + i - 2
  }

  predicate FitsU32(n: nat) {
    2 * n <= U32_MAX + 2
  }

  function JoinInputs(n: nat): (s: seq<Inputs>)
    requires n >= 1 && FitsU32(n)
    ensures |s| == 2 * n - 1
  {
    seq(2 * n - 1, k requires 0 <= k < 2 * n - 1 =>
      if k < n then LiftOf(k) else JoinOf(LeftOf(n, k - n + 1), k - n + 1))
  }

  function InputsOf(plan: seq<PlannedStep>): (s: seq<Inputs>)
    ensures |s| == |plan|
  {
    seq(|plan|, k requires 0 <= k < |plan| => plan[k].inputs)
  }

  function OperationOf(inputs: Inputs): Operation {
    match inputs
    case LiftOf(_) => OpLift
    case JoinOf(_, _) => OpJoin
    case ResolveOf(_) => OpResolve
  }

  /** Each planned operation is the one its inputs call for. */
  ghost predicate Consistent(plan: seq<PlannedStep>) {
    forall k :: 0 <= k < |plan| ==> plan[k].operation == OperationOf(plan[k].inputs)
  }

  lemma JoinInputsAt(n: nat)
    requires n >= 1 && FitsU32(n)
    ensures Backward(JoinInputs(n))
    ensures forall i :: 0 <= i < n ==> JoinInputs(n)[i] == LiftOf(i)
    ensures forall i :: 1 <= i < n ==> JoinInputs(n)[n + i - 1] == JoinOf(LeftOf(n, i), i)
  {
    forall i | 1 <= i < n ensures JoinInputs(n)[n + i - 1] == JoinOf(LeftOf(n, i), i) {
      assert (n + i - 1) - n + 1 == i;
    }
  }

  /** The join loop builds the in-order left fold: the step after `i` joins denotes the fold of the first
      `i + 1` segments, so the last step, number 2n - 2, denotes the fold of all of them. */
  lemma {:induction false} JoinPlanIsLeftFold(n: nat, i: nat)
    requires n >= 1 && FitsU32(n) && i < n
    ensures Backward(JoinInputs(n))
    ensures TreeAt(JoinInputs(n), if i == 0 then 0 else n + i - 1) == LeftFold(i + 1)
    decreases i
  {
    JoinInputsAt(n);
    assert JoinInputs(n)[i] == LiftOf(i);
    if i > 0 {
      JoinPlanIsLeftFold(n, i - 1);
      assert JoinInputs(n)[n + i - 1] == JoinOf(LeftOf(n, i), i);
      assert TreeAt(JoinInputs(n), i) == LiftTree(i);
    }
  }

  lemma {:induction false} LeftFoldInOrder(n: nat)
    requires n >= 1
    ensures Leaves(LeftFold(n)) == seq(n, i => i)
  {
    if n > 1 {
      LeftFoldInOrder(n - 1);
      assert Leaves(LeftFold(n)) == Leaves(LeftFold(n - 1)) + [n - 1];
    }
  }

  lemma TimesSnoc(front: seq<Inputs>, last: Inputs, k: nat)
    ensures TimesConsumed(front + [last], k) == TimesConsumed(front, k) + Times(Consumed(last), k)
    ensures TimesLifted(front + [last], k) == TimesLifted(front, k) + Times(Lifted(last), k)
  {
    FlatMapSnoc(front, last, Consumed);
    FlatMapSnoc(front, last, Lifted);
    TimesAppend(FlatMap(front, Consumed), Consumed(last), k);
    TimesAppend(FlatMap(front, Lifted), Lifted(last), k);
  }

  lemma TimesOfPair(l: nat, r: nat, k: nat)
    ensures Times([l, r], k) == (if l == k then 1 else 0) + (if r == k then 1 else 0)
    ensures Times([l], k) == (if l == k then 1 else 0)
  {
    assert forall x: nat :: [x][1..] == [];
    assert [l, r] == [l] + [r];
    TimesAppend([l], [r], k);
  }

  lemma {:induction false} JoinPlanCounts(n: nat, m: nat, k: nat)
    requires n >= 1 && FitsU32(n) && m <= 2 * n - 1
    ensures TimesLifted(JoinInputs(n)[..m], k) == (if k < m && k < n then 1 else 0)
    ensures TimesConsumed(JoinInputs(n)[..m], k)
         == (if m <= n then 0 else if k <= m - n || n <= k < m - 1 then 1 else 0)
    decreases m
  {
    if m > 0 {
      JoinPlanCounts(n, m - 1, k);
      var s := JoinInputs(n);
      assert s[..m] == s[..m - 1] + [s[m - 1]];
      TimesSnoc(s[..m - 1], s[m - 1], k);
      if m <= n {
        TimesOfPair(m - 1, 0, k);
      } else {
        TimesOfPair(LeftOf(n, m - n), m - n, k);
      }
    }
  }

  /** For every segment count the join plan is one linear tree. */
  lemma JoinPlanIsLinear(n: nat)
    requires n >= 1 && FitsU32(n)
    ensures LinearTree(JoinInputs(n), n)
  {
    var s := JoinInputs(n);
    assert s[..|s|] == s;
    JoinInputsAt(n);
    forall k: nat ensures TimesLifted(s, k) == (if k < n then 1 else 0)
      && TimesConsumed(s, k) == (if k < 2 * n - 2 then 1 else 0)
    {
      JoinPlanCounts(n, 2 * n - 1, k);
    }
  }

  /** The lift loop of `planned_steps`. */
  method PlanLifts(segmentCount: nat) returns (r: Result<seq<PlannedStep>, PlanError>)
    ensures r.Ok? <==> segmentCount <= U32_MAX + 1
    ensures r.Ok? ==> Consistent(r.value) && |r.value| == segmentCount
    ensures r.Ok? ==> forall k :: 0 <= k < segmentCount ==> r.value[k].inputs == LiftOf(k)
  {
    var plan: seq<PlannedStep> := [];
    for segmentIndex := 0 to segmentCount
      invariant |plan| == segmentIndex <= U32_MAX + 1 && Consistent(plan)
      invariant forall k :: 0 <= k < segmentIndex ==> plan[k].inputs == LiftOf(k)
    {
      if segmentIndex > U32_MAX {
        return Err(OrdinalTooLarge);
      }
      plan := plan + [PlannedStep(OpLift, LiftOf(segmentIndex))];
    }
    return Ok(plan);
  }

  /** The lift and join loops of `planned_steps`, before any bound on the number of segments. */
  method PlanJoins(segmentCount: nat) returns (r: Result<seq<PlannedStep>, PlanError>)
    requires segmentCount >= 1
    ensures r.Ok? <==> segmentCount <= U32_MAX && FitsU32(segmentCount)
    ensures r.Ok? ==> Consistent(r.value) && InputsOf(r.value) == JoinInputs(segmentCount)
  {
    if segmentCount > U32_MAX {
      return Err(OrdinalTooLarge);
    }
    var lifts := PlanLifts(segmentCount);
    var plan := lifts.value;
    var leftStep: uint32 := 0;
    for rightStep := 1 to segmentCount
      invariant |plan| == segmentCount + rightStep - 1 <= U32_MAX + 1 && Consistent(plan)
      invariant leftStep == LeftOf(segmentCount, rightStep)
      invariant forall k :: 0 <= k < |plan| ==>
          plan[k].inputs == if k < segmentCount then LiftOf(k)
                            else JoinOf(LeftOf(segmentCount, k - segmentCount + 1), k - segmentCount + 1)
    {
      if |plan| > U32_MAX {
        return Err(OrdinalTooLarge);
      }
      var ordinal := |plan|;
      plan := plan + [PlannedStep(OpJoin, JoinOf(leftStep, rightStep))];
      leftStep := ordinal;
    }
    return Ok(plan);
  }

  // ---------- The three families ----------

  function SegmentsOf(family: Family): nat {
    if family == TerminalResolve then 1 else 2
  }

  predicate UsesAssumption(family: Family) {
    family != TerminalJoin
  }

  /** The tree each family proves. */
  function FamilyTree(family: Family): Tree {
    match family
    case TerminalJoin => JoinTree(LiftTree(0), LiftTree(1))
    case TerminalResolve => ResolveTree(LiftTree(0))
    case ResolveThenJoin => JoinTree(LiftTree(0), ResolveTree(LiftTree(1)))
  }

  function FamilyInputs(family: Family): seq<Inputs> {
    match family
    case TerminalJoin => [LiftOf(0), LiftOf(1), JoinOf(0, 1)]
    case TerminalResolve => [LiftOf(0), ResolveOf(0)]
    case ResolveThenJoin => [LiftOf(0), LiftOf(1), ResolveOf(1), JoinOf(0, 2)]
  }

  /** `planned_steps`: it succeeds exactly on the family's own segment count. */
  method PlannedSteps(family: Family, segmentCount: nat) returns (r: Result<seq<PlannedStep>, PlanError>)
    ensures r.Ok? <==> segmentCount == SegmentsOf(family)
    ensures r.Ok? ==> Consistent(r.value) && InputsOf(r.value) == FamilyInputs(family)
  {
    if segmentCount != SegmentsOf(family) {
      return Err(WrongCardinality);
    }
    match family {
      case TerminalJoin =>
        r := PlanJoins(segmentCount);
        assert JoinInputs(2)[0] == LiftOf(0) && JoinInputs(2)[1] == LiftOf(1) && JoinInputs(2)[2] == JoinOf(0, 1);
      case TerminalResolve =>
        var lifts := PlanLifts(segmentCount);
        var plan := lifts.value;
        r := Ok(plan + [PlannedStep(OpResolve, ResolveOf(0))]);
      case ResolveThenJoin =>
        var lifts := PlanLifts(segmentCount);
        var plan := lifts.value;
        var finalLift := 1;
        var resolvedStep := |plan|;
        plan := plan + [PlannedStep(OpResolve, ResolveOf(finalLift))];
        r := Ok(plan + [PlannedStep(OpJoin, JoinOf(0, resolvedStep))]);
    }
  }

  /** Each family's plan is one linear tree over its segments, rooted at the last step: no lift and no
      intermediate receipt is left out or used twice. */
  lemma FamilyPlansAreLinear(family: Family)
    ensures LinearTree(FamilyInputs(family), SegmentsOf(family))
    ensures TreeAt(FamilyInputs(family), |FamilyInputs(family)| - 1) == FamilyTree(family)
  {
    var s := FamilyInputs(family);
    match family {
      case TerminalJoin =>
        JoinPlanIsLinear(2);
        assert s == JoinInputs(2);
      case TerminalResolve =>
        ShortFlatMaps(s);
        assert FlatMap(s, Consumed) == [0] && FlatMap(s, Lifted) == [0];
        forall k: nat ensures Times([0], k) == if k == 0 then 1 else 0 {
          TimesOfPair(0, 0, k);
        }
      case ResolveThenJoin =>
        ShortFlatMaps(s);
        assert FlatMap(s, Consumed) == [1] + [0, 2] && FlatMap(s, Lifted) == [0, 1];
        forall k: nat
          ensures Times([1] + [0, 2], k) == if k <= 2 then 1 else 0
          ensures Times([0, 1], k) == if k <= 1 then 1 else 0
        {
          TimesAppend([1], [0, 2], k);
          TimesOfPair(1, 0, k);
          TimesOfPair(0, 2, k);
          TimesOfPair(0, 1, k);
        }
    }
  }

  lemma {:induction false} ShortFlatMaps(s: seq<Inputs>)
    ensures |s| == 2 ==> FlatMap(s, Consumed) == Consumed(s[0]) + Consumed(s[1])
    ensures |s| == 2 ==> FlatMap(s, Lifted) == Lifted(s[0]) + Lifted(s[1])
    ensures |s| == 4 ==>
              FlatMap(s, Consumed) == Consumed(s[0]) + (Consumed(s[1]) + (Consumed(s[2]) + Consumed(s[3])))
    ensures |s| == 4 ==> FlatMap(s, Lifted) == Lifted(s[0]) + (Lifted(s[1]) + (Lifted(s[2]) + Lifted(s[3])))
  {
    if |s| == 2 {
      PairFlatMap(s, Consumed);
      PairFlatMap(s, Lifted);
    } else if |s| == 4 {
      assert s[2..] == [s[2], s[3]] && s[1..][1..] == s[2..];
      PairFlatMap(s[2..], Consumed);
      PairFlatMap(s[2..], Lifted);
    }
  }

  lemma {:induction false} PairFlatMap<T, U>(s: seq<T>, enc: T -> seq<U>)
    requires |s| == 2
    ensures FlatMap(s, enc) == enc(s[0]) + enc(s[1])
  {
    assert s[1..][1..] == [] && FlatMap(s[1..][1..], enc) == [];
    assert FlatMap(s[1..], enc) == enc(s[1]);
  }
}
