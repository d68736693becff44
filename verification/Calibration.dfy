/** The canonical calibration search: an exponential bracket and a binary search over all of u32, against
    an observer that may answer anything, differently each time it is asked. */
module Calibration {
  import opened Constants
  import opened Wrappers
  import opened Words

  datatype SegmentObservation = SegmentObservation(segmentCount: nat, singleSegmentPo2: Option<uint32>)

  datatype OrderingClass = Below | Exact | Above

  datatype CalibrationError<E> =
    | UnsupportedTarget | Malformed | ObserveFailed(cause: E) | ZeroAbove | Exhausted | Crossed

  datatype Selection = Selection(workloadIterations: uint32, observation: SegmentObservation)

  /** `None` is a malformed observation. */
  function Classify(observation: SegmentObservation, targetPo2: uint32): Option<OrderingClass> {
    if (observation.segmentCount == 1) != observation.singleSegmentPo2.Some? then None
    else if observation.segmentCount != 1 then Some(Above)
    else
      var po2 := observation.singleSegmentPo2.value;
      Some(if po2 < targetPo2 then Below else if po2 == targetPo2 then Exact else Above)
  }

  /** An observer's answer may depend on every earlier question. */
  type Responder<!E> = (seq<uint32>, uint32) -> Result<SegmentObservation, E>

  class Observer<E> {
    const respond: Responder<E>
    var log: seq<uint32>

    constructor (respond: Responder<E>)
      ensures this.respond == respond && log == []
    {
      this.respond := respond;
      log := [];
    }

    method Observe(n: uint32) returns (r: Result<SegmentObservation, E>)
      modifies this
      ensures log == old(log) + [n] && r == respond(old(log), n)
    {
      r := respond(log, n);
      log := log + [n];
    }
  }

  // ---------- Powers of two ----------

  function Pow2(k: nat): (p: nat)
    ensures p > 0
  {
    if k == 0 then 1 else 2 * Pow2(k - 1)
  }

  lemma {:induction false} Pow2Monotone(j: nat, k: nat)
    requires j <= k
    ensures Pow2(j) <= Pow2(k)
    decreases k - j
  {
    if j < k { Pow2Monotone(j + 1, k); }
  }

  lemma Pow2Of32()
    ensures Pow2(16) == 65_536 && Pow2(31) == 2_147_483_648 && Pow2(32) == U32_MAX + 1
  {
    assert Pow2(4) == 16;
    assert Pow2(8) == 2 * Pow2(7) == 4 * Pow2(6) == 8 * Pow2(5) == 256;
    assert Pow2(12) == 2 * Pow2(11) == 4 * Pow2(10) == 8 * Pow2(9) == 4096;
    assert Pow2(16) == 2 * Pow2(15) == 4 * Pow2(14) == 8 * Pow2(13) == 65_536;
    assert Pow2(20) == 2 * Pow2(19) == 4 * Pow2(18) == 8 * Pow2(17) == 1_048_576;
    assert Pow2(24) == 2 * Pow2(23) == 4 * Pow2(22) == 8 * Pow2(21) == 16_777_216;
    assert Pow2(28) == 2 * Pow2(27) == 4 * Pow2(26) == 8 * Pow2(25) == 268_435_456;
    assert Pow2(31) == 2 * Pow2(30) == 4 * Pow2(29) == 2_147_483_648;
  }

  // ---------- What a run promises ----------

  /** How the `i`-th question of a run was answered. */
  ghost function ClassAt<E>(respond: Responder<E>, target: uint32, log: seq<uint32>, i: nat)
    : Result<OrderingClass, CalibrationError<E>>
    requires i < |log|
  {
    Judge(respond(log[..i], log[i]), target)
  }

  function Judge<E>(answer: Result<SegmentObservation, E>, target: uint32)
    : Result<OrderingClass, CalibrationError<E>>
  {
    match answer
    case Err(cause) => Err(ObserveFailed(cause))
    case Ok(observation) =>
      match Classify(observation, target)
      case None => Err(Malformed)
      case Some(cls) => Ok(cls)
  }

  /** The run asked about `n` and the answer was classified `cls`. */
  ghost predicate Saw<E>(respond: Responder<E>, target: uint32, log: seq<uint32>, n: int, cls: OrderingClass) {
    exists i :: 0 <= i < |log| && log[i] == n && ClassAt(respond, target, log, i) == Ok(cls)
  }

  ghost predicate NoRepeat(log: seq<uint32>) {
    forall i, j :: 0 <= i < j < |log| ==> log[i] != log[j]
  }

  /** The selected observation is the answer the run got for the selected count, and is exact. */
  ghost predicate SelectedSeen<E>(respond: Responder<E>, target: uint32, log: seq<uint32>, s: Selection) {
    exists i :: 0 <= i < |log| && log[i] == s.workloadIterations
      && respond(log[..i], log[i]) == Ok(s.observation)
      && Classify(s.observation, target) == Some(Exact)
  }

  ghost predicate Cost(n: nat, asked: nat) {
    && (n == 0 ==> asked == 1) && (n == 1 ==> asked == 2)
    && (forall k: nat :: k >= 1 && Pow2(k - 1) < n <= Pow2(k) ==>
          asked <= 2 * k + 1 && (k < 32 ==> asked == 2 * k + 1))
  }

  /** The end of the `i`-th bracket: doubling, saturating at the top of the range. */
  function BracketEnd(i: nat): nat {
    if i < 32 then Pow2(i) else U32_MAX
  }

  function Max(a: int, b: int): int {
    if a >= b then a else b
  }

  function BracketStart(i: nat): nat {
    if i == 0 then 0 else BracketEnd(i - 1)
  }

  /** After its first question the run asked about the first `i` bracket ends, in order, and saw each below. */
  ghost predicate EndsBelow<E>(respond: Responder<E>, target: uint32, log: seq<uint32>, i: nat)
    requires i < |log|
  {
    i > 0 ==>
      && log[i] == BracketEnd(i - 1) && ClassAt(respond, target, log, i) == Ok(Below)
      && EndsBelow(respond, target, log, i - 1)
  }

  /** The run asked about the bracket ends in order, and the `i`-th is the first it did not see below. */
  ghost predicate Opened<E>(respond: Responder<E>, target: uint32, log: seq<uint32>, i: nat) {
    && i + 1 < |log| && EndsBelow(respond, target, log, i) && log[i + 1] == BracketEnd(i)
    && ClassAt(respond, target, log, i + 1).Ok? && ClassAt(respond, target, log, i + 1) != Ok(Below)
  }

  /** `n` lies in the first bracket whose end the run did not see below. */
  ghost predicate InOpened<E>(respond: Responder<E>, target: uint32, log: seq<uint32>, n: nat) {
    exists i: nat :: i <= 32 && Opened(respond, target, log, i) && BracketStart(i) < n <= BracketEnd(i)
  }

  /** The first `n` answers were usable. */
  ghost predicate Judged<E>(respond: Responder<E>, target: uint32, log: seq<uint32>, n: nat) {
    n <= |log| && forall i :: 0 <= i < n ==> ClassAt(respond, target, log, i).Ok?
  }

  lemma JudgedKept<E>(respond: Responder<E>, target: uint32, log: seq<uint32>, next: uint32)
    requires Judged(respond, target, log, |log|)
    ensures Judged(respond, target, log + [next], |log|)
    ensures ClassAt(respond, target, log + [next], |log|).Ok? ==> Judged(respond, target, log + [next], |log| + 1)
  {
    forall i | 0 <= i < |log| ensures ClassAt(respond, target, log + [next], i).Ok? {
      assert (log + [next])[..i] == log[..i] && ClassAt(respond, target, log, i).Ok?;
    }
  }

  /** Everything a finished run guarantees, for any observer at all. */
  ghost predicate Outcome<E>(respond: Responder<E>, target: uint32, log: seq<uint32>,
                             r: Result<Selection, CalibrationError<E>>) {
    && NoRepeat(log) && |log| <= 65
    && (if r.Err? && (r.error.Malformed? || r.error.ObserveFailed?)
        then log != [] && Judged(respond, target, log, |log| - 1)
        else Judged(respond, target, log, |log|))
    && match r
       case Ok(s) =>
         && SupportedPo2(target)
         && SelectedSeen(respond, target, log, s)
         && (s.workloadIterations == 0
             || (&& Saw(respond, target, log, s.workloadIterations - 1, Below)
                 && InOpened(respond, target, log, s.workloadIterations)))
         && Cost(s.workloadIterations, |log|)
       case Err(UnsupportedTarget) => log == [] && !SupportedPo2(target)
       case Err(Malformed) => log != [] && ClassAt(respond, target, log, |log| - 1) == Err(Malformed)
       case Err(ObserveFailed(cause)) =>
         log != [] && respond(log[..|log| - 1], log[|log| - 1]) == Err(cause)
       case Err(ZeroAbove) => Saw(respond, target, log, 0, Above)
       case Err(Exhausted) =>
         Saw(respond, target, log, U32_MAX, Below) && |log| == 34 && EndsBelow(respond, target, log, 33)
       case Err(Crossed) =>
         exists n: nat ::
           && Saw(respond, target, log, n, Below) && Saw(respond, target, log, n + 1, Above)
           && InOpened(respond, target, log, n + 1)
  }

  // ---------- The search ----------

  /** All questions so far are answered, distinct, and lie at or below `high`, which has not been asked,
      with nothing asked strictly between `below` and `high`. */
  ghost predicate Bracketed<E>(respond: Responder<E>, target: uint32, log: seq<uint32>, below: int, high: int) {
    && NoRepeat(log) && (forall i :: 0 <= i < |log| ==> log[i] <= below || log[i] >= high)
    && Saw(respond, target, log, below, Below)
  }

  lemma SawKept<E>(respond: Responder<E>, target: uint32, log: seq<uint32>, next: uint32, n: int, cls: OrderingClass)
    requires Saw(respond, target, log, n, cls)
    ensures Saw(respond, target, log + [next], n, cls)
  {
    var i :| 0 <= i < |log| && log[i] == n && ClassAt(respond, target, log, i) == Ok(cls);
    assert (log + [next])[..i] == log[..i];
    assert ClassAt(respond, target, log + [next], i) == Ok(cls);
  }

  lemma SawLast<E>(respond: Responder<E>, target: uint32, log: seq<uint32>, next: uint32)
    ensures ClassAt(respond, target, log + [next], |log|) == Judge(respond(log, next), target)
    ensures forall cls :: ClassAt(respond, target, log + [next], |log|) == Ok(cls)
              ==> Saw(respond, target, log + [next], next, cls)
  {
    assert (log + [next])[..|log|] == log;
  }

  /** The run asked about `n` and got `observation`, classified `cls`. */
  ghost predicate Seen<E>(respond: Responder<E>, target: uint32, log: seq<uint32>, n: uint32,
                          observation: SegmentObservation, cls: OrderingClass) {
    && Classify(observation, target) == Some(cls) && Saw(respond, target, log, n, cls)
    && (cls == Exact ==> SelectedSeen(respond, target, log, Selection(n, observation)))
  }

  lemma SeenKept<E>(respond: Responder<E>, target: uint32, log: seq<uint32>, next: uint32, n: uint32,
                    observation: SegmentObservation, cls: OrderingClass)
    requires Seen(respond, target, log, n, observation, cls)
    ensures Seen(respond, target, log + [next], n, observation, cls)
  {
    SawKept(respond, target, log, next, n, cls);
    if cls == Exact {
      var i :| 0 <= i < |log| && log[i] == n && respond(log[..i], log[i]) == Ok(observation);
      assert (log + [next])[..i] == log[..i];
    }
  }

  /** The last question was answered by the error `e`. */
  ghost predicate FailedLast<E>(respond: Responder<E>, target: uint32, log: seq<uint32>, e: CalibrationError<E>) {
    && log != [] && (e == Malformed || e.ObserveFailed?) && ClassAt(respond, target, log, |log| - 1) == Err(e)
    && Judged(respond, target, log, |log| - 1)
  }

  /** Asks about `n` and classifies the answer. */
  method Ask<E>(observer: Observer<E>, n: uint32, target: uint32)
    returns (r: Result<(SegmentObservation, OrderingClass), CalibrationError<E>>)
    requires Judged(observer.respond, target, observer.log, |observer.log|)
    modifies observer
    ensures observer.log == old(observer.log) + [n]
    ensures r.Ok? ==> Judged(observer.respond, target, observer.log, |observer.log|)
    ensures r.Ok? ==> Seen(observer.respond, target, observer.log, n, r.value.0, r.value.1)
    ensures r.Ok? ==> ClassAt(observer.respond, target, observer.log, |observer.log| - 1) == Ok(r.value.1)
    ensures r.Err? ==> FailedLast(observer.respond, target, observer.log, r.error)
  {
    ghost var before := observer.log;
    SawLast(observer.respond, target, before, n);
    JudgedKept(observer.respond, target, before, n);
    var observation := observer.Observe(n);
    assert observer.log[..|before|] == before && observer.log[|before|] == n;
    match observation {
      case Err(cause) =>
        return Err(ObserveFailed(cause));
      case Ok(o) =>
        var cls := Classify(o, target);
        if cls == None {
          return Err(Malformed);
        }
        return Ok((o, cls.value));
    }
  }

  /** `high.saturating_mul(2).max(high + 1)`, where neither operation overflows. */
  function NextHigh(high: uint32): (next: uint32)
    requires high < U32_MAX
    ensures high < next
  {
    Max(if high as int * 2 > U32_MAX then U32_MAX else high as int * 2, high + 1)
  }

  /** The source's saturating step goes from one bracket end to the next and tops out at the 33rd. */
  lemma NextBracketEnd(i: nat)
    requires i <= 32
    ensures BracketStart(i) < BracketEnd(i) <= U32_MAX
    ensures BracketEnd(i) == U32_MAX <==> i == 32
    ensures i < 32 ==> BracketEnd(i + 1) == NextHigh(BracketEnd(i))
  {
    Pow2Of32();
    if i < 32 { Pow2Monotone(i, 31); }
    if i < 31 { Pow2Monotone(i + 1, 31); }
  }

  lemma {:induction false} EndsBelowKept<E>(respond: Responder<E>, target: uint32, log: seq<uint32>, next: uint32,
                                            i: nat)
    requires i < |log| && EndsBelow(respond, target, log, i)
    ensures EndsBelow(respond, target, log + [next], i)
  {
    if i > 0 {
      EndsBelowKept(respond, target, log, next, i - 1);
      assert (log + [next])[..i] == log[..i];
    }
  }

  lemma OpenedKept<E>(respond: Responder<E>, target: uint32, log: seq<uint32>, next: uint32, i: nat)
    requires Opened(respond, target, log, i)
    ensures Opened(respond, target, log + [next], i)
  {
    EndsBelowKept(respond, target, log, next, i);
    assert (log + [next])[..i + 1] == log[..i + 1];
  }

  /** The bracket ends asked about, one by one. */
  lemma {:induction false} EndsBelowAt<E>(respond: Responder<E>, target: uint32, log: seq<uint32>, i: nat, j: nat)
    requires j < i < |log| && EndsBelow(respond, target, log, i)
    ensures log[j + 1] == BracketEnd(j) && ClassAt(respond, target, log, j + 1) == Ok(Below)
  {
    if j < i - 1 { EndsBelowAt(respond, target, log, i - 1, j); }
  }

  lemma EndsBelowNext<E>(respond: Responder<E>, target: uint32, log: seq<uint32>, next: uint32, i: nat)
    requires |log| == i + 1 && EndsBelow(respond, target, log, i) && next == BracketEnd(i)
    requires ClassAt(respond, target, log + [next], i + 1) == Ok(Below)
    ensures EndsBelow(respond, target, log + [next], i + 1)
    ensures Saw(respond, target, log + [next], next, Below)
  {
    EndsBelowKept(respond, target, log, next, i);
  }

  /** The state of the exponential phase before it asks about the `i`-th bracket end. */
  ghost predicate Growing<E>(respond: Responder<E>, target: uint32, log: seq<uint32>, i: nat) {
    && i <= 32 && |log| == i + 1
    && Bracketed(respond, target, log, BracketStart(i), BracketEnd(i))
    && (forall j :: 0 <= j < |log| ==> log[j] < BracketEnd(i))
    && EndsBelow(respond, target, log, i) && Judged(respond, target, log, |log|)
  }

  /** The bracket end repeats no question, and if its answer is below, the next bracket is open. */
  lemma GrowingStep<E>(respond: Responder<E>, target: uint32, log: seq<uint32>, i: nat, high: uint32)
    requires Growing(respond, target, log, i) && high == BracketEnd(i)
    ensures NoRepeat(log + [high])
    ensures Bracketed(respond, target, log + [high], BracketStart(i), high)
    ensures EndsBelow(respond, target, log + [high], i)
    ensures ClassAt(respond, target, log + [high], i + 1) == Ok(Below) ==>
              && EndsBelow(respond, target, log + [high], i + 1)
              && (i < 32 ==> Growing(respond, target, log + [high], i + 1))
  {
    EndsBelowKept(respond, target, log, high, i);
    SawKept(respond, target, log, high, BracketStart(i), Below);
    JudgedKept(respond, target, log, high);
    if ClassAt(respond, target, log + [high], i + 1) == Ok(Below) {
      EndsBelowNext(respond, target, log, high, i);
      NextBracketEnd(i);
    }
  }

  /** Asks about the end of the `i`-th bracket. */
  method AskEnd<E>(observer: Observer<E>, high: uint32, target: uint32, ghost i: nat)
    returns (r: Result<(SegmentObservation, OrderingClass), CalibrationError<E>>)
    requires Growing(observer.respond, target, observer.log, i) && high == BracketEnd(i)
    modifies observer
    ensures NoRepeat(observer.log) && |observer.log| == i + 2 && observer.log[i + 1] == high
    ensures EndsBelow(observer.respond, target, observer.log, i)
    ensures r.Ok? ==>
              && Seen(observer.respond, target, observer.log, high, r.value.0, r.value.1)
              && Judged(observer.respond, target, observer.log, |observer.log|)
              && Bracketed(observer.respond, target, observer.log, BracketStart(i), high)
              && (r.value.1 == Below ==> EndsBelow(observer.respond, target, observer.log, i + 1))
              && (r.value.1 != Below ==> Opened(observer.respond, target, observer.log, i))
    ensures r.Ok? && r.value.1 == Below && i < 32 ==> Growing(observer.respond, target, observer.log, i + 1)
    ensures r.Err? ==> FailedLast(observer.respond, target, observer.log, r.error)
    ensures i < 32 <==> high < U32_MAX
    ensures i < 32 ==> BracketEnd(i + 1) == NextHigh(high) && BracketStart(i + 1) == high
  {
    NextBracketEnd(i);
    GrowingStep(observer.respond, target, observer.log, i, high);
    r := Ask(observer, high, target);
  }

  /** The exponential phase: it asks about the bracket ends in order, each seen below the target but the last, and
      stops at the first that is not, or at an answer it cannot use. */
  method Bracket<E>(observer: Observer<E>, target: uint32)
    returns (r: Result<(uint32, uint32, SegmentObservation, OrderingClass), CalibrationError<E>>, ghost i: nat)
    requires Growing(observer.respond, target, observer.log, 0)
    modifies observer
    ensures NoRepeat(observer.log) && i <= 32 && |observer.log| == i + 2 && observer.log[i + 1] == BracketEnd(i)
    ensures EndsBelow(observer.respond, target, observer.log, i)
    ensures r.Ok? ==>
              && Opened(observer.respond, target, observer.log, i)
              && Judged(observer.respond, target, observer.log, |observer.log|)
    ensures r.Ok? ==>
              var (below, high, observation, cls) := r.value;
              && high == BracketEnd(i) && below == BracketStart(i)
              && Bracketed(observer.respond, target, observer.log, below, high)
              && cls != Below && Seen(observer.respond, target, observer.log, high, observation, cls)
    ensures r.Err? ==>
              || (&& r.error == Exhausted && Saw(observer.respond, target, observer.log, U32_MAX, Below)
                  && i == 32 && EndsBelow(observer.respond, target, observer.log, 33)
                  && Judged(observer.respond, target, observer.log, |observer.log|))
              || FailedLast(observer.respond, target, observer.log, r.error)
  {
    ghost var respond := observer.respond;
    var below: uint32, high: uint32 := 0, 1;
    i := 0;
    while true
      invariant Growing(respond, target, observer.log, i)
      invariant i <= 32 && high == BracketEnd(i) && below == BracketStart(i)
      decreases 32 - i
    {
      var answer := AskEnd(observer, high, target, i);
      if answer.Err? {
        return Err(answer.error), i;
      }
      if answer.value.1 != Below {
        return Ok((below, high, answer.value.0, answer.value.1)), i;
      }
      below := high;
      if high == U32_MAX {
        return Err(Exhausted), i;
      }
      high := NextHigh(high);
      i := i + 1;
    }
  }

  /** What is left of the `i`-th bracket once it has been halved down to the `j`-th power of two. */
  ghost predicate Halved(i: nat, j: nat, width: int) {
    && i <= 32 && (if i == 0 then j == 0 && width == 1 else j <= i - 1)
    && (i < 32 ==> width == Pow2(j)) && (i == 32 ==> Pow2(j) - 1 <= width <= Pow2(j))
  }

  lemma HalvedStart(i: nat)
    requires i <= 32
    ensures Halved(i, if i == 0 then 0 else i - 1, BracketEnd(i) - BracketStart(i))
  {
    Pow2Of32();
  }

  lemma HalvedStep(i: nat, j: nat, width: int)
    requires Halved(i, j, width) && width > 1
    ensures i > 0 && j > 0 && Halved(i, j - 1, width / 2) && Halved(i, j - 1, width - width / 2)
  {
  }

  /** The questions asked once the `i`-th bracket has been halved down to the `j`-th power of two. */
  function Asked(i: nat, j: nat): int {
    i + 2 + (if i == 0 then 0 else i - 1 - j)
  }

  /** A question strictly inside the bracket repeats none, and narrows it from the side it is put on. */
  lemma BracketCloses<E>(respond: Responder<E>, target: uint32, log: seq<uint32>, below: int, high: int, middle: uint32)
    requires Bracketed(respond, target, log, below, high) && below < middle < high
    ensures NoRepeat(log + [middle])
    ensures Bracketed(respond, target, log + [middle], below, middle)
    ensures Saw(respond, target, log + [middle], middle, Below) ==>
              Bracketed(respond, target, log + [middle], middle, high)
  {
    SawKept(respond, target, log, middle, below, Below);
  }

  /** The state of the binary phase. */
  ghost predicate Closing<E>(respond: Responder<E>, target: uint32, log: seq<uint32>, i: nat, j: nat,
                             below: int, high: int, observation: SegmentObservation, cls: OrderingClass) {
    && BracketStart(i) <= below < high <= BracketEnd(i) && high <= U32_MAX
    && Bracketed(respond, target, log, below, high)
    && Halved(i, j, high - below) && |log| == Asked(i, j)
    && cls != Below && Seen(respond, target, log, high, observation, cls) && Opened(respond, target, log, i)
    && Judged(respond, target, log, |log|)
  }

  /** The bracket found is the first state of the binary phase. */
  lemma ClosingStart<E>(respond: Responder<E>, target: uint32, log: seq<uint32>, i: nat, below: int, high: int,
                        observation: SegmentObservation, cls: OrderingClass)
    requires i <= 32 && |log| == i + 2 && below == BracketStart(i) && high == BracketEnd(i)
    requires Bracketed(respond, target, log, below, high) && Opened(respond, target, log, i)
    requires Judged(respond, target, log, |log|)
    requires 0 <= high <= U32_MAX && cls != Below && Seen(respond, target, log, high, observation, cls)
    ensures Closing(respond, target, log, i, if i == 0 then 0 else i - 1, below, high, observation, cls)
  {
    HalvedStart(i);
    NextBracketEnd(i);
  }

  /** The middle repeats no question. */
  lemma ClosingAsks<E>(respond: Responder<E>, target: uint32, log: seq<uint32>, i: nat, j: nat,
                       below: int, high: int, observation: SegmentObservation, cls: OrderingClass, middle: uint32)
    requires Closing(respond, target, log, i, j, below, high, observation, cls) && below + 1 < high
    requires middle == below + (high - below) / 2
    ensures j > 0 && NoRepeat(log + [middle]) && |log| + 1 <= 65
  {
    HalvedStep(i, j, high - below);
    BracketCloses(respond, target, log, below, high, middle);
  }

  /** An answer below moves the lower end. */
  lemma ClosingBelow<E>(respond: Responder<E>, target: uint32, log: seq<uint32>, i: nat, j: nat,
                        below: int, high: int, observation: SegmentObservation, cls: OrderingClass, middle: uint32)
    requires Closing(respond, target, log, i, j, below, high, observation, cls) && below + 1 < high && j > 0
    requires middle == below + (high - below) / 2 && Judged(respond, target, log + [middle], |log| + 1)
    requires Saw(respond, target, log + [middle], middle, Below)
    ensures Closing(respond, target, log + [middle], i, j - 1, middle, high, observation, cls)
  {
    HalvedStep(i, j, high - below);
    BracketCloses(respond, target, log, below, high, middle);
    SeenKept(respond, target, log, middle, high, observation, cls);
    OpenedKept(respond, target, log, middle, i);
  }

  /** Any other answer moves the upper end. */
  lemma ClosingAbove<E>(respond: Responder<E>, target: uint32, log: seq<uint32>, i: nat, j: nat,
                        below: int, high: int, observation: SegmentObservation, cls: OrderingClass, middle: uint32,
                        o: SegmentObservation, c: OrderingClass)
    requires Closing(respond, target, log, i, j, below, high, observation, cls) && below + 1 < high && j > 0
    requires middle == below + (high - below) / 2 && Judged(respond, target, log + [middle], |log| + 1)
    requires c != Below && Seen(respond, target, log + [middle], middle, o, c)
    ensures Closing(respond, target, log + [middle], i, j - 1, below, middle, o, c)
  {
    HalvedStep(i, j, high - below);
    BracketCloses(respond, target, log, below, high, middle);
    OpenedKept(respond, target, log, middle, i);
  }

  lemma ClosingEnd<E>(respond: Responder<E>, target: uint32, log: seq<uint32>, i: nat, j: nat,
                      below: int, high: int, observation: SegmentObservation, cls: OrderingClass)
    requires Closing(respond, target, log, i, j, below, high, observation, cls) && below + 1 >= high
    requires SupportedPo2(target)
    ensures Outcome(respond, target, log,
                    if Classify(observation, target) == Some(Exact) then Ok(Selection(high, observation))
                    else Err(Crossed))
  {
    if cls == Exact {
      ClosedExact(respond, target, log, i, j, below, high, observation);
    } else {
      ClosedAbove(respond, target, log, i, j, below, high, observation);
    }
  }

  lemma ClosedExact<E>(respond: Responder<E>, target: uint32, log: seq<uint32>, i: nat, j: nat,
                       below: int, high: int, observation: SegmentObservation)
    requires Closing(respond, target, log, i, j, below, high, observation, Exact) && below + 1 >= high
    requires SupportedPo2(target)
    ensures Outcome(respond, target, log, Ok(Selection(high, observation)))
  {
    CostOf(i, j, high, |log|);
    assert InOpened(respond, target, log, high);
  }

  lemma ClosedAbove<E>(respond: Responder<E>, target: uint32, log: seq<uint32>, i: nat, j: nat,
                       below: int, high: int, observation: SegmentObservation)
    requires Closing(respond, target, log, i, j, below, high, observation, Above) && below + 1 >= high
    ensures Outcome(respond, target, log, Err(Crossed))
  {
    CostOf(i, j, high, |log|);
    assert Saw(respond, target, log, below + 1, Above) && InOpened(respond, target, log, below + 1);
  }

  lemma FailedOutcome<E>(respond: Responder<E>, target: uint32, log: seq<uint32>, e: CalibrationError<E>)
    requires NoRepeat(log) && |log| <= 65 && FailedLast(respond, target, log, e)
    ensures Outcome(respond, target, log, Err(e))
  {
  }

  /** Asks about the middle of the bracket. */
  method AskInside<E>(observer: Observer<E>, middle: uint32, target: uint32, ghost i: nat, ghost j: nat,
                      ghost below: int, ghost high: int, ghost observation: SegmentObservation,
                      ghost cls: OrderingClass)
    returns (r: Result<(SegmentObservation, OrderingClass), CalibrationError<E>>)
    requires Closing(observer.respond, target, observer.log, i, j, below, high, observation, cls) && below + 1 < high
    requires middle == below + (high - below) / 2
    modifies observer
    ensures j > 0
    ensures r.Ok? && r.value.1 == Below ==>
              Closing(observer.respond, target, observer.log, i, j - 1, middle, high, observation, cls)
    ensures r.Ok? && r.value.1 != Below ==>
              Closing(observer.respond, target, observer.log, i, j - 1, below, middle, r.value.0, r.value.1)
    ensures r.Err? ==> Outcome(observer.respond, target, observer.log, Err(r.error))
  {
    ghost var before := observer.log;
    ClosingAsks(observer.respond, target, before, i, j, below, high, observation, cls, middle);
    r := Ask(observer, middle, target);
    if r.Err? {
      FailedOutcome(observer.respond, target, observer.log, r.error);
    } else if r.value.1 == Below {
      ClosingBelow(observer.respond, target, before, i, j, below, high, observation, cls, middle);
    } else {
      ClosingAbove(observer.respond, target, before, i, j, below, high, observation, cls, middle, r.value.0, r.value.1);
    }
  }

  lemma BracketFailed<E>(respond: Responder<E>, target: uint32, log: seq<uint32>, i: nat, e: CalibrationError<E>)
    requires NoRepeat(log) && i <= 32 && |log| == i + 2
    requires || (&& e == Exhausted && Saw(respond, target, log, U32_MAX, Below) && i == 32
                 && EndsBelow(respond, target, log, 33) && Judged(respond, target, log, |log|))
             || FailedLast(respond, target, log, e)
    ensures Outcome(respond, target, log, Err(e))
  {
    if e != Exhausted { FailedOutcome(respond, target, log, e); }
  }

  /** The binary phase: it closes the bracket, asking at most once about each count in between. */
  method Bisect<E>(observer: Observer<E>, target: uint32, below0: uint32, high0: uint32,
                   observation0: SegmentObservation, ghost cls0: OrderingClass, ghost i: nat)
    returns (r: Result<Selection, CalibrationError<E>>)
    requires i <= 32 && SupportedPo2(target)
    requires Closing(observer.respond, target, observer.log, i, if i == 0 then 0 else i - 1, below0, high0,
                     observation0, cls0)
    modifies observer
    ensures Outcome(observer.respond, target, observer.log, r)
  {
    ghost var respond := observer.respond;
    var below, high, upperObservation := below0, high0, observation0;
    ghost var cls := cls0;
    ghost var j: nat := if i == 0 then 0 else i - 1;
    while below + 1 < high
      invariant Closing(respond, target, observer.log, i, j, below, high, upperObservation, cls)
      decreases high - below
    {
      var middle: uint32 := below + (high - below) / 2;
      var answer := AskInside(observer, middle, target, i, j, below, high, upperObservation, cls);
      if answer.Err? {
        return Err(answer.error);
      }
      if answer.value.1 == Below {
        below := middle;
      } else {
        high := middle;
        upperObservation := answer.value.0;
        cls := answer.value.1;
      }
      j := j - 1;
    }
    ClosingEnd(respond, target, observer.log, i, j, below, high, upperObservation, cls);
    r := if Classify(upperObservation, target) == Some(Exact) then Ok(Selection(high, upperObservation))
         else Err(Crossed);
  }

  lemma CostOf(i: nat, j: nat, n: nat, asked: nat)
    requires i <= 32 && BracketStart(i) < n <= BracketEnd(i)
    requires Halved(i, j, 1) && asked == Asked(i, j)
    ensures Cost(n, asked) && asked <= 65
  {
    if j > 0 { Pow2Monotone(1, j); }
    forall k: nat | k >= 1 && Pow2(k - 1) < n <= Pow2(k)
      ensures asked <= 2 * k + 1 && (k < 32 ==> asked == 2 * k + 1)
    {
      BracketIs(i, k, n);
    }
    if i >= 1 { NextBracketEnd(i - 1); }
  }

  lemma BracketIs(i: nat, k: nat, n: nat)
    requires i <= 32 && BracketStart(i) < n <= BracketEnd(i)
    requires k >= 1 && Pow2(k - 1) < n <= Pow2(k)
    ensures i == k
  {
    Pow2Of32();
    if k < i { Pow2Monotone(k, i - 1); }
    if i < k { Pow2Monotone(i, k - 1); }
  }

  /** `select_canonical_iterations`. */
  method SelectCanonicalIterations<E>(targetPo2: uint32, observer: Observer<E>)
    returns (r: Result<Selection, CalibrationError<E>>)
    requires observer.log == []
    modifies observer
    ensures Outcome(observer.respond, targetPo2, observer.log, r)
    ensures Told(observer.respond, targetPo2, observer.log, r)
    ensures r == Err(Malformed) <==> exists n, o :: Given(observer.respond, observer.log, n, o) && IllFormed(o)
    ensures r == Err(UnsupportedTarget) <==> !(15 <= targetPo2 <= 22)
  {
    r := Search(targetPo2, observer);
    OutcomeTells(observer.respond, targetPo2, observer.log, r);
    MalformedMeans(observer.respond, targetPo2, observer.log, r);
  }

  /** The search itself. */
  method Search<E>(targetPo2: uint32, observer: Observer<E>) returns (r: Result<Selection, CalibrationError<E>>)
    requires observer.log == []
    modifies observer
    ensures Outcome(observer.respond, targetPo2, observer.log, r)
    ensures !SupportedPo2(targetPo2) ==> r == Err(UnsupportedTarget)
  {
    if !SupportedPo2(targetPo2) {
      return Err(UnsupportedTarget);
    }
    var zero := Ask(observer, 0, targetPo2);
    if zero.Err? {
      return Err(zero.error);
    }
    match zero.value.1 {
      case Exact =>
        return Ok(Selection(0, zero.value.0));
      case Above =>
        return Err(ZeroAbove);
      case Below =>
    }
    var bracket, i := Bracket(observer, targetPo2);
    if bracket.Err? {
      BracketFailed(observer.respond, targetPo2, observer.log, i, bracket.error);
      return Err(bracket.error);
    }
    var (below, high, observation, cls) := bracket.value;
    ClosingStart(observer.respond, targetPo2, observer.log, i, below, high, observation, cls);
    r := Bisect(observer, targetPo2, below, high, observation, cls, i);
  }

  // ---------- What the answers were ----------

  /** The run asked about `n` and was given this observation. */
  ghost predicate Given<E>(respond: Responder<E>, log: seq<uint32>, n: int, o: SegmentObservation) {
    exists i :: 0 <= i < |log| && log[i] == n && respond(log[..i], log[i]) == Ok(o)
  }

  /** One segment of a smaller exponent. */
  ghost predicate Under(o: SegmentObservation, target: uint32) {
    o.segmentCount == 1 && o.singleSegmentPo2.Some? && o.singleSegmentPo2.value < target
  }

  /** No segment or several, without an exponent, or one of a larger exponent. */
  ghost predicate Over(o: SegmentObservation, target: uint32) {
    if o.segmentCount == 1 then o.singleSegmentPo2.Some? && o.singleSegmentPo2.value > target
    else o.singleSegmentPo2.None?
  }

  ghost predicate IllFormed(o: SegmentObservation) {
    (o.segmentCount == 1) != o.singleSegmentPo2.Some?
  }

  lemma ClassesAre(o: SegmentObservation, target: uint32)
    ensures Classify(o, target) == Some(Below) <==> Under(o, target)
    ensures Classify(o, target) == Some(Exact) <==> o == SegmentObservation(1, Some(target))
    ensures Classify(o, target) == Some(Above) <==> Over(o, target)
    ensures Classify(o, target) == None <==> IllFormed(o)
  {
  }

  lemma SawWasGiven<E>(respond: Responder<E>, target: uint32, log: seq<uint32>, n: int, cls: OrderingClass)
    returns (o: SegmentObservation)
    requires Saw(respond, target, log, n, cls)
    ensures Given(respond, log, n, o) && Classify(o, target) == Some(cls)
  {
    var i :| 0 <= i < |log| && log[i] == n && ClassAt(respond, target, log, i) == Ok(cls);
    o := respond(log[..i], log[i]).value;
  }

  /** What a run was told, in the observations themselves. */
  ghost predicate Told<E>(respond: Responder<E>, target: uint32, log: seq<uint32>,
                          r: Result<Selection, CalibrationError<E>>) {
    match r
    case Ok(s) =>
      && s.observation == SegmentObservation(1, Some(target))
      && Given(respond, log, s.workloadIterations, s.observation)
      && (s.workloadIterations > 0 ==>
            exists o :: Given(respond, log, s.workloadIterations - 1, o) && Under(o, target))
    case Err(UnsupportedTarget) => log == [] && !(15 <= target <= 22)
    case Err(Malformed) => log != [] && exists o :: respond(log[..|log| - 1], log[|log| - 1]) == Ok(o) && IllFormed(o)
    case Err(ObserveFailed(cause)) => log != [] && respond(log[..|log| - 1], log[|log| - 1]) == Err(cause)
    case Err(ZeroAbove) => exists o :: Given(respond, log, 0, o) && Over(o, target)
    case Err(Exhausted) => exists o :: Given(respond, log, 0xffff_ffff, o) && Under(o, target)
    case Err(Crossed) =>
      exists n: nat, o, p ::
        Given(respond, log, n, o) && Under(o, target) && Given(respond, log, n + 1, p) && Over(p, target)
  }

  lemma OutcomeTells<E>(respond: Responder<E>, target: uint32, log: seq<uint32>,
                        r: Result<Selection, CalibrationError<E>>)
    requires Outcome(respond, target, log, r)
    ensures Told(respond, target, log, r)
  {
    match r {
      case Ok(s) =>
        ClassesAre(s.observation, target);
        if s.workloadIterations > 0 {
          var o := SawWasGiven(respond, target, log, s.workloadIterations - 1, Below);
          ClassesAre(o, target);
        }
      case Err(ZeroAbove) =>
        var o := SawWasGiven(respond, target, log, 0, Above);
        ClassesAre(o, target);
      case Err(Exhausted) =>
        var o := SawWasGiven(respond, target, log, U32_MAX, Below);
        ClassesAre(o, target);
      case Err(Crossed) =>
        var n: nat :| Saw(respond, target, log, n, Below) && Saw(respond, target, log, n + 1, Above);
        var o := SawWasGiven(respond, target, log, n, Below);
        var p := SawWasGiven(respond, target, log, n + 1, Above);
        ClassesAre(o, target);
        ClassesAre(p, target);
      case Err(Malformed) =>
        ClassesAre(respond(log[..|log| - 1], log[|log| - 1]).value, target);
      case Err(_) =>
    }
  }

  /** A run ends as malformed exactly when it was given an ill-formed observation, which is then the last. */
  lemma MalformedMeans<E>(respond: Responder<E>, target: uint32, log: seq<uint32>,
                          r: Result<Selection, CalibrationError<E>>)
    requires Outcome(respond, target, log, r)
    ensures r == Err(Malformed) <==> exists n, o :: Given(respond, log, n, o) && IllFormed(o)
  {
    forall n, o | Given(respond, log, n, o) && IllFormed(o) ensures r == Err(Malformed) {
      var i :| 0 <= i < |log| && log[i] == n && respond(log[..i], log[i]) == Ok(o);
      assert ClassAt(respond, target, log, i) == Err(Malformed);
    }
    if r == Err(Malformed) {
      var i := |log| - 1;
      assert Given(respond, log, log[i], respond(log[..i], log[i]).value);
    }
  }

  // ---------- Monotone observers ----------

  /** The observer always answers, by a fixed well-formed observation per count. */
  ghost predicate Steady<E>(respond: Responder<E>, f: uint32 -> SegmentObservation, target: uint32) {
    && (forall n: uint32 :: Classify(f(n), target).Some?)
    && (forall h, n :: respond(h, n) == Ok(f(n)))
  }

  ghost function Rank(cls: OrderingClass): nat {
    match cls case Below => 0 case Exact => 1 case Above => 2
  }

  ghost function ClassOf(f: uint32 -> SegmentObservation, target: uint32, n: uint32): OrderingClass
    requires Classify(f(n), target).Some?
  {
    Classify(f(n), target).value
  }

  ghost predicate Monotone<E>(respond: Responder<E>, f: uint32 -> SegmentObservation, target: uint32)
    requires Steady(respond, f, target)
  {
    forall m: uint32, n: uint32 :: m <= n ==> Rank(ClassOf(f, target, m)) <= Rank(ClassOf(f, target, n))
  }

  lemma CrossedHasNoExact<E>(respond: Responder<E>, f: uint32 -> SegmentObservation, target: uint32, m: nat)
    requires Steady(respond, f, target) && Monotone(respond, f, target) && m < U32_MAX
    requires ClassOf(f, target, m) == Below && ClassOf(f, target, m + 1) == Above
    ensures forall n: uint32 :: ClassOf(f, target, n) != Exact
  {
    forall n: uint32 ensures ClassOf(f, target, n) != Exact {
      if n <= m {
        assert Rank(ClassOf(f, target, n)) <= Rank(ClassOf(f, target, m));
      } else {
        assert Rank(ClassOf(f, target, m + 1)) <= Rank(ClassOf(f, target, n));
      }
    }
  }

  /** Against a monotone observer the search succeeds exactly when some count is exact, and then selects
      the least such count. */
  lemma MonotoneFindsLeast<E>(respond: Responder<E>, f: uint32 -> SegmentObservation, target: uint32,
                              log: seq<uint32>, r: Result<Selection, CalibrationError<E>>)
    requires Outcome(respond, target, log, r) && SupportedPo2(target)
    requires Steady(respond, f, target) && Monotone(respond, f, target)
    ensures r.Ok? <==> exists n: uint32 :: ClassOf(f, target, n) == Exact
    ensures r.Ok? ==>
              && ClassOf(f, target, r.value.workloadIterations) == Exact
              && r.value.observation == f(r.value.workloadIterations)
              && forall n: uint32 :: ClassOf(f, target, n) == Exact ==> r.value.workloadIterations <= n
  {
    forall n: uint32, cls | Saw(respond, target, log, n, cls) ensures ClassOf(f, target, n) == cls {
      var i :| 0 <= i < |log| && log[i] == n && ClassAt(respond, target, log, i) == Ok(cls);
    }
    match r {
      case Ok(s) =>
        assert ClassOf(f, target, s.workloadIterations) == Exact;
        forall n: uint32 | ClassOf(f, target, n) == Exact ensures s.workloadIterations <= n {
          assert s.workloadIterations > 0 ==> Rank(ClassOf(f, target, s.workloadIterations - 1)) == 0;
        }
      case Err(ZeroAbove) =>
        assert forall n: uint32 :: Rank(ClassOf(f, target, 0)) <= Rank(ClassOf(f, target, n));
      case Err(Exhausted) =>
        assert forall n: uint32 :: Rank(ClassOf(f, target, n)) <= Rank(ClassOf(f, target, U32_MAX));
      case Err(Crossed) =>
        var m: nat :| Saw(respond, target, log, m, Below) && Saw(respond, target, log, m + 1, Above);
        CrossedHasNoExact(respond, f, target, m);
      case Err(_) =>
    }
  }

  /** An observer that goes from one segment of smaller exponents to the exact answer at `a`, and beyond it at `b`:
      the search returns `a` with that answer. */
  lemma PlateauIsFound<E>(respond: Responder<E>, f: uint32 -> SegmentObservation, target: uint32, a: uint32, b: int,
                          log: seq<uint32>, r: Result<Selection, CalibrationError<E>>)
    requires Outcome(respond, target, log, r) && 15 <= target <= 22 && a < b
    requires forall h, n :: respond(h, n) == Ok(f(n))
    requires forall n: uint32 :: n < a ==> Under(f(n), target)
    requires forall n: uint32 :: a <= n < b ==> f(n) == SegmentObservation(1, Some(target))
    requires forall n: uint32 :: b <= n ==> Over(f(n), target)
    ensures r == Ok(Selection(a, SegmentObservation(1, Some(target))))
  {
    PlateauIsMonotone(respond, f, target, a, b);
    MonotoneFindsLeast(respond, f, target, log, r);
    assert r.Ok?;
    var n := r.value.workloadIterations;
    assert n <= a && ClassOf(f, target, n) == Exact;
    assert n == a && f(n) == SegmentObservation(1, Some(target));
  }

  lemma PlateauIsMonotone<E>(respond: Responder<E>, f: uint32 -> SegmentObservation, target: uint32, a: uint32, b: int)
    requires a < b && forall h, n :: respond(h, n) == Ok(f(n))
    requires forall n: uint32 :: n < a ==> Under(f(n), target)
    requires forall n: uint32 :: a <= n < b ==> f(n) == SegmentObservation(1, Some(target))
    requires forall n: uint32 :: b <= n ==> Over(f(n), target)
    ensures Steady(respond, f, target) && Monotone(respond, f, target) && ClassOf(f, target, a) == Exact
    ensures forall n: uint32 :: n < a ==> ClassOf(f, target, n) == Below
  {
    forall n: uint32
      ensures Classify(f(n), target) == Some(if n < a then Below else if n < b then Exact else Above)
    {
      ClassesAre(f(n), target);
    }
  }

  // ---------- Other observers ----------

  /** Exact at 3 and at 8, and below everywhere else. */
  function TwoExact(target: uint32, n: uint32): SegmentObservation {
    SegmentObservation(1, Some(if n == 3 || n == 8 then target else 0))
  }

  /** For an observer that is not monotone the result need not be the least exact count: this one is exact at 3, and
      every run of the search selects 8. */
  lemma LeastCanBeMissed<E>(target: uint32, log: seq<uint32>, r: Result<Selection, CalibrationError<E>>)
    requires SupportedPo2(target)
    requires Outcome((h: seq<uint32>, n: uint32) => Ok(TwoExact(target, n)), target, log, r)
    ensures Classify(TwoExact(target, 3), target) == Some(Exact)
    ensures r == Ok(Selection(8, TwoExact(target, 8)))
  {
    var respond: Responder<E> := (h: seq<uint32>, n: uint32) => Ok(TwoExact(target, n));
    match r {
      case Ok(s) =>
        if s.workloadIterations == 3 { ThreeNotOpened(respond, target, log); }
      case Err(Exhausted) =>
        assert Pow2(3) == 2 * Pow2(2) == 4 * Pow2(1) == 8;
        EndsBelowAt(respond, target, log, 33, 3);
      case Err(_) =>
    }
  }

  /** The search run against this observer. */
  method MissLeast(target: uint32) returns (r: Result<Selection, CalibrationError<()>>)
    requires SupportedPo2(target)
    ensures Classify(TwoExact(target, 3), target) == Some(Exact)
    ensures r == Ok(Selection(8, TwoExact(target, 8)))
  {
    var observer := new Observer<()>((h: seq<uint32>, n: uint32) => Ok(TwoExact(target, n)));
    r := SelectCanonicalIterations(target, observer);
    LeastCanBeMissed(target, observer.log, r);
  }

  lemma ThreeNotOpened<E>(respond: Responder<E>, target: uint32, log: seq<uint32>)
    requires SupportedPo2(target) && forall h, n :: respond(h, n) == Ok(TwoExact(target, n))
    ensures !InOpened(respond, target, log, 3)
  {
    forall i: nat | i <= 32 && BracketStart(i) < 3 <= BracketEnd(i) ensures !Opened(respond, target, log, i) {
      if Opened(respond, target, log, i) {
        assert Pow2(2) == 2 * Pow2(1) == 4;
        BracketIs(i, 2, 3);
      }
    }
  }
}
