/** What the generator asks of its prover and returns, receipt by receipt, and that it succeeds with an honest one. */
module GeneratorMeaning {
  import opened Wrappers
  import opened Words
  import opened Plan
  import opened Seal
  import opened Ancestry
  import opened Replay
  import opened OracleMeaning
  import opened Generator

  // ---------- The prover's answers ----------

  /** The receipts of the steps are the prover's answers: lifts of the segments, joins of the left with the right
      receipt, and the conditional receipt resolved with the assumption. */
  ghost predicate AnswersOf(prover: Prover, family: Family, segments: seq<SegmentReceipt>,
                            assumption: Option<Succinct>, steps: seq<RecursiveStep>) {
    match family
    case TerminalJoin =>
      && |segments| == 2 && |steps| == 3
      && prover.lift(0, segments[0]) == Some(steps[0].receipt) && prover.lift(1, segments[1]) == Some(steps[1].receipt)
      && prover.join(2, steps[0].receipt, steps[1].receipt) == Some(steps[2].receipt)
    case TerminalResolve =>
      && |segments| == 1 && |steps| == 2 && assumption.Some?
      && prover.lift(0, segments[0]) == Some(steps[0].receipt)
      && prover.resolve(1, steps[0].receipt, assumption.value) == Some(steps[1].receipt)
    case ResolveThenJoin =>
      && |segments| == 2 && |steps| == 4 && assumption.Some?
      && prover.lift(0, segments[0]) == Some(steps[0].receipt) && prover.lift(1, segments[1]) == Some(steps[1].receipt)
      && prover.resolve(2, steps[1].receipt, assumption.value) == Some(steps[2].receipt)
      && prover.join(3, steps[0].receipt, steps[2].receipt) == Some(steps[3].receipt)
  }

  /** The lifts have the expected exponents. */
  ghost predicate LiftedAs(p: Profile, family: Family, steps: seq<RecursiveStep>, expected: seq<uint32>)
    requires |p.liftIds| == 8
  {
    var n := if family == TerminalResolve then 1 else 2;
    && |expected| == n <= |steps|
    && forall i :: 0 <= i < n ==>
         15 <= expected[i] <= 22 && steps[i].receipt.controlId == p.liftIds[expected[i] - 15]
  }

  lemma LiftIdIs(p: Profile, controlId: Digest, po2: uint32)
    requires WellFormedProfile(p)
    ensures LiftPo2(p, controlId) == Some(po2) <==> 15 <= po2 <= 22 && controlId == p.liftIds[po2 - 15]
  {
    if 15 <= po2 <= 22 { assert LiftId(p, po2) == p.liftIds[po2 - 15]; }
  }

  /** Step `k` is the prover's answer, calibrated if it is a lift. */
  ghost predicate Answered(p: Profile, prover: Prover, source: CompositeReceipt, assumption: Option<Succinct>,
                           expected: seq<uint32>, steps: seq<RecursiveStep>, k: nat)
    requires WellFormedProfile(p) && k < |steps|
  {
    && Answer(prover, steps[k].inputs, source, assumption, steps[..k]) == Some(steps[k].receipt)
    && LiftCalibrated(p, steps[k].inputs, steps[k].receipt, expected)
  }

  lemma JoinAnswers(p: Profile, prover: Prover, source: CompositeReceipt, assumption: Option<Succinct>,
                    expected: seq<uint32>, steps: seq<RecursiveStep>)
    requires WellFormedProfile(p) && |source.segments| == 2 == |expected|
    requires StepInputs(steps) == FamilyInputs(TerminalJoin)
    ensures |steps| == 3
    ensures && Answered(p, prover, source, assumption, expected, steps, 0)
            && Answered(p, prover, source, assumption, expected, steps, 1)
            && Answered(p, prover, source, assumption, expected, steps, 2)
       <==> && AnswersOf(prover, TerminalJoin, source.segments, assumption, steps)
            && LiftedAs(p, TerminalJoin, steps, expected)
  {
    assert steps[0].inputs == StepInputs(steps)[0] && steps[1].inputs == StepInputs(steps)[1];
    assert steps[2].inputs == StepInputs(steps)[2];
    LiftIdIs(p, steps[0].receipt.controlId, expected[0]);
    LiftIdIs(p, steps[1].receipt.controlId, expected[1]);
  }

  lemma ResolveAnswers(p: Profile, prover: Prover, source: CompositeReceipt, assumption: Option<Succinct>,
                       expected: seq<uint32>, steps: seq<RecursiveStep>)
    requires WellFormedProfile(p) && |source.segments| == 1 == |expected|
    requires StepInputs(steps) == FamilyInputs(TerminalResolve)
    ensures |steps| == 2
    ensures && Answered(p, prover, source, assumption, expected, steps, 0)
            && Answered(p, prover, source, assumption, expected, steps, 1)
       <==> && AnswersOf(prover, TerminalResolve, source.segments, assumption, steps)
            && LiftedAs(p, TerminalResolve, steps, expected)
  {
    assert steps[0].inputs == StepInputs(steps)[0] && steps[1].inputs == StepInputs(steps)[1];
    LiftIdIs(p, steps[0].receipt.controlId, expected[0]);
  }

  lemma ResolveJoinAnswers(p: Profile, prover: Prover, source: CompositeReceipt, assumption: Option<Succinct>,
                           expected: seq<uint32>, steps: seq<RecursiveStep>)
    requires WellFormedProfile(p) && |source.segments| == 2 == |expected|
    requires StepInputs(steps) == FamilyInputs(ResolveThenJoin)
    ensures |steps| == 4
    ensures && Answered(p, prover, source, assumption, expected, steps, 0)
            && Answered(p, prover, source, assumption, expected, steps, 1)
            && Answered(p, prover, source, assumption, expected, steps, 2)
            && Answered(p, prover, source, assumption, expected, steps, 3)
       <==> && AnswersOf(prover, ResolveThenJoin, source.segments, assumption, steps)
            && LiftedAs(p, ResolveThenJoin, steps, expected)
  {
    assert steps[0].inputs == StepInputs(steps)[0] && steps[1].inputs == StepInputs(steps)[1];
    assert steps[2].inputs == StepInputs(steps)[2] && steps[3].inputs == StepInputs(steps)[3];
    LiftIdIs(p, steps[0].receipt.controlId, expected[0]);
    LiftIdIs(p, steps[1].receipt.controlId, expected[1]);
  }

  lemma StepsFromSplits(z: Zkvm, p: Profile, prover: Prover, family: Family, source: CompositeReceipt,
                        assumption: Option<Succinct>, expected: seq<uint32>, steps: seq<RecursiveStep>)
    requires WellFormedProfile(p) && |steps| == |FamilyInputs(family)|
    ensures StepsFrom(z, p, prover, FamilyInputs(family), source, assumption, expected, steps)
       <==> && StepInputs(steps) == FamilyInputs(family) && StepsAccepted(z, p, steps, source, assumption)
            && forall k :: 0 <= k < |steps| ==> Answered(p, prover, source, assumption, expected, steps, k)
  {
    var inputs := FamilyInputs(family);
    InOrderMeans(z, p, family, steps, source, assumption);
    if StepsFrom(z, p, prover, inputs, source, assumption, expected, steps) {
      StepsFromMeans(z, p, prover, inputs, source, assumption, expected, steps);
      forall k | 0 <= k < |steps| ensures Answered(p, prover, source, assumption, expected, steps, k) {
        assert NextStep(z, p, prover, inputs[k], source, assumption, expected, steps[..k], steps[k]);
      }
    }
    if (forall k :: 0 <= k < |steps| ==> InOrder(z, p, family, steps, source, assumption, k))
       && (forall k :: 0 <= k < |steps| ==> Answered(p, prover, source, assumption, expected, steps, k))
    {
      forall k | 0 <= k < |steps|
        ensures NextStep(z, p, prover, inputs[k], source, assumption, expected, steps[..k], steps[k])
      {
        assert InOrder(z, p, family, steps, source, assumption, k);
        assert Answered(p, prover, source, assumption, expected, steps, k);
      }
    }
  }

  lemma AnswersMean(p: Profile, prover: Prover, family: Family, source: CompositeReceipt,
                    assumption: Option<Succinct>, expected: seq<uint32>, steps: seq<RecursiveStep>)
    requires WellFormedProfile(p) && |source.segments| == SegmentsOf(family) == |expected|
    requires StepInputs(steps) == FamilyInputs(family)
    ensures (forall k :: 0 <= k < |steps| ==> Answered(p, prover, source, assumption, expected, steps, k))
       <==> AnswersOf(prover, family, source.segments, assumption, steps) && LiftedAs(p, family, steps, expected)
  {
    match family {
      case TerminalJoin => JoinAnswers(p, prover, source, assumption, expected, steps);
      case TerminalResolve => ResolveAnswers(p, prover, source, assumption, expected, steps);
      case ResolveThenJoin => ResolveJoinAnswers(p, prover, source, assumption, expected, steps);
    }
  }

  /** The step loop makes exactly the lists of answers that are the family's steps with the expected exponents. */
  lemma StepsFromMean(z: Zkvm, p: Profile, prover: Prover, family: Family, source: CompositeReceipt,
                      assumption: Option<Succinct>, expected: seq<uint32>, steps: seq<RecursiveStep>)
    requires WellFormedProfile(p) && |source.segments| == SegmentsOf(family) == |expected|
    ensures && StepsFrom(z, p, prover, FamilyInputs(family), source, assumption, expected, steps)
            && |steps| == |FamilyInputs(family)|
       <==> && AnswersOf(prover, family, source.segments, assumption, steps) && LiftedAs(p, family, steps, expected)
            && FamilySteps(z, p, family, steps, source.segments, assumption)
  {
    if |steps| == |FamilyInputs(family)| {
      StepsFromSplits(z, p, prover, family, source, assumption, expected, steps);
      StepsAreFamily(z, p, family, steps, source, assumption);
      if StepInputs(steps) == FamilyInputs(family) {
        AnswersMean(p, prover, family, source, assumption, expected, steps);
      }
    }
  }

  // ---------- What is generated ----------

  /** The assumption is the one the source gives: none without an assumption, the prover's own one-segment proof, or
      the supplied receipt, lifted with exponent 15. */
  ghost predicate AssumptionObtained(z: Zkvm, p: Profile, prover: Prover, imageId: Digest, statement: seq<uint8>,
                                     family: Family, source: AssumptionSource, assumption: Option<Receipt>)
    requires |p.liftIds| == 8
  {
    match source
    case NoSource => family == TerminalJoin && assumption == None
    case Prove =>
      && family != TerminalJoin && assumption.Some? && prover.assumptionSession.Some?
      && prover.assumptionProof == Some(ProveInfo(1, false, assumption.value))
      && Lifts(z, p, assumption.value, imageId, statement, prover.assumptionSession.value)
    case Supplied(receipt) =>
      family != TerminalJoin && assumption == Some(receipt) && Lifts(z, p, receipt, imageId, statement, 15)
  }

  /** An assumption as the replay asks for it, of this exponent, whose own claim is the successful one. */
  ghost predicate Lifts(z: Zkvm, p: Profile, receipt: Receipt, imageId: Digest, statement: seq<uint8>, po2: uint32)
    requires |p.liftIds| == 8
  {
    && Assumed(z, p, receipt, imageId, statement)
    && 15 <= po2 <= 22 && receipt.inner.succinct.controlId == p.liftIds[po2 - 15]
    && HasDigest(z, receipt.inner.succinct.claim, z.digestOf(z.okClaim(imageId, statement)))
  }

  /** Everything the generator returns, field by field. */
  ghost predicate OracleGenerated(z: Zkvm, p: Profile, prover: Prover, imageId: Digest, statement: seq<uint8>,
                                  family: Family, expected: seq<uint32>, chosen: AssumptionSource,
                                  oracle: RecursiveOracle)
    requires |p.liftIds| == 8
  {
    && oracle.formatVersion == 2 && oracle.family == family
    && SourceObtained(z, prover, imageId, statement, family, expected, oracle.sourceReceipt)
    && AssumptionObtained(z, p, prover, imageId, statement, family, chosen, oracle.assumptionReceipt)
    && StepsObtained(z, p, prover, imageId, statement, expected, oracle)
  }

  /** The steps, the recorded assumption and the final receipt. */
  ghost predicate StepsObtained(z: Zkvm, p: Profile, prover: Prover, imageId: Digest, statement: seq<uint8>,
                                expected: seq<uint32>, oracle: RecursiveOracle)
    requires |p.liftIds| == 8 && oracle.sourceReceipt.inner.CompositeInner?
  {
    var segments := oracle.sourceReceipt.inner.composite.segments;
    && AnswersOf(prover, oracle.family, segments, RetainedAssumption(oracle), oracle.steps)
    && LiftedAs(p, oracle.family, oracle.steps, expected)
    && FamilySteps(z, p, oracle.family, oracle.steps, segments, RetainedAssumption(oracle))
    && Recorded(z, p, segments[|segments| - 1].claim, oracle.family, RetainedAssumption(oracle))
    && oracle.finalStep as int + 1 == |oracle.steps|
    && FinalHolds(z, p, oracle.family, oracle.steps[oracle.finalStep].receipt, imageId, statement)
  }

  lemma AssembledMeans(z: Zkvm, p: Profile, prover: Prover, imageId: Digest, statement: seq<uint8>,
                       expected: seq<uint32>, oracle: RecursiveOracle)
    requires WellFormedProfile(p) && oracle.sourceReceipt.inner.CompositeInner? && oracle.formatVersion == 2
    requires |oracle.sourceReceipt.inner.composite.segments| == SegmentsOf(oracle.family) == |expected|
    ensures AssembledAs(z, p, prover, imageId, statement, oracle.family, expected, oracle.assumptionReceipt,
                        oracle.sourceReceipt, oracle)
       <==> StepsObtained(z, p, prover, imageId, statement, expected, oracle)
  {
    var (source, assumption) := (oracle.sourceReceipt.inner.composite, RetainedAssumption(oracle));
    RecordedMeans(z, p, source, oracle.family, assumption);
    StepsFromMean(z, p, prover, oracle.family, source, assumption, expected, oracle.steps);
    if oracle.finalStep as int + 1 == |oracle.steps| {
      FinalMeans(z, p, oracle.family, oracle.steps[oracle.finalStep].receipt, imageId, statement);
    }
  }

  lemma LiftsMeans(z: Zkvm, p: Profile, receipt: Receipt, imageId: Digest, statement: seq<uint8>, po2: uint32)
    requires WellFormedProfile(p)
    ensures TopLevelAccepted(z, p, receipt, imageId, statement, po2) <==> Lifts(z, p, receipt, imageId, statement, po2)
  {
    AssumedMeans(z, p, receipt, imageId, statement);
    if receipt.inner.SuccinctInner? { LiftIdIs(p, receipt.inner.succinct.controlId, po2); }
  }

  lemma AssumptionFromMeans(z: Zkvm, p: Profile, prover: Prover, imageId: Digest, statement: seq<uint8>,
                            family: Family, source: AssumptionSource, assumption: Option<Receipt>)
    requires WellFormedProfile(p)
    ensures AssumptionFrom(z, p, prover, imageId, statement, family, source, assumption)
       <==> AssumptionObtained(z, p, prover, imageId, statement, family, source, assumption)
  {
    if assumption.Some? {
      if prover.assumptionSession.Some? {
        LiftsMeans(z, p, assumption.value, imageId, statement, prover.assumptionSession.value);
      }
      LiftsMeans(z, p, assumption.value, imageId, statement, 15);
    }
  }

  /** The execute-only run and the source proof have the expected number of segments, of supported exponents. */
  ghost predicate SourceObtained(z: Zkvm, prover: Prover, imageId: Digest, statement: seq<uint8>, family: Family,
                                 expected: seq<uint32>, receipt: Receipt) {
    && StatementFor(statement, imageId) && prover.preflight == Some(expected)
    && |expected| == (if family == TerminalResolve then 1 else 2)
    && (forall i :: 0 <= i < |expected| ==> 15 <= expected[i] <= 22)
    && prover.sourceProof == Some(ProveInfo(|expected|, false, receipt))
    && receipt.journal == statement && z.verify(receipt, imageId) && receipt.inner.CompositeInner?
    && |receipt.inner.composite.segments| == |expected|
    && |receipt.inner.composite.assumptions| == (if family == TerminalJoin then 0 else 1)
  }

  lemma SourceMeans(z: Zkvm, prover: Prover, imageId: Digest, statement: seq<uint8>, family: Family,
                    expected: seq<uint32>, receipt: Receipt)
    ensures && Calibrated(prover, imageId, statement, family, expected)
            && SourceFrom(z, prover, imageId, statement, family, |expected|, receipt)
       <==> SourceObtained(z, prover, imageId, statement, family, expected, receipt)
  {
    StatementMeans(statement, imageId);
  }

  /** The generator returns exactly these oracles. */
  lemma GeneratedMeans(z: Zkvm, p: Profile, prover: Prover, imageId: Digest, statement: seq<uint8>, family: Family,
                       expected: seq<uint32>, chosen: AssumptionSource, oracle: RecursiveOracle)
    requires WellFormedProfile(p)
    ensures GeneratedAs(z, p, prover, imageId, statement, family, expected, chosen, oracle)
       <==> OracleGenerated(z, p, prover, imageId, statement, family, expected, chosen, oracle)
  {
    SourceMeans(z, prover, imageId, statement, family, expected, oracle.sourceReceipt);
    AssumptionFromMeans(z, p, prover, imageId, statement, family, chosen, oracle.assumptionReceipt);
    if SourceObtained(z, prover, imageId, statement, family, expected, oracle.sourceReceipt)
       && oracle.formatVersion == 2 && oracle.family == family
    {
      AssembledMeans(z, p, prover, imageId, statement, expected, oracle);
    }
  }

  // ---------- Honest provers ----------

  /** Lifts of the segments state the segments' claims, with the expected exponents, whenever they are asked for. */
  ghost predicate HonestLifts(z: Zkvm, p: Profile, prover: Prover, segments: seq<SegmentReceipt>, expected: seq<uint32>)
    requires |p.liftIds| == 8 && |segments| == |expected|
  {
    forall n, i :: 0 <= i < |segments| ==> HonestLift(z, p, prover.lift(n, segments[i]), segments[i].claim, expected[i])
  }

  ghost predicate HonestLift(z: Zkvm, p: Profile, answer: Option<Succinct>, claim: Claim, po2: uint32)
    requires |p.liftIds| == 8
  {
    answer.Some? && answer.value.claim == Value(claim) && States(z, p, answer.value, Lift(po2), claim)
  }

  /** Joins state the join of the two claims, in the order of the receipts, wherever there is one. */
  ghost predicate HonestJoins(z: Zkvm, p: Profile, prover: Prover)
    requires |p.liftIds| == 8
  {
    forall n, a: Succinct, b: Succinct, c ::
      a.claim.Value? && b.claim.Value? && z.join(a.claim.value, b.claim.value) == Some(c) ==>
        HonestAnswer(z, p, prover.join(n, a, b), Join, c)
  }

  /** Resolutions state the resolution of the first receipt's claim with the second's, wherever there is one. */
  ghost predicate HonestResolves(z: Zkvm, p: Profile, prover: Prover)
    requires |p.liftIds| == 8
  {
    forall n, a: Succinct, b: Succinct, c ::
      a.claim.Value? && z.resolve(a.claim.value, b.claim) == Some(c) ==>
        HonestAnswer(z, p, prover.resolve(n, a, b), Resolve, c)
  }

  ghost predicate HonestAnswer(z: Zkvm, p: Profile, answer: Option<Succinct>, terminal: CandidateTerminal, claim: Claim)
    requires |p.liftIds| == 8
  {
    answer.Some? && answer.value.claim == Value(claim) && States(z, p, answer.value, terminal, claim)
  }

  /** Every receipt of the claim from the family's last program verifies. */
  ghost predicate Verifies(z: Zkvm, p: Profile, family: Family, claim: Claim, imageId: Digest, statement: seq<uint8>)
    requires |p.liftIds| == 8
  {
    forall r: Succinct ::
      r.claim == Value(claim) && States(z, p, r, if family == TerminalResolve then Resolve else Join, claim) ==>
        z.verify(Receipt(SuccinctInner(r), statement), imageId)
  }

  /** The segments' claims, joined and resolved in the family's order, come to `claim`. */
  ghost predicate Yields(z: Zkvm, family: Family, segments: seq<SegmentReceipt>, assumption: Option<Succinct>,
                         claim: Claim) {
    match family
    case TerminalJoin => |segments| == 2 && z.join(segments[0].claim, segments[1].claim) == Some(claim)
    case TerminalResolve =>
      |segments| == 1 && assumption.Some? && z.resolve(segments[0].claim, assumption.value.claim) == Some(claim)
    case ResolveThenJoin =>
      && |segments| == 2 && assumption.Some? && z.resolve(segments[1].claim, assumption.value.claim).Some?
      && z.join(segments[0].claim, z.resolve(segments[1].claim, assumption.value.claim).value) == Some(claim)
  }

  lemma HonestLiftIs(z: Zkvm, p: Profile, prover: Prover, segments: seq<SegmentReceipt>, expected: seq<uint32>,
                     i: uint32)
    returns (step: RecursiveStep)
    requires |p.liftIds| == 8 && |segments| == |expected| && HonestLifts(z, p, prover, segments, expected)
    requires i < |segments|
    ensures prover.lift(i, segments[i]) == Some(step.receipt) && step.receipt.claim == Value(segments[i].claim)
    ensures IsLift(z, p, step, i, i, segments[i].claim)
    ensures 15 <= expected[i] <= 22 && step.receipt.controlId == p.liftIds[expected[i] - 15]
  {
    assert HonestLift(z, p, prover.lift(i, segments[i]), segments[i].claim, expected[i]);
    step := RecursiveStep(i, OpLift, LiftOf(i), prover.lift(i, segments[i]).value);
    assert States(z, p, step.receipt, Lift(expected[i]), segments[i].claim);
  }

  /** An honest prover's answers are the family's steps, and the last one states the claim they come to. */
  lemma HonestSteps(z: Zkvm, p: Profile, prover: Prover, family: Family, segments: seq<SegmentReceipt>,
                    assumption: Option<Succinct>, expected: seq<uint32>, claim: Claim)
    returns (steps: seq<RecursiveStep>)
    requires |p.liftIds| == 8 && |segments| == |expected| && Yields(z, family, segments, assumption, claim)
    requires HonestLifts(z, p, prover, segments, expected) && HonestJoins(z, p, prover) && HonestResolves(z, p, prover)
    ensures 0 < |steps| <= 4 && AnswersOf(prover, family, segments, assumption, steps)
    ensures LiftedAs(p, family, steps, expected) && FamilySteps(z, p, family, steps, segments, assumption)
    ensures var last := steps[|steps| - 1].receipt;
            last.claim == Value(claim)
            && States(z, p, last, if family == TerminalResolve then Resolve else Join, claim)
  {
    var first := HonestLiftIs(z, p, prover, segments, expected, 0);
    match family {
      case TerminalJoin =>
        var second := HonestLiftIs(z, p, prover, segments, expected, 1);
        var joined := prover.join(2, first.receipt, second.receipt);
        assert HonestAnswer(z, p, joined, Join, claim);
        steps := [first, second, RecursiveStep(2, OpJoin, JoinOf(0, 1), joined.value)];
      case TerminalResolve =>
        var resolved := prover.resolve(1, first.receipt, assumption.value);
        assert HonestAnswer(z, p, resolved, Resolve, claim);
        steps := [first, RecursiveStep(1, OpResolve, ResolveOf(0), resolved.value)];
      case ResolveThenJoin =>
        steps := HonestResolveJoin(z, p, prover, segments, assumption.value, expected, claim, first);
    }
  }

  lemma HonestResolveJoin(z: Zkvm, p: Profile, prover: Prover, segments: seq<SegmentReceipt>, assumption: Succinct,
                          expected: seq<uint32>, claim: Claim, first: RecursiveStep)
    returns (steps: seq<RecursiveStep>)
    requires |p.liftIds| == 8 && |segments| == |expected|
    requires Yields(z, ResolveThenJoin, segments, Some(assumption), claim)
    requires HonestLifts(z, p, prover, segments, expected) && HonestJoins(z, p, prover) && HonestResolves(z, p, prover)
    requires prover.lift(0, segments[0]) == Some(first.receipt) && first.receipt.claim == Value(segments[0].claim)
    requires IsLift(z, p, first, 0, 0, segments[0].claim)
    requires 15 <= expected[0] <= 22 && first.receipt.controlId == p.liftIds[expected[0] - 15]
    ensures |steps| == 4 && AnswersOf(prover, ResolveThenJoin, segments, Some(assumption), steps)
    ensures LiftedAs(p, ResolveThenJoin, steps, expected)
    ensures FamilySteps(z, p, ResolveThenJoin, steps, segments, Some(assumption))
    ensures steps[3].receipt.claim == Value(claim) && States(z, p, steps[3].receipt, Join, claim)
  {
    var second := HonestLiftIs(z, p, prover, segments, expected, 1);
    var middle := z.resolve(segments[1].claim, assumption.claim).value;
    var resolved := prover.resolve(2, second.receipt, assumption);
    assert HonestAnswer(z, p, resolved, Resolve, middle);
    var joined := prover.join(3, first.receipt, resolved.value);
    assert HonestAnswer(z, p, joined, Join, claim);
    steps := [first, second, RecursiveStep(2, OpResolve, ResolveOf(1), resolved.value),
              RecursiveStep(3, OpJoin, JoinOf(0, 2), joined.value)];
  }

  function AssumedOf(assumption: Option<Receipt>): Option<Succinct> {
    match assumption
    case Some(receipt) => if receipt.inner.SuccinctInner? then Some(receipt.inner.succinct) else None
    case None => None
  }

  /** What an honest run needs: its receipts, a claim algebra in which they come to the successful claim, and receipts
      of that claim that verify. */
  ghost predicate HonestRun(z: Zkvm, p: Profile, prover: Prover, imageId: Digest, statement: seq<uint8>, family: Family,
                            expected: seq<uint32>, chosen: AssumptionSource, source: Receipt,
                            assumption: Option<Receipt>)
    requires |p.liftIds| == 8
  {
    && SourceObtained(z, prover, imageId, statement, family, expected, source)
    && AssumptionObtained(z, p, prover, imageId, statement, family, chosen, assumption)
    && var (segments, claim) := (source.inner.composite.segments, z.okClaim(imageId, statement));
       && HonestLifts(z, p, prover, segments, expected) && HonestJoins(z, p, prover) && HonestResolves(z, p, prover)
       && Recorded(z, p, segments[|segments| - 1].claim, family, AssumedOf(assumption))
       && Yields(z, family, segments, AssumedOf(assumption), claim)
       && NoneLeft(Value(claim)) && Verifies(z, p, family, claim, imageId, statement)
  }

  lemma HonestOracle(z: Zkvm, p: Profile, prover: Prover, imageId: Digest, statement: seq<uint8>, family: Family,
                     expected: seq<uint32>, chosen: AssumptionSource, source: Receipt, assumption: Option<Receipt>)
    returns (oracle: RecursiveOracle)
    requires |p.liftIds| == 8
    requires HonestRun(z, p, prover, imageId, statement, family, expected, chosen, source, assumption)
    ensures OracleGenerated(z, p, prover, imageId, statement, family, expected, chosen, oracle)
    ensures oracle.sourceReceipt == source && oracle.assumptionReceipt == assumption
  {
    var steps := HonestSteps(z, p, prover, family, source.inner.composite.segments, AssumedOf(assumption), expected,
                             z.okClaim(imageId, statement));
    oracle := RecursiveOracle(2, family, source, assumption, steps, |steps| - 1);
  }

  /** What is generated holds for the replay once the nonces and the embedded assumption do. */
  lemma GeneratedHolds(z: Zkvm, p: Profile, prover: Prover, imageId: Digest, statement: seq<uint8>, family: Family,
                       expected: seq<uint32>, chosen: AssumptionSource, oracle: RecursiveOracle)
    requires |p.liftIds| == 8
    requires OracleGenerated(z, p, prover, imageId, statement, family, expected, chosen, oracle)
    requires family == TerminalJoin ==>
               NoncesHold(z, oracle.sourceReceipt.inner.composite.segments, imageId, statement)
    requires oracle.assumptionReceipt.Some? ==>
               Embeds(z, oracle.sourceReceipt.inner.composite.assumptions,
                      oracle.assumptionReceipt.value.inner.succinct)
    ensures OracleHolds(z, p, oracle, imageId, statement)
  {
  }

  /** With an honest prover the generator succeeds, whatever the claim algebra; and the replay accepts what it returns
      if the nonces and the embedded assumption are right. */
  method GenerateHonestly(z: Zkvm, p: Profile, prover: Prover, imageId: Digest, statement: seq<uint8>, family: Family,
                          expected: seq<uint32>, chosen: AssumptionSource, ghost source: Receipt,
                          ghost assumption: Option<Receipt>)
    returns (r: Result<RecursiveOracle, GenerateError>)
    requires WellFormedProfile(p)
    requires HonestRun(z, p, prover, imageId, statement, family, expected, chosen, source, assumption)
    ensures r.Ok? && OracleGenerated(z, p, prover, imageId, statement, family, expected, chosen, r.value)
    ensures (family == TerminalJoin ==> NoncesHold(z, source.inner.composite.segments, imageId, statement))
            && (assumption.Some? ==>
                  Embeds(z, source.inner.composite.assumptions, assumption.value.inner.succinct)) ==>
              OracleHolds(z, p, r.value, imageId, statement)
  {
    ghost var oracle := HonestOracle(z, p, prover, imageId, statement, family, expected, chosen, source, assumption);
    GeneratedMeans(z, p, prover, imageId, statement, family, expected, chosen, oracle);
    if (family == TerminalJoin ==> NoncesHold(z, source.inner.composite.segments, imageId, statement))
       && (assumption.Some? ==> Embeds(z, source.inner.composite.assumptions, assumption.value.inner.succinct))
    {
      GeneratedHolds(z, p, prover, imageId, statement, family, expected, chosen, oracle);
    }
    r := GenerateOracle(z, p, prover, imageId, statement, family, expected, chosen);
  }

  // ---------- The calibration binding ----------

  /** 64 lower-case hexadecimal digits. */
  ghost predicate Hex64(s: string) {
    |s| == 64 && forall i :: 0 <= i < 64 ==> s[i] in "0123456789abcdef"
  }

  /** A report for the family and recipe, and an oracle whose lifts are the report's. */
  ghost predicate Binds(json: Json, p: Profile, oracle: RecursiveOracle, report: Report, recipe: Recipe)
    requires |p.liftIds| == 8
  {
    var limit := if recipe == Fixed22 then 22 else 21;
    && json.parse(json.encode(report)) == Some(report) && |json.encode(report)| <= 4_096
    && report.schema == "Eip0045B4RecursiveCalibrationV1" && report.lifecycle == "non-final-b4-recursive-candidate"
    && report.family == (match oracle.family
                         case TerminalJoin => "terminal-join"
                         case TerminalResolve => "terminal-resolve"
                         case ResolveThenJoin => "resolve-then-join")
    && (oracle.family == TerminalResolve ==> recipe == Fixed22)
    && Hex64(report.elfSha256) && Hex64(report.imageId) && Hex64(report.statementSha256)
    && report.segmentLimitPo2 == limit && report.assumptionWorkloadIterations == 0
    && oracle.sourceReceipt.inner.CompositeInner?
    && |report.segmentPo2| == |oracle.sourceReceipt.inner.composite.segments|
                           == (if oracle.family == TerminalResolve then 1 else 2) <= |oracle.steps|
    && forall i :: 0 <= i < |report.segmentPo2| ==>
         && 15 <= report.segmentPo2[i] <= limit && oracle.steps[i].inputs == LiftOf(i)
         && oracle.steps[i].receipt.controlId == p.liftIds[report.segmentPo2[i] - 15]
  }

  lemma HexDigits(s: string)
    ensures LowerHex32(s) <==> Hex64(s)
  {
    assert forall c: char :: c in "0123456789abcdef" <==> '0' <= c <= '9' || 'a' <= c <= 'f';
  }

  lemma FamilyNames(family: Family)
    ensures FamilyName(family) == match family
                                  case TerminalJoin => "terminal-join"
                                  case TerminalResolve => "terminal-resolve"
                                  case ResolveThenJoin => "resolve-then-join"
    ensures FamilyNamed(FamilyName(family)) == Some(family)
  {
    assert "terminal-join"[9] != "terminal-resolve"[9];
  }

  /** The binding check accepts exactly these. */
  lemma BindingMeans(json: Json, p: Profile, oracle: RecursiveOracle, report: Report, recipe: Recipe)
    requires WellFormedProfile(p)
    ensures Bound(json, p, oracle, report, recipe) <==> Binds(json, p, oracle, report, recipe)
  {
    HexDigits(report.elfSha256);
    HexDigits(report.imageId);
    HexDigits(report.statementSha256);
    FamilyNames(oracle.family);
    forall i: nat, po2 | i < |oracle.steps|
      ensures LiftPo2(p, oracle.steps[i].receipt.controlId) == Some(po2)
         <==> 15 <= po2 <= 22 && oracle.steps[i].receipt.controlId == p.liftIds[po2 - 15]
    {
      LiftIdIs(p, oracle.steps[i].receipt.controlId, po2);
    }
  }
}
