/** The generator of recursive oracles, and the proof that what it returns passes the replay. */
module Generator {
  import opened Wrappers
  import opened Words
  import opened Constants
  import opened Plan
  import opened Seal
  import opened Ancestry
  import opened Replay
  import Statement

  datatype ProveInfo = ProveInfo(segments: nat, hasWorkReceipt: bool, receipt: Receipt)

  /** The prover: execution, composite proving, and the three recursion programs. Each recursion call may
      depend on its position, so a repeated call need not repeat its answer. */
  datatype Prover = Prover(
    preflight: Option<seq<uint32>>,
    assumptionSession: Option<uint32>,
    assumptionProof: Option<ProveInfo>,
    sourceProof: Option<ProveInfo>,
    lift: (nat, SegmentReceipt) -> Option<Succinct>,
    join: (nat, Succinct, Succinct) -> Option<Succinct>,
    resolve: (nat, Succinct, Succinct) -> Option<Succinct>)

  datatype AssumptionSource = NoSource | Prove | Supplied(receipt: Receipt)

  datatype GenerateError =
    | StatementRejected | PreflightFailed | OutsideProfile | BadShapeOf | DiffersFromCalibration | Inadmissible
    | AssumptionRequired | AssumptionFailed | AssumptionRejected | SourceFailed | SourceRejected | StepFailed
    | LiftDiffers | StepRejected(cause: ReplayError) | FinalRejected

  // ---------- Preflight ----------

  method AllSupported(po2: seq<uint32>) returns (ok: bool)
    ensures ok <==> forall i :: 0 <= i < |po2| ==> SupportedPo2(po2[i])
  {
    for i := 0 to |po2|
      invariant forall j :: 0 <= j < i ==> SupportedPo2(po2[j])
    {
      if !SupportedPo2(po2[i]) {
        return false;
      }
    }
    return true;
  }

  /** The execute-only run has the calibrated segment sequence, which fits the family and the profile. */
  ghost predicate Calibrated(prover: Prover, imageId: Digest, statement: seq<uint8>, family: Family,
                             expected: seq<uint32>) {
    && Statement.Validate(statement, DigestBytes(imageId)).Ok?
    && prover.preflight == Some(expected) && |expected| == SegmentsOf(family)
    && forall i :: 0 <= i < |expected| ==> SupportedPo2(expected[i])
  }

  /** `inspect_recursive_shape` and `validate_calibrated_source_shape`: the execute-only run must have the
      calibrated segment sequence, which must fit the family. */
  method Preflight(prover: Prover, imageId: Digest, statement: seq<uint8>, family: Family, expected: seq<uint32>)
    returns (r: Result<seq<uint32>, GenerateError>)
    ensures r.Ok? <==> Calibrated(prover, imageId, statement, family, expected)
    ensures r.Ok? ==> r.value == expected
  {
    if Statement.Validate(statement, DigestBytes(imageId)).Err? {
      return Err(StatementRejected);
    }
    if prover.preflight.None? {
      return Err(PreflightFailed);
    }
    var observed := prover.preflight.value;
    var supported := AllSupported(observed);
    if !supported {
      return Err(OutsideProfile);
    }
    var observedPlan := PlannedSteps(family, |observed|);
    if observedPlan.Err? {
      return Err(BadShapeOf);
    }
    var expectedPlan := PlannedSteps(family, |expected|);
    var expectedSupported := AllSupported(expected);
    if expectedPlan.Err? || !expectedSupported {
      return Err(BadShapeOf);
    }
    if observed != expected {
      return Err(DiffersFromCalibration);
    }
    return Ok(observed);
  }

  // ---------- The assumption ----------

  /** What the generator asks of an assumption receipt beyond what the replay asks: its carried claim is the
      successful one, and the exponent the replay reads off its control identity is the given one. */
  ghost predicate TopLevelAccepted(z: Zkvm, p: Profile, receipt: Receipt, imageId: Digest, statement: seq<uint8>,
                                   po2: uint32)
    requires WellFormedProfile(p)
  {
    && AssumptionAccepted(z, p, receipt, imageId, statement)
    && LiftPo2(p, receipt.inner.succinct.controlId) == Some(po2)
    && ClaimDigest(z, receipt.inner.succinct.claim) == z.digestOf(z.okClaim(imageId, statement))
  }

  /** `validate_top_level_receipt` for a lift of the given exponent. What it accepts, the replay accepts. */
  method ValidateTopLevel(z: Zkvm, p: Profile, receipt: Receipt, imageId: Digest, statement: seq<uint8>, po2: uint32)
    returns (r: Result<(), GenerateError>)
    requires WellFormedProfile(p)
    ensures r.Ok? <==> TopLevelAccepted(z, p, receipt, imageId, statement, po2)
  {
    if receipt.journal != statement {
      return Err(AssumptionRejected);
    }
    var expected := z.digestOf(z.okClaim(imageId, statement));
    var claim := z.claimOf(receipt);
    if claim.None? || ClaimDigest(z, claim.value) != expected || !receipt.inner.SuccinctInner? {
      return Err(AssumptionRejected);
    }
    var inner := receipt.inner.succinct;
    var shape := CheckShape(z, p, inner, Lift(po2), expected);
    if shape.Err? || EnsureNoAssumptionsLeft(inner.claim).Err? || !z.verify(receipt, imageId) {
      return Err(AssumptionRejected);
    }
    assert LiftId(p, po2) == inner.controlId;
    return Ok(());
  }

  /** The prover gave `receipt` as a one-segment proof of the exponent its execute-only session has. */
  ghost predicate AssumptionProved(z: Zkvm, p: Profile, prover: Prover, imageId: Digest, statement: seq<uint8>,
                                   receipt: Receipt)
    requires WellFormedProfile(p)
  {
    && prover.assumptionSession.Some? && prover.assumptionProof == Some(ProveInfo(1, false, receipt))
    && TopLevelAccepted(z, p, receipt, imageId, statement, prover.assumptionSession.value)
  }

  /** `prove_same_program_assumption_receipt`. */
  method ProveAssumption(z: Zkvm, p: Profile, prover: Prover, imageId: Digest, statement: seq<uint8>)
    returns (r: Result<Receipt, GenerateError>)
    requires WellFormedProfile(p)
    ensures r.Ok? <==> exists receipt :: AssumptionProved(z, p, prover, imageId, statement, receipt)
    ensures r.Ok? ==> AssumptionProved(z, p, prover, imageId, statement, r.value)
  {
    if prover.assumptionSession.None? || !SupportedPo2(prover.assumptionSession.value) {
      return Err(AssumptionFailed);
    }
    if prover.assumptionProof.None? {
      return Err(AssumptionFailed);
    }
    var info := prover.assumptionProof.value;
    if info.segments != 1 || info.hasWorkReceipt {
      return Err(AssumptionFailed);
    }
    var _ :- ValidateTopLevel(z, p, info.receipt, imageId, statement, prover.assumptionSession.value);
    assert AssumptionProved(z, p, prover, imageId, statement, info.receipt);
    return Ok(info.receipt);
  }

  /** The assumption a family needs is `assumption`, by the chosen source: none for a family without one, and
      otherwise the prover's own or an admissible supplied one. */
  ghost predicate AssumptionFrom(z: Zkvm, p: Profile, prover: Prover, imageId: Digest, statement: seq<uint8>,
                                 family: Family, source: AssumptionSource, assumption: Option<Receipt>)
    requires WellFormedProfile(p)
  {
    && (UsesAssumption(family) <==> assumption.Some?) && (assumption.None? <==> source.NoSource?)
    && (source.Prove? ==> AssumptionProved(z, p, prover, imageId, statement, assumption.value))
    && (source.Supplied? ==>
          assumption.value == source.receipt && TopLevelAccepted(z, p, source.receipt, imageId, statement, 15))
  }

  /** The assumption a family needs, from the chosen source. */
  method ObtainAssumption(z: Zkvm, p: Profile, prover: Prover, imageId: Digest, statement: seq<uint8>, family: Family,
                          source: AssumptionSource)
    returns (r: Result<Option<Receipt>, GenerateError>)
    requires WellFormedProfile(p)
    ensures r.Ok? ==> AssumptionFrom(z, p, prover, imageId, statement, family, source, r.value)
    ensures r.Err? ==> forall a :: !AssumptionFrom(z, p, prover, imageId, statement, family, source, a)
  {
    match (UsesAssumption(family), source) {
      case (false, NoSource) =>
        return Ok(None);
      case (true, Prove) =>
        var receipt :- ProveAssumption(z, p, prover, imageId, statement);
        return Ok(Some(receipt));
      case (true, Supplied(receipt)) =>
        var _ :- ValidateTopLevel(z, p, receipt, imageId, statement, 15);
        return Ok(Some(receipt));
      case (false, _) =>
        return Err(Inadmissible);
      case (true, NoSource) =>
        return Err(AssumptionRequired);
    }
  }

  // ---------- The source ----------

  /** The prover gave `receipt` as a composite proof of the statement with the calibrated number of segments. */
  ghost predicate SourceFrom(z: Zkvm, prover: Prover, imageId: Digest, statement: seq<uint8>, family: Family,
                             segmentCount: nat, receipt: Receipt) {
    && prover.sourceProof == Some(ProveInfo(segmentCount, false, receipt))
    && receipt.journal == statement && z.verify(receipt, imageId) && receipt.inner.CompositeInner?
    && |receipt.inner.composite.segments| == segmentCount
    && |receipt.inner.composite.assumptions| == (if UsesAssumption(family) then 1 else 0)
  }

  /** The checks on the composite source proof. */
  method ObtainSource(z: Zkvm, prover: Prover, imageId: Digest, statement: seq<uint8>, family: Family,
                      segmentCount: nat)
    returns (r: Result<(Receipt, CompositeReceipt), GenerateError>)
    ensures r.Ok? ==>
              r.value.0.inner == CompositeInner(r.value.1)
                  && SourceFrom(z, prover, imageId, statement, family, segmentCount, r.value.0)
    ensures r.Err? ==> forall receipt :: !SourceFrom(z, prover, imageId, statement, family, segmentCount, receipt)
  {
    if prover.sourceProof.None? {
      return Err(SourceFailed);
    }
    var info := prover.sourceProof.value;
    if info.segments != segmentCount || info.hasWorkReceipt || info.receipt.journal != statement
       || !z.verify(info.receipt, imageId) || !info.receipt.inner.CompositeInner?
    {
      return Err(SourceRejected);
    }
    var source := info.receipt.inner.composite;
    if |source.segments| != segmentCount || |source.assumptions| != (if UsesAssumption(family) then 1 else 0) {
      return Err(SourceRejected);
    }
    return Ok((info.receipt, source));
  }

  // ---------- The step loop ----------

  /** A lift has its segment's calibrated exponent. */
  ghost predicate LiftCalibrated(p: Profile, inputs: Inputs, receipt: Succinct, expected: seq<uint32>)
    requires WellFormedProfile(p)
  {
    inputs.LiftOf? ==>
      inputs.segmentIndex < |expected| && LiftPo2(p, receipt.controlId) == Some(expected[inputs.segmentIndex])
  }

  ghost predicate LiftsCalibrated(p: Profile, steps: seq<RecursiveStep>, expected: seq<uint32>)
    requires WellFormedProfile(p)
  {
    forall k :: 0 <= k < |steps| ==> LiftCalibrated(p, steps[k].inputs, steps[k].receipt, expected)
  }

  /** What the prover answers to an operation on the source, the assumption and the earlier receipts. */
  ghost function Answer(prover: Prover, inputs: Inputs, source: CompositeReceipt, assumption: Option<Succinct>,
                        steps: seq<RecursiveStep>): Option<Succinct> {
    match inputs
    case LiftOf(i) => if i < |source.segments| then prover.lift(|steps|, source.segments[i]) else None
    case JoinOf(l, r) =>
      if l < |steps| && r < |steps| then prover.join(|steps|, steps[l].receipt, steps[r].receipt) else None
    case ResolveOf(c) =>
      if c < |steps| && assumption.Some? then prover.resolve(|steps|, steps[c].receipt, assumption.value) else None
  }

  /** `step` is the prover's own answer to `inputs` after the steps before it, accepted and, if it is a lift,
      calibrated. */
  ghost predicate NextStep(z: Zkvm, p: Profile, prover: Prover, inputs: Inputs, source: CompositeReceipt,
                           assumption: Option<Succinct>, expected: seq<uint32>, steps: seq<RecursiveStep>,
                           step: RecursiveStep)
    requires WellFormedProfile(p)
  {
    && step.inputs == inputs && Answer(prover, inputs, source, assumption, steps) == Some(step.receipt)
    && LiftCalibrated(p, inputs, step.receipt, expected)
    && StepAccepted(z, p, step, source, assumption, steps)
  }

  /** The prover's answers to the first inputs, in order. */
  ghost predicate StepsFrom(z: Zkvm, p: Profile, prover: Prover, inputs: seq<Inputs>, source: CompositeReceipt,
                            assumption: Option<Succinct>, expected: seq<uint32>, steps: seq<RecursiveStep>)
    requires WellFormedProfile(p)
  {
    && |steps| <= |inputs|
    && forall k :: 0 <= k < |steps| ==>
         NextStep(z, p, prover, inputs[k], source, assumption, expected, steps[..k], steps[k])
  }

  /** One call of a recursion program. A lift must have its segment's calibrated exponent. */
  method ProveStep(p: Profile, prover: Prover, inputs: Inputs, source: CompositeReceipt, assumption: Option<Succinct>,
                   expected: seq<uint32>, steps: seq<RecursiveStep>)
    returns (r: Result<Succinct, GenerateError>)
    requires WellFormedProfile(p)
    ensures r.Ok? <==>
              && Answer(prover, inputs, source, assumption, steps).Some?
              && LiftCalibrated(p, inputs, Answer(prover, inputs, source, assumption, steps).value, expected)
    ensures r.Ok? ==> Answer(prover, inputs, source, assumption, steps) == Some(r.value)
  {
    var receipt: Option<Succinct>;
    match inputs {
      case LiftOf(i) =>
        if i >= |source.segments| {
          return Err(StepFailed);
        }
        receipt := prover.lift(|steps|, source.segments[i]);
        if receipt.None? {
          return Err(StepFailed);
        }
        if i >= |expected| {
          return Err(LiftDiffers);
        }
        var actual := NormalLiftSegmentPo2(p, receipt.value.controlId);
        if actual != Some(expected[i]) {
          return Err(LiftDiffers);
        }
      case JoinOf(l, r) =>
        if l >= |steps| || r >= |steps| {
          return Err(StepFailed);
        }
        receipt := prover.join(|steps|, steps[l].receipt, steps[r].receipt);
      case ResolveOf(c) =>
        if c >= |steps| || assumption.None? {
          return Err(StepFailed);
        }
        receipt := prover.resolve(|steps|, steps[c].receipt, assumption.value);
    }
    if receipt.None? {
      return Err(StepFailed);
    }
    return Ok(receipt.value);
  }

  /** One turn of the generation loop: an operation is proved and checked. */
  method GenerateStep(z: Zkvm, p: Profile, prover: Prover, planned: PlannedStep, source: CompositeReceipt,
                      assumption: Option<Succinct>, expected: seq<uint32>, steps: seq<RecursiveStep>)
    returns (r: Result<RecursiveStep, GenerateError>)
    requires WellFormedProfile(p) && |steps| < U32_MAX && planned.operation == OperationOf(planned.inputs)
    ensures r.Ok? ==> NextStep(z, p, prover, planned.inputs, source, assumption, expected, steps, r.value)
    ensures forall step :: NextStep(z, p, prover, planned.inputs, source, assumption, expected, steps, step) ==>
              r == Ok(step)
  {
    var receipt :- ProveStep(p, prover, planned.inputs, source, assumption, expected, steps);
    var step := RecursiveStep(|steps|, planned.operation, planned.inputs, receipt);
    var checked := ValidateStep(z, p, step, source, assumption, steps);
    return if checked.Err? then Err(StepRejected(checked.error)) else Ok(step);
  }

  /** The generation loop: each planned operation is proved, checked, and only then appended. It returns the one
      list of the prover's answers to the plan, and fails only when there is none. */
  method GenerateSteps(z: Zkvm, p: Profile, prover: Prover, plan: seq<PlannedStep>, source: CompositeReceipt,
                       assumption: Option<Succinct>, expected: seq<uint32>)
    returns (r: Result<seq<RecursiveStep>, GenerateError>)
    requires WellFormedProfile(p) && |plan| <= U32_MAX
    requires forall k :: 0 <= k < |plan| ==> plan[k].operation == OperationOf(plan[k].inputs)
    ensures r.Ok? ==>
              StepsFrom(z, p, prover, InputsOf(plan), source, assumption, expected, r.value) && |r.value| == |plan|
    ensures forall steps ::
              StepsFrom(z, p, prover, InputsOf(plan), source, assumption, expected, steps) && |steps| == |plan| ==>
                r == Ok(steps)
  {
    ghost var inputs := InputsOf(plan);
    var steps: seq<RecursiveStep> := [];
    for n := 0 to |plan|
      invariant |steps| == n && StepsFrom(z, p, prover, inputs, source, assumption, expected, steps)
    {
      forall w | StepsFrom(z, p, prover, inputs, source, assumption, expected, w) && |w| == |plan|
        ensures NextStep(z, p, prover, plan[n].inputs, source, assumption, expected, steps, w[n])
      {
        SameAnswers(z, p, prover, inputs, source, assumption, expected, steps, w, n);
        assert w[..n] == steps[..n] == steps;
      }
      var step :- GenerateStep(z, p, prover, plan[n], source, assumption, expected, steps);
      StepsFromSnoc(z, p, prover, inputs, source, assumption, expected, steps, step);
      steps := steps + [step];
    }
    forall w | StepsFrom(z, p, prover, inputs, source, assumption, expected, w) && |w| == |plan| ensures w == steps {
      SameAnswers(z, p, prover, inputs, source, assumption, expected, steps, w, |plan|);
      assert w == w[..|plan|] && steps == steps[..|plan|];
    }
    return Ok(steps);
  }

  /** Two lists of the prover's answers agree as far as both go. */
  lemma {:induction false} SameAnswers(z: Zkvm, p: Profile, prover: Prover, inputs: seq<Inputs>,
                                       source: CompositeReceipt, assumption: Option<Succinct>, expected: seq<uint32>,
                                       a: seq<RecursiveStep>, b: seq<RecursiveStep>, n: nat)
    requires WellFormedProfile(p) && n <= |a| && n <= |b|
    requires StepsFrom(z, p, prover, inputs, source, assumption, expected, a)
    requires StepsFrom(z, p, prover, inputs, source, assumption, expected, b)
    ensures a[..n] == b[..n]
  {
    if n > 0 {
      SameAnswers(z, p, prover, inputs, source, assumption, expected, a, b, n - 1);
      OneNextStep(z, p, prover, inputs[n - 1], source, assumption, expected, a[..n - 1]);
      assert a[n - 1] == b[n - 1];
      LongerPrefix(a, b, n - 1);
    }
  }

  lemma LongerPrefix<T>(a: seq<T>, b: seq<T>, n: nat)
    requires n < |a| && n < |b| && a[..n] == b[..n] && a[n] == b[n]
    ensures a[..n + 1] == b[..n + 1]
  {
    assert a[..n + 1] == a[..n] + [a[n]] && b[..n + 1] == b[..n] + [b[n]];
  }

  lemma OneNextStep(z: Zkvm, p: Profile, prover: Prover, inputs: Inputs, source: CompositeReceipt,
                    assumption: Option<Succinct>, expected: seq<uint32>, steps: seq<RecursiveStep>)
    requires WellFormedProfile(p)
    ensures forall a, b ::
              NextStep(z, p, prover, inputs, source, assumption, expected, steps, a)
              && NextStep(z, p, prover, inputs, source, assumption, expected, steps, b) ==>
                a == b
  {
  }

  lemma StepsFromSnoc(z: Zkvm, p: Profile, prover: Prover, inputs: seq<Inputs>, source: CompositeReceipt,
                      assumption: Option<Succinct>, expected: seq<uint32>, steps: seq<RecursiveStep>,
                      step: RecursiveStep)
    requires WellFormedProfile(p) && |steps| < |inputs|
    requires StepsFrom(z, p, prover, inputs, source, assumption, expected, steps)
    requires NextStep(z, p, prover, inputs[|steps|], source, assumption, expected, steps, step)
    ensures StepsFrom(z, p, prover, inputs, source, assumption, expected, steps + [step])
  {
    var all := steps + [step];
    assert forall k :: 0 <= k <= |steps| ==> all[..k] == steps[..k];
    assert steps[..|steps|] == steps;
  }

  lemma StepsFromMeans(z: Zkvm, p: Profile, prover: Prover, inputs: seq<Inputs>, source: CompositeReceipt,
                       assumption: Option<Succinct>, expected: seq<uint32>, steps: seq<RecursiveStep>)
    requires WellFormedProfile(p) && StepsFrom(z, p, prover, inputs, source, assumption, expected, steps)
             && |steps| == |inputs|
    ensures StepInputs(steps) == inputs && LiftsCalibrated(p, steps, expected)
    ensures StepsAccepted(z, p, steps, source, assumption)
  {
    forall k | 0 <= k < |steps|
      ensures steps[k].inputs == inputs[k] && LiftCalibrated(p, inputs[k], steps[k].receipt, expected)
    {
      assert NextStep(z, p, prover, inputs[k], source, assumption, expected, steps[..k], steps[k]);
    }
    assert forall k :: 0 <= k < |steps| ==> StepInputs(steps)[k] == inputs[k];
    forall k | 0 <= k < |steps| ensures StepAccepted(z, p, steps[k], source, assumption, steps[..k]) {
      assert NextStep(z, p, prover, inputs[k], source, assumption, expected, steps[..k], steps[k]);
    }
  }

  // ---------- The generator ----------

  /** `oracle` holds the given receipts, the prover's answer to every planned operation, and a final receipt
      that passes. */
  ghost predicate AssembledAs(z: Zkvm, p: Profile, prover: Prover, imageId: Digest, statement: seq<uint8>,
                              family: Family, expected: seq<uint32>, assumption: Option<Receipt>, source: Receipt,
                              oracle: RecursiveOracle)
    requires WellFormedProfile(p) && source.inner.CompositeInner?
  {
    && oracle.formatVersion == 2 && oracle.family == family
    && oracle.assumptionReceipt == assumption && oracle.sourceReceipt == source
    && ValidateSourceAssumptionClaim(z, p, source.inner.composite, family, RetainedAssumption(oracle)).Ok?
    && StepsFrom(z, p, prover, FamilyInputs(family), source.inner.composite, RetainedAssumption(oracle),
                 expected, oracle.steps)
    && |oracle.steps| == |FamilyInputs(family)|
    && oracle.finalStep as int + 1 == |oracle.steps|
    && FinalAccepted(z, p, family, oracle.steps[oracle.finalStep].receipt, imageId, statement)
  }

  /** `oracle` is what the generator makes of the prover's answers, from the calibrated source and the chosen
      assumption on. */
  ghost predicate GeneratedAs(z: Zkvm, p: Profile, prover: Prover, imageId: Digest, statement: seq<uint8>,
                              family: Family, expected: seq<uint32>, assumptionSource: AssumptionSource,
                              oracle: RecursiveOracle)
    requires WellFormedProfile(p)
  {
    && Calibrated(prover, imageId, statement, family, expected)
    && AssumptionFrom(z, p, prover, imageId, statement, family, assumptionSource, oracle.assumptionReceipt)
    && SourceFrom(z, prover, imageId, statement, family, |expected|, oracle.sourceReceipt)
    && AssembledAs(z, p, prover, imageId, statement, family, expected, oracle.assumptionReceipt,
                   oracle.sourceReceipt, oracle)
  }

  /** Plan, prove and check the steps over the obtained receipts. */
  method Assemble(z: Zkvm, p: Profile, prover: Prover, imageId: Digest, statement: seq<uint8>, family: Family,
                  expected: seq<uint32>, assumptionReceipt: Option<Receipt>, sourceReceipt: Receipt)
    returns (r: Result<RecursiveOracle, GenerateError>)
    requires WellFormedProfile(p) && sourceReceipt.inner.CompositeInner?
    requires |sourceReceipt.inner.composite.segments| == SegmentsOf(family)
    requires assumptionReceipt.Some? ==> assumptionReceipt.value.inner.SuccinctInner?
    ensures r.Ok? ==>
              AssembledAs(z, p, prover, imageId, statement, family, expected, assumptionReceipt, sourceReceipt, r.value)
    ensures forall oracle ::
              AssembledAs(z, p, prover, imageId, statement, family, expected, assumptionReceipt,
                          sourceReceipt, oracle) ==>
                r == Ok(oracle)
  {
    var source := sourceReceipt.inner.composite;
    var planned := PlannedSteps(family, |source.segments|);
    if planned.Err? {
      return Err(BadShapeOf);
    }
    var assumption: Option<Succinct> := None;
    if assumptionReceipt.Some? {
      assumption := Some(assumptionReceipt.value.inner.succinct);
    }
    if ValidateSourceAssumptionClaim(z, p, source, family, assumption).Err? {
      return Err(SourceRejected);
    }
    var steps :- GenerateSteps(z, p, prover, planned.value, source, assumption, expected);
    var finalStep: uint32 := |steps| - 1;
    var final := FinalGates(z, p, family, steps[finalStep].receipt, imageId, statement);
    if final.Err? {
      return Err(FinalRejected);
    }
    var oracle := RecursiveOracle(2, family, sourceReceipt, assumptionReceipt, steps, finalStep);
    assert RetainedAssumption(oracle) == assumption;
    return Ok(oracle);
  }

  /** `generate_recursive_oracle_unreplayed_with_assumption_source`: it returns the one oracle that the prover's
      answers make, and fails only when they make none. */
  method GenerateOracle(z: Zkvm, p: Profile, prover: Prover, imageId: Digest, statement: seq<uint8>, family: Family,
                        expected: seq<uint32>, assumptionSource: AssumptionSource)
    returns (r: Result<RecursiveOracle, GenerateError>)
    requires WellFormedProfile(p)
    ensures r.Ok? ==> GeneratedAs(z, p, prover, imageId, statement, family, expected, assumptionSource, r.value)
    ensures forall oracle ::
              GeneratedAs(z, p, prover, imageId, statement, family, expected, assumptionSource, oracle) ==>
                r == Ok(oracle)
  {
    var preflight :- Preflight(prover, imageId, statement, family, expected);
    var assumptionReceipt :- ObtainAssumption(z, p, prover, imageId, statement, family, assumptionSource);
    var proved :- ObtainSource(z, prover, imageId, statement, family, |preflight|);
    var sourceReceipt := proved.0;
    forall oracle | GeneratedAs(z, p, prover, imageId, statement, family, expected, assumptionSource, oracle)
      ensures oracle.assumptionReceipt == assumptionReceipt && oracle.sourceReceipt == sourceReceipt
    {
      SameInputs(z, p, prover, imageId, statement, family, assumptionSource, |expected|,
                 oracle.assumptionReceipt, assumptionReceipt, oracle.sourceReceipt, sourceReceipt);
    }
    r := Assemble(z, p, prover, imageId, statement, family, expected, assumptionReceipt, sourceReceipt);
  }

  lemma SameInputs(z: Zkvm, p: Profile, prover: Prover, imageId: Digest, statement: seq<uint8>, family: Family,
                   assumptionSource: AssumptionSource, segmentCount: nat, a: Option<Receipt>, b: Option<Receipt>,
                   s: Receipt, t: Receipt)
    requires WellFormedProfile(p)
    requires AssumptionFrom(z, p, prover, imageId, statement, family, assumptionSource, a)
    requires AssumptionFrom(z, p, prover, imageId, statement, family, assumptionSource, b)
    requires SourceFrom(z, prover, imageId, statement, family, segmentCount, s)
    requires SourceFrom(z, prover, imageId, statement, family, segmentCount, t)
    ensures a == b && s == t
    ensures a.Some? ==> AssumptionAccepted(z, p, a.value, imageId, statement)
  {
  }

  /** The generator's final gates: those of the replay, in another order. */
  method FinalGates(z: Zkvm, p: Profile, family: Family, receipt: Succinct, imageId: Digest, statement: seq<uint8>)
    returns (r: Result<(), ReplayError>)
    requires WellFormedProfile(p)
    ensures r.Ok? <==> FinalAccepted(z, p, family, receipt, imageId, statement)
  {
    var expected := z.digestOf(z.okClaim(imageId, statement));
    if ClaimDigest(z, receipt.claim) != expected {
      return Err(NotOkClaim);
    }
    var _ :- CheckShape(z, p, receipt, FamilyTerminal(family), expected);
    var _ :- EnsureNoAssumptionsLeft(receipt.claim);
    if !z.verify(Receipt(SuccinctInner(receipt), statement), imageId) {
      return Err(VerificationFailed);
    }
    return Ok(());
  }

  // ---------- The calibration binding ----------

  datatype Recipe = Fixed22 | Join21

  function SegmentLimit(recipe: Recipe): uint32 {
    if recipe == Fixed22 then 22 else 21
  }

  const SCHEMA := "Eip0045B4RecursiveCalibrationV1"
  const LIFECYCLE := "non-final-b4-recursive-candidate"
  const REPORT_MAX_BYTES := 4096

  datatype Report = Report(
    schema: string, lifecycle: string, elfSha256: string, imageId: string, statementSha256: string, family: string,
    segmentLimitPo2: uint32, workloadIterations: uint32, assumptionWorkloadIterations: uint32, segmentPo2: seq<uint32>)

  function FamilyName(family: Family): string {
    match family
    case TerminalJoin => "terminal-join"
    case TerminalResolve => "terminal-resolve"
    case ResolveThenJoin => "resolve-then-join"
  }

  function FamilyNamed(name: string): Option<Family> {
    if name == "terminal-join" then Some(TerminalJoin)
    else if name == "terminal-resolve" then Some(TerminalResolve)
    else if name == "resolve-then-join" then Some(ResolveThenJoin)
    else None
  }

  predicate LowerHex32(s: string) {
    |s| == 64 && forall i :: 0 <= i < |s| ==> '0' <= s[i] <= '9' || 'a' <= s[i] <= 'f'
  }

  /** `validate_static_with_recipe`. */
  predicate StaticallyValid(report: Report, recipe: Recipe) {
    && FamilyNamed(report.family).Some?
    && (recipe == Fixed22 || FamilyNamed(report.family).value != TerminalResolve)
    && report.schema == SCHEMA && report.lifecycle == LIFECYCLE
    && LowerHex32(report.elfSha256) && LowerHex32(report.imageId) && LowerHex32(report.statementSha256)
    && report.segmentLimitPo2 == SegmentLimit(recipe) && report.assumptionWorkloadIterations == 0
    && (forall i :: 0 <= i < |report.segmentPo2| ==> report.segmentPo2[i] <= SegmentLimit(recipe))
    && |report.segmentPo2| == SegmentsOf(FamilyNamed(report.family).value)
    && (forall i :: 0 <= i < |report.segmentPo2| ==> SupportedPo2(report.segmentPo2[i]))
  }

  /** Canonical JSON, as an encoder and a parser. */
  datatype Json = Json(encode: Report -> seq<uint8>, parse: seq<uint8> -> Option<Report>)

  datatype BindingError =
    | ReportInvalid | ReportTooLong | RoundTripDiffers | FamilyDiffers | LimitDiffers | SourceNotComposite
    | SegmentCountDiffers | LiftMissing | StepNotLift | LiftIndexDiffers | LiftExponentDiffers

  /** `to_canonical_jcs_with_recipe` and back. */
  function RoundTrip(json: Json, report: Report, recipe: Recipe): Result<Report, BindingError> {
    var _ :- Ensure(StaticallyValid(report, recipe), ReportInvalid);
    var bytes := json.encode(report);
    var _ :- Ensure(|bytes| <= REPORT_MAX_BYTES, ReportTooLong);
    match json.parse(bytes)
    case None => Err(ReportInvalid)
    case Some(parsed) =>
      var _ :- Ensure(StaticallyValid(parsed, recipe), ReportInvalid);
      var _ :- Ensure(json.encode(parsed) == bytes, RoundTripDiffers);
      Ok(parsed)
  }

  /** The retained lifts are the calibrated ones: step `i` lifts segment `i` with the report's exponent. */
  ghost predicate LiftsBound(p: Profile, oracle: RecursiveOracle, segmentPo2: seq<uint32>)
    requires WellFormedProfile(p)
  {
    && |segmentPo2| <= |oracle.steps|
    && forall i :: 0 <= i < |segmentPo2| ==>
         && oracle.steps[i].inputs.LiftOf? && oracle.steps[i].inputs.segmentIndex == i
         && LiftPo2(p, oracle.steps[i].receipt.controlId) == Some(segmentPo2[i])
  }

  ghost predicate Bound(json: Json, p: Profile, oracle: RecursiveOracle, report: Report, recipe: Recipe)
    requires WellFormedProfile(p)
  {
    && RoundTrip(json, report, recipe) == Ok(report)
    && report.family == FamilyName(oracle.family) && report.segmentLimitPo2 == SegmentLimit(recipe)
    && oracle.sourceReceipt.inner.CompositeInner?
    && |oracle.sourceReceipt.inner.composite.segments| == |report.segmentPo2|
    && LiftsBound(p, oracle, report.segmentPo2)
  }

  /** `validate_recursive_oracle_calibration_with_recipe`. */
  method ValidateCalibration(json: Json, p: Profile, oracle: RecursiveOracle, report: Report, recipe: Recipe)
    returns (r: Result<(), BindingError>)
    requires WellFormedProfile(p)
    ensures r.Ok? <==> Bound(json, p, oracle, report, recipe)
  {
    var parsed :- RoundTrip(json, report, recipe);
    if parsed != report {
      return Err(RoundTripDiffers);
    }
    if report.family != FamilyName(oracle.family) {
      return Err(FamilyDiffers);
    }
    if report.segmentLimitPo2 != SegmentLimit(recipe) {
      return Err(LimitDiffers);
    }
    if !oracle.sourceReceipt.inner.CompositeInner? {
      return Err(SourceNotComposite);
    }
    if |oracle.sourceReceipt.inner.composite.segments| != |report.segmentPo2| {
      return Err(SegmentCountDiffers);
    }
    for i := 0 to |report.segmentPo2|
      invariant LiftsBound(p, oracle, report.segmentPo2[..i])
    {
      if i >= |oracle.steps| {
        return Err(LiftMissing);
      }
      var step := oracle.steps[i];
      if !step.inputs.LiftOf? {
        return Err(StepNotLift);
      }
      if step.inputs.segmentIndex != i {
        return Err(LiftIndexDiffers);
      }
      var actual := NormalLiftSegmentPo2(p, step.receipt.controlId);
      if actual != Some(report.segmentPo2[i]) {
        return Err(LiftExponentDiffers);
      }
    }
    assert report.segmentPo2[..|report.segmentPo2|] == report.segmentPo2;
    return Ok(());
  }

  /** Steps with the family's inputs and calibrated lifts are bound by any statically valid report of the family
      and segment sequence that the JSON codec carries within its byte bound. */
  lemma CalibratedLiftsAreBound(json: Json, p: Profile, oracle: RecursiveOracle, report: Report, recipe: Recipe)
    requires WellFormedProfile(p) && oracle.sourceReceipt.inner.CompositeInner?
    requires StepInputs(oracle.steps) == FamilyInputs(oracle.family)
             && LiftsCalibrated(p, oracle.steps, report.segmentPo2)
    requires |oracle.sourceReceipt.inner.composite.segments| == |report.segmentPo2| == SegmentsOf(oracle.family)
    requires StaticallyValid(report, recipe) && report.family == FamilyName(oracle.family)
    requires json.parse(json.encode(report)) == Some(report) && |json.encode(report)| <= REPORT_MAX_BYTES
    ensures Bound(json, p, oracle, report, recipe)
  {
    forall i | 0 <= i < |report.segmentPo2|
      ensures oracle.steps[i].inputs == LiftOf(i)
              && LiftPo2(p, oracle.steps[i].receipt.controlId) == Some(report.segmentPo2[i])
    {
      assert StepInputs(oracle.steps)[i] == FamilyInputs(oracle.family)[i] == LiftOf(i);
      assert LiftCalibrated(p, oracle.steps[i].inputs, oracle.steps[i].receipt, report.segmentPo2);
    }
  }

  /** Whatever the prover answers, a generated oracle is accepted by the replay if and only if the two facts the
      generator leaves to the prover hold: the PoVW nonce fields, and the equality of the embedded and the
      retained assumption. It also passes the calibration binding. */
  lemma GeneratedPassesReplay(z: Zkvm, p: Profile, prover: Prover, imageId: Digest, statement: seq<uint8>,
                              family: Family, expected: seq<uint32>, assumptionSource: AssumptionSource,
                              oracle: RecursiveOracle)
    requires WellFormedProfile(p)
    requires GeneratedAs(z, p, prover, imageId, statement, family, expected, assumptionSource, oracle)
    ensures OracleAccepted(z, p, oracle, imageId, statement)
            <==> NoncesAccepted(z, oracle, imageId, statement) && EmbeddedAccepted(z, oracle)
    ensures forall json: Json, report, recipe ::
              StaticallyValid(report, recipe) && report.segmentPo2 == expected && report.family == FamilyName(family)
              && json.parse(json.encode(report)) == Some(report) && |json.encode(report)| <= REPORT_MAX_BYTES ==>
                Bound(json, p, oracle, report, recipe)
  {
    StepsFromMeans(z, p, prover, FamilyInputs(family), oracle.sourceReceipt.inner.composite, RetainedAssumption(oracle),
                   expected, oracle.steps);
    forall json: Json, report, recipe |
      StaticallyValid(report, recipe) && report.segmentPo2 == expected && report.family == FamilyName(family)
      && json.parse(json.encode(report)) == Some(report) && |json.encode(report)| <= REPORT_MAX_BYTES
      ensures Bound(json, p, oracle, report, recipe)
    {
      CalibratedLiftsAreBound(json, p, oracle, report, recipe);
    }
  }
}
