/** Claims, receipts and archives of a recursive ancestry. The zkVM itself is a parameter: claim algebra,
    digests and cryptographic verification are arbitrary functions. */
module Ancestry {
  import opened Wrappers
  import opened Words
  import opened Plan
  import opened Seal

  datatype MaybePruned<+T> = Value(value: T) | Pruned(digest: Digest)

  datatype Assumption = Assumption(claim: Digest, controlRoot: Digest)

  datatype Output = Output(journal: Digest, assumptions: MaybePruned<seq<MaybePruned<Assumption>>>)

  /** `rest` stands for every field this repository's code does not look at. */
  datatype Claim = Claim(rest: seq<uint8>, output: MaybePruned<Option<Output>>)

  type Succinct = SuccinctReceipt<MaybePruned<Claim>>

  datatype Nonce = Nonce(log: nat, job: nat, segment: uint32)

  datatype SegmentReceipt = SegmentReceipt(claim: Claim, index: uint32, nonce: Option<Nonce>)

  /** A succinct assumption embedded in a composite carries its claim as a digest only. */
  datatype AssumptionReceipt = SuccinctAssumption(receipt: SuccinctReceipt<Digest>) | OtherAssumption

  datatype CompositeReceipt = CompositeReceipt(segments: seq<SegmentReceipt>, assumptions: seq<AssumptionReceipt>)

  datatype InnerReceipt = CompositeInner(composite: CompositeReceipt) | SuccinctInner(succinct: Succinct) | OtherInner

  datatype Receipt = Receipt(inner: InnerReceipt, journal: seq<uint8>)

  datatype RecursiveStep = RecursiveStep(ordinal: uint32, operation: Operation, inputs: Inputs, receipt: Succinct)

  datatype RecursiveOracle = RecursiveOracle(
    formatVersion: nat, family: Family, sourceReceipt: Receipt, assumptionReceipt: Option<Receipt>,
    steps: seq<RecursiveStep>, finalStep: uint32)

  /** The foreign parts: claim digests and algebra, the claim of a successful run, the claim a receipt
      states, and the two cryptographic verifiers. */
  datatype Zkvm = Zkvm(
    digestOf: Claim -> Digest,
    join: (Claim, Claim) -> Option<Claim>,
    resolve: (Claim, MaybePruned<Claim>) -> Option<Claim>,
    okClaim: (Digest, seq<uint8>) -> Claim,
    claimOf: Receipt -> Option<MaybePruned<Claim>>,
    integrity: Succinct -> bool,
    verify: (Receipt, Digest) -> bool,
    povwCandidate: (Digest, seq<uint8>) -> nat)

  /** These two claims are not a digest collision. */
  ghost predicate NoCollision(z: Zkvm, c: Claim, d: Claim) {
    z.digestOf(c) == z.digestOf(d) ==> c == d
  }

  function ClaimDigest(z: Zkvm, claim: MaybePruned<Claim>): Digest {
    match claim
    case Value(c) => z.digestOf(c)
    case Pruned(d) => d
  }

  /** The receipt as a composite embeds it, its claim reduced to the digest. */
  function WithClaimDigest(z: Zkvm, r: Succinct): SuccinctReceipt<Digest> {
    SuccinctReceipt(r.seal, r.controlId, ClaimDigest(z, r.claim), r.hashfn, r.verifierParameters, r.inclusion)
  }

  const ZERO_DIGEST: Digest := [0, 0, 0, 0, 0, 0, 0, 0]

  /** A pruned list is empty when its digest is zero. */
  predicate EmptyAssumptions(list: MaybePruned<seq<MaybePruned<Assumption>>>) {
    match list
    case Value(l) => l == []
    case Pruned(d) => d == ZERO_DIGEST
  }

  // ---------- What a tree of operations proves ----------

  /** The claim of a lift/join/resolve tree over the source segments and the assumption; undefined when a
      segment is missing or the claim algebra refuses a join or resolve. */
  function Denote(z: Zkvm, tree: Tree, segments: seq<SegmentReceipt>, assumption: Option<Succinct>): Option<Claim> {
    match tree
    case LiftTree(i) => if i < |segments| then Some(segments[i].claim) else None
    case JoinTree(l, r) =>
      var left :- Denote(z, l, segments, assumption);
      var right :- Denote(z, r, segments, assumption);
      z.join(left, right)
    case ResolveTree(c) =>
      var conditional :- Denote(z, c, segments, assumption);
      var a :- assumption;
      z.resolve(conditional, a.claim)
  }
}

/** The replay: every step, the source and the final receipt are re-checked, and acceptance is shown to mean
    that each step proves the value of its operation tree. */
module Replay {
  import opened Wrappers
  import opened Words
  import opened Plan
  import opened Seal
  import opened Ancestry
  import Statement

  datatype ReplayError =
    | OrdinalNotAppended | IntegrityFailed | WrongOperation | SegmentOutOfRange | NotALift | BadShape(shape: SealError)
    | StepOutOfRange | PrunedClaim | JoinRefused | ResolveRefused | NoAssumptionReceipt | ClaimMismatch
    | NoFinalSegment | PrunedOutput | NoOutput | UnexpectedAssumptions | UnexpectedReceipt | PrunedList
    | WrongAssumptionCount | PrunedAssumption | WrongAssumptionRoot | WrongAssumptionClaim
    | WrongVersion | BadStatement | WrongJournal | VerificationFailed | NotComposite | NotSuccinct
    | BadNonce | BadPlan | WrongStepCount | WrongFinalIndex | NotOkClaim | EmbeddedDiffers | NotCanonicalOrdinal
    | GraphDiffers | AssumptionsLeft

  // ---------- One step ----------

  ghost predicate ShapeOk(z: Zkvm, p: Profile, receipt: Succinct, terminal: CandidateTerminal)
    requires WellFormedProfile(p)
  {
    ShapeAccepted(receipt, p, terminal, ClaimDigest(z, receipt.claim), ClaimDigest(z, receipt.claim))
  }

  /** The claim a step's operation yields from the source, the assumption and the earlier steps. */
  function ExpectedClaim(z: Zkvm, inputs: Inputs, source: CompositeReceipt, assumption: Option<Succinct>,
                         previous: seq<RecursiveStep>): Result<Claim, ReplayError> {
    match inputs
    case LiftOf(i) => if i < |source.segments| then Ok(source.segments[i].claim) else Err(SegmentOutOfRange)
    case JoinOf(l, r) =>
      if l >= |previous| || r >= |previous| then Err(StepOutOfRange)
      else if previous[l].receipt.claim.Pruned? || previous[r].receipt.claim.Pruned? then Err(PrunedClaim)
      else
        (match z.join(previous[l].receipt.claim.value, previous[r].receipt.claim.value)
         case Some(c) => Ok(c)
         case None => Err(JoinRefused))
    case ResolveOf(c) =>
      if c >= |previous| then Err(StepOutOfRange)
      else if assumption.None? then Err(NoAssumptionReceipt)
      else if previous[c].receipt.claim.Pruned? then Err(PrunedClaim)
      else
        (match z.resolve(previous[c].receipt.claim.value, assumption.value.claim)
         case Some(c) => Ok(c)
         case None => Err(ResolveRefused))
  }

  /** The terminal program a step's receipt must come from; a lift's is read off its control identity. */
  ghost predicate TerminalOk(z: Zkvm, p: Profile, inputs: Inputs, receipt: Succinct)
    requires WellFormedProfile(p)
  {
    match inputs
    case LiftOf(_) =>
      LiftPo2(p, receipt.controlId).Some? && ShapeOk(z, p, receipt, Lift(LiftPo2(p, receipt.controlId).value))
    case JoinOf(_, _) => ShapeOk(z, p, receipt, Join)
    case ResolveOf(_) => ShapeOk(z, p, receipt, Resolve)
  }

  ghost predicate StepAccepted(z: Zkvm, p: Profile, step: RecursiveStep, source: CompositeReceipt,
                               assumption: Option<Succinct>, previous: seq<RecursiveStep>)
    requires WellFormedProfile(p)
  {
    && step.ordinal == |previous| && z.integrity(step.receipt)
    && step.operation == OperationOf(step.inputs)
    && TerminalOk(z, p, step.inputs, step.receipt)
    && var expected := ExpectedClaim(z, step.inputs, source, assumption, previous);
       expected.Ok? && ClaimDigest(z, step.receipt.claim) == z.digestOf(expected.value)
  }

  method CheckTerminal(z: Zkvm, p: Profile, inputs: Inputs, receipt: Succinct) returns (r: Result<(), ReplayError>)
    requires WellFormedProfile(p)
    ensures r.Ok? <==> TerminalOk(z, p, inputs, receipt)
  {
    var terminal: CandidateTerminal;
    match inputs {
      case LiftOf(_) =>
        var po2 := NormalLiftSegmentPo2(p, receipt.controlId);
        if po2.None? {
          return Err(NotALift);
        }
        terminal := Lift(po2.value);
      case JoinOf(_, _) =>
        terminal := Join;
      case ResolveOf(_) =>
        terminal := Resolve;
    }
    var shape := ValidateTerminalShape(receipt, p, terminal, ClaimDigest(z, receipt.claim),
                                       ClaimDigest(z, receipt.claim));
    return if shape.Err? then Err(BadShape(shape.error)) else Ok(());
  }

  /** `validate_step`. */
  method ValidateStep(z: Zkvm, p: Profile, step: RecursiveStep, source: CompositeReceipt,
                      assumption: Option<Succinct>, previous: seq<RecursiveStep>)
    returns (r: Result<(), ReplayError>)
    requires WellFormedProfile(p)
    ensures r.Ok? <==> StepAccepted(z, p, step, source, assumption, previous)
  {
    if step.ordinal != |previous| {
      return Err(OrdinalNotAppended);
    }
    if !z.integrity(step.receipt) {
      return Err(IntegrityFailed);
    }
    if step.operation != OperationOf(step.inputs) {
      return Err(WrongOperation);
    }
    var _ :- CheckTerminal(z, p, step.inputs, step.receipt);
    var expected :- ExpectedClaim(z, step.inputs, source, assumption, previous);
    if ClaimDigest(z, step.receipt.claim) != z.digestOf(expected) {
      return Err(ClaimMismatch);
    }
    return Ok(());
  }

  // ---------- Step lists ----------

  /** Every step is accepted after the steps before it. */
  ghost predicate StepsAccepted(z: Zkvm, p: Profile, steps: seq<RecursiveStep>, source: CompositeReceipt,
                                assumption: Option<Succinct>)
    requires WellFormedProfile(p)
  {
    forall k :: 0 <= k < |steps| ==> StepAccepted(z, p, steps[k], source, assumption, steps[..k])
  }

  function StepInputs(steps: seq<RecursiveStep>): (s: seq<Inputs>)
    ensures |s| == |steps|
  {
    seq(|steps|, k requires 0 <= k < |steps| => steps[k].inputs)
  }

  /** The value of step `k`'s operation tree. */
  ghost function StepValue(z: Zkvm, steps: seq<RecursiveStep>, k: nat, source: CompositeReceipt,
                           assumption: Option<Succinct>): Option<Claim>
    requires Backward(StepInputs(steps)) && k < |steps|
  {
    Denote(z, TreeAt(StepInputs(steps), k), source.segments, assumption)
  }

  /** What step `k`'s receipt claims is the value of its operation tree. */
  ghost predicate ClaimsItsTree(z: Zkvm, steps: seq<RecursiveStep>, k: nat, source: CompositeReceipt,
                                assumption: Option<Succinct>)
    requires Backward(StepInputs(steps)) && k < |steps|
  {
    && var value := StepValue(z, steps, k, source, assumption);
       value.Some? && ClaimDigest(z, steps[k].receipt.claim) == z.digestOf(value.value)
       && (steps[k].receipt.claim.Value? ==> steps[k].receipt.claim.value == value.value)
  }

  /** No step states a claim that collides with the one its operation yields. Digests are finite, so this is
      asked of the claims at hand and not of all claims. */
  ghost predicate NoStepCollision(z: Zkvm, steps: seq<RecursiveStep>, source: CompositeReceipt,
                                  assumption: Option<Succinct>) {
    forall k :: 0 <= k < |steps| && steps[k].receipt.claim.Value? ==>
      var expected := ExpectedClaim(z, steps[k].inputs, source, assumption, steps[..k]);
      expected.Ok? ==> NoCollision(z, steps[k].receipt.claim.value, expected.value)
  }

  lemma AcceptedBackward(z: Zkvm, p: Profile, steps: seq<RecursiveStep>, source: CompositeReceipt,
                         assumption: Option<Succinct>)
    requires WellFormedProfile(p) && StepsAccepted(z, p, steps, source, assumption)
    ensures Backward(StepInputs(steps))
  {
    forall k | 0 <= k < |steps| ensures RefersBack(StepInputs(steps)[k], k) {
      assert StepAccepted(z, p, steps[k], source, assumption, steps[..k]);
    }
  }

  /** For any accepted step list, whatever its shape: every reference is strictly backward, and every step
      claims the value of its own operation tree over the source segments and the assumption. */
  lemma {:induction false} ReplayMeansTreeValue(z: Zkvm, p: Profile, steps: seq<RecursiveStep>,
                                                source: CompositeReceipt, assumption: Option<Succinct>, k: nat)
    requires WellFormedProfile(p) && NoStepCollision(z, steps, source, assumption)
    requires StepsAccepted(z, p, steps, source, assumption) && k < |steps|
    ensures Backward(StepInputs(steps)) && ClaimsItsTree(z, steps, k, source, assumption)
    decreases k
  {
    AcceptedBackward(z, p, steps, source, assumption);
    assert StepAccepted(z, p, steps[k], source, assumption, steps[..k]);
    assert StepInputs(steps)[k] == steps[k].inputs;
    match steps[k].inputs {
      case LiftOf(i) =>
      case JoinOf(l, r) =>
        ReplayMeansTreeValue(z, p, steps, source, assumption, l);
        ReplayMeansTreeValue(z, p, steps, source, assumption, r);
      case ResolveOf(c) =>
        ReplayMeansTreeValue(z, p, steps, source, assumption, c);
    }
  }

  // ---------- The source's assumption ----------

  function ExpectedControlRoot(p: Profile, family: Family): Option<Digest> {
    match family
    case TerminalJoin => None
    case TerminalResolve => Some(p.root)
    case ResolveThenJoin => Some(ZERO_DIGEST)
  }

  /** `validate_source_assumption_claim`, check by check. */
  function ValidateSourceAssumptionClaim(z: Zkvm, p: Profile, source: CompositeReceipt, family: Family,
                                         assumption: Option<Succinct>): Result<(), ReplayError> {
    if source.segments == [] then Err(NoFinalSegment)
    else
      var output := source.segments[|source.segments| - 1].claim.output;
      if output.Pruned? then Err(PrunedOutput)
      else if output.value.None? then Err(NoOutput)
      else
        var list := output.value.value.assumptions;
        match (UsesAssumption(family), assumption)
        case (false, None) => Ensure(EmptyAssumptions(list), UnexpectedAssumptions)
        case (false, Some(_)) => Err(UnexpectedReceipt)
        case (true, None) => Err(NoAssumptionReceipt)
        case (true, Some(a)) =>
          if list.Pruned? then Err(PrunedList)
          else if |list.value| != 1 then Err(WrongAssumptionCount)
          else if list.value[0].Pruned? then Err(PrunedAssumption)
          else
            var recorded := list.value[0].value;
            var _ :- Ensure(Some(recorded.controlRoot) == ExpectedControlRoot(p, family), WrongAssumptionRoot);
            Ensure(recorded.claim == ClaimDigest(z, a.claim), WrongAssumptionClaim)
  }

  /** A claim is given in full, has an output, and no assumption is left in it. */
  function EnsureNoAssumptionsLeft(claim: MaybePruned<Claim>): Result<(), ReplayError> {
    if claim.Pruned? then Err(PrunedClaim)
    else if claim.value.output.Pruned? then Err(PrunedOutput)
    else if claim.value.output.value.None? then Err(NoOutput)
    else Ensure(EmptyAssumptions(claim.value.output.value.value.assumptions), AssumptionsLeft)
  }

  // ---------- The PoVW nonces of a two-segment source ----------

  function JobNumber(z: Zkvm, imageId: Digest, statement: seq<uint8>): nat {
    if z.povwCandidate(imageId, statement) == 0 then 1 else z.povwCandidate(imageId, statement)
  }

  ghost predicate NonceFieldsOk(segments: seq<SegmentReceipt>, job: nat) {
    && |segments| == 2
    && forall i :: 0 <= i < |segments| ==> segments[i].index == i && segments[i].nonce == Some(Nonce(0, job, i))
  }

  method ValidateNonces(segments: seq<SegmentReceipt>, job: nat) returns (ok: bool)
    ensures ok <==> NonceFieldsOk(segments, job)
  {
    for i := 0 to |segments|
      invariant forall j :: 0 <= j < i ==> segments[j].nonce.Some?
    {
      if segments[i].nonce.None? {
        return false;
      }
    }
    if |segments| != 2 {
      return false;
    }
    for i := 0 to |segments|
      invariant forall j :: 0 <= j < i ==> segments[j].index == j && segments[j].nonce == Some(Nonce(0, job, j))
    {
      var nonce := segments[i].nonce.value;
      if segments[i].index != i || nonce.log != 0 || nonce.job != job || nonce.segment != i {
        return false;
      }
    }
    return true;
  }

  // ---------- The whole oracle ----------

  /** The retained assumption receipt: an exact successful claim of the same program, lifted, assumption-free. */
  ghost predicate AssumptionAccepted(z: Zkvm, p: Profile, receipt: Receipt, imageId: Digest, statement: seq<uint8>)
    requires WellFormedProfile(p)
  {
    && receipt.journal == statement && z.verify(receipt, imageId)
    && z.claimOf(receipt).Some? && ClaimDigest(z, z.claimOf(receipt).value) == z.digestOf(z.okClaim(imageId, statement))
    && receipt.inner.SuccinctInner?
    && var inner := receipt.inner.succinct;
       LiftPo2(p, inner.controlId).Some? && ShapeOk(z, p, inner, Lift(LiftPo2(p, inner.controlId).value))
       && EnsureNoAssumptionsLeft(inner.claim).Ok?
  }

  /** The composite embeds the same assumption receipt that the archive retains. */
  ghost predicate EmbeddedMatches(z: Zkvm, source: CompositeReceipt, assumption: Succinct) {
    && |source.assumptions| == 1 && source.assumptions[0].SuccinctAssumption?
    && source.assumptions[0].receipt == WithClaimDigest(z, assumption)
  }

  function RetainedAssumption(oracle: RecursiveOracle): Option<Succinct> {
    match oracle.assumptionReceipt
    case Some(receipt) => if receipt.inner.SuccinctInner? then Some(receipt.inner.succinct) else None
    case None => None
  }

  ghost predicate SourceAccepted(z: Zkvm, oracle: RecursiveOracle, imageId: Digest, statement: seq<uint8>) {
    && oracle.formatVersion == 2
    && Statement.Validate(statement, DigestBytes(imageId)).Ok?
    && oracle.sourceReceipt.journal == statement && z.verify(oracle.sourceReceipt, imageId)
    && oracle.sourceReceipt.inner.CompositeInner?
  }

  ghost predicate NoncesAccepted(z: Zkvm, oracle: RecursiveOracle, imageId: Digest, statement: seq<uint8>)
    requires oracle.sourceReceipt.inner.CompositeInner?
  {
    oracle.family == TerminalJoin ==>
      NonceFieldsOk(oracle.sourceReceipt.inner.composite.segments, JobNumber(z, imageId, statement))
  }

  ghost predicate EmbeddedAccepted(z: Zkvm, oracle: RecursiveOracle)
    requires oracle.sourceReceipt.inner.CompositeInner?
  {
    RetainedAssumption(oracle).Some? ==>
      EmbeddedMatches(z, oracle.sourceReceipt.inner.composite, RetainedAssumption(oracle).value)
  }

  ghost predicate AssumptionSideAccepted(z: Zkvm, p: Profile, oracle: RecursiveOracle, imageId: Digest,
                                         statement: seq<uint8>)
    requires WellFormedProfile(p) && oracle.sourceReceipt.inner.CompositeInner?
  {
    var source := oracle.sourceReceipt.inner.composite;
    && (UsesAssumption(oracle.family) <==> oracle.assumptionReceipt.Some?)
    && (oracle.assumptionReceipt.Some? ==> AssumptionAccepted(z, p, oracle.assumptionReceipt.value, imageId, statement))
    && |source.assumptions| == (if UsesAssumption(oracle.family) then 1 else 0)
    && ValidateSourceAssumptionClaim(z, p, source, oracle.family, RetainedAssumption(oracle)).Ok?
  }

  ghost predicate GraphAccepted(z: Zkvm, p: Profile, oracle: RecursiveOracle)
    requires WellFormedProfile(p) && oracle.sourceReceipt.inner.CompositeInner?
  {
    var source := oracle.sourceReceipt.inner.composite;
    && |source.segments| == SegmentsOf(oracle.family)
    && StepInputs(oracle.steps) == FamilyInputs(oracle.family)
    && oracle.finalStep as int + 1 == |oracle.steps|
    && StepsAccepted(z, p, oracle.steps, source, RetainedAssumption(oracle))
  }

  function FamilyTerminal(family: Family): CandidateTerminal {
    if family == TerminalResolve then Resolve else Join
  }

  /** The final receipt is the exact successful claim, from the family's terminal program, assumption-free. */
  ghost predicate FinalAccepted(z: Zkvm, p: Profile, family: Family, receipt: Succinct, imageId: Digest,
                                statement: seq<uint8>)
    requires WellFormedProfile(p)
  {
    && ClaimDigest(z, receipt.claim) == z.digestOf(z.okClaim(imageId, statement))
    && EnsureNoAssumptionsLeft(receipt.claim).Ok?
    && ShapeOk(z, p, receipt, FamilyTerminal(family))
    && z.verify(Receipt(SuccinctInner(receipt), statement), imageId)
  }

  ghost predicate OracleAccepted(z: Zkvm, p: Profile, oracle: RecursiveOracle, imageId: Digest, statement: seq<uint8>)
    requires WellFormedProfile(p)
  {
    && SourceAccepted(z, oracle, imageId, statement)
    && NoncesAccepted(z, oracle, imageId, statement)
    && AssumptionSideAccepted(z, p, oracle, imageId, statement)
    && EmbeddedAccepted(z, oracle)
    && GraphAccepted(z, p, oracle)
    && FinalAccepted(z, p, oracle.family, oracle.steps[oracle.finalStep].receipt, imageId, statement)
  }

  method CheckShape(z: Zkvm, p: Profile, receipt: Succinct, terminal: CandidateTerminal, claimDigest: Digest)
    returns (r: Result<(), ReplayError>)
    requires WellFormedProfile(p)
    ensures r.Ok? <==> ShapeOk(z, p, receipt, terminal) && ClaimDigest(z, receipt.claim) == claimDigest
  {
    var shape := ValidateTerminalShape(receipt, p, terminal, ClaimDigest(z, receipt.claim), claimDigest);
    return if shape.Err? then Err(BadShape(shape.error)) else Ok(());
  }

  /** The retained assumption, checked when the family uses one. */
  method ValidateAssumption(z: Zkvm, p: Profile, receipt: Receipt, imageId: Digest, statement: seq<uint8>)
    returns (r: Result<Succinct, ReplayError>)
    requires WellFormedProfile(p)
    ensures r.Ok? <==> AssumptionAccepted(z, p, receipt, imageId, statement)
    ensures r.Ok? ==> receipt.inner == SuccinctInner(r.value)
  {
    if receipt.journal != statement {
      return Err(WrongJournal);
    }
    if !z.verify(receipt, imageId) {
      return Err(VerificationFailed);
    }
    var claim := z.claimOf(receipt);
    if claim.None? || ClaimDigest(z, claim.value) != z.digestOf(z.okClaim(imageId, statement)) {
      return Err(NotOkClaim);
    }
    if !receipt.inner.SuccinctInner? {
      return Err(NotSuccinct);
    }
    var inner := receipt.inner.succinct;
    var po2 := NormalLiftSegmentPo2(p, inner.controlId);
    if po2.None? {
      return Err(NotALift);
    }
    var _ :- CheckShape(z, p, inner, Lift(po2.value), ClaimDigest(z, inner.claim));
    var _ :- EnsureNoAssumptionsLeft(inner.claim);
    return Ok(inner);
  }

  /** The final gates, in source order. */
  method ValidateFinal(z: Zkvm, p: Profile, family: Family, receipt: Succinct, imageId: Digest, statement: seq<uint8>)
    returns (r: Result<(), ReplayError>)
    requires WellFormedProfile(p)
    ensures r.Ok? <==> FinalAccepted(z, p, family, receipt, imageId, statement)
  {
    var expected := z.digestOf(z.okClaim(imageId, statement));
    if ClaimDigest(z, receipt.claim) != expected {
      return Err(NotOkClaim);
    }
    var _ :- EnsureNoAssumptionsLeft(receipt.claim);
    var _ :- CheckShape(z, p, receipt, FamilyTerminal(family), expected);
    if !z.verify(Receipt(SuccinctInner(receipt), statement), imageId) {
      return Err(VerificationFailed);
    }
    return Ok(());
  }

  /** One turn of the replay loop: the step must be the planned one, and be accepted. */
  method ReplayStep(z: Zkvm, p: Profile, step: RecursiveStep, expected: PlannedStep, source: CompositeReceipt,
                    assumption: Option<Succinct>, verified: seq<RecursiveStep>)
    returns (r: Result<(), ReplayError>)
    requires WellFormedProfile(p) && expected.operation == OperationOf(expected.inputs)
    ensures r.Ok? <==> step.inputs == expected.inputs && StepAccepted(z, p, step, source, assumption, verified)
  {
    if step.ordinal != |verified| {
      return Err(NotCanonicalOrdinal);
    }
    if step.operation != expected.operation || step.inputs != expected.inputs {
      return Err(GraphDiffers);
    }
    r := ValidateStep(z, p, step, source, assumption, verified);
  }

  /** The first `n` steps are the planned ones and are accepted. */
  ghost predicate Replayed(z: Zkvm, p: Profile, steps: seq<RecursiveStep>, plan: seq<PlannedStep>,
                           source: CompositeReceipt, assumption: Option<Succinct>, n: nat)
    requires WellFormedProfile(p) && n <= |steps| == |plan|
  {
    n == 0
    || (&& Replayed(z, p, steps, plan, source, assumption, n - 1)
        && steps[n - 1].inputs == plan[n - 1].inputs
        && StepAccepted(z, p, steps[n - 1], source, assumption, steps[..n - 1]))
  }

  lemma {:induction false} ReplayedShrinks(z: Zkvm, p: Profile, steps: seq<RecursiveStep>, plan: seq<PlannedStep>,
                                           source: CompositeReceipt, assumption: Option<Succinct>, n: nat, m: nat)
    requires WellFormedProfile(p) && m <= n <= |steps| == |plan|
    requires Replayed(z, p, steps, plan, source, assumption, n)
    ensures Replayed(z, p, steps, plan, source, assumption, m)
  {
    if m < n { ReplayedShrinks(z, p, steps, plan, source, assumption, n - 1, m); }
  }

  lemma {:induction false} ReplayedBuilds(z: Zkvm, p: Profile, steps: seq<RecursiveStep>, plan: seq<PlannedStep>,
                                          source: CompositeReceipt, assumption: Option<Succinct>, n: nat)
    requires WellFormedProfile(p) && n <= |steps| == |plan|
    requires StepInputs(steps) == InputsOf(plan) && StepsAccepted(z, p, steps, source, assumption)
    ensures Replayed(z, p, steps, plan, source, assumption, n)
  {
    if n > 0 {
      ReplayedBuilds(z, p, steps, plan, source, assumption, n - 1);
      assert StepInputs(steps)[n - 1] == InputsOf(plan)[n - 1];
    }
  }

  lemma ReplayedAll(z: Zkvm, p: Profile, steps: seq<RecursiveStep>, plan: seq<PlannedStep>,
                    source: CompositeReceipt, assumption: Option<Succinct>, n: nat)
    requires WellFormedProfile(p) && n <= |steps| == |plan|
    ensures Replayed(z, p, steps, plan, source, assumption, |steps|)
       <==> StepInputs(steps) == InputsOf(plan) && StepsAccepted(z, p, steps, source, assumption)
    ensures Replayed(z, p, steps, plan, source, assumption, |steps|) ==>
              Replayed(z, p, steps, plan, source, assumption, n)
  {
    if StepInputs(steps) == InputsOf(plan) && StepsAccepted(z, p, steps, source, assumption) {
      ReplayedBuilds(z, p, steps, plan, source, assumption, |steps|);
    }
    if Replayed(z, p, steps, plan, source, assumption, |steps|) {
      ReplayedShrinks(z, p, steps, plan, source, assumption, |steps|, n);
      forall k | 0 <= k < |steps|
        ensures StepAccepted(z, p, steps[k], source, assumption, steps[..k]) && steps[k].inputs == plan[k].inputs
      {
        ReplayedShrinks(z, p, steps, plan, source, assumption, |steps|, k + 1);
      }
    }
  }

  /** The replay loop: the steps are re-checked one by one against the plan and the steps already verified. */
  method ReplaySteps(z: Zkvm, p: Profile, steps: seq<RecursiveStep>, plan: seq<PlannedStep>, source: CompositeReceipt,
                     assumption: Option<Succinct>)
    returns (r: Result<seq<RecursiveStep>, ReplayError>)
    requires WellFormedProfile(p) && Consistent(plan) && |steps| == |plan|
    ensures r.Ok? <==> StepInputs(steps) == InputsOf(plan) && StepsAccepted(z, p, steps, source, assumption)
    ensures r.Ok? ==> r.value == steps
  {
    ReplayedAll(z, p, steps, plan, source, assumption, 0);
    var verified: seq<RecursiveStep> := [];
    for ordinal := 0 to |steps|
      invariant verified == steps[..ordinal]
      invariant Replayed(z, p, steps, plan, source, assumption, ordinal)
    {
      var replayed := ReplayStep(z, p, steps[ordinal], plan[ordinal], source, assumption, verified);
      if replayed.Err? {
        ReplayedAll(z, p, steps, plan, source, assumption, ordinal + 1);
        return Err(replayed.error);
      }
      verified := verified + [steps[ordinal]];
    }
    return Ok(verified);
  }

  /** `validate_recursive_oracle`. */
  method ValidateRecursiveOracle(z: Zkvm, p: Profile, oracle: RecursiveOracle, imageId: Digest, statement: seq<uint8>)
    returns (r: Result<(), ReplayError>)
    requires WellFormedProfile(p)
    ensures r.Ok? <==> OracleAccepted(z, p, oracle, imageId, statement)
  {
    if oracle.formatVersion != 2 {
      return Err(WrongVersion);
    }
    if Statement.Validate(statement, DigestBytes(imageId)).Err? {
      return Err(BadStatement);
    }
    if oracle.sourceReceipt.journal != statement {
      return Err(WrongJournal);
    }
    if !z.verify(oracle.sourceReceipt, imageId) {
      return Err(VerificationFailed);
    }
    if !oracle.sourceReceipt.inner.CompositeInner? {
      return Err(NotComposite);
    }
    var source := oracle.sourceReceipt.inner.composite;
    if oracle.family == TerminalJoin {
      var noncesOk := ValidateNonces(source.segments, JobNumber(z, imageId, statement));
      if !noncesOk {
        return Err(BadNonce);
      }
    }
    var planned := PlannedSteps(oracle.family, |source.segments|);
    if planned.Err? {
      return Err(BadPlan);
    }
    var plan := planned.value;
    if |oracle.steps| != |plan| {
      return Err(WrongStepCount);
    }
    if oracle.finalStep as int + 1 != |oracle.steps| {
      return Err(WrongFinalIndex);
    }
    var assumption: Option<Succinct> := None;
    if oracle.assumptionReceipt.Some? {
      if !UsesAssumption(oracle.family) {
        return Err(UnexpectedReceipt);
      }
      var inner :- ValidateAssumption(z, p, oracle.assumptionReceipt.value, imageId, statement);
      assumption := Some(inner);
    } else if UsesAssumption(oracle.family) {
      return Err(NoAssumptionReceipt);
    }
    assert assumption == RetainedAssumption(oracle);
    if |source.assumptions| != (if UsesAssumption(oracle.family) then 1 else 0) {
      return Err(WrongAssumptionCount);
    }
    var _ :- ValidateSourceAssumptionClaim(z, p, source, oracle.family, assumption);
    if assumption.Some? {
      if !source.assumptions[0].SuccinctAssumption? {
        return Err(NotSuccinct);
      }
      if source.assumptions[0].receipt != WithClaimDigest(z, assumption.value) {
        return Err(EmbeddedDiffers);
      }
    }
    var verified :- ReplaySteps(z, p, oracle.steps, plan, source, assumption);
    r := ValidateFinal(z, p, oracle.family, verified[oracle.finalStep].receipt, imageId, statement);
  }

  // ---------- What an accepted oracle proves ----------

  /** No step collides with its operation, nor the final claim with the claim of a successful run. */
  ghost predicate NoOracleCollision(z: Zkvm, oracle: RecursiveOracle, imageId: Digest, statement: seq<uint8>)
    requires oracle.sourceReceipt.inner.CompositeInner?
  {
    && NoStepCollision(z, oracle.steps, oracle.sourceReceipt.inner.composite, RetainedAssumption(oracle))
    && forall k :: 0 <= k < |oracle.steps| && oracle.steps[k].receipt.claim.Value? ==>
         NoCollision(z, oracle.steps[k].receipt.claim.value, z.okClaim(imageId, statement))
  }

  /** An accepted oracle's final claim is given in full and is the value of its family's tree; it is exactly
      the successful run of the program on the statement, and no assumption is left in it. */
  lemma AcceptedOracleProvesItsPlan(z: Zkvm, p: Profile, oracle: RecursiveOracle, imageId: Digest,
                                    statement: seq<uint8>)
    requires WellFormedProfile(p) && OracleAccepted(z, p, oracle, imageId, statement)
    requires NoOracleCollision(z, oracle, imageId, statement)
    ensures var final := oracle.steps[oracle.finalStep].receipt.claim;
            var source := oracle.sourceReceipt.inner.composite;
            && Denote(z, FamilyTree(oracle.family), source.segments, RetainedAssumption(oracle))
               == Some(z.okClaim(imageId, statement))
            && final == Value(z.okClaim(imageId, statement))
            && EnsureNoAssumptionsLeft(final).Ok?
  {
    var k := |oracle.steps| - 1;
    FamilyPlansAreLinear(oracle.family);
    ReplayMeansTreeValue(z, p, oracle.steps, oracle.sourceReceipt.inner.composite, RetainedAssumption(oracle), k);
  }

  /** In an accepted oracle every step's claim, final or intermediate, is given in full and is the value of
      its tree: a pruned claim could not have been consumed by the step that needs it. */
  lemma EveryStepIsGivenInFull(z: Zkvm, p: Profile, oracle: RecursiveOracle, imageId: Digest, statement: seq<uint8>,
                               k: nat)
    requires WellFormedProfile(p) && OracleAccepted(z, p, oracle, imageId, statement)
    requires NoOracleCollision(z, oracle, imageId, statement) && k < |oracle.steps|
    ensures Backward(StepInputs(oracle.steps)) && oracle.steps[k].receipt.claim.Value?
    ensures StepValue(z, oracle.steps, k, oracle.sourceReceipt.inner.composite, RetainedAssumption(oracle))
         == Some(oracle.steps[k].receipt.claim.value)
  {
    var source, assumption := oracle.sourceReceipt.inner.composite, RetainedAssumption(oracle);
    ReplayMeansTreeValue(z, p, oracle.steps, source, assumption, k);
    if k < |oracle.steps| - 1 {
      var c := ConsumerOf(oracle.family, k);
      ConsumedIsGiven(z, p, oracle.steps, source, assumption, c, k);
    }
  }

  /** The step of a family's plan that consumes step `k`. */
  function ConsumerOf(family: Family, k: nat): (c: nat)
    requires k < |FamilyInputs(family)| - 1
    ensures k < c < |FamilyInputs(family)| && k in Consumed(FamilyInputs(family)[c])
  {
    match family
    case TerminalJoin => 2
    case TerminalResolve => 1
    case ResolveThenJoin => if k == 1 then 2 else 3
  }

  lemma ConsumedIsGiven(z: Zkvm, p: Profile, steps: seq<RecursiveStep>, source: CompositeReceipt,
                        assumption: Option<Succinct>, c: nat, k: nat)
    requires WellFormedProfile(p) && StepsAccepted(z, p, steps, source, assumption)
    requires k < c < |steps| && k in Consumed(StepInputs(steps)[c])
    ensures steps[k].receipt.claim.Value?
  {
    assert StepAccepted(z, p, steps[c], source, assumption, steps[..c]);
    assert StepInputs(steps)[c] == steps[c].inputs && steps[..c][k] == steps[k];
  }
}
