/** Small concrete ancestries, one for each family, with an honest prover, a join that depends on the order and a root
    that is not zero: the acceptance conditions of the generator and of the replay can all be met together. */
module AcceptedExample {
  import opened Wrappers
  import opened Words
  import opened Plan
  import opened Seal
  import opened SealMeaning
  import opened Ancestry
  import opened Replay
  import opened OracleMeaning
  import opened Generator
  import opened GeneratorMeaning
  import Statement

  const ZERO: Digest := [0, 0, 0, 0, 0, 0, 0, 0]
  const ROOT: Digest := [9, 0, 0, 0, 0, 0, 0, 0]

  /** The claim of a successful run, those of its two halves, and a claim under one assumption. */
  const CLAIM := Claim([], Value(Some(Output(ZERO, Value([])))))
  const LEFT := Claim([1], Value(Some(Output(ZERO, Value([])))))
  const RIGHT := Claim([2], Value(Some(Output(ZERO, Value([])))))

  function Conditional(root: Digest): Claim {
    Claim([if root == ZERO then 3 else 4], Value(Some(Output(ZERO, Value([Value(Assumption(ZERO, root))])))))
  }

  function Digested(claim: Claim): Digest {
    [if claim.rest == [] then 0 else claim.rest[0], 0, 0, 0, 0, 0, 0, 0]
  }

  function Joined(a: Claim, b: Claim): Option<Claim> {
    if a == LEFT && b == RIGHT then Some(CLAIM) else None
  }

  function Resolved(a: Claim): Option<Claim> {
    if a == Conditional(ROOT) then Some(CLAIM) else if a == Conditional(ZERO) then Some(RIGHT) else None
  }

  const ZKVM := Zkvm(
    Digested, Joined, (a: Claim, b: MaybePruned<Claim>) => Resolved(a),
    (id: Digest, s: seq<uint8>) => CLAIM, (r: Receipt) => Some(Value(CLAIM)), (r: Succinct) => true,
    (r: Receipt, id: Digest) => true, (id: Digest, s: seq<uint8>) => 0)

  function LiftIdAt(i: nat): Digest
    requires i < 8
  {
    [i, 0, 0, 0, 0, 0, 0, 0]
  }

  const PROFILE := Profile(seq(8, i requires 0 <= i < 8 => LiftIdAt(i)), ZERO, ZERO, ROOT, ZERO)

  function SealOf(digest: Digest): seq<uint32> {
    SealPrefix(ROOT, digest) + seq(PROOF_WORDS - 33, _ => 0)
  }

  function ReceiptOf(claim: Claim, index: uint32): Succinct {
    SuccinctReceipt(SealOf(Digested(claim)), ZERO, Value(claim), "poseidon2", ZERO,
                    InclusionProof(index, seq(8, _ => ZERO)))
  }

  function StatementBytes(): seq<uint8> {
    var zeros: Bytes32 := seq(32, _ => 0);
    Statement.Serialize(Statement.Record(zeros, zeros, DigestBytes(ZERO), zeros, []))
  }

  function SegmentOf(claim: Claim, i: uint32): SegmentReceipt {
    SegmentReceipt(claim, i, Some(Nonce(0, 1, i)))
  }

  /** The last segment of a family that resolves carries a conditional claim. */
  function Segments(family: Family): (segments: seq<SegmentReceipt>)
    ensures |segments| == SegmentsOf(family)
  {
    match family
    case TerminalJoin => [SegmentOf(LEFT, 0), SegmentOf(RIGHT, 1)]
    case TerminalResolve => [SegmentOf(Conditional(ROOT), 0)]
    case ResolveThenJoin => [SegmentOf(LEFT, 0), SegmentOf(Conditional(ZERO), 1)]
  }

  const ASSUMED := Receipt(SuccinctInner(ReceiptOf(CLAIM, 5)), StatementBytes())

  function AssumptionOf(family: Family): Option<Receipt> {
    if family == TerminalJoin then None else Some(ASSUMED)
  }

  function ChosenSource(family: Family): AssumptionSource {
    if family == TerminalJoin then NoSource else Prove
  }

  function Source(family: Family): Receipt {
    var embedded := if family == TerminalJoin then []
                    else [SuccinctAssumption(WithClaimDigest(ZKVM, ReceiptOf(CLAIM, 5)))];
    Receipt(CompositeInner(CompositeReceipt(Segments(family), embedded)), StatementBytes())
  }

  function Exponents(family: Family): seq<uint32> {
    seq(SegmentsOf(family), _ => 15)
  }

  /** An honest prover: every receipt states the claim of its operation on the claims it is given. */
  function JoinOfReceipts(a: Succinct, b: Succinct): Option<Succinct> {
    if a.claim.Value? && b.claim.Value? && Joined(a.claim.value, b.claim.value).Some?
    then Some(ReceiptOf(Joined(a.claim.value, b.claim.value).value, 1)) else None
  }

  function ResolveOfReceipts(a: Succinct): Option<Succinct> {
    if a.claim.Value? && Resolved(a.claim.value).Some?
    then Some(ReceiptOf(Resolved(a.claim.value).value, 22)) else None
  }

  function ProverFor(family: Family): Prover {
    Prover(Some(Exponents(family)), Some(15), Some(ProveInfo(1, false, ASSUMED)),
           Some(ProveInfo(SegmentsOf(family), false, Source(family))),
           (n: nat, s: SegmentReceipt) => Some(ReceiptOf(s.claim, 5)),
           (n: nat, a: Succinct, b: Succinct) => JoinOfReceipts(a, b),
           (n: nat, a: Succinct, b: Succinct) => ResolveOfReceipts(a))
  }

  lemma SealIsHeld(digest: Digest)
    ensures SealHolds(SealOf(digest), ROOT, digest)
  {
    var seal := SealOf(digest);
    assert seal[..33] == SealPrefix(ROOT, digest) && seal[33..] == seq(PROOF_WORDS - 33, _ => 0);
    AcceptedSealsArePrefixAndTail(seal, ROOT, digest);
    SealMeans(seal, ROOT, digest);
  }

  lemma ProfileIsWellFormed()
    ensures WellFormedProfile(PROFILE) && PROFILE.liftIds[0] == ZERO
  {
    assert LiftIdAt(0) == ZERO;
  }

  lemma ZeroIsBelow()
    ensures BelowOrder(ZERO)
  {
  }

  lemma ReceiptIsShaped(claim: Claim, index: uint32, terminal: CandidateTerminal)
    requires (terminal, index) in [(Lift(15), 5), (Join, 1), (Resolve, 22)]
    ensures |PROFILE.liftIds| == 8 && WellShaped(ReceiptOf(claim, index), PROFILE, terminal, Digested(claim))
  {
    ProfileIsWellFormed();
    ZeroIsBelow();
    SealIsHeld(Digested(claim));
  }

  lemma ReceiptStates(claim: Claim, index: uint32, terminal: CandidateTerminal)
    requires (terminal, index) in [(Lift(15), 5), (Join, 1), (Resolve, 22)]
    ensures WellFormedProfile(PROFILE)
    ensures States(ZKVM, PROFILE, ReceiptOf(claim, index), terminal, claim)
  {
    ProfileIsWellFormed();
    ReceiptIsShaped(claim, index, terminal);
  }

  lemma LiftsAreHonest(family: Family)
    ensures WellFormedProfile(PROFILE)
    ensures HonestLifts(ZKVM, PROFILE, ProverFor(family), Segments(family), Exponents(family))
  {
    ProfileIsWellFormed();
    var segments := Segments(family);
    forall n: nat, i | 0 <= i < |segments|
      ensures HonestLift(ZKVM, PROFILE, ProverFor(family).lift(n, segments[i]), segments[i].claim, Exponents(family)[i])
    {
      ReceiptStates(segments[i].claim, 5, Lift(15));
    }
  }

  lemma JoinsAreHonest(family: Family)
    ensures WellFormedProfile(PROFILE)
    ensures HonestJoins(ZKVM, PROFILE, ProverFor(family)) && HonestResolves(ZKVM, PROFILE, ProverFor(family))
  {
    ProfileIsWellFormed();
    forall c: Claim
      ensures HonestAnswer(ZKVM, PROFILE, Some(ReceiptOf(c, 1)), Join, c)
              && HonestAnswer(ZKVM, PROFILE, Some(ReceiptOf(c, 22)), Resolve, c)
    {
      ReceiptStates(c, 1, Join);
      ReceiptStates(c, 22, Resolve);
    }
  }

  lemma StatementIsAccepted()
    ensures StatementFor(StatementBytes(), ZERO)
  {
    var zeros: Bytes32 := seq(32, _ => 0);
    Statement.SerializationAccepted(Statement.Record(zeros, zeros, DigestBytes(ZERO), zeros, []));
    StatementMeans(StatementBytes(), ZERO);
  }

  lemma AssumptionIsLifted()
    ensures WellFormedProfile(PROFILE)
    ensures Lifts(ZKVM, PROFILE, ASSUMED, ZERO, StatementBytes(), 15)
  {
    ProfileIsWellFormed();
    ReceiptIsShaped(CLAIM, 5, Lift(15));
  }

  lemma AssumptionIsObtained(family: Family)
    ensures WellFormedProfile(PROFILE)
    ensures AssumptionObtained(ZKVM, PROFILE, ProverFor(family), ZERO, StatementBytes(), family, ChosenSource(family),
                               AssumptionOf(family))
  {
    AssumptionIsLifted();
  }

  lemma SourceIsProved(family: Family)
    ensures ProverFor(family).sourceProof == Some(ProveInfo(|Exponents(family)|, false, Source(family)))
    ensures forall i :: 0 <= i < |Exponents(family)| ==> Exponents(family)[i] == 15
    ensures ProverFor(family).preflight == Some(Exponents(family)) && Source(family).journal == StatementBytes()
    ensures |Source(family).inner.composite.segments| == |Exponents(family)| == SegmentsOf(family)
    ensures |Source(family).inner.composite.assumptions| == (if family == TerminalJoin then 0 else 1)
  {
  }

  lemma SourceIsObtained(family: Family)
    ensures SourceObtained(ZKVM, ProverFor(family), ZERO, StatementBytes(), family, Exponents(family), Source(family))
  {
    StatementIsAccepted();
    SourceIsProved(family);
  }

  lemma ClaimsFit(family: Family)
    ensures Recorded(ZKVM, PROFILE, Segments(family)[|Segments(family)| - 1].claim, family,
                     AssumedOf(AssumptionOf(family)))
    ensures Yields(ZKVM, family, Segments(family), AssumedOf(AssumptionOf(family)), CLAIM)
  {
    assert HasDigest(ZKVM, ReceiptOf(CLAIM, 5).claim, ZERO);
  }

  lemma RunIsHonest(family: Family)
    ensures WellFormedProfile(PROFILE)
    ensures HonestRun(ZKVM, PROFILE, ProverFor(family), ZERO, StatementBytes(), family, Exponents(family),
                      ChosenSource(family), Source(family), AssumptionOf(family))
  {
    SourceIsObtained(family);
    AssumptionIsObtained(family);
    LiftsAreHonest(family);
    JoinsAreHonest(family);
    ClaimsFit(family);
  }

  // ---------- No collision ----------

  /** The claims of the example, all with digests of their own. */
  ghost predicate Known(claim: Claim) {
    claim == CLAIM || claim == LEFT || claim == RIGHT || claim == Conditional(ZERO) || claim == Conditional(ROOT)
  }

  lemma KnownDoNotCollide(a: Claim, b: Claim)
    requires Known(a) && Known(b)
    ensures NoCollision(ZKVM, a, b)
  {
  }

  lemma ExpectedAreKnown(family: Family, inputs: Inputs, assumption: Option<Succinct>, previous: seq<RecursiveStep>)
    ensures var expected := ExpectedClaim(ZKVM, inputs, Source(family).inner.composite, assumption, previous);
            expected.Ok? ==> Known(expected.value)
  {
    if inputs.LiftOf? && inputs.segmentIndex < SegmentsOf(family) {
      assert Known(Segments(family)[inputs.segmentIndex].claim);
    }
  }

  ghost predicate StatesKnown(receipt: Succinct) {
    receipt.claim.Value? && Known(receipt.claim.value)
  }

  lemma LiftIsKnown(family: Family, n: nat, i: nat, receipt: Succinct)
    requires i < SegmentsOf(family) && ProverFor(family).lift(n, Segments(family)[i]) == Some(receipt)
    ensures StatesKnown(receipt)
  {
    assert Known(Segments(family)[i].claim);
  }

  lemma JoinIsKnown(a: Succinct, b: Succinct, receipt: Succinct)
    requires JoinOfReceipts(a, b) == Some(receipt)
    ensures StatesKnown(receipt)
  {
    assert receipt.claim == Value(Joined(a.claim.value, b.claim.value).value) == Value(CLAIM);
  }

  lemma ResolveIsKnown(a: Succinct, receipt: Succinct)
    requires ResolveOfReceipts(a) == Some(receipt)
    ensures StatesKnown(receipt)
  {
    var claim := Resolved(a.claim.value).value;
    assert receipt.claim == Value(claim) && (claim == CLAIM || claim == RIGHT);
  }

  lemma JoinAnswersAreKnown(steps: seq<RecursiveStep>, assumption: Option<Succinct>)
    requires AnswersOf(ProverFor(TerminalJoin), TerminalJoin, Segments(TerminalJoin), assumption, steps)
    ensures StatesKnown(steps[0].receipt) && StatesKnown(steps[1].receipt) && StatesKnown(steps[2].receipt)
  {
    LiftIsKnown(TerminalJoin, 0, 0, steps[0].receipt);
    LiftIsKnown(TerminalJoin, 1, 1, steps[1].receipt);
    JoinIsKnown(steps[0].receipt, steps[1].receipt, steps[2].receipt);
  }

  lemma ResolveAnswersAreKnown(steps: seq<RecursiveStep>, assumption: Option<Succinct>)
    requires AnswersOf(ProverFor(TerminalResolve), TerminalResolve, Segments(TerminalResolve), assumption, steps)
    ensures StatesKnown(steps[0].receipt) && StatesKnown(steps[1].receipt)
  {
    LiftIsKnown(TerminalResolve, 0, 0, steps[0].receipt);
    ResolveIsKnown(steps[0].receipt, steps[1].receipt);
  }

  lemma ResolveJoinAnswersAreKnown(steps: seq<RecursiveStep>, assumption: Option<Succinct>)
    requires AnswersOf(ProverFor(ResolveThenJoin), ResolveThenJoin, Segments(ResolveThenJoin), assumption, steps)
    ensures StatesKnown(steps[0].receipt) && StatesKnown(steps[1].receipt)
    ensures StatesKnown(steps[2].receipt) && StatesKnown(steps[3].receipt)
  {
    LiftIsKnown(ResolveThenJoin, 0, 0, steps[0].receipt);
    LiftIsKnown(ResolveThenJoin, 1, 1, steps[1].receipt);
    ResolveIsKnown(steps[1].receipt, steps[2].receipt);
    JoinIsKnown(steps[0].receipt, steps[2].receipt, steps[3].receipt);
  }

  lemma UpToFour<T>(s: seq<T>, p: T -> bool)
    requires |s| <= 4 && (|s| > 0 ==> p(s[0])) && (|s| > 1 ==> p(s[1]))
    requires (|s| > 2 ==> p(s[2])) && (|s| > 3 ==> p(s[3]))
    ensures forall k :: 0 <= k < |s| ==> p(s[k])
  {
  }

  ghost predicate StepIsKnown(step: RecursiveStep) {
    StatesKnown(step.receipt)
  }

  lemma AnswersAreKnown(family: Family, steps: seq<RecursiveStep>, assumption: Option<Succinct>)
    requires AnswersOf(ProverFor(family), family, Segments(family), assumption, steps)
    ensures forall k :: 0 <= k < |steps| ==> StepIsKnown(steps[k])
  {
    match family {
      case TerminalJoin => JoinAnswersAreKnown(steps, assumption);
      case TerminalResolve => ResolveAnswersAreKnown(steps, assumption);
      case ResolveThenJoin => ResolveJoinAnswersAreKnown(steps, assumption);
    }
    UpToFour(steps, StepIsKnown);
  }

  lemma StepDoesNotCollide(family: Family, oracle: RecursiveOracle, k: nat)
    requires k < |oracle.steps| && StatesKnown(oracle.steps[k].receipt)
    ensures var claim := oracle.steps[k].receipt.claim;
            var expected := ExpectedClaim(ZKVM, oracle.steps[k].inputs, Source(family).inner.composite,
                                          RetainedAssumption(oracle), oracle.steps[..k]);
            && claim.Value? && NoCollision(ZKVM, claim.value, CLAIM)
            && (expected.Ok? ==> NoCollision(ZKVM, claim.value, expected.value))
  {
    var claim := oracle.steps[k].receipt.claim.value;
    var expected := ExpectedClaim(ZKVM, oracle.steps[k].inputs, Source(family).inner.composite,
                                  RetainedAssumption(oracle), oracle.steps[..k]);
    KnownDoNotCollide(claim, CLAIM);
    ExpectedAreKnown(family, oracle.steps[k].inputs, RetainedAssumption(oracle), oracle.steps[..k]);
    if expected.Ok? { KnownDoNotCollide(claim, expected.value); }
  }

  lemma NothingCollides(family: Family, oracle: RecursiveOracle)
    requires oracle.sourceReceipt == Source(family)
    requires AnswersOf(ProverFor(family), family, Segments(family), RetainedAssumption(oracle), oracle.steps)
    ensures NoOracleCollision(ZKVM, oracle, ZERO, StatementBytes())
  {
    AnswersAreKnown(family, oracle.steps, RetainedAssumption(oracle));
    forall k: nat | k < |oracle.steps|
      ensures var claim := oracle.steps[k].receipt.claim;
              var expected := ExpectedClaim(ZKVM, oracle.steps[k].inputs, Source(family).inner.composite,
                                            RetainedAssumption(oracle), oracle.steps[..k]);
              && claim.Value? && NoCollision(ZKVM, claim.value, CLAIM)
              && (expected.Ok? ==> NoCollision(ZKVM, claim.value, expected.value))
    {
      assert StepIsKnown(oracle.steps[k]);
      StepDoesNotCollide(family, oracle, k);
    }
  }

  /** The two facts the generator leaves to the prover. */
  lemma ProverKeepsItsPart(family: Family)
    ensures family == TerminalJoin ==> NoncesHold(ZKVM, Segments(family), ZERO, StatementBytes())
    ensures family != TerminalJoin ==> Embeds(ZKVM, Source(family).inner.composite.assumptions, ReceiptOf(CLAIM, 5))
  {
  }

  /** In every family the generator can return an oracle that the replay accepts, with no digest collision. */
  lemma AcceptanceIsPossible(family: Family)
    ensures exists z, p, prover, id, statement, expected, source, oracle ::
              && WellFormedProfile(p) && GeneratedAs(z, p, prover, id, statement, family, expected, source, oracle)
              && OracleAccepted(z, p, oracle, id, statement) && NoOracleCollision(z, oracle, id, statement)
  {
    RunIsHonest(family);
    ProverKeepsItsPart(family);
    var oracle := HonestOracle(ZKVM, PROFILE, ProverFor(family), ZERO, StatementBytes(), family, Exponents(family),
                               ChosenSource(family), Source(family), AssumptionOf(family));
    GeneratedMeans(ZKVM, PROFILE, ProverFor(family), ZERO, StatementBytes(), family, Exponents(family),
                   ChosenSource(family), oracle);
    NothingCollides(family, oracle);
    OracleMeans(ZKVM, PROFILE, oracle, ZERO, StatementBytes());
  }
}
