/** Acceptance of an oracle field by field, in the words of the receipts and claims themselves. */
module OracleMeaning {
  import opened Wrappers
  import opened Words
  import opened Plan
  import opened Seal
  import opened SealMeaning
  import opened Ancestry
  import opened Replay
  import Statement

  // ---------- Claims and statements ----------

  /** The claim, given in full or as a digest only, has the digest `d`. */
  ghost predicate HasDigest(z: Zkvm, claim: MaybePruned<Claim>, d: Digest) {
    match claim
    case Value(c) => z.digestOf(c) == d
    case Pruned(e) => e == d
  }

  /** The claim is given in full down to its list of assumptions, which is empty. */
  ghost predicate NoneLeft(claim: MaybePruned<Claim>) {
    && claim.Value? && claim.value.output.Value? && claim.value.output.value.Some?
    && var list := claim.value.output.value.value.assumptions;
       list == Value([]) || list == Pruned([0, 0, 0, 0, 0, 0, 0, 0])
  }

  /** The claim records just one assumption: this claim digest under this control root. */
  ghost predicate RecordsOne(claim: Claim, z: Zkvm, assumed: MaybePruned<Claim>, root: Digest) {
    && claim.output.Value? && claim.output.value.Some?
    && exists d: Digest ::
         claim.output.value.value.assumptions == Value([Value(Assumption(d, root))]) && HasDigest(z, assumed, d)
  }

  /** What the last segment of a family records: nothing without an assumption, the assumption under the profile's root
      where the run ends in its resolution, and under the zero root where a join follows. */
  ghost predicate Recorded(z: Zkvm, p: Profile, claim: Claim, family: Family, assumption: Option<Succinct>) {
    match family
    case TerminalJoin => assumption.None? && NoneLeft(Value(claim))
    case TerminalResolve => assumption.Some? && RecordsOne(claim, z, assumption.value.claim, p.root)
    case ResolveThenJoin =>
      assumption.Some? && RecordsOne(claim, z, assumption.value.claim, [0, 0, 0, 0, 0, 0, 0, 0])
  }

  lemma RecordedMeans(z: Zkvm, p: Profile, source: CompositeReceipt, family: Family, assumption: Option<Succinct>)
    ensures ValidateSourceAssumptionClaim(z, p, source, family, assumption).Ok? <==>
              source.segments != [] && Recorded(z, p, source.segments[|source.segments| - 1].claim, family, assumption)
  {
    if source.segments != [] && assumption.Some? && UsesAssumption(family) {
      var (claim, assumed) := (source.segments[|source.segments| - 1].claim, assumption.value.claim);
      var root := if family == TerminalResolve then p.root else [0, 0, 0, 0, 0, 0, 0, 0];
      var d := ClaimDigest(z, assumed);
      assert forall e: Digest :: HasDigest(z, assumed, e) <==> e == d;
      if claim.output.Value? && claim.output.value.Some? {
        var list := claim.output.value.value.assumptions;
        assert RecordsOne(claim, z, assumed, root) <==> list == Value([Value(Assumption(d, root))]);
        if list.Value? && |list.value| == 1 { assert list.value == [list.value[0]]; }
      }
    }
  }

  /** The bytes of a statement for the program `id`. */
  ghost predicate StatementFor(s: seq<uint8>, id: Digest) {
    && 159 <= |s| <= 16_543
    && s[..26] == [69, 114, 103, 111, 46, 86, 101, 114, 105, 102, 121, 83, 116, 97, 114, 107, 46,
                   83, 116, 97, 116, 101, 109, 101, 110, 116]
    && s[26] == 1
    && WordsAt(s, 91, id)
    && WordAt(s, 155, |s| - 159)
  }

  lemma StatementMeans(s: seq<uint8>, id: Digest)
    ensures Statement.Validate(s, DigestBytes(id)).Ok? <==> StatementFor(s, id)
  {
    if 159 <= |s| <= 16_543 {
      WordsAre(s, 91, id);
      WordIs(s, 155, |s| - 159);
      Le32Inverse(|s| - 159, s[155..159]);
    }
  }

  // ---------- Steps ----------

  /** A checked receipt of the terminal program that states the claim. */
  ghost predicate States(z: Zkvm, p: Profile, receipt: Succinct, terminal: CandidateTerminal, claim: Claim)
    requires |p.liftIds| == 8
  {
    && z.integrity(receipt) && HasDigest(z, receipt.claim, z.digestOf(claim))
    && WellShaped(receipt, p, terminal, z.digestOf(claim))
  }

  ghost predicate IsLift(z: Zkvm, p: Profile, step: RecursiveStep, ordinal: uint32, segment: uint32, claim: Claim)
    requires |p.liftIds| == 8
  {
    && step.ordinal == ordinal && step.operation == OpLift && step.inputs == LiftOf(segment)
    && exists po2: uint32 :: States(z, p, step.receipt, Lift(po2), claim)
  }

  /** The join of the claims of steps `l` and `r`, in that order. */
  ghost predicate IsJoin(z: Zkvm, p: Profile, steps: seq<RecursiveStep>, ordinal: uint32, l: uint32, r: uint32)
    requires |p.liftIds| == 8 && ordinal < |steps| && l < |steps| && r < |steps|
  {
    var (step, left, right) := (steps[ordinal], steps[l].receipt.claim, steps[r].receipt.claim);
    && step.ordinal == ordinal && step.operation == OpJoin && step.inputs == JoinOf(l, r)
    && left.Value? && right.Value? && z.join(left.value, right.value).Some?
    && States(z, p, step.receipt, Join, z.join(left.value, right.value).value)
  }

  /** The claim of step `c` with the assumption resolved. */
  ghost predicate IsResolve(z: Zkvm, p: Profile, steps: seq<RecursiveStep>, ordinal: uint32, c: uint32,
                            assumption: Option<Succinct>)
    requires |p.liftIds| == 8 && ordinal < |steps| && c < |steps|
  {
    var (step, conditional) := (steps[ordinal], steps[c].receipt.claim);
    && step.ordinal == ordinal && step.operation == OpResolve && step.inputs == ResolveOf(c)
    && assumption.Some? && conditional.Value? && z.resolve(conditional.value, assumption.value.claim).Some?
    && States(z, p, step.receipt, Resolve, z.resolve(conditional.value, assumption.value.claim).value)
  }

  /** The steps of each family, one by one. */
  ghost predicate FamilySteps(z: Zkvm, p: Profile, family: Family, steps: seq<RecursiveStep>,
                              segments: seq<SegmentReceipt>, assumption: Option<Succinct>)
    requires |p.liftIds| == 8
  {
    match family
    case TerminalJoin =>
      && |segments| == 2 && |steps| == 3
      && IsLift(z, p, steps[0], 0, 0, segments[0].claim) && IsLift(z, p, steps[1], 1, 1, segments[1].claim)
      && IsJoin(z, p, steps, 2, 0, 1)
    case TerminalResolve =>
      && |segments| == 1 && |steps| == 2
      && IsLift(z, p, steps[0], 0, 0, segments[0].claim) && IsResolve(z, p, steps, 1, 0, assumption)
    case ResolveThenJoin =>
      && |segments| == 2 && |steps| == 4
      && IsLift(z, p, steps[0], 0, 0, segments[0].claim) && IsLift(z, p, steps[1], 1, 1, segments[1].claim)
      && IsResolve(z, p, steps, 2, 1, assumption) && IsJoin(z, p, steps, 3, 0, 2)
  }

  lemma StatesMeans(z: Zkvm, p: Profile, receipt: Succinct, terminal: CandidateTerminal, claim: Claim)
    requires WellFormedProfile(p)
    ensures States(z, p, receipt, terminal, claim) <==>
              && z.integrity(receipt) && ShapeOk(z, p, receipt, terminal)
              && ClaimDigest(z, receipt.claim) == z.digestOf(claim)
  {
    ShapeMeans(receipt, p, terminal, ClaimDigest(z, receipt.claim), ClaimDigest(z, receipt.claim));
  }

  lemma LiftMeans(z: Zkvm, p: Profile, step: RecursiveStep, source: CompositeReceipt, assumption: Option<Succinct>,
                  previous: seq<RecursiveStep>, segment: uint32)
    requires WellFormedProfile(p) && segment < |source.segments| && |previous| <= U32_MAX
    ensures step.inputs == LiftOf(segment) && StepAccepted(z, p, step, source, assumption, previous)
       <==> IsLift(z, p, step, |previous|, segment, source.segments[segment].claim)
  {
    var claim := source.segments[segment].claim;
    forall po2: uint32
      ensures States(z, p, step.receipt, Lift(po2), claim) <==>
                && z.integrity(step.receipt) && ShapeOk(z, p, step.receipt, Lift(po2))
                && ClaimDigest(z, step.receipt.claim) == z.digestOf(claim)
      ensures ShapeOk(z, p, step.receipt, Lift(po2)) ==> LiftPo2(p, step.receipt.controlId) == Some(po2)
    {
      StatesMeans(z, p, step.receipt, Lift(po2), claim);
      if ShapeOk(z, p, step.receipt, Lift(po2)) { assert LiftId(p, po2) == step.receipt.controlId; }
    }
  }

  lemma JoinMeans(z: Zkvm, p: Profile, steps: seq<RecursiveStep>, source: CompositeReceipt,
                  assumption: Option<Succinct>, k: uint32, l: uint32, r: uint32)
    requires WellFormedProfile(p) && l < k < |steps| && r < k
    ensures steps[k].inputs == JoinOf(l, r) && StepAccepted(z, p, steps[k], source, assumption, steps[..k])
       <==> IsJoin(z, p, steps, k, l, r)
  {
    var (left, right) := (steps[l].receipt.claim, steps[r].receipt.claim);
    if left.Value? && right.Value? && z.join(left.value, right.value).Some? {
      StatesMeans(z, p, steps[k].receipt, Join, z.join(left.value, right.value).value);
    }
  }

  lemma ResolveMeans(z: Zkvm, p: Profile, steps: seq<RecursiveStep>, source: CompositeReceipt,
                     assumption: Option<Succinct>, k: uint32, c: uint32)
    requires WellFormedProfile(p) && c < k < |steps|
    ensures steps[k].inputs == ResolveOf(c) && StepAccepted(z, p, steps[k], source, assumption, steps[..k])
       <==> IsResolve(z, p, steps, k, c, assumption)
  {
    var conditional := steps[c].receipt.claim;
    if assumption.Some? && conditional.Value? && z.resolve(conditional.value, assumption.value.claim).Some? {
      StatesMeans(z, p, steps[k].receipt, Resolve, z.resolve(conditional.value, assumption.value.claim).value);
    }
  }

  lemma GraphMeans(z: Zkvm, p: Profile, oracle: RecursiveOracle)
    requires WellFormedProfile(p) && oracle.sourceReceipt.inner.CompositeInner?
    ensures GraphAccepted(z, p, oracle) <==>
              && oracle.finalStep as int + 1 == |oracle.steps|
              && FamilySteps(z, p, oracle.family, oracle.steps, oracle.sourceReceipt.inner.composite.segments,
                             RetainedAssumption(oracle))
  {
    var (source, assumption) := (oracle.sourceReceipt.inner.composite, RetainedAssumption(oracle));
    if |source.segments| == SegmentsOf(oracle.family) && |oracle.steps| == |FamilyInputs(oracle.family)| {
      StepsAreFamily(z, p, oracle.family, oracle.steps, source, assumption);
    }
  }

  /** One accepted step after another, each with its planned inputs. */
  ghost predicate InOrder(z: Zkvm, p: Profile, family: Family, steps: seq<RecursiveStep>, source: CompositeReceipt,
                          assumption: Option<Succinct>, k: nat)
    requires WellFormedProfile(p) && k < |steps| == |FamilyInputs(family)|
  {
    steps[k].inputs == FamilyInputs(family)[k] && StepAccepted(z, p, steps[k], source, assumption, steps[..k])
  }

  lemma StepsAreFamily(z: Zkvm, p: Profile, family: Family, steps: seq<RecursiveStep>, source: CompositeReceipt,
                       assumption: Option<Succinct>)
    requires WellFormedProfile(p) && |source.segments| == SegmentsOf(family) && |steps| == |FamilyInputs(family)|
    ensures StepInputs(steps) == FamilyInputs(family) && StepsAccepted(z, p, steps, source, assumption)
       <==> FamilySteps(z, p, family, steps, source.segments, assumption)
  {
    match family {
      case TerminalJoin =>
        JoinFamily(z, p, steps, source, assumption);
        InOrderMeans(z, p, TerminalJoin, steps, source, assumption);
      case TerminalResolve =>
        ResolveFamily(z, p, steps, source, assumption);
        InOrderMeans(z, p, TerminalResolve, steps, source, assumption);
      case ResolveThenJoin =>
        ResolveJoinFamily(z, p, steps, source, assumption);
        InOrderMeans(z, p, ResolveThenJoin, steps, source, assumption);
    }
  }

  lemma JoinFamily(z: Zkvm, p: Profile, steps: seq<RecursiveStep>, source: CompositeReceipt,
                   assumption: Option<Succinct>)
    requires WellFormedProfile(p) && |source.segments| == 2 && |steps| == 3
    ensures && InOrder(z, p, TerminalJoin, steps, source, assumption, 0)
            && InOrder(z, p, TerminalJoin, steps, source, assumption, 1)
            && InOrder(z, p, TerminalJoin, steps, source, assumption, 2)
       <==> FamilySteps(z, p, TerminalJoin, steps, source.segments, assumption)
  {
    LiftMeans(z, p, steps[0], source, assumption, steps[..0], 0);
    LiftMeans(z, p, steps[1], source, assumption, steps[..1], 1);
    JoinMeans(z, p, steps, source, assumption, 2, 0, 1);
  }

  lemma ResolveFamily(z: Zkvm, p: Profile, steps: seq<RecursiveStep>, source: CompositeReceipt,
                      assumption: Option<Succinct>)
    requires WellFormedProfile(p) && |source.segments| == 1 && |steps| == 2
    ensures && InOrder(z, p, TerminalResolve, steps, source, assumption, 0)
            && InOrder(z, p, TerminalResolve, steps, source, assumption, 1)
       <==> FamilySteps(z, p, TerminalResolve, steps, source.segments, assumption)
  {
    LiftMeans(z, p, steps[0], source, assumption, steps[..0], 0);
    ResolveMeans(z, p, steps, source, assumption, 1, 0);
  }

  lemma ResolveJoinFamily(z: Zkvm, p: Profile, steps: seq<RecursiveStep>, source: CompositeReceipt,
                          assumption: Option<Succinct>)
    requires WellFormedProfile(p) && |source.segments| == 2 && |steps| == 4
    ensures && InOrder(z, p, ResolveThenJoin, steps, source, assumption, 0)
            && InOrder(z, p, ResolveThenJoin, steps, source, assumption, 1)
            && InOrder(z, p, ResolveThenJoin, steps, source, assumption, 2)
            && InOrder(z, p, ResolveThenJoin, steps, source, assumption, 3)
       <==> FamilySteps(z, p, ResolveThenJoin, steps, source.segments, assumption)
  {
    LiftMeans(z, p, steps[0], source, assumption, steps[..0], 0);
    LiftMeans(z, p, steps[1], source, assumption, steps[..1], 1);
    ResolveMeans(z, p, steps, source, assumption, 2, 1);
    JoinMeans(z, p, steps, source, assumption, 3, 0, 2);
  }

  lemma InOrderMeans(z: Zkvm, p: Profile, family: Family, steps: seq<RecursiveStep>, source: CompositeReceipt,
                     assumption: Option<Succinct>)
    requires WellFormedProfile(p) && |steps| == |FamilyInputs(family)|
    ensures StepInputs(steps) == FamilyInputs(family) && StepsAccepted(z, p, steps, source, assumption)
       <==> forall k :: 0 <= k < |steps| ==> InOrder(z, p, family, steps, source, assumption, k)
    ensures (forall k :: 0 <= k < |steps| ==> InOrder(z, p, family, steps, source, assumption, k)) <==>
              && InOrder(z, p, family, steps, source, assumption, 0)
              && InOrder(z, p, family, steps, source, assumption, 1)
              && (|steps| > 2 ==> InOrder(z, p, family, steps, source, assumption, 2))
              && (|steps| > 3 ==> InOrder(z, p, family, steps, source, assumption, 3))
  {
    assert forall k :: 0 <= k < |steps| ==> StepInputs(steps)[k] == steps[k].inputs;
    if forall k :: 0 <= k < |steps| ==> InOrder(z, p, family, steps, source, assumption, k) {
      forall k | 0 <= k < |steps|
        ensures StepInputs(steps)[k] == FamilyInputs(family)[k]
                && StepAccepted(z, p, steps[k], source, assumption, steps[..k])
      {
        assert InOrder(z, p, family, steps, source, assumption, k);
      }
    }
  }

  // ---------- The whole oracle ----------

  /** A verified receipt of the successful run of the same program, lifted, with no assumption left. */
  ghost predicate Assumed(z: Zkvm, p: Profile, receipt: Receipt, imageId: Digest, statement: seq<uint8>)
    requires |p.liftIds| == 8
  {
    && receipt.journal == statement && z.verify(receipt, imageId)
    && z.claimOf(receipt).Some?
    && HasDigest(z, z.claimOf(receipt).value, z.digestOf(z.okClaim(imageId, statement)))
    && receipt.inner.SuccinctInner? && NoneLeft(receipt.inner.succinct.claim)
    && exists po2: uint32 ::
         WellShaped(receipt.inner.succinct, p, Lift(po2), z.digestOf(receipt.inner.succinct.claim.value))
  }

  /** The composite embeds just this receipt, with the digest of its claim. */
  ghost predicate Embeds(z: Zkvm, assumptions: seq<AssumptionReceipt>, r: Succinct) {
    && |assumptions| == 1 && assumptions[0].SuccinctAssumption?
    && var e := assumptions[0].receipt;
       && e.seal == r.seal && e.controlId == r.controlId && e.hashfn == r.hashfn
       && e.verifierParameters == r.verifierParameters && e.inclusion == r.inclusion && HasDigest(z, r.claim, e.claim)
  }

  ghost predicate AssumptionHolds(z: Zkvm, p: Profile, oracle: RecursiveOracle, imageId: Digest, statement: seq<uint8>)
    requires |p.liftIds| == 8 && oracle.sourceReceipt.inner.CompositeInner?
  {
    var source := oracle.sourceReceipt.inner.composite;
    && source.segments != []
    && var last := source.segments[|source.segments| - 1].claim;
       if oracle.family == TerminalJoin then
         oracle.assumptionReceipt.None? && source.assumptions == [] && Recorded(z, p, last, oracle.family, None)
       else
         && oracle.assumptionReceipt.Some? && Assumed(z, p, oracle.assumptionReceipt.value, imageId, statement)
         && Embeds(z, source.assumptions, oracle.assumptionReceipt.value.inner.succinct)
         && Recorded(z, p, last, oracle.family, Some(oracle.assumptionReceipt.value.inner.succinct))
  }

  /** A verified receipt of the successful run from the family's last program, with no assumption left. */
  ghost predicate FinalHolds(z: Zkvm, p: Profile, family: Family, receipt: Succinct, imageId: Digest,
                             statement: seq<uint8>)
    requires |p.liftIds| == 8
  {
    var digest := z.digestOf(z.okClaim(imageId, statement));
    && HasDigest(z, receipt.claim, digest) && NoneLeft(receipt.claim)
    && WellShaped(receipt, p, if family == TerminalResolve then Resolve else Join, digest)
    && z.verify(Receipt(SuccinctInner(receipt), statement), imageId)
  }

  /** Consecutive segments with the nonces of the statement's job, which is never zero. */
  ghost predicate NoncesHold(z: Zkvm, segments: seq<SegmentReceipt>, imageId: Digest, statement: seq<uint8>) {
    var candidate := z.povwCandidate(imageId, statement);
    && |segments| == 2
    && forall i :: 0 <= i < 2 ==>
         segments[i].index == i && segments[i].nonce == Some(Nonce(0, if candidate == 0 then 1 else candidate, i))
  }

  /** Everything an accepted oracle is, field by field. */
  ghost predicate OracleHolds(z: Zkvm, p: Profile, oracle: RecursiveOracle, imageId: Digest, statement: seq<uint8>)
    requires |p.liftIds| == 8
  {
    && oracle.formatVersion == 2 && StatementFor(statement, imageId)
    && oracle.sourceReceipt.journal == statement && z.verify(oracle.sourceReceipt, imageId)
    && oracle.sourceReceipt.inner.CompositeInner?
    && var segments := oracle.sourceReceipt.inner.composite.segments;
       && (oracle.family == TerminalJoin ==> NoncesHold(z, segments, imageId, statement))
       && AssumptionHolds(z, p, oracle, imageId, statement)
       && FamilySteps(z, p, oracle.family, oracle.steps, segments, RetainedAssumption(oracle))
       && oracle.finalStep as int + 1 == |oracle.steps|
       && FinalHolds(z, p, oracle.family, oracle.steps[oracle.finalStep].receipt, imageId, statement)
  }

  lemma AssumedMeans(z: Zkvm, p: Profile, receipt: Receipt, imageId: Digest, statement: seq<uint8>)
    requires WellFormedProfile(p)
    ensures AssumptionAccepted(z, p, receipt, imageId, statement) <==> Assumed(z, p, receipt, imageId, statement)
  {
    if receipt.inner.SuccinctInner? && receipt.inner.succinct.claim.Value? {
      var inner := receipt.inner.succinct;
      var digest := z.digestOf(inner.claim.value);
      forall po2: uint32
        ensures ShapeOk(z, p, inner, Lift(po2)) <==> WellShaped(inner, p, Lift(po2), digest)
        ensures ShapeOk(z, p, inner, Lift(po2)) ==> LiftPo2(p, inner.controlId) == Some(po2)
      {
        ShapeMeans(inner, p, Lift(po2), digest, digest);
        if ShapeOk(z, p, inner, Lift(po2)) { assert LiftId(p, po2) == inner.controlId; }
      }
    }
  }

  lemma AssumptionMeans(z: Zkvm, p: Profile, oracle: RecursiveOracle, imageId: Digest, statement: seq<uint8>)
    requires WellFormedProfile(p) && oracle.sourceReceipt.inner.CompositeInner?
    ensures AssumptionSideAccepted(z, p, oracle, imageId, statement) && EmbeddedAccepted(z, oracle)
       <==> AssumptionHolds(z, p, oracle, imageId, statement)
  {
    RecordedMeans(z, p, oracle.sourceReceipt.inner.composite, oracle.family, RetainedAssumption(oracle));
    if oracle.assumptionReceipt.Some? {
      AssumedMeans(z, p, oracle.assumptionReceipt.value, imageId, statement);
    }
  }

  lemma FinalMeans(z: Zkvm, p: Profile, family: Family, receipt: Succinct, imageId: Digest, statement: seq<uint8>)
    requires WellFormedProfile(p)
    ensures FinalAccepted(z, p, family, receipt, imageId, statement)
       <==> FinalHolds(z, p, family, receipt, imageId, statement)
  {
    var carried := ClaimDigest(z, receipt.claim);
    ShapeMeans(receipt, p, FamilyTerminal(family), carried, carried);
  }

  /** The replay accepts exactly these oracles. */
  lemma OracleMeans(z: Zkvm, p: Profile, oracle: RecursiveOracle, imageId: Digest, statement: seq<uint8>)
    requires WellFormedProfile(p)
    ensures OracleAccepted(z, p, oracle, imageId, statement) <==> OracleHolds(z, p, oracle, imageId, statement)
  {
    StatementMeans(statement, imageId);
    if oracle.sourceReceipt.inner.CompositeInner? {
      AssumptionMeans(z, p, oracle, imageId, statement);
      GraphMeans(z, p, oracle);
      if oracle.finalStep as int + 1 == |oracle.steps| {
        FinalMeans(z, p, oracle.family, oracle.steps[oracle.finalStep].receipt, imageId, statement);
      }
    }
  }
}
