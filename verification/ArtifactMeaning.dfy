/** Validity of an artifact field by field, and what its instruction stream can be run on. */
module ArtifactMeaning {
  import opened Wrappers
  import opened PolyExt
  import opened TapMeaning
  import opened Artifact

  // ---------- Counting by constructor ----------

  /** How many instructions satisfy `p`. */
  ghost function Number(ops: seq<Op>, p: Op -> bool): nat {
    |set i | 0 <= i < |ops| && p(ops[i])|
  }

  lemma NumberSnoc(ops: seq<Op>, op: Op, p: Op -> bool)
    ensures Number(ops + [op], p) == Number(ops, p) + (if p(op) then 1 else 0)
  {
    var longer := set i | 0 <= i < |ops + [op]| && p((ops + [op])[i]);
    var shorter := set i | 0 <= i < |ops| && p(ops[i]);
    assert longer == if p(op) then shorter + {|ops|} else shorter;
  }

  lemma {:induction false} KindNumber(ops: seq<Op>, k: OpKind, p: Op -> bool)
    requires forall op :: Kind(op) == k <==> p(op)
    ensures CountKind(ops, k) == Number(ops, p)
  {
    if ops != [] {
      var (front, last) := (ops[..|ops| - 1], ops[|ops| - 1]);
      assert ops == front + [last];
      KindNumber(front, k, p);
      CountsSnoc(front, last);
      NumberSnoc(front, last, p);
    }
  }

  /** The field variables defined by a stream: one for each instruction that is not a `True`, `AndEqz` or `AndCond`. */
  lemma {:induction false} VariableNumbers(ops: seq<Op>)
    ensures FieldCount(ops) == Number(ops, (op: Op) => !(op.True? || op.AndEqz? || op.AndCond?))
    ensures MixCount(ops) == Number(ops, (op: Op) => op.True? || op.AndEqz? || op.AndCond?)
  {
    if ops != [] {
      var (front, last) := (ops[..|ops| - 1], ops[|ops| - 1]);
      assert ops == front + [last];
      VariableNumbers(front);
      CountsSnoc(front, last);
      NumberSnoc(front, last, (op: Op) => !(op.True? || op.AndEqz? || op.AndCond?));
      NumberSnoc(front, last, (op: Op) => op.True? || op.AndEqz? || op.AndCond?);
    }
  }

  /** The numbers of instructions of each kind. */
  ghost predicate Census(ops: seq<Op>) {
    && Number(ops, (op: Op) => op.Add?) == 4_061 && Number(ops, (op: Op) => op.AndCond?) == 152
    && Number(ops, (op: Op) => op.AndEqz?) == 1_076 && Number(ops, (op: Op) => op.Const?) == 284
    && Number(ops, (op: Op) => op.ConstExt?) == 0 && Number(ops, (op: Op) => op.Get?) == 669
    && Number(ops, (op: Op) => op.GetGlobal?) == 52 && Number(ops, (op: Op) => op.Mul?) == 4_679
    && Number(ops, (op: Op) => op.Sub?) == 1_385 && Number(ops, (op: Op) => op.True?) == 1
  }

  lemma CensusIs(ops: seq<Op>)
    ensures IsHistogram(EXPECTED_HISTOGRAM, ops) <==> Census(ops)
  {
    HistogramIs(ops);
    ArithmeticNumbers(ops);
    OtherNumbers(ops);
  }

  lemma ArithmeticNumbers(ops: seq<Op>)
    ensures CountKind(ops, KAdd) == Number(ops, (op: Op) => op.Add?)
    ensures CountKind(ops, KSub) == Number(ops, (op: Op) => op.Sub?)
    ensures CountKind(ops, KMul) == Number(ops, (op: Op) => op.Mul?)
    ensures CountKind(ops, KConst) == Number(ops, (op: Op) => op.Const?)
    ensures CountKind(ops, KConstExt) == Number(ops, (op: Op) => op.ConstExt?)
  {
    KindNumber(ops, KAdd, (op: Op) => op.Add?);
    KindNumber(ops, KSub, (op: Op) => op.Sub?);
    KindNumber(ops, KMul, (op: Op) => op.Mul?);
    KindNumber(ops, KConst, (op: Op) => op.Const?);
    KindNumber(ops, KConstExt, (op: Op) => op.ConstExt?);
  }

  lemma OtherNumbers(ops: seq<Op>)
    ensures CountKind(ops, KGet) == Number(ops, (op: Op) => op.Get?)
    ensures CountKind(ops, KGetGlobal) == Number(ops, (op: Op) => op.GetGlobal?)
    ensures CountKind(ops, KTrue) == Number(ops, (op: Op) => op.True?)
    ensures CountKind(ops, KAndEqz) == Number(ops, (op: Op) => op.AndEqz?)
    ensures CountKind(ops, KAndCond) == Number(ops, (op: Op) => op.AndCond?)
  {
    KindNumber(ops, KGet, (op: Op) => op.Get?);
    KindNumber(ops, KGetGlobal, (op: Op) => op.GetGlobal?);
    KindNumber(ops, KTrue, (op: Op) => op.True?);
    KindNumber(ops, KAndEqz, (op: Op) => op.AndEqz?);
    KindNumber(ops, KAndCond, (op: Op) => op.AndCond?);
  }

  lemma HistogramIs(ops: seq<Op>)
    ensures IsHistogram(EXPECTED_HISTOGRAM, ops) <==>
              && CountKind(ops, KAdd) == 4_061 && CountKind(ops, KAndCond) == 152 && CountKind(ops, KAndEqz) == 1_076
              && CountKind(ops, KConst) == 284 && CountKind(ops, KConstExt) == 0 && CountKind(ops, KGet) == 669
              && CountKind(ops, KGetGlobal) == 52 && CountKind(ops, KMul) == 4_679 && CountKind(ops, KSub) == 1_385
              && CountKind(ops, KTrue) == 1
  {
    var h := EXPECTED_HISTOGRAM;
    assert h[KAdd] == 4_061 && h[KAndCond] == 152 && h[KAndEqz] == 1_076 && h[KConst] == 284;
    assert h[KConstExt] == 0 && h[KGet] == 669 && h[KGetGlobal] == 52 && h[KMul] == 4_679;
    assert h[KSub] == 1_385 && h[KTrue] == 1;
    assert forall k :: k in h ==> (IsHistogram(h, ops) ==> h[k] == CountKind(ops, k));
  }

  // ---------- References ----------

  /** Instruction `op`, after `fields` field and `mixes` mix variables, refers only to what is there. */
  ghost predicate RefersBack(op: Op, fields: nat, mixes: nat, taps: nat, outputs: nat, mixGlobals: nat) {
    match op
    case Const(v) => v < 2_013_265_921
    case ConstExt(c0, c1, c2, c3) =>
      c0 < 2_013_265_921 && c1 < 2_013_265_921 && c2 < 2_013_265_921 && c3 < 2_013_265_921
    case Get(tap) => tap < taps
    case GetGlobal(group, offset) => (group == 0 && offset < outputs) || (group == 1 && offset < mixGlobals)
    case Add(left, right) => left < fields && right < fields
    case Sub(left, right) => left < fields && right < fields
    case Mul(left, right) => left < fields && right < fields
    case True => true
    case AndEqz(chain, inner) => chain < mixes && inner < fields
    case AndCond(chain, cond, inner) => chain < mixes && cond < fields && inner < mixes
  }

  /** Every instruction refers only to variables that instructions before it define. */
  ghost predicate AllReferBack(ops: seq<Op>, taps: nat, outputs: nat, mixGlobals: nat) {
    forall i :: 0 <= i < |ops| ==>
      RefersBack(ops[i], Number(ops[..i], (op: Op) => !(op.True? || op.AndEqz? || op.AndCond?)),
                 Number(ops[..i], (op: Op) => op.True? || op.AndEqz? || op.AndCond?), taps, outputs, mixGlobals)
  }

  lemma ReferencesAre(ops: seq<Op>, taps: nat)
    ensures Accepted(ops, taps) <==> AllReferBack(ops, taps, 32, 20)
  {
    forall i | 0 <= i < |ops|
      ensures ValidateOpReferences(ops[i], FieldCount(ops[..i]), MixCount(ops[..i]), taps).Ok? <==>
                RefersBack(ops[i], Number(ops[..i], (op: Op) => !(op.True? || op.AndEqz? || op.AndCond?)),
                           Number(ops[..i], (op: Op) => op.True? || op.AndEqz? || op.AndCond?), taps, 32, 20)
    {
      VariableNumbers(ops[..i]);
    }
  }

  // ---------- The whole artifact ----------

  /** Every field of a valid artifact. */
  ghost predicate FieldsValid(a: ConstantsArtifact) {
    && a.upstreamCommit == "8eb06ab020a92dc5b63ba6dd0836d432aba6d890"
    && a.babyBear.modulus == 2_013_265_921 && a.babyBear.extensionDegree == 4 && a.babyBear.extensionBeta == 11
    && a.babyBear.maxRootPo2 == 27 && a.babyBear.extensionCoefficientRemap == [0, 2, 1, 3]
    && a.babyBear.extensionChallengeScale == 3
    && |a.babyBear.reverseRoots| == 28
    && (forall i :: 0 <= i < |a.babyBear.reverseRoots| ==> a.babyBear.reverseRoots[i] < 2_013_265_921)
    && a.poseidon2.cells == 24 && a.poseidon2.rate == 16 && a.poseidon2.outputCells == 8
    && a.poseidon2.roundsHalfFull == 4 && a.poseidon2.roundsPartial == 21 && a.poseidon2.sboxDegree == 7
    && |a.poseidon2.roundConstants| == 213 && |a.poseidon2.internalDiagonal| == 24
    && (forall i :: 0 <= i < |a.poseidon2.roundConstants| ==> a.poseidon2.roundConstants[i] < 2_013_265_921)
    && (forall i :: 0 <= i < |a.poseidon2.internalDiagonal| ==> a.poseidon2.internalDiagonal[i] < 2_013_265_921)
    && a.stark.queries == 50 && a.stark.inverseRate == 4 && a.stark.friFold == 16 && a.stark.friFoldPo2 == 4
    && a.stark.friMinDegree == 256 && a.stark.outputSize == 32 && a.stark.mixSize == 20 && a.stark.checkSize == 16
    && a.protocolInfo.proofSystem == [82, 73, 83, 67, 48, 95, 83, 84, 65, 82, 75, 58, 118, 49, 95, 95]
    && a.protocolInfo.circuit == [82, 69, 67, 85, 82, 83, 73, 79, 78, 58, 114, 101, 118, 49, 118, 49]
    && a.taps.groupSizes == [12, 23, 128] && a.taps.combosCount == 5 && a.taps.totalComboBacks == 20
    && |a.taps.records| == 643 && WellTapped(a.taps)
    && a.polyExt.fieldVariables == 11_130 && a.polyExt.mixVariables == 1_229 && a.polyExt.retMixVariable == 1_228
    && a.polyExt.histogram == map[
         KAdd := 4_061, KAndCond := 152, KAndEqz := 1_076, KConst := 284, KConstExt := 0,
         KGet := 669, KGetGlobal := 52, KMul := 4_679, KSub := 1_385, KTrue := 1]
    && Census(a.polyExt.operations)
    && AllReferBack(a.polyExt.operations, |a.taps.records|, a.stark.outputSize, a.stark.mixSize)
  }

  /** An artifact is valid exactly when its fields are: the globals' bounds are the artifact's own sizes. */
  lemma ValidMeans(a: ConstantsArtifact)
    ensures Valid(a) <==> FieldsValid(a)
  {
    CensusIs(a.polyExt.operations);
    ReferencesAre(a.polyExt.operations, TAP_COUNT);
    CanonicalMeans(a.taps);
  }

  /** A valid artifact's stream runs to the end on any machine of the artifact's own sizes, and the return index is
      its last mix variable. */
  lemma ValidArtifactRuns<F, M>(a: ConstantsArtifact, m: Machine<F, M>)
    requires Valid(a) && |m.taps| == |a.taps.records|
    requires |m.outputs| == a.stark.outputSize && |m.mix| == a.stark.mixSize
    ensures Run(m, a.polyExt.operations).Some?
    ensures |Run(m, a.polyExt.operations).value.fields| == a.polyExt.fieldVariables
    ensures |Run(m, a.polyExt.operations).value.mixes| == a.polyExt.mixVariables == a.polyExt.retMixVariable + 1
  {
    CensusForcesLayout(a.polyExt.operations);
    AcceptedIffRuns(m, a.polyExt.operations);
  }
}
