/** The verifier-data artifact: `validate`, `encode` and `decode`, proved to be inverse both ways. */
module Artifact {
  import opened Codes
  import opened Constants
  import opened Wrappers
  import opened Words
  import opened PolyExt
  import opened TapTable
  import opened Header

  const RISC0_COMMIT := "8eb06ab020a92dc5b63ba6dd0836d432aba6d890"
  const ARTIFACT_BYTES := 65_119
  const HEADER_BYTES := 87
  const ROOT_COUNT := 28
  const POSEIDON_ROUND_CONSTANTS := 213
  const POSEIDON_DIAGONAL_CONSTANTS := 24
  const TAP_COUNT := 643
  const OP_COUNT := 12_359
  const FIELD_VARS := 11_130
  const MIX_VARS := 1_229
  const RET_MIX_VAR := 1_228

  /** `RISC0_STARK:v1__` and `RECURSION:rev1v1` in ASCII. */
  const PROOF_SYSTEM_INFO: seq<uint8> := [82, 73, 83, 67, 48, 95, 83, 84, 65, 82, 75, 58, 118, 49, 95, 95]
  const CIRCUIT_INFO: seq<uint8> := [82, 69, 67, 85, 82, 83, 73, 79, 78, 58, 114, 101, 118, 49, 118, 49]

  const EXPECTED_HISTOGRAM: map<OpKind, nat> := map[
    KAdd := 4_061, KAndCond := 152, KAndEqz := 1_076, KConst := 284, KConstExt := 0,
    KGet := 669, KGetGlobal := 52, KMul := 4_679, KSub := 1_385, KTrue := 1]

  datatype BabyBearData = BabyBearData(
    modulus: uint32, extensionDegree: uint8, extensionBeta: uint32, maxRootPo2: uint8,
    reverseRoots: seq<uint32>, extensionCoefficientRemap: Remap, extensionChallengeScale: uint8)

  datatype Poseidon2Data = Poseidon2Data(
    cells: uint8, rate: uint8, outputCells: uint8, roundsHalfFull: uint8, roundsPartial: uint8, sboxDegree: uint8,
    roundConstants: seq<uint32>, internalDiagonal: seq<uint32>)

  datatype ProtocolInfoData = ProtocolInfoData(proofSystem: seq<uint8>, circuit: seq<uint8>)

  datatype PolyExtData = PolyExtData(
    fieldVariables: uint16, mixVariables: uint16, retMixVariable: uint16,
    histogram: map<OpKind, nat>, operations: seq<Op>)

  datatype ConstantsArtifact = ConstantsArtifact(
    upstreamCommit: string, babyBear: BabyBearData, poseidon2: Poseidon2Data, stark: StarkBlock,
    protocolInfo: ProtocolInfoData, taps: TapDataSet, polyExt: PolyExtData)

  // ---------- Validity ----------

  ghost predicate Canonical(words: seq<uint32>) {
    forall i :: 0 <= i < |words| ==> words[i] < BABY_BEAR_P
  }

  ghost predicate ValidConstants(a: ConstantsArtifact) {
    && a.upstreamCommit == RISC0_COMMIT
    && a.babyBear.modulus == BABY_BEAR_P && a.babyBear.extensionDegree == 4 && a.babyBear.extensionBeta == 11
    && a.babyBear.maxRootPo2 == 27 && a.babyBear.extensionCoefficientRemap == [0, 2, 1, 3]
    && a.babyBear.extensionChallengeScale == 3
    && a.poseidon2.cells == 24 && a.poseidon2.rate == 16 && a.poseidon2.outputCells == 8
    && a.poseidon2.roundsHalfFull == 4 && a.poseidon2.roundsPartial == 21 && a.poseidon2.sboxDegree == 7
    && a.stark == StarkBlock(50, 4, 16, 4, 256, 32, 20, 16)
    && a.protocolInfo == ProtocolInfoData(PROOF_SYSTEM_INFO, CIRCUIT_INFO)
    && a.taps.groupSizes == [12, 23, 128] && a.taps.combosCount == 5 && a.taps.totalComboBacks == 20
    && a.polyExt.fieldVariables == FIELD_VARS && a.polyExt.mixVariables == MIX_VARS
    && a.polyExt.retMixVariable == RET_MIX_VAR
  }

  ghost predicate ValidTables(a: ConstantsArtifact) {
    && |a.babyBear.reverseRoots| == ROOT_COUNT && Canonical(a.babyBear.reverseRoots)
    && |a.poseidon2.roundConstants| == POSEIDON_ROUND_CONSTANTS && Canonical(a.poseidon2.roundConstants)
    && |a.poseidon2.internalDiagonal| == POSEIDON_DIAGONAL_CONSTANTS && Canonical(a.poseidon2.internalDiagonal)
    && |a.taps.records| == TAP_COUNT && CanonicalTaps(a.taps)
  }

  /** The census and the references. The instruction count and both variable counts are not required
      here: `CensusForcesLayout` derives them. */
  ghost predicate ValidStream(p: PolyExtData) {
    && p.histogram == EXPECTED_HISTOGRAM && IsHistogram(EXPECTED_HISTOGRAM, p.operations)
    && Accepted(p.operations, TAP_COUNT)
  }

  ghost predicate Valid(a: ConstantsArtifact) {
    ValidConstants(a) && ValidTables(a) && ValidStream(a.polyExt)
  }

  /** The census alone forces the instruction count, both variable counts and the encoded length of the
      instruction stream. */
  lemma CensusForcesLayout(ops: seq<Op>)
    requires IsHistogram(EXPECTED_HISTOGRAM, ops)
    ensures |ops| == OP_COUNT && FieldCount(ops) == FIELD_VARS && MixCount(ops) == MIX_VARS
    ensures CountKind(ops, KTrue) == 1 && CountKind(ops, KConstExt) == 0
    ensures |EncodeOps(ops)| == 60_757
  {
    CensusCounts(ops);
    CensusLength(ops);
    var h := EXPECTED_HISTOGRAM;
    assert h[KAdd] == 4_061 && h[KAndCond] == 152 && h[KAndEqz] == 1_076 && h[KConst] == 284;
    assert h[KConstExt] == 0 && h[KGet] == 669 && h[KGetGlobal] == 52 && h[KMul] == 4_679;
    assert h[KSub] == 1_385 && h[KTrue] == 1;
    assert forall k :: k in h ==> h[k] == CountKind(ops, k);
  }

  /** In every valid artifact mix variable 0 is the only `True`, each chain of mix variables, from the
      returned variable in particular, leads down to it, and the returned variable is the last one. */
  lemma ReturnedChainReachesTrue(a: ConstantsArtifact)
    requires Valid(a)
    ensures var mixes := MixOps(a.polyExt.operations);
            && |mixes| == a.polyExt.retMixVariable + 1 == a.polyExt.mixVariables && AllLinkBack(mixes)
            && (forall i :: 0 <= i < |mixes| ==> (mixes[i].True? <==> i == 0))
            && var path := ChainFrom(mixes, a.polyExt.retMixVariable);
               path != [] && path[|path| - 1] == 0 && StrictlyDown(path)
  {
    var ops := a.polyExt.operations;
    CensusForcesLayout(ops);
    FirstMixIsUniqueTrue(ops, TAP_COUNT);
    ChainEndsAtTrue(ops, TAP_COUNT, RET_MIX_VAR);
  }

  datatype ArtifactError =
    | WrongCommit | WrongModulus | WrongExtension | WrongRootTable | NonCanonicalRoot | WrongRemap | WrongScale
    | WrongPoseidonDimensions | WrongPoseidonRounds | WrongPoseidonTable | NonCanonicalPoseidon
    | WrongStark | WrongDimensions | WrongInfo | WrongTapMetadata | WrongTapCount | BadTaps(tapError: TapError)
    | WrongOpCount | WrongCensus | RetNotFinal | WrongHistogram | StoredHistogramDiffers
    | BadReferences(referenceError: ReferenceError) | StackCensus | HeaderLength | TotalLength

  method AllCanonical(words: seq<uint32>, modulus: uint32) returns (ok: bool)
    ensures ok <==> forall i :: 0 <= i < |words| ==> words[i] < modulus
  {
    for i := 0 to |words|
      invariant forall j :: 0 <= j < i ==> words[j] < modulus
    {
      if words[i] >= modulus {
        return false;
      }
    }
    return true;
  }

  /** The checks on constants and numeric tables. */
  method ValidateTables(a: ConstantsArtifact) returns (r: Result<(), ArtifactError>)
    ensures r.Ok? ==> a.upstreamCommit == RISC0_COMMIT
    ensures r.Ok? <==>
              && a.upstreamCommit == RISC0_COMMIT
              && a.babyBear.(reverseRoots := [])
                 == BabyBearData(BABY_BEAR_P, 4, 11, 27, [], [0, 2, 1, 3], 3)
              && a.poseidon2.(roundConstants := [], internalDiagonal := [])
                 == Poseidon2Data(24, 16, 8, 4, 21, 7, [], [])
              && |a.babyBear.reverseRoots| == ROOT_COUNT && Canonical(a.babyBear.reverseRoots)
              && |a.poseidon2.roundConstants| == POSEIDON_ROUND_CONSTANTS && Canonical(a.poseidon2.roundConstants)
              && |a.poseidon2.internalDiagonal| == POSEIDON_DIAGONAL_CONSTANTS
              && Canonical(a.poseidon2.internalDiagonal)
  {
    var bb, ps := a.babyBear, a.poseidon2;
    var _ :- Ensure(a.upstreamCommit == RISC0_COMMIT, WrongCommit);
    var _ :- Ensure(bb.modulus == BABY_BEAR_P, WrongModulus);
    var _ :- Ensure(bb.extensionDegree == 4 && bb.extensionBeta == 11, WrongExtension);
    var _ :- Ensure(bb.maxRootPo2 == 27 && |bb.reverseRoots| == ROOT_COUNT, WrongRootTable);
    var rootsOk := AllCanonical(bb.reverseRoots, bb.modulus);
    var _ :- Ensure(rootsOk, NonCanonicalRoot);
    var _ :- Ensure(bb.extensionCoefficientRemap == [0, 2, 1, 3], WrongRemap);
    var _ :- Ensure(bb.extensionChallengeScale == 3, WrongScale);
    var _ :- Ensure((ps.cells, ps.rate, ps.outputCells) == (24, 16, 8), WrongPoseidonDimensions);
    var _ :- Ensure((ps.roundsHalfFull, ps.roundsPartial, ps.sboxDegree) == (4, 21, 7), WrongPoseidonRounds);
    var _ :- Ensure(|ps.roundConstants| == POSEIDON_ROUND_CONSTANTS
             && |ps.internalDiagonal| == POSEIDON_DIAGONAL_CONSTANTS, WrongPoseidonTable);
    var roundsOk := AllCanonical(ps.roundConstants, bb.modulus);
    var diagonalOk := AllCanonical(ps.internalDiagonal, bb.modulus);
    var _ :- Ensure(roundsOk && diagonalOk, NonCanonicalPoseidon);
    return Ok(());
  }

  /** The checks on the instruction stream. The count and stack-census checks are made as in the source;
      they never fail once the histogram check has passed. */
  method ValidateStream(p: PolyExtData, tapCount: nat) returns (r: Result<(), ArtifactError>)
    requires tapCount == TAP_COUNT
    ensures r.Ok? <==>
              && p.(histogram := map[], operations := []) == PolyExtData(FIELD_VARS, MIX_VARS, RET_MIX_VAR, map[], [])
              && ValidStream(p)
  {
    if IsHistogram(EXPECTED_HISTOGRAM, p.operations) {
      CensusForcesLayout(p.operations);
    }
    var _ :- Ensure(|p.operations| == OP_COUNT, WrongOpCount);
    // The second of these two checks cannot fail after the first.
    var _ :- if !(p.fieldVariables == FIELD_VARS && p.mixVariables == MIX_VARS && p.retMixVariable == RET_MIX_VAR)
             then Err(WrongCensus)
             else if p.mixVariables != p.retMixVariable + 1 then Err(RetNotFinal)
             else Ok(());
    var actual := Histogram(p.operations);
    if IsHistogram(EXPECTED_HISTOGRAM, p.operations) {
      HistogramUnique(actual, EXPECTED_HISTOGRAM, p.operations);
    }
    var _ :- Ensure(actual == EXPECTED_HISTOGRAM, WrongHistogram);
    var _ :- Ensure(p.histogram == actual, StoredHistogramDiffers);
    var walk := WalkReferences(p.operations, tapCount);
    if walk.Err? {
      return Err(BadReferences(walk.error));
    }
    return if walk.value == (FIELD_VARS, MIX_VARS) then Ok(()) else Err(StackCensus);
  }

  lemma HistogramUnique(h: map<OpKind, nat>, g: map<OpKind, nat>, ops: seq<Op>)
    requires IsHistogram(h, ops) && IsHistogram(g, ops)
    ensures h == g
  {
    assert forall k :: k in h <==> k in g;
    assert forall k :: k in h ==> h[k] == g[k];
  }

  /** `validate` accepts exactly the valid artifacts. */
  method Validate(a: ConstantsArtifact) returns (r: Result<(), ArtifactError>)
    ensures r.Ok? <==> Valid(a)
  {
    var _ :- ValidateTables(a);
    var st := a.stark;
    var _ :- Ensure((st.queries, st.inverseRate, st.friFold, st.friFoldPo2, st.friMinDegree)
                    == (50, 4, 16, 4, 256), WrongStark);
    var _ :- Ensure((st.outputSize, st.mixSize, st.checkSize) == (32, 20, 16), WrongDimensions);
    var _ :- Ensure(a.protocolInfo.proofSystem == PROOF_SYSTEM_INFO
                    && a.protocolInfo.circuit == CIRCUIT_INFO, WrongInfo);
    var _ :- Ensure(a.taps.groupSizes == [12, 23, 128] && a.taps.combosCount == 5 && a.taps.totalComboBacks == 20,
             WrongTapMetadata);
    var _ :- Ensure(|a.taps.records| == TAP_COUNT, WrongTapCount);
    var taps := ValidateTaps(a.taps);
    if taps.Err? {
      return Err(BadTaps(taps.error));
    }
    r := ValidateStream(a.polyExt, |a.taps.records|);
  }

  // ---------- Encoding ----------

  function EncodeTap(t: Tap): (s: seq<uint8>)
    ensures |s| == TAP_BYTES
  {
    [t.group, t.offset, t.back, t.combo, t.skip]
  }

  lemma TapPrefixCode()
    ensures PrefixCode(EncodeTap)
  {
    forall a, b | EncodeTap(a) <= EncodeTap(b) ensures a == b {
      var e, f := EncodeTap(a), EncodeTap(b);
      assert e[0] == f[0] && e[1] == f[1] && e[2] == f[2] && e[3] == f[3] && e[4] == f[4];
    }
  }

  /** The table lengths fit the header's counts. */
  predicate CountsFit(a: ConstantsArtifact) {
    && |a.poseidon2.roundConstants| <= U16_MAX && |a.poseidon2.internalDiagonal| <= U8_MAX
    && |a.taps.records| <= U16_MAX && |a.polyExt.operations| <= U16_MAX
  }

  function FieldOf(a: ConstantsArtifact): FieldBlock {
    FieldBlock(a.babyBear.modulus, a.babyBear.extensionDegree, a.babyBear.extensionBeta, a.babyBear.maxRootPo2)
  }

  function HashOf(a: ConstantsArtifact): HashBlock
    requires CountsFit(a)
  {
    var p := a.poseidon2;
    HashBlock(p.cells, p.rate, p.outputCells, p.roundsHalfFull, p.roundsPartial, p.sboxDegree,
              |p.roundConstants|, |p.internalDiagonal|)
  }

  function TapBlockOf(a: ConstantsArtifact): TapBlock
    requires CountsFit(a)
  {
    TapBlock(|a.taps.records|, a.taps.groupSizes, a.taps.combosCount, a.taps.totalComboBacks)
  }

  function PolyOf(a: ConstantsArtifact): PolyBlock
    requires CountsFit(a)
  {
    PolyBlock(|a.polyExt.operations|, a.polyExt.fieldVariables, a.polyExt.mixVariables, a.polyExt.retMixVariable)
  }

  function InfoOf(a: ConstantsArtifact): InfoBlock {
    InfoBlock(a.babyBear.extensionCoefficientRemap, 16, 16, a.babyBear.extensionChallengeScale)
  }

  function HeaderBytes(a: ConstantsArtifact): seq<uint8>
    requires CountsFit(a)
  {
    EncodeField(FieldOf(a)) + EncodeHash(HashOf(a)) + EncodeStark(a.stark) + EncodeTapBlock(TapBlockOf(a))
    + EncodePoly(PolyOf(a)) + EncodeInfo(InfoOf(a)) + a.protocolInfo.proofSystem + a.protocolInfo.circuit
  }

  /** The five tables after the header, each in its own byte string. */
  function TableBytes(a: ConstantsArtifact): seq<uint8> {
    FlatMap(a.babyBear.reverseRoots, Le32) + FlatMap(a.poseidon2.roundConstants, Le32)
    + FlatMap(a.poseidon2.internalDiagonal, Le32) + FlatMap(a.taps.records, EncodeTap) + EncodeOps(a.polyExt.operations)
  }

  function Encoding(a: ConstantsArtifact): seq<uint8>
    requires CountsFit(a)
  {
    HeaderBytes(a) + TableBytes(a)
  }

  /** What a valid artifact puts at each place of its encoding. */
  ghost predicate SectionsAt(a: ConstantsArtifact, s: seq<uint8>)
    requires CountsFit(a)
  {
    && |s| == ARTIFACT_BYTES
    && s[0..10] == EncodeField(FieldOf(a)) && s[10..19] == EncodeHash(HashOf(a)) && s[19..28] == EncodeStark(a.stark)
    && s[28..36] == EncodeTapBlock(TapBlockOf(a)) && s[36..44] == EncodePoly(PolyOf(a))
    && s[44..55] == EncodeInfo(InfoOf(a))
    && s[55..71] == a.protocolInfo.proofSystem && s[71..87] == a.protocolInfo.circuit
    && s[87..199] == FlatMap(a.babyBear.reverseRoots, Le32)
    && s[199..1051] == FlatMap(a.poseidon2.roundConstants, Le32)
    && s[1051..1147] == FlatMap(a.poseidon2.internalDiagonal, Le32)
    && s[1147..4362] == FlatMap(a.taps.records, EncodeTap)
    && s[4362..] == EncodeOps(a.polyExt.operations)
  }

  /** The lengths of the tables and texts, and the census of the instructions. */
  ghost predicate Shaped(a: ConstantsArtifact) {
    && |a.babyBear.reverseRoots| == ROOT_COUNT && |a.poseidon2.roundConstants| == POSEIDON_ROUND_CONSTANTS
    && |a.poseidon2.internalDiagonal| == POSEIDON_DIAGONAL_CONSTANTS && |a.taps.records| == TAP_COUNT
    && |a.protocolInfo.proofSystem| == |a.protocolInfo.circuit| == 16
    && IsHistogram(EXPECTED_HISTOGRAM, a.polyExt.operations)
  }

  /** Shapes and census alone force exactly 65,119 bytes, header and tables at their frozen offsets, whatever the
      contents; so the two length checks of `encode` never fail on a valid artifact. */
  lemma ShapesForceLayout(a: ConstantsArtifact)
    requires Shaped(a)
    ensures CountsFit(a) && |HeaderBytes(a)| == HEADER_BYTES && |Encoding(a)| == ARTIFACT_BYTES
    ensures SectionsAt(a, Encoding(a))
  {
    CensusForcesLayout(a.polyExt.operations);
    FlatMapLength(a.babyBear.reverseRoots, Le32, 4);
    FlatMapLength(a.poseidon2.roundConstants, Le32, 4);
    FlatMapLength(a.poseidon2.internalDiagonal, Le32, 4);
    FlatMapLength(a.taps.records, EncodeTap, 5);
    HeaderSections(a);
    TableSections(a);
    var (h, t) := (HeaderBytes(a), TableBytes(a));
    assert forall i, j :: 0 <= i <= j <= 87 ==> (h + t)[i..j] == h[i..j];
    assert (h + t)[87..199] == t[..112] && (h + t)[199..1051] == t[112..964] && (h + t)[1051..1147] == t[964..1060];
    assert (h + t)[1147..4362] == t[1060..4275] && (h + t)[4362..] == t[4275..];
  }

  lemma HeaderSections(a: ConstantsArtifact)
    requires CountsFit(a) && |a.protocolInfo.proofSystem| == |a.protocolInfo.circuit| == 16
    ensures var h := HeaderBytes(a);
            && |h| == 87
            && h[0..10] == EncodeField(FieldOf(a)) && h[10..19] == EncodeHash(HashOf(a))
            && h[19..28] == EncodeStark(a.stark)
            && h[28..36] == EncodeTapBlock(TapBlockOf(a)) && h[36..44] == EncodePoly(PolyOf(a))
            && h[44..55] == EncodeInfo(InfoOf(a))
            && h[55..71] == a.protocolInfo.proofSystem && h[71..87] == a.protocolInfo.circuit
  {
  }

  lemma TableSections(a: ConstantsArtifact)
    requires |FlatMap(a.babyBear.reverseRoots, Le32)| == 112 && |FlatMap(a.poseidon2.roundConstants, Le32)| == 852
    requires |FlatMap(a.poseidon2.internalDiagonal, Le32)| == 96 && |FlatMap(a.taps.records, EncodeTap)| == 3215
    ensures var t := TableBytes(a);
            && t[..112] == FlatMap(a.babyBear.reverseRoots, Le32)
            && t[112..964] == FlatMap(a.poseidon2.roundConstants, Le32)
            && t[964..1060] == FlatMap(a.poseidon2.internalDiagonal, Le32)
            && t[1060..4275] == FlatMap(a.taps.records, EncodeTap) && t[4275..] == EncodeOps(a.polyExt.operations)
  {
  }

  lemma SectionsDetermine(a: ConstantsArtifact, s: seq<uint8>)
    requires CountsFit(a) && SectionsAt(a, s)
    ensures Encoding(a) == s
  {
    assert s[..87] == s[0..10] + s[10..19] + s[19..28] + s[28..36] + s[36..44] + s[44..55] + s[55..71] + s[71..87];
    assert s[87..] == s[87..199] + s[199..1051] + s[1051..1147] + s[1147..4362] + s[4362..];
    assert s == s[..87] + s[87..];
  }

  /** `encode`: it succeeds exactly on the valid artifacts, and its output is the encoding. */
  method Encode(a: ConstantsArtifact) returns (r: Result<seq<uint8>, ArtifactError>)
    ensures r.Ok? <==> Valid(a)
    ensures r.Ok? ==> CountsFit(a) && r.value == Encoding(a)
  {
    var _ :- Validate(a);
    ShapesForceLayout(a);
    var out: seq<uint8> := EncodeField(FieldOf(a)) + EncodeHash(HashOf(a)) + EncodeStark(a.stark)
                           + EncodeTapBlock(TapBlockOf(a)) + EncodePoly(PolyOf(a)) + EncodeInfo(InfoOf(a));
    out := out + a.protocolInfo.proofSystem;
    out := out + a.protocolInfo.circuit;
    var headerLength := |out|;
    var roots := PutWords(a.babyBear.reverseRoots);
    var rounds := PutWords(a.poseidon2.roundConstants);
    var diagonal := PutWords(a.poseidon2.internalDiagonal);
    var taps := PutTaps(a.taps.records);
    var ops := PutOps(a.polyExt.operations);
    out := out + (roots + rounds + diagonal + taps + ops);
    assert out == Encoding(a);
    // Neither length check fails on a valid artifact.
    return if headerLength != HEADER_BYTES then Err(HeaderLength)
           else if |out| != ARTIFACT_BYTES then Err(TotalLength)
           else Ok(out);
  }

  method PutWords(words: seq<uint32>) returns (out: seq<uint8>)
    ensures out == FlatMap(words, Le32)
  {
    out := [];
    for i := 0 to |words|
      invariant out == FlatMap(words[..i], Le32)
    {
      FlatMapSplit(words, Le32, i);
      out := out + Le32(words[i]);
    }
    assert words[..|words|] == words;
  }

  method PutTaps(taps: seq<Tap>) returns (out: seq<uint8>)
    ensures out == FlatMap(taps, EncodeTap)
  {
    out := [];
    for i := 0 to |taps|
      invariant out == FlatMap(taps[..i], EncodeTap)
    {
      FlatMapSplit(taps, EncodeTap, i);
      out := out + EncodeTap(taps[i]);
    }
    assert taps[..|taps|] == taps;
  }

  method PutOps(ops: seq<Op>) returns (out: seq<uint8>)
    ensures out == EncodeOps(ops)
  {
    out := [];
    for i := 0 to |ops|
      invariant out == EncodeOps(ops[..i])
    {
      FlatMapSplit(ops, EncodeOp, i);
      out := out + EncodeOp(ops[i]);
    }
    assert ops[..|ops|] == ops;
  }

  // ---------- Decoding ----------

  /** Reads one tap record; it fails only at the end of the bytes. */
  method DecodeTap(cursor: Cursor) returns (r: Result<Tap, DecodeError>)
    requires cursor.Valid()
    modifies cursor
    ensures cursor.Valid()
    ensures r.Ok? <==> old(cursor.position) + 5 <= |cursor.bytes|
    ensures r.Ok? ==> cursor.position == old(cursor.position) + 5
    ensures r.Ok? ==> cursor.bytes[old(cursor.position)..cursor.position] == EncodeTap(r.value)
  {
    var group :- cursor.U8();
    var offset :- cursor.U8();
    var back :- cursor.U8();
    var combo :- cursor.U8();
    var skip :- cursor.U8();
    return Ok(Tap(group, offset, back, combo, skip));
  }

  method DecodeTaps(cursor: Cursor, count: nat) returns (r: Result<seq<Tap>, DecodeError>)
    requires cursor.Valid()
    modifies cursor
    ensures cursor.Valid()
    ensures r.Ok? <==> old(cursor.position) + 5 * count <= |cursor.bytes|
    ensures r.Ok? ==> cursor.position == old(cursor.position) + 5 * count && |r.value| == count
    ensures r.Ok? ==> cursor.bytes[old(cursor.position)..cursor.position] == FlatMap(r.value, EncodeTap)
  {
    var taps: seq<Tap> := [];
    for i := 0 to count
      invariant cursor.Valid() && cursor.position == old(cursor.position) + 5 * i && |taps| == i
      invariant cursor.bytes[old(cursor.position)..cursor.position] == FlatMap(taps, EncodeTap)
    {
      ghost var start := cursor.position;
      var tap :- DecodeTap(cursor);
      FlatMapSnoc(taps, tap, EncodeTap);
      assert cursor.bytes[old(cursor.position)..cursor.position]
          == cursor.bytes[old(cursor.position)..start] + cursor.bytes[start..cursor.position];
      taps := taps + [tap];
    }
    return Ok(taps);
  }

  ghost predicate OpAt(op: Op, bytes: seq<uint8>, p: nat) {
    p < |bytes| && OperandsAt(op, bytes[p..])
  }

  method DecodeConstExt(cursor: Cursor, ghost p: nat) returns (r: Result<Op, DecodeError>)
    requires cursor.Valid() && cursor.position == p + 1 && cursor.bytes[p] == 1
    modifies cursor
    ensures cursor.Valid()
    ensures r.Ok? ==> cursor.position == p + |EncodeOp(r.value)| && OpAt(r.value, cursor.bytes, p)
    ensures r.Err? ==> forall op :: !OpAt(op, cursor.bytes, p)
  {
    ghost var s := cursor.bytes[p..];
    var c0 :- cursor.U32();
    var c1 :- cursor.U32();
    var c2 :- cursor.U32();
    var c3 :- cursor.U32();
    assert s[1..5] == cursor.bytes[p + 1..p + 5] && s[5..9] == cursor.bytes[p + 5..p + 9];
    assert s[9..13] == cursor.bytes[p + 9..p + 13] && s[13..17] == cursor.bytes[p + 13..p + 17];
    return Ok(ConstExt(c0, c1, c2, c3));
  }

  method DecodeAndCond(cursor: Cursor, ghost p: nat) returns (r: Result<Op, DecodeError>)
    requires cursor.Valid() && cursor.position == p + 1 && cursor.bytes[p] == 9
    modifies cursor
    ensures cursor.Valid()
    ensures r.Ok? ==> cursor.position == p + |EncodeOp(r.value)| && OpAt(r.value, cursor.bytes, p)
    ensures r.Err? ==> forall op :: !OpAt(op, cursor.bytes, p)
  {
    ghost var s := cursor.bytes[p..];
    var chain :- cursor.U16();
    var cond :- cursor.U16();
    var inner :- cursor.U16();
    assert s[1..3] == cursor.bytes[p + 1..p + 3] && s[3..5] == cursor.bytes[p + 3..p + 5];
    assert s[5..7] == cursor.bytes[p + 5..p + 7];
    return Ok(AndCond(chain, cond, inner));
  }

  /** Reads the operands of the instruction whose tag, at `p`, has just been read. */
  method DecodeOperands(cursor: Cursor, tag: uint8, ghost p: nat) returns (r: Result<Op, DecodeError>)
    requires cursor.Valid() && cursor.position == p + 1 && cursor.bytes[p] == tag
    modifies cursor
    ensures cursor.Valid()
    ensures r.Ok? ==> cursor.position == p + |EncodeOp(r.value)| && OpAt(r.value, cursor.bytes, p)
    ensures r.Err? ==> forall op :: !OpAt(op, cursor.bytes, p)
  {
    ghost var s := cursor.bytes[p..];
    match tag {
      case 0 =>
        var v :- cursor.U32();
        assert s[1..5] == cursor.bytes[p + 1..p + 5];
        return Ok(Const(v));
      case 1 =>
        r := DecodeConstExt(cursor, p);
      case 2 =>
        var tap :- cursor.U16();
        assert s[1..3] == cursor.bytes[p + 1..p + 3];
        return Ok(Get(tap));
      case 7 =>
        return Ok(True);
      case 9 =>
        r := DecodeAndCond(cursor, p);
      case _ =>
        if tag > 9 {
          return Err(UnknownTag);
        }
        var left :- cursor.U16();
        var right :- cursor.U16();
        assert s[1..3] == cursor.bytes[p + 1..p + 3] && s[3..5] == cursor.bytes[p + 3..p + 5];
        return Ok(
          if tag == 3 then GetGlobal(left, right)
          else if tag == 4 then Add(left, right)
          else if tag == 5 then Sub(left, right)
          else if tag == 6 then Mul(left, right)
          else AndEqz(left, right));
    }
  }

  /** Reads one instruction. It fails exactly when no instruction's encoding stands at the cursor. */
  method DecodeOp(cursor: Cursor) returns (r: Result<Op, DecodeError>)
    requires cursor.Valid()
    modifies cursor
    ensures cursor.Valid()
    ensures r.Ok? ==> old(cursor.position) < cursor.position
    ensures r.Ok? ==> cursor.bytes[old(cursor.position)..cursor.position] == EncodeOp(r.value)
    ensures r.Err? ==> forall op :: !(EncodeOp(op) <= cursor.bytes[old(cursor.position)..])
  {
    ghost var p, s := cursor.position, cursor.bytes[cursor.position..];
    forall op | EncodeOp(op) <= s ensures OpAt(op, cursor.bytes, p) {
      assert |EncodeOp(op)| >= 1;
      EncodedAt(op, s);
    }
    var tag :- cursor.U8();
    r := DecodeOperands(cursor, tag, p);
    if r.Ok? {
      EncodedAt(r.value, s);
      assert s[..cursor.position - p] == cursor.bytes[p..cursor.position];
    }
  }

  /** A whole stream that could stand at the cursor: `count` instructions, all references backward. */
  ghost predicate StreamAt(ops: seq<Op>, s: seq<uint8>, count: nat, tapCount: nat) {
    |ops| == count && Accepted(ops, tapCount) && EncodeOps(ops) <= s
  }

  /** Two streams of equally many instructions that stand at the same place are the same stream. */
  lemma {:induction false} StreamUnique(a: seq<Op>, b: seq<Op>, s: seq<uint8>)
    requires |a| == |b| && EncodeOps(a) <= s && EncodeOps(b) <= s
    ensures a == b
  {
    if a != [] {
      OpPrefixCode();
      assert EncodeOp(a[0]) <= s && EncodeOp(b[0]) <= s;
      OnePrefixContainsTheOther(EncodeOp(a[0]), EncodeOp(b[0]), s);
      var rest := s[|EncodeOp(a[0])|..];
      TailPrefix(EncodeOp(a[0]), EncodeOps(a[1..]), s);
      TailPrefix(EncodeOp(b[0]), EncodeOps(b[1..]), s);
      StreamUnique(a[1..], b[1..], rest);
      assert a == [a[0]] + a[1..] && b == [b[0]] + b[1..];
    }
  }

  lemma TailPrefix(x: seq<uint8>, y: seq<uint8>, s: seq<uint8>)
    requires x + y <= s
    ensures x <= s && y <= s[|x|..]
  {
    assert (x + y)[|x|..] == y;
    assert s[..|x + y|][|x|..] == s[|x|..][..|y|];
  }

  /** What stands after the first `i` instructions of a stream. */
  lemma StreamTail(ops: seq<Op>, s: seq<uint8>, start: nat, position: nat, i: nat)
    requires i < |ops| && start <= position <= |s|
    requires EncodeOps(ops) <= s[start..] && s[start..position] == EncodeOps(ops[..i])
    ensures EncodeOp(ops[i]) <= s[position..]
  {
    FlatMapSplit(ops, EncodeOp, i);
    TailPrefix(EncodeOps(ops[..i]), EncodeOps(ops[i..]), s[start..]);
    assert s[start..][position - start..] == s[position..];
    TailPrefix(EncodeOp(ops[i]), EncodeOps(ops[i + 1..]), s[position..]);
  }

  /** One turn of the instruction loop: an instruction, checked against the variables before it. */
  method DecodeChecked(cursor: Cursor, fieldCount: nat, mixCount: nat, tapCount: nat)
    returns (r: Result<Op, DecodeError>)
    requires cursor.Valid()
    modifies cursor
    ensures cursor.Valid()
    ensures r.Ok? ==> old(cursor.position) < cursor.position
    ensures r.Ok? ==> cursor.bytes[old(cursor.position)..cursor.position] == EncodeOp(r.value)
    ensures r.Ok? ==> ValidateOpReferences(r.value, fieldCount, mixCount, tapCount).Ok?
    ensures forall op :: EncodeOp(op) <= cursor.bytes[old(cursor.position)..] ==>
              r == Ok(op) || ValidateOpReferences(op, fieldCount, mixCount, tapCount).Err?
  {
    ghost var s := cursor.bytes[cursor.position..];
    var op :- DecodeOp(cursor);
    assert EncodeOp(op) == s[..|EncodeOp(op)|];
    OpPrefixCode();
    forall other | EncodeOp(other) <= s ensures other == op {
      OnePrefixContainsTheOther(EncodeOp(op), EncodeOp(other), s);
    }
    var checked := ValidateOpReferences(op, fieldCount, mixCount, tapCount);
    return if checked.Err? then Err(BadReference) else Ok(op);
  }

  /** The state of the instruction loop. */
  ghost predicate StreamSoFar(ops: seq<Op>, s: seq<uint8>, start: nat, position: nat,
                              fieldCount: nat, mixCount: nat, tapCount: nat) {
    && start <= position <= |s| && s[start..position] == EncodeOps(ops)
    && fieldCount == FieldCount(ops) && mixCount == MixCount(ops) && Accepted(ops, tapCount)
  }

  lemma StreamGrows(ops: seq<Op>, op: Op, s: seq<uint8>, start: nat, p: nat, q: nat,
                    fieldCount: nat, mixCount: nat, tapCount: nat)
    requires StreamSoFar(ops, s, start, p, fieldCount, mixCount, tapCount)
    requires p <= q <= |s| && s[p..q] == EncodeOp(op)
    requires ValidateOpReferences(op, fieldCount, mixCount, tapCount).Ok?
    ensures StreamSoFar(ops + [op], s, start, q, fieldCount + (if IsMix(op) then 0 else 1),
                        mixCount + (if IsMix(op) then 1 else 0), tapCount)
  {
    CountsSnoc(ops, op);
    AcceptedSnoc(ops, op, tapCount);
    StreamBytesGrow(ops, op, s, start, p, q);
  }

  lemma StreamBytesGrow(ops: seq<Op>, op: Op, s: seq<uint8>, start: nat, p: nat, q: nat)
    requires start <= p <= q <= |s| && s[start..p] == EncodeOps(ops) && s[p..q] == EncodeOp(op)
    ensures s[start..q] == EncodeOps(ops + [op])
  {
    FlatMapSnoc(ops, op, EncodeOp);
    assert s[start..q] == s[start..p] + s[p..q];
  }

  /** The next instruction of a stream that stands at `start` is readable and passes its check. */
  lemma StreamNext(w: seq<Op>, s: seq<uint8>, start: nat, p: nat, i: nat, count: nat,
                   fieldCount: nat, mixCount: nat, tapCount: nat)
    requires i < count && start <= |s| && StreamAt(w, s[start..], count, tapCount)
    requires StreamSoFar(w[..i], s, start, p, fieldCount, mixCount, tapCount)
    ensures EncodeOp(w[i]) <= s[p..]
    ensures ValidateOpReferences(w[i], fieldCount, mixCount, tapCount).Ok?
    ensures w[..i + 1] == w[..i] + [w[i]]
  {
    StreamTail(w, s, start, p, i);
  }

  /** The instruction loop of `decode`: it succeeds exactly when a well-referenced stream of `count`
      instructions stands at the cursor, and then reads that one. */
  method DecodeOps(cursor: Cursor, count: nat, tapCount: nat) returns (r: Result<seq<Op>, DecodeError>)
    requires cursor.Valid()
    modifies cursor
    ensures cursor.Valid() && (r.Ok? ==> old(cursor.position) <= cursor.position)
    ensures r.Ok? <==> exists ops :: StreamAt(ops, cursor.bytes[old(cursor.position)..], count, tapCount)
    ensures r.Ok? ==> StreamAt(r.value, cursor.bytes[old(cursor.position)..], count, tapCount)
    ensures r.Ok? ==> cursor.bytes[old(cursor.position)..cursor.position] == EncodeOps(r.value)
  {
    ghost var start, bytes := cursor.position, cursor.bytes;
    ghost var possible := exists ops :: StreamAt(ops, bytes[start..], count, tapCount);
    ghost var w: seq<Op> := [];
    if possible {
      w :| StreamAt(w, bytes[start..], count, tapCount);
    }
    var ops: seq<Op> := [];
    var fieldCount, mixCount := 0, 0;
    for i := 0 to count
      invariant cursor.Valid() && |ops| == i
      invariant StreamSoFar(ops, bytes, start, cursor.position, fieldCount, mixCount, tapCount)
      invariant possible ==> ops == w[..i]
    {
      ghost var position := cursor.position;
      if possible {
        StreamNext(w, bytes, start, position, i, count, fieldCount, mixCount, tapCount);
      }
      var op :- DecodeChecked(cursor, fieldCount, mixCount, tapCount);
      StreamGrows(ops, op, bytes, start, position, cursor.position, fieldCount, mixCount, tapCount);
      if IsMix(op) {
        mixCount := mixCount + 1;
      } else {
        fieldCount := fieldCount + 1;
      }
      ops := ops + [op];
    }
    assert EncodeOps(ops) == bytes[start..][..cursor.position - start];
    assert StreamAt(ops, bytes[start..], count, tapCount);
    return Ok(ops);
  }

  datatype RawHeader = RawHeader(
    field: FieldBlock, hash: HashBlock, stark: StarkBlock, taps: TapBlock, poly: PolyBlock, info: InfoBlock,
    proofSystem: seq<uint8>, circuit: seq<uint8>)

  ghost predicate BlocksAt(h: RawHeader, s: seq<uint8>) {
    && |s| >= 55
    && s[0..10] == EncodeField(h.field) && s[10..19] == EncodeHash(h.hash) && s[19..28] == EncodeStark(h.stark)
    && s[28..36] == EncodeTapBlock(h.taps) && s[36..44] == EncodePoly(h.poly) && s[44..55] == EncodeInfo(h.info)
  }

  ghost predicate TextsAt(h: RawHeader, s: seq<uint8>) {
    && |s| >= HEADER_BYTES
    && |h.proofSystem| == h.info.proofInfoLength && |h.circuit| == h.info.circuitInfoLength
    && 55 + |h.proofSystem| + |h.circuit| == HEADER_BYTES
    && s[55..55 + |h.proofSystem|] == h.proofSystem && s[55 + |h.proofSystem|..HEADER_BYTES] == h.circuit
    && Ascii(h.proofSystem) && Ascii(h.circuit)
  }

  /** `h` is the header the bytes start with. */
  ghost predicate HeaderAt(h: RawHeader, s: seq<uint8>) {
    BlocksAt(h, s) && TextsAt(h, s)
  }

  /** The six fixed-size blocks. */
  method DecodeBlocks(cursor: Cursor) returns (r: Result<RawHeader, DecodeError>)
    requires cursor.Valid() && cursor.position == 0
    modifies cursor
    ensures cursor.Valid()
    ensures r.Ok? <==> exists h :: BlocksAt(h, cursor.bytes)
    ensures r.Ok? ==> BlocksAt(r.value, cursor.bytes) && cursor.position == 55
  {
    ghost var s := cursor.bytes;
    forall h | BlocksAt(h, s) ensures EncodeTapBlock(h.taps) <= s[28..] && EncodeInfo(h.info) <= s[44..] {
      PrefixOfTail(s, 28, 36);
      PrefixOfTail(s, 44, 55);
    }
    var field :- DecodeField(cursor);
    var hash :- DecodeHash(cursor);
    var stark :- DecodeStark(cursor);
    var taps :- DecodeTapBlock(cursor);
    var poly :- DecodePoly(cursor);
    var info :- DecodeInfo(cursor);
    var h := RawHeader(field, hash, stark, taps, poly, info, [], []);
    assert BlocksAt(h, s);
    return Ok(h);
  }

  /** The header part of `decode`: it succeeds exactly when the bytes start with a header. */
  method DecodeHeader(cursor: Cursor) returns (r: Result<RawHeader, DecodeError>)
    requires cursor.Valid() && cursor.position == 0
    modifies cursor
    ensures cursor.Valid()
    ensures r.Ok? <==> exists h :: HeaderAt(h, cursor.bytes)
    ensures r.Ok? ==> HeaderAt(r.value, cursor.bytes) && cursor.position == HEADER_BYTES
  {
    ghost var s := cursor.bytes;
    var blocks :- DecodeBlocks(cursor);
    forall h | HeaderAt(h, s) ensures h.info == blocks.info {
      InfoUnique(h.info, blocks.info);
    }
    var proofSystem :- cursor.AsciiText(blocks.info.proofInfoLength);
    var circuit :- cursor.AsciiText(blocks.info.circuitInfoLength);
    if cursor.position != HEADER_BYTES {
      return Err(HeaderEnd);
    }
    var h := blocks.(proofSystem := proofSystem, circuit := circuit);
    assert HeaderAt(h, s);
    return Ok(h);
  }

  lemma PrefixOfTail(s: seq<uint8>, p: nat, q: nat)
    requires p <= q <= |s|
    ensures s[p..q] <= s[p..]
  {
    assert s[p..q] == s[p..][..q - p];
  }

  /** `a` is a valid artifact and `s` its encoding. */
  ghost predicate Encodes(a: ConstantsArtifact, s: seq<uint8>) {
    Valid(a) && CountsFit(a) && Encoding(a) == s
  }

  function HeaderOf(a: ConstantsArtifact): RawHeader
    requires CountsFit(a)
  {
    RawHeader(FieldOf(a), HashOf(a), a.stark, TapBlockOf(a), PolyOf(a), InfoOf(a),
              a.protocolInfo.proofSystem, a.protocolInfo.circuit)
  }

  lemma EncodedHeader(a: ConstantsArtifact, s: seq<uint8>)
    requires Encodes(a, s)
    ensures SectionsAt(a, s) && HeaderAt(HeaderOf(a), s)
  {
    ShapesForceLayout(a);
  }

  lemma HeaderUnique(g: RawHeader, h: RawHeader, s: seq<uint8>)
    requires HeaderAt(g, s) && HeaderAt(h, s)
    ensures g == h
  {
    FieldUnique(g.field, h.field);
    HashUnique(g.hash, h.hash);
    StarkUnique(g.stark, h.stark);
    TapBlockUnique(g.taps, h.taps);
    PolyUnique(g.poly, h.poly);
    InfoUnique(g.info, h.info);
  }

  datatype RawTables = RawTables(
    roots: seq<uint32>, rounds: seq<uint32>, diagonal: seq<uint32>, records: seq<Tap>, operations: seq<Op>)

  const ROOTS_END := HEADER_BYTES + 4 * ROOT_COUNT

  function RoundsEnd(h: RawHeader): nat { ROOTS_END + 4 * h.hash.roundConstantCount }

  function DiagonalEnd(h: RawHeader): nat { RoundsEnd(h) + 4 * h.hash.diagonalCount }

  function RecordsEnd(h: RawHeader): nat { DiagonalEnd(h) + 5 * h.taps.tapCount }

  /** `t` is what stands between the header and the end of the bytes. */
  ghost predicate TablesAt(t: RawTables, h: RawHeader, s: seq<uint8>) {
    && |t.roots| == ROOT_COUNT && |t.rounds| == h.hash.roundConstantCount && |t.diagonal| == h.hash.diagonalCount
    && |t.records| == h.taps.tapCount && |t.operations| == h.poly.opCount
    && Accepted(t.operations, h.taps.tapCount)
    && RecordsEnd(h) <= |s|
    && s[HEADER_BYTES..ROOTS_END] == FlatMap(t.roots, Le32)
    && s[ROOTS_END..RoundsEnd(h)] == FlatMap(t.rounds, Le32)
    && s[RoundsEnd(h)..DiagonalEnd(h)] == FlatMap(t.diagonal, Le32)
    && s[DiagonalEnd(h)..RecordsEnd(h)] == FlatMap(t.records, EncodeTap)
    && s[RecordsEnd(h)..] == EncodeOps(t.operations)
  }

  /** The four fixed-width tables: reading them fails only at the end of the bytes. */
  method DecodeNumericTables(cursor: Cursor, h: RawHeader) returns (r: Result<RawTables, DecodeError>)
    requires cursor.Valid() && cursor.position == HEADER_BYTES
    modifies cursor
    ensures cursor.Valid()
    ensures r.Ok? <==> RecordsEnd(h) <= |cursor.bytes|
    ensures r.Ok? ==> cursor.position == RecordsEnd(h) && r.value.operations == []
    ensures r.Ok? ==>
              && |r.value.roots| == ROOT_COUNT && |r.value.rounds| == h.hash.roundConstantCount
              && |r.value.diagonal| == h.hash.diagonalCount && |r.value.records| == h.taps.tapCount
              && cursor.bytes[HEADER_BYTES..ROOTS_END] == FlatMap(r.value.roots, Le32)
              && cursor.bytes[ROOTS_END..RoundsEnd(h)] == FlatMap(r.value.rounds, Le32)
              && cursor.bytes[RoundsEnd(h)..DiagonalEnd(h)] == FlatMap(r.value.diagonal, Le32)
              && cursor.bytes[DiagonalEnd(h)..RecordsEnd(h)] == FlatMap(r.value.records, EncodeTap)
  {
    var roots :- cursor.U32Vec(ROOT_COUNT);
    var rounds :- cursor.U32Vec(h.hash.roundConstantCount);
    var diagonal :- cursor.U32Vec(h.hash.diagonalCount);
    var records :- DecodeTaps(cursor, h.taps.tapCount);
    return Ok(RawTables(roots, rounds, diagonal, records, []));
  }

  /** The table part of `decode`: it succeeds exactly when the announced tables, with all references
      backward, fill the rest of the bytes. */
  method DecodeTables(cursor: Cursor, h: RawHeader) returns (r: Result<RawTables, DecodeError>)
    requires cursor.Valid() && cursor.position == HEADER_BYTES
    modifies cursor
    ensures cursor.Valid()
    ensures r.Ok? <==> exists t :: TablesAt(t, h, cursor.bytes)
    ensures r.Ok? ==> TablesAt(r.value, h, cursor.bytes)
  {
    ghost var s := cursor.bytes;
    forall t | TablesAt(t, h, s)
      ensures StreamAt(t.operations, s[RecordsEnd(h)..], h.poly.opCount, h.taps.tapCount)
    {
    }
    var tables :- DecodeNumericTables(cursor, h);
    var operations :- DecodeOps(cursor, h.poly.opCount, h.taps.tapCount);
    forall t | TablesAt(t, h, s) ensures t.operations == operations {
      StreamUnique(operations, t.operations, s[RecordsEnd(h)..]);
    }
    if cursor.position != |cursor.bytes| {
      return Err(TrailingBytes);
    }
    var t := tables.(operations := operations);
    assert TablesAt(t, h, s);
    return Ok(t);
  }

  function TablesOf(a: ConstantsArtifact): RawTables {
    RawTables(a.babyBear.reverseRoots, a.poseidon2.roundConstants, a.poseidon2.internalDiagonal, a.taps.records,
              a.polyExt.operations)
  }

  function Assemble(h: RawHeader, t: RawTables, histogram: map<OpKind, nat>): ConstantsArtifact {
    ConstantsArtifact(
      RISC0_COMMIT,
      BabyBearData(h.field.modulus, h.field.extensionDegree, h.field.extensionBeta, h.field.maxRootPo2,
                   t.roots, h.info.remap, h.info.challengeScale),
      Poseidon2Data(h.hash.cells, h.hash.rate, h.hash.outputCells, h.hash.roundsHalfFull, h.hash.roundsPartial,
                    h.hash.sboxDegree, t.rounds, t.diagonal),
      h.stark, ProtocolInfoData(h.proofSystem, h.circuit),
      TapDataSet(h.taps.groupSizes, h.taps.combosCount, h.taps.totalComboBacks, t.records),
      PolyExtData(h.poly.fieldVariables, h.poly.mixVariables, h.poly.retMixVariable, histogram, t.operations))
  }

  /** Once the assembled record is valid, the bytes it was read from are its encoding. */
  lemma AssembledEncodes(h: RawHeader, t: RawTables, histogram: map<OpKind, nat>, s: seq<uint8>)
    requires HeaderAt(h, s) && TablesAt(t, h, s) && Valid(Assemble(h, t, histogram))
    requires |s| == ARTIFACT_BYTES
    ensures Encodes(Assemble(h, t, histogram), s)
  {
    var a := Assemble(h, t, histogram);
    ShapesForceLayout(a);
    assert HeaderOf(a) == h;
    SectionsDetermine(a, s);
  }

  /** The tables of a valid artifact are read back from its encoding, and reassemble to it. */
  lemma EncodedTables(a: ConstantsArtifact, s: seq<uint8>)
    requires Encodes(a, s)
    ensures TablesAt(TablesOf(a), HeaderOf(a), s)
    ensures Assemble(HeaderOf(a), TablesOf(a), EXPECTED_HISTOGRAM) == a
  {
    CensusForcesLayout(a.polyExt.operations);
    EncodedHeader(a, s);
  }

  lemma TablesUnique(t: RawTables, u: RawTables, h: RawHeader, s: seq<uint8>)
    requires TablesAt(t, h, s) && TablesAt(u, h, s)
    ensures t == u
  {
    Le32PrefixCode();
    UniquelyDecodable(t.roots, u.roots, Le32);
    UniquelyDecodable(t.rounds, u.rounds, Le32);
    UniquelyDecodable(t.diagonal, u.diagonal, Le32);
    TapPrefixCode();
    UniquelyDecodable(t.records, u.records, EncodeTap);
    StreamUniquelyDecodable(t.operations, u.operations);
  }

  /** A byte string encodes at most one valid artifact, the whole record included. */
  lemma EncodingInjective(a: ConstantsArtifact, b: ConstantsArtifact, s: seq<uint8>)
    requires Encodes(a, s) && Encodes(b, s)
    ensures a == b
  {
    EncodedHeader(a, s);
    EncodedHeader(b, s);
    HeaderUnique(HeaderOf(a), HeaderOf(b), s);
    EncodedTables(a, s);
    EncodedTables(b, s);
    TablesUnique(TablesOf(a), TablesOf(b), HeaderOf(a), s);
  }

  /** `decode` inverts `encode` both ways: it accepts a byte string exactly when some valid artifact encodes
      to it, and then returns that artifact. */
  method Decode(bytes: seq<uint8>) returns (r: Result<ConstantsArtifact, DecodeError>)
    ensures r.Ok? ==> Encodes(r.value, bytes)
    ensures forall a :: Encodes(a, bytes) ==> r == Ok(a)
  {
    ghost var possible := exists a :: Encodes(a, bytes);
    ghost var w: ConstantsArtifact;
    if possible {
      w :| Encodes(w, bytes);
      EncodedHeader(w, bytes);
      EncodedTables(w, bytes);
      forall a | Encodes(a, bytes) ensures a == w {
        EncodingInjective(a, w, bytes);
      }
    }
    if |bytes| != ARTIFACT_BYTES {
      return Err(WrongLength);
    }
    var cursor := new Cursor(bytes);
    var header :- DecodeHeader(cursor);
    if possible {
      HeaderUnique(header, HeaderOf(w), bytes);
    }
    var tables :- DecodeTables(cursor, header);
    if possible {
      TablesUnique(tables, TablesOf(w), header, bytes);
    }
    var histogram := Histogram(tables.operations);
    if possible {
      HistogramUnique(histogram, EXPECTED_HISTOGRAM, tables.operations);
    }
    var artifact := Assemble(header, tables, histogram);
    var checked := Validate(artifact);
    if checked.Err? {
      return Err(Invalid);
    }
    AssembledEncodes(header, tables, histogram, bytes);
    return Ok(artifact);
  }

  datatype CanonicalError = NotDecodable(decodeError: DecodeError) | ReencodingDiffers | DigestDiffers

  /** `verify_canonical`. Its re-encoding comparison never fails, so it accepts exactly the encodings of
      valid artifacts that have the frozen digest, for any digest function. */
  method VerifyCanonical(bytes: seq<uint8>, sha256: seq<uint8> -> seq<uint8>, frozen: seq<uint8>)
    returns (r: Result<ConstantsArtifact, CanonicalError>)
    ensures r.Ok? ==> Encodes(r.value, bytes) && sha256(bytes) == frozen
    ensures r.Err? ==> sha256(bytes) != frozen || forall a :: !Encodes(a, bytes)
  {
    var decoded := Decode(bytes);
    if decoded.Err? {
      return Err(NotDecodable(decoded.error));
    }
    var again := Encode(decoded.value);
    return if again != Ok(bytes) then Err(ReencodingDiffers)
           else if sha256(bytes) != frozen then Err(DigestDiffers)
           else Ok(decoded.value);
  }

  datatype OutputError =
    | NotEncodable(artifactError: ArtifactError) | DecoderDisagrees | EncoderDisagrees | FrozenDigestDiffers

  /** The checks of `write_outputs` on an extracted artifact: encode, decode and compare, encode again and
      compare, and compare the digest. Only an invalid artifact or another digest can make them fail. */
  method CheckedOutput(a: ConstantsArtifact, sha256: seq<uint8> -> seq<uint8>, frozen: seq<uint8>)
    returns (r: Result<seq<uint8>, OutputError>)
    ensures r.Ok? ==> Encodes(a, r.value) && sha256(r.value) == frozen
    ensures r.Err? ==> forall bytes :: Encodes(a, bytes) ==> sha256(bytes) != frozen
  {
    var encoded := Encode(a);
    if encoded.Err? {
      return Err(NotEncodable(encoded.error));
    }
    assert Encodes(a, encoded.value);
    var decoded := Decode(encoded.value);
    var again := Encode(a);
    return if decoded != Ok(a) then Err(DecoderDisagrees)
           else if again != encoded then Err(EncoderDisagrees)
           else if sha256(encoded.value) != frozen then Err(FrozenDigestDiffers)
           else Ok(encoded.value);
  }
}
