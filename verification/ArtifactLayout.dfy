/** The encoding of an artifact byte by byte: where each field stands, without naming the encoder. */
module ArtifactLayout {
  import opened Codes
  import opened Words
  import opened PolyExt
  import opened TapTable
  import opened Header
  import opened Artifact

  // ---------- Words and records in their places ----------

  /** Five bytes a record: group, offset, back, combo, skip. */
  ghost predicate RecordsFrom(s: seq<uint8>, p: nat, records: seq<Tap>) {
    && p + 5 * |records| <= |s|
    && forall i :: 0 <= i < |records| ==>
         && s[p + 5 * i] == records[i].group && s[p + 5 * i + 1] == records[i].offset
         && s[p + 5 * i + 2] == records[i].back && s[p + 5 * i + 3] == records[i].combo
         && s[p + 5 * i + 4] == records[i].skip
  }

  /** The instruction's tag and operand words at the start of `s`, `w` bytes in all. */
  ghost predicate OpFrom(s: seq<uint8>, op: Op, w: nat) {
    && w <= |s| && w > 0
    && match op
       case Const(v) => w == 5 && s[0] == 0 && WordAt(s, 1, v)
       case ConstExt(c0, c1, c2, c3) =>
         w == 17 && s[0] == 1 && WordAt(s, 1, c0) && WordAt(s, 5, c1) && WordAt(s, 9, c2) && WordAt(s, 13, c3)
       case Get(tap) => w == 3 && s[0] == 2 && HalfAt(s, 1, tap)
       case GetGlobal(group, offset) => w == 5 && s[0] == 3 && HalfAt(s, 1, group) && HalfAt(s, 3, offset)
       case Add(left, right) => w == 5 && s[0] == 4 && HalfAt(s, 1, left) && HalfAt(s, 3, right)
       case Sub(left, right) => w == 5 && s[0] == 5 && HalfAt(s, 1, left) && HalfAt(s, 3, right)
       case Mul(left, right) => w == 5 && s[0] == 6 && HalfAt(s, 1, left) && HalfAt(s, 3, right)
       case True => w == 1 && s[0] == 7
       case AndEqz(chain, inner) => w == 5 && s[0] == 8 && HalfAt(s, 1, chain) && HalfAt(s, 3, inner)
       case AndCond(chain, cond, inner) =>
         w == 7 && s[0] == 9 && HalfAt(s, 1, chain) && HalfAt(s, 3, cond) && HalfAt(s, 5, inner)
  }

  /** The instructions one after the other, and nothing behind them. */
  ghost predicate OpsFrom(s: seq<uint8>, ops: seq<Op>) {
    if ops == [] then s == []
    else exists w: nat :: OpFrom(s, ops[0], w) && OpsFrom(s[w..], ops[1..])
  }

  /** All of a valid artifact's 65,119 bytes. Its header holds only frozen values. */
  ghost predicate LaidOut(a: ConstantsArtifact, s: seq<uint8>) {
    && |s| == 65_119
    && s[..87] ==
         [1, 0, 0, 120, 4, 11, 0, 0, 0, 27] + [24, 16, 8, 4, 21, 7, 213, 0, 24] + [50, 4, 16, 4, 0, 1, 32, 20, 16]
         + [131, 2, 3, 12, 23, 128, 5, 20] + [71, 48, 122, 43, 205, 4, 204, 4] + [0, 2, 1, 3, 0, 1, 2, 16, 16, 5, 3]
         + [82, 73, 83, 67, 48, 95, 83, 84, 65, 82, 75, 58, 118, 49, 95, 95]
         + [82, 69, 67, 85, 82, 83, 73, 79, 78, 58, 114, 101, 118, 49, 118, 49]
    && WordsAt(s, 87, a.babyBear.reverseRoots)
    && WordsAt(s, 199, a.poseidon2.roundConstants)
    && WordsAt(s, 1051, a.poseidon2.internalDiagonal)
    && RecordsFrom(s, 1147, a.taps.records)
    && OpsFrom(s[4362..], a.polyExt.operations)
  }

  // ---------- The encoder's pieces ----------

  lemma OpIs(s: seq<uint8>, op: Op, w: nat)
    ensures OpFrom(s, op, w) <==> w == |EncodeOp(op)| && EncodeOp(op) <= s
  {
    if s != [] { EncodedAt(op, s); }
  }

  lemma SplitAt<T>(s: seq<T>, x: seq<T>, y: seq<T>)
    requires |x| <= |s|
    ensures s == x + y <==> x <= s && s[|x|..] == y
  {
  }

  lemma {:induction false} OpsAre(s: seq<uint8>, ops: seq<Op>)
    ensures OpsFrom(s, ops) <==> s == EncodeOps(ops)
  {
    if ops != [] {
      var w := |EncodeOp(ops[0])|;
      OpIs(s, ops[0], w);
      if w <= |s| {
        OpsAre(s[w..], ops[1..]);
        SplitAt(s, EncodeOp(ops[0]), EncodeOps(ops[1..]));
      }
      forall v: nat | OpFrom(s, ops[0], v) ensures v == w {
        OpIs(s, ops[0], v);
      }
    }
  }

  ghost predicate Record(s: seq<uint8>, p: nat, t: Tap) {
    && p + 5 <= |s| && s[p] == t.group && s[p + 1] == t.offset && s[p + 2] == t.back && s[p + 3] == t.combo
    && s[p + 4] == t.skip
  }

  lemma RecordIs(s: seq<uint8>, p: nat, t: Tap)
    requires p + 5 <= |s|
    ensures Record(s, p, t) <==> s[p..p + 5] == EncodeTap(t)
  {
    var (e, f) := (s[p..p + 5], EncodeTap(t));
    assert e == f <==> e[0] == f[0] && e[1] == f[1] && e[2] == f[2] && e[3] == f[3] && e[4] == f[4];
  }

  lemma {:induction false} RecordsAre(s: seq<uint8>, p: nat, records: seq<Tap>)
    requires p + 5 * |records| <= |s|
    ensures RecordsFrom(s, p, records) <==> s[p..p + 5 * |records|] == FlatMap(records, EncodeTap)
    decreases |records|
  {
    if records != [] {
      var rest := records[1..];
      RecordsAre(s, p + 5, rest);
      RecordIs(s, p, records[0]);
      FlatMapLength(rest, EncodeTap, 5);
      Halves(s, p, p + 5, p + 5 * |records|, EncodeTap(records[0]), FlatMap(rest, EncodeTap));
      RecordsSplit(s, p, records);
    }
  }

  lemma RecordsSplit(s: seq<uint8>, p: nat, records: seq<Tap>)
    requires records != [] && p + 5 * |records| <= |s|
    ensures RecordsFrom(s, p, records) <==> Record(s, p, records[0]) && RecordsFrom(s, p + 5, records[1..])
  {
    var rest := records[1..];
    assert forall i :: 0 <= i < |rest| ==> rest[i] == records[i + 1] && p + 5 + 5 * i == p + 5 * (i + 1);
    assert forall i :: 1 <= i < |records| ==> records[i] == rest[i - 1];
  }

  /** The header of a valid artifact is one fixed byte string. */
  lemma HeaderIsFixed(a: ConstantsArtifact)
    requires Valid(a) && CountsFit(a)
    ensures HeaderBytes(a) ==
              [1, 0, 0, 120, 4, 11, 0, 0, 0, 27] + [24, 16, 8, 4, 21, 7, 213, 0, 24] + [50, 4, 16, 4, 0, 1, 32, 20, 16]
              + [131, 2, 3, 12, 23, 128, 5, 20] + [71, 48, 122, 43, 205, 4, 204, 4]
              + [0, 2, 1, 3, 0, 1, 2, 16, 16, 5, 3]
              + [82, 73, 83, 67, 48, 95, 83, 84, 65, 82, 75, 58, 118, 49, 95, 95]
              + [82, 69, 67, 85, 82, 83, 73, 79, 78, 58, 114, 101, 118, 49, 118, 49]
  {
    CensusForcesLayout(a.polyExt.operations);
    FixedField(a);
    FixedHash(a);
  }

  lemma FixedField(a: ConstantsArtifact)
    requires ValidConstants(a)
    ensures EncodeField(FieldOf(a)) == [1, 0, 0, 120, 4, 11, 0, 0, 0, 27]
    ensures EncodeStark(a.stark) == [50, 4, 16, 4, 0, 1, 32, 20, 16]
    ensures EncodeInfo(InfoOf(a)) == [0, 2, 1, 3, 0, 1, 2, 16, 16, 5, 3]
  {
  }

  lemma FixedHash(a: ConstantsArtifact)
    requires ValidConstants(a) && CountsFit(a) && |a.polyExt.operations| == OP_COUNT
    requires |a.poseidon2.roundConstants| == POSEIDON_ROUND_CONSTANTS
    requires |a.poseidon2.internalDiagonal| == POSEIDON_DIAGONAL_CONSTANTS && |a.taps.records| == TAP_COUNT
    ensures EncodeHash(HashOf(a)) == [24, 16, 8, 4, 21, 7, 213, 0, 24]
    ensures EncodeTapBlock(TapBlockOf(a)) == [131, 2, 3, 12, 23, 128, 5, 20]
    ensures EncodePoly(PolyOf(a)) == [71, 48, 122, 43, 205, 4, 204, 4]
  {
  }

  /** The sections of `SectionsAt`, read byte by byte. */
  lemma SectionsAreLaidOut(a: ConstantsArtifact, s: seq<uint8>)
    requires CountsFit(a) && |s| == 65_119
    requires |a.babyBear.reverseRoots| == 28 && |a.poseidon2.roundConstants| == 213
    requires |a.poseidon2.internalDiagonal| == 24 && |a.taps.records| == 643
    ensures WordsAt(s, 87, a.babyBear.reverseRoots) <==> s[87..199] == FlatMap(a.babyBear.reverseRoots, Le32)
    ensures WordsAt(s, 199, a.poseidon2.roundConstants) <==> s[199..1051] == FlatMap(a.poseidon2.roundConstants, Le32)
    ensures WordsAt(s, 1051, a.poseidon2.internalDiagonal)
       <==> s[1051..1147] == FlatMap(a.poseidon2.internalDiagonal, Le32)
    ensures RecordsFrom(s, 1147, a.taps.records) <==> s[1147..4362] == FlatMap(a.taps.records, EncodeTap)
    ensures OpsFrom(s[4362..], a.polyExt.operations) <==> s[4362..] == EncodeOps(a.polyExt.operations)
  {
    WordsAre(s, 87, a.babyBear.reverseRoots);
    WordsAre(s, 199, a.poseidon2.roundConstants);
    WordsAre(s, 1051, a.poseidon2.internalDiagonal);
    RecordsAre(s, 1147, a.taps.records);
    OpsAre(s[4362..], a.polyExt.operations);
  }

  lemma TablesAfterHeader(a: ConstantsArtifact, s: seq<uint8>)
    requires CountsFit(a) && |s| == 65_119
    requires s[87..199] == FlatMap(a.babyBear.reverseRoots, Le32)
    requires s[199..1051] == FlatMap(a.poseidon2.roundConstants, Le32)
    requires s[1051..1147] == FlatMap(a.poseidon2.internalDiagonal, Le32)
    requires s[1147..4362] == FlatMap(a.taps.records, EncodeTap) && s[4362..] == EncodeOps(a.polyExt.operations)
    ensures s == s[..87] + TableBytes(a)
  {
    assert s[87..1051] == s[87..199] + s[199..1051];
    assert s[87..1147] == s[87..1051] + s[1051..1147];
    assert s[87..4362] == s[87..1147] + s[1147..4362];
    assert s[87..] == s[87..4362] + s[4362..];
  }

  /** A byte string is the encoding of a valid artifact exactly when every byte is the one the layout says. */
  lemma EncodingIsLaidOut(a: ConstantsArtifact, s: seq<uint8>)
    requires Valid(a)
    ensures CountsFit(a) && (s == Encoding(a) <==> LaidOut(a, s))
  {
    ShapesForceLayout(a);
    HeaderIsFixed(a);
    if s == Encoding(a) {
      SectionsAreLaidOut(a, s);
      assert s[..87] == HeaderBytes(a);
    }
    if LaidOut(a, s) {
      SectionsAreLaidOut(a, s);
      TablesAfterHeader(a, s);
    }
  }
}
