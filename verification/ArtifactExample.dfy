/** A concrete valid artifact: all conditions on constants, taps, census and references can be met together. */
module ArtifactExample {
  import opened Codes
  import opened Words
  import opened PolyExt
  import opened TapTable
  import opened Header
  import opened Artifact

  // ---------- Taps ----------

  const SIZES: GroupSizes := [12, 23, 128]

  /** The back list of each of the five combos: the first 1, 2, 3, 4 and 10 offsets. */
  function Shape(combo: uint8): Backs
    requires combo < 5
  {
    seq(if combo == 4 then 10 else combo + 1, i requires 0 <= i < 10 => i)
  }

  const SHAPES: seq<seq<uint8>> := [Shape(0), Shape(1), Shape(2), Shape(3), Shape(4)]

  /** One register each for combos 0, 1 and 4, ten for combo 2, and the rest for combo 3. */
  function ComboAt(k: nat): uint8 {
    if k == 0 then 0 else if k == 1 then 1 else if k == 2 then 4 else if k < 13 then 2 else 3
  }

  function RegisterAt(k: nat): Register
    requires k < 163
  {
    Register(Columns(SIZES)[k].0, Columns(SIZES)[k].1, ComboAt(k), Shape(ComboAt(k)))
  }

  function Registers(n: nat): (regs: seq<Register>)
    requires n <= 163
    ensures |regs| == n && forall k :: 0 <= k < n ==> regs[k] == RegisterAt(k)
  {
    if n == 0 then [] else Registers(n - 1) + [RegisterAt(n - 1)]
  }

  lemma {:induction false} RunLengths(n: nat)
    requires n <= 163
    ensures |FlatMap(Registers(n), RunOf)|
         == if n <= 1 then n else if n == 2 then 3 else if n <= 13 then 13 + 3 * (n - 3) else 43 + 4 * (n - 13)
  {
    if n > 0 {
      RunLengths(n - 1);
      FlatMapSnoc(Registers(n - 1), RegisterAt(n - 1), RunOf);
    }
  }

  const TAPS := TapDataSet(SIZES, 5, 20, FlatMap(Registers(163), RunOf))

  lemma RegistersFit(regs: seq<Register>)
    requires |regs| == 163 && forall k :: 0 <= k < 163 ==> regs[k] == RegisterAt(k)
    ensures InColumns(regs, Columns(SIZES))
    ensures forall k :: 0 <= k < |regs| ==> HasShape(regs[k], SHAPES)
    ensures forall c :: 0 <= c < |SHAPES| ==> ComboUsed(regs, c)
  {
    forall k | 0 <= k < 163 ensures HasShape(regs[k], SHAPES) {
      assert regs[k] == RegisterAt(k);
    }
    forall c | 0 <= c < 5 ensures ComboUsed(regs, c) {
      var k := if c == 0 then 0 else if c == 1 then 1 else if c == 2 then 3 else if c == 3 then 13 else 2;
      assert regs[k].combo == c;
    }
  }

  lemma {:induction false} TableFits(regs: seq<Register>, t: TapDataSet)
    requires |regs| == 163 && forall k :: 0 <= k < 163 ==> regs[k] == RegisterAt(k)
    requires t == TapDataSet(SIZES, 5, 20, FlatMap(regs, RunOf))
    ensures CanonicalTaps(t)
  {
    RegistersFit(regs);
    ShapesTotal();
    assert TableOf(t, regs, SHAPES);
  }

  lemma TapsAreCanonical()
    ensures CanonicalTaps(TAPS) && |TAPS.records| == TAP_COUNT
  {
    RunLengths(163);
    TableFits(Registers(163), TAPS);
  }

  lemma TotalSnoc(shapes: seq<seq<uint8>>, shape: seq<uint8>)
    ensures TotalBacks(shapes + [shape]) == TotalBacks(shapes) + |shape|
  {
    assert (shapes + [shape])[..|shapes|] == shapes;
  }

  lemma ShapesTotal()
    ensures TotalBacks(SHAPES) == 20 && Distinct(SHAPES)
  {
    TotalSnoc([], Shape(0));
    TotalSnoc([Shape(0)], Shape(1));
    TotalSnoc([Shape(0), Shape(1)], Shape(2));
    TotalSnoc([Shape(0), Shape(1), Shape(2)], Shape(3));
    TotalSnoc([Shape(0), Shape(1), Shape(2), Shape(3)], Shape(4));
    assert [] + [Shape(0)] == [Shape(0)];
    assert [Shape(0), Shape(1), Shape(2), Shape(3)] + [Shape(4)] == SHAPES;
    assert [Shape(0), Shape(1), Shape(2)] + [Shape(3)] == [Shape(0), Shape(1), Shape(2), Shape(3)];
    assert [Shape(0), Shape(1)] + [Shape(2)] == [Shape(0), Shape(1), Shape(2)];
    assert [Shape(0)] + [Shape(1)] == [Shape(0), Shape(1)];
  }

  // ---------- Instructions ----------

  function Block(op: Op, n: nat): (ops: seq<Op>)
    ensures |ops| == n
  {
    if n == 0 then [] else Block(op, n - 1) + [op]
  }

  lemma {:induction false} BlockCounts(ops: seq<Op>, op: Op, n: nat)
    ensures FieldCount(ops + Block(op, n)) == FieldCount(ops) + (if IsMix(op) then 0 else n)
    ensures MixCount(ops + Block(op, n)) == MixCount(ops) + (if IsMix(op) then n else 0)
    ensures forall k :: CountKind(ops + Block(op, n), k) == CountKind(ops, k) + (if Kind(op) == k then n else 0)
  {
    if n == 0 {
      assert ops + Block(op, 0) == ops;
    } else {
      BlockCounts(ops, op, n - 1);
      assert ops + Block(op, n) == ops + Block(op, n - 1) + [op];
      CountsSnoc(ops + Block(op, n - 1), op);
    }
  }

  lemma ReferencesStayBackward(op: Op, fp: nat, mix: nat, fp': nat, mix': nat)
    requires ValidateOpReferences(op, fp, mix, TAP_COUNT).Ok? && fp <= fp' && mix <= mix'
    ensures ValidateOpReferences(op, fp', mix', TAP_COUNT).Ok?
  {
  }

  /** An instruction that is allowed after `ops` can be repeated there. */
  lemma {:induction false} BlockAppends(ops: seq<Op>, op: Op, n: nat, all: seq<Op>)
    requires Accepted(ops, TAP_COUNT) && all == ops + Block(op, n)
    requires ValidateOpReferences(op, FieldCount(ops), MixCount(ops), TAP_COUNT).Ok?
    ensures Accepted(all, TAP_COUNT)
  {
    if n == 0 {
      assert all == ops;
    } else {
      var front := ops + Block(op, n - 1);
      BlockAppends(ops, op, n - 1, front);
      BlockCounts(ops, op, n - 1);
      ReferencesStayBackward(op, FieldCount(ops), MixCount(ops), FieldCount(front), MixCount(front));
      AcceptedSnoc(front, op, TAP_COUNT);
      assert all == front + [op];
    }
  }

  const START := [True, Const(0)]

  /** The eight blocks of the stream, in order. */
  function BlockOp(i: nat): Op {
    if i == 0 then Const(0) else if i == 1 then Get(0) else if i == 2 then GetGlobal(0, 0)
    else if i == 3 then Add(0, 0) else if i == 4 then Sub(0, 0) else if i == 5 then Mul(0, 0)
    else if i == 6 then AndEqz(0, 0) else AndCond(0, 0, 0)
  }

  function BlockSize(i: nat): nat {
    if i == 0 then 283 else if i == 1 then 669 else if i == 2 then 52
    else if i == 3 then 4_061 else if i == 4 then 1_385 else if i == 5 then 4_679
    else if i == 6 then 1_076 else 152
  }

  function Stream(n: nat): seq<Op> {
    if n == 0 then START else Stream(n - 1) + Block(BlockOp(n - 1), BlockSize(n - 1))
  }

  /** How often the start and the first `n` blocks use a kind. */
  function CensusOf(n: nat, k: OpKind): nat {
    match k
    case KTrue => 1
    case KConst => if n >= 1 then 284 else 1
    case KConstExt => 0
    case KGet => if n >= 2 then 669 else 0
    case KGetGlobal => if n >= 3 then 52 else 0
    case KAdd => if n >= 4 then 4_061 else 0
    case KSub => if n >= 5 then 1_385 else 0
    case KMul => if n >= 6 then 4_679 else 0
    case KAndEqz => if n >= 7 then 1_076 else 0
    case KAndCond => if n >= 8 then 152 else 0
  }

  lemma CensusStep(n: nat)
    requires 1 <= n <= 8
    ensures forall k :: CensusOf(n, k) == CensusOf(n - 1, k) + if Kind(BlockOp(n - 1)) == k then BlockSize(n - 1) else 0
  {
  }

  /** An accepted stream with a first variable on each stack and the census of `n` blocks. */
  ghost predicate Fits(ops: seq<Op>, n: nat) {
    && Accepted(ops, TAP_COUNT) && FieldCount(ops) > 0 && MixCount(ops) > 0
    && forall k :: CountKind(ops, k) == CensusOf(n, k)
  }

  lemma FitsNext(front: seq<Op>, n: nat, next: seq<Op>)
    requires 1 <= n <= 8 && Fits(front, n - 1) && next == front + Block(BlockOp(n - 1), BlockSize(n - 1))
    ensures Fits(next, n)
  {
    BlockAppends(front, BlockOp(n - 1), BlockSize(n - 1), next);
    BlockCounts(front, BlockOp(n - 1), BlockSize(n - 1));
    CensusStep(n);
  }

  lemma StartFits()
    ensures Fits(START, 0)
  {
    assert [] + [True] == [True] && [True] + [Const(0)] == START;
    AcceptedSnoc([], True, TAP_COUNT);
    CountsSnoc([], True);
    AcceptedSnoc([True], Const(0), TAP_COUNT);
    CountsSnoc([True], Const(0));
  }

  lemma {:induction false} StreamFits(n: nat)
    requires n <= 8
    ensures Fits(Stream(n), n)
  {
    if n == 0 {
      StartFits();
    } else {
      StreamFits(n - 1);
      FitsNext(Stream(n - 1), n, Stream(n));
    }
  }

  lemma CensusIsExpected(ops: seq<Op>)
    requires forall k :: CountKind(ops, k) == CensusOf(8, k)
    ensures IsHistogram(EXPECTED_HISTOGRAM, ops)
  {
  }

  // ---------- The artifact ----------

  function Zeros(n: nat): (zeros: seq<uint32>)
    ensures |zeros| == n && Canonical(zeros)
  {
    seq(n, _ => 0)
  }

  const EXAMPLE := ConstantsArtifact(
    RISC0_COMMIT,
    BabyBearData(2_013_265_921, 4, 11, 27, Zeros(28), [0, 2, 1, 3], 3),
    Poseidon2Data(24, 16, 8, 4, 21, 7, Zeros(213), Zeros(24)),
    StarkBlock(50, 4, 16, 4, 256, 32, 20, 16),
    ProtocolInfoData(PROOF_SYSTEM_INFO, CIRCUIT_INFO),
    TAPS,
    PolyExtData(FIELD_VARS, MIX_VARS, RET_MIX_VAR, EXPECTED_HISTOGRAM, Stream(8)))

  lemma ExampleTables()
    ensures ValidTables(EXAMPLE)
  {
    TapsAreCanonical();
  }

  lemma ExampleStream()
    ensures ValidStream(EXAMPLE.polyExt)
  {
    StreamFits(8);
    CensusIsExpected(Stream(8));
  }

  /** A valid artifact exists, and with it a string of exactly 65,119 bytes that encodes it. */
  lemma ValidArtifactExists()
    ensures exists a, s :: Encodes(a, s) && |s| == ARTIFACT_BYTES
  {
    ExampleTables();
    ExampleStream();
    var a := EXAMPLE;
    assert ValidConstants(a);
    ShapesForceLayout(a);
    assert Encodes(a, Encoding(a));
  }
}
