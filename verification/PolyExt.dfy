/** The PolyExt instruction stream: its variable-width encoding, its opcode census and its
    backward-reference check, which is shown to accept exactly the streams a two-stack
    machine runs without getting stuck. */
module PolyExt {
  import opened Codes
  import opened Constants
  import opened Wrappers
  import opened Words

  const OUTPUT_SIZE := 32
  const MIX_SIZE := 20

  datatype Op =
    | Const(value: uint32)
    | ConstExt(c0: uint32, c1: uint32, c2: uint32, c3: uint32)
    | Get(tap: uint16)
    | GetGlobal(group: uint16, offset: uint16)
    | Add(left: uint16, right: uint16)
    | Sub(left: uint16, right: uint16)
    | Mul(left: uint16, right: uint16)
    | True
    | AndEqz(chain: uint16, inner: uint16)
    | AndCond(chain: uint16, cond: uint16, inner: uint16)

  predicate IsMix(op: Op) {
    op.True? || op.AndEqz? || op.AndCond?
  }

  // ---------- Encoding ----------

  function EncodeOp(op: Op): (s: seq<uint8>)
    ensures 1 <= |s| <= 17
  {
    match op
    case Const(v) => [0] + Le32(v)
    case ConstExt(c0, c1, c2, c3) => [1] + Le32(c0) + Le32(c1) + Le32(c2) + Le32(c3)
    case Get(tap) => [2] + Le16(tap)
    case GetGlobal(group, offset) => [3] + Le16(group) + Le16(offset)
    case Add(left, right) => [4] + Le16(left) + Le16(right)
    case Sub(left, right) => [5] + Le16(left) + Le16(right)
    case Mul(left, right) => [6] + Le16(left) + Le16(right)
    case True => [7]
    case AndEqz(chain, inner) => [8] + Le16(chain) + Le16(inner)
    case AndCond(chain, cond, inner) => [9] + Le16(chain) + Le16(cond) + Le16(inner)
  }

  function EncodeOps(ops: seq<Op>): seq<uint8> {
    FlatMap(ops, EncodeOp)
  }

  /** The operand words of an instruction, two bytes each, after its tag; constants are held apart. */
  ghost predicate OperandsAt(op: Op, s: seq<uint8>)
    requires |s| > 0
  {
    match op
    case Const(v) => s[0] == 0 && |s| >= 5 && FromLe32(s[1..5]) == v
    case ConstExt(c0, c1, c2, c3) =>
      s[0] == 1 && |s| >= 17 && FromLe32(s[1..5]) == c0 && FromLe32(s[5..9]) == c1
      && FromLe32(s[9..13]) == c2 && FromLe32(s[13..17]) == c3
    case Get(tap) => s[0] == 2 && |s| >= 3 && FromLe16(s[1..3]) == tap
    case GetGlobal(a, b) => s[0] == 3 && |s| >= 5 && FromLe16(s[1..3]) == a && FromLe16(s[3..5]) == b
    case Add(a, b) => s[0] == 4 && |s| >= 5 && FromLe16(s[1..3]) == a && FromLe16(s[3..5]) == b
    case Sub(a, b) => s[0] == 5 && |s| >= 5 && FromLe16(s[1..3]) == a && FromLe16(s[3..5]) == b
    case Mul(a, b) => s[0] == 6 && |s| >= 5 && FromLe16(s[1..3]) == a && FromLe16(s[3..5]) == b
    case True => s[0] == 7
    case AndEqz(a, b) => s[0] == 8 && |s| >= 5 && FromLe16(s[1..3]) == a && FromLe16(s[3..5]) == b
    case AndCond(a, b, c) =>
      s[0] == 9 && |s| >= 7 && FromLe16(s[1..3]) == a && FromLe16(s[3..5]) == b && FromLe16(s[5..7]) == c
  }

  /** An instruction's encoding starts a string exactly when its tag and operand words can be read there. */
  lemma EncodedAt(op: Op, s: seq<uint8>)
    requires |s| > 0
    ensures EncodeOp(op) <= s <==> OperandsAt(op, s)
  {
    match op
    case Const(v) =>
      if |s| >= 5 { Le32Inverse(v, s[1..5]); }
    case ConstExt(c0, c1, c2, c3) =>
      if |s| >= 17 { QuadAt(c0, c1, c2, c3, s); }
    case Get(tap) =>
      if |s| >= 3 { Le16Inverse(tap, s[1..3]); }
    case True =>
    case AndCond(a, b, c) =>
      if |s| >= 7 { TripleAt(a, b, c, s); }
    case GetGlobal(a, b) => if |s| >= 5 { PairAt(a, b, s); }
    case Add(a, b) => if |s| >= 5 { PairAt(a, b, s); }
    case Sub(a, b) => if |s| >= 5 { PairAt(a, b, s); }
    case Mul(a, b) => if |s| >= 5 { PairAt(a, b, s); }
    case AndEqz(a, b) => if |s| >= 5 { PairAt(a, b, s); }
  }

  lemma PairAt(a: uint16, b: uint16, s: seq<uint8>)
    requires |s| >= 5
    ensures [s[0]] + Le16(a) + Le16(b) <= s <==> FromLe16(s[1..3]) == a && FromLe16(s[3..5]) == b
    ensures FromLe16(s[1..3]) == a <==> s[1..3] == Le16(a)
    ensures FromLe16(s[3..5]) == b <==> s[3..5] == Le16(b)
  {
    Le16Inverse(a, s[1..3]);
    Le16Inverse(b, s[3..5]);
    assert s[..5] == [s[0]] + s[1..3] + s[3..5];
    var e := [s[0]] + Le16(a) + Le16(b);
    assert e[1..3] == Le16(a) && e[3..5] == Le16(b);
  }

  lemma TripleAt(a: uint16, b: uint16, c: uint16, s: seq<uint8>)
    requires |s| >= 7
    ensures [s[0]] + Le16(a) + Le16(b) + Le16(c) <= s
            <==> FromLe16(s[1..3]) == a && FromLe16(s[3..5]) == b && FromLe16(s[5..7]) == c
  {
    Le16Inverse(a, s[1..3]);
    Le16Inverse(b, s[3..5]);
    Le16Inverse(c, s[5..7]);
    assert s[..7] == [s[0]] + s[1..3] + s[3..5] + s[5..7];
    var e := [s[0]] + Le16(a) + Le16(b) + Le16(c);
    assert e[1..3] == Le16(a) && e[3..5] == Le16(b) && e[5..7] == Le16(c);
  }

  lemma QuadAt(c0: uint32, c1: uint32, c2: uint32, c3: uint32, s: seq<uint8>)
    requires |s| >= 17
    ensures [s[0]] + Le32(c0) + Le32(c1) + Le32(c2) + Le32(c3) <= s
       <==> && FromLe32(s[1..5]) == c0 && FromLe32(s[5..9]) == c1
            && FromLe32(s[9..13]) == c2 && FromLe32(s[13..17]) == c3
  {
    Le32Inverse(c0, s[1..5]);
    Le32Inverse(c1, s[5..9]);
    Le32Inverse(c2, s[9..13]);
    Le32Inverse(c3, s[13..17]);
    assert s[..17] == [s[0]] + s[1..5] + s[5..9] + s[9..13] + s[13..17];
    var e := [s[0]] + Le32(c0) + Le32(c1) + Le32(c2) + Le32(c3);
    assert e[1..5] == Le32(c0) && e[5..9] == Le32(c1) && e[9..13] == Le32(c2) && e[13..17] == Le32(c3);
  }

  /** No instruction's encoding is a prefix of another's. */
  lemma OpPrefixCode()
    ensures PrefixCode(EncodeOp)
  {
    forall a, b | EncodeOp(a) <= EncodeOp(b) ensures a == b {
      EncodedAt(a, EncodeOp(b));
      EncodedAt(b, EncodeOp(b));
    }
  }

  /** The stream is uniquely decodable for instruction lists of any, even different, lengths. */
  lemma StreamUniquelyDecodable(a: seq<Op>, b: seq<Op>)
    requires EncodeOps(a) == EncodeOps(b)
    ensures a == b
  {
    OpPrefixCode();
    UniquelyDecodable(a, b, EncodeOp);
  }

  // ---------- Census ----------

  datatype OpKind =
    KAdd | KAndCond | KAndEqz | KConst | KConstExt | KGet | KGetGlobal | KMul | KSub | KTrue

  function Kind(op: Op): OpKind {
    match op
    case Const(_) => KConst
    case ConstExt(_, _, _, _) => KConstExt
    case Get(_) => KGet
    case GetGlobal(_, _) => KGetGlobal
    case Add(_, _) => KAdd
    case Sub(_, _) => KSub
    case Mul(_, _) => KMul
    case True => KTrue
    case AndEqz(_, _) => KAndEqz
    case AndCond(_, _, _) => KAndCond
  }

  function CountKind(ops: seq<Op>, k: OpKind): nat {
    if ops == [] then 0 else (if Kind(ops[0]) == k then 1 else 0) + CountKind(ops[1..], k)
  }

  function MixCount(ops: seq<Op>): nat {
    if ops == [] then 0 else (if IsMix(ops[0]) then 1 else 0) + MixCount(ops[1..])
  }

  function FieldCount(ops: seq<Op>): nat {
    if ops == [] then 0 else (if IsMix(ops[0]) then 0 else 1) + FieldCount(ops[1..])
  }

  lemma {:induction false} CountsSnoc(ops: seq<Op>, op: Op)
    ensures MixCount(ops + [op]) == MixCount(ops) + (if IsMix(op) then 1 else 0)
    ensures FieldCount(ops + [op]) == FieldCount(ops) + (if IsMix(op) then 0 else 1)
    ensures forall k :: CountKind(ops + [op], k) == CountKind(ops, k) + (if Kind(op) == k then 1 else 0)
  {
    if ops == [] {
      assert (ops + [op])[1..] == [];
    } else {
      CountsSnoc(ops[1..], op);
      assert (ops + [op])[1..] == ops[1..] + [op];
    }
  }

  /** The map `histogram` returns: every kind that occurs, and `ConstExt` always. */
  ghost predicate IsHistogram(h: map<OpKind, nat>, ops: seq<Op>) {
    forall k: OpKind ::
      (k in h <==> k == KConstExt || CountKind(ops, k) > 0) && (k in h ==> h[k] == CountKind(ops, k))
  }

  method Histogram(ops: seq<Op>) returns (h: map<OpKind, nat>)
    ensures IsHistogram(h, ops)
  {
    h := map[];
    for i := 0 to |ops|
      invariant forall k: OpKind ::
          (k in h <==> CountKind(ops[..i], k) > 0) && (k in h ==> h[k] == CountKind(ops[..i], k))
    {
      var k := Kind(ops[i]);
      CountsSnoc(ops[..i], ops[i]);
      assert ops[..i + 1] == ops[..i] + [ops[i]];
      h := h[k := (if k in h then h[k] else 0) + 1];
    }
    assert ops[..|ops|] == ops;
    if KConstExt !in h {
      h := h[KConstExt := 0];
    }
  }

  /** The kind counts of a stream fix its length and both variable counts. */
  lemma {:induction false} CensusCounts(ops: seq<Op>)
    ensures MixCount(ops) == CountKind(ops, KTrue) + CountKind(ops, KAndEqz) + CountKind(ops, KAndCond)
    ensures MixCount(ops) + FieldCount(ops) == |ops|
    ensures FieldCount(ops) == CountKind(ops, KConst) + CountKind(ops, KConstExt) + CountKind(ops, KGet)
            + CountKind(ops, KGetGlobal) + CountKind(ops, KAdd) + CountKind(ops, KSub) + CountKind(ops, KMul)
  {
    if ops != [] {
      CensusCounts(ops[1..]);
    }
  }

  function Width(k: OpKind): nat {
    match k
    case KConstExt => 17
    case KGet => 3
    case KTrue => 1
    case KAndCond => 7
    case _ => 5
  }

  lemma OpWidth(op: Op)
    ensures |EncodeOp(op)| == Width(Kind(op))
  {
  }

  /** The kind counts fix the encoded length. */
  lemma {:induction false} CensusLength(ops: seq<Op>)
    ensures |EncodeOps(ops)|
         == 5 * (CountKind(ops, KConst) + CountKind(ops, KGetGlobal) + CountKind(ops, KAdd) + CountKind(ops, KSub)
            + CountKind(ops, KMul) + CountKind(ops, KAndEqz))
            + 17 * CountKind(ops, KConstExt) + 3 * CountKind(ops, KGet) + CountKind(ops, KTrue)
            + 7 * CountKind(ops, KAndCond)
  {
    if ops != [] {
      CensusLength(ops[1..]);
      OpWidth(ops[0]);
      assert |EncodeOps(ops)| == Width(Kind(ops[0])) + |EncodeOps(ops[1..])|;
    }
  }

  // ---------- Backward references ----------

  datatype ReferenceError = FieldNotBackward | MixNotBackward | NotReduced | TapOutOfRange | BadGlobal

  /** The check of one instruction against the numbers of variables defined before it. */
  function ValidateOpReferences(op: Op, fp: nat, mix: nat, taps: nat): Result<(), ReferenceError> {
    match op
    case Const(v) => Ensure(v < BABY_BEAR_P, NotReduced)
    case ConstExt(c0, c1, c2, c3) =>
      Ensure(c0 < BABY_BEAR_P && c1 < BABY_BEAR_P && c2 < BABY_BEAR_P && c3 < BABY_BEAR_P, NotReduced)
    case True => Ok(())
    case Get(tap) => Ensure(tap < taps, TapOutOfRange)
    case GetGlobal(group, offset) =>
      var _ :- Ensure(group < 2, BadGlobal);
      var bound := if group == 0 then OUTPUT_SIZE else MIX_SIZE;
      Ensure(offset < bound, BadGlobal)
    case Add(a, b) => var _ :- FieldRef(a, fp); FieldRef(b, fp)
    case Sub(a, b) => var _ :- FieldRef(a, fp); FieldRef(b, fp)
    case Mul(a, b) => var _ :- FieldRef(a, fp); FieldRef(b, fp)
    case AndEqz(chain, inner) => var _ :- MixRef(chain, mix); FieldRef(inner, fp)
    case AndCond(chain, cond, inner) =>
      var _ :- MixRef(chain, mix);
      var _ :- FieldRef(cond, fp);
      MixRef(inner, mix)
  }

  function FieldRef(v: uint16, fp: nat): Result<(), ReferenceError> {
    Ensure(v < fp, FieldNotBackward)
  }

  function MixRef(v: uint16, mix: nat): Result<(), ReferenceError> {
    Ensure(v < mix, MixNotBackward)
  }

  /** Every instruction passes the check at its own place in the stream. */
  ghost predicate Accepted(ops: seq<Op>, taps: nat) {
    forall i :: 0 <= i < |ops| ==>
      ValidateOpReferences(ops[i], FieldCount(ops[..i]), MixCount(ops[..i]), taps).Ok?
  }

  lemma AcceptedSnoc(ops: seq<Op>, op: Op, taps: nat)
    ensures Accepted(ops + [op], taps)
       <==> Accepted(ops, taps) && ValidateOpReferences(op, FieldCount(ops), MixCount(ops), taps).Ok?
  {
    var all := ops + [op];
    assert all[..|ops|] == ops;
    assert forall i :: 0 <= i < |ops| ==> all[..i] == ops[..i] && all[i] == ops[i];
  }

  /** The walk `validate` makes over the whole stream, counting both stacks as it goes. */
  method WalkReferences(ops: seq<Op>, taps: nat) returns (r: Result<(nat, nat), ReferenceError>)
    ensures r.Ok? <==> Accepted(ops, taps)
    ensures r.Ok? ==> r.value == (FieldCount(ops), MixCount(ops))
  {
    var fp, mix := 0, 0;
    for i := 0 to |ops|
      invariant fp == FieldCount(ops[..i]) && mix == MixCount(ops[..i])
      invariant Accepted(ops[..i], taps)
    {
      AcceptedSnoc(ops[..i], ops[i], taps);
      CountsSnoc(ops[..i], ops[i]);
      assert ops[..i + 1] == ops[..i] + [ops[i]];
      var checked := ValidateOpReferences(ops[i], fp, mix, taps);
      if checked.Err? {
        return Err(checked.error);
      }
      if IsMix(ops[i]) {
        mix := mix + 1;
      } else {
        fp := fp + 1;
      }
    }
    assert ops[..|ops|] == ops;
    return Ok((fp, mix));
  }

  // ---------- The two-stack machine ----------

  /** An interpretation of the instructions over any field type `F` and mix type `M`. */
  datatype Machine<!F, !M> = Machine(
    taps: seq<F>, outputs: seq<F>, mix: seq<F>,
    embed: uint32 -> F, embedExt: (uint32, uint32, uint32, uint32) -> F,
    add: (F, F) -> F, sub: (F, F) -> F, mul: (F, F) -> F,
    top: M, andEqz: (M, F) -> M, andCond: (M, F, M) -> M)

  datatype Stacks<F, M> = Stacks(fields: seq<F>, mixes: seq<M>)

  function Read<T>(s: seq<T>, i: nat): Option<T> {
    if i < |s| then Some(s[i]) else None
  }

  function Reduced(v: uint32): Option<uint32> {
    if v < BABY_BEAR_P then Some(v) else None
  }

  /** One instruction: it reads its operands from the stacks and pushes its value, or is stuck. */
  function Step<F, M>(m: Machine<F, M>, op: Op, st: Stacks<F, M>): Option<Stacks<F, M>> {
    match op
    case Const(v) => var v :- Reduced(v); Some(st.(fields := st.fields + [m.embed(v)]))
    case ConstExt(c0, c1, c2, c3) =>
      var c0 :- Reduced(c0);
      var c1 :- Reduced(c1);
      var c2 :- Reduced(c2);
      var c3 :- Reduced(c3);
      Some(st.(fields := st.fields + [m.embedExt(c0, c1, c2, c3)]))
    case Get(tap) => var x :- Read(m.taps, tap); Some(st.(fields := st.fields + [x]))
    case GetGlobal(group, offset) =>
      var x :- if group == 0 then Read(m.outputs, offset) else if group == 1 then Read(m.mix, offset) else None;
      Some(st.(fields := st.fields + [x]))
    case Add(a, b) => Binary(st, a, b, m.add)
    case Sub(a, b) => Binary(st, a, b, m.sub)
    case Mul(a, b) => Binary(st, a, b, m.mul)
    case True => Some(st.(mixes := st.mixes + [m.top]))
    case AndEqz(chain, inner) =>
      var x :- Read(st.mixes, chain);
      var y :- Read(st.fields, inner);
      Some(st.(mixes := st.mixes + [m.andEqz(x, y)]))
    case AndCond(chain, cond, inner) =>
      var x :- Read(st.mixes, chain);
      var c :- Read(st.fields, cond);
      var y :- Read(st.mixes, inner);
      Some(st.(mixes := st.mixes + [m.andCond(x, c, y)]))
  }

  function Binary<F, M>(st: Stacks<F, M>, a: uint16, b: uint16, f: (F, F) -> F): Option<Stacks<F, M>> {
    var x :- Read(st.fields, a);
    var y :- Read(st.fields, b);
    Some(st.(fields := st.fields + [f(x, y)]))
  }

  function Run<F, M>(m: Machine<F, M>, ops: seq<Op>): Option<Stacks<F, M>> {
    if ops == [] then Some(Stacks([], []))
    else
      var st :- Run(m, ops[..|ops| - 1]);
      Step(m, ops[|ops| - 1], st)
  }

  lemma StepIffValid<F, M>(m: Machine<F, M>, op: Op, st: Stacks<F, M>)
    requires |m.outputs| == OUTPUT_SIZE && |m.mix| == MIX_SIZE
    ensures ValidateOpReferences(op, |st.fields|, |st.mixes|, |m.taps|).Ok? <==> Step(m, op, st).Some?
    ensures Step(m, op, st).Some? ==>
              && |Step(m, op, st).value.fields| == |st.fields| + (if IsMix(op) then 0 else 1)
              && |Step(m, op, st).value.mixes| == |st.mixes| + (if IsMix(op) then 1 else 0)
              && st.fields <= Step(m, op, st).value.fields && st.mixes <= Step(m, op, st).value.mixes
  {
  }

  /** The reference check is exact: it accepts a stream if and only if the machine runs it to the end
      without reading a variable that is not yet defined, a tap or global that does not exist, or a
      constant that is not reduced. The stacks then have the counted heights. */
  lemma {:induction false} AcceptedIffRuns<F, M>(m: Machine<F, M>, ops: seq<Op>)
    requires |m.outputs| == OUTPUT_SIZE && |m.mix| == MIX_SIZE
    ensures Accepted(ops, |m.taps|) <==> Run(m, ops).Some?
    ensures Run(m, ops).Some? ==>
              |Run(m, ops).value.fields| == FieldCount(ops) && |Run(m, ops).value.mixes| == MixCount(ops)
  {
    if ops != [] {
      var front, last := ops[..|ops| - 1], ops[|ops| - 1];
      assert ops == front + [last];
      AcceptedIffRuns(m, front);
      AcceptedSnoc(front, last, |m.taps|);
      CountsSnoc(front, last);
      if Run(m, front).Some? {
        StepIffValid(m, last, Run(m, front).value);
      }
    }
  }

  /** Single assignment: what a prefix of the stream computed is never changed by the rest. */
  lemma {:induction false} RunKeepsEarlierValues<F, M>(m: Machine<F, M>, ops: seq<Op>, n: nat)
    requires |m.outputs| == OUTPUT_SIZE && |m.mix| == MIX_SIZE
    requires n <= |ops| && Run(m, ops).Some?
    ensures Run(m, ops[..n]).Some?
    ensures Run(m, ops[..n]).value.fields <= Run(m, ops).value.fields
    ensures Run(m, ops[..n]).value.mixes <= Run(m, ops).value.mixes
  {
    if n == |ops| {
      assert ops[..n] == ops;
    } else {
      var front := ops[..|ops| - 1];
      assert front[..n] == ops[..n];
      RunKeepsEarlierValues(m, front, n);
      StepIffValid(m, ops[|ops| - 1], Run(m, front).value);
    }
  }

  // ---------- The mix chain ----------

  /** The instructions that define mix variables, in order: the i-th defines mix variable i. */
  function MixOps(ops: seq<Op>): seq<Op> {
    if ops == [] then []
    else
      var front := MixOps(ops[..|ops| - 1]);
      if IsMix(ops[|ops| - 1]) then front + [ops[|ops| - 1]] else front
  }

  /** The instruction of mix variable `i` reads only earlier mix variables. */
  ghost predicate LinksBack(op: Op, i: nat) {
    IsMix(op) && (op.True? || op.chain < i) && (op.AndCond? ==> op.inner < i)
  }

  ghost predicate AllLinkBack(mixes: seq<Op>) {
    forall i :: 0 <= i < |mixes| ==> LinksBack(mixes[i], i)
  }

  lemma {:induction false} MixOpsCounts(ops: seq<Op>)
    ensures |MixOps(ops)| == MixCount(ops)
    ensures CountKind(MixOps(ops), KTrue) == CountKind(ops, KTrue)
  {
    if ops != [] {
      var front, last := ops[..|ops| - 1], ops[|ops| - 1];
      assert ops == front + [last];
      CountsSnoc(front, last);
      MixOpsCounts(front);
      CountsSnoc(MixOps(front), last);
    }
  }

  lemma {:induction false} MixOpsLinkBack(ops: seq<Op>, taps: nat)
    requires Accepted(ops, taps)
    ensures AllLinkBack(MixOps(ops))
  {
    if ops != [] {
      var front, last := ops[..|ops| - 1], ops[|ops| - 1];
      assert ops == front + [last];
      AcceptedSnoc(front, last, taps);
      MixOpsLinkBack(front, taps);
      MixOpsCounts(front);
    }
  }

  lemma MixOpsFacts(ops: seq<Op>, taps: nat)
    requires Accepted(ops, taps)
    ensures |MixOps(ops)| == MixCount(ops)
    ensures CountKind(MixOps(ops), KTrue) == CountKind(ops, KTrue)
    ensures AllLinkBack(MixOps(ops))
  {
    MixOpsCounts(ops);
    MixOpsLinkBack(ops, taps);
  }

  lemma {:induction false} CountZeroOne(ops: seq<Op>, k: OpKind)
    ensures CountKind(ops, k) == 0 ==> forall i :: 0 <= i < |ops| ==> Kind(ops[i]) != k
    ensures CountKind(ops, k) == 1 && |ops| > 0 && Kind(ops[0]) == k
        ==> forall i :: 1 <= i < |ops| ==> Kind(ops[i]) != k
  {
    if ops != [] {
      CountZeroOne(ops[1..], k);
      assert forall i :: 1 <= i < |ops| ==> ops[i] == ops[1..][i - 1];
    }
  }

  /** In an accepted stream with exactly one `True`, mix variable 0 is that `True`, and every other
      mix variable extends a strictly earlier one. */
  lemma FirstMixIsUniqueTrue(ops: seq<Op>, taps: nat)
    requires Accepted(ops, taps) && CountKind(ops, KTrue) == 1
    ensures |MixOps(ops)| == MixCount(ops) > 0
    ensures forall i :: 0 <= i < |MixOps(ops)| ==> (MixOps(ops)[i].True? <==> i == 0)
    ensures AllLinkBack(MixOps(ops))
  {
    MixOpsFacts(ops, taps);
    OnlyTrueIsFirst(MixOps(ops));
  }

  lemma OnlyTrueIsFirst(mixes: seq<Op>)
    requires AllLinkBack(mixes) && CountKind(mixes, KTrue) == 1
    ensures mixes != []
    ensures forall i :: 0 <= i < |mixes| ==> (mixes[i].True? <==> i == 0)
  {
    assert LinksBack(mixes[0], 0);
    CountZeroOne(mixes, KTrue);
    forall i | 1 <= i < |mixes| ensures !mixes[i].True? {
      assert Kind(mixes[i]) != KTrue;
    }
  }

  /** The mix variables met when following the chain operand from variable `i`. */
  function ChainFrom(mixes: seq<Op>, i: nat): seq<nat>
    requires i < |mixes| && AllLinkBack(mixes)
    decreases i
  {
    assert LinksBack(mixes[i], i);
    if mixes[i].True? then [i] else [i] + ChainFrom(mixes, mixes[i].chain)
  }

  ghost predicate StrictlyDown(path: seq<nat>) {
    forall k :: 0 <= k < |path| - 1 ==> path[k + 1] < path[k]
  }

  /** Following the chain operand from any mix variable, the returned one included, goes strictly
      down and ends at the one `True`. */
  lemma {:induction false} ChainEndsAtTrue(ops: seq<Op>, taps: nat, i: nat)
    requires Accepted(ops, taps) && CountKind(ops, KTrue) == 1 && i < MixCount(ops)
    ensures |MixOps(ops)| == MixCount(ops) && AllLinkBack(MixOps(ops)) && MixOps(ops)[0].True?
    ensures var path := ChainFrom(MixOps(ops), i);
            |path| > 0 && path[0] == i && path[|path| - 1] == 0 && StrictlyDown(path)
    decreases i
  {
    FirstMixIsUniqueTrue(ops, taps);
    var mixes := MixOps(ops);
    assert LinksBack(mixes[i], i);
    if !mixes[i].True? {
      ChainEndsAtTrue(ops, taps, mixes[i].chain);
      var rest := ChainFrom(mixes, mixes[i].chain);
      var path := [i] + rest;
      forall k | 0 <= k < |path| - 1 ensures path[k + 1] < path[k] {
        if k > 0 { assert path[k] == rest[k - 1] && path[k + 1] == rest[k]; }
      }
    }
  }
}
