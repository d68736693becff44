/** The tap table: `validate_taps` accepts exactly the tables that list every register once, in
    column order, each as one run of its back list, with one distinct back list per combo. */
module TapTable {
  import opened Codes
  import opened Wrappers
  import opened Words

  datatype Tap = Tap(group: uint8, offset: uint8, back: uint8, combo: uint8, skip: uint8)

  type GroupSizes = s: seq<uint8> | |s| == 3 witness [0, 0, 0]

  datatype TapDataSet = TapDataSet(
    groupSizes: GroupSizes, combosCount: uint8, totalComboBacks: uint8, records: seq<Tap>)

  // ---------- What a table means ----------

  type Backs = s: seq<uint8> | 0 < |s| <= U8_MAX witness [0]

  datatype Register = Register(group: uint8, offset: uint8, combo: uint8, backs: Backs)

  /** The skip run of one register. */
  function RunOf(reg: Register): (run: seq<Tap>)
    ensures |run| == |reg.backs|
  {
    seq(|reg.backs|, i requires 0 <= i < |reg.backs| =>
      Tap(reg.group, reg.offset, reg.backs[i], reg.combo, |reg.backs|))
  }

  /** Every column of every group, in order. */
  function Columns(sizes: GroupSizes): (c: seq<(uint8, uint8)>)
    ensures |c| == sizes[0] as int + sizes[1] as int + sizes[2] as int
  {
    GroupColumns(0, sizes[0]) + GroupColumns(1, sizes[1]) + GroupColumns(2, sizes[2])
  }

  function GroupColumns(group: uint8, size: uint8): (c: seq<(uint8, uint8)>)
    ensures |c| == size
  {
    seq(size, o requires 0 <= o < size => (group, o))
  }

  predicate StrictlyIncreasing(backs: seq<uint8>) {
    forall i, j :: 0 <= i < j < |backs| ==> backs[i] < backs[j]
  }

  function TotalBacks(shapes: seq<seq<uint8>>): nat {
    if shapes == [] then 0 else TotalBacks(shapes[..|shapes| - 1]) + |shapes[|shapes| - 1]|
  }

  ghost predicate HasShape(reg: Register, shapes: seq<seq<uint8>>) {
    reg.combo < |shapes| && reg.backs == shapes[reg.combo] && StrictlyIncreasing(reg.backs)
  }

  ghost predicate ComboUsed(regs: seq<Register>, combo: int) {
    exists k :: 0 <= k < |regs| && regs[k].combo == combo
  }

  ghost predicate InColumns(regs: seq<Register>, columns: seq<(uint8, uint8)>) {
    |regs| <= |columns| && forall k :: 0 <= k < |regs| ==> (regs[k].group, regs[k].offset) == columns[k]
  }

  ghost predicate Distinct(shapes: seq<seq<uint8>>) {
    forall c, d :: 0 <= c < d < |shapes| ==> shapes[c] != shapes[d]
  }

  /** `regs` are the registers of the table and `shapes` the back list of each combo. */
  ghost predicate TableOf(t: TapDataSet, regs: seq<Register>, shapes: seq<seq<uint8>>) {
    && t.records == FlatMap(regs, RunOf)
    && InColumns(regs, Columns(t.groupSizes)) && |regs| == |Columns(t.groupSizes)|
    && |shapes| == t.combosCount
    && (forall k :: 0 <= k < |regs| ==> HasShape(regs[k], shapes))
    && (forall c :: 0 <= c < |shapes| ==> ComboUsed(regs, c))
    && Distinct(shapes)
    && TotalBacks(shapes) == t.totalComboBacks
  }

  ghost predicate CanonicalTaps(t: TapDataSet) {
    exists regs, shapes :: TableOf(t, regs, shapes)
  }

  // ---------- The walk ----------

  datatype TapError =
    | OutOfRange | RegisterOverrun | TooManyRegisters | RegisterOrder | ShapeChange
    | BacksNotIncreasing | ComboDisagrees | RegisterMissing | ComboMissing | CombosEqual | BackCount

  predicate InRange(t: TapDataSet, tap: Tap) {
    tap.group < |t.groupSizes| && tap.offset < t.groupSizes[tap.group] && tap.combo < t.combosCount && tap.skip > 0
  }

  ghost predicate AllInRange(t: TapDataSet) {
    forall i :: 0 <= i < |t.records| ==> InRange(t, t.records[i])
  }

  /** `reg` could be the next register: a strictly increasing run in the next expected column. */
  ghost predicate Fits(reg: Register, columns: seq<(uint8, uint8)>, next: nat) {
    StrictlyIncreasing(reg.backs) && next < |columns| && (reg.group, reg.offset) == columns[next]
  }

  /** One turn of the walk up to the combo table: the register that starts at `position`, or a reason
      why none that fits starts there. */
  method WalkRegister(records: seq<Tap>, columns: seq<(uint8, uint8)>, position: nat, next: nat)
    returns (r: Result<Register, TapError>)
    requires position < |records| && records[position].skip > 0 && next <= |columns|
    ensures r.Ok? ==>
              && position + |r.value.backs| <= |records|
              && records[position..position + |r.value.backs|] == RunOf(r.value)
              && Fits(r.value, columns, next)
              && r.value.combo == records[position].combo
    ensures r.Err? ==> forall reg: Register :: RunOf(reg) <= records[position..] ==> !Fits(reg, columns, next)
  {
    var head := records[position];
    var end := position + head.skip;
    RunsAgree(records, position, 0);
    if end > |records| {
      return Err(RegisterOverrun);
    }
    if next == |columns| {
      return Err(TooManyRegisters);
    }
    if (head.group, head.offset) != columns[next] {
      return Err(RegisterOrder);
    }
    var backs: seq<uint8> := [];
    for i := position to end
      invariant |backs| == i - position
      invariant forall k :: 0 <= k < |backs| ==>
          records[position + k] == Tap(head.group, head.offset, backs[k], head.combo, head.skip)
      invariant StrictlyIncreasing(backs)
    {
      var tap := records[i];
      if !(tap.group == head.group && tap.offset == head.offset && tap.combo == head.combo && tap.skip == head.skip) {
        RunsAgree(records, position, i - position);
        return Err(ShapeChange);
      }
      if |backs| > 0 && tap.back <= backs[|backs| - 1] {
        RunsAgree(records, position, i - position);
        return Err(BacksNotIncreasing);
      }
      backs := backs + [tap.back];
    }
    var reg := Register(head.group, head.offset, head.combo, backs);
    assert records[position..end] == RunOf(reg);
    return Ok(reg);
  }

  /** A run starting at `position` has the head's skip as its length and the head's shape throughout. */
  lemma RunsAgree(records: seq<Tap>, position: nat, k: nat)
    requires position < |records| && k < records[position].skip && position + k < |records|
    ensures forall reg: Register :: RunOf(reg) <= records[position..] ==>
              && |reg.backs| == records[position].skip
              && (reg.group, reg.offset) == (records[position].group, records[position].offset)
              && records[position + k]
                 == Tap(records[position].group, records[position].offset, reg.backs[k], records[position].combo,
                        records[position].skip)
              && (k > 0 ==> reg.backs[k - 1] == records[position + k - 1].back)
  {
    forall reg: Register | RunOf(reg) <= records[position..]
      ensures
        && |reg.backs| == records[position].skip
        && (reg.group, reg.offset) == (records[position].group, records[position].offset)
        && records[position + k]
           == Tap(records[position].group, records[position].offset, reg.backs[k], records[position].combo,
                  records[position].skip)
        && (k > 0 ==> reg.backs[k - 1] == records[position + k - 1].back)
    {
      assert RunOf(reg)[0] == records[position..][0];
      assert RunOf(reg)[k] == records[position..][k];
      if k > 0 { assert RunOf(reg)[k - 1] == records[position..][k - 1]; }
    }
  }

  /** Two registers whose runs start at the same place are the same register. */
  lemma SameRun(a: Register, b: Register, s: seq<Tap>)
    requires RunOf(a) <= s && RunOf(b) <= s
    ensures a == b
  {
    assert RunOf(a)[0] == s[0] == RunOf(b)[0];
    forall i | 0 <= i < |a.backs| ensures a.backs[i] == b.backs[i] {
      assert RunOf(a)[i] == s[i] == RunOf(b)[i];
    }
    assert a.backs == b.backs;
  }

  /** The state of the walk: the registers read so far, and the shape recorded for each combo. */
  ghost predicate Walked(t: TapDataSet, position: nat, regs: seq<Register>, shapes: seq<Option<seq<uint8>>>) {
    && position <= |t.records| && t.records[..position] == FlatMap(regs, RunOf)
    && InColumns(regs, Columns(t.groupSizes))
    && |shapes| == t.combosCount
    && (forall k :: 0 <= k < |regs| ==>
          regs[k].combo < |shapes| && shapes[regs[k].combo] == Some(regs[k].backs) && StrictlyIncreasing(regs[k].backs))
    && (forall c :: 0 <= c < |shapes| && shapes[c].Some? ==> ComboUsed(regs, c))
  }

  /** What the walk meets next, when the table has the registers `regs`. */
  lemma NextRun(t: TapDataSet, regs: seq<Register>, shapes: seq<seq<uint8>>, n: nat, position: nat)
    requires TableOf(t, regs, shapes) && n <= |regs|
    requires position <= |t.records| && t.records[..position] == FlatMap(regs[..n], RunOf)
    ensures position < |t.records| <==> n < |regs|
    ensures n < |regs| ==> RunOf(regs[n]) <= t.records[position..]
  {
    FlatMapSplit(regs, RunOf, n);
    assert t.records[position..] == FlatMap(regs[n..], RunOf);
  }

  lemma TableInRange(t: TapDataSet, regs: seq<Register>, shapes: seq<seq<uint8>>)
    requires TableOf(t, regs, shapes)
    ensures AllInRange(t)
  {
    forall i | 0 <= i < |t.records| ensures InRange(t, t.records[i]) {
      var k, j := FindRun(regs, i);
      assert HasShape(regs[k], shapes);
      var column := Columns(t.groupSizes)[k];
      assert column == (regs[k].group, regs[k].offset);
    }
  }

  /** Every index of a flattened table lies in the run of one register. */
  lemma {:induction false} FindRun(regs: seq<Register>, i: nat) returns (k: nat, j: nat)
    requires i < |FlatMap(regs, RunOf)|
    ensures k < |regs| && j < |regs[k].backs|
    ensures i == |FlatMap(regs[..k], RunOf)| + j
    ensures FlatMap(regs, RunOf)[i] == RunOf(regs[k])[j]
  {
    if i < |RunOf(regs[0])| {
      k, j := 0, i;
    } else {
      k, j := FindRun(regs[1..], i - |RunOf(regs[0])|);
      k := k + 1;
      assert regs[..k] == [regs[0]] + regs[1..][..k - 1];
      assert regs[..k][1..] == regs[1..][..k - 1];
    }
  }

  lemma WalkedStep(t: TapDataSet, position: nat, regs: seq<Register>, shapes: seq<Option<seq<uint8>>>, reg: Register)
    requires Walked(t, position, regs, shapes)
    requires position + |reg.backs| <= |t.records|
    requires t.records[position..position + |reg.backs|] == RunOf(reg)
    requires reg.combo < |shapes| && Fits(reg, Columns(t.groupSizes), |regs|)
    requires shapes[reg.combo].None? || shapes[reg.combo] == Some(reg.backs)
    ensures Walked(t, position + |reg.backs|, regs + [reg], shapes[reg.combo := Some(reg.backs)])
  {
    FlatMapSnoc(regs, reg, RunOf);
    assert t.records[..position + |reg.backs|]
        == t.records[..position] + t.records[position..position + |reg.backs|];
    var regs', shapes' := regs + [reg], shapes[reg.combo := Some(reg.backs)];
    forall k | 0 <= k < |regs'|
      ensures regs'[k].combo < |shapes'| && shapes'[regs'[k].combo] == Some(regs'[k].backs)
              && StrictlyIncreasing(regs'[k].backs)
    {
      if k < |regs| { assert regs'[k] == regs[k]; }
    }
    forall c | 0 <= c < |shapes'| && shapes'[c].Some? ensures ComboUsed(regs', c) {
      if c == reg.combo {
        assert regs'[|regs|].combo == c;
      } else {
        assert ComboUsed(regs, c);
        var k :| 0 <= k < |regs| && regs[k].combo == c;
        assert regs'[k].combo == c;
      }
    }
  }

  lemma OnlyRun(reg: Register, records: seq<Tap>)
    requires RunOf(reg) <= records
    ensures forall other: Register :: RunOf(other) <= records ==> other == reg
  {
    forall other: Register | RunOf(other) <= records ensures other == reg {
      SameRun(other, reg, records);
    }
  }

  /** The table's own next register is never rejected, and is the one the walk reads. */
  lemma CanonicalStep(t: TapDataSet, wRegs: seq<Register>, wShapes: seq<seq<uint8>>, position: nat, next: nat,
                      shapes: seq<Option<seq<uint8>>>)
    requires TableOf(t, wRegs, wShapes) && next <= |wRegs| && position < |t.records|
    requires Walked(t, position, wRegs[..next], shapes)
    ensures next < |wRegs| && RunOf(wRegs[next]) <= t.records[position..]
    ensures Fits(wRegs[next], Columns(t.groupSizes), next)
    ensures forall reg: Register :: RunOf(reg) <= t.records[position..] ==> reg == wRegs[next]
    ensures wRegs[next].combo < |shapes|
    ensures shapes[wRegs[next].combo].None? || shapes[wRegs[next].combo] == Some(wRegs[next].backs)
    ensures wRegs[..next + 1] == wRegs[..next] + [wRegs[next]]
  {
    NextRun(t, wRegs, wShapes, next, position);
    var reg := wRegs[next];
    assert HasShape(reg, wShapes);
    OnlyRun(reg, t.records[position..]);
    if shapes[reg.combo].Some? {
      assert ComboUsed(wRegs[..next], reg.combo);
      var k :| 0 <= k < next && wRegs[..next][k].combo == reg.combo;
      assert HasShape(wRegs[k], wShapes);
    }
  }

  /** The first loop: every record in range. */
  method CheckRanges(t: TapDataSet) returns (ok: bool)
    ensures ok <==> AllInRange(t)
  {
    for i := 0 to |t.records|
      invariant forall j :: 0 <= j < i ==> InRange(t, t.records[j])
    {
      if !InRange(t, t.records[i]) {
        return false;
      }
    }
    return true;
  }

  /** One turn of the walk: a register that fits and agrees with its combo's recorded shape, or a reason
      why no register that starts here does. */
  method WalkStep(t: TapDataSet, columns: seq<(uint8, uint8)>, position: nat, next: nat,
                  comboShapes: seq<Option<seq<uint8>>>, ghost regs: seq<Register>)
    returns (r: Result<Register, TapError>)
    requires Walked(t, position, regs, comboShapes) && position < |t.records| && InRange(t, t.records[position])
    requires columns == Columns(t.groupSizes) && next == |regs|
    ensures r.Ok? ==>
              && position + |r.value.backs| <= |t.records| && r.value.combo < |comboShapes|
              && RunOf(r.value) <= t.records[position..]
              && Walked(t, position + |r.value.backs|, regs + [r.value],
                        comboShapes[r.value.combo := Some(r.value.backs)])
    ensures r.Err? ==>
              forall reg: Register :: RunOf(reg) <= t.records[position..] ==>
                !Fits(reg, columns, next) || reg.combo >= |comboShapes|
                || (comboShapes[reg.combo].Some? && comboShapes[reg.combo] != Some(reg.backs))
  {
    var reg :- WalkRegister(t.records, columns, position, next);
    assert RunOf(reg) == t.records[position..][..|reg.backs|];
    if comboShapes[reg.combo].Some? && comboShapes[reg.combo].value != reg.backs {
      forall other: Register | RunOf(other) <= t.records[position..] ensures other == reg {
        SameRun(other, reg, t.records[position..]);
      }
      return Err(ComboDisagrees);
    }
    WalkedStep(t, position, regs, comboShapes, reg);
    return Ok(reg);
  }

  /** The walk over the whole table. When the table is canonical, `wRegs` and `wShapes` are its reading,
      and the walk finds exactly that. */
  method WalkTable(t: TapDataSet, ghost canonical: bool, ghost wRegs: seq<Register>, ghost wShapes: seq<seq<uint8>>)
    returns (r: Result<seq<Option<seq<uint8>>>, TapError>, ghost regs: seq<Register>)
    requires AllInRange(t)
    requires canonical ==> TableOf(t, wRegs, wShapes)
    ensures r.Ok? ==> Walked(t, |t.records|, regs, r.value) && |regs| == |Columns(t.groupSizes)|
    ensures canonical ==> r.Ok? && regs == wRegs
  {
    var columns := Columns(t.groupSizes);
    var position, next := 0, 0;
    var comboShapes: seq<Option<seq<uint8>>> := seq(t.combosCount, _ => None);
    regs := [];
    while position < |t.records|
      invariant Walked(t, position, regs, comboShapes) && |regs| == next
      invariant canonical ==> next <= |wRegs| && regs == wRegs[..next]
    {
      if canonical {
        CanonicalStep(t, wRegs, wShapes, position, next, comboShapes);
      }
      assert InRange(t, t.records[position]);
      var step := WalkStep(t, columns, position, next, comboShapes, regs);
      if step.Err? {
        return Err(step.error), regs;
      }
      var reg := step.value;
      comboShapes := comboShapes[reg.combo := Some(reg.backs)];
      regs := regs + [reg];
      position, next := position + |reg.backs|, next + 1;
    }
    if canonical {
      NextRun(t, wRegs, wShapes, next, position);
      assert wRegs[..next] == wRegs;
    }
    if next < |columns| {
      return Err(RegisterMissing), regs;
    }
    return Ok(comboShapes), regs;
  }

  /** `validate_taps`: the range checks, the walk, and the checks on the combo shapes. It accepts exactly
      the canonical tables. */
  method ValidateTaps(t: TapDataSet) returns (r: Result<(), TapError>)
    ensures r.Ok? <==> CanonicalTaps(t)
  {
    ghost var canonical := CanonicalTaps(t);
    ghost var wRegs: seq<Register>, wShapes: seq<seq<uint8>> := [], [];
    if canonical {
      wRegs, wShapes :| TableOf(t, wRegs, wShapes);
      TableInRange(t, wRegs, wShapes);
    }
    var inRange := CheckRanges(t);
    if !inRange {
      return Err(OutOfRange);
    }
    var walk, regs := WalkTable(t, canonical, wRegs, wShapes);
    if walk.Err? {
      return Err(walk.error);
    }
    var comboShapes := walk.value;
    if canonical {
      ShapesAre(t, comboShapes, regs, wShapes);
    }
    var present := CombosPresent(comboShapes);
    if !present {
      return Err(ComboMissing);
    }
    var distinct := CombosDistinct(comboShapes);
    if !distinct {
      return Err(CombosEqual);
    }
    var total := CountBacks(comboShapes);
    if total != t.totalComboBacks {
      return Err(BackCount);
    }
    ShapesGiveTable(t, comboShapes, regs);
    return Ok(());
  }

  ghost predicate AllSome(shapes: seq<Option<seq<uint8>>>) {
    forall c :: 0 <= c < |shapes| ==> shapes[c].Some?
  }

  ghost function Values(shapes: seq<Option<seq<uint8>>>): (v: seq<seq<uint8>>)
    requires AllSome(shapes)
    ensures |v| == |shapes|
  {
    seq(|shapes|, c requires 0 <= c < |shapes| => shapes[c].value)
  }

  lemma ShapesAre(t: TapDataSet, comboShapes: seq<Option<seq<uint8>>>, regs: seq<Register>, wShapes: seq<seq<uint8>>)
    requires Walked(t, |t.records|, regs, comboShapes) && TableOf(t, regs, wShapes)
    ensures AllSome(comboShapes) && Values(comboShapes) == wShapes
  {
    forall c | 0 <= c < |comboShapes| ensures comboShapes[c] == Some(wShapes[c]) {
      assert ComboUsed(regs, c);
      var k :| 0 <= k < |regs| && regs[k].combo == c;
      assert HasShape(regs[k], wShapes);
    }
  }

  lemma ShapesGiveTable(t: TapDataSet, comboShapes: seq<Option<seq<uint8>>>, regs: seq<Register>)
    requires Walked(t, |t.records|, regs, comboShapes) && |regs| == |Columns(t.groupSizes)|
    requires AllSome(comboShapes) && Distinct(Values(comboShapes))
    requires TotalBacks(Values(comboShapes)) == t.totalComboBacks
    ensures CanonicalTaps(t)
  {
    assert t.records[..|t.records|] == t.records;
    var shapes := Values(comboShapes);
    forall k | 0 <= k < |regs| ensures HasShape(regs[k], shapes) {}
    assert TableOf(t, regs, shapes);
  }

  method CombosPresent(comboShapes: seq<Option<seq<uint8>>>) returns (ok: bool)
    ensures ok <==> AllSome(comboShapes)
  {
    for c := 0 to |comboShapes|
      invariant forall d :: 0 <= d < c ==> comboShapes[d].Some?
    {
      if comboShapes[c].None? {
        return false;
      }
    }
    return true;
  }

  method CombosDistinct(comboShapes: seq<Option<seq<uint8>>>) returns (ok: bool)
    requires AllSome(comboShapes)
    ensures ok <==> Distinct(Values(comboShapes))
  {
    ghost var shapes := Values(comboShapes);
    for right := 0 to |comboShapes|
      invariant forall c, d :: 0 <= c < d < right ==> shapes[c] != shapes[d]
    {
      for left := 0 to right
        invariant forall c :: 0 <= c < left ==> shapes[c] != shapes[right]
      {
        if comboShapes[left] == comboShapes[right] {
          assert shapes[left] == shapes[right];
          return false;
        }
      }
    }
    return true;
  }

  method CountBacks(comboShapes: seq<Option<seq<uint8>>>) returns (total: nat)
    requires AllSome(comboShapes)
    ensures total == TotalBacks(Values(comboShapes))
  {
    ghost var shapes := Values(comboShapes);
    total := 0;
    for c := 0 to |comboShapes|
      invariant total == TotalBacks(shapes[..c])
    {
      assert shapes[..c + 1][..c] == shapes[..c];
      total := total + |comboShapes[c].value|;
    }
    assert shapes[..|shapes|] == shapes;
  }

  // ---------- What acceptance means ----------

  function RunStart(regs: seq<Register>, k: nat): nat
    requires k <= |regs|
  {
    |FlatMap(regs[..k], RunOf)|
  }

  lemma {:induction false} RunStarts(regs: seq<Register>, k: nat, l: nat)
    requires k <= l <= |regs|
    ensures RunStart(regs, k) <= RunStart(regs, l)
    ensures k < l ==> RunStart(regs, k) + |regs[k].backs| <= RunStart(regs, l)
    ensures l == k + 1 ==> RunStart(regs, l) == RunStart(regs, k) + |regs[k].backs|
    decreases l - k
  {
    if k < l {
      FlatMapSplit(regs, RunOf, k);
      RunStarts(regs, k + 1, l);
    }
  }

  /** The skip runs partition the table: a record belongs to the register of column `k` exactly when its
      index lies in run `k`, whose length is the record's own skip. So each register is one maximal run. */
  lemma RunsPartitionTable(t: TapDataSet, regs: seq<Register>, shapes: seq<seq<uint8>>, i: nat, k: nat)
    requires TableOf(t, regs, shapes) && i < |t.records| && k < |regs|
    ensures RunStart(regs, k + 1) == RunStart(regs, k) + |regs[k].backs|
    ensures (t.records[i].group, t.records[i].offset) == Columns(t.groupSizes)[k]
       <==> RunStart(regs, k) <= i < RunStart(regs, k + 1)
    ensures RunStart(regs, k) <= i < RunStart(regs, k + 1) ==>
              && t.records[i].skip == |regs[k].backs|
              && t.records[i].back == regs[k].backs[i - RunStart(regs, k)]
  {
    var r, j := FindRun(regs, i);
    RunStarts(regs, k, k + 1);
    RunStarts(regs, r, r + 1);
    if r < k { RunStarts(regs, r, k); } else { RunStarts(regs, k, r); }
    ColumnsIncrease(t.groupSizes, if r < k then r else k, if r < k then k else r);
  }

  predicate ColumnLess(a: (uint8, uint8), b: (uint8, uint8)) {
    a.0 < b.0 || (a.0 == b.0 && a.1 < b.1)
  }

  lemma ColumnsIncrease(sizes: GroupSizes, k: nat, l: nat)
    requires k <= l < |Columns(sizes)|
    ensures k < l ==> ColumnLess(Columns(sizes)[k], Columns(sizes)[l])
  {
  }

  predicate TapLess(a: Tap, b: Tap) {
    a.group < b.group || (a.group == b.group && (a.offset < b.offset || (a.offset == b.offset && a.back < b.back)))
  }

  /** An accepted table is strictly increasing in (group, offset, back). */
  lemma RecordsStrictlyIncrease(t: TapDataSet, i: nat, j: nat)
    requires CanonicalTaps(t) && i < j < |t.records|
    ensures TapLess(t.records[i], t.records[j])
  {
    var regs, shapes :| TableOf(t, regs, shapes);
    var k, a := FindRun(regs, i);
    var l, b := FindRun(regs, j);
    if k < l {
      ColumnsIncrease(t.groupSizes, k, l);
    } else if k == l {
      assert HasShape(regs[k], shapes);
    } else {
      RunStarts(regs, l, k);
    }
  }

  /** Two registers have equal back lists exactly when they share a combo. */
  lemma SameBacksIffSameCombo(t: TapDataSet, regs: seq<Register>, shapes: seq<seq<uint8>>, k: nat, l: nat)
    requires TableOf(t, regs, shapes) && k < |regs| && l < |regs|
    ensures regs[k].backs == regs[l].backs <==> regs[k].combo == regs[l].combo
  {
    assert HasShape(regs[k], shapes) && HasShape(regs[l], shapes);
  }

  /** An accepted table has one reading: its registers and its combo shapes are determined. */
  lemma OneReading(t: TapDataSet, regs: seq<Register>, shapes: seq<seq<uint8>>,
                   regs': seq<Register>, shapes': seq<seq<uint8>>)
    requires TableOf(t, regs, shapes) && TableOf(t, regs', shapes')
    ensures regs == regs' && shapes == shapes'
  {
    RunsArePrefixCode();
    UniquelyDecodable(regs, regs', RunOf);
    forall c | 0 <= c < |shapes| ensures shapes[c] == shapes'[c] {
      assert ComboUsed(regs, c);
      var k :| 0 <= k < |regs| && regs[k].combo == c;
      assert HasShape(regs[k], shapes) && HasShape(regs'[k], shapes');
    }
  }

  lemma RunsArePrefixCode()
    ensures PrefixCode(RunOf)
  {
    forall a, b | RunOf(a) <= RunOf(b) ensures a == b {
      SameRun(a, b, RunOf(b));
    }
  }
}
