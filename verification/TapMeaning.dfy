/** The canonical tap tables record by record, without registers, runs or shapes. */
module TapMeaning {
  import opened Codes
  import opened Words
  import opened TapTable

  /** The records of one column. */
  ghost function Rows(t: TapDataSet, group: int, offset: int): set<int> {
    set i | 0 <= i < |t.records| && t.records[i].group == group && t.records[i].offset == offset
  }

  ghost function BacksAt(t: TapDataSet, group: int, offset: int): set<int> {
    set i | i in Rows(t, group, offset) :: t.records[i].back as int
  }

  /** The different pairs of a combo and a back. */
  ghost function Pairs(t: TapDataSet): set<(int, int)> {
    set i | 0 <= i < |t.records| :: (t.records[i].combo as int, t.records[i].back as int)
  }

  /** Every record names a column and a combo that exist. */
  ghost predicate Placed(t: TapDataSet) {
    forall i :: 0 <= i < |t.records| ==>
      && t.records[i].group < 3 && t.records[i].offset < t.groupSizes[t.records[i].group]
      && t.records[i].combo < t.combosCount
  }

  /** The records increase strictly by group, offset and back. */
  ghost predicate Ordered(t: TapDataSet) {
    forall i, j :: 0 <= i < j < |t.records| ==>
      var (a, b) := (t.records[i], t.records[j]);
      a.group < b.group || (a.group == b.group && (a.offset < b.offset || (a.offset == b.offset && a.back < b.back)))
  }

  /** Every column and every combo has a record. */
  ghost predicate Covered(t: TapDataSet) {
    && (forall group, offset :: 0 <= group < 3 && 0 <= offset < t.groupSizes[group] ==> Rows(t, group, offset) != {})
    && (forall combo :: 0 <= combo < t.combosCount ==> HasCombo(t, combo))
  }

  ghost predicate HasCombo(t: TapDataSet, combo: int) {
    exists i :: 0 <= i < |t.records| && t.records[i].combo == combo
  }

  /** The skip of a record counts its column, and two records have one combo exactly when their columns have the same
      backs. */
  ghost predicate Grouped(t: TapDataSet) {
    && (forall i :: 0 <= i < |t.records| ==>
          t.records[i].skip as int == |Rows(t, t.records[i].group, t.records[i].offset)|)
    && (forall i, j :: 0 <= i < |t.records| && 0 <= j < |t.records| ==>
          var (a, b) := (t.records[i], t.records[j]);
          (a.combo == b.combo <==> BacksAt(t, a.group, a.offset) == BacksAt(t, b.group, b.offset)))
  }

  ghost predicate WellTapped(t: TapDataSet) {
    Placed(t) && Ordered(t) && Covered(t) && Grouped(t) && |Pairs(t)| == t.totalComboBacks as int
  }

  // ---------- A canonical table is well tapped ----------

  ghost function Interval(a: int, b: int): (s: set<int>)
    requires a <= b
    ensures forall i :: i in s <==> a <= i < b
    ensures |s| == b - a
    decreases b - a
  {
    if a == b then {} else Interval(a, b - 1) + {b - 1}
  }

  /** A register's rows are its run. */
  lemma RowsAreRun(t: TapDataSet, regs: seq<Register>, shapes: seq<seq<uint8>>, k: nat)
    requires TableOf(t, regs, shapes) && k < |regs|
    ensures RunStart(regs, k) + |regs[k].backs| <= |t.records|
    ensures Rows(t, regs[k].group, regs[k].offset)
         == Interval(RunStart(regs, k), RunStart(regs, k) + |regs[k].backs|)
  {
    RunStarts(regs, k, |regs|);
    assert regs[..|regs|] == regs;
    forall i | 0 <= i < |t.records|
      ensures i in Rows(t, regs[k].group, regs[k].offset)
         <==> RunStart(regs, k) <= i < RunStart(regs, k) + |regs[k].backs|
    {
      RunsPartitionTable(t, regs, shapes, i, k);
    }
  }

  lemma RunIs(t: TapDataSet, regs: seq<Register>, k: nat, j: nat)
    requires t.records == FlatMap(regs, RunOf) && k < |regs| && j < |regs[k].backs|
    ensures RunStart(regs, k) + j < |t.records|
    ensures t.records[RunStart(regs, k) + j]
         == Tap(regs[k].group, regs[k].offset, regs[k].backs[j], regs[k].combo, |regs[k].backs|)
  {
    FlatMapSplit(regs, RunOf, k);
    InMiddle(FlatMap(regs[..k], RunOf), RunOf(regs[k]), FlatMap(regs[k + 1..], RunOf), j);
  }

  lemma InMiddle<T>(a: seq<T>, b: seq<T>, c: seq<T>, j: nat)
    requires j < |b|
    ensures (a + (b + c))[|a| + j] == b[j]
  {
  }

  ghost function Elements(s: seq<uint8>): set<int> {
    set j | 0 <= j < |s| :: s[j] as int
  }

  lemma BacksAreElements(t: TapDataSet, regs: seq<Register>, shapes: seq<seq<uint8>>, k: nat)
    requires TableOf(t, regs, shapes) && k < |regs|
    ensures BacksAt(t, regs[k].group, regs[k].offset) == Elements(regs[k].backs)
  {
    RowsAreRun(t, regs, shapes, k);
    var (start, backs) := (RunStart(regs, k), regs[k].backs);
    forall j | 0 <= j < |backs| ensures backs[j] as int in BacksAt(t, regs[k].group, regs[k].offset) {
      RunIs(t, regs, k, j);
      assert start + j in Rows(t, regs[k].group, regs[k].offset);
    }
    forall i | i in Rows(t, regs[k].group, regs[k].offset) ensures t.records[i].back as int in Elements(backs) {
      RunIs(t, regs, k, i - start);
    }
  }

  /** A strictly increasing list is determined by its elements. */
  lemma {:induction false} SameElements(a: seq<uint8>, b: seq<uint8>)
    requires StrictlyIncreasing(a) && StrictlyIncreasing(b) && Elements(a) == Elements(b)
    ensures a == b
    decreases |a|
  {
    if a != [] && b != [] {
      var (front, other) := (a[..|a| - 1], b[..|b| - 1]);
      LastIsLargest(a);
      LastIsLargest(b);
      SameElements(front, other);
    } else {
      EmptyElements(a);
      EmptyElements(b);
    }
  }

  lemma EmptyElements(s: seq<uint8>)
    ensures s == [] <==> Elements(s) == {}
  {
    if s != [] { assert s[0] as int in Elements(s); }
  }

  lemma LastIsLargest(s: seq<uint8>)
    requires StrictlyIncreasing(s) && s != []
    ensures var last := s[|s| - 1];
            && last as int in Elements(s) && (forall x :: x in Elements(s) ==> x <= last as int)
            && Elements(s[..|s| - 1]) == Elements(s) - {last as int}
  {
    var (front, last) := (s[..|s| - 1], s[|s| - 1]);
    assert s[|s| - 1] as int in Elements(s);
    forall j | 0 <= j < |front| ensures front[j] as int in Elements(s) && front[j] < last {
      assert front[j] == s[j];
    }
    forall x | x in Elements(s) && x != last as int ensures x in Elements(front) {
      var j :| 0 <= j < |s| && s[j] as int == x;
      assert front[j] == s[j];
    }
  }

  ghost function PairsOf(c: int, s: seq<uint8>): (p: set<(int, int)>)
    ensures forall a, b :: (a, b) in p <==> a == c && b in Elements(s)
  {
    set x | x in Elements(s) :: (c, x)
  }

  lemma {:induction false} PairsOfSize(c: int, s: seq<uint8>)
    requires StrictlyIncreasing(s)
    ensures |PairsOf(c, s)| == |s|
    decreases |s|
  {
    if s == [] {
      EmptyElements(s);
      assert PairsOf(c, s) == {};
    } else {
      var (front, last) := (s[..|s| - 1], s[|s| - 1] as int);
      LastIsLargest(s);
      PairsOfSize(c, front);
      assert PairsOf(c, s) == PairsOf(c, front) + {(c, last)};
    }
  }

  ghost function ShapePairs(shapes: seq<seq<uint8>>): (p: set<(int, int)>)
    ensures forall a, b :: (a, b) in p <==> 0 <= a < |shapes| && b in Elements(shapes[a])
  {
    if shapes == [] then {}
    else
      var n := |shapes| - 1;
      assert forall a :: 0 <= a < n ==> shapes[..n][a] == shapes[a];
      ShapePairs(shapes[..n]) + PairsOf(n, shapes[n])
  }

  lemma {:induction false} ShapePairsSize(shapes: seq<seq<uint8>>)
    requires forall c :: 0 <= c < |shapes| ==> StrictlyIncreasing(shapes[c])
    ensures |ShapePairs(shapes)| == TotalBacks(shapes)
    decreases |shapes|
  {
    if shapes != [] {
      var n := |shapes| - 1;
      ShapePairsSize(shapes[..n]);
      PairsOfSize(n, shapes[n]);
      assert ShapePairs(shapes[..n]) !! PairsOf(n, shapes[n]);
    }
  }

  /** Every shape is the back list of a register. */
  lemma ShapeUser(regs: seq<Register>, shapes: seq<seq<uint8>>, c: int) returns (k: nat)
    requires forall k :: 0 <= k < |regs| ==> HasShape(regs[k], shapes)
    requires 0 <= c < |shapes| && ComboUsed(regs, c)
    ensures k < |regs| && regs[k].combo == c && regs[k].backs == shapes[c] && StrictlyIncreasing(shapes[c])
  {
    k :| 0 <= k < |regs| && regs[k].combo == c;
    assert HasShape(regs[k], shapes);
  }

  lemma ShapeInPairs(t: TapDataSet, regs: seq<Register>, shapes: seq<seq<uint8>>, c: int, j: nat)
    requires t.records == FlatMap(regs, RunOf)
    requires forall k :: 0 <= k < |regs| ==> HasShape(regs[k], shapes)
    requires 0 <= c < |shapes| && ComboUsed(regs, c) && j < |shapes[c]|
    ensures (c, shapes[c][j] as int) in Pairs(t)
  {
    var k := ShapeUser(regs, shapes, c);
    RunIs(t, regs, k, j);
    var i := RunStart(regs, k) + j;
    assert (t.records[i].combo as int, t.records[i].back as int) == (c, shapes[c][j] as int);
  }

  lemma {:induction false} PairInShapes(t: TapDataSet, regs: seq<Register>, shapes: seq<seq<uint8>>, i: nat)
    requires t.records == FlatMap(regs, RunOf) && i < |t.records|
    requires forall k :: 0 <= k < |regs| ==> HasShape(regs[k], shapes)
    ensures (t.records[i].combo as int, t.records[i].back as int) in ShapePairs(shapes)
  {
    var k, j := FindRun(regs, i);
    assert HasShape(regs[k], shapes);
  }

  /** The pairs of a table are those of its shapes. */
  lemma PairsAreShapes(t: TapDataSet, regs: seq<Register>, shapes: seq<seq<uint8>>)
    requires t.records == FlatMap(regs, RunOf)
    requires forall k :: 0 <= k < |regs| ==> HasShape(regs[k], shapes)
    requires forall c :: 0 <= c < |shapes| ==> ComboUsed(regs, c)
    ensures Pairs(t) == ShapePairs(shapes) && |Pairs(t)| == TotalBacks(shapes)
  {
    forall i | 0 <= i < |t.records|
      ensures (t.records[i].combo as int, t.records[i].back as int) in ShapePairs(shapes)
    {
      PairInShapes(t, regs, shapes, i);
    }
    forall p | p in ShapePairs(shapes) ensures p in Pairs(t) {
      var j :| 0 <= j < |shapes[p.0]| && shapes[p.0][j] as int == p.1;
      ShapeInPairs(t, regs, shapes, p.0, j);
    }
    forall c | 0 <= c < |shapes| ensures StrictlyIncreasing(shapes[c]) {
      var k := ShapeUser(regs, shapes, c);
    }
    ShapePairsSize(shapes);
  }

  /** The column of a group and an offset. */
  lemma ColumnAt(sizes: GroupSizes, group: int, offset: int) returns (k: nat)
    requires 0 <= group < 3 && 0 <= offset < sizes[group]
    ensures k < |Columns(sizes)| && Columns(sizes)[k] == (group, offset)
  {
    k := offset + (if group > 0 then sizes[0] as int else 0) + (if group > 1 then sizes[1] as int else 0);
  }

  lemma CanonicalIsCovered(t: TapDataSet, regs: seq<Register>, shapes: seq<seq<uint8>>)
    requires TableOf(t, regs, shapes)
    ensures Covered(t)
  {
    forall group, offset | 0 <= group < 3 && 0 <= offset < t.groupSizes[group] ensures Rows(t, group, offset) != {} {
      var k := ColumnAt(t.groupSizes, group, offset);
      RunIs(t, regs, k, 0);
      assert RunStart(regs, k) in Rows(t, group, offset);
    }
    forall combo | 0 <= combo < t.combosCount ensures HasCombo(t, combo) {
      assert ComboUsed(regs, combo);
      var k :| 0 <= k < |regs| && regs[k].combo == combo;
      RunIs(t, regs, k, 0);
    }
  }

  lemma RegisterOf(t: TapDataSet, regs: seq<Register>, shapes: seq<seq<uint8>>, i: nat) returns (k: nat)
    requires TableOf(t, regs, shapes) && i < |t.records|
    ensures k < |regs| && HasShape(regs[k], shapes)
    ensures t.records[i].group == regs[k].group && t.records[i].offset == regs[k].offset
    ensures t.records[i].combo == regs[k].combo && t.records[i].skip == |regs[k].backs|
  {
    var j;
    k, j := FindRun(regs, i);
  }

  lemma CanonicalIsGrouped(t: TapDataSet, regs: seq<Register>, shapes: seq<seq<uint8>>)
    requires TableOf(t, regs, shapes)
    ensures Grouped(t)
  {
    forall i | 0 <= i < |t.records|
      ensures t.records[i].skip as int == |Rows(t, t.records[i].group, t.records[i].offset)|
    {
      var k := RegisterOf(t, regs, shapes, i);
      RowsAreRun(t, regs, shapes, k);
    }
    forall i, j | 0 <= i < |t.records| && 0 <= j < |t.records|
      ensures var (a, b) := (t.records[i], t.records[j]);
              a.combo == b.combo <==> BacksAt(t, a.group, a.offset) == BacksAt(t, b.group, b.offset)
    {
      var k := RegisterOf(t, regs, shapes, i);
      var l := RegisterOf(t, regs, shapes, j);
      BacksAreElements(t, regs, shapes, k);
      BacksAreElements(t, regs, shapes, l);
      SameBacksIffSameCombo(t, regs, shapes, k, l);
      if Elements(regs[k].backs) == Elements(regs[l].backs) { SameElements(regs[k].backs, regs[l].backs); }
    }
  }

  lemma CanonicalIsWellTapped(t: TapDataSet)
    requires CanonicalTaps(t)
    ensures WellTapped(t)
  {
    var regs, shapes :| TableOf(t, regs, shapes);
    TableInRange(t, regs, shapes);
    assert forall i :: 0 <= i < |t.records| ==> InRange(t, t.records[i]);
    forall i, j | 0 <= i < j < |t.records| ensures TapLess(t.records[i], t.records[j]) {
      RecordsStrictlyIncrease(t, i, j);
    }
    CanonicalIsCovered(t, regs, shapes);
    CanonicalIsGrouped(t, regs, shapes);
    PairsAreShapes(t, regs, shapes);
  }

  // ---------- A well tapped table is canonical ----------

  /** The place of a record's column among the columns. */
  ghost function Index(t: TapDataSet, i: int): (k: nat)
    requires Placed(t) && 0 <= i < |t.records|
    ensures k < |Columns(t.groupSizes)|
    ensures Columns(t.groupSizes)[k] == (t.records[i].group, t.records[i].offset)
  {
    var sizes := t.groupSizes;
    t.records[i].offset as int + (if t.records[i].group > 0 then sizes[0] as int else 0)
    + (if t.records[i].group > 1 then sizes[1] as int else 0)
  }

  lemma IndexIsColumn(t: TapDataSet, i: int, k: nat)
    requires Placed(t) && 0 <= i < |t.records| && k < |Columns(t.groupSizes)|
    ensures Index(t, i) == k <==> (t.records[i].group, t.records[i].offset) == Columns(t.groupSizes)[k]
  {
    var l := Index(t, i);
    ColumnsIncrease(t.groupSizes, if k < l then k else l, if k < l then l else k);
  }

  lemma ColumnExists(sizes: GroupSizes, k: nat)
    requires k < |Columns(sizes)|
    ensures Columns(sizes)[k].0 < 3 && Columns(sizes)[k].1 < sizes[Columns(sizes)[k].0]
  {
  }

  lemma IndexIncreases(t: TapDataSet, i: int, j: int)
    requires Placed(t) && Ordered(t) && 0 <= i < j < |t.records|
    ensures Index(t, i) <= Index(t, j)
    ensures Index(t, i) == Index(t, j) ==> t.records[i].back < t.records[j].back
  {
    var (k, l) := (Index(t, i), Index(t, j));
    if l <= k { ColumnsIncrease(t.groupSizes, l, k); }
  }

  /** The records before `p` are of the first `k` columns, the others are not. */
  ghost predicate Cut(t: TapDataSet, k: nat, p: nat)
    requires Placed(t)
  {
    && p <= |t.records|
    && (forall i :: 0 <= i < p ==> Index(t, i) < k) && (forall i :: p <= i < |t.records| ==> Index(t, i) >= k)
  }

  lemma SubsetSize<T>(a: set<T>, b: set<T>)
    requires a <= b
    ensures |a| <= |b| && (|a| == |b| ==> a == b)
  {
    assert b == a + (b - a);
  }

  /** A set that goes down to `p` without a gap is an interval. */
  lemma GaplessIsInterval(s: set<int>, p: int)
    requires forall i :: i in s ==> i >= p
    requires forall i, j :: i in s && p <= j < i ==> j in s
    ensures s == Interval(p, p + |s|)
  {
    forall i | i in s ensures i < p + |s| {
      SubsetSize(Interval(p, i + 1), s);
    }
    SubsetSize(s, Interval(p, p + |s|));
  }

  lemma RowsHaveIndex(t: TapDataSet, k: nat)
    requires Placed(t) && k < |Columns(t.groupSizes)|
    ensures forall i :: 0 <= i < |t.records| ==>
              (i in Rows(t, Columns(t.groupSizes)[k].0, Columns(t.groupSizes)[k].1) <==> Index(t, i) == k)
  {
    forall i | 0 <= i < |t.records|
      ensures i in Rows(t, Columns(t.groupSizes)[k].0, Columns(t.groupSizes)[k].1) <==> Index(t, i) == k
    {
      IndexIsColumn(t, i, k);
    }
  }

  /** The records of column `k` come next, without a gap. */
  lemma ColumnComesNext(t: TapDataSet, k: nat, p: nat, rows: set<int>)
    requires Placed(t) && Ordered(t) && Cut(t, k, p)
    requires forall i :: i in rows <==> 0 <= i < |t.records| && Index(t, i) == k
    ensures rows == Interval(p, p + |rows|) && p + |rows| <= |t.records|
  {
    forall i, j | i in rows && p <= j < i ensures j in rows {
      IndexIncreases(t, j, i);
    }
    GaplessIsInterval(rows, p);
    if rows != {} { assert p + |rows| - 1 in rows; }
  }

  lemma ColumnIsCut(t: TapDataSet, k: nat, p: nat, rows: set<int>)
    requires Placed(t) && Ordered(t) && Cut(t, k, p)
    requires forall i :: i in rows <==> 0 <= i < |t.records| && Index(t, i) == k
    requires rows == Interval(p, p + |rows|) && p + |rows| <= |t.records|
    ensures Cut(t, k + 1, p + |rows|)
  {
    forall i | p + |rows| <= i < |t.records| ensures Index(t, i) >= k + 1 {
      assert i !in rows;
    }
    forall i | 0 <= i < p + |rows| ensures Index(t, i) < k + 1 {
      if i >= p { assert i in rows; }
    }
  }

  /** The register that the records of one column make. */
  ghost predicate FromColumn(t: TapDataSet, reg: Register) {
    && StrictlyIncreasing(reg.backs) && Elements(reg.backs) == BacksAt(t, reg.group, reg.offset)
    && exists i :: i in Rows(t, reg.group, reg.offset) && t.records[i].combo == reg.combo
  }

  /** The records of one column differ in their backs only. */
  lemma ColumnIsUniform(t: TapDataSet, group: int, offset: int, i: int, j: int)
    requires Grouped(t) && i in Rows(t, group, offset) && j in Rows(t, group, offset)
    ensures t.records[j] == t.records[i].(back := t.records[j].back)
    ensures t.records[i].group == group && t.records[i].offset == offset
    ensures t.records[i].skip as int == |Rows(t, group, offset)|
  {
    assert BacksAt(t, t.records[i].group, t.records[i].offset) == BacksAt(t, t.records[j].group, t.records[j].offset);
  }

  lemma {:induction false} ColumnRegister(t: TapDataSet, k: nat, p: nat, q: nat) returns (reg: Register)
    requires Ordered(t) && Grouped(t) && k < |Columns(t.groupSizes)| && p < q <= |t.records|
    requires Rows(t, Columns(t.groupSizes)[k].0, Columns(t.groupSizes)[k].1) == Interval(p, q)
    ensures (reg.group, reg.offset) == Columns(t.groupSizes)[k] && FromColumn(t, reg)
    ensures RunOf(reg) == t.records[p..q]
  {
    var (group, offset) := Columns(t.groupSizes)[k];
    ColumnIs(t, group, offset);
    reg := RunRegister(t, group, offset, p, q);
  }

  lemma ColumnRows(t: TapDataSet, k: nat, p: nat) returns (q: nat)
    requires Placed(t) && Ordered(t) && Covered(t) && Cut(t, k, p) && k < |Columns(t.groupSizes)|
    ensures p < q <= |t.records| && Cut(t, k + 1, q)
    ensures Rows(t, Columns(t.groupSizes)[k].0, Columns(t.groupSizes)[k].1) == Interval(p, q)
  {
    var rows := Rows(t, Columns(t.groupSizes)[k].0, Columns(t.groupSizes)[k].1);
    ColumnExists(t.groupSizes, k);
    RowsHaveIndex(t, k);
    ColumnComesNext(t, k, p, rows);
    ColumnIsCut(t, k, p, rows);
    q := p + |rows|;
  }

  /** The records of a column increase by their backs and differ in nothing else. */
  ghost predicate Column(t: TapDataSet, group: int, offset: int) {
    var rows := Rows(t, group, offset);
    && (forall i, j :: i in rows && j in rows && i < j ==> t.records[i].back < t.records[j].back)
    && (forall i, j :: i in rows && j in rows ==> t.records[j] == t.records[i].(back := t.records[j].back))
    && (forall i :: i in rows ==> t.records[i].skip as int == |rows|)
  }

  lemma ColumnIs(t: TapDataSet, group: int, offset: int)
    requires Ordered(t) && Grouped(t)
    ensures Column(t, group, offset)
  {
    forall i, j | i in Rows(t, group, offset) && j in Rows(t, group, offset)
      ensures t.records[j] == t.records[i].(back := t.records[j].back)
      ensures t.records[i].skip as int == |Rows(t, group, offset)|
    {
      ColumnIsUniform(t, group, offset, i, j);
    }
  }

  ghost function BacksFrom(t: TapDataSet, p: nat, q: nat): (backs: seq<uint8>)
    requires p <= q <= |t.records|
    ensures |backs| == q - p && forall j :: 0 <= j < q - p ==> backs[j] == t.records[p + j].back
    decreases q - p
  {
    if p == q then [] else BacksFrom(t, p, q - 1) + [t.records[q - 1].back]
  }

  lemma {:induction false} RunRegister(t: TapDataSet, group: uint8, offset: uint8, p: nat, q: nat)
    returns (reg: Register)
    requires Column(t, group, offset) && p < q <= |t.records| && Rows(t, group, offset) == Interval(p, q)
    ensures reg.group == group && reg.offset == offset && FromColumn(t, reg)
    ensures |reg.backs| == q - p && RunOf(reg) == t.records[p..q]
  {
    assert p in Interval(p, q);
    reg := Register(group, offset, t.records[p].combo, BacksFrom(t, p, q));
    BacksIncrease(t, group, offset, p, q);
    BacksAreThose(t, group, offset, p, q);
    RunIsSlice(t, reg, p, q);
  }

  lemma {:induction false} RunIsSlice(t: TapDataSet, reg: Register, p: nat, q: nat)
    requires Column(t, reg.group, reg.offset) && p < q <= |t.records|
    requires Rows(t, reg.group, reg.offset) == Interval(p, q)
    requires reg.combo == t.records[p].combo && reg.backs == BacksFrom(t, p, q)
    ensures RunOf(reg) == t.records[p..q]
  {
    assert p in Interval(p, q);
    forall j | 0 <= j < q - p ensures t.records[p + j] == RunOf(reg)[j] {
      assert p + j in Interval(p, q);
    }
    SliceIs(t.records, RunOf(reg), p, q);
  }

  lemma {:induction false} SliceIs<T>(s: seq<T>, x: seq<T>, p: nat, q: nat)
    requires p <= q <= |s| && |x| == q - p && forall j :: 0 <= j < q - p ==> s[p + j] == x[j]
    ensures s[p..q] == x
  {
  }

  lemma {:induction false} BacksIncrease(t: TapDataSet, group: int, offset: int, p: nat, q: nat)
    requires p < q <= |t.records| && Rows(t, group, offset) == Interval(p, q) && Column(t, group, offset)
    ensures StrictlyIncreasing(BacksFrom(t, p, q))
  {
    var backs := BacksFrom(t, p, q);
    forall j, l | 0 <= j < l < |backs| ensures backs[j] < backs[l] {
      assert p + j in Interval(p, q) && p + l in Interval(p, q);
    }
  }

  lemma {:induction false} BacksAreThose(t: TapDataSet, group: int, offset: int, p: nat, q: nat)
    requires p < q <= |t.records| && Rows(t, group, offset) == Interval(p, q)
    ensures Elements(BacksFrom(t, p, q)) == BacksAt(t, group, offset)
  {
    var backs := BacksFrom(t, p, q);
    forall j | 0 <= j < |backs| ensures backs[j] as int in BacksAt(t, group, offset) {
      assert p + j in Rows(t, group, offset);
    }
    forall i | i in Rows(t, group, offset) ensures t.records[i].back as int in Elements(backs) {
      assert backs[i - p] == t.records[i].back;
    }
  }

  /** The registers stand in the columns from `k` on. */
  ghost predicate InColumnsFrom(t: TapDataSet, regs: seq<Register>, k: nat) {
    && |regs| + k == |Columns(t.groupSizes)|
    && forall j :: 0 <= j < |regs| ==>
         (regs[j].group, regs[j].offset) == Columns(t.groupSizes)[k + j] && FromColumn(t, regs[j])
  }

  lemma CutEnds(t: TapDataSet, p: nat)
    requires Placed(t) && Cut(t, |Columns(t.groupSizes)|, p)
    ensures p == |t.records| && t.records[p..] == []
  {
    var last := if p < |t.records| then Index(t, p) else 0;
    assert p == |t.records|;
  }

  lemma {:induction false} ColumnRegisters(t: TapDataSet, k: nat, p: nat) returns (regs: seq<Register>)
    requires Placed(t) && Ordered(t) && Covered(t) && Grouped(t) && Cut(t, k, p) && k <= |Columns(t.groupSizes)|
    ensures FlatMap(regs, RunOf) == t.records[p..] && InColumnsFrom(t, regs, k)
    decreases |Columns(t.groupSizes)| - k
  {
    if k == |Columns(t.groupSizes)| {
      CutEnds(t, p);
      regs := [];
    } else {
      var q := ColumnRows(t, k, p);
      var reg := ColumnRegister(t, k, p, q);
      var rest := ColumnRegisters(t, k + 1, q);
      regs := [reg] + rest;
      ConsRegister(t, reg, rest, k, p, q);
    }
  }

  lemma {:induction false} ConsRegister(t: TapDataSet, reg: Register, rest: seq<Register>, k: nat, p: nat, q: nat)
    requires k < |Columns(t.groupSizes)| && (reg.group, reg.offset) == Columns(t.groupSizes)[k] && FromColumn(t, reg)
    requires p <= q <= |t.records| && RunOf(reg) == t.records[p..q]
    requires FlatMap(rest, RunOf) == t.records[q..] && InColumnsFrom(t, rest, k + 1)
    ensures FlatMap([reg] + rest, RunOf) == t.records[p..] && InColumnsFrom(t, [reg] + rest, k)
  {
    var regs := [reg] + rest;
    assert regs[1..] == rest;
    assert t.records[p..] == t.records[p..q] + t.records[q..];
    forall j | 1 <= j < |regs|
      ensures (regs[j].group, regs[j].offset) == Columns(t.groupSizes)[k + j] && FromColumn(t, regs[j])
    {
      assert regs[j] == rest[j - 1] && k + 1 + (j - 1) == k + j;
    }
  }

  /** Two registers made from columns have one combo exactly when they have the same backs. */
  lemma CombosAgree(t: TapDataSet, a: Register, b: Register)
    requires Grouped(t) && FromColumn(t, a) && FromColumn(t, b)
    ensures a.combo == b.combo <==> a.backs == b.backs
  {
    var i :| i in Rows(t, a.group, a.offset) && t.records[i].combo == a.combo;
    var j :| j in Rows(t, b.group, b.offset) && t.records[j].combo == b.combo;
    assert a.combo == b.combo <==> BacksAt(t, a.group, a.offset) == BacksAt(t, b.group, b.offset);
    if Elements(a.backs) == Elements(b.backs) { SameElements(a.backs, b.backs); }
  }

  lemma ComboOfColumn(t: TapDataSet, reg: Register, i: int)
    requires Grouped(t) && FromColumn(t, reg) && i in Rows(t, reg.group, reg.offset)
    ensures t.records[i].combo == reg.combo
  {
    var j :| j in Rows(t, reg.group, reg.offset) && t.records[j].combo == reg.combo;
    ColumnIsUniform(t, reg.group, reg.offset, i, j);
  }

  lemma {:induction false} EveryComboUsed(t: TapDataSet, regs: seq<Register>, combo: int)
    requires Placed(t) && Grouped(t) && HasCombo(t, combo) && InColumnsFrom(t, regs, 0)
    ensures ComboUsed(regs, combo)
  {
    var i :| 0 <= i < |t.records| && t.records[i].combo == combo;
    var k := RecordRegister(t, regs, i);
    ComboOfColumn(t, regs[k], i);
  }

  lemma {:induction false} RecordRegister(t: TapDataSet, regs: seq<Register>, i: nat) returns (k: nat)
    requires Placed(t) && i < |t.records| && InColumnsFrom(t, regs, 0)
    ensures k < |regs| && FromColumn(t, regs[k]) && i in Rows(t, regs[k].group, regs[k].offset)
  {
    k := Index(t, i);
    assert (regs[k].group, regs[k].offset) == Columns(t.groupSizes)[0 + k];
  }

  ghost function UserOf(regs: seq<Register>, c: int): (k: nat)
    requires ComboUsed(regs, c)
    ensures k < |regs| && regs[k].combo == c
  {
    var k :| 0 <= k < |regs| && regs[k].combo == c;
    k
  }

  ghost function ShapesOf(regs: seq<Register>, count: nat): (shapes: seq<seq<uint8>>)
    requires forall c :: 0 <= c < count ==> ComboUsed(regs, c)
    ensures |shapes| == count && forall c :: 0 <= c < count ==> shapes[c] == regs[UserOf(regs, c)].backs
  {
    seq(count, c requires 0 <= c < count => regs[UserOf(regs, c)].backs)
  }

  lemma {:induction false} RegisterHasShape(t: TapDataSet, regs: seq<Register>, count: nat, k: nat)
    requires Grouped(t) && k < |regs| && regs[k].combo < count
    requires forall c :: 0 <= c < count ==> ComboUsed(regs, c)
    requires forall j :: 0 <= j < |regs| ==> FromColumn(t, regs[j])
    ensures HasShape(regs[k], ShapesOf(regs, count))
  {
    CombosAgree(t, regs[k], regs[UserOf(regs, regs[k].combo)]);
  }

  lemma {:induction false} ShapesDiffer(t: TapDataSet, regs: seq<Register>, count: nat, c: nat, d: nat)
    requires Grouped(t) && c < d < count
    requires forall c :: 0 <= c < count ==> ComboUsed(regs, c)
    requires forall j :: 0 <= j < |regs| ==> FromColumn(t, regs[j])
    ensures ShapesOf(regs, count)[c] != ShapesOf(regs, count)[d]
  {
    CombosAgree(t, regs[UserOf(regs, c)], regs[UserOf(regs, d)]);
  }

  lemma {:induction false} ColumnsMakeTable(t: TapDataSet, regs: seq<Register>)
    requires Placed(t) && Covered(t) && Grouped(t) && |Pairs(t)| == t.totalComboBacks as int
    requires t.records == FlatMap(regs, RunOf) && InColumnsFrom(t, regs, 0)
    ensures CanonicalTaps(t)
  {
    forall c | 0 <= c < t.combosCount ensures ComboUsed(regs, c) {
      EveryComboUsed(t, regs, c);
    }
    var shapes := ShapesOf(regs, t.combosCount);
    forall k | 0 <= k < |regs| ensures HasShape(regs[k], shapes) {
      var i :| i in Rows(t, regs[k].group, regs[k].offset) && t.records[i].combo == regs[k].combo;
      RegisterHasShape(t, regs, t.combosCount, k);
    }
    forall c, d | 0 <= c < d < |shapes| ensures shapes[c] != shapes[d] {
      ShapesDiffer(t, regs, t.combosCount, c, d);
    }
    PairsAreShapes(t, regs, shapes);
    assert TableOf(t, regs, shapes);
  }

  /** The canonical tables are exactly the well tapped ones. */
  lemma CanonicalMeans(t: TapDataSet)
    ensures CanonicalTaps(t) <==> WellTapped(t)
  {
    if CanonicalTaps(t) { CanonicalIsWellTapped(t); }
    if WellTapped(t) {
      var regs := ColumnRegisters(t, 0, 0);
      assert t.records[0..] == t.records;
      ColumnsMakeTable(t, regs);
    }
  }
}
