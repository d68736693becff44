/** Two transformations of the pinned sources: the sparse Poseidon2 round-constant table and the
    line-ending normaliser. */
module SourceTables {
  import opened Codes
  import opened Wrappers
  import opened Words

  // ---------- Poseidon2 round constants ----------

  const ROUNDS := 29
  const CELLS := 24
  const DENSE := ROUNDS * CELLS
  const SPARSE := 213

  predicate IsPartial(round: int) {
    4 <= round < 25
  }

  /** The unused slots of every partial round are zero. */
  ghost predicate ZeroShape(dense: seq<uint32>)
    requires |dense| == DENSE
  {
    forall round, cell :: 4 <= round < 25 && 1 <= cell < CELLS ==> Slot(dense, round, cell) == 0
  }

  function Slot(dense: seq<uint32>, round: nat, cell: nat): uint32
    requires |dense| == DENSE && round < ROUNDS && cell < CELLS
  {
    dense[round * CELLS + cell]
  }

  /** Where the sparse table keeps the constants of a round. */
  function Start(round: nat): (start: nat)
    requires round <= ROUNDS
    ensures round < ROUNDS ==> start + (if IsPartial(round) then 1 else CELLS) <= SPARSE
  {
    if round <= 4 then round * CELLS
    else if round <= 25 then 4 * CELLS + (round - 4)
    else 4 * CELLS + 21 + (round - 25) * CELLS
  }

  /** The dense value of one slot, read from the sparse table. */
  function Expanded(sparse: seq<uint32>, round: nat, cell: nat): uint32
    requires |sparse| == SPARSE && round < ROUNDS && cell < CELLS
  {
    if !IsPartial(round) then sparse[Start(round) + cell] else if cell == 0 then sparse[Start(round)] else 0
  }

  /** `sparse` and `dense` hold the same permutation constants: filling the unused slots with zeros
      restores the dense table. */
  ghost predicate Expands(sparse: seq<uint32>, dense: seq<uint32>) {
    && |sparse| == SPARSE && |dense| == DENSE
    && forall round, cell :: 0 <= round < ROUNDS && 0 <= cell < CELLS ==>
         Slot(dense, round, cell) == Expanded(sparse, round, cell)
  }

  datatype TableError = WrongCount | NonzeroUnused | SparseCount

  /** The loop that drops the unused slots. It accepts exactly the tables of the zero shape, and what it
      keeps determines the dense table. */
  method Compress(dense: seq<uint32>) returns (r: Result<seq<uint32>, TableError>)
    ensures r.Ok? <==> |dense| == DENSE && ZeroShape(dense)
    ensures r.Ok? ==> Expands(r.value, dense)
  {
    if |dense| != DENSE {
      return Err(WrongCount);
    }
    var sparse: seq<uint32> := [];
    for round := 0 to ROUNDS
      invariant |sparse| == Start(round)
      invariant forall r, c :: 0 <= r < round && IsPartial(r) && 1 <= c < CELLS ==> Slot(dense, r, c) == 0
      invariant forall r :: 0 <= r < round ==> RoundKept(sparse, dense, r)
    {
      var row := dense[round * CELLS..(round + 1) * CELLS];
      assert forall c :: 0 <= c < CELLS ==> row[c] == Slot(dense, round, c);
      ghost var before := sparse;
      if IsPartial(round) {
        var zero := AllZero(row[1..]);
        if !zero {
          var c :| 1 <= c < CELLS && row[c] != 0;
          assert Slot(dense, round, c) != 0;
          return Err(NonzeroUnused);
        }
        assert forall c :: 1 <= c < CELLS ==> row[c] == row[1..][c - 1];
        sparse := sparse + [row[0]];
      } else {
        sparse := sparse + row;
      }
      forall r | 0 <= r < round ensures RoundKept(sparse, dense, r) {
        assert RoundKept(before, dense, r);
      }
    }
    if |sparse| != SPARSE {
      return Err(SparseCount);
    }
    forall round, cell | 0 <= round < ROUNDS && 0 <= cell < CELLS
      ensures Slot(dense, round, cell) == Expanded(sparse, round, cell)
    {
      assert RoundKept(sparse, dense, round);
    }
    return Ok(sparse);
  }

  ghost predicate RoundKept(sparse: seq<uint32>, dense: seq<uint32>, round: nat)
    requires |dense| == DENSE && round < ROUNDS
  {
    if IsPartial(round) then Start(round) < |sparse| && sparse[Start(round)] == Slot(dense, round, 0)
    else Start(round) + CELLS <= |sparse|
         && forall c :: 0 <= c < CELLS ==> sparse[Start(round) + c] == Slot(dense, round, c)
  }

  method AllZero(words: seq<uint32>) returns (zero: bool)
    ensures zero <==> forall i :: 0 <= i < |words| ==> words[i] == 0
  {
    for i := 0 to |words|
      invariant forall j :: 0 <= j < i ==> words[j] == 0
    {
      if words[i] != 0 {
        return false;
      }
    }
    return true;
  }

  /** Nothing is lost and nothing is invented: a dense table has at most one sparse table, a sparse table
      at most one dense table, and only tables of the zero shape have one. */
  lemma SparseTableIsExact(s: seq<uint32>, t: seq<uint32>, d: seq<uint32>, e: seq<uint32>)
    requires Expands(s, d) && Expands(t, e)
    ensures s == t <==> d == e
    ensures ZeroShape(d)
  {
    if s == t {
      forall k | 0 <= k < DENSE ensures d[k] == e[k] {
        assert k == k / CELLS * CELLS + k % CELLS;
        assert Slot(d, k / CELLS, k % CELLS) == Expanded(s, k / CELLS, k % CELLS);
        assert Slot(e, k / CELLS, k % CELLS) == Expanded(s, k / CELLS, k % CELLS);
      }
    }
    if d == e {
      forall k | 0 <= k < SPARSE ensures s[k] == t[k] {
        var round, cell := if k < 96 then k / CELLS else if k < 117 then k - 92 else (k - 117) / CELLS + 25,
                           if k < 96 then k % CELLS else if k < 117 then 0 else (k - 117) % CELLS;
        assert Slot(d, round, cell) == Expanded(s, round, cell) == Expanded(t, round, cell);
      }
    }
  }

  /** The sparse table is the dense one without the unused slots, which are zero, and in the same order: 96 words,
      the first word of each of 21 rounds, and 96 words. */
  lemma ExpandsMeans(sparse: seq<uint32>, dense: seq<uint32>)
    ensures Expands(sparse, dense) <==>
              && |sparse| == 213 && |dense| == 696
              && (forall i :: 0 <= i < 96 ==> sparse[i] == dense[i])
              && (forall i :: 96 <= i < 117 ==> sparse[i] == dense[24 * (i - 92)])
              && (forall i :: 117 <= i < 213 ==> sparse[i] == dense[i + 483])
              && (forall i :: 96 <= i < 600 && i % 24 != 0 ==> dense[i] == 0)
  {
    if |sparse| == 213 && |dense| == 696 {
      if Expands(sparse, dense) {
        forall i | 0 <= i < 96 ensures sparse[i] == dense[i] {
          assert Slot(dense, i / 24, i % 24) == Expanded(sparse, i / 24, i % 24);
        }
        forall i | 96 <= i < 117 ensures sparse[i] == dense[24 * (i - 92)] {
          assert Slot(dense, i - 92, 0) == Expanded(sparse, i - 92, 0);
        }
        forall i | 117 <= i < 213 ensures sparse[i] == dense[i + 483] {
          var (round, cell) := (25 + (i - 117) / 24, (i - 117) % 24);
          assert Slot(dense, round, cell) == Expanded(sparse, round, cell);
        }
        forall i | 96 <= i < 600 && i % 24 != 0 ensures dense[i] == 0 {
          assert Slot(dense, i / 24, i % 24) == Expanded(sparse, i / 24, i % 24);
        }
      }
      if && (forall i :: 0 <= i < 96 ==> sparse[i] == dense[i])
         && (forall i :: 96 <= i < 117 ==> sparse[i] == dense[24 * (i - 92)])
         && (forall i :: 117 <= i < 213 ==> sparse[i] == dense[i + 483])
         && (forall i :: 96 <= i < 600 && i % 24 != 0 ==> dense[i] == 0)
      {
        forall round, cell | 0 <= round < ROUNDS && 0 <= cell < CELLS
          ensures Slot(dense, round, cell) == Expanded(sparse, round, cell)
        {
          SlotFrom(sparse, dense, round, cell);
        }
      }
    }
  }

  lemma SlotFrom(sparse: seq<uint32>, dense: seq<uint32>, round: nat, cell: nat)
    requires |sparse| == 213 && |dense| == 696 && round < ROUNDS && cell < CELLS
    requires forall i :: 0 <= i < 96 ==> sparse[i] == dense[i]
    requires forall i :: 96 <= i < 117 ==> sparse[i] == dense[24 * (i - 92)]
    requires forall i :: 117 <= i < 213 ==> sparse[i] == dense[i + 483]
    requires forall i :: 96 <= i < 600 && i % 24 != 0 ==> dense[i] == 0
    ensures Slot(dense, round, cell) == Expanded(sparse, round, cell)
  {
    if round < 4 {
      assert sparse[24 * round + cell] == dense[24 * round + cell];
    } else if round < 25 {
      assert sparse[round + 92] == dense[24 * round];
      if cell > 0 { assert (24 * round + cell) % 24 == cell; }
    } else {
      var i := 117 + 24 * (round - 25) + cell;
      assert sparse[i] == dense[i + 483];
    }
  }

  // ---------- Line endings ----------

  const CR: uint8 := 13
  const LF: uint8 := 10

  datatype SourceError = ByteOrderMark | Nul | LoneCr

  ghost predicate HasBom(s: seq<uint8>) {
    [0xef, 0xbb, 0xbf] <= s
  }

  ghost predicate EveryCrBeforeLf(s: seq<uint8>) {
    forall i :: 0 <= i < |s| && s[i] == CR ==> i + 1 < |s| && s[i + 1] == LF
  }

  ghost predicate Clean(s: seq<uint8>) {
    !HasBom(s) && 0 !in s && EveryCrBeforeLf(s)
  }

  function KeepNonCr(c: uint8): seq<uint8> {
    if c == CR then [] else [c]
  }

  function AsCrLf(c: uint8): seq<uint8> {
    if c == LF then [CR, LF] else [c]
  }

  /** The text without its CR bytes. */
  function WithoutCr(s: seq<uint8>): seq<uint8> {
    FlatMap(s, KeepNonCr)
  }

  /** Every LF as CRLF, as a checkout with physical CRLF line endings stores it. */
  function ToCrLf(s: seq<uint8>): seq<uint8> {
    FlatMap(s, AsCrLf)
  }

  function CrCount(s: seq<uint8>): nat {
    if s == [] then 0 else (if s[0] == CR then 1 else 0) + CrCount(s[1..])
  }

  lemma CrLfPair()
    ensures WithoutCr([CR, LF]) == [LF]
  {
    FlatMapSnoc([CR], LF, KeepNonCr);
    FlatMapSnoc([], CR, KeepNonCr);
    assert [CR] + [LF] == [CR, LF] && [] + [CR] == [CR];
  }

  /** The accepted texts, and the text without its CR bytes, character by character. */
  lemma NormalizationMeans(s: seq<uint8>)
    ensures Clean(s) <==>
              && !(|s| >= 3 && s[0] == 0xef && s[1] == 0xbb && s[2] == 0xbf)
              && (forall i :: 0 <= i < |s| ==> s[i] != 0)
              && (forall i :: 0 <= i < |s| && s[i] == 13 ==> i + 1 < |s| && s[i + 1] == 10)
    ensures WithoutCr(s) == if s == [] then [] else (if s[0] == 13 then [] else [s[0]]) + WithoutCr(s[1..])
  {
    if |s| >= 3 { assert s[..3] == [s[0], s[1], s[2]]; }
    assert HasBom(s) <==> |s| >= 3 && s[0] == 0xef && s[1] == 0xbb && s[2] == 0xbf;
    assert 0 in s <==> exists i :: 0 <= i < |s| && s[i] == 0;
  }

  /** `normalize_source_line_endings`: it accepts exactly the clean texts and removes exactly the CR bytes. */
  method Normalize(bytes: seq<uint8>) returns (r: Result<seq<uint8>, SourceError>)
    ensures r.Ok? <==> Clean(bytes)
    ensures r.Ok? ==> r.value == WithoutCr(bytes)
  {
    if [0xef, 0xbb, 0xbf] <= bytes {
      return Err(ByteOrderMark);
    }
    if 0 in bytes {
      return Err(Nul);
    }
    var normalized: seq<uint8> := [];
    var index := 0;
    while index < |bytes|
      invariant index <= |bytes|
      invariant normalized == WithoutCr(bytes[..index])
      invariant forall i :: 0 <= i < index && bytes[i] == CR ==> i + 1 < |bytes| && bytes[i + 1] == LF
    {
      if bytes[index] == CR {
        if !(index + 1 < |bytes| && bytes[index + 1] == LF) {
          return Err(LoneCr);
        }
        FlatMapAppend(bytes[..index], [CR, LF], KeepNonCr);
        assert bytes[..index + 2] == bytes[..index] + [CR, LF];
        CrLfPair();
        normalized := normalized + [LF];
        index := index + 2;
      } else {
        FlatMapSplit(bytes, KeepNonCr, index);
        normalized := normalized + [bytes[index]];
        index := index + 1;
      }
    }
    assert bytes[..index] == bytes;
    return Ok(normalized);
  }

  lemma {:induction false} WithoutCrFacts(s: seq<uint8>)
    ensures CR !in WithoutCr(s)
    ensures |WithoutCr(s)| == |s| - CrCount(s)
    ensures CR !in s ==> WithoutCr(s) == s
    ensures 0 !in s ==> 0 !in WithoutCr(s)
  {
    if s != [] {
      WithoutCrFacts(s[1..]);
      if CR !in s { assert s == [s[0]] + s[1..]; }
    }
  }

  /** An accepted text normalises to an accepted CR-free text that normalises to itself, shorter by the
      number of CR bytes. */
  lemma NormalizedIsFixed(s: seq<uint8>)
    requires Clean(s)
    ensures Clean(WithoutCr(s)) && WithoutCr(WithoutCr(s)) == WithoutCr(s)
    ensures |WithoutCr(s)| == |s| - CrCount(s)
  {
    WithoutCrFacts(s);
    WithoutCrFacts(WithoutCr(s));
    NoNewBom(s);
  }

  /** Dropping CR bytes that precede LF cannot bring a byte-order mark to the front. */
  lemma NoNewBom(s: seq<uint8>)
    requires EveryCrBeforeLf(s)
    ensures HasBom(WithoutCr(s)) ==> HasBom(s)
  {
    var w := WithoutCr(s);
    Front(s);
    if HasBom(w) {
      var w1 := WithoutCr(s[1..]);
      Front(s[1..]);
      assert w == [s[0]] + w1 && w1[0] == w[1] == 0xbb && w1[1] == w[2] == 0xbf;
      var w2 := WithoutCr(s[1..][1..]);
      Front(s[1..][1..]);
      assert w1 == [s[1]] + w2 && w2[0] == 0xbf;
      assert s[1..][1..][0] == s[2];
    }
  }

  lemma Front(s: seq<uint8>)
    requires EveryCrBeforeLf(s)
    ensures s == [] ==> WithoutCr(s) == []
    ensures s != [] ==> EveryCrBeforeLf(s[1..])
    ensures s != [] && s[0] != CR ==> WithoutCr(s) == [s[0]] + WithoutCr(s[1..])
    ensures s != [] && s[0] == CR ==> WithoutCr(s) != [] && WithoutCr(s)[0] == LF
  {
    if s != [] {
      assert forall i :: 0 <= i < |s[1..]| ==> s[1..][i] == s[i + 1];
      if s[0] == CR {
        assert s == [CR, LF] + s[2..];
        FlatMapAppend([CR, LF], s[2..], KeepNonCr);
        CrLfPair();
      }
    }
  }

  /** A physical CRLF checkout of any accepted CR-free text is accepted and normalises back to that text. */
  lemma CrLfNormalizesBack(s: seq<uint8>)
    requires Clean(s) && CR !in s
    ensures Clean(ToCrLf(s)) && WithoutCr(ToCrLf(s)) == s
  {
    CrLfRoundTrip(s);
    NoNewBom(ToCrLf(s));
    if HasBom(ToCrLf(s)) {
      BomKept(ToCrLf(s));
    }
  }

  lemma {:induction false} CrLfRoundTrip(s: seq<uint8>)
    requires CR !in s
    ensures WithoutCr(ToCrLf(s)) == s
    ensures EveryCrBeforeLf(ToCrLf(s))
    ensures 0 !in s ==> 0 !in ToCrLf(s)
  {
    if s != [] {
      CrLfRoundTrip(s[1..]);
      var head, rest := AsCrLf(s[0]), ToCrLf(s[1..]);
      FlatMapAppend(head, rest, KeepNonCr);
      CrLfPair();
      if s[0] != LF { FlatMapSnoc([], s[0], KeepNonCr); }
      assert s == [s[0]] + s[1..];
      forall i | 0 <= i < |ToCrLf(s)| && ToCrLf(s)[i] == CR
        ensures i + 1 < |ToCrLf(s)| && ToCrLf(s)[i + 1] == LF
      {
        if i >= |head| { assert rest[i - |head|] == CR; }
      }
    }
  }

  lemma BomKept(s: seq<uint8>)
    requires HasBom(s)
    ensures HasBom(WithoutCr(s))
  {
    var bom: seq<uint8> := [0xef, 0xbb, 0xbf];
    assert s == bom + s[3..];
    FlatMapAppend(bom, s[3..], KeepNonCr);
    assert bom[1..] == [0xbb, 0xbf] && bom[1..][1..] == [0xbf] && bom[1..][1..][1..] == [];
    assert WithoutCr(bom) == bom;
  }
}
