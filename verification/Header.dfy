/** The reading cursor and the 87-byte header of the verifier-data artifact. */
module Header {
  import opened Codes
  import opened Wrappers
  import opened Words
  import opened TapTable

  const TAP_BYTES: uint8 := 5

  datatype DecodeError =
    | WrongLength | UnexpectedEof | GroupCount | GroupIdentifiers | RecordWidth | NonAscii | HeaderEnd
    | UnknownTag | BadReference | TrailingBytes | Invalid

  predicate Ascii(s: seq<uint8>) {
    forall i :: 0 <= i < |s| ==> s[i] < 0x80
  }

  /** The decoder's only state: how far it has read. */
  class Cursor {
    const bytes: seq<uint8>
    var position: nat

    ghost predicate Valid()
      reads this
    {
      position <= |bytes|
    }

    constructor (bytes: seq<uint8>)
      ensures Valid() && this.bytes == bytes && position == 0
    {
      this.bytes := bytes;
      position := 0;
    }

    method Take(count: nat) returns (r: Result<seq<uint8>, DecodeError>)
      requires Valid()
      modifies this
      ensures Valid()
      ensures r.Ok? <==> old(position) + count <= |bytes|
      ensures r.Ok? ==> position == old(position) + count && r.value == bytes[old(position)..position]
      ensures r.Err? ==> position == old(position)
    {
      var end := position + count;
      if end > |bytes| {
        return Err(UnexpectedEof);
      }
      r := Ok(bytes[position..end]);
      position := end;
    }

    method U8() returns (r: Result<uint8, DecodeError>)
      requires Valid()
      modifies this
      ensures Valid()
      ensures r.Ok? <==> old(position) < |bytes|
      ensures r.Ok? ==> position == old(position) + 1 && r.value == bytes[old(position)]
      ensures r.Err? ==> position == old(position)
    {
      var s :- Take(1);
      return Ok(s[0]);
    }

    method U16() returns (r: Result<uint16, DecodeError>)
      requires Valid()
      modifies this
      ensures Valid()
      ensures r.Ok? <==> old(position) + 2 <= |bytes|
      ensures r.Ok? ==> position == old(position) + 2 && r.value == FromLe16(bytes[old(position)..position])
      ensures r.Err? ==> position == old(position)
    {
      var s :- Take(2);
      return Ok(FromLe16(s));
    }

    method U32() returns (r: Result<uint32, DecodeError>)
      requires Valid()
      modifies this
      ensures Valid()
      ensures r.Ok? <==> old(position) + 4 <= |bytes|
      ensures r.Ok? ==> position == old(position) + 4 && r.value == FromLe32(bytes[old(position)..position])
      ensures r.Err? ==> position == old(position)
    {
      var s :- Take(4);
      return Ok(FromLe32(s));
    }

    /** Reads the encoding of a table of `count` words; it fails only at the end of the bytes. */
    method U32Vec(count: nat) returns (r: Result<seq<uint32>, DecodeError>)
      requires Valid()
      modifies this
      ensures Valid()
      ensures r.Ok? <==> old(position) + 4 * count <= |bytes|
      ensures r.Ok? ==> position == old(position) + 4 * count && |r.value| == count
      ensures r.Ok? ==> bytes[old(position)..position] == FlatMap(r.value, Le32)
    {
      var words: seq<uint32> := [];
      for i := 0 to count
        invariant Valid() && position == old(position) + 4 * i && |words| == i
        invariant bytes[old(position)..position] == FlatMap(words, Le32)
      {
        ghost var start := position;
        var word :- U32();
        Le32Inverse(word, bytes[start..position]);
        FlatMapSnoc(words, word, Le32);
        assert bytes[old(position)..position] == bytes[old(position)..start] + bytes[start..position];
        words := words + [word];
      }
      return Ok(words);
    }

    method AsciiText(count: nat) returns (r: Result<seq<uint8>, DecodeError>)
      requires Valid()
      modifies this
      ensures Valid()
      ensures r.Ok? <==> old(position) + count <= |bytes| && Ascii(bytes[old(position)..old(position) + count])
      ensures r.Ok? ==> position == old(position) + count && r.value == bytes[old(position)..position]
    {
      var s :- Take(count);
      if !Ascii(s) {
        return Err(NonAscii);
      }
      return Ok(s);
    }
  }

  // ---------- The six blocks of the header ----------

  /** Bytes 0 to 9. */
  datatype FieldBlock = FieldBlock(modulus: uint32, extensionDegree: uint8, extensionBeta: uint32, maxRootPo2: uint8)

  function EncodeField(b: FieldBlock): (s: seq<uint8>)
    ensures |s| == 10
  {
    Le32(b.modulus) + [b.extensionDegree] + Le32(b.extensionBeta) + [b.maxRootPo2]
  }

  lemma FieldUnique(a: FieldBlock, b: FieldBlock)
    requires EncodeField(a) == EncodeField(b)
    ensures a == b
  {
    var e := EncodeField(a);
    assert e[0..4] == Le32(a.modulus) == Le32(b.modulus) && e[5..9] == Le32(a.extensionBeta) == Le32(b.extensionBeta);
    Le32Inverse(a.modulus, e[0..4]);
    Le32Inverse(b.modulus, e[0..4]);
    Le32Inverse(a.extensionBeta, e[5..9]);
    Le32Inverse(b.extensionBeta, e[5..9]);
    assert e[4] == a.extensionDegree == b.extensionDegree && e[9] == a.maxRootPo2 == b.maxRootPo2;
  }

  method DecodeField(cursor: Cursor) returns (r: Result<FieldBlock, DecodeError>)
    requires cursor.Valid()
    modifies cursor
    ensures cursor.Valid()
    ensures r.Ok? <==> old(cursor.position) + 10 <= |cursor.bytes|
    ensures r.Ok? ==> cursor.position == old(cursor.position) + 10
    ensures r.Ok? ==> cursor.bytes[old(cursor.position)..cursor.position] == EncodeField(r.value)
  {
    ghost var p, bytes := cursor.position, cursor.bytes;
    var modulus :- cursor.U32();
    var extensionDegree :- cursor.U8();
    var extensionBeta :- cursor.U32();
    var maxRootPo2 :- cursor.U8();
    Le32Inverse(modulus, bytes[p..p + 4]);
    Le32Inverse(extensionBeta, bytes[p + 5..p + 9]);
    assert bytes[p..p + 10] == bytes[p..p + 4] + [bytes[p + 4]] + bytes[p + 5..p + 9] + [bytes[p + 9]];
    return Ok(FieldBlock(modulus, extensionDegree, extensionBeta, maxRootPo2));
  }

  /** Bytes 10 to 18. */
  datatype HashBlock = HashBlock(
    cells: uint8, rate: uint8, outputCells: uint8, roundsHalfFull: uint8, roundsPartial: uint8, sboxDegree: uint8,
    roundConstantCount: uint16, diagonalCount: uint8)

  function EncodeHash(b: HashBlock): (s: seq<uint8>)
    ensures |s| == 9
  {
    [b.cells, b.rate, b.outputCells, b.roundsHalfFull, b.roundsPartial, b.sboxDegree]
    + Le16(b.roundConstantCount) + [b.diagonalCount]
  }

  lemma HashUnique(a: HashBlock, b: HashBlock)
    requires EncodeHash(a) == EncodeHash(b)
    ensures a == b
  {
    var e := EncodeHash(a);
    assert e[6..8] == Le16(a.roundConstantCount) == Le16(b.roundConstantCount);
    Le16Inverse(a.roundConstantCount, e[6..8]);
    Le16Inverse(b.roundConstantCount, e[6..8]);
    assert e[..6] == [a.cells, a.rate, a.outputCells, a.roundsHalfFull, a.roundsPartial, a.sboxDegree];
    assert e[..6] == [b.cells, b.rate, b.outputCells, b.roundsHalfFull, b.roundsPartial, b.sboxDegree];
    assert e[0] == a.cells == b.cells && e[1] == a.rate == b.rate && e[2] == a.outputCells == b.outputCells;
    assert e[3] == a.roundsHalfFull == b.roundsHalfFull && e[4] == a.roundsPartial == b.roundsPartial;
    assert e[5] == a.sboxDegree == b.sboxDegree && e[8] == a.diagonalCount == b.diagonalCount;
  }

  method DecodeHash(cursor: Cursor) returns (r: Result<HashBlock, DecodeError>)
    requires cursor.Valid()
    modifies cursor
    ensures cursor.Valid()
    ensures r.Ok? <==> old(cursor.position) + 9 <= |cursor.bytes|
    ensures r.Ok? ==> cursor.position == old(cursor.position) + 9
    ensures r.Ok? ==> cursor.bytes[old(cursor.position)..cursor.position] == EncodeHash(r.value)
  {
    ghost var p, bytes := cursor.position, cursor.bytes;
    var cells :- cursor.U8();
    var rate :- cursor.U8();
    var outputCells :- cursor.U8();
    var roundsHalfFull :- cursor.U8();
    var roundsPartial :- cursor.U8();
    var sboxDegree :- cursor.U8();
    var roundConstantCount :- cursor.U16();
    var diagonalCount :- cursor.U8();
    Le16Inverse(roundConstantCount, bytes[p + 6..p + 8]);
    assert bytes[p..p + 9] == bytes[p..p + 6] + bytes[p + 6..p + 8] + [bytes[p + 8]];
    return Ok(HashBlock(cells, rate, outputCells, roundsHalfFull, roundsPartial, sboxDegree,
                        roundConstantCount, diagonalCount));
  }

  /** Bytes 19 to 27. */
  datatype StarkBlock = StarkBlock(
    queries: uint8, inverseRate: uint8, friFold: uint8, friFoldPo2: uint8, friMinDegree: uint16,
    outputSize: uint8, mixSize: uint8, checkSize: uint8)

  function EncodeStark(b: StarkBlock): (s: seq<uint8>)
    ensures |s| == 9
  {
    [b.queries, b.inverseRate, b.friFold, b.friFoldPo2] + Le16(b.friMinDegree) + [b.outputSize, b.mixSize, b.checkSize]
  }

  lemma StarkUnique(a: StarkBlock, b: StarkBlock)
    requires EncodeStark(a) == EncodeStark(b)
    ensures a == b
  {
    var e := EncodeStark(a);
    assert e[4..6] == Le16(a.friMinDegree) == Le16(b.friMinDegree);
    Le16Inverse(a.friMinDegree, e[4..6]);
    Le16Inverse(b.friMinDegree, e[4..6]);
    assert e[0] == a.queries == b.queries && e[1] == a.inverseRate == b.inverseRate;
    assert e[2] == a.friFold == b.friFold && e[3] == a.friFoldPo2 == b.friFoldPo2;
    assert e[6] == a.outputSize == b.outputSize && e[7] == a.mixSize == b.mixSize && e[8] == a.checkSize == b.checkSize;
  }

  method DecodeStark(cursor: Cursor) returns (r: Result<StarkBlock, DecodeError>)
    requires cursor.Valid()
    modifies cursor
    ensures cursor.Valid()
    ensures r.Ok? <==> old(cursor.position) + 9 <= |cursor.bytes|
    ensures r.Ok? ==> cursor.position == old(cursor.position) + 9
    ensures r.Ok? ==> cursor.bytes[old(cursor.position)..cursor.position] == EncodeStark(r.value)
  {
    ghost var p, bytes := cursor.position, cursor.bytes;
    var queries :- cursor.U8();
    var inverseRate :- cursor.U8();
    var friFold :- cursor.U8();
    var friFoldPo2 :- cursor.U8();
    var friMinDegree :- cursor.U16();
    var outputSize :- cursor.U8();
    var mixSize :- cursor.U8();
    var checkSize :- cursor.U8();
    Le16Inverse(friMinDegree, bytes[p + 4..p + 6]);
    assert bytes[p..p + 9] == bytes[p..p + 4] + bytes[p + 4..p + 6] + bytes[p + 6..p + 9];
    return Ok(StarkBlock(queries, inverseRate, friFold, friFoldPo2, friMinDegree, outputSize, mixSize, checkSize));
  }

  /** Bytes 28 to 35; the group count is always 3. */
  datatype TapBlock = TapBlock(tapCount: uint16, groupSizes: GroupSizes, combosCount: uint8, totalComboBacks: uint8)

  function EncodeTapBlock(b: TapBlock): (s: seq<uint8>)
    ensures |s| == 8
  {
    Le16(b.tapCount) + [3] + b.groupSizes + [b.combosCount] + [b.totalComboBacks]
  }

  lemma TapBlockUnique(a: TapBlock, b: TapBlock)
    requires EncodeTapBlock(a) == EncodeTapBlock(b)
    ensures a == b
  {
    var e := EncodeTapBlock(a);
    assert e[0..2] == Le16(a.tapCount) == Le16(b.tapCount) && e[3..6] == a.groupSizes == b.groupSizes;
    Le16Inverse(a.tapCount, e[0..2]);
    Le16Inverse(b.tapCount, e[0..2]);
    assert e[6] == a.combosCount == b.combosCount && e[7] == a.totalComboBacks == b.totalComboBacks;
  }

  method DecodeTapBlock(cursor: Cursor) returns (r: Result<TapBlock, DecodeError>)
    requires cursor.Valid()
    modifies cursor
    ensures cursor.Valid()
    ensures r.Ok? ==> cursor.position == old(cursor.position) + 8
    ensures r.Ok? ==> cursor.bytes[old(cursor.position)..cursor.position] == EncodeTapBlock(r.value)
    ensures r.Err? ==> forall b :: !(EncodeTapBlock(b) <= cursor.bytes[old(cursor.position)..])
  {
    ghost var p, bytes := cursor.position, cursor.bytes;
    forall b | EncodeTapBlock(b) <= bytes[p..] ensures p + 8 <= |bytes| && bytes[p + 2] == 3 {
      assert EncodeTapBlock(b)[2] == bytes[p..][2];
    }
    var tapCount :- cursor.U16();
    var groupCount :- cursor.U8();
    if groupCount != 3 {
      return Err(GroupCount);
    }
    var groupSizes :- cursor.Take(3);
    var combosCount :- cursor.U8();
    var totalComboBacks :- cursor.U8();
    Le16Inverse(tapCount, bytes[p..p + 2]);
    assert bytes[p..p + 8] == bytes[p..p + 2] + [bytes[p + 2]] + bytes[p + 3..p + 6] + [bytes[p + 6]] + [bytes[p + 7]];
    return Ok(TapBlock(tapCount, groupSizes, combosCount, totalComboBacks));
  }

  /** Bytes 36 to 43. */
  datatype PolyBlock = PolyBlock(opCount: uint16, fieldVariables: uint16, mixVariables: uint16, retMixVariable: uint16)

  function EncodePoly(b: PolyBlock): (s: seq<uint8>)
    ensures |s| == 8
  {
    Le16(b.opCount) + Le16(b.fieldVariables) + Le16(b.mixVariables) + Le16(b.retMixVariable)
  }

  lemma PolyUnique(a: PolyBlock, b: PolyBlock)
    requires EncodePoly(a) == EncodePoly(b)
    ensures a == b
  {
    var e := EncodePoly(a);
    assert e[0..2] == Le16(a.opCount) == Le16(b.opCount);
    assert e[2..4] == Le16(a.fieldVariables) == Le16(b.fieldVariables);
    assert e[4..6] == Le16(a.mixVariables) == Le16(b.mixVariables);
    assert e[6..8] == Le16(a.retMixVariable) == Le16(b.retMixVariable);
    Le16Inverse(a.opCount, e[0..2]);
    Le16Inverse(b.opCount, e[0..2]);
    Le16Inverse(a.fieldVariables, e[2..4]);
    Le16Inverse(b.fieldVariables, e[2..4]);
    Le16Inverse(a.mixVariables, e[4..6]);
    Le16Inverse(b.mixVariables, e[4..6]);
    Le16Inverse(a.retMixVariable, e[6..8]);
    Le16Inverse(b.retMixVariable, e[6..8]);
  }

  method DecodePoly(cursor: Cursor) returns (r: Result<PolyBlock, DecodeError>)
    requires cursor.Valid()
    modifies cursor
    ensures cursor.Valid()
    ensures r.Ok? <==> old(cursor.position) + 8 <= |cursor.bytes|
    ensures r.Ok? ==> cursor.position == old(cursor.position) + 8
    ensures r.Ok? ==> cursor.bytes[old(cursor.position)..cursor.position] == EncodePoly(r.value)
  {
    ghost var p, bytes := cursor.position, cursor.bytes;
    var opCount :- cursor.U16();
    var fieldVariables :- cursor.U16();
    var mixVariables :- cursor.U16();
    var retMixVariable :- cursor.U16();
    Le16Inverse(opCount, bytes[p..p + 2]);
    Le16Inverse(fieldVariables, bytes[p + 2..p + 4]);
    Le16Inverse(mixVariables, bytes[p + 4..p + 6]);
    Le16Inverse(retMixVariable, bytes[p + 6..p + 8]);
    assert bytes[p..p + 8] == bytes[p..p + 2] + bytes[p + 2..p + 4] + bytes[p + 4..p + 6] + bytes[p + 6..p + 8];
    return Ok(PolyBlock(opCount, fieldVariables, mixVariables, retMixVariable));
  }

  type Remap = s: seq<uint8> | |s| == 4 witness [0, 0, 0, 0]

  /** Bytes 44 to 54; the group identifiers 0, 1, 2 and the record width 5 never vary. */
  datatype InfoBlock = InfoBlock(remap: Remap, proofInfoLength: uint8, circuitInfoLength: uint8, challengeScale: uint8)

  function EncodeInfo(b: InfoBlock): (s: seq<uint8>)
    ensures |s| == 11
  {
    b.remap + [0, 1, 2] + [b.proofInfoLength] + [b.circuitInfoLength] + [TAP_BYTES] + [b.challengeScale]
  }

  lemma InfoUnique(a: InfoBlock, b: InfoBlock)
    requires EncodeInfo(a) == EncodeInfo(b)
    ensures a == b
  {
    var e := EncodeInfo(a);
    assert e[0..4] == a.remap == b.remap && e[7] == a.proofInfoLength == b.proofInfoLength;
    assert e[8] == a.circuitInfoLength == b.circuitInfoLength && e[10] == a.challengeScale == b.challengeScale;
  }

  method DecodeInfo(cursor: Cursor) returns (r: Result<InfoBlock, DecodeError>)
    requires cursor.Valid()
    modifies cursor
    ensures cursor.Valid()
    ensures r.Ok? ==> cursor.position == old(cursor.position) + 11
    ensures r.Ok? ==> cursor.bytes[old(cursor.position)..cursor.position] == EncodeInfo(r.value)
    ensures r.Err? ==> forall b :: !(EncodeInfo(b) <= cursor.bytes[old(cursor.position)..])
  {
    ghost var p, bytes := cursor.position, cursor.bytes;
    forall b | EncodeInfo(b) <= bytes[p..]
      ensures p + 11 <= |bytes| && bytes[p + 4..p + 7] == [0, 1, 2] && bytes[p + 9] == TAP_BYTES
    {
      var e := EncodeInfo(b);
      assert e[4..7] == [0, 1, 2] && e[9] == TAP_BYTES;
      assert e[4..7] == bytes[p..][..11][4..7] == bytes[p + 4..p + 7] && e[9] == bytes[p..][9];
    }
    var remap :- cursor.Take(4);
    var identifiers :- cursor.Take(3);
    if identifiers != [0, 1, 2] {
      return Err(GroupIdentifiers);
    }
    var proofInfoLength :- cursor.U8();
    var circuitInfoLength :- cursor.U8();
    var recordWidth :- cursor.U8();
    if recordWidth != TAP_BYTES {
      return Err(RecordWidth);
    }
    var challengeScale :- cursor.U8();
    assert bytes[p..p + 11] == bytes[p..p + 4] + bytes[p + 4..p + 7] + [bytes[p + 7]] + [bytes[p + 8]]
                               + [bytes[p + 9]] + [bytes[p + 10]];
    return Ok(InfoBlock(remap, proofInfoLength, circuitInfoLength, challengeScale));
  }
}
