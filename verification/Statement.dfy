/** The `ErgoStatementV1` byte grammar and the two derivations that each change one span of it. */
module Statement {
  import opened Wrappers
  import opened Words

  const DIGEST_BYTES := 32
  const MAX_APPLICATION_PAYLOAD_BYTES := 16_384
  const STATEMENT_PREFIX_BYTES := 159
  const MAX_STATEMENT_BYTES := STATEMENT_PREFIX_BYTES + MAX_APPLICATION_PAYLOAD_BYTES

  /** `Ergo.VerifyStark.Statement` in ASCII. */
  const DOMAIN: seq<uint8> := [69, 114, 103, 111, 46, 86, 101, 114, 105, 102, 121, 83, 116, 97, 114, 107, 46,
                               83, 116, 97, 116, 101, 109, 101, 110, 116]

  const VERSION_OFFSET := 26
  const CHAIN_DOMAIN_OFFSET := 27
  const PROFILE_ID_OFFSET := 59
  const PROGRAM_ID_OFFSET := 91
  const CONTRACT_ID_OFFSET := 123
  const PAYLOAD_LENGTH_OFFSET := 155
  const PAYLOAD_OFFSET := 159

  datatype Record = Record(chainDomain: Bytes32, profileId: Bytes32, programId: Bytes32, contractId: Bytes32,
                           payload: seq<uint8>)

  ghost predicate Bounded(rec: Record) {
    |rec.payload| <= MAX_APPLICATION_PAYLOAD_BYTES
  }

  function Serialize(rec: Record): (s: seq<uint8>)
    requires Bounded(rec)
    ensures |s| == STATEMENT_PREFIX_BYTES + |rec.payload|
  {
    DOMAIN + [1] + rec.chainDomain + rec.profileId + rec.programId + rec.contractId + Le32(|rec.payload|) + rec.payload
  }

  datatype StatementError =
    | LengthOutOfBounds | OffsetsDisagree | WrongDomain | WrongVersion | WrongProgram | PayloadTooLong | LengthMismatch
    | SameProgram | ChangedLength | SpanOutside | SpanNotOnlyChange

  /** `validate_ergo_statement_v1`, check by check. */
  function Validate(s: seq<uint8>, programId: Bytes32): Result<(), StatementError> {
    if !(STATEMENT_PREFIX_BYTES <= |s| <= MAX_STATEMENT_BYTES) then Err(LengthOutOfBounds)
    else
      var _ :- Ensure(PAYLOAD_OFFSET == STATEMENT_PREFIX_BYTES, OffsetsDisagree);
      var _ :- Ensure(s[..|DOMAIN|] == DOMAIN, WrongDomain);
      var _ :- Ensure(s[VERSION_OFFSET] == 1, WrongVersion);
      var _ :- Ensure(s[PROGRAM_ID_OFFSET..CONTRACT_ID_OFFSET] == programId, WrongProgram);
      var payloadLength := FromLe32(s[PAYLOAD_LENGTH_OFFSET..PAYLOAD_OFFSET]);
      var _ :- Ensure(payloadLength <= MAX_APPLICATION_PAYLOAD_BYTES, PayloadTooLong);
      Ensure(|s| == STATEMENT_PREFIX_BYTES + payloadLength, LengthMismatch)
  }

  /** The record a long enough byte string would be the serialisation of. */
  ghost function Parse(s: seq<uint8>): Record
    requires |s| >= STATEMENT_PREFIX_BYTES
  {
    Record(s[CHAIN_DOMAIN_OFFSET..PROFILE_ID_OFFSET], s[PROFILE_ID_OFFSET..PROGRAM_ID_OFFSET],
           s[PROGRAM_ID_OFFSET..CONTRACT_ID_OFFSET], s[CONTRACT_ID_OFFSET..PAYLOAD_LENGTH_OFFSET], s[PAYLOAD_OFFSET..])
  }

  lemma SerializedParts(rec: Record)
    requires Bounded(rec)
    ensures Parse(Serialize(rec)) == rec
    ensures var s := Serialize(rec);
            && s[..|DOMAIN|] == DOMAIN && s[VERSION_OFFSET] == 1
            && s[PAYLOAD_LENGTH_OFFSET..PAYLOAD_OFFSET] == Le32(|rec.payload|)
  {
  }

  lemma SerializationAccepted(rec: Record)
    requires Bounded(rec)
    ensures Validate(Serialize(rec), rec.programId).Ok?
    ensures forall id :: Validate(Serialize(rec), id).Ok? ==> id == rec.programId
  {
    SerializedParts(rec);
    var s := Serialize(rec);
    Le32Inverse(|rec.payload|, s[PAYLOAD_LENGTH_OFFSET..PAYLOAD_OFFSET]);
  }

  lemma AcceptedIsSerialization(s: seq<uint8>, programId: Bytes32)
    requires Validate(s, programId).Ok?
    ensures Bounded(Parse(s)) && Parse(s).programId == programId && Serialize(Parse(s)) == s
  {
    var rec := Parse(s);
    Le32Inverse(|rec.payload|, s[PAYLOAD_LENGTH_OFFSET..PAYLOAD_OFFSET]);
    assert s == s[..26] + s[26..27] + s[27..59] + s[59..91] + s[91..123] + s[123..155] + s[155..159] + s[159..];
  }

  /** The validator accepts exactly the serialisations of records with the given program, and the record is
      determined by the bytes. */
  lemma AcceptsExactlySerializations(s: seq<uint8>, programId: Bytes32)
    ensures Validate(s, programId).Ok? <==>
              exists rec :: Bounded(rec) && rec.programId == programId && Serialize(rec) == s
    ensures forall rec :: Bounded(rec) && Serialize(rec) == s ==> rec == Parse(s)
  {
    if Validate(s, programId).Ok? {
      AcceptedIsSerialization(s, programId);
    }
    forall rec | Bounded(rec) && Serialize(rec) == s
      ensures rec == Parse(s) && Validate(s, rec.programId).Ok?
    {
      SerializedParts(rec);
      SerializationAccepted(rec);
    }
  }

  /** The accepted strings byte by byte. */
  lemma AcceptedBytes(s: seq<uint8>, programId: Bytes32)
    ensures Validate(s, programId).Ok? <==>
              && 159 <= |s| <= 16_543
              && s[..26] == [69, 114, 103, 111, 46, 86, 101, 114, 105, 102, 121, 83, 116, 97, 114, 107, 46,
                             83, 116, 97, 116, 101, 109, 101, 110, 116]
              && s[26] == 1
              && (forall i :: 0 <= i < 32 ==> s[91 + i] == programId[i])
              && WordAt(s, 155, |s| - 159)
  {
    if 159 <= |s| {
      assert (forall i :: 0 <= i < 32 ==> s[91 + i] == programId[i]) <==> s[91..123] == programId by {
        assert forall i :: 0 <= i < 32 ==> s[91 + i] == s[91..123][i];
      }
    }
  }

  // ---------- Derivations ----------

  /** `byte ^ 0x01`. */
  function FlipLowBit(byte: uint8): uint8 {
    if byte % 2 == 0 then byte + 1 else byte - 1
  }

  function WithChainFlipped(rec: Record): Record {
    rec.(chainDomain := rec.chainDomain[0 := FlipLowBit(rec.chainDomain[0])])
  }

  /** The span check, `require_only_statement_span_changed`. */
  function OnlySpanChanged(original: seq<uint8>, changed: seq<uint8>, start: nat, end: nat)
      : Result<(), StatementError>
  {
    var _ :- Ensure(|original| == |changed|, ChangedLength);
    var _ :- Ensure(start < end && end <= |original|, SpanOutside);
    Ensure(original[..start] == changed[..start] && original[end..] == changed[end..]
           && original[start..end] != changed[start..end], SpanNotOnlyChange)
  }

  /** Its meaning: every differing position lies in the span, and there is one. */
  lemma OnlySpanChangedMeans(a: seq<uint8>, b: seq<uint8>, start: nat, end: nat)
    requires |a| == |b| && start < end <= |a|
    ensures OnlySpanChanged(a, b, start, end).Ok?
       <==> a != b && forall i :: 0 <= i < |a| && a[i] != b[i] ==> start <= i < end
  {
    if a != b && forall i :: 0 <= i < |a| && a[i] != b[i] ==> start <= i < end {
      var i :| 0 <= i < |a| && a[i] != b[i];
      assert a[start..end][i - start] != b[start..end][i - start];
    }
    if OnlySpanChanged(a, b, start, end).Ok? {
      forall i | 0 <= i < start ensures a[i] == b[i] {
        assert a[..start][i] == b[..start][i];
      }
      forall i | end <= i < |a| ensures a[i] == b[i] {
        assert a[end..][i - end] == b[end..][i - end];
      }
    }
  }

  /** The statement with the low bit of its first chain-domain byte flipped. */
  function ChainDerived(s: seq<uint8>): seq<uint8>
    requires |s| >= STATEMENT_PREFIX_BYTES
  {
    s[CHAIN_DOMAIN_OFFSET := FlipLowBit(s[CHAIN_DOMAIN_OFFSET])]
  }

  /** The statement with its program field replaced. */
  function ProgramDerived(s: seq<uint8>, programId: Bytes32): seq<uint8>
    requires |s| >= STATEMENT_PREFIX_BYTES
  {
    s[..PROGRAM_ID_OFFSET] + programId + s[CONTRACT_ID_OFFSET..]
  }

  /** On serialised records the derivations change one field each. */
  lemma DerivationsOnRecords(rec: Record, programId: Bytes32)
    requires Bounded(rec)
    ensures ChainDerived(Serialize(rec)) == Serialize(WithChainFlipped(rec))
    ensures ProgramDerived(Serialize(rec), programId) == Serialize(rec.(programId := programId))
  {
    var s := Serialize(rec);
    SerializedParts(rec);
    assert s[CHAIN_DOMAIN_OFFSET..PROFILE_ID_OFFSET][0] == s[CHAIN_DOMAIN_OFFSET];
  }

  /** The derived statements are valid and differ from the source in the authorized span only, so the
      derivations' own re-validation and span checks never fail. */
  lemma DerivationsPassTheirChecks(s: seq<uint8>, sourceId: Bytes32, alternateId: Bytes32)
    requires Validate(s, sourceId).Ok?
    ensures Validate(ChainDerived(s), sourceId).Ok? && Validate(ProgramDerived(s, alternateId), alternateId).Ok?
    ensures OnlySpanChanged(s, ChainDerived(s), CHAIN_DOMAIN_OFFSET, CHAIN_DOMAIN_OFFSET + 1).Ok?
    ensures sourceId != alternateId ==>
              OnlySpanChanged(s, ProgramDerived(s, alternateId), PROGRAM_ID_OFFSET, CONTRACT_ID_OFFSET).Ok?
  {
    var c, p := ChainDerived(s), ProgramDerived(s, alternateId);
    assert c[..|DOMAIN|] == s[..|DOMAIN|] == p[..|DOMAIN|];
    assert c[PROGRAM_ID_OFFSET..CONTRACT_ID_OFFSET] == s[PROGRAM_ID_OFFSET..CONTRACT_ID_OFFSET];
    assert p[PROGRAM_ID_OFFSET..CONTRACT_ID_OFFSET] == alternateId;
    assert c[PAYLOAD_LENGTH_OFFSET..PAYLOAD_OFFSET] == s[PAYLOAD_LENGTH_OFFSET..PAYLOAD_OFFSET]
        == p[PAYLOAD_LENGTH_OFFSET..PAYLOAD_OFFSET];
    OnlySpanChangedMeans(s, c, CHAIN_DOMAIN_OFFSET, CHAIN_DOMAIN_OFFSET + 1);
    OnlySpanChangedMeans(s, p, PROGRAM_ID_OFFSET, CONTRACT_ID_OFFSET);
  }

  /** Deriving the chain domain twice restores the source, deriving a program and back restores it, and the
      two derivations commute. */
  lemma DerivationLaws(s: seq<uint8>, sourceId: Bytes32, alternateId: Bytes32)
    requires Validate(s, sourceId).Ok?
    ensures ChainDerived(ChainDerived(s)) == s
    ensures ProgramDerived(ProgramDerived(s, alternateId), sourceId) == s
    ensures ProgramDerived(ChainDerived(s), alternateId) == ChainDerived(ProgramDerived(s, alternateId))
  {
    assert s == s[..PROGRAM_ID_OFFSET] + s[PROGRAM_ID_OFFSET..CONTRACT_ID_OFFSET] + s[CONTRACT_ID_OFFSET..];
  }

  /** `derive_b4_alternate_chain_domain_statement`: it fails only on an invalid source. */
  method DeriveAlternateChainDomain(source: seq<uint8>, programId: Bytes32)
      returns (r: Result<seq<uint8>, StatementError>)
    ensures r.Ok? <==> Validate(source, programId).Ok?
    ensures r.Ok? ==> r.value == ChainDerived(source) && Validate(r.value, programId).Ok?
    ensures r.Ok? ==>
              && |r.value| == |source| && r.value[27] / 2 == source[27] / 2 && r.value[27] != source[27]
              && forall i :: 0 <= i < |source| && i != 27 ==> r.value[i] == source[i]
  {
    var _ :- Validate(source, programId);
    var changed := new uint8[|source|](i requires 0 <= i < |source| => source[i]);
    changed[CHAIN_DOMAIN_OFFSET] := FlipLowBit(changed[CHAIN_DOMAIN_OFFSET]);
    assert changed[..] == ChainDerived(source);
    DerivationsPassTheirChecks(source, programId, programId);
    return Checked(source, changed[..], programId, CHAIN_DOMAIN_OFFSET, CHAIN_DOMAIN_OFFSET + 1);
  }

  /** `derive_b4_alternate_program_statement`: it fails exactly on an invalid source or an equal program. */
  method DeriveAlternateProgram(source: seq<uint8>, sourceId: Bytes32, alternateId: Bytes32)
    returns (r: Result<seq<uint8>, StatementError>)
    ensures r.Ok? <==> Validate(source, sourceId).Ok? && sourceId != alternateId
    ensures r.Ok? ==> r.value == ProgramDerived(source, alternateId) && Validate(r.value, alternateId).Ok?
    ensures r.Ok? ==>
              && |r.value| == |source|
              && forall i :: 0 <= i < |source| ==>
                   r.value[i] == if 91 <= i < 123 then alternateId[i - 91] else source[i]
  {
    var _ :- Validate(source, sourceId);
    if sourceId == alternateId {
      return Err(SameProgram);
    }
    var changed := new uint8[|source|](i requires 0 <= i < |source| => source[i]);
    forall i | 0 <= i < DIGEST_BYTES {
      changed[PROGRAM_ID_OFFSET + i] := alternateId[i];
    }
    assert changed[..] == ProgramDerived(source, alternateId);
    DerivationsPassTheirChecks(source, sourceId, alternateId);
    return Checked(source, changed[..], alternateId, PROGRAM_ID_OFFSET, CONTRACT_ID_OFFSET);
  }

  /** The two checks that end each derivation. */
  function Checked(source: seq<uint8>, changed: seq<uint8>, programId: Bytes32, start: nat, end: nat)
    : Result<seq<uint8>, StatementError>
  {
    var _ :- Validate(changed, programId);
    var _ :- OnlySpanChanged(source, changed, start, end);
    Ok(changed)
  }
}
