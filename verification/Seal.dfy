/** The profile-owned shape of a succinct receipt: the words of the raw seal that carry the inner control
    root, the claim digest and the outer exponent. */
module Seal {
  import opened Codes
  import opened Constants
  import opened Wrappers
  import opened Words

  const P := BABY_BEAR_P
  const R := 0x1_0000_0000
  /** The inverse of R modulo P. */
  const R_INVERSE := 943_718_400

  const PROOF_WORDS := 55_667
  const PROOF_BYTES := 222_668
  const OUTER_PO2 := 18
  const INCLUSION_DEPTH := 8
  const MIN_SEGMENT_CONTROL_INDEX := 5
  const JOIN_CONTROL_INDEX := 1
  const RESOLVE_CONTROL_INDEX := 22

  /** A digest as eight words; its bytes are their little-endian encodings. */
  type Digest = s: seq<uint32> | |s| == 8 witness seq(8, _ => 0)

  function DigestBytes(d: Digest): Bytes32 {
    FlatMapLength(d, Le32, 4);
    FlatMap(d, Le32)
  }

  lemma DigestBytesInjective(a: Digest, b: Digest)
    requires DigestBytes(a) == DigestBytes(b)
    ensures a == b
  {
    Le32PrefixCode();
    UniquelyDecodable(a, b, Le32);
  }

  ghost predicate Reduced(words: seq<uint32>) {
    forall i :: 0 <= i < |words| ==> words[i] < P
  }

  // ---------- Montgomery form ----------

  /** The field element a raw word stands for. */
  function FromMont(raw: uint32): (w: uint32)
    ensures w < P
  {
    raw * R_INVERSE % P
  }

  /** The raw word that stands for a field element. */
  function ToMont(w: uint32): (raw: uint32)
    ensures raw < P
  {
    w * R % P
  }

  lemma ModShift(x: int, k: int)
    ensures (x + k * P) % P == x % P
  {
  }

  lemma ModMul(a: int, b: int)
    ensures (a % P) * b % P == a * b % P
  {
    var q := a / P;
    assert a == (a % P) + q * P;
    assert a * b == (a % P) * b + (q * b) * P by {
      assert ((a % P) + q * P) * b == (a % P) * b + q * P * b;
      assert q * P * b == q * b * P;
    }
    ModShift((a % P) * b, q * b);
  }

  /** Decoding is a bijection on the reduced words, with encoding as its inverse. */
  lemma MontInverse(x: uint32)
    requires x < P
    ensures FromMont(ToMont(x)) == x && ToMont(FromMont(x)) == x
  {
    assert R * R_INVERSE == 1 + (R * R_INVERSE / P) * P;
    assert x * R * R_INVERSE == x + (x * (R * R_INVERSE / P)) * P;
    ModMul(x * R, R_INVERSE);
    ModMul(x * R_INVERSE, R);
    assert x * R_INVERSE * R == x * R * R_INVERSE;
    ModShift(x, x * (R * R_INVERSE / P));
  }

  datatype SealError =
    | UnsupportedPo2 | WrongHash | WrongControlId | NotReduced | WrongInclusionIndex | WrongInclusionDepth
    | WrongParameters | WrongWordCount | WrongByteCount | NotLittleEndian | SlotLength | RootPadding
    | WrongRoot | HalfwordTooLarge | WrongClaimWords | WrongClaim | WrongOuterPo2

  function DecodeOutputWord(raw: uint32): Result<uint32, SealError> {
    var _ :- Ensure(raw < P, NotReduced);
    Ok(FromMont(raw))
  }

  // ---------- The control-root slot ----------

  /** The only slot that decodes to `root`: its words in Montgomery form, each followed by zero padding. */
  function RootSlot(root: Digest): (slot: seq<uint32>)
    ensures |slot| == 16
  {
    seq(16, i requires 0 <= i < 16 => if i % 2 == 0 then ToMont(root[i / 2]) else 0)
  }

  /** `decode_inner_control_root`: exactly one slot decodes to each reduced root, and none to any other. */
  method DecodeInnerControlRoot(slot: seq<uint32>) returns (r: Result<Digest, SealError>)
    ensures r.Ok? ==> Reduced(r.value) && slot == RootSlot(r.value)
    ensures forall root: Digest :: Reduced(root) && slot == RootSlot(root) ==> r == Ok(root)
  {
    if |slot| != 16 {
      return Err(SlotLength);
    }
    for index := 0 to 8
      invariant forall i :: 0 <= i < index ==> slot[2 * i + 1] == 0
    {
      if slot[2 * index + 1] != 0 {
        assert forall root: Digest :: RootSlot(root)[2 * index + 1] == 0;
        return Err(RootPadding);
      }
    }
    var words: seq<uint32> := [];
    for index := 0 to 8
      invariant |words| == index
      invariant forall i :: 0 <= i < index ==> slot[2 * i] < P && words[i] == FromMont(slot[2 * i])
    {
      if slot[2 * index] >= P {
        assert forall root: Digest :: RootSlot(root)[2 * index] == ToMont(root[index]) < P;
      }
      var word :- DecodeOutputWord(slot[2 * index]);
      words := words + [word];
    }
    RootSlotOf(slot, words);
    return Ok(words);
  }

  lemma RootSlotOf(slot: seq<uint32>, words: Digest)
    requires |slot| == 16
    requires forall i :: 0 <= i < 8 ==> slot[2 * i + 1] == 0
    requires forall i :: 0 <= i < 8 ==> slot[2 * i] < P && words[i] == FromMont(slot[2 * i])
    ensures Reduced(words) && slot == RootSlot(words)
    ensures forall root: Digest :: Reduced(root) && slot == RootSlot(root) ==> root == words
  {
    forall i | 0 <= i < 16 ensures slot[i] == RootSlot(words)[i] {
      var k := i / 2;
      assert words[k] == FromMont(slot[2 * k]);
      MontInverse(slot[2 * k]);
    }
    forall root: Digest | Reduced(root) && slot == RootSlot(root) ensures root == words {
      forall i | 0 <= i < 8 ensures words[i] == root[i] {
        assert RootSlot(root)[2 * i] == ToMont(root[i]);
        MontInverse(root[i]);
      }
    }
  }

  // ---------- The claim slot ----------

  function Halfword(bytes: Bytes32, i: nat): uint16
    requires i < 16
  {
    FromLe16(bytes[2 * i..2 * i + 2])
  }

  /** The only slot that decodes to the 32 bytes: their sixteen halfwords in Montgomery form. */
  function ClaimSlot(bytes: Bytes32): (slot: seq<uint32>)
    ensures |slot| == 16
  {
    seq(16, i requires 0 <= i < 16 => ToMont(Halfword(bytes, i)))
  }

  /** `decode_claim_digest`, filling its 32-byte buffer two bytes at a time: exactly one slot decodes to
      each 32-byte string. */
  method DecodeClaimDigest(slot: seq<uint32>) returns (r: Result<Bytes32, SealError>)
    ensures r.Ok? ==> slot == ClaimSlot(r.value)
    ensures forall bytes: Bytes32 :: slot == ClaimSlot(bytes) ==> r == Ok(bytes)
  {
    var buffer := new uint8[32](_ => 0);
    if |slot| != 16 {
      return Err(SlotLength);
    }
    for index := 0 to 16
      invariant forall i :: 0 <= i < index ==> slot[i] < P && HoldsHalfword(buffer[..], i, FromMont(slot[i]))
    {
      var word :- SlotWord(slot, index);
      if word > U16_MAX {
        NoSlotBeyondHalfword(slot, index);
        return Err(HalfwordTooLarge);
      }
      ghost var before := buffer[..];
      buffer[2 * index] := Le16(word)[0];
      buffer[2 * index + 1] := Le16(word)[1];
      forall i | 0 <= i < index ensures HoldsHalfword(buffer[..], i, FromMont(slot[i])) {
        assert HoldsHalfword(before, i, FromMont(slot[i]));
      }
    }
    var bytes := buffer[..];
    SlotOf(slot, bytes);
    return Ok(bytes);
  }

  ghost predicate HoldsHalfword(bytes: seq<uint8>, i: nat, word: int)
    requires |bytes| == 32 && i < 16
  {
    0 <= word <= U16_MAX && [bytes[2 * i], bytes[2 * i + 1]] == Le16(word)
  }

  /** One word of the slot; a word that is not reduced belongs to no claim slot. */
  function SlotWord(slot: seq<uint32>, index: nat): (r: Result<uint32, SealError>)
    requires |slot| == 16 && index < 16
    ensures r.Err? ==> forall bytes: Bytes32 :: slot != ClaimSlot(bytes)
    ensures r.Ok? ==> slot[index] < P && r.value == FromMont(slot[index])
  {
    assert forall bytes: Bytes32 :: ClaimSlot(bytes)[index] < P;
    DecodeOutputWord(slot[index])
  }

  lemma NoSlotBeyondHalfword(slot: seq<uint32>, index: nat)
    requires |slot| == 16 && index < 16 && FromMont(slot[index]) > U16_MAX
    ensures forall bytes: Bytes32 :: slot != ClaimSlot(bytes)
  {
    forall bytes: Bytes32 ensures slot != ClaimSlot(bytes) {
      MontInverse(Halfword(bytes, index));
      assert ClaimSlot(bytes)[index] == ToMont(Halfword(bytes, index));
    }
  }

  lemma SlotOf(slot: seq<uint32>, bytes: Bytes32)
    requires |slot| == 16
    requires forall i :: 0 <= i < 16 ==> slot[i] < P && HoldsHalfword(bytes, i, FromMont(slot[i]))
    ensures slot == ClaimSlot(bytes)
    ensures forall other: Bytes32 :: slot == ClaimSlot(other) ==> other == bytes
  {
    forall i | 0 <= i < 16 ensures Halfword(bytes, i) == FromMont(slot[i]) && ToMont(Halfword(bytes, i)) == slot[i] {
      assert HoldsHalfword(bytes, i, FromMont(slot[i]));
      assert bytes[2 * i..2 * i + 2] == [bytes[2 * i], bytes[2 * i + 1]];
      Le16Inverse(FromMont(slot[i]), bytes[2 * i..2 * i + 2]);
      MontInverse(slot[i]);
    }
    forall other: Bytes32 | slot == ClaimSlot(other) ensures other == bytes {
      ClaimSlotInjective(other, bytes);
    }
  }

  /** Different 32-byte strings have different slots. */
  lemma ClaimSlotInjective(a: Bytes32, b: Bytes32)
    requires ClaimSlot(a) == ClaimSlot(b)
    ensures a == b
  {
    forall k | 0 <= k < 32 ensures a[k] == b[k] {
      var i := k / 2;
      assert ClaimSlot(a)[i] == ClaimSlot(b)[i];
      MontInverse(Halfword(a, i));
      MontInverse(Halfword(b, i));
      Le16Inverse(Halfword(a, i), a[2 * i..2 * i + 2]);
      Le16Inverse(Halfword(a, i), b[2 * i..2 * i + 2]);
      assert a[2 * i..2 * i + 2][k - 2 * i] == b[2 * i..2 * i + 2][k - 2 * i];
    }
  }

  // ---------- The whole shape ----------

  datatype InclusionProof = InclusionProof(index: uint32, digests: seq<Digest>)

  /** A succinct receipt over any type of claim. */
  datatype SuccinctReceipt<C> = SuccinctReceipt(
    seal: seq<uint32>, controlId: Digest, claim: C, hashfn: string, verifierParameters: Digest,
    inclusion: InclusionProof)

  datatype CandidateTerminal = Lift(po2: uint32) | Join | Resolve

  /** The frozen control identities the source holds as hexadecimal constants. */
  datatype Profile = Profile(liftIds: seq<Digest>, joinId: Digest, resolveId: Digest, root: Digest, parameters: Digest)

  ghost predicate WellFormedProfile(p: Profile) {
    && |p.liftIds| == MAX_SEGMENT_PO2 - MIN_SEGMENT_PO2 + 1
    && (forall i, j :: 0 <= i < j < |p.liftIds| ==> p.liftIds[i] != p.liftIds[j])
  }

  function ExpectedControl(p: Profile, terminal: CandidateTerminal): Result<(Digest, uint32), SealError>
    requires WellFormedProfile(p)
  {
    match terminal
    case Lift(po2) =>
      if SupportedPo2(po2)
      then Ok((p.liftIds[po2 - MIN_SEGMENT_PO2], MIN_SEGMENT_CONTROL_INDEX + (po2 - MIN_SEGMENT_PO2)))
      else Err(UnsupportedPo2)
    case Join => Ok((p.joinId, JOIN_CONTROL_INDEX))
    case Resolve => Ok((p.resolveId, RESOLVE_CONTROL_INDEX))
  }

  /** Everything the shape gate demands of the seal words. */
  ghost predicate SealAccepted(seal: seq<uint32>, root: Digest, claimDigest: Digest) {
    && |seal| == PROOF_WORDS
    && (forall i :: 0 <= i < |seal| && i != 32 ==> seal[i] < P)
    && Reduced(root) && seal[..16] == RootSlot(root)
    && seal[16..32] == ClaimSlot(DigestBytes(claimDigest))
    && seal[32] == OUTER_PO2
  }

  /** The shape of a receipt whose own claim has the digest `carriedDigest`. */
  ghost predicate ShapeAccepted<C>(receipt: SuccinctReceipt<C>, p: Profile, terminal: CandidateTerminal,
                                   carriedDigest: Digest, claimDigest: Digest)
    requires WellFormedProfile(p)
  {
    && receipt.hashfn == "poseidon2"
    && ExpectedControl(p, terminal) == Ok((receipt.controlId, receipt.inclusion.index))
    && Reduced(receipt.controlId)
    && |receipt.inclusion.digests| == INCLUSION_DEPTH
    && (forall i :: 0 <= i < |receipt.inclusion.digests| ==> Reduced(receipt.inclusion.digests[i]))
    && receipt.verifierParameters == p.parameters
    && SealAccepted(receipt.seal, p.root, claimDigest)
    && carriedDigest == claimDigest
  }

  method AllReduced(words: seq<uint32>) returns (ok: bool)
    ensures ok <==> Reduced(words)
  {
    for i := 0 to |words|
      invariant forall j :: 0 <= j < i ==> words[j] < P
    {
      if words[i] >= P {
        return false;
      }
    }
    return true;
  }

  method SealWordsReduced(seal: seq<uint32>) returns (ok: bool)
    ensures ok <==> forall i :: 0 <= i < |seal| && i != 32 ==> seal[i] < P
  {
    for i := 0 to |seal|
      invariant forall j :: 0 <= j < i && j != 32 ==> seal[j] < P
    {
      if i != 32 && seal[i] >= P {
        return false;
      }
    }
    return true;
  }

  /** `decode_seal_words`, four bytes at a time: the words whose little-endian encodings make up the bytes, for
      exactly the frozen number of bytes. */
  method DecodeSealWords(rawSeal: seq<uint8>) returns (r: Result<seq<uint32>, SealError>)
    ensures r.Ok? <==> |rawSeal| == PROOF_BYTES
    ensures r.Ok? ==> FlatMap(r.value, Le32) == rawSeal
    ensures forall words: seq<uint32> :: |words| == PROOF_WORDS && FlatMap(words, Le32) == rawSeal ==> r == Ok(words)
  {
    FlatMapLengths();
    if |rawSeal| != PROOF_BYTES {
      return Err(WrongByteCount);
    }
    var words: seq<uint32> := [];
    while 4 * |words| < |rawSeal|
      invariant 4 * |words| <= |rawSeal| && FlatMap(words, Le32) == rawSeal[..4 * |words|]
    {
      var n := 4 * |words|;
      var word := FromLe32(rawSeal[n..n + 4]);
      Le32Inverse(word, rawSeal[n..n + 4]);
      FlatMapSnoc(words, word, Le32);
      assert rawSeal[..n + 4] == rawSeal[..n] + rawSeal[n..n + 4];
      words := words + [word];
    }
    assert rawSeal[..4 * |words|] == rawSeal;
    EachStringOnce(rawSeal, words);
    return Ok(words);
  }

  lemma FlatMapLengths()
    ensures forall words: seq<uint32> :: |FlatMap(words, Le32)| == 4 * |words|
  {
    forall words: seq<uint32> ensures |FlatMap(words, Le32)| == 4 * |words| {
      FlatMapLength(words, Le32, 4);
    }
  }

  lemma EachStringOnce(bytes: seq<uint8>, words: seq<uint32>)
    requires FlatMap(words, Le32) == bytes
    ensures forall other: seq<uint32> :: FlatMap(other, Le32) == bytes ==> other == words
  {
    Le32PrefixCode();
    forall other: seq<uint32> | FlatMap(other, Le32) == bytes ensures other == words {
      UniquelyDecodable(other, words, Le32);
    }
  }

  /** The two checks of a seal's bytes: their number, and that they read back as the words. They cannot fail on a
      seal with the right number of words. */
  method SealBytes(seal: seq<uint32>) returns (r: Result<seq<uint8>, SealError>)
    requires |seal| == PROOF_WORDS
    ensures r == Ok(FlatMap(seal, Le32)) && |FlatMap(seal, Le32)| == PROOF_BYTES
  {
    var rawSeal := FlatMap(seal, Le32);
    FlatMapLength(seal, Le32, 4);
    var decoded := DecodeSealWords(rawSeal);
    return if |rawSeal| != PROOF_BYTES then Err(WrongByteCount)
           else if decoded != Ok(seal) then Err(NotLittleEndian)
           else Ok(rawSeal);
  }

  /** The seal part of `validate_terminal_shape_against_root`. */
  method ValidateSeal(seal: seq<uint32>, root: Digest, claimDigest: Digest, carriedDigest: Digest)
    returns (r: Result<seq<uint8>, SealError>)
    ensures r.Ok? <==> SealAccepted(seal, root, claimDigest) && carriedDigest == claimDigest
    ensures r.Ok? ==> |r.value| == PROOF_BYTES && r.value == FlatMap(seal, Le32)
  {
    if |seal| != PROOF_WORDS {
      return Err(WrongWordCount);
    }
    var reduced := SealWordsReduced(seal);
    if !reduced {
      return Err(NotReduced);
    }
    var rawSeal := SealBytes(seal);
    var decodedRoot := DecodeInnerControlRoot(seal[..16]);
    if decodedRoot.Err? {
      return Err(decodedRoot.error);
    }
    if decodedRoot.value != root {
      assert Reduced(root) ==> seal[..16] != RootSlot(root);
      return Err(WrongRoot);
    }
    var decodedClaim := DecodeClaimDigest(seal[16..32]);
    if decodedClaim.Err? {
      return Err(decodedClaim.error);
    }
    if decodedClaim.value != DigestBytes(claimDigest) {
      return Err(WrongClaimWords);
    }
    if carriedDigest != claimDigest {
      return Err(WrongClaim);
    }
    if seal[32] != OUTER_PO2 {
      return Err(WrongOuterPo2);
    }
    return rawSeal;
  }

  /** `validate_candidate_terminal_shape` for one profile: it accepts exactly the described shape. */
  method ValidateTerminalShape<C>(receipt: SuccinctReceipt<C>, p: Profile, terminal: CandidateTerminal,
                                  carriedDigest: Digest, claimDigest: Digest)
    returns (r: Result<seq<uint8>, SealError>)
    requires WellFormedProfile(p)
    ensures r.Ok? <==> ShapeAccepted(receipt, p, terminal, carriedDigest, claimDigest)
    ensures r.Ok? ==> r.value == FlatMap(receipt.seal, Le32)
  {
    var expected :- ExpectedControl(p, terminal);
    if receipt.hashfn != "poseidon2" {
      return Err(WrongHash);
    }
    if receipt.controlId != expected.0 {
      return Err(WrongControlId);
    }
    var idReduced := AllReduced(receipt.controlId);
    if !idReduced {
      return Err(NotReduced);
    }
    if receipt.inclusion.index != expected.1 {
      return Err(WrongInclusionIndex);
    }
    if |receipt.inclusion.digests| != INCLUSION_DEPTH {
      return Err(WrongInclusionDepth);
    }
    for i := 0 to |receipt.inclusion.digests|
      invariant forall j :: 0 <= j < i ==> Reduced(receipt.inclusion.digests[j])
    {
      var siblingReduced := AllReduced(receipt.inclusion.digests[i]);
      if !siblingReduced {
        return Err(NotReduced);
      }
    }
    if receipt.verifierParameters != p.parameters {
      return Err(WrongParameters);
    }
    r := ValidateSeal(receipt.seal, p.root, claimDigest, carriedDigest);
  }

  /** The words a root and a claim digest put at the front of a seal. */
  function SealPrefix(root: Digest, claimDigest: Digest): (prefix: seq<uint32>)
    ensures |prefix| == 33
  {
    RootSlot(root) + ClaimSlot(DigestBytes(claimDigest)) + [OUTER_PO2]
  }

  /** The accepted seals are exactly the one prefix of a reduced root and a claim digest, followed by any
      reduced words. */
  lemma AcceptedSealsArePrefixAndTail(seal: seq<uint32>, root: Digest, claimDigest: Digest)
    ensures SealAccepted(seal, root, claimDigest) <==>
              && Reduced(root) && |seal| == PROOF_WORDS
              && seal[..33] == SealPrefix(root, claimDigest) && Reduced(seal[33..])
  {
    var prefix := SealPrefix(root, claimDigest);
    assert prefix[..16] == RootSlot(root) && prefix[16..32] == ClaimSlot(DigestBytes(claimDigest));
    if |seal| == PROOF_WORDS {
      assert seal[..33] == seal[..16] + seal[16..32] + [seal[32]];
      assert seal[..33][..16] == seal[..16] && seal[..33][16..32] == seal[16..32];
      assert forall i :: 0 <= i < 32 ==> prefix[i] < P;
      if seal[..33] == prefix && Reduced(seal[33..]) {
        forall i | 0 <= i < |seal| && i != 32 ensures seal[i] < P {
          assert if i < 33 then seal[i] == prefix[i] else seal[i] == seal[33..][i - 33];
        }
      }
    }
  }

  /** For a fixed root and claim digest the first 33 words of the seal are determined: any two accepted
      seals agree on them, whatever the proof in the rest. */
  lemma SealPrefixUnique(a: seq<uint32>, b: seq<uint32>, root: Digest, claimDigest: Digest)
    requires SealAccepted(a, root, claimDigest) && SealAccepted(b, root, claimDigest)
    ensures a[..33] == b[..33]
  {
    AcceptedSealsArePrefixAndTail(a, root, claimDigest);
    AcceptedSealsArePrefixAndTail(b, root, claimDigest);
  }

  /** A seal carries one root and one claim digest: it is accepted for no other pair. */
  lemma SealBindsRootAndClaim(seal: seq<uint32>, root: Digest, claimDigest: Digest, root': Digest, claimDigest': Digest)
    requires SealAccepted(seal, root, claimDigest) && SealAccepted(seal, root', claimDigest')
    ensures root == root' && claimDigest == claimDigest'
  {
    forall i | 0 <= i < 8 ensures root[i] == root'[i] {
      assert RootSlot(root)[2 * i] == RootSlot(root')[2 * i];
      MontInverse(root[i]);
      MontInverse(root'[i]);
    }
    ClaimSlotInjective(DigestBytes(claimDigest), DigestBytes(claimDigest'));
    DigestBytesInjective(claimDigest, claimDigest');
  }

  function LiftId(p: Profile, po2: uint32): Digest
    requires WellFormedProfile(p) && SupportedPo2(po2)
  {
    p.liftIds[po2 - MIN_SEGMENT_PO2]
  }

  /** `normal_lift_segment_po2`: the exponent whose frozen lift has this control identity, if there is one.
      The frozen identities are distinct, so the exponent is unique. */
  method NormalLiftSegmentPo2(p: Profile, controlId: Digest) returns (r: Option<uint32>)
    requires WellFormedProfile(p)
    ensures r == LiftPo2(p, controlId)
  {
    for po2: int := MIN_SEGMENT_PO2 to MAX_SEGMENT_PO2 + 1
      invariant forall q: uint32 :: MIN_SEGMENT_PO2 <= q < po2 ==> LiftId(p, q) != controlId
    {
      if LiftId(p, po2) == controlId {
        return Some(po2);
      }
    }
    return None;
  }

  ghost function LiftPo2(p: Profile, controlId: Digest): (r: Option<uint32>)
    requires WellFormedProfile(p)
    ensures r.Some? ==> SupportedPo2(r.value) && LiftId(p, r.value) == controlId
    ensures forall q: uint32 :: SupportedPo2(q) && LiftId(p, q) == controlId ==> r == Some(q)
  {
    if q: uint32 :| SupportedPo2(q) && LiftId(p, q) == controlId then
      assert forall q': uint32 :: SupportedPo2(q') && LiftId(p, q') == controlId ==> q' == q;
      Some(q)
    else None
  }
}
