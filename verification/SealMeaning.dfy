/** The shape of a receipt word by word: where a seal carries the root, the claim digest and the exponent, and which
    control identity each terminal has. */
module SealMeaning {
  import opened Codes
  import opened Words
  import opened Seal

  /** `raw` is the residue of 2^32 times `value` modulo the field order. */
  ghost predicate Carries(raw: int, value: int) {
    raw == value * 0x1_0000_0000 % 2_013_265_921
  }

  ghost predicate BelowOrder(words: seq<uint32>) {
    forall i :: 0 <= i < |words| ==> words[i] < 2_013_265_921
  }

  /** Words 0 to 15 carry the root with zeros between, words 16 to 31 the two halves of each digest word, the low one
      first, and word 32 is 18; all words but that one are below the field order. */
  ghost predicate SealHolds(seal: seq<uint32>, root: Digest, digest: Digest) {
    && |seal| == 55_667 && seal[32] == 18
    && (forall i :: 0 <= i < |seal| && i != 32 ==> seal[i] < 2_013_265_921)
    && BelowOrder(root)
    && (forall k :: 0 <= k < 8 ==> Carries(seal[2 * k], root[k]) && seal[2 * k + 1] == 0)
    && (forall k :: 0 <= k < 8 ==>
          Carries(seal[16 + 2 * k], digest[k] % 0x1_0000) && Carries(seal[17 + 2 * k], digest[k] / 0x1_0000))
  }

  /** A receipt from the terminal program, whose seal carries the profile's root and the digest. */
  ghost predicate WellShaped<C>(receipt: SuccinctReceipt<C>, p: Profile, terminal: CandidateTerminal, digest: Digest)
    requires |p.liftIds| == 8
  {
    && receipt.hashfn == "poseidon2"
    && (match terminal
        case Lift(po2) =>
          15 <= po2 <= 22 && receipt.controlId == p.liftIds[po2 - 15] && receipt.inclusion.index == po2 - 10
        case Join => receipt.controlId == p.joinId && receipt.inclusion.index == 1
        case Resolve => receipt.controlId == p.resolveId && receipt.inclusion.index == 22)
    && BelowOrder(receipt.controlId)
    && |receipt.inclusion.digests| == 8
    && (forall i :: 0 <= i < 8 ==> BelowOrder(receipt.inclusion.digests[i]))
    && receipt.verifierParameters == p.parameters
    && SealHolds(receipt.seal, p.root, digest)
  }

  /** The decoding of a raw word is what the word carries. */
  lemma MontgomeryIs(x: uint32)
    ensures FromMont(x) * 0x1_0000_0000 % 2_013_265_921 == x % 2_013_265_921
    ensures Carries(ToMont(x), x)
  {
    assert R * R_INVERSE == 1 + (R * R_INVERSE / P) * P;
    ModMul(x * R_INVERSE, R);
    assert x * R_INVERSE * R == x + (x * (R * R_INVERSE / P)) * P by {
      assert x * R_INVERSE * R == x * (R * R_INVERSE);
    }
    ModShift(x, x * (R * R_INVERSE / P));
  }

  /** Byte pairs 2k and 2k + 1 of a digest are the halves of its word k. */
  lemma HalvesOf(d: Digest, k: nat)
    requires k < 8
    ensures Halfword(DigestBytes(d), 2 * k) == d[k] % 0x1_0000
    ensures Halfword(DigestBytes(d), 2 * k + 1) == d[k] / 0x1_0000
  {
    var bytes := DigestBytes(d);
    FlatMapSplit(d, Le32, k);
    FlatMapLength(d[..k], Le32, 4);
    assert bytes[4 * k..4 * k + 4] == Le32(d[k]);
    Le32Digits(d[k]);
    assert bytes[4 * k] == Le32(d[k])[0] && bytes[4 * k + 1] == Le32(d[k])[1];
    assert bytes[4 * k + 2] == Le32(d[k])[2] && bytes[4 * k + 3] == Le32(d[k])[3];
  }

  lemma SlotsCarry(slot: seq<uint32>, root: Digest)
    requires |slot| == 16
    ensures slot == RootSlot(root) <==> forall k :: 0 <= k < 8 ==> Carries(slot[2 * k], root[k]) && slot[2 * k + 1] == 0
  {
    forall k | 0 <= k < 8 ensures RootSlot(root)[2 * k] == ToMont(root[k]) && RootSlot(root)[2 * k + 1] == 0 {
      assert 2 * k / 2 == k;
    }
    if forall k :: 0 <= k < 8 ==> Carries(slot[2 * k], root[k]) && slot[2 * k + 1] == 0 {
      forall i | 0 <= i < 16 ensures slot[i] == RootSlot(root)[i] {
        var k := i / 2;
        assert Carries(slot[2 * k], root[k]) && slot[2 * k + 1] == 0;
      }
    }
  }

  lemma ClaimSlotCarries(slot: seq<uint32>, digest: Digest)
    requires |slot| == 16
    ensures slot == ClaimSlot(DigestBytes(digest)) <==>
              forall k :: 0 <= k < 8 ==>
                Carries(slot[2 * k], digest[k] % 0x1_0000) && Carries(slot[2 * k + 1], digest[k] / 0x1_0000)
  {
    var bytes := DigestBytes(digest);
    forall k | 0 <= k < 8
      ensures ClaimSlot(bytes)[2 * k] == ToMont(digest[k] % 0x1_0000)
              && ClaimSlot(bytes)[2 * k + 1] == ToMont(digest[k] / 0x1_0000)
    {
      HalvesOf(digest, k);
    }
    if forall k :: 0 <= k < 8 ==>
         Carries(slot[2 * k], digest[k] % 0x1_0000) && Carries(slot[2 * k + 1], digest[k] / 0x1_0000)
    {
      forall i | 0 <= i < 16 ensures slot[i] == ClaimSlot(bytes)[i] {
        var k := i / 2;
        assert Carries(slot[2 * k], digest[k] % 0x1_0000) && Carries(slot[2 * k + 1], digest[k] / 0x1_0000);
        assert i == 2 * k || i == 2 * k + 1;
      }
    }
  }

  lemma SealMeans(seal: seq<uint32>, root: Digest, digest: Digest)
    ensures SealAccepted(seal, root, digest) <==> SealHolds(seal, root, digest)
  {
    if |seal| == 55_667 {
      var (roots, claims) := (seal[..16], seal[16..32]);
      SlotsCarry(roots, root);
      ClaimSlotCarries(claims, digest);
      SlicesOf(seal);
    }
  }

  lemma SlicesOf(seal: seq<uint32>)
    requires |seal| == 55_667
    ensures forall k :: 0 <= k < 8 ==> seal[..16][2 * k] == seal[2 * k] && seal[..16][2 * k + 1] == seal[2 * k + 1]
    ensures forall k :: 0 <= k < 8 ==>
              seal[16..32][2 * k] == seal[16 + 2 * k] && seal[16..32][2 * k + 1] == seal[17 + 2 * k]
  {
  }

  /** The shape gate accepts exactly the receipts shaped this way that state the digest. */
  lemma ShapeMeans<C>(receipt: SuccinctReceipt<C>, p: Profile, terminal: CandidateTerminal, carried: Digest,
                      digest: Digest)
    requires WellFormedProfile(p)
    ensures ShapeAccepted(receipt, p, terminal, carried, digest)
       <==> carried == digest && WellShaped(receipt, p, terminal, digest)
  {
    SealMeans(receipt.seal, p.root, digest);
  }
}
