/** Fixed-width unsigned integers and their little-endian byte encodings. */
module Words {
  import opened Codes

  const U8_MAX := 0xff
  const U16_MAX := 0xffff
  const U32_MAX := 0xffff_ffff

  type uint8 = x: int | 0 <= x <= U8_MAX
  type uint16 = x: int | 0 <= x <= U16_MAX
  type uint32 = x: int | 0 <= x <= U32_MAX

  type Bytes32 = s: seq<uint8> | |s| == 32 witness seq(32, _ => 0)

  function Le16(v: uint16): (s: seq<uint8>)
    ensures |s| == 2
  {
    [v % 0x100, v / 0x100]
  }

  function FromLe16(s: seq<uint8>): uint16
    requires |s| == 2
  {
    s[0] as int + 0x100 * (s[1] as int)
  }

  function Le32(v: uint32): (s: seq<uint8>)
    ensures |s| == 4
  {
    [v % 0x100, v / 0x100 % 0x100, v / 0x1_0000 % 0x100, v / 0x100_0000]
  }

  function FromLe32(s: seq<uint8>): uint32
    requires |s| == 4
  {
    s[0] as int + 0x100 * (s[1] as int) + 0x1_0000 * (s[2] as int) + 0x100_0000 * (s[3] as int)
  }

  /** The two-byte encoding and its reading are inverse, so a byte pair has one value and a value one pair. */
  lemma Le16Inverse(v: uint16, s: seq<uint8>)
    requires |s| == 2
    ensures FromLe16(s) == v <==> s == Le16(v)
  {
    if FromLe16(s) == v {
      assert s[0] == v % 0x100 && s[1] == v / 0x100;
    }
  }

  lemma LowByte(v: nat, low: uint8, high: nat)
    requires v == low as int + 0x100 * high
    ensures v % 0x100 == low && v / 0x100 == high
  {
  }

  lemma ByteQuotients(v: nat)
    ensures v / 0x1_0000 == v / 0x100 / 0x100 && v / 0x100_0000 == v / 0x100 / 0x100 / 0x100
  {
  }

  /** The four bytes are the digits of the value to base 256, lowest first. */
  lemma Le32Digits(v: uint32)
    ensures Le32(v)[0] == v % 0x100 && Le32(v)[1] == v / 0x100 % 0x100
    ensures Le32(v)[2] == v / 0x100 / 0x100 % 0x100 && Le32(v)[3] == v / 0x100 / 0x100 / 0x100
    ensures FromLe32(Le32(v)) == v
  {
    ByteQuotients(v);
    var (q, r) := (v / 0x100, v / 0x100 / 0x100);
    assert v == v % 0x100 + 0x100 * q && q == q % 0x100 + 0x100 * r && r == r % 0x100 + 0x100 * (r / 0x100);
  }

  lemma Le32Inverse(v: uint32, s: seq<uint8>)
    requires |s| == 4
    ensures FromLe32(s) == v <==> s == Le32(v)
  {
    Le32Digits(v);
    if FromLe32(s) == v {
      var q: nat := s[1] as int + 0x100 * (s[2] as int + 0x100 * (s[3] as int));
      LowByte(v, s[0], q);
      LowByte(q, s[1], s[2] as int + 0x100 * (s[3] as int));
      LowByte(s[2] as int + 0x100 * (s[3] as int), s[2], s[3]);
    }
  }

  /** The two bytes at `p` are the value, lowest first. */
  ghost predicate HalfAt(s: seq<uint8>, p: nat, v: int) {
    p + 2 <= |s| && s[p] as int + 0x100 * (s[p + 1] as int) == v
  }

  /** The four bytes at `p` are the value, lowest first. */
  ghost predicate WordAt(s: seq<uint8>, p: nat, v: int) {
    && p + 4 <= |s|
    && s[p] as int + 0x100 * (s[p + 1] as int) + 0x1_0000 * (s[p + 2] as int) + 0x100_0000 * (s[p + 3] as int) == v
  }

  lemma HalfIs(s: seq<uint8>, p: nat, v: uint16)
    requires p + 2 <= |s|
    ensures HalfAt(s, p, v) <==> s[p..p + 2] == Le16(v)
  {
    Le16Inverse(v, s[p..p + 2]);
  }

  lemma WordIs(s: seq<uint8>, p: nat, v: uint32)
    requires p + 4 <= |s|
    ensures WordAt(s, p, v) <==> s[p..p + 4] == Le32(v)
  {
    Le32Inverse(v, s[p..p + 4]);
  }

  /** The words one after the other, from `p` on. */
  ghost predicate WordsAt(s: seq<uint8>, p: nat, words: seq<uint32>) {
    forall i :: 0 <= i < |words| ==> WordAt(s, p + 4 * i, words[i])
  }

  lemma {:induction false} WordsAre(s: seq<uint8>, p: nat, words: seq<uint32>)
    requires p + 4 * |words| <= |s|
    ensures WordsAt(s, p, words) <==> s[p..p + 4 * |words|] == FlatMap(words, Le32)
    decreases |words|
  {
    if words != [] {
      var rest := words[1..];
      WordsAre(s, p + 4, rest);
      WordIs(s, p, words[0]);
      FlatMapLength(rest, Le32, 4);
      Halves(s, p, p + 4, p + 4 * |words|, Le32(words[0]), FlatMap(rest, Le32));
      WordsSplit(s, p, words);
    }
  }

  lemma WordsSplit(s: seq<uint8>, p: nat, words: seq<uint32>)
    requires words != []
    ensures WordsAt(s, p, words) <==> WordAt(s, p, words[0]) && WordsAt(s, p + 4, words[1..])
  {
    var rest := words[1..];
    assert forall i :: 0 <= i < |rest| ==> rest[i] == words[i + 1] && p + 4 + 4 * i == p + 4 * (i + 1);
    assert forall i :: 1 <= i < |words| ==> words[i] == rest[i - 1];
  }

  lemma Le32PrefixCode()
    ensures PrefixCode(Le32)
  {
    forall x, y | Le32(x) <= Le32(y) ensures x == y {
      Le32Inverse(x, Le32(x));
      Le32Inverse(y, Le32(x));
    }
  }
}
