/** Bytes, machine words and the little-endian form shared by GPT, UEFI and SMBIOS. */
module Bytes {
  type byte = b: int | 0 <= b < 0x100
  type u16 = n: int | 0 <= n < 0x1_0000
  type u32 = n: int | 0 <= n < 0x1_0000_0000
  type u64 = n: int | 0 <= n < 0x1_0000_0000_0000_0000

  const U64_MAX: u64 := 0xFFFF_FFFF_FFFF_FFFF

  /** `u16::to_le_bytes`. */
  function U16Bytes(n: u16): seq<byte> {
    [n % 0x100, n / 0x100]
  }

  /** `u16::from_le_bytes`. */
  function U16(lo: byte, hi: byte): u16 {
    lo + 0x100 * hi
  }

  function Pow256(k: nat): nat {
    if k == 0 then 1 else 0x100 * Pow256(k - 1)
  }

  /** The `k` low bytes of `n`, least significant first (`to_le_bytes`). */
  function LittleEndian(n: nat, k: nat): (s: seq<byte>)
    ensures |s| == k
  {
    if k == 0 then [] else [n % 0x100] + LittleEndian(n / 0x100, k - 1)
  }

  /** The number whose little-endian form is `s` (`from_le_bytes`). */
  function FromLittleEndian(s: seq<byte>): (n: nat)
    ensures n < Pow256(|s|)
  {
    if s == [] then 0 else s[0] + 0x100 * FromLittleEndian(s[1..])
  }

  lemma {:induction false} DecodeEncode(n: nat, k: nat)
    requires n < Pow256(k)
    ensures FromLittleEndian(LittleEndian(n, k)) == n
  {
    if k > 0 {
      DecodeEncode(n / 0x100, k - 1);
      assert LittleEndian(n, k)[1..] == LittleEndian(n / 0x100, k - 1);
    }
  }

  lemma {:induction false} EncodeDecode(s: seq<byte>)
    ensures LittleEndian(FromLittleEndian(s), |s|) == s
  {
    if s != [] {
      EncodeDecode(s[1..]);
      var n := FromLittleEndian(s[1..]);
      assert FromLittleEndian(s) % 0x100 == s[0] && FromLittleEndian(s) / 0x100 == n;
      hide FromLittleEndian;
      assert [s[0]] + s[1..] == s;
    }
  }

  /** Every `u32` fits in four bytes, every `u64` in eight. */
  lemma WordBounds()
    ensures Pow256(4) == 0x1_0000_0000 && Pow256(8) == 0x1_0000_0000_0000_0000
  {
    assert Pow256(4) == 0x100 * (0x100 * Pow256(2));
    assert Pow256(8) == 0x100 * (0x100 * (0x100 * (0x100 * Pow256(4))));
  }

  function U32Bytes(n: u32): seq<byte> {
    LittleEndian(n, 4)
  }

  function U64Bytes(n: u64): seq<byte> {
    LittleEndian(n, 8)
  }

  function U32From(s: seq<byte>): u32
    requires |s| == 4
  {
    WordBounds();
    FromLittleEndian(s)
  }

  function U64From(s: seq<byte>): u64
    requires |s| == 8
  {
    WordBounds();
    FromLittleEndian(s)
  }

  lemma U32RoundTrip(n: u32)
    ensures U32From(U32Bytes(n)) == n
  {
    WordBounds();
    DecodeEncode(n, 4);
  }

  lemma U64RoundTrip(n: u64)
    ensures U64From(U64Bytes(n)) == n
  {
    WordBounds();
    DecodeEncode(n, 8);
  }

  /** A word is its four bytes, the low one first. */
  lemma WordOfFour(s: seq<byte>)
    requires |s| == 4
    ensures U32From(s) == s[0] as int + 0x100 * (s[1] as int) + 0x1_0000 * (s[2] as int) + 0x100_0000 * (s[3] as int)
  {
    assert s[1..][1..] == s[2..] && s[2..][1..] == s[3..] && s[3..][1..] == [];
    assert FromLittleEndian(s[3..]) == s[3];
    assert FromLittleEndian(s[2..]) == s[2] as int + 0x100 * (s[3] as int);
    assert FromLittleEndian(s[1..]) == s[1] as int + 0x100 * (s[2] as int) + 0x1_0000 * (s[3] as int);
  }

  /** `part` stands in `raw` at offset `at`. */
  predicate StandsAt(raw: seq<byte>, at: nat, part: seq<byte>) {
    at + |part| <= |raw| && raw[at..at + |part|] == part
  }

  lemma StandsApart(raw: seq<byte>, at: nat, a: seq<byte>, b: seq<byte>)
    ensures StandsAt(raw, at, a + b) <==> StandsAt(raw, at, a) && StandsAt(raw, at + |a|, b)
  {
    if StandsAt(raw, at, a + b) {
      assert raw[at..at + |a|] == (a + b)[..|a|];
      assert raw[at + |a|..at + |a| + |b|] == (a + b)[|a|..];
    }
    if StandsAt(raw, at, a) && StandsAt(raw, at + |a|, b) {
      assert raw[at..at + |a| + |b|] == raw[at..at + |a|] + raw[at + |a|..at + |a| + |b|];
    }
  }

  lemma StandsElement(raw: seq<byte>, at: nat, part: seq<byte>, i: nat)
    requires StandsAt(raw, at, part) && i < |part|
    ensures raw[at + i] == part[i]
  {
    assert raw[at..at + |part|][i] == raw[at + i];
  }
}
