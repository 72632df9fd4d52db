/** The digest of an image: its textual form and back. */
module Digest {
  import opened Bytes
  import opened Wrappers

  const DIGEST_BYTES: nat := 32
  const PREFIX: string := "sha256:"

  datatype DigestError = InvalidDigestFormat

  function HexNibble(c: char): (r: Option<int>)
    ensures r.Some? ==> 0 <= r.value < 16 && NibbleChar(r.value) == c
    ensures r.None? ==> forall n :: 0 <= n < 16 ==> NibbleChar(n) != c
  {
    if '0' <= c <= '9' then Some(c as int - '0' as int)
    else if 'a' <= c <= 'f' then Some(c as int - 'a' as int + 10)
    else None
  }

  /** Lower-case only. */
  function NibbleChar(n: int): char
    requires 0 <= n < 16
  {
    if n < 10 then ('0' as int + n) as char else ('a' as int + n - 10) as char
  }

  function Hex(b: byte): string {
    [NibbleChar(b / 16), NibbleChar(b % 16)]
  }

  function HexAll(bytes: seq<byte>): (r: string)
    ensures |r| == 2 * |bytes|
  {
    if |bytes| == 0 then "" else HexAll(bytes[..|bytes| - 1]) + Hex(bytes[|bytes| - 1])
  }

  function Display(digest: seq<byte>): string {
    PREFIX + HexAll(digest)
  }

  lemma {:induction false} HexAllAt(bytes: seq<byte>, i: nat)
    requires i < |bytes|
    ensures HexAll(bytes)[2 * i..2 * i + 2] == Hex(bytes[i])
  {
    var init := bytes[..|bytes| - 1];
    if i < |init| {
      HexAllAt(init, i);
      assert HexAll(bytes)[2 * i..2 * i + 2] == HexAll(init)[2 * i..2 * i + 2];
    }
  }

  /** The printed form: the name of the hash, and two lower-case hex digits for each byte, the high one first. */
  lemma DisplayLayout(digest: seq<byte>, i: nat)
    requires i < |digest|
    ensures |Display(digest)| == 7 + 2 * |digest| && Display(digest)[..7] == "sha256:"
    ensures Display(digest)[7 + 2 * i] == "0123456789abcdef"[digest[i] / 16]
    ensures Display(digest)[8 + 2 * i] == "0123456789abcdef"[digest[i] % 16]
  {
    HexAllAt(digest, i);
    var hex := HexAll(digest);
    assert hex[2 * i..2 * i + 2][0] == hex[2 * i] && hex[2 * i..2 * i + 2][1] == hex[2 * i + 1];
    assert Display(digest)[7 + 2 * i] == hex[2 * i] && Display(digest)[8 + 2 * i] == hex[2 * i + 1];
    assert PREFIX == "sha256:" && Display(digest)[..7] == PREFIX;
    NibbleIs(digest[i] / 16);
    NibbleIs(digest[i] % 16);
  }

  lemma NibbleIs(n: int)
    requires 0 <= n < 16
    ensures NibbleChar(n) == "0123456789abcdef"[n]
  {
  }

  lemma HexInjective(a: byte, b: byte)
    requires Hex(a) == Hex(b)
    ensures a == b
  {
    assert Hex(a)[0] == Hex(b)[0] && Hex(a)[1] == Hex(b)[1];
  }

  /** Different digests read differently. */
  lemma {:induction false} DisplayInjective(a: seq<byte>, b: seq<byte>)
    requires Display(a) == Display(b)
    ensures a == b
  {
    assert Display(a)[|PREFIX|..] == HexAll(a) && Display(b)[|PREFIX|..] == HexAll(b);
    assert |a| == |b|;
    forall i | 0 <= i < |a|
      ensures a[i] == b[i]
    {
      HexAllAt(a, i);
      HexAllAt(b, i);
      HexInjective(a[i], b[i]);
    }
  }

  /** `s` is the printed form of some digest. */
  ghost predicate Printed(s: string) {
    exists digest: seq<byte> :: |digest| == DIGEST_BYTES && Display(digest) == s
  }

  /** A text is accepted exactly when it is the printed form of some digest, and gives that digest. */
  method Parse(s: string) returns (r: Result<seq<byte>, DigestError>)
    ensures r.Ok? ==> |r.value| == DIGEST_BYTES && Display(r.value) == s
    ensures r.Ok? <==> Printed(s)
  {
    hide HexAll, Hex, HexNibble, Printed;
    if Printed(s) {
      PrintedHas64(s);
    }
    if !(PREFIX <= s) {
      return Err(InvalidDigestFormat);
    }
    var hex := s[|PREFIX|..];
    if |hex| != 64 {
      return Err(InvalidDigestFormat);
    }
    var bytes := new byte[DIGEST_BYTES](_ => 0);
    NoHex(bytes[..0], hex[..0]);
    for i := 0 to DIGEST_BYTES
      invariant HexAll(bytes[..i]) == hex[..2 * i]
    {
      var hi := HexNibble(hex[2 * i]);
      if hi.None? {
        NotHexAt(s, i);
        return Err(InvalidDigestFormat);
      }
      var lo := HexNibble(hex[2 * i + 1]);
      if lo.None? {
        NotHexAt(s, i);
        return Err(InvalidDigestFormat);
      }
      ghost var before := bytes[..i];
      bytes[i] := 16 * hi.value + lo.value;
      assert bytes[..i + 1] == before + [bytes[i]];
      OneMorePair(before, hex, i);
    }
    assert bytes[..DIGEST_BYTES] == bytes[..];
    ItIsPrinted(s, bytes[..]);
    return Ok(bytes[..]);
  }

  lemma NoHex(bytes: seq<byte>, hex: string)
    requires |bytes| == 0 && |hex| == 0
    ensures HexAll(bytes) == hex
  {
  }

  lemma ItIsPrinted(s: string, digest: seq<byte>)
    requires PREFIX <= s && |digest| == DIGEST_BYTES && HexAll(digest) == s[|PREFIX|..]
    ensures Display(digest) == s && Printed(s)
  {
    assert PREFIX + s[|PREFIX|..] == s;
  }

  lemma OneMorePair(before: seq<byte>, hex: string, i: nat)
    requires |hex| == 64 && i < DIGEST_BYTES && HexAll(before) == hex[..2 * i]
    requires HexNibble(hex[2 * i]).Some? && HexNibble(hex[2 * i + 1]).Some?
    ensures HexAll(before + [16 * HexNibble(hex[2 * i]).value + HexNibble(hex[2 * i + 1]).value]) == hex[..2 * (i + 1)]
  {
    hide HexAll, Hex, HexNibble;
    HexAllPush(before, 16 * HexNibble(hex[2 * i]).value + HexNibble(hex[2 * i + 1]).value);
    HexJoins(hex[2 * i], hex[2 * i + 1]);
    assert hex[..2 * (i + 1)] == hex[..2 * i] + [hex[2 * i], hex[2 * i + 1]];
  }

  lemma PrintedHas64(s: string)
    requires Printed(s)
    ensures PREFIX <= s && |s| == |PREFIX| + 64
  {
  }

  lemma HexAllPush(bytes: seq<byte>, b: byte)
    ensures HexAll(bytes + [b]) == HexAll(bytes) + Hex(b)
  {
    assert (bytes + [b])[..|bytes|] == bytes;
  }

  lemma HexJoins(hi: char, lo: char)
    requires HexNibble(hi).Some? && HexNibble(lo).Some?
    ensures Hex(16 * HexNibble(hi).value + HexNibble(lo).value) == [hi, lo]
  {
  }

  /** A text with another character at either place of pair `i` is no printed digest. */
  lemma NotHexAt(s: string, i: nat)
    requires |s| == |PREFIX| + 64 && i < DIGEST_BYTES
    requires HexNibble(s[|PREFIX|..][2 * i]).None? || HexNibble(s[|PREFIX|..][2 * i + 1]).None?
    ensures !Printed(s)
  {
    forall digest: seq<byte> | |digest| == DIGEST_BYTES
      ensures Display(digest) != s
    {
      HexAllAt(digest, i);
      var printed := HexAll(digest);
      assert printed[2 * i] == printed[2 * i..2 * i + 2][0] == NibbleChar(digest[i] / 16);
      assert printed[2 * i + 1] == printed[2 * i..2 * i + 2][1] == NibbleChar(digest[i] % 16);
      assert Display(digest)[|PREFIX|..] == printed;
    }
  }
}
