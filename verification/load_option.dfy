/** `EFI_LOAD_OPTION`, the value of a `Boot####` variable (section 3.1.3 of the UEFI specification). */
module LoadOptions {
  import opened Bytes
  import opened DevicePath
  import opened Wrappers

  const LOAD_OPTION_ACTIVE: u32 := 0x01

  /** Text is kept as UCS-2 code units: it is only ever compared with ASCII constants. */
  datatype LoadOption = LoadOption(attributes: u32, description: seq<u16>, devicePath: seq<byte>) {
    predicate IsActive() {
      attributes % 2 == 1
    }

    /** Active and in the BOOT category, that is with bits 8 to 12 clear. */
    predicate IsAutoBootable() {
      IsActive() && attributes / 0x100 % 0x20 == 0
    }

    function Hd(): Option<HdNode> {
      FirstHd(Nodes(devicePath))
    }

    function Loader(): Option<seq<u16>> {
      LoaderPath(Nodes(devicePath))
    }
  }

  function EncodeLoadOption(attributes: u32, description: seq<u16>, devicePath: seq<byte>): seq<byte> {
    U32Bytes(attributes) + U16Bytes(|devicePath| % 0x1_0000) + Ucs2Nul(description) + devicePath
  }

  /** The NUL-terminated units that start at `at`, and the offset behind the NUL. */
  function UnitsAt(raw: seq<byte>, at: nat): (r: Option<(seq<u16>, nat)>)
    ensures r.Some? ==> at + 2 <= r.value.1 <= |raw|
    decreases |raw| - at
  {
    if at + 2 > |raw| then None
    else
      var u := U16(raw[at], raw[at + 1]);
      if u == NUL then Some(([], at + 2))
      else
        match UnitsAt(raw, at + 2)
        case None => None
        case Some((units, end)) => Some(([u] + units, end))
  }

  function DecodeLoadOption(raw: seq<byte>): Option<LoadOption> {
    if |raw| < 6 then None
    else
      match UnitsAt(raw, 6)
      case None => None
      case Some((units, at)) =>
        var len := U16(raw[4], raw[5]);
        if at + len > |raw| then None
        else Some(LoadOption(U32From(raw[0..4]), units, raw[at..at + len]))
  }

  /**
   In the stored bytes: bit 0 of the first is the active bit, and the low five bits of the second are the
   category; the firmware boots on its own what is active and of category zero.
   */
  lemma FlagsFromBytes(raw: seq<byte>)
    requires DecodeLoadOption(raw).Some?
    ensures var o := DecodeLoadOption(raw).value;
            && |raw| >= 6
            && (o.IsActive() <==> raw[0] % 2 == 1)
            && (o.IsAutoBootable() <==> raw[0] % 2 == 1 && raw[1] % 0x20 == 0)
  {
    hide UnitsAt, U32From;
    WordOfFour(raw[0..4]);
    LowBits(raw[0], raw[1], raw[2] as int + 0x100 * (raw[3] as int));
  }

  lemma LowBits(a: byte, b: byte, high: int)
    ensures var n := a as int + 0x100 * (b as int) + 0x1_0000 * high;
            n % 2 == a % 2 && n / 0x100 % 0x20 == b % 0x20
  {
    var n := a as int + 0x100 * (b as int) + 0x1_0000 * high;
    EvenPart(a, 0x80 * (b as int) + 0x8000 * high);
    assert n == a as int + 2 * (0x80 * (b as int) + 0x8000 * high);
    HighPart(a, b as int + 0x100 * high);
    assert n == a as int + 0x100 * (b as int + 0x100 * high);
    CategoryPart(b, 8 * high);
  }

  lemma EvenPart(a: byte, k: int)
    ensures (a as int + 2 * k) % 2 == a % 2
  {
  }

  lemma HighPart(a: byte, k: int)
    ensures (a as int + 0x100 * k) / 0x100 == k
  {
  }

  lemma CategoryPart(b: byte, k: int)
    ensures (b as int + 0x20 * k) % 0x20 == b % 0x20
  {
  }

  method ParseLoadOption(raw: seq<byte>) returns (r: Option<LoadOption>)
    ensures r == DecodeLoadOption(raw)
  {
    if |raw| < 4 {
      return None;
    }
    var attributes := U32From(raw[0..4]);
    if |raw| < 6 {
      return None;
    }
    var len := U16(raw[4], raw[5]);
    var units: seq<u16> := [];
    var at := 6;
    assert forall more: seq<u16> :: units + more == more;
    while true
      invariant 6 <= at <= |raw|
      invariant match UnitsAt(raw, at)
                case None => UnitsAt(raw, 6) == None
                case Some((more, end)) => UnitsAt(raw, 6) == Some((units + more, end))
      decreases |raw| - at
    {
      if at + 2 > |raw| {
        return None;
      }
      var u := U16(raw[at], raw[at + 1]);
      at := at + 2;
      if u == NUL {
        assert units + [] == units;
        break;
      }
      assert forall more: seq<u16> :: units + ([u] + more) == units + [u] + more;
      units := units + [u];
    }
    if at + len > |raw| {
      return None;
    }
    return Some(LoadOption(attributes, units, raw[at..at + len]));
  }

  /** Wherever NUL-terminated text stands, it is read. */
  lemma {:induction false} UnitsAtStanding(raw: seq<byte>, at: nat, s: seq<u16>)
    requires NulFree(s) && StandsAt(raw, at, Ucs2Nul(s))
    ensures UnitsAt(raw, at) == Some((s, at + 2 * |s| + 2))
    decreases |s|
  {
    if |s| == 0 {
      UnitStands(raw, at, NUL, []);
      assert s == [];
    } else {
      assert s == [s[0]] + s[1..] && NulFree(s[1..]) && s[0] != NUL;
      Ucs2Cons(s);
      hide Ucs2Nul, NulFree, StandsAt, U16Bytes;
      UnitStands(raw, at, s[0], Ucs2Nul(s[1..]));
      UnitsAtStanding(raw, at + 2, s[1..]);
    }
  }

  lemma Ucs2Cons(s: seq<u16>)
    requires |s| > 0
    ensures Ucs2Nul(s) == U16Bytes(s[0]) + Ucs2Nul(s[1..])
  {
    hide UnitBytes;
    assert UnitBytes(s) == U16Bytes(s[0]) + UnitBytes(s[1..]) by {
      UnitBytesCons(s);
    }
  }

  lemma UnitBytesCons(s: seq<u16>)
    requires |s| > 0
    ensures UnitBytes(s) == U16Bytes(s[0]) + UnitBytes(s[1..])
  {
  }

  /** A unit in front of `rest` is read as itself. */
  lemma UnitStands(raw: seq<byte>, at: nat, u: u16, rest: seq<byte>)
    requires StandsAt(raw, at, U16Bytes(u) + rest)
    ensures at + 2 <= |raw| && U16(raw[at], raw[at + 1]) == u && StandsAt(raw, at + 2, rest)
  {
    StandsApart(raw, at, U16Bytes(u), rest);
    StandsElement(raw, at, U16Bytes(u), 0);
    StandsElement(raw, at, U16Bytes(u), 1);
  }

  /** And what is read as text stands there. */
  lemma {:induction false} UnitsStand(raw: seq<byte>, at: nat)
    requires UnitsAt(raw, at).Some?
    ensures StandsAt(raw, at, Ucs2Nul(UnitsAt(raw, at).value.0))
    decreases |raw| - at
  {
    var u := U16(raw[at], raw[at + 1]);
    assert raw[at..at + 2] == U16Bytes(u);
    if u == NUL {
      assert Ucs2Nul([]) == U16Bytes(NUL);
    } else {
      UnitsStand(raw, at + 2);
      var rest := UnitsAt(raw, at + 2).value.0;
      var units := UnitsAt(raw, at).value.0;
      assert units == [u] + rest && units[1..] == rest;
      Ucs2Cons(units);
      hide Ucs2Nul, UnitsAt, U16Bytes;
      StandsApart(raw, at, U16Bytes(u), Ucs2Nul(rest));
    }
  }

  /** In the stored bytes: the description is `s` exactly when its units and a NUL stand behind the first six. */
  lemma DescriptionFromBytes(raw: seq<byte>, s: seq<u16>)
    requires DecodeLoadOption(raw).Some? && NulFree(s)
    ensures DecodeLoadOption(raw).value.description == s <==> StandsAt(raw, 6, Ucs2Nul(s))
  {
    UnitsStand(raw, 6);
    if StandsAt(raw, 6, Ucs2Nul(s)) {
      UnitsAtStanding(raw, 6, s);
    }
    hide UnitsAt, StandsAt, Ucs2Nul;
  }

  /** What is decoded holds no NUL and a path shorter than 64 KiB. */
  lemma {:induction false} UnitsAtNulFree(raw: seq<byte>, at: nat)
    ensures UnitsAt(raw, at).Some? ==> NulFree(UnitsAt(raw, at).value.0)
    decreases |raw| - at
  {
    if at + 2 <= |raw| {
      UnitsAtNulFree(raw, at + 2);
    }
  }

  lemma DecodeEncoded(attributes: u32, description: seq<u16>, devicePath: seq<byte>)
    requires NulFree(description)
    ensures DecodeLoadOption(EncodeLoadOption(attributes, description, devicePath))
         == Some(LoadOption(attributes, description, devicePath[..|devicePath| % 0x1_0000]))
  {
    var raw := EncodeLoadOption(attributes, description, devicePath);
    var len := |devicePath| % 0x1_0000;
    var at := 6 + 2 * |description| + 2;
    PartsStand(attributes, description, devicePath);
    hide *;
    U32RoundTrip(attributes);
    UnitsAtStanding(raw, 6, description);
    WordAt(raw, 4, len);
    WholeAt(raw, U32Bytes(attributes));
    SliceAt(raw, at, devicePath, len);
    DecodeFrom(raw, description, at, len);
  }

  lemma WholeAt(raw: seq<byte>, part: seq<byte>)
    requires StandsAt(raw, 0, part)
    ensures |part| <= |raw| && raw[0..|part|] == part
  {
  }

  lemma DecodeFrom(raw: seq<byte>, units: seq<u16>, at: nat, len: nat)
    requires |raw| >= 6 && UnitsAt(raw, 6) == Some((units, at)) && U16(raw[4], raw[5]) == len && at + len <= |raw|
    ensures DecodeLoadOption(raw) == Some(LoadOption(U32From(raw[0..4]), units, raw[at..at + len]))
  {
    hide UnitsAt, U32From;
  }

  /** Each part of an encoded option stands at its offset. */
  lemma PartsStand(attributes: u32, description: seq<u16>, devicePath: seq<byte>)
    ensures var raw := EncodeLoadOption(attributes, description, devicePath);
            && |U32Bytes(attributes)| == 4 && StandsAt(raw, 0, U32Bytes(attributes))
            && StandsAt(raw, 4, U16Bytes(|devicePath| % 0x1_0000))
            && StandsAt(raw, 6, Ucs2Nul(description))
            && StandsAt(raw, 6 + 2 * |description| + 2, devicePath)
  {
    U32Length(attributes);
    Ucs2Length(description);
    var raw := EncodeLoadOption(attributes, description, devicePath);
    var word := U16Bytes(|devicePath| % 0x1_0000);
    assert StandsAt(raw, 0, raw);
    hide Ucs2Nul, U32Bytes, StandsAt;
    StandsApart(raw, 0, U32Bytes(attributes) + word + Ucs2Nul(description), devicePath);
    StandsApart(raw, 0, U32Bytes(attributes) + word, Ucs2Nul(description));
    StandsApart(raw, 0, U32Bytes(attributes), word);
  }

  lemma WordAt(raw: seq<byte>, at: nat, n: u16)
    requires StandsAt(raw, at, U16Bytes(n))
    ensures at + 2 <= |raw| && U16(raw[at], raw[at + 1]) == n
  {
    StandsElement(raw, at, U16Bytes(n), 0);
    StandsElement(raw, at, U16Bytes(n), 1);
  }

  lemma SliceAt(raw: seq<byte>, at: nat, part: seq<byte>, len: nat)
    requires StandsAt(raw, at, part) && len <= |part|
    ensures at + len <= |raw| && raw[at..at + len] == part[..len]
  {
    assert raw[at..at + |part|][..len] == raw[at..at + len];
  }

  lemma Ucs2Length(s: seq<u16>)
    ensures |Ucs2Nul(s)| == 2 * |s| + 2
  {
  }

  lemma U32Length(n: u32)
    ensures |U32Bytes(n)| == 4
  {
  }

  /** A load option survives encoding exactly when its text is NUL-free and its path under 64 KiB. */
  lemma LoadOptionRoundTrip(attributes: u32, description: seq<u16>, devicePath: seq<byte>)
    ensures DecodeLoadOption(EncodeLoadOption(attributes, description, devicePath))
         == Some(LoadOption(attributes, description, devicePath))
        <==> NulFree(description) && |devicePath| < 0x1_0000
  {
    hide EncodeLoadOption;
    if NulFree(description) {
      hide DecodeLoadOption;
      DecodeEncoded(attributes, description, devicePath);
      var kept := devicePath[..|devicePath| % 0x1_0000];
      assert |devicePath| < 0x1_0000 ==> kept == devicePath;
      assert |devicePath| >= 0x1_0000 ==> |kept| != |devicePath|;
    } else {
      UnitsAtNulFree(EncodeLoadOption(attributes, description, devicePath), 6);
    }
  }
}
