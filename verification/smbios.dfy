/** The SMBIOS structure table (section 6.1 of the DMTF specification DSP0134): parser, encoder, and their inverses. */
module Smbios {
  import opened Bytes
  import opened Seqs
  import opened Wrappers

  const TYPE_END_OF_TABLE: byte := 127

  /** One structure; `data` is the formatted area, header included, and strings are kept as bytes. */
  datatype Structure = Structure(headerType: byte, handle: u16, data: seq<byte>, strings: seq<seq<byte>>)

  datatype SmbiosError = Truncated(offset: nat) | BadLength(offset: nat, length: nat)

  // ---------------------------------------------------------------- the string set

  /** The offset of the first NUL from `p` on, or the end. */
  function NulFrom(raw: seq<byte>, p: nat): (q: nat)
    requires p <= |raw|
    ensures p <= q <= |raw|
    ensures q < |raw| ==> raw[q] == 0
    ensures forall i :: p <= i < q ==> raw[i] != 0
    decreases |raw| - p
  {
    if p == |raw| || raw[p] == 0 then p else NulFrom(raw, p + 1)
  }

  /** The strings from `p` on up to the closing NUL, and the offset behind it; None when cut off. */
  function StringsFrom(raw: seq<byte>, p: nat): (r: Option<(seq<seq<byte>>, nat)>)
    requires p <= |raw|
    ensures r.Some? ==> p + 2 <= r.value.1 <= |raw|
    decreases |raw| - p
  {
    var q := NulFrom(raw, p);
    if q + 1 >= |raw| then None
    else if raw[q + 1] == 0 then Some(([raw[p..q]], q + 2))
    else
      match StringsFrom(raw, q + 1)
      case None => None
      case Some((more, next)) => Some(([raw[p..q]] + more, next))
  }

  /** The whole string set at `start`. */
  function StringSet(raw: seq<byte>, start: nat): (r: Option<(seq<seq<byte>>, nat)>)
    requires start <= |raw|
    ensures r.Some? ==> start + 2 <= r.value.1 <= |raw|
  {
    if start + 2 > |raw| then None
    else if raw[start] == 0 && raw[start + 1] == 0 then Some(([], start + 2))
    else StringsFrom(raw, start)
  }

  method ParseStringSet(raw: seq<byte>, start: nat, structOffset: nat)
    returns (r: Result<(seq<seq<byte>>, nat), SmbiosError>)
    requires start <= |raw|
    ensures r == match StringSet(raw, start)
                 case None => Err(Truncated(structOffset))
                 case Some(parsed) => Ok(parsed)
  {
    var p := start;
    if p + 2 > |raw| {
      return Err(Truncated(structOffset));
    }
    if raw[p] == 0 && raw[p + 1] == 0 {
      return Ok(([], p + 2));
    }
    var strings: seq<seq<byte>> := [];
    NothingYet(raw, start);
    hide StringsFrom, SoFar;
    while true
      invariant start <= p < |raw|
      invariant SoFar(raw, start, strings, p)
      decreases |raw| - p
    {
      var strStart := p;
      while p < |raw| && raw[p] != 0
        invariant strStart <= p <= |raw|
        invariant NulFrom(raw, strStart) == NulFrom(raw, p)
      {
        p := p + 1;
      }
      StringsStep(raw, start, strings, strStart);
      if p >= |raw| {
        return Err(Truncated(structOffset));
      }
      strings := strings + [raw[strStart..p]];
      p := p + 1;
      if p >= |raw| {
        return Err(Truncated(structOffset));
      }
      if raw[p] == 0 {
        return Ok((strings, p + 1));
      }
    }
  }

  /** The set at `start` is `done`, and then what is found from `p` on. */
  predicate SoFar(raw: seq<byte>, start: nat, done: seq<seq<byte>>, p: nat)
    requires start <= |raw| && p <= |raw|
  {
    match StringsFrom(raw, p)
    case None => StringsFrom(raw, start).None?
    case Some((more, next)) => StringsFrom(raw, start) == Some((done + more, next))
  }

  lemma NothingYet(raw: seq<byte>, start: nat)
    requires start <= |raw|
    ensures SoFar(raw, start, [], start)
  {
    hide StringsFrom;
    if StringsFrom(raw, start).Some? {
      EmptyLeft(StringsFrom(raw, start).value.0);
    }
  }

  lemma StringsStep(raw: seq<byte>, start: nat, done: seq<seq<byte>>, p: nat)
    requires start <= |raw| && p < |raw| && SoFar(raw, start, done, p)
    ensures var q := NulFrom(raw, p);
            if q + 1 >= |raw| then StringsFrom(raw, start).None?
            else if raw[q + 1] == 0 then StringsFrom(raw, start) == Some((done + [raw[p..q]], q + 2))
            else SoFar(raw, start, done + [raw[p..q]], q + 1)
  {
    hide NulFrom;
    var q := NulFrom(raw, p);
    if q + 1 < |raw| && raw[q + 1] != 0 && StringsFrom(raw, q + 1).Some? {
      Assoc(done, [raw[p..q]], StringsFrom(raw, q + 1).value.0);
    }
  }

  // ---------------------------------------------------------------- the table

  /** The structure at `pos` and the offset of the next one. */
  function StructureAt(raw: seq<byte>, pos: nat): (r: Result<(Structure, nat), SmbiosError>)
    requires pos + 4 <= |raw|
    ensures r.Ok? ==> pos + 6 <= r.value.1 <= |raw|
  {
    var length := raw[pos + 1];
    if length < 4 then Err(BadLength(pos, length))
    else if pos + length > |raw| then Err(Truncated(pos))
    else
      match StringSet(raw, pos + length)
      case None => Err(Truncated(pos))
      case Some((strings, next)) =>
        Ok((Structure(raw[pos], U16(raw[pos + 2], raw[pos + 3]), raw[pos..pos + length], strings), next))
  }

  /** The structures from `pos` on, and where the table was left. */
  function TableFrom(raw: seq<byte>, pos: nat): (r: Result<(seq<Structure>, nat), SmbiosError>)
    requires pos <= |raw|
    ensures r.Ok? ==> pos <= r.value.1 <= |raw|
    decreases |raw| - pos
  {
    if pos + 4 > |raw| then Ok(([], pos))
    else
      match StructureAt(raw, pos)
      case Err(e) => Err(e)
      case Ok((s, next)) =>
        if s.headerType == TYPE_END_OF_TABLE then Ok(([s], next))
        else
          match TableFrom(raw, next)
          case Err(e) => Err(e)
          case Ok((more, end)) => Ok(([s] + more, end))
  }

  method ParseTable(raw: seq<byte>) returns (r: Result<seq<Structure>, SmbiosError>)
    ensures r == match TableFrom(raw, 0)
                 case Err(e) => Err(e)
                 case Ok((structures, _)) => Ok(structures)
  {
    var structures: seq<Structure> := [];
    var pos := 0;
    if TableFrom(raw, 0).Ok? {
      EmptyLeft(TableFrom(raw, 0).value.0);
    }
    while pos + 4 <= |raw|
      invariant pos <= |raw|
      invariant match TableFrom(raw, pos)
                case Err(e) => TableFrom(raw, 0) == Err(e)
                case Ok((more, end)) => TableFrom(raw, 0) == Ok((structures + more, end))
      decreases |raw| - pos
    {
      var headerType := raw[pos];
      var length := raw[pos + 1];
      var handle := U16(raw[pos + 2], raw[pos + 3]);
      if length < 4 {
        return Err(BadLength(pos, length));
      }
      var formattedEnd := pos + length;
      if formattedEnd > |raw| {
        return Err(Truncated(pos));
      }
      var data := raw[pos..formattedEnd];
      var parsed := ParseStringSet(raw, formattedEnd, pos);
      if parsed.Err? {
        return Err(parsed.error);
      }
      var s := Structure(headerType, handle, data, parsed.value.0);
      assert StructureAt(raw, pos) == Ok((s, parsed.value.1));
      TableStep(raw, pos, structures);
      structures := structures + [s];
      pos := parsed.value.1;
      if headerType == TYPE_END_OF_TABLE {
        return Ok(structures);
      }
    }
    assert structures + [] == structures;
    return Ok(structures);
  }

  /** One structure further in the loop: what follows goes behind `done` and the structure at `pos`. */
  lemma TableStep(raw: seq<byte>, pos: nat, done: seq<Structure>)
    requires pos + 4 <= |raw| && StructureAt(raw, pos).Ok?
    ensures var (s, next) := StructureAt(raw, pos).value;
            match TableFrom(raw, pos)
            case Err(e) => s.headerType != TYPE_END_OF_TABLE && TableFrom(raw, next) == Err(e)
            case Ok((all, end)) =>
              if s.headerType == TYPE_END_OF_TABLE then done + all == done + [s]
              else TableFrom(raw, next).Ok? && TableFrom(raw, next).value.1 == end
                   && done + all == done + [s] + TableFrom(raw, next).value.0
  {
    hide StructureAt;
    var (s, next) := StructureAt(raw, pos).value;
    if s.headerType != TYPE_END_OF_TABLE && TableFrom(raw, next).Ok? {
      Assoc(done, [s], TableFrom(raw, next).value.0);
    }
  }

  // ---------------------------------------------------------------- the encoder

  /** Each string NUL-terminated, then the closing NUL. */
  function EncodeStrings(strings: seq<seq<byte>>): seq<byte> {
    if |strings| == 0 then [0] else strings[0] + [0] + EncodeStrings(strings[1..])
  }

  function EncodeStringSet(strings: seq<seq<byte>>): seq<byte> {
    if |strings| == 0 then [0, 0] else EncodeStrings(strings)
  }

  /** The length byte wraps as its `as u8` cast does. */
  function EncodeStructure(headerType: byte, handle: u16, formatted: seq<byte>, strings: seq<seq<byte>>): seq<byte> {
    [headerType, (4 + |formatted|) % 0x100] + U16Bytes(handle) + formatted + EncodeStringSet(strings)
  }

  function Encode(s: Structure): seq<byte>
    requires WellFormed(s)
  {
    EncodeStructure(s.headerType, s.handle, s.data[4..], s.strings)
  }

  /** A structure whose formatted area carries its own header. */
  predicate WellFormed(s: Structure) {
    && 4 <= |s.data| < 0x100
    && s.data[0] == s.headerType && s.data[1] == |s.data|
    && s.data[2] == s.handle % 0x100 && s.data[3] == s.handle / 0x100
    && Canonical(s.strings)
  }

  predicate NulFree(s: seq<byte>) {
    forall i :: 0 <= i < |s| ==> s[i] != 0
  }

  /**
   The string sets a parse can yield: NUL-free, and empty only first and not alone, since an empty
   string elsewhere would read as the closing NUL.
   */
  predicate Canonical(strings: seq<seq<byte>>) {
    |strings| > 0 ==> Separable(strings) && (|strings| == 1 ==> |strings[0]| > 0)
  }

  /** NUL-free, and empty only first. */
  predicate Separable(strings: seq<seq<byte>>) {
    && |strings| > 0
    && (forall i :: 0 <= i < |strings| ==> NulFree(strings[i]))
    && (forall i :: 1 <= i < |strings| ==> |strings[i]| > 0)
  }

  predicate AllWellFormed(ss: seq<Structure>) {
    forall i :: 0 <= i < |ss| ==> WellFormed(ss[i])
  }

  function EncodeAll(ss: seq<Structure>): seq<byte>
    requires AllWellFormed(ss)
  {
    if |ss| == 0 then []
    else
      assert WellFormed(ss[0]) && AllWellFormed(ss[1..]);
      Encode(ss[0]) + EncodeAll(ss[1..])
  }

  // ---------------------------------------------------------------- parse, then encode

  /** `strings`, encoded, fill `raw` from `p` up to `next`. */
  predicate SetAt(raw: seq<byte>, p: nat, strings: seq<seq<byte>>, next: nat)
    requires p < |raw|
  {
    && Separable(strings)
    && StandsAt(raw, p, EncodeStrings(strings)) && next == p + |EncodeStrings(strings)|
    && (|strings[0]| == 0 <==> raw[p] == 0)
    && (|strings| == 1 && raw[p] == 0 ==> p + 1 < |raw| && raw[p + 1] == 0)
  }

  lemma {:induction false} StringsEncodeBack(raw: seq<byte>, p: nat)
    requires p < |raw| && StringsFrom(raw, p).Some?
    ensures SetAt(raw, p, StringsFrom(raw, p).value.0, StringsFrom(raw, p).value.1)
    decreases |raw| - p
  {
    hide SetAt, NulFrom;
    var q := NulFrom(raw, p);
    if raw[q + 1] == 0 {
      SetAtEnd(raw, p);
    } else {
      StringsEncodeBack(raw, q + 1);
      SetAtMore(raw, p, StringsFrom(raw, q + 1).value.0, StringsFrom(raw, q + 1).value.1);
    }
  }

  lemma SetAtEnd(raw: seq<byte>, p: nat)
    requires p < |raw| && NulFrom(raw, p) + 1 < |raw| && raw[NulFrom(raw, p) + 1] == 0
    ensures SetAt(raw, p, [raw[p..NulFrom(raw, p)]], NulFrom(raw, p) + 2)
  {
    var q := NulFrom(raw, p);
    var first := raw[p..q];
    FirstString(raw, p);
    NulStandsAt(raw, q + 1);
    hide StandsAt, NulFrom, NulFree, EncodeStrings;
    StringsCons(raw, p, first, []);
    assert [first] + [] == [first];
  }

  lemma SetAtMore(raw: seq<byte>, p: nat, more: seq<seq<byte>>, next: nat)
    requires p < |raw| && NulFrom(raw, p) + 1 < |raw| && raw[NulFrom(raw, p) + 1] != 0
    requires SetAt(raw, NulFrom(raw, p) + 1, more, next)
    ensures SetAt(raw, p, [raw[p..NulFrom(raw, p)]] + more, next)
  {
    var q := NulFrom(raw, p);
    var first := raw[p..q];
    FirstString(raw, p);
    hide StandsAt, NulFrom, NulFree, EncodeStrings;
    StringsCons(raw, p, first, more);
    SeparableCons(first, more);
  }

  lemma SeparableCons(first: seq<byte>, more: seq<seq<byte>>)
    requires NulFree(first) && Separable(more) && |more[0]| > 0
    ensures Separable([first] + more)
  {
    hide NulFree;
    var strings := [first] + more;
    assert forall i :: 1 <= i < |strings| ==> strings[i] == more[i - 1];
  }

  lemma FirstString(raw: seq<byte>, p: nat)
    requires p <= |raw| && NulFrom(raw, p) < |raw|
    ensures var q := NulFrom(raw, p);
            StandsAt(raw, p, raw[p..q] + [0]) && NulFree(raw[p..q]) && (q == p <==> raw[p] == 0)
  {
    var q := NulFrom(raw, p);
    assert raw[p] == 0 ==> q == p;
    hide NulFrom;
    SlicePlus(raw, p, q);
    assert NulFree(raw[p..q]);
    hide StandsAt, NulFree;
  }

  lemma SlicePlus(raw: seq<byte>, p: nat, q: nat)
    requires p <= q < |raw| && raw[q] == 0
    ensures StandsAt(raw, p, raw[p..q] + [0])
  {
    var part := raw[p..q] + [0];
    assert raw[p..q + 1] == part;
  }

  lemma NulStandsAt(raw: seq<byte>, p: nat)
    requires p < |raw| && raw[p] == 0
    ensures StandsAt(raw, p, [0])
  {
  }

  lemma StringsCons(raw: seq<byte>, p: nat, first: seq<byte>, more: seq<seq<byte>>)
    ensures EncodeStrings([first] + more) == first + [0] + EncodeStrings(more)
    ensures |EncodeStrings([first] + more)| == |first| + 1 + |EncodeStrings(more)|
    ensures more == [] ==> EncodeStrings(more) == [0]
    ensures StandsAt(raw, p, EncodeStrings([first] + more))
       <==> StandsAt(raw, p, first + [0]) && StandsAt(raw, p + |first| + 1, EncodeStrings(more))
  {
    assert ([first] + more)[1..] == more;
    hide StandsAt;
    StandsApart(raw, p, first + [0], EncodeStrings(more));
  }

  lemma StringSetEncodesBack(raw: seq<byte>, start: nat)
    requires start <= |raw| && StringSet(raw, start).Some?
    ensures var (strings, next) := StringSet(raw, start).value;
            StandsAt(raw, start, EncodeStringSet(strings)) && next == start + |EncodeStringSet(strings)|
                && Canonical(strings)
  {
    if raw[start] == 0 && raw[start + 1] == 0 {
      assert raw[start..start + 2] == [0, 0];
    } else {
      hide StringsFrom, StandsAt, Separable, EncodeStrings;
      StringsEncodeBack(raw, start);
    }
  }

  lemma EncodeIs(s: Structure)
    requires WellFormed(s)
    ensures Encode(s) == s.data + EncodeStringSet(s.strings)
  {
    hide EncodeStringSet;
    assert [s.headerType, |s.data|] + U16Bytes(s.handle) + s.data[4..] == s.data;
  }

  lemma StructureEncodesBack(raw: seq<byte>, pos: nat)
    requires pos + 4 <= |raw| && StructureAt(raw, pos).Ok?
    ensures var (s, next) := StructureAt(raw, pos).value;
            WellFormed(s) && StandsAt(raw, pos, Encode(s)) && next == pos + |Encode(s)|
  {
    var (s, next) := StructureAt(raw, pos).value;
    StringSetEncodesBack(raw, pos + |s.data|);
    hide StringSet, EncodeStringSet;
    assert StandsAt(raw, pos, s.data);
    EncodeIs(s);
    StandsApart(raw, pos, s.data, EncodeStringSet(s.strings));
  }

  /** `ss` is well-formed and, encoded, fills `raw` from `pos` to `end`; what follows may follow it. */
  predicate TableAt(raw: seq<byte>, pos: nat, ss: seq<Structure>, end: nat) {
    && AllWellFormed(ss)
    && StandsAt(raw, pos, EncodeAll(ss)) && end == pos + |EncodeAll(ss)| <= |raw|
    && Terminated(ss, raw[end..])
  }

  /** Whatever parses is well-formed and encodes back to exactly the bytes that were consumed. */
  lemma {:induction false} ParsedEncodesBack(raw: seq<byte>, pos: nat)
    requires pos <= |raw| && TableFrom(raw, pos).Ok?
    ensures TableAt(raw, pos, TableFrom(raw, pos).value.0, TableFrom(raw, pos).value.1)
    decreases |raw| - pos
  {
    hide TableAt, StructureAt;
    if pos + 4 <= |raw| {
      var (s, next) := StructureAt(raw, pos).value;
      if s.headerType == TYPE_END_OF_TABLE {
        TableAtEnd(raw, pos);
      } else {
        ParsedEncodesBack(raw, next);
        TableAtMore(raw, pos, TableFrom(raw, next).value.0, TableFrom(raw, next).value.1);
      }
    } else {
      TableAtNothing(raw, pos);
    }
  }

  lemma TableAtNothing(raw: seq<byte>, pos: nat)
    requires pos <= |raw| < pos + 4
    ensures TableAt(raw, pos, [], pos)
  {
    NothingStands(raw, pos);
  }

  lemma TableAtEnd(raw: seq<byte>, pos: nat)
    requires pos + 4 <= |raw| && StructureAt(raw, pos).Ok?
              && StructureAt(raw, pos).value.0.headerType == TYPE_END_OF_TABLE
    ensures TableAt(raw, pos, [StructureAt(raw, pos).value.0], StructureAt(raw, pos).value.1)
  {
    hide StructureAt, WellFormed, Encode, StandsAt, Terminated, AllWellFormed, EncodeAll;
    var (s, next) := StructureAt(raw, pos).value;
    StructureEncodesBack(raw, pos);
    NothingStands(raw, next);
    EncodesNothing([]);
    TerminatedLast(s, raw[next..]);
    EncodesCons(raw, pos, s, []);
    assert [s] + [] == [s];
  }

  lemma TableAtMore(raw: seq<byte>, pos: nat, more: seq<Structure>, end: nat)
    requires pos + 4 <= |raw| && StructureAt(raw, pos).Ok?
              && StructureAt(raw, pos).value.0.headerType != TYPE_END_OF_TABLE
    requires TableAt(raw, StructureAt(raw, pos).value.1, more, end)
    ensures TableAt(raw, pos, [StructureAt(raw, pos).value.0] + more, end)
  {
    hide StructureAt, WellFormed, Encode, StandsAt, Terminated, AllWellFormed, EncodeAll;
    var (s, next) := StructureAt(raw, pos).value;
    StructureEncodesBack(raw, pos);
    TerminatedCons(s, more, raw[end..]);
    EncodesCons(raw, pos, s, more);
  }

  lemma TerminatedLast(s: Structure, trailing: seq<byte>)
    requires s.headerType == TYPE_END_OF_TABLE
    ensures Terminated([s], trailing)
  {
  }

  lemma TerminatedCons(s: Structure, more: seq<Structure>, trailing: seq<byte>)
    requires s.headerType != TYPE_END_OF_TABLE && Terminated(more, trailing)
    ensures Terminated([s] + more, trailing)
  {
  }

  lemma EncodesCons(raw: seq<byte>, pos: nat, s: Structure, more: seq<Structure>)
    requires WellFormed(s) && AllWellFormed(more)
    ensures AllWellFormed([s] + more)
    ensures EncodeAll([s] + more) == Encode(s) + EncodeAll(more)
    ensures StandsAt(raw, pos, EncodeAll([s] + more))
       <==> StandsAt(raw, pos, Encode(s)) && StandsAt(raw, pos + |Encode(s)|, EncodeAll(more))
  {
    hide WellFormed, Encode, StandsAt;
    assert ([s] + more)[1..] == more;
    StandsApart(raw, pos, Encode(s), EncodeAll(more));
  }

  lemma NothingStands(raw: seq<byte>, pos: nat)
    requires pos <= |raw|
    ensures StandsAt(raw, pos, [])
  {
  }

  // ---------------------------------------------------------------- encode, then parse

  lemma {:induction false} StringsDecode(raw: seq<byte>, p: nat, strings: seq<seq<byte>>)
    requires Separable(strings) && StandsAt(raw, p, EncodeStrings(strings))
    ensures StringsFrom(raw, p) == Some((strings, p + |EncodeStrings(strings)|))
    decreases |strings|, 1
  {
    assert strings == [strings[0]] + strings[1..];
    hide *;
    StringsDecodeCons(raw, p, strings[0], strings[1..]);
  }

  lemma StringsDecodeCons(raw: seq<byte>, p: nat, first: seq<byte>, more: seq<seq<byte>>)
    requires Separable([first] + more) && StandsAt(raw, p, EncodeStrings([first] + more))
    ensures StringsFrom(raw, p) == Some(([first] + more, p + |EncodeStrings([first] + more)|))
    decreases |more| + 1, 0
  {
    hide *;
    var q := p + |first|;
    StringsCons(raw, p, first, more);
    SeparableUncons(first, more);
    StandsApart(raw, p, first, [0]);
    NulStands(raw, p, first);
    StandsWithin(raw, q + 1, EncodeStrings(more));
    if |more| == 0 {
      StandsElement(raw, q + 1, [0], 0);
      StringsEnd(raw, p, first);
      assert [first] + more == [first];
    } else {
      FirstByte(raw, q + 1, more);
      StringsDecode(raw, q + 1, more);
      StringsGoOn(raw, p, first, more);
    }
  }

  lemma SeparableUncons(first: seq<byte>, more: seq<seq<byte>>)
    requires Separable([first] + more)
    ensures NulFree(first) && (|more| > 0 ==> Separable(more) && |more[0]| > 0 && more[0][0] != 0)
  {
    var strings := [first] + more;
    assert strings[0] == first;
    assert forall i :: 0 <= i < |more| ==> strings[i + 1] == more[i];
    if |more| > 0 {
      assert NulFree(more[0]) && |more[0]| > 0;
    }
  }

  lemma StringsEnd(raw: seq<byte>, p: nat, first: seq<byte>)
    requires p <= |raw| && NulFrom(raw, p) == p + |first| && p + |first| + 1 < |raw|
    requires raw[p..p + |first|] == first && raw[p + |first| + 1] == 0
    ensures StringsFrom(raw, p) == Some(([first], p + |first| + 2))
  {
    hide NulFrom;
  }

  lemma StringsGoOn(raw: seq<byte>, p: nat, first: seq<byte>, more: seq<seq<byte>>)
    requires p <= |raw| && NulFrom(raw, p) == p + |first| && p + |first| + 1 < |raw|
    requires raw[p..p + |first|] == first && raw[p + |first| + 1] != 0
    requires StringsFrom(raw, p + |first| + 1).Some? && StringsFrom(raw, p + |first| + 1).value.0 == more
    ensures StringsFrom(raw, p) == Some(([first] + more, StringsFrom(raw, p + |first| + 1).value.1))
  {
    hide NulFrom;
  }

  lemma StandsWithin(raw: seq<byte>, at: nat, part: seq<byte>)
    requires StandsAt(raw, at, part)
    ensures at + |part| <= |raw|
  {
  }

  lemma NulStands(raw: seq<byte>, p: nat, text: seq<byte>)
    requires StandsAt(raw, p, text) && StandsAt(raw, p + |text|, [0]) && NulFree(text)
    ensures NulFrom(raw, p) == p + |text| && raw[p..p + |text|] == text
  {
    StandsElement(raw, p + |text|, [0], 0);
    forall i | p <= i < p + |text|
      ensures raw[i] != 0
    {
      StandsElement(raw, p, text, i - p);
    }
  }

  /** The encoding starts with the first byte of the first string, or NUL. */
  lemma FirstByte(raw: seq<byte>, p: nat, strings: seq<seq<byte>>)
    requires |strings| > 0 && StandsAt(raw, p, EncodeStrings(strings))
    ensures p + 1 < |raw| && raw[p] == if |strings[0]| > 0 then strings[0][0] else 0
  {
    var e := EncodeStrings(strings);
    assert e == strings[0] + [0] + EncodeStrings(strings[1..]);
    assert |EncodeStrings(strings[1..])| > 0;
    StandsElement(raw, p, e, 0);
  }

  lemma StringSetDecodes(raw: seq<byte>, start: nat, strings: seq<seq<byte>>)
    requires Canonical(strings) && StandsAt(raw, start, EncodeStringSet(strings))
    ensures StringSet(raw, start) == Some((strings, start + |EncodeStringSet(strings)|))
  {
    if |strings| == 0 {
      StandsElement(raw, start, [0, 0], 0);
      StandsElement(raw, start, [0, 0], 1);
    } else {
      StringsDecode(raw, start, strings);
      FirstByte(raw, start, strings);
      if |strings[0]| == 0 {
        assert |strings| > 1;
        assert strings[0] + [0] == [0];
        StandsApart(raw, start, [0], EncodeStrings(strings[1..]));
        FirstByte(raw, start + 1, strings[1..]);
        assert raw[start + 1] == strings[1][0] && NulFree(strings[1]);
      }
    }
  }

  lemma StructureDecodes(raw: seq<byte>, pos: nat, s: Structure)
    requires WellFormed(s) && StandsAt(raw, pos, Encode(s))
    ensures pos + 4 <= |raw| && StructureAt(raw, pos) == Ok((s, pos + |Encode(s)|))
  {
    hide StringSet, EncodeStringSet, Encode, Canonical;
    EncodeIs(s);
    StandsApart(raw, pos, s.data, EncodeStringSet(s.strings));
    StringSetDecodes(raw, pos + |s.data|, s.strings);
    HeaderStands(raw, pos, s);
    hide WellFormed, StandsAt;
  }

  lemma HeaderStands(raw: seq<byte>, pos: nat, s: Structure)
    requires WellFormed(s) && StandsAt(raw, pos, s.data)
    ensures 4 <= |s.data| && pos + |s.data| <= |raw| && raw[pos..pos + |s.data|] == s.data
    ensures raw[pos] == s.headerType && raw[pos + 1] == |s.data| && U16(raw[pos + 2], raw[pos + 3]) == s.handle
  {
    hide Canonical;
    forall i: nat | i < 4
      ensures raw[pos + i] == s.data[i]
    {
      StandsElement(raw, pos, s.data, i);
    }
    assert raw[pos + 0] == s.data[0] && raw[pos + 1] == s.data[1] && raw[pos + 2] == s.data[2]
        && raw[pos + 3] == s.data[3];
  }

  /** The structure whose parts went into the encoder. */
  function Assembled(headerType: byte, handle: u16, formatted: seq<byte>, strings: seq<seq<byte>>): Structure {
    Structure(headerType, handle, [headerType, (4 + |formatted|) % 0x100] + U16Bytes(handle) + formatted, strings)
  }

  /**
   One encoded structure, whatever follows it, parses back exactly when its length fits the byte and its strings are
   canonical.
   */
  lemma StructureRoundTripIff(headerType: byte, handle: u16, formatted: seq<byte>, strings: seq<seq<byte>>,
                              trailing: seq<byte>)
    ensures var e := EncodeStructure(headerType, handle, formatted, strings);
            (StructureAt(e + trailing, 0) == Ok((Assembled(headerType, handle, formatted, strings), |e|))
             <==> |formatted| <= 251 && Canonical(strings))
  {
    var s := Assembled(headerType, handle, formatted, strings);
    var e := EncodeStructure(headerType, handle, formatted, strings);
    AssembledSize(headerType, handle, formatted, strings);
    hide EncodeStringSet, StructureAt, EncodeStructure, Assembled, StandsAt, Canonical, Encode;
    if |formatted| <= 251 && Canonical(strings) {
      AssembledEncodes(headerType, handle, formatted, strings);
      EncodedStands(e, trailing);
      hide WellFormed;
      StructureDecodes(e + trailing, 0, s);
    } else if StructureAt(e + trailing, 0) == Ok((s, |e|)) {
      StructureEncodesBack(e + trailing, 0);
    }
  }

  lemma AssembledSize(headerType: byte, handle: u16, formatted: seq<byte>, strings: seq<seq<byte>>)
    ensures var s := Assembled(headerType, handle, formatted, strings);
            && |s.data| == 4 + |formatted| && s.strings == strings
            && |EncodeStructure(headerType, handle, formatted, strings)| >= 4
  {
  }

  lemma AssembledEncodes(headerType: byte, handle: u16, formatted: seq<byte>, strings: seq<seq<byte>>)
    requires |formatted| <= 251 && Canonical(strings)
    ensures var s := Assembled(headerType, handle, formatted, strings);
            WellFormed(s) && Encode(s) == EncodeStructure(headerType, handle, formatted, strings)
  {
    hide EncodeStringSet, Canonical;
    assert Assembled(headerType, handle, formatted, strings).data[4..] == formatted;
  }

  lemma EncodedStands(e: seq<byte>, trailing: seq<byte>)
    ensures StandsAt(e + trailing, 0, e) && (e + trailing)[|e|..] == trailing
  {
  }

  /** A table may be followed by anything behind an end-of-table structure, and else by less than a header. */
  predicate Terminated(ss: seq<Structure>, trailing: seq<byte>) {
    && (forall i :: 0 <= i < |ss| - 1 ==> ss[i].headerType != 127)
    && (|trailing| < 4 || (|ss| > 0 && ss[|ss| - 1].headerType == 127))
  }

  lemma {:induction false} TableDecodes(raw: seq<byte>, pos: nat, ss: seq<Structure>)
    requires AllWellFormed(ss) && StandsAt(raw, pos, EncodeAll(ss))
    requires Terminated(ss, raw[pos + |EncodeAll(ss)|..])
    ensures TableFrom(raw, pos) == Ok((ss, pos + |EncodeAll(ss)|))
    decreases |ss|, 1
  {
    if |ss| == 0 {
      assert EncodeAll(ss) == [];
    } else {
      assert ss == [ss[0]] + ss[1..] && WellFormed(ss[0]) && AllWellFormed(ss[1..]);
      hide *;
      TableDecodesCons(raw, pos, ss[0], ss[1..]);
    }
  }

  lemma TableDecodesCons(raw: seq<byte>, pos: nat, s: Structure, more: seq<Structure>)
    requires WellFormed(s) && AllWellFormed(more) && AllWellFormed([s] + more)
    requires StandsAt(raw, pos, EncodeAll([s] + more))
    requires Terminated([s] + more, raw[pos + |EncodeAll([s] + more)|..])
    ensures TableFrom(raw, pos) == Ok(([s] + more, pos + |EncodeAll([s] + more)|))
    decreases |more| + 1, 0
  {
    hide *;
    StandsWithin(raw, pos, EncodeAll([s] + more));
    EncodesCons(raw, pos, s, more);
    StructureDecodes(raw, pos, s);
    TerminatedUncons(s, more, raw[pos + |EncodeAll([s] + more)|..]);
    var next := pos + |Encode(s)|;
    StandsWithin(raw, pos, Encode(s));
    if s.headerType == TYPE_END_OF_TABLE {
      EncodesNothing(more);
      TableEnds(raw, pos, s, next);
      assert [s] + more == [s];
    } else {
      TableDecodes(raw, next, more);
      TableGoesOn(raw, pos, s, next, more, next + |EncodeAll(more)|);
    }
  }

  lemma TerminatedUncons(s: Structure, more: seq<Structure>, trailing: seq<byte>)
    requires Terminated([s] + more, trailing)
    ensures if s.headerType == TYPE_END_OF_TABLE then |more| == 0 else Terminated(more, trailing)
  {
    var ss := [s] + more;
    assert forall i :: 0 <= i < |more| ==> ss[i + 1] == more[i];
    assert ss[0] == s;
  }

  lemma TableEnds(raw: seq<byte>, pos: nat, s: Structure, next: nat)
    requires pos + 4 <= |raw| && StructureAt(raw, pos) == Ok((s, next)) && s.headerType == TYPE_END_OF_TABLE
    ensures TableFrom(raw, pos) == Ok(([s], next))
  {
    hide StructureAt;
  }

  lemma TableGoesOn(raw: seq<byte>, pos: nat, s: Structure, next: nat, more: seq<Structure>, end: nat)
    requires pos + 4 <= |raw| && StructureAt(raw, pos) == Ok((s, next)) && s.headerType != TYPE_END_OF_TABLE
    requires next <= |raw| && TableFrom(raw, next) == Ok((more, end))
    ensures TableFrom(raw, pos) == Ok(([s] + more, end))
  {
    hide StructureAt;
  }

  lemma EncodesNothing(ss: seq<Structure>)
    requires |ss| == 0
    ensures AllWellFormed(ss) && EncodeAll(ss) == []
  {
  }

  /** Parsing the encoding of any well-formed table, whatever may follow it, gives the table back. */
  lemma EncodedParses(ss: seq<Structure>, trailing: seq<byte>)
    requires AllWellFormed(ss) && Terminated(ss, trailing)
    ensures TableFrom(EncodeAll(ss) + trailing, 0) == Ok((ss, |EncodeAll(ss)|))
  {
    var e := EncodeAll(ss);
    EncodedStands(e, trailing);
    hide EncodeAll, StandsAt;
    TableDecodes(e + trailing, 0, ss);
  }

  /** `raw` is the encoding of `ss` and something that may follow it. */
  ghost predicate Splits(raw: seq<byte>, ss: seq<Structure>, trailing: seq<byte>) {
    AllWellFormed(ss) && Terminated(ss, trailing) && raw == EncodeAll(ss) + trailing
  }

  /** A buffer parses exactly when it is the encoding of some table with something that may follow it. */
  lemma ParsesIffEncoding(raw: seq<byte>)
    ensures TableFrom(raw, 0).Ok? <==> exists ss, trailing :: Splits(raw, ss, trailing)
  {
    if TableFrom(raw, 0).Ok? {
      ParsedSplits(raw);
    }
    if ss, trailing :| Splits(raw, ss, trailing) {
      hide TableFrom, EncodeAll, Terminated, AllWellFormed;
      EncodedParses(ss, trailing);
    }
  }

  lemma ParsedSplits(raw: seq<byte>)
    requires TableFrom(raw, 0).Ok?
    ensures var (ss, end) := TableFrom(raw, 0).value; Splits(raw, ss, raw[end..])
  {
    ParsedEncodesBack(raw, 0);
    hide TableFrom, EncodeAll, Terminated, AllWellFormed;
    var (ss, end) := TableFrom(raw, 0).value;
    assert raw[0..end] + raw[end..] == raw;
  }
}
