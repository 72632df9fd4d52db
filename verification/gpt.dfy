/** The GUID partition table (section 5.3 of the UEFI specification): header, entries, and the ESP among them. */
module Gpt {
  import opened Bytes
  import opened Wrappers
  import opened DevicePath
  import opened Seqs

  const GPT_SIGNATURE: seq<byte> := [0x45, 0x46, 0x49, 0x20, 0x50, 0x41, 0x52, 0x54]
  const ESP_TYPE_GUID: seq<byte> := [0x28, 0x73, 0x2A, 0xC1, 0x1F, 0xF8, 0xD2, 0x11, 0xBA, 0x4B, 0x00, 0xA0, 0xC9, 0x3E,
                                     0xC9, 0x3B]
  const GPT_HEADER_LEN: nat := 92
  const MAX_GPT_ENTRIES: nat := 1024
  const MIN_ENTRY_SIZE: nat := 128
  const MAX_ENTRY_SIZE: nat := 1024
  const MEBIBYTE: nat := 0x10_0000

  datatype GptError = NoGpt | BadGpt | ReadGpt | NotFound

  datatype GptLayout = GptLayout(entriesLba: u64, count: u32, entrySize: u32)

  /** A used entry: its type, and its fields in the shape the boot entry wants. */
  datatype GptEntry = GptEntry(typeGuid: seq<byte>, part: GptEsp)

  // ---------------------------------------------------------------- header

  /** The entry table lies behind the header and is no larger than it may be. */
  predicate Bounded(layout: GptLayout) {
    && layout.entriesLba >= 2
    && 0 < layout.count <= MAX_GPT_ENTRIES
    && MIN_ENTRY_SIZE <= layout.entrySize <= MAX_ENTRY_SIZE
    && layout.entrySize % 8 == 0
  }

  function ParseGptHeader(header: seq<byte>): (r: Result<GptLayout, GptError>)
    ensures r.Ok? ==> Bounded(r.value) && r.value.count * r.value.entrySize <= MEBIBYTE
    ensures r.Err? ==> r.error == NoGpt || r.error == BadGpt
  {
    if |header| < GPT_HEADER_LEN || header[..8] != GPT_SIGNATURE then Err(NoGpt)
    else
      var layout := GptLayout(U64From(header[72..80]), U32From(header[80..84]), U32From(header[84..88]));
      if Bounded(layout) then
        TableFits(layout.count, layout.entrySize);
        Ok(layout)
      else Err(BadGpt)
  }

  /** In bytes: which headers are accepted, and for which layout. */
  lemma HeaderIff(header: seq<byte>, layout: GptLayout)
    ensures ParseGptHeader(header) == Ok(layout) <==>
            && |header| >= 92 && header[..8] == [0x45, 0x46, 0x49, 0x20, 0x50, 0x41, 0x52, 0x54]
            && header[72..80] == U64Bytes(layout.entriesLba) && header[80..84] == U32Bytes(layout.count)
            && header[84..88] == U32Bytes(layout.entrySize)
            && layout.entriesLba >= 2 && 1 <= layout.count <= 1024
            && 128 <= layout.entrySize <= 1024 && layout.entrySize % 8 == 0
    ensures ParseGptHeader(header) == Err(NoGpt) <==>
            |header| < 92 || header[..8] != [0x45, 0x46, 0x49, 0x20, 0x50, 0x41, 0x52, 0x54]
  {
    if |header| >= 92 {
      LongIs(header[72..80], layout.entriesLba);
      WordIs(header[80..84], layout.count);
      WordIs(header[84..88], layout.entrySize);
    }
    hide U64From, U32From, U64Bytes, U32Bytes;
  }

  lemma TableFits(count: nat, size: nat)
    requires count <= MAX_GPT_ENTRIES && size <= MAX_ENTRY_SIZE
    ensures count * size <= MEBIBYTE
  {
    var rest := MAX_GPT_ENTRIES - count;
    Distributes(count, rest, size);
  }

  lemma Distributes(a: nat, b: nat, c: nat)
    ensures (a + b) * c == a * c + b * c && b * c >= 0
  {
  }

  // ---------------------------------------------------------------- entries

  function Zeros(n: nat): (r: seq<byte>)
    ensures |r| == n
  {
    if n == 0 then [] else [0] + Zeros(n - 1)
  }

  predicate Used(entry: seq<byte>)
    requires |entry| >= 48
  {
    entry[..16] != Zeros(16)
  }

  lemma UsedIff(entry: seq<byte>)
    requires |entry| >= 48
    ensures Used(entry) <==> exists i :: 0 <= i < 16 && entry[i] != 0
  {
    ZerosAre(16);
    hide Zeros;
    assert forall i :: 0 <= i < 16 ==> entry[..16][i] == entry[i];
    if forall i :: 0 <= i < 16 ==> entry[i] == 0 {
      assert entry[..16] == Zeros(16);
    }
  }

  lemma {:induction false} ZerosAre(n: nat)
    ensures forall i :: 0 <= i < n ==> Zeros(n)[i] == 0
  {
    if n > 0 {
      ZerosAre(n - 1);
    }
  }

  function EntryOf(entry: seq<byte>, number: u32): GptEntry
    requires |entry| >= 48
  {
    GptEntry(entry[..16], GptEsp(number, entry[16..32], U64From(entry[32..40]), U64From(entry[40..48])))
  }

  /**
   The used entries of what is left of the table, the first slot of which is `number`; a last partial slot is dropped.
   */
  function EntriesFrom(table: seq<byte>, size: nat, number: nat): seq<GptEntry>
    requires size >= 48 && number + |table| <= 0xFFFF_FFFF
    decreases |table|
  {
    if |table| < size then []
    else
      (if Used(table[..size]) then [EntryOf(table[..size], number)] else [])
      + EntriesFrom(table[size..], size, number + 1)
  }

  function GptEntries(table: seq<byte>, size: nat): seq<GptEntry>
    requires size >= 48 && |table| < 0xFFFF_FFFF
  {
    EntriesFrom(table, size, 1)
  }

  /** The slot that is `k` slots into the table. */
  function Slot(table: seq<byte>, size: nat, k: nat): (r: Option<seq<byte>>)
    requires size > 0
    ensures r.Some? ==> |r.value| == size
    decreases k
  {
    if |table| < size then None
    else if k == 0 then Some(table[..size])
    else Slot(table[size..], size, k - 1)
  }

  lemma {:induction false} SlotIsSlice(table: seq<byte>, size: nat, k: nat)
    requires size > 0
    ensures Slot(table, size, k) == if k * size + size <= |table| then Some(table[k * size..k * size + size]) else None
    decreases k
  {
    if k == 0 {
    } else if |table| >= size {
      SlotIsSlice(table[size..], size, k - 1);
      var before := (k - 1) * size;
      assert k * size == before + size;
      if before + size + size <= |table| {
        SliceOfTail(table, size, before, size);
      }
    } else {
      assert k * size >= 0;
    }
  }

  lemma SliceOfTail(table: seq<byte>, skip: nat, at: nat, len: nat)
    requires skip + at + len <= |table|
    ensures table[skip..][at..at + len] == table[skip + at..skip + at + len]
  {
  }

  /** `e` is the used slot that carries its number, the table's first slot being `number`. */
  predicate IsSlot(table: seq<byte>, size: nat, number: nat, e: GptEntry)
    requires size >= 48
  {
    && e.part.number >= number
    && var slot := Slot(table, size, e.part.number - number);
       slot.Some? && Used(slot.value) && e == EntryOf(slot.value, e.part.number)
  }

  /** Exactly the used slots come out. */
  lemma {:induction false} EntriesAreSlots(table: seq<byte>, size: nat, number: nat, e: GptEntry)
    requires size >= 48 && number + |table| <= 0xFFFF_FFFF
    ensures e in EntriesFrom(table, size, number) <==> IsSlot(table, size, number, e)
    decreases |table|
  {
    if |table| >= size {
      EntriesAreSlots(table[size..], size, number + 1, e);
      hide Used;
    }
  }

  /** Strictly ascending numbers, none below `from`. */
  predicate Ascending(es: seq<GptEntry>, from: nat) {
    && (forall i :: 0 <= i < |es| ==> from <= es[i].part.number)
    && (forall i, j :: 0 <= i < j < |es| ==> es[i].part.number < es[j].part.number)
  }

  lemma AscendingCons(e: GptEntry, rest: seq<GptEntry>, from: nat)
    requires from <= e.part.number && Ascending(rest, e.part.number + 1)
    ensures Ascending([e] + rest, from)
  {
  }

  lemma FromSlot(table: seq<byte>, size: nat, number: nat)
    requires size >= 48 && number + |table| <= 0xFFFF_FFFF && |table| >= size
    ensures var rest := EntriesFrom(table[size..], size, number + 1);
            EntriesFrom(table, size, number) ==
            if Used(table[..size]) then [EntryOf(table[..size], number)] + rest else rest
  {
    hide Used, EntryOf;
    EmptyLeft(EntriesFrom(table[size..], size, number + 1));
  }

  lemma NumberOf(entry: seq<byte>, number: u32)
    requires |entry| >= 48
    ensures EntryOf(entry, number).part.number == number
  {
  }

  /** They come in table order. */
  lemma {:induction false} EntriesAscend(table: seq<byte>, size: nat, number: nat)
    requires size >= 48 && number + |table| <= 0xFFFF_FFFF
    ensures Ascending(EntriesFrom(table, size, number), number)
    decreases |table|
  {
    if |table| < size {
      assert EntriesFrom(table, size, number) == [];
    } else {
      var slot, rest := table[..size], EntriesFrom(table[size..], size, number + 1);
      EntriesAscend(table[size..], size, number + 1);
      FromSlot(table, size, number);
      hide EntriesFrom, Used, EntryOf;
      if Used(slot) {
        NumberOf(slot, number);
        AscendingCons(EntryOf(slot, number), rest, number);
      } else {
        assert Ascending(rest, number);
      }
    }
  }

  /** An entry as it stands on disk; `rest` is whatever the attributes and the name are. */
  function EntryBytes(e: GptEntry, rest: seq<byte>): seq<byte> {
    e.typeGuid + e.part.uniqueGuid + U64Bytes(e.part.firstLba) + U64Bytes(e.part.lastLba) + rest
  }

  /** Reading an entry gives back its fields, little-endian, whatever stands behind them. */
  lemma EntryRoundTrip(e: GptEntry, rest: seq<byte>)
    requires |e.typeGuid| == 16 && e.part.Valid()
    ensures EntryOf(EntryBytes(e, rest), e.part.number) == e
  {
    var raw := EntryBytes(e, rest);
    assert raw[..16] == e.typeGuid && raw[16..32] == e.part.uniqueGuid;
    assert raw[32..40] == U64Bytes(e.part.firstLba) && raw[40..48] == U64Bytes(e.part.lastLba);
    U64RoundTrip(e.part.firstLba);
    U64RoundTrip(e.part.lastLba);
  }

  // ---------------------------------------------------------------- reading from a disk

  /** What reading a disk comes to when no read fails. */
  function ReadOutcome(disk: seq<byte>, blockSize: u64): (r: Result<seq<GptEntry>, GptError>) {
    if blockSize + GPT_HEADER_LEN > |disk| then Err(ReadGpt)
    else
      match ParseGptHeader(disk[blockSize..blockSize + GPT_HEADER_LEN])
      case Err(e) => Err(e)
      case Ok(layout) =>
        var offset := layout.entriesLba * blockSize;
        if offset > U64_MAX then Err(BadGpt)
        else if offset + layout.count * layout.entrySize > |disk| then Err(ReadGpt)
        else Ok(GptEntries(disk[offset..offset + layout.count * layout.entrySize], layout.entrySize))
  }

  /** An opened disk, of which any call may fail. */
  class Disk {
    const content: seq<byte>
    const fault: nat -> bool
    var pos: u64
    var calls: nat
    ghost var pulled: nat

    constructor (content: seq<byte>, fault: nat -> bool)
      ensures this.content == content && this.fault == fault && calls == 0 && pulled == 0
    {
      this.content, this.fault := content, fault;
      pos, calls, pulled := 0, 0, 0;
    }

    /** The last call has met a fault. */
    ghost predicate Failed()
      reads this`calls
    {
      calls > 0 && fault(calls - 1)
    }

    method Seek(to: u64) returns (ok: bool)
      modifies this
      ensures calls == old(calls) + 1 && (ok <==> !Failed()) && pulled == old(pulled)
      ensures ok ==> pos == to
    {
      ok := !fault(calls);
      calls := calls + 1;
      if ok {
        pos := to;
      }
    }

    method ReadExact(n: nat) returns (r: Option<seq<byte>>)
      requires n <= MEBIBYTE
      modifies this
      ensures pulled <= old(pulled) + n
      ensures calls == old(calls) + 1
      ensures r.Some? <==> !Failed() && old(pos) + n <= |content|
      ensures r.Some? ==> r.value == content[old(pos)..old(pos) + n]
    {
      var now := calls;
      calls := calls + 1;
      if fault(now) {
        return None;
      }
      if pos + n > |content| {
        return None;
      }
      pulled := pulled + n;
      r := Some(content[pos..pos + n]);
    }
  }

  /**
   Exactly the outcome of the disk's bytes, or a read error if a call failed; at most the header and 1 MiB are read.
   */
  method ReadGptEntries(disk: Disk, blockSize: u64) returns (r: Result<seq<GptEntry>, GptError>)
    requires !disk.Failed() && disk.pulled == 0
    modifies disk
    ensures !disk.Failed() ==> r == ReadOutcome(disk.content, blockSize)
    ensures disk.Failed() ==> r == Err(ReadGpt)
    ensures disk.pulled <= GPT_HEADER_LEN + MEBIBYTE
  {
    hide ParseGptHeader, EntriesFrom;
    var at := disk.Seek(blockSize);
    if !at {
      return Err(ReadGpt);
    }
    var header := disk.ReadExact(GPT_HEADER_LEN);
    if header.None? {
      return Err(ReadGpt);
    }
    var layout := ParseGptHeader(header.value);
    if layout.Err? {
      return Err(layout.error);
    }
    var offset := layout.value.entriesLba * blockSize;
    if offset > U64_MAX {
      return Err(BadGpt);
    }
    at := disk.Seek(offset);
    if !at {
      return Err(ReadGpt);
    }
    var table := disk.ReadExact(layout.value.count * layout.value.entrySize);
    if table.None? {
      return Err(ReadGpt);
    }
    return Ok(GptEntries(table.value, layout.value.entrySize));
  }

  // ---------------------------------------------------------------- the ESP

  function EspEntries(es: seq<GptEntry>): seq<GptEsp> {
    if |es| == 0 then []
    else (if es[0].typeGuid == ESP_TYPE_GUID then [es[0].part] else []) + EspEntries(es[1..])
  }

  /** C12A7328-F81F-11D2-BA4B-00A0C93EC93B, its first three fields little-endian. */
  predicate IsEspType(guid: seq<byte>) {
    guid == [0x28, 0x73, 0x2A, 0xC1] + [0x1F, 0xF8] + [0xD2, 0x11] + [0xBA, 0x4B]
            + [0x00, 0xA0, 0xC9, 0x3E, 0xC9, 0x3B]
  }

  lemma EspTypeIs()
    ensures forall guid :: IsEspType(guid) <==> guid == ESP_TYPE_GUID
  {
    assert [0x28, 0x73, 0x2A, 0xC1] + [0x1F, 0xF8] + [0xD2, 0x11] + [0xBA, 0x4B]
           + [0x00, 0xA0, 0xC9, 0x3E, 0xC9, 0x3B] == ESP_TYPE_GUID;
  }

  lemma {:induction false} EspEntriesAre(es: seq<GptEntry>, p: GptEsp)
    ensures p in EspEntries(es) <==> exists e :: e in es && IsEspType(e.typeGuid) && e.part == p
  {
    EspTypeIs();
    hide IsEspType;
    if |es| > 0 {
      assert es == [es[0]] + es[1..];
      EspEntriesAre(es[1..], p);
    }
  }

  predicate EspsAscending(esps: seq<GptEsp>, from: nat) {
    && (forall i :: 0 <= i < |esps| ==> from <= esps[i].number)
    && (forall i, j :: 0 <= i < j < |esps| ==> esps[i].number < esps[j].number)
  }

  lemma EspsAscendingCons(p: GptEsp, rest: seq<GptEsp>, from: nat)
    requires from <= p.number && EspsAscending(rest, p.number + 1)
    ensures EspsAscending([p] + rest, from)
  {
  }

  lemma {:induction false} EspEntriesAscend(es: seq<GptEntry>, from: nat)
    requires Ascending(es, from)
    ensures EspsAscending(EspEntries(es), from)
  {
    if |es| > 0 {
      var number: nat := es[0].part.number;
      assert Ascending(es[1..], number + 1);
      EspEntriesAscend(es[1..], number + 1);
      var rest := EspEntries(es[1..]);
      if es[0].typeGuid == ESP_TYPE_GUID {
        EspsAscendingCons(es[0].part, rest, from);
      } else {
        EmptyLeft(rest);
        assert EspsAscending(rest, from);
      }
    }
  }

  /**
   A partition the kernel shows: its name, its `partition` number if it parses, its device number if it can be read.
   */
  datatype Part = Part(name: string, number: Option<u32>, dev: Option<string>)

  datatype EspPartition = EspPartition(kname: string, devNumber: string, gpt: GptEsp)

  predicate Exposed(parts: seq<Part>, number: u32) {
    exists i :: 0 <= i < |parts| && parts[i].number == Some(number)
  }

  /** The first partition that carries the number. */
  method FindPart(parts: seq<Part>, number: u32) returns (r: Option<Part>)
    ensures r.None? <==> !Exposed(parts, number)
    ensures r.Some? ==> exists i :: 0 <= i < |parts| && parts[i] == r.value && r.value.number == Some(number)
                                    && forall j :: 0 <= j < i ==> parts[j].number != Some(number)
  {
    for i := 0 to |parts|
      invariant forall j :: 0 <= j < i ==> parts[j].number != Some(number)
    {
      if parts[i].number == Some(number) {
        return Some(parts[i]);
      }
    }
    return None;
  }

  method FindEspIn(parts: seq<Part>, esps: seq<GptEsp>) returns (r: Result<EspPartition, GptError>)
    ensures r.Err? <==> forall i :: 0 <= i < |esps| ==> !Exposed(parts, esps[i].number)
    ensures r.Err? ==> r.error == NotFound
    ensures r.Ok? ==> exists i :: 0 <= i < |esps| && esps[i] == r.value.gpt && Exposed(parts, esps[i].number)
                                  && forall j :: 0 <= j < i ==> !Exposed(parts, esps[j].number)
    ensures r.Ok? ==> exists p :: p in parts && p.number == Some(r.value.gpt.number) && p.name == r.value.kname
                                  && r.value.devNumber == if p.dev.Some? then p.dev.value else ""
  {
    for i := 0 to |esps|
      invariant forall j :: 0 <= j < i ==> !Exposed(parts, esps[j].number)
    {
      var part := FindPart(parts, esps[i].number);
      if part.Some? {
        assert part.value in parts;
        return Ok(EspPartition(part.value.name, if part.value.dev.Some? then part.value.dev.value else "", esps[i]));
      }
    }
    return Err(NotFound);
  }

  /** `number` is a used slot of ESP type that the kernel exposes. */
  ghost predicate EspSlot(table: seq<byte>, size: nat, parts: seq<Part>, p: GptEsp)
    requires size >= 48
  {
    Exposed(parts, p.number) && exists guid :: IsEspType(guid) && IsSlot(table, size, 1, GptEntry(guid, p))
  }

  /**
   From table bytes to the located partition: the lowest-numbered ESP slot the kernel exposes, and none exactly when
   there is none.
   */
  method LocateEsp(table: seq<byte>, size: nat, parts: seq<Part>) returns (r: Result<EspPartition, GptError>)
    requires size >= 48 && |table| < 0xFFFF_FFFF
    ensures r.Err? <==> forall p :: !EspSlot(table, size, parts, p)
    ensures r.Ok? ==> EspSlot(table, size, parts, r.value.gpt)
                      && forall p :: EspSlot(table, size, parts, p) ==> r.value.gpt.number <= p.number
    ensures r.Ok? ==> r.value.gpt.Valid()
  {
    hide EntriesFrom, IsSlot, Exposed, Used, IsEspType;
    EspTypeIs();
    var entries := GptEntries(table, size);
    var esps := EspEntries(entries);
    r := FindEspIn(parts, esps);
    EntriesAscend(table, size, 1);
    EspEntriesAscend(entries, 1);
    forall p
      ensures p in esps <==> IsSlot(table, size, 1, GptEntry(ESP_TYPE_GUID, p))
    {
      EspEntriesAre(entries, p);
      EntriesAreSlots(table, size, 1, GptEntry(ESP_TYPE_GUID, p));
    }
    if r.Ok? {
      assert IsEspType(ESP_TYPE_GUID);
      assert EspSlot(table, size, parts, r.value.gpt);
      SlotsAreValid(table, size, 1, GptEntry(ESP_TYPE_GUID, r.value.gpt));
    } else {
      forall p
        ensures !EspSlot(table, size, parts, p)
      {
        if p in esps {
          var i :| 0 <= i < |esps| && esps[i] == p;
          assert !Exposed(parts, esps[i].number);
        }
      }
    }
  }

  lemma SlotsAreValid(table: seq<byte>, size: nat, number: nat, e: GptEntry)
    requires size >= 48 && IsSlot(table, size, number, e)
    ensures e.part.Valid()
  {
  }
}
