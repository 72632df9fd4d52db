/**
 Registering the boot entry of a freshly written disk: reuse, replace or create a `Boot####`,
 then place it in `BootOrder`. The variable store is an object whose every operation may fail.
 */
module BootEntries {
  import opened Bytes
  import opened BootOrders
  import opened DevicePath
  import opened LoadOptions
  import opened Seqs
  import opened Wrappers

  /** The store of boot variables: bare names to values without their attribute bytes. */
  type Vars = map<string, seq<byte>>

  // The UCS-2 units of "beskar7", and the removable-media loader of each architecture.
  const DESCRIPTION: seq<u16> := [0x62, 0x65, 0x73, 0x6B, 0x61, 0x72, 0x37]
  const EFI: seq<u16> := [0x45, 0x46, 0x49]
  const BOOT: seq<u16> := [0x42, 0x4F, 0x4F, 0x54]
  const BOOTX64: seq<u16> := [0x42, 0x4F, 0x4F, 0x54, 0x58, 0x36, 0x34, 0x2E, 0x45, 0x46, 0x49]
  const BOOTAA64: seq<u16> := [0x42, 0x4F, 0x4F, 0x54, 0x41, 0x41, 0x36, 0x34, 0x2E, 0x45, 0x46, 0x49]

  /** `\EFI\BOOT\BOOTX64.EFI` or `\EFI\BOOT\BOOTAA64.EFI`. */
  predicate IsRemovableLoader(loader: seq<u16>) {
    loader == Join([EFI, BOOT, BOOTX64]) || loader == Join([EFI, BOOT, BOOTAA64])
  }

  datatype Outcome = Created | Reused | Replaced

  datatype BootEntry = BootEntry(number: u16, outcome: Outcome, previousOrder: seq<u16>, bootOrder: seq<u16>)

  datatype EfiBootError =
    | ListVars
    | ReadVar(name: string)
    | WriteVar(name: string)
    | BadBootOrder
    | NoFreeEntry

  // ---------------------------------------------------------------- variable names

  const BOOT_ORDER := "BootOrder"

  function HexDigit(d: nat): char
    requires d < 0x10
  {
    if d < 10 then '0' + d as char else 'A' + (d - 10) as char
  }

  function HexValue(c: char): (r: Option<nat>)
    ensures r.Some? ==> r.value < 0x10
  {
    if '0' <= c <= '9' then Some((c - '0') as nat)
    else if 'A' <= c <= 'F' then Some((c - 'A') as nat + 10)
    else if 'a' <= c <= 'f' then Some((c - 'a') as nat + 10)
    else None
  }

  /** `Boot` and four uppercase hex digits. */
  function BootVarName(n: u16): string {
    "Boot" + [HexDigit(n / 0x1000), HexDigit(n / 0x100 % 0x10), HexDigit(n / 0x10 % 0x10), HexDigit(n % 0x10)]
  }

  lemma HexDigitRoundTrip(d: nat)
    requires d < 0x10
    ensures HexValue(HexDigit(d)) == Some(d)
  {
  }

  function HexNumber(a: char, b: char, c: char, d: char): Option<u16> {
    match (HexValue(a), HexValue(b), HexValue(c), HexValue(d))
    case (Some(a), Some(b), Some(c), Some(d)) =>
        Some(0x1000 * a + 0x100 * b + 0x10 * c + d)
    case _ => None
  }

  /** The number of a `Boot####` name in either case, or None for any other variable. */
  function ParseBootVarName(name: string): (n: Option<u16>)
    ensures n.Some? ==> |name| == 8
  {
    if |name| != 8 || name[..4] != "Boot" then None
    else HexNumber(name[4], name[5], name[6], name[7])
  }

  lemma NibblesOf(n: u16)
    ensures n == 0x1000 * (n / 0x1000) + 0x100 * (n / 0x100 % 0x10) + 0x10 * (n / 0x10 % 0x10) + n % 0x10
  {
    assert n / 0x100 == 0x10 * (n / 0x1000) + n / 0x100 % 0x10;
    assert n / 0x10 == 0x10 * (n / 0x100) + n / 0x10 % 0x10;
  }

  lemma BootVarNameRoundTrip(n: u16)
    ensures ParseBootVarName(BootVarName(n)) == Some(n)
  {
    var name := BootVarName(n);
    var a, b, c, d := n / 0x1000, n / 0x100 % 0x10, n / 0x10 % 0x10, n % 0x10;
    NibblesOf(n);
    HexDigitRoundTrip(a);
    HexDigitRoundTrip(b);
    HexDigitRoundTrip(c);
    HexDigitRoundTrip(d);
    assert name[..4] == "Boot";
  }

  /** `c` is the hex digit of the value `v`, in either case. */
  predicate IsHexOf(c: char, v: nat)
    requires v < 16
  {
    c == "0123456789ABCDEF"[v] || c == "0123456789abcdef"[v]
  }

  lemma HexValueIff(c: char, v: nat)
    requires v < 16
    ensures HexValue(c) == Some(v) <==> IsHexOf(c, v)
  {
  }

  /** A name is that of number `n` exactly when it is `Boot` and the four hex digits of `n`, in either case. */
  lemma NamedIff(name: string, n: u16)
    ensures ParseBootVarName(name) == Some(n) <==>
            && |name| == 8 && name[..4] == "Boot"
            && IsHexOf(name[4], n / 0x1000) && IsHexOf(name[5], n / 0x100 % 0x10)
            && IsHexOf(name[6], n / 0x10 % 0x10) && IsHexOf(name[7], n % 0x10)
  {
    if |name| == 8 {
      HexNumberIff(name[4], name[5], name[6], name[7], n);
      hide HexNumber, IsHexOf;
    }
  }

  lemma HexNumberIff(a: char, b: char, c: char, d: char, n: u16)
    ensures HexNumber(a, b, c, d) == Some(n) <==>
            && IsHexOf(a, n / 0x1000) && IsHexOf(b, n / 0x100 % 0x10)
            && IsHexOf(c, n / 0x10 % 0x10) && IsHexOf(d, n % 0x10)
  {
    NibblesOf(n);
    HexNumberOf(a, b, c, d, n / 0x1000, n / 0x100 % 0x10, n / 0x10 % 0x10, n % 0x10);
    hide HexNumber, IsHexOf;
  }

  lemma HexNumberOf(a: char, b: char, c: char, d: char, w: nat, x: nat, y: nat, z: nat)
    requires w < 16 && x < 16 && y < 16 && z < 16
    ensures HexNumber(a, b, c, d) == Some(0x1000 * w + 0x100 * x + 0x10 * y + z) <==>
            IsHexOf(a, w) && IsHexOf(b, x) && IsHexOf(c, y) && IsHexOf(d, z)
  {
    HexValueIff(a, w);
    HexValueIff(b, x);
    HexValueIff(c, y);
    HexValueIff(d, z);
    HexNumberParts(a, b, c, d);
    hide HexValue, IsHexOf, HexNumber;
    if HexNumber(a, b, c, d).Some? {
      NibblesDiffer(HexValue(a).value, HexValue(b).value, HexValue(c).value, HexValue(d).value, w, x, y, z);
    }
  }

  lemma HexNumberParts(a: char, b: char, c: char, d: char)
    ensures HexNumber(a, b, c, d).Some? <==>
            HexValue(a).Some? && HexValue(b).Some? && HexValue(c).Some? && HexValue(d).Some?
    ensures HexNumber(a, b, c, d).Some? ==>
              HexNumber(a, b, c, d).value ==
              0x1000 * HexValue(a).value + 0x100 * HexValue(b).value + 0x10 * HexValue(c).value + HexValue(d).value
  {
    hide HexValue;
  }

  lemma NibblesDiffer(a: nat, b: nat, c: nat, d: nat, w: nat, x: nat, y: nat, z: nat)
    requires a < 16 && b < 16 && c < 16 && d < 16 && w < 16 && x < 16 && y < 16 && z < 16
    ensures 0x1000 * a + 0x100 * b + 0x10 * c + d == 0x1000 * w + 0x100 * x + 0x10 * y + z <==>
            a == w && b == x && c == y && d == z
  {
  }

  /** Every boot variable is named in uppercase hex, as the UEFI Specification names them. */
  predicate Canonical(vars: Vars) {
    forall name :: name in vars && ParseBootVarName(name).Some? ==> name == BootVarName(ParseBootVarName(name).value)
  }

  // ---------------------------------------------------------------- what a run does

  /** What boot registration reads from the store: the well-formed options, and every number in use. */
  datatype Nvram = Nvram(options: map<u16, LoadOption>, used: set<u16>)

  /** The load option of `Boot####`, when it is set and well-formed. */
  function Opt(vars: Vars, n: u16): Option<LoadOption> {
    if BootVarName(n) in vars then DecodeLoadOption(vars[BootVarName(n)]) else None
  }

  ghost function NvramOf(vars: Vars): Nvram {
    Nvram(map n: u16 | 0 <= n < 0x1_0000 && Opt(vars, n).Some? :: Opt(vars, n).value,
          set n: u16 | 0 <= n < 0x1_0000 && BootVarName(n) in vars)
  }

  function Lower(u: u16): u16 {
    if 0x41 <= u <= 0x5A then u + 0x20 else u
  }

  predicate EqIgnoreCase(a: seq<u16>, b: seq<u16>) {
    |a| == |b| && forall i :: 0 <= i < |a| ==> Lower(a[i]) == Lower(b[i])
  }

  /** The same letter, or the same but for its case. */
  predicate SameLetter(a: u16, b: u16) {
    a == b || ('A' as int <= a <= 'Z' as int && b == a + 32) || ('A' as int <= b <= 'Z' as int && a == b + 32)
  }

  lemma EqIgnoreCaseIff(a: seq<u16>, b: seq<u16>)
    ensures EqIgnoreCase(a, b) <==> |a| == |b| && forall i :: 0 <= i < |a| ==> SameLetter(a[i], b[i])
  {
  }

  /** Active, and leads from the partition `gpt` to `loader`, or to the removable-media default. */
  predicate Starts(o: LoadOption, gpt: GptEsp, loader: seq<u16>) {
    && o.IsActive()
    && o.Hd().Some? && o.Hd().value.Is(gpt)
    && (o.Loader().None? || EqIgnoreCase(o.Loader().value, loader))
  }

  ghost predicate IsLeast(p: u16 -> bool, n: u16) {
    p(n) && forall k: u16 :: k < n ==> !p(k)
  }

  lemma {:induction false} LeastExists(p: u16 -> bool, n: u16)
    requires p(n)
    ensures exists m :: IsLeast(p, m)
  {
    if !IsLeast(p, n) {
      var k: u16 :| k < n && p(k);
      LeastExists(p, k);
    }
  }

  /** The least number that satisfies `p`. */
  ghost function Least(p: u16 -> bool): (r: Option<u16>)
    ensures r.Some? ==> IsLeast(p, r.value)
    ensures r.None? ==> forall n: u16 :: !p(n)
  {
    if n: u16 :| p(n) then
      LeastExists(p, n);
      var m :| IsLeast(p, m);
      Some(m)
    else None
  }

  lemma LeastIs(p: u16 -> bool, n: u16)
    requires IsLeast(p, n)
    ensures Least(p) == Some(n)
  {
    var m := Least(p).value;
    assert p(m) && p(n);
  }

  predicate IsOurs(o: LoadOption) {
    o.description == DESCRIPTION
  }

  function Having(nv: Nvram, p: LoadOption -> bool): u16 -> bool {
    (n: u16) => n in nv.options && p(nv.options[n])
  }

  ghost function LeastOption(nv: Nvram, p: LoadOption -> bool): Option<u16> {
    Least(Having(nv, p))
  }

  function Unused(nv: Nvram): u16 -> bool {
    (n: u16) => n !in nv.used
  }

  ghost function LeastFree(nv: Nvram): Option<u16> {
    Least(Unused(nv))
  }

  function Starting(gpt: GptEsp, loader: seq<u16>): LoadOption -> bool {
    (o: LoadOption) => Starts(o, gpt, loader)
  }

  ghost function Chosen(nv: Nvram, gpt: GptEsp, loader: seq<u16>): Option<(u16, Outcome)> {
    match LeastOption(nv, Starting(gpt, loader))
    case Some(n) => Some((n, Reused))
    case None =>
      match LeastOption(nv, IsOurs)
      case Some(n) => Some((n, Replaced))
      case None =>
        match LeastFree(nv)
        case Some(n) => Some((n, Created))
        case None => None
  }

  function Bootable(nv: Nvram): u16 -> bool {
    (n: u16) => n in nv.options && nv.options[n].IsAutoBootable()
  }

  function OnNetwork(nv: Nvram): u16 -> bool {
    (n: u16) => n in nv.options && IsNetwork(nv.options[n].devicePath)
  }

  /** `BootOrder` as it stands: empty when unset, None when malformed. */
  function OrderOf(vars: Vars): Option<seq<u16>> {
    if BOOT_ORDER in vars then ParseBootOrder(vars[BOOT_ORDER]) else Some([])
  }

  /** The registered entry of a run in which nothing fails. */
  ghost function Plan(vars: Vars, gpt: GptEsp, loader: seq<u16>): Result<BootEntry, EfiBootError> {
    match OrderOf(vars)
    case None => Err(BadBootOrder)
    case Some(order) =>
      var nv := NvramOf(vars);
      match Chosen(nv, gpt, loader)
      case None => Err(NoFreeEntry)
      case Some((n, outcome)) =>
        Ok(BootEntry(n, outcome, order, PlaceAfterNetwork(order, n, Bootable(nv), OnNetwork(nv))))
  }

  function EntryValue(gpt: GptEsp, loader: seq<u16>): seq<byte> {
    EncodeLoadOption(LOAD_OPTION_ACTIVE, DESCRIPTION, HdFileDevicePath(gpt, loader))
  }

  /** The writes a run makes, in order. */
  function EntryWrite(gpt: GptEsp, loader: seq<u16>, e: BootEntry): seq<(string, seq<byte>)> {
    if e.outcome == Reused then [] else [(BootVarName(e.number), EntryValue(gpt, loader))]
  }

  function OrderWrite(e: BootEntry): seq<(string, seq<byte>)> {
    if e.bootOrder == e.previousOrder then [] else [(BOOT_ORDER, EncodeBootOrder(e.bootOrder))]
  }

  /** The store once the entry is written and before `BootOrder` is. */
  function AfterEntry(vars: Vars, gpt: GptEsp, loader: seq<u16>, e: BootEntry): Vars {
    if e.outcome == Reused then vars else vars[BootVarName(e.number) := EntryValue(gpt, loader)]
  }

  function AfterRun(vars: Vars, gpt: GptEsp, loader: seq<u16>, e: BootEntry): Vars {
    var entered := AfterEntry(vars, gpt, loader, e);
    if e.bootOrder == e.previousOrder then entered else entered[BOOT_ORDER := EncodeBootOrder(e.bootOrder)]
  }

  /** One run, complete or stopped by a fault at any point. */
  ghost predicate RunStep(before: Vars, after: Vars, gpt: GptEsp, loader: seq<u16>) {
    after == before
    || (Plan(before, gpt, loader).Ok?
        && (after == AfterEntry(before, gpt, loader, Plan(before, gpt, loader).value)
            || after == AfterRun(before, gpt, loader, Plan(before, gpt, loader).value)))
  }

  // ---------------------------------------------------------------- the store

  /** The variable store. The k-th operation fails exactly when `fails(k)`, and then changes nothing. */
  class VarStore {
    var vars: Vars
    var ops: nat
    const fails: nat -> bool
    ghost var writes: seq<(string, seq<byte>)>

    constructor (vars: Vars, fails: nat -> bool)
      ensures this.vars == vars && this.fails == fails && ops == 0 && writes == []
    {
      this.vars, this.fails, ops, writes := vars, fails, 0, [];
    }

    /** The names of all variables, in no particular order. */
    method List() returns (r: Option<seq<string>>)
      modifies this`ops
      ensures ops == old(ops) + 1
      ensures r.None? <==> fails(old(ops))
      ensures r.Some? ==> forall name :: name in r.value <==> name in vars
      ensures r.Some? ==> forall i, j :: 0 <= i < j < |r.value| ==> r.value[i] != r.value[j]
    {
      ops := ops + 1;
      if fails(ops - 1) {
        return None;
      }
      var names: seq<string> := [];
      var rest := vars.Keys;
      while rest != {}
        invariant rest <= vars.Keys
        invariant forall name :: name in names <==> name in vars.Keys - rest
        invariant forall i, j :: 0 <= i < j < |names| ==> names[i] != names[j]
      {
        var name :| name in rest;
        ghost var before := names;
        names := names + [name];
        assert forall n :: n in names <==> n in before || n == name;
        rest := rest - {name};
      }
      return Some(names);
    }

    method Read(name: string) returns (r: Result<Option<seq<byte>>, ()>)
      modifies this`ops
      ensures ops == old(ops) + 1
      ensures r.Err? <==> fails(old(ops))
      ensures r.Ok? ==> r.value == if name in vars then Some(vars[name]) else None
    {
      ops := ops + 1;
      if fails(ops - 1) {
        return Err(());
      }
      return Ok(if name in vars then Some(vars[name]) else None);
    }

    method Write(name: string, value: seq<byte>) returns (ok: bool)
      modifies this
      ensures ops == old(ops) + 1
      ensures ok <==> !fails(old(ops))
      ensures vars == if ok then old(vars)[name := value] else old(vars)
      ensures writes == if ok then old(writes) + [(name, value)] else old(writes)
    {
      ops := ops + 1;
      ok := !fails(ops - 1);
      if ok {
        vars := vars[name := value];
        writes := writes + [(name, value)];
      }
    }

    /** No operation from the `since`-th to the last one made has failed. */
    predicate NoFaultSince(since: nat)
      reads this`ops
    {
      forall k :: since <= k < ops ==> !fails(k)
    }
  }

  // ---------------------------------------------------------------- one run

  datatype Entry = Entry(number: u16, option: LoadOption)

  /** The lowest number of an entry whose option satisfies `p`. */
  function MinNumber(entries: seq<Entry>, p: LoadOption -> bool): (r: Option<u16>)
    ensures r.Some? ==> exists e :: e in entries && p(e.option) && e.number == r.value
    ensures forall e :: e in entries && p(e.option) ==> r.Some? && r.value <= e.number
  {
    if |entries| == 0 then None
    else
      var first, rest := entries[0], MinNumber(entries[1..], p);
      assert entries == [first] + entries[1..];
      if !p(first.option) then rest
      else if rest.Some? && rest.value < first.number then rest
      else Some(first.number)
  }

  function PickExisting(entries: seq<Entry>, gpt: GptEsp, loader: seq<u16>): Option<u16> {
    MinNumber(entries, Starting(gpt, loader))
  }

  function PreviousEntry(entries: seq<Entry>): Option<u16> {
    MinNumber(entries, IsOurs)
  }

  /** The lowest number from `from` on that is not in `used`. */
  function FirstFree(used: seq<u16>, from: nat): (r: Option<u16>)
    requires from <= 0x1_0000
    ensures r.Some? ==> from <= r.value && r.value !in used && forall k: u16 :: from <= k < r.value ==> k in used
    ensures r.None? ==> forall k: u16 :: from <= k ==> k in used
    decreases 0x1_0000 - from, |used|
  {
    if from == 0x1_0000 then None
    else if from !in used then Some(from)
    else FirstFree(used, from + 1)
  }

  function FreeBootNumber(used: seq<u16>): Option<u16> {
    FirstFree(used, 0)
  }

  /** The first entry numbered `n`. */
  function FindOption(entries: seq<Entry>, n: u16): (r: Option<LoadOption>)
    ensures r.Some? ==> Entry(n, r.value) in entries
    ensures r.None? ==> forall e :: e in entries ==> e.number != n
  {
    if |entries| == 0 then None
    else
      assert entries == [entries[0]] + entries[1..];
      if entries[0].number == n then Some(entries[0].option)
      else FindOption(entries[1..], n)
  }

  /** `entries` are exactly the well-formed boot variables. */
  ghost predicate Represents(entries: seq<Entry>, nv: Nvram) {
    && (forall e :: e in entries ==> e.number in nv.options && nv.options[e.number] == e.option)
    && (forall n :: n in nv.options ==> Entry(n, nv.options[n]) in entries)
  }

  ghost predicate Uses(used: seq<u16>, nv: Nvram) {
    forall n: u16 :: n in used <==> n in nv.used
  }

  lemma NamedEntry(vars: Vars, name: string)
    requires Canonical(vars) && name in vars && ParseBootVarName(name).Some?
    ensures var n := ParseBootVarName(name).value;
            var nv := NvramOf(vars);
            && n in nv.used
            && DecodeLoadOption(vars[name]) == if n in nv.options then Some(nv.options[n]) else None
  {
  }

  lemma UsedIsNamed(vars: Vars, n: u16)
    requires n in NvramOf(vars).used
    ensures BootVarName(n) in vars && ParseBootVarName(BootVarName(n)) == Some(n)
  {
    BootVarNameRoundTrip(n);
  }

  lemma OptionIsUsed(vars: Vars)
    ensures NvramOf(vars).options.Keys <= NvramOf(vars).used
  {
  }

  /** The names of `names` are read: their numbers are in `used`, their options in `entries`. */
  ghost predicate ReadSoFar(names: seq<string>, entries: seq<Entry>, used: seq<u16>, nv: Nvram) {
    && (forall e :: e in entries ==> e.number in nv.options && nv.options[e.number] == e.option)
    && (forall n :: n in used ==> n in nv.used)
    && (forall j :: 0 <= j < |names| ==> NameRead(names[j], entries, used, nv))
  }

  ghost predicate NameRead(name: string, entries: seq<Entry>, used: seq<u16>, nv: Nvram) {
    var n := ParseBootVarName(name);
    n.Some? ==> n.value in used && (n.value in nv.options ==> Entry(n.value, nv.options[n.value]) in entries)
  }

  lemma AllRead(vars: Vars, names: seq<string>, entries: seq<Entry>, used: seq<u16>)
    requires forall name :: name in vars ==> name in names
    requires ReadSoFar(names, entries, used, NvramOf(vars))
    ensures Represents(entries, NvramOf(vars)) && Uses(used, NvramOf(vars))
  {
    var nv := NvramOf(vars);
    forall n: u16 | n in nv.used
      ensures n in used && (n in nv.options ==> Entry(n, nv.options[n]) in entries)
    {
      UsedIsNamed(vars, n);
      var j :| 0 <= j < |names| && names[j] == BootVarName(n);
      assert NameRead(names[j], entries, used, nv);
    }
    OptionIsUsed(vars);
  }

  function ByNumber(): (Entry, Entry) -> bool {
    (a: Entry, b: Entry) => a.number <= b.number
  }

  function Ascending(): (u16, u16) -> bool {
    (a: u16, b: u16) => a <= b
  }

  lemma SortingKeeps(entries: seq<Entry>, used: seq<u16>, nv: Nvram)
    requires Represents(entries, nv) && Uses(used, nv)
    ensures Represents(Sort(entries, ByNumber()), nv) && Uses(Sort(used, Ascending()), nv)
  {
    SortSorts(entries, ByNumber());
    SortSorts(used, Ascending());
  }

  /** List the store; a number is in use even when its value is malformed. */
  method ReadBootEntries(store: VarStore) returns (r: Result<(seq<Entry>, seq<u16>), EfiBootError>)
    requires Canonical(store.vars)
    modifies store`ops
    ensures old(store.ops) <= store.ops
    ensures store.NoFaultSince(old(store.ops)) ==> r.Ok?
    ensures r.Ok? ==> Represents(r.value.0, NvramOf(store.vars)) && Uses(r.value.1, NvramOf(store.vars))
    ensures r.Err? ==> r.error.ListVars? || (r.error.ReadVar? && r.error.name != BOOT_ORDER)
  {
    hide BootVarName, ParseBootVarName, DecodeLoadOption, NvramOf, Sort, Represents, Uses;
    var entries: seq<Entry> := [];
    var used: seq<u16> := [];
    var listed := store.List();
    if listed.None? {
      assert store.fails(old(store.ops));
      return Err(ListVars);
    }
    var names := listed.value;
    ghost var nv := NvramOf(store.vars);
    for i := 0 to |names|
      invariant old(store.ops) < store.ops
      invariant ReadSoFar(names[..i], entries, used, nv)
    {
      var name := names[i];
      assert name in store.vars;
      assert names[..i + 1] == names[..i] + [name];
      var parsed := ParseBootVarName(name);
      if parsed.Some? {
        var n := parsed.value;
        NamedEntry(store.vars, name);
        used := used + [n];
        var read := store.Read(name);
        if read.Err? {
          assert store.fails(store.ops - 1);
          return Err(ReadVar(name));
        }
        if read.value.Some? {
          var option := ParseLoadOption(read.value.value);
          if option.Some? {
            entries := entries + [Entry(n, option.value)];
          }
        }
      }
    }
    assert names[..|names|] == names;
    AllRead(store.vars, names, entries, used);
    SortingKeeps(entries, used, NvramOf(store.vars));
    return Ok((Sort(entries, ByNumber()), Sort(used, Ascending())));
  }

  lemma MinNumberIsLeast(entries: seq<Entry>, nv: Nvram, p: LoadOption -> bool)
    requires Represents(entries, nv)
    ensures MinNumber(entries, p) == LeastOption(nv, p)
  {
    var m, q := MinNumber(entries, p), Having(nv, p);
    forall n: u16 | q(n)
      ensures m.Some? && m.value <= n
    {
      assert Entry(n, nv.options[n]) in entries;
    }
    if m.Some? {
      LeastIs(q, m.value);
    }
  }

  lemma FreeNumberIsLeast(used: seq<u16>, nv: Nvram)
    requires Uses(used, nv)
    ensures FreeBootNumber(used) == LeastFree(nv)
  {
    var free, q := FreeBootNumber(used), Unused(nv);
    assert forall n: u16 :: q(n) <==> n !in used;
    if free.Some? {
      LeastIs(q, free.value);
    }
  }

  /** Which number a run registers, and how. */
  function Choose(entries: seq<Entry>, used: seq<u16>, gpt: GptEsp, loader: seq<u16>): Option<(u16, Outcome)> {
    match PickExisting(entries, gpt, loader)
    case Some(n) => Some((n, Reused))
    case None =>
      match PreviousEntry(entries)
      case Some(n) => Some((n, Replaced))
      case None =>
        match FreeBootNumber(used)
        case Some(n) => Some((n, Created))
        case None => None
  }

  lemma ChooseIsChosen(entries: seq<Entry>, used: seq<u16>, nv: Nvram, gpt: GptEsp, loader: seq<u16>)
    requires Represents(entries, nv) && Uses(used, nv)
    ensures Choose(entries, used, gpt, loader) == Chosen(nv, gpt, loader)
  {
    MinNumberIsLeast(entries, nv, Starting(gpt, loader));
    MinNumberIsLeast(entries, nv, IsOurs);
    FreeNumberIsLeast(used, nv);
  }

  function BootableIn(entries: seq<Entry>): u16 -> bool {
    (n: u16) => FindOption(entries, n).Some? && FindOption(entries, n).value.IsAutoBootable()
  }

  function OnNetworkIn(entries: seq<Entry>): u16 -> bool {
    (n: u16) => FindOption(entries, n).Some? && IsNetwork(FindOption(entries, n).value.devicePath)
  }

  lemma PlacementFromEntries(entries: seq<Entry>, nv: Nvram, order: seq<u16>, n: u16)
    requires Represents(entries, nv)
    ensures PlaceAfterNetwork(order, n, BootableIn(entries), OnNetworkIn(entries))
         == PlaceAfterNetwork(order, n, Bootable(nv), OnNetwork(nv))
  {
    forall m: u16
      ensures FindOption(entries, m) == if m in nv.options then Some(nv.options[m]) else None
    {
      if m in nv.options {
        assert Entry(m, nv.options[m]) in entries;
      }
    }
    PlacementIgnoresSelf(order, n, BootableIn(entries), OnNetworkIn(entries), Bootable(nv), OnNetwork(nv));
  }

  lemma NamesDiffer(n: u16)
    ensures BootVarName(n) != BOOT_ORDER
  {
    assert |BootVarName(n)| != |BOOT_ORDER|;
  }

  /**
   One run over the store. Whatever fails, the store is left as it was, with only the entry written,
   or with the whole run done; without a fault the run does what `Plan` says, its error cases
   included.
   */
  method EnsureIn(store: VarStore, gpt: GptEsp, loader: seq<u16>) returns (r: Result<BootEntry, EfiBootError>)
    requires Canonical(store.vars)
    modifies store
    ensures store.NoFaultSince(old(store.ops)) ==> r == Plan(old(store.vars), gpt, loader)
    ensures r.Ok? ==>
              && r == Plan(old(store.vars), gpt, loader)
              && store.vars == AfterRun(old(store.vars), gpt, loader, r.value)
              && store.writes == old(store.writes) + EntryWrite(gpt, loader, r.value) + OrderWrite(r.value)
    ensures r == Err(WriteVar(BOOT_ORDER)) ==>
              && Plan(old(store.vars), gpt, loader).Ok?
              && store.vars == AfterEntry(old(store.vars), gpt, loader, Plan(old(store.vars), gpt, loader).value)
    ensures r.Err? && r != Err(WriteVar(BOOT_ORDER)) ==>
              store.vars == old(store.vars) && store.writes == old(store.writes)
    ensures RunStep(old(store.vars), store.vars, gpt, loader)
  {
    hide BootVarName, EntryValue, NvramOf, EncodeBootOrder, ParseBootOrder, PlaceAfterNetwork, Chosen, Choose,
      Represents, Uses;
    ghost var vars := store.vars;
    ghost var nv := NvramOf(vars);
    ghost var start := store.ops;
    var read := ReadBootEntries(store);
    if read.Err? {
      assert exists k :: start <= k < store.ops && store.fails(k);
      return Err(read.error);
    }
    var entries, used := read.value.0, read.value.1;
    var raw := store.Read(BOOT_ORDER);
    if raw.Err? {
      assert store.fails(store.ops - 1);
      return Err(ReadVar(BOOT_ORDER));
    }
    var previousOrder: seq<u16> := [];
    if raw.value.Some? {
      var parsed := ParseBootOrder(raw.value.value);
      if parsed.None? {
        return Err(BadBootOrder);
      }
      previousOrder := parsed.value;
    }
    assert OrderOf(vars) == Some(previousOrder);

    ChooseIsChosen(entries, used, nv, gpt, loader);
    var choice := Choose(entries, used, gpt, loader);
    if choice.None? {
      return Err(NoFreeEntry);
    }
    var number, outcome := choice.value.0, choice.value.1;
    NamesDiffer(number);
    if outcome != Reused {
      var name := BootVarName(number);
      var ok := store.Write(name, EntryValue(gpt, loader));
      if !ok {
        assert store.fails(store.ops - 1);
        return Err(WriteVar(name));
      }
    }
    PlacementFromEntries(entries, nv, previousOrder, number);
    var bootOrder := PlaceAfterNetwork(previousOrder, number, BootableIn(entries), OnNetworkIn(entries));
    var entry := BootEntry(number, outcome, previousOrder, bootOrder);
    assert Plan(vars, gpt, loader) == Ok(entry);
    if bootOrder != previousOrder {
      var ok := store.Write(BOOT_ORDER, EncodeBootOrder(bootOrder));
      if !ok {
        assert store.fails(store.ops - 1);
        return Err(WriteVar(BOOT_ORDER));
      }
    }
    return Ok(entry);
  }
}
