/** What holds across several registration runs on the same variable store. */
module BootRuns {
  import opened BootEntries
  import opened BootOrders
  import opened Bytes
  import opened DevicePath
  import opened LoadOptions
  import opened Wrappers

  // ---------------------------------------------------------------- the written entry

  lemma LoaderNormal(loader: seq<u16>)
    requires IsRemovableLoader(loader)
    ensures LoaderFits(loader)
    ensures Join(Components(loader)) == loader
  {
    var x64, aa64 := [EFI, BOOT, BOOTX64], [EFI, BOOT, BOOTAA64];
    assert PlainComponents(x64) && PlainComponents(aa64);
    ComponentsOfJoin(x64);
    ComponentsOfJoin(aa64);
    JoinOfThree(EFI, BOOT, BOOTX64);
    JoinOfThree(EFI, BOOT, BOOTAA64);
  }

  lemma JoinOfThree(a: seq<u16>, b: seq<u16>, c: seq<u16>)
    ensures Join([a, b, c]) == [BACKSLASH] + a + [BACKSLASH] + b + [BACKSLASH] + c
  {
    assert [a, b, c][1..] == [b, c] && [b, c][1..] == [c] && [c][1..] == [];
    assert Join([c]) == [BACKSLASH] + c + Join([]);
    assert Join([b, c]) == [BACKSLASH] + b + Join([c]);
  }

  lemma EqIgnoreCaseReflexive(a: seq<u16>)
    ensures EqIgnoreCase(a, a)
  {
  }

  /** The option a run writes. */
  function Written(gpt: GptEsp, loader: seq<u16>): LoadOption {
    LoadOption(LOAD_OPTION_ACTIVE, DESCRIPTION, HdFileDevicePath(gpt, loader))
  }

  /** From bytes: the written entry reads back as one of ours that starts the loader on that partition. */
  lemma WrittenReadsBack(gpt: GptEsp, loader: seq<u16>)
    requires gpt.Valid() && IsRemovableLoader(loader)
    ensures DecodeLoadOption(EntryValue(gpt, loader)) == Some(Written(gpt, loader))
    ensures Starts(Written(gpt, loader), gpt, loader)
    ensures IsOurs(Written(gpt, loader))
    ensures Written(gpt, loader).IsAutoBootable() && !IsNetwork(Written(gpt, loader).devicePath)
  {
    hide HdFileDevicePath, Join, Components, DecodeLoadOption, EncodeLoadOption, FirstHd, LoaderPath, Nodes;
    LoaderNormal(loader);
    HdFilePathRoundTrip(gpt, loader);
    LoadOptionRoundTrip(LOAD_OPTION_ACTIVE, DESCRIPTION, HdFileDevicePath(gpt, loader));
    EqIgnoreCaseReflexive(loader);
    LoaderLength(loader);
  }

  lemma LoaderLength(loader: seq<u16>)
    requires IsRemovableLoader(loader)
    ensures |loader| <= 22
  {
    JoinOfThree(EFI, BOOT, BOOTX64);
    JoinOfThree(EFI, BOOT, BOOTAA64);
  }

  // ---------------------------------------------------------------- the stored bytes

  /**
   The bytes stored for number `n` boot the loader from exactly this partition: the active bit is set, the
   first GPT hard-drive node carries the number, blocks and GUID of `gpt`, and the path ends there or
   names the loader, but for case.
   */
  ghost predicate StoredFor(vars: Vars, n: u16, gpt: GptEsp, loader: seq<u16>) {
    && BootVarName(n) in vars
    && var raw := vars[BootVarName(n)];
       && DecodeLoadOption(raw).Some? && |raw| >= 6 && raw[0] % 2 == 1
       && var ns := Nodes(DecodeLoadOption(raw).value.devicePath);
          && LeadsTo(ns, gpt)
          && (LoaderPath(ns).Some? ==>
                && |LoaderPath(ns).value| == |loader|
                && forall i :: 0 <= i < |loader| ==> SameLetter(LoaderPath(ns).value[i], loader[i]))
  }

  lemma StoredStarts(vars: Vars, n: u16, gpt: GptEsp, loader: seq<u16>)
    ensures StoredFor(vars, n, gpt, loader) <==> Having(NvramOf(vars), Starting(gpt, loader))(n)
  {
    hide BootVarName, DecodeLoadOption, Nodes, LoaderPath, FirstHd, LeadsTo, SameLetter, EqIgnoreCase;
    if Opt(vars, n).Some? {
      var raw := vars[BootVarName(n)];
      var ns := Nodes(DecodeLoadOption(raw).value.devicePath);
      FlagsFromBytes(raw);
      LeadsToIff(ns, gpt);
      if LoaderPath(ns).Some? {
        EqIgnoreCaseIff(LoaderPath(ns).value, loader);
      }
    }
  }

  /** A run reuses `n`, and so writes no entry, exactly when `n` is the least number that boots this partition. */
  lemma ReusesIff(vars: Vars, gpt: GptEsp, loader: seq<u16>, n: u16)
    ensures var plan := Plan(vars, gpt, loader);
            plan.Ok? && plan.value.outcome == Reused && plan.value.number == n <==>
            && ("BootOrder" in vars ==> ParseBootOrder(vars["BootOrder"]).Some?) && StoredFor(vars, n, gpt, loader)
            && forall k: u16 :: k < n ==> !StoredFor(vars, k, gpt, loader)
  {
    hide NvramOf, StoredFor, PlaceAfterNetwork, ParseBootOrder, BootVarName, Starts;
    var q := Having(NvramOf(vars), Starting(gpt, loader));
    forall k: u16
      ensures StoredFor(vars, k, gpt, loader) <==> q(k)
    {
      StoredStarts(vars, k, gpt, loader);
    }
    if IsLeast(q, n) {
      LeastIs(q, n);
    }
  }

  /** The entry written for another partition is never reused for this one. */
  lemma OtherDiskNeverReused(vars: Vars, gpt: GptEsp, other: GptEsp, loader: seq<u16>, n: u16)
    requires gpt.Valid() && other.Valid() && IsRemovableLoader(loader)
    requires other.number != gpt.number || other.uniqueGuid != gpt.uniqueGuid || other.firstLba != gpt.firstLba
    requires BootVarName(n) in vars && vars[BootVarName(n)] == EntryValue(other, loader)
    ensures var plan := Plan(vars, gpt, loader);
            !(plan.Ok? && plan.value.outcome == Reused && plan.value.number == n)
  {
    WrittenReadsBack(other, loader);
    ReusesIff(vars, gpt, loader, n);
    var ns := Nodes(Written(other, loader).devicePath);
    LeadsToIff(ns, gpt);
    hide Plan, NvramOf, BootVarName, EntryValue, Nodes, FirstHd, LeadsTo, LoaderPath, DecodeLoadOption,
      HdFileDevicePath;
    assert FirstHd(ns).value.Is(other);
  }

  /** In bytes: an entry is one of ours exactly when its description is `beskar7`. */
  lemma OursFromBytes(raw: seq<byte>)
    requires DecodeLoadOption(raw).Some?
    ensures IsOurs(DecodeLoadOption(raw).value) <==>
            |raw| >= 22 && raw[6..22] == [0x62, 0, 0x65, 0, 0x73, 0, 0x6B, 0, 0x61, 0, 0x72, 0, 0x37, 0, 0, 0]
  {
    DescriptionFromBytes(raw, DESCRIPTION);
    DescriptionBytes();
    hide DecodeLoadOption, Ucs2Nul;
  }

  lemma DescriptionBytes()
    ensures Ucs2Nul(DESCRIPTION) == [0x62, 0, 0x65, 0, 0x73, 0, 0x6B, 0, 0x61, 0, 0x72, 0, 0x37, 0, 0, 0]
  {
    var raw := UnitBytes(DESCRIPTION);
    forall i | 0 <= i < 7
      ensures raw[2 * i] == DESCRIPTION[i] && raw[2 * i + 1] == 0
    {
      UnitBytesAt(DESCRIPTION, i);
    }
    hide UnitBytes;
    assert raw[0] == raw[2 * 0] && raw[2] == raw[2 * 1] && raw[4] == raw[2 * 2] && raw[6] == raw[2 * 3];
    assert raw[8] == raw[2 * 4] && raw[10] == raw[2 * 5] && raw[12] == raw[2 * 6];
    assert raw[1] == raw[2 * 0 + 1] && raw[3] == raw[2 * 1 + 1] && raw[5] == raw[2 * 2 + 1] && raw[7] == raw[2 * 3 + 1];
    assert raw[9] == raw[2 * 4 + 1] && raw[11] == raw[2 * 5 + 1] && raw[13] == raw[2 * 6 + 1];
  }

  lemma {:induction false} UnitBytesAt(s: seq<u16>, i: nat)
    requires i < |s|
    ensures UnitBytes(s)[2 * i] == s[i] % 0x100 && UnitBytes(s)[2 * i + 1] == s[i] / 0x100
  {
    if i > 0 {
      UnitBytesAt(s[1..], i - 1);
    }
  }

  /** In bytes: which entries placement counts, and which of them are network entries. */
  lemma PlacementFromBytes(vars: Vars, n: u16)
    ensures Bootable(NvramOf(vars))(n) <==>
            && BootVarName(n) in vars && DecodeLoadOption(vars[BootVarName(n)]).Some?
            && |vars[BootVarName(n)]| >= 6
            && vars[BootVarName(n)][0] % 2 == 1 && vars[BootVarName(n)][1] % 0x20 == 0
    ensures OnNetwork(NvramOf(vars))(n) <==>
            && BootVarName(n) in vars && DecodeLoadOption(vars[BootVarName(n)]).Some?
            && exists node :: node in Nodes(DecodeLoadOption(vars[BootVarName(n)]).value.devicePath) && node.kind == 3
                              && (node.sub == 11 || node.sub == 12 || node.sub == 13 || node.sub == 24)
  {
    hide BootVarName, DecodeLoadOption, Nodes, IsNetwork;
    if Opt(vars, n).Some? {
      var raw := vars[BootVarName(n)];
      FlagsFromBytes(raw);
      IsNetworkIff(DecodeLoadOption(raw).value.devicePath);
    }
  }

  /** The units of an ASCII text. */
  predicate Spells(units: seq<u16>, text: string) {
    |units| == |text| && forall i :: 0 <= i < |text| ==> units[i] == text[i] as int
  }

  /** The two loaders there are, as text. */
  lemma RemovableIff(loader: seq<u16>)
    ensures IsRemovableLoader(loader) <==>
            Spells(loader, "\\EFI\\BOOT\\BOOTX64.EFI") || Spells(loader, "\\EFI\\BOOT\\BOOTAA64.EFI")
  {
    SpellsX64();
    SpellsAa64();
    hide Join;
    if Spells(loader, "\\EFI\\BOOT\\BOOTX64.EFI") {
      assert loader == Join([EFI, BOOT, BOOTX64]);
    }
    if Spells(loader, "\\EFI\\BOOT\\BOOTAA64.EFI") {
      assert loader == Join([EFI, BOOT, BOOTAA64]);
    }
  }

  lemma SpellsX64()
    ensures Spells(Join([EFI, BOOT, BOOTX64]), "\\EFI\\BOOT\\BOOTX64.EFI")
  {
    JoinOfThree(EFI, BOOT, BOOTX64);
    hide Join;
  }

  lemma SpellsAa64()
    ensures Spells(Join([EFI, BOOT, BOOTAA64]), "\\EFI\\BOOT\\BOOTAA64.EFI")
  {
    JoinOfThree(EFI, BOOT, BOOTAA64);
    hide Join;
  }

  // ---------------------------------------------------------------- writes seen as NVRAM

  lemma BootVarNameInjective(m: u16, n: u16)
    requires BootVarName(m) == BootVarName(n)
    ensures m == n
  {
    BootVarNameRoundTrip(m);
    BootVarNameRoundTrip(n);
  }

  lemma NvramAfterEntry(vars: Vars, n: u16, value: seq<byte>)
    requires DecodeLoadOption(value).Some?
    ensures NvramOf(vars[BootVarName(n) := value])
         == Nvram(NvramOf(vars).options[n := DecodeLoadOption(value).value], NvramOf(vars).used + {n})
    ensures OrderOf(vars[BootVarName(n) := value]) == OrderOf(vars)
    ensures Canonical(vars) ==> Canonical(vars[BootVarName(n) := value])
  {
    hide BootVarName, ParseBootVarName, DecodeLoadOption;
    var vars' := vars[BootVarName(n) := value];
    NamesDiffer(n);
    BootVarNameRoundTrip(n);
    forall m: u16
      ensures Opt(vars', m) == if m == n then DecodeLoadOption(value) else Opt(vars, m)
      ensures BootVarName(m) in vars' <==> m == n || BootVarName(m) in vars
    {
      if BootVarName(m) == BootVarName(n) {
        BootVarNameInjective(m, n);
      }
    }
    assert NvramOf(vars').options == NvramOf(vars).options[n := DecodeLoadOption(value).value];
    assert NvramOf(vars').used == NvramOf(vars).used + {n};
  }

  lemma NvramAfterOrder(vars: Vars, order: seq<u16>)
    ensures NvramOf(vars[BOOT_ORDER := EncodeBootOrder(order)]) == NvramOf(vars)
    ensures OrderOf(vars[BOOT_ORDER := EncodeBootOrder(order)]) == Some(order)
    ensures Canonical(vars) ==> Canonical(vars[BOOT_ORDER := EncodeBootOrder(order)])
  {
    hide BootVarName, DecodeLoadOption;
    var vars' := vars[BOOT_ORDER := EncodeBootOrder(order)];
    BootOrderRoundTrip(order);
    forall m: u16
      ensures Opt(vars', m) == Opt(vars, m) && (BootVarName(m) in vars' <==> BootVarName(m) in vars)
    {
      NamesDiffer(m);
    }
    assert NvramOf(vars').options == NvramOf(vars).options;
    assert NvramOf(vars').used == NvramOf(vars).used;
    assert ParseBootVarName(BOOT_ORDER).None?;
  }

  // ---------------------------------------------------------------- one more run

  /** Once its entry is written, the same partition is found again under the same number. */
  lemma ChosenAgain(vars: Vars, gpt: GptEsp, loader: seq<u16>)
    requires gpt.Valid() && IsRemovableLoader(loader)
    requires Plan(vars, gpt, loader).Ok?
    ensures var e := Plan(vars, gpt, loader).value;
            var nv, nv' := NvramOf(vars), NvramOf(AfterEntry(vars, gpt, loader, e));
            && Chosen(nv', gpt, loader) == Some((e.number, Reused))
            && OrderOf(AfterEntry(vars, gpt, loader, e)) == OrderOf(vars)
            && (forall m :: m != e.number ==>
                  Bootable(nv')(m) == Bootable(nv)(m) && OnNetwork(nv')(m) == OnNetwork(nv)(m))
  {
    hide NvramOf, BootVarName, EntryValue, Starts, PlaceAfterNetwork, Written;
    var e := Plan(vars, gpt, loader).value;
    var nv, nv' := NvramOf(vars), NvramOf(AfterEntry(vars, gpt, loader, e));
    if e.outcome != Reused {
      WrittenReadsBack(gpt, loader);
      NvramAfterEntry(vars, e.number, EntryValue(gpt, loader));
      assert LeastOption(nv, Starting(gpt, loader)).None?;
      var q := Having(nv', Starting(gpt, loader));
      assert forall m: u16 :: m != e.number ==> q(m) == Having(nv, Starting(gpt, loader))(m);
      LeastIs(q, e.number);
    }
  }

  /** After a successful run, running again reuses the same number and writes nothing. */
  lemma RerunReuses(vars: Vars, gpt: GptEsp, loader: seq<u16>)
    requires gpt.Valid() && IsRemovableLoader(loader)
    requires Plan(vars, gpt, loader).Ok?
    ensures var e := Plan(vars, gpt, loader).value;
            var again := BootEntry(e.number, Reused, e.bootOrder, e.bootOrder);
            && Plan(AfterRun(vars, gpt, loader, e), gpt, loader) == Ok(again)
            && AfterRun(AfterRun(vars, gpt, loader, e), gpt, loader, again) == AfterRun(vars, gpt, loader, e)
            && EntryWrite(gpt, loader, again) + OrderWrite(again) == []
  {
    hide NvramOf, BootVarName, EntryValue, PlaceAfterNetwork, Chosen, EncodeBootOrder, OrderOf;
    var e := Plan(vars, gpt, loader).value;
    var nv, nv' := NvramOf(vars), NvramOf(AfterEntry(vars, gpt, loader, e));
    ChosenAgain(vars, gpt, loader);
    NvramAfterOrder(AfterEntry(vars, gpt, loader, e), e.bootOrder);
    PlacementIgnoresSelf(e.bootOrder, e.number, Bootable(nv), OnNetwork(nv), Bootable(nv'), OnNetwork(nv'));
    PlacementIdempotent(e.previousOrder, e.number, Bootable(nv), OnNetwork(nv));
  }

  /**
   When the entry was written and the `BootOrder` write failed, a rerun reaches the very store an
   uninterrupted run would have reached.
   */
  lemma RetryCompletes(vars: Vars, gpt: GptEsp, loader: seq<u16>)
    requires gpt.Valid() && IsRemovableLoader(loader)
    requires Plan(vars, gpt, loader).Ok?
    ensures var e := Plan(vars, gpt, loader).value;
            var stopped := AfterEntry(vars, gpt, loader, e);
            && Plan(stopped, gpt, loader) == Ok(e.(outcome := Reused))
            && AfterRun(stopped, gpt, loader, e.(outcome := Reused)) == AfterRun(vars, gpt, loader, e)
  {
    hide NvramOf, BootVarName, EntryValue, PlaceAfterNetwork, Chosen, EncodeBootOrder, OrderOf;
    var e := Plan(vars, gpt, loader).value;
    var nv, nv' := NvramOf(vars), NvramOf(AfterEntry(vars, gpt, loader, e));
    ChosenAgain(vars, gpt, loader);
    PlacementIgnoresSelf(e.previousOrder, e.number, Bootable(nv), OnNetwork(nv), Bootable(nv'), OnNetwork(nv'));
  }

  // ---------------------------------------------------------------- any number of runs

  /** A history of stores, each left by a run for some partition. */
  ghost predicate Runs(history: seq<Vars>, gpts: seq<GptEsp>, loader: seq<u16>) {
    && |history| == |gpts| + 1
    && forall i :: 0 <= i < |gpts| ==> gpts[i].Valid() && RunStep(history[i], history[i + 1], gpts[i], loader)
  }

  predicate HasOurs(nv: Nvram) {
    exists n :: n in nv.options && IsOurs(nv.options[n])
  }

  /** A boot variable that is set and not one of ours. */
  ghost predicate Foreign(nv: Nvram, n: u16) {
    n in nv.used && !(n in nv.options && IsOurs(nv.options[n]))
  }

  /** The value a boot variable held at first is still there, unless it was one of ours. */
  ghost predicate KeepsForeign(first: Vars, last: Vars) {
    && (forall n: u16 :: n in NvramOf(first).used ==> n in NvramOf(last).used)
    && (forall n: u16 :: Foreign(NvramOf(first), n) ==>
          BootVarName(n) in first && BootVarName(n) in last && last[BootVarName(n)] == first[BootVarName(n)])
    && (forall name :: name in first && name != "BootOrder" && ParseBootVarName(name).None? ==>
          name in last && last[name] == first[name])
  }

  lemma ChosenFacts(nv: Nvram, gpt: GptEsp, loader: seq<u16>)
    requires Chosen(nv, gpt, loader).Some?
    ensures var (n, outcome) := Chosen(nv, gpt, loader).value;
            && (outcome == Replaced ==> n in nv.options && IsOurs(nv.options[n]))
            && (outcome == Created ==> n !in nv.used && !HasOurs(nv))
  {
    hide Starts, IsOurs;
    var n := Chosen(nv, gpt, loader).value.0;
    assert Having(nv, IsOurs)(n) <==> n in nv.options && IsOurs(nv.options[n]);
    assert Unused(nv)(n) <==> n !in nv.used;
    if HasOurs(nv) {
      var m :| m in nv.options && IsOurs(nv.options[m]);
      assert Having(nv, IsOurs)(m);
    }
  }

  /** What one run may do to the NVRAM: nothing, rewrite one of ours, or add the first of ours. */
  ghost predicate Grows(nv: Nvram, nv': Nvram) {
    || nv' == nv
    || (HasOurs(nv) && HasOurs(nv') && nv'.used == nv.used)
    || (!HasOurs(nv) && HasOurs(nv') && nv.used <= nv'.used && |nv'.used| == |nv.used| + 1)
  }

  lemma EntryGrows(vars: Vars, gpt: GptEsp, loader: seq<u16>)
    requires gpt.Valid() && IsRemovableLoader(loader)
    requires Plan(vars, gpt, loader).Ok?
    ensures var entered := AfterEntry(vars, gpt, loader, Plan(vars, gpt, loader).value);
            Grows(NvramOf(vars), NvramOf(entered)) && (Canonical(vars) ==> Canonical(entered))
  {
    hide NvramOf, BootVarName, EntryValue, PlaceAfterNetwork, OrderOf, Canonical, Written, Chosen, IsOurs;
    var e := Plan(vars, gpt, loader).value;
    var nv := NvramOf(vars);
    if e.outcome != Reused {
      ChosenFacts(nv, gpt, loader);
      WrittenReadsBack(gpt, loader);
      NvramAfterEntry(vars, e.number, EntryValue(gpt, loader));
      var nv' := NvramOf(AfterEntry(vars, gpt, loader, e));
      assert e.number in nv'.options && IsOurs(nv'.options[e.number]);
      OptionIsUsed(vars);
      if e.outcome == Replaced {
        assert nv.used + {e.number} == nv.used;
      }
    }
  }

  lemma StepGrows(before: Vars, after: Vars, gpt: GptEsp, loader: seq<u16>)
    requires gpt.Valid() && IsRemovableLoader(loader) && Canonical(before)
    requires RunStep(before, after, gpt, loader)
    ensures Canonical(after) && Grows(NvramOf(before), NvramOf(after))
  {
    hide NvramOf, Plan, AfterEntry, HasOurs, Canonical, EncodeBootOrder, OrderOf;
    if after != before {
      var e := Plan(before, gpt, loader).value;
      EntryGrows(before, gpt, loader);
      NvramAfterOrder(AfterEntry(before, gpt, loader, e), e.bootOrder);
    }
  }

  /** A run touches no variable but the entry it chose and `BootOrder`. */
  lemma StepTouches(before: Vars, after: Vars, gpt: GptEsp, loader: seq<u16>, name: string)
    requires RunStep(before, after, gpt, loader)
    requires name in before && name != BOOT_ORDER
    requires var plan := Plan(before, gpt, loader);
             plan.Ok? && plan.value.outcome != Reused ==> name != BootVarName(plan.value.number)
    ensures name in after && after[name] == before[name]
  {
    hide Plan, BootVarName, EncodeBootOrder, EntryValue;
  }

  lemma StepKeepsForeign(before: Vars, after: Vars, gpt: GptEsp, loader: seq<u16>)
    requires gpt.Valid() && IsRemovableLoader(loader) && Canonical(before)
    requires RunStep(before, after, gpt, loader)
    ensures KeepsForeign(before, after)
  {
    hide NvramOf, EntryValue, PlaceAfterNetwork, OrderOf, BootVarName, Chosen, IsOurs, ParseBootVarName, Canonical,
      RunStep, HasOurs;
    StepGrows(before, after, gpt, loader);
    var nv := NvramOf(before);
    var plan := Plan(before, gpt, loader);
    if plan.Ok? {
      ChosenFacts(nv, gpt, loader);
      BootVarNameRoundTrip(plan.value.number);
    }
    forall n: u16 | Foreign(nv, n)
      ensures BootVarName(n) in before && BootVarName(n) in after && after[BootVarName(n)] == before[BootVarName(n)]
    {
      UsedIsNamed(before, n);
      NamesDiffer(n);
      if plan.Ok? && BootVarName(n) == BootVarName(plan.value.number) {
        BootVarNameInjective(n, plan.value.number);
      }
      StepTouches(before, after, gpt, loader, BootVarName(n));
    }
    forall name | name in before && name != BOOT_ORDER && ParseBootVarName(name).None?
      ensures name in after && after[name] == before[name]
    {
      StepTouches(before, after, gpt, loader, name);
    }
  }

  lemma KeepsForeignTransitive(a: Vars, b: Vars, c: Vars)
    requires KeepsForeign(a, b) && KeepsForeign(b, c)
    ensures KeepsForeign(a, c)
  {
    hide BootVarName, DecodeLoadOption, ParseBootVarName;
  }

  /**
   Bounded NVRAM growth: over any sequence of runs, for any partitions and with any faults, at most
   one `Boot####` is added in all, and none when the store already held one of ours; the variables
   that were not ours are still there, unchanged.
   */
  lemma {:induction false} GrowthIsBounded(history: seq<Vars>, gpts: seq<GptEsp>, loader: seq<u16>)
    requires IsRemovableLoader(loader) && Runs(history, gpts, loader) && Canonical(history[0])
    ensures var first, last := NvramOf(history[0]), NvramOf(history[|gpts|]);
            && |last.used| <= |first.used| + 1
            && (HasOurs(first) ==> last.used == first.used && HasOurs(last))
            && (!HasOurs(last) ==> last.used == first.used)
            && KeepsForeign(history[0], history[|gpts|])
            && Canonical(history[|gpts|])
    decreases |gpts|
  {
    hide NvramOf, HasOurs, KeepsForeign, RunStep, Canonical;
    if |gpts| == 0 {
      assert KeepsForeign(history[0], history[0]) by {
        KeepsForeignReflexive(history[0]);
      }
    } else {
      var k := |gpts| - 1;
      GrowthIsBounded(history[..k + 1], gpts[..k], loader);
      StepGrows(history[k], history[k + 1], gpts[k], loader);
      StepKeepsForeign(history[k], history[k + 1], gpts[k], loader);
      KeepsForeignTransitive(history[0], history[k], history[k + 1]);
    }
  }

  lemma KeepsForeignReflexive(vars: Vars)
    ensures KeepsForeign(vars, vars)
  {
  }
}
