/** Candidate disks, their eligibility, and the choice of the one to write. */
module TargetDisk {
  import opened Bytes
  import opened Seqs
  import opened Wrappers
  import opened BlockGraph
  import opened SelfClobber

  const BYTES_PER_SECTOR: nat := 512
  const FLAG_SET: string := "1"

  /** What sysfs holds about one device, whitespace trimmed; `sectors` is absent when `size` does not parse. */
  datatype Attributes = Attributes(sectors: Option<u64>, dev: Option<string>, removable: Option<string>,
                                   readOnly: Option<string>, device: bool)

  datatype Candidate = Candidate(kname: Name, sizeBytes: u64, devNumber: string, removable: bool, readOnly: bool,
                                 physical: bool)

  datatype Target = Target(kname: Name, sizeBytes: u64, devNumber: string)

  datatype Ineligible = NotPhysical | Removable | ReadOnly | SystemBacking | Empty | TooSmall(sizeBytes: u64,
      minBytes: u64)

  datatype DiskError =
    | PinNotBlockDevice(kname: Name)
    | PinNotWholeDisk(kname: Name)
    | PinIneligible(kname: Name, reason: Ineligible)
    | NoEligibleDisk

  // ---------------------------------------------------------------- enumeration

  /** Names compare character by character, a prefix first. */
  predicate NameLe(a: Name, b: Name) {
    |a| == 0 || (|b| > 0 && (a[0] < b[0] || (a[0] == b[0] && NameLe(a[1..], b[1..]))))
  }

  /** Name order: a prefix comes first, and otherwise the first character that differs decides. */
  lemma {:induction false} NameLeIff(a: Name, b: Name)
    ensures NameLe(a, b) <==>
            a <= b || exists k :: 0 <= k < |a| && k < |b| && a[..k] == b[..k] && a[k] < b[k]
  {
    if |a| > 0 && |b| > 0 && a[0] == b[0] {
      NameLeIff(a[1..], b[1..]);
      assert a == [a[0]] + a[1..] && b == [b[0]] + b[1..];
      if k: nat :| k < |a[1..]| && k < |b[1..]| && a[1..][..k] == b[1..][..k] && a[1..][k] < b[1..][k] {
        assert a[..k + 1] == [a[0]] + a[1..][..k] && b[..k + 1] == [b[0]] + b[1..][..k] && a[k + 1] < b[k + 1];
      }
      if k: nat :| k < |a| && k < |b| && a[..k] == b[..k] && a[k] < b[k] {
        assert k > 0 && a[1..][..k - 1] == a[..k][1..] && b[1..][..k - 1] == b[..k][1..];
        assert a[1..][k - 1] < b[1..][k - 1];
      }
    } else if |a| > 0 && |b| > 0 && a[0] < b[0] {
      assert a[..0] == b[..0];
    } else if |a| > 0 && |b| > 0 {
      assert forall k :: 0 < k <= |a| && k <= |b| ==> a[..k][0] == a[0] && b[..k][0] == b[0];
    }
  }

  function ByName(): (Name, Name) -> bool {
    (a: Name, b: Name) => NameLe(a, b)
  }

  lemma {:induction false} NameLeTotal(a: Name, b: Name)
    ensures NameLe(a, b) || NameLe(b, a)
    ensures NameLe(a, b) && NameLe(b, a) ==> a == b
  {
    if |a| > 0 && |b| > 0 && a[0] == b[0] {
      NameLeTotal(a[1..], b[1..]);
      assert a == [a[0]] + a[1..] && b == [b[0]] + b[1..];
    }
  }

  lemma {:induction false} NameLeTransitive(a: Name, b: Name, c: Name)
    requires NameLe(a, b) && NameLe(b, c)
    ensures NameLe(a, c)
  {
    if |a| > 0 && a[0] == b[0] && b[0] == c[0] {
      NameLeTransitive(a[1..], b[1..], c[1..]);
    }
  }

  lemma ByNameIsOrder()
    ensures TotalOrder(ByName())
  {
    forall a, b
      ensures NameLe(a, b) || NameLe(b, a)
    {
      NameLeTotal(a, b);
    }
    forall a, b, c | NameLe(a, b) && NameLe(b, c)
      ensures NameLe(a, c)
    {
      NameLeTransitive(a, b, c);
    }
  }

  /** Sectors become bytes in 64-bit arithmetic, which wraps. */
  function SizeBytes(sectors: Option<u64>): u64 {
    match sectors
    case None => 0
    case Some(n) => n * BYTES_PER_SECTOR % (U64_MAX + 1)
  }

  function CandidateOf(kname: Name, attrs: map<Name, Attributes>): Candidate {
    if kname in attrs then
      var a := attrs[kname];
      Candidate(kname, SizeBytes(a.sectors), if a.dev.Some? then a.dev.value else "",
                a.removable == Some(FLAG_SET), a.readOnly == Some(FLAG_SET), a.device)
    else
      Candidate(kname, 0, "", false, false, false)
  }

  function CandidatesOf(names: seq<Name>, attrs: map<Name, Attributes>): (r: seq<Candidate>)
    ensures |r| == |names|
    ensures forall i :: 0 <= i < |r| ==> r[i] == CandidateOf(names[i], attrs)
  {
    if |names| == 0 then [] else [CandidateOf(names[0], attrs)] + CandidatesOf(names[1..], attrs)
  }

  function Enumerate(b: BlockDir, attrs: map<Name, Attributes>): seq<Candidate> {
    CandidatesOf(Sort(b.entries, ByName()), attrs)
  }

  /** A candidate holds what was read for its own name; what could not be read counts as unset. */
  predicate AsRead(c: Candidate, attrs: map<Name, Attributes>) {
    if c.kname in attrs then
      var a := attrs[c.kname];
      && c.sizeBytes == (if a.sectors.Some? then 512 * (a.sectors.value as int) % 0x1_0000_0000_0000_0000 else 0)
      && c.devNumber == (if a.dev.Some? then a.dev.value else "")
      && (c.removable <==> a.removable == Some("1")) && (c.readOnly <==> a.readOnly == Some("1"))
      && (c.physical <==> a.device)
    else c == Candidate(c.kname, 0, "", false, false, false)
  }

  lemma CandidateIsAsRead(kname: Name, attrs: map<Name, Attributes>)
    ensures CandidateOf(kname, attrs).kname == kname && AsRead(CandidateOf(kname, attrs), attrs)
  {
  }

  /** One candidate for each entry, with what was read for that name. */
  lemma EnumeratesEntries(b: BlockDir, attrs: map<Name, Attributes>)
    ensures forall name :: name in b.entries ==> CandidateOf(name, attrs) in Enumerate(b, attrs)
    ensures forall c :: c in Enumerate(b, attrs) ==> c.kname in b.entries && c == CandidateOf(c.kname, attrs)
    ensures forall c :: c in Enumerate(b, attrs) ==> AsRead(c, attrs)
  {
    ByNameIsOrder();
    SortSorts(b.entries, ByName());
    var names := Sort(b.entries, ByName());
    hide Sort, NameLe, CandidateOf, TotalOrder, Sorted, AsRead;
    var cs := Enumerate(b, attrs);
    forall name | name in b.entries
      ensures CandidateOf(name, attrs) in cs
    {
      assert name in names;
      var i :| 0 <= i < |names| && names[i] == name;
      assert cs[i] == CandidateOf(name, attrs);
    }
    forall c | c in cs
      ensures c.kname in b.entries && c == CandidateOf(c.kname, attrs) && AsRead(c, attrs)
    {
      var i :| 0 <= i < |cs| && cs[i] == c;
      CandidateIsAsRead(names[i], attrs);
      NamedAsAsked(names[i], attrs);
      assert names[i] in names;
    }
  }

  /** The candidates come in name order. */
  lemma EnumeratesInOrder(b: BlockDir, attrs: map<Name, Attributes>)
    ensures forall i, j :: 0 <= i < j < |Enumerate(b, attrs)| ==>
              NameLe(Enumerate(b, attrs)[i].kname, Enumerate(b, attrs)[j].kname)
  {
    ByNameIsOrder();
    SortSorts(b.entries, ByName());
    var names := Sort(b.entries, ByName());
    hide Sort, NameLe, CandidateOf, TotalOrder;
    var cs := Enumerate(b, attrs);
    forall i, j | 0 <= i < j < |cs|
      ensures NameLe(cs[i].kname, cs[j].kname)
    {
      assert ByName()(names[i], names[j]);
      NamedAsAsked(names[i], attrs);
      NamedAsAsked(names[j], attrs);
    }
  }

  lemma NamedAsAsked(name: Name, attrs: map<Name, Attributes>)
    ensures CandidateOf(name, attrs).kname == name
  {
  }

  /** The recorded size is the true one exactly below 2^64 bytes. */
  lemma SizeIsTrueIff(sectors: u64)
    ensures SizeBytes(Some(sectors)) == sectors * BYTES_PER_SECTOR <==> sectors < 0x80_0000_0000_0000
  {
  }

  // ---------------------------------------------------------------- eligibility

  /** What `reason` says against the disk holds. */
  predicate Holds(reason: Ineligible, c: Candidate, minBytes: u64, ramdisk: set<Name>) {
    match reason
    case NotPhysical => !c.physical
    case Removable => c.removable
    case ReadOnly => c.readOnly
    case SystemBacking => c.kname in ramdisk
    case Empty => c.sizeBytes == 0
    case TooSmall(size, min) => c.sizeBytes < minBytes && size == c.sizeBytes && min == minBytes
  }

  /** The most categorical reasons rank first. */
  function Rank(reason: Ineligible): nat {
    match reason
    case NotPhysical => 0
    case Removable => 1
    case ReadOnly => 2
    case SystemBacking => 3
    case Empty => 4
    case TooSmall(_, _) => 5
  }

  /** The most categorical reason that holds against the disk, and none exactly when none holds. */
  function Classify(c: Candidate, minBytes: u64, ramdisk: set<Name>): (r: Option<Ineligible>)
    ensures r.Some? ==> Holds(r.value, c, minBytes, ramdisk)
    ensures forall reason :: Holds(reason, c, minBytes, ramdisk) ==> r.Some? && Rank(r.value) <= Rank(reason)
    ensures r.None? <==> && c.physical && !c.removable && !c.readOnly && c.kname !in ramdisk
                         && c.sizeBytes > 0 && c.sizeBytes >= minBytes
  {
    if !c.physical then Some(NotPhysical)
    else if c.removable then Some(Removable)
    else if c.readOnly then Some(ReadOnly)
    else if c.kname in ramdisk then Some(SystemBacking)
    else if c.sizeBytes == 0 then Some(Empty)
    else if c.sizeBytes < minBytes then Some(TooSmall(c.sizeBytes, minBytes))
    else None
  }

  predicate Eligible(c: Candidate, minBytes: u64, ramdisk: set<Name>) {
    Classify(c, minBytes, ramdisk).None?
  }

  function TargetOf(c: Candidate): Target {
    Target(c.kname, c.sizeBytes, c.devNumber)
  }

  // ---------------------------------------------------------------- selection

  /** The first of the smallest eligible candidates. */
  function Smallest(cs: seq<Candidate>, minBytes: u64, ramdisk: set<Name>): (r: Option<Candidate>) {
    if |cs| == 0 then None
    else
      var rest := Smallest(cs[1..], minBytes, ramdisk);
      if !Eligible(cs[0], minBytes, ramdisk) then rest
      else if rest.Some? && rest.value.sizeBytes < cs[0].sizeBytes then rest
      else Some(cs[0])
  }

  function AutoSelect(cs: seq<Candidate>, minBytes: u64, ramdisk: set<Name>): Result<Target, DiskError> {
    match Smallest(cs, minBytes, ramdisk)
    case None => Err(NoEligibleDisk)
    case Some(c) => Ok(TargetOf(c))
  }

  /** `cs[k]` is eligible, no eligible one is smaller, and every one before it is larger. */
  predicate FirstSmallestAt(cs: seq<Candidate>, minBytes: u64, ramdisk: set<Name>, k: nat)
    requires k < |cs|
  {
    && Eligible(cs[k], minBytes, ramdisk)
    && forall i :: 0 <= i < |cs| && Eligible(cs[i], minBytes, ramdisk) ==>
                     cs[k].sizeBytes <= cs[i].sizeBytes && (i < k ==> cs[k].sizeBytes < cs[i].sizeBytes)
  }

  lemma {:induction false} SmallestIsFirst(cs: seq<Candidate>, minBytes: u64, ramdisk: set<Name>) returns (k: nat)
    ensures match Smallest(cs, minBytes, ramdisk)
            case None => forall i :: 0 <= i < |cs| ==> !Eligible(cs[i], minBytes, ramdisk)
            case Some(c) => k < |cs| && cs[k] == c && FirstSmallestAt(cs, minBytes, ramdisk, k)
  {
    hide Eligible;
    k := 0;
    if |cs| > 0 {
      var before := SmallestIsFirst(cs[1..], minBytes, ramdisk);
      assert forall i :: 1 <= i < |cs| ==> cs[i] == cs[1..][i - 1];
      var rest := Smallest(cs[1..], minBytes, ramdisk);
      if rest.Some? && Smallest(cs, minBytes, ramdisk) == rest
          && !(Eligible(cs[0], minBytes, ramdisk) && rest.value.sizeBytes >= cs[0].sizeBytes) {
        k := before + 1;
      }
    }
  }

  function SelectCore(b: BlockDir, attrs: map<Name, Attributes>, partitions: set<Name>, pin: Option<Name>,
                      minBytes: u64, ramdisk: set<Name>)
    : Result<Target, DiskError>
  {
    match pin
    case None => AutoSelect(Enumerate(b, attrs), minBytes, ramdisk)
    case Some(kname) =>
      match Find(Enumerate(b, attrs), kname)
      case Some(c) =>
        (match Classify(c, minBytes, ramdisk)
         case None => Ok(TargetOf(c))
         case Some(reason) => Err(PinIneligible(kname, reason)))
      case None => Err(if kname in partitions then PinNotWholeDisk(kname) else PinNotBlockDevice(kname))
  }

  function Find(cs: seq<Candidate>, kname: Name): (r: Option<Candidate>)
    ensures r.Some? ==> r.value in cs && r.value.kname == kname
    ensures r.None? ==> forall c :: c in cs ==> c.kname != kname
  {
    if |cs| == 0 then None
    else if cs[0].kname == kname then Some(cs[0])
    else Find(cs[1..], kname)
  }

  predicate EligibleEntry(b: BlockDir, attrs: map<Name, Attributes>, name: Name, minBytes: u64, ramdisk: set<Name>) {
    name in b.entries && Eligible(CandidateOf(name, attrs), minBytes, ramdisk)
  }

  /** `name` is the smallest eligible entry and, among those of its size, the first in name order. */
  ghost predicate Best(b: BlockDir, attrs: map<Name, Attributes>, name: Name, minBytes: u64, ramdisk: set<Name>) {
    && EligibleEntry(b, attrs, name, minBytes, ramdisk)
    && forall other :: EligibleEntry(b, attrs, other, minBytes, ramdisk) ==>
                         var (mine, its) := (CandidateOf(name, attrs).sizeBytes, CandidateOf(other, attrs).sizeBytes);
                         mine < its || (mine == its && NameLe(name, other))
  }

  /** Without a pin the best disk is taken, and there is none exactly when no entry is eligible. */
  lemma AutoSelectsBest(b: BlockDir, attrs: map<Name, Attributes>, partitions: set<Name>, minBytes: u64,
                        ramdisk: set<Name>)
    ensures var r := SelectCore(b, attrs, partitions, None, minBytes, ramdisk);
            && (r.Ok? ==> r.value == TargetOf(CandidateOf(r.value.kname, attrs)))
            && (r.Ok? ==> Best(b, attrs, r.value.kname, minBytes, ramdisk))
            && (r.Err? ==> r.error == NoEligibleDisk)
            && (r.Err? <==> forall name :: !EligibleEntry(b, attrs, name, minBytes, ramdisk))
  {
    EnumeratesEntries(b, attrs);
    EnumeratesInOrder(b, attrs);
    var cs := Enumerate(b, attrs);
    var k := SmallestIsFirst(cs, minBytes, ramdisk);
    hide Eligible, NameLe, Enumerate, CandidateOf, Smallest;
    forall other | EligibleEntry(b, attrs, other, minBytes, ramdisk)
      ensures Smallest(cs, minBytes, ramdisk).Some?
      ensures var (mine, its) := (cs[k].sizeBytes, CandidateOf(other, attrs).sizeBytes);
              mine < its || (mine == its && NameLe(cs[k].kname, other))
    {
      assert CandidateOf(other, attrs) in cs;
      var i :| 0 <= i < |cs| && cs[i] == CandidateOf(other, attrs);
      NamedAsAsked(other, attrs);
      if i == k {
        NameLeTotal(other, other);
      }
    }
  }

  /** A pin is taken when it is an eligible entry, and refused for its own reason otherwise: never another disk. */
  lemma PinnedOrRefused(b: BlockDir, attrs: map<Name, Attributes>, partitions: set<Name>, pin: Name, minBytes: u64,
                        ramdisk: set<Name>)
    ensures SelectCore(b, attrs, partitions, Some(pin), minBytes, ramdisk) ==
            if pin !in b.entries then Err(if pin in partitions then PinNotWholeDisk(pin) else PinNotBlockDevice(pin))
            else match Classify(CandidateOf(pin, attrs), minBytes, ramdisk)
                 case None => Ok(TargetOf(CandidateOf(pin, attrs)))
                 case Some(reason) => Err(PinIneligible(pin, reason))
  {
    EnumeratesEntries(b, attrs);
    NamedAsAsked(pin, attrs);
    hide Classify, Enumerate, CandidateOf;
    var cs := Enumerate(b, attrs);
    if pin in b.entries {
      assert CandidateOf(pin, attrs) in cs;
      var c := Find(cs, pin).value;
      var i :| 0 <= i < |cs| && cs[i] == c;
    }
  }

  /** Whatever is selected is an eligible entry of at least the asked size. */
  lemma SelectedIsEligible(b: BlockDir, attrs: map<Name, Attributes>, partitions: set<Name>, pin: Option<Name>,
                           minBytes: u64, ramdisk: set<Name>)
    requires SelectCore(b, attrs, partitions, pin, minBytes, ramdisk).Ok?
    ensures var t := SelectCore(b, attrs, partitions, pin, minBytes, ramdisk).value;
            && EligibleEntry(b, attrs, t.kname, minBytes, ramdisk)
            && t == TargetOf(CandidateOf(t.kname, attrs))
            && (pin.Some? ==> t.kname == pin.value)
  {
    match pin
    case None => AutoSelectsBest(b, attrs, partitions, minBytes, ramdisk);
    case Some(kname) => PinnedOrRefused(b, attrs, partitions, kname, minBytes, ramdisk);
  }

  /** No disk underneath a mounted file system or a swap device is ever selected. */
  lemma SelectionSparesLiveDisks(b: BlockDir, attrs: map<Name, Attributes>, partitions: set<Name>, pin: Option<Name>,
                                 minBytes: u64, leaves: seq<Name>, leaf: Name)
    requires leaf in leaves && ShortPaths(b, leaf) && PlainParents(b, leaf)
    ensures var r := SelectCore(b, attrs, partitions, pin, minBytes, CollectedAll(b, leaves));
            r.Ok? ==> !Backs(b, r.value.kname, leaf)
  {
    var ramdisk := CollectedAll(b, leaves);
    hide SelectCore, Backs, ShortPaths, PlainParents;
    var r := SelectCore(b, attrs, partitions, pin, minBytes, ramdisk);
    if r.Ok? {
      SelectedIsEligible(b, attrs, partitions, pin, minBytes, ramdisk);
      if Backs(b, r.value.kname, leaf) {
        BackingDisksCollected(b, leaf, r.value.kname);
        CollectedAllIsUnion(b, leaves, r.value.kname);
      }
    }
  }

  // ---------------------------------------------------------------- in the attributes

  /** The size in bytes that the sector count of `name` comes to. */
  function BytesOf(attrs: map<Name, Attributes>, name: Name): int {
    if name in attrs && attrs[name].sectors.Some?
    then 512 * (attrs[name].sectors.value as int) % 0x1_0000_0000_0000_0000 else 0
  }

  /** The attributes allow writing: a real device, not removable, not read-only, not in use, not empty, large enough. */
  predicate MayBeWritten(attrs: map<Name, Attributes>, name: Name, minBytes: u64, ramdisk: set<Name>) {
    && name in attrs && attrs[name].device && attrs[name].removable != Some("1") && attrs[name].readOnly != Some("1")
    && name !in ramdisk && BytesOf(attrs, name) > 0 && BytesOf(attrs, name) >= minBytes
  }

  lemma EligibleIffMayBeWritten(b: BlockDir, attrs: map<Name, Attributes>, name: Name, minBytes: u64,
                                ramdisk: set<Name>)
    ensures EligibleEntry(b, attrs, name, minBytes, ramdisk) <==>
            name in b.entries && MayBeWritten(attrs, name, minBytes, ramdisk)
    ensures CandidateOf(name, attrs).sizeBytes == BytesOf(attrs, name)
    ensures CandidateOf(name, attrs).devNumber ==
            if name in attrs && attrs[name].dev.Some? then attrs[name].dev.value else ""
  {
    CandidateIsAsRead(name, attrs);
    hide CandidateOf;
  }

  /** Whatever is selected may be written, and is handed on with its own size and device number. */
  lemma SelectedMayBeWritten(b: BlockDir, attrs: map<Name, Attributes>, partitions: set<Name>, pin: Option<Name>,
                             minBytes: u64, ramdisk: set<Name>)
    requires SelectCore(b, attrs, partitions, pin, minBytes, ramdisk).Ok?
    ensures var t := SelectCore(b, attrs, partitions, pin, minBytes, ramdisk).value;
            && t.kname in b.entries && MayBeWritten(attrs, t.kname, minBytes, ramdisk)
            && t.sizeBytes == BytesOf(attrs, t.kname)
            && t.devNumber == (if attrs[t.kname].dev.Some? then attrs[t.kname].dev.value else "")
            && (pin.Some? ==> t.kname == pin.value)
  {
    SelectedIsEligible(b, attrs, partitions, pin, minBytes, ramdisk);
    hide SelectCore, EligibleEntry, CandidateOf, MayBeWritten, BytesOf;
    var t := SelectCore(b, attrs, partitions, pin, minBytes, ramdisk).value;
    EligibleIffMayBeWritten(b, attrs, t.kname, minBytes, ramdisk);
    assert MayBeWritten(attrs, t.kname, minBytes, ramdisk) ==> t.kname in attrs by {
      MayBeWrittenIsKnown(attrs, t.kname, minBytes, ramdisk);
    }
  }

  lemma MayBeWrittenIsKnown(attrs: map<Name, Attributes>, name: Name, minBytes: u64, ramdisk: set<Name>)
    ensures MayBeWritten(attrs, name, minBytes, ramdisk) ==> name in attrs
  {
  }

  /**
   Without a pin a disk is selected exactly when some entry may be written, and it is the smallest of
   those, the first in name order among the smallest. A pinned one is selected exactly when it is an
   entry that may be written.
   */
  lemma SelectsIff(b: BlockDir, attrs: map<Name, Attributes>, partitions: set<Name>, pin: Option<Name>,
                   minBytes: u64, ramdisk: set<Name>)
    ensures var r := SelectCore(b, attrs, partitions, pin, minBytes, ramdisk);
            && (r.Ok? <==>
                if pin.Some? then pin.value in b.entries && MayBeWritten(attrs, pin.value, minBytes, ramdisk)
                else exists name :: name in b.entries && MayBeWritten(attrs, name, minBytes, ramdisk))
            && (r.Ok? && pin.None? ==>
                  forall other :: other in b.entries && MayBeWritten(attrs, other, minBytes, ramdisk) ==>
                    || BytesOf(attrs, r.value.kname) < BytesOf(attrs, other)
                    || (BytesOf(attrs, r.value.kname) == BytesOf(attrs, other) && NameLe(r.value.kname, other)))
  {
    forall name
      ensures EligibleEntry(b, attrs, name, minBytes, ramdisk) <==>
              name in b.entries && MayBeWritten(attrs, name, minBytes, ramdisk)
      ensures CandidateOf(name, attrs).sizeBytes == BytesOf(attrs, name)
    {
      EligibleIffMayBeWritten(b, attrs, name, minBytes, ramdisk);
    }
    hide SelectCore, CandidateOf, MayBeWritten, BytesOf, NameLe, Classify;
    match pin
    case None =>
      AutoSelectsBest(b, attrs, partitions, minBytes, ramdisk);
      var r := SelectCore(b, attrs, partitions, None, minBytes, ramdisk);
      if r.Ok? {
        assert EligibleEntry(b, attrs, r.value.kname, minBytes, ramdisk);
      }
    case Some(kname) =>
      PinnedOrRefused(b, attrs, partitions, kname, minBytes, ramdisk);
  }
}
