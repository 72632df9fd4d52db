/**
 UEFI device paths: the node walk, the `HD()` node of a GPT partition and the `File()`
 path behind it (sections 10.3.1, 10.3.5.1 and 10.3.5.4 of the UEFI specification).
 */
module DevicePath {
  import opened Bytes
  import opened Seqs
  import opened Wrappers

  const DP_MESSAGING: byte := 0x03
  const DP_MEDIA: byte := 0x04
  const DP_END: byte := 0x7F
  const DP_MEDIA_HD: byte := 0x01
  const DP_MEDIA_FILE: byte := 0x04
  const DP_END_ENTIRE: byte := 0xFF
  const DP_NETWORK_SUBTYPES: seq<byte> := [11, 12, 13, 24]
  const HD_GPT: byte := 0x02
  const HD_NODE_LEN: u16 := 42

  const NUL: u16 := 0
  const BACKSLASH: u16 := 0x5C
  const SLASH: u16 := 0x2F

  /** One device-path node without its length field. */
  datatype Node = Node(kind: byte, sub: byte, data: seq<byte>)

  /** The GPT entry of an EFI System Partition. */
  datatype GptEsp = GptEsp(number: u32, uniqueGuid: seq<byte>, firstLba: u64, lastLba: u64) {
    predicate Valid() {
      |uniqueGuid| == 16
    }

    /** Saturating at both ends, as `saturating_sub(..).saturating_add(1)`. */
    function SizeLba(): u64 {
      var span := if lastLba < firstLba then 0 else lastLba - firstLba;
      if span == U64_MAX then U64_MAX else span + 1
    }
  }

  /** A hard-drive node with GPT signature. */
  datatype HdNode = HdNode(number: u32, start: u64, size: u64, guid: seq<byte>) {
    predicate Is(gpt: GptEsp) {
      guid == gpt.uniqueGuid && number == gpt.number && start == gpt.firstLba && size == gpt.SizeLba()
    }
  }

  // ---------------------------------------------------------------- the node walk

  /** The nodes of `dp` up to End-Entire, or up to the first malformed node. */
  function Nodes(dp: seq<byte>): seq<Node>
    decreases |dp|
  {
    if |dp| < 4 then []
    else
      var len := U16(dp[2], dp[3]);
      if len < 4 || len > |dp| || (dp[0] == DP_END && dp[1] == DP_END_ENTIRE) then []
      else [Node(dp[0], dp[1], dp[4..len])] + Nodes(dp[len..])
  }

  method DevicePathNodes(dp: seq<byte>) returns (nodes: seq<Node>)
    ensures nodes == Nodes(dp)
  {
    nodes := [];
    var rest := dp;
    while |rest| >= 4
      invariant nodes + Nodes(rest) == Nodes(dp)
      decreases |rest|
    {
      var len := U16(rest[2], rest[3]);
      if len < 4 || len > |rest| || (rest[0] == DP_END && rest[1] == DP_END_ENTIRE) {
        break;
      }
      nodes := nodes + [Node(rest[0], rest[1], rest[4..len])];
      rest := rest[len..];
    }
  }

  const END_NODE: seq<byte> := [DP_END, DP_END_ENTIRE, 0x04, 0x00]

  /** A node that fits its 16-bit length field and does not end the path. */
  predicate WellFormedNode(n: Node) {
    4 + |n.data| < 0x1_0000 && !(n.kind == DP_END && n.sub == DP_END_ENTIRE)
  }

  predicate WellFormed(ns: seq<Node>) {
    forall i :: 0 <= i < |ns| ==> WellFormedNode(ns[i])
  }

  function EncodeNode(n: Node): seq<byte>
    requires WellFormedNode(n)
  {
    [n.kind, n.sub] + U16Bytes(4 + |n.data|) + n.data
  }

  function EncodeNodes(ns: seq<Node>): seq<byte>
    requires WellFormed(ns)
  {
    if ns == [] then [] else EncodeNode(ns[0]) + EncodeNodes(ns[1..])
  }

  lemma NodesOfEncoded(n: Node, rest: seq<byte>)
    requires WellFormedNode(n)
    ensures Nodes(EncodeNode(n) + rest) == [n] + Nodes(rest)
  {
    var dp := EncodeNode(n) + rest;
    var len := 4 + |n.data|;
    assert U16(dp[2], dp[3]) == len;
    assert dp[4..len] == n.data;
    assert dp[len..] == rest;
  }

  /** The walk returns any well-formed node list ended by End-Entire, whatever follows it. */
  lemma {:induction false} NodesInvertEncode(ns: seq<Node>, trailing: seq<byte>)
    requires WellFormed(ns)
    ensures Nodes(EncodeNodes(ns) + END_NODE + trailing) == ns
  {
    if ns == [] {
      assert EncodeNodes(ns) + END_NODE + trailing == END_NODE + trailing;
    } else {
      NodesInvertEncode(ns[1..], trailing);
      NodesOfEncoded(ns[0], EncodeNodes(ns[1..]) + END_NODE + trailing);
      assert EncodeNodes(ns) + END_NODE + trailing
          == EncodeNode(ns[0]) + (EncodeNodes(ns[1..]) + END_NODE + trailing);
    }
  }

  /** On any bytes, what the walk returns re-encodes to exactly the bytes it walked over. */
  lemma {:induction false} NodesArePrefix(dp: seq<byte>)
    ensures WellFormed(Nodes(dp))
    ensures EncodeNodes(Nodes(dp)) <= dp
    decreases |dp|
  {
    if Nodes(dp) != [] {
      var len := U16(dp[2], dp[3]);
      NodesArePrefix(dp[len..]);
      assert Nodes(dp)[1..] == Nodes(dp[len..]);
      assert EncodeNode(Nodes(dp)[0]) == dp[..len];
      assert dp == dp[..len] + dp[len..];
    }
  }

  /** Some messaging node names a network card, an IP configuration or a URI. */
  predicate IsNetwork(dp: seq<byte>) {
    var ns := Nodes(dp);
    exists i :: 0 <= i < |ns| && ns[i].kind == DP_MESSAGING && ns[i].sub in DP_NETWORK_SUBTYPES
  }

  // ---------------------------------------------------------------- the HD() node

  /** `n` read as a GPT hard-drive node. */
  function HdOf(n: Node): Option<HdNode> {
    if n.kind == DP_MEDIA && n.sub == DP_MEDIA_HD && |n.data| >= 38 && n.data[37] == HD_GPT then
      Some(HdNode(U32From(n.data[0..4]), U64From(n.data[4..12]), U64From(n.data[12..20]), n.data[20..36]))
    else None
  }

  /** The first GPT `HD()` node. */
  function FirstHd(ns: seq<Node>): Option<HdNode> {
    if ns == [] then None
    else if HdOf(ns[0]).Some? then HdOf(ns[0])
    else FirstHd(ns[1..])
  }

  function HdData(gpt: GptEsp): seq<byte> {
    U32Bytes(gpt.number) + U64Bytes(gpt.firstLba) + U64Bytes(gpt.SizeLba()) + gpt.uniqueGuid + [HD_GPT, HD_GPT]
  }

  function HdNodeOf(gpt: GptEsp): Node {
    Node(DP_MEDIA, DP_MEDIA_HD, HdData(gpt))
  }

  /** The encoded `HD()` node reads back as exactly the GPT entry, whatever its fields. */
  lemma HdRoundTrip(gpt: GptEsp)
    requires gpt.Valid()
    ensures HdOf(HdNodeOf(gpt)).Some? && HdOf(HdNodeOf(gpt)).value.Is(gpt)
  {
    var data := HdData(gpt);
    assert |data| == 38 && data[37] == HD_GPT;
    assert data[0..4] == U32Bytes(gpt.number);
    assert data[4..12] == U64Bytes(gpt.firstLba);
    assert data[12..20] == U64Bytes(gpt.SizeLba());
    assert data[20..36] == gpt.uniqueGuid;
    U32RoundTrip(gpt.number);
    U64RoundTrip(gpt.firstLba);
    U64RoundTrip(gpt.SizeLba());
  }

  /** The body of a hard-drive node with GPT signature. */
  predicate IsGptHd(n: Node) {
    n.kind == 4 && n.sub == 1 && |n.data| >= 38 && n.data[37] == 2
  }

  /** Such a node for exactly the partition `gpt`: number, first block, count of blocks and GUID. */
  predicate NamesPartition(n: Node, gpt: GptEsp) {
    var blocks := (if gpt.lastLba >= gpt.firstLba then gpt.lastLba - gpt.firstLba else 0) + 1;
    && IsGptHd(n)
    && n.data[..4] == U32Bytes(gpt.number) && n.data[4..12] == U64Bytes(gpt.firstLba)
    && n.data[12..20] == U64Bytes(if blocks > 0xFFFF_FFFF_FFFF_FFFF then 0xFFFF_FFFF_FFFF_FFFF else blocks)
    && n.data[20..36] == gpt.uniqueGuid
  }

  /** In bytes: a node read as the hard-drive node of `gpt` carries exactly its fields. */
  lemma HdIsIff(n: Node, gpt: GptEsp)
    ensures HdOf(n).Some? <==> IsGptHd(n)
    ensures HdOf(n).Some? ==> (HdOf(n).value.Is(gpt) <==> NamesPartition(n, gpt))
  {
    if IsGptHd(n) {
      WordIs(n.data[..4], gpt.number);
      LongIs(n.data[4..12], gpt.firstLba);
      LongIs(n.data[12..20], gpt.SizeLba());
      hide U32From, U64From, U32Bytes, U64Bytes;
      assert n.data[0..4] == n.data[..4];
    }
  }

  lemma WordIs(s: seq<byte>, n: u32)
    requires |s| == 4
    ensures U32From(s) == n <==> s == U32Bytes(n)
  {
    U32RoundTrip(n);
    WordBounds();
    EncodeDecode(s);
  }

  lemma LongIs(s: seq<byte>, n: u64)
    requires |s| == 8
    ensures U64From(s) == n <==> s == U64Bytes(n)
  {
    U64RoundTrip(n);
    WordBounds();
    EncodeDecode(s);
  }

  /** The first node of `ns` that is a GPT hard-drive node is one for exactly `gpt`. */
  ghost predicate LeadsTo(ns: seq<Node>, gpt: GptEsp) {
    exists k :: 0 <= k < |ns| && NamesPartition(ns[k], gpt) && forall j :: 0 <= j < k ==> !IsGptHd(ns[j])
  }

  lemma {:induction false} LeadsToIff(ns: seq<Node>, gpt: GptEsp)
    ensures LeadsTo(ns, gpt) <==> FirstHd(ns).Some? && FirstHd(ns).value.Is(gpt)
  {
    hide HdOf, IsGptHd, NamesPartition;
    if ns != [] {
      HdIsIff(ns[0], gpt);
      IsPartitionHd(ns[0], gpt);
      LeadsToIff(ns[1..], gpt);
      if LeadsTo(ns, gpt) {
        var k :| 0 <= k < |ns| && NamesPartition(ns[k], gpt) && forall j :: 0 <= j < k ==> !IsGptHd(ns[j]);
        if k > 0 {
          assert ns[1..][k - 1] == ns[k] && forall j :: 0 <= j < k - 1 ==> !IsGptHd(ns[1..][j]);
        }
      }
      if !IsGptHd(ns[0]) && LeadsTo(ns[1..], gpt) {
        var k :| && 0 <= k < |ns[1..]| && NamesPartition(ns[1..][k], gpt)
                 && forall j :: 0 <= j < k ==> !IsGptHd(ns[1..][j]);
        assert NamesPartition(ns[k + 1], gpt);
        forall j | 0 <= j < k + 1
          ensures !IsGptHd(ns[j])
        {
          if j > 0 {
            assert ns[j] == ns[1..][j - 1];
          }
        }
      }
    }
  }

  lemma IsPartitionHd(n: Node, gpt: GptEsp)
    ensures NamesPartition(n, gpt) ==> IsGptHd(n)
  {
  }

  /** A network path has a messaging node for a network card, an address of either kind or a URI. */
  lemma IsNetworkIff(dp: seq<byte>)
    ensures IsNetwork(dp) <==>
            exists n :: n in Nodes(dp) && n.kind == 3 && (n.sub == 11 || n.sub == 12 || n.sub == 13 || n.sub == 24)
  {
    hide Nodes;
    forall n | n in Nodes(dp) && n.kind == 3 && (n.sub == 11 || n.sub == 12 || n.sub == 13 || n.sub == 24)
      ensures IsNetwork(dp)
    {
      var i :| 0 <= i < |Nodes(dp)| && Nodes(dp)[i] == n;
      assert DP_NETWORK_SUBTYPES[0] == 11 && DP_NETWORK_SUBTYPES[1] == 12 && DP_NETWORK_SUBTYPES[2] == 13
          && DP_NETWORK_SUBTYPES[3] == 24;
    }
  }

  /** The walk over a node that fits goes on behind it, unless it is type 0x7F, subtype 0xFF. */
  lemma NodesStopIff(dp: seq<byte>)
    ensures Nodes(dp) == [] <==>
            || |dp| < 4
            || U16(dp[2], dp[3]) < 4 || U16(dp[2], dp[3]) > |dp|
            || (dp[0] == 0x7F && dp[1] == 0xFF)
  {
  }

  /** In bytes, what is written for a partition names exactly that one. */
  lemma WrittenHd(gpt: GptEsp)
    requires gpt.Valid()
    ensures NamesPartition(HdNodeOf(gpt), gpt) && |HdNodeOf(gpt).data| == 38 && HdNodeOf(gpt).data[36] == 2
  {
    HdRoundTrip(gpt);
    HdIsIff(HdNodeOf(gpt), gpt);
    hide NamesPartition, HdOf;
  }

  // ---------------------------------------------------------------- UCS-2 text

  predicate NulFree(s: seq<u16>) {
    forall i :: 0 <= i < |s| ==> s[i] != NUL
  }

  function UnitBytes(s: seq<u16>): (b: seq<byte>)
    ensures |b| == 2 * |s|
  {
    if s == [] then [] else U16Bytes(s[0]) + UnitBytes(s[1..])
  }

  /** `s` as NUL-terminated UCS-2. */
  function Ucs2Nul(s: seq<u16>): seq<byte> {
    UnitBytes(s) + U16Bytes(NUL)
  }

  /** UCS-2 `data` up to its first NUL; an odd last byte is dropped. */
  function Ucs2UntilNul(data: seq<byte>): seq<u16> {
    if |data| < 2 || U16(data[0], data[1]) == NUL then []
    else [U16(data[0], data[1])] + Ucs2UntilNul(data[2..])
  }

  /** A unit is two bytes, the low one first, and the unit zero ends the text. */
  lemma Ucs2Steps(u: u16, rest: seq<byte>)
    ensures Ucs2UntilNul([u % 0x100, u / 0x100] + rest) == if u == 0 then [] else [u] + Ucs2UntilNul(rest)
  {
    assert ([u % 0x100, u / 0x100] + rest)[2..] == rest;
  }

  lemma {:induction false} Ucs2RoundTrip(s: seq<u16>, rest: seq<byte>)
    requires NulFree(s)
    ensures Ucs2UntilNul(Ucs2Nul(s) + rest) == s
  {
    var data := Ucs2Nul(s) + rest;
    if s != [] {
      Ucs2RoundTrip(s[1..], rest);
      assert data[2..] == Ucs2Nul(s[1..]) + rest;
    }
  }

  // ---------------------------------------------------------------- the File() path

  predicate IsSeparator(u: u16) {
    u == BACKSLASH || u == SLASH
  }

  predicate SeparatorFree(s: seq<u16>) {
    forall i :: 0 <= i < |s| ==> !IsSeparator(s[i])
  }

  /** The pieces of `p` between separators, empty ones included (`split`). */
  function Split(p: seq<u16>): (ps: seq<seq<u16>>)
    ensures |ps| > 0
  {
    if |p| == 0 then [[]] else Glue(p[0], Split(p[1..]))
  }

  /** The pieces of `u` followed by a text whose pieces are `tail`. */
  function Glue(u: u16, tail: seq<seq<u16>>): (ps: seq<seq<u16>>)
    requires |tail| > 0
    ensures |ps| > 0
  {
    if IsSeparator(u) then [[]] + tail else [[u] + tail[0]] + tail[1..]
  }

  predicate IsNonEmpty(p: seq<u16>) {
    |p| > 0
  }

  function NonEmpty(ps: seq<seq<u16>>): seq<seq<u16>> {
    Filter(ps, IsNonEmpty)
  }

  /** The non-empty components of one path. */
  function Components(p: seq<u16>): seq<seq<u16>> {
    NonEmpty(Split(p))
  }

  function AllComponents(parts: seq<seq<u16>>): seq<seq<u16>> {
    if |parts| == 0 then [] else Components(parts[0]) + AllComponents(parts[1..])
  }

  /** The components joined, each behind a backslash. */
  function Join(cs: seq<seq<u16>>): seq<u16> {
    if cs == [] then [] else [BACKSLASH] + cs[0] + Join(cs[1..])
  }

  /** Every component is put behind a backslash. */
  lemma JoinOne(c: seq<u16>, cs: seq<seq<u16>>)
    ensures Join([]) == [] && Join([c] + cs) == ['\\' as u16] + c + Join(cs)
  {
    assert ([c] + cs)[1..] == cs;
  }

  predicate IsHd(n: Node) {
    n.kind == DP_MEDIA && n.sub == DP_MEDIA_HD
  }

  predicate IsFile(n: Node) {
    n.kind == DP_MEDIA && n.sub == DP_MEDIA_FILE
  }

  /** The texts of the leading `File()` nodes. */
  function LeadingFiles(ns: seq<Node>): seq<seq<u16>> {
    if ns == [] || !IsFile(ns[0]) then []
    else [Ucs2UntilNul(ns[0].data)] + LeadingFiles(ns[1..])
  }

  /** The nodes behind the first `HD()` node. */
  function AfterHd(ns: seq<Node>): Option<seq<Node>> {
    if ns == [] then None
    else if IsHd(ns[0]) then Some(ns[1..])
    else AfterHd(ns[1..])
  }

  /** The file a path starts on its partition, or None when it ends at the partition. */
  function LoaderPath(ns: seq<Node>): Option<seq<u16>> {
    match AfterHd(ns)
    case None => None
    case Some(rest) =>
      var parts := LeadingFiles(rest);
      if parts == [] then None else Some(Join(AllComponents(parts)))
  }

  /** The first hard-drive node is number `h`, and the `File()` nodes right behind it end in front of number `end`. */
  predicate FilesBehind(ns: seq<Node>, h: nat, end: nat) {
    && h < end <= |ns| && ns[h].kind == 4 && ns[h].sub == 1
    && (forall j :: 0 <= j < h ==> !(ns[j].kind == 4 && ns[j].sub == 1))
    && (forall j :: h < j < end ==> ns[j].kind == 4 && ns[j].sub == 4)
    && (end < |ns| ==> !(ns[end].kind == 4 && ns[end].sub == 4))
  }

  function Texts(ns: seq<Node>): seq<seq<u16>> {
    if |ns| == 0 then [] else [Ucs2UntilNul(ns[0].data)] + Texts(ns[1..])
  }

  /** The loader is the joined components of the texts of those nodes; without any there is none. */
  lemma {:induction false} LoaderPathIs(ns: seq<Node>, h: nat, end: nat)
    requires FilesBehind(ns, h, end)
    ensures LoaderPath(ns) == if end == h + 1 then None else Some(Join(AllComponents(Texts(ns[h + 1..end]))))
    decreases h
  {
    hide Join, AllComponents;
    if h == 0 {
      LeadingFilesAre(ns[1..], end - 1);
      assert ns[1..][..end - 1] == ns[1..end];
    } else {
      var rest := ns[1..];
      assert forall j :: 0 <= j < |rest| ==> rest[j] == ns[j + 1];
      LoaderPathIs(rest, h - 1, end - 1);
      assert rest[h..end - 1] == ns[h + 1..end];
    }
  }

  lemma {:induction false} LeadingFilesAre(ns: seq<Node>, end: nat)
    requires end <= |ns| && forall j :: 0 <= j < end ==> ns[j].kind == 4 && ns[j].sub == 4
    requires end < |ns| ==> !(ns[end].kind == 4 && ns[end].sub == 4)
    ensures LeadingFiles(ns) == Texts(ns[..end]) && |Texts(ns[..end])| == end
    decreases end
  {
    if end > 0 {
      LeadingFilesAre(ns[1..], end - 1);
      assert ns[..end][1..] == ns[1..][..end - 1];
    }
  }

  /** Without a hard-drive node there is no loader. */
  lemma {:induction false} NoHdNoLoader(ns: seq<Node>)
    requires forall j :: 0 <= j < |ns| ==> !(ns[j].kind == 4 && ns[j].sub == 1)
    ensures LoaderPath(ns) == None
  {
    if ns != [] {
      NoHdNoLoader(ns[1..]);
    }
  }

  lemma GlueConcat(u: u16, a: seq<seq<u16>>, b: seq<seq<u16>>)
    requires |a| > 0
    ensures Glue(u, a + b) == Glue(u, a) + b
  {
    assert (a + b)[0] == a[0];
    assert (a + b)[1..] == a[1..] + b;
  }

  lemma {:induction false} SplitAtSeparator(a: seq<u16>, sep: u16, b: seq<u16>)
    requires IsSeparator(sep)
    ensures Split(a + [sep] + b) == Split(a) + Split(b)
  {
    var p := a + [sep] + b;
    if |a| == 0 {
      assert p[1..] == b && p[0] == sep;
    } else {
      SplitAtSeparator(a[1..], sep, b);
      assert p[1..] == a[1..] + [sep] + b && p[0] == a[0];
      GlueConcat(a[0], Split(a[1..]), Split(b));
    }
  }

  /** Cutting a path at a separator leaves its components alone, doubled separators included. */
  lemma ComponentsAtSeparator(a: seq<u16>, sep: u16, b: seq<u16>)
    requires sep == '\\' as u16 || sep == '/' as u16
    ensures Components(a + [sep] + b) == Components(a) + Components(b)
  {
    SplitAtSeparator(a, sep, b);
    FilterConcat(Split(a), Split(b), IsNonEmpty);
  }

  lemma {:induction false} AllComponentsConcat(f: seq<seq<u16>>, g: seq<seq<u16>>)
    ensures AllComponents(f + g) == AllComponents(f) + AllComponents(g)
  {
    hide Components;
    if |f| == 0 {
      EmptyConcat(f, g);
      EmptyLeft(AllComponents(g));
    } else {
      AllComponentsConcat(f[1..], g);
      TailConcat(f, g);
      Assoc(Components(f[0]), AllComponents(f[1..]), AllComponents(g));
    }
  }

  predicate FileTexts(fs: seq<seq<u16>>) {
    forall i :: 0 <= i < |fs| ==> NulFree(fs[i]) && 4 + 2 * (|fs[i]| + 1) < 0x1_0000
  }

  function FileNode(text: seq<u16>): Node {
    Node(DP_MEDIA, DP_MEDIA_FILE, Ucs2Nul(text))
  }

  function FileNodes(fs: seq<seq<u16>>): (ns: seq<Node>)
    ensures FileTexts(fs) ==> WellFormed(ns)
  {
    if fs == [] then []
    else
      assert FileTexts(fs) ==> FileTexts(fs[1..]);
      [FileNode(fs[0])] + FileNodes(fs[1..])
  }

  lemma {:induction false} LeadingFilesOf(fs: seq<seq<u16>>)
    requires FileTexts(fs)
    ensures LeadingFiles(FileNodes(fs)) == fs
  {
    if |fs| > 0 {
      LeadingFilesOf(fs[1..]);
      Ucs2RoundTrip(fs[0], []);
      assert Ucs2Nul(fs[0]) + [] == Ucs2Nul(fs[0]);
      var ns := FileNodes(fs);
      assert ns[0] == FileNode(fs[0]) && ns[1..] == FileNodes(fs[1..]);
      assert LeadingFiles(ns) == [fs[0]] + fs[1..];
    }
  }

  lemma {:induction false} AfterHdSkips(pre: seq<Node>, hd: Node, rest: seq<Node>)
    requires forall i :: 0 <= i < |pre| ==> !IsHd(pre[i])
    requires IsHd(hd)
    ensures AfterHd(pre + [hd] + rest) == Some(rest)
  {
    var ns := pre + [hd] + rest;
    if pre == [] {
      assert ns[1..] == rest;
    } else {
      AfterHdSkips(pre[1..], hd, rest);
      assert ns[1..] == pre[1..] + [hd] + rest;
    }
  }

  /** The bytes of a firmware-style path: hardware prefix, `HD()`, the `File()` texts, End-Entire. */
  function PathBytes(pre: seq<Node>, hd: Node, fs: seq<seq<u16>>): seq<byte>
    requires WellFormed(pre) && WellFormedNode(hd) && FileTexts(fs)
  {
    EncodeNodes(pre + [hd] + FileNodes(fs)) + END_NODE
  }

  /** From bytes: the loader path is the joined components of the texts behind `HD()`. */
  lemma LoaderPathOfBytes(pre: seq<Node>, hd: Node, fs: seq<seq<u16>>)
    requires WellFormed(pre) && WellFormedNode(hd) && FileTexts(fs)
    requires IsHd(hd) && forall i :: 0 <= i < |pre| ==> !IsHd(pre[i])
    ensures LoaderPath(Nodes(PathBytes(pre, hd, fs)))
         == if fs == [] then None else Some(Join(AllComponents(fs)))
  {
    var ns := pre + [hd] + FileNodes(fs);
    NodesInvertEncode(ns, []);
    assert EncodeNodes(ns) + END_NODE + [] == PathBytes(pre, hd, fs);
    AfterHdSkips(pre, hd, FileNodes(fs));
    LeadingFilesOf(fs);
  }

  lemma SplitTextSameComponents(before: seq<seq<u16>>, a: seq<u16>, sep: u16, b: seq<u16>, after: seq<seq<u16>>)
    requires sep == '\\' as u16 || sep == '/' as u16
    ensures AllComponents(before + [a + [sep] + b] + after) == AllComponents(before + [a, b] + after)
  {
    AllComponentsConcat(before + [a + [sep] + b], after);
    AllComponentsConcat(before, [a + [sep] + b]);
    AllComponentsConcat(before + [a, b], after);
    AllComponentsConcat(before, [a, b]);
    AllComponentsOfOne(a + [sep] + b);
    AllComponentsOfOne(b);
    assert [a, b][1..] == [b];
    ComponentsAtSeparator(a, sep, b);
  }

  lemma AllComponentsOfOne(p: seq<u16>)
    ensures AllComponents([p]) == Components(p)
  {
    assert AllComponents([p]) == Components(p) + AllComponents([p][1..]);
    assert AllComponents([p][1..]) == [];
  }

  /** A path may be cut across `File()` nodes at any separator without changing what it starts. */
  lemma LoaderPathIgnoresSplit(pre: seq<Node>, hd: Node, before: seq<seq<u16>>, a: seq<u16>, sep: u16,
                               b: seq<u16>, after: seq<seq<u16>>)
    requires WellFormed(pre) && WellFormedNode(hd)
    requires IsHd(hd) && forall i :: 0 <= i < |pre| ==> !IsHd(pre[i])
    requires sep == '\\' as u16 || sep == '/' as u16
    requires FileTexts(before + [a + [sep] + b] + after) && FileTexts(before + [a, b] + after)
    ensures LoaderPath(Nodes(PathBytes(pre, hd, before + [a + [sep] + b] + after)))
         == LoaderPath(Nodes(PathBytes(pre, hd, before + [a, b] + after)))
  {
    LoaderPathOfBytes(pre, hd, before + [a + [sep] + b] + after);
    LoaderPathOfBytes(pre, hd, before + [a, b] + after);
    SplitTextSameComponents(before, a, sep, b, after);
  }

  lemma {:induction false} SplitOfPlain(c: seq<u16>)
    requires SeparatorFree(c)
    ensures Split(c) == [c]
  {
    if |c| > 0 {
      SplitOfPlain(c[1..]);
      assert c == [c[0]] + c[1..];
    }
  }

  predicate PlainComponents(cs: seq<seq<u16>>) {
    forall i :: 0 <= i < |cs| ==> |cs[i]| > 0 && SeparatorFree(cs[i])
  }

  lemma {:induction false} SplitOfJoin(cs: seq<seq<u16>>)
    requires |cs| > 0 && PlainComponents(cs)
    ensures Split(Join(cs)) == [[]] + cs
  {
    var c, rest := cs[0], Join(cs[1..]);
    var tail := c + rest;
    assert Join(cs)[0] == BACKSLASH && Join(cs)[1..] == tail;
    SplitOfPlain(c);
    if |cs| == 1 {
      assert tail == c;
    } else {
      SplitOfJoin(cs[1..]);
      var y := rest[1..];
      assert rest[0] == BACKSLASH;
      assert tail == c + [BACKSLASH] + y;
      SplitAtSeparator(c, BACKSLASH, y);
      assert Split(rest)[1..] == Split(y);
      assert ([[]] + cs[1..])[1..] == cs[1..];
    }
    assert Split(tail) == cs;
  }

  /** Text without either separator is one component. */
  lemma PlainIsOneComponent(c: seq<u16>)
    requires |c| > 0 && forall i :: 0 <= i < |c| ==> c[i] != '\\' as u16 && c[i] != '/' as u16
    ensures Components(c) == [c]
  {
    SplitOfPlain(c);
    FilterAll([c], IsNonEmpty);
  }

  /** Joining then splitting gives the components back. */
  lemma ComponentsOfJoin(cs: seq<seq<u16>>)
    requires PlainComponents(cs)
    ensures Components(Join(cs)) == cs
  {
    if |cs| > 0 {
      SplitOfJoin(cs);
      FilterConcat([[]], cs, IsNonEmpty);
      FilterAll(cs, IsNonEmpty);
      assert Filter([[]], IsNonEmpty) == [];
    }
  }

  // ---------------------------------------------------------------- HD(..)/File(loader)

  /** `HD(<gpt>)/File(<loader>)` and End-Entire; the node length wraps as its `as u16` cast does. */
  function HdFileDevicePath(gpt: GptEsp, loader: seq<u16>): seq<byte> {
    var path := Ucs2Nul(loader);
    ([DP_MEDIA, DP_MEDIA_HD] + U16Bytes(HD_NODE_LEN) + HdData(gpt))
    + ([DP_MEDIA, DP_MEDIA_FILE] + U16Bytes((4 + |path| % 0x1_0000) % 0x1_0000) + path)
    + END_NODE
  }

  predicate LoaderFits(loader: seq<u16>) {
    NulFree(loader) && 4 + 2 * (|loader| + 1) < 0x1_0000
  }

  /** The path written for a partition names exactly that partition and that loader. */
  lemma HdFilePathRoundTrip(gpt: GptEsp, loader: seq<u16>)
    requires gpt.Valid() && LoaderFits(loader)
    ensures var ns := Nodes(HdFileDevicePath(gpt, loader));
            && ns == [HdNodeOf(gpt), FileNode(loader)]
            && FirstHd(ns).Some? && FirstHd(ns).value.Is(gpt)
            && LoaderPath(ns) == Some(Join(Components(loader)))
    ensures !IsNetwork(HdFileDevicePath(gpt, loader))
    ensures |HdFileDevicePath(gpt, loader)| == 50 + 2 * (|loader| + 1)
  {
    HdFilePathBytes(gpt, loader);
    HdFilePathNodes(gpt, loader);
    HdRoundTrip(gpt);
    LoaderPathOfPair(HdNodeOf(gpt), loader);
  }

  lemma HdFilePathNodes(gpt: GptEsp, loader: seq<u16>)
    requires gpt.Valid() && LoaderFits(loader)
    ensures Nodes(HdFileDevicePath(gpt, loader)) == [HdNodeOf(gpt), FileNode(loader)]
  {
    var ns := [HdNodeOf(gpt), FileNode(loader)];
    assert |HdData(gpt)| == 38;
    HdFilePathBytes(gpt, loader);
    NodesInvertEncode(ns, []);
    assert EncodeNodes(ns) + END_NODE + [] == EncodeNodes(ns) + END_NODE;
  }

  lemma LoaderPathOfPair(hd: Node, loader: seq<u16>)
    requires IsHd(hd) && LoaderFits(loader)
    ensures LoaderPath([hd, FileNode(loader)]) == Some(Join(Components(loader)))
  {
    var file := FileNode(loader);
    assert [hd, file][1..] == [file] && [file][1..] == [];
    Ucs2RoundTrip(loader, []);
    assert Ucs2Nul(loader) + [] == Ucs2Nul(loader);
    assert LeadingFiles([file]) == [loader] + LeadingFiles([]);
    AllComponentsOfOne(loader);
  }

  lemma HdFilePathBytes(gpt: GptEsp, loader: seq<u16>)
    requires gpt.Valid() && LoaderFits(loader)
    ensures HdFileDevicePath(gpt, loader) == EncodeNodes([HdNodeOf(gpt), FileNode(loader)]) + END_NODE
    ensures |HdFileDevicePath(gpt, loader)| == 50 + 2 * (|loader| + 1)
  {
    var hd, file := HdNodeOf(gpt), FileNode(loader);
    assert |HdData(gpt)| == 38;
    EncodeTwo(hd, file);
  }

  lemma EncodeTwo(a: Node, b: Node)
    requires WellFormedNode(a) && WellFormedNode(b)
    ensures EncodeNodes([a, b]) == EncodeNode(a) + EncodeNode(b)
  {
    assert [a, b][1..] == [b] && [b][1..] == [];
    assert EncodeNodes([b]) == EncodeNode(b) + EncodeNodes([]);
  }
}
