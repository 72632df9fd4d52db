/** DHCP messages: the option walk (section 2 of RFC 2132), its inverse, and the client's own packets. */
module DhcpOptions {
  import opened Bytes
  import opened Seqs
  import opened Wrappers

  type Ip = s: seq<byte> | |s| == 4 witness [0, 0, 0, 0]

  const OP_REQUEST: byte := 1
  const OP_REPLY: byte := 2
  const COOKIE_OFFSET: nat := 236
  const OPTIONS_OFFSET: nat := 240
  const MAGIC: seq<byte> := [99, 130, 83, 99]

  const OPT_PAD: byte := 0
  const OPT_SUBNET_MASK: byte := 1
  const OPT_ROUTER: byte := 3
  const OPT_DNS: byte := 6
  const OPT_REQUESTED_IP: byte := 50
  const OPT_LEASE_TIME: byte := 51
  const OPT_MSG_TYPE: byte := 53
  const OPT_SERVER_ID: byte := 54
  const OPT_PARAM_LIST: byte := 55
  const OPT_END: byte := 255

  const DHCP_DISCOVER: byte := 1
  const DHCP_OFFER: byte := 2
  const DHCP_REQUEST: byte := 3
  const DHCP_ACK: byte := 5

  // ---------------------------------------------------------------- the option list

  datatype Opt = Opt(code: byte, value: seq<byte>)

  /**
   The options from `i` on: pads are skipped, and END, the end of the buffer or the first truncated option ends the
   list.
   */
  function Options(buf: seq<byte>, i: nat): seq<Opt>
    decreases |buf| - i
  {
    if i >= |buf| then []
    else if buf[i] == OPT_PAD then Options(buf, i + 1)
    else if buf[i] == OPT_END || i + 1 >= |buf| || i + 2 + buf[i + 1] > |buf| then []
    else [Opt(buf[i], buf[i + 2..i + 2 + buf[i + 1]])] + Options(buf, i + 2 + buf[i + 1])
  }

  /** An option that can be written down. */
  predicate Encodable(o: Opt) {
    o.code != 0 && o.code != 255 && |o.value| < 0x100
  }

  predicate AllEncodable(os: seq<Opt>) {
    forall i :: 0 <= i < |os| ==> Encodable(os[i])
  }

  function Pads(n: nat): (r: seq<byte>)
    ensures |r| == n
  {
    if n == 0 then [] else [0] + Pads(n - 1)
  }

  function EncodeOption(o: Opt): seq<byte>
    requires Encodable(o)
  {
    [o.code, |o.value|] + o.value
  }

  /** The options one after the other, each behind as many pads as `pads` says for it. */
  function EncodeOptions(os: seq<Opt>, pads: nat -> nat): seq<byte>
    requires AllEncodable(os)
  {
    if |os| == 0 then []
    else
      assert Encodable(os[0]) && AllEncodable(os[1..]);
      Pads(pads(|os|)) + EncodeOption(os[0]) + EncodeOptions(os[1..], pads)
  }

  lemma {:induction false} PadsSkipped(buf: seq<byte>, i: nat, n: nat)
    requires StandsAt(buf, i, Pads(n))
    ensures i + n <= |buf| && Options(buf, i) == Options(buf, i + n)
    decreases n
  {
    if n > 0 {
      assert Pads(n) == [0] + Pads(n - 1);
      StandsApart(buf, i, [0], Pads(n - 1));
      StandsElement(buf, i, [0], 0);
      PadsSkipped(buf, i + 1, n - 1);
    }
  }

  lemma OptionRead(buf: seq<byte>, i: nat, o: Opt)
    requires Encodable(o) && StandsAt(buf, i, EncodeOption(o))
    ensures i + 2 + |o.value| <= |buf| && Options(buf, i) == [o] + Options(buf, i + 2 + |o.value|)
  {
    var head := [o.code, |o.value|];
    StandsApart(buf, i, head, o.value);
    StandsElement(buf, i, head, 0);
    StandsElement(buf, i, head, 1);
    assert buf[i + 0] == o.code && buf[i + 1] == |o.value|;
    assert buf[i + 2..i + 2 + |o.value|] == o.value;
  }

  /** Wherever an encoded list stands, walking it gives the list and then what follows. */
  lemma {:induction false} WalkInvertsEncode(buf: seq<byte>, i: nat, os: seq<Opt>, pads: nat -> nat)
    requires AllEncodable(os) && StandsAt(buf, i, EncodeOptions(os, pads))
    ensures Options(buf, i) == os + Options(buf, i + |EncodeOptions(os, pads)|)
    decreases |os|
  {
    hide *;
    if |os| == 0 {
      EncodeNone(os, pads);
      EmptyConcat(os, Options(buf, i));
    } else {
      EncodeOne(os, pads);
      WalkOne(buf, i, pads(|os|), os[0], EncodeOptions(os[1..], pads));
      WalkInvertsEncode(buf, i + pads(|os|) + 2 + |os[0].value|, os[1..], pads);
      JoinOne(os[0], os[1..], os, Options(buf, i + |EncodeOptions(os, pads)|));
    }
  }

  lemma EncodeNone(os: seq<Opt>, pads: nat -> nat)
    requires |os| == 0
    ensures AllEncodable(os) && EncodeOptions(os, pads) == []
  {
  }

  lemma JoinOne(o: Opt, more: seq<Opt>, os: seq<Opt>, tail: seq<Opt>)
    requires |os| > 0 && o == os[0] && more == os[1..]
    ensures [o] + (more + tail) == os + tail
  {
    assert os == [o] + more;
    Assoc([o], more, tail);
  }

  lemma EncodeOne(os: seq<Opt>, pads: nat -> nat)
    requires |os| > 0 && AllEncodable(os)
    ensures Encodable(os[0]) && AllEncodable(os[1..])
    ensures EncodeOptions(os, pads) == Pads(pads(|os|)) + EncodeOption(os[0]) + EncodeOptions(os[1..], pads)
    ensures |EncodeOptions(os, pads)| == pads(|os|) + 2 + |os[0].value| + |EncodeOptions(os[1..], pads)|
  {
  }

  /** One option, behind its pads and in front of the rest. */
  lemma WalkOne(buf: seq<byte>, i: nat, n: nat, o: Opt, rest: seq<byte>)
    requires Encodable(o) && StandsAt(buf, i, Pads(n) + EncodeOption(o) + rest)
    ensures var next := i + n + 2 + |o.value|;
            StandsAt(buf, next, rest) && Options(buf, i) == [o] + Options(buf, next)
  {
    hide Options, StandsAt, Pads, EncodeOption;
    EncodedLength(o);
    StandsApart(buf, i, Pads(n) + EncodeOption(o), rest);
    StandsApart(buf, i, Pads(n), EncodeOption(o));
    PadsSkipped(buf, i, n);
    OptionRead(buf, i + n, o);
  }

  lemma EncodedLength(o: Opt)
    requires Encodable(o)
    ensures |EncodeOption(o)| == 2 + |o.value|
  {
  }

  /** What ends a list: nothing, END and anything behind it, or an option cut short. */
  predicate Ending(tail: seq<byte>) {
    || |tail| == 0
    || tail[0] == 255
    || (tail[0] != 0 && (|tail| < 2 || 2 + tail[1] as int > |tail|))
  }

  /** An encoded list is read back from wherever it stands, whatever ends it. */
  lemma EndedListRoundTrips(before: seq<byte>, os: seq<Opt>, pads: nat -> nat, tail: seq<byte>)
    requires AllEncodable(os) && Ending(tail)
    ensures Options(before + EncodeOptions(os, pads) + tail, |before|) == os
  {
    hide EncodeOptions, Options, Ending, AllEncodable, Encodable, StandsAt;
    var e := EncodeOptions(os, pads);
    var buf := before + e + tail;
    Middle(before, e, tail);
    WalkInvertsEncode(buf, |before|, os, pads);
    TailStops(buf, |before| + |e|, tail);
    EmptyRight(os, Options(buf, |before| + |e|));
  }

  lemma Middle(before: seq<byte>, part: seq<byte>, tail: seq<byte>)
    ensures StandsAt(before + part + tail, |before|, part)
    ensures StandsAt(before + part + tail, |before| + |part|, tail)
  {
  }

  lemma TailStops(buf: seq<byte>, at: nat, tail: seq<byte>)
    requires StandsAt(buf, at, tail) && at + |tail| == |buf| && Ending(tail)
    ensures Options(buf, at) == []
  {
    if |tail| > 0 {
      StandsElement(buf, at, tail, 0);
      assert buf[at] == tail[0];
    }
    if |tail| > 1 {
      StandsElement(buf, at, tail, 1);
    }
  }

  // ---------------------------------------------------------------- the fields of a reply

  datatype Reply = Reply(msgType: byte, yiaddr: Ip, serverId: Option<Ip>, mask: Option<Ip>, router: Option<Ip>,
                         dns: seq<Ip>)

  /** The four-byte groups of `v`; an incomplete last one is dropped. */
  function Addresses(v: seq<byte>): seq<Ip> {
    if |v| < 4 then [] else [v[..4]] + Addresses(v[4..])
  }

  /** What one option does to the reply. */
  function Apply(r: Reply, o: Opt): Reply {
    if o.code == OPT_MSG_TYPE && |o.value| >= 1 then r.(msgType := o.value[0])
    else if o.code == OPT_SERVER_ID && |o.value| >= 4 then r.(serverId := Some(o.value[..4]))
    else if o.code == OPT_SUBNET_MASK && |o.value| >= 4 then r.(mask := Some(o.value[..4]))
    else if o.code == OPT_ROUTER && |o.value| >= 4 then r.(router := Some(o.value[..4]))
    else if o.code == OPT_DNS then r.(dns := r.dns + Addresses(o.value))
    else r
  }

  function ApplyAll(r: Reply, os: seq<Opt>): Reply
    decreases os
  {
    if |os| == 0 then r else ApplyAll(Apply(r, os[0]), os[1..])
  }

  /** The first `size` bytes of the last option with that code that has so many. */
  function LastValue(os: seq<Opt>, code: byte, size: nat): (r: Option<seq<byte>>)
    ensures r.Some? ==> |r.value| == size
  {
    if |os| == 0 then None
    else
      var later := LastValue(os[1..], code, size);
      if later.Some? then later
      else if os[0].code == code && |os[0].value| >= size then Some(os[0].value[..size])
      else None
  }

  function AllDns(os: seq<Opt>): seq<Ip> {
    if |os| == 0 then []
    else (if os[0].code == 6 then Addresses(os[0].value) else []) + AllDns(os[1..])
  }

  function Or<T>(a: Option<T>, b: Option<T>): Option<T> {
    if a.Some? then a else b
  }

  /** The last message type given, or `otherwise`. */
  function LastType(os: seq<Opt>, otherwise: byte): byte {
    var last := LastValue(os, 53, 1);
    if last.Some? then last.value[0] else otherwise
  }

  /** The last type, server, mask and router win; the name servers of all options are strung together. */
  lemma {:induction false} LastOneWins(r: Reply, os: seq<Opt>)
    ensures var all := ApplyAll(r, os);
            && all.yiaddr == r.yiaddr
            && all.msgType == LastType(os, r.msgType)
            && all.serverId == Or(LastValue(os, 54, 4), r.serverId)
            && all.mask == Or(LastValue(os, 1, 4), r.mask)
            && all.router == Or(LastValue(os, 3, 4), r.router)
            && all.dns == r.dns + AllDns(os)
    decreases os
  {
    if |os| > 0 {
      LastOneWins(Apply(r, os[0]), os[1..]);
      Assoc(r.dns, if os[0].code == 6 then Addresses(os[0].value) else [], AllDns(os[1..]));
      assert r.dns + [] == r.dns;
    }
  }

  // ---------------------------------------------------------------- replies

  /** `u32::from_be_bytes` */
  function BigEndian(b: seq<byte>): u32
    requires |b| == 4
  {
    U32From([b[3], b[2], b[1], b[0]])
  }

  /** A BOOTP reply to this exchange. */
  predicate Addressed(buf: seq<byte>, xid: u32) {
    && |buf| >= OPTIONS_OFFSET
    && buf[0] == OP_REPLY
    && BigEndian(buf[4..8]) == xid
    && buf[COOKIE_OFFSET..OPTIONS_OFFSET] == MAGIC
  }

  function Blank(yiaddr: Ip): Reply {
    Reply(0, yiaddr, None, None, None, [])
  }

  /** The reply a buffer holds. */
  function ReplyOf(buf: seq<byte>, xid: u32): Option<Reply> {
    if !Addressed(buf, xid) then None
    else
      var r := ApplyAll(Blank(buf[16..20]), Options(buf, OPTIONS_OFFSET));
      if r.msgType != 0 then Some(r) else None
  }

  /** `n` as four bytes, the high one first. */
  function BigEndianBytes(n: u32): (r: seq<byte>)
    ensures |r| == 4 && BigEndian(r) == n
  {
    var le := U32Bytes(n);
    U32RoundTrip(n);
    assert [le[0], le[1], le[2], le[3]] == le;
    [le[3], le[2], le[1], le[0]]
  }

  lemma BigEndianIs(b: seq<byte>)
    requires |b| == 4
    ensures BigEndian(b) == 0x100_0000 * (b[0] as int) + 0x1_0000 * (b[1] as int) + 0x100 * (b[2] as int) + b[3] as int
    ensures BigEndianBytes(BigEndian(b)) == b
  {
    WordOfFour([b[3], b[2], b[1], b[0]]);
    WordBounds();
    EncodeDecode([b[3], b[2], b[1], b[0]]);
  }

  /**
   In bytes: a buffer holds a reply to the exchange `xid` exactly when it has a whole fixed area, is a reply, carries
   that number, has the magic cookie, and its options give a message type other than zero. The reply has
   that type and the address of the fixed area.
   */
  lemma ReplyIff(buf: seq<byte>, xid: u32)
    ensures ReplyOf(buf, xid).Some? <==>
            && |buf| >= 240 && buf[0] == 2 && buf[4..8] == BigEndianBytes(xid)
            && buf[236] == 99 && buf[237] == 130 && buf[238] == 83 && buf[239] == 99
            && LastType(Options(buf, 240), 0) != 0
    ensures ReplyOf(buf, xid).Some? ==>
              && ReplyOf(buf, xid).value.msgType == LastType(Options(buf, 240), 0)
              && ReplyOf(buf, xid).value.yiaddr == buf[16..20]
  {
    if |buf| >= 240 {
      LastOneWins(Blank(buf[16..20]), Options(buf, 240));
      BigEndianIs(buf[4..8]);
      CookieIs(buf);
    }
    hide Options, ApplyAll, BigEndian, BigEndianBytes, LastType;
  }

  lemma CookieIs(buf: seq<byte>)
    requires |buf| >= 240
    ensures buf[COOKIE_OFFSET..OPTIONS_OFFSET] == MAGIC <==>
            buf[236] == 99 && buf[237] == 130 && buf[238] == 83 && buf[239] == 99
  {
    var cookie := buf[COOKIE_OFFSET..OPTIONS_OFFSET];
    assert |cookie| == 4 && cookie == [buf[236], buf[237], buf[238], buf[239]];
  }

  method PushAddresses(dns: seq<Ip>, value: seq<byte>) returns (r: seq<Ip>)
    ensures r == dns + Addresses(value)
  {
    r := dns;
    var rest := value;
    while |rest| >= 4
      invariant r + Addresses(rest) == dns + Addresses(value)
      decreases |rest|
    {
      Assoc(r, [rest[..4]], Addresses(rest[4..]));
      r := r + [rest[..4]];
      rest := rest[4..];
    }
  }

  /** The fields are updated by the option's code. */
  method TakeOption(reply: Reply, code: byte, val: seq<byte>) returns (r: Reply)
    ensures r == Apply(reply, Opt(code, val))
  {
    hide Addresses;
    r := reply;
    var len := |val|;
    if code == OPT_MSG_TYPE && len >= 1 {
      r := r.(msgType := val[0]);
    } else if code == OPT_SERVER_ID && len >= 4 {
      r := r.(serverId := Some(val[..4]));
    } else if code == OPT_SUBNET_MASK && len >= 4 {
      r := r.(mask := Some(val[..4]));
    } else if code == OPT_ROUTER && len >= 4 {
      r := r.(router := Some(val[..4]));
    } else if code == OPT_DNS {
      var dns := PushAddresses(r.dns, val);
      r := r.(dns := dns);
    }
  }

  method ParseReply(buf: seq<byte>, xid: u32) returns (reply: Option<Reply>)
    ensures reply == ReplyOf(buf, xid)
  {
    if !Addressed(buf, xid) {
      return None;
    }
    hide Options, ApplyAll, Addressed, ReplyOf;
    ReplyWalks(buf, xid);
    var r := WalkOptions(buf, Blank(buf[16..20]));
    return if r.msgType != 0 then Some(r) else None;
  }

  /** The cursor over the options, taking each into `blank`. */
  method WalkOptions(buf: seq<byte>, blank: Reply) returns (r: Reply)
    requires |buf| >= OPTIONS_OFFSET
    ensures r == ApplyAll(blank, Options(buf, OPTIONS_OFFSET))
  {
    hide Apply, Options, ApplyAll;
    r := blank;
    var i := OPTIONS_OFFSET;
    ghost var all := ApplyAll(r, Options(buf, i));
    while i < |buf|
      invariant i <= |buf|
      invariant all == ApplyAll(r, Options(buf, i))
      decreases |buf| - i
    {
      ghost var at := i;
      WalkStops(buf, at, r);
      var code := buf[i];
      i := i + 1;
      if code == OPT_PAD {
        continue;
      }
      if code == OPT_END {
        return;
      }
      if i >= |buf| {
        return;
      }
      var len := buf[i];
      i := i + 1;
      if i + len > |buf| {
        return;
      }
      StepApplies(buf, at, r);
      r := TakeOption(r, code, buf[i..i + len]);
      i := i + len;
    }
    WalkStops(buf, i, r);
  }

  lemma ReplyWalks(buf: seq<byte>, xid: u32)
    requires Addressed(buf, xid)
    ensures |buf| >= OPTIONS_OFFSET
    ensures var r := ApplyAll(Blank(buf[16..20]), Options(buf, OPTIONS_OFFSET));
            ReplyOf(buf, xid) == if r.msgType != 0 then Some(r) else None
  {
    hide ApplyAll, Options;
  }

  /** Where the walk ends, and what a pad does to it. */
  lemma WalkStops(buf: seq<byte>, i: nat, r: Reply)
    ensures i >= |buf| || buf[i] == OPT_END || (buf[i] != OPT_PAD && (i + 1 >= |buf| || i + 2 + buf[i + 1] > |buf|)) ==>
              ApplyAll(r, Options(buf, i)) == r
    ensures i < |buf| && buf[i] == OPT_PAD ==> Options(buf, i) == Options(buf, i + 1)
  {
  }

  /** One complete option further in the walk. */
  lemma StepApplies(buf: seq<byte>, i: nat, r: Reply)
    requires i + 1 < |buf| && buf[i] != OPT_PAD && buf[i] != OPT_END && i + 2 + buf[i + 1] <= |buf|
    ensures var o := Opt(buf[i], buf[i + 2..i + 2 + buf[i + 1]]);
            ApplyAll(r, Options(buf, i)) == ApplyAll(Apply(r, o), Options(buf, i + 2 + buf[i + 1]))
  {
    var o := Opt(buf[i], buf[i + 2..i + 2 + buf[i + 1]]);
    var rest := Options(buf, i + 2 + buf[i + 1]);
    assert Options(buf, i) == [o] + rest;
    assert ([o] + rest)[1..] == rest;
  }
}
