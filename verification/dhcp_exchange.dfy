/** The DHCP exchange: the packets sent, and the rounds of offer and acknowledgement. */
module DhcpExchange {
  import opened Bytes
  import opened Seqs
  import opened Wrappers
  import opened DhcpOptions
  import opened Netmask

  const MAX_ROUNDS: nat := 4
  const DEFAULT_PREFIX: nat := 24

  type Mac = s: seq<byte> | |s| == 6 witness [0, 0, 0, 0, 0, 0]

  // ---------------------------------------------------------------- packets

  /** The options a client packet carries. */
  function ClientOptions(msgType: byte, requested: Option<Ip>, serverId: Option<Ip>): seq<Opt> {
    [Opt(53, [msgType])]
    + (if requested.Some? then [Opt(50, requested.value)] else [])
    + (if serverId.Some? then [Opt(54, serverId.value)] else [])
    + [Opt(55, [1, 3, 6, 51])]
  }

  /** The fixed area: a request by Ethernet with a broadcast reply, from `mac`, in the exchange `xid`; all else zero. */
  predicate ClientHeader(p: seq<byte>, xid: u32, mac: Mac) {
    && |p| >= 240
    && p[0] == 1 && p[1] == 1 && p[2] == 6 && p[3] == 0
    && p[4..8] == BigEndianBytes(xid)
    && p[8] == 0 && p[9] == 0 && p[10] == 0x80 && p[11] == 0
    && (forall i :: 12 <= i < 28 ==> p[i] == 0)
    && p[28..34] == mac
    && (forall i :: 34 <= i < 236 ==> p[i] == 0)
    && p[236..240] == [99, 130, 83, 99]
  }

  method CopyInto(p: array<byte>, at: nat, bytes: seq<byte>)
    requires at + |bytes| <= p.Length
    modifies p
    ensures forall k :: 0 <= k < p.Length ==> p[k] == if at <= k < at + |bytes| then bytes[k - at] else old(p[k])
  {
    for i := 0 to |bytes|
      invariant forall k :: 0 <= k < p.Length ==> p[k] == if at <= k < at + i then bytes[k - at] else old(p[k])
    {
      p[at + i] := bytes[i];
    }
  }

  /** The fixed area and the magic cookie. */
  method BuildHeader(xid: u32, mac: Mac) returns (header: seq<byte>)
    ensures |header| == OPTIONS_OFFSET && ClientHeader(header, xid, mac)
  {
    hide BigEndianBytes;
    var p := new byte[OPTIONS_OFFSET](_ => 0);
    p[0] := OP_REQUEST;
    p[1] := 1;
    p[2] := 6;
    CopyInto(p, 4, BigEndianBytes(xid));
    CopyInto(p, 10, [0x80, 0]);
    CopyInto(p, 28, mac);
    CopyInto(p, COOKIE_OFFSET, MAGIC);
    header := p[..];
  }

  function NoPads(): nat -> nat {
    (n: nat) => 0
  }

  lemma {:induction false} EncodePush(os: seq<Opt>, o: Opt)
    requires AllEncodable(os) && Encodable(o)
    ensures AllEncodable(os + [o]) && EncodeOptions(os + [o], NoPads()) == EncodeOptions(os, NoPads()) + EncodeOption(o)
  {
    if |os| == 0 {
      assert os + [o] == [o];
      EncodeOne([o], NoPads());
    } else {
      assert os == [os[0]] + os[1..] && (os + [o])[1..] == os[1..] + [o] && (os + [o])[0] == os[0];
      assert AllEncodable(os[1..]) && AllEncodable(os + [o]);
      EncodePush(os[1..], o);
      EncodeOne(os, NoPads());
      EncodeOne(os + [o], NoPads());
      hide EncodeOptions, EncodeOption;
      assert Pads(0) == [];
      Assoc(EncodeOption(os[0]), EncodeOptions(os[1..], NoPads()), EncodeOption(o));
    }
  }

  /** Pushes the code, the length and the value. */
  method PushOption(packet: seq<byte>, code: byte, value: seq<byte>, ghost header: seq<byte>, ghost os: seq<Opt>)
    returns (r: seq<byte>)
    requires Encodable(Opt(code, value)) && AllEncodable(os) && packet == header + EncodeOptions(os, NoPads())
    ensures AllEncodable(os + [Opt(code, value)]) && r == header + EncodeOptions(os + [Opt(code, value)], NoPads())
  {
    EncodePush(os, Opt(code, value));
    hide EncodeOptions;
    r := packet + [code, |value|] + value;
  }

  /** A packet is its header, its options one behind the other, and END; its options read back to themselves. */
  method BuildPacket(msgType: byte, xid: u32, mac: Mac, requested: Option<Ip>, serverId: Option<Ip>)
    returns (packet: seq<byte>)
    ensures ClientHeader(packet, xid, mac)
    ensures var os := ClientOptions(msgType, requested, serverId);
            && AllEncodable(os) && packet[240..] == EncodeOptions(os, NoPads()) + [255]
            && Options(packet, 240) == os
  {
    hide EncodeOptions, Options, AllEncodable, ClientHeader;
    var header := BuildHeader(xid, mac);
    ghost var os: seq<Opt> := [];
    StartEncode(header);
    packet := PushOption(header, OPT_MSG_TYPE, [msgType], header, os);
    os := os + [Opt(OPT_MSG_TYPE, [msgType])];
    if requested.Some? {
      packet := PushOption(packet, OPT_REQUESTED_IP, requested.value, header, os);
      os := os + [Opt(OPT_REQUESTED_IP, requested.value)];
    }
    if serverId.Some? {
      packet := PushOption(packet, OPT_SERVER_ID, serverId.value, header, os);
      os := os + [Opt(OPT_SERVER_ID, serverId.value)];
    }
    var wanted := [OPT_SUBNET_MASK, OPT_ROUTER, OPT_DNS, OPT_LEASE_TIME];
    packet := PushOption(packet, OPT_PARAM_LIST, wanted, header, os);
    os := os + [Opt(OPT_PARAM_LIST, wanted)];
    assert os == ClientOptions(msgType, requested, serverId);
    EndedListRoundTrips(header, os, NoPads(), [OPT_END]);
    HeaderStays(header, EncodeOptions(os, NoPads()) + [OPT_END], xid, mac);
    assert header + (EncodeOptions(os, NoPads()) + [OPT_END]) == packet + [OPT_END];
    assert (packet + [OPT_END])[OPTIONS_OFFSET..] == EncodeOptions(os, NoPads()) + [OPT_END];
    packet := packet + [OPT_END];
  }

  lemma StartEncode(header: seq<byte>)
    ensures AllEncodable([]) && header == header + EncodeOptions([], NoPads())
  {
  }

  lemma HeaderStays(header: seq<byte>, more: seq<byte>, xid: u32, mac: Mac)
    requires ClientHeader(header, xid, mac)
    ensures ClientHeader(header + more, xid, mac)
  {
    hide BigEndianBytes;
    var p := header + more;
    assert p[4..8] == header[4..8] && p[28..34] == header[28..34];
    assert p[COOKIE_OFFSET..OPTIONS_OFFSET] == header[COOKIE_OFFSET..OPTIONS_OFFSET];
  }

  // ---------------------------------------------------------------- the exchange

  const RECV_BUF_BYTES: nat := 4096

  datatype NetError = SocketError | DhcpTimeout

  datatype Lease = Lease(ip: Ip, prefixLen: nat, gateway: Option<Ip>, dns: seq<Ip>)

  /** Taken from the acknowledgement. */
  function LeaseOf(ack: Reply): (r: Lease)
    ensures r.prefixLen <= 32
  {
    var prefixLen := if ack.mask.Some? then MaskToPrefixLen(BigEndian(ack.mask.value)) else DEFAULT_PREFIX;
    Lease(ack.yiaddr, prefixLen, ack.router, ack.dns)
  }

  /**
   From the bytes of an acknowledgement: the lease has the address of its fixed area, the last router,
   all name servers, and the prefix length whose mask is the last one given; without a mask, or for
   one with a hole in it, that is 24.
   */
  lemma LeaseFromBytes(buf: seq<byte>, xid: u32)
    requires ReplyOf(buf, xid).Some?
    ensures var lease := LeaseOf(ReplyOf(buf, xid).value);
            var os := Options(buf, 240);
            var mask := LastValue(os, 1, 4);
            && lease.ip == buf[16..20] && lease.gateway == LastValue(os, 3, 4) && lease.dns == AllDns(os)
            && lease.prefixLen <= 32
            && (forall p: nat :: p <= 32 && mask.Some? && BigEndian(mask.value) == PrefixToMask(p) ==>
                  lease.prefixLen == p)
            && (mask.None? || (forall p: nat :: p <= 32 ==> BigEndian(mask.value) != PrefixToMask(p)) ==>
                  lease.prefixLen == 24)
  {
    hide Options, PrefixToMask, MaskToPrefixLen, ApplyAll, BigEndian;
    var os := Options(buf, OPTIONS_OFFSET);
    LastOneWins(Blank(buf[16..20]), os);
    assert [] + AllDns(os) == AllDns(os);
    var mask := LastValue(os, 1, 4);
    if mask.Some? {
      PrefixInvertsMask(BigEndian(mask.value));
    }
  }

  datatype Incoming = Datagram(bytes: seq<byte>) | TimedOut | HardError

  /** A packet, and how many datagrams had come in when it was sent. */
  datatype Sent = Sent(packet: seq<byte>, at: nat)

  /**
   The broadcast socket: any datagram may come in, any send may fail, and the deadline passes after some number of
   datagrams.
   */
  class Socket {
    const incoming: nat -> Incoming
    const patience: nat -> nat
    const sendFault: nat -> bool
    var received: nat
    var sends: nat
    var sent: seq<Sent>

    constructor (incoming: nat -> Incoming, patience: nat -> nat, sendFault: nat -> bool)
      ensures this.incoming == incoming && this.patience == patience && this.sendFault == sendFault
      ensures sent == [] && received == 0 && sends == 0
    {
      this.incoming, this.patience, this.sendFault := incoming, patience, sendFault;
      received, sends, sent := 0, 0, [];
    }

    method SendBroadcast(packet: seq<byte>) returns (ok: bool)
      modifies this`sends, this`sent
      ensures ok == !sendFault(old(sends)) && sends == old(sends) + 1
      ensures sent == if ok then old(sent) + [Sent(packet, received)] else old(sent)
    {
      ok := !sendFault(sends);
      sends := sends + 1;
      if ok {
        sent := sent + [Sent(packet, received)];
      }
    }

    /** The reply of the wanted type, if any, that the `k`-th datagram holds once cut to the buffer. */
    function ReplyAt(k: nat, xid: u32, want: byte): (r: Option<Reply>)
      ensures r.Some? ==> r.value.msgType == want
    {
      match incoming(k)
      case Datagram(bytes) =>
        var reply := ReplyOf(if |bytes| > 4096 then bytes[..4096] else bytes, xid);
        if reply.Some? && reply.value.msgType == want then reply else None
      case TimedOut => None
      case HardError => None
    }

    /** None of the datagrams from `lo` up to `hi` is a reply of the wanted type. */
    predicate Nothing(lo: nat, hi: nat, xid: u32, want: byte) {
      forall k :: lo <= k < hi ==> ReplyAt(k, xid, want).None?
    }

    /** Listening from `lo` on stopped at `hi`: the last receive timed out, or the deadline passed. */
    predicate GaveUp(lo: nat, hi: nat) {
      hi > lo && (incoming(hi - 1) == TimedOut || hi > lo + patience(lo))
    }

    /** The first reply of the wanted type, unless the receive times out or the deadline passes before. */
    method RecvReply(xid: u32, want: byte) returns (r: Result<Option<Reply>, NetError>)
      modifies this`received
      ensures received > old(received) && Nothing(old(received), received - 1, xid, want)
      ensures r.Ok? ==> r.value == ReplyAt(received - 1, xid, want)
      ensures r.Ok? && r.value.None? ==> GaveUp(old(received), received)
      ensures r.Err? ==> r.error == SocketError && incoming(received - 1) == HardError
    {
      hide ReplyOf;
      var start := received;
      while true
        invariant start <= received <= start + patience(start)
        invariant Nothing(start, received, xid, want)
        decreases start + patience(start) - received
      {
        var now := received;
        received := received + 1;
        match incoming(now)
        case TimedOut => return Ok(None);
        case HardError => return Err(SocketError);
        case Datagram(bytes) =>
          var reply := ParseReply(if |bytes| > RECV_BUF_BYTES then bytes[..RECV_BUF_BYTES] else bytes, xid);
          if reply.Some? && reply.value.msgType == want {
            return Ok(reply);
          }
          if received - start > patience(start) {
            return Ok(None);
          }
      }
    }
  }

  // ---------------------------------------------------------------- rounds

  /** A reply and the number of the datagram that held it. */
  datatype Heard = Heard(at: nat, reply: Reply)

  /** One round, which took in the datagrams from `from` up to `until`. */
  datatype Round = Round(from: nat, until: nat, offer: Option<Heard>, ack: Option<Heard>)

  /**
   The offer is the first one of the round and the acknowledgement the first one behind it; a round
   without one has heard none.
   */
  predicate GenuineRound(socket: Socket, round: Round, xid: u32) {
    && round.from <= round.until
    && (match round.offer
        case None => round.ack.None? && socket.Nothing(round.from, round.until, xid, 2)
        case Some(offer) =>
          && round.from <= offer.at < round.until && socket.Nothing(round.from, offer.at, xid, 2)
          && socket.ReplyAt(offer.at, xid, 2) == Some(offer.reply)
          && (match round.ack
              case None => socket.Nothing(offer.at + 1, round.until, xid, 5)
              case Some(ack) =>
                && offer.at < ack.at < round.until && socket.Nothing(offer.at + 1, ack.at, xid, 5)
                && socket.ReplyAt(ack.at, xid, 5) == Some(ack.reply)))
  }

  /** A round ended for want of an answer: it gave up listening for the offer, or for the acknowledgement behind it. */
  predicate TimedOutRound(socket: Socket, round: Round) {
    && round.ack.None?
    && match round.offer
       case None => socket.GaveUp(round.from, round.until)
       case Some(offer) => socket.GaveUp(offer.at + 1, round.until)
  }

  predicate AllTimedOut(socket: Socket, rounds: seq<Round>) {
    forall i :: 0 <= i < |rounds| ==> TimedOutRound(socket, rounds[i])
  }

  /** The rounds follow each other without a gap, from the datagram `start` up to `end`. */
  predicate GenuineRounds(socket: Socket, start: nat, end: nat, rounds: seq<Round>, xid: u32)
    decreases |rounds|
  {
    if |rounds| == 0 then start == end
    else
      var last := rounds[|rounds| - 1];
      GenuineRound(socket, last, xid) && last.until == end
          && GenuineRounds(socket, start, last.from, rounds[..|rounds| - 1], xid)
  }

  /** A message, and how many datagrams have come in when it is sent. */
  datatype Message = Discover(at: nat) | Request(at: nat, ip: Ip, serverId: Option<Ip>)

  /** What a round sends: a discover first, and behind the offer of this round a request for exactly that. */
  function RoundMessages(round: Round): seq<Message> {
    match round.offer
    case None => [Discover(round.from)]
    case Some(offer) => [Discover(round.from), Request(offer.at + 1, offer.reply.yiaddr, offer.reply.serverId)]
  }

  function Messages(rounds: seq<Round>): seq<Message> {
    if |rounds| == 0 then [] else Messages(rounds[..|rounds| - 1]) + RoundMessages(rounds[|rounds| - 1])
  }

  predicate Carries(sent: Sent, m: Message, xid: u32, mac: Mac) {
    && sent.at == m.at
    && ClientHeader(sent.packet, xid, mac)
    && Options(sent.packet, OPTIONS_OFFSET) ==
       match m
       case Discover(_) => ClientOptions(1, None, None)
       case Request(_, ip, serverId) => ClientOptions(3, Some(ip), serverId)
  }

  /** The packets are those of the messages, up to where a send may have failed. */
  predicate CarryAll(sent: seq<Sent>, ms: seq<Message>, xid: u32, mac: Mac) {
    |sent| <= |ms| && forall i :: 0 <= i < |sent| ==> Carries(sent[i], ms[i], xid, mac)
  }

  /** The datagram that held `heard` is a reply, and the exchange number in its bytes is the one in `packet`. */
  predicate SameExchange(socket: Socket, heard: Heard, packet: seq<byte>) {
    match socket.incoming(heard.at)
    case Datagram(bytes) => |bytes| >= 240 && |packet| >= 240 && bytes[0] == 2 && bytes[4..8] == packet[4..8]
    case TimedOut => false
    case HardError => false
  }

  /** Whatever was heard is of the exchange that `packet` belongs to. */
  predicate HeardOf(socket: Socket, rounds: seq<Round>, packet: seq<byte>) {
    forall i :: 0 <= i < |rounds| ==>
                  && (rounds[i].offer.Some? ==> SameExchange(socket, rounds[i].offer.value, packet))
                  && (rounds[i].ack.Some? ==> SameExchange(socket, rounds[i].ack.value, packet))
  }

  lemma ReplyIsOfExchange(socket: Socket, heard: Heard, xid: u32, want: byte, packet: seq<byte>, mac: Mac)
    requires socket.ReplyAt(heard.at, xid, want) == Some(heard.reply) && ClientHeader(packet, xid, mac)
    ensures SameExchange(socket, heard, packet)
  {
    var bytes := socket.incoming(heard.at).bytes;
    var buf := if |bytes| > 4096 then bytes[..4096] else bytes;
    ReplyIff(buf, xid);
    hide ReplyOf, Options, BigEndianBytes;
    assert buf[4..8] == bytes[4..8] && buf[0] == bytes[0];
  }

  /** In every round of an exchange, what was heard is of that exchange. */
  lemma {:induction false} RoundsAreOfExchange(socket: Socket, start: nat, end: nat, rounds: seq<Round>, xid: u32,
                                               packet: seq<byte>, mac: Mac)
    requires GenuineRounds(socket, start, end, rounds, xid) && ClientHeader(packet, xid, mac)
    ensures HeardOf(socket, rounds, packet)
    decreases |rounds|
  {
    hide ClientHeader, SameExchange, Socket.ReplyAt, Socket.Nothing;
    if |rounds| > 0 {
      var (last, before) := (rounds[|rounds| - 1], rounds[..|rounds| - 1]);
      RoundsAreOfExchange(socket, start, last.from, before, xid, packet, mac);
      if last.offer.Some? {
        ReplyIsOfExchange(socket, last.offer.value, xid, 2, packet, mac);
        if last.ack.Some? {
          ReplyIsOfExchange(socket, last.ack.value, xid, 5, packet, mac);
        }
      }
      assert forall i :: 0 <= i < |before| ==> rounds[i] == before[i];
    }
  }

  lemma SentAreOfExchange(socket: Socket, start: nat, rounds: seq<Round>, xid: u32, mac: Mac)
    requires GenuineRounds(socket, start, socket.received, rounds, xid)
    requires CarryAll(socket.sent, Messages(rounds), xid, mac)
    ensures forall sent :: sent in socket.sent ==> HeardOf(socket, rounds, sent.packet)
  {
    hide ClientHeader, HeardOf, GenuineRounds, Options;
    forall sent | sent in socket.sent
      ensures HeardOf(socket, rounds, sent.packet)
    {
      var i :| 0 <= i < |socket.sent| && socket.sent[i] == sent;
      assert Carries(socket.sent[i], Messages(rounds)[i], xid, mac);
      RoundsAreOfExchange(socket, start, socket.received, rounds, xid, sent.packet, mac);
    }
  }

  /** A socket error has a cause: the last send failed, or the last receive did. */
  predicate Broken(socket: Socket, sends: nat, received: nat)
    reads socket
  {
    || (socket.sends > sends && socket.sendFault(socket.sends - 1))
    || (socket.received > received && socket.incoming(socket.received - 1) == HardError)
  }

  /** One turn of the loop: the round it made, and its acknowledgement if it got that far. */
  method RunRound(socket: Socket, xid: u32, mac: Mac) returns (r: Result<Option<Reply>, NetError>, ghost round: Round)
    modifies socket
    ensures round.from == old(socket.received) && round.until == socket.received && GenuineRound(socket, round, xid)
    ensures r.Ok? ==> r.value == if round.ack.Some? then Some(round.ack.value.reply) else None
    ensures r == Ok(None) ==> TimedOutRound(socket, round)
    ensures r.Err? ==>
              r.error == SocketError && round.ack.None? && Broken(socket, old(socket.sends), old(socket.received))
    ensures old(socket.sent) <= socket.sent
              && CarryAll(socket.sent[|old(socket.sent)|..], RoundMessages(round), xid, mac)
    ensures r.Ok? ==> |socket.sent| == |old(socket.sent)| + |RoundMessages(round)|
    ensures old(socket.sends) < socket.sends
  {
    hide Options, EncodeOptions, AllEncodable, NoPads, ClientHeader, ClientOptions, Socket.ReplyAt, Socket.Nothing,
      Socket.GaveUp, GenuineRound, CarryAll, Carries;
    ghost var before, from := socket.sent, socket.received;
    round := Round(from, from, None, None);
    Silence(socket, from, xid);
    WithoutOffer(socket, from, from, xid);
    var discover := BuildPacket(DHCP_DISCOVER, xid, mac, None, None);
    var ok := socket.SendBroadcast(discover);
    if !ok {
      SentNothing(before, socket.sent, RoundMessages(round), xid, mac);
      return Err(SocketError), round;
    }
    SentDiscover(before, socket.sent, discover, from, xid, mac);
    var offer := socket.RecvReply(xid, DHCP_OFFER);
    NothingMore(socket, from, socket.received, xid, DHCP_OFFER);
    round := Round(from, socket.received, None, None);
    if offer.Err? {
      WithoutOffer(socket, from, socket.received, xid);
      return Err(SocketError), round;
    }
    if offer.value.None? {
      WithoutOffer(socket, from, socket.received, xid);
      return Ok(None), round;
    }
    var taken := offer.value.value;
    ghost var heard := Heard(socket.received - 1, taken);
    Silence(socket, heard.at + 1, xid);
    round := Round(from, socket.received, Some(heard), None);
    WithoutAck(socket, round, heard, xid);
    var request := BuildPacket(DHCP_REQUEST, xid, mac, Some(taken.yiaddr), taken.serverId);
    ghost var discovered := socket.sent;
    ok := socket.SendBroadcast(request);
    if !ok {
      SentRequest(before, discovered, socket.sent, request, RoundMessages(round), xid, mac);
      return Err(SocketError), round;
    }
    SentRequest(before, discovered, socket.sent, request, RoundMessages(round), xid, mac);
    var ack := socket.RecvReply(xid, DHCP_ACK);
    NothingMore(socket, heard.at + 1, socket.received, xid, DHCP_ACK);
    round := Round(from, socket.received, Some(heard), None);
    if ack.Err? {
      WithoutAck(socket, round, heard, xid);
      return Err(SocketError), round;
    }
    if ack.value.None? {
      WithoutAck(socket, round, heard, xid);
      return Ok(None), round;
    }
    round := Round(from, socket.received, Some(heard), Some(Heard(socket.received - 1, ack.value.value)));
    WithAck(socket, round, heard, xid);
    return ack, round;
  }

  lemma WithoutOffer(socket: Socket, from: nat, until: nat, xid: u32)
    requires from <= until && socket.Nothing(from, until, xid, DHCP_OFFER)
    ensures GenuineRound(socket, Round(from, until, None, None), xid)
  {
  }

  lemma WithoutAck(socket: Socket, round: Round, offer: Heard, xid: u32)
    requires round.offer == Some(offer) && round.ack.None? && round.from <= offer.at < round.until
    requires socket.Nothing(round.from, offer.at, xid, DHCP_OFFER)
    requires socket.ReplyAt(offer.at, xid, DHCP_OFFER) == Some(offer.reply)
    requires socket.Nothing(offer.at + 1, round.until, xid, DHCP_ACK)
    ensures GenuineRound(socket, round, xid)
  {
    hide Socket.Nothing, Socket.ReplyAt;
  }

  lemma WithAck(socket: Socket, round: Round, offer: Heard, xid: u32)
    requires round.offer == Some(offer) && round.ack.Some? && round.from <= offer.at < round.ack.value.at < round.until
    requires socket.Nothing(round.from, offer.at, xid, DHCP_OFFER)
    requires socket.ReplyAt(offer.at, xid, DHCP_OFFER) == Some(offer.reply)
    requires socket.Nothing(offer.at + 1, round.ack.value.at, xid, DHCP_ACK)
    requires socket.ReplyAt(round.ack.value.at, xid, DHCP_ACK) == Some(round.ack.value.reply)
    ensures GenuineRound(socket, round, xid)
  {
    hide Socket.Nothing, Socket.ReplyAt;
  }

  lemma SentNothing(before: seq<Sent>, sent: seq<Sent>, ms: seq<Message>, xid: u32, mac: Mac)
    requires sent == before
    ensures before <= sent && CarryAll(sent[|before|..], ms, xid, mac)
  {
  }

  lemma SentDiscover(before: seq<Sent>, sent: seq<Sent>, packet: seq<byte>, at: nat, xid: u32, mac: Mac)
    requires sent == before + [Sent(packet, at)] && ClientHeader(packet, xid, mac)
    requires Options(packet, OPTIONS_OFFSET) == ClientOptions(1, None, None)
    ensures before <= sent && sent[|before|..] == [Sent(packet, at)]
    ensures CarryAll(sent[|before|..], [Discover(at)], xid, mac)
  {
    hide Options, ClientHeader, ClientOptions;
  }

  /** Behind the discover, the request was sent or was not. */
  lemma SentRequest(before: seq<Sent>, discovered: seq<Sent>, sent: seq<Sent>, packet: seq<byte>, ms: seq<Message>,
                    xid: u32, mac: Mac)
    requires before <= discovered && |discovered| == |before| + 1 && |ms| == 2 && ms[1].Request?
    requires CarryAll(discovered[|before|..], [ms[0]], xid, mac)
    requires ClientHeader(packet, xid, mac)
    requires Options(packet, OPTIONS_OFFSET) == ClientOptions(3, Some(ms[1].ip), ms[1].serverId)
    requires sent == discovered || sent == discovered + [Sent(packet, ms[1].at)]
    ensures before <= sent && CarryAll(sent[|before|..], ms, xid, mac)
  {
    hide Options, ClientHeader, ClientOptions;
    assert discovered[|before|..] == [discovered[|before|]];
    assert sent[|before|..] == discovered[|before|..] + sent[|discovered|..];
  }

  lemma Silence(socket: Socket, at: nat, xid: u32)
    ensures socket.Nothing(at, at, xid, DHCP_OFFER) && socket.Nothing(at, at, xid, DHCP_ACK)
  {
  }

  lemma NothingMore(socket: Socket, lo: nat, hi: nat, xid: u32, want: byte)
    requires lo < hi && socket.Nothing(lo, hi - 1, xid, want)
    ensures socket.ReplyAt(hi - 1, xid, want).None? ==> socket.Nothing(lo, hi, xid, want)
    ensures socket.incoming(hi - 1) == HardError ==> socket.Nothing(lo, hi, xid, want)
  {
    hide ReplyOf;
  }

  /** At most four rounds; the lease is the first acknowledgement's, and every round before it ended for want of one. */
  method Acquire(socket: Socket, xid: u32, mac: Mac) returns (r: Result<Lease, NetError>, ghost rounds: seq<Round>)
    requires socket.sent == []
    modifies socket
    ensures 0 < |rounds| <= 4 && GenuineRounds(socket, old(socket.received), socket.received, rounds, xid)
    ensures CarryAll(socket.sent, Messages(rounds), xid, mac)
    ensures forall sent :: sent in socket.sent ==> HeardOf(socket, rounds, sent.packet)
    ensures AllTimedOut(socket, rounds[..|rounds| - 1])
    ensures r.Ok? ==> rounds[|rounds| - 1].ack.Some? && r.value == LeaseOf(rounds[|rounds| - 1].ack.value.reply)
                      && |socket.sent| == |Messages(rounds)|
    ensures r == Err(DhcpTimeout) ==>
              |rounds| == 4 && AllTimedOut(socket, rounds) && |socket.sent| == |Messages(rounds)|
    ensures r == Err(SocketError) ==>
              rounds[|rounds| - 1].ack.None? && Broken(socket, old(socket.sends), old(socket.received))
  {
    hide GenuineRound, TimedOutRound, CarryAll, RoundMessages, LeaseOf, HeardOf;
    rounds := [];
    CarryNothing(xid, mac);
    for i := 0 to MAX_ROUNDS
      invariant |rounds| == i && AllTimedOut(socket, rounds)
                && GenuineRounds(socket, old(socket.received), socket.received, rounds, xid)
      invariant CarryAll(socket.sent, Messages(rounds), xid, mac) && |socket.sent| == |Messages(rounds)|
      invariant old(socket.sends) <= socket.sends && old(socket.received) <= socket.received
      invariant forall sent :: sent in socket.sent ==> HeardOf(socket, rounds, sent.packet)
    {
      ghost var packets, made := socket.sent, rounds;
      ghost var round;
      var ack;
      ack, round := RunRound(socket, xid, mac);
      RoundForward(socket, round, xid);
      rounds := made + [round];
      assert rounds[..|rounds| - 1] == made;
      CarryPush(packets, Messages(made), socket.sent, RoundMessages(round), xid, mac);
      SentAreOfExchange(socket, old(socket.received), rounds, xid, mac);
      if ack.Err? {
        return Err(SocketError), rounds;
      }
      if ack.value.Some? {
        return Ok(LeaseOf(ack.value.value)), rounds;
      }
    }
    return Err(DhcpTimeout), rounds;
  }

  lemma RoundForward(socket: Socket, round: Round, xid: u32)
    requires GenuineRound(socket, round, xid)
    ensures round.from <= round.until
  {
  }

  lemma CarryNothing(xid: u32, mac: Mac)
    ensures CarryAll([], Messages([]), xid, mac)
  {
  }

  lemma CarryPush(sent: seq<Sent>, ms: seq<Message>, sent': seq<Sent>, ms': seq<Message>, xid: u32, mac: Mac)
    requires CarryAll(sent, ms, xid, mac) && |sent| == |ms| && sent <= sent' && CarryAll(sent'[|sent|..], ms', xid, mac)
    ensures CarryAll(sent', ms + ms', xid, mac)
  {
    hide Carries;
    assert forall i :: |sent| <= i < |sent'| ==> sent'[i] == sent'[|sent|..][i - |sent|];
  }
}
