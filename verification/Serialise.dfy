/**
 The wire layouts the dissector reads, written the other way round, and the
 proof that dissecting a serialised frame gives every header field back.
 Checksums are carried, not computed: the dissector does not look at them.
 */
module Serialise {
  import opened Prelude
  import opened Bytes
  import opened Clock
  import opened Packets
  import opened Dissector

  function High(n: nat): byte
    requires n < U16
  {
    n / 256
  }

  function Low(n: nat): byte {
    n % 256
  }

  predicate IsMapped(ip: Address) {
    |ip| == 16 && ip == Mapped(ip[12..16])
  }

  // Transport layer

  datatype Segment = TcpSegment(t: TCPHeader, options: seq<byte>, body: seq<byte>)
                   | UdpDatagram(u: UDPHeader, body: seq<byte>)
                   | IcmpMessage(i: ICMPHeader, body: seq<byte>)
                   | Unknown(proto: nat, body: seq<byte>)

  predicate TCPFits(t: TCPHeader, options: seq<byte>) {
    && t.srcPort < U16 && t.dstPort < U16 && t.seqNum < U32 && t.ackNum < U32
    && 5 <= t.dataOffset <= 15 && |options| == t.dataOffset * 4 - TCP_MIN
    && t.flags < 256 && t.windowSize < U16 && t.checksum < U16 && t.urgentPtr < U16
  }

  predicate SegmentFits(s: Segment) {
    match s
    case TcpSegment(t, options, _) => TCPFits(t, options)
    case UdpDatagram(u, _) => u.srcPort < U16 && u.dstPort < U16 && u.length < U16 && u.checksum < U16
    case IcmpMessage(i, _) => i.kind < 256 && i.code < 256 && i.checksum < U16
    case Unknown(proto, _) => proto < 256 && proto !in {PROTO_TCP, PROTO_UDP, PROTO_ICMP}
  }

  function TCPBytes(t: TCPHeader, options: seq<byte>): (b: seq<byte>)
    requires TCPFits(t, options)
    ensures |b| == t.dataOffset * 4
  {
    [High(t.srcPort), Low(t.srcPort), High(t.dstPort), Low(t.dstPort),
     High(t.seqNum / U16), Low(t.seqNum / U16), High(t.seqNum % U16), Low(t.seqNum % U16),
     High(t.ackNum / U16), Low(t.ackNum / U16), High(t.ackNum % U16), Low(t.ackNum % U16),
     t.dataOffset * 16, t.flags, High(t.windowSize), Low(t.windowSize),
     High(t.checksum), Low(t.checksum), High(t.urgentPtr), Low(t.urgentPtr)] + options
  }

  function UDPBytes(u: UDPHeader): seq<byte>
    requires u.srcPort < U16 && u.dstPort < U16 && u.length < U16 && u.checksum < U16
  {
    [High(u.srcPort), Low(u.srcPort), High(u.dstPort), Low(u.dstPort),
     High(u.length), Low(u.length), High(u.checksum), Low(u.checksum)]
  }

  function ICMPBytes(i: ICMPHeader): seq<byte>
    requires i.kind < 256 && i.code < 256 && i.checksum < U16
  {
    [i.kind, i.code, High(i.checksum), Low(i.checksum)]
  }

  function SegmentBytes(s: Segment): seq<byte>
    requires SegmentFits(s)
  {
    match s
    case TcpSegment(t, options, body) => TCPBytes(t, options) + body
    case UdpDatagram(u, body) => UDPBytes(u) + body
    case IcmpMessage(i, body) => ICMPBytes(i) + body
    case Unknown(_, body) => body
  }

  function Proto(s: Segment): nat {
    match s
    case TcpSegment(_, _, _) => PROTO_TCP
    case UdpDatagram(_, _) => PROTO_UDP
    case IcmpMessage(_, _) => PROTO_ICMP
    case Unknown(proto, _) => proto
  }

  /** The packet with the segment's header and payload filled in. */
  function Filled(p: Packet, s: Segment): Packet {
    match s
    case TcpSegment(t, _, body) => p.(tcp := Some(t), payload := body)
    case UdpDatagram(u, body) => p.(udp := Some(u), payload := body)
    case IcmpMessage(i, body) => p.(icmp := Some(i), payload := body)
    case Unknown(_, body) => p.(payload := body)
  }

  lemma TCPInverse(t: TCPHeader, options: seq<byte>, body: seq<byte>)
    requires TCPFits(t, options)
    ensures var b := TCPBytes(t, options) + body;
            TCPIn(b) == t && From(b, DataOffset(b)) == body
  {
    var b := TCPBytes(t, options) + body;
    assert DataOffset(b) == t.dataOffset * 4;
  }

  /** Every segment comes back field for field from its bytes. */
  lemma SegmentInverse(p: Packet, s: Segment)
    requires SegmentFits(s)
    ensures OnL4(p, Proto(s), SegmentBytes(s)) == Filled(p, s)
  {
    match s {
      case TcpSegment(t, options, body) =>
        TCPInverse(t, options, body);
      case UdpDatagram(u, body) =>
        assert From(UDPBytes(u) + body, UDP_SIZE) == body;
      case IcmpMessage(i, body) =>
        assert From(ICMPBytes(i) + body, ICMP_SIZE) == body;
      case Unknown(_, _) =>
    }
  }

  // Network layer

  predicate IPv4Fits(h: IPv4Header, options: seq<byte>) {
    && h.version == 4 && 5 <= h.ihl <= 15 && |options| == h.ihl * 4 - IPV4_MIN
    && h.dscp < 64 && h.ecn < 4 && h.totalLength < U16 && h.identification < U16
    && h.flags < 8 && h.fragmentOffset < 0x2000 && h.ttl < 256 && h.protocol < 256 && h.checksum < U16
    && IsMapped(h.srcIP) && IsMapped(h.dstIP)
  }

  function IPv4Bytes(h: IPv4Header, options: seq<byte>): (b: seq<byte>)
    requires IPv4Fits(h, options)
    ensures |b| == h.ihl * 4
  {
    var fragment := h.flags * 0x2000 + h.fragmentOffset;
    [h.version * 16 + h.ihl, h.dscp * 4 + h.ecn, High(h.totalLength), Low(h.totalLength),
     High(h.identification), Low(h.identification), High(fragment), Low(fragment),
     h.ttl, h.protocol, High(h.checksum), Low(h.checksum)] + h.srcIP[12..16] + h.dstIP[12..16] + options
  }

  predicate IPv6Fits(h: IPv6Header) {
    && h.version == 6 && h.trafficClass < 256 && h.flowLabel < 0x10_0000 && h.payloadLen < U16
    && h.nextHeader < 256 && h.hopLimit < 256 && |h.srcIP| == 16 && |h.dstIP| == 16
  }

  function IPv6Bytes(h: IPv6Header): (b: seq<byte>)
    requires IPv6Fits(h)
    ensures |b| == IPV6_SIZE
  {
    [h.version * 16 + h.trafficClass / 16, h.trafficClass % 16 * 16 + h.flowLabel / U16,
     High(h.flowLabel % U16), Low(h.flowLabel % U16), High(h.payloadLen), Low(h.payloadLen),
     h.nextHeader, h.hopLimit] + h.srcIP + h.dstIP
  }

  predicate ARPFits(a: ARPHeader) {
    && a.hardwareType < U16 && a.protocolType < U16 && a.hardwareSize < 256 && a.protocolSize < 256
    && a.opcode < U16 && |a.senderMAC| == 6 && |a.targetMAC| == 6
    && IsMapped(a.senderIP) && IsMapped(a.targetIP)
  }

  function ARPBytes(a: ARPHeader): (b: seq<byte>)
    requires ARPFits(a)
    ensures |b| == ARP_SIZE
  {
    [High(a.hardwareType), Low(a.hardwareType), High(a.protocolType), Low(a.protocolType),
     a.hardwareSize, a.protocolSize, High(a.opcode), Low(a.opcode)]
    + a.senderMAC + a.senderIP[12..16] + a.targetMAC + a.targetIP[12..16]
  }

  /** A total length that counts header and segment reads back as it is, whatever follows. */
  lemma IPv4Inverse(h: IPv4Header, options: seq<byte>, more: seq<byte>)
    requires IPv4Fits(h, options) && h.totalLength <= h.ihl * 4 + |more|
    ensures IPv4In(IPv4Bytes(h, options) + more) == h
  {
    var b := IPv4Bytes(h, options) + more;
    assert b[12..16] == h.srcIP[12..16];
    assert b[16..20] == h.dstIP[12..16];
    FragmentField(h.flags, h.fragmentOffset);
  }

  lemma FragmentField(flags: nat, offset: nat)
    requires flags < 8 && offset < 0x2000
    ensures var f := flags * 0x2000 + offset;
            f < U16 && f / 256 / 32 == flags && f % 0x2000 == offset
  {
  }

  lemma IPv6Inverse(h: IPv6Header, more: seq<byte>)
    requires IPv6Fits(h)
    ensures IPv6In(IPv6Bytes(h) + more) == h
  {
    var b := IPv6Bytes(h) + more;
    assert b[8..24] == h.srcIP;
    assert b[24..40] == h.dstIP;
  }

  lemma ARPInverse(a: ARPHeader, more: seq<byte>)
    requires ARPFits(a)
    ensures ARPIn(ARPBytes(a) + more) == a
  {
    var b := ARPBytes(a) + more;
    assert b[8..14] == a.senderMAC;
    assert b[14..18] == a.senderIP[12..16];
    assert b[18..24] == a.targetMAC;
    assert b[24..28] == a.targetIP[12..16];
  }

  // Frames

  predicate EthernetFits(e: EthernetFrame) {
    |e.dstMAC| == 6 && |e.srcMAC| == 6 && e.etherType < U16
  }

  function EthernetBytes(e: EthernetFrame): (b: seq<byte>)
    requires EthernetFits(e)
    ensures |b| == ETHERNET_SIZE
  {
    e.dstMAC + e.srcMAC + [High(e.etherType), Low(e.etherType)]
  }

  /** A packet of which only time, bytes and link layer are known. */
  function Linked(e: EthernetFrame, raw: seq<byte>, ts: Time): Packet {
    Packet(ts, raw, e, None, None, None, None, None, None, [])
  }

  lemma EthernetInverse(e: EthernetFrame, b: seq<byte>, ts: Time)
    requires EthernetFits(e)
    ensures var raw := EthernetBytes(e) + b;
            LinkOnly(raw, ts) == Linked(e, raw, ts) && From(raw, ETHERNET_SIZE) == b
  {
    var raw := EthernetBytes(e) + b;
    assert raw[0..6] == e.dstMAC && raw[6..12] == e.srcMAC;
    assert Be16(raw, 12) == e.etherType;
  }

  lemma WellFormedIPv4(p: Packet, head: seq<byte>, segment: seq<byte>, trailer: seq<byte>, h: IPv4Header)
    requires IPV4_MIN <= |head| == h.ihl * 4 && h.totalLength == |head| + |segment|
    requires head[0] / 16 == 4 && head[0] % 16 == h.ihl && IPv4In(head + (segment + trailer)) == h
    ensures OnIPv4(p, head + (segment + trailer)) == Outcome(OnL4(p.(ipv4 := Some(h)), h.protocol, segment), Fine)
  {
    hide OnL4;
    hide IPv4In;
    Middle(head, segment, trailer);
  }

  lemma IPv4Payload(p: Packet, h: IPv4Header, options: seq<byte>, s: Segment, trailer: seq<byte>)
    requires IPv4Fits(h, options) && SegmentFits(s)
    requires h.protocol == Proto(s) && h.totalLength == h.ihl * 4 + |SegmentBytes(s)|
    ensures OnIPv4(p, IPv4Bytes(h, options) + (SegmentBytes(s) + trailer)) ==
            Outcome(Filled(p.(ipv4 := Some(h)), s), Fine)
  {
    FirstByte(h, options);
    hide *;
    IPv4Inverse(h, options, SegmentBytes(s) + trailer);
    WellFormedIPv4(p, IPv4Bytes(h, options), SegmentBytes(s), trailer, h);
    SegmentInverse(p.(ipv4 := Some(h)), s);
  }

  lemma FirstByte(h: IPv4Header, options: seq<byte>)
    requires IPv4Fits(h, options)
    ensures |IPv4Bytes(h, options)| == h.ihl * 4 >= IPV4_MIN
    ensures IPv4Bytes(h, options)[0] / 16 == 4 && IPv4Bytes(h, options)[0] % 16 == h.ihl
  {
  }

  /**
   Dissection inverts serialisation of an IPv4 frame with any header options
   and any bytes behind the packet.
   */
  lemma IPv4FrameInverse(e: EthernetFrame, h: IPv4Header, options: seq<byte>, s: Segment, trailer: seq<byte>, ts: Time)
    requires EthernetFits(e) && e.etherType == ETHERTYPE_IPV4 && IPv4Fits(h, options) && SegmentFits(s)
    requires h.protocol == Proto(s) && h.totalLength == h.ihl * 4 + |SegmentBytes(s)|
    ensures var raw := EthernetBytes(e) + (IPv4Bytes(h, options) + (SegmentBytes(s) + trailer));
            Dissect(raw, ts) == Made(Outcome(Filled(Linked(e, raw, ts).(ipv4 := Some(h)), s), Fine))
  {
    hide *;
    var b := IPv4Bytes(h, options) + (SegmentBytes(s) + trailer);
    var raw := EthernetBytes(e) + b;
    EthernetInverse(e, b, ts);
    IPv4Payload(Linked(e, raw, ts), h, options, s, trailer);
    Dispatched(raw, ts, e, b);
  }

  /** The layer function that the EtherType picks is given everything after the link header. */
  lemma Dispatched(raw: seq<byte>, ts: Time, e: EthernetFrame, b: seq<byte>)
    requires |raw| >= ETHERNET_SIZE && LinkOnly(raw, ts) == Linked(e, raw, ts) && From(raw, ETHERNET_SIZE) == b
    ensures e.etherType == ETHERTYPE_IPV4 ==> Dissect(raw, ts) == Made(OnIPv4(Linked(e, raw, ts), b))
    ensures e.etherType == ETHERTYPE_IPV6 ==> Dissect(raw, ts) == Made(OnIPv6(Linked(e, raw, ts), b))
    ensures e.etherType == ETHERTYPE_ARP ==> Dissect(raw, ts) == Made(OnARP(Linked(e, raw, ts), b))
  {
    hide OnIPv4;
    hide OnIPv6;
    hide OnARP;
    hide LinkOnly;
    hide From;
  }

  lemma IPv6Payload(p: Packet, h: IPv6Header, s: Segment, trailer: seq<byte>)
    requires IPv6Fits(h) && SegmentFits(s) && h.nextHeader == Proto(s) && h.payloadLen == |SegmentBytes(s)|
    ensures OnIPv6(p, IPv6Bytes(h) + (SegmentBytes(s) + trailer)) == Outcome(Filled(p.(ipv6 := Some(h)), s), Fine)
  {
    var more := SegmentBytes(s) + trailer;
    var b := IPv6Bytes(h) + more;
    IPv6Inverse(h, more);
    Middle(IPv6Bytes(h), SegmentBytes(s), trailer);
    assert b[0] / 16 == 6;
    SegmentInverse(p.(ipv6 := Some(h)), s);
    hide OnL4;
    hide IPv6In;
    hide IPv6Bytes;
    hide SegmentBytes;
  }

  /** The same for IPv6. */
  lemma IPv6FrameInverse(e: EthernetFrame, h: IPv6Header, s: Segment, trailer: seq<byte>, ts: Time)
    requires EthernetFits(e) && e.etherType == ETHERTYPE_IPV6 && IPv6Fits(h) && SegmentFits(s)
    requires h.nextHeader == Proto(s) && h.payloadLen == |SegmentBytes(s)|
    ensures var raw := EthernetBytes(e) + (IPv6Bytes(h) + (SegmentBytes(s) + trailer));
            Dissect(raw, ts) == Made(Outcome(Filled(Linked(e, raw, ts).(ipv6 := Some(h)), s), Fine))
  {
    hide *;
    var b := IPv6Bytes(h) + (SegmentBytes(s) + trailer);
    var raw := EthernetBytes(e) + b;
    EthernetInverse(e, b, ts);
    IPv6Payload(Linked(e, raw, ts), h, s, trailer);
    Dispatched(raw, ts, e, b);
  }

  /** The same for ARP; whatever follows the packet is its payload. */
  lemma ARPFrameInverse(e: EthernetFrame, a: ARPHeader, trailer: seq<byte>, ts: Time)
    requires EthernetFits(e) && e.etherType == ETHERTYPE_ARP && ARPFits(a)
    ensures var raw := EthernetBytes(e) + (ARPBytes(a) + trailer);
            Dissect(raw, ts) == Made(Outcome(Linked(e, raw, ts).(arp := Some(a), payload := trailer), Fine))
  {
    var b := ARPBytes(a) + trailer;
    EthernetInverse(e, b, ts);
    ARPInverse(a, trailer);
    assert From(b, ARP_SIZE) == trailer;
    hide ARPIn;
    hide ARPBytes;
    hide From;
    hide EthernetBytes;
    hide LinkOnly;
  }
}
