/**
 The packet dissector of internal/net/dissect.go (section 3.1 of RFC 791,
 section 3 of RFC 8200, section 3.1 of RFC 9293, RFC 768): what it makes of
 the bytes as functions on packet values, and the layer functions that fill
 in one shared packet record.
 */
module Dissector {
  import opened Prelude
  import opened Bytes
  import opened Clock
  import opened Packets

  datatype Error = TooShort(have: nat) | TruncatedIPv4(have: nat) | BadVersion4(version: nat)
                 | BadHeaderLength(length: nat) | TruncatedIPv6(have: nat) | BadVersion6(version: nat)
                 | TruncatedARP(have: nat)

  /** How a layer function ends; `Panic` is a slice taken with its bounds crossed. */
  datatype Step = Fine | Erred(error: Error) | Panic

  /** The packet as far as it was filled in, and how dissection ended. */
  datatype Outcome = Outcome(pkt: Packet, step: Step)

  /** Too short for a link-layer header, or a dissection that at least made a packet. */
  datatype Result = NoPacket(error: Error) | Made(outcome: Outcome)

  const ETHERNET_SIZE: nat := 14
  const IPV4_MIN: nat := 20
  const IPV6_SIZE: nat := 40
  const ARP_SIZE: nat := 28
  const TCP_MIN: nat := 20
  const UDP_SIZE: nat := 8
  const ICMP_SIZE: nat := 4

  // Numbers in network byte order

  function Be16(b: seq<byte>, i: nat): (n: nat)
    requires i + 2 <= |b|
    ensures n < U16
  {
    var high: nat := b[i];
    256 * high + b[i + 1]
  }

  function Be32(b: seq<byte>, i: nat): (n: nat)
    requires i + 4 <= |b|
    ensures n < U32
  {
    U16 * Be16(b, i) + Be16(b, i + 2)
  }

  /** `net.IPv4`: the 16-byte form of an IPv4 address. */
  function Mapped(a: seq<byte>): (ip: Address)
    ensures |ip| == 12 + |a|
  {
    [0, 0, 0, 0, 0, 0, 0, 0, 0, 0, 255, 255] + a
  }

  // Transport layer

  /** The header length a segment claims, or the minimum when the claim is out of range. */
  function DataOffset(b: seq<byte>): (n: nat)
    requires |b| >= TCP_MIN
    ensures TCP_MIN <= n <= |b|
  {
    var claimed := b[12] / 16 * 4;
    if claimed > |b| || claimed < TCP_MIN then TCP_MIN else claimed
  }

  function TCPIn(b: seq<byte>): TCPHeader
    requires |b| >= TCP_MIN
  {
    TCPHeader(Be16(b, 0), Be16(b, 2), Be32(b, 4), Be32(b, 8), DataOffset(b) / 4, b[13],
              Be16(b, 14), Be16(b, 16), Be16(b, 18))
  }

  function UDPIn(b: seq<byte>): UDPHeader
    requires |b| >= UDP_SIZE
  {
    UDPHeader(Be16(b, 0), Be16(b, 2), Be16(b, 4), Be16(b, 6))
  }

  function ICMPIn(b: seq<byte>): ICMPHeader
    requires |b| >= ICMP_SIZE
  {
    ICMPHeader(b[0], b[1], Be16(b, 2))
  }

  /** `dissectL4`. A segment too short for its header stays payload; the UDP length field clips nothing. */
  function OnL4(pkt: Packet, proto: nat, b: seq<byte>): Packet {
    if proto == PROTO_TCP && |b| >= TCP_MIN then
      pkt.(tcp := Some(TCPIn(b)), payload := From(b, DataOffset(b)))
    else if proto == PROTO_UDP && |b| >= UDP_SIZE then
      pkt.(udp := Some(UDPIn(b)), payload := From(b, UDP_SIZE))
    else if proto == PROTO_ICMP && |b| >= ICMP_SIZE then
      pkt.(icmp := Some(ICMPIn(b)), payload := From(b, ICMP_SIZE))
    else
      pkt.(payload := b)
  }

  // Network layer

  function Min(a: nat, b: nat): nat {
    if a < b then a else b
  }

  /** The header in `b`, with the total length cut down to what there is. */
  function IPv4In(b: seq<byte>): IPv4Header
    requires |b| >= IPV4_MIN
  {
    IPv4Header(b[0] / 16, b[0] % 16, b[1] / 4, b[1] % 4, Min(Be16(b, 2), |b|), Be16(b, 4), b[6] / 32,
               Be16(b, 6) % 0x2000, b[8], b[9], Be16(b, 10), Mapped(b[12..16]), Mapped(b[16..20]))
  }

  function OnIPv4(pkt: Packet, b: seq<byte>): Outcome {
    if |b| < IPV4_MIN then Outcome(pkt.(payload := b), Erred(TruncatedIPv4(|b|)))
    else if b[0] / 16 != 4 then Outcome(pkt.(payload := b), Erred(BadVersion4(b[0] / 16)))
    else
      var headerLen := b[0] % 16 * 4;
      if |b| < headerLen || headerLen < IPV4_MIN then Outcome(pkt.(payload := b), Erred(BadHeaderLength(headerLen)))
      else
        var h := IPv4In(b);
        var filled := pkt.(ipv4 := Some(h));
        if h.totalLength < headerLen then Outcome(filled, Panic)
        else Outcome(OnL4(filled, h.protocol, b[headerLen..h.totalLength]), Fine)
  }

  function IPv6In(b: seq<byte>): IPv6Header
    requires |b| >= IPV6_SIZE
  {
    IPv6Header(b[0] / 16, b[0] % 16 * 16 + b[1] / 16, b[1] % 16 * U16 + Be16(b, 2), Be16(b, 4), b[6], b[7],
               b[8..24], b[24..40])
  }

  function OnIPv6(pkt: Packet, b: seq<byte>): Outcome {
    if |b| < IPV6_SIZE then Outcome(pkt.(payload := b), Erred(TruncatedIPv6(|b|)))
    else if b[0] / 16 != 6 then Outcome(pkt.(payload := b), Erred(BadVersion6(b[0] / 16)))
    else
      var h := IPv6In(b);
      var end := Min(|b|, IPV6_SIZE + h.payloadLen);
      Outcome(OnL4(pkt.(ipv6 := Some(h)), h.nextHeader, b[IPV6_SIZE..end]), Fine)
  }

  function ARPIn(b: seq<byte>): ARPHeader
    requires |b| >= ARP_SIZE
  {
    ARPHeader(Be16(b, 0), Be16(b, 2), b[4], b[5], Be16(b, 6), b[8..14], Mapped(b[14..18]),
              b[18..24], Mapped(b[24..28]))
  }

  function OnARP(pkt: Packet, b: seq<byte>): Outcome {
    if |b| < ARP_SIZE then Outcome(pkt.(payload := b), Erred(TruncatedARP(|b|)))
    else Outcome(pkt.(arp := Some(ARPIn(b)), payload := From(b, ARP_SIZE)), Fine)
  }

  // The frame

  /** A packet with only its link layer filled in. */
  function LinkOnly(raw: seq<byte>, ts: Time): Packet
    requires |raw| >= ETHERNET_SIZE
  {
    Packet(ts, raw, EthernetFrame(raw[0..6], raw[6..12], Be16(raw, 12)), None, None, None, None, None, None, [])
  }

  /** `DissectWithTimestamp`. */
  function Dissect(raw: seq<byte>, ts: Time): Result {
    if |raw| < ETHERNET_SIZE then NoPacket(TooShort(|raw|))
    else
      var pkt := LinkOnly(raw, ts);
      var b := From(raw, ETHERNET_SIZE);
      var kind := pkt.ethernet.etherType;
      Made(if kind == ETHERTYPE_IPV4 then OnIPv4(pkt, b)
           else if kind == ETHERTYPE_IPV6 then OnIPv6(pkt, b)
           else if kind == ETHERTYPE_ARP then OnARP(pkt, b)
           else Outcome(pkt.(payload := b), Fine))
  }

  // The record the layer functions share

  class PacketRecord {
    var ts: Time
    var raw: seq<byte>
    var ethernet: EthernetFrame
    var ipv4: Option<IPv4Header>
    var ipv6: Option<IPv6Header>
    var arp: Option<ARPHeader>
    var tcp: Option<TCPHeader>
    var udp: Option<UDPHeader>
    var icmp: Option<ICMPHeader>
    var payload: seq<byte>

    constructor (raw: seq<byte>, ts: Time)
      requires |raw| >= ETHERNET_SIZE
      ensures View() == LinkOnly(raw, ts)
    {
      this.ts, this.raw := ts, raw;
      ethernet := EthernetFrame(raw[0..6], raw[6..12], Be16(raw, 12));
      ipv4, ipv6, arp, tcp, udp, icmp := None, None, None, None, None, None;
      payload := [];
    }

    function View(): Packet
      reads this
    {
      Packet(ts, raw, ethernet, ipv4, ipv6, arp, tcp, udp, icmp, payload)
    }

    method DissectL4(proto: nat, b: seq<byte>)
      modifies this`tcp, this`udp, this`icmp, this`payload
      ensures View() == OnL4(old(View()), proto, b)
    {
      if proto == PROTO_TCP {
        if |b| < TCP_MIN {
          payload := b;
          return;
        }
        var dataOffset := b[12] / 16 * 4;
        if dataOffset > |b| || dataOffset < TCP_MIN {
          dataOffset := TCP_MIN;
        }
        tcp := Some(TCPHeader(Be16(b, 0), Be16(b, 2), Be32(b, 4), Be32(b, 8), dataOffset / 4, b[13],
                              Be16(b, 14), Be16(b, 16), Be16(b, 18)));
        if dataOffset <= |b| {
          payload := b[dataOffset..];
        }
      } else if proto == PROTO_UDP {
        if |b| < UDP_SIZE {
          payload := b;
          return;
        }
        udp := Some(UDPHeader(Be16(b, 0), Be16(b, 2), Be16(b, 4), Be16(b, 6)));
        if |b| >= UDP_SIZE {
          payload := b[UDP_SIZE..];
        }
      } else if proto == PROTO_ICMP {
        if |b| < ICMP_SIZE {
          payload := b;
          return;
        }
        icmp := Some(ICMPHeader(b[0], b[1], Be16(b, 2)));
        if |b| >= ICMP_SIZE {
          payload := b[ICMP_SIZE..];
        }
      } else {
        payload := b;
      }
    }

    method DissectIPv4(b: seq<byte>) returns (step: Step)
      modifies this`ipv4, this`tcp, this`udp, this`icmp, this`payload
      ensures Outcome(View(), step) == OnIPv4(old(View()), b)
    {
      hide OnL4;
      if |b| < IPV4_MIN {
        payload := b;
        return Erred(TruncatedIPv4(|b|));
      }
      var version := b[0] / 16;
      if version != 4 {
        payload := b;
        return Erred(BadVersion4(version));
      }
      var ihl := b[0] % 16;
      var headerLen := ihl * 4;
      if |b| < headerLen || headerLen < IPV4_MIN {
        payload := b;
        return Erred(BadHeaderLength(headerLen));
      }
      var totalLen := Be16(b, 2);
      if totalLen > |b| {
        totalLen := |b|;
      }
      ipv4 := Some(IPv4Header(version, ihl, b[1] / 4, b[1] % 4, totalLen, Be16(b, 4), b[6] / 32,
                              Be16(b, 6) % 0x2000, b[8], b[9], Be16(b, 10), Mapped(b[12..16]), Mapped(b[16..20])));
      if totalLen < headerLen {
        return Panic;
      }
      DissectL4(b[9], b[headerLen..totalLen]);
      step := Fine;
    }

    method DissectIPv6(b: seq<byte>) returns (step: Step)
      modifies this`ipv6, this`tcp, this`udp, this`icmp, this`payload
      ensures Outcome(View(), step) == OnIPv6(old(View()), b)
    {
      hide OnL4;
      if |b| < IPV6_SIZE {
        payload := b;
        return Erred(TruncatedIPv6(|b|));
      }
      var version := b[0] / 16;
      if version != 6 {
        payload := b;
        return Erred(BadVersion6(version));
      }
      var payloadLen, nextHeader := Be16(b, 4), b[6];
      ipv6 := Some(IPv6Header(version, b[0] % 16 * 16 + b[1] / 16, b[1] % 16 * U16 + Be16(b, 2),
                              payloadLen, nextHeader, b[7], b[8..24], b[24..40]));
      var l4Payload := b[IPV6_SIZE..];
      if payloadLen < |l4Payload| {
        l4Payload := l4Payload[..payloadLen];
      }
      assert l4Payload == b[IPV6_SIZE..Min(|b|, IPV6_SIZE + payloadLen)];
      DissectL4(nextHeader, l4Payload);
      step := Fine;
    }

    method DissectARP(b: seq<byte>) returns (step: Step)
      modifies this`arp, this`payload
      ensures Outcome(View(), step) == OnARP(old(View()), b)
    {
      if |b| < ARP_SIZE {
        payload := b;
        return Erred(TruncatedARP(|b|));
      }
      arp := Some(ARPHeader(Be16(b, 0), Be16(b, 2), b[4], b[5], Be16(b, 6), b[8..14], Mapped(b[14..18]),
                            b[18..24], Mapped(b[24..28])));
      payload := b[ARP_SIZE..];
      step := Fine;
    }
  }

  /** The entry point: one record, filled in by the layer its EtherType names. */
  method DissectWithTimestamp(raw: seq<byte>, ts: Time) returns (r: Result)
    ensures r == Dissect(raw, ts)
  {
    hide OnIPv4;
    hide OnIPv6;
    hide OnARP;
    if |raw| < ETHERNET_SIZE {
      return NoPacket(TooShort(|raw|));
    }
    var pkt := new PacketRecord(raw, ts);
    var b := raw[ETHERNET_SIZE..];
    var step := Fine;
    if pkt.ethernet.etherType == ETHERTYPE_IPV4 {
      step := pkt.DissectIPv4(b);
    } else if pkt.ethernet.etherType == ETHERTYPE_IPV6 {
      step := pkt.DissectIPv6(b);
    } else if pkt.ethernet.etherType == ETHERTYPE_ARP {
      step := pkt.DissectARP(b);
    } else {
      pkt.payload := b;
    }
    r := Made(Outcome(pkt.View(), step));
  }
}
