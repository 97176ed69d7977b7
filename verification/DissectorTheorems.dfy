/**
 What the dissector keeps: which layers can be set together, where the payload
 lies in the frame, exactly when a slice is taken out of range, and that it
 inverts serialisation.
 */
module DissectorTheorems {
  import opened Prelude
  import opened Bytes
  import opened Clock
  import opened Packets
  import opened Dissector

  // Totality

  /** An IPv4 header whose total length is shorter than the header itself. */
  predicate LengthUnderHeader(raw: seq<byte>) {
    && |raw| >= ETHERNET_SIZE + IPV4_MIN
    && Be16(raw, 12) == ETHERTYPE_IPV4
    && raw[14] / 16 == 4
    && IPV4_MIN <= raw[14] % 16 * 4 <= |raw| - ETHERNET_SIZE
    && Be16(raw, 16) < raw[14] % 16 * 4
  }

  /** Dissection takes a slice with crossed bounds exactly for such headers, and is total otherwise. */
  lemma PanicsExactly(raw: seq<byte>, ts: Time)
    ensures (Dissect(raw, ts).Made? && Dissect(raw, ts).outcome.step.Panic?) <==> LengthUnderHeader(raw)
  {
    hide OnL4;
    if |raw| >= ETHERNET_SIZE + IPV4_MIN {
      var b := From(raw, ETHERNET_SIZE);
      assert b[0] == raw[14] && b[2] == raw[16] && b[3] == raw[17];
      assert Be16(b, 2) == Be16(raw, 16);
    }
  }

  /** The least frame that does it: an IPv4 header that says it is 20 bytes long, in a packet that says it is empty. */
  lemma EmptyPacketPanics(ts: Time)
    ensures var frame := seq(12, _ => 0) + [0x08, 0x00, 0x45] + seq(19, _ => 0);
            && |frame| == ETHERNET_SIZE + IPV4_MIN
            && Dissect(frame, ts).Made? && Dissect(frame, ts).outcome.step.Panic?
  {
    var frame := seq(12, _ => 0) + [0x08, 0x00, 0x45] + seq(19, _ => 0);
    assert frame[12] == 8 && frame[13] == 0 && frame[14] == 0x45 && frame[16] == 0 && frame[17] == 0;
    assert LengthUnderHeader(frame);
    hide Dissect;
    PanicsExactly(frame, ts);
  }

  // Every outcome, on the raw frame

  /**
   How the dissection of a frame with a link header ends, by positions in the
   frame: the EtherType, the version and header length nibbles, the IPv4 total
   length, and how many bytes there are.
   */
  function StepOf(raw: seq<byte>): Step
    requires |raw| >= 14
  {
    var n := |raw| - 14;
    match Be16(raw, 12)
    case 0x0800 =>
      if n < 20 then Erred(TruncatedIPv4(n))
      else if raw[14] / 16 != 4 then Erred(BadVersion4(raw[14] / 16))
      else if raw[14] % 16 < 5 || n < 4 * (raw[14] % 16) then Erred(BadHeaderLength(4 * (raw[14] % 16)))
      else if Be16(raw, 16) < 4 * (raw[14] % 16) then Panic
      else Fine
    case 0x86DD =>
      if n < 40 then Erred(TruncatedIPv6(n))
      else if raw[14] / 16 != 6 then Erred(BadVersion6(raw[14] / 16))
      else Fine
    case 0x0806 => if n < 28 then Erred(TruncatedARP(n)) else Fine
    case _ => Fine
  }

  /**
   Every frame of 14 bytes or more makes a packet, with the two addresses and
   the EtherType at their places; how dissection ends is as given above; and
   when it ends in an error the packet has no other layer and the bytes behind
   the link header for payload.
   */
  lemma OutcomeExactly(raw: seq<byte>, ts: Time)
    ensures |raw| < 14 ==> Dissect(raw, ts) == NoPacket(TooShort(|raw|))
    ensures |raw| >= 14 ==>
              && Dissect(raw, ts).Made?
              && var o := Dissect(raw, ts).outcome;
                 && o.step == StepOf(raw)
                 && o.pkt.raw == raw && o.pkt.ts == ts
                 && o.pkt.ethernet == EthernetFrame(raw[0..6], raw[6..12], Be16(raw, 12))
                 && (o.step.Erred? ==>
                       && o.pkt.payload == raw[14..] && o.pkt.ipv4.None? && o.pkt.ipv6.None? && o.pkt.arp.None?
                       && o.pkt.tcp.None? && o.pkt.udp.None? && o.pkt.icmp.None?)
  {
    if |raw| >= ETHERNET_SIZE {
      var b := From(raw, ETHERNET_SIZE);
      if |b| >= IPV4_MIN {
        assert b[0] == raw[14] && b[2] == raw[16] && b[3] == raw[17];
        assert Be16(b, 2) == Be16(raw, 16);
      }
      hide From;
      hide Be16;
      hide Mapped;
      hide TCPIn;
      hide UDPIn;
      hide ICMPIn;
      hide DataOffset;
    }
  }

  // Layers

  function Count(a: bool, b: bool, c: bool): nat {
    (if a then 1 else 0) + (if b then 1 else 0) + (if c then 1 else 0)
  }

  /** At most one network layer, at most one transport layer, and the latter only under IP. */
  predicate Layered(p: Packet) {
    && Count(p.ipv4.Some?, p.ipv6.Some?, p.arp.Some?) <= 1
    && Count(p.tcp.Some?, p.udp.Some?, p.icmp.Some?) <= 1
    && (p.tcp.Some? || p.udp.Some? || p.icmp.Some? ==> p.ipv4.Some? || p.ipv6.Some?)
  }

  /** Whatever the bytes and however dissection ends, the packet is layered and keeps its frame and time. */
  lemma AlwaysLayered(raw: seq<byte>, ts: Time)
    requires Dissect(raw, ts).Made?
    ensures var p := Dissect(raw, ts).outcome.pkt;
            Layered(p) && p.raw == raw && p.ts == ts
  {
    hide From;
    hide Be16;
    hide TCPIn;
    hide IPv4In;
    hide IPv6In;
    hide ARPIn;
    hide DataOffset;
  }

  // The payload

  /** Bytes of headers, as far as they were decoded. */
  function HeaderBytes(p: Packet): nat {
    ETHERNET_SIZE
    + (if p.ipv4.Some? then p.ipv4.value.ihl * 4 else 0)
    + (if p.ipv6.Some? then IPV6_SIZE else 0)
    + (if p.arp.Some? then ARP_SIZE else 0)
    + (if p.tcp.Some? then p.tcp.value.dataOffset * 4 else 0)
    + (if p.udp.Some? then UDP_SIZE else 0)
    + (if p.icmp.Some? then ICMP_SIZE else 0)
  }

  /** Where the network layer says the packet ends; without one, at the end of the frame. */
  function PacketEnd(p: Packet): nat {
    if p.ipv4.Some? then ETHERNET_SIZE + p.ipv4.value.totalLength
    else if p.ipv6.Some? then Min(|p.raw|, ETHERNET_SIZE + IPV6_SIZE + p.ipv6.value.payloadLen)
    else |p.raw|
  }

  /** `b` is the part of the frame from `from` to `to`. */
  ghost predicate Window(raw: seq<byte>, from: nat, to: nat, b: seq<byte>) {
    from <= to <= |raw| && b == raw[from..to]
  }

  lemma Narrow(raw: seq<byte>, from: nat, to: nat, b: seq<byte>, n: nat)
    requires Window(raw, from, to, b) && n <= |b|
    ensures Window(raw, from + n, to, From(b, n))
  {
  }

  lemma Inner(raw: seq<byte>, from: nat, to: nat, b: seq<byte>, i: nat, j: nat)
    requires Window(raw, from, to, b) && i <= j <= |b|
    ensures Window(raw, from + i, from + j, b[i..j])
  {
    var x, y := b[i..j], raw[from + i..from + j];
    forall k | 0 <= k < j - i ensures x[k] == y[k] {
    }
  }

  /** The payload is the frame from the end of the headers to the end of the packet. */
  ghost predicate Tiled(p: Packet) {
    Window(p.raw, HeaderBytes(p), PacketEnd(p), p.payload)
  }

  /** When the segment handed to the transport layer is a window of the frame, so is the payload it leaves. */
  lemma SegmentTiles(pkt: Packet, proto: nat, b: seq<byte>)
    requires pkt.tcp.None? && pkt.udp.None? && pkt.icmp.None?
    requires Window(pkt.raw, HeaderBytes(pkt), PacketEnd(pkt), b)
    ensures Tiled(OnL4(pkt, proto, b))
  {
    hide From;
    hide Window;
    hide Be16;
    hide Be32;
    var n, end := HeaderBytes(pkt), PacketEnd(pkt);
    if proto == PROTO_TCP && |b| >= TCP_MIN {
      OffsetWords(b);
      hide DataOffset;
      Narrow(pkt.raw, n, end, b, DataOffset(b));
    } else if proto == PROTO_UDP && |b| >= UDP_SIZE {
      Narrow(pkt.raw, n, end, b, UDP_SIZE);
    } else if proto == PROTO_ICMP && |b| >= ICMP_SIZE {
      Narrow(pkt.raw, n, end, b, ICMP_SIZE);
    }
  }

  lemma OffsetWords(b: seq<byte>)
    requires |b| >= TCP_MIN
    ensures DataOffset(b) / 4 * 4 == DataOffset(b)
  {
  }

  lemma Tail(raw: seq<byte>, n: nat)
    requires n <= |raw|
    ensures Window(raw, n, |raw|, From(raw, n))
  {
  }

  /** On success headers, payload and clipped trailer tile the frame. */
  lemma PayloadTiles(raw: seq<byte>, ts: Time)
    requires Dissect(raw, ts).Made? && Dissect(raw, ts).outcome.step.Fine?
    ensures Tiled(Dissect(raw, ts).outcome.pkt)
  {
    hide From;
    hide Window;
    hide OnL4;
    hide Be16;
    var link := LinkOnly(raw, ts);
    var b := From(raw, ETHERNET_SIZE);
    var kind := link.ethernet.etherType;
    Tail(raw, ETHERNET_SIZE);
    if kind == ETHERTYPE_IPV4 {
      var h := IPv4In(b);
      Inner(raw, ETHERNET_SIZE, |raw|, b, h.ihl * 4, h.totalLength);
      SegmentTiles(link.(ipv4 := Some(h)), h.protocol, b[h.ihl * 4..h.totalLength]);
    } else if kind == ETHERTYPE_IPV6 {
      var h := IPv6In(b);
      var end := Min(|b|, IPV6_SIZE + h.payloadLen);
      Inner(raw, ETHERNET_SIZE, |raw|, b, IPV6_SIZE, end);
      SegmentTiles(link.(ipv6 := Some(h)), h.nextHeader, b[IPV6_SIZE..end]);
    } else if kind == ETHERTYPE_ARP {
      Narrow(raw, ETHERNET_SIZE, |raw|, b, ARP_SIZE);
    }
  }
}
