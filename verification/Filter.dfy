/**
 The packet filter of internal/net/filter.go, and what matching a dissected
 packet says about the raw frame.
 */
module Filter {
  import opened Prelude
  import opened Bytes
  import opened Clock
  import opened Packets
  import opened Subnets
  import opened Dissector

  /** Zero ports, an empty protocol and absent addresses stand for any. */
  datatype PacketFilter = PacketFilter(protocol: string, port: nat, srcPort: nat, dstPort: nat,
                                       host: Option<Address>, cidr: Option<Cidr>)

  predicate Valid(f: PacketFilter) {
    f.cidr.Some? ==> f.cidr.value.Valid()
  }

  /** `IsEmpty` of a filter that is there. */
  predicate IsEmpty(f: PacketFilter) {
    f.protocol == "" && f.port == 0 && f.srcPort == 0 && f.dstPort == 0 && f.host.None? && f.cidr.None?
  }

  // What a filter asks of a packet

  predicate ProtocolOk(name: string, tcp: bool, udp: bool, icmp: bool, arp: bool, ipv4: bool, ipv6: bool) {
    || name == ""
    || (name == "tcp" && tcp) || (name == "udp" && udp) || (name == "icmp" && icmp) || (name == "arp" && arp)
    || ((name == "ip" || name == "ipv4") && ipv4) || (name == "ipv6" && ipv6)
  }

  /** The ports of the packet's transport header, if it has one with ports. */
  function Ports(p: Packet): Option<(nat, nat)> {
    if p.tcp.Some? then Some((p.tcp.value.srcPort, p.tcp.value.dstPort))
    else if p.udp.Some? then Some((p.udp.value.srcPort, p.udp.value.dstPort))
    else None
  }

  /** The addresses of the packet's IP header, if it has one. */
  function Hosts(p: Packet): Option<(Address, Address)> {
    if p.ipv4.Some? then Some((p.ipv4.value.srcIP, p.ipv4.value.dstIP))
    else if p.ipv6.Some? then Some((p.ipv6.value.srcIP, p.ipv6.value.dstIP))
    else None
  }

  predicate HostsOk(f: PacketFilter, hosts: Option<(Address, Address)>)
    requires Valid(f)
  {
    && (f.host.Some? ==> hosts.Some? && (Equal(hosts.value.0, f.host.value) || Equal(hosts.value.1, f.host.value)))
    && (f.cidr.Some? ==>
          hosts.Some? && (Contains(f.cidr.value, hosts.value.0) || Contains(f.cidr.value, hosts.value.1)))
  }

  /** The port criteria; a source or destination port must fit every transport header there is. */
  predicate PacketPortsOk(f: PacketFilter, p: Packet) {
    && (f.port != 0 ==> Ports(p).Some? && f.port in {Ports(p).value.0, Ports(p).value.1})
    && (f.srcPort != 0 ==>
          && Ports(p).Some?
          && (p.tcp.Some? ==> p.tcp.value.srcPort == f.srcPort) && (p.udp.Some? ==> p.udp.value.srcPort == f.srcPort))
    && (f.dstPort != 0 ==>
          && Ports(p).Some?
          && (p.tcp.Some? ==> p.tcp.value.dstPort == f.dstPort) && (p.udp.Some? ==> p.udp.value.dstPort == f.dstPort))
  }

  /** All criteria at once. */
  predicate Accepts(f: PacketFilter, p: Packet)
    requires Valid(f)
  {
    && ProtocolOk(f.protocol, p.tcp.Some?, p.udp.Some?, p.icmp.Some?, p.arp.Some?, p.ipv4.Some?, p.ipv6.Some?)
    && PacketPortsOk(f, p)
    && HostsOk(f, Hosts(p))
  }

  /** A filter that says nothing stops no packet. */
  lemma EmptyAcceptsAll(f: PacketFilter, p: Packet)
    requires Valid(f)
    ensures IsEmpty(f) ==> Accepts(f, p)
  {
  }

  /** `IPNet.Contains`, byte by byte. */
  method ContainsIP(c: Cidr, ip: Address) returns (inside: bool)
    requires c.Valid()
    ensures inside == Contains(c, ip)
  {
    hide Masked;
    hide Ones;
    hide Canonical;
    var net, x := c.Net(), Canonical(ip);
    if |x| != |net| {
      return false;
    }
    var i := 0;
    while i < |net|
      invariant i <= |net|
      invariant forall j :: 0 <= j < i ==>
        Masked(net[j], Ones(c.prefix, j + c.Skipped())) == Masked(x[j], Ones(c.prefix, j + c.Skipped()))
    {
      var ones := Ones(c.prefix, i + c.Skipped());
      if Masked(net[i], ones) != Masked(x[i], ones) {
        return false;
      }
      i := i + 1;
    }
    inside := true;
  }

  /**
   `Matches`, criterion by criterion. A missing or empty filter matches
   everything, even a missing packet.
   */
  method Matches(filter: Option<PacketFilter>, packet: Option<Packet>) returns (ok: bool)
    requires filter.Some? ==> Valid(filter.value)
    ensures ok <==> filter.None? || IsEmpty(filter.value) || (packet.Some? && Accepts(filter.value, packet.value))
  {
    hide HostsOk;
    hide PacketPortsOk;
    if filter.None? || IsEmpty(filter.value) {
      return true;
    }
    if packet.None? {
      return false;
    }
    var f, p := filter.value, packet.value;
    if f.protocol != "" {
      if f.protocol == "tcp" {
        if p.tcp.None? { return false; }
      } else if f.protocol == "udp" {
        if p.udp.None? { return false; }
      } else if f.protocol == "icmp" {
        if p.icmp.None? { return false; }
      } else if f.protocol == "arp" {
        if p.arp.None? { return false; }
      } else if f.protocol == "ip" || f.protocol == "ipv4" {
        if p.ipv4.None? { return false; }
      } else if f.protocol == "ipv6" {
        if p.ipv6.None? { return false; }
      } else {
        return false;
      }
    }
    assert ProtocolOk(f.protocol, p.tcp.Some?, p.udp.Some?, p.icmp.Some?, p.arp.Some?, p.ipv4.Some?, p.ipv6.Some?);
    var ports := MatchesPorts(f, p);
    if !ports {
      return false;
    }
    ok := MatchesHosts(f, p);
  }

  method MatchesPorts(f: PacketFilter, p: Packet) returns (ok: bool)
    ensures ok == PacketPortsOk(f, p)
  {
    if f.port != 0 {
      var matched := false;
      if p.tcp.Some? {
        if p.tcp.value.srcPort == f.port || p.tcp.value.dstPort == f.port {
          matched := true;
        }
      } else if p.udp.Some? {
        if p.udp.value.srcPort == f.port || p.udp.value.dstPort == f.port {
          matched := true;
        }
      }
      if !matched {
        return false;
      }
    }
    if f.srcPort != 0 {
      if (p.tcp.Some? && p.tcp.value.srcPort != f.srcPort)
         || (p.udp.Some? && p.udp.value.srcPort != f.srcPort)
         || (p.tcp.None? && p.udp.None?) {
        return false;
      }
    }
    if f.dstPort != 0 {
      if (p.tcp.Some? && p.tcp.value.dstPort != f.dstPort)
         || (p.udp.Some? && p.udp.value.dstPort != f.dstPort)
         || (p.tcp.None? && p.udp.None?) {
        return false;
      }
    }
    ok := true;
  }

  method MatchesHosts(f: PacketFilter, p: Packet) returns (ok: bool)
    requires Valid(f)
    ensures ok == HostsOk(f, Hosts(p))
  {
    hide Contains;
    hide Equal;
    if f.host.Some? {
      var matched := false;
      if p.ipv4.Some? {
        matched := Equal(p.ipv4.value.srcIP, f.host.value) || Equal(p.ipv4.value.dstIP, f.host.value);
      } else if p.ipv6.Some? {
        matched := Equal(p.ipv6.value.srcIP, f.host.value) || Equal(p.ipv6.value.dstIP, f.host.value);
      }
      if !matched {
        return false;
      }
    }
    if f.cidr.Some? {
      var matched := false;
      if p.ipv4.Some? {
        var src := ContainsIP(f.cidr.value, p.ipv4.value.srcIP);
        var dst := ContainsIP(f.cidr.value, p.ipv4.value.dstIP);
        matched := src || dst;
      } else if p.ipv6.Some? {
        var src := ContainsIP(f.cidr.value, p.ipv6.value.srcIP);
        var dst := ContainsIP(f.cidr.value, p.ipv6.value.dstIP);
        matched := src || dst;
      }
      if !matched {
        return false;
      }
    }
    ok := true;
  }

  // The same question asked of the raw frame

  predicate IsV4(raw: seq<byte>)
    requires |raw| >= ETHERNET_SIZE
  {
    Be16(raw, 12) == ETHERTYPE_IPV4
  }

  predicate IsV6(raw: seq<byte>)
    requires |raw| >= ETHERNET_SIZE
  {
    Be16(raw, 12) == ETHERTYPE_IPV6
  }

  /** Long enough for the network header its EtherType names, which dissection checks. */
  predicate HasHeaders(raw: seq<byte>) {
    && |raw| >= ETHERNET_SIZE
    && (IsV4(raw) ==> |raw| >= 34 && 34 <= SegmentStart(raw) <= SegmentEnd(raw) <= |raw|)
    && (IsV6(raw) ==> |raw| >= 54)
    && (Be16(raw, 12) == ETHERTYPE_ARP ==> |raw| >= 42)
  }

  /** First byte after the network header: by the header length nibble, or the fixed IPv6 size. */
  function SegmentStart(raw: seq<byte>): nat
    requires |raw| >= ETHERNET_SIZE + 1
  {
    if IsV4(raw) then ETHERNET_SIZE + raw[14] % 16 * 4 else ETHERNET_SIZE + IPV6_SIZE
  }

  /** Where the lengths in the network header, or the frame, end the segment. */
  function SegmentEnd(raw: seq<byte>): nat
    requires |raw| >= 34
  {
    if IsV4(raw) then Min(|raw|, ETHERNET_SIZE + Be16(raw, 16))
    else Min(|raw|, ETHERNET_SIZE + IPV6_SIZE + Be16(raw, 18))
  }

  /** The frame is IP and carries protocol `proto` with at least `size` bytes of segment. */
  predicate Carries(raw: seq<byte>, proto: nat, size: nat)
    requires HasHeaders(raw)
  {
    || (IsV4(raw) && raw[23] == proto && SegmentStart(raw) + size <= SegmentEnd(raw))
    || (IsV6(raw) && raw[20] == proto && SegmentStart(raw) + size <= SegmentEnd(raw))
  }

  function RawPorts(raw: seq<byte>): Option<(nat, nat)>
    requires HasHeaders(raw)
  {
    if Carries(raw, PROTO_TCP, TCP_MIN) || Carries(raw, PROTO_UDP, UDP_SIZE) then
      Some((Be16(raw, SegmentStart(raw)), Be16(raw, SegmentStart(raw) + 2)))
    else None
  }

  function RawHosts(raw: seq<byte>): Option<(Address, Address)>
    requires HasHeaders(raw)
  {
    if IsV4(raw) then Some((raw[26..30], raw[30..34]))
    else if IsV6(raw) then Some((raw[22..38], raw[38..54]))
    else None
  }

  /** The protocol named, if any, is there: by IP protocol number and room for the header, or by EtherType. */
  predicate RawProtocol(name: string, raw: seq<byte>)
    requires HasHeaders(raw)
  {
    match name
    case "" => true
    case "tcp" => Carries(raw, 6, 20)
    case "udp" => Carries(raw, 17, 8)
    case "icmp" => Carries(raw, 1, 4)
    case "arp" => Be16(raw, 12) == 0x0806
    case "ip" => Be16(raw, 12) == 0x0800
    case "ipv4" => Be16(raw, 12) == 0x0800
    case "ipv6" => Be16(raw, 12) == 0x86DD
    case _ => false
  }

  /** Both forms of an IPv4 address taken as one, the address is the host. */
  predicate SameHost(ip: Address, host: Address) {
    Canonical(ip) == Canonical(host)
  }

  /** The address has the leading bits of the network. */
  predicate InNetwork(ip: Address, net: Cidr)
    requires net.Valid()
  {
    Agree(net.Net(), Canonical(ip), net.Leading())
  }

  /** The filter's criteria read off the frame at the offsets its headers give. */
  predicate RawAccepts(f: PacketFilter, raw: seq<byte>)
    requires Valid(f) && HasHeaders(raw)
  {
    var ports, hosts := RawPorts(raw), RawHosts(raw);
    && RawProtocol(f.protocol, raw)
    && (f.port != 0 ==> ports.Some? && (f.port == ports.value.0 || f.port == ports.value.1))
    && (f.srcPort != 0 ==> ports.Some? && f.srcPort == ports.value.0)
    && (f.dstPort != 0 ==> ports.Some? && f.dstPort == ports.value.1)
    && (f.host.Some? ==>
          hosts.Some? && (SameHost(hosts.value.0, f.host.value) || SameHost(hosts.value.1, f.host.value)))
    && (f.cidr.Some? ==>
          hosts.Some? && (InNetwork(hosts.value.0, f.cidr.value) || InNetwork(hosts.value.1, f.cidr.value)))
  }

  /** A successful dissection of `raw`. */
  ghost predicate DissectsTo(raw: seq<byte>, ts: Time, p: Packet) {
    Dissect(raw, ts) == Made(Outcome(p, Fine))
  }

  lemma HeadersPresent(raw: seq<byte>, ts: Time, p: Packet)
    requires DissectsTo(raw, ts, p)
    ensures HasHeaders(raw)
  {
    hide OnL4;
    var b := From(raw, ETHERNET_SIZE);
    if |b| >= 4 {
      assert b[0] == raw[14] && Be16(b, 2) == Be16(raw, 16);
    }
  }

  /** The transport header that dissection finds, and its ports, by position in the frame. */
  lemma SegmentFacts(pkt: Packet, proto: nat, raw: seq<byte>, from: nat, to: nat)
    requires pkt.tcp.None? && pkt.udp.None? && pkt.icmp.None? && from <= to <= |raw|
    ensures var p := OnL4(pkt, proto, raw[from..to]);
            && p.ipv4 == pkt.ipv4 && p.ipv6 == pkt.ipv6 && p.arp == pkt.arp
            && p.tcp.Some? == (proto == PROTO_TCP && from + TCP_MIN <= to)
            && p.udp.Some? == (proto == PROTO_UDP && from + UDP_SIZE <= to)
            && p.icmp.Some? == (proto == PROTO_ICMP && from + ICMP_SIZE <= to)
            && (p.tcp.Some? || p.udp.Some? ==> Ports(p) == Some((Be16(raw, from), Be16(raw, from + 2))))
  {
    hide From;
    var b := raw[from..to];
    if |b| >= 8 {
      assert Be16(b, 0) == Be16(raw, from) && Be16(b, 2) == Be16(raw, from + 2);
    }
  }

  /** Which headers a packet has and what the filter reads in them, straight from the frame. */
  ghost predicate Mirrors(raw: seq<byte>, p: Packet)
    requires HasHeaders(raw)
  {
    && p.tcp.Some? == Carries(raw, PROTO_TCP, TCP_MIN)
    && p.udp.Some? == Carries(raw, PROTO_UDP, UDP_SIZE)
    && p.icmp.Some? == Carries(raw, PROTO_ICMP, ICMP_SIZE)
    && p.arp.Some? == (Be16(raw, 12) == ETHERTYPE_ARP)
    && p.ipv4.Some? == IsV4(raw) && p.ipv6.Some? == IsV6(raw) && !(p.tcp.Some? && p.udp.Some?)
    && Ports(p) == RawPorts(raw)
    && Hosts(p).Some? == RawHosts(raw).Some?
    && (IsV4(raw) ==> Hosts(p) == Some((Mapped(raw[26..30]), Mapped(raw[30..34]))))
    && (IsV6(raw) ==> Hosts(p) == RawHosts(raw))
  }

  /** What dissection makes of an IPv4 frame: its header, and the transport layer of the segment behind it. */
  lemma DissectedV4(raw: seq<byte>, ts: Time, p: Packet)
    requires DissectsTo(raw, ts, p) && HasHeaders(raw) && IsV4(raw)
    ensures var h := IPv4In(From(raw, ETHERNET_SIZE));
            && h.srcIP == Mapped(raw[26..30]) && h.dstIP == Mapped(raw[30..34]) && h.protocol == raw[23]
            && SegmentStart(raw) == ETHERNET_SIZE + h.ihl * 4 && SegmentEnd(raw) == ETHERNET_SIZE + h.totalLength
            && SegmentStart(raw) <= SegmentEnd(raw) <= |raw|
            && p == OnL4(LinkOnly(raw, ts).(ipv4 := Some(h)), h.protocol, raw[SegmentStart(raw)..SegmentEnd(raw)])
  {
    hide OnL4;
    var b := From(raw, ETHERNET_SIZE);
    assert b[0] == raw[14] && b[9] == raw[23] && Be16(b, 2) == Be16(raw, 16);
    hide Be16;
    SliceFrom(raw, ETHERNET_SIZE, 12, 16);
    SliceFrom(raw, ETHERNET_SIZE, 16, 20);
    var h := IPv4In(b);
    SliceFrom(raw, ETHERNET_SIZE, h.ihl * 4, h.totalLength);
    hide From;
  }

  lemma LinkAlone(raw: seq<byte>, ts: Time) returns (p: Packet)
    requires |raw| >= ETHERNET_SIZE
    ensures p == LinkOnly(raw, ts)
    ensures p.ipv4.None? && p.ipv6.None? && p.arp.None? && p.tcp.None? && p.udp.None? && p.icmp.None?
  {
    p := LinkOnly(raw, ts);
  }

  lemma MirrorsV4(raw: seq<byte>, ts: Time, p: Packet)
    requires DissectsTo(raw, ts, p) && HasHeaders(raw) && IsV4(raw)
    ensures Mirrors(raw, p)
  {
    hide OnL4;
    hide DissectsTo;
    hide IPv4In;
    hide From;
    hide Be16;
    hide SegmentStart;
    hide SegmentEnd;
    hide Mapped;
    hide LinkOnly;
    DissectedV4(raw, ts, p);
    var h := IPv4In(From(raw, ETHERNET_SIZE));
    var link := LinkAlone(raw, ts);
    SegmentFacts(link.(ipv4 := Some(h)), h.protocol, raw, SegmentStart(raw), SegmentEnd(raw));
  }

  /** The same for IPv6. */
  lemma DissectedV6(raw: seq<byte>, ts: Time, p: Packet)
    requires DissectsTo(raw, ts, p) && HasHeaders(raw) && IsV6(raw)
    ensures var h := IPv6In(From(raw, ETHERNET_SIZE));
            && h.srcIP == raw[22..38] && h.dstIP == raw[38..54] && h.nextHeader == raw[20]
            && SegmentStart(raw) <= SegmentEnd(raw) <= |raw|
            && p == OnL4(LinkOnly(raw, ts).(ipv6 := Some(h)), h.nextHeader, raw[SegmentStart(raw)..SegmentEnd(raw)])
  {
    hide OnL4;
    var b := From(raw, ETHERNET_SIZE);
    assert b[6] == raw[20] && Be16(b, 4) == Be16(raw, 18);
    hide Be16;
    SliceFrom(raw, ETHERNET_SIZE, 8, 24);
    SliceFrom(raw, ETHERNET_SIZE, 24, 40);
    var h := IPv6In(b);
    SliceFrom(raw, ETHERNET_SIZE, IPV6_SIZE, Min(|b|, IPV6_SIZE + h.payloadLen));
    hide From;
  }

  lemma MirrorsV6(raw: seq<byte>, ts: Time, p: Packet)
    requires DissectsTo(raw, ts, p) && HasHeaders(raw) && IsV6(raw)
    ensures Mirrors(raw, p)
  {
    hide OnL4;
    hide DissectsTo;
    hide IPv6In;
    hide From;
    hide Be16;
    hide SegmentStart;
    hide SegmentEnd;
    hide Mapped;
    hide LinkOnly;
    DissectedV6(raw, ts, p);
    var h := IPv6In(From(raw, ETHERNET_SIZE));
    var link := LinkAlone(raw, ts);
    SegmentFacts(link.(ipv6 := Some(h)), h.nextHeader, raw, SegmentStart(raw), SegmentEnd(raw));
  }

  lemma AlwaysMirrors(raw: seq<byte>, ts: Time, p: Packet)
    requires DissectsTo(raw, ts, p) && HasHeaders(raw)
    ensures Mirrors(raw, p)
  {
    if IsV4(raw) {
      MirrorsV4(raw, ts, p);
    } else if IsV6(raw) {
      MirrorsV6(raw, ts, p);
    }
  }

  // The payload, on the raw frame

  /** The header length a TCP segment claims, or 20 when the claim is under 20 or over the segment. */
  function TcpLength(raw: seq<byte>): (n: nat)
    requires HasHeaders(raw) && Carries(raw, PROTO_TCP, TCP_MIN)
  {
    var claimed := raw[SegmentStart(raw) + 12] / 16 * 4;
    if 20 <= claimed <= SegmentEnd(raw) - SegmentStart(raw) then claimed else 20
  }

  /** Where the payload starts: behind the transport header, the network header, or the link header alone. */
  function PayloadStart(raw: seq<byte>): nat
    requires HasHeaders(raw)
  {
    if IsV4(raw) || IsV6(raw) then
      SegmentStart(raw) + (if Carries(raw, PROTO_TCP, TCP_MIN) then TcpLength(raw)
                           else if Carries(raw, PROTO_UDP, UDP_SIZE) then 8
                           else if Carries(raw, PROTO_ICMP, ICMP_SIZE) then 4
                           else 0)
    else if Be16(raw, 12) == ETHERTYPE_ARP then 42
    else 14
  }

  /** And ends: where the network header or the frame ends the segment. */
  function PayloadEnd(raw: seq<byte>): nat
    requires HasHeaders(raw)
  {
    if IsV4(raw) || IsV6(raw) then SegmentEnd(raw) else |raw|
  }

  /** The same by the bytes of a segment alone: how many of them are the transport header. */
  lemma BehindTransport(pkt: Packet, proto: nat, b: seq<byte>) returns (n: nat)
    requires pkt.tcp.None? && pkt.udp.None? && pkt.icmp.None?
    ensures n <= |b|
    ensures n == if proto == 6 && |b| >= 20 then (var claimed := b[12] / 16 * 4;
                                                  if 20 <= claimed <= |b| then claimed else 20)
                 else if proto == 17 && |b| >= 8 then 8
                 else if proto == 1 && |b| >= 4 then 4
                 else 0
    ensures var p := OnL4(pkt, proto, b);
            p.payload == From(b, n) && (p.tcp.Some? ==> 4 * p.tcp.value.dataOffset == n)
  {
    n := if proto == 6 && |b| >= 20 then DataOffset(b) else if proto == 17 && |b| >= 8 then 8
         else if proto == 1 && |b| >= 4 then 4 else 0;
    hide Be16;
    hide Be32;
  }

  lemma SegmentPayload(pkt: Packet, proto: nat, raw: seq<byte>)
    requires pkt.tcp.None? && pkt.udp.None? && pkt.icmp.None?
    requires HasHeaders(raw) && (IsV4(raw) || IsV6(raw)) && SegmentStart(raw) <= SegmentEnd(raw) <= |raw|
    requires proto == if IsV4(raw) then raw[23] else raw[20]
    ensures var p := OnL4(pkt, proto, raw[SegmentStart(raw)..SegmentEnd(raw)]);
            && PayloadStart(raw) <= PayloadEnd(raw) <= |raw|
            && p.payload == raw[PayloadStart(raw)..PayloadEnd(raw)]
            && (p.tcp.Some? ==> 4 * p.tcp.value.dataOffset == PayloadStart(raw) - SegmentStart(raw))
  {
    var from, to := SegmentStart(raw), SegmentEnd(raw);
    var b := raw[from..to];
    var n := BehindTransport(pkt, proto, b);
    if |b| >= 20 {
      assert b[12] == raw[from + 12];
    }
    Rest(raw, from, to, n);
    StartAndEnd(raw, proto, n);
    hide *;
  }

  lemma StartAndEnd(raw: seq<byte>, proto: nat, n: nat)
    requires HasHeaders(raw) && (IsV4(raw) || IsV6(raw)) && SegmentStart(raw) <= SegmentEnd(raw) <= |raw|
    requires proto == if IsV4(raw) then raw[23] else raw[20]
    requires var size := SegmentEnd(raw) - SegmentStart(raw);
             n == if proto == 6 && size >= 20 then (var claimed := raw[SegmentStart(raw) + 12] / 16 * 4;
                                                    if 20 <= claimed <= size then claimed else 20)
                  else if proto == 17 && size >= 8 then 8
                  else if proto == 1 && size >= 4 then 4
                  else 0
    ensures PayloadStart(raw) == SegmentStart(raw) + n && PayloadEnd(raw) == SegmentEnd(raw)
  {
    hide Be16;
    hide SegmentStart;
    hide SegmentEnd;
  }

  lemma Rest(raw: seq<byte>, from: nat, to: nat, n: int)
    requires from <= to <= |raw|
    ensures 0 <= n <= to - from ==> From(raw[from..to], n) == raw[from + n..to]
  {
  }

  /**
   The payload of a frame that dissects, by positions in the frame alone; a TCP
   header is as long as it claims, unless the claim is impossible.
   */
  lemma PayloadExactly(raw: seq<byte>, ts: Time, p: Packet)
    requires DissectsTo(raw, ts, p)
    ensures HasHeaders(raw) && PayloadStart(raw) <= PayloadEnd(raw) <= |raw|
    ensures p.payload == raw[PayloadStart(raw)..PayloadEnd(raw)]
    ensures p.tcp.Some? ==> 4 * p.tcp.value.dataOffset == PayloadStart(raw) - SegmentStart(raw)
  {
    HeadersPresent(raw, ts, p);
    if IsV4(raw) {
      DissectedV4(raw, ts, p);
      var h := IPv4In(From(raw, ETHERNET_SIZE));
      var link := LinkAlone(raw, ts);
      SegmentPayload(link.(ipv4 := Some(h)), h.protocol, raw);
    } else if IsV6(raw) {
      DissectedV6(raw, ts, p);
      var h := IPv6In(From(raw, ETHERNET_SIZE));
      var link := LinkAlone(raw, ts);
      SegmentPayload(link.(ipv6 := Some(h)), h.nextHeader, raw);
    } else {
      PlainPayload(raw, ts, p);
    }
    hide OnL4;
    hide DissectsTo;
    hide IPv4In;
    hide IPv6In;
    hide From;
    hide Be16;
    hide SegmentStart;
    hide SegmentEnd;
    hide PayloadStart;
    hide PayloadEnd;
    hide HasHeaders;
  }

  lemma PlainPayload(raw: seq<byte>, ts: Time, p: Packet)
    requires DissectsTo(raw, ts, p) && HasHeaders(raw) && !IsV4(raw) && !IsV6(raw)
    ensures PayloadStart(raw) <= PayloadEnd(raw) <= |raw| && p.payload == raw[PayloadStart(raw)..PayloadEnd(raw)]
    ensures p.tcp.None?
  {
    var b := From(raw, ETHERNET_SIZE);
    if |b| >= ARP_SIZE {
      assert From(b, ARP_SIZE) == raw[42..];
    }
    hide Be16;
    hide OnIPv4;
    hide OnIPv6;
  }

  /**
   Filtering a dissected packet is a predicate on the raw frame: once
   dissection succeeds, the packet matches exactly when the criteria hold at
   the offsets given by EtherType, header length and next header.
   */
  lemma MatchesRaw(f: PacketFilter, raw: seq<byte>, ts: Time, p: Packet)
    requires Valid(f) && (f.host.Some? ==> |f.host.value| in {4, 16}) && DissectsTo(raw, ts, p)
    ensures HasHeaders(raw)
    ensures Accepts(f, p) <==> RawAccepts(f, raw)
  {
    hide DissectsTo;
    HeadersPresent(raw, ts, p);
    AlwaysMirrors(raw, ts, p);
    RawNames(f.protocol, raw);
    if RawHosts(raw).Some? {
      HostFacts(Hosts(p).value.0, RawHosts(raw).value.0, f);
      HostFacts(Hosts(p).value.1, RawHosts(raw).value.1, f);
    }
    hide Contains;
    hide Equal;
    hide SameHost;
    hide InNetwork;
    hide ProtocolOk;
    hide RawProtocol;
    hide Carries;
    hide Mapped;
    hide HasHeaders;
  }

  lemma RawNames(name: string, raw: seq<byte>)
    requires HasHeaders(raw)
    ensures RawProtocol(name, raw) <==>
            ProtocolOk(name, Carries(raw, PROTO_TCP, TCP_MIN), Carries(raw, PROTO_UDP, UDP_SIZE),
                       Carries(raw, PROTO_ICMP, ICMP_SIZE), Be16(raw, 12) == ETHERTYPE_ARP, IsV4(raw), IsV6(raw))
  {
    hide Carries;
    hide Be16;
  }

  /** The address in a packet is the one in the frame, or its 16-byte form; to a filter they are the same. */
  lemma HostFacts(ip: Address, raw: Address, f: PacketFilter)
    requires Valid(f) && (f.host.Some? ==> |f.host.value| in {4, 16})
    requires (|raw| == 4 && ip == Mapped(raw)) || (|raw| == 16 && ip == raw)
    ensures f.host.Some? ==> (Equal(ip, f.host.value) <==> SameHost(raw, f.host.value))
    ensures f.cidr.Some? ==> (Contains(f.cidr.value, ip) <==> InNetwork(raw, f.cidr.value))
  {
    assert Canonical(ip) == Canonical(raw) by {
      if |raw| == 4 {
        assert Mapped(raw)[..12] == V4_PREFIX && Mapped(raw)[12..] == raw;
      }
    }
    if f.host.Some? {
      EqualIsCanonical(ip, f.host.value);
    }
    if f.cidr.Some? {
      ContainsIsPrefix(f.cidr.value, ip);
    }
    hide Contains;
    hide Equal;
    hide Agree;
    hide To4;
  }

  // Narrowing

  /** `g` keeps every criterion of `f` and may have more. */
  predicate Narrows(g: PacketFilter, f: PacketFilter) {
    && (f.protocol != "" ==> g.protocol == f.protocol)
    && (f.port != 0 ==> g.port == f.port)
    && (f.srcPort != 0 ==> g.srcPort == f.srcPort)
    && (f.dstPort != 0 ==> g.dstPort == f.dstPort)
    && (f.host.Some? ==> g.host == f.host)
    && (f.cidr.Some? ==> g.cidr.Some? && g.cidr.value.Valid() && f.cidr.value.Valid()
                         && Within(g.cidr.value, f.cidr.value))
  }

  /** Adding criteria, or replacing a network by a part of it, never lets more packets through. */
  lemma NarrowingShrinks(g: PacketFilter, f: PacketFilter, p: Packet)
    requires Valid(f) && Valid(g) && Narrows(g, f) && Accepts(g, p)
    ensures Accepts(f, p)
  {
    if f.cidr.Some? && Hosts(p).Some? {
      var inner, outer := g.cidr.value, f.cidr.value;
      if Contains(inner, Hosts(p).value.0) {
        NestedSubnets(inner, outer, Hosts(p).value.0);
      }
      if Contains(inner, Hosts(p).value.1) {
        NestedSubnets(inner, outer, Hosts(p).value.1);
      }
    }
    hide Contains;
    hide Equal;
    hide Within;
  }
}
