/** The header records and the packet of internal/net/types.go. */
module Packets {
  import opened Prelude
  import opened Bytes
  import opened Clock

  const ETHERTYPE_IPV4: nat := 0x0800
  const ETHERTYPE_ARP: nat := 0x0806
  const ETHERTYPE_IPV6: nat := 0x86DD

  const PROTO_ICMP: nat := 1
  const PROTO_TCP: nat := 6
  const PROTO_UDP: nat := 17

  /** A `net.IP` or a hardware address: its bytes. */
  type Address = seq<byte>

  datatype EthernetFrame = EthernetFrame(dstMAC: Address, srcMAC: Address, etherType: nat)

  datatype IPv4Header = IPv4Header(version: nat, ihl: nat, dscp: nat, ecn: nat, totalLength: nat,
                                   identification: nat, flags: nat, fragmentOffset: nat, ttl: nat,
                                   protocol: nat, checksum: nat, srcIP: Address, dstIP: Address)

  datatype IPv6Header = IPv6Header(version: nat, trafficClass: nat, flowLabel: nat, payloadLen: nat,
                                   nextHeader: nat, hopLimit: nat, srcIP: Address, dstIP: Address)

  datatype ARPHeader = ARPHeader(hardwareType: nat, protocolType: nat, hardwareSize: nat, protocolSize: nat,
                                 opcode: nat, senderMAC: Address, senderIP: Address,
                                 targetMAC: Address, targetIP: Address)

  datatype TCPHeader = TCPHeader(srcPort: nat, dstPort: nat, seqNum: nat, ackNum: nat, dataOffset: nat,
                                 flags: nat, windowSize: nat, checksum: nat, urgentPtr: nat)

  datatype UDPHeader = UDPHeader(srcPort: nat, dstPort: nat, length: nat, checksum: nat)

  datatype ICMPHeader = ICMPHeader(kind: nat, code: nat, checksum: nat)

  /** The layers a dissection has set; absent ones are Go's nil pointers. */
  datatype Packet = Packet(ts: Time, raw: seq<byte>, ethernet: EthernetFrame,
                           ipv4: Option<IPv4Header>, ipv6: Option<IPv6Header>, arp: Option<ARPHeader>,
                           tcp: Option<TCPHeader>, udp: Option<UDPHeader>, icmp: Option<ICMPHeader>,
                           payload: seq<byte>)
}
