/**
 Which counters of internal/pipeline/sinks.go an event belongs to, by its kind
 and the bytes of its frame alone.
 */
module Tallies {
  import opened Prelude
  import opened Packets
  import opened Engine
  import opened EngineSinks
  import opened Workers
  import D = Dissector
  import DissectorTheorems
  import F = Filter
  import S = Stats
  import StatsCounters

  /** What `StatsSink.OnEvent` looks at in an event. */
  function StatsOf(pe: PipelineEvent): S.Event {
    var p := if pe.body.PacketBody? then pe.body.packet else None;
    S.Event(|pe.raw|, pe.body.PacketBody? && pe.body.failed, pe.latency, pe.kind.Serial?, p.Some?,
            if p.None? then S.L3None
            else if p.value.ipv4.Some? then S.L3IPv4 else if p.value.ipv6.Some? then S.L3IPv6
            else if p.value.arp.Some? then S.L3ARP else S.L3None,
            if p.None? then S.L4None
            else if p.value.tcp.Some? then S.L4TCP else if p.value.udp.Some? then S.L4UDP
            else if p.value.icmp.Some? then S.L4ICMP else S.L4None)
  }

  // Which counters an event belongs to

  /** A network event whose frame dissects. */
  predicate Sound(e: Event) {
    e.kind.Network? && |e.data| >= 14 && DissectorTheorems.StepOf(e.data).Fine?
  }

  predicate OfType(e: Event, etherType: nat) {
    Sound(e) && D.Be16(e.data, 12) == etherType
  }

  /** It carries the protocol, with at least `size` bytes of it. */
  predicate Transports(e: Event, proto: nat, size: nat) {
    Sound(e) && F.HasHeaders(e.data) && F.Carries(e.data, proto, size)
  }

  /** What an event adds to each counter that has nothing to do with time. */
  function Worth(e: Event, c: S.Counter): nat {
    match c
    case TotalBytes => |e.data|
    case TotalProcessed => 1
    case ErrorEvents => One(e.kind.Network? && !Sound(e))
    case IPv4Count => One(OfType(e, 0x0800))
    case IPv6Count => One(OfType(e, 0x86DD))
    case ARPCount => One(OfType(e, 0x0806))
    case TCPCount => One(Transports(e, 6, 20))
    case UDPCount => One(Transports(e, 17, 8))
    case ICMPCount => One(Transports(e, 1, 4))
    case SerialCount => One(e.kind.Serial?)
    case OtherCount =>
      One(!e.kind.Serial? && !Transports(e, 6, 20) && !Transports(e, 17, 8) && !Transports(e, 1, 4))
    case TotalLatency => 0
    case CountLatency => 0
  }

  function One(b: bool): nat {
    if b then 1 else 0
  }

  predicate Timeless(c: S.Counter) {
    !c.TotalLatency? && !c.CountLatency?
  }

  /** The header that is there, and no other. */
  ghost predicate Seen(e: Event, p: Packet) {
    && p.ipv4.Some? == OfType(e, 0x0800) && p.ipv6.Some? == OfType(e, 0x86DD) && p.arp.Some? == OfType(e, 0x0806)
    && p.tcp.Some? == Transports(e, 6, 20) && p.udp.Some? == Transports(e, 17, 8)
    && p.icmp.Some? == Transports(e, 1, 4)
  }

  lemma SeenIn(e: Event)
    requires e.kind.Network? && D.Dissect(e.data, e.ts).Made?
    requires !D.Dissect(e.data, e.ts).outcome.step.Panic?
    ensures Seen(e, D.Dissect(e.data, e.ts).outcome.pkt)
  {
    var p := D.Dissect(e.data, e.ts).outcome.pkt;
    DissectorTheorems.OutcomeExactly(e.data, e.ts);
    if Sound(e) {
      F.HeadersPresent(e.data, e.ts, p);
      F.AlwaysMirrors(e.data, e.ts, p);
    }
    hide D.Dissect;
    hide DissectorTheorems.StepOf;
    hide F.HasHeaders;
    hide F.Carries;
    hide D.Be16;
  }

  /** What `StatsSink.OnEvent` reads in a broadcast event leads it to the counters the bytes call for. */
  lemma DueIsWorth(c: Config, filter: Option<F.PacketFilter>, pe: PipelineEvent, n: S.Counter)
    requires Runs(c, filter) && Faithful(c, pe) && Timeless(n)
    ensures StatsCounters.Due(StatsOf(pe), n) == Worth(pe.Origin(), n)
  {
    var e := pe.Origin();
    FaithfulIsAttached(c, filter, pe);
    hide Faithful;
    hide Runs;
    hide F.HasHeaders;
    hide F.Carries;
    hide D.Be16;
    hide DissectorTheorems.StepOf;
    if e.kind.Network? {
      DissectorTheorems.OutcomeExactly(e.data, e.ts);
      DissectorTheorems.PanicsExactly(e.data, e.ts);
      hide D.Dissect;
      if |e.data| >= 14 {
        SeenIn(e);
        DissectorTheorems.AlwaysLayered(e.data, e.ts);
      }
    }
  }
}
