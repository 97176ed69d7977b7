/**
 What a worker of internal/pipeline/engine.go does with an event: dissection
 and filtering. With it the theorems about runs become statements about raw
 frames.
 */
module Workers {
  import opened Prelude
  import opened Bytes
  import opened Clock
  import opened Engine
  import EngineCompletion
  import EngineLogs
  import EngineSinks
  import D = Dissector
  import DissectorTheorems
  import F = Filter

  /** The filter is there and says something. */
  predicate Filtering(filter: Option<F.PacketFilter>) {
    filter.Some? && !F.IsEmpty(filter.value)
  }

  predicate ValidFilter(filter: Option<F.PacketFilter>) {
    filter.Some? ==> F.Valid(filter.value) && (filter.value.host.Some? ==> |filter.value.host.value| in {4, 16})
  }

  /** The body of a worker's loop up to the broadcast. */
  function Classify(filter: Option<F.PacketFilter>, e: Event): Verdict
    requires ValidFilter(filter)
  {
    match e.kind
    case Serial => Keep(FrameBody(e.data))
    case Raw => Keep(NoBody)
    case Network =>
      var r := D.Dissect(e.data, e.ts);
      if r.NoPacket? then Keep(PacketBody(None, true))
      else if r.outcome.step.Panic? then Verdict.Panic
      else if r.outcome.step.Erred? then Keep(PacketBody(Some(r.outcome.pkt), true))
      else if Filtering(filter) && !F.Accepts(filter.value, r.outcome.pkt) then Discard
      else Keep(PacketBody(Some(r.outcome.pkt), false))
  }

  method Process(filter: Option<F.PacketFilter>, e: Event) returns (v: Verdict)
    requires ValidFilter(filter)
    ensures v == Classify(filter, e)
    ensures v.Panic? <==> Lethal(Payload(e.kind, e.ts, e.data))
    ensures v.Keep? <==> Wanted(filter, e) && !Lethal(Payload(e.kind, e.ts, e.data))
    ensures v.Keep? ==> Attached(e.kind, e.data, e.ts, v.body)
  {
    KeptIsWanted(filter, e);
    BodyExactly(filter, e);
    match e.kind {
      case Network =>
        var r := D.DissectWithTimestamp(e.data, e.ts);
        if r.NoPacket? {
          return Keep(PacketBody(None, true));
        }
        if r.outcome.step.Panic? {
          return Verdict.Panic;
        }
        var failed := r.outcome.step.Erred?;
        if !failed && filter.Some? && !F.IsEmpty(filter.value) {
          var matched := F.Matches(filter, Some(r.outcome.pkt));
          if !matched {
            return Discard;
          }
        }
        v := Keep(PacketBody(Some(r.outcome.pkt), failed));
      case Serial => v := Keep(FrameBody(e.data));
      case Raw => v := Keep(NoBody);
    }
  }

  // What a kept event carries

  /** The frame dissects without error. */
  predicate Parses(raw: seq<byte>, ts: Time) {
    var r := D.Dissect(raw, ts);
    r.Made? && r.outcome.step.Fine?
  }

  /**
   What travels with an event that was not discarded: for a frame the packet
   dissected from it, unless there is no link header, and an error exactly when
   dissection did not succeed; for a serial event its bytes; for a raw one
   nothing.
   */
  ghost predicate Attached(kind: EventType, raw: seq<byte>, ts: Time, body: Body) {
    && (kind.Network? ==>
          && body.PacketBody?
          && (body.failed <==> !Parses(raw, ts))
          && (body.packet.None? <==> |raw| < 14)
          && (|raw| >= 14 ==>
                D.Dissect(raw, ts).Made? && body.packet == Some(D.Dissect(raw, ts).outcome.pkt)))
    && (kind.Serial? ==> body == FrameBody(raw))
    && (kind.Raw? ==> body == NoBody)
  }

  lemma BodyExactly(filter: Option<F.PacketFilter>, e: Event)
    requires ValidFilter(filter)
    ensures var v := Classify(filter, e);
            v.Keep? ==> Attached(e.kind, e.data, e.ts, v.body)
  {
    DissectorTheorems.OutcomeExactly(e.data, e.ts);
    hide D.Dissect;
    hide F.Accepts;
  }

  /**
   In every reachable state, each event any sink has seen is one the source
   sent, meets the filter and carries what belongs to its own bytes.
   */
  lemma LogsAttached(c: Config, filter: Option<F.PacketFilter>, ls: seq<Label>, k: nat, pe: PipelineEvent)
    requires Runs(c, filter) && IsRun(c, Init(c), ls)
    requires k < |After(c, Init(c), ls).sinks| && pe in After(c, Init(c), ls).sinks[k].log
    ensures pe.Origin() in Input(c) && Wanted(filter, pe.Origin())
    ensures Attached(pe.kind, pe.raw, pe.ts, pe.body)
  {
    EngineLogs.LogsFaithful(c, ls, k, pe);
    hide *;
    FaithfulIsAttached(c, filter, pe);
  }

  lemma FaithfulIsAttached(c: Config, filter: Option<F.PacketFilter>, pe: PipelineEvent)
    requires Runs(c, filter) && EngineSinks.Faithful(c, pe)
    ensures Wanted(filter, pe.Origin()) && Attached(pe.kind, pe.raw, pe.ts, pe.body)
    ensures !Lethal(Payload(pe.kind, pe.ts, pe.raw))
  {
    BodyExactly(filter, pe.Origin());
    KeptIsWanted(filter, pe.Origin());
    hide Classify;
    hide Attached;
    hide Wanted;
    hide Lethal;
  }

  /** An engine whose workers process events with this filter. */
  ghost predicate Runs(c: Config, filter: Option<F.PacketFilter>) {
    ValidConfig(c) && ValidFilter(filter) &&
     c.classify == (e => if ValidFilter(filter) then Classify(filter, e) else Discard)
  }

  // Crashes

  /** A frame that makes a worker panic. */
  predicate Lethal(p: Payload) {
    p.kind.Network? && DissectorTheorems.LengthUnderHeader(p.data)
  }

  lemma LethalExactly(c: Config, filter: Option<F.PacketFilter>, k: nat)
    requires Runs(c, filter) && k < |c.payloads|
    ensures c.classify(EventAt(c, k)).Panic? <==> Lethal(c.payloads[k])
  {
    DissectorTheorems.PanicsExactly(c.payloads[k].data, c.payloads[k].ts);
    hide D.Dissect;
  }

  /**
   Some schedule takes the process down if and only if the source holds a
   network frame with an IPv4 length under its header length.
   */
  lemma CrashesExactly(c: Config, filter: Option<F.PacketFilter>)
    requires Runs(c, filter)
    ensures (exists ls :: IsRun(c, Init(c), ls) && After(c, Init(c), ls).crashed)
            <==> exists k :: 0 <= k < |c.payloads| && Lethal(c.payloads[k])
  {
    EngineCompletion.CrashesExactly(c);
    forall k | 0 <= k < |c.payloads| ensures c.classify(EventAt(c, k)).Panic? <==> Lethal(c.payloads[k]) {
      LethalExactly(c, filter, k);
    }
    hide Lethal;
    hide IsRun;
    hide After;
    hide EventAt;
  }

  // What the filter keeps, on raw frames

  /** An event survives unless it is a frame that parses and fails the filter's criteria at its own offsets. */
  predicate Wanted(filter: Option<F.PacketFilter>, e: Event)
    requires ValidFilter(filter)
  {
    e.kind.Network? && filter.Some? && Parses(e.data, e.ts) ==>
      F.HasHeaders(e.data) && F.RawAccepts(filter.value, e.data)
  }

  lemma KeptIsWanted(filter: Option<F.PacketFilter>, e: Event)
    requires ValidFilter(filter)
    ensures Classify(filter, e).Panic? <==> Lethal(Payload(e.kind, e.ts, e.data))
    ensures Classify(filter, e).Keep? <==> Wanted(filter, e) && !Classify(filter, e).Panic?
  {
    DissectorTheorems.PanicsExactly(e.data, e.ts);
    hide F.Accepts;
    hide F.RawAccepts;
    hide D.Dissect;
    hide F.HasHeaders;
    if e.kind.Network? && filter.Some? && Parses(e.data, e.ts) {
      F.EmptyAcceptsAll(filter.value, D.Dissect(e.data, e.ts).outcome.pkt);
      F.MatchesRaw(filter.value, e.data, e.ts, D.Dissect(e.data, e.ts).outcome.pkt);
    }
  }

  /** Neither identifier nor timestamp has a say in whether an event is wanted. */
  lemma WantedByBytes(filter: Option<F.PacketFilter>, a: Event, b: Event)
    requires ValidFilter(filter) && a.kind == b.kind && a.data == b.data
    ensures Wanted(filter, a) == Wanted(filter, b)
    ensures Classify(filter, a).Panic? == Classify(filter, b).Panic?
  {
    DissectorTheorems.PanicsExactly(a.data, a.ts);
    DissectorTheorems.PanicsExactly(b.data, b.ts);
    hide D.OnL4;
    hide F.RawAccepts;
  }

  /** The engine ran along `ls` until its workers were done. */
  ghost predicate Completed(c: Config, ls: seq<Label>) {
    IsRun(c, Init(c), ls) && AllExited(After(c, Init(c), ls).workers)
  }
}
