/**
 The parts put together: from raw frames through any schedule of the engine to
 a recording, and from the recording through a second engine.
 */
module Pipeline {
  import opened Prelude
  import opened Engine
  import opened EngineFlow
  import opened EngineSinks
  import opened EngineRuns
  import opened EngineTheorems
  import opened EngineCompletion
  import opened EngineLogs
  import opened RecordReplay
  import opened Workers
  import D = Dissector
  import DissectorTheorems
  import F = Filter
  import P = Pcap

  // What is wanted

  function WantedOf(filter: Option<F.PacketFilter>, es: seq<Event>): seq<Event>
    requires ValidFilter(filter)
  {
    if es == [] then []
    else (if Wanted(filter, es[0]) then [es[0]] else []) + WantedOf(filter, es[1..])
  }

  lemma {:induction false} CountWanted(filter: Option<F.PacketFilter>, es: seq<Event>, e: Event)
    requires ValidFilter(filter)
    ensures Count(WantedOf(filter, es), e) == if Wanted(filter, e) then Count(es, e) else 0
  {
    hide Wanted;
    if es != [] {
      CountWanted(filter, es[1..], e);
      if Wanted(filter, es[0]) {
        assert WantedOf(filter, es)[1..] == WantedOf(filter, es[1..]);
      } else {
        assert WantedOf(filter, es) == WantedOf(filter, es[1..]);
      }
    }
  }

  /** With the workers done, each wanted event was broadcast or lost. */
  lemma WantedSettled(c: Config, filter: Option<F.PacketFilter>, s: State, e: Event)
    requires Runs(c, filter) && Inv(c, s) && AllExited(s.workers)
    ensures Count(WantedOf(filter, Input(c)[..s.received]), e)
            == Count(Origins(s.h.sent), e) + Count(WantedOf(filter, Lost(s)), e)
  {
    SettledAt(c, s, e);
    CountWanted(filter, Input(c)[..s.received], e);
    CountWanted(filter, Lost(s), e);
    CountIn(s.h.filtered, e);
    CountIn(Origins(s.h.sent), e);
    KeptIsWanted(filter, e);
    hide Inv;
    hide Classify;
    hide Wanted;
    hide WantedOf;
    hide Lost;
  }

  /** What reading recording `k` of a run gives. */
  ghost function ReadBack(c: Config, ls: seq<Label>, k: nat): seq<P.Packet>
    requires IsRun(c, Init(c), ls) && k < |After(c, Init(c), ls).sinks|
  {
    P.Decode(FileBytes(After(c, Init(c), ls).sinks[k].file)).packets
  }

  /**
   End to end: once the workers are done, in either mode and under any
   schedule, the recording together with what was dropped or abandoned reads as
   exactly the network frames received whose raw bytes meet the filter,
   timestamps floored to the microsecond.
   */
  lemma RecordedFrames(c: Config, filter: Option<F.PacketFilter>, ls: seq<Label>, k: nat)
    requires Runs(c, filter) && Small(c) && Completed(c, ls)
    requires k < |Kinds(c)| && Kinds(c)[k].PcapKind?
    ensures var s := After(c, Init(c), ls);
            && k < |s.sinks| && s.received <= |c.payloads|
            && multiset(ReadingOf(WantedOf(filter, Input(c)[..s.received])))
               == multiset(ReadBack(c, ls, k)) + multiset(ReadingOf(WantedOf(filter, Lost(s))))
  {
    Reachable(c, ls);
    Replay(c, ls, k);
    var s := After(c, Init(c), ls);
    assert s.received <= |c.payloads|;
    hide *;
    forall e
      ensures Count(WantedOf(filter, Input(c)[..s.received]), e)
              == Count(Origins(s.h.sent), e) + Count(WantedOf(filter, Lost(s)), e)
    {
      SettledFrames(c, filter, ls, e);
    }
    ReadingSplit(WantedOf(filter, Input(c)[..s.received]), Origins(s.h.sent), WantedOf(filter, Lost(s)));
    ReadBackIs(c, ls, k);
  }

  lemma SettledFrames(c: Config, filter: Option<F.PacketFilter>, ls: seq<Label>, e: Event)
    requires Runs(c, filter) && Completed(c, ls)
    ensures var s := After(c, Init(c), ls);
            && s.received <= |c.payloads|
            && Count(WantedOf(filter, Input(c)[..s.received]), e)
               == Count(Origins(s.h.sent), e) + Count(WantedOf(filter, Lost(s)), e)
  {
    Reachable(c, ls);
    WantedSettled(c, filter, After(c, Init(c), ls), e);
  }

  lemma ReadBackIs(c: Config, ls: seq<Label>, k: nat)
    requires IsRun(c, Init(c), ls) && k < |After(c, Init(c), ls).sinks|
    ensures ReadBack(c, ls, k) == P.Decode(FileBytes(After(c, Init(c), ls).sinks[k].file)).packets
  {
  }

  /** A run that lost nothing records exactly the frames that meet the filter, the same for every schedule. */
  lemma LosslessFrames(c: Config, filter: Option<F.PacketFilter>, ls: seq<Label>, k: nat)
    requires Runs(c, filter) && Small(c) && Completed(c, ls) && Lossless(c, After(c, Init(c), ls))
    requires k < |Kinds(c)| && Kinds(c)[k].PcapKind?
    ensures k < |After(c, Init(c), ls).sinks|
    ensures multiset(ReadBack(c, ls, k)) == multiset(ReadingOf(WantedOf(filter, Input(c))))
  {
    RecordedFrames(c, filter, ls, k);
    var s := After(c, Init(c), ls);
    assert Input(c)[..s.received] == Input(c);
    assert Lost(s) == [] && ReadingOf(WantedOf(filter, [])) == [];
    hide ReadBack;
    hide ReadingOf;
    hide WantedOf;
  }

  // Recording again

  /** A source that replays packets read from a recording. */
  ghost predicate Replays(c: Config, ps: seq<P.Packet>) {
    && |c.payloads| == |ps|
    && (forall i :: 0 <= i < |ps| ==> c.payloads[i] == Payload(Network, ps[i].ts, ps[i].data))
  }

  function AsEvent(p: P.Packet): Event {
    Event(0, Network, p.ts, p.data)
  }

  /** The packet could have come through the filter, and is not empty. */
  predicate Admissible(filter: Option<F.PacketFilter>, p: P.Packet)
    requires ValidFilter(filter)
  {
    p.data != [] && Wanted(filter, AsEvent(p))
  }

  lemma {:induction false} RecordablesAdmissible(filter: Option<F.PacketFilter>, es: seq<Event>)
    requires ValidFilter(filter)
    ensures forall p :: p in Recordables(WantedOf(filter, es)) ==> Admissible(filter, p)
  {
    hide Wanted;
    if es != [] {
      RecordablesAdmissible(filter, es[1..]);
      var rest := WantedOf(filter, es[1..]);
      if Wanted(filter, es[0]) {
        assert ([es[0]] + rest)[1..] == rest;
        if es[0].kind.Network? {
          WantedByBytes(filter, es[0], AsEvent(P.Packet(es[0].data, es[0].ts)));
        }
      } else {
        assert [] + rest == rest;
      }
    }
  }

  /** What is read back from a recording of wanted events is admissible, and stored again stays as it is. */
  lemma ReadingAdmissible(filter: Option<F.PacketFilter>, es: seq<Event>, q: P.Packet)
    requires ValidFilter(filter) && q in ReadingOf(WantedOf(filter, es))
    ensures Admissible(filter, q) && P.Stored(P.Micro, q) == q
  {
    hide Wanted;
    var ps := Recordables(WantedOf(filter, es));
    var i :| 0 <= i < |ps| && ReadingOf(WantedOf(filter, es))[i] == q;
    RecordablesAdmissible(filter, es);
    assert ps[i] in ps;
    WantedByBytes(filter, AsEvent(ps[i]), AsEvent(q));
  }

  /** A source of admissible packets loses none of them, and records them in its own order. */
  lemma {:induction false} AllRecorded(filter: Option<F.PacketFilter>, es: seq<Event>, ps: seq<P.Packet>)
    requires ValidFilter(filter) && |es| == |ps|
    requires forall i :: 0 <= i < |ps| ==>
               Admissible(filter, ps[i]) && es[i].kind.Network? && es[i].data == ps[i].data && es[i].ts == ps[i].ts
    ensures Recordables(WantedOf(filter, es)) == ps
  {
    hide Wanted;
    if es != [] {
      WantedByBytes(filter, es[0], AsEvent(ps[0]));
      AllRecorded(filter, es[1..], ps[1..]);
      var rest := WantedOf(filter, es[1..]);
      assert ([es[0]] + rest)[1..] == rest;
      assert RecordOf(es[0]) == [ps[0]];
      assert ps == [ps[0]] + ps[1..];
    }
  }

  /** Every packet of a recording is admissible, came through without a panic, and stored again stays as it is. */
  lemma ReadBackAdmissible(c: Config, filter: Option<F.PacketFilter>, ls: seq<Label>, k: nat, q: P.Packet)
    requires Runs(c, filter) && Small(c) && Completed(c, ls)
    requires k < |Kinds(c)| && Kinds(c)[k].PcapKind? && k < |After(c, Init(c), ls).sinks|
    requires q in ReadBack(c, ls, k)
    ensures Admissible(filter, q) && P.Stored(P.Micro, q) == q
    ensures !Lethal(Payload(Network, q.ts, q.data))
  {
    RecordedIsWanted(c, filter, ls, k, q);
    RecordedIsSent(c, ls, k, q);
    Reachable(c, ls);
    var s := After(c, Init(c), ls);
    SentAreHarmless(c, filter, s, q);
    hide *;
    ReadingAdmissible(filter, Input(c)[..s.received], q);
  }

  lemma RecordedIsWanted(c: Config, filter: Option<F.PacketFilter>, ls: seq<Label>, k: nat, q: P.Packet)
    requires Runs(c, filter) && Small(c) && Completed(c, ls)
    requires k < |Kinds(c)| && Kinds(c)[k].PcapKind? && k < |After(c, Init(c), ls).sinks|
    requires q in ReadBack(c, ls, k)
    ensures After(c, Init(c), ls).received <= |c.payloads|
    ensures q in ReadingOf(WantedOf(filter, Input(c)[..After(c, Init(c), ls).received]))
  {
    RecordedFrames(c, filter, ls, k);
    var s := After(c, Init(c), ls);
    hide *;
    InSum(ReadingOf(WantedOf(filter, Input(c)[..s.received])), ReadBack(c, ls, k),
          ReadingOf(WantedOf(filter, Lost(s))), q);
  }

  lemma InSum(whole: seq<P.Packet>, a: seq<P.Packet>, b: seq<P.Packet>, q: P.Packet)
    requires multiset(whole) == multiset(a) + multiset(b) && q in a
    ensures q in whole
  {
    assert q in multiset(whole);
  }

  lemma RecordedIsSent(c: Config, ls: seq<Label>, k: nat, q: P.Packet)
    requires ValidConfig(c) && Small(c) && Completed(c, ls)
    requires k < |Kinds(c)| && Kinds(c)[k].PcapKind? && k < |After(c, Init(c), ls).sinks|
    requires q in ReadBack(c, ls, k)
    ensures q in ReadingOf(Origins(After(c, Init(c), ls).h.sent))
  {
    Replay(c, ls, k);
    ReadBackIs(c, ls, k);
    hide *;
    assert q in multiset(ReadBack(c, ls, k));
  }

  lemma SentAreHarmless(c: Config, filter: Option<F.PacketFilter>, s: State, q: P.Packet)
    requires Runs(c, filter) && Verdicts(c, s) && q in ReadingOf(Origins(s.h.sent))
    ensures !Lethal(Payload(Network, q.ts, q.data))
  {
    var es := Origins(s.h.sent);
    var i :| 0 <= i < |ReadingOf(es)| && ReadingOf(es)[i] == q;
    var e := RecordableFrom(es, Recordables(es)[i]);
    var j :| 0 <= j < |es| && es[j] == e;
    assert Faithful(c, s.h.sent[j].pe);
    DissectorTheorems.PanicsExactly(e.data, e.ts);
    hide D.Dissect;
  }

  lemma {:induction false} RecordableFrom(es: seq<Event>, p: P.Packet) returns (e: Event)
    requires p in Recordables(es)
    ensures e in es && e.kind.Network? && e.data == p.data
  {
    if p in RecordOf(es[0]) {
      e := es[0];
    } else {
      e := RecordableFrom(es[1..], p);
    }
  }

  /**
   Replaying a recording through another engine with the same filter records
   the same packets again: the same collection, for any two schedules, modes,
   numbers of workers and queue sizes, whatever the first run lost, as long as
   the second loses nothing.
   */
  lemma ReplayedRecording(a: Config, lsA: seq<Label>, kA: nat, b: Config, lsB: seq<Label>, kB: nat,
                          filter: Option<F.PacketFilter>)
    requires Runs(a, filter) && Small(a) && Completed(a, lsA)
    requires kA < |Kinds(a)| && Kinds(a)[kA].PcapKind? && kA < |After(a, Init(a), lsA).sinks|
    requires Runs(b, filter) && Small(b) && Completed(b, lsB) && Lossless(b, After(b, Init(b), lsB))
    requires kB < |Kinds(b)| && Kinds(b)[kB].PcapKind?
    requires Replays(b, ReadBack(a, lsA, kA))
    ensures kB < |After(b, Init(b), lsB).sinks|
    ensures multiset(ReadBack(b, lsB, kB)) == multiset(ReadBack(a, lsA, kA))
  {
    var ps := ReadBack(a, lsA, kA);
    LosslessFrames(b, filter, lsB, kB);
    forall q | q in ps ensures Admissible(filter, q) && P.Stored(P.Micro, q) == q {
      ReadBackAdmissible(a, filter, lsA, kA, q);
    }
    ReadsAsItself(b, filter, ps);
  }

  /** A source of packets of a recording reads back, recorded whole, as those packets. */
  lemma ReadsAsItself(b: Config, filter: Option<F.PacketFilter>, ps: seq<P.Packet>)
    requires ValidFilter(filter) && Replays(b, ps)
    requires forall q :: q in ps ==> Admissible(filter, q) && P.Stored(P.Micro, q) == q
    ensures ReadingOf(WantedOf(filter, Input(b))) == ps
  {
    hide Admissible;
    hide WantedOf;
    hide Recordables;
    forall i | 0 <= i < |ps| ensures Admissible(filter, ps[i]) && P.Stored(P.Micro, ps[i]) == ps[i] {
      assert ps[i] in ps;
    }
    AllRecorded(filter, Input(b), ps);
    assert P.StoredAll(P.Micro, ps) == ps;
  }

  /** And such a second run exists: no frame of a recording takes the process down. */
  lemma ReplayRuns(a: Config, lsA: seq<Label>, kA: nat, b: Config, filter: Option<F.PacketFilter>)
    returns (lsB: seq<Label>)
    requires Runs(a, filter) && Small(a) && Completed(a, lsA)
    requires kA < |Kinds(a)| && Kinds(a)[kA].PcapKind? && kA < |After(a, Init(a), lsA).sinks|
    requires Runs(b, filter) && Replays(b, ReadBack(a, lsA, kA))
    ensures Completed(b, lsB) && Lossless(b, After(b, Init(b), lsB))
    ensures forall ls :: IsRun(b, Init(b), ls) ==> !After(b, Init(b), ls).crashed
  {
    var ps := ReadBack(a, lsA, kA);
    forall k | 0 <= k < |b.payloads| ensures !Lethal(b.payloads[k]) && !b.classify(EventAt(b, k)).Panic? {
      assert ps[k] in ps;
      ReadBackAdmissible(a, filter, lsA, kA, ps[k]);
      LethalExactly(b, filter, k);
    }
    Workers.CrashesExactly(b, filter);
    hide Lethal;
    hide Lossless;
    hide AllExited;
    lsB := CompletedRun(b);
  }
}
