/**
 The engine and its statistics sink put together: what the counters of
 internal/pipeline/sinks.go say about the events that went through the engine.
 */
module Accounts {
  import opened Prelude
  import opened Bytes
  import opened Engine
  import opened EngineFlow
  import opened EngineSinks
  import opened EngineRuns
  import opened EngineTheorems
  import opened EngineLogs
  import opened Permutations
  import opened Workers
  import opened Tallies
  import RecordReplay
  import Pipeline
  import D = Dissector
  import DissectorTheorems
  import F = Filter
  import S = Stats
  import StatsCounters

  /** The dissector sets a transport layer only over IP, so the events it leads to are layered. */
  lemma FaithfulIsLayered(c: Config, filter: Option<F.PacketFilter>, pe: PipelineEvent)
    requires Runs(c, filter) && Faithful(c, pe)
    ensures StatsCounters.Layered(StatsOf(pe))
  {
    hide D.Dissect;
    if pe.kind.Network? && D.Dissect(pe.raw, pe.ts).Made? {
      DissectorTheorems.AlwaysLayered(pe.raw, pe.ts);
    }
  }

  /** The statistics sink, the first registered, has seen the event or is being called with it. */
  ghost predicate Counting(s: State, pe: PipelineEvent) {
    || (s.sinks != [] && pe in s.sinks[0].log)
    || exists w :: 0 <= w < |s.workers| && s.workers[w].Broadcasting? && s.workers[w].pe == pe
  }

  /** Every event the statistics sink ever counts is layered. */
  lemma CountedLayered(c: Config, filter: Option<F.PacketFilter>, ls: seq<Label>, pe: PipelineEvent)
    requires Runs(c, filter) && IsRun(c, Init(c), ls) && Counting(After(c, Init(c), ls), pe)
    ensures StatsCounters.Layered(StatsOf(pe))
  {
    hide StatsCounters.Layered;
    var s := After(c, Init(c), ls);
    if s.sinks != [] && pe in s.sinks[0].log {
      LogsFaithful(c, ls, 0, pe);
    } else {
      Reachable(c, ls);
    }
    FaithfulIsLayered(c, filter, pe);
  }

  /** The engine has made, or is making, a call to the statistics sink that looks like `e` to it. */
  ghost predicate CallOf(e: S.Event, s: State) {
    exists pe :: Counting(s, pe) && e == StatsOf(pe)
  }

  lemma CallLayered(c: Config, filter: Option<F.PacketFilter>, ls: seq<Label>, e: S.Event)
    requires Runs(c, filter) && IsRun(c, Init(c), ls) && CallOf(e, After(c, Init(c), ls))
    ensures StatsCounters.Layered(e)
  {
    var pe :| Counting(After(c, Init(c), ls), pe) && e == StatsOf(pe);
    hide Counting;
    hide StatsOf;
    CountedLayered(c, filter, ls, pe);
  }

  /** The calls a run of the statistics sink has begun are calls the engine makes. */
  ghost predicate CallsOf(calls: seq<S.Call>, s: State) {
    forall i :: 0 <= i < |calls| ==> CallOf(calls[i].e, s)
  }

  /**
   The ledger of the engine's own statistics: at every moment of every run of
   the counters, with calls of any reachable state of the engine in flight, the
   transport counters do not exceed the IP ones, nor all network layers and
   serial events the total.
   */
  lemma EngineLedger(c: Config, filter: Option<F.PacketFilter>, ls: seq<Label>, steps: seq<S.Label>)
    requires Runs(c, filter) && IsRun(c, Init(c), ls)
    requires S.IsRun(S.Init(), steps) && |S.After(S.Init(), steps).calls| < U64
    requires CallsOf(S.After(S.Init(), steps).calls, After(c, Init(c), ls))
    ensures var k := S.After(S.Init(), steps).counters;
            && k(S.TCPCount) + k(S.UDPCount) + k(S.ICMPCount) <= k(S.IPv4Count) + k(S.IPv6Count)
            && k(S.IPv4Count) + k(S.IPv6Count) + k(S.ARPCount) + k(S.SerialCount) <= k(S.TotalProcessed)
  {
    hide StatsCounters.Layered;
    hide CallOf;
    var calls := S.After(S.Init(), steps).calls;
    forall i | 0 <= i < |calls| ensures StatsCounters.Layered(calls[i].e) {
      CallLayered(c, filter, ls, calls[i].e);
    }
    StatsCounters.LayerLedger(steps);
  }

  function StatsEvents(log: seq<PipelineEvent>): (es: seq<S.Event>)
    ensures |es| == |log| && forall i :: 0 <= i < |es| ==> es[i] == StatsOf(log[i])
  {
    seq(|log|, i requires 0 <= i < |log| => StatsOf(log[i]))
  }

  function CallEvents(calls: seq<S.Call>): (es: seq<S.Event>)
    ensures |es| == |calls| && forall i :: 0 <= i < |es| ==> es[i] == calls[i].e
  {
    seq(|calls|, i requires 0 <= i < |calls| => calls[i].e)
  }

  /** The calls are those of `log`, begun in any order. */
  ghost predicate Serves(calls: seq<S.Call>, log: seq<PipelineEvent>) {
    multiset(CallEvents(calls)) == multiset(StatsEvents(log))
  }

  lemma ServedCall(calls: seq<S.Call>, s: State, i: nat)
    requires s.sinks != [] && Serves(calls, s.sinks[0].log) && i < |calls|
    ensures CallOf(calls[i].e, s)
  {
    hide StatsOf;
    var es := StatsEvents(s.sinks[0].log);
    assert CallEvents(calls)[i] in multiset(es);
    var j :| 0 <= j < |es| && es[j] == calls[i].e;
    assert Counting(s, s.sinks[0].log[j]);
  }

  // Counters as sums over events

  function DueTo(n: S.Counter): S.Event -> nat {
    e => StatsCounters.Due(e, n)
  }

  function EarnedBy(n: S.Counter): PipelineEvent -> nat {
    pe => StatsCounters.Due(StatsOf(pe), n)
  }

  function WorthTo(n: S.Counter): Event -> nat {
    e => Worth(e, n)
  }

  /** What the bytes of the events call for, one after the other. */
  function Tally(es: seq<Event>, n: S.Counter): nat {
    Sum(es, WorthTo(n))
  }

  lemma {:induction false} DueSumIsSum(calls: seq<S.Call>, n: S.Counter)
    ensures StatsCounters.DueSum(calls, n) == Sum(CallEvents(calls), DueTo(n))
  {
    if calls != [] {
      DueSumIsSum(calls[1..], n);
      assert CallEvents(calls)[1..] == CallEvents(calls[1..]);
    }
  }

  /** The calls that serve a log of the broadcasts are due, together, what the bytes of the broadcasts call for. */
  lemma DueIsTally(c: Config, filter: Option<F.PacketFilter>, calls: seq<S.Call>, log: seq<PipelineEvent>,
                   sent: seq<Sent>, n: S.Counter)
    requires Runs(c, filter) && Timeless(n)
    requires Serves(calls, log) && multiset(log) == multiset(Events(sent))
    requires forall i :: 0 <= i < |sent| ==> Faithful(c, sent[i].pe)
    ensures StatsCounters.DueSum(calls, n) == Tally(Origins(sent), n)
  {
    DueSumIsSum(calls, n);
    SumPermutation(CallEvents(calls), StatsEvents(log), DueTo(n));
    SumSame(StatsEvents(log), DueTo(n), log, EarnedBy(n));
    SumPermutation(log, Events(sent), EarnedBy(n));
    EventsAt(sent);
    forall i | 0 <= i < |sent| ensures EarnedBy(n)(Events(sent)[i]) == WorthTo(n)(Origins(sent)[i]) {
      DueIsWorth(c, filter, sent[i].pe, n);
    }
    SumSame(Events(sent), EarnedBy(n), Origins(sent), WorthTo(n));
  }

  lemma {:induction false} EventsAt(sent: seq<Sent>)
    ensures |Events(sent)| == |sent| && forall i :: 0 <= i < |sent| ==> Events(sent)[i] == sent[i].pe
  {
    if sent != [] {
      EventsAt(sent[1..]);
    }
  }

  lemma {:induction false} TallyBound(es: seq<Event>, n: S.Counter)
    requires !n.TotalBytes?
    ensures Tally(es, n) <= |es|
  {
    hide Worth;
    if es != [] {
      TallyBound(es[1..], n);
      assert Worth(es[0], n) <= 1 by {
        WorthBound(es[0], n);
      }
    }
  }

  lemma WorthBound(e: Event, n: S.Counter)
    requires !n.TotalBytes?
    ensures Worth(e, n) <= 1
  {
    hide Transports;
    hide OfType;
    hide Sound;
  }

  /** The counters hold what the bytes of the events call for; the byte total at 64 bits. */
  ghost predicate Tallied(k: S.Counter -> nat, es: seq<Event>) {
    && (forall n :: Timeless(n) && !n.TotalBytes? ==> k(n) == Tally(es, n))
    && k(S.TotalBytes) == Tally(es, S.TotalBytes) % U64
  }

  /** The workers are done, and the statistics sink has returned from the calls they made to it. */
  ghost predicate Settled(c: Config, ls: seq<Label>, steps: seq<S.Label>) {
    && Completed(c, ls) && After(c, Init(c), ls).sinks != []
    && S.IsRun(S.Init(), steps) && StatsCounters.AllDone(S.After(S.Init(), steps).calls)
    && Serves(S.After(S.Init(), steps).calls, After(c, Init(c), ls).sinks[0].log)
  }

  lemma DueAtRest(c: Config, filter: Option<F.PacketFilter>, ls: seq<Label>, steps: seq<S.Label>, n: S.Counter)
    requires Runs(c, filter) && Settled(c, ls, steps) && Timeless(n)
    ensures var s, k := After(c, Init(c), ls), S.After(S.Init(), steps).counters;
            k(n) == Tally(Origins(s.h.sent), n) % U64
  {
    var s, calls := After(c, Init(c), ls), S.After(S.Init(), steps).calls;
    Reachable(c, ls);
    assert Registered(c, Init(c));
    RegisteredRun(c, Init(c), ls);
    LogIsSent(c, s, 0);
    DueIsTally(c, filter, calls, s.sinks[0].log, s.h.sent, n);
    StatsCounters.AtRest(steps, n);
    hide *;
  }

  /**
   At the end every counter is the tally of the events broadcast, each counted
   by its kind and the bytes of its frame: a frame with the header of a
   protocol under that protocol, one that does not dissect as an error.
   */
  lemma FinalTallies(c: Config, filter: Option<F.PacketFilter>, ls: seq<Label>, steps: seq<S.Label>)
    requires Runs(c, filter) && Settled(c, ls, steps)
    ensures Tallied(S.After(S.Init(), steps).counters, Origins(After(c, Init(c), ls).h.sent))
  {
    var es, k := Origins(After(c, Init(c), ls).h.sent), S.After(S.Init(), steps).counters;
    SentBound(c, ls);
    hide *;
    forall n | Timeless(n) ensures k(n) == Tally(es, n) % U64 && (!n.TotalBytes? ==> k(n) == Tally(es, n)) {
      DueAtRest(c, filter, ls, steps, n);
      if !n.TotalBytes? {
        Exact(k(n), es, n);
      }
    }
    AllTallied(k, es);
  }

  lemma AllTallied(k: S.Counter -> nat, es: seq<Event>)
    requires forall n :: Timeless(n) ==> k(n) == Tally(es, n) % U64 && (!n.TotalBytes? ==> k(n) == Tally(es, n))
    ensures Tallied(k, es)
  {
    assert Timeless(S.TotalBytes);
    hide Tally;
  }

  /** Below 64 bits the remainder is the sum. */
  lemma Exact(k: nat, es: seq<Event>, n: S.Counter)
    requires !n.TotalBytes? && |es| < U64 && k == Tally(es, n) % U64
    ensures k == Tally(es, n)
  {
    TallyBound(es, n);
    hide Tally;
  }

  lemma SentBound(c: Config, ls: seq<Label>)
    requires ValidConfig(c) && Completed(c, ls)
    ensures |After(c, Init(c), ls).h.sent| < U64
  {
    Account(c, ls);
    ReceivedBound(c, ls);
  }

  /** What meets the filter is broadcast or lost, in the sums of any counter. */
  lemma WantedTally(c: Config, filter: Option<F.PacketFilter>, ls: seq<Label>, n: S.Counter)
    requires Runs(c, filter) && Completed(c, ls)
    ensures var s := After(c, Init(c), ls);
            && s.received <= |c.payloads|
            && Tally(Pipeline.WantedOf(filter, Input(c)[..s.received]), n)
               == Tally(Origins(s.h.sent), n) + Tally(Pipeline.WantedOf(filter, Lost(s)), n)
  {
    ReceivedBound(c, ls);
    var s := After(c, Init(c), ls);
    var whole, lost := Pipeline.WantedOf(filter, Input(c)[..s.received]), Pipeline.WantedOf(filter, Lost(s));
    hide *;
    forall e ensures Count(whole, e) == Count(Origins(s.h.sent) + lost, e) {
      Pipeline.SettledFrames(c, filter, ls, e);
      CountConcat(Origins(s.h.sent), lost, e);
    }
    RecordReplay.SameMultiset(whole, Origins(s.h.sent) + lost);
    TallyParts(whole, Origins(s.h.sent), lost, n);
  }

  lemma TallyParts(whole: seq<Event>, a: seq<Event>, b: seq<Event>, n: S.Counter)
    requires multiset(whole) == multiset(a + b)
    ensures Tally(whole, n) == Tally(a, n) + Tally(b, n)
  {
    SumPermutation(whole, a + b, WorthTo(n));
    SumAppend(a, b, WorthTo(n));
  }

  /**
   Against the source: what the counters hold and what the events lost on the
   way would have added make up what the received events that meet the filter
   call for. With nothing lost the counters are the tallies of the events that
   meet the filter, whatever the schedule.
   */
  lemma TalliesOfInput(c: Config, filter: Option<F.PacketFilter>, ls: seq<Label>, steps: seq<S.Label>, n: S.Counter)
    requires Runs(c, filter) && Settled(c, ls, steps) && Timeless(n) && !n.TotalBytes?
    ensures var s, k := After(c, Init(c), ls), S.After(S.Init(), steps).counters;
            && s.received <= |c.payloads|
            && Tally(Pipeline.WantedOf(filter, Input(c)[..s.received]), n)
               == k(n) + Tally(Pipeline.WantedOf(filter, Lost(s)), n)
            && (Lossless(c, s) ==> k(n) == Tally(Pipeline.WantedOf(filter, Input(c)), n))
  {
    var s := After(c, Init(c), ls);
    FinalTallies(c, filter, ls, steps);
    WantedTally(c, filter, ls, n);
    NothingLost(c, filter, s, n);
    hide Settled;
    hide Runs;
    hide Lossless;
    hide Tally;
    hide Lost;
    hide Pipeline.WantedOf;
  }

  lemma NothingLost(c: Config, filter: Option<F.PacketFilter>, s: State, n: S.Counter)
    requires ValidFilter(filter)
    ensures Lossless(c, s) ==> s.received <= |c.payloads| && Input(c)[..s.received] == Input(c)
                               && Tally(Pipeline.WantedOf(filter, Lost(s)), n) == 0
  {
  }

  /**
   The final account: when the workers are done and the statistics sink has
   returned from its calls, the processed total is the number of events
   broadcast and the sum of the five categories, each counter is the tally of
   the broadcasts by their bytes, transport counters do not exceed IP ones, and
   together with what was filtered, dropped and abandoned the total makes up
   what was received.
   */
  lemma FinalAccount(c: Config, filter: Option<F.PacketFilter>, ls: seq<Label>, steps: seq<S.Label>)
    requires Runs(c, filter) && Settled(c, ls, steps)
    ensures var s, k := After(c, Init(c), ls), S.After(S.Init(), steps).counters;
            && Tallied(k, Origins(s.h.sent))
            && k(S.TotalProcessed) == |s.h.sent|
            && k(S.TotalProcessed) == k(S.SerialCount) + k(S.TCPCount) + k(S.UDPCount) + k(S.ICMPCount)
                                      + k(S.OtherCount)
            && k(S.TCPCount) + k(S.UDPCount) + k(S.ICMPCount) <= k(S.IPv4Count) + k(S.IPv6Count)
            && s.received == k(S.TotalProcessed) + |s.h.filtered| + s.drops + |s.h.abandoned|
  {
    FinalTallies(c, filter, ls, steps);
    hide Tallied;
    var s, calls := After(c, Init(c), ls), S.After(S.Init(), steps).calls;
    Account(c, ls);
    LogCount(c, ls, 0);
    ReceivedBound(c, ls);
    assert |calls| == |s.h.sent| by {
      assert |multiset(CallEvents(calls))| == |CallEvents(calls)|;
      assert |multiset(StatsEvents(s.sinks[0].log))| == |s.sinks[0].log|;
    }
    forall i | 0 <= i < |calls| ensures CallOf(calls[i].e, s) {
      ServedCall(calls, s, i);
    }
    EngineLedger(c, filter, ls, steps);
    StatsCounters.Ledger(steps);
    StatsCounters.NoneInFlight(calls);
    StatsCounters.ProcessedAtRest(steps);
    hide *;
  }

  lemma ReceivedBound(c: Config, ls: seq<Label>)
    requires ValidConfig(c) && IsRun(c, Init(c), ls)
    ensures After(c, Init(c), ls).received <= |c.payloads| < U64
  {
    Reachable(c, ls);
  }
}
