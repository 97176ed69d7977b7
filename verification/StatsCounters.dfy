/** What the counters of the statistics sink hold, while calls run and once they have returned. */
module StatsCounters {
  import opened Bytes
  import opened Stats

  // What the counters should hold

  /** The amount the actions of `p` add to counter `c`. */
  function Amount(p: seq<Action>, c: Counter): nat {
    if p == [] then 0
    else (if p[0].Add? && p[0].c == c then p[0].n else 0) + Amount(p[1..], c)
  }

  /** What call `k` has added to `c` so far. */
  function Part(k: Call, c: Counter): nat {
    if k.pc <= |Program(k.e)| then Amount(Program(k.e)[..k.pc], c) else 0
  }

  function Total(ks: seq<Call>, c: Counter): nat {
    if ks == [] then 0 else Part(ks[0], c) + Total(ks[1..], c)
  }

  lemma {:induction false} AmountAppend(p: seq<Action>, a: Action, c: Counter)
    ensures Amount(p + [a], c) == Amount(p, c) + (if a.Add? && a.c == c then a.n else 0)
  {
    if p == [] {
      assert (p + [a])[1..] == [];
    } else {
      AmountAppend(p[1..], a, c);
      assert (p + [a])[1..] == p[1..] + [a];
    }
  }

  lemma {:induction false} TotalUpdate(ks: seq<Call>, i: nat, k: Call, c: Counter)
    requires i < |ks|
    ensures Total(ks[i := k], c) + Part(ks[i], c) == Total(ks, c) + Part(k, c)
  {
    if i > 0 {
      TotalUpdate(ks[1..], i - 1, k, c);
      assert ks[i := k][1..] == ks[1..][i - 1 := k];
    } else {
      assert ks[i := k][1..] == ks[1..];
    }
  }

  lemma {:induction false} TotalAppend(ks: seq<Call>, k: Call, c: Counter)
    ensures Total(ks + [k], c) == Total(ks, c) + Part(k, c)
  {
    if ks == [] {
      assert (ks + [k])[1..] == [];
    } else {
      TotalAppend(ks[1..], k, c);
      assert (ks + [k])[1..] == ks[1..] + [k];
    }
  }

  /** Every counter holds what the calls have added to it, modulo its width. */
  ghost predicate Counted(s: State) {
    && (forall i :: 0 <= i < |s.calls| ==> s.calls[i].pc <= |Program(s.calls[i].e)|)
    && (forall c :: s.counters(c) == Total(s.calls, c) % U64)
  }

  lemma ModAdd(a: nat, b: nat)
    ensures (a % U64 + b) % U64 == (a + b) % U64
  {
  }

  function Delta(a: Action, c: Counter): nat {
    if a.Add? && a.c == c then a.n else 0
  }

  /** One turn of a call adds to each counter what its action says. */
  lemma PartTurn(s: State, k: Call, c: Counter)
    requires Running(k)
    ensures var (t, k') := Turn(s, k);
            var a := Program(k.e)[k.pc];
            && k'.e == k.e && k.pc <= k'.pc <= |Program(k.e)|
            && t.calls == s.calls
            && Part(k', c) == Part(k, c) + Delta(a, c)
            && t.counters(c) == if a.Add? && a.c == c then Wrapped(s.counters(c) + a.n) else s.counters(c)
  {
    var p := Program(k.e);
    hide Program;
    var a := p[k.pc];
    AmountAppend(p[..k.pc], a, c);
    assert p[..k.pc + 1] == p[..k.pc] + [a];
  }

  lemma CountedTurn(s: State, i: nat, c: Counter)
    requires Counted(s) && Enabled(s, Step(i))
    ensures var t := Apply(s, Step(i)); t.counters(c) == Total(t.calls, c) % U64
  {
    hide Turn;
    hide Part;
    hide Program;
    var t := Apply(s, Step(i));
    var k' := Turn(s, s.calls[i]).1;
    TotalUpdate(s.calls, i, k', c);
    PartTurn(s, s.calls[i], c);
    ModAdd(Total(s.calls, c), Part(k', c) - Part(s.calls[i], c));
  }

  lemma CountedStep(s: State, l: Label)
    requires Counted(s) && Enabled(s, l)
    ensures Counted(Apply(s, l))
  {
    hide Turn;
    hide Program;
    var t := Apply(s, l);
    match l
    case Begin(e) =>
      forall c ensures t.counters(c) == Total(t.calls, c) % U64 {
        TotalAppend(s.calls, NewCall(e), c);
      }
    case Step(i) =>
      PartTurn(s, s.calls[i], TotalProcessed);
      forall c ensures t.counters(c) == Total(t.calls, c) % U64 {
        CountedTurn(s, i, c);
      }
  }

  lemma {:induction false} CountedRun(s: State, ls: seq<Label>)
    requires Counted(s) && IsRun(s, ls)
    ensures Counted(After(s, ls))
    decreases |ls|
  {
    hide Counted;
    if ls != [] {
      CountedStep(s, ls[0]);
      CountedRun(Apply(s, ls[0]), ls[1..]);
    }
  }

  // What a call contributes

  lemma {:induction false} AmountConcat(p: seq<Action>, q: seq<Action>, c: Counter)
    ensures Amount(p + q, c) == Amount(p, c) + Amount(q, c)
  {
    if p == [] {
      assert p + q == q;
    } else {
      AmountConcat(p[1..], q, c);
      assert (p + q)[1..] == p[1..] + q;
    }
  }

  lemma {:induction false} AmountNone(p: seq<Action>, c: Counter)
    requires forall i :: 0 <= i < |p| ==> Delta(p[i], c) == 0
    ensures Amount(p, c) == 0
  {
    if p != [] {
      AmountNone(p[1..], c);
    }
  }

  predicate IsCategory(c: Counter) {
    c in {SerialCount, TCPCount, UDPCount, ICMPCount, OtherCount}
  }

  /** The one category counter a call ends on. */
  function Category(e: Event): Counter {
    if e.serial then SerialCount else if e.hasPacket then Layer4Counter(e.l4) else OtherCount
  }

  /** Everything a call does before that. */
  function Body(e: Event): seq<Action> {
    [Add(TotalProcessed, 1), Add(TotalBytes, e.bytes)]
    + (if e.failed then [Add(ErrorEvents, 1)] else [])
    + LatencyActions(e)
    + (if e.serial || !e.hasPacket then [] else Layer3Actions(e.l3))
  }

  lemma ProgramShape(e: Event)
    ensures Program(e) == Body(e) + [Add(Category(e), 1)]
    ensures 2 <= |Body(e)| <= 8
    ensures Body(e)[0] == Add(TotalProcessed, 1)
    ensures forall i :: 0 <= i < |Body(e)| ==> Body(e)[i].Add? ==> !IsCategory(Body(e)[i].c)
    ensures forall i :: 0 < i < |Body(e)| ==> Body(e)[i].Add? ==> Body(e)[i].c != TotalProcessed
  {
  }

  /** A category counter is touched only by a call's last action. */
  lemma CategoryPart(k: Call, c: Counter)
    requires k.pc <= |Program(k.e)| && IsCategory(c)
    ensures Part(k, c) == if k.pc == |Program(k.e)| && c == Category(k.e) then 1 else 0
  {
    var b := Body(k.e);
    ProgramShape(k.e);
    hide Program;
    hide Body;
    var p := Program(k.e);
    if k.pc < |p| {
      assert p[..k.pc] == b[..k.pc];
      AmountNone(b[..k.pc], c);
    } else {
      assert p[..k.pc] == p;
      AmountNone(b, c);
      AmountAppend(b, Add(Category(k.e), 1), c);
    }
  }

  /** `TotalProcessed` is a call's first action and no other. */
  lemma ProcessedPart(k: Call)
    requires k.pc <= |Program(k.e)|
    ensures Part(k, TotalProcessed) == if k.pc == 0 then 0 else 1
  {
    ProgramShape(k.e);
    hide Program;
    hide Body;
    var p := Program(k.e);
    if k.pc > 0 {
      assert p[..k.pc] == [p[0]] + p[1..k.pc];
      AmountConcat([p[0]], p[1..k.pc], TotalProcessed);
      AmountNone(p[1..k.pc], TotalProcessed);
      assert [p[0]][1..] == [];
    }
  }

  /**
   What a finished call has added to each counter, straight from what it was
   called with: serial events go to their own counter, events with a packet to
   one for its network layer, if any, and to one for its transport layer, and
   what has neither to the last.
   */
  function Due(e: Event, c: Counter): nat {
    match c
    case TotalProcessed => 1
    case TotalBytes => e.bytes
    case ErrorEvents => if e.failed then 1 else 0
    case TotalLatency => e.latency
    case CountLatency => if e.latency > 0 then 1 else 0
    case IPv4Count => if !e.serial && e.hasPacket && e.l3.L3IPv4? then 1 else 0
    case IPv6Count => if !e.serial && e.hasPacket && e.l3.L3IPv6? then 1 else 0
    case ARPCount => if !e.serial && e.hasPacket && e.l3.L3ARP? then 1 else 0
    case SerialCount => if e.serial then 1 else 0
    case TCPCount => if !e.serial && e.hasPacket && e.l4.L4TCP? then 1 else 0
    case UDPCount => if !e.serial && e.hasPacket && e.l4.L4UDP? then 1 else 0
    case ICMPCount => if !e.serial && e.hasPacket && e.l4.L4ICMP? then 1 else 0
    case OtherCount => if !e.serial && (!e.hasPacket || e.l4.L4None?) then 1 else 0
  }

  lemma AmountOne(a: Action, c: Counter)
    ensures Amount([a], c) == Delta(a, c)
  {
    assert [a][1..] == [];
  }

  lemma LatencyAmount(e: Event, c: Counter)
    ensures Amount(LatencyActions(e), c) ==
            if c == TotalLatency then e.latency else if c == CountLatency && e.latency > 0 then 1 else 0
  {
    if e.latency > 0 {
      var a, b := [Add(TotalLatency, e.latency)] + [Add(CountLatency, 1)], [LowerMin] + [RaiseMax];
      assert LatencyActions(e) == a + b;
      AmountConcat(a, b, c);
      AmountConcat([Add(TotalLatency, e.latency)], [Add(CountLatency, 1)], c);
      AmountConcat([LowerMin], [RaiseMax], c);
      AmountOne(Add(TotalLatency, e.latency), c);
      AmountOne(Add(CountLatency, 1), c);
      AmountOne(LowerMin, c);
      AmountOne(RaiseMax, c);
    }
  }

  /** One for the network layer there is. */
  function Layer3Due(l: Layer3, c: Counter): nat {
    if (l.L3IPv4? && c == IPv4Count) || (l.L3IPv6? && c == IPv6Count) || (l.L3ARP? && c == ARPCount) then 1 else 0
  }

  lemma Layer3Amount(l: Layer3, c: Counter)
    ensures Amount(Layer3Actions(l), c) == Layer3Due(l, c)
  {
    AmountOne(Add(IPv4Count, 1), c);
    AmountOne(Add(IPv6Count, 1), c);
    AmountOne(Add(ARPCount, 1), c);
  }

  lemma ProtocolAmount(e: Event, c: Counter)
    ensures Amount(ProtocolActions(e), c) ==
            (if Category(e) == c then 1 else 0) + (if !e.serial && e.hasPacket then Layer3Due(e.l3, c) else 0)
  {
    AmountOne(Add(Category(e), 1), c);
    if !e.serial && e.hasPacket {
      AmountConcat(Layer3Actions(e.l3), [Add(Layer4Counter(e.l4), 1)], c);
      Layer3Amount(e.l3, c);
    }
    hide Amount;
    hide Layer3Due;
    hide Layer3Actions;
  }

  /** The atomic adds of a call amount to what is due, counter by counter. */
  lemma ProgramAmount(e: Event, c: Counter)
    ensures Amount(Program(e), c) == Due(e, c)
  {
    var start := [Add(TotalProcessed, 1)] + [Add(TotalBytes, e.bytes)];
    var err := if e.failed then [Add(ErrorEvents, 1)] else [];
    hide Due;
    hide LatencyActions;
    hide ProtocolActions;
    assert Program(e) == start + (err + (LatencyActions(e) + ProtocolActions(e)));
    AmountConcat(start, err + (LatencyActions(e) + ProtocolActions(e)), c);
    AmountConcat(err, LatencyActions(e) + ProtocolActions(e), c);
    AmountConcat(LatencyActions(e), ProtocolActions(e), c);
    AmountConcat([Add(TotalProcessed, 1)], [Add(TotalBytes, e.bytes)], c);
    AmountOne(Add(TotalProcessed, 1), c);
    AmountOne(Add(TotalBytes, e.bytes), c);
    AmountOne(Add(ErrorEvents, 1), c);
    LatencyAmount(e, c);
    ProtocolAmount(e, c);
    DueSplit(e, c);
  }

  lemma DueSplit(e: Event, c: Counter)
    ensures Due(e, c) ==
            Delta(Add(TotalProcessed, 1), c) + Delta(Add(TotalBytes, e.bytes), c)
            + (if e.failed then Delta(Add(ErrorEvents, 1), c) else 0)
            + (if c == TotalLatency then e.latency else if c == CountLatency && e.latency > 0 then 1 else 0)
            + (if Category(e) == c then 1 else 0)
            + (if !e.serial && e.hasPacket then Layer3Due(e.l3, c) else 0)
  {
  }

  lemma ReachableCounted(ls: seq<Label>)
    requires IsRun(Init(), ls)
    ensures Counted(After(Init(), ls))
  {
    CountedRun(Init(), ls);
  }

  // The ledger

  /** Calls that have been counted in `TotalProcessed` and not yet in a category. */
  function InFlight(ks: seq<Call>): nat {
    if ks == [] then 0
    else (if 0 < ks[0].pc < |Program(ks[0].e)| then 1 else 0) + InFlight(ks[1..])
  }

  lemma {:induction false} LedgerSum(ks: seq<Call>)
    requires forall i :: 0 <= i < |ks| ==> ks[i].pc <= |Program(ks[i].e)|
    ensures Total(ks, TotalProcessed) ==
            Total(ks, SerialCount) + Total(ks, TCPCount) + Total(ks, UDPCount) + Total(ks, ICMPCount)
            + Total(ks, OtherCount) + InFlight(ks)
    ensures Total(ks, TotalProcessed) <= |ks|
  {
    if ks != [] {
      LedgerSum(ks[1..]);
      ProcessedPart(ks[0]);
      CategoryPart(ks[0], SerialCount);
      CategoryPart(ks[0], TCPCount);
      CategoryPart(ks[0], UDPCount);
      CategoryPart(ks[0], ICMPCount);
      CategoryPart(ks[0], OtherCount);
      ProgramShape(ks[0].e);
      hide Program;
      hide Part;
    }
  }

  lemma Exact(s: State, c: Counter)
    requires Counted(s) && Total(s.calls, c) < U64
    ensures s.counters(c) == Total(s.calls, c)
  {
    hide Total;
  }

  /**
   In every reachable state the processed total exceeds the sum of the five
   categories by exactly the number of calls in flight; once all calls have
   returned they are equal. (Fewer than 2^64 calls.)
   */
  lemma Ledger(ls: seq<Label>)
    requires IsRun(Init(), ls) && |After(Init(), ls).calls| < U64
    ensures var s := After(Init(), ls);
            s.counters(TotalProcessed) ==
            s.counters(SerialCount) + s.counters(TCPCount) + s.counters(UDPCount) + s.counters(ICMPCount)
            + s.counters(OtherCount) + InFlight(s.calls)
  {
    ReachableCounted(ls);
    var s := After(Init(), ls);
    LedgerSum(s.calls);
    hide Total;
    hide Counted;
    Exact(s, TotalProcessed);
    Exact(s, SerialCount);
    Exact(s, TCPCount);
    Exact(s, UDPCount);
    Exact(s, ICMPCount);
    Exact(s, OtherCount);
  }

  /** Layer 4 is only ever set on top of an IP layer: what the dissector guarantees of its packets. */
  predicate Layered(e: Event) {
    e.l4.L4None? || e.l3.L3IPv4? || e.l3.L3IPv6?
  }

  lemma PartBound(k: Call, c: Counter)
    requires k.pc <= |Program(k.e)|
    ensures Part(k, c) <= Due(k.e, c)
    ensures k.pc == |Program(k.e)| ==> Part(k, c) == Due(k.e, c)
    ensures k.pc == 0 ==> Part(k, c) == 0
  {
    ProgramAmount(k.e, c);
    hide Program;
    hide Due;
    var p := Program(k.e);
    assert p == p[..k.pc] + p[k.pc..];
    AmountConcat(p[..k.pc], p[k.pc..], c);
    if k.pc == |p| {
      assert p[..k.pc] == p;
    }
  }

  lemma LayersPart(k: Call)
    requires k.pc <= |Program(k.e)|
    ensures Part(k, IPv4Count) + Part(k, IPv6Count) + Part(k, ARPCount) + Part(k, SerialCount)
            <= Part(k, TotalProcessed)
    ensures Layered(k.e) ==>
              Part(k, TCPCount) + Part(k, UDPCount) + Part(k, ICMPCount) <= Part(k, IPv4Count) + Part(k, IPv6Count)
  {
    ProcessedPart(k);
    PartBound(k, IPv4Count);
    PartBound(k, IPv6Count);
    PartBound(k, ARPCount);
    PartBound(k, SerialCount);
    CategoryPart(k, TCPCount);
    CategoryPart(k, UDPCount);
    CategoryPart(k, ICMPCount);
    hide Program;
    hide Part;
  }

  lemma {:induction false} LayersSum(ks: seq<Call>)
    requires forall i :: 0 <= i < |ks| ==> ks[i].pc <= |Program(ks[i].e)|
    ensures Total(ks, IPv4Count) + Total(ks, IPv6Count) + Total(ks, ARPCount) + Total(ks, SerialCount)
            <= Total(ks, TotalProcessed)
    ensures (forall i :: 0 <= i < |ks| ==> Layered(ks[i].e)) ==>
              Total(ks, TCPCount) + Total(ks, UDPCount) + Total(ks, ICMPCount)
              <= Total(ks, IPv4Count) + Total(ks, IPv6Count)
  {
    hide Program;
    hide Part;
    hide Layered;
    if ks != [] {
      LayersSum(ks[1..]);
      LayersPart(ks[0]);
    }
  }

  /**
   Layer 3 packets never outnumber processed non-serial events, and when
   packets come from the dissector, transport packets never outnumber IP ones:
   in every reachable state, not only at rest.
   */
  lemma LayerLedger(ls: seq<Label>)
    requires IsRun(Init(), ls) && |After(Init(), ls).calls| < U64
    ensures var s := After(Init(), ls);
            && s.counters(IPv4Count) + s.counters(IPv6Count) + s.counters(ARPCount) + s.counters(SerialCount)
               <= s.counters(TotalProcessed)
            && ((forall i :: 0 <= i < |s.calls| ==> Layered(s.calls[i].e)) ==>
                  s.counters(TCPCount) + s.counters(UDPCount) + s.counters(ICMPCount)
                  <= s.counters(IPv4Count) + s.counters(IPv6Count))
  {
    ReachableCounted(ls);
    var s := After(Init(), ls);
    LedgerSum(s.calls);
    LayersSum(s.calls);
    hide Total;
    hide Counted;
    hide Layered;
    Exact(s, TotalProcessed);
    Exact(s, SerialCount);
    Exact(s, TCPCount);
    Exact(s, UDPCount);
    Exact(s, ICMPCount);
    Exact(s, IPv4Count);
    Exact(s, IPv6Count);
    Exact(s, ARPCount);
  }

  // At rest

  predicate AllDone(ks: seq<Call>) {
    forall i :: 0 <= i < |ks| ==> !Running(ks[i])
  }

  /** The sum over all events of what each is due. */
  function DueSum(ks: seq<Call>, c: Counter): nat {
    if ks == [] then 0 else Due(ks[0].e, c) + DueSum(ks[1..], c)
  }

  lemma {:induction false} TotalIsDue(ks: seq<Call>, c: Counter)
    requires forall i :: 0 <= i < |ks| ==> ks[i].pc == |Program(ks[i].e)|
    ensures Total(ks, c) == DueSum(ks, c)
  {
    hide Program;
    hide Due;
    if ks != [] {
      TotalIsDue(ks[1..], c);
      PartBound(ks[0], c);
    }
  }

  /** Once every call has returned each counter holds the exact sum over the events, at its width. */
  lemma AtRest(ls: seq<Label>, c: Counter)
    requires IsRun(Init(), ls) && AllDone(After(Init(), ls).calls)
    ensures After(Init(), ls).counters(c) == DueSum(After(Init(), ls).calls, c) % U64
  {
    ReachableCounted(ls);
    var s := After(Init(), ls);
    hide Program;
    hide Total;
    hide DueSum;
    assert s.counters(c) == Total(s.calls, c) % U64;
    TotalIsDue(s.calls, c);
  }

  lemma {:induction false} NoneInFlight(ks: seq<Call>)
    requires AllDone(ks)
    ensures InFlight(ks) == 0
  {
    hide Program;
    if ks != [] {
      NoneInFlight(ks[1..]);
      assert !Running(ks[0]);
    }
  }

  lemma {:induction false} ProcessedDue(ks: seq<Call>)
    ensures DueSum(ks, TotalProcessed) == |ks|
  {
    if ks != [] {
      ProcessedDue(ks[1..]);
    }
  }

  /** At rest the processed total is the number of calls. */
  lemma ProcessedAtRest(ls: seq<Label>)
    requires IsRun(Init(), ls) && AllDone(After(Init(), ls).calls) && |After(Init(), ls).calls| < U64
    ensures After(Init(), ls).counters(TotalProcessed) == |After(Init(), ls).calls|
  {
    AtRest(ls, TotalProcessed);
    ProcessedDue(After(Init(), ls).calls);
    hide DueSum;
    hide AllDone;
  }

  // Snapshots

  lemma TotalStep(s: State, l: Label, c: Counter)
    requires Counted(s) && Enabled(s, l)
    ensures Total(s.calls, c) <= Total(Apply(s, l).calls, c)
  {
    match l
    case Begin(e) => TotalAppend(s.calls, NewCall(e), c);
    case Step(i) =>
      hide Program;
      PartTurn(s, s.calls[i], c);
      hide Turn;
      TotalUpdate(s.calls, i, Turn(s, s.calls[i]).1, c);
  }

  lemma {:induction false} TotalRun(s: State, ls: seq<Label>, c: Counter)
    requires Counted(s) && IsRun(s, ls)
    ensures Total(s.calls, c) <= Total(After(s, ls).calls, c)
    decreases |ls|
  {
    hide Counted;
    hide Total;
    if ls != [] {
      TotalStep(s, ls[0], c);
      CountedStep(s, ls[0]);
      TotalRun(Apply(s, ls[0]), ls[1..], c);
    }
  }

  /**
   A snapshot loads each counter on its own, while calls go on. A later load
   of a counter, however much later, is never below an earlier one, until the
   counter exceeds 64 bits.
   */
  lemma SnapshotsMonotone(ls: seq<Label>, more: seq<Label>, c: Counter)
    requires IsRun(Init(), ls) && IsRun(After(Init(), ls), more)
    requires Total(After(After(Init(), ls), more).calls, c) < U64
    ensures After(Init(), ls).counters(c) <= After(After(Init(), ls), more).counters(c)
  {
    ReachableCounted(ls);
    var s := After(Init(), ls);
    CountedRun(s, more);
    TotalRun(s, more, c);
    hide Total;
    hide Counted;
    Exact(s, c);
    Exact(After(s, more), c);
  }
}
