/**
 `StatsSink` as the class it is: the shared words, the body of `OnEvent` with
 its two compare-and-swap loops, `RecordDrop` and `Snapshot`. Before every
 access to a shared word the other goroutines may take any steps of calls of
 their own: which ones is the `schedule`, an input like any other. Each access
 is also taken as a step of the transition system in `Stats`, so the body is
 shown to perform exactly the actions of `Program` whatever comes between
 them, a swap fails when another call has come first, and everything proved
 there of all interleavings holds of the words here.
 */
module StatsSink {
  import opened Prelude
  import opened Bytes
  import opened Stats
  import opened StatsCounters
  import opened StatsExtremes

  /** The integers of a snapshot; rates and the textual summary are left out. */
  datatype Snapshot = Snapshot(counters: map<Counter, nat>, dropped: nat,
                               minLatency: nat, avgLatency: nat, maxLatency: nat)

  /** Calls only ever go forward, and the one numbered `me` has not moved. */
  ghost predicate Kept(me: Option<nat>, before: seq<Call>, after: seq<Call>) {
    && |before| <= |after|
    && (forall i :: 0 <= i < |before| ==> after[i].e == before[i].e && before[i].pc <= after[i].pc)
    && (me.Some? && me.value < |before| ==> after[me.value] == before[me.value])
  }

  /** The 64-bit image of some number between `lo` and `hi`. */
  ghost predicate Between64(v: nat, lo: nat, hi: nat) {
    exists t: nat :: lo <= t <= hi && v == Wrapped(t)
  }

  /** Later calls have added no less to any counter. */
  ghost predicate Later(a: seq<Call>, b: seq<Call>) {
    forall c :: Total(a, c) <= Total(b, c)
  }

  /** A later minimum, once set, is no higher, and a later maximum no lower. */
  predicate Wider(min: nat, max: nat, laterMin: nat, laterMax: nat) {
    (min != 0 ==> 0 < laterMin <= min) && max <= laterMax
  }

  /** Each value was loaded between the moments `a` and `b`. */
  ghost predicate Seen(loads: map<Counter, nat>, a: seq<Call>, b: seq<Call>) {
    forall c :: c in loads ==> Between64(loads[c], Total(a, c), Total(b, c))
  }

  class StatsSink {
    var counters: Counter -> nat
    var dropped: nat
    var min: nat
    var max: nat
    var schedule: seq<seq<Label>>  // what the other goroutines do before each access
    var s: State                   // the same words in the transition system, with all calls begun
    ghost var run: seq<Label>      // the steps that led there
    ghost var todo: seq<Action>    // what the call in hand still has to do

    /** The words are those of a reachable state. */
    ghost predicate Linked()
      reads this
    {
      && IsRun(Init(), run) && After(Init(), run) == s
      && s.counters == counters && s.min == min && s.max == max
    }

    ghost predicate Valid()
      reads this
    {
      Linked() && dropped < U64
    }

    /** Call number `me`, for `e`, is outside its loops with `todo` ahead of it. */
    ghost predicate Inside(e: Event, me: nat)
      reads this
    {
      match s
      case State(_, _, _, _, _, calls) =>
        && Linked() && dropped < U64 && me < |calls|
        && var k := calls[me];
           k.e == e && k.loaded.None? && k.pc <= |Program(e)| && Program(e)[k.pc..] == todo
    }

    constructor (schedule: seq<seq<Label>>)
      ensures Valid() && run == [] && s.calls == [] && this.schedule == schedule
      ensures dropped == 0 && min == 0 && max == 0 && forall c :: counters(c) == 0
    {
      counters := Init().counters;
      dropped, min, max := 0, 0, 0;
      this.schedule := schedule;
      s, run, todo := Init(), [], [];
    }

    /** One step of the transition system, on the words too. */
    method Do(l: Label)
      requires Linked() && Enabled(s, l)
      modifies `counters, `min, `max, `s, `run
      ensures Linked() && s == Apply(old(s), l) && run == old(run) + [l]
    {
      RunSnoc(Init(), run, l);
      run := run + [l];
      s := Apply(s, l);
      counters, min, max := s.counters, s.min, s.max;
    }

    /** The others do the next part of the schedule, as far as its steps are possible and not those of call `me`. */
    method Yield(me: Option<nat>)
      requires Linked()
      modifies `counters, `min, `max, `s, `run, `schedule
      ensures Linked() && Kept(me, old(s).calls, s.calls) && old(run) <= run
      ensures schedule == if old(schedule) == [] then [] else old(schedule)[1..]
      ensures old(schedule) == [] ==> s == old(s) && run == old(run) && min == old(min) && max == old(max)
      ensures Later(old(s).calls, s.calls) && Wider(old(min), old(max), min, max)
    {
      hide Program;
      hide Later;
      LaterSame(s.calls);
      if schedule == [] {
        return;
      }
      var turns := schedule[0];
      schedule := schedule[1..];
      var i := 0;
      while i < |turns|
        invariant i <= |turns|
        invariant Linked() && Kept(me, old(s).calls, s.calls) && old(run) <= run
        invariant schedule == old(schedule)[1..]
        invariant Later(old(s).calls, s.calls) && Wider(old(min), old(max), min, max)
      {
        var l := turns[i];
        if Enabled(s, l) && !(me.Some? && l == Step(me.value)) {
          KeptStep(me, old(s).calls, s, l);
          LaterStep(run, old(s).calls, l);
          WiderStep(run, l);
          Do(l);
        }
        i := i + 1;
      }
    }

    /** Call `me` has taken its next step; the word it touches is still to be written. */
    method Note(me: nat)
      requires Linked() && me < |s.calls| && Running(s.calls[me])
      modifies `s, `run
      ensures s == Apply(old(s), Step(me)) && IsRun(Init(), run) && After(Init(), run) == s
      ensures Onward(me, old(Here()), Here())
    {
      RunSnoc(Init(), run, Step(me));
      KeptStep(None, s.calls, s, Step(me));
      run := run + [Step(me)];
      s := Apply(s, Step(me));
      hide Program;
    }

    ghost function Here(): Mark
      reads this
    {
      Mark(s.calls, run, schedule)
    }

    /** `atomic.AddUint64`. */
    method AtomicAdd(e: Event, me: nat, c: Counter, n: nat)
      requires Inside(e, me) && todo != [] && todo[0] == Add(c, n)
      modifies `counters, `min, `max, `s, `run, `schedule, `todo
      ensures Inside(e, me) && todo == old(todo)[1..]
      ensures Onward(me, old(Here()), Here())
    {
      hide Program;
      hide Onward;
      ghost var start := Here();
      Yield(Some(me));
      YieldIsOnward(me, start, Here());
      ghost var yielded, pc := Here(), s.calls[me].pc;
      assert Program(e)[pc] == todo[0] && Program(e)[pc + 1..] == todo[1..];
      AddTurn(s, me, c, n);
      Note(me);
      Further(me, start, yielded, Here());
      counters := Bumped(counters, c, n);
      todo := todo[1..];
    }

    /** Call `me`, for `e`, is outside its loops at action `pc`. */
    ghost predicate At(me: nat, e: Event, pc: nat)
      reads this
    {
      match s
      case State(_, _, _, _, _, calls) =>
        && me < |calls| && calls[me].e == e && calls[me].loaded.None? && calls[me].pc == pc
        && pc <= |Program(e)|
    }

    /** Call `me`, for `e`, is inside its loop at action `pc`, having found the word to be `current`. */
    ghost predicate Loading(me: nat, e: Event, pc: nat, current: nat)
      reads this
    {
      match s
      case State(_, _, _, _, _, calls) =>
        && me < |calls| && calls[me].e == e && calls[me].pc == pc && pc <= |Program(e)|
        && calls[me].loaded.Some? && calls[me].loaded.value.value == current
    }

    /** The swap of the minimum loop; it fails when another call has overtaken this one since the load. */
    method LowerSwap(e: Event, me: nat, ghost pc: nat, current: nat) returns (swapped: bool)
      requires Linked() && Loading(me, e, pc, current) && pc < |Program(e)| && Program(e)[pc] == LowerMin
      requires min == current
      modifies `counters, `min, `max, `s, `run, `schedule
      ensures Linked() && At(me, e, if swapped then pc + 1 else pc)
      ensures Onward(me, old(Here()), Here())
      ensures !swapped ==> |schedule| < |old(schedule)|
    {
      hide Program;
      hide Onward;
      hide Apply;
      ghost var start := Here();
      Yield(Some(me));
      YieldIsOnward(me, start, Here());
      ghost var yielded := Here();
      OnwardShortens(me, start, yielded);
      swapped := min == current;
      SwapMin(s, me);
      Note(me);
      Further(me, start, yielded, Here());
      OnwardShortens(me, yielded, Here());
      if swapped {
        min := e.latency;
      }
    }

    /** One turn of the minimum loop: load, and swap unless the word is low enough. */
    method LowerTurn(e: Event, me: nat, ghost pc: nat) returns (done: bool)
      requires Linked() && At(me, e, pc) && pc < |Program(e)| && Program(e)[pc] == LowerMin
      modifies `counters, `min, `max, `s, `run, `schedule
      ensures Linked() && At(me, e, if done then pc + 1 else pc)
      ensures Onward(me, old(Here()), Here())
      ensures !done ==> |schedule| < |old(schedule)|
    {
      hide Program;
      hide Onward;
      hide Apply;
      ghost var start := Here();
      Yield(Some(me));
      YieldIsOnward(me, start, Here());
      ghost var yielded := Here();
      var current := min;
      LoadMin(s, me);
      Note(me);
      Further(me, start, yielded, Here());
      if current != 0 && current <= e.latency {
        return true;
      }
      yielded := Here();
      OnwardShortens(me, start, yielded);
      done := LowerSwap(e, me, pc, current);
      Further(me, start, yielded, Here());
    }

    /** The loop that lowers the minimum; zero means unset. */
    method LowerLoop(e: Event, me: nat)
      requires Inside(e, me) && todo != [] && todo[0] == LowerMin
      modifies `counters, `min, `max, `s, `run, `schedule, `todo
      ensures Inside(e, me) && todo == old(todo)[1..] && 0 < min <= e.latency
      ensures Onward(me, old(Here()), Here())
    {
      hide Program;
      hide Onward;
      ghost var start, pc := Here(), s.calls[me].pc;
      assert Program(e)[pc] == todo[0] && Program(e)[pc + 1..] == todo[1..];
      OnwardFrom(me, start);
      var done := false;
      while !done
        invariant Linked() && todo == old(todo) && At(me, e, if done then pc + 1 else pc)
        invariant Onward(me, start, Here())
        decreases |schedule|, !done
      {
        ghost var before := Here();
        done := LowerTurn(e, me, pc);
        Further(me, start, before, Here());
        OnwardShortens(me, before, Here());
      }
      PastMinimum(run, me, pc);
      todo := todo[1..];
    }

    /** The swap of the maximum loop; it fails when another call has overtaken this one since the load. */
    method RaiseSwap(e: Event, me: nat, ghost pc: nat, current: nat) returns (swapped: bool)
      requires Linked() && Loading(me, e, pc, current) && pc < |Program(e)| && Program(e)[pc] == RaiseMax
      requires max == current
      modifies `counters, `min, `max, `s, `run, `schedule
      ensures Linked() && At(me, e, if swapped then pc + 1 else pc)
      ensures Onward(me, old(Here()), Here())
      ensures !swapped ==> |schedule| < |old(schedule)|
    {
      hide Program;
      hide Onward;
      hide Apply;
      ghost var start := Here();
      Yield(Some(me));
      YieldIsOnward(me, start, Here());
      ghost var yielded := Here();
      OnwardShortens(me, start, yielded);
      swapped := max == current;
      SwapMax(s, me);
      Note(me);
      Further(me, start, yielded, Here());
      OnwardShortens(me, yielded, Here());
      if swapped {
        max := e.latency;
      }
    }

    /** One turn of the maximum loop. */
    method RaiseTurn(e: Event, me: nat, ghost pc: nat) returns (done: bool)
      requires Linked() && At(me, e, pc) && pc < |Program(e)| && Program(e)[pc] == RaiseMax
      modifies `counters, `min, `max, `s, `run, `schedule
      ensures Linked() && At(me, e, if done then pc + 1 else pc)
      ensures Onward(me, old(Here()), Here())
      ensures !done ==> |schedule| < |old(schedule)|
    {
      hide Program;
      hide Onward;
      hide Apply;
      ghost var start := Here();
      Yield(Some(me));
      YieldIsOnward(me, start, Here());
      ghost var yielded := Here();
      var current := max;
      LoadMax(s, me);
      Note(me);
      Further(me, start, yielded, Here());
      if current >= e.latency {
        return true;
      }
      yielded := Here();
      OnwardShortens(me, start, yielded);
      done := RaiseSwap(e, me, pc, current);
      Further(me, start, yielded, Here());
    }

    /** The loop that raises the maximum. */
    method RaiseLoop(e: Event, me: nat)
      requires Inside(e, me) && todo != [] && todo[0] == RaiseMax
      modifies `counters, `min, `max, `s, `run, `schedule, `todo
      ensures Inside(e, me) && todo == old(todo)[1..] && e.latency <= max
      ensures Onward(me, old(Here()), Here())
    {
      hide Program;
      hide Onward;
      ghost var start, pc := Here(), s.calls[me].pc;
      assert Program(e)[pc] == todo[0] && Program(e)[pc + 1..] == todo[1..];
      OnwardFrom(me, start);
      var done := false;
      while !done
        invariant Linked() && todo == old(todo) && At(me, e, if done then pc + 1 else pc)
        invariant Onward(me, start, Here())
        decreases |schedule|, !done
      {
        ghost var before := Here();
        done := RaiseTurn(e, me, pc);
        Further(me, start, before, Here());
        OnwardShortens(me, before, Here());
      }
      PastMaximum(run, me, pc);
      todo := todo[1..];
    }

    // OnEvent

    /** A new call. */
    method Begin(e: Event) returns (me: nat)
      requires Valid() && e.latency < U64
      modifies `s, `run, `todo
      ensures Inside(e, me) && todo == Program(e)
      ensures me == |old(s).calls| && s.calls == old(s).calls + [NewCall(e)] && run == old(run) + [Label.Begin(e)]
    {
      RunSnoc(Init(), run, Label.Begin(e));
      hide Program;
      me := |s.calls|;
      run := run + [Label.Begin(e)];
      s := Apply(s, Label.Begin(e));
      todo := Program(e);
      Whole(Program(e));
    }

    /** The first part of `OnEvent`. */
    method RecordArrival(e: Event, me: nat, ghost rest: seq<Action>)
      requires Inside(e, me) && todo == ArrivalActions(e) + rest
      modifies `counters, `min, `max, `s, `run, `schedule, `todo
      ensures Inside(e, me) && todo == rest && Onward(me, old(Here()), Here())
    {
      hide Inside;
      hide Onward;
      ghost var start := Here();
      AtomicAdd(e, me, TotalProcessed, 1);
      ghost var here := Here();
      AtomicAdd(e, me, TotalBytes, e.bytes);
      Further(me, start, here, Here());
      if e.failed {
        here := Here();
        AtomicAdd(e, me, ErrorEvents, 1);
        Further(me, start, here, Here());
      }
      assert todo == rest;
    }

    /** The latency part of `OnEvent`, which a latency of zero skips. */
    method RecordLatency(e: Event, me: nat, ghost rest: seq<Action>)
      requires Inside(e, me) && todo == LatencyActions(e) + rest
      modifies `counters, `min, `max, `s, `run, `schedule, `todo
      ensures Inside(e, me) && todo == rest && Onward(me, old(Here()), Here())
    {
      hide Inside;
      hide Onward;
      ghost var start := Here();
      OnwardFrom(me, start);
      if e.latency > 0 {
        AtomicAdd(e, me, TotalLatency, e.latency);
        ghost var here := Here();
        AtomicAdd(e, me, CountLatency, 1);
        Further(me, start, here, Here());
        here := Here();
        LowerLoop(e, me);
        Further(me, start, here, Here());
        here := Here();
        RaiseLoop(e, me);
        Further(me, start, here, Here());
      }
      assert todo == rest;
    }

    /** The protocol part of `OnEvent`. */
    method Categorise(e: Event, me: nat)
      requires Inside(e, me) && todo == ProtocolActions(e)
      modifies `counters, `min, `max, `s, `run, `schedule, `todo
      ensures Inside(e, me) && todo == [] && Onward(me, old(Here()), Here())
    {
      hide Inside;
      hide Onward;
      if e.serial {
        AtomicAdd(e, me, SerialCount, 1);
        return;
      }
      if e.hasPacket {
        ghost var start := Here();
        OnwardFrom(me, start);
        if e.l3.L3IPv4? {
          AtomicAdd(e, me, IPv4Count, 1);
        } else if e.l3.L3IPv6? {
          AtomicAdd(e, me, IPv6Count, 1);
        } else if e.l3.L3ARP? {
          AtomicAdd(e, me, ARPCount, 1);
        }
        assert todo == [Add(Layer4Counter(e.l4), 1)];
        ghost var here := Here();
        if e.l4.L4TCP? {
          AtomicAdd(e, me, TCPCount, 1);
        } else if e.l4.L4UDP? {
          AtomicAdd(e, me, UDPCount, 1);
        } else if e.l4.L4ICMP? {
          AtomicAdd(e, me, ICMPCount, 1);
        } else {
          AtomicAdd(e, me, OtherCount, 1);
        }
        Further(me, start, here, Here());
      } else {
        AtomicAdd(e, me, OtherCount, 1);
      }
    }

    /**
     `OnEvent`, with any steps of other calls between its own: a new call that
     has done the actions of the event's program, in its order and each once,
     when it returns. By then its latency, when positive, lies between the two
     extremes. With no one else about no other call has moved.
     */
    method OnEvent(e: Event) returns (ghost me: nat)
      requires Valid() && e.latency < U64
      modifies `counters, `min, `max, `s, `run, `schedule, `todo
      ensures Valid() && dropped == old(dropped)
      ensures me == |old(s).calls| < |s.calls| && s.calls[me].e == e && s.calls[me].pc == |Program(e)|
      ensures Kept(None, old(s).calls, s.calls) && old(run) <= run && |schedule| <= |old(schedule)|
      ensures forall c :: Part(s.calls[me], c) == Due(e, c)
      ensures e.latency > 0 ==> 0 < min <= e.latency <= max
      ensures old(schedule) == [] ==> s.calls[..|s.calls| - 1] == old(s).calls
      ensures old(schedule) == [] ==> forall c :: counters(c) == Wrapped(old(counters(c)) + Due(e, c))
    {
      ProgramParts(e);
      hide Program;
      hide LatencyActions;
      hide ProtocolActions;
      hide Onward;
      hide Inside;
      var i := Begin(e);
      me := i;
      ghost var start := Here();
      RecordArrival(e, i, LatencyActions(e) + ProtocolActions(e));
      ghost var here := Here();
      RecordLatency(e, i, ProtocolActions(e));
      Further(i, start, here, Here());
      here := Here();
      Categorise(e, i);
      Further(i, start, here, Here());
      Returned(e, me);
      CallWas(start, Here(), me, old(s).calls);
      DoneBetween(run, me);
      PartIsDue(s.calls[me]);
      if old(schedule) == [] {
        OneMore(old(run), run, e);
      }
    }

    /** With nothing left to do the call is over. */
    lemma Returned(e: Event, me: nat)
      requires Inside(e, me) && todo == []
      ensures Valid() && me < |s.calls| && s.calls[me].e == e && s.calls[me].pc == |Program(e)|
    {
      assert |Program(e)[s.calls[me].pc..]| == 0;
    }

    /** `RecordDrop`. */
    method RecordDrop()
      requires Valid()
      modifies `dropped
      ensures Valid() && dropped == (old(dropped) + 1) % U64
    {
      dropped := (dropped + 1) % U64;
    }

    // Snapshot

    /** Loads one more counter, the others having gone on meanwhile. */
    method Load(c: Counter, loads: map<Counter, nat>, ghost first: seq<Call>) returns (more: map<Counter, nat>)
      requires Linked() && Seen(loads, first, s.calls) && Later(first, s.calls)
      modifies `counters, `min, `max, `s, `run, `schedule
      ensures Linked() && Seen(more, first, s.calls) && Later(first, s.calls)
      ensures forall d :: d in more <==> d in loads || d == c
      ensures forall d :: d in loads && d != c ==> more[d] == loads[d]
      ensures Wider(old(min), old(max), min, max)
      ensures old(schedule) == [] ==> schedule == [] && s == old(s) && min == old(min) && max == old(max)
    {
      hide Later;
      hide Seen;
      ghost var before := s.calls;
      Yield(None);
      more := loads[c := counters(c)];
      ReachableCounted(run);
      SeenLater(loads, first, before, s.calls);
      LaterStill(first, before, s.calls);
      SeenMore(loads, first, s, c);
    }

    /** Loads the counters `cs` one after another. */
    method LoadAll(cs: seq<Counter>, loads: map<Counter, nat>, ghost first: seq<Call>) returns (more: map<Counter, nat>)
      requires Linked() && Seen(loads, first, s.calls) && Later(first, s.calls)
      modifies `counters, `min, `max, `s, `run, `schedule
      ensures Linked() && Seen(more, first, s.calls) && Later(first, s.calls)
      ensures forall d :: d in more <==> d in loads || d in cs
      ensures forall d :: d in loads && d !in cs ==> more[d] == loads[d]
      ensures Wider(old(min), old(max), min, max)
      ensures old(schedule) == [] ==> schedule == [] && s == old(s) && min == old(min) && max == old(max)
    {
      hide Later;
      hide Seen;
      hide Linked;
      more := loads;
      var i := 0;
      while i < |cs|
        invariant i <= |cs|
        invariant Linked() && Seen(more, first, s.calls) && Later(first, s.calls)
        invariant forall d :: d in more <==> d in loads || d in cs[..i]
        invariant forall d :: d in loads && d !in cs[..i] ==> more[d] == loads[d]
        invariant Wider(old(min), old(max), min, max)
        invariant old(schedule) == [] ==> schedule == [] && s == old(s) && min == old(min) && max == old(max)
      {
        assert cs[..i + 1] == cs[..i] + [cs[i]];
        more := Load(cs[i], more, first);
        i := i + 1;
      }
      assert cs[..i] == cs;
    }

    /** The first load, of the processed total. */
    method LoadFirst() returns (loads: map<Counter, nat>, ghost first: seq<Call>)
      requires Linked()
      modifies `counters, `min, `max, `s, `run, `schedule
      ensures Linked() && first == s.calls && Later(old(s).calls, first) && Later(first, s.calls)
      ensures loads.Keys == {TotalProcessed} && loads[TotalProcessed] == Wrapped(Total(first, TotalProcessed))
      ensures Seen(loads, first, s.calls) && Started(first)
      ensures Wider(old(min), old(max), min, max)
      ensures old(schedule) == [] ==> schedule == [] && s == old(s) && min == old(min) && max == old(max)
    {
      hide Later;
      hide Seen;
      Yield(None);
      first := s.calls;
      LaterSame(first);
      loads := map[TotalProcessed := counters(TotalProcessed)];
      ReachableCounted(run);
      FirstSeen(s);
      hide Total;
    }

    method LoadExtremes(loads: map<Counter, nat>, ghost first: seq<Call>) returns (lowest: nat, highest: nat)
      requires Linked() && Seen(loads, first, s.calls) && Later(first, s.calls)
      modifies `counters, `min, `max, `s, `run, `schedule
      ensures Linked() && Seen(loads, first, s.calls) && Later(first, s.calls)
      ensures Wider(old(min), old(max), lowest, highest) && Wider(lowest, highest, min, max)
      ensures old(schedule) == [] ==>
                schedule == [] && s == old(s) && lowest == min == old(min) && highest == max == old(max)
    {
      hide Later;
      hide Seen;
      ghost var before := s.calls;
      Yield(None);
      SeenLater(loads, first, before, s.calls);
      LaterStill(first, before, s.calls);
      lowest := min;
      before := s.calls;
      Yield(None);
      SeenLater(loads, first, before, s.calls);
      LaterStill(first, before, s.calls);
      highest := max;
    }

    /**
     `Snapshot`, while calls go on. It is no single moment of the counters: each
     value is that of its counter at some moment between the first load and the
     return, so a later snapshot shows no less, and the processed total exceeds
     the sum of the categories by no more than the calls in flight at the first
     load, when the calls were `first`. With no one about, and every call over,
     it is the exact account of their events.
     */
    method TakeSnapshot() returns (snap: Snapshot, ghost first: seq<Call>)
      requires Valid()
      modifies `counters, `min, `max, `s, `run, `schedule
      ensures Valid() && dropped == old(dropped) == snap.dropped
      ensures Later(old(s).calls, first) && Later(first, s.calls)
      ensures Complete(snap.counters) && Seen(snap.counters, first, s.calls)
      ensures Wider(old(min), old(max), snap.minLatency, snap.maxLatency)
      ensures Wider(snap.minLatency, snap.maxLatency, min, max)
      ensures snap.avgLatency == if snap.counters[CountLatency] == 0 then 0
                                 else snap.counters[TotalLatency] / snap.counters[CountLatency]
      ensures |s.calls| < U64 ==> snap.counters[TotalProcessed] <= Categories(snap.counters) + InFlight(first)
      ensures old(schedule) == [] ==> s == old(s) && schedule == []
      ensures old(schedule) == [] && AllDone(s.calls) ==> Settled(snap, s.calls)
    {
      hide Later;
      hide Linked;
      hide InFlight;
      hide Seen;
      hide Started;
      hide Settled;
      hide Complete;
      var processed, loads;
      processed, first := LoadFirst();
      loads := LoadAll(BEFORE, processed, first);
      ghost var some := loads;
      var lowest, highest := LoadExtremes(loads, first);
      loads := LoadAll(AFTER, loads, first);
      AllLoaded(processed, some, loads);
      var average := Mean(loads[TotalLatency], loads[CountLatency]);
      snap := Snapshot(loads, dropped, lowest, average, highest);
      AllStarted();
      if |s.calls| < U64 {
        SnapshotLedger(loads, first, s.calls);
      }
      if old(schedule) == [] && AllDone(s.calls) {
        SnapshotSettled(snap, first);
      }
    }

    lemma AllStarted()
      requires Linked()
      ensures Started(s.calls)
    {
      ReachableCounted(run);
    }

    lemma SnapshotSettled(snap: Snapshot, first: seq<Call>)
      requires Linked() && AllDone(s.calls) && first == s.calls
      requires Complete(snap.counters)
      requires Seen(snap.counters, first, s.calls) && snap.minLatency == min && snap.maxLatency == max
      requires snap.avgLatency == if snap.counters[CountLatency] == 0 then 0
                                  else snap.counters[TotalLatency] / snap.counters[CountLatency]
      ensures Settled(snap, s.calls)
    {
      hide AllDone;
      forall c ensures snap.counters[c] == DueSum(s.calls, c) % U64 == counters(c) {
        AtRest(run, c);
        ReachableCounted(run);
        assert Between64(snap.counters[c], Total(first, c), Total(s.calls, c));
      }
      forall i | 0 <= i < |s.calls| && s.calls[i].e.latency > 0
        ensures snap.minLatency <= s.calls[i].e.latency <= snap.maxLatency
      {
        DoneInRange(run, i);
      }
      if DueSum(s.calls, TotalLatency) < U64 && DueSum(s.calls, CountLatency) < U64 {
        AverageInRange(run);
      }
    }
  }

  /** The average of a snapshot: zero when nothing was counted. */
  method Mean(total: nat, count: nat) returns (average: nat)
    ensures average == if count == 0 then 0 else total / count
  {
    average := 0;
    if count > 0 {
      average := total / count;
    }
  }

  /** The five counters of which every call ends on one. */
  function Categories(counters: map<Counter, nat>): nat
    requires Complete(counters)
  {
    counters[SerialCount] + counters[TCPCount] + counters[UDPCount] + counters[ICMPCount] + counters[OtherCount]
  }

  /**
   The exact account of events whose calls are over: every counter is what they
   are due, the extremes lie around every positive latency, and the average,
   when the sums have not wrapped, lies between them.
   */
  ghost predicate Settled(snap: Snapshot, calls: seq<Call>) {
    && Complete(snap.counters)
    && (forall c :: snap.counters[c] == DueSum(calls, c) % U64)
    && (forall i :: 0 <= i < |calls| && calls[i].e.latency > 0 ==>
          snap.minLatency <= calls[i].e.latency <= snap.maxLatency)
    && (DueSum(calls, TotalLatency) < U64 && DueSum(calls, CountLatency) < U64 && snap.counters[CountLatency] > 0 ==>
          snap.minLatency <= snap.avgLatency <= snap.maxLatency)
  }

  /** No call is past its program. */
  ghost predicate Started(calls: seq<Call>) {
    forall i :: 0 <= i < |calls| ==> calls[i].pc <= |Program(calls[i].e)|
  }

  /** The counters loaded between the processed total and the extremes, and after these, in order. */
  const BEFORE: seq<Counter> := [TotalBytes, TotalLatency, CountLatency]
  const AFTER: seq<Counter> :=
    [ErrorEvents, IPv4Count, IPv6Count, ARPCount, TCPCount, UDPCount, ICMPCount, SerialCount, OtherCount]

  predicate Complete(loads: map<Counter, nat>) {
    forall c :: c in loads
  }

  lemma IsLoaded(c: Counter)
    ensures c == TotalProcessed || c in BEFORE || c in AFTER
  {
    match c
    case TotalProcessed =>
    case TotalBytes => assert BEFORE[0] == c;
    case TotalLatency => assert BEFORE[1] == c;
    case CountLatency => assert BEFORE[2] == c;
    case ErrorEvents => assert AFTER[0] == c;
    case IPv4Count => assert AFTER[1] == c;
    case IPv6Count => assert AFTER[2] == c;
    case ARPCount => assert AFTER[3] == c;
    case TCPCount => assert AFTER[4] == c;
    case UDPCount => assert AFTER[5] == c;
    case ICMPCount => assert AFTER[6] == c;
    case SerialCount => assert AFTER[7] == c;
    case OtherCount => assert AFTER[8] == c;
  }

  lemma AllLoaded(one: map<Counter, nat>, two: map<Counter, nat>, three: map<Counter, nat>)
    requires TotalProcessed in one
    requires forall d :: d in two <==> d in one || d in BEFORE
    requires forall d :: d in three <==> d in two || d in AFTER
    requires forall d :: d in one && d !in BEFORE ==> two[d] == one[d]
    requires forall d :: d in two && d !in AFTER ==> three[d] == two[d]
    ensures Complete(three) && three[TotalProcessed] == one[TotalProcessed]
    ensures TotalLatency in three && CountLatency in three
  {
    forall c ensures c in three {
      IsLoaded(c);
    }
  }

  /** Below 64 bits a snapshot taken after another shows no less in any counter, whatever goes on meanwhile. */
  lemma SnapshotsRise(one: Snapshot, first: seq<Call>, end: seq<Call>,
                      two: Snapshot, again: seq<Call>, later: seq<Call>, c: Counter)
    requires Complete(one.counters) && Seen(one.counters, first, end) && Later(end, again)
    requires Complete(two.counters) && Seen(two.counters, again, later) && Total(later, c) < U64
    requires Later(again, later)
    ensures one.counters[c] <= two.counters[c]
  {
    assert Total(end, c) <= Total(again, c) <= Total(later, c);
    hide *;
    NoWrap(two.counters, again, later, c);
    NoMore(one.counters, first, end, c);
  }

  /** Nor more than it held in the end. */
  lemma NoMore(loads: map<Counter, nat>, first: seq<Call>, now: seq<Call>, c: Counter)
    requires Complete(loads) && Seen(loads, first, now)
    ensures loads[c] <= Total(now, c)
  {
    hide Total;
    var t: nat :| Total(first, c) <= t <= Total(now, c) && loads[c] == Wrapped(t);
    WrapsDown(t);
    hide Wrapped;
  }

  lemma WrapsDown(n: nat)
    ensures Wrapped(n) <= n
  {
  }

  lemma SnapshotLedger(loads: map<Counter, nat>, first: seq<Call>, now: seq<Call>)
    requires Started(first) && Started(now) && Later(first, now) && Seen(loads, first, now) && Complete(loads)
    requires loads[TotalProcessed] == Wrapped(Total(first, TotalProcessed)) && |now| < U64
    ensures loads[TotalProcessed] <= Categories(loads) + InFlight(first)
  {
    LedgerSum(first);
    LedgerSum(now);
    assert Total(first, TotalProcessed) <= Total(now, TotalProcessed);
    hide *;
    NoWrap(loads, first, now, SerialCount);
    NoWrap(loads, first, now, TCPCount);
    NoWrap(loads, first, now, UDPCount);
    NoWrap(loads, first, now, ICMPCount);
    NoWrap(loads, first, now, OtherCount);
    AddUp(loads, first);
  }

  lemma AddUp(loads: map<Counter, nat>, first: seq<Call>)
    requires Complete(loads) && loads[TotalProcessed] == Wrapped(Total(first, TotalProcessed))
    requires Total(first, TotalProcessed) < U64
    requires Total(first, TotalProcessed) ==
             Total(first, SerialCount) + Total(first, TCPCount) + Total(first, UDPCount) + Total(first, ICMPCount)
             + Total(first, OtherCount) + InFlight(first)
    requires Total(first, SerialCount) <= loads[SerialCount] && Total(first, TCPCount) <= loads[TCPCount]
    requires Total(first, UDPCount) <= loads[UDPCount] && Total(first, ICMPCount) <= loads[ICMPCount]
    requires Total(first, OtherCount) <= loads[OtherCount]
    ensures loads[TotalProcessed] <= Categories(loads) + InFlight(first)
  {
    hide Total;
    hide InFlight;
  }

  /** Below 64 bits a counter loaded later shows at least what it held at first. */
  lemma NoWrap(loads: map<Counter, nat>, first: seq<Call>, now: seq<Call>, c: Counter)
    requires Complete(loads) && Seen(loads, first, now) && Total(now, c) < U64
    ensures Total(first, c) <= loads[c]
  {
    hide Total;
    assert Between64(loads[c], Total(first, c), Total(now, c));
  }

  lemma Whole(p: seq<Action>)
    ensures p[0..] == p
  {
  }

  function ArrivalActions(e: Event): seq<Action> {
    [Add(TotalProcessed, 1), Add(TotalBytes, e.bytes)] + if e.failed then [Add(ErrorEvents, 1)] else []
  }

  lemma ProgramParts(e: Event)
    ensures Program(e) == ArrivalActions(e) + (LatencyActions(e) + ProtocolActions(e))
  {
  }

  // What has happened meanwhile

  /** A moment: the calls begun, the steps taken, and what the others still have to do. */
  datatype Mark = Mark(calls: seq<Call>, run: seq<Label>, schedule: seq<seq<Label>>)

  /** With no one else about, only call `me` has changed. */
  ghost predicate OnlyMoved(me: nat, before: seq<Call>, after: seq<Call>) {
    |after| == |before| && forall i :: 0 <= i < |before| && i != me ==> after[i] == before[i]
  }

  /** From `a` to `b` while `me` is being called: the run and the calls went forward, the schedule got no longer. */
  ghost predicate Onward(me: nat, a: Mark, b: Mark) {
    match a
    case Mark(calls, run, schedule) =>
      && Kept(None, calls, b.calls) && run <= b.run && |b.schedule| <= |schedule|
      && (schedule == [] ==> OnlyMoved(me, calls, b.calls))
  }

  lemma OnwardFrom(me: nat, a: Mark)
    ensures Onward(me, a, a)
  {
  }

  lemma OnwardShortens(me: nat, a: Mark, b: Mark)
    requires Onward(me, a, b)
    ensures |b.schedule| <= |a.schedule|
  {
  }

  lemma Further(me: nat, a: Mark, b: Mark, c: Mark)
    requires Onward(me, a, b) && Onward(me, b, c)
    ensures Onward(me, a, c)
  {
  }

  lemma YieldIsOnward(me: nat, a: Mark, b: Mark)
    requires Kept(Some(me), a.calls, b.calls) && a.run <= b.run && |b.schedule| <= |a.schedule|
    requires a.schedule == [] ==> b.calls == a.calls
    ensures Onward(me, a, b)
  {
  }

  /** What a call that began in `start` finds around it in the end. */
  lemma CallWas(start: Mark, end: Mark, me: nat, before: seq<Call>)
    requires Onward(me, start, end) && me == |before| && |start.calls| == me + 1 && start.calls[..me] == before
    ensures Kept(None, before, end.calls) && start.run <= end.run && |end.schedule| <= |start.schedule|
    ensures start.schedule == [] ==> |end.calls| == me + 1 && end.calls[..me] == before
  {
    assert forall i :: 0 <= i < me ==> before[i] == start.calls[i];
  }

  /** A call that is done has its latency between the extremes, whatever other calls are doing. */
  lemma DoneBetween(ls: seq<Label>, me: nat)
    requires IsRun(Init(), ls) && me < |After(Init(), ls).calls|
    requires var k := After(Init(), ls).calls[me]; k.pc == |Program(k.e)|
    ensures var s := After(Init(), ls);
            s.calls[me].e.latency > 0 ==> 0 < s.min <= s.calls[me].e.latency <= s.max
  {
    DidAll(After(Init(), ls).calls[me]);
    MinMaxCorrect(ls);
    hide Program;
    hide Did;
  }

  lemma PartIsDue(k: Call)
    requires k.pc == |Program(k.e)|
    ensures forall c :: Part(k, c) == Due(k.e, c)
  {
    forall c ensures Part(k, c) == Due(k.e, c) {
      PartBound(k, c);
    }
  }

  /** When a run leaves one call more than another, and that call done, each counter holds its due more. */
  lemma OneMore(one: seq<Label>, two: seq<Label>, e: Event)
    requires IsRun(Init(), one) && IsRun(Init(), two)
    requires var a, b := After(Init(), one).calls, After(Init(), two).calls;
             && |b| == |a| + 1 && b[..|b| - 1] == a
             && b[|a|].e == e && b[|a|].pc == |Program(e)|
    ensures forall c :: After(Init(), two).counters(c) == Wrapped(After(Init(), one).counters(c) + Due(e, c))
  {
    ReachableCounted(one);
    ReachableCounted(two);
    var s, t := After(Init(), one), After(Init(), two);
    hide *;
    forall c ensures t.counters(c) == Wrapped(s.counters(c) + Due(e, c)) {
      OneMoreAt(s, t, e, c);
    }
  }

  lemma OneMoreAt(s: State, t: State, e: Event, c: Counter)
    requires Counted(s) && Counted(t)
    requires |t.calls| == |s.calls| + 1 && t.calls[..|t.calls| - 1] == s.calls
    requires t.calls[|s.calls|].e == e && t.calls[|s.calls|].pc == |Program(e)|
    ensures t.counters(c) == Wrapped(s.counters(c) + Due(e, c))
  {
    hide Program;
    hide Due;
    hide Part;
    hide Total;
    var k := t.calls[|s.calls|];
    assert t.calls == s.calls + [k];
    TotalAppend(s.calls, k, c);
    PartBound(k, c);
    ModAdd(Total(s.calls, c), Due(e, c));
  }

  lemma LaterSame(a: seq<Call>)
    ensures Later(a, a)
  {
  }

  lemma LaterStill(a: seq<Call>, b: seq<Call>, c: seq<Call>)
    requires Later(a, b) && Later(b, c)
    ensures Later(a, c)
  {
  }

  lemma LaterStep(ls: seq<Label>, first: seq<Call>, l: Label)
    requires IsRun(Init(), ls) && Later(first, After(Init(), ls).calls) && Enabled(After(Init(), ls), l)
    ensures Later(first, Apply(After(Init(), ls), l).calls)
  {
    var s := After(Init(), ls);
    ReachableCounted(ls);
    forall c ensures Total(first, c) <= Total(Apply(s, l).calls, c) {
      TotalStep(s, l, c);
    }
  }

  lemma WiderStep(ls: seq<Label>, l: Label)
    requires IsRun(Init(), ls) && Enabled(After(Init(), ls), l)
    ensures var s, t := After(Init(), ls), Apply(After(Init(), ls), l);
            Wider(s.min, s.max, t.min, t.max)
  {
    ReachableExtremes(ls);
    MonotoneStep(After(Init(), ls), l);
  }

  lemma SeenLater(loads: map<Counter, nat>, first: seq<Call>, b: seq<Call>, c: seq<Call>)
    requires Seen(loads, first, b) && Later(b, c)
    ensures Seen(loads, first, c)
  {
    forall d | d in loads ensures Between64(loads[d], Total(first, d), Total(c, d)) {
      var t: nat :| Total(first, d) <= t <= Total(b, d) && loads[d] == Wrapped(t);
    }
  }

  lemma SeenMore(loads: map<Counter, nat>, first: seq<Call>, s: State, c: Counter)
    requires Counted(s) && Seen(loads, first, s.calls) && Later(first, s.calls)
    ensures Seen(loads[c := s.counters(c)], first, s.calls)
  {
    hide Total;
    var t := Total(s.calls, c);
    assert s.counters(c) == Wrapped(t);
  }

  lemma FirstSeen(s: State)
    requires Counted(s)
    ensures Seen(map[TotalProcessed := s.counters(TotalProcessed)], s.calls, s.calls)
  {
    hide Total;
    var v, t := s.counters(TotalProcessed), Total(s.calls, TotalProcessed);
    assert v == Wrapped(t);
  }

  // Single accesses

  lemma AddTurn(s: State, me: nat, c: Counter, n: nat)
    requires me < |s.calls| && Running(s.calls[me]) && Program(s.calls[me].e)[s.calls[me].pc] == Add(c, n)
    ensures var t, k := Apply(s, Step(me)), s.calls[me];
            && t.counters == Bumped(s.counters, c, n) && t.min == s.min && t.max == s.max
            && t.calls == s.calls[me := Next(k)]
  {
  }

  lemma LoadMin(s: State, me: nat)
    requires me < |s.calls| && Running(s.calls[me]) && s.calls[me].loaded.None?
    requires Program(s.calls[me].e)[s.calls[me].pc] == LowerMin
    ensures var t, k := Apply(s, Step(me)), s.calls[me];
            && t.counters == s.counters && t.min == s.min && t.max == s.max && |t.calls| == |s.calls|
            && t.calls[me].e == k.e
            && if s.min != 0 && s.min <= k.e.latency
               then t.calls[me].pc == k.pc + 1 && t.calls[me].loaded.None?
               else t.calls[me].pc == k.pc && t.calls[me].loaded == Some(Loaded(s.min, s.minSwaps))
  {
    hide Program;
  }

  lemma SwapMin(s: State, me: nat)
    requires me < |s.calls| && Running(s.calls[me]) && s.calls[me].loaded.Some?
    requires Program(s.calls[me].e)[s.calls[me].pc] == LowerMin
    ensures var t, k := Apply(s, Step(me)), s.calls[me];
            var swapped := s.min == k.loaded.value.value;
            && t.counters == s.counters && t.min == (if swapped then k.e.latency else s.min) && t.max == s.max
            && |t.calls| == |s.calls| && t.calls[me].e == k.e && t.calls[me].loaded.None?
            && t.calls[me].pc == k.pc + if swapped then 1 else 0
  {
    hide Program;
  }

  lemma LoadMax(s: State, me: nat)
    requires me < |s.calls| && Running(s.calls[me]) && s.calls[me].loaded.None?
    requires Program(s.calls[me].e)[s.calls[me].pc] == RaiseMax
    ensures var t, k := Apply(s, Step(me)), s.calls[me];
            && t.counters == s.counters && t.min == s.min && t.max == s.max && |t.calls| == |s.calls|
            && t.calls[me].e == k.e
            && if s.max >= k.e.latency
               then t.calls[me].pc == k.pc + 1 && t.calls[me].loaded.None?
               else t.calls[me].pc == k.pc && t.calls[me].loaded == Some(Loaded(s.max, s.maxSwaps))
  {
    hide Program;
  }

  lemma SwapMax(s: State, me: nat)
    requires me < |s.calls| && Running(s.calls[me]) && s.calls[me].loaded.Some?
    requires Program(s.calls[me].e)[s.calls[me].pc] == RaiseMax
    ensures var t, k := Apply(s, Step(me)), s.calls[me];
            var swapped := s.max == k.loaded.value.value;
            && t.counters == s.counters && t.max == (if swapped then k.e.latency else s.max) && t.min == s.min
            && |t.calls| == |s.calls| && t.calls[me].e == k.e && t.calls[me].loaded.None?
            && t.calls[me].pc == k.pc + if swapped then 1 else 0
  {
    hide Program;
  }

  /** A step of another call leaves `me` alone. */
  lemma KeptStep(me: Option<nat>, before: seq<Call>, s: State, l: Label)
    requires Kept(me, before, s.calls) && Enabled(s, l) && !(me.Some? && l == Step(me.value))
    ensures Kept(me, before, Apply(s, l).calls)
  {
    hide Program;
  }

  /** Past its minimum update a call's latency bounds the minimum, whatever other calls have done since. */
  lemma PastMinimum(ls: seq<Label>, me: nat, pc: nat)
    requires IsRun(Init(), ls) && me < |After(Init(), ls).calls|
    requires var k := After(Init(), ls).calls[me];
             pc < k.pc <= |Program(k.e)| && Program(k.e)[pc] == LowerMin
    ensures 0 < After(Init(), ls).min <= After(Init(), ls).calls[me].e.latency
  {
    var k := After(Init(), ls).calls[me];
    assert Program(k.e)[..k.pc][pc] == LowerMin;
    assert Did(k, LowerMin);
    MinMaxCorrect(ls);
  }

  lemma PastMaximum(ls: seq<Label>, me: nat, pc: nat)
    requires IsRun(Init(), ls) && me < |After(Init(), ls).calls|
    requires var k := After(Init(), ls).calls[me];
             pc < k.pc <= |Program(k.e)| && Program(k.e)[pc] == RaiseMax
    ensures After(Init(), ls).calls[me].e.latency <= After(Init(), ls).max
  {
    var k := After(Init(), ls).calls[me];
    assert Program(k.e)[..k.pc][pc] == RaiseMax;
    assert Did(k, RaiseMax);
    MinMaxCorrect(ls);
  }

  /** A run can go on by any enabled step. */
  lemma {:induction false} RunSnoc(s: State, ls: seq<Label>, l: Label)
    requires IsRun(s, ls) && Enabled(After(s, ls), l)
    ensures IsRun(s, ls + [l]) && After(s, ls + [l]) == Apply(After(s, ls), l)
    decreases |ls|
  {
    hide Enabled;
    hide Apply;
    if ls == [] {
      assert [] + [l] == [l] && [l][1..] == [];
    } else {
      assert (ls + [l])[1..] == ls[1..] + [l];
      RunSnoc(Apply(s, ls[0]), ls[1..], l);
    }
  }
}
