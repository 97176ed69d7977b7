/**
 What every step of the engine keeps: where each event is, in what order the
 queue took it, and when the queue is closed. Each predicate is shown to hold
 initially and to be preserved by every label.
 */
module EngineFlow {
  import opened Engine

  // Channels and counters

  ghost predicate Shape(c: Config, s: State) {
    && |s.workers| == c.numWorkers
    && |s.inChan| <= c.queueSize
    && |s.srcChan| <= c.sourceCap
    && s.received + |s.srcChan| == s.srcPos <= |c.payloads|
    && forall i :: 0 <= i < |s.srcChan| ==> s.srcChan[i] == EventAt(c, s.received + i)
  }

  lemma ShapeInit(c: Config)
    ensures Shape(c, Init(c))
  {
  }

  lemma ShapeSource(c: Config, s: State, a: SourceAction)
    requires Shape(c, s) && SourceEnabled(c, s, a)
    ensures Shape(c, ApplySource(c, s, a))
  {
  }

  lemma ShapeDispatch(c: Config, s: State, a: DispatchAction)
    requires Shape(c, s) && DispatchEnabled(c, s, a)
    ensures Shape(c, ApplyDispatch(c, s, a))
  {
  }

  lemma ShapeWorker(c: Config, s: State, w: nat, a: WorkerAction)
    requires Shape(c, s) && WorkerEnabled(c, s, w, a)
    ensures Shape(c, ApplyWorker(c, s, w, a))
  {
  }

  lemma ShapeStep(c: Config, s: State, l: Label)
    requires Shape(c, s) && Enabled(c, s, l)
    ensures Shape(c, Apply(c, s, l))
  {
    hide EventAt;
    match l
    case Source(a) => ShapeSource(c, s, a);
    case Dispatch(a) => ShapeDispatch(c, s, a);
    case Work(w, a) => ShapeWorker(c, s, w, a);
    case Caller(a) =>
    case Stopping(a) =>
  }

  // Where each event is

  function Hit(x: Event, e: Event): nat {
    if x == e then 1 else 0
  }

  /** How often `e` occurs in `es`. */
  function Count(es: seq<Event>, e: Event): nat {
    if es == [] then 0 else Hit(es[0], e) + Count(es[1..], e)
  }

  lemma {:induction false} CountAppend(es: seq<Event>, x: Event, e: Event)
    ensures Count(es + [x], e) == Count(es, e) + Hit(x, e)
  {
    if es == [] {
      assert (es + [x])[1..] == [];
    } else {
      CountAppend(es[1..], x, e);
      assert (es + [x])[1..] == es[1..] + [x];
    }
  }

  lemma CountOne(x: Event, e: Event)
    ensures Count([x], e) == Hit(x, e)
  {
    assert [x][1..] == [];
  }

  /** The event in the dispatcher's hands. */
  function Held(d: Dispatcher): seq<Event> {
    if d.Holding? || d.Dropping? then [d.e] else []
  }

  /** The event a worker is busy with. */
  function Own(w: Worker): seq<Event> {
    match w
    case Idle => []
    case Working(e) => [e]
    case Broadcasting(pe, _, _, _) => [pe.Origin()]
    case Exited => []
  }

  function Owned(ws: seq<Worker>, e: Event): nat {
    if ws == [] then 0 else Count(Own(ws[0]), e) + Owned(ws[1..], e)
  }

  lemma {:induction false} OwnedUpdate(ws: seq<Worker>, i: nat, w: Worker, e: Event)
    requires i < |ws|
    ensures Owned(ws[i := w], e) + Count(Own(ws[i]), e) == Owned(ws, e) + Count(Own(w), e)
  {
    if i > 0 {
      OwnedUpdate(ws[1..], i - 1, w, e);
      assert ws[i := w][1..] == ws[1..][i - 1 := w];
    } else {
      assert ws[i := w][1..] == ws[1..];
    }
  }

  function Origins(sent: seq<Sent>): (s: seq<Event>)
    ensures |s| == |sent|
    ensures forall i :: 0 <= i < |s| ==> s[i] == sent[i].pe.Origin()
  {
    if sent == [] then [] else [sent[0].pe.Origin()] + Origins(sent[1..])
  }

  lemma OriginsAppend(sent: seq<Sent>, x: Sent)
    ensures Origins(sent + [x]) == Origins(sent) + [x.pe.Origin()]
  {
  }

  /** Copies of `e` that left the queue: with a worker, filtered out, or sent to the sinks. */
  function Taken(ws: seq<Worker>, filtered: seq<Event>, sent: seq<Sent>, e: Event): nat {
    Owned(ws, e) + Count(filtered, e) + Count(Origins(sent), e)
  }

  /** Copies of `e` everywhere an event taken off the source can be. */
  function Whereabouts(s: State, e: Event): nat {
    Count(Held(s.disp), e) + Count(s.inChan, e) + Taken(s.workers, s.h.filtered, s.h.sent, e)
    + Count(s.h.dropped, e) + Count(s.h.abandoned, e)
  }

  function Busy(ws: seq<Worker>): nat {
    if ws == [] then 0 else |Own(ws[0])| + Busy(ws[1..])
  }

  lemma {:induction false} BusyUpdate(ws: seq<Worker>, i: nat, w: Worker)
    requires i < |ws|
    ensures Busy(ws[i := w]) + |Own(ws[i])| == Busy(ws) + |Own(w)|
  {
    if i > 0 {
      BusyUpdate(ws[1..], i - 1, w);
      assert ws[i := w][1..] == ws[1..][i - 1 := w];
    } else {
      assert ws[i := w][1..] == ws[1..];
    }
  }

  lemma {:induction false} BusyBound(ws: seq<Worker>)
    ensures Busy(ws) <= |ws|
  {
    if ws != [] {
      BusyBound(ws[1..]);
    }
  }

  lemma {:induction false} BusyNone(ws: seq<Worker>)
    requires forall i :: 0 <= i < |ws| ==> Own(ws[i]) == []
    ensures Busy(ws) == 0
  {
    if ws != [] {
      BusyNone(ws[1..]);
    }
  }

  /** The queue holds what was enqueued and not yet dequeued; what was dequeued is in hand or finished. */
  ghost predicate Queue(s: State) {
    && s.h.dequeued <= |s.h.enqueued|
    && s.inChan == s.h.enqueued[s.h.dequeued..]
    && s.h.dequeued == Busy(s.workers) + |s.h.filtered| + |s.h.sent|
  }

  ghost predicate Flow(c: Config, s: State) {
    && Queue(s)
    && s.received <= |c.payloads|
    && (forall e :: Count(Input(c)[..s.received], e) == Whereabouts(s, e))
    && (forall e :: Count(s.h.enqueued[..s.h.dequeued], e) == Taken(s.workers, s.h.filtered, s.h.sent, e))
  }

  lemma {:induction false} OwnedNone(ws: seq<Worker>, e: Event)
    requires forall i :: 0 <= i < |ws| ==> Own(ws[i]) == []
    ensures Owned(ws, e) == 0
  {
    if ws != [] {
      OwnedNone(ws[1..], e);
    }
  }

  lemma FlowInit(c: Config)
    ensures Flow(c, Init(c))
  {
    BusyNone(Init(c).workers);
    forall e ensures Owned(Init(c).workers, e) == 0 {
      OwnedNone(Init(c).workers, e);
    }
    assert Input(c)[..0] == [];
  }

  lemma WhereaboutsDispatch(c: Config, s: State, a: DispatchAction, e: Event)
    requires DispatchEnabled(c, s, a)
    ensures Whereabouts(ApplyDispatch(c, s, a), e)
            == Whereabouts(s, e) + (if a.Receive? then Hit(s.srcChan[0], e) else 0)
  {
    hide Taken;
    if a.Receive? {
      CountOne(s.srcChan[0], e);
    } else if s.disp.Holding? || s.disp.Dropping? {
      CountOne(s.disp.e, e);
      CountAppend(s.inChan, s.disp.e, e);
      CountAppend(s.h.dropped, s.disp.e, e);
      CountAppend(s.h.abandoned, s.disp.e, e);
    }
  }

  lemma FlowDispatch(c: Config, s: State, a: DispatchAction)
    requires Shape(c, s) && Flow(c, s) && DispatchEnabled(c, s, a)
    ensures Flow(c, ApplyDispatch(c, s, a))
  {
    hide Whereabouts;
    hide Count;
    hide Owned;
    var t := ApplyDispatch(c, s, a);
    assert Queue(t);
    if a.Receive? {
      assert Input(c)[..t.received] == Input(c)[..s.received] + [s.srcChan[0]];
    }
    assert t.h.enqueued[..s.h.dequeued] == s.h.enqueued[..s.h.dequeued];
    forall e ensures Count(Input(c)[..t.received], e) == Whereabouts(t, e) {
      assert Count(Input(c)[..s.received], e) == Whereabouts(s, e);
      WhereaboutsDispatch(c, s, a, e);
      if a.Receive? {
        CountAppend(Input(c)[..s.received], s.srcChan[0], e);
      }
    }
    forall e ensures Count(t.h.enqueued[..t.h.dequeued], e) == Taken(t.workers, t.h.filtered, t.h.sent, e) {
      assert Count(s.h.enqueued[..s.h.dequeued], e) == Taken(s.workers, s.h.filtered, s.h.sent, e);
    }
  }

  lemma TakenStep(c: Config, s: State, w: nat, a: WorkerAction, e: Event)
    requires WorkerEnabled(c, s, w, a)
    ensures var t := ApplyWorker(c, s, w, a);
            Taken(t.workers, t.h.filtered, t.h.sent, e) ==
             Taken(s.workers, s.h.filtered, s.h.sent, e) + (if a.Take? then Hit(s.inChan[0], e) else 0)
  {
    var t := ApplyWorker(c, s, w, a);
    OwnedUpdate(s.workers, w, t.workers[w], e);
    assert t.workers == s.workers[w := t.workers[w]];
    if a.Filter? {
      CountAppend(s.h.filtered, s.workers[w].e, e);
    } else if a.Done? {
      OriginsAppend(s.h.sent, Sent(s.workers[w].pe, s.workers[w].upto));
      CountAppend(Origins(s.h.sent), s.workers[w].pe.Origin(), e);
    }
  }

  lemma QueueWorker(c: Config, s: State, w: nat, a: WorkerAction)
    requires Queue(s) && WorkerEnabled(c, s, w, a)
    ensures Queue(ApplyWorker(c, s, w, a))
  {
    var t := ApplyWorker(c, s, w, a);
    BusyUpdate(s.workers, w, t.workers[w]);
    assert t.workers == s.workers[w := t.workers[w]];
  }

  lemma FlowWorker(c: Config, s: State, w: nat, a: WorkerAction)
    requires Flow(c, s) && WorkerEnabled(c, s, w, a)
    ensures Flow(c, ApplyWorker(c, s, w, a))
  {
    hide Busy;
    QueueWorker(c, s, w, a);
    var t := ApplyWorker(c, s, w, a);
    var d := s.h.dequeued;
    if a.Take? {
      assert s.h.enqueued[..d + 1] == s.h.enqueued[..d] + [s.inChan[0]];
    }
    forall e
      ensures Count(Input(c)[..t.received], e) == Whereabouts(t, e)
      ensures Count(t.h.enqueued[..t.h.dequeued], e) == Taken(t.workers, t.h.filtered, t.h.sent, e)
    {
      assert Count(Input(c)[..s.received], e) == Whereabouts(s, e);
      assert Count(s.h.enqueued[..d], e) == Taken(s.workers, s.h.filtered, s.h.sent, e);
      TakenStep(c, s, w, a, e);
      if a.Take? {
        CountAppend(s.h.enqueued[..d], s.inChan[0], e);
      }
    }
  }

  lemma FlowStep(c: Config, s: State, l: Label)
    requires Shape(c, s) && Flow(c, s) && Enabled(c, s, l)
    ensures Flow(c, Apply(c, s, l))
  {
    hide Flow;
    hide Shape;
    match l
    case Dispatch(a) => FlowDispatch(c, s, a);
    case Work(w, a) => FlowWorker(c, s, w, a);
    case Source(a) => FlowSame(c, s, Apply(c, s, l));
    case Caller(a) => FlowSame(c, s, Apply(c, s, l));
    case Stopping(a) => FlowSame(c, s, Apply(c, s, l));
  }

  lemma FlowSame(c: Config, s: State, t: State)
    requires Flow(c, s)
    requires t.received == s.received && t.disp == s.disp && t.inChan == s.inChan
    requires t.workers == s.workers && t.h == s.h
    ensures Flow(c, t)
  {
    forall e ensures Whereabouts(t, e) == Whereabouts(s, e) {
    }
  }

  // Order in which the queue takes events

  ghost predicate Rising(es: seq<Event>) {
    forall i, j :: 0 <= i < j < |es| ==> es[i].id < es[j].id
  }

  /** When blocking, everything received was enqueued, is held, or was abandoned, in source order. */
  ghost predicate Prefix(c: Config, s: State)
    requires s.received <= |c.payloads|
  {
    s.h.enqueued + Held(s.disp) + s.h.abandoned == Input(c)[..s.received]
  }

  ghost predicate Order(c: Config, s: State) {
    && s.received <= |c.payloads|
    && Rising(s.h.enqueued)
    && (forall i :: 0 <= i < |s.h.enqueued| ==> s.h.enqueued[i].id + |Held(s.disp)| <= s.received)
    && (Held(s.disp) != [] ==> s.received > 0 && Held(s.disp)[0] == EventAt(c, s.received - 1))
    && (!c.dropOnBackpressure ==> Prefix(c, s))
    && (!c.dropOnBackpressure ==> s.h.dropped == [] && !s.disp.Dropping?)
    && (c.dropOnBackpressure ==> s.h.abandoned == [])
    && |s.h.abandoned| <= 1
    && (s.h.abandoned != [] ==> s.cancelled && (s.disp.Returning? || s.disp.Finished?))
    && s.drops == |s.h.dropped|
    && s.received == |s.h.enqueued| + |Held(s.disp)| + s.drops + |s.h.abandoned|
  }

  lemma OrderInit(c: Config)
    ensures Order(c, Init(c))
  {
    assert Input(c)[..0] == [];
  }

  lemma PrefixDispatch(c: Config, s: State, a: DispatchAction)
    requires Shape(c, s) && Order(c, s) && DispatchEnabled(c, s, a) && !c.dropOnBackpressure
    ensures Prefix(c, ApplyDispatch(c, s, a))
  {
    var t := ApplyDispatch(c, s, a);
    if a.Receive? {
      assert Input(c)[..t.received] == Input(c)[..s.received] + [s.srcChan[0]];
    }
  }

  lemma OrderDispatch(c: Config, s: State, a: DispatchAction)
    requires Shape(c, s) && Order(c, s) && DispatchEnabled(c, s, a)
    ensures Order(c, ApplyDispatch(c, s, a))
  {
    hide Prefix;
    if !c.dropOnBackpressure {
      PrefixDispatch(c, s, a);
    }
  }

  lemma OrderSame(c: Config, s: State, t: State)
    requires Order(c, s)
    requires t.received == s.received && t.disp == s.disp && t.drops == s.drops
    requires t.h.enqueued == s.h.enqueued && t.h.dropped == s.h.dropped && t.h.abandoned == s.h.abandoned
    requires s.cancelled ==> t.cancelled
    ensures Order(c, t)
  {
    assert !c.dropOnBackpressure ==> Prefix(c, s) && Prefix(c, t);
  }

  lemma OrderStep(c: Config, s: State, l: Label)
    requires Shape(c, s) && Order(c, s) && Enabled(c, s, l)
    ensures Order(c, Apply(c, s, l))
  {
    hide Order;
    hide Shape;
    match l
    case Dispatch(a) => OrderDispatch(c, s, a);
    case Source(a) => OrderSame(c, s, Apply(c, s, l));
    case Work(w, a) => OrderSame(c, s, Apply(c, s, l));
    case Caller(a) => OrderSame(c, s, Apply(c, s, l));
    case Stopping(a) => OrderSame(c, s, Apply(c, s, l));
  }

  // Closing of channels, and shutdown

  ghost predicate Shutdown(c: Config, s: State) {
    && (s.inClosed <==> s.disp.Finished?)
    && (forall w :: 0 <= w < |s.workers| && s.workers[w].Exited? ==> s.inClosed && s.inChan == [])
    && (s.srcClosed && !s.cancelled ==> s.srcPos == |c.payloads|)
    && ((s.disp.Returning? || s.disp.Finished?) && !s.cancelled ==> s.srcClosed && s.srcChan == [])
    && (!s.phase.Running? ==> s.cancelled)
    && (s.phase.Closing? || s.phase.Stopped? ==> AllExited(s.workers))
    && (s.phase.Closing? ==> s.phase.k <= |s.sinks|)
    && (s.phase.Stopped? ==> s.phase.n <= |s.sinks|)
    && forall k :: 0 <= k < |s.sinks| ==>
         (s.sinks[k].closed <==> (s.phase.Closing? && k < s.phase.k) || (s.phase.Stopped? && k < s.phase.n))
  }

  lemma ShutdownInit(c: Config)
    requires ValidConfig(c)
    ensures Shutdown(c, Init(c))
  {
  }

  lemma ShutdownStep(c: Config, s: State, l: Label)
    requires Shape(c, s) && Shutdown(c, s) && Enabled(c, s, l)
    ensures Shutdown(c, Apply(c, s, l))
  {
    hide Shape;
    match l
    case Source(a) => ShutdownQueues(c, s, l);
    case Dispatch(a) => ShutdownQueues(c, s, l);
    case Work(w, a) => ShutdownWorker(c, s, w, a);
    case Caller(a) => ShutdownStop(c, s, l);
    case Stopping(a) => ShutdownStop(c, s, l);
  }

  lemma ShutdownQueues(c: Config, s: State, l: Label)
    requires Shape(c, s) && Shutdown(c, s) && Enabled(c, s, l) && (l.Source? || l.Dispatch?)
    ensures Shutdown(c, Apply(c, s, l))
  {
  }

  lemma ShutdownStop(c: Config, s: State, l: Label)
    requires Shutdown(c, s) && Enabled(c, s, l) && (l.Caller? || l.Stopping?)
    ensures Shutdown(c, Apply(c, s, l))
  {
  }

  lemma ShutdownWorker(c: Config, s: State, w: nat, a: WorkerAction)
    requires Shape(c, s) && Shutdown(c, s) && WorkerEnabled(c, s, w, a)
    ensures Shutdown(c, ApplyWorker(c, s, w, a))
  {
    var t := ApplyWorker(c, s, w, a);
    assert !AllExited(s.workers) by {
      assert !s.workers[w].Exited?;
    }
    assert forall k :: 0 <= k < |s.sinks| ==> t.sinks[k].closed == s.sinks[k].closed;
  }
}
