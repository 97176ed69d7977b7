/**
 The combined invariant of the engine and the theorems about its runs:
 conservation, order, orderly shutdown, freedom from deadlock, and a bound on
 how many steps any run can take.
 */
module EngineRuns {
  import opened Engine
  import opened EngineFlow
  import opened EngineSinks

  // First in, first out with one worker

  /** With one worker: the identifier below which every event sink `k` has seen lies. */
  function Upper(me: Worker, taken: seq<Event>, k: nat): nat {
    if me.Working? then me.e.id
    else if me.Broadcasting? && (me.next < k || (me.next == k && !me.stage.DataOut?)) then me.pe.id
    else if taken != [] then taken[|taken| - 1].id + 1
    else 1
  }

  ghost predicate RisingLog(log: seq<PipelineEvent>) {
    forall i, j :: 0 <= i < j < |log| ==> log[i].id < log[j].id
  }

  ghost predicate LogBelow(log: seq<PipelineEvent>, bound: nat) {
    RisingLog(log) && forall i :: 0 <= i < |log| ==> log[i].id < bound
  }

  /** The worker, when busy, has the event taken last. */
  ghost predicate HasLast(me: Worker, taken: seq<Event>) {
    Own(me) != [] ==> taken != [] && Own(me)[0] == taken[|taken| - 1]
  }

  ghost predicate Fifo(s: State) {
    |s.workers| == 1 ==> (
        && s.h.dequeued <= |s.h.enqueued|
        && var me, taken := s.workers[0], s.h.enqueued[..s.h.dequeued];
           && HasLast(me, taken)
           && forall k :: 0 <= k < |s.sinks| ==> LogBelow(s.sinks[k].log, Upper(me, taken, k)))
  }

  lemma FifoInit(c: Config)
    ensures Fifo(Init(c))
  {
  }

  ghost predicate Ids(enqueued: seq<Event>) {
    Rising(enqueued) && forall i :: 0 <= i < |enqueued| ==> enqueued[i].id > 0
  }

  lemma FifoTake(c: Config, s: State)
    requires Fifo(s) && Queue(s) && Ids(s.h.enqueued) && |s.workers| == 1 && WorkerEnabled(c, s, 0, Take)
    ensures Fifo(ApplyWorker(c, s, 0, Take))
  {
    hide Busy;
    var t := ApplyWorker(c, s, 0, Take);
    var taken := s.h.enqueued[..s.h.dequeued];
    assert s.inChan[0] == s.h.enqueued[s.h.dequeued];
    assert t.h.enqueued[..t.h.dequeued] == taken + [s.inChan[0]];
    forall k | 0 <= k < |t.sinks|
      ensures LogBelow(t.sinks[k].log, Upper(t.workers[0], taken + [s.inChan[0]], k))
    {
      assert LogBelow(s.sinks[k].log, Upper(s.workers[0], taken, k));
    }
  }

  /** The logs and bounds after one action inside an `OnEvent` call. */
  lemma FifoCall(s: State, b: SinkAction, taken: seq<Event>, k: nat)
    requires |s.workers| == 1 && SinkEnabled(s, s.workers[0], b)
    requires HasLast(s.workers[0], taken)
    requires k < |s.sinks| && LogBelow(s.sinks[k].log, Upper(s.workers[0], taken, k))
    ensures var me := s.workers[0];
            var (me', sink') := CallSink(0, me, s.sinks[me.next], b);
            LogBelow((if k == me.next then sink' else s.sinks[k]).log, Upper(me', taken, k))
  {
  }

  lemma FifoOther(c: Config, s: State, a: WorkerAction)
    requires Fifo(s) && |s.workers| == 1 && WorkerEnabled(c, s, 0, a) && !a.Take?
    ensures Fifo(ApplyWorker(c, s, 0, a))
  {
    var t := ApplyWorker(c, s, 0, a);
    var me, taken := s.workers[0], s.h.enqueued[..s.h.dequeued];
    assert t.h.enqueued[..t.h.dequeued] == taken;
    forall k | 0 <= k < |t.sinks| ensures LogBelow(t.sinks[k].log, Upper(t.workers[0], taken, k)) {
      assert LogBelow(s.sinks[k].log, Upper(me, taken, k));
      if a.Call? {
        FifoCall(s, a.a, taken, k);
      }
    }
  }

  lemma FifoOthers(s: State, t: State)
    requires Fifo(s) && Queue(s) && OthersFrame(s, t)
    ensures Fifo(t)
  {
    hide Busy;
    if |s.workers| == 1 {
      var taken := s.h.enqueued[..s.h.dequeued];
      assert t.h.enqueued[..t.h.dequeued] == taken;
      forall k | 0 <= k < |t.sinks| ensures LogBelow(t.sinks[k].log, Upper(t.workers[0], taken, k)) {
        if k < |s.sinks| {
          assert LogBelow(s.sinks[k].log, Upper(s.workers[0], taken, k));
        }
      }
    }
  }

  lemma FifoStep(c: Config, s: State, l: Label)
    requires Fifo(s) && Queue(s) && Ids(s.h.enqueued) && Enabled(c, s, l)
    ensures Fifo(Apply(c, s, l))
  {
    hide Queue;
    hide Ids;
    if !l.Work? {
      hide Fifo;
      OthersStep(c, s, l);
      FifoOthers(s, Apply(c, s, l));
    } else if |s.workers| == 1 {
      hide Fifo;
      if l.a.Take? {
        FifoTake(c, s);
      } else {
        FifoOther(c, s, l.a);
      }
    } else {
      assert |ApplyWorker(c, s, l.w, l.a).workers| == |s.workers|;
    }
  }

  // The combined invariant

  ghost predicate Inv(c: Config, s: State) {
    && Shape(c, s)
    && Flow(c, s)
    && Order(c, s)
    && Shutdown(c, s)
    && Locks(s)
    && Files(s)
    && Deliveries(s)
    && Verdicts(c, s)
    && Fifo(s)
    && Ids(s.h.enqueued)
  }

  lemma InvInit(c: Config)
    requires ValidConfig(c)
    ensures Inv(c, Init(c))
  {
    ShapeInit(c);
    FlowInit(c);
    OrderInit(c);
    ShutdownInit(c);
    LocksInit(c);
    FilesInit(c);
    DeliveriesInit(c);
    VerdictsInit(c);
    FifoInit(c);
  }

  lemma InvStep(c: Config, s: State, l: Label)
    requires Inv(c, s) && Enabled(c, s, l)
    ensures Inv(c, Apply(c, s, l))
  {
    hide Shape;
    hide Flow;
    hide Shutdown;
    hide Locks;
    hide Files;
    hide Deliveries;
    hide Verdicts;
    hide Fifo;
    ShapeStep(c, s, l);
    FlowStep(c, s, l);
    OrderStep(c, s, l);
    ShutdownStep(c, s, l);
    LocksStep(c, s, l);
    FilesStep(c, s, l);
    DeliveriesStep(c, s, l);
    VerdictsStep(c, s, l);
    QueueOf(c, s);
    IdsStep(c, s, l);
    FifoStep(c, s, l);
  }

  lemma IdsStep(c: Config, s: State, l: Label)
    requires Order(c, s) && Shape(c, s) && Ids(s.h.enqueued) && Enabled(c, s, l)
    ensures Ids(Apply(c, s, l).h.enqueued)
  {
    if l.Dispatch? {
      IdsDispatch(c, s, l.d);
    }
  }

  lemma IdsDispatch(c: Config, s: State, a: DispatchAction)
    requires Order(c, s) && Ids(s.h.enqueued) && DispatchEnabled(c, s, a)
    ensures Ids(ApplyDispatch(c, s, a).h.enqueued)
  {
  }

  lemma QueueOf(c: Config, s: State)
    requires Flow(c, s)
    ensures Queue(s)
  {
  }

  lemma {:induction false} InvRun(c: Config, s: State, ls: seq<Label>)
    requires Inv(c, s) && IsRun(c, s, ls)
    ensures Inv(c, After(c, s, ls))
    decreases |ls|
  {
    hide Inv;
    if ls != [] {
      InvStep(c, s, ls[0]);
      InvRun(c, Apply(c, s, ls[0]), ls[1..]);
    }
  }

  /** Every state any interleaving can reach satisfies the invariant. */
  lemma Reachable(c: Config, ls: seq<Label>)
    requires ValidConfig(c) && IsRun(c, Init(c), ls)
    ensures Inv(c, After(c, Init(c), ls))
  {
    InvInit(c);
    InvRun(c, Init(c), ls);
  }
}
