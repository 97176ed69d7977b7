/**
 What every step of the engine keeps about the sinks: who holds which lock,
 what a recording holds, which events each sink has seen, and that events were
 judged as configured. Again each predicate is preserved by every label.
 */
module EngineSinks {
  import opened Prelude
  import opened Engine

  /** Steps of other goroutines leave workers, finished events and the state of known sinks alone. */
  ghost predicate OthersFrame(s: State, t: State) {
    && t.workers == s.workers
    && t.h.dequeued == s.h.dequeued && t.h.filtered == s.h.filtered && t.h.sent == s.h.sent
    && s.h.enqueued <= t.h.enqueued
    && t.crashed == s.crashed
    && |s.sinks| <= |t.sinks|
    && (forall k :: 0 <= k < |s.sinks| ==> t.sinks[k] == s.sinks[k].(closed := t.sinks[k].closed))
    && (forall k :: |s.sinks| <= k < |t.sinks| ==> t.sinks[k] == NewSink(t.sinks[k].kind))
  }

  lemma DispatchFrame(c: Config, s: State, a: DispatchAction)
    requires DispatchEnabled(c, s, a)
    ensures OthersFrame(s, ApplyDispatch(c, s, a))
  {
  }

  lemma CallerFrame(s: State, a: CallerAction)
    ensures OthersFrame(s, ApplyCaller(s, a))
  {
  }

  lemma StopFrame(s: State, a: StopAction)
    requires StopEnabled(s, a)
    ensures OthersFrame(s, ApplyStop(s, a))
  {
  }

  lemma OthersStep(c: Config, s: State, l: Label)
    requires Enabled(c, s, l) && !l.Work?
    ensures OthersFrame(s, Apply(c, s, l))
  {
    match l
    case Source(a) =>
    case Dispatch(a) =>
      hide OthersFrame;
      DispatchFrame(c, s, a);
    case Caller(a) =>
      hide OthersFrame;
      CallerFrame(s, a);
    case Stopping(a) =>
      hide OthersFrame;
      StopFrame(s, a);
  }

  // Locks

  /** A worker broadcasts within the sinks there are, and past `Enter` holds its sink's lock. */
  ghost predicate WorkerOk(s: State, w: nat)
    requires w < |s.workers|
  {
    var me := s.workers[w];
    me.Broadcasting? ==> (
        && me.next <= me.upto <= |s.sinks|
        && (!me.stage.Enter? ==> (
                && me.next < me.upto
                && s.sinks[me.next].kind.PcapKind?
                && s.sinks[me.next].lock == Some(w)
                && Recordable(me.pe))))
  }

  /** A held lock belongs to a worker that is inside that very call. */
  ghost predicate LockOk(ws: seq<Worker>, k: nat, lock: Option<nat>) {
    lock.Some? ==> (
        && lock.value < |ws|
        && var me := ws[lock.value];
           me.Broadcasting? && me.next == k && !me.stage.Enter?)
  }

  ghost predicate Locks(s: State) {
    && (forall w :: 0 <= w < |s.workers| ==> WorkerOk(s, w))
    && (forall k :: 0 <= k < |s.sinks| ==> LockOk(s.workers, k, s.sinks[k].lock))
  }

  lemma LocksInit(c: Config)
    ensures Locks(Init(c))
  {
  }

  lemma LocksCall(c: Config, s: State, w: nat, b: SinkAction)
    requires Locks(s) && WorkerEnabled(c, s, w, Call(b))
    ensures Locks(ApplyWorker(c, s, w, Call(b)))
  {
    var t := ApplyWorker(c, s, w, Call(b));
    var me := s.workers[w];
    var k := me.next;
    assert WorkerOk(s, w);
    forall v | 0 <= v < |t.workers| ensures WorkerOk(t, v) {
      assert WorkerOk(s, v);
    }
    forall j | 0 <= j < |t.sinks| ensures LockOk(t.workers, j, t.sinks[j].lock) {
      assert LockOk(s.workers, j, s.sinks[j].lock);
    }
  }

  lemma LocksWorker(c: Config, s: State, w: nat, a: WorkerAction)
    requires Locks(s) && WorkerEnabled(c, s, w, a)
    ensures Locks(ApplyWorker(c, s, w, a))
  {
    if a.Call? {
      LocksCall(c, s, w, a.a);
    } else {
      var t := ApplyWorker(c, s, w, a);
      assert s.workers[w].Broadcasting? ==> s.workers[w].stage.Enter?;
      forall v | 0 <= v < |t.workers| ensures WorkerOk(t, v) {
        assert WorkerOk(s, v);
      }
      forall j | 0 <= j < |t.sinks| ensures LockOk(t.workers, j, t.sinks[j].lock) {
        assert LockOk(s.workers, j, s.sinks[j].lock);
      }
    }
  }

  lemma LocksOthers(s: State, t: State)
    requires Locks(s) && OthersFrame(s, t)
    ensures Locks(t)
  {
    forall v | 0 <= v < |t.workers| ensures WorkerOk(t, v) {
      assert WorkerOk(s, v);
    }
    forall j | 0 <= j < |t.sinks| ensures LockOk(t.workers, j, t.sinks[j].lock) {
      assert j < |s.sinks| ==> LockOk(s.workers, j, s.sinks[j].lock);
    }
  }

  lemma LocksStep(c: Config, s: State, l: Label)
    requires Locks(s) && Enabled(c, s, l)
    ensures Locks(Apply(c, s, l))
  {
    hide Locks;
    if l.Work? {
      LocksWorker(c, s, l.w, l.a);
    } else {
      OthersStep(c, s, l);
      LocksOthers(s, Apply(c, s, l));
    }
  }

  // Recordings

  /** The chunks of a recording of these calls: global header, then header and data of each that is written. */
  function Recording(log: seq<PipelineEvent>): seq<Chunk> {
    if log == [] then [GlobalChunk]
    else
      var pe := log[|log| - 1];
      Recording(log[..|log| - 1]) + if Recordable(pe) then [HeaderChunk(pe), DataChunk(pe)] else []
  }

  lemma RecordingAppend(log: seq<PipelineEvent>, pe: PipelineEvent)
    ensures Recording(log + [pe]) ==
            Recording(log) + if Recordable(pe) then [HeaderChunk(pe), DataChunk(pe)] else []
  {
    assert (log + [pe])[..|log|] == log;
  }

  /** The header a lock holder has written without its data yet. */
  function Unfinished(ws: seq<Worker>, lock: Option<nat>): seq<Chunk> {
    if lock.Some? && lock.value < |ws| && ws[lock.value].Broadcasting? && ws[lock.value].stage.HeaderOut?
    then [HeaderChunk(ws[lock.value].pe)]
    else []
  }

  /** A recording is whole records in call order, then at most one header still missing its data. */
  ghost predicate FileOk(ws: seq<Worker>, sink: Sink) {
    sink.kind.PcapKind? ==> sink.file == Recording(sink.log) + Unfinished(ws, sink.lock)
  }

  ghost predicate Files(s: State) {
    forall k :: 0 <= k < |s.sinks| ==> FileOk(s.workers, s.sinks[k])
  }

  lemma FilesInit(c: Config)
    ensures Files(Init(c))
  {
  }

  /** A call leaves other sinks alone, and its own sink a recording. */
  lemma FilesCallHere(s: State, w: nat, b: SinkAction)
    requires Locks(s) && Files(s) && w < |s.workers| && SinkEnabled(s, s.workers[w], b)
    ensures var me := s.workers[w];
            var (me', sink') := CallSink(w, me, s.sinks[me.next], b);
            FileOk(s.workers[w := me'], sink')
  {
    var me := s.workers[w];
    assert WorkerOk(s, w);
    assert FileOk(s.workers, s.sinks[me.next]);
    assert LockOk(s.workers, me.next, s.sinks[me.next].lock);
    RecordingAppend(s.sinks[me.next].log, me.pe);
  }

  lemma FilesCall(c: Config, s: State, w: nat, b: SinkAction, j: nat)
    requires Locks(s) && Files(s) && WorkerEnabled(c, s, w, Call(b)) && j < |s.sinks|
    ensures var t := ApplyWorker(c, s, w, Call(b)); FileOk(t.workers, t.sinks[j])
  {
    hide Recording;
    if j == s.workers[w].next {
      FilesCallHere(s, w, b);
    } else {
      assert FileOk(s.workers, s.sinks[j]);
      assert LockOk(s.workers, j, s.sinks[j].lock);
    }
  }

  lemma FilesWorker(c: Config, s: State, w: nat, a: WorkerAction, j: nat)
    requires Locks(s) && Files(s) && WorkerEnabled(c, s, w, a) && j < |s.sinks|
    ensures var t := ApplyWorker(c, s, w, a); FileOk(t.workers, t.sinks[j])
  {
    if a.Call? {
      FilesCall(c, s, w, a.a, j);
    } else {
      assert FileOk(s.workers, s.sinks[j]);
      assert LockOk(s.workers, j, s.sinks[j].lock);
      assert WorkerOk(s, w);
    }
  }

  lemma FilesOthers(s: State, t: State)
    requires Files(s) && OthersFrame(s, t)
    ensures Files(t)
  {
    forall j | 0 <= j < |t.sinks| ensures FileOk(t.workers, t.sinks[j]) {
      assert j < |s.sinks| ==> FileOk(s.workers, s.sinks[j]);
    }
  }

  lemma FilesStep(c: Config, s: State, l: Label)
    requires Locks(s) && Files(s) && Enabled(c, s, l)
    ensures Files(Apply(c, s, l))
  {
    hide Locks;
    hide FileOk;
    if l.Work? {
      var t := ApplyWorker(c, s, l.w, l.a);
      forall j | 0 <= j < |t.sinks| ensures FileOk(t.workers, t.sinks[j]) {
        FilesWorker(c, s, l.w, l.a, j);
      }
    } else {
      OthersStep(c, s, l);
      FilesOthers(s, Apply(c, s, l));
    }
  }

  // Deliveries

  function Seen(x: PipelineEvent, pe: PipelineEvent): nat {
    if x == pe then 1 else 0
  }

  function Times(log: seq<PipelineEvent>, pe: PipelineEvent): nat {
    if log == [] then 0 else Seen(log[0], pe) + Times(log[1..], pe)
  }

  lemma {:induction false} TimesAppend(log: seq<PipelineEvent>, x: PipelineEvent, pe: PipelineEvent)
    ensures Times(log + [x], pe) == Times(log, pe) + Seen(x, pe)
  {
    if log == [] {
      assert (log + [x])[1..] == [];
    } else {
      TimesAppend(log[1..], x, pe);
      assert (log + [x])[1..] == log[1..] + [x];
    }
  }

  /** Finished broadcasts of `pe` whose sink list included sink `k`. */
  function Reached(sent: seq<Sent>, k: nat, pe: PipelineEvent): nat {
    if sent == [] then 0
    else (if k < sent[0].upto then Seen(sent[0].pe, pe) else 0) + Reached(sent[1..], k, pe)
  }

  lemma {:induction false} ReachedAppend(sent: seq<Sent>, x: Sent, k: nat, pe: PipelineEvent)
    ensures Reached(sent + [x], k, pe) == Reached(sent, k, pe) + (if k < x.upto then Seen(x.pe, pe) else 0)
  {
    if sent == [] {
      assert (sent + [x])[1..] == [];
    } else {
      ReachedAppend(sent[1..], x, k, pe);
      assert (sent + [x])[1..] == sent[1..] + [x];
    }
  }

  /** Whether a broadcast in progress has already delivered to sink `k`. */
  function Part(me: Worker, k: nat, pe: PipelineEvent): nat {
    if me.Broadcasting? && k < me.upto && (k < me.next || (k == me.next && me.stage.DataOut?))
    then Seen(me.pe, pe) else 0
  }

  function Parts(ws: seq<Worker>, k: nat, pe: PipelineEvent): nat {
    if ws == [] then 0 else Part(ws[0], k, pe) + Parts(ws[1..], k, pe)
  }

  lemma {:induction false} PartsUpdate(ws: seq<Worker>, i: nat, w: Worker, k: nat, pe: PipelineEvent)
    requires i < |ws|
    ensures Parts(ws[i := w], k, pe) + Part(ws[i], k, pe) == Parts(ws, k, pe) + Part(w, k, pe)
  {
    if i > 0 {
      PartsUpdate(ws[1..], i - 1, w, k, pe);
      assert ws[i := w][1..] == ws[1..][i - 1 := w];
    } else {
      assert ws[i := w][1..] == ws[1..];
    }
  }

  /** Sink `k` has seen exactly the broadcasts that included it, each once. */
  ghost predicate DeliveredTo(s: State, k: nat, pe: PipelineEvent)
    requires k < |s.sinks|
  {
    Times(s.sinks[k].log, pe) == Reached(s.h.sent, k, pe) + Parts(s.workers, k, pe)
  }

  ghost predicate Deliveries(s: State) {
    && (forall i :: 0 <= i < |s.h.sent| ==> s.h.sent[i].upto <= |s.sinks|)
    && (forall k, pe :: 0 <= k < |s.sinks| ==> DeliveredTo(s, k, pe))
  }

  lemma {:induction false} PartsNone(ws: seq<Worker>, k: nat, pe: PipelineEvent)
    requires forall i :: 0 <= i < |ws| ==> !ws[i].Broadcasting? || ws[i].upto <= k
    ensures Parts(ws, k, pe) == 0
  {
    if ws != [] {
      PartsNone(ws[1..], k, pe);
    }
  }

  lemma {:induction false} ReachedNone(sent: seq<Sent>, k: nat, pe: PipelineEvent)
    requires forall i :: 0 <= i < |sent| ==> sent[i].upto <= k
    ensures Reached(sent, k, pe) == 0
  {
    if sent != [] {
      ReachedNone(sent[1..], k, pe);
    }
  }

  lemma DeliveriesInit(c: Config)
    ensures Deliveries(Init(c))
  {
    var s := Init(c);
    forall k, pe | 0 <= k < |s.sinks| ensures DeliveredTo(s, k, pe) {
      PartsNone(s.workers, k, pe);
    }
  }

  lemma DeliveriesCall(c: Config, s: State, w: nat, b: SinkAction, k: nat, pe: PipelineEvent)
    requires Locks(s) && WorkerEnabled(c, s, w, Call(b))
    requires k < |s.sinks| && DeliveredTo(s, k, pe)
    ensures DeliveredTo(ApplyWorker(c, s, w, Call(b)), k, pe)
  {
    var t := ApplyWorker(c, s, w, Call(b));
    PartsUpdate(s.workers, w, t.workers[w], k, pe);
    assert t.workers == s.workers[w := t.workers[w]];
    if k == s.workers[w].next {
      TimesAppend(s.sinks[k].log, s.workers[w].pe, pe);
    }
  }

  lemma DeliveriesWorker(c: Config, s: State, w: nat, a: WorkerAction, k: nat, pe: PipelineEvent)
    requires Locks(s) && WorkerEnabled(c, s, w, a)
    requires k < |s.sinks| && DeliveredTo(s, k, pe)
    ensures DeliveredTo(ApplyWorker(c, s, w, a), k, pe)
  {
    if a.Call? {
      DeliveriesCall(c, s, w, a.a, k, pe);
    } else {
      var t := ApplyWorker(c, s, w, a);
      PartsUpdate(s.workers, w, t.workers[w], k, pe);
      assert t.workers == s.workers[w := t.workers[w]];
      if a.Done? {
        ReachedAppend(s.h.sent, Sent(s.workers[w].pe, s.workers[w].upto), k, pe);
      }
    }
  }

  lemma DeliveriesOthers(s: State, t: State)
    requires Locks(s) && Deliveries(s) && OthersFrame(s, t)
    ensures Deliveries(t)
  {
    forall k, pe | 0 <= k < |t.sinks| ensures DeliveredTo(t, k, pe) {
      if k < |s.sinks| {
        assert DeliveredTo(s, k, pe);
      } else {
        DeliveriesNew(s, k, pe);
      }
    }
  }

  lemma DeliveriesWork(c: Config, s: State, w: nat, a: WorkerAction)
    requires Locks(s) && Deliveries(s) && WorkerEnabled(c, s, w, a)
    ensures Deliveries(ApplyWorker(c, s, w, a))
  {
    hide DeliveredTo;
    var t := ApplyWorker(c, s, w, a);
    assert |t.sinks| == |s.sinks|;
    assert WorkerOk(s, w);
    forall k, pe | 0 <= k < |t.sinks| ensures DeliveredTo(t, k, pe) {
      DeliveriesWorker(c, s, w, a, k, pe);
    }
  }

  lemma DeliveriesStep(c: Config, s: State, l: Label)
    requires Locks(s) && Deliveries(s) && Enabled(c, s, l)
    ensures Deliveries(Apply(c, s, l))
  {
    hide Locks;
    hide Deliveries;
    if l.Work? {
      DeliveriesWork(c, s, l.w, l.a);
    } else {
      OthersStep(c, s, l);
      DeliveriesOthers(s, Apply(c, s, l));
    }
  }

  /** A sink just registered is in no list taken before. */
  lemma DeliveriesNew(s: State, k: nat, pe: PipelineEvent)
    requires Locks(s) && Deliveries(s) && k >= |s.sinks|
    ensures Reached(s.h.sent, k, pe) == 0 && Parts(s.workers, k, pe) == 0
  {
    forall i | 0 <= i < |s.workers| ensures !s.workers[i].Broadcasting? || s.workers[i].upto <= k {
      assert WorkerOk(s, i);
    }
    PartsNone(s.workers, k, pe);
    ReachedNone(s.h.sent, k, pe);
  }

  // Verdicts

  /** The pipeline event is what a worker makes of its origin, and the origin was to be kept. */
  ghost predicate Faithful(c: Config, pe: PipelineEvent) {
    var v := c.classify(pe.Origin());
    v.Keep? && pe.body == v.body
  }

  ghost predicate Verdicts(c: Config, s: State) {
    && (forall i :: 0 <= i < |s.h.filtered| ==> c.classify(s.h.filtered[i]).Discard?)
    && (forall i :: 0 <= i < |s.h.sent| ==> Faithful(c, s.h.sent[i].pe))
    && (forall w :: 0 <= w < |s.workers| && s.workers[w].Broadcasting? ==> Faithful(c, s.workers[w].pe))
    && (s.crashed ==> exists w :: 0 <= w < |s.workers| && s.workers[w].Working? && c.classify(s.workers[w].e).Panic?)
  }

  lemma VerdictsInit(c: Config)
    ensures Verdicts(c, Init(c))
  {
  }

  lemma VerdictsWorker(c: Config, s: State, w: nat, a: WorkerAction)
    requires Verdicts(c, s) && WorkerEnabled(c, s, w, a) && !s.crashed
    ensures Verdicts(c, ApplyWorker(c, s, w, a))
  {
    var t := ApplyWorker(c, s, w, a);
    if a.Crash? {
      assert t.workers[w].Working?;
    }
  }

  lemma VerdictsStep(c: Config, s: State, l: Label)
    requires Verdicts(c, s) && Enabled(c, s, l)
    ensures Verdicts(c, Apply(c, s, l))
  {
    if l.Work? {
      hide Verdicts;
      VerdictsWorker(c, s, l.w, l.a);
    } else {
      hide Faithful;
      OthersStep(c, s, l);
    }
  }
}
