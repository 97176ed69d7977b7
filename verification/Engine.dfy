/**
 The pipeline engine of internal/pipeline/engine.go as a labelled transition
 system: a source goroutine, the ingestion dispatcher, the worker pool, the
 registered sinks and a caller of `Stop`, stepping in any order. A label names
 one atomic action of one goroutine; `Enabled` says when it may happen and
 `Apply` what it does, so a run is a list of labels and every theorem about all
 runs covers every interleaving.
 */
module Engine {
  import opened Prelude
  import opened Bytes
  import opened Clock
  import N = Packets

  // Events

  datatype EventType = Network | Serial | Raw

  datatype Payload = Payload(kind: EventType, ts: Time, data: seq<byte>)

  /** `IngestionEvent`; the source label and metadata play no part in the engine. */
  datatype Event = Event(id: nat, kind: EventType, ts: Time, data: seq<byte>)

  /** What a worker attaches to an event: a packet and its error, a frame, or nothing. */
  datatype Body = PacketBody(packet: Option<N.Packet>, failed: bool) | FrameBody(payload: seq<byte>) | NoBody

  datatype PipelineEvent = PipelineEvent(id: nat, kind: EventType, ts: Time, latency: nat,
                                         raw: seq<byte>, body: Body, worker: nat) {
    /** The ingestion event this was made from. */
    function Origin(): Event {
      Event(id, kind, ts, raw)
    }
  }

  /** What processing does to an event: crash the process, discard it, or keep it. */
  datatype Verdict = Panic | Discard | Keep(body: Body)

  // Configuration

  datatype Config = Config(numWorkers: nat, queueSize: nat, dropOnBackpressure: bool,
                           sourceCap: nat, payloads: seq<Payload>, extraSinks: seq<SinkKind>,
                           classify: Event -> Verdict)

  /** Workers, queue slots and ring buffer slots of an engine. */
  datatype Sizes = Sizes(workers: int, queue: int, ring: int) {
    predicate Usable() {
      workers >= 1 && queue >= 1 && ring >= 1
    }
  }

  /** The normalisation in `NewPipelineEngine`; `cpus` is what `runtime.NumCPU` returns. */
  function Normalised(given: Sizes, cpus: nat): (r: Sizes)
    requires cpus >= 1
    ensures r.Usable() && (given.Usable() ==> r == given)
    ensures given.workers < 1 ==> r.workers == cpus
    ensures given.queue < 1 ==> r.queue == 1024
    ensures given.ring < 1 ==> r.ring == 256
    ensures (given.workers >= 1 ==> r.workers == given.workers) && (given.queue >= 1 ==> r.queue == given.queue)
            && (given.ring >= 1 ==> r.ring == given.ring)
  {
    Sizes(if given.workers <= 0 then cpus else given.workers,
          if given.queue <= 0 then 1024 else given.queue,
          if given.ring <= 0 then 256 else given.ring)
  }

  /** Normalised sizes, and a source whose event counter does not wrap. */
  ghost predicate ValidConfig(c: Config) {
    && c.numWorkers >= 1
    && c.queueSize >= 1
    && c.sourceCap >= 1
    && |c.payloads| < U64
  }

  /** Event `k` of the source; its identifier is the value of the atomic counter. */
  function EventAt(c: Config, k: nat): Event
    requires k < |c.payloads|
  {
    var p := c.payloads[k];
    Event(k + 1, p.kind, p.ts, p.data)
  }

  function Input(c: Config): (s: seq<Event>)
    ensures |s| == |c.payloads|
    ensures forall k :: 0 <= k < |s| ==> s[k] == EventAt(c, k)
  {
    seq(|c.payloads|, k requires 0 <= k < |c.payloads| => EventAt(c, k))
  }

  // State

  datatype Dispatcher =
    | Selecting             // the outer select of ingestionLoop
    | Holding(e: Event)     // received, at the inner select
    | Dropping(e: Event)    // default branch taken, RecordDrop still to come
    | Returning             // loop left, deferred close still to come
    | Finished

  /** Progress inside `PcapSink.OnEvent`: before the lock, under it, after each of the two writes. */
  datatype Stage = Enter | Locked | HeaderOut | DataOut

  datatype Worker =
    | Idle
    | Working(e: Event)
    | Broadcasting(pe: PipelineEvent, upto: nat, next: nat, stage: Stage)
    | Exited

  datatype SinkKind = StatsKind | RingKind | PcapKind | OtherKind

  /** One `Write` on a recording: the global header, a record header, or packet data. */
  datatype Chunk = GlobalChunk | HeaderChunk(pe: PipelineEvent) | DataChunk(pe: PipelineEvent)

  /** A sink: its lock, the `OnEvent` calls that took effect, and what was written to its file. */
  datatype Sink = Sink(kind: SinkKind, lock: Option<nat>, log: seq<PipelineEvent>, file: seq<Chunk>, closed: bool)

  datatype Phase = Running | Waiting | Closing(k: nat) | Stopped(n: nat)

  /** A finished broadcast: the event and the length of the sink list it was sent to. */
  datatype Sent = Sent(pe: PipelineEvent, upto: nat)

  /** What happened so far; no guard reads it. */
  datatype History = History(enqueued: seq<Event>, dequeued: nat, dropped: seq<Event>, abandoned: seq<Event>,
                             filtered: seq<Event>, sent: seq<Sent>)

  datatype State = State(srcPos: nat, srcChan: seq<Event>, srcClosed: bool, received: nat,
                         disp: Dispatcher, inChan: seq<Event>, inClosed: bool,
                         workers: seq<Worker>, sinks: seq<Sink>, drops: nat,
                         cancelled: bool, phase: Phase, crashed: bool, h: History)

  function NewSink(kind: SinkKind): Sink {
    Sink(kind, None, [], if kind.PcapKind? then [GlobalChunk] else [], false)
  }

  function NewSinks(kinds: seq<SinkKind>): (s: seq<Sink>)
    ensures |s| == |kinds| && forall i :: 0 <= i < |s| ==> s[i] == NewSink(kinds[i])
  {
    seq(|kinds|, i requires 0 <= i < |kinds| => NewSink(kinds[i]))
  }

  /** `NewPipelineEngine`, some `AddSink` calls, then `Start`. */
  function Init(c: Config): State {
    State(0, [], false, 0, Selecting, [], false,
          seq(c.numWorkers, i => Idle), NewSinks([StatsKind, RingKind] + c.extraSinks), 0,
          false, Running, false, History([], 0, [], [], [], []))
  }

  /** Whether `PcapSink.OnEvent` writes the event or returns at once. */
  predicate Recordable(pe: PipelineEvent) {
    pe.kind.Network? && pe.raw != []
  }

  // Steps

  datatype SourceAction = Emit | Abort | Finish

  datatype DispatchAction = Receive | SourceClosed | SeeCancel | Send | Full | RecordDrop | Abandon | CloseQueue

  /** One `OnEvent` call: at once, or `PcapSink`'s lock, two writes and unlock. */
  datatype SinkAction = Deliver | Lock | WriteHeader | WriteData | Unlock

  datatype WorkerAction = Take | Exit | Crash | Filter | Snapshot(latency: nat) | Call(a: SinkAction) | Done

  /** What the caller does: `AddSink`, cancelling the parent context, calling `Stop`. */
  datatype CallerAction = AddSink(kind: SinkKind) | CancelParent | Stop

  /** The rest of `Stop`, after it has cancelled and closed the source. */
  datatype StopAction = Waited | CloseSink | Return

  datatype Label =
    | Source(s: SourceAction)
    | Dispatch(d: DispatchAction)
    | Work(w: nat, a: WorkerAction)
    | Caller(x: CallerAction)
    | Stopping(t: StopAction)

  predicate AllExited(ws: seq<Worker>) {
    forall w :: 0 <= w < |ws| ==> ws[w].Exited?
  }

  predicate SourceEnabled(c: Config, s: State, a: SourceAction) {
    && !s.srcClosed
    && match a
       case Emit => s.srcPos < |c.payloads| && |s.srcChan| < c.sourceCap
       case Abort => s.srcPos < |c.payloads| && s.cancelled
       case Finish => s.srcPos == |c.payloads|
  }

  predicate DispatchEnabled(c: Config, s: State, a: DispatchAction) {
    match a
    case Receive => s.disp.Selecting? && s.srcChan != []
    case SourceClosed => s.disp.Selecting? && s.srcChan == [] && s.srcClosed
    case SeeCancel => s.disp.Selecting? && s.cancelled
    case Send => s.disp.Holding? && |s.inChan| < c.queueSize
    case Full => s.disp.Holding? && c.dropOnBackpressure && |s.inChan| >= c.queueSize
    case RecordDrop => s.disp.Dropping?
    case Abandon => s.disp.Holding? && !c.dropOnBackpressure && s.cancelled
    case CloseQueue => s.disp.Returning?
  }

  predicate SinkEnabled(s: State, me: Worker, a: SinkAction) {
    && me.Broadcasting? && me.next < me.upto && me.next < |s.sinks|
    && var sink := s.sinks[me.next];
       var writes := sink.kind.PcapKind? && Recordable(me.pe);
       match a
       case Deliver => me.stage.Enter? && !writes
       case Lock => me.stage.Enter? && writes && sink.lock.None?
       case WriteHeader => me.stage.Locked?
       case WriteData => me.stage.HeaderOut?
       case Unlock => me.stage.DataOut?
  }

  predicate WorkerEnabled(c: Config, s: State, w: nat, a: WorkerAction) {
    && w < |s.workers|
    && var me := s.workers[w];
       match a
       case Take => me.Idle? && s.inChan != []
       case Exit => me.Idle? && s.inChan == [] && s.inClosed
       case Crash => me.Working? && c.classify(me.e).Panic?
       case Filter => me.Working? && c.classify(me.e).Discard?
       case Snapshot(_) => me.Working? && c.classify(me.e).Keep?
       case Call(b) => SinkEnabled(s, me, b)
       case Done => me.Broadcasting? && me.stage.Enter? && me.next == me.upto
  }

  predicate CallerEnabled(s: State, a: CallerAction) {
    match a
    case AddSink(_) => !s.phase.Closing?      // Stop holds the registry mutex while it closes
    case CancelParent => !s.cancelled
    case Stop => s.phase.Running?
  }

  predicate StopEnabled(s: State, a: StopAction) {
    match a
    case Waited => s.phase.Waiting? && AllExited(s.workers)
    case CloseSink => s.phase.Closing? && s.phase.k < |s.sinks| && s.sinks[s.phase.k].lock.None?
    case Return => s.phase.Closing? && s.phase.k >= |s.sinks|
  }

  /** Once a worker has panicked the process is gone and nothing more happens. */
  predicate Enabled(c: Config, s: State, l: Label) {
    && !s.crashed
    && match l
       case Source(a) => SourceEnabled(c, s, a)
       case Dispatch(a) => DispatchEnabled(c, s, a)
       case Work(w, a) => WorkerEnabled(c, s, w, a)
       case Caller(a) => CallerEnabled(s, a)
       case Stopping(a) => StopEnabled(s, a)
  }

  function ApplySource(c: Config, s: State, a: SourceAction): State
    requires SourceEnabled(c, s, a)
  {
    match a
    case Emit => s.(srcPos := s.srcPos + 1, srcChan := s.srcChan + [EventAt(c, s.srcPos)])
    case Abort => s.(srcClosed := true)
    case Finish => s.(srcClosed := true)
  }

  function ApplyDispatch(c: Config, s: State, a: DispatchAction): State
    requires DispatchEnabled(c, s, a)
  {
    match a
    case Receive => s.(srcChan := s.srcChan[1..], received := s.received + 1, disp := Holding(s.srcChan[0]))
    case SourceClosed => s.(disp := Returning)
    case SeeCancel => s.(disp := Returning)
    case Send =>
      s.(disp := Selecting, inChan := s.inChan + [s.disp.e],
         h := s.h.(enqueued := s.h.enqueued + [s.disp.e]))
    case Full => s.(disp := Dropping(s.disp.e))
    case RecordDrop =>
      s.(disp := Selecting, drops := s.drops + 1, h := s.h.(dropped := s.h.dropped + [s.disp.e]))
    case Abandon => s.(disp := Returning, h := s.h.(abandoned := s.h.abandoned + [s.disp.e]))
    case CloseQueue => s.(disp := Finished, inClosed := true)
  }

  function MakeEvent(e: Event, body: Body, w: nat, latency: nat): PipelineEvent {
    PipelineEvent(e.id, e.kind, e.ts, latency, e.data, body, w)
  }

  /** The worker and the sink after one action of an `OnEvent` call by worker `w`. */
  function CallSink(w: nat, me: Worker, sink: Sink, a: SinkAction): (Worker, Sink)
    requires me.Broadcasting?
  {
    match a
    case Deliver => (me.(next := me.next + 1), sink.(log := sink.log + [me.pe]))
    case Lock => (me.(stage := Locked), sink.(lock := Some(w)))
    case WriteHeader => (me.(stage := HeaderOut), sink.(file := sink.file + [HeaderChunk(me.pe)]))
    case WriteData =>
      (me.(stage := DataOut), sink.(file := sink.file + [DataChunk(me.pe)], log := sink.log + [me.pe]))
    case Unlock => (me.(stage := Enter, next := me.next + 1), sink.(lock := None))
  }

  function ApplyWorker(c: Config, s: State, w: nat, a: WorkerAction): State
    requires WorkerEnabled(c, s, w, a)
  {
    var me := s.workers[w];
    match a
    case Take =>
      s.(workers := s.workers[w := Working(s.inChan[0])], inChan := s.inChan[1..],
         h := s.h.(dequeued := s.h.dequeued + 1))
    case Exit => s.(workers := s.workers[w := Exited])
    case Crash => s.(crashed := true)
    case Filter => s.(workers := s.workers[w := Idle], h := s.h.(filtered := s.h.filtered + [me.e]))
    case Snapshot(latency) =>
      var pe := MakeEvent(me.e, c.classify(me.e).body, w, latency);
      s.(workers := s.workers[w := Broadcasting(pe, |s.sinks|, 0, Enter)])
    case Call(b) =>
      var (me', sink') := CallSink(w, me, s.sinks[me.next], b);
      s.(workers := s.workers[w := me'], sinks := s.sinks[me.next := sink'])
    case Done => s.(workers := s.workers[w := Idle], h := s.h.(sent := s.h.sent + [Sent(me.pe, me.upto)]))
  }

  function ApplyCaller(s: State, a: CallerAction): State {
    match a
    case AddSink(kind) => s.(sinks := s.sinks + [NewSink(kind)])
    case CancelParent => s.(cancelled := true)
    case Stop => s.(cancelled := true, phase := Waiting)
  }

  function ApplyStop(s: State, a: StopAction): State
    requires StopEnabled(s, a)
  {
    match a
    case Waited => s.(phase := Closing(0))
    case CloseSink =>
      var k := s.phase.k;
      s.(sinks := s.sinks[k := s.sinks[k].(closed := true)], phase := Closing(k + 1))
    case Return => s.(phase := Stopped(s.phase.k))
  }

  function Apply(c: Config, s: State, l: Label): State
    requires Enabled(c, s, l)
  {
    match l
    case Source(a) => ApplySource(c, s, a)
    case Dispatch(a) => ApplyDispatch(c, s, a)
    case Work(w, a) => ApplyWorker(c, s, w, a)
    case Caller(a) => ApplyCaller(s, a)
    case Stopping(a) => ApplyStop(s, a)
  }

  // Runs

  /** The labels can be taken one after the other from `s`. */
  ghost predicate IsRun(c: Config, s: State, ls: seq<Label>)
    decreases |ls|
  {
    ls == [] || (Enabled(c, s, ls[0]) && IsRun(c, Apply(c, s, ls[0]), ls[1..]))
  }

  ghost function After(c: Config, s: State, ls: seq<Label>): State
    requires IsRun(c, s, ls)
    decreases |ls|
  {
    if ls == [] then s else After(c, Apply(c, s, ls[0]), ls[1..])
  }
}
