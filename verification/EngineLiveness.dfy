/** The engine never gets stuck, and no run of it is longer than a bound known beforehand. */
module EngineLiveness {
  import opened Engine
  import opened EngineFlow
  import opened EngineSinks
  import opened EngineRuns

  // Freedom from deadlock

  /** An action of the source, the dispatcher or a worker that neither heeds a cancellation nor gives an event up. */
  predicate Steady(l: Label) {
    match l
    case Source(a) => !a.Abort?
    case Dispatch(a) => !a.SeeCancel? && !a.Full? && !a.Abandon?
    case Work(_, _) => true
    case Caller(_) => false
    case Stopping(_) => false
  }

  /** Some such action can be taken. */
  ghost predicate CanStep(c: Config, s: State) {
    exists l :: Steady(l) && Enabled(c, s, l)
  }

  /** Inside a broadcast either the worker can go on, or the lock holder it waits for can. */
  lemma BroadcastStep(c: Config, s: State, w: nat)
    requires Locks(s) && !s.crashed && w < |s.workers| && s.workers[w].Broadcasting?
    ensures CanStep(c, s)
  {
    var me := s.workers[w];
    assert WorkerOk(s, w);
    if me.next == me.upto {
      assert Steady(Work(w, Done)) && Enabled(c, s, Work(w, Done));
    } else {
      var sink := s.sinks[me.next];
      match me.stage
      case Enter =>
        if !(sink.kind.PcapKind? && Recordable(me.pe)) {
          assert Steady(Work(w, Call(Deliver))) && Enabled(c, s, Work(w, Call(Deliver)));
        } else if sink.lock.None? {
          assert Steady(Work(w, Call(Lock))) && Enabled(c, s, Work(w, Call(Lock)));
        } else {
          assert LockOk(s.workers, me.next, sink.lock);
          InsideStep(c, s, sink.lock.value);
        }
      case Locked => InsideStep(c, s, w);
      case HeaderOut => InsideStep(c, s, w);
      case DataOut => InsideStep(c, s, w);
    }
  }

  lemma InsideStep(c: Config, s: State, w: nat)
    requires Locks(s) && !s.crashed && w < |s.workers|
    requires s.workers[w].Broadcasting? && !s.workers[w].stage.Enter?
    ensures CanStep(c, s)
  {
    assert WorkerOk(s, w);
    match s.workers[w].stage
    case Locked => assert Steady(Work(w, Call(WriteHeader))) && Enabled(c, s, Work(w, Call(WriteHeader)));
    case HeaderOut => assert Steady(Work(w, Call(WriteData))) && Enabled(c, s, Work(w, Call(WriteData)));
    case DataOut => assert Steady(Work(w, Call(Unlock))) && Enabled(c, s, Work(w, Call(Unlock)));
  }

  lemma WorkingStep(c: Config, s: State, w: nat)
    requires !s.crashed && w < |s.workers| && s.workers[w].Working?
    ensures CanStep(c, s)
  {
    match c.classify(s.workers[w].e)
    case Panic => assert Steady(Work(w, Crash)) && Enabled(c, s, Work(w, Crash));
    case Discard => assert Steady(Work(w, Filter)) && Enabled(c, s, Work(w, Filter));
    case Keep(_) => assert Steady(Work(w, Snapshot(0))) && Enabled(c, s, Work(w, Snapshot(0)));
  }

  /** An idle worker has something to take, may exit, or waits on a dispatcher or source that can go on. */
  lemma IdleStep(c: Config, s: State, w: nat)
    requires ValidConfig(c) && Shape(c, s) && Shutdown(c, s) && !s.crashed
    requires w < |s.workers| && s.workers[w].Idle?
    ensures CanStep(c, s)
  {
    if s.inChan != [] {
      assert Steady(Work(w, Take)) && Enabled(c, s, Work(w, Take));
    } else {
      match s.disp
      case Finished => assert Steady(Work(w, Exit)) && Enabled(c, s, Work(w, Exit));
      case Returning => assert Steady(Dispatch(CloseQueue)) && Enabled(c, s, Dispatch(CloseQueue));
      case Holding(_) => assert Steady(Dispatch(Send)) && Enabled(c, s, Dispatch(Send));
      case Dropping(_) => assert Steady(Dispatch(RecordDrop)) && Enabled(c, s, Dispatch(RecordDrop));
      case Selecting =>
        if s.srcChan != [] {
          assert Steady(Dispatch(Receive)) && Enabled(c, s, Dispatch(Receive));
        } else if s.srcClosed {
          assert Steady(Dispatch(SourceClosed)) && Enabled(c, s, Dispatch(SourceClosed));
        } else if s.srcPos < |c.payloads| {
          assert Steady(Source(Emit)) && Enabled(c, s, Source(Emit));
        } else {
          assert Steady(Source(Finish)) && Enabled(c, s, Source(Finish));
        }
    }
  }

  lemma WorkersCanStep(c: Config, s: State)
    requires ValidConfig(c) && Inv(c, s) && !s.crashed && !AllExited(s.workers)
    ensures CanStep(c, s)
  {
    hide CanStep;
    hide Flow;
    hide Order;
    hide Files;
    hide Deliveries;
    hide Verdicts;
    hide Fifo;
    hide Ids;
    hide Locks;
    var w :| 0 <= w < |s.workers| && !s.workers[w].Exited?;
    match s.workers[w]
    case Idle => IdleStep(c, s, w);
    case Working(_) => WorkingStep(c, s, w);
    case Broadcasting(_, _, _, _) => BroadcastStep(c, s, w);
  }

  lemma StopCanStep(c: Config, s: State)
    requires Locks(s) && !s.crashed && AllExited(s.workers) && (s.phase.Waiting? || s.phase.Closing?)
    ensures exists a :: Enabled(c, s, Stopping(a))
  {
    if s.phase.Waiting? {
      assert Enabled(c, s, Stopping(Waited));
    } else if s.phase.k < |s.sinks| {
      assert LockOk(s.workers, s.phase.k, s.sinks[s.phase.k].lock);
      assert Enabled(c, s, Stopping(CloseSink));
    } else {
      assert Enabled(c, s, Stopping(Return));
    }
  }

  /**
   Until all workers have exited, the source, the dispatcher or a worker can
   act, with no help from the caller and without giving anything up; after
   that, a pending `Stop` can act until it has returned. Only a panic stops this.
   */
  lemma NoDeadlock(c: Config, ls: seq<Label>)
    requires ValidConfig(c) && IsRun(c, Init(c), ls)
    requires !After(c, Init(c), ls).crashed
    ensures var s := After(c, Init(c), ls);
            && (!AllExited(s.workers) ==> CanStep(c, s))
            && (AllExited(s.workers) && (s.phase.Waiting? || s.phase.Closing?)
                ==> exists a :: Enabled(c, s, Stopping(a)))
  {
    hide CanStep;
    Reachable(c, ls);
    var s := After(c, Init(c), ls);
    if !AllExited(s.workers) {
      hide Inv;
      WorkersCanStep(c, s);
    } else if s.phase.Waiting? || s.phase.Closing? {
      StopCanStep(c, s);
    }
  }

  // Termination

  /** The most steps one event can need after a worker has it, with at most `n` sinks. */
  function PerEvent(n: nat): nat {
    4 * n + 2
  }

  function StageSteps(st: Stage): nat {
    match st case Enter => 0 case Locked => 1 case HeaderOut => 2 case DataOut => 3
  }

  /** The most steps a worker can still take without another event. */
  function WorkerLeft(me: Worker, n: nat): int {
    match me
    case Idle => 1
    case Working(_) => PerEvent(n) + 1
    case Broadcasting(_, upto, next, st) => 4 * (upto - next) - StageSteps(st) + 2
    case Exited => 0
  }

  function WorkersLeft(ws: seq<Worker>, n: nat): int {
    if ws == [] then 0 else WorkerLeft(ws[0], n) + WorkersLeft(ws[1..], n)
  }

  lemma {:induction false} WorkersLeftUpdate(ws: seq<Worker>, i: nat, w: Worker, n: nat)
    requires i < |ws|
    ensures WorkersLeft(ws[i := w], n) == WorkersLeft(ws, n) - WorkerLeft(ws[i], n) + WorkerLeft(w, n)
  {
    if i > 0 {
      WorkersLeftUpdate(ws[1..], i - 1, w, n);
      assert ws[i := w][1..] == ws[1..][i - 1 := w];
    } else {
      assert ws[i := w][1..] == ws[1..];
    }
  }

  function DispatcherLeft(d: Dispatcher, n: nat): nat {
    match d
    case Selecting => 2
    case Holding(_) => PerEvent(n) + 4
    case Dropping(_) => 3
    case Returning => 1
    case Finished => 0
  }

  function StopLeft(p: Phase, n: nat): int {
    match p
    case Running => n + 3
    case Waiting => n + 2
    case Closing(k) => n - k + 1
    case Stopped(_) => 0
  }

  /**
   A bound on the steps other than `AddSink` still to come, when never more
   than `n` sinks will be registered. It counts the source's unsent events,
   both queues, the event in hand, the workers' progress and the rest of `Stop`.
   */
  function Left(c: Config, s: State, n: nat): int {
    (|c.payloads| - s.srcPos) * (PerEvent(n) + 4) + |s.srcChan| * (PerEvent(n) + 3)
    + DispatcherLeft(s.disp, n) + |s.inChan| * (PerEvent(n) + 1)
    + WorkersLeft(s.workers, n) + StopLeft(s.phase, n)
    + (if s.srcClosed then 0 else 1) + (if s.cancelled then 0 else 1) + (if s.crashed then 0 else 1)
  }

  lemma {:induction false} WorkersLeftNonNegative(ws: seq<Worker>, n: nat)
    requires forall i :: 0 <= i < |ws| ==> WorkerLeft(ws[i], n) >= 0
    ensures WorkersLeft(ws, n) >= 0
  {
    if ws != [] {
      WorkersLeftNonNegative(ws[1..], n);
    }
  }

  lemma LeftNonNegative(c: Config, s: State, n: nat)
    requires Shape(c, s) && Shutdown(c, s) && Locks(s) && |s.sinks| <= n
    ensures Left(c, s, n) >= 0
  {
    forall i | 0 <= i < |s.workers| ensures WorkerLeft(s.workers[i], n) >= 0 {
      assert WorkerOk(s, i);
    }
    WorkersLeftNonNegative(s.workers, n);
    hide WorkersLeft;
    Product(|c.payloads| - s.srcPos, PerEvent(n) + 4);
    Product(|s.srcChan|, PerEvent(n) + 3);
    Product(|s.inChan|, PerEvent(n) + 1);
  }

  lemma Product(a: nat, b: nat)
    ensures a * b >= 0
  {
  }

  lemma SourceDecreases(c: Config, s: State, a: SourceAction, n: nat)
    requires SourceEnabled(c, s, a)
    ensures Left(c, ApplySource(c, s, a), n) < Left(c, s, n)
  {
    hide WorkersLeft;
    var u := PerEvent(n);
    if a.Emit? {
      assert (|c.payloads| - (s.srcPos + 1)) * (u + 4) == (|c.payloads| - s.srcPos) * (u + 4) - (u + 4);
      assert (|s.srcChan| + 1) * (u + 3) == |s.srcChan| * (u + 3) + (u + 3);
    }
  }

  lemma DispatchDecreases(c: Config, s: State, a: DispatchAction, n: nat)
    requires DispatchEnabled(c, s, a)
    ensures Left(c, ApplyDispatch(c, s, a), n) < Left(c, s, n)
  {
    hide WorkersLeft;
    var u := PerEvent(n);
    if a.Receive? {
      assert (|s.srcChan| - 1) * (u + 3) == |s.srcChan| * (u + 3) - (u + 3);
    } else if a.Send? {
      assert (|s.inChan| + 1) * (u + 1) == |s.inChan| * (u + 1) + (u + 1);
    }
  }

  lemma WorkerDecreases(c: Config, s: State, w: nat, a: WorkerAction, n: nat)
    requires Locks(s) && |s.sinks| <= n && !s.crashed && WorkerEnabled(c, s, w, a)
    ensures Left(c, ApplyWorker(c, s, w, a), n) < Left(c, s, n)
  {
    hide WorkersLeft;
    var t := ApplyWorker(c, s, w, a);
    var u := PerEvent(n);
    assert WorkerOk(s, w);
    WorkersLeftUpdate(s.workers, w, t.workers[w], n);
    assert t.workers == s.workers[w := t.workers[w]];
    if a.Take? {
      assert (|s.inChan| - 1) * (u + 1) == |s.inChan| * (u + 1) - (u + 1);
    }
  }

  /** Every step but `AddSink` brings the end nearer; `AddSink` does not push it away. */
  lemma LeftStep(c: Config, s: State, l: Label, n: nat)
    requires Locks(s) && Shutdown(c, s) && Enabled(c, s, l)
    requires |Apply(c, s, l).sinks| <= n
    ensures Left(c, Apply(c, s, l), n) <= Left(c, s, n)
    ensures !(l.Caller? && l.x.AddSink?) ==> Left(c, Apply(c, s, l), n) < Left(c, s, n)
  {
    match l
    case Source(a) => SourceDecreases(c, s, a, n);
    case Dispatch(a) => DispatchDecreases(c, s, a, n);
    case Work(w, a) => WorkerDecreases(c, s, w, a, n);
    case Caller(a) =>
    case Stopping(a) =>
  }

  /** Steps of a run other than `AddSink`. */
  function Steps(ls: seq<Label>): (n: nat)
    ensures n <= |ls|
  {
    if ls == [] then 0 else (if ls[0].Caller? && ls[0].x.AddSink? then 0 else 1) + Steps(ls[1..])
  }

  lemma SinksGrow(c: Config, s: State, l: Label)
    requires Enabled(c, s, l)
    ensures |s.sinks| + (if l.Caller? && l.x.AddSink? then 1 else 0) == |Apply(c, s, l).sinks|
  {
  }

  lemma {:induction false} RunBound(c: Config, s: State, ls: seq<Label>, n: nat)
    requires Inv(c, s) && IsRun(c, s, ls)
    requires |After(c, s, ls).sinks| <= n
    ensures Steps(ls) + Left(c, After(c, s, ls), n) <= Left(c, s, n)
    ensures |s.sinks| + |ls| == |After(c, s, ls).sinks| + Steps(ls)
    decreases |ls|
  {
    hide Inv;
    hide Left;
    if ls != [] {
      var t := Apply(c, s, ls[0]);
      InvStep(c, s, ls[0]);
      RunBound(c, t, ls[1..], n);
      SinksGrow(c, s, ls[0]);
      InvLeft(c, s, ls[0], n);
    }
  }

  lemma InvLeft(c: Config, s: State, l: Label, n: nat)
    requires Inv(c, s) && Enabled(c, s, l) && |Apply(c, s, l).sinks| <= n
    ensures Left(c, Apply(c, s, l), n) <= Left(c, s, n)
    ensures !(l.Caller? && l.x.AddSink?) ==> Left(c, Apply(c, s, l), n) < Left(c, s, n)
  {
    hide Left;
    LeftStep(c, s, l, n);
  }

  lemma {:induction false} IdleLeft(ws: seq<Worker>, n: nat)
    requires forall i :: 0 <= i < |ws| ==> ws[i].Idle?
    ensures WorkersLeft(ws, n) == |ws|
  {
    if ws != [] {
      IdleLeft(ws[1..], n);
    }
  }

  lemma InitialLeft(c: Config, n: nat)
    ensures Left(c, Init(c), n) == |c.payloads| * (4 * n + 6) + c.numWorkers + n + 8
    ensures |Init(c).sinks| >= 2
  {
    IdleLeft(Init(c).workers, n);
  }

  lemma InvNonNegative(c: Config, s: State, n: nat)
    requires Inv(c, s) && |s.sinks| <= n
    ensures Left(c, s, n) >= 0
  {
    hide Left;
    LeftNonNegative(c, s, n);
  }

  /**
   No run is longer than a number fixed by the size of the source, the number
   of workers and the number of sinks: the engine cannot run for ever.
   */
  lemma Terminates(c: Config, ls: seq<Label>)
    requires ValidConfig(c) && IsRun(c, Init(c), ls)
    ensures var n := |After(c, Init(c), ls).sinks|;
            |ls| <= |c.payloads| * (4 * n + 6) + c.numWorkers + 2 * n + 6
  {
    hide Inv;
    hide Left;
    hide Init;
    hide IsRun;
    hide After;
    InvInit(c);
    var n := |After(c, Init(c), ls).sinks|;
    RunBound(c, Init(c), ls, n);
    InvRun(c, Init(c), ls);
    InvNonNegative(c, After(c, Init(c), ls), n);
    InitialLeft(c, n);
  }
}
