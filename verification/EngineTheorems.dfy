/** What holds of every run of the engine, under every interleaving. */
module EngineTheorems {
  import opened Engine
  import opened EngineFlow
  import opened EngineSinks
  import opened EngineRuns

  // Conservation

  lemma {:induction false} CountIn(es: seq<Event>, e: Event)
    ensures Count(es, e) > 0 <==> e in es
  {
    if es != [] {
      CountIn(es[1..], e);
      assert es == [es[0]] + es[1..];
    }
  }

  lemma {:induction false} CountInput(c: Config, r: nat, k: nat)
    requires r <= |c.payloads| && k < |c.payloads|
    ensures Count(Input(c)[..r], EventAt(c, k)) == if k < r then 1 else 0
  {
    if r > 0 {
      CountInput(c, r - 1, k);
      CountAppend(Input(c)[..r - 1], EventAt(c, r - 1), EventAt(c, k));
      assert Input(c)[..r] == Input(c)[..r - 1] + [EventAt(c, r - 1)];
    } else {
      assert Input(c)[..0] == [];
    }
  }

  /**
   In every reachable state each event received from the source is in exactly
   one place: held by the dispatcher, queued, with one worker, filtered out,
   broadcast, dropped, or abandoned at cancellation. No other event is anywhere.
   */
  lemma Conservation(c: Config, ls: seq<Label>)
    requires ValidConfig(c) && IsRun(c, Init(c), ls)
    ensures var s := After(c, Init(c), ls);
            && s.received <= |c.payloads|
            && (forall k :: 0 <= k < |c.payloads| ==>
                  Whereabouts(s, EventAt(c, k)) == if k < s.received then 1 else 0)
            && (forall e :: Whereabouts(s, e) > 0 ==> e in Input(c)[..s.received])
  {
    Reachable(c, ls);
    var s := After(c, Init(c), ls);
    forall k | 0 <= k < |c.payloads|
      ensures Whereabouts(s, EventAt(c, k)) == if k < s.received then 1 else 0
    {
      CountInput(c, s.received, k);
      assert Count(Input(c)[..s.received], EventAt(c, k)) == Whereabouts(s, EventAt(c, k));
    }
    forall e | Whereabouts(s, e) > 0 ensures e in Input(c)[..s.received] {
      CountIn(Input(c)[..s.received], e);
    }
  }

  /**
   The same in numbers: in every reachable state the events received are those
   held, queued, with workers, filtered out, broadcast, dropped and abandoned;
   once the workers are done only the last four are left.
   */
  lemma Account(c: Config, ls: seq<Label>)
    requires ValidConfig(c) && IsRun(c, Init(c), ls)
    ensures var s := After(c, Init(c), ls);
            && s.received == |Held(s.disp)| + |s.inChan| + Busy(s.workers) + |s.h.filtered| + |s.h.sent|
                             + s.drops + |s.h.abandoned|
            && (AllExited(s.workers) ==>
                  s.received == |s.h.filtered| + |s.h.sent| + s.drops + |s.h.abandoned|)
  {
    Reachable(c, ls);
    var s := After(c, Init(c), ls);
    if AllExited(s.workers) {
      WaitMeansDrained(c, ls);
      BusyNone(s.workers);
    }
  }

  /** Events are lost only as configured: drops when dropping, at most one at cancellation when blocking. */
  lemma Losses(c: Config, ls: seq<Label>)
    requires ValidConfig(c) && IsRun(c, Init(c), ls)
    ensures var s := After(c, Init(c), ls);
            && s.drops == |s.h.dropped|
            && (!c.dropOnBackpressure ==> s.drops == 0)
            && |s.h.abandoned| <= (if c.dropOnBackpressure || !s.cancelled then 0 else 1)
  {
    Reachable(c, ls);
  }

  /**
   The bounded queue is first-in first-out: what workers took is a prefix of
   what was enqueued, in source order, and at most one event a worker is
   unfinished. When blocking, what was enqueued is a prefix of the source.
   */
  lemma QueueDiscipline(c: Config, ls: seq<Label>)
    requires ValidConfig(c) && IsRun(c, Init(c), ls)
    ensures var s := After(c, Init(c), ls);
            && |s.inChan| <= c.queueSize
            && s.h.dequeued <= |s.h.enqueued|
            && s.h.enqueued[..s.h.dequeued] + s.inChan == s.h.enqueued
            && Rising(s.h.enqueued)
            && |s.h.filtered| + |s.h.sent| <= s.h.dequeued <= |s.h.filtered| + |s.h.sent| + c.numWorkers
            && s.received <= |c.payloads|
            && (!c.dropOnBackpressure ==>
                  && s.h.enqueued <= Input(c)[..s.received]
                  && s.received <= |s.h.enqueued| + 1)
  {
    Reachable(c, ls);
    var s := After(c, Init(c), ls);
    BusyBound(s.workers);
    if !c.dropOnBackpressure {
      assert Prefix(c, s);
    }
  }

  /** With one worker every sink sees events in source order. */
  lemma SourceOrder(c: Config, ls: seq<Label>, k: nat)
    requires ValidConfig(c) && IsRun(c, Init(c), ls) && c.numWorkers == 1
    requires k < |After(c, Init(c), ls).sinks|
    ensures RisingLog(After(c, Init(c), ls).sinks[k].log)
  {
    Reachable(c, ls);
    var s := After(c, Init(c), ls);
    var taken := s.h.enqueued[..s.h.dequeued];
    assert LogBelow(s.sinks[k].log, Upper(s.workers[0], taken, k));
  }

  // Shutdown

  /** The dispatcher never sends on, nor closes again, the channel it has closed. */
  lemma NoSendAfterClose(c: Config, ls: seq<Label>, a: DispatchAction)
    requires ValidConfig(c) && IsRun(c, Init(c), ls)
    requires Enabled(c, After(c, Init(c), ls), Dispatch(a))
    ensures !After(c, Init(c), ls).inClosed
  {
    Reachable(c, ls);
  }

  /**
   When the wait group is done, the dispatcher, which is not in it, is done
   too: the queue is closed and empty, every event accepted into it has been
   filtered or broadcast, and every sink has had exactly the broadcasts made
   to it. No action of a worker or of the dispatcher is left.
   */
  lemma WaitMeansDrained(c: Config, ls: seq<Label>)
    requires ValidConfig(c) && IsRun(c, Init(c), ls)
    requires AllExited(After(c, Init(c), ls).workers)
    ensures var s := After(c, Init(c), ls);
            && s.disp.Finished? && s.inClosed && s.inChan == [] && !s.crashed
            && (forall e :: Count(s.h.filtered, e) + Count(Origins(s.h.sent), e) == Count(s.h.enqueued, e))
            && (forall k, pe :: 0 <= k < |s.sinks| ==> Times(s.sinks[k].log, pe) == Reached(s.h.sent, k, pe))
            && (forall w, a :: !WorkerEnabled(c, s, w, a))
            && (forall a :: !DispatchEnabled(c, s, a))
  {
    Reachable(c, ls);
    var s := After(c, Init(c), ls);
    assert s.workers[0].Exited?;
    assert s.h.enqueued[..s.h.dequeued] == s.h.enqueued;
    forall e ensures Count(s.h.filtered, e) + Count(Origins(s.h.sent), e) == Count(s.h.enqueued, e) {
      OwnedNone(s.workers, e);
      assert Count(s.h.enqueued[..s.h.dequeued], e) == Taken(s.workers, s.h.filtered, s.h.sent, e);
    }
    forall k, pe | 0 <= k < |s.sinks| ensures Times(s.sinks[k].log, pe) == Reached(s.h.sent, k, pe) {
      assert DeliveredTo(s, k, pe);
      PartsNone(s.workers, k, pe);
    }
  }

  /** No worker is inside, or can enter, an `OnEvent` call once any sink has been closed. */
  lemma NoCallAfterSinkClose(c: Config, ls: seq<Label>, k: nat, w: nat, a: WorkerAction)
    requires ValidConfig(c) && IsRun(c, Init(c), ls)
    requires k < |After(c, Init(c), ls).sinks| && After(c, Init(c), ls).sinks[k].closed
    ensures !Enabled(c, After(c, Init(c), ls), Work(w, a))
  {
    Reachable(c, ls);
    ClosedMeansDone(c, After(c, Init(c), ls), k, w, a);
  }

  lemma ClosedMeansDone(c: Config, s: State, k: nat, w: nat, a: WorkerAction)
    requires Shutdown(c, s) && k < |s.sinks| && s.sinks[k].closed
    ensures !WorkerEnabled(c, s, w, a)
  {
    assert AllExited(s.workers);
  }

  /** When `Stop` has returned every sink then registered is closed. */
  lemma StopClosesAll(c: Config, ls: seq<Label>)
    requires ValidConfig(c) && IsRun(c, Init(c), ls)
    requires After(c, Init(c), ls).phase.Stopped?
    ensures var s := After(c, Init(c), ls);
            && AllExited(s.workers) && s.cancelled
            && s.phase.n <= |s.sinks|
            && forall k :: 0 <= k < s.phase.n ==> s.sinks[k].closed
  {
    Reachable(c, ls);
  }

  lemma FrozenStep(c: Config, s: State, l: Label)
    requires Inv(c, s) && AllExited(s.workers) && |s.workers| >= 1 && Enabled(c, s, l)
    ensures var t := Apply(c, s, l);
            && t.workers == s.workers && t.h == s.h && t.drops == s.drops
            && |s.sinks| <= |t.sinks|
            && forall k :: 0 <= k < |s.sinks| ==> t.sinks[k].log == s.sinks[k].log && t.sinks[k].file == s.sinks[k].file
  {
    hide Flow;
    hide Order;
    hide Locks;
    hide Files;
    hide Deliveries;
    hide Verdicts;
    hide Fifo;
    assert s.workers[0].Exited?;
  }

  /**
   From the moment the workers are done nothing that follows, in any order,
   changes what was enqueued, dropped, filtered, broadcast, logged or recorded.
   */
  lemma {:induction false} Frozen(c: Config, s: State, ls: seq<Label>)
    requires Inv(c, s) && AllExited(s.workers) && |s.workers| >= 1 && IsRun(c, s, ls)
    ensures var t := After(c, s, ls);
            && t.h == s.h && t.drops == s.drops && |s.sinks| <= |t.sinks|
            && forall k :: 0 <= k < |s.sinks| ==> t.sinks[k].log == s.sinks[k].log && t.sinks[k].file == s.sinks[k].file
    decreases |ls|
  {
    hide Inv;
    if ls != [] {
      FrozenStep(c, s, ls[0]);
      InvStep(c, s, ls[0]);
      Frozen(c, Apply(c, s, ls[0]), ls[1..]);
    }
  }

  /** The process goes down only by an event from the source whose processing panics. */
  lemma CrashHasCause(c: Config, ls: seq<Label>)
    requires ValidConfig(c) && IsRun(c, Init(c), ls)
    requires After(c, Init(c), ls).crashed
    ensures exists k :: 0 <= k < |c.payloads| && c.classify(EventAt(c, k)).Panic?
  {
    Reachable(c, ls);
    Conservation(c, ls);
    var s := After(c, Init(c), ls);
    var e := Crasher(c, s);
    hide *;
    assert e in Input(c)[..s.received];
    var k :| 0 <= k < |Input(c)| && Input(c)[k] == e;
    assert c.classify(EventAt(c, k)).Panic?;
  }

  lemma Crasher(c: Config, s: State) returns (e: Event)
    requires Verdicts(c, s) && s.crashed
    ensures c.classify(e).Panic? && Whereabouts(s, e) > 0
  {
    var w :| 0 <= w < |s.workers| && s.workers[w].Working? && c.classify(s.workers[w].e).Panic?;
    e := s.workers[w].e;
    OwnedHas(s.workers, w, e);
  }

  lemma {:induction false} OwnedHas(ws: seq<Worker>, w: nat, e: Event)
    requires w < |ws| && Own(ws[w]) == [e]
    ensures Owned(ws, e) > 0
  {
    if w > 0 {
      OwnedHas(ws[1..], w - 1, e);
    } else {
      CountOne(e, e);
    }
  }

  // The outcome of a completed run

  /** The events of `es` that processing keeps, in order. */
  function Kept(c: Config, es: seq<Event>): seq<Event> {
    if es == [] then []
    else (if c.classify(es[0]).Keep? then [es[0]] else []) + Kept(c, es[1..])
  }

  lemma {:induction false} CountKept(c: Config, es: seq<Event>, e: Event)
    ensures Count(Kept(c, es), e) == if c.classify(e).Keep? then Count(es, e) else 0
  {
    if es != [] {
      CountKept(c, es[1..], e);
      if c.classify(es[0]).Keep? {
        assert Kept(c, es)[1..] == Kept(c, es[1..]);
      } else {
        assert Kept(c, es) == Kept(c, es[1..]);
      }
    }
  }

  lemma {:induction false} CountConcat(a: seq<Event>, b: seq<Event>, e: Event)
    ensures Count(a + b, e) == Count(a, e) + Count(b, e)
  {
    if a == [] {
      assert a + b == b;
    } else {
      CountConcat(a[1..], b, e);
      assert (a + b)[1..] == a[1..] + b;
    }
  }

  /** What was received and then given up: dropped, or abandoned at cancellation. */
  function Lost(s: State): seq<Event> {
    s.h.dropped + s.h.abandoned
  }

  /** Nothing has been given up, nor is about to be dropped. */
  predicate NothingLost(s: State) {
    !s.disp.Dropping? && s.h.dropped == [] && s.h.abandoned == []
  }

  /** The whole source was received and none of it given up. */
  ghost predicate Lossless(c: Config, s: State) {
    s.received == |c.payloads| && NothingLost(s)
  }

  /** With the workers done, each event received was filtered, broadcast or lost. */
  lemma SettledAt(c: Config, s: State, e: Event)
    requires ValidConfig(c) && Inv(c, s) && AllExited(s.workers)
    ensures Count(Input(c)[..s.received], e) ==
            Count(s.h.filtered, e) + Count(Origins(s.h.sent), e) + Count(Lost(s), e)
    ensures e in s.h.filtered ==> c.classify(e).Discard?
    ensures e in Origins(s.h.sent) ==> c.classify(e).Keep?
  {
    assert s.workers[0].Exited?;
    OwnedNone(s.workers, e);
    CountConcat(s.h.dropped, s.h.abandoned, e);
    assert Count(Input(c)[..s.received], e) == Whereabouts(s, e);
    hide Fifo;
    hide Deliveries;
    hide Files;
  }

  lemma OutcomeAt(c: Config, s: State, e: Event)
    requires ValidConfig(c) && Inv(c, s) && AllExited(s.workers)
    ensures Count(Kept(c, Input(c)[..s.received]), e) == Count(Origins(s.h.sent), e) + Count(Kept(c, Lost(s)), e)
    ensures e in Input(c)[..s.received] && c.classify(e).Panic? ==> e in Lost(s)
  {
    SettledAt(c, s, e);
    CountKept(c, Input(c)[..s.received], e);
    CountKept(c, Lost(s), e);
    CountIn(s.h.filtered, e);
    CountIn(Origins(s.h.sent), e);
    CountIn(Input(c)[..s.received], e);
    CountIn(Lost(s), e);
    hide Inv;
    hide Kept;
    hide Lost;
  }

  /**
   A run that has gone on until the workers are done, in either mode, under any
   schedule and cancelled or not, has broadcast each event it received and was
   to keep, except those it dropped or abandoned; and an event whose processing
   panics can only be among these.
   */
  lemma Outcome(c: Config, ls: seq<Label>)
    requires ValidConfig(c) && IsRun(c, Init(c), ls) && AllExited(After(c, Init(c), ls).workers)
    ensures var s := After(c, Init(c), ls);
            && s.received <= |c.payloads|
            && (forall e :: Count(Kept(c, Input(c)[..s.received]), e)
                            == Count(Origins(s.h.sent), e) + Count(Kept(c, Lost(s)), e))
            && (forall e :: e in Input(c)[..s.received] && c.classify(e).Panic? ==> e in Lost(s))
  {
    Reachable(c, ls);
    var s := After(c, Init(c), ls);
    assert s.received <= |c.payloads|;
    hide Inv;
    forall e
      ensures Count(Kept(c, Input(c)[..s.received]), e) == Count(Origins(s.h.sent), e) + Count(Kept(c, Lost(s)), e)
      ensures e in Input(c)[..s.received] && c.classify(e).Panic? ==> e in Lost(s)
    {
      OutcomeAt(c, s, e);
    }
  }

  /** When nothing was lost, exactly the events to be kept have been broadcast, each once. */
  lemma LosslessOutcome(c: Config, ls: seq<Label>)
    requires ValidConfig(c) && IsRun(c, Init(c), ls)
    requires AllExited(After(c, Init(c), ls).workers) && Lossless(c, After(c, Init(c), ls))
    ensures var s := After(c, Init(c), ls);
            && (forall e :: Count(Origins(s.h.sent), e) == Count(Kept(c, Input(c)), e))
            && (forall e :: e in Input(c) ==> !c.classify(e).Panic?)
  {
    Outcome(c, ls);
    var s := After(c, Init(c), ls);
    assert Input(c)[..s.received] == Input(c);
    assert Lost(s) == [];
  }

  /** In blocking mode the dispatcher, finished before anyone cancelled, has lost nothing. */
  lemma FinishedUncancelled(c: Config, s: State)
    requires Inv(c, s) && s.disp.Finished? && !s.cancelled && !c.dropOnBackpressure
    ensures Lossless(c, s)
  {
  }

  lemma FinishedStep(c: Config, s: State, l: Label)
    requires s.disp.Finished? && Lossless(c, s) && Enabled(c, s, l)
    ensures Apply(c, s, l).disp.Finished? && Lossless(c, Apply(c, s, l))
  {
    if l.Work? {
      WorkerFinds(c, s, l.w, l.a);
    }
  }

  lemma WorkerFinds(c: Config, s: State, w: nat, a: WorkerAction)
    requires WorkerEnabled(c, s, w, a)
    ensures var t := ApplyWorker(c, s, w, a);
            t.disp == s.disp && t.received == s.received && (NothingLost(s) ==> NothingLost(t))
  {
  }

  lemma {:induction false} FinishedRun(c: Config, s: State, ls: seq<Label>)
    requires s.disp.Finished? && Lossless(c, s) && IsRun(c, s, ls)
    ensures Lossless(c, After(c, s, ls))
    decreases |ls|
  {
    hide Lossless;
    if ls != [] {
      FinishedStep(c, s, ls[0]);
      FinishedRun(c, Apply(c, s, ls[0]), ls[1..]);
    }
  }

  /** Runs compose. */
  lemma {:induction false} RunConcat(c: Config, s: State, ls: seq<Label>, more: seq<Label>)
    requires IsRun(c, s, ls) && IsRun(c, After(c, s, ls), more)
    ensures IsRun(c, s, ls + more) && After(c, s, ls + more) == After(c, After(c, s, ls), more)
    decreases |ls|
  {
    hide Enabled;
    hide Apply;
    if ls == [] {
      assert ls + more == more;
    } else {
      RunConcat(c, Apply(c, s, ls[0]), ls[1..], more);
      assert (ls + more)[1..] == ls[1..] + more;
    }
  }

  /**
   In blocking mode, a run in which the dispatcher finished before anyone
   cancelled loses nothing, however it goes on.
   */
  lemma BlockingIsLossless(c: Config, ls: seq<Label>, more: seq<Label>)
    requires ValidConfig(c) && !c.dropOnBackpressure
    requires IsRun(c, Init(c), ls) && IsRun(c, After(c, Init(c), ls), more)
    requires After(c, Init(c), ls).disp.Finished? && !After(c, Init(c), ls).cancelled
    ensures IsRun(c, Init(c), ls + more)
    ensures After(c, Init(c), ls + more) == After(c, After(c, Init(c), ls), more)
    ensures Lossless(c, After(c, Init(c), ls + more))
  {
    Reachable(c, ls);
    hide Inv;
    FinishedUncancelled(c, After(c, Init(c), ls));
    FinishedRun(c, After(c, Init(c), ls), more);
    RunConcat(c, Init(c), ls, more);
  }
}
