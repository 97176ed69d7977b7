/**
 Completed runs exist: from every reachable state the engine can be brought to
 its end, and from the start without losing anything. With this a crash is not
 only caused by an event that panics, but can be reached whenever there is one.
 */
module EngineCompletion {
  import opened Engine
  import opened EngineRuns
  import opened EngineTheorems
  import opened EngineLiveness

  /** The workers are done, or one of them has taken the process down. */
  predicate Over(s: State) {
    s.crashed || AllExited(s.workers)
  }

  ghost predicate AllSteady(ls: seq<Label>) {
    forall i :: 0 <= i < |ls| ==> Steady(ls[i])
  }

  /** Steady steps leave the caller's side alone and give nothing up. */
  lemma SteadyStep(c: Config, s: State, l: Label)
    requires Steady(l) && Enabled(c, s, l)
    ensures var t := Apply(c, s, l);
            && t.cancelled == s.cancelled && t.phase == s.phase && |t.sinks| == |s.sinks|
            && (NothingLost(s) ==> NothingLost(t))
  {
    if l.Work? {
      hide NothingLost;
      SteadyWorker(c, s, l.w, l.a);
    } else {
      hide WorkerEnabled;
      hide ApplyWorker;
    }
  }

  lemma SteadyWorker(c: Config, s: State, w: nat, a: WorkerAction)
    requires WorkerEnabled(c, s, w, a)
    ensures var t := ApplyWorker(c, s, w, a);
            && t.cancelled == s.cancelled && t.phase == s.phase && |t.sinks| == |s.sinks|
            && (NothingLost(s) ==> NothingLost(t))
  {
  }

  lemma {:induction false} SteadyRun(c: Config, s: State, ls: seq<Label>)
    requires AllSteady(ls) && IsRun(c, s, ls)
    ensures var t := After(c, s, ls);
            && t.cancelled == s.cancelled && t.phase == s.phase && |t.sinks| == |s.sinks|
            && (NothingLost(s) ==> NothingLost(t))
    decreases |ls|
  {
    hide NothingLost;
    hide Steady;
    if ls != [] {
      SteadyStep(c, s, ls[0]);
      SteadyRun(c, Apply(c, s, ls[0]), ls[1..]);
    }
  }

  /**
   From every state that satisfies the invariant, hence from every reachable
   one, steps of the source, the dispatcher and the workers alone lead to the
   end, and none of them gives an event up.
   */
  lemma {:induction false} Completes(c: Config, s: State) returns (ls: seq<Label>)
    requires ValidConfig(c) && Inv(c, s)
    ensures IsRun(c, s, ls) && AllSteady(ls) && Over(After(c, s, ls))
    decreases Left(c, s, |s.sinks|)
  {
    hide Inv;
    hide Left;
    hide Steady;
    if Over(s) {
      return [];
    }
    WorkersCanStep(c, s);
    var l :| Steady(l) && Enabled(c, s, l);
    SteadyStep(c, s, l);
    InvStep(c, s, l);
    InvNonNegative(c, s, |s.sinks|);
    InvLeft(c, s, l, |s.sinks|);
    SteadyNears(l);
    var rest := Completes(c, Apply(c, s, l));
    ls := [l] + rest;
    assert ls[1..] == rest;
  }

  lemma SteadyNears(l: Label)
    requires Steady(l)
    ensures !l.Caller?
  {
  }

  /** With no cancellation the workers are done only when the source has been read to its end. */
  lemma DoneIsExhausted(c: Config, ls: seq<Label>)
    requires ValidConfig(c) && IsRun(c, Init(c), ls)
    requires AllExited(After(c, Init(c), ls).workers) && !After(c, Init(c), ls).cancelled
    ensures After(c, Init(c), ls).received == |c.payloads|
  {
    WaitMeansDrained(c, ls);
    Reachable(c, ls);
  }

  /** In either mode there is a run, with no cancellation, that loses nothing and goes on to the end. */
  lemma LosslessRun(c: Config) returns (ls: seq<Label>)
    requires ValidConfig(c)
    ensures IsRun(c, Init(c), ls) && Over(After(c, Init(c), ls))
    ensures var s := After(c, Init(c), ls);
            !s.cancelled && NothingLost(s) && (!s.crashed ==> AllExited(s.workers) && Lossless(c, s))
  {
    InvInit(c);
    hide Inv;
    ls := Completes(c, Init(c));
    SteadyRun(c, Init(c), ls);
    if !After(c, Init(c), ls).crashed {
      DoneIsExhausted(c, ls);
    }
  }

  /** Some schedule takes the process down if and only if processing panics on some event of the source. */
  lemma CrashesExactly(c: Config)
    requires ValidConfig(c)
    ensures (exists ls :: IsRun(c, Init(c), ls) && After(c, Init(c), ls).crashed)
            <==> exists k :: 0 <= k < |c.payloads| && c.classify(EventAt(c, k)).Panic?
  {
    if ls :| IsRun(c, Init(c), ls) && After(c, Init(c), ls).crashed {
      CrashHasCause(c, ls);
    }
    if k :| 0 <= k < |c.payloads| && c.classify(EventAt(c, k)).Panic? {
      assert Input(c)[k] == EventAt(c, k);
      var ls := LosslessRun(c);
      if !After(c, Init(c), ls).crashed {
        LosslessOutcome(c, ls);
        assert false;
      }
    }
  }

  /** What the theorems on completed runs ask for exists: when no event panics, a whole run without loss. */
  lemma CompletedRun(c: Config) returns (ls: seq<Label>)
    requires ValidConfig(c)
    requires forall k :: 0 <= k < |c.payloads| ==> !c.classify(EventAt(c, k)).Panic?
    ensures IsRun(c, Init(c), ls)
    ensures var s := After(c, Init(c), ls);
            !s.crashed && !s.cancelled && AllExited(s.workers) && Lossless(c, s)
  {
    ls := LosslessRun(c);
    if After(c, Init(c), ls).crashed {
      CrashHasCause(c, ls);
      assert false;
    }
  }
}
