/** What the sinks have seen: nothing but broadcasts, and in the end all of them. */
module EngineLogs {
  import opened Engine
  import opened EngineFlow
  import opened EngineSinks
  import opened EngineRuns
  import opened EngineTheorems

  // What sinks are shown

  lemma {:induction false} TimesIn(log: seq<PipelineEvent>, pe: PipelineEvent)
    ensures Times(log, pe) > 0 <==> pe in log
  {
    if log != [] {
      TimesIn(log[1..], pe);
      assert log == [log[0]] + log[1..];
    }
  }

  lemma {:induction false} ReachedIn(sent: seq<Sent>, k: nat, pe: PipelineEvent) returns (i: nat)
    requires Reached(sent, k, pe) > 0
    ensures i < |sent| && sent[i].pe == pe
  {
    if k < sent[0].upto && sent[0].pe == pe {
      i := 0;
    } else {
      i := ReachedIn(sent[1..], k, pe);
      i := i + 1;
    }
  }

  lemma {:induction false} PartsIn(ws: seq<Worker>, k: nat, pe: PipelineEvent) returns (w: nat)
    requires Parts(ws, k, pe) > 0
    ensures w < |ws| && ws[w].Broadcasting? && ws[w].pe == pe
  {
    if Part(ws[0], k, pe) > 0 {
      w := 0;
    } else {
      w := PartsIn(ws[1..], k, pe);
      w := w + 1;
    }
  }

  /**
   Nothing is made up on the way: every event any sink has seen, in any
   reachable state, was received from the source, was to be kept, and carries
   what processing attaches to it.
   */
  lemma LogsFaithful(c: Config, ls: seq<Label>, k: nat, pe: PipelineEvent)
    requires ValidConfig(c) && IsRun(c, Init(c), ls)
    requires k < |After(c, Init(c), ls).sinks| && pe in After(c, Init(c), ls).sinks[k].log
    ensures After(c, Init(c), ls).received <= |c.payloads|
    ensures Faithful(c, pe) && pe.Origin() in Input(c)[..After(c, Init(c), ls).received]
  {
    Reachable(c, ls);
    Conservation(c, ls);
    var s := After(c, Init(c), ls);
    TimesIn(s.sinks[k].log, pe);
    assert DeliveredTo(s, k, pe);
    if Reached(s.h.sent, k, pe) > 0 {
      var i := ReachedIn(s.h.sent, k, pe);
      CountIn(Origins(s.h.sent), pe.Origin());
      assert Origins(s.h.sent)[i] == pe.Origin();
    } else {
      var w := PartsIn(s.workers, k, pe);
      OwnedHas(s.workers, w, pe.Origin());
    }
    assert Whereabouts(s, pe.Origin()) > 0;
  }

  // Sinks registered before the start

  function Kinds(c: Config): seq<SinkKind> {
    [StatsKind, RingKind] + c.extraSinks
  }

  /** Such a sink is in the list every broadcast is sent to. */
  ghost predicate Registered(c: Config, s: State) {
    && |Kinds(c)| <= |s.sinks|
    && (forall k :: 0 <= k < |Kinds(c)| ==> s.sinks[k].kind == Kinds(c)[k])
    && (forall i :: 0 <= i < |s.h.sent| ==> |Kinds(c)| <= s.h.sent[i].upto)
    && (forall w :: 0 <= w < |s.workers| && s.workers[w].Broadcasting? ==> |Kinds(c)| <= s.workers[w].upto)
  }

  lemma RegisteredStep(c: Config, s: State, l: Label)
    requires Registered(c, s) && Enabled(c, s, l)
    ensures Registered(c, Apply(c, s, l))
  {
    if l.Work? {
      hide Registered;
      RegisteredWorker(c, s, l.w, l.a);
    } else {
      OthersStep(c, s, l);
    }
  }

  lemma RegisteredWorker(c: Config, s: State, w: nat, a: WorkerAction)
    requires Registered(c, s) && WorkerEnabled(c, s, w, a)
    ensures Registered(c, ApplyWorker(c, s, w, a))
  {
    hide Kinds;
  }

  lemma {:induction false} RegisteredRun(c: Config, s: State, ls: seq<Label>)
    requires Registered(c, s) && IsRun(c, s, ls)
    ensures Registered(c, After(c, s, ls))
    decreases |ls|
  {
    hide Registered;
    if ls != [] {
      RegisteredStep(c, s, ls[0]);
      RegisteredRun(c, Apply(c, s, ls[0]), ls[1..]);
    }
  }

  // All broadcasts

  lemma {:induction false} TimesIsMultiset(log: seq<PipelineEvent>, pe: PipelineEvent)
    ensures Times(log, pe) == multiset(log)[pe]
  {
    if log != [] {
      TimesIsMultiset(log[1..], pe);
      assert log == [log[0]] + log[1..];
    }
  }

  function Events(sent: seq<Sent>): seq<PipelineEvent> {
    if sent == [] then [] else [sent[0].pe] + Events(sent[1..])
  }

  lemma {:induction false} ReachedAll(sent: seq<Sent>, k: nat, pe: PipelineEvent)
    requires forall i :: 0 <= i < |sent| ==> k < sent[i].upto
    ensures Reached(sent, k, pe) == Times(Events(sent), pe)
  {
    if sent != [] {
      ReachedAll(sent[1..], k, pe);
    }
  }

  /** With the workers done, a sink registered from the start has logged all broadcasts. */
  lemma LogIsSent(c: Config, s: State, k: nat)
    requires Deliveries(s) && AllExited(s.workers) && Registered(c, s) && k < |Kinds(c)|
    ensures multiset(s.sinks[k].log) == multiset(Events(s.h.sent))
  {
    forall pe ensures multiset(s.sinks[k].log)[pe] == multiset(Events(s.h.sent))[pe] {
      assert DeliveredTo(s, k, pe);
      PartsNone(s.workers, k, pe);
      ReachedAll(s.h.sent, k, pe);
      TimesIsMultiset(s.sinks[k].log, pe);
      TimesIsMultiset(Events(s.h.sent), pe);
    }
  }

  lemma {:induction false} EventsCount(sent: seq<Sent>)
    ensures |Events(sent)| == |sent|
  {
    if sent != [] {
      EventsCount(sent[1..]);
    }
  }

  /** In numbers: with the workers done such a sink has seen as many events as were broadcast. */
  lemma LogCount(c: Config, ls: seq<Label>, k: nat)
    requires ValidConfig(c) && IsRun(c, Init(c), ls) && AllExited(After(c, Init(c), ls).workers)
    requires k < |Kinds(c)|
    ensures var s := After(c, Init(c), ls);
            k < |s.sinks| && |s.sinks[k].log| == |s.h.sent|
  {
    Reachable(c, ls);
    assert Registered(c, Init(c));
    RegisteredRun(c, Init(c), ls);
    var s := After(c, Init(c), ls);
    LogIsSent(c, s, k);
    EventsCount(s.h.sent);
    assert |multiset(s.sinks[k].log)| == |multiset(Events(s.h.sent))|;
  }
}
