/** The compare-and-swap loops of the statistics sink: what they compute and how often they retry. */
module StatsExtremes {
  import opened Bytes
  import opened Stats
  import opened StatsCounters

  // Extremes

  /** The smaller of two values of which 0 means none. */
  function Lower(a: nat, b: nat): nat {
    if a == 0 then b else if b == 0 then a else if a < b then a else b
  }

  function Higher(a: nat, b: nat): nat {
    if a < b then b else a
  }

  predicate Did(k: Call, a: Action) {
    k.pc <= |Program(k.e)| && a in Program(k.e)[..k.pc]
  }

  /** The least latency among calls past their minimum loop, 0 if there is none. */
  function Least(ks: seq<Call>): nat {
    if ks == [] then 0 else Lower(if Did(ks[0], LowerMin) then ks[0].e.latency else 0, Least(ks[1..]))
  }

  function Greatest(ks: seq<Call>): nat {
    if ks == [] then 0 else Higher(if Did(ks[0], RaiseMax) then ks[0].e.latency else 0, Greatest(ks[1..]))
  }

  /** How many calls are past the loop that performs `a`. */
  function Past(ks: seq<Call>, a: Action): nat {
    if ks == [] then 0 else (if Did(ks[0], a) then 1 else 0) + Past(ks[1..], a)
  }

  lemma {:induction false} PastBound(ks: seq<Call>, a: Action)
    ensures Past(ks, a) <= |ks|
  {
    if ks != [] {
      PastBound(ks[1..], a);
    }
  }

  lemma {:induction false} PastUpdate(ks: seq<Call>, i: nat, k: Call, a: Action)
    requires i < |ks|
    ensures Past(ks[i := k], a) + (if Did(ks[i], a) then 1 else 0) == Past(ks, a) + (if Did(k, a) then 1 else 0)
  {
    if i > 0 {
      PastUpdate(ks[1..], i - 1, k, a);
      assert ks[i := k][1..] == ks[1..][i - 1 := k];
    } else {
      assert ks[i := k][1..] == ks[1..];
    }
  }

  /** A call that gets past its loop joins its latency to the extreme; other changes do not matter. */
  lemma {:induction false} ExtremesUpdate(ks: seq<Call>, i: nat, k: Call)
    requires i < |ks| && k.e == ks[i].e
    requires Did(ks[i], LowerMin) ==> Did(k, LowerMin)
    requires Did(ks[i], RaiseMax) ==> Did(k, RaiseMax)
    ensures Least(ks[i := k]) ==
            if Did(k, LowerMin) && !Did(ks[i], LowerMin) then Lower(Least(ks), k.e.latency) else Least(ks)
    ensures Greatest(ks[i := k]) ==
            if Did(k, RaiseMax) && !Did(ks[i], RaiseMax) then Higher(Greatest(ks), k.e.latency) else Greatest(ks)
  {
    hide Did;
    if i > 0 {
      ExtremesUpdate(ks[1..], i - 1, k);
      assert ks[i := k][1..] == ks[1..][i - 1 := k];
    } else {
      assert ks[i := k][1..] == ks[1..];
    }
  }

  lemma {:induction false} ExtremesAppend(ks: seq<Call>, k: Call)
    requires !Did(k, LowerMin) && !Did(k, RaiseMax)
    ensures Least(ks + [k]) == Least(ks) && Greatest(ks + [k]) == Greatest(ks)
    ensures Past(ks + [k], LowerMin) == Past(ks, LowerMin) && Past(ks + [k], RaiseMax) == Past(ks, RaiseMax)
  {
    hide Did;
    if ks == [] {
      assert (ks + [k])[1..] == [];
    } else {
      ExtremesAppend(ks[1..], k);
      assert (ks + [k])[1..] == ks[1..] + [k];
    }
  }

  /** A loop action occurs once in a program, and only with a positive latency. */
  lemma LoopOnce(e: Event, j: nat, a: Action)
    requires j < |Program(e)| && Program(e)[j] == a && !a.Add?
    ensures e.latency > 0
    ensures a !in Program(e)[..j]
  {
    AddsOnly(e);
    var head := [Add(TotalProcessed, 1), Add(TotalBytes, e.bytes)] + (if e.failed then [Add(ErrorEvents, 1)] else []);
    var n := |head|;
    assert forall i :: 0 <= i < n ==> head[i].Add?;
    assert Program(e) == head + (LatencyActions(e) + ProtocolActions(e));
    hide Program;
    hide ProtocolActions;
  }

  lemma AddsOnly(e: Event)
    ensures forall i :: 0 <= i < |ProtocolActions(e)| ==> ProtocolActions(e)[i].Add?
  {
  }

  /**
   What is known of a call inside a retry loop: the value it loaded would be
   improved by its latency, it is still current unless a swap has succeeded
   since, and each of the call's failures is paid for by an earlier swap.
   */
  ghost predicate LoopOk(s: State, k: Call) {
    && k.pc <= |Program(k.e)|
    && k.e.latency < U64
    && k.failedMin <= s.minSwaps
    && k.failedMax <= s.maxSwaps
    && (k.loaded.Some? ==> (
            && k.pc < |Program(k.e)|
            && var l, a := k.loaded.value, Program(k.e)[k.pc];
               && !a.Add?
               && (a.LowerMin? ==> (l.value == 0 || k.e.latency < l.value)
                                   && k.failedMin <= l.swaps <= s.minSwaps
                                   && (l.swaps == s.minSwaps ==> l.value == s.min))
               && (a.RaiseMax? ==> l.value < k.e.latency
                                   && k.failedMax <= l.swaps <= s.maxSwaps
                                   && (l.swaps == s.maxSwaps ==> l.value == s.max))))
  }

  ghost predicate Extremes(s: State) {
    && s.min == Least(s.calls)
    && s.max == Greatest(s.calls)
    && s.minSwaps <= Past(s.calls, LowerMin)
    && s.maxSwaps <= Past(s.calls, RaiseMax)
    && forall i :: 0 <= i < |s.calls| ==> LoopOk(s, s.calls[i])
  }

  /** The effect of one turn on the extremes, seen from the call that takes it. */
  lemma TurnExtremes(s: State, k: Call)
    requires LoopOk(s, k) && Running(k)
    ensures var (t, k') := Turn(s, k);
            var a := Program(k.e)[k.pc];
            && k'.e == k.e && t.calls == s.calls
            && LoopOk(t, k')
            && t.min == (if a.LowerMin? && k'.pc > k.pc then Lower(s.min, k.e.latency) else s.min)
            && t.max == (if a.RaiseMax? && k'.pc > k.pc then Higher(s.max, k.e.latency) else s.max)
            && s.minSwaps <= t.minSwaps <= s.minSwaps + (if a.LowerMin? && k'.pc > k.pc then 1 else 0)
            && s.maxSwaps <= t.maxSwaps <= s.maxSwaps + (if a.RaiseMax? && k'.pc > k.pc then 1 else 0)
            && (t.minSwaps == s.minSwaps ==> t.min == s.min)
            && (t.maxSwaps == s.maxSwaps ==> t.max == s.max)
  {
    var a := Program(k.e)[k.pc];
    if !a.Add? {
      LoopOnce(k.e, k.pc, a);
    }
    hide Program;
  }

  /** A call's progress decides which loops it is past. */
  lemma DidTurn(s: State, k: Call)
    requires LoopOk(s, k) && Running(k)
    ensures var k' := Turn(s, k).1;
            var a := Program(k.e)[k.pc];
            && (Did(k', LowerMin) <==> Did(k, LowerMin) || (a.LowerMin? && k'.pc > k.pc))
            && (Did(k', RaiseMax) <==> Did(k, RaiseMax) || (a.RaiseMax? && k'.pc > k.pc))
            && (a.LowerMin? ==> !Did(k, LowerMin))
            && (a.RaiseMax? ==> !Did(k, RaiseMax))
  {
    hide Program;
    var p := Program(k.e);
    var a := p[k.pc];
    if !a.Add? {
      LoopOnce(k.e, k.pc, a);
    }
    assert p[..k.pc + 1] == p[..k.pc] + [a];
    assert forall x :: x in p[..k.pc + 1] <==> x in p[..k.pc] || x == a;
  }

  /** A call not moving stays in order when others swap. */
  lemma StillOk(s: State, t: State, k: Call)
    requires LoopOk(s, k) && s.minSwaps <= t.minSwaps && s.maxSwaps <= t.maxSwaps
    requires t.minSwaps == s.minSwaps ==> t.min == s.min
    requires t.maxSwaps == s.maxSwaps ==> t.max == s.max
    ensures LoopOk(t, k)
  {
    hide Program;
  }

  lemma ExtremesTurn(s: State, i: nat)
    requires Extremes(s) && Enabled(s, Step(i))
    ensures Extremes(Apply(s, Step(i)))
  {
    hide Program;
    var k := s.calls[i];
    var (u, k') := Turn(s, k);
    TurnExtremes(s, k);
    DidTurn(s, k);
    ExtremesUpdate(s.calls, i, k');
    PastUpdate(s.calls, i, k', LowerMin);
    PastUpdate(s.calls, i, k', RaiseMax);
    var t := Apply(s, Step(i));
    hide Turn;
    hide Did;
    assert t == u.(calls := s.calls[i := k']);
    StillOk(u, t, k');
    hide LoopOk;
    forall j | 0 <= j < |t.calls| ensures LoopOk(t, t.calls[j]) {
      if j != i {
        StillOk(s, t, s.calls[j]);
      }
    }
  }

  lemma ExtremesStep(s: State, l: Label)
    requires Extremes(s) && Enabled(s, l)
    ensures Extremes(Apply(s, l))
  {
    match l
    case Begin(e) =>
      var t := Apply(s, l);
      ExtremesAppend(s.calls, NewCall(e));
      forall j | 0 <= j < |t.calls| ensures LoopOk(t, t.calls[j]) {
        assert j < |s.calls| ==> LoopOk(s, s.calls[j]);
      }
    case Step(i) => ExtremesTurn(s, i);
  }

  lemma {:induction false} ExtremesRun(s: State, ls: seq<Label>)
    requires Extremes(s) && IsRun(s, ls)
    ensures Extremes(After(s, ls))
    decreases |ls|
  {
    hide Extremes;
    if ls != [] {
      ExtremesStep(s, ls[0]);
      ExtremesRun(Apply(s, ls[0]), ls[1..]);
    }
  }

  lemma ReachableExtremes(ls: seq<Label>)
    requires IsRun(Init(), ls)
    ensures Extremes(After(Init(), ls))
  {
    ExtremesRun(Init(), ls);
  }

  // Minimum and maximum

  lemma {:induction false} LeastIsMinimum(ks: seq<Call>)
    requires forall i :: 0 <= i < |ks| && Did(ks[i], LowerMin) ==> ks[i].e.latency > 0
    ensures Least(ks) == 0 <==> forall i :: 0 <= i < |ks| ==> !Did(ks[i], LowerMin)
    ensures forall i :: 0 <= i < |ks| && Did(ks[i], LowerMin) ==> Least(ks) <= ks[i].e.latency
    ensures Least(ks) != 0 ==> exists i :: 0 <= i < |ks| && Did(ks[i], LowerMin) && ks[i].e.latency == Least(ks)
  {
    hide Did;
    if ks != [] {
      LeastIsMinimum(ks[1..]);
      if Least(ks) != 0 && Least(ks) == Least(ks[1..]) {
        var j :| 0 <= j < |ks[1..]| && Did(ks[1..][j], LowerMin) && ks[1..][j].e.latency == Least(ks[1..]);
        assert ks[j + 1] == ks[1..][j];
      } else if Least(ks) != 0 {
        assert Did(ks[0], LowerMin);
      }
      forall i | 0 <= i < |ks| && Did(ks[i], LowerMin)
        ensures Least(ks) <= ks[i].e.latency && Least(ks) != 0
      {
        assert i > 0 ==> ks[i] == ks[1..][i - 1];
      }
    }
  }

  lemma {:induction false} GreatestIsMaximum(ks: seq<Call>)
    ensures forall i :: 0 <= i < |ks| && Did(ks[i], RaiseMax) ==> ks[i].e.latency <= Greatest(ks)
    ensures Greatest(ks) != 0 ==> exists i :: 0 <= i < |ks| && Did(ks[i], RaiseMax) && ks[i].e.latency == Greatest(ks)
  {
    hide Did;
    if ks != [] {
      GreatestIsMaximum(ks[1..]);
      if Greatest(ks) != 0 && Greatest(ks) == Greatest(ks[1..]) {
        var j :| 0 <= j < |ks[1..]| && Did(ks[1..][j], RaiseMax) && ks[1..][j].e.latency == Greatest(ks[1..]);
        assert ks[j + 1] == ks[1..][j];
      } else if Greatest(ks) != 0 {
        assert Did(ks[0], RaiseMax);
      }
      forall i | 0 <= i < |ks| && Did(ks[i], RaiseMax) ensures ks[i].e.latency <= Greatest(ks) {
        assert i > 0 ==> ks[i] == ks[1..][i - 1];
      }
    }
  }

  lemma DidPositive(k: Call, a: Action)
    requires Did(k, a) && !a.Add?
    ensures k.e.latency > 0
  {
    var j :| 0 <= j < k.pc && Program(k.e)[..k.pc][j] == a;
    LoopOnce(k.e, j, a);
  }

  /**
   In every reachable state the minimum word is the least latency of the calls
   whose minimum update has completed (0 when there is none), and the maximum
   word the greatest of those whose maximum update has.
   */
  lemma MinMaxCorrect(ls: seq<Label>)
    requires IsRun(Init(), ls)
    ensures var s := After(Init(), ls);
            && (s.min == 0 <==> forall i :: 0 <= i < |s.calls| ==> !Did(s.calls[i], LowerMin))
            && (forall i :: 0 <= i < |s.calls| && Did(s.calls[i], LowerMin) ==> s.min <= s.calls[i].e.latency)
            && (s.min != 0 ==>
                  exists i :: 0 <= i < |s.calls| && Did(s.calls[i], LowerMin) && s.calls[i].e.latency == s.min)
            && (forall i :: 0 <= i < |s.calls| && Did(s.calls[i], RaiseMax) ==> s.calls[i].e.latency <= s.max)
            && (s.max != 0 ==>
                  exists i :: 0 <= i < |s.calls| && Did(s.calls[i], RaiseMax) && s.calls[i].e.latency == s.max)
  {
    hide Did;
    ReachableExtremes(ls);
    var s := After(Init(), ls);
    forall i | 0 <= i < |s.calls| && Did(s.calls[i], LowerMin) ensures s.calls[i].e.latency > 0 {
      DidPositive(s.calls[i], LowerMin);
    }
    LeastIsMinimum(s.calls);
    GreatestIsMaximum(s.calls);
  }

  lemma MonotoneStep(s: State, l: Label)
    requires Extremes(s) && Enabled(s, l)
    ensures s.min != 0 ==> 0 < Apply(s, l).min <= s.min
    ensures Apply(s, l).max >= s.max
  {
    if l.Step? {
      var k := s.calls[l.i];
      assert LoopOk(s, k);
      TurnExtremes(s, k);
      var a := Program(k.e)[k.pc];
      if !a.Add? {
        LoopOnce(k.e, k.pc, a);
      }
    }
  }

  lemma {:induction false} MonotoneRun(s: State, ls: seq<Label>)
    requires Extremes(s) && IsRun(s, ls)
    ensures s.min != 0 ==> 0 < After(s, ls).min <= s.min
    ensures After(s, ls).max >= s.max
    decreases |ls|
  {
    hide Extremes;
    hide Apply;
    hide Enabled;
    if ls != [] {
      MonotoneStep(s, ls[0]);
      ExtremesStep(s, ls[0]);
      MonotoneRun(Apply(s, ls[0]), ls[1..]);
    }
  }

  /** However a run goes on, once set the minimum only falls, and the maximum only rises. */
  lemma Monotone(ls: seq<Label>, more: seq<Label>)
    requires IsRun(Init(), ls) && IsRun(After(Init(), ls), more)
    ensures var s, t := After(Init(), ls), After(After(Init(), ls), more);
            && (s.min != 0 ==> 0 < t.min <= s.min)
            && s.max <= t.max
  {
    ReachableExtremes(ls);
    MonotoneRun(After(Init(), ls), more);
  }

  // Retries are bounded

  /** Actions a call has taken: one a program step, one more for a swap's load, two for a failed swap. */
  ghost predicate StepsOk(k: Call) {
    k.steps <= k.pc + (if Did(k, LowerMin) then 1 else 0) + (if Did(k, RaiseMax) then 1 else 0)
               + (if k.loaded.Some? then 1 else 0) + 2 * k.failedMin + 2 * k.failedMax
  }

  lemma StepsTurn(s: State, k: Call)
    requires LoopOk(s, k) && Running(k) && StepsOk(k)
    ensures StepsOk(Turn(s, k).1)
    ensures Turn(s, k).1.steps == k.steps + 1
  {
    DidTurn(s, k);
    hide Program;
    hide Did;
  }

  ghost predicate AllSteps(s: State) {
    forall i :: 0 <= i < |s.calls| ==> StepsOk(s.calls[i])
  }

  /** Atomic actions taken by all calls together. */
  function StepSum(ks: seq<Call>): nat {
    if ks == [] then 0 else ks[0].steps + StepSum(ks[1..])
  }

  lemma {:induction false} StepSumUpdate(ks: seq<Call>, i: nat, k: Call)
    requires i < |ks|
    ensures StepSum(ks[i := k]) + ks[i].steps == StepSum(ks) + k.steps
  {
    if i > 0 {
      StepSumUpdate(ks[1..], i - 1, k);
      assert ks[i := k][1..] == ks[1..][i - 1 := k];
    } else {
      assert ks[i := k][1..] == ks[1..];
    }
  }

  lemma {:induction false} StepSumAppend(ks: seq<Call>, k: Call)
    ensures StepSum(ks + [k]) == StepSum(ks) + k.steps
  {
    if ks == [] {
      assert (ks + [k])[1..] == [];
    } else {
      StepSumAppend(ks[1..], k);
      assert (ks + [k])[1..] == ks[1..] + [k];
    }
  }

  lemma StepCounts(s: State, l: Label)
    requires Extremes(s) && AllSteps(s) && Enabled(s, l)
    ensures var t := Apply(s, l);
            && AllSteps(t)
            && |t.calls| + StepSum(t.calls) == |s.calls| + StepSum(s.calls) + 1
  {
    hide Program;
    match l
    case Begin(e) => StepSumAppend(s.calls, NewCall(e));
    case Step(i) =>
      assert LoopOk(s, s.calls[i]);
      StepsTurn(s, s.calls[i]);
      TurnExtremes(s, s.calls[i]);
      hide Turn;
      hide StepsOk;
      StepSumUpdate(s.calls, i, Turn(s, s.calls[i]).1);
  }

  lemma {:induction false} RunCounts(s: State, ls: seq<Label>)
    requires Extremes(s) && AllSteps(s) && IsRun(s, ls)
    ensures AllSteps(After(s, ls))
    ensures |After(s, ls).calls| + StepSum(After(s, ls).calls) == |s.calls| + StepSum(s.calls) + |ls|
    decreases |ls|
  {
    hide Extremes;
    hide AllSteps;
    if ls != [] {
      StepCounts(s, ls[0]);
      ExtremesStep(s, ls[0]);
      RunCounts(Apply(s, ls[0]), ls[1..]);
    }
  }

  lemma CallBound(s: State, i: nat)
    requires Extremes(s) && AllSteps(s) && i < |s.calls|
    ensures s.calls[i].failedMin <= Past(s.calls, LowerMin) && s.calls[i].failedMax <= Past(s.calls, RaiseMax)
    ensures s.calls[i].steps <= 4 * |s.calls| + 12
  {
    assert LoopOk(s, s.calls[i]);
    PastBound(s.calls, LowerMin);
    PastBound(s.calls, RaiseMax);
    ProgramShape(s.calls[i].e);
    hide Program;
    hide Body;
  }

  lemma {:induction false} StepSumBound(ks: seq<Call>, b: nat)
    requires forall i :: 0 <= i < |ks| ==> ks[i].steps <= b
    ensures StepSum(ks) <= |ks| * b
  {
    if ks != [] {
      StepSumBound(ks[1..], b);
      assert |ks| * b == (|ks| - 1) * b + b;
    }
  }

  /**
   The retry loops are lock-free: a call fails a swap at most as often as
   others have completed theirs, and n calls together take at most
   n * (4n + 13) steps under any schedule.
   */
  lemma RetriesBounded(ls: seq<Label>)
    requires IsRun(Init(), ls)
    ensures var s := After(Init(), ls);
            var n := |s.calls|;
            && (forall i :: 0 <= i < n ==>
                  && s.calls[i].failedMin <= Past(s.calls, LowerMin)
                  && s.calls[i].failedMax <= Past(s.calls, RaiseMax))
            && |ls| <= n * (4 * n + 13)
  {
    hide Past;
    ReachableExtremes(ls);
    assert Extremes(Init()) && AllSteps(Init());
    RunCounts(Init(), ls);
    var s := After(Init(), ls);
    var n := |s.calls|;
    forall i | 0 <= i < n
      ensures s.calls[i].failedMin <= Past(s.calls, LowerMin) && s.calls[i].failedMax <= Past(s.calls, RaiseMax)
      ensures s.calls[i].steps <= 4 * n + 12
    {
      CallBound(s, i);
    }
    StepSumBound(s.calls, 4 * n + 12);
    assert n * (4 * n + 13) == n * (4 * n + 12) + n;
  }

  // The average

  lemma DidAll(k: Call)
    requires k.pc == |Program(k.e)|
    ensures k.e.latency > 0 ==> Did(k, LowerMin) && Did(k, RaiseMax)
  {
    var p := Program(k.e);
    assert p[..k.pc] == p;
    if k.e.latency > 0 {
      var j := if k.e.failed then 3 else 2;
      assert p[j + 2] == LowerMin;
      assert p[j + 3] == RaiseMax;
    }
  }

  lemma {:induction false} LatencyBounds(ks: seq<Call>, lo: nat, hi: nat)
    requires forall i :: 0 <= i < |ks| && ks[i].e.latency > 0 ==> lo <= ks[i].e.latency <= hi
    ensures lo * DueSum(ks, CountLatency) <= DueSum(ks, TotalLatency) <= hi * DueSum(ks, CountLatency)
  {
    if ks != [] {
      LatencyBounds(ks[1..], lo, hi);
      var n := DueSum(ks[1..], CountLatency);
      assert lo * (n + 1) == lo * n + lo;
      assert hi * (n + 1) == hi * n + hi;
    }
  }

  lemma Between(lo: nat, hi: nat, total: nat, n: nat)
    requires n > 0 && lo * n <= total <= hi * n
    ensures lo <= total / n <= hi
  {
    var q := total / n;
    assert total == q * n + total % n;
    assert q * n + n == (q + 1) * n;
    assert hi * n + n == (hi + 1) * n;
    if q < lo {
      Scaled(q + 1, lo, n);
    }
    if q > hi {
      Scaled(hi + 1, q, n);
    }
  }

  lemma Scaled(a: nat, b: nat, n: nat)
    requires a <= b
    ensures a * n <= b * n
  {
    assert (b - a) * n >= 0;
    assert (b - a) * n == b * n - a * n;
  }

  lemma DoneInRange(ls: seq<Label>, i: nat)
    requires IsRun(Init(), ls) && AllDone(After(Init(), ls).calls) && i < |After(Init(), ls).calls|
    ensures var s := After(Init(), ls);
            s.calls[i].e.latency > 0 ==> s.min <= s.calls[i].e.latency <= s.max
  {
    hide Program;
    hide Did;
    ReachableExtremes(ls);
    MinMaxCorrect(ls);
    var k := After(Init(), ls).calls[i];
    assert k.pc == |Program(k.e)| by {
      assert !Running(k);
    }
    DidAll(k);
  }

  /** The average that `Snapshot` computes lies between the minimum and the maximum once all calls have returned. */
  lemma AverageInRange(ls: seq<Label>)
    requires IsRun(Init(), ls) && AllDone(After(Init(), ls).calls)
    requires DueSum(After(Init(), ls).calls, TotalLatency) < U64
    requires DueSum(After(Init(), ls).calls, CountLatency) < U64
    ensures var s := After(Init(), ls);
            s.counters(CountLatency) > 0 ==>
              s.min <= s.counters(TotalLatency) / s.counters(CountLatency) <= s.max
  {
    hide DueSum;
    hide AllDone;
    hide IsRun;
    hide After;
    var s := After(Init(), ls);
    AtRest(ls, TotalLatency);
    AtRest(ls, CountLatency);
    forall i | 0 <= i < |s.calls| && s.calls[i].e.latency > 0
      ensures s.min <= s.calls[i].e.latency <= s.max
    {
      DoneInRange(ls, i);
    }
    LatencyBounds(s.calls, s.min, s.max);
    if s.counters(CountLatency) > 0 {
      Between(s.min, s.max, s.counters(TotalLatency), s.counters(CountLatency));
    }
  }
}
