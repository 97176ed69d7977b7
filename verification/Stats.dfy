/**
 The lock-free statistics sink of internal/pipeline/sinks.go. Every `OnEvent`
 call is a straight-line program of atomic actions; any number of calls run at
 once and their actions interleave in any order. The minimum and maximum are
 kept by load / compare-and-swap retry loops.
 */
module Stats {
  import opened Prelude
  import opened Bytes

  // Calls

  datatype Counter =
    | TotalProcessed | TotalBytes | ErrorEvents
    | IPv4Count | IPv6Count | ARPCount | TCPCount | UDPCount | ICMPCount | SerialCount | OtherCount
    | TotalLatency | CountLatency

  datatype Layer3 = L3IPv4 | L3IPv6 | L3ARP | L3None
  datatype Layer4 = L4TCP | L4UDP | L4ICMP | L4None

  /** What a call looks at in its event; `hasPacket` is false when the packet pointer is nil. */
  datatype Event = Event(bytes: nat, failed: bool, latency: nat, serial: bool,
                         hasPacket: bool, l3: Layer3, l4: Layer4)

  datatype Action = Add(c: Counter, n: nat) | LowerMin | RaiseMax

  function LatencyActions(e: Event): seq<Action> {
    if e.latency == 0 then []
    else [Add(TotalLatency, e.latency), Add(CountLatency, 1), LowerMin, RaiseMax]
  }

  function Layer3Actions(l: Layer3): seq<Action> {
    match l
    case L3IPv4 => [Add(IPv4Count, 1)]
    case L3IPv6 => [Add(IPv6Count, 1)]
    case L3ARP => [Add(ARPCount, 1)]
    case L3None => []
  }

  function Layer4Counter(l: Layer4): Counter {
    match l
    case L4TCP => TCPCount
    case L4UDP => UDPCount
    case L4ICMP => ICMPCount
    case L4None => OtherCount
  }

  function ProtocolActions(e: Event): seq<Action> {
    if e.serial then [Add(SerialCount, 1)]
    else if e.hasPacket then Layer3Actions(e.l3) + [Add(Layer4Counter(e.l4), 1)]
    else [Add(OtherCount, 1)]
  }

  /** `StatsSink.OnEvent` as the atomic actions it performs, in order. */
  function Program(e: Event): seq<Action> {
    [Add(TotalProcessed, 1), Add(TotalBytes, e.bytes)]
    + (if e.failed then [Add(ErrorEvents, 1)] else [])
    + LatencyActions(e)
    + ProtocolActions(e)
  }

  /**
   A call: its event, the next action, and, inside a retry loop, the value just
   loaded with the number of swaps that had succeeded by then. `failed` counts
   its failed swaps and `steps` the atomic actions it has taken.
   */
  datatype Call = Call(e: Event, pc: nat, loaded: Option<Loaded>, failedMin: nat, failedMax: nat, steps: nat)

  datatype Loaded = Loaded(value: nat, swaps: nat)

  /** The shared words, and the number of successful swaps on each of the two extremes. */
  datatype State = State(counters: Counter -> nat, min: nat, max: nat,
                         minSwaps: nat, maxSwaps: nat, calls: seq<Call>)

  /** `NewStatsSink`. */
  function Init(): State {
    State((c: Counter) => 0, 0, 0, 0, 0, [])
  }

  // Steps

  datatype Label = Begin(e: Event) | Step(i: nat)

  predicate Running(k: Call) {
    k.pc < |Program(k.e)|
  }

  /** Latencies are unsigned 64-bit nanosecond counts. */
  predicate Enabled(s: State, l: Label) {
    match l
    case Begin(e) => e.latency < U64
    case Step(i) => i < |s.calls| && Running(s.calls[i])
  }

  function Next(k: Call): Call {
    k.(pc := k.pc + 1, loaded := None, steps := k.steps + 1)
  }

  /** One atomic add; the word wraps at 64 bits. */
  function AddTo(s: State, c: Counter, n: nat): State {
    s.(counters := Bumped(s.counters, c, n))
  }

  function Bumped(f: Counter -> nat, c: Counter, n: nat): Counter -> nat {
    (d: Counter) => if d == c then Wrapped(f(d) + n) else f(d)
  }

  function Wrapped(n: nat): nat {
    n % U64
  }

  /** One turn of the minimum loop: a load, or the swap that follows it. */
  function MinTurn(s: State, k: Call): (State, Call) {
    match k.loaded
    case None =>
      if s.min != 0 && s.min <= k.e.latency then (s, Next(k))
      else (s, k.(loaded := Some(Loaded(s.min, s.minSwaps)), steps := k.steps + 1))
    case Some(l) =>
      if s.min == l.value then (s.(min := k.e.latency, minSwaps := s.minSwaps + 1), Next(k))
      else (s, k.(loaded := None, failedMin := k.failedMin + 1, steps := k.steps + 1))
  }

  function MaxTurn(s: State, k: Call): (State, Call) {
    match k.loaded
    case None =>
      if s.max >= k.e.latency then (s, Next(k))
      else (s, k.(loaded := Some(Loaded(s.max, s.maxSwaps)), steps := k.steps + 1))
    case Some(l) =>
      if s.max == l.value then (s.(max := k.e.latency, maxSwaps := s.maxSwaps + 1), Next(k))
      else (s, k.(loaded := None, failedMax := k.failedMax + 1, steps := k.steps + 1))
  }

  function Turn(s: State, k: Call): (State, Call)
    requires Running(k)
  {
    match Program(k.e)[k.pc]
    case Add(c, n) => (AddTo(s, c, n), Next(k))
    case LowerMin => MinTurn(s, k)
    case RaiseMax => MaxTurn(s, k)
  }

  function NewCall(e: Event): Call {
    Call(e, 0, None, 0, 0, 0)
  }

  function Apply(s: State, l: Label): State
    requires Enabled(s, l)
  {
    match l
    case Begin(e) => s.(calls := s.calls + [NewCall(e)])
    case Step(i) =>
      var (t, k) := Turn(s, s.calls[i]);
      t.(calls := s.calls[i := k])
  }

  ghost predicate IsRun(s: State, ls: seq<Label>)
    decreases |ls|
  {
    ls == [] || (Enabled(s, ls[0]) && IsRun(Apply(s, ls[0]), ls[1..]))
  }

  ghost function After(s: State, ls: seq<Label>): State
    requires IsRun(s, ls)
    decreases |ls|
  {
    if ls == [] then s else After(Apply(s, ls[0]), ls[1..])
  }
}
