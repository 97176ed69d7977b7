/**
 From the engine to the file and back: what a PCAP recording made by the
 engine reads back as, at every moment of every run and at its end.
 */
module RecordReplay {
  import opened Prelude
  import opened Bytes
  import opened Engine
  import opened EngineFlow
  import opened EngineSinks
  import opened EngineRuns
  import opened EngineTheorems
  import opened EngineLogs
  import opened Permutations
  import P = Pcap

  // Bytes of a recording

  function AsPacket(pe: PipelineEvent): P.Packet {
    P.Packet(pe.raw, pe.ts)
  }

  function ChunkBytes(ch: Chunk): seq<byte> {
    match ch
    case GlobalChunk => P.GlobalHeader(Little, P.Micro)
    case HeaderChunk(pe) => P.RecordHeader(Little, P.Micro, AsPacket(pe))
    case DataChunk(pe) => pe.raw
  }

  /** The file that the writes produce. */
  function FileBytes(chunks: seq<Chunk>): seq<byte> {
    if chunks == [] then []
    else FileBytes(chunks[..|chunks| - 1]) + ChunkBytes(chunks[|chunks| - 1])
  }

  lemma FileBytesAppend(chunks: seq<Chunk>, ch: Chunk)
    ensures FileBytes(chunks + [ch]) == FileBytes(chunks) + ChunkBytes(ch)
  {
    assert (chunks + [ch])[..|chunks|] == chunks;
  }

  /** The packets that `PcapSink` writes for these calls, in call order. */
  function Written(log: seq<PipelineEvent>): seq<P.Packet> {
    if log == [] then []
    else Written(log[..|log| - 1]) + if Recordable(log[|log| - 1]) then [AsPacket(log[|log| - 1])] else []
  }

  lemma {:induction false} RecordingBytes(log: seq<PipelineEvent>)
    ensures FileBytes(Recording(log)) == P.File(Little, P.Micro, Written(log))
  {
    if log == [] {
      assert FileBytes([]) == [];
      FileBytesAppend([], GlobalChunk);
      assert [] + [GlobalChunk] == [GlobalChunk];
      EmptyFile();
    } else {
      var init, pe := log[..|log| - 1], log[|log| - 1];
      RecordingBytes(init);
      if Recordable(pe) {
        RecordBytes(Recording(init), Written(init), pe);
      } else {
        assert Recording(log) == Recording(init);
        assert Written(log) == Written(init);
      }
    }
  }

  lemma EmptyFile()
    ensures P.File(Little, P.Micro, []) == P.GlobalHeader(Little, P.Micro)
  {
    hide P.GlobalHeader;
  }

  lemma RecordBytes(chunks: seq<Chunk>, ps: seq<P.Packet>, pe: PipelineEvent)
    requires FileBytes(chunks) == P.File(Little, P.Micro, ps)
    ensures FileBytes(chunks + [HeaderChunk(pe), DataChunk(pe)]) == P.File(Little, P.Micro, ps + [AsPacket(pe)])
  {
    hide P.File;
    hide P.RecordHeader;
    FileBytesAppend(chunks, HeaderChunk(pe));
    FileBytesAppend(chunks + [HeaderChunk(pe)], DataChunk(pe));
    assert chunks + [HeaderChunk(pe)] + [DataChunk(pe)] == chunks + [HeaderChunk(pe), DataChunk(pe)];
    P.FileAppend(Little, P.Micro, ps, AsPacket(pe));
  }

  /** A header whose data has not been written yet does not disturb the records before it. */
  lemma DecodeUnfinished(ps: seq<P.Packet>, p: P.Packet)
    requires P.Lengths32(ps + [p]) && p.data != []
    ensures P.Decode(P.File(Little, P.Micro, ps) + P.RecordHeader(Little, P.Micro, p)).packets
            == P.StoredAll(P.Micro, ps)
  {
    hide P.RecordHeader;
    hide P.GlobalHeader;
    hide P.Decode;
    var whole := P.File(Little, P.Micro, ps + [p]);
    P.FileAppend(Little, P.Micro, ps, p);
    var cut := P.File(Little, P.Micro, ps) + P.RecordHeader(Little, P.Micro, p);
    var k := |cut|;
    assert whole[..k] == cut;
    P.PrefixSafety(Little, P.Micro, ps + [p], k);
    var n := P.Whole(Little, P.Micro, ps + [p], k - P.GLOBAL_SIZE);
    P.WholeIsMaximal(Little, P.Micro, ps + [p], k - P.GLOBAL_SIZE, |ps|);
    P.WholeIsMaximal(Little, P.Micro, ps + [p], k - P.GLOBAL_SIZE, |ps| + 1);
    assert (ps + [p])[..|ps|] == ps;
    assert (ps + [p])[..|ps| + 1] == ps + [p];
    assert n == |ps|;
  }

  /** Every event's data fits the 32-bit length field. */
  ghost predicate Small(c: Config) {
    forall k :: 0 <= k < |c.payloads| ==> |c.payloads[k].data| < U32
  }

  ghost predicate SmallLog(log: seq<PipelineEvent>) {
    forall i :: 0 <= i < |log| ==> |log[i].raw| < U32
  }

  lemma {:induction false} WrittenSmall(log: seq<PipelineEvent>)
    requires SmallLog(log)
    ensures P.Lengths32(Written(log))
  {
    if log != [] {
      WrittenSmall(log[..|log| - 1]);
    }
  }

  /** Broadcast events come from the source, so their data is as small as the source's. */
  ghost predicate FromSource(c: Config, s: State) {
    && (forall w :: 0 <= w < |s.workers| && s.workers[w].Broadcasting? ==> |s.workers[w].pe.raw| < U32)
    && (forall w :: 0 <= w < |s.workers| && s.workers[w].Working? ==> |s.workers[w].e.data| < U32)
    && (forall i :: 0 <= i < |s.inChan| ==> |s.inChan[i].data| < U32)
    && (forall i :: 0 <= i < |s.srcChan| ==> |s.srcChan[i].data| < U32)
    && (s.disp.Holding? || s.disp.Dropping? ==> |s.disp.e.data| < U32)
    && (forall k :: 0 <= k < |s.sinks| ==> SmallLog(s.sinks[k].log))
  }

  lemma FromSourceWorker(c: Config, s: State, w: nat, a: WorkerAction)
    requires FromSource(c, s) && WorkerEnabled(c, s, w, a)
    ensures FromSource(c, ApplyWorker(c, s, w, a))
  {
    if a.Call? {
      assert SmallLog(s.sinks[s.workers[w].next].log);
    }
  }

  lemma FromSourceDispatch(c: Config, s: State, a: DispatchAction)
    requires FromSource(c, s) && DispatchEnabled(c, s, a)
    ensures FromSource(c, ApplyDispatch(c, s, a))
  {
  }

  lemma FromSourceSource(c: Config, s: State, a: SourceAction)
    requires FromSource(c, s) && Small(c) && SourceEnabled(c, s, a)
    ensures FromSource(c, ApplySource(c, s, a))
  {
  }

  lemma FromSourceOthers(c: Config, s: State, t: State)
    requires FromSource(c, s) && OthersFrame(s, t)
    requires t.inChan == s.inChan && t.srcChan == s.srcChan && t.disp == s.disp
    ensures FromSource(c, t)
  {
  }

  lemma FromSourceStep(c: Config, s: State, l: Label)
    requires FromSource(c, s) && Small(c) && Enabled(c, s, l)
    ensures FromSource(c, Apply(c, s, l))
  {
    hide FromSource;
    hide Small;
    match l
    case Work(w, a) => FromSourceWorker(c, s, w, a);
    case Dispatch(a) => FromSourceDispatch(c, s, a);
    case Source(a) => FromSourceSource(c, s, a);
    case Caller(a) =>
      CallerFrame(s, a);
      FromSourceOthers(c, s, ApplyCaller(s, a));
    case Stopping(a) =>
      StopFrame(s, a);
      FromSourceOthers(c, s, ApplyStop(s, a));
  }

  lemma {:induction false} FromSourceRun(c: Config, s: State, ls: seq<Label>)
    requires FromSource(c, s) && Small(c) && IsRun(c, s, ls)
    ensures FromSource(c, After(c, s, ls))
    decreases |ls|
  {
    hide FromSource;
    hide Small;
    if ls != [] {
      FromSourceStep(c, s, ls[0]);
      FromSourceRun(c, Apply(c, s, ls[0]), ls[1..]);
    }
  }

  /**
   At every moment of every run, however the workers interleave and even if
   the process is about to crash, a recording reads back as exactly the
   packets whose `OnEvent` calls have taken effect, in that order.
   */
  lemma ReadableAnyTime(c: Config, ls: seq<Label>, k: nat)
    requires ValidConfig(c) && Small(c) && IsRun(c, Init(c), ls)
    requires k < |After(c, Init(c), ls).sinks| && After(c, Init(c), ls).sinks[k].kind.PcapKind?
    ensures var sink := After(c, Init(c), ls).sinks[k];
            P.Decode(FileBytes(sink.file)).packets == P.StoredAll(P.Micro, Written(sink.log))
  {
    Reachable(c, ls);
    assert FromSource(c, Init(c));
    FromSourceRun(c, Init(c), ls);
    ReadableState(c, After(c, Init(c), ls), k);
  }

  lemma ReadableState(c: Config, s: State, k: nat)
    requires Locks(s) && Files(s) && FromSource(c, s)
    requires k < |s.sinks| && s.sinks[k].kind.PcapKind?
    ensures P.Decode(FileBytes(s.sinks[k].file)).packets == P.StoredAll(P.Micro, Written(s.sinks[k].log))
  {
    hide P.Decode;
    hide P.File;
    var sink := s.sinks[k];
    assert FileOk(s.workers, sink);
    assert LockOk(s.workers, k, sink.lock);
    RecordingBytes(sink.log);
    WrittenSmall(sink.log);
    var rest := Unfinished(s.workers, sink.lock);
    if rest == [] {
      assert sink.file == Recording(sink.log);
      P.RoundTrip(Little, P.Micro, Written(sink.log));
    } else {
      var pe := s.workers[sink.lock.value].pe;
      assert WorkerOk(s, sink.lock.value);
      FileBytesAppend(Recording(sink.log), HeaderChunk(pe));
      DecodeUnfinished(Written(sink.log), AsPacket(pe));
    }
  }

  lemma {:induction false} CountIsMultiset(es: seq<Event>, e: Event)
    ensures Count(es, e) == multiset(es)[e]
  {
    if es != [] {
      CountIsMultiset(es[1..], e);
      assert es == [es[0]] + es[1..];
    }
  }

  // The completed recording

  /** What a recording keeps of an event: one packet if it is from the network and not empty. */
  function RecordOf(e: Event): seq<P.Packet> {
    if e.kind.Network? && e.data != [] then [P.Packet(e.data, e.ts)] else []
  }

  function RecordOfSent(pe: PipelineEvent): seq<P.Packet> {
    RecordOf(pe.Origin())
  }

  /** The recording one would make of `es` directly, with no engine. */
  function Recordables(es: seq<Event>): seq<P.Packet> {
    FlatMap(es, RecordOf)
  }

  lemma {:induction false} WrittenIsFlatMap(log: seq<PipelineEvent>)
    ensures Written(log) == FlatMap(log, RecordOfSent)
  {
    if log == [] {
    } else {
      var init, pe := log[..|log| - 1], log[|log| - 1];
      WrittenIsFlatMap(init);
      FlatMapAppend(init, [pe], RecordOfSent);
      assert log == init + [pe];
      assert FlatMap([pe], RecordOfSent) == RecordOfSent(pe) by {
        assert [pe][1..] == [];
      }
    }
  }

  lemma {:induction false} EventsAndOrigins(sent: seq<Sent>)
    ensures FlatMap(Events(sent), RecordOfSent) == FlatMap(Origins(sent), RecordOf)
  {
    if sent != [] {
      EventsAndOrigins(sent[1..]);
      assert Events(sent)[1..] == Events(sent[1..]);
      assert Origins(sent)[1..] == Origins(sent[1..]);
    }
  }

  lemma {:induction false} StoredIsFlatMap(ps: seq<P.Packet>)
    ensures P.StoredAll(P.Micro, ps) == FlatMap(ps, p => [P.Stored(P.Micro, p)])
  {
    var f := (p: P.Packet) => [P.Stored(P.Micro, p)];
    if ps != [] {
      StoredIsFlatMap(ps[1..]);
      assert P.StoredAll(P.Micro, ps)[1..] == P.StoredAll(P.Micro, ps[1..]);
    }
  }

  lemma StoredPermutation(a: seq<P.Packet>, b: seq<P.Packet>)
    requires multiset(a) == multiset(b)
    ensures multiset(P.StoredAll(P.Micro, a)) == multiset(P.StoredAll(P.Micro, b))
  {
    StoredIsFlatMap(a);
    StoredIsFlatMap(b);
    FlatMapPermutation(a, b, p => [P.Stored(P.Micro, p)]);
  }

  /** What a recording of exactly the events `es` reads back as. */
  function ReadingOf(es: seq<Event>): seq<P.Packet> {
    P.StoredAll(P.Micro, Recordables(es))
  }

  /**
   Record and replay. Once the workers are done, in either mode, under any
   schedule and wherever the run was cancelled, reading a recording registered
   before the start gives exactly the packets of the events that were
   broadcast, with microsecond timestamps.
   */
  lemma Replay(c: Config, ls: seq<Label>, k: nat)
    requires ValidConfig(c) && Small(c) && IsRun(c, Init(c), ls)
    requires AllExited(After(c, Init(c), ls).workers)
    requires k < |Kinds(c)| && Kinds(c)[k].PcapKind?
    ensures var s := After(c, Init(c), ls);
            && k < |s.sinks|
            && multiset(P.Decode(FileBytes(s.sinks[k].file)).packets) == multiset(ReadingOf(Origins(s.h.sent)))
  {
    Reachable(c, ls);
    assert FromSource(c, Init(c));
    FromSourceRun(c, Init(c), ls);
    assert Registered(c, Init(c));
    RegisteredRun(c, Init(c), ls);
    hide P.Decode;
    hide P.StoredAll;
    var s := After(c, Init(c), ls);
    ReadableState(c, s, k);
    LogIsSent(c, s, k);
    WrittenPermutation(s, k);
    StoredPermutation(Written(s.sinks[k].log), Recordables(Origins(s.h.sent)));
  }

  lemma WrittenPermutation(s: State, k: nat)
    requires k < |s.sinks|
    requires multiset(s.sinks[k].log) == multiset(Events(s.h.sent))
    ensures multiset(Written(s.sinks[k].log)) == multiset(Recordables(Origins(s.h.sent)))
  {
    WrittenIsFlatMap(s.sinks[k].log);
    FlatMapPermutation(s.sinks[k].log, Events(s.h.sent), RecordOfSent);
    EventsAndOrigins(s.h.sent);
  }

  // What a recording misses

  lemma SameMultiset(a: seq<Event>, b: seq<Event>)
    requires forall e :: Count(a, e) == Count(b, e)
    ensures multiset(a) == multiset(b)
  {
    forall e ensures multiset(a)[e] == multiset(b)[e] {
      CountIsMultiset(a, e);
      CountIsMultiset(b, e);
    }
  }

  lemma ReadingConcat(a: seq<Event>, b: seq<Event>)
    ensures ReadingOf(a + b) == ReadingOf(a) + ReadingOf(b)
  {
    FlatMapAppend(a, b, RecordOf);
  }

  /** When `whole` is `a` and `b` in some order, so are the packets they leave in a recording. */
  lemma ReadingSplit(whole: seq<Event>, a: seq<Event>, b: seq<Event>)
    requires forall e :: Count(whole, e) == Count(a, e) + Count(b, e)
    ensures multiset(ReadingOf(whole)) == multiset(ReadingOf(a)) + multiset(ReadingOf(b))
  {
    forall e ensures Count(whole, e) == Count(a + b, e) {
      CountConcat(a, b, e);
    }
    SameMultiset(whole, a + b);
    FlatMapPermutation(whole, a + b, RecordOf);
    StoredPermutation(Recordables(whole), Recordables(a + b));
    ReadingConcat(a, b);
  }

  /**
   The recording and what was dropped or abandoned make up, together, a
   recording of every event that was received and is to be kept: this is all
   that drop mode, or a cancellation, loses.
   */
  lemma ReplayLosses(c: Config, ls: seq<Label>, k: nat)
    requires ValidConfig(c) && Small(c) && IsRun(c, Init(c), ls)
    requires AllExited(After(c, Init(c), ls).workers)
    requires k < |Kinds(c)| && Kinds(c)[k].PcapKind?
    ensures var s := After(c, Init(c), ls);
            && k < |s.sinks| && s.received <= |c.payloads|
            && multiset(ReadingOf(Kept(c, Input(c)[..s.received])))
               == multiset(P.Decode(FileBytes(s.sinks[k].file)).packets) + multiset(ReadingOf(Kept(c, Lost(s))))
  {
    Replay(c, ls, k);
    Outcome(c, ls);
    var s := After(c, Init(c), ls);
    ReadingSplit(Kept(c, Input(c)[..s.received]), Origins(s.h.sent), Kept(c, Lost(s)));
    hide P.Decode;
    hide ReadingOf;
    hide Kept;
    hide Lost;
  }

  /**
   In particular, a run that lost nothing, as every blocking run does whose
   source was exhausted before anyone cancelled, leaves a recording of exactly
   the events to be kept: the same collection for every schedule and number of
   workers.
   */
  lemma LosslessReplay(c: Config, ls: seq<Label>, k: nat)
    requires ValidConfig(c) && Small(c) && IsRun(c, Init(c), ls)
    requires AllExited(After(c, Init(c), ls).workers) && Lossless(c, After(c, Init(c), ls))
    requires k < |Kinds(c)| && Kinds(c)[k].PcapKind?
    ensures var s := After(c, Init(c), ls);
            && k < |s.sinks|
            && multiset(P.Decode(FileBytes(s.sinks[k].file)).packets) == multiset(ReadingOf(Kept(c, Input(c))))
  {
    ReplayLosses(c, ls, k);
    var s := After(c, Init(c), ls);
    assert Input(c)[..s.received] == Input(c);
    assert Lost(s) == [] && ReadingOf(Kept(c, [])) == [];
    hide P.Decode;
    hide ReadingOf;
    hide Kept;
  }
}
