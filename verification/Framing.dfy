/**
 Frame extraction of internal/hw/serial.go on plain byte sequences: the
 incremental reader as a function of its buffer and of what the underlying
 stream still returns, and a one-pass automaton over the whole stream that it
 is compared with.
 */
module Framing {
  import opened Prelude
  import opened Bytes

  datatype Mode = Newline | SyncByte

  datatype Config = Config(mode: Mode, sof: byte, eof: byte, maxFrameSize: nat)

  const LF: byte := 10
  const CR: byte := 13

  /** The size of the scratch buffer each read fills, an upper bound on one read. */
  const CHUNK: nat := 512

  /** How a call on the underlying reader ends: fine, end of stream, or another failure. */
  datatype Status = Fine | Eof | Failed

  /** One result of `io.Reader.Read`. */
  datatype Read = Read(data: seq<byte>, status: Status)

  predicate ValidScript(script: seq<Read>) {
    forall i :: 0 <= i < |script| ==> |script[i].data| <= CHUNK
  }

  // Searching

  /** `bytes.IndexByte`. */
  function IndexByte(s: seq<byte>, b: byte): (i: int)
    ensures -1 <= i < |s|
    ensures i >= 0 ==> s[i] == b && b !in s[..i]
    ensures i < 0 ==> b !in s
  {
    if s == [] then -1
    else if s[0] == b then 0
    else
      var j := IndexByte(s[1..], b);
      if j < 0 then -1
      else
        assert s[..j + 1] == [s[0]] + s[1..][..j];
        j + 1
  }

  /** `bytes.TrimRight(s, "\r")`: every trailing carriage return goes. */
  function TrimCR(s: seq<byte>): (r: seq<byte>)
    ensures r <= s
    ensures r != [] ==> r[|r| - 1] != CR
    ensures forall i :: |r| <= i < |s| ==> s[i] == CR
  {
    if s != [] && s[|s| - 1] == CR then TrimCR(s[..|s| - 1]) else s
  }

  /** Long enough to hold its delimiters. */
  predicate WellFormed(cfg: Config, raw: seq<byte>) {
    |raw| >= (if cfg.mode.SyncByte? then 2 else 1)
  }

  /** The payload of a raw frame: without the line end, or without the two delimiters. */
  function Payload(cfg: Config, raw: seq<byte>): seq<byte>
    requires WellFormed(cfg, raw)
  {
    match cfg.mode
    case Newline => TrimCR(raw[..|raw| - 1])
    case SyncByte => raw[1..|raw| - 1]
  }

  // The incremental reader

  /** A raw frame and the buffer after it, or the buffer left when there is none. */
  datatype Extraction = Found(raw: seq<byte>, rest: seq<byte>) | NotFound(rest: seq<byte>)

  /** `tryExtractFrame`. */
  function Extract(cfg: Config, buf: seq<byte>): (x: Extraction)
    ensures x.Found? ==> x.raw != [] && WellFormed(cfg, x.raw) && |x.raw| + |x.rest| <= |buf|
    ensures x.NotFound? ==> |x.rest| <= |buf|
  {
    match cfg.mode
    case Newline =>
      var idx := IndexByte(buf, LF);
      if idx >= 0 then Found(buf[..idx + 1], From(buf, idx + 1)) else NotFound(buf)
    case SyncByte =>
      var sofIdx := IndexByte(buf, cfg.sof);
      if sofIdx < 0 then NotFound([])
      else
        var kept := From(buf, sofIdx);
        var eofIdx := IndexByte(From(kept, 1), cfg.eof);
        if eofIdx < 0 then NotFound(kept) else Found(kept[..eofIdx + 2], From(kept, eofIdx + 2))
  }

  /** The overflow guard: a buffer over four maximal frames loses its oldest half. */
  function Guarded(cfg: Config, buf: seq<byte>): seq<byte> {
    if |buf| > 4 * cfg.maxFrameSize then From(buf, |buf| / 2) else buf
  }

  /** The most the buffer ever holds when an extraction is tried. */
  function Bound(cfg: Config): nat {
    if 4 * cfg.maxFrameSize < CHUNK then CHUNK else 4 * cfg.maxFrameSize
  }

  /** The guard keeps the buffer within its bound whatever one read adds. */
  lemma GuardBounds(cfg: Config, buf: seq<byte>, data: seq<byte>)
    requires |buf| <= Bound(cfg) && |data| <= CHUNK
    ensures |Guarded(cfg, buf + data)| <= Bound(cfg)
  {
  }

  /** The result of one `ReadNextFrame`: the raw frame or the error, and what is left for the next call. */
  datatype Outcome = Outcome(raw: Option<seq<byte>>, status: Status, buf: seq<byte>, script: seq<Read>)

  /** The buffer after a read: an empty read leaves it alone. */
  function Received(cfg: Config, kept: seq<byte>, data: seq<byte>): seq<byte> {
    if data == [] then kept else Guarded(cfg, kept + data)
  }

  /** A read that did not end well: at end of file a last attempt on what is left, otherwise the error. */
  function Finish(cfg: Config, buf: seq<byte>, status: Status, rest: seq<Read>): (o: Outcome)
    requires !status.Fine?
    ensures o.raw.Some? <==> o.status.Fine?
    ensures o.raw.Some? ==> |o.buf| < |buf|
    ensures o.script == rest
  {
    if status.Eof? && buf != [] then
      var x := Extract(cfg, buf);
      if x.Found? then Outcome(Some(x.raw), Fine, x.rest, rest) else Outcome(None, Eof, x.rest, rest)
    else Outcome(None, status, buf, rest)
  }

  /** `ReadNextFrame` with buffer `buf` when the stream will return `script`, then end of file for ever. */
  function NextFrame(cfg: Config, buf: seq<byte>, script: seq<Read>): (o: Outcome)
    ensures o.raw.Some? <==> o.status.Fine?
    ensures |o.script| <= |script|
    ensures o.raw.Some? ==> |o.script| < |script| || |o.buf| < |buf|
    decreases |script|
  {
    var x := Extract(cfg, buf);
    if x.Found? then Outcome(Some(x.raw), Fine, x.rest, script)
    else
      if script == [] then Finish(cfg, x.rest, Eof, [])
      else
        var r, rest := script[0], script[1..];
        var grown := Received(cfg, x.rest, r.data);
        if r.status.Fine? then NextFrame(cfg, grown, rest) else Finish(cfg, grown, r.status, rest)
  }

  datatype Drained = Drained(raws: seq<seq<byte>>, status: Status)

  /** Calling `ReadNextFrame` until it fails. */
  function Drain(cfg: Config, buf: seq<byte>, script: seq<Read>): Drained
    decreases |script|, |buf|
  {
    var o := NextFrame(cfg, buf, script);
    if o.raw.None? then Drained([], o.status)
    else
      var d := Drain(cfg, o.buf, o.script);
      Drained([o.raw.value] + d.raws, d.status)
  }

  /**
   Even when the guard drops data, every frame is well formed and no longer
   than the bound, which exceeds the configured maximum at least fourfold.
   */
  lemma {:induction false} DrainBounded(cfg: Config, buf: seq<byte>, script: seq<Read>)
    requires |buf| <= Bound(cfg) && ValidScript(script)
    ensures forall raw :: raw in Drain(cfg, buf, script).raws ==> WellFormed(cfg, raw) && |raw| <= Bound(cfg)
    decreases |script|, |buf|
  {
    hide Extract;
    hide Bound;
    hide WellFormed;
    var o := NextFrame(cfg, buf, script);
    NextBounded(cfg, buf, script);
    if o.raw.Some? {
      DrainBounded(cfg, o.buf, o.script);
    }
  }

  lemma {:induction false} NextBounded(cfg: Config, buf: seq<byte>, script: seq<Read>)
    requires |buf| <= Bound(cfg) && ValidScript(script)
    ensures var o := NextFrame(cfg, buf, script);
            && |o.buf| <= Bound(cfg) && ValidScript(o.script)
            && (o.raw.Some? ==> WellFormed(cfg, o.raw.value) && |o.raw.value| <= Bound(cfg))
    decreases |script|
  {
    hide Extract;
    hide Bound;
    hide Guarded;
    hide WellFormed;
    var x := Extract(cfg, buf);
    if x.NotFound? && script != [] {
      GuardBounds(cfg, x.rest, script[0].data);
      NextBounded(cfg, Received(cfg, x.rest, script[0].data), script[1..]);
    }
  }

  // The one-pass automaton

  /** Between frames, or inside one with the bytes so far. */
  datatype Sync = Hunting | Inside(acc: seq<byte>)

  function Start(cfg: Config): Sync {
    if cfg.mode.Newline? then Inside([]) else Hunting
  }

  /** The byte that ends the frame being read. */
  function Closer(cfg: Config): byte {
    if cfg.mode.Newline? then LF else cfg.eof
  }

  function OnByte(cfg: Config, st: Sync, b: byte): Sync {
    match st
    case Hunting => if b == cfg.sof then Inside([b]) else Hunting
    case Inside(acc) => if b == Closer(cfg) then Start(cfg) else Inside(acc + [b])
  }

  /** The frame that byte `b` completes, if any. */
  function Emitted(cfg: Config, st: Sync, b: byte): seq<seq<byte>> {
    if st.Inside? && b == Closer(cfg) then [st.acc + [b]] else []
  }

  /** The frames that `s` completes, starting in state `st`. */
  function Raws(cfg: Config, st: Sync, s: seq<byte>): seq<seq<byte>>
    decreases s
  {
    if s == [] then []
    else Emitted(cfg, st, s[0]) + Raws(cfg, OnByte(cfg, st, s[0]), s[1..])
  }

  /** The state after `s`. */
  function End(cfg: Config, st: Sync, s: seq<byte>): Sync
    decreases s
  {
    if s == [] then st else End(cfg, OnByte(cfg, st, s[0]), s[1..])
  }

  function Pending(st: Sync): seq<byte> {
    match st case Hunting => [] case Inside(acc) => acc
  }

  lemma {:induction false} ScanAppend(cfg: Config, st: Sync, a: seq<byte>, b: seq<byte>)
    ensures Raws(cfg, st, a + b) == Raws(cfg, st, a) + Raws(cfg, End(cfg, st, a), b)
    ensures End(cfg, st, a + b) == End(cfg, End(cfg, st, a), b)
    decreases a
  {
    hide OnByte;
    hide Emitted;
    if a == [] {
      assert a + b == b;
    } else {
      var next := OnByte(cfg, st, a[0]);
      ScanAppend(cfg, next, a[1..], b);
      assert (a + b)[1..] == a[1..] + b;
      Assoc(Emitted(cfg, st, a[0]), Raws(cfg, next, a[1..]), Raws(cfg, End(cfg, next, a[1..]), b));
    }
  }

  lemma {:induction false} NoCloser(cfg: Config, acc: seq<byte>, s: seq<byte>)
    requires Closer(cfg) !in s
    ensures Raws(cfg, Inside(acc), s) == [] && End(cfg, Inside(acc), s) == Inside(acc + s)
    decreases s
  {
    if s == [] {
      assert acc + s == acc;
    } else {
      assert s[0] in s;
      NoCloser(cfg, acc + [s[0]], s[1..]);
      assert acc + [s[0]] + s[1..] == acc + s;
    }
  }

  lemma {:induction false} NoOpener(cfg: Config, s: seq<byte>)
    requires cfg.sof !in s
    ensures Raws(cfg, Hunting, s) == [] && End(cfg, Hunting, s) == Hunting
  {
    if s != [] {
      assert s[0] in s;
      NoOpener(cfg, s[1..]);
    }
  }

  /** A frame body followed by its closing byte completes exactly that frame. */
  lemma OneFrame(cfg: Config, acc: seq<byte>, s: seq<byte>, rest: seq<byte>)
    requires Closer(cfg) !in s
    ensures Raws(cfg, Inside(acc), s + [Closer(cfg)] + rest) == [acc + s + [Closer(cfg)]] + Raws(cfg, Start(cfg), rest)
    ensures End(cfg, Inside(acc), s + [Closer(cfg)] + rest) == End(cfg, Start(cfg), rest)
  {
    var tail := [Closer(cfg)] + rest;
    NoCloser(cfg, acc, s);
    ScanAppend(cfg, Inside(acc), s, tail);
    assert s + [Closer(cfg)] + rest == s + tail;
    assert tail[1..] == rest;
  }

  /** An extraction takes the automaton's first frame, or trims only what the automaton has skipped. */
  ghost predicate Agrees(cfg: Config, buf: seq<byte>, x: Extraction) {
    var st := Start(cfg);
    match x
    case Found(raw, rest) =>
      && Raws(cfg, st, buf) == [raw] + Raws(cfg, st, rest)
      && End(cfg, st, buf) == End(cfg, st, rest)
    case NotFound(rest) =>
      && Raws(cfg, st, buf) == Raws(cfg, st, rest) == []
      && End(cfg, st, buf) == End(cfg, st, rest)
      && Pending(End(cfg, st, buf)) == rest
  }

  lemma ExtractScan(cfg: Config, buf: seq<byte>)
    ensures Agrees(cfg, buf, Extract(cfg, buf))
  {
    if cfg.mode.Newline? {
      var idx := IndexByte(buf, LF);
      if idx >= 0 {
        assert buf == buf[..idx] + [LF] + buf[idx + 1..];
        OneFrame(cfg, [], buf[..idx], buf[idx + 1..]);
        assert buf[..idx + 1] == [] + buf[..idx] + [LF];
      } else {
        NoCloser(cfg, [], buf);
        assert buf == [] + buf;
      }
    } else {
      ExtractScanSync(cfg, buf);
    }
  }

  lemma ExtractScanSync(cfg: Config, buf: seq<byte>)
    requires cfg.mode.SyncByte?
    ensures Agrees(cfg, buf, Extract(cfg, buf))
  {
    var i := IndexByte(buf, cfg.sof);
    if i < 0 {
      NoOpener(cfg, buf);
    } else {
      var kept := From(buf, i);
      assert buf == buf[..i] + kept;
      assert kept == [cfg.sof] + From(kept, 1);
      hide From;
      SkipNoise(cfg, buf[..i], kept);
      AfterOpener(cfg, From(kept, 1), kept);
    }
  }

  /** Bytes before the first opener change nothing. */
  lemma SkipNoise(cfg: Config, noise: seq<byte>, s: seq<byte>)
    requires cfg.mode.SyncByte? && cfg.sof !in noise
    ensures Raws(cfg, Hunting, noise + s) == Raws(cfg, Hunting, s)
    ensures End(cfg, Hunting, noise + s) == End(cfg, Hunting, s)
  {
    NoOpener(cfg, noise);
    ScanAppend(cfg, Hunting, noise, s);
  }

  lemma AfterOpener(cfg: Config, body: seq<byte>, s: seq<byte>)
    requires cfg.mode.SyncByte? && s == [cfg.sof] + body
    ensures var j := IndexByte(body, cfg.eof);
            if j < 0 then
              && Raws(cfg, Hunting, s) == []
              && End(cfg, Hunting, s) == Inside(s)
            else
              && Raws(cfg, Hunting, s) == [s[..j + 2]] + Raws(cfg, Hunting, From(s, j + 2))
              && End(cfg, Hunting, s) == End(cfg, Hunting, From(s, j + 2))
  {
    hide IndexByte;
    var j := IndexByte(body, cfg.eof);
    assert s[1..] == body;
    assert Raws(cfg, Hunting, s) == Raws(cfg, Inside([cfg.sof]), body);
    assert End(cfg, Hunting, s) == End(cfg, Inside([cfg.sof]), body);
    if j < 0 {
      NoCloser(cfg, [cfg.sof], body);
    } else {
      assert body == body[..j] + [cfg.eof] + body[j + 1..];
      OneFrame(cfg, [cfg.sof], body[..j], body[j + 1..]);
      assert s[..j + 2] == [cfg.sof] + body[..j] + [cfg.eof];
      assert From(s, j + 2) == body[j + 1..];
    }
  }

  // Streaming and batch agree

  function Concat(script: seq<Read>): seq<byte> {
    if script == [] then [] else script[0].data + Concat(script[1..])
  }

  /** Reads succeed up to the last, which may carry the end of file with it. */
  predicate Clean(script: seq<Read>) {
    && (forall i :: 0 <= i < |script| - 1 ==> script[i].status.Fine?)
    && (script != [] ==> !script[|script| - 1].status.Failed?)
  }

  /** With the automaton in `st`, no chunk makes the unfinished frame too long for the guard. */
  predicate Calm(cfg: Config, st: Sync, script: seq<Read>)
    decreases script
  {
    script == [] || (
      && |Pending(st)| + |script[0].data| <= 4 * cfg.maxFrameSize
      && Calm(cfg, End(cfg, st, script[0].data), script[1..]))
  }

  /** In a calm stream the guard does nothing: the buffer grows by exactly the chunk. */
  lemma GuardIdle(cfg: Config, kept: seq<byte>, st: Sync, script: seq<Read>)
    requires script != [] && Pending(st) == kept && cfg.maxFrameSize > 0
    ensures |Pending(st)| + |script[0].data| <= 4 * cfg.maxFrameSize
            <==> Guarded(cfg, kept + script[0].data) == kept + script[0].data
  {
    var b := kept + script[0].data;
    assert |b| > 4 * cfg.maxFrameSize ==> |b[|b| / 2..]| < |b|;
  }

  lemma {:induction false} DrainIsScan(cfg: Config, buf: seq<byte>, script: seq<Read>)
    requires Clean(script) && cfg.maxFrameSize > 0 && Calm(cfg, End(cfg, Start(cfg), buf), script)
    ensures Drain(cfg, buf, script) == Drained(Raws(cfg, Start(cfg), buf + Concat(script)), Eof)
    decreases |script|, |buf|
  {
    var x := Extract(cfg, buf);
    ExtractScan(cfg, buf);
    if x.Found? {
      DrainFound(cfg, buf, script);
    } else if script == [] {
      DrainEnd(cfg, buf);
    } else {
      DrainMore(cfg, buf, script);
    }
  }

  lemma {:induction false} DrainFound(cfg: Config, buf: seq<byte>, script: seq<Read>)
    requires Clean(script) && cfg.maxFrameSize > 0 && Calm(cfg, End(cfg, Start(cfg), buf), script)
    requires Extract(cfg, buf).Found?
    ensures Drain(cfg, buf, script) == Drained(Raws(cfg, Start(cfg), buf + Concat(script)), Eof)
    decreases |script|, |buf|, 0
  {
    hide Raws;
    hide End;
    hide Calm;
    hide Concat;
    hide Start;
    hide Extract;
    var x := Extract(cfg, buf);
    ExtractScan(cfg, buf);
    DrainIsScan(cfg, x.rest, script);
    DrainTake(cfg, buf, script);
    ScanTake(cfg, buf, x.raw, x.rest, Concat(script));
  }

  /** A frame found in the buffer is the first frame drained. */
  lemma DrainTake(cfg: Config, buf: seq<byte>, script: seq<Read>)
    requires Extract(cfg, buf).Found?
    ensures var x := Extract(cfg, buf);
            var d := Drain(cfg, x.rest, script);
            Drain(cfg, buf, script) == Drained([x.raw] + d.raws, d.status)
  {
    hide Extract;
  }

  lemma ScanTake(cfg: Config, buf: seq<byte>, raw: seq<byte>, rest: seq<byte>, more: seq<byte>)
    requires Raws(cfg, Start(cfg), buf) == [raw] + Raws(cfg, Start(cfg), rest)
    requires End(cfg, Start(cfg), buf) == End(cfg, Start(cfg), rest)
    ensures Raws(cfg, Start(cfg), buf + more) == [raw] + Raws(cfg, Start(cfg), rest + more)
  {
    ScanAppend(cfg, Start(cfg), buf, more);
    ScanAppend(cfg, Start(cfg), rest, more);
    hide Raws;
    hide End;
    Assoc([raw], Raws(cfg, Start(cfg), rest), Raws(cfg, End(cfg, Start(cfg), rest), more));
  }

  lemma DrainEnd(cfg: Config, buf: seq<byte>)
    requires Extract(cfg, buf).NotFound?
    ensures Drain(cfg, buf, []) == Drained(Raws(cfg, Start(cfg), buf + Concat([])), Eof)
  {
    ExtractScan(cfg, buf);
    StillNothing(cfg, buf);
    hide Extract;
    assert buf + Concat([]) == buf;
  }

  /** What an unsuccessful extraction leaves holds no frame either. */
  lemma StillNothing(cfg: Config, buf: seq<byte>)
    requires Extract(cfg, buf).NotFound?
    ensures Extract(cfg, Extract(cfg, buf).rest).NotFound?
  {
    ExtractScan(cfg, buf);
    ExtractScan(cfg, Extract(cfg, buf).rest);
    hide Extract;
  }

  lemma {:induction false} DrainMore(cfg: Config, buf: seq<byte>, script: seq<Read>)
    requires Clean(script) && cfg.maxFrameSize > 0 && Calm(cfg, End(cfg, Start(cfg), buf), script)
    requires Extract(cfg, buf).NotFound? && script != []
    ensures Drain(cfg, buf, script) == Drained(Raws(cfg, Start(cfg), buf + Concat(script)), Eof)
    decreases |script|, |buf|, 0
  {
    hide Extract;
    hide Raws;
    hide End;
    hide Start;
    hide Drain;
    hide Guarded;
    var kept := Extract(cfg, buf).rest;
    var st := End(cfg, Start(cfg), buf);
    ExtractScan(cfg, buf);
    GuardIdle(cfg, kept, st, script);
    var data, rest := script[0].data, script[1..];
    ScanAppend(cfg, Start(cfg), kept, data);
    hide Calm;
    DrainIsScan(cfg, kept + data, rest);
    SameScan(cfg, buf, kept, Concat(script));
    Assoc(kept, data, Concat(rest));
    assert data == [] ==> kept + data == kept;
    DrainStep(cfg, buf, script, kept + data);
  }

  /** Two buffers with nothing complete and the same state complete the same frames from then on. */
  lemma SameScan(cfg: Config, a: seq<byte>, b: seq<byte>, more: seq<byte>)
    requires Raws(cfg, Start(cfg), a) == Raws(cfg, Start(cfg), b) == []
    requires End(cfg, Start(cfg), a) == End(cfg, Start(cfg), b)
    ensures Raws(cfg, Start(cfg), a + more) == Raws(cfg, Start(cfg), b + more)
  {
    ScanAppend(cfg, Start(cfg), a, more);
    ScanAppend(cfg, Start(cfg), b, more);
  }

  /** Reading one more chunk is the same as having had it in the buffer. */
  lemma DrainStep(cfg: Config, buf: seq<byte>, script: seq<Read>, grown: seq<byte>)
    requires Clean(script) && script != [] && Extract(cfg, buf).NotFound?
    requires grown == Received(cfg, Extract(cfg, buf).rest, script[0].data)
    requires Drain(cfg, grown, script[1..]).status.Eof?
    ensures Drain(cfg, buf, script) == Drain(cfg, grown, script[1..])
  {
    hide Extract;
    hide Received;
    if script[0].status.Eof? {
      assert script[1..] == [];
      DrainLast(cfg, grown);
    }
  }

  /** At the end of the stream the last attempt on `buf` is what the next call would do. */
  lemma DrainLast(cfg: Config, buf: seq<byte>)
    ensures var o := Finish(cfg, buf, Eof, []);
            Drain(cfg, buf, []) == if o.raw.None? then Drained([], o.status)
                                   else
                                     var d := Drain(cfg, o.buf, []);
                                     Drained([o.raw.value] + d.raws, d.status)
  {
    hide Extract;
    if Extract(cfg, buf).Found? {
      DrainTake(cfg, buf, []);
    } else {
      StillNothing(cfg, buf);
    }
  }

  /**
   Streaming equals batch: on a calm stream, calling the reader until it fails
   yields exactly the frames of the one-pass automaton over the whole stream,
   whatever the chunks.
   */
  lemma StreamingEqualsBatch(cfg: Config, script: seq<Read>)
    requires Clean(script) && cfg.maxFrameSize > 0 && Calm(cfg, Start(cfg), script)
    ensures Drain(cfg, [], script) == Drained(Raws(cfg, Start(cfg), Concat(script)), Eof)
  {
    assert End(cfg, Start(cfg), []) == Start(cfg);
    DrainIsScan(cfg, [], script);
    assert [] + Concat(script) == Concat(script);
  }

  /** No frame of `stream` is ever left unfinished at a length within one read of the guard. */
  ghost predicate ShortFrames(cfg: Config, stream: seq<byte>) {
    forall n :: 0 <= n <= |stream| ==> |Pending(End(cfg, Start(cfg), stream[..n]))| + CHUNK <= 4 * cfg.maxFrameSize
  }

  lemma {:induction false} ShortIsCalm(cfg: Config, before: seq<byte>, script: seq<Read>)
    requires ValidScript(script) && ShortFrames(cfg, before + Concat(script))
    ensures Calm(cfg, End(cfg, Start(cfg), before), script)
    decreases script
  {
    hide End;
    hide Start;
    if script != [] {
      var stream := before + Concat(script);
      assert stream[..|before|] == before;
      var data := script[0].data;
      ScanAppend(cfg, Start(cfg), before, data);
      Assoc(before, data, Concat(script[1..]));
      ShortIsCalm(cfg, before + data, script[1..]);
    }
  }

  lemma ShortStreaming(cfg: Config, script: seq<Read>)
    requires cfg.maxFrameSize > 0 && ValidScript(script) && Clean(script) && ShortFrames(cfg, Concat(script))
    ensures Drain(cfg, [], script) == Drained(Raws(cfg, Start(cfg), Concat(script)), Eof)
  {
    hide ShortFrames;
    hide Drain;
    assert [] + Concat(script) == Concat(script);
    ShortIsCalm(cfg, [], script);
    assert End(cfg, Start(cfg), []) == Start(cfg);
    StreamingEqualsBatch(cfg, script);
  }

  /**
   Chunking does not matter: a stream of short frames, cut into reads of at
   most 512 bytes in any two ways, gives the same frames both times.
   */
  lemma ChunkingIrrelevant(cfg: Config, a: seq<Read>, b: seq<Read>)
    requires cfg.maxFrameSize > 0
    requires ValidScript(a) && ValidScript(b) && Clean(a) && Clean(b)
    requires Concat(a) == Concat(b) && ShortFrames(cfg, Concat(a))
    ensures Drain(cfg, [], a) == Drain(cfg, [], b)
  {
    hide ShortFrames;
    hide Drain;
    ShortStreaming(cfg, a);
    ShortStreaming(cfg, b);
  }

  /**
   Without calm the claim is false: with a maximal frame of one byte, the
   six-byte line "ABCDE" arriving in one read loses its first half.
   */
  lemma OverflowLosesBytes()
    ensures var cfg := Config(Newline, 0xAA, 0x55, 1);
            var script := [Read([65, 66, 67, 68, 69, LF], Fine)];
            && Clean(script) && !Calm(cfg, Start(cfg), script)
            && Drain(cfg, [], script).raws == [[68, 69, LF]]
            && Raws(cfg, Start(cfg), Concat(script)) == [[65, 66, 67, 68, 69, LF]]
  {
    var cfg := Config(Newline, 0xAA, 0x55, 1);
    var line: seq<byte> := [65, 66, 67, 68, 69];
    assert line + [LF] == [65, 66, 67, 68, 69, LF];
    OverflowScan(cfg, line, [Read([65, 66, 67, 68, 69, LF], Fine)]);
    OverflowDrain(cfg, [65, 66, 67, 68, 69, LF], [68, 69, LF]);
  }

  lemma OverflowScan(cfg: Config, line: seq<byte>, script: seq<Read>)
    requires cfg.mode.Newline? && LF !in line && script == [Read(line + [LF], Fine)]
    ensures Raws(cfg, Start(cfg), Concat(script)) == [line + [LF]]
  {
    assert script[1..] == [];
    assert line + [LF] + [] == line + [LF] == Concat(script);
    OneFrame(cfg, [], line, []);
    assert [] + line == line;
  }

  lemma OverflowDrain(cfg: Config, line: seq<byte>, left: seq<byte>)
    requires cfg.mode.Newline? && cfg.maxFrameSize == 1 && |line| == 6 && left == line[3..]
    requires left[0] != LF && left[1] != LF && left[2] == LF
    ensures Drain(cfg, [], [Read(line, Fine)]).raws == [left]
  {
    var script := [Read(line, Fine)];
    assert Guarded(cfg, [] + line) == left;
    assert left[1..][1..] == [LF];
    LastLine(cfg, left);
    assert script[1..] == [];
    assert NextFrame(cfg, [], script) == NextFrame(cfg, left, []);
    assert Drain(cfg, [], script) == Drain(cfg, left, []);
  }

  /** A buffer that is one line and nothing more is returned whole. */
  lemma LastLine(cfg: Config, left: seq<byte>)
    requires cfg.mode.Newline? && IndexByte(left, LF) == |left| - 1
    requires left != []
    ensures Drain(cfg, left, []).raws == [left]
  {
    assert left[..|left|] == left && left[|left|..] == [];
    assert NextFrame(cfg, left, []) == Outcome(Some(left), Fine, [], []);
    assert NextFrame(cfg, [], []).raw.None?;
    assert Drain(cfg, [], []).raws == [];
  }
}
