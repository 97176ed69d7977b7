/**
 Exactly when the overflow guard of internal/hw/serial.go costs nothing: the
 incremental reader yields the frames of the one-pass automaton if and only if
 every time the guard fires the bytes it drops belong to no frame.
 */
module Overflow {
  import opened Prelude
  import opened Bytes
  import opened Framing

  /** The unfinished frame, or nothing, that the reader holds after `buf`. */
  function Held(cfg: Config, buf: seq<byte>): seq<byte> {
    Pending(End(cfg, Start(cfg), buf))
  }

  /** The guard acts on a non-empty read that makes the buffer too long. */
  predicate Fires(cfg: Config, held: seq<byte>, data: seq<byte>) {
    data != [] && |held + data| > 4 * cfg.maxFrameSize
  }

  /** The half that the guard drops completes no frame and ends between frames. */
  predicate Idle(cfg: Config, all: seq<byte>) {
    Raws(cfg, Start(cfg), all[..|all| / 2]) == [] && Held(cfg, all[..|all| / 2]) == []
  }

  /**
   Following the reads, the guard never drops a byte of a frame: when it fires,
   either nothing is completed any more, or what it drops is idle.
   */
  predicate Harmless(cfg: Config, buf: seq<byte>, script: seq<Read>)
    decreases script
  {
    script == [] ||
    var all, rest := Held(cfg, buf) + script[0].data, script[1..];
    if !Fires(cfg, Held(cfg, buf), script[0].data) then Harmless(cfg, all, rest)
    else
      || Raws(cfg, Start(cfg), all + Concat(rest)) == []
      || (Idle(cfg, all) && Harmless(cfg, From(all, |all| / 2), rest))
  }

  /** In a calm stream the guard never fires. */
  lemma {:induction false} CalmIsHarmless(cfg: Config, buf: seq<byte>, script: seq<Read>)
    requires Calm(cfg, End(cfg, Start(cfg), buf), script)
    ensures Harmless(cfg, buf, script)
    decreases script
  {
    hide Raws;
    if script != [] {
      PendingRestarts(cfg, buf);
      var st, all := End(cfg, Start(cfg), buf), Held(cfg, buf) + script[0].data;
      ScanAppend(cfg, Start(cfg), Held(cfg, buf), script[0].data);
      hide End;
      CalmIsHarmless(cfg, all, script[1..]);
    }
  }

  /** Scanning what is held leads back to the state it is held in, and completes nothing. */
  lemma {:induction false} PendingRestarts(cfg: Config, buf: seq<byte>)
    ensures End(cfg, Start(cfg), Held(cfg, buf)) == End(cfg, Start(cfg), buf)
    ensures Raws(cfg, Start(cfg), Held(cfg, buf)) == []
    decreases |buf|
  {
    ExtractScan(cfg, buf);
    hide Raws;
    hide End;
    var x := Extract(cfg, buf);
    hide Extract;
    if x.Found? {
      PendingRestarts(cfg, x.rest);
    }
  }

  // How many bytes of frames

  function Total(raws: seq<seq<byte>>): nat {
    if raws == [] then 0 else |raws[0]| + Total(raws[1..])
  }

  lemma {:induction false} TotalAppend(a: seq<seq<byte>>, b: seq<seq<byte>>)
    ensures Total(a + b) == Total(a) + Total(b)
  {
    if a == [] {
      Neutral(b);
    } else {
      TotalAppend(a[1..], b);
      assert (a + b)[1..] == a[1..] + b;
    }
  }

  lemma {:induction false} RawsNonEmpty(cfg: Config, st: Sync, s: seq<byte>)
    ensures Total(Raws(cfg, st, s)) > 0 <==> Raws(cfg, st, s) != []
    decreases s
  {
    if s != [] {
      var first, more := Emitted(cfg, st, s[0]), Raws(cfg, OnByte(cfg, st, s[0]), s[1..]);
      RawsNonEmpty(cfg, OnByte(cfg, st, s[0]), s[1..]);
      TotalAppend(first, more);
      if first != [] {
        assert first[1..] == [];
      }
    }
  }

  /** Modes in which one byte cannot both end a frame and start the next. */
  predicate Distinct(cfg: Config) {
    cfg.mode.Newline? || cfg.sof != cfg.eof
  }

  /** Scanning from inside a frame completes at least as many frame bytes as starting afresh, more if anything. */
  lemma InsideCompletesMore(cfg: Config, acc: seq<byte>, w: seq<byte>)
    requires Distinct(cfg) && acc != []
    ensures Total(Raws(cfg, Start(cfg), w)) <= Total(Raws(cfg, Inside(acc), w))
    ensures Raws(cfg, Inside(acc), w) != [] ==> Total(Raws(cfg, Start(cfg), w)) < Total(Raws(cfg, Inside(acc), w))
  {
    var c := IndexByte(w, Closer(cfg));
    if c < 0 {
      NoCloser(cfg, acc, w);
      NothingCompleted(cfg, w);
    } else {
      var body, rest := w[..c], w[c + 1..];
      assert w == body + [Closer(cfg)] + rest;
      OneFrame(cfg, acc, body, rest);
      TotalAppend([acc + body + [Closer(cfg)]], Raws(cfg, Start(cfg), rest));
      OneTotal(acc + body + [Closer(cfg)]);
      AfreshCompletes(cfg, body, rest);
    }
  }

  lemma OneTotal(raw: seq<byte>)
    ensures Total([raw]) == |raw|
  {
    assert [raw][1..] == [];
  }

  lemma NothingCompleted(cfg: Config, w: seq<byte>)
    requires Closer(cfg) !in w
    ensures Raws(cfg, Start(cfg), w) == []
  {
    if cfg.mode.Newline? {
      NoCloser(cfg, [], w);
    } else {
      var i := IndexByte(w, cfg.sof);
      if i < 0 {
        NoOpener(cfg, w);
      } else {
        assert w == w[..i] + ([cfg.sof] + w[i + 1..]);
        SkipNoise(cfg, w[..i], [cfg.sof] + w[i + 1..]);
        AfterOpener(cfg, w[i + 1..], [cfg.sof] + w[i + 1..]);
      }
    }
  }

  /** Starting afresh, the first closing byte ends a frame no longer than what precedes it, or none. */
  lemma AfreshCompletes(cfg: Config, body: seq<byte>, rest: seq<byte>)
    requires Distinct(cfg) && Closer(cfg) !in body
    ensures Total(Raws(cfg, Start(cfg), body + [Closer(cfg)] + rest)) <= |body| + 1 + Total(Raws(cfg, Start(cfg), rest))
  {
    if cfg.mode.Newline? {
      OneFrame(cfg, [], body, rest);
      TotalAppend([[] + body + [LF]], Raws(cfg, Start(cfg), rest));
      OneTotal([] + body + [LF]);
    } else {
      AfreshSync(cfg, body, rest);
    }
  }

  lemma AfreshSync(cfg: Config, body: seq<byte>, rest: seq<byte>)
    requires cfg.mode.SyncByte? && cfg.sof != cfg.eof && cfg.eof !in body
    ensures Total(Raws(cfg, Hunting, body + [cfg.eof] + rest)) <= |body| + 1 + Total(Raws(cfg, Hunting, rest))
  {
    var i := IndexByte(body, cfg.sof);
    if i < 0 {
      assert cfg.sof !in body + [cfg.eof];
      SkipNoise(cfg, body + [cfg.eof], rest);
    } else {
      var noise, inner := body[..i], body[i + 1..];
      var s := [cfg.sof] + (inner + [cfg.eof] + rest);
      assert body + [cfg.eof] + rest == noise + s;
      SkipNoise(cfg, noise, s);
      assert s[1..] == inner + [cfg.eof] + rest;
      assert cfg.eof !in inner;
      OneFrame(cfg, [cfg.sof], inner, rest);
      assert Raws(cfg, Hunting, s) == Raws(cfg, Inside([cfg.sof]), inner + [cfg.eof] + rest);
      TotalAppend([[cfg.sof] + inner + [cfg.eof]], Raws(cfg, Hunting, rest));
      OneTotal([cfg.sof] + inner + [cfg.eof]);
    }
  }

  /** Dropping a prefix never gains frame bytes, and loses some if the prefix held any byte of a completed frame. */
  lemma DroppingLoses(cfg: Config, dropped: seq<byte>, w: seq<byte>)
    requires Distinct(cfg)
    ensures Total(Raws(cfg, Start(cfg), w)) <= Total(Raws(cfg, Start(cfg), dropped + w))
    ensures Raws(cfg, Start(cfg), dropped) != [] ||
            (Held(cfg, dropped) != [] && Raws(cfg, Start(cfg), dropped + w) != [])
            ==> Total(Raws(cfg, Start(cfg), w)) < Total(Raws(cfg, Start(cfg), dropped + w))
  {
    var before, st := Raws(cfg, Start(cfg), dropped), End(cfg, Start(cfg), dropped);
    ScanAppend(cfg, Start(cfg), dropped, w);
    TotalAppend(before, Raws(cfg, st, w));
    RawsNonEmpty(cfg, Start(cfg), dropped);
    StateKind(cfg, dropped);
    hide Raws;
    hide End;
    if Pending(st) != [] {
      InsideCompletesMore(cfg, Pending(st), w);
    }
    assert before == [] ==> before + Raws(cfg, st, w) == Raws(cfg, st, w);
  }

  /** With nothing held the automaton is where it started. */
  lemma StateKind(cfg: Config, s: seq<byte>)
    ensures Held(cfg, s) == [] ==> End(cfg, Start(cfg), s) == Start(cfg)
    ensures Held(cfg, s) != [] ==> End(cfg, Start(cfg), s) == Inside(Held(cfg, s))
  {
    PendingRestarts(cfg, s);
    assert End(cfg, Start(cfg), []) == Start(cfg);
  }

  // The guard along a run

  /** A stream that completes nothing still completes nothing without a prefix. */
  lemma StaysBarren(cfg: Config, dropped: seq<byte>, w: seq<byte>)
    requires Raws(cfg, Start(cfg), dropped + w) == []
    ensures Raws(cfg, Start(cfg), w) == []
  {
    ScanAppend(cfg, Start(cfg), dropped, w);
    StateKind(cfg, dropped);
    var st := End(cfg, Start(cfg), dropped);
    if Held(cfg, dropped) != [] {
      var c := IndexByte(w, Closer(cfg));
      if c >= 0 {
        SplitAt(w, c);
        OneFrame(cfg, Held(cfg, dropped), w[..c], w[c + 1..]);
        assert false;
      }
      NothingCompleted(cfg, w);
    }
  }

  lemma SplitAt(w: seq<byte>, c: nat)
    requires c < |w|
    ensures w == w[..c] + [w[c]] + w[c + 1..]
  {
  }

  /** A reader with nothing left to complete returns nothing, whatever the guard does. */
  lemma {:induction false} BarrenDrain(cfg: Config, buf: seq<byte>, script: seq<Read>)
    requires Clean(script) && Raws(cfg, Start(cfg), buf + Concat(script)) == []
    ensures Drain(cfg, buf, script) == Drained([], Eof)
    decreases |script|
  {
    ExtractScan(cfg, buf);
    ScanAppend(cfg, Start(cfg), buf, Concat(script));
    if script == [] {
      DrainEnd(cfg, buf);
      Neutral(buf);
    } else {
      var kept, data, rest := Extract(cfg, buf).rest, script[0].data, script[1..];
      SameScan(cfg, buf, kept, Concat(script));
      Assoc(kept, data, Concat(rest));
      var grown := Received(cfg, kept, data);
      BarrenGrown(cfg, kept, data, Concat(rest));
      BarrenDrain(cfg, grown, rest);
      DrainStep(cfg, buf, script, grown);
    }
  }

  lemma BarrenGrown(cfg: Config, kept: seq<byte>, data: seq<byte>, more: seq<byte>)
    requires Raws(cfg, Start(cfg), (kept + data) + more) == []
    ensures Raws(cfg, Start(cfg), Received(cfg, kept, data) + more) == []
  {
    var all := kept + data;
    if data == [] {
      Neutral(kept);
    } else if |all| > 4 * cfg.maxFrameSize {
      Halved(all, more);
      StaysBarren(cfg, all[..|all| / 2], From(all, |all| / 2) + more);
    }
  }

  lemma Halved(all: seq<byte>, more: seq<byte>)
    ensures all[..|all| / 2] + (From(all, |all| / 2) + more) == all + more
  {
  }

  /** Draining always comes to the end of the file. */
  lemma {:induction false} DrainEof(cfg: Config, buf: seq<byte>, script: seq<Read>)
    requires Clean(script)
    ensures Drain(cfg, buf, script).status.Eof?
    decreases |script|, |buf|
  {
    var x := Extract(cfg, buf);
    if x.Found? {
      DrainEof(cfg, x.rest, script);
      DrainTake(cfg, buf, script);
    } else if script == [] {
      DrainEnd(cfg, buf);
    } else {
      var grown := Received(cfg, x.rest, script[0].data);
      DrainEof(cfg, grown, script[1..]);
      DrainStep(cfg, buf, script, grown);
    }
  }

  /** Whatever the guard does, the reader never returns more frame bytes than the stream completes. */
  lemma {:induction false} DrainAtMost(cfg: Config, buf: seq<byte>, script: seq<Read>)
    requires Distinct(cfg) && Clean(script)
    ensures Total(Drain(cfg, buf, script).raws) <= Total(Raws(cfg, Start(cfg), buf + Concat(script)))
    decreases |script|, |buf|
  {
    var x := Extract(cfg, buf);
    ExtractScan(cfg, buf);
    if x.Found? {
      DrainAtMost(cfg, x.rest, script);
      DrainTake(cfg, buf, script);
      ScanTake(cfg, buf, x.raw, x.rest, Concat(script));
      TotalAppend([x.raw], Drain(cfg, x.rest, script).raws);
      TotalAppend([x.raw], Raws(cfg, Start(cfg), x.rest + Concat(script)));
    } else if script == [] {
      DrainEnd(cfg, buf);
    } else {
      DrainAtMostMore(cfg, buf, script);
    }
  }

  lemma {:induction false} DrainAtMostMore(cfg: Config, buf: seq<byte>, script: seq<Read>)
    requires Distinct(cfg) && Clean(script) && script != [] && Extract(cfg, buf).NotFound?
    ensures Total(Drain(cfg, buf, script).raws) <= Total(Raws(cfg, Start(cfg), buf + Concat(script)))
    decreases |script|, |buf|, 0
  {
    hide Extract;
    hide Raws;
    hide End;
    hide Drain;
    hide Received;
    hide Total;
    var kept, data, rest := Extract(cfg, buf).rest, script[0].data, script[1..];
    ExtractScan(cfg, buf);
    SameScan(cfg, buf, kept, Concat(script));
    Assoc(kept, data, Concat(rest));
    var grown := Received(cfg, kept, data);
    GrownAtMost(cfg, kept, data, Concat(rest));
    DrainAtMost(cfg, grown, rest);
    DrainEof(cfg, grown, rest);
    DrainStep(cfg, buf, script, grown);
  }

  lemma GrownAtMost(cfg: Config, kept: seq<byte>, data: seq<byte>, more: seq<byte>)
    requires Distinct(cfg)
    ensures Total(Raws(cfg, Start(cfg), Received(cfg, kept, data) + more)) <=
            Total(Raws(cfg, Start(cfg), (kept + data) + more))
  {
    var all := kept + data;
    if data == [] {
      Neutral(kept);
    } else if |all| > 4 * cfg.maxFrameSize {
      Halved(all, more);
      DroppingLoses(cfg, all[..|all| / 2], From(all, |all| / 2) + more);
    }
  }

  /** The reader returns the frames of the one-pass automaton over all its bytes. */
  predicate Lossless(cfg: Config, buf: seq<byte>, script: seq<Read>) {
    Drain(cfg, buf, script).raws == Raws(cfg, Start(cfg), buf + Concat(script))
  }

  /**
   Streaming equals batch exactly on harmless streams: the frames returned are
   those of the one-pass automaton if the guard, each time it fires, drops
   bytes of no frame; and only if, unless one byte both starts and ends frames.
   */
  lemma {:induction false} StreamingExactly(cfg: Config, buf: seq<byte>, script: seq<Read>)
    requires Clean(script) && cfg.maxFrameSize > 0
    ensures Harmless(cfg, buf, script) ==> Lossless(cfg, buf, script)
    ensures Distinct(cfg) && Lossless(cfg, buf, script) ==> Harmless(cfg, buf, script)
    decreases |script|, |buf|
  {
    var x := Extract(cfg, buf);
    ExtractScan(cfg, buf);
    if x.Found? {
      ExactlyTake(cfg, buf, script);
    } else if script == [] {
      DrainEnd(cfg, buf);
    } else {
      ExactlyMore(cfg, buf, script);
    }
  }

  lemma {:induction false} ExactlyTake(cfg: Config, buf: seq<byte>, script: seq<Read>)
    requires Clean(script) && cfg.maxFrameSize > 0 && Extract(cfg, buf).Found?
    ensures Harmless(cfg, buf, script) ==> Lossless(cfg, buf, script)
    ensures Distinct(cfg) && Lossless(cfg, buf, script) ==> Harmless(cfg, buf, script)
    decreases |script|, |buf|, 0
  {
    hide Extract;
    hide Raws;
    hide End;
    hide Drain;
    var x := Extract(cfg, buf);
    ExtractScan(cfg, buf);
    StreamingExactly(cfg, x.rest, script);
    DrainTake(cfg, buf, script);
    ScanTake(cfg, buf, x.raw, x.rest, Concat(script));
    Uncons(x.raw, Drain(cfg, x.rest, script).raws, Raws(cfg, Start(cfg), x.rest + Concat(script)));
    SameHeld(cfg, buf, x.rest, script);
  }

  lemma Uncons(raw: seq<byte>, a: seq<seq<byte>>, b: seq<seq<byte>>)
    ensures [raw] + a == [raw] + b <==> a == b
  {
    assert ([raw] + a)[1..] == a && ([raw] + b)[1..] == b;
  }

  lemma SameHeld(cfg: Config, a: seq<byte>, b: seq<byte>, script: seq<Read>)
    requires Held(cfg, a) == Held(cfg, b)
    ensures Harmless(cfg, a, script) == Harmless(cfg, b, script)
  {
    hide Held;
    hide Raws;
  }

  lemma {:induction false} ExactlyMore(cfg: Config, buf: seq<byte>, script: seq<Read>)
    requires Clean(script) && cfg.maxFrameSize > 0 && script != [] && Extract(cfg, buf).NotFound?
    ensures Harmless(cfg, buf, script) ==> Lossless(cfg, buf, script)
    ensures Distinct(cfg) && Lossless(cfg, buf, script) ==> Harmless(cfg, buf, script)
    decreases |script|, |buf|, 0
  {
    hide Extract;
    hide Raws;
    hide End;
    hide Drain;
    hide Idle;
    var kept, data, rest := Extract(cfg, buf).rest, script[0].data, script[1..];
    var grown := Received(cfg, kept, data);
    ExtractScan(cfg, buf);
    SameScan(cfg, buf, kept, Concat(script));
    Assoc(kept, data, Concat(rest));
    DrainEof(cfg, grown, rest);
    DrainStep(cfg, buf, script, grown);
    StreamingExactly(cfg, grown, rest);
    if Fires(cfg, kept, data) {
      FiredExactly(cfg, kept + data, rest);
    } else {
      assert data == [] ==> kept + data == kept;
    }
  }

  lemma FiredExactly(cfg: Config, all: seq<byte>, rest: seq<Read>)
    requires Clean(rest)
    requires var kept := From(all, |all| / 2);
             && (Harmless(cfg, kept, rest) ==> Lossless(cfg, kept, rest))
             && (Distinct(cfg) && Lossless(cfg, kept, rest) ==> Harmless(cfg, kept, rest))
    ensures Spared(cfg, all, rest) ==> Same(cfg, all, rest)
    ensures Distinct(cfg) && Same(cfg, all, rest) ==> Spared(cfg, all, rest)
  {
    var dropped, kept, more := all[..|all| / 2], From(all, |all| / 2), Concat(rest);
    Halved(all, more);
    if Raws(cfg, Start(cfg), all + more) == [] {
      StaysBarren(cfg, dropped, kept + more);
      BarrenDrain(cfg, kept, rest);
    } else if Idle(cfg, all) {
      StateKind(cfg, dropped);
      ScanAppend(cfg, Start(cfg), dropped, kept + more);
      Neutral(Raws(cfg, Start(cfg), kept + more));
    } else if Distinct(cfg) {
      DroppingLoses(cfg, dropped, kept + more);
      DrainAtMost(cfg, kept, rest);
    }
  }

  /** Draining the newer half of `all` and then `rest` gives what the automaton makes of everything. */
  predicate Same(cfg: Config, all: seq<byte>, rest: seq<Read>) {
    Drain(cfg, From(all, |all| / 2), rest).raws == Raws(cfg, Start(cfg), all + Concat(rest))
  }

  /** The older half of `all` holds no byte of a frame, and the reader stays harmless; or there are no frames. */
  predicate Spared(cfg: Config, all: seq<byte>, rest: seq<Read>) {
    || Raws(cfg, Start(cfg), all + Concat(rest)) == []
    || (Idle(cfg, all) && Harmless(cfg, From(all, |all| / 2), rest))
  }

  /** A whole reader run, from an empty buffer. */
  lemma MonitorExactly(cfg: Config, script: seq<Read>)
    requires Clean(script) && cfg.maxFrameSize > 0
    ensures Harmless(cfg, [], script) ==> Drain(cfg, [], script).raws == Raws(cfg, Start(cfg), Concat(script))
    ensures Distinct(cfg) && Drain(cfg, [], script).raws == Raws(cfg, Start(cfg), Concat(script)) ==>
              Harmless(cfg, [], script)
  {
    StreamingExactly(cfg, [], script);
    Neutral(Concat(script));
  }

  /**
   With one byte for both ends a reader thrown out of step can still happen on
   the same frames: of three noise bytes and 'S' 'a' 'S' 'a' 'S' the guard
   drops the noise and the first 'S', and what is left gives the frame "SaS"
   again.
   */
  lemma OutOfStepAgrees()
    ensures var cfg := Config(SyncByte, 83, 83, 1);
            var script := [Read([0, 0, 0, 83, 97, 83, 97, 83], Fine)];
            Clean(script) && !Harmless(cfg, [], script) && Lossless(cfg, [], script)
  {
    var cfg := Config(SyncByte, 83, 83, 1);
    var all: seq<byte> := [0, 0, 0, 83, 97, 83, 97, 83];
    OutOfStep(cfg, all, [97, 83, 97, 83], [Read(all, Fine)]);
  }

  lemma OutOfStep(cfg: Config, all: seq<byte>, kept: seq<byte>, script: seq<Read>)
    requires cfg == Config(SyncByte, 83, 83, 1) && all == [0, 0, 0, 83, 97, 83, 97, 83] && kept == [97, 83, 97, 83]
    requires script == [Read(all, Fine)]
    ensures !Harmless(cfg, [], script) && Lossless(cfg, [], script)
  {
    ScanAll(cfg, all);
    ScanKept(cfg, kept);
    FirstOpen(cfg, all[..4]);
    assert From(all, 4) == kept;
    hide Raws;
    NotHarmless(cfg, all, script);
    DrainKept(cfg, all, kept, script);
  }

  lemma ScanAll(cfg: Config, all: seq<byte>)
    requires cfg == Config(SyncByte, 83, 83, 1) && all == [0, 0, 0, 83, 97, 83, 97, 83]
    ensures Raws(cfg, Hunting, all) == [[83, 97, 83]]
  {
    assert all == [0, 0, 0] + [83, 97, 83, 97, 83];
    ScanTail(cfg);
    SkipNoise(cfg, [0, 0, 0], [83, 97, 83, 97, 83]);
    hide Raws;
    OneSync(cfg, [83, 97, 83, 97, 83], [97, 83]);
  }

  lemma ScanTail(cfg: Config)
    requires cfg == Config(SyncByte, 83, 83, 1)
    ensures Raws(cfg, Hunting, [97, 83]) == []
  {
    SkipNoise(cfg, [97], [83]);
    assert [97, 83] == [97] + [83];
    assert [83][1..] == [];
  }

  lemma ScanKept(cfg: Config, kept: seq<byte>)
    requires cfg == Config(SyncByte, 83, 83, 1) && kept == [97, 83, 97, 83]
    ensures Raws(cfg, Hunting, kept) == [[83, 97, 83]]
  {
    SkipNoise(cfg, [97], [83, 97, 83]);
    assert kept == [97] + [83, 97, 83];
    OneSync(cfg, [83, 97, 83], []);
  }

  lemma NotHarmless(cfg: Config, all: seq<byte>, script: seq<Read>)
    requires cfg == Config(SyncByte, 83, 83, 1) && |all| == 8 && script == [Read(all, Fine)]
    requires Raws(cfg, Hunting, all) != [] && Held(cfg, all[..4]) != []
    ensures !Harmless(cfg, [], script)
  {
    assert Held(cfg, []) == [];
    Neutral(all);
    assert script[1..] == [] && Concat([]) == [];
    hide Raws;
    hide Held;
  }

  /** The automaton after "SaS", which is complete. */
  lemma OneSync(cfg: Config, s: seq<byte>, rest: seq<byte>)
    requires cfg == Config(SyncByte, 83, 83, 1) && s == [83, 97, 83] + rest
    ensures Raws(cfg, Hunting, s) == [[83, 97, 83]] + Raws(cfg, Hunting, rest)
  {
    var body := [97, 83] + rest;
    assert s == [83] + body && body == [97] + [83] + rest;
    assert Raws(cfg, Hunting, s) == Raws(cfg, Inside([83]), body) by {
      assert s[1..] == body;
    }
    OneFrame(cfg, [83], [97], rest);
    assert [83] + [97] + [83] == [83, 97, 83];
  }

  lemma FirstOpen(cfg: Config, s: seq<byte>)
    requires cfg == Config(SyncByte, 83, 83, 1) && s == [0, 0, 0, 83]
    ensures Held(cfg, s) == [83]
  {
    SkipNoise(cfg, [0, 0, 0], [83]);
    assert s == [0, 0, 0] + [83];
    assert [83][1..] == [];
  }

  lemma DrainKept(cfg: Config, all: seq<byte>, kept: seq<byte>, script: seq<Read>)
    requires cfg == Config(SyncByte, 83, 83, 1) && |all| == 8 && From(all, 4) == kept && script == [Read(all, Fine)]
    requires Raws(cfg, Hunting, all) == Raws(cfg, Hunting, kept)
    ensures Lossless(cfg, [], script)
  {
    Neutral(kept);
    Neutral(all);
    hide Raws;
    hide Drain;
    assert Extract(cfg, []) == NotFound([]);
    hide Extract;
    assert Received(cfg, [], all) == kept;
    hide Received;
    assert script[1..] == [] && Concat([]) == [];
    assert Concat(script) == all + Concat([]);
    DrainIsScan(cfg, kept, []);
    DrainStep(cfg, [], script, kept);
  }
}
