/**
 Calls of `ReadNextFrame` of internal/hw/serial.go on a stream whose reads may
 fail or end at any point: which call returns what, and that calling again goes
 on where the stream was.
 */
module Resuming {
  import opened Prelude
  import opened Bytes
  import opened Framing

  /** The frame a call returned, if it did. */
  function Handed(o: Outcome): seq<seq<byte>> {
    match o.raw case Some(raw) => [raw] case None => []
  }

  /** What has been handed out and what the automaton makes of the rest are what it made of the whole. */
  ghost predicate Conserves(cfg: Config, whole: seq<byte>, handed: seq<seq<byte>>, left: seq<byte>) {
    && Raws(cfg, Start(cfg), whole) == handed + Raws(cfg, Start(cfg), left)
    && End(cfg, Start(cfg), whole) == End(cfg, Start(cfg), left)
  }

  /**
   The reads that a call uses, one after the other: all but the last were fine.
   A call without a frame reports the failure of the last one, or the end of
   file when there are no reads left.
   */
  ghost predicate Uses(script: seq<Read>, n: nat, o: Outcome) {
    && n <= |script| && o.script == script[n..]
    && (forall i :: 0 <= i < n - 1 ==> script[i].status.Fine?)
    && (o.raw.Some? ==> o.status.Fine? && (n > 0 ==> !script[n - 1].status.Failed?))
    && (o.raw.None? ==>
          if n > 0 && !script[n - 1].status.Fine? then o.status == script[n - 1].status
          else n == |script| && o.status == Eof)
  }

  /** No read came too many: before the last one no frame was complete. At end of file none is complete after it. */
  ghost predicate Prompt(cfg: Config, buf: seq<byte>, script: seq<Read>, n: nat, o: Outcome) {
    && n <= |script|
    && (n > 0 ==> Raws(cfg, Start(cfg), buf + Concat(script[..n - 1])) == [])
    && (o.status.Eof? ==> Raws(cfg, Start(cfg), o.buf) == [])
  }

  /** Buffers with the same frames to complete and the same state are as good as each other. */
  lemma Swap(cfg: Config, a: seq<byte>, handed: seq<seq<byte>>, b: seq<byte>, more: seq<byte>)
    requires Conserves(cfg, a, handed, b)
    ensures Conserves(cfg, a + more, handed, b + more)
  {
    ScanAppend(cfg, Start(cfg), a, more);
    ScanAppend(cfg, Start(cfg), b, more);
    hide Raws;
    hide End;
    Assoc(handed, Raws(cfg, Start(cfg), b), Raws(cfg, End(cfg, Start(cfg), b), more));
  }

  lemma Chain(cfg: Config, a: seq<byte>, x: seq<seq<byte>>, b: seq<byte>, y: seq<seq<byte>>, c: seq<byte>)
    requires Conserves(cfg, a, x, b) && Conserves(cfg, b, y, c)
    ensures Conserves(cfg, a, x + y, c)
  {
    hide Raws;
    hide End;
    Assoc(x, y, Raws(cfg, Start(cfg), c));
  }

  /** An extraction hands out the first frame of the buffer, or nothing, and loses no frame. */
  lemma ExtractConserves(cfg: Config, buf: seq<byte>)
    ensures var x := Extract(cfg, buf);
            && Conserves(cfg, buf, if x.Found? then [x.raw] else [], x.rest)
            && (x.NotFound? ==> Raws(cfg, Start(cfg), buf) == [] && Raws(cfg, Start(cfg), x.rest) == []
                                && Pending(End(cfg, Start(cfg), buf)) == x.rest)
  {
    ExtractScan(cfg, buf);
    hide Extract;
    hide Raws;
    hide End;
  }

  /** The end of a call whose last read did not end well. */
  lemma FinishConserves(cfg: Config, buf: seq<byte>, status: Status, rest: seq<Read>)
    requires !status.Fine?
    ensures var o := Finish(cfg, buf, status, rest);
            && Conserves(cfg, buf, Handed(o), o.buf)
            && (o.status.Eof? ==> Raws(cfg, Start(cfg), o.buf) == [])
            && (o.raw.None? ==> o.status == status) && (o.raw.Some? ==> status.Eof?)
  {
    ExtractConserves(cfg, buf);
    hide Extract;
  }

  /** In a calm stream a read adds its bytes to what is kept. */
  lemma ReceivedWhole(cfg: Config, buf: seq<byte>, script: seq<Read>)
    requires cfg.maxFrameSize > 0 && script != [] && Extract(cfg, buf).NotFound?
    requires Calm(cfg, End(cfg, Start(cfg), buf), script)
    ensures var grown := Received(cfg, Extract(cfg, buf).rest, script[0].data);
            && Conserves(cfg, buf + script[0].data, [], grown)
            && Calm(cfg, End(cfg, Start(cfg), grown), script[1..])
  {
    var kept, data := Extract(cfg, buf).rest, script[0].data;
    ExtractConserves(cfg, buf);
    GuardIdle(cfg, kept, End(cfg, Start(cfg), buf), script);
    assert data == [] ==> kept + data == kept;
    Swap(cfg, buf, [], kept, data);
    ScanAppend(cfg, Start(cfg), buf, data);
    hide Extract;
    hide Raws;
    hide End;
    hide Guarded;
  }

  /**
   One call on a calm stream, whatever its reads do: it uses the reads up to
   the first that fails or completes a frame, returns the first frame of the
   stream or that failure, and leaves behind exactly the frames that come
   after. A failed read costs no byte.
   */
  lemma {:induction false} CallExactly(cfg: Config, buf: seq<byte>, script: seq<Read>) returns (n: nat)
    requires cfg.maxFrameSize > 0 && Calm(cfg, End(cfg, Start(cfg), buf), script)
    ensures var o := NextFrame(cfg, buf, script);
            && Uses(script, n, o) && Prompt(cfg, buf, script, n, o)
            && Conserves(cfg, buf + Concat(script), Handed(o), o.buf + Concat(o.script))
            && Calm(cfg, End(cfg, Start(cfg), o.buf), o.script)
    decreases |script|
  {
    hide *;
    if Extract(cfg, buf).Found? {
      n := 0;
      CallFound(cfg, buf, script);
    } else if script == [] {
      n := 0;
      CallEnd(cfg, buf);
    } else {
      ReceivedWhole(cfg, buf, script);
      var grown := Received(cfg, Extract(cfg, buf).rest, script[0].data);
      if script[0].status.Fine? {
        n := CallExactly(cfg, grown, script[1..]);
        CallGoesOn(cfg, buf, script, grown, n);
        n := n + 1;
      } else {
        n := 1;
        CallStops(cfg, buf, script, grown);
      }
    }
  }

  lemma CallFound(cfg: Config, buf: seq<byte>, script: seq<Read>)
    requires Extract(cfg, buf).Found? && Calm(cfg, End(cfg, Start(cfg), buf), script)
    ensures var o := NextFrame(cfg, buf, script);
            && Uses(script, 0, o) && Prompt(cfg, buf, script, 0, o)
            && Conserves(cfg, buf + Concat(script), Handed(o), o.buf + Concat(o.script))
            && Calm(cfg, End(cfg, Start(cfg), o.buf), o.script)
  {
    ExtractConserves(cfg, buf);
    var x := Extract(cfg, buf);
    Swap(cfg, buf, [x.raw], x.rest, Concat(script));
    hide Extract;
    hide Raws;
    hide End;
    hide Calm;
    hide Concat;
  }

  lemma CallEnd(cfg: Config, buf: seq<byte>)
    requires Extract(cfg, buf).NotFound?
    ensures var o := NextFrame(cfg, buf, []);
            && Uses([], 0, o) && Prompt(cfg, buf, [], 0, o)
            && Conserves(cfg, buf + Concat([]), Handed(o), o.buf + Concat(o.script))
            && Calm(cfg, End(cfg, Start(cfg), o.buf), o.script)
  {
    var kept := Extract(cfg, buf).rest;
    StillNothing(cfg, buf);
    ExtractConserves(cfg, buf);
    FinishConserves(cfg, kept, Eof, []);
    var o := Finish(cfg, kept, Eof, []);
    Chain(cfg, buf, [], kept, Handed(o), o.buf);
    assert buf + Concat([]) == buf && o.buf + Concat(o.script) == o.buf;
    hide Extract;
    hide Raws;
    hide End;
  }

  lemma CallStops(cfg: Config, buf: seq<byte>, script: seq<Read>, grown: seq<byte>)
    requires Extract(cfg, buf).NotFound? && script != [] && !script[0].status.Fine?
    requires grown == Received(cfg, Extract(cfg, buf).rest, script[0].data)
    requires Conserves(cfg, buf + script[0].data, [], grown) && Calm(cfg, End(cfg, Start(cfg), grown), script[1..])
    ensures var o := NextFrame(cfg, buf, script);
            && Uses(script, 1, o) && Prompt(cfg, buf, script, 1, o)
            && Conserves(cfg, buf + Concat(script), Handed(o), o.buf + Concat(o.script))
            && Calm(cfg, End(cfg, Start(cfg), o.buf), o.script)
  {
    var rest := script[1..];
    var o := Finish(cfg, grown, script[0].status, rest);
    ExtractConserves(cfg, buf);
    FinishConserves(cfg, grown, script[0].status, rest);
    Chain(cfg, buf + script[0].data, [], grown, Handed(o), o.buf);
    Swap(cfg, buf + script[0].data, [] + Handed(o), o.buf, Concat(rest));
    Assoc(buf, script[0].data, Concat(rest));
    Neutral(Handed(o));
    assert Concat(script[..0]) == [];
    Neutral(buf);
    hide Extract;
    hide Raws;
    hide End;
    hide Finish;
    hide Received;
    hide Calm;
  }

  lemma CallGoesOn(cfg: Config, buf: seq<byte>, script: seq<Read>, grown: seq<byte>, n: nat)
    requires Extract(cfg, buf).NotFound? && script != [] && script[0].status.Fine?
    requires grown == Received(cfg, Extract(cfg, buf).rest, script[0].data)
    requires Conserves(cfg, buf + script[0].data, [], grown)
    requires var o := NextFrame(cfg, grown, script[1..]);
             && Uses(script[1..], n, o) && Prompt(cfg, grown, script[1..], n, o)
             && Conserves(cfg, grown + Concat(script[1..]), Handed(o), o.buf + Concat(o.script))
    ensures var o := NextFrame(cfg, buf, script);
            && o == NextFrame(cfg, grown, script[1..])
            && Uses(script, n + 1, o) && Prompt(cfg, buf, script, n + 1, o)
            && Conserves(cfg, buf + Concat(script), Handed(o), o.buf + Concat(o.script))
  {
    var data, rest := script[0].data, script[1..];
    var o := NextFrame(cfg, grown, rest);
    assert NextFrame(cfg, buf, script) == o;
    Swap(cfg, buf + data, [], grown, Concat(rest));
    Assoc(buf, data, Concat(rest));
    Chain(cfg, buf + Concat(script), [], grown + Concat(rest), Handed(o), o.buf + Concat(o.script));
    Neutral(Handed(o));
    assert script[n + 1..] == rest[n..];
    UsesMore(script, n, o);
    PromptMore(cfg, buf, script, grown, n, o);
    hide *;
  }

  lemma UsesMore(script: seq<Read>, n: nat, o: Outcome)
    requires script != [] && script[0].status.Fine? && Uses(script[1..], n, o)
    ensures Uses(script, n + 1, o)
  {
    assert script[n + 1..] == script[1..][n..];
    forall i | 0 <= i < n ensures script[i].status.Fine? {
      assert i > 0 ==> script[i] == script[1..][i - 1];
    }
  }

  lemma PromptMore(cfg: Config, buf: seq<byte>, script: seq<Read>, grown: seq<byte>, n: nat, o: Outcome)
    requires Extract(cfg, buf).NotFound? && script != []
    requires Conserves(cfg, buf + script[0].data, [], grown) && Prompt(cfg, grown, script[1..], n, o)
    ensures Prompt(cfg, buf, script, n + 1, o)
  {
    hide Extract;
    hide Raws;
    hide End;
    if n == 0 {
      ExtractConserves(cfg, buf);
      assert Concat(script[..0]) == [];
      Neutral(buf);
    } else {
      var some := script[1..][..n - 1];
      assert script[..n] == [script[0]] + some;
      assert Concat(script[..n]) == script[0].data + Concat(some);
      Assoc(buf, script[0].data, Concat(some));
      Swap(cfg, buf + script[0].data, [], grown, Concat(some));
    }
  }

  // Any number of calls

  /** What `k` calls in a row hand out, whatever they report, and what they leave. */
  datatype Session = Session(raws: seq<seq<byte>>, buf: seq<byte>, script: seq<Read>)

  function Calls(cfg: Config, buf: seq<byte>, script: seq<Read>, k: nat): Session
    decreases k
  {
    if k == 0 then Session([], buf, script)
    else
      var o := NextFrame(cfg, buf, script);
      var s := Calls(cfg, o.buf, o.script, k - 1);
      Session(Handed(o) + s.raws, s.buf, s.script)
  }

  /**
   Calling on after errors loses nothing and invents nothing: after any number
   of calls on a calm stream, the frames handed out are the first ones of the
   whole stream, and what is left holds exactly the others.
   */
  lemma {:induction false} CallsConserve(cfg: Config, buf: seq<byte>, script: seq<Read>, k: nat)
    requires cfg.maxFrameSize > 0 && Calm(cfg, End(cfg, Start(cfg), buf), script)
    ensures var s := Calls(cfg, buf, script, k);
            Conserves(cfg, buf + Concat(script), s.raws, s.buf + Concat(s.script))
    decreases k
  {
    hide Conserves;
    hide Calm;
    hide NextFrame;
    hide End;
    if k == 0 {
      Nothing(cfg, buf + Concat(script));
    } else {
      var o := NextFrame(cfg, buf, script);
      var _ := CallExactly(cfg, buf, script);
      CallsConserve(cfg, o.buf, o.script, k - 1);
      var s := Calls(cfg, o.buf, o.script, k - 1);
      Chain(cfg, buf + Concat(script), Handed(o), o.buf + Concat(o.script), s.raws, s.buf + Concat(s.script));
    }
  }

  lemma Nothing(cfg: Config, s: seq<byte>)
    ensures Conserves(cfg, s, [], s)
  {
    Neutral(Raws(cfg, Start(cfg), s));
  }

  /** And when a further call finds the end of the file, all frames of the stream have been handed out. */
  lemma AllHandedOut(cfg: Config, buf: seq<byte>, script: seq<Read>, k: nat)
    requires cfg.maxFrameSize > 0 && Calm(cfg, End(cfg, Start(cfg), buf), script)
    requires var s := Calls(cfg, buf, script, k);
             var o := NextFrame(cfg, s.buf, s.script);
             o.raw.None? && o.status.Eof? && o.script == []
    ensures Calls(cfg, buf, script, k).raws == Raws(cfg, Start(cfg), buf + Concat(script))
  {
    var s := Calls(cfg, buf, script, k);
    var o := NextFrame(cfg, s.buf, s.script);
    CallsConserve(cfg, buf, script, k);
    StaysCalm(cfg, buf, script, k);
    var _ := CallExactly(cfg, s.buf, s.script);
    Chain(cfg, buf + Concat(script), s.raws, s.buf + Concat(s.script), [], o.buf + Concat(o.script));
    Neutral(o.buf);
    Neutral(s.raws);
    assert Concat([]) == [];
    hide Calls;
    hide NextFrame;
    hide Raws;
    hide End;
    hide Calm;
  }

  lemma {:induction false} StaysCalm(cfg: Config, buf: seq<byte>, script: seq<Read>, k: nat)
    requires cfg.maxFrameSize > 0 && Calm(cfg, End(cfg, Start(cfg), buf), script)
    ensures var s := Calls(cfg, buf, script, k);
            Calm(cfg, End(cfg, Start(cfg), s.buf), s.script)
    decreases k
  {
    hide NextFrame;
    hide Calm;
    hide End;
    if k > 0 {
      var o := NextFrame(cfg, buf, script);
      var _ := CallExactly(cfg, buf, script);
      StaysCalm(cfg, o.buf, o.script, k - 1);
    }
  }
}
