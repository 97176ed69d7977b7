/**
 The frame reader of internal/hw/serial.go over a Go slice: a backing array
 with a window `lo..hi`, whose capacity is the rest of the array. Frames are
 handed out as windows of the same array, so every later append, trim and
 reset must leave the issued windows alone.
 */
module FrameReader {
  import opened Prelude
  import opened Bytes
  import opened Framing

  /** A Go slice handed out to the caller. */
  datatype Slice = Slice(arr: array<byte>, from: nat, to: nat)

  datatype Frame = Frame(seqNum: nat, payload: Slice, raw: Slice)

  predicate InRange(s: Slice) {
    s.from <= s.to <= s.arr.Length
  }

  /** What a slice shows now. */
  function Shown(s: Slice): (b: seq<byte>)
    requires InRange(s)
    reads s.arr
    ensures |b| == s.to - s.from
  {
    s.arr[s.from..s.to]
  }

  /** The frame's windows fit a raw frame `raw` and its payload, whatever the array holds. */
  ghost predicate Shaped(cfg: Config, frame: Frame, raw: seq<byte>) {
    && InRange(frame.raw) && WellFormed(cfg, raw)
    && frame.payload.arr == frame.raw.arr
    && frame.raw.from <= frame.payload.from <= frame.payload.to <= frame.raw.to
    && |raw| == frame.raw.to - frame.raw.from
    && raw[frame.payload.from - frame.raw.from..frame.payload.to - frame.raw.from] == Payload(cfg, raw)
  }

  /** A slice handed out, and the stream position its bytes came from. */
  datatype Loan = Loan(slice: Slice, at: nat) {
    function End(): int {
      at + slice.to - slice.from
    }
  }

  ghost function ArraysOf(loans: seq<Loan>): set<object> {
    set i | 0 <= i < |loans| :: loans[i].slice.arr as object
  }

  /** The slice still shows the bytes of the stream it was handed out with. */
  ghost predicate Shows(l: Loan, stream: seq<byte>)
    reads l.slice.arr
  {
    InRange(l.slice) && l.End() <= |stream| && Shown(l.slice) == stream[l.at..l.End()]
  }

  /** Every slice handed out is intact. */
  ghost predicate Intact(loans: seq<Loan>, stream: seq<byte>)
    reads ArraysOf(loans)
  {
    forall i :: 0 <= i < |loans| ==> loans[i].slice.arr in ArraysOf(loans) && Shows(loans[i], stream)
  }

  /** Non-empty, disjoint, in stream order, and before `limit`. */
  ghost predicate Ordered(loans: seq<Loan>, limit: nat) {
    && (forall i :: 0 <= i < |loans| ==> loans[i].at < loans[i].End() <= limit)
    && (forall i, j :: 0 <= i < j < |loans| ==> loans[i].End() <= loans[j].at)
  }

  /** The slices of `arr` among those handed out end at `lo` or earlier. */
  ghost predicate EndBefore(loans: seq<Loan>, arr: array<byte>, lo: nat) {
    forall i :: 0 <= i < |loans| ==> loans[i].slice.arr == arr ==> loans[i].slice.to <= lo
  }

  /** What has been read so far, and everything handed out from it. */
  datatype History = History(stream: seq<byte>, loans: seq<Loan>)

  /**
   With `left` bytes of the stream in the window of `arr` that starts at `lo`:
   whatever has been handed out lies before the window, in stream order, and
   still shows the bytes it was handed out with.
   */
  ghost predicate Safe(h: History, arr: array<byte>, lo: nat, left: nat)
    reads ArraysOf(h.loans)
  {
    match h
    case History(stream, loans) =>
      && left <= |stream|
      && Intact(loans, stream)
      && Ordered(loans, |stream| - left)
      && EndBefore(loans, arr, lo)
  }

  /** The stream so far ends with `buf`. */
  ghost predicate Ends(h: History, buf: seq<byte>) {
    match h
    case History(stream, loans) => |buf| <= |stream| && stream[|stream| - |buf|..] == buf
  }

  /** What has been read and what is still to be read make up the input. */
  ghost predicate Reading(h: History, script: seq<Read>, input: seq<byte>) {
    match h
    case History(stream, _) => stream + Concat(script) == input
  }

  lemma ReadingOn(h: History, script: seq<Read>, input: seq<byte>)
    requires Reading(h, script, input) && script != []
    ensures Reading(h.(stream := h.stream + script[0].data), script[1..], input)
  {
    Assoc(h.stream, script[0].data, Concat(script[1..]));
  }

  lemma AllReadingSame(h: History, g: History, script: seq<Read>)
    requires g.stream == h.stream
    ensures forall input :: Reading(h, script, input) ==> Reading(g, script, input)
  {
  }

  lemma EndsEmpty(h: History)
    ensures Ends(h, [])
  {
  }

  lemma EndsMore(h: History, buf: seq<byte>, data: seq<byte>)
    requires Ends(h, buf)
    ensures Ends(h.(stream := h.stream + data), buf + data)
  {
    SuffixGrows(h.stream, |buf|, data);
  }

  lemma EndsLess(h: History, buf: seq<byte>, n: nat)
    requires Ends(h, buf) && n <= |buf|
    ensures Ends(h, From(buf, n))
  {
    Dropping(h.stream, |h.stream| - |buf|, n);
  }

  lemma EndsLoans(h: History, g: History, buf: seq<byte>)
    requires Ends(h, buf) && g.stream == h.stream
    ensures Ends(g, buf)
  {
  }

  /** The first `n` bytes of the buffer, by their position in the stream. */
  lemma EndsAt(h: History, buf: seq<byte>, n: nat)
    requires Ends(h, buf) && n <= |buf|
    ensures |buf| <= |h.stream| && ReadsAt(h.stream, |h.stream| - |buf|, buf[..n])
  {
    Slicing(h.stream, |h.stream| - |buf|, |h.stream|, 0, n);
    assert h.stream[..|h.stream|] == h.stream;
  }

  lemma SafeAtFirst(arr: array<byte>)
    ensures Safe(History([], []), arr, 0, 0)
  {
  }

  lemma SafeTrim(h: History, arr: array<byte>, lo: nat, left: nat, n: nat)
    requires Safe(h, arr, lo, left) && n <= left
    ensures Safe(h, arr, lo + n, left - n) && Safe(h, arr, lo, 0)
  {
  }

  lemma SafeTake(h: History, arr: array<byte>, lo: nat, left: nat, n: nat)
    requires Safe(h, arr, lo, left) && 0 < n <= left && lo + n <= arr.Length && left <= |h.stream|
    requires ReadsAt(h.stream, |h.stream| - left, arr[lo..lo + n])
    ensures var loan := Loan(Slice(arr, lo, lo + n), |h.stream| - left);
            Safe(h.(loans := h.loans + [loan]), arr, lo + n, left - n)
  {
    var loan := Loan(Slice(arr, lo, lo + n), |h.stream| - left);
    AddIntact(h.loans, h.stream, loan);
    AddOrdered(h.loans, loan);
  }

  /** Positions keep their bytes when the stream grows. */
  lemma LaterToo(loans: seq<Loan>, before: seq<byte>, after: seq<byte>)
    requires Intact(loans, before) && before <= after
    ensures Intact(loans, after)
  {
    forall i | 0 <= i < |loans| ensures Shows(loans[i], after) {
      var l := loans[i];
      assert Shows(l, before);
      assert before[l.at..l.End()] == after[l.at..l.End()];
    }
  }

  lemma SafeGrows(h: History, data: seq<byte>, arr: array<byte>, lo: nat, left: nat)
    requires Safe(h, arr, lo, left)
    ensures Safe(h.(stream := h.stream + data), arr, lo, left + |data|)
  {
    LaterToo(h.loans, h.stream, h.stream + data);
  }

  lemma AddIntact(loans: seq<Loan>, stream: seq<byte>, l: Loan)
    requires Intact(loans, stream) && Shows(l, stream)
    ensures Intact(loans + [l], stream)
  {
    hide Shows;
    var all := loans + [l];
    forall i | 0 <= i < |all| ensures all[i].slice.arr in ArraysOf(all) && Shows(all[i], stream) {
      assert i < |loans| ==> all[i] == loans[i];
    }
  }

  lemma AddOrdered(loans: seq<Loan>, l: Loan)
    requires Ordered(loans, l.at) && l.at < l.End()
    ensures Ordered(loans + [l], l.End())
  {
  }

  lemma SuffixGrows(stream: seq<byte>, n: nat, data: seq<byte>)
    requires n <= |stream|
    ensures stream[|stream| - n..] + data == (stream + data)[|stream| - n..]
  {
  }

  /** Copies `data` into `a` from index `at` on. */
  method CopyAt(a: array<byte>, at: nat, data: seq<byte>)
    requires at + |data| <= a.Length
    modifies a
    ensures a[..at] == old(a[..at]) && a[at..at + |data|] == data
  {
    var i := 0;
    while i < |data|
      invariant i <= |data|
      invariant a[..at] == old(a[..at]) && a[at..at + i] == data[..i]
    {
      a[at + i] := data[i];
      i := i + 1;
    }
  }

  /** `bytes.IndexByte` on a slice. */
  method Find(a: array<byte>, from: nat, to: nat, b: byte) returns (i: int)
    requires from <= to <= a.Length
    ensures i == IndexByte(a[from..to], b)
  {
    i := 0;
    while i < to - from
      invariant 0 <= i <= to - from
      invariant b !in a[from..from + i]
    {
      if a[from + i] == b {
        assert a[from..to][..i] == a[from..from + i];
        FirstIndex(a[from..to], b, i);
        return;
      }
      assert a[from..from + i + 1] == a[from..from + i] + [a[from + i]];
      i := i + 1;
    }
    i := -1;
  }

  lemma {:induction false} FirstIndex(s: seq<byte>, b: byte, i: nat)
    requires i < |s| && s[i] == b && b !in s[..i]
    ensures IndexByte(s, b) == i
  {
    if i > 0 {
      assert s[0] == s[..i][0];
      assert s[1..][..i - 1] == s[..i][1..];
      FirstIndex(s[1..], b, i - 1);
    }
  }

  /** `bytes.TrimRight(slice, "\r")`: the end of what is left. */
  method TrimEnd(a: array<byte>, from: nat, to: nat) returns (end: nat)
    requires from <= to <= a.Length
    ensures from <= end <= to && a[from..end] == TrimCR(a[from..to])
  {
    hide TrimCR;
    end := to;
    while end > from && a[end - 1] == CR
      invariant from <= end <= to
      invariant TrimCR(a[from..end]) == TrimCR(a[from..to])
    {
      assert a[from..end] == a[from..end - 1] + [CR];
      TrimOne(a[from..end - 1]);
      end := end - 1;
    }
    TrimNone(a[from..end]);
  }

  lemma TrimOne(s: seq<byte>)
    ensures TrimCR(s + [CR]) == TrimCR(s)
  {
    assert (s + [CR])[..|s|] == s;
  }

  lemma TrimNone(s: seq<byte>)
    requires s == [] || s[|s| - 1] != CR
    ensures TrimCR(s) == s
  {
  }

  class FrameReader {
    const cfg: Config
    var arr: array<byte>
    var lo: nat
    var hi: nat
    var seqNum: nat
    var script: seq<Read>   // what the underlying reader will return

    ghost var history: History

    /** The reader itself is no array, so writing its fields shows in no slice. */
    lemma Apart(loans: seq<Loan>)
      ensures this !in ArraysOf(loans)
    {
    }

    ghost predicate InWindow()
      reads this
    {
      lo <= hi <= arr.Length
    }

    ghost function Buffer(): seq<byte>
      reads this, arr
      requires InWindow()
    {
      arr[lo..hi]
    }

    /** The buffer is a suffix of what was read. */
    ghost predicate Aligned()
      reads this, arr
    {
      InWindow() && Ends(history, Buffer())
    }

    ghost predicate Valid()
      reads this, arr, ArraysOf(history.loans)
    {
      match history
      case History(stream, loans) =>
        && cfg.maxFrameSize > 0 && seqNum < U32 && ValidScript(script)
        && Aligned()
        && hi - lo <= Bound(cfg)
        && Safe(history, arr, lo, hi - lo)
    }

    /** A non-positive maximum means 4096; the buffer starts with capacity for two frames. */
    constructor (mode: Mode, sof: byte, eof: byte, maxFrameSize: int, script: seq<Read>)
      requires ValidScript(script)
      ensures Valid() && Buffer() == [] && history == History([], [])
      ensures seqNum == 0 && this.script == script && fresh(arr)
      ensures cfg == Config(mode, sof, eof, if maxFrameSize <= 0 then 4096 else maxFrameSize)
    {
      var max := if maxFrameSize <= 0 then 4096 else maxFrameSize;
      cfg := Config(mode, sof, eof, max);
      arr := new byte[2 * max];
      lo, hi, seqNum := 0, 0, 0;
      this.script := script;
      history := History([], []);
      new;
      SafeAtFirst(arr);
      EndsEmpty(history);
      hide Safe;
      hide Ends;
      hide ValidScript;
    }

    /** `append` within the capacity: the array is written in place, from the end of the window on. */
    method Extend(data: seq<byte>)
      requires Valid() && hi + |data| <= arr.Length
      modifies this`hi, arr
      ensures InWindow() && Safe(history, arr, lo, old(hi) - lo) && hi == old(hi) + |data|
      ensures Buffer() == old(Buffer()) + data
    {
      ghost var before, h := arr[..], history;
      CopyAt(arr, hi, data);
      Written(before, arr[..], lo, hi, data);
      hi := hi + |data|;
      forall i | 0 <= i < |h.loans| ensures Shows(h.loans[i], h.stream) {
        var s := h.loans[i].slice;
        assert s.arr in ArraysOf(h.loans);
        assert old(Shows(h.loans[i], h.stream));
        if s.arr == arr {
          Within(before, arr[..], lo, s.from, s.to);
        }
      }
    }

    /** `append` beyond the capacity: the window moves to a fresh array with room to spare. */
    method Grow(data: seq<byte>)
      requires Valid()
      modifies this`arr, this`lo, this`hi
      ensures InWindow() && Safe(history, arr, lo, old(hi - lo)) && fresh(arr) && hi - lo == old(hi - lo) + |data|
      ensures Buffer() == old(Buffer()) + data
    {
      var spare: nat :| spare >= 0;
      var bigger := new byte[hi - lo + |data| + spare];
      var kept := hi - lo;
      CopyAt(bigger, 0, arr[lo..hi]);
      CopyAt(bigger, kept, data);
      assert bigger[0..kept] == bigger[..kept];
      assert bigger[0..kept + |data|] == bigger[0..kept] + bigger[kept..kept + |data|];
      arr, lo, hi := bigger, 0, kept + |data|;
    }

    /** Go's `append`. */
    method Append(data: seq<byte>)
      requires Valid()
      modifies this`arr, this`lo, this`hi, this`history, arr
      ensures Aligned() && Safe(history, arr, lo, hi - lo) && (arr == old(arr) || fresh(arr))
      ensures Buffer() == old(Buffer()) + data
      ensures history == old(history).(stream := old(history).stream + data)
    {
      hide Ends;
      hide Safe;
      ghost var left, buf := hi - lo, Buffer();
      if hi + |data| <= arr.Length {
        Extend(data);
      } else {
        Grow(data);
      }
      Apart(history.loans);
      EndsMore(history, buf, data);
      SafeGrows(history, data, arr, lo, left);
      history := history.(stream := history.stream + data);
    }

    /** `buf = buf[n:]`. */
    method Trim(n: nat)
      requires Aligned() && Safe(history, arr, lo, hi - lo) && n <= hi - lo
      modifies this`lo
      ensures Aligned() && Safe(history, arr, lo, hi - lo) && lo == old(lo) + n
      ensures Buffer() == From(old(Buffer()), n)
    {
      hide Safe;
      hide Ends;
      Apart(history.loans);
      EndsLess(history, Buffer(), n);
      SafeTrim(history, arr, lo, hi - lo, n);
      Dropping(arr[..hi], lo, n);
      lo := lo + n;
    }

    /** `buf = buf[:0]`: the window becomes empty where it starts. */
    method Reset()
      requires Valid()
      modifies this`hi
      ensures Valid() && Buffer() == []
    {
      hide Safe;
      hide Ends;
      Apart(history.loans);
      EndsEmpty(history);
      SafeTrim(history, arr, lo, hi - lo, 0);
      hi := lo;
      assert Buffer() == [];
    }

    /** A non-empty read: append, then drop the oldest half when over four maximal frames. */
    method Fill(data: seq<byte>)
      requires Valid() && |data| <= CHUNK
      modifies this`arr, this`lo, this`hi, this`history, arr
      ensures Valid() && (arr == old(arr) || fresh(arr))
      ensures Buffer() == Guarded(cfg, old(Buffer()) + data) &&
              history == old(history).(stream := old(history).stream + data)
    {
      hide Safe;
      hide Ends;
      hide ValidScript;
      Apart(history.loans);
      GuardBounds(cfg, Buffer(), data);
      hide Bound;
      hide From;
      Append(data);
      if hi - lo > cfg.maxFrameSize * 4 {
        Trim((hi - lo) / 2);
      }
    }

    /** Where the frame just handed out came from: it ends where the buffer now begins. */
    ghost function Latest(raw: Slice): Loan
      reads this
      requires InWindow() && InRange(raw) && hi - lo + (raw.to - raw.from) <= |history.stream|
    {
      Loan(raw, |history.stream| - (hi - lo) - (raw.to - raw.from))
    }

    /** A frame of this reader's configuration that shows `raw` and its payload. */
    ghost predicate Delivers(frame: Frame, raw: seq<byte>)
      reads frame.raw.arr
    {
      Shaped(cfg, frame, raw) && Shown(frame.raw) == raw
    }

    /** What handing out a frame showing `raw` does to the counter and the record of loans. */
    ghost predicate Counted(frame: Frame, raw: seq<byte>, count: nat, loans: seq<Loan>)
      reads this, frame.raw.arr
    {
      match frame
      case Frame(num, payload, slice) =>
        && Delivers(frame, raw)
        && num == seqNum == (count + 1) % U32
        && InWindow() && hi - lo + |raw| <= |history.stream|
        && history.loans == loans + [Latest(slice)]
    }

    /** Hands out the first `n` bytes of the buffer as a frame, with bytes `p..q` of it as payload. */
    method Take(n: nat, p: nat, q: nat) returns (frame: Frame)
      requires Valid() && 0 < n <= hi - lo && p <= q <= n
      requires WellFormed(cfg, Buffer()[..n]) && Buffer()[..n][p..q] == Payload(cfg, Buffer()[..n])
      modifies this`lo, this`seqNum, this`history
      ensures Valid() && Buffer() == From(old(Buffer()), n) && history.stream == old(history).stream
      ensures Counted(frame, old(Buffer())[..n], old(seqNum), old(history).loans)
    {
      hide Safe;
      hide Ends;
      hide Payload;
      hide ValidScript;
      hide Bound;
      Apart(history.loans);
      ghost var buf := Buffer();
      var raw := Slice(arr, lo, lo + n);
      Slicing(arr[..], lo, hi, 0, n);
      EndsAt(history, buf, n);
      EndsLess(history, buf, n);
      SafeTake(history, arr, lo, hi - lo, n);
      Dropping(arr[..hi], lo, n);
      history := history.(loans := history.loans + [Loan(raw, |history.stream| - |buf|)]);
      lo := lo + n;
      Apart(history.loans);
      EndsLoans(old(history), history, Buffer());
      seqNum := (seqNum + 1) % U32;
      frame := Frame(seqNum, Slice(arr, raw.from + p, raw.from + q), raw);
    }

    /** What one attempt leaves behind, given the buffer, counter and history before it. */
    ghost predicate Attempted(r: Option<Frame>, buf: seq<byte>, count: nat, h: History)
      requires InWindow()
      reads this, arr, if r.Some? then {r.value.raw.arr} else {}
    {
      var x := Extract(cfg, buf);
      && history.stream == h.stream
      && Buffer() == x.rest
      && if x.Found? then r.Some? && Counted(r.value, x.raw, count, h.loans)
         else r.None? && seqNum == count && history.loans == h.loans
    }

    /** Where the first line of the buffer ends, and where its payload does. */
    method FindLine() returns (idx: int, end: nat)
      requires InWindow()
      ensures idx == IndexByte(Buffer(), LF)
      ensures idx >= 0 ==> end <= idx && Buffer()[0..end] == TrimCR(Buffer()[..idx])
    {
      hide IndexByte;
      hide TrimCR;
      idx := Find(arr, lo, hi, LF);
      end := 0;
      if idx >= 0 {
        end := TrimEnd(arr, lo, lo + idx);
        Slicing(arr[..], lo, hi, 0, idx);
        Slicing(arr[..], lo, hi, 0, end - lo);
        end := end - lo;
      }
    }

    /** The first line of the buffer, if it is complete. */
    method TryLine() returns (r: Option<Frame>)
      requires Valid() && cfg.mode.Newline?
      modifies this`lo, this`seqNum, this`history
      ensures Valid() && Attempted(r, old(Buffer()), old(seqNum), old(history))
    {
      hide Safe;
      hide Ends;
      hide From;
      hide Counted;
      hide TrimCR;
      hide IndexByte;
      hide Payload;
      Apart(history.loans);
      ghost var buf := Buffer();
      var idx, end := FindLine();
      if idx < 0 {
        return None;
      }
      LinePayload(cfg, buf, idx, end);
      var frame := Take(idx + 1, 0, end);
      r := Some(frame);
    }

    method FindCloser() returns (idx: int)
      requires InWindow() && lo < hi
      ensures idx == IndexByte(From(Buffer(), 1), cfg.eof)
    {
      idx := Find(arr, lo + 1, hi, cfg.eof);
      Dropping(arr[..hi], lo, 1);
    }

    /** Drops the noise before the start byte, or everything; then the frame up to the end byte, if it is there. */
    method TrySync() returns (r: Option<Frame>)
      requires Valid() && cfg.mode.SyncByte?
      modifies this`lo, this`hi, this`seqNum, this`history
      ensures Valid() && Attempted(r, old(Buffer()), old(seqNum), old(history))
    {
      hide Safe;
      hide Ends;
      hide From;
      hide Counted;
      hide IndexByte;
      Apart(history.loans);
      var sofIdx := Find(arr, lo, hi, cfg.sof);
      if sofIdx < 0 {
        Reset();
        return None;
      }
      Trim(sofIdx);
      var eofIdx := FindCloser();
      if eofIdx < 0 {
        return None;
      }
      var totalLen := eofIdx + 2;
      SyncPayload(cfg, Buffer(), totalLen);
      var frame := Take(totalLen, 1, totalLen - 1);
      r := Some(frame);
    }

    /** A frame from the buffer if it holds one; otherwise noise is dropped and nothing returned. */
    method TryExtractFrame() returns (r: Option<Frame>)
      requires Valid()
      modifies this`lo, this`hi, this`seqNum, this`history
      ensures Valid() && Attempted(r, old(Buffer()), old(seqNum), old(history))
    {
      hide Safe;
      hide Ends;
      hide From;
      Apart(history.loans);
      hide Attempted;
      match cfg.mode {
        case Newline => r := TryLine();
        case SyncByte => r := TrySync();
      }
    }

    /** One result of the underlying reader; a used-up script is the end of file for ever. */
    method Receive() returns (read: Read)
      requires Valid()
      modifies this`script
      ensures Valid()
      ensures if old(script) == [] then read == Read([], Eof) && script == []
              else [read] + script == old(script) && |read.data| <= CHUNK
    {
      hide Safe;
      hide Ends;
      hide From;
      Apart(history.loans);
      if script == [] {
        return Read([], Eof);
      }
      read := script[0];
      script := script[1..];
    }

    /** Reads once and appends what arrived. */
    method Refill() returns (status: Status)
      requires Valid()
      modifies this`arr, this`lo, this`hi, this`script, this`history, arr
      ensures Valid() && (arr == old(arr) || fresh(arr))
      ensures var read := if old(script) == [] then Read([], Eof) else old(script)[0];
              && Buffer() == Received(cfg, old(Buffer()), read.data)
              && (old(script) == [] ==> Buffer() == old(Buffer()))
              && status == read.status
              && script == (if old(script) == [] then [] else old(script)[1..])
      ensures old(history).stream <= history.stream && history.loans == old(history).loans
      ensures forall input :: Reading(old(history), old(script), input) ==> Reading(history, script, input)
    {
      hide Safe;
      hide Ends;
      hide From;
      Apart(history.loans);
      hide Guarded;
      hide Reading;
      ghost var before, due := history, script;
      var read := Receive();
      if |read.data| > 0 {
        Fill(read.data);
      }
      status := read.status;
      assert history == before.(stream := before.stream + read.data);
      forall input | Reading(before, due, input) ensures Reading(history, script, input) {
        if due != [] {
          ReadingOn(before, due, input);
        }
      }
    }

    /** A call's result and effect are those of `NextFrame`. */
    ghost predicate Returned(r: Option<Frame>, status: Status, o: Outcome, count: nat, loans: seq<Loan>)
      reads this, arr, if r.Some? then {r.value.raw.arr} else {}
    {
      && InWindow() && Buffer() == o.buf && script == o.script && status == o.status
      && (if o.raw.Some? then r.Some? && Counted(r.value, o.raw.value, count, loans)
          else r.None? && seqNum == count && history.loans == loans)
    }

    /** After a failed read: at end of file one last attempt, otherwise the error. */
    method GiveUp(failure: Status) returns (r: Option<Frame>, status: Status)
      requires Valid() && !failure.Fine?
      modifies this`lo, this`hi, this`seqNum, this`history
      ensures Valid()
      ensures Returned(r, status, Finish(cfg, old(Buffer()), failure, script), old(seqNum), old(history).loans)
      ensures history.stream == old(history).stream
    {
      hide Safe;
      hide Ends;
      hide From;
      Apart(history.loans);
      hide Extract;
      hide Counted;
      if failure.Eof? && lo < hi {
        r := TryExtractFrame();
        if r.Some? {
          return r, Fine;
        }
      }
      return None, failure;
    }

    /** The next frame, or the error the reader failed with. */
    method ReadNextFrame() returns (r: Option<Frame>, status: Status)
      requires Valid()
      modifies this`arr, this`lo, this`hi, this`seqNum, this`script, this`history, arr
      ensures Valid() && (arr == old(arr) || fresh(arr))
      ensures Returned(r, status, NextFrame(cfg, old(Buffer()), old(script)), old(seqNum), old(history).loans)
      ensures old(history).stream <= history.stream
      ensures forall input :: Reading(old(history), old(script), input) ==> Reading(history, script, input)
    {
      hide Safe;
      hide Ends;
      hide From;
      Apart(history.loans);
      hide Extract;
      hide Received;
      hide Finish;
      hide Counted;
      hide Reading;
      ghost var expected := NextFrame(cfg, Buffer(), script);
      while true
        invariant Valid() && (arr == old(arr) || fresh(arr))
        invariant seqNum == old(seqNum) && history.loans == old(history).loans && old(history).stream <= history.stream
        invariant expected == NextFrame(cfg, Buffer(), script)
        invariant forall input :: Reading(old(history), old(script), input) ==> Reading(history, script, input)
        decreases |script|
      {
        ghost var here := history;
        r := TryExtractFrame();
        AllReadingSame(here, history, script);
        if r.Some? {
          return r, Fine;
        }
        ghost var kept, before := Buffer(), script;
        ghost var read := history.stream;
        var failure := Refill();
        Transitive(old(history).stream, read, history.stream);
        if failure.Fine? {
          assert expected == NextFrame(cfg, Received(cfg, kept, before[0].data), before[1..]);
        } else {
          assert expected == Finish(cfg, Buffer(), failure, script);
          here := history;
          r, status := GiveUp(failure);
          AllReadingSame(here, history, script);
          return r, status;
        }
      }
    }

    /** One more frame read: the earlier ones are as they were and the new one joins them. */
    lemma RecordNext(before: History, frames: seq<Frame>, raws: seq<seq<byte>>, base: nat,
                     frame: Frame, raw: seq<byte>, count: nat)
      requires Valid() && Recorded(cfg, before, frames, raws, base)
      requires before.stream <= history.stream && Counted(frame, raw, count, before.loans)
      ensures Recorded(cfg, history, frames + [frame], raws + [raw], base)
      ensures frame.seqNum == seqNum == (count + 1) % U32
    {
      var l := Latest(frame.raw);
      assert history.loans[|before.loans|] == l && Shows(l, history.stream);
      Extended(cfg, before, history, frames, raws, base, frame, raw, l);
    }

    /** Frames on record still show their bytes. */
    lemma RecordedDelivers(frames: seq<Frame>, raws: seq<seq<byte>>, base: nat)
      requires Valid() && Recorded(cfg, history, frames, raws, base)
      ensures forall k :: 0 <= k < |frames| ==> Delivers(frames[k], raws[k])
    {
      forall k | 0 <= k < |frames| ensures Delivers(frames[k], raws[k]) {
        assert Shows(history.loans[base + k], history.stream);
      }
    }

    /** One turn of the monitor's loop: the frames so far show `taken`, and `left` is what draining gives from here. */
    method Pull(frames: seq<Frame>, ghost taken: seq<seq<byte>>, ghost left: Drained, ghost base: nat)
      returns (r: Option<Frame>, status: Status)
      requires Valid() && Recorded(cfg, history, frames, taken, base)
      requires Drain(cfg, Buffer(), script) == left
      modifies this`arr, this`lo, this`hi, this`seqNum, this`script, this`history, arr
      ensures Valid() && (arr == old(arr) || fresh(arr))
      ensures if r.Some? then
                && left.raws != []
                && Recorded(cfg, history, frames + [r.value], taken + [left.raws[0]], base)
                && Drain(cfg, Buffer(), script) == Drained(left.raws[1..], left.status)
                && (|script| < old(|script|) || (|script| == old(|script|) && hi - lo < old(hi - lo)))
                && r.value.seqNum == seqNum == (old(seqNum) + 1) % U32
              else
                left == Drained([], status) && Recorded(cfg, history, frames, taken, base)
      ensures forall input :: Reading(old(history), old(script), input) ==> Reading(history, script, input)
    {
      hide Reading;
      hide Safe;
      hide Ends;
      hide From;
      hide Counted;
      hide Recorded;
      hide NextFrame;
      ghost var before, count := history, seqNum;
      r, status := ReadNextFrame();
      if r.None? {
        StillRecorded(cfg, before, history, frames, taken, base);
      } else {
        RecordNext(before, frames, taken, base, r.value, left.raws[0], count);
      }
    }

    /**
     The monitor's loop: frames until the reader fails. They are the frames of
     `Drain`, numbered on from the counter; when the loop ends every one of them
     still shows the bytes it was returned with, and has its place on record in
     the stream.
     */
    method DrainAll() returns (frames: seq<Frame>, status: Status)
      requires Valid()
      modifies this`arr, this`lo, this`hi, this`seqNum, this`script, this`history, arr
      ensures Valid()
      ensures var d := Drain(cfg, old(Buffer()), old(script));
              && status == d.status && |frames| == |d.raws|
              && InSequence(frames, old(seqNum))
              && (forall k :: 0 <= k < |frames| ==> Delivers(frames[k], d.raws[k]))
              && Recorded(cfg, history, frames, d.raws, |old(history).loans|)
      ensures forall input :: Reading(old(history), old(script), input) ==> Reading(history, script, input)
    {
      hide Reading;
      hide Safe;
      hide Ends;
      hide From;
      hide Recorded;
      hide Delivers;
      hide InSequence;
      hide Drain;
      hide ValidScript;
      hide Taken;
      ghost var d := Drain(cfg, Buffer(), script);
      ghost var base, taken, left := |history.loans|, [], d;
      frames := [];
      AtFirst(cfg, history, d, seqNum);
      while true
        invariant Valid() && (arr == old(arr) || fresh(arr))
        invariant Recorded(cfg, history, frames, taken, base)
        invariant Drain(cfg, Buffer(), script) == left
        invariant Taken(d, taken, left)
        invariant |taken| == |frames| && seqNum == (old(seqNum) + |frames|) % U32
        invariant InSequence(frames, old(seqNum))
        invariant forall input :: Reading(old(history), old(script), input) ==> Reading(history, script, input)
        decreases |script|, hi - lo
      {
        var r;
        r, status := Pull(frames, taken, left, base);
        if r.None? {
          break;
        }
        TakeOne(d, taken, left);
        NextInSequence(frames, r.value, old(seqNum));
        taken, left := taken + [left.raws[0]], Drained(left.raws[1..], left.status);
        frames := frames + [r.value];
      }
      TakenAll(d, taken, left);
      RecordedDelivers(frames, taken, base);
    }

    /** Frames on record come from places in the stream that follow one another and do not overlap. */
    lemma RecordedInOrder(frames: seq<Frame>, raws: seq<seq<byte>>, base: nat) returns (places: seq<nat>)
      requires Valid() && Recorded(cfg, history, frames, raws, base)
      ensures InOrder(raws, places, history.stream)
    {
      hide InRange;
      hide Shaped;
      hide ReadsAt;
      places := PlacesOf(history.loans, base, |frames|);
      forall k | 0 <= k < |frames| ensures ReadsAt(history.stream, places[k], raws[k]) {
        assert Matched(cfg, history, frames[k], raws[k], base + k);
      }
      forall j, k | 0 <= j < k < |frames| ensures places[j] + |raws[j]| <= places[k] {
        LoanLength(cfg, history, frames[j], raws[j], base + j);
        assert Matched(cfg, history, frames[j], raws[j], base + j);
        assert history.loans[base + j].End() <= history.loans[base + k].at;
      }
    }
  }

  /** Where the `n` slices handed out after the first `base` came from. */
  function PlacesOf(loans: seq<Loan>, base: nat, n: nat): (places: seq<nat>)
    requires base + n <= |loans|
    ensures |places| == n && forall k :: 0 <= k < n ==> places[k] == loans[base + k].at
  {
    if n == 0 then [] else PlacesOf(loans, base, n - 1) + [loans[base + n - 1].at]
  }

  lemma LoanLength(cfg: Config, h: History, frame: Frame, raw: seq<byte>, at: nat)
    requires Matched(cfg, h, frame, raw, at)
    ensures h.loans[at].End() == h.loans[at].at + |raw|
  {
  }

  /** `raws` are substrings of the stream at `places`, one after another without overlap. */
  ghost predicate InOrder(raws: seq<seq<byte>>, places: seq<nat>, stream: seq<byte>) {
    && |places| == |raws|
    && (forall k :: 0 <= k < |raws| ==> ReadsAt(stream, places[k], raws[k]))
    && (forall j, k :: 0 <= j < k < |raws| ==> places[j] + |raws[j]| <= places[k])
  }

  lemma InOrderLonger(raws: seq<seq<byte>>, places: seq<nat>, stream: seq<byte>, more: seq<byte>)
    requires InOrder(raws, places, stream)
    ensures InOrder(raws, places, stream + more)
  {
    forall k | 0 <= k < |raws| ensures ReadsAt(stream + more, places[k], raws[k]) {
      SliceTake(stream + more, |stream|, places[k], places[k] + |raws[k]|);
      assert (stream + more)[..|stream|] == stream;
    }
  }

  /**
   A monitor on a device: a new reader drained to its end. Whatever is read and
   however often the guard fires, the frames are well formed and within its
   bound, and stand in the input one after another without overlap, at
   `places`. If reads only ever end in end of file and no frame is unfinished
   within one read of the guard, they are the frames of the one-pass automaton
   over the whole stream, numbered from 1, whatever the chunks; and all of them
   are still intact.
   */
  method Monitor(mode: Mode, sof: byte, eof: byte, maxFrameSize: int, script: seq<Read>)
    returns (reader: FrameReader, frames: seq<Frame>, status: Status, ghost places: seq<nat>)
    requires ValidScript(script)
    ensures reader.Valid() && InSequence(frames, 0)
    ensures var raws := Drain(reader.cfg, [], script).raws;
            && |frames| == |raws| && InOrder(raws, places, Concat(script))
            && (forall k :: 0 <= k < |frames| ==> reader.Delivers(frames[k], raws[k]))
    ensures forall k :: 0 <= k < |frames| ==>
              InRange(frames[k].raw) && WellFormed(reader.cfg, Shown(frames[k].raw)) &&
               |Shown(frames[k].raw)| <= Bound(reader.cfg)
    ensures Clean(script) && ShortFrames(reader.cfg, Concat(script)) ==>
              var raws := Raws(reader.cfg, Start(reader.cfg), Concat(script));
              && status.Eof? && |frames| == |raws|
              && (forall k :: 0 <= k < |frames| ==> reader.Delivers(frames[k], raws[k]))
  {
    hide ShortFrames;
    hide Drain;
    hide Raws;
    hide InSequence;
    hide InOrder;
    reader := new FrameReader(mode, sof, eof, maxFrameSize, script);
    ghost var cfg := reader.cfg;
    StartReading(script);
    frames, status := reader.DrainAll();
    DrainBounded(cfg, [], script);
    places := PlacesIn(reader, frames, Drain(cfg, [], script).raws, Concat(script));
    if Clean(script) && ShortFrames(cfg, Concat(script)) {
      ShortStreaming(cfg, script);
    }
  }

  lemma StartReading(script: seq<Read>)
    ensures Reading(History([], []), script, Concat(script))
  {
    Neutral(Concat(script));
  }

  lemma PlacesIn(reader: FrameReader, frames: seq<Frame>, raws: seq<seq<byte>>, input: seq<byte>)
    returns (places: seq<nat>)
    requires reader.Valid() && Recorded(reader.cfg, reader.history, frames, raws, 0)
    requires Reading(reader.history, reader.script, input)
    ensures InOrder(raws, places, input)
  {
    places := reader.RecordedInOrder(frames, raws, 0);
    InOrderLonger(raws, places, reader.history.stream, Concat(reader.script));
  }

  lemma AtFirst(cfg: Config, h: History, d: Drained, start: nat)
    ensures Recorded(cfg, h, [], [], |h.loans|) && Taken(d, [], d) && InSequence([], start)
  {
  }

  /** Of everything `d` drains, `taken` are done and `left` remain. */
  ghost predicate Taken(d: Drained, taken: seq<seq<byte>>, left: Drained) {
    match left
    case Drained(raws, status) => d.raws == taken + raws && d.status == status
  }

  lemma TakeOne(d: Drained, taken: seq<seq<byte>>, left: Drained)
    requires Taken(d, taken, left) && left.raws != []
    ensures Taken(d, taken + [left.raws[0]], Drained(left.raws[1..], left.status))
  {
    assert left.raws == [left.raws[0]] + left.raws[1..];
    Assoc(taken, [left.raws[0]], left.raws[1..]);
  }

  lemma TakenAll(d: Drained, taken: seq<seq<byte>>, left: Drained)
    requires Taken(d, taken, left) && left.raws == []
    ensures d.raws == taken && d.status == left.status
  {
  }

  /** Numbered on from `start`, at 32 bits. */
  ghost predicate InSequence(frames: seq<Frame>, start: nat) {
    forall k :: 0 <= k < |frames| ==> frames[k].seqNum == (start + k + 1) % U32
  }

  lemma NextInSequence(frames: seq<Frame>, next: Frame, start: nat)
    requires InSequence(frames, start) && next.seqNum == ((start + |frames|) % U32 + 1) % U32
    ensures InSequence(frames + [next], start) && next.seqNum == (start + |frames + [next]|) % U32
  {
  }

  /** Frame `k` of `frames` is loan `base + k`, taken from where the stream reads `raws[k]`. */
  ghost predicate Recorded(cfg: Config, h: History, frames: seq<Frame>, raws: seq<seq<byte>>, base: nat) {
    match h
    case History(stream, loans) =>
      && |frames| == |raws| && |loans| == base + |frames|
      && (forall k :: 0 <= k < |frames| ==> Matched(cfg, h, frames[k], raws[k], base + k))
  }

  ghost predicate Matched(cfg: Config, h: History, frame: Frame, raw: seq<byte>, at: nat) {
    && at < |h.loans| && h.loans[at].slice == frame.raw
    && Shaped(cfg, frame, raw)
    && ReadsAt(h.stream, h.loans[at].at, raw)
  }

  lemma Extended(cfg: Config, a: History, b: History, frames: seq<Frame>, raws: seq<seq<byte>>, base: nat,
                 frame: Frame, raw: seq<byte>, l: Loan)
    requires Recorded(cfg, a, frames, raws, base)
    requires a.stream <= b.stream && b.loans == a.loans + [l]
    requires l.slice == frame.raw && Shaped(cfg, frame, raw) && ReadsAt(b.stream, l.at, raw)
    ensures Recorded(cfg, b, frames + [frame], raws + [raw], base)
  {
    hide Shaped;
    forall k | 0 <= k < |frames| ensures Matched(cfg, b, frames[k], raws[k], base + k) {
      assert Matched(cfg, a, frames[k], raws[k], base + k);
    }
  }

  lemma StillRecorded(cfg: Config, a: History, b: History, frames: seq<Frame>, raws: seq<seq<byte>>, base: nat)
    requires Recorded(cfg, a, frames, raws, base) && a.stream <= b.stream && b.loans == a.loans
    ensures Recorded(cfg, b, frames, raws, base)
  {
    hide Shaped;
    forall k | 0 <= k < |frames| ensures Matched(cfg, b, frames[k], raws[k], base + k) {
      assert Matched(cfg, a, frames[k], raws[k], base + k);
    }
  }

  /** `bytes` stand at position `at` of the stream. */
  ghost predicate ReadsAt(stream: seq<byte>, at: nat, bytes: seq<byte>) {
    at + |bytes| <= |stream| && stream[at..at + |bytes|] == bytes
  }

  lemma LinePayload(cfg: Config, buf: seq<byte>, idx: nat, end: nat)
    requires cfg.mode.Newline? && end <= idx < |buf| && buf[0..end] == TrimCR(buf[..idx])
    ensures buf[..idx + 1][0..end] == Payload(cfg, buf[..idx + 1])
  {
    assert buf[..idx + 1][0..end] == buf[0..end];
    assert buf[..idx + 1][..idx] == buf[..idx];
  }

  lemma SyncPayload(cfg: Config, buf: seq<byte>, n: nat)
    requires cfg.mode.SyncByte? && 2 <= n <= |buf|
    ensures buf[..n][1..n - 1] == Payload(cfg, buf[..n])
  {
  }

  lemma Transitive(a: seq<byte>, b: seq<byte>, c: seq<byte>)
    requires a <= b <= c
    ensures a <= c
  {
  }

  /** Writing `data` at `hi` keeps what precedes `lo` and extends the window. */
  lemma Written(a: seq<byte>, b: seq<byte>, lo: nat, hi: nat, data: seq<byte>)
    requires lo <= hi && hi + |data| <= |a| == |b|
    requires b[..hi] == a[..hi] && b[hi..hi + |data|] == data
    ensures b[..lo] == a[..lo]
    ensures b[lo..hi + |data|] == a[lo..hi] + data
  {
    assert b[..hi][..lo] == b[..lo] && a[..hi][..lo] == a[..lo];
    assert b[lo..hi] == b[..hi][lo..hi] && a[lo..hi] == a[..hi][lo..hi];
    assert b[lo..hi + |data|] == b[lo..hi] + b[hi..hi + |data|];
  }

  lemma Within(a: seq<byte>, b: seq<byte>, lo: nat, from: nat, to: nat)
    requires from <= to <= lo <= |a| == |b| && a[..lo] == b[..lo]
    ensures a[from..to] == b[from..to]
  {
    assert a[from..to] == a[..lo][from..to] && b[from..to] == b[..lo][from..to];
  }

  lemma Dropping(s: seq<byte>, lo: nat, n: nat)
    requires lo + n <= |s|
    ensures s[lo..][n..] == s[lo + n..]
  {
  }

  lemma Slicing(s: seq<byte>, lo: nat, hi: nat, p: nat, q: nat)
    requires lo <= hi <= |s| && p <= q <= hi - lo
    ensures s[lo..hi][p..q] == s[lo + p..lo + q]
    ensures p == 0 ==> s[lo..hi][..q] == s[lo..lo + q]
  {
    var a, b := s[lo..hi][p..q], s[lo + p..lo + q];
    forall k | 0 <= k < |a| ensures a[k] == b[k] {
    }
  }
}
