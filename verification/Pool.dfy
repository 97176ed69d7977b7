/** The constant pool of internal/binary/flx/pool.go. Floats stay raw 64-bit patterns. */
module Pool {
  import opened Prelude
  import opened Bytes
  import opened Streams

  datatype Value = Null | Int(n: int) | Float(bits: nat) | Str(s: seq<byte>) | Symbol(s: seq<byte>) | Bool(b: bool)

  datatype Constant = Constant(index: nat, value: Value)

  /** The entry of a slot that was never decoded: Go's zero value. */
  const BLANK := Constant(0, Null)

  datatype ConstantPool = ConstantPool(entries: seq<Constant>)

  datatype Problem = NoTag(cut: Cut) | NoInt(cut: Cut) | NoFloat(cut: Cut) | NoLength(cut: Cut) | NoBytes(cut: Cut)
                   | NoBool(cut: Cut) | BadTag(tag: byte)

  /** Which constant could not be read, and why. */
  datatype Error = Error(index: nat, problem: Problem)

  /** The entry at `idx`, or nothing out of bounds. */
  function Get(pool: ConstantPool, idx: int): (c: Option<Constant>)
    ensures c.Some? <==> 0 <= idx < |pool.entries|
    ensures c.Some? ==> c.value == pool.entries[idx]
  {
    if idx < 0 || idx >= |pool.entries| then None else Some(pool.entries[idx])
  }

  // Decoding

  function Signed64(n: nat): int {
    if n < 0x8000_0000_0000_0000 then n else n - U64
  }

  datatype Decoded = Decoded(value: Value, rest: seq<byte>) | Bad(problem: Problem)

  /** A 32-bit length and that many bytes. */
  function DecodeText(s: seq<byte>, symbol: bool): (d: Decoded)
    ensures d.Decoded? ==> |d.rest| <= |s|
  {
    var head := ReadIn(s, 4);
    if head.Short? then Bad(NoLength(head.cut))
    else
      var n, after := Dec(Little, head.bytes), From(s, 4);
      var body := ReadIn(after, n);
      if body.Short? then Bad(NoBytes(body.cut))
      else Decoded(if symbol then Symbol(body.bytes) else Str(body.bytes), From(after, n))
  }

  /** The value after a tag. */
  function DecodeBody(tag: byte, s: seq<byte>): (d: Decoded)
    ensures d.Decoded? ==> |d.rest| <= |s|
  {
    if tag == 0 then Decoded(Null, s)
    else if tag == 1 then
      var c := ReadIn(s, 8);
      if c.Short? then Bad(NoInt(c.cut)) else Decoded(Int(Signed64(Dec(Little, c.bytes))), From(s, 8))
    else if tag == 2 then
      var c := ReadIn(s, 8);
      if c.Short? then Bad(NoFloat(c.cut)) else Decoded(Float(Dec(Little, c.bytes)), From(s, 8))
    else if tag == 3 || tag == 4 then DecodeText(s, tag == 4)
    else if tag == 5 then
      var c := ReadIn(s, 1);
      if c.Short? then Bad(NoBool(c.cut)) else Decoded(Bool(c.bytes[0] != 0), From(s, 1))
    else Bad(BadTag(tag))
  }

  function DecodeValue(s: seq<byte>): (d: Decoded)
    ensures d.Decoded? ==> |d.rest| < |s|
  {
    var c := ReadIn(s, 1);
    if c.Short? then Bad(NoTag(c.cut)) else DecodeBody(c.bytes[0], From(s, 1))
  }

  /** The values read, what is then unread, and the error that ended the reading early. */
  datatype Values = Values(values: seq<Value>, rest: seq<byte>, error: Option<Error>)

  /** Up to `count` values from `s`, the first of which is constant number `i`. */
  function DecodeValues(s: seq<byte>, i: nat, count: nat): (d: Values)
    ensures |d.values| <= count
    ensures d.error.None? ==> |d.values| == count
    decreases count
  {
    if count == 0 then Values([], s, None)
    else match DecodeValue(s)
      case Bad(problem) => Values([], [], Some(Error(i, problem)))
      case Decoded(v, rest) =>
        var d := DecodeValues(rest, i + 1, count - 1);
        Values([v] + d.values, d.rest, d.error)
  }

  /** A pool of `count` slots, the first ones holding `values`. */
  function PoolOf(values: seq<Value>, count: nat): (p: ConstantPool)
    requires |values| <= count
    ensures |p.entries| == count
    ensures forall k :: 0 <= k < count ==> p.entries[k] == if k < |values| then Constant(k, values[k]) else BLANK
  {
    ConstantPool(seq(count, k requires 0 <= k < count => if k < |values| then Constant(k, values[k]) else BLANK))
  }

  datatype ReadResult = Value(value: Value) | Failed(problem: Problem)

  /** The value of one constant, read field by field. */
  method ReadValue(r: ByteReader) returns (v: ReadResult)
    modifies r
    ensures match DecodeValue(old(r.Rest()))
            case Decoded(value, rest) => v == ReadResult.Value(value) && r.Rest() == rest
            case Bad(problem) => v == Failed(problem)
  {
    hide From;
    var tag := r.ReadFull(1);
    if tag.Short? {
      return Failed(NoTag(tag.cut));
    }
    var t := tag.bytes[0];
    if t == 0 {
      return ReadResult.Value(Null);
    } else if t == 1 || t == 2 {
      var c := r.ReadFull(8);
      if c.Short? {
        return Failed(if t == 1 then NoInt(c.cut) else NoFloat(c.cut));
      }
      var bits := Dec(Little, c.bytes);
      return ReadResult.Value(if t == 1 then Int(Signed64(bits)) else Float(bits));
    } else if t == 3 || t == 4 {
      var head := r.ReadFull(4);
      if head.Short? {
        return Failed(NoLength(head.cut));
      }
      var body := r.ReadFull(Dec(Little, head.bytes));
      if body.Short? {
        return Failed(NoBytes(body.cut));
      }
      return ReadResult.Value(if t == 3 then Str(body.bytes) else Symbol(body.bytes));
    } else if t == 5 {
      var c := r.ReadFull(1);
      if c.Short? {
        return Failed(NoBool(c.cut));
      }
      return ReadResult.Value(Bool(c.bytes[0] != 0));
    } else {
      return Failed(BadTag(t));
    }
  }

  lemma Fill(done: seq<Value>, count: nat, v: Value)
    requires |done| < count
    ensures PoolOf(done, count).entries[|done| := Constant(|done|, v)] == PoolOf(done + [v], count).entries
  {
  }

  lemma Start(count: nat)
    ensures PoolOf([], count).entries == seq(count, _ => BLANK)
  {
  }

  /** All of `d` is `done` and then `left`. */
  ghost predicate Continues(d: Values, done: seq<Value>, left: Values) {
    match left
    case Values(values, rest, error) => d == Values(done + values, rest, error)
  }

  lemma Step(d: Values, done: seq<Value>, left: Values, v: Value, more: Values)
    requires Continues(d, done, left) && left == Values([v] + more.values, more.rest, more.error)
    ensures Continues(d, done + [v], more)
  {
    Assoc(done, [v], more.values);
  }

  /** `DecodePool`: slots are filled in order; after an error the remaining ones stay blank. */
  method DecodePool(r: ByteReader, count: nat) returns (pool: ConstantPool, error: Option<Error>)
    modifies r
    ensures var d := DecodeValues(old(r.Rest()), 0, count);
            && pool == PoolOf(d.values, count) && error == d.error
            && (error.None? ==> r.Rest() == d.rest)
  {
    hide DecodeValue;
    hide PoolOf;
    ghost var d := DecodeValues(r.Rest(), 0, count);
    ghost var done: seq<Value> := [];
    var entries := seq(count, _ => BLANK);
    Start(count);
    var i := 0;
    while i < count
      invariant i == |done| <= count && entries == PoolOf(done, count).entries
      invariant Continues(d, done, DecodeValues(r.Rest(), i, count - i))
    {
      ghost var left := DecodeValues(r.Rest(), i, count - i);
      var v := ReadValue(r);
      if v.Failed? {
        pool, error := ConstantPool(entries), Some(Error(i, v.problem));
        return;
      }
      Fill(done, count, v.value);
      Step(d, done, left, v.value, DecodeValues(r.Rest(), i + 1, count - i - 1));
      entries := entries[i := Constant(i, v.value)];
      done := done + [v.value];
      i := i + 1;
    }
    pool, error := ConstantPool(entries), None;
  }

  // Encoding

  function TagOf(v: Value): byte {
    match v
    case Null => 0
    case Int(_) => 1
    case Float(_) => 2
    case Str(_) => 3
    case Symbol(_) => 4
    case Bool(_) => 5
  }

  function Payload(v: Value): seq<byte> {
    match v
    case Null => []
    case Int(n) => Enc(Little, n % U64, 8)
    case Float(bits) => Enc(Little, bits, 8)
    case Str(s) => Enc(Little, |s|, 4) + s
    case Symbol(s) => Enc(Little, |s|, 4) + s
    case Bool(b) => [if b then 1 else 0]
  }

  /** A value as its tag and payload lay it out. */
  function EncodeValue(v: Value): (b: seq<byte>)
    ensures b != []
  {
    [TagOf(v)] + Payload(v)
  }

  /** Within the widths of the format: 64-bit numbers and 32-bit lengths. */
  predicate Encodable(v: Value) {
    match v
    case Null => true
    case Int(n) => -0x8000_0000_0000_0000 <= n < 0x8000_0000_0000_0000
    case Float(bits) => bits < U64
    case Str(s) => |s| < U32
    case Symbol(s) => |s| < U32
    case Bool(_) => true
  }

  function EncodeValues(vs: seq<Value>): seq<byte> {
    if vs == [] then [] else EncodeValue(vs[0]) + EncodeValues(vs[1..])
  }

  lemma DecodeNumber(n: nat, k: nat, tail: seq<byte>)
    requires n < Pow256(k)
    ensures ReadIn(Enc(Little, n, k) + tail, k) == Full(Enc(Little, n, k))
    ensures From(Enc(Little, n, k) + tail, k) == tail
    ensures Dec(Little, Enc(Little, n, k)) == n
  {
    DecEnc(Little, n, k);
    ReadAppend(Enc(Little, n, k), tail);
  }

  lemma DecodeTextEncoded(s: seq<byte>, symbol: bool, tail: seq<byte>)
    requires |s| < U32
    ensures DecodeText(Enc(Little, |s|, 4) + (s + tail), symbol) == Decoded(if symbol then Symbol(s) else Str(s), tail)
  {
    Pow256Values();
    hide Pow256;
    DecodeNumber(|s|, 4, s + tail);
    ReadAppend(s, tail);
    hide ReadIn;
    hide From;
  }

  lemma DecodePayload(v: Value, tail: seq<byte>)
    requires Encodable(v)
    ensures DecodeBody(TagOf(v), Payload(v) + tail) == Decoded(v, tail)
  {
    if v.Int? || v.Float? {
      DecodeWide(v, tail);
    } else if v.Str? || v.Symbol? {
      DecodeString(v, tail);
    } else if v.Bool? {
      ReadAppend([if v.b then 1 else 0], tail);
    } else {
      assert [] + tail == tail;
    }
  }

  lemma DecodeWide(v: Value, tail: seq<byte>)
    requires Encodable(v) && (v.Int? || v.Float?)
    ensures DecodeBody(TagOf(v), Payload(v) + tail) == Decoded(v, tail)
  {
    var n := if v.Int? then v.n % U64 else v.bits;
    assert n < Pow256(8) by {
      Pow256Values();
    }
    DecodeNumber(n, 8, tail);
    hide *;
    BodyWide(v, n, tail);
  }

  lemma BodyWide(v: Value, n: nat, tail: seq<byte>)
    requires Encodable(v) && (v.Int? || v.Float?) && n == if v.Int? then v.n % U64 else v.bits
    requires ReadIn(Enc(Little, n, 8) + tail, 8) == Full(Enc(Little, n, 8))
    requires 8 <= |Enc(Little, n, 8) + tail| && From(Enc(Little, n, 8) + tail, 8) == tail
    requires Dec(Little, Enc(Little, n, 8)) == n
    ensures DecodeBody(TagOf(v), Payload(v) + tail) == Decoded(v, tail)
  {
    hide ReadIn;
    hide From;
    hide Enc;
    hide Dec;
  }

  lemma DecodeString(v: Value, tail: seq<byte>)
    requires Encodable(v) && (v.Str? || v.Symbol?)
    ensures DecodeBody(TagOf(v), Payload(v) + tail) == Decoded(v, tail)
  {
    var n := Enc(Little, |v.s|, 4);
    DecodeTextEncoded(v.s, v.Symbol?, tail);
    assert Payload(v) == n + v.s;
    hide Enc;
    hide Payload;
    hide DecodeText;
    Assoc(n, v.s, tail);
  }

  /** An encoded value decodes to itself and leaves what follows it unread. */
  lemma DecodeEncoded(v: Value, tail: seq<byte>)
    requires Encodable(v)
    ensures DecodeValue(EncodeValue(v) + tail) == Decoded(v, tail)
  {
    var tag: seq<byte> := [TagOf(v)];
    ReadAppend(tag, Payload(v) + tail);
    assert EncodeValue(v) + tail == tag + (Payload(v) + tail);
    DecodePayload(v, tail);
    hide ReadIn;
    hide From;
    hide DecodeBody;
    hide Payload;
  }

  /**
   Pool round trip: any encodable values come back in order whatever follows
   them, and exactly their encoding is consumed.
   */
  lemma {:induction false} PoolRoundTrip(vs: seq<Value>, i: nat, tail: seq<byte>)
    requires forall v :: v in vs ==> Encodable(v)
    ensures DecodeValues(EncodeValues(vs) + tail, i, |vs|) == Values(vs, tail, None)
  {
    hide DecodeValue;
    hide EncodeValue;
    hide Encodable;
    if vs == [] {
      assert EncodeValues(vs) + tail == tail;
    } else {
      var more := EncodeValues(vs[1..]) + tail;
      Assoc(EncodeValue(vs[0]), EncodeValues(vs[1..]), tail);
      assert EncodeValues(vs) + tail == EncodeValue(vs[0]) + more;
      hide EncodeValues;
      DecodeEncoded(vs[0], more);
      PoolRoundTrip(vs[1..], i + 1, tail);
      assert vs == [vs[0]] + vs[1..];
    }
  }

  /** Decoding only ever consumes an encoding's worth of bytes, whatever the bytes are. */
  lemma DecodeConsumes(s: seq<byte>)
    requires DecodeValue(s).Decoded?
    ensures var d := DecodeValue(s);
            Encodable(d.value) && |s| == |EncodeValue(d.value)| + |d.rest|
  {
    var after := From(s, 1);
    Pow256Values();
    if |after| >= 8 {
      EncDec(Little, after[..8]);
    }
    if |after| >= 4 {
      EncDec(Little, after[..4]);
    }
    hide Pow256;
    hide Dec;
    hide Enc;
  }

  /** The payload byte of a boolean constant at the start of `s`, when that is what stands there. */
  function BoolByte(s: seq<byte>): seq<byte> {
    if |s| >= 2 && s[0] == 5 then [s[1]] else []
  }

  /** Of the first `count` constants, the bytes that booleans are read from, in order. */
  function BoolBytes(s: seq<byte>, count: nat): seq<byte>
    decreases count
  {
    if count == 0 || DecodeValue(s).Bad? then []
    else BoolByte(s) + BoolBytes(DecodeValue(s).rest, count - 1)
  }

  /** Zero or one: the bytes that stand for booleans when encoded. */
  predicate Canonical(bools: seq<byte>) {
    forall i :: 0 <= i < |bools| ==> bools[i] <= 1
  }

  lemma NumberConsumed(s: seq<byte>, k: nat)
    requires k <= |s|
    ensures Enc(Little, Dec(Little, s[..k]), k) + From(s, k) == s
    ensures Dec(Little, s[..k]) < Pow256(k)
  {
    EncDec(Little, s[..k]);
    Halves(s, k);
    hide From;
    hide Enc;
    hide Dec;
    hide Pow256;
  }

  lemma Halves(s: seq<byte>, k: nat)
    requires k <= |s|
    ensures s[..k] + From(s, k) == s
  {
  }

  lemma TextExact(s: seq<byte>, symbol: bool)
    requires DecodeText(s, symbol).Decoded?
    ensures var d := DecodeText(s, symbol);
            && (if symbol then d.value.Symbol? else d.value.Str?)
            && Payload(d.value) + d.rest == s
  {
    NumberConsumed(s, 4);
    hide Dec;
    hide Enc;
    hide From;
    hide Pow256;
    var n, after := Dec(Little, s[..4]), From(s, 4);
    Halves(after, n);
    Assoc(Enc(Little, n, 4), after[..n], From(after, n));
    var d := DecodeText(s, symbol);
    assert d.rest == From(after, n) && d.value == if symbol then Symbol(after[..n]) else Str(after[..n]);
    assert Payload(d.value) == Enc(Little, n, 4) + after[..n];
    hide ReadIn;
    hide DecodeText;
    hide Payload;
  }

  lemma WideExact(s: seq<byte>)
    requires |s| >= 8
    ensures Payload(Int(Signed64(Dec(Little, s[..8])))) + From(s, 8) == s
    ensures Payload(Float(Dec(Little, s[..8]))) + From(s, 8) == s
  {
    NumberConsumed(s, 8);
    Pow256Values();
    var n := Dec(Little, s[..8]);
    hide *;
    SignedBack(n);
    IntPayload(n);
  }

  lemma SignedBack(n: nat)
    requires n < U64
    ensures Signed64(n) % U64 == n
  {
  }

  lemma IntPayload(n: nat)
    requires Signed64(n) % U64 == n
    ensures Payload(Int(Signed64(n))) == Payload(Float(n)) == Enc(Little, n, 8)
  {
    hide Enc;
    hide Signed64;
  }

  /** Encoding what was decoded gives the bytes back, unless a boolean was written as neither 0 nor 1. */
  lemma BodyExact(tag: byte, s: seq<byte>)
    requires DecodeBody(tag, s).Decoded?
    ensures var d := DecodeBody(tag, s);
            && TagOf(d.value) == tag
            && (Payload(d.value) + d.rest == s <==> (tag == 5 ==> s[0] <= 1))
  {
    if tag == 1 || tag == 2 {
      WideExact(s);
    } else if tag == 3 || tag == 4 {
      TextExact(s, tag == 4);
    } else if tag == 5 {
      assert s == [s[0]] + From(s, 1);
    }
    hide Dec;
    hide Enc;
    hide DecodeText;
  }

  /** Two sequences that start with equally long parts are equal part by part. */
  lemma SplitEqual(a: seq<byte>, x: seq<byte>, b: seq<byte>, y: seq<byte>)
    requires |a| == |b|
    ensures a + x == b + y <==> a == b && x == y
  {
    if a + x == b + y {
      assert a == (a + x)[..|a|] && b == (b + y)[..|b|];
      assert x == (a + x)[|a|..] && y == (b + y)[|b|..];
    }
  }

  lemma TagByte(s: seq<byte>)
    requires DecodeValue(s).Decoded?
    ensures s == [s[0]] + From(s, 1)
    ensures Canonical(BoolByte(s)) <==> (s[0] == 5 ==> From(s, 1)[0] <= 1)
  {
    var after := From(s, 1);
    if s[0] == 5 {
      assert after != [];
      assert BoolByte(s) == [after[0]] && BoolByte(s)[0] == after[0];
    }
    hide Dec;
  }

  lemma ValueExact(s: seq<byte>)
    requires DecodeValue(s).Decoded?
    ensures var d := DecodeValue(s);
            EncodeValue(d.value) + d.rest == s <==> Canonical(BoolByte(s))
  {
    var d, tag, after := DecodeValue(s), s[0], From(s, 1);
    assert DecodeBody(tag, after) == d;
    BodyExact(tag, after);
    TagByte(s);
    var payload, rest := Payload(d.value), d.rest;
    assert EncodeValue(d.value) == [tag] + payload;
    hide *;
    Assoc([tag], payload, rest);
    SplitEqual([tag], payload + rest, [tag], after);
  }

  /** What is left unread is the end of the input. */
  lemma RestIsSuffix(s: seq<byte>)
    requires DecodeValue(s).Decoded?
    ensures var rest := DecodeValue(s).rest;
            |rest| <= |s| && s[|s| - |rest|..] == rest
  {
    var after := From(s, 1);
    if |after| >= 4 {
      var n, text := Dec(Little, ReadIn(after, 4).bytes), From(after, 4);
      assert n <= |text| ==> From(text, n) == s[5 + n..];
    }
    hide Dec;
  }

  /** One value and the ones after it are encoded as they stood if and only if each is. */
  lemma StepExact(s: seq<byte>, v: Value, r0: seq<byte>, rest: seq<byte>, more: seq<byte>)
    requires |r0| <= |s| && s[|s| - |r0|..] == r0 && |EncodeValue(v)| == |s| - |r0|
    requires |more| + |rest| == |r0|
    ensures (EncodeValue(v) + more) + rest == s <==> EncodeValue(v) + r0 == s && more + rest == r0
  {
    hide EncodeValue;
    var n := |s| - |r0|;
    assert s == s[..n] + r0;
    Assoc(EncodeValue(v), more, rest);
    SplitEqual(EncodeValue(v), more + rest, s[..n], r0);
    SplitEqual(EncodeValue(v), r0, s[..n], r0);
  }

  /**
   The same for a whole pool. Without an error as many bytes have been read as
   the values encode to; and they are that encoding, so that encoding again
   what was read gives the bytes back, if and only if every boolean stood there
   as 0 or 1, because any other byte reads as true.
   */
  lemma {:induction false} PoolConsumes(s: seq<byte>, i: nat, count: nat)
    requires DecodeValues(s, i, count).error.None?
    ensures var d := DecodeValues(s, i, count);
            && |s| == |EncodeValues(d.values)| + |d.rest|
            && (EncodeValues(d.values) + d.rest == s <==> Canonical(BoolBytes(s, count)))
    decreases count
  {
    hide DecodeValue;
    hide EncodeValue;
    hide Encodable;
    hide BoolByte;
    if count > 0 {
      var v, r0 := DecodeValue(s).value, DecodeValue(s).rest;
      DecodeConsumes(s);
      ValueExact(s);
      RestIsSuffix(s);
      PoolConsumes(r0, i + 1, count - 1);
      var d := DecodeValues(r0, i + 1, count - 1);
      StepExact(s, v, r0, d.rest, EncodeValues(d.values));
      BothCanonical(BoolByte(s), BoolBytes(r0, count - 1));
    }
  }

  lemma BothCanonical(a: seq<byte>, b: seq<byte>)
    ensures Canonical(a + b) <==> Canonical(a) && Canonical(b)
  {
    if Canonical(a + b) {
      forall k | 0 <= k < |b| ensures b[k] <= 1 {
        assert (a + b)[|a| + k] == b[k];
      }
      forall k | 0 <= k < |a| ensures a[k] <= 1 {
        assert (a + b)[k] == a[k];
      }
    }
  }

  /** A boolean stored as 2 reads as true, which is encoded as 1. */
  lemma OtherTrue(i: nat)
    ensures DecodeValues([5, 2], i, 1) == Values([Bool(true)], [], None)
    ensures EncodeValues([Bool(true)]) == [5, 1] != [5, 2]
    ensures !Canonical(BoolBytes([5, 2], 1))
  {
    assert DecodeValue([5, 2]) == Decoded(Bool(true), []);
    assert EncodeValues([Bool(true)][1..]) == [];
    assert BoolBytes([5, 2], 1)[0] == 2;
  }

  // Byte by byte

  function CutAfter(have: nat): Cut {
    if have == 0 then AtEnd else Partway
  }

  /**
   What a constant is read from, tag by tag: nothing for null, eight bytes for
   numbers, a 32-bit length and that many bytes for texts, one byte for a
   boolean; any other tag is refused, and so is whatever ends too early.
   */
  lemma ValueExactly(s: seq<byte>)
    ensures s == [] ==> DecodeValue(s) == Bad(NoTag(AtEnd))
    ensures s != [] && s[0] > 5 ==> DecodeValue(s) == Bad(BadTag(s[0]))
    ensures s != [] && s[0] == 0 ==> DecodeValue(s) == Decoded(Null, s[1..])
    ensures s != [] && s[0] in {1, 2} ==>
              if |s| < 9 then
                DecodeValue(s) == Bad(if s[0] == 1 then NoInt(CutAfter(|s| - 1)) else NoFloat(CutAfter(|s| - 1)))
              else
                var d := DecodeValue(s);
                && d.Decoded? && d.rest == s[9..]
                && (s[0] == 2 ==> d.value == Float(Dec(Little, s[1..9])))
                && (s[0] == 1 ==>
                      && d.value.Int? && -0x8000_0000_0000_0000 <= d.value.n < 0x8000_0000_0000_0000
                      && (d.value.n - Dec(Little, s[1..9])) % U64 == 0)
    ensures s != [] && s[0] in {3, 4} ==>
              if |s| < 5 then DecodeValue(s) == Bad(NoLength(CutAfter(|s| - 1)))
              else
                var n := Dec(Little, s[1..5]);
                if 5 + n <= |s| then
                  DecodeValue(s) == Decoded(if s[0] == 3 then Str(s[5..5 + n]) else Symbol(s[5..5 + n]), s[5 + n..])
                else DecodeValue(s) == Bad(NoBytes(CutAfter(|s| - 5)))
    ensures s != [] && s[0] == 5 ==>
              DecodeValue(s) == if |s| == 1 then Bad(NoBool(AtEnd)) else Decoded(Bool(s[1] != 0), s[2..])
  {
    if s != [] {
      var after := From(s, 1);
      if s[0] in {1, 2} && |s| >= 9 {
        WideAt(s);
      } else if s[0] in {3, 4} && |s| >= 5 {
        TextAt(s);
      }
      hide Dec;
    }
  }

  lemma WideAt(s: seq<byte>)
    requires |s| >= 9
    ensures From(s, 1)[..8] == s[1..9] && From(From(s, 1), 8) == s[9..]
    ensures Dec(Little, s[1..9]) < U64
  {
    EncDec(Little, s[1..9]);
    Pow256Values();
    hide Dec;
    hide Enc;
  }

  lemma TextAt(s: seq<byte>)
    requires |s| >= 5
    ensures From(s, 1)[..4] == s[1..5] && From(From(s, 1), 4) == s[5..]
    ensures var n := Dec(Little, s[1..5]);
            5 + n <= |s| ==> s[5..][..n] == s[5..5 + n] && s[5..][n..] == s[5 + n..]
  {
    hide Dec;
  }

  /** What is missing when a constant is cut after `k` of its bytes. */
  function Missing(v: Value, k: nat): Problem
    requires k < |EncodeValue(v)|
  {
    if k == 0 then NoTag(AtEnd)
    else match v
      case Int(_) => NoInt(CutAfter(k - 1))
      case Float(_) => NoFloat(CutAfter(k - 1))
      case Str(_) => if k < 5 then NoLength(CutAfter(k - 1)) else NoBytes(CutAfter(k - 5))
      case Symbol(_) => if k < 5 then NoLength(CutAfter(k - 1)) else NoBytes(CutAfter(k - 5))
      case Bool(_) => NoBool(AtEnd)
      case Null => NoTag(AtEnd)
  }

  lemma LengthAt(v: Value, k: nat)
    requires (v.Str? || v.Symbol?) && 5 <= k < |EncodeValue(v)|
    ensures EncodeValue(v)[..k][1..5] == Enc(Little, |v.s|, 4)
  {
    var n := Enc(Little, |v.s|, 4);
    var tag: seq<byte> := [TagOf(v)];
    assert EncodeValue(v) == tag + (n + v.s);
    hide Enc;
    hide EncodeValue;
    assert EncodeValue(v)[..k] == tag + (n + v.s[..k - 5]);
    Middle(tag, n, v.s[..k - 5]);
  }

  lemma ValueCut(v: Value, k: nat)
    requires Encodable(v) && k < |EncodeValue(v)|
    ensures DecodeValue(EncodeValue(v)[..k]) == Bad(Missing(v, k))
  {
    var s := EncodeValue(v)[..k];
    ValueExactly(s);
    if (v.Str? || v.Symbol?) && k >= 5 {
      LengthAt(v, k);
      Pow256Values();
      DecEnc(Little, |v.s|, 4);
    }
    hide Dec;
    hide Enc;
    hide DecodeValue;
    hide Pow256;
  }

  /** Which constant of an encoded pool is cut, and what of it is missing, when `k` bytes are there. */
  function CutAt(vs: seq<Value>, i: nat, k: nat): Error
    requires k < |EncodeValues(vs)|
    decreases vs
  {
    var n := |EncodeValue(vs[0])|;
    if k < n then Error(i, Missing(vs[0], k)) else CutAt(vs[1..], i + 1, k - n)
  }

  /** An encoded pool cut anywhere gives the constants before the cut and reports the one it goes through. */
  lemma {:induction false} PoolCut(vs: seq<Value>, i: nat, k: nat)
    requires forall v :: v in vs ==> Encodable(v)
    requires k < |EncodeValues(vs)|
    ensures var d := DecodeValues(EncodeValues(vs)[..k], i, |vs|);
            && d.error == Some(CutAt(vs, i, k))
            && d.values <= vs && i + |d.values| == CutAt(vs, i, k).index
    decreases vs
  {
    hide DecodeValue;
    hide EncodeValue;
    hide Encodable;
    hide Missing;
    var first, more := EncodeValue(vs[0]), EncodeValues(vs[1..]);
    var n := |first|;
    if k < n {
      assert EncodeValues(vs)[..k] == first[..k];
      ValueCut(vs[0], k);
    } else {
      var rest := more[..k - n];
      assert EncodeValues(vs)[..k] == first + rest;
      DecodeEncoded(vs[0], rest);
      PoolCut(vs[1..], i + 1, k - n);
      assert vs == [vs[0]] + vs[1..];
    }
  }
}
