/**
 The PCAP writer and reader of pkg/export/pcap.go (sections 4 and 5 of
 draft-ietf-opsawg-pcap). Files are byte sequences; `File` lays one out in
 either byte order and either timestamp resolution, `Decode` is what the
 reader makes of arbitrary bytes, and the classes below do the same work
 step by step.
 */
module Pcap {
  import opened Bytes
  import opened Clock
  import opened Streams

  datatype Packet = Packet(data: seq<byte>, ts: Time)

  datatype Resolution = Micro | Nano

  datatype Header = Header(magic: nat, major: nat, minor: nat, zone: int, sigFigs: nat, snapLen: nat, network: nat)

  datatype Error = BadHeader(cut: Cut) | BadMagic(magic: nat) | NoRecord(cut: Cut) | NoData(ts: Time, missing: Cut)

  datatype Next = Got(packet: Packet) | Stop(error: Error)

  const GLOBAL: seq<nat> := [4, 2, 2, 4, 4, 4, 4]
  const RECORD: seq<nat> := [4, 4, 4, 4]
  const GLOBAL_SIZE: nat := 24
  const RECORD_SIZE: nat := 16

  lemma Sizes()
    ensures Width(GLOBAL) == GLOBAL_SIZE && Width(RECORD) == RECORD_SIZE
  {
    assert GLOBAL[1..] == [2, 2, 4, 4, 4, 4];
    assert GLOBAL[1..][1..] == [2, 4, 4, 4, 4];
    assert GLOBAL[1..][1..][1..] == [4, 4, 4, 4] == RECORD;
    assert RECORD[1..][1..] == [4, 4];
    assert RECORD[1..][1..][1..] == [4];
  }

  // Layout

  function Magic(r: Resolution): nat {
    match r case Micro => 0xa1b2c3d4 case Nano => 0xa1b23c4d
  }

  function GlobalHeader(e: Endian, r: Resolution): (s: seq<byte>)
    ensures |s| == GLOBAL_SIZE
  {
    Sizes();
    EncFields(e, [Magic(r), 2, 4, 0, 0, 65535, 1], GLOBAL)
  }

  /** Sub-second part of a timestamp in the units of the file. */
  function Ticks(t: Time, r: Resolution): nat {
    match r case Micro => t.nsec / 1000 case Nano => t.nsec
  }

  /** A record header; seconds and lengths are cut to 32 bits, as `uint32(...)` cuts them. */
  function RecordHeader(e: Endian, r: Resolution, p: Packet): (s: seq<byte>)
    ensures |s| == RECORD_SIZE
  {
    Sizes();
    EncFields(e, [p.ts.sec % U32, Ticks(p.ts, r), |p.data| % U32, |p.data| % U32], RECORD)
  }

  function Record(e: Endian, r: Resolution, p: Packet): (s: seq<byte>)
    ensures |s| == RECORD_SIZE + |p.data|
  {
    RecordHeader(e, r, p) + p.data
  }

  function Records(e: Endian, r: Resolution, ps: seq<Packet>): seq<byte> {
    if ps == [] then [] else Record(e, r, ps[0]) + Records(e, r, ps[1..])
  }

  function File(e: Endian, r: Resolution, ps: seq<Packet>): seq<byte> {
    GlobalHeader(e, r) + Records(e, r, ps)
  }

  // Reading

  datatype Opened = Opened(header: Header, e: Endian, r: Resolution) | Refused(why: Error)

  function Signed32(n: nat): int {
    if n < 0x8000_0000 then n else n - U32
  }

  /** The magic number is always read little-endian; its value fixes byte order and resolution. */
  function OpenBytes(s: seq<byte>): Opened {
    Sizes();
    if |s| < 4 then Refused(BadHeader(Shortfall(|s|)))
    else
      var magic := Dec(Little, s[..4]);
      if magic !in {0xa1b2c3d4, 0xa1b23c4d, 0xd4c3b2a1, 0x4d3cb2a1} then Refused(BadMagic(magic))
      else if |s| < GLOBAL_SIZE then
        Refused(BadHeader(if |s| in {4, 6, 8, 12, 16, 20} then AtEnd else Partway))
      else
        var e := if magic in {0xd4c3b2a1, 0x4d3cb2a1} then Big else Little;
        var r := if magic in {0xa1b23c4d, 0x4d3cb2a1} then Nano else Micro;
        var v := DecFields(e, s[..GLOBAL_SIZE], GLOBAL);
        Opened(Header(magic, v[1], v[2], Signed32(v[3]), v[4], v[5], v[6]), e, r)
  }

  function TimeOf(r: Resolution, sec: nat, ticks: nat): Time {
    match r case Micro => Unix(sec, ticks * 1000) case Nano => Unix(sec, ticks)
  }

  /** One call of the reader on the unread bytes `s`: its result and what is then unread. */
  function NextIn(e: Endian, r: Resolution, s: seq<byte>): (res: (Next, seq<byte>))
    ensures |res.1| <= |s|
    ensures res.0.Got? ==> |res.1| + RECORD_SIZE <= |s|
  {
    Sizes();
    if |s| < RECORD_SIZE then (Stop(NoRecord(Shortfall(|s|))), [])
    else
      var v := DecFields(e, s[..RECORD_SIZE], RECORD);
      var ts := TimeOf(r, v[0], v[1]);
      var rest := s[RECORD_SIZE..];
      if |rest| < v[2] then (Stop(NoData(ts, Shortfall(|rest|))), [])
      else (Got(Packet(rest[..v[2]], ts)), rest[v[2]..])
  }

  datatype Decoded = Decoded(packets: seq<Packet>, end: Error)

  function DecodeRecords(e: Endian, r: Resolution, s: seq<byte>): Decoded
    decreases |s|
  {
    var (n, rest) := NextIn(e, r, s);
    match n
    case Stop(error) => Decoded([], error)
    case Got(p) =>
      var d := DecodeRecords(e, r, rest);
      Decoded([p] + d.packets, d.end)
  }

  function Decode(s: seq<byte>): Decoded {
    var o := OpenBytes(s);
    if o.Refused? then Decoded([], o.why) else DecodeRecords(o.e, o.r, s[GLOBAL_SIZE..])
  }

  // The same byte by byte

  /** An instant of `sec` whole seconds and a number of ticks, which may amount to more seconds. */
  function Moment(r: Resolution, sec: nat, ticks: nat): Time {
    match r
    case Micro => Time(sec + ticks / 1_000_000, ticks % 1_000_000 * 1000)
    case Nano => Time(sec + ticks / 1_000_000_000, ticks % 1_000_000_000)
  }

  lemma MomentIs(r: Resolution, sec: nat, ticks: nat)
    ensures TimeOf(r, sec, ticks) == Moment(r, sec, ticks)
  {
    if r.Micro? {
      Carry(ticks);
    }
  }

  lemma Carry(ticks: nat)
    ensures ticks * 1000 / 1_000_000_000 == ticks / 1_000_000
    ensures ticks * 1000 % 1_000_000_000 == ticks % 1_000_000 * 1000
  {
  }

  lemma RecordFields(e: Endian, s: seq<byte>)
    requires |s| >= RECORD_SIZE
    ensures Width(RECORD) == RECORD_SIZE
    ensures DecFields(e, s[..RECORD_SIZE], RECORD)
            == [Dec(e, s[0..4]), Dec(e, s[4..8]), Dec(e, s[8..12]), Dec(e, s[12..16])]
  {
    Sizes();
    var h := s[..RECORD_SIZE];
    forall i | 0 <= i < 4 ensures DecFields(e, h, RECORD)[i] == Dec(e, s[4 * i..4 * i + 4]) {
      FieldAt(e, h, RECORD, i);
      RecordOffsets(i);
      SliceTake(s, RECORD_SIZE, 4 * i, 4 * i + 4);
    }
  }

  lemma {:induction false} RecordOffsets(i: nat)
    requires i < 4
    ensures Width(RECORD[..i]) == 4 * i
  {
    if i > 0 {
      RecordOffsets(i - 1);
      WidthAppend(RECORD[..i - 1], RECORD[i - 1]);
      assert RECORD[..i] == RECORD[..i - 1] + [RECORD[i - 1]];
    }
  }

  /**
   What a call does with any bytes: it wants a 16-byte record header and then
   as many bytes as its third field, the captured length, says. The fourth, the
   length on the wire, plays no part. Seconds and ticks are the first two.
   */
  lemma NextExactly(e: Endian, r: Resolution, s: seq<byte>)
    ensures |s| < 16 ==> NextIn(e, r, s) == (Stop(NoRecord(if s == [] then AtEnd else Partway)), [])
    ensures |s| >= 16 ==>
              var n, time := Dec(e, s[8..12]), Moment(r, Dec(e, s[0..4]), Dec(e, s[4..8]));
              NextIn(e, r, s) ==
              if 16 + n <= |s| then (Got(Packet(s[16..16 + n], time)), s[16 + n..])
              else (Stop(NoData(time, if |s| == 16 then AtEnd else Partway)), [])
  {
    if |s| >= RECORD_SIZE {
      RecordFields(e, s);
      var v := DecFields(e, s[..RECORD_SIZE], RECORD);
      MomentIs(r, v[0], v[1]);
      hide Dec;
      hide DecFields;
      hide TimeOf;
      hide Moment;
      var rest := s[RECORD_SIZE..];
      if v[2] <= |rest| {
        assert rest[..v[2]] == s[16..16 + v[2]];
        assert rest[v[2]..] == s[16 + v[2]..];
      }
    }
  }

  /**
   What the global header is read from: a magic number, always little-endian,
   that fixes byte order and resolution, and the six other fields at their
   places in that order. Fewer than 24 bytes or another number are refused.
   */
  lemma OpenExactly(s: seq<byte>)
    ensures OpenBytes(s).Opened? <==>
            |s| >= 24 && Dec(Little, s[..4]) in {0xa1b2c3d4, 0xa1b23c4d, 0xd4c3b2a1, 0x4d3cb2a1}
    ensures |s| < 4 ==> OpenBytes(s) == Refused(BadHeader(if s == [] then AtEnd else Partway))
    ensures |s| >= 4 && Dec(Little, s[..4]) !in {0xa1b2c3d4, 0xa1b23c4d, 0xd4c3b2a1, 0x4d3cb2a1} ==>
              OpenBytes(s) == Refused(BadMagic(Dec(Little, s[..4])))
    ensures OpenBytes(s).Opened? ==>
              var magic, o := Dec(Little, s[..4]), OpenBytes(s);
              && (o.e == Big <==> magic in {0xd4c3b2a1, 0x4d3cb2a1})
              && (o.r == Nano <==> magic in {0xa1b23c4d, 0x4d3cb2a1})
              && o.header.magic == magic
              && o.header.major == Dec(o.e, s[4..6]) && o.header.minor == Dec(o.e, s[6..8])
              && (o.header.zone - Dec(o.e, s[8..12])) % U32 == 0 && -0x8000_0000 <= o.header.zone < 0x8000_0000
              && o.header.sigFigs == Dec(o.e, s[12..16]) && o.header.snapLen == Dec(o.e, s[16..20])
              && o.header.network == Dec(o.e, s[20..24])
  {
    Sizes();
    if OpenBytes(s).Opened? {
      var o := OpenBytes(s);
      GlobalFields(o.e, s);
      EncDec(o.e, s[8..12]);
      Pow256Values();
      hide Pow256;
      hide Dec;
      hide DecFields;
    }
  }

  // What a file can hold of a packet

  /** The packet a reader gets back: seconds cut to 32 bits, sub-seconds floored to the resolution. */
  function Stored(r: Resolution, p: Packet): Packet {
    var t := match r
      case Micro => Time(p.ts.sec % U32, p.ts.nsec / 1000 * 1000)
      case Nano => Time(p.ts.sec % U32, p.ts.nsec);
    p.(ts := t)
  }

  function StoredAll(r: Resolution, ps: seq<Packet>): (q: seq<Packet>)
    ensures |q| == |ps| && forall i :: 0 <= i < |ps| ==> q[i] == Stored(r, ps[i])
  {
    seq(|ps|, i requires 0 <= i < |ps| => Stored(r, ps[i]))
  }

  /** The packet with only its timestamp rounded down; nothing wrapped. */
  function Floored(r: Resolution, p: Packet): Packet {
    match r
    case Micro => p.(ts := Time(p.ts.sec, p.ts.nsec / 1000 * 1000))
    case Nano => p
  }

  function FlooredAll(r: Resolution, ps: seq<Packet>): (q: seq<Packet>)
    ensures |q| == |ps| && forall i :: 0 <= i < |ps| ==> q[i] == Floored(r, ps[i])
  {
    seq(|ps|, i requires 0 <= i < |ps| => Floored(r, ps[i]))
  }

  ghost predicate Seconds32(ps: seq<Packet>) {
    forall i :: 0 <= i < |ps| ==> 0 <= ps[i].ts.sec < U32
  }

  ghost predicate Lengths32(ps: seq<Packet>) {
    forall i :: 0 <= i < |ps| ==> |ps[i].data| < U32
  }

  // Round trips

  lemma NextInRecord(e: Endian, r: Resolution, p: Packet, rest: seq<byte>)
    requires |p.data| < U32
    ensures NextIn(e, r, Record(e, r, p) + rest) == (Got(Stored(r, p)), rest)
  {
    hide Enc;
    hide Dec;
    hide EncFields;
    hide DecFields;
    Sizes();
    Pow256Values();
    var vals: seq<nat> := [p.ts.sec % U32, Ticks(p.ts, r), |p.data| % U32, |p.data| % U32];
    assert Fits(vals, RECORD);
    DecEncFields(e, vals, RECORD);
    var s := Record(e, r, p) + rest;
    assert s[..RECORD_SIZE] == RecordHeader(e, r, p);
    assert s[RECORD_SIZE..] == p.data + rest;
    assert (p.data + rest)[..|p.data|] == p.data;
    assert (p.data + rest)[|p.data|..] == rest;
  }

  /** A record cut anywhere short of its end yields an error, never a packet. */
  lemma NextInCut(e: Endian, r: Resolution, p: Packet, k: nat)
    requires |p.data| < U32
    requires k < |Record(e, r, p)|
    ensures NextIn(e, r, Record(e, r, p)[..k]).0 ==
            Stop(if k < RECORD_SIZE then NoRecord(Shortfall(k))
                 else NoData(Stored(r, p).ts, Shortfall(k - RECORD_SIZE)))
  {
    hide Enc;
    hide Dec;
    hide EncFields;
    hide DecFields;
    if k >= RECORD_SIZE {
      Sizes();
      Pow256Values();
      var vals: seq<nat> := [p.ts.sec % U32, Ticks(p.ts, r), |p.data| % U32, |p.data| % U32];
      assert Fits(vals, RECORD);
      DecEncFields(e, vals, RECORD);
      assert Record(e, r, p)[..k][..RECORD_SIZE] == RecordHeader(e, r, p);
    }
  }

  lemma OpenFile(e: Endian, r: Resolution, rest: seq<byte>)
    ensures OpenBytes(GlobalHeader(e, r) + rest) ==
            Opened(Header(Dec(Little, Enc(e, Magic(r), 4)), 2, 4, 0, 0, 65535, 1), e, r)
  {
    hide Dec;
    hide DecFields;
    Sizes();
    var s := GlobalHeader(e, r) + rest;
    GlobalValues(e, r);
    assert s[..GLOBAL_SIZE] == GlobalHeader(e, r);
    MagicFirst(e, r, rest);
    MagicBytes(e, r);
    hide GlobalHeader;
    hide Enc;
  }

  lemma GlobalValues(e: Endian, r: Resolution)
    ensures |GlobalHeader(e, r)| == GLOBAL_SIZE
    ensures DecFields(e, GlobalHeader(e, r), GLOBAL) == [Magic(r), 2, 4, 0, 0, 65535, 1]
  {
    hide Dec;
    hide DecFields;
    Sizes();
    Pow256Values();
    var vals: seq<nat> := [Magic(r), 2, 4, 0, 0, 65535, 1];
    assert Fits(vals, GLOBAL);
    DecEncFields(e, vals, GLOBAL);
    hide EncFields;
  }

  lemma MagicFirst(e: Endian, r: Resolution, rest: seq<byte>)
    ensures var s := GlobalHeader(e, r) + rest;
            |s| >= 4 && s[..4] == Enc(e, Magic(r), 4)
  {
  }

  /** Read little-endian, a big-endian magic number shows its bytes swapped. */
  lemma MagicBytes(e: Endian, r: Resolution)
    ensures Dec(Little, Enc(e, Magic(r), 4)) ==
            match (e, r)
            case (Little, Micro) => 0xa1b2c3d4
            case (Little, Nano) => 0xa1b23c4d
            case (Big, Micro) => 0xd4c3b2a1
            case (Big, Nano) => 0x4d3cb2a1
  {
    Pow256Values();
    hide Enc;
    hide Dec;
    match e
    case Little => DecEnc(Little, Magic(r), 4);
    case Big =>
      var swapped := match r case Micro => 0xd4c3b2a1 case Nano => 0x4d3cb2a1;
      SwappedMagic(r, swapped);
      DecEnc(Little, swapped, 4);
  }

  lemma SwappedMagic(r: Resolution, swapped: nat)
    requires swapped == match r case Micro => 0xd4c3b2a1 case Nano => 0x4d3cb2a1
    ensures Enc(Big, Magic(r), 4) == Enc(Little, swapped, 4)
  {
    hide Enc;
    if r.Micro? {
      assert Unrolled(Big, 0xa1b2c3d4) == [0xa1, 0xb2, 0xc3, 0xd4] == Unrolled(Little, 0xd4c3b2a1);
    } else {
      assert Unrolled(Big, 0xa1b23c4d) == [0xa1, 0xb2, 0x3c, 0x4d] == Unrolled(Little, 0x4d3cb2a1);
    }
  }

  function Unrolled(e: Endian, n: nat): (s: seq<byte>)
    ensures s == Enc(e, n, 4)
  {
    assert Enc(e, n / 0x100_0000, 1) == [n / 0x100_0000 % 256];
    assert Enc(e, n / 0x1_0000, 2) == match e
      case Little => [n / 0x1_0000 % 256, n / 0x100_0000 % 256]
      case Big => [n / 0x100_0000 % 256, n / 0x1_0000 % 256];
    match e
    case Little => [n % 256, n / 256 % 256, n / 0x1_0000 % 256, n / 0x100_0000 % 256]
    case Big => [n / 0x100_0000 % 256, n / 0x1_0000 % 256, n / 256 % 256, n % 256]
  }

  lemma {:induction false} DecodeRecordsOf(e: Endian, r: Resolution, ps: seq<Packet>)
    requires Lengths32(ps)
    ensures DecodeRecords(e, r, Records(e, r, ps)) == Decoded(StoredAll(r, ps), NoRecord(AtEnd))
  {
    hide EncFields;
    hide DecFields;
    hide Dec;
    if ps != [] {
      NextInRecord(e, r, ps[0], Records(e, r, ps[1..]));
      DecodeRecordsOf(e, r, ps[1..]);
      assert StoredAll(r, ps) == [Stored(r, ps[0])] + StoredAll(r, ps[1..]);
    }
  }

  /** Reading back any file laid out in any of the four formats gives every packet as stored. */
  lemma RoundTrip(e: Endian, r: Resolution, ps: seq<Packet>)
    requires Lengths32(ps)
    ensures Decode(File(e, r, ps)) == Decoded(StoredAll(r, ps), NoRecord(AtEnd))
  {
    hide GlobalHeader;
    hide OpenBytes;
    OpenFile(e, r, Records(e, r, ps));
    assert File(e, r, ps)[GLOBAL_SIZE..] == Records(e, r, ps);
    DecodeRecordsOf(e, r, ps);
  }

  /** Reading back loses nothing but sub-tick time exactly when every second count fits 32 bits. */
  lemma RoundTripExact(e: Endian, r: Resolution, ps: seq<Packet>)
    requires Lengths32(ps)
    ensures Seconds32(ps) <==> Decode(File(e, r, ps)).packets == FlooredAll(r, ps)
  {
    RoundTrip(e, r, ps);
    StoredIsFloored(r, ps);
  }

  /** The first second that does not fit comes back as second zero. */
  lemma LateSecondsWrap(e: Endian, r: Resolution)
    ensures var p := Packet([1], Time(U32, 0));
            Decode(File(e, r, [p])).packets == [Packet([1], Time(0, 0))] != FlooredAll(r, [p])
  {
    var p := Packet([1], Time(U32, 0));
    assert Lengths32([p]);
    assert FlooredAll(r, [p])[0].ts.sec == U32;
    assert StoredAll(r, [p]) == [Packet([1], Time(0, 0))];
    hide *;
    RoundTrip(e, r, [p]);
  }

  lemma StoredIsFloored(r: Resolution, ps: seq<Packet>)
    ensures Seconds32(ps) <==> StoredAll(r, ps) == FlooredAll(r, ps)
  {
    if StoredAll(r, ps) == FlooredAll(r, ps) {
      forall i | 0 <= i < |ps| ensures 0 <= ps[i].ts.sec < U32 {
        assert StoredAll(r, ps)[i] == FlooredAll(r, ps)[i];
      }
    }
  }

  lemma StoredIdempotent(e: Endian, r: Resolution, ps: seq<Packet>)
    ensures Records(e, r, StoredAll(r, ps)) == Records(e, r, ps)
    ensures StoredAll(r, StoredAll(r, ps)) == StoredAll(r, ps)
  {
    hide EncFields;
    if ps != [] {
      assert StoredAll(r, ps)[1..] == StoredAll(r, ps[1..]);
      StoredIdempotent(e, r, ps[1..]);
    }
  }

  /** A record as another program may have written it: captured bytes, and a length on the wire of its own. */
  datatype Snapped = Snapped(sec: nat, ticks: nat, wire: nat, data: seq<byte>)

  ghost predicate Snappable(c: Snapped) {
    c.sec < U32 && c.ticks < U32 && c.wire < U32 && |c.data| < U32
  }

  function SnappedBytes(e: Endian, c: Snapped): seq<byte> {
    Enc(e, c.sec, 4) + (Enc(e, c.ticks, 4) + (Enc(e, |c.data|, 4) + (Enc(e, c.wire, 4) + c.data)))
  }

  function SnappedAll(e: Endian, cs: seq<Snapped>): seq<byte> {
    if cs == [] then [] else SnappedBytes(e, cs[0]) + SnappedAll(e, cs[1..])
  }

  function Captured(r: Resolution, cs: seq<Snapped>): (ps: seq<Packet>)
    ensures |ps| == |cs|
    ensures forall i :: 0 <= i < |ps| ==> ps[i] == Packet(cs[i].data, Moment(r, cs[i].sec, cs[i].ticks))
  {
    seq(|cs|, i requires 0 <= i < |cs| => Packet(cs[i].data, Moment(r, cs[i].sec, cs[i].ticks)))
  }

  /** Where the four fields and the data of a record stand. */
  lemma SnappedFields(e: Endian, c: Snapped, rest: seq<byte>)
    requires Snappable(c)
    ensures var s, n := SnappedBytes(e, c) + rest, |c.data|;
            && |s| == 16 + n + |rest|
            && Dec(e, s[0..4]) == c.sec && Dec(e, s[4..8]) == c.ticks && Dec(e, s[8..12]) == n
            && s[16..16 + n] == c.data && s[16 + n..] == rest
  {
    var s, n := SnappedBytes(e, c) + rest, |c.data|;
    var a, b, l, w := Enc(e, c.sec, 4), Enc(e, c.ticks, 4), Enc(e, n, 4), Enc(e, c.wire, 4);
    Pow256Values();
    DecEnc(e, c.sec, 4);
    DecEnc(e, c.ticks, 4);
    DecEnc(e, n, 4);
    hide Pow256;
    hide Enc;
    hide Dec;
    assert s[0..4] == a && s[4..8] == b && s[8..12] == l;
    assert s[16..16 + n] == c.data && s[16 + n..] == rest;
  }

  /**
   Captures cut to a snapshot length, whose records say a longer length on the
   wire than they hold, read back record by record with what was captured.
   */
  lemma {:induction false} SnappedRoundTrip(e: Endian, r: Resolution, cs: seq<Snapped>)
    requires forall c :: c in cs ==> Snappable(c)
    ensures DecodeRecords(e, r, SnappedAll(e, cs)) == Decoded(Captured(r, cs), NoRecord(AtEnd))
  {
    hide SnappedBytes;
    hide NextIn;
    hide Snappable;
    hide Moment;
    NextExactly(e, r, SnappedAll(e, cs));
    if cs != [] {
      var rest := SnappedAll(e, cs[1..]);
      SnappedFields(e, cs[0], rest);
      SnappedRoundTrip(e, r, cs[1..]);
      assert Captured(r, cs) == [Captured(r, cs)[0]] + Captured(r, cs[1..]);
    }
  }

  /** Recording again what was read from a recording reproduces the file byte for byte. */
  lemma Rerecord(e: Endian, r: Resolution, ps: seq<Packet>)
    requires Lengths32(ps)
    ensures File(e, r, Decode(File(e, r, ps)).packets) == File(e, r, ps)
  {
    hide GlobalHeader;
    hide RecordHeader;
    RoundTrip(e, r, ps);
    StoredIdempotent(e, r, ps);
  }

  /** How many of the leading records lie wholly within the first `k` bytes. */
  function Whole(e: Endian, r: Resolution, ps: seq<Packet>, k: nat): (n: nat)
    ensures n <= |ps|
  {
    if ps == [] || k < |Record(e, r, ps[0])| then 0
    else 1 + Whole(e, r, ps[1..], k - |Record(e, r, ps[0])|)
  }

  /** `Whole` is the largest count whose records fit in `k` bytes. */
  lemma {:induction false} WholeIsMaximal(e: Endian, r: Resolution, ps: seq<Packet>, k: nat, m: nat)
    requires m <= |ps|
    ensures |Records(e, r, ps[..m])| <= k <==> m <= Whole(e, r, ps, k)
  {
    if m > 0 {
      assert ps[..m][1..] == ps[1..][..m - 1];
      if k >= |Record(e, r, ps[0])| {
        WholeIsMaximal(e, r, ps[1..], k - |Record(e, r, ps[0])|, m - 1);
      }
    }
  }

  lemma {:induction false} DecodeRecordsPrefix(e: Endian, r: Resolution, ps: seq<Packet>, k: nat)
    requires Lengths32(ps)
    requires k <= |Records(e, r, ps)|
    ensures DecodeRecords(e, r, Records(e, r, ps)[..k]).packets == StoredAll(r, ps[..Whole(e, r, ps, k)])
  {
    hide NextIn;
    hide RecordHeader;
    if ps != [] {
      var first := Record(e, r, ps[0]);
      if k < |first| {
        NextInCut(e, r, ps[0], k);
        PrefixOfSum(first, Records(e, r, ps[1..]), k);
      } else {
        hide Record;
        var rest := Records(e, r, ps[1..])[..k - |first|];
        PrefixOfSum(first, Records(e, r, ps[1..]), k);
        NextInRecord(e, r, ps[0], rest);
        DecodeRecordsPrefix(e, r, ps[1..], k - |first|);
        StoredCons(r, ps, Whole(e, r, ps[1..], k - |first|));
      }
    } else {
      assert Records(e, r, ps)[..k] == [];
      NothingLeft(e, r);
    }
  }

  lemma PrefixOfSum(a: seq<byte>, b: seq<byte>, k: nat)
    requires k <= |a| + |b|
    ensures (a + b)[..k] == if k < |a| then a[..k] else a + b[..k - |a|]
  {
  }

  lemma NothingLeft(e: Endian, r: Resolution)
    ensures NextIn(e, r, []).0 == Stop(NoRecord(AtEnd))
  {
  }

  lemma StoredCons(r: Resolution, ps: seq<Packet>, m: nat)
    requires m < |ps|
    ensures StoredAll(r, ps[..m + 1]) == [Stored(r, ps[0])] + StoredAll(r, ps[1..][..m])
  {
    assert ps[..m + 1] == [ps[0]] + ps[1..][..m];
  }

  /**
   A recording cut at any byte after its global header reads back as exactly
   the packets it still holds whole: none lost, none invented.
   */
  lemma PrefixSafety(e: Endian, r: Resolution, ps: seq<Packet>, k: nat)
    requires Lengths32(ps)
    requires GLOBAL_SIZE <= k <= |File(e, r, ps)|
    ensures Decode(File(e, r, ps)[..k]).packets == StoredAll(r, ps[..Whole(e, r, ps, k - GLOBAL_SIZE)])
  {
    hide GlobalHeader;
    hide NextIn;
    hide OpenBytes;
    hide Record;
    var s := File(e, r, ps)[..k];
    var body := Records(e, r, ps)[..k - GLOBAL_SIZE];
    assert s == GlobalHeader(e, r) + body;
    OpenFile(e, r, body);
    assert s[GLOBAL_SIZE..] == body;
    DecodeRecordsPrefix(e, r, ps, k - GLOBAL_SIZE);
  }

  lemma {:induction false} RecordsAppend(e: Endian, r: Resolution, ps: seq<Packet>, p: Packet)
    ensures Records(e, r, ps + [p]) == Records(e, r, ps) + Record(e, r, p)
  {
    if ps != [] {
      RecordsAppend(e, r, ps[1..], p);
      assert (ps + [p])[1..] == ps[1..] + [p];
    } else {
      assert (ps + [p])[1..] == [];
    }
  }

  lemma FileAppend(e: Endian, r: Resolution, ps: seq<Packet>, p: Packet)
    ensures File(e, r, ps + [p]) == File(e, r, ps) + RecordHeader(e, r, p) + p.data
  {
    RecordsAppend(e, r, ps, p);
  }

  // The program's own writer and reader

  /** The first instant of year 1, which `time.Time`'s zero value stands for. */
  const YEAR_ONE := Time(-62_135_596_800, 0)

  class PcapWriter {
    /** Everything written to the underlying `io.Writer`, which is taken never to fail. */
    var out: seq<byte>
    ghost var packets: seq<Packet>

    ghost predicate Valid()
      reads this
    {
      out == File(Little, Micro, packets)
    }

    constructor ()
      ensures Valid() && packets == []
      ensures out == GlobalHeader(Little, Micro)
    {
      out := GlobalHeader(Little, Micro);
      packets := [];
    }

    /**
     Two writes, header then data; a reader may see the file between them. The
     packet is stamped by the caller, or by the clock when the caller gives the
     zero time.
     */
    method WritePacket(pkt: seq<byte>, ts: Time, now: Time)
      requires Valid()
      modifies this
      ensures Valid()
      ensures ts != YEAR_ONE ==> packets == old(packets) + [Packet(pkt, ts)]
      ensures ts == YEAR_ONE ==> packets == old(packets) + [Packet(pkt, now)]
    {
      var stamp := ts;
      if ts.IsZero() {
        stamp := now;
      }
      var p := Packet(pkt, stamp);
      FileAppend(Little, Micro, packets, p);
      out := out + RecordHeader(Little, Micro, p);
      out := out + pkt;
      packets := packets + [p];
    }
  }

  class PcapReader {
    /** The bytes not yet read from the underlying `io.Reader`. */
    var unread: seq<byte>
    var header: Header
    var isBigEndian: bool
    var isNanosecond: bool

    function Order(): Endian
      reads this
    {
      if isBigEndian then Big else Little
    }

    function Resolution(): Resolution
      reads this
    {
      if isNanosecond then Nano else Micro
    }

    constructor (input: seq<byte>, header: Header, isBigEndian: bool, isNanosecond: bool)
      ensures unread == input && this.header == header
      ensures this.isBigEndian == isBigEndian && this.isNanosecond == isNanosecond
    {
      this.unread, this.header := input, header;
      this.isBigEndian, this.isNanosecond := isBigEndian, isNanosecond;
    }

    method NextPacket() returns (n: Next)
      modifies this`unread
      ensures (n, unread) == NextIn(Order(), Resolution(), old(unread))
    {
      Sizes();
      if |unread| < RECORD_SIZE {
        n := Stop(NoRecord(Shortfall(|unread|)));
        unread := [];
        return;
      }
      var v := DecFields(Order(), unread[..RECORD_SIZE], RECORD);
      unread := unread[RECORD_SIZE..];
      var ts: Time;
      if isNanosecond {
        ts := Unix(v[0], v[1]);
      } else {
        ts := Unix(v[0], v[1] * 1000);
      }
      if |unread| < v[2] {
        n := Stop(NoData(ts, Shortfall(|unread|)));
        unread := [];
        return;
      }
      n := Got(Packet(unread[..v[2]], ts));
      unread := unread[v[2]..];
    }
  }

  /** One `binary.Read` of the `k`-byte field at `pos`; `cut` says why it failed. */
  method ReadField(e: Endian, s: seq<byte>, pos: nat, k: nat) returns (ok: bool, v: nat, cut: Cut)
    requires k > 0 && pos <= |s|
    ensures ok <==> pos + k <= |s|
    ensures ok ==> v == Dec(e, s[pos..pos + k])
    ensures !ok ==> cut == Shortfall(|s| - pos)
  {
    ok, v, cut := pos + k <= |s|, 0, Shortfall(|s| - pos);
    if ok {
      v := Dec(e, s[pos..pos + k]);
    }
  }

  lemma GlobalFields(e: Endian, s: seq<byte>)
    requires |s| >= GLOBAL_SIZE
    ensures Width(GLOBAL) == GLOBAL_SIZE
    ensures DecFields(e, s[..GLOBAL_SIZE], GLOBAL) ==
            [Dec(e, s[..4]), Dec(e, s[4..6]), Dec(e, s[6..8]), Dec(e, s[8..12]),
             Dec(e, s[12..16]), Dec(e, s[16..20]), Dec(e, s[20..24])]
  {
    Sizes();
    var h := s[..GLOBAL_SIZE];
    var off := [0, 4, 6, 8, 12, 16, 20];
    forall i | 0 <= i < 7
      ensures DecFields(e, h, GLOBAL)[i] == Dec(e, s[off[i]..off[i] + GLOBAL[i]])
    {
      FieldAt(e, h, GLOBAL, i);
      GlobalOffsets(i);
      SliceTake(s, GLOBAL_SIZE, off[i], off[i] + GLOBAL[i]);
    }
    assert s[0..4] == s[..4];
  }

  lemma GlobalOffsets(i: nat)
    requires i < 7
    ensures Width(GLOBAL[..i]) == [0, 4, 6, 8, 12, 16, 20][i]
  {
    if i > 0 {
      GlobalOffsets(i - 1);
      WidthAppend(GLOBAL[..i - 1], GLOBAL[i - 1]);
      assert GLOBAL[..i] == GLOBAL[..i - 1] + [GLOBAL[i - 1]];
    }
  }

  /** `NewPcapReader`: reads the header field by field; the reader is null when it is refused. */
  method NewPcapReader(input: seq<byte>) returns (o: Opened, reader: PcapReader?)
    ensures o == OpenBytes(input)
    ensures reader == null <==> o.Refused?
    ensures reader != null ==> (
              && fresh(reader)
              && reader.unread == input[GLOBAL_SIZE..] && reader.header == o.header
              && reader.Order() == o.e && reader.Resolution() == o.r)
  {
    hide Dec;
    hide DecFields;
    hide Signed32;
    reader := null;
    var ok, magic, cut;
    ok, magic, cut := ReadField(Little, input, 0, 4);
    if !ok {
      return Refused(BadHeader(cut)), null;
    }
    var bo, isBE, isNano := Little, false, false;
    if magic == 0xa1b2c3d4 {
    } else if magic == 0xa1b23c4d {
      isNano := true;
    } else if magic == 0xd4c3b2a1 {
      bo, isBE := Big, true;
    } else if magic == 0x4d3cb2a1 {
      bo, isBE, isNano := Big, true, true;
    } else {
      return Refused(BadMagic(magic)), null;
    }
    var major, minor, zone, sigFigs, snapLen, network;
    ok, major, cut := ReadField(bo, input, 4, 2);
    if !ok {
      return Refused(BadHeader(cut)), null;
    }
    ok, minor, cut := ReadField(bo, input, 6, 2);
    if !ok {
      return Refused(BadHeader(cut)), null;
    }
    ok, zone, cut := ReadField(bo, input, 8, 4);
    if !ok {
      return Refused(BadHeader(cut)), null;
    }
    ok, sigFigs, cut := ReadField(bo, input, 12, 4);
    if !ok {
      return Refused(BadHeader(cut)), null;
    }
    ok, snapLen, cut := ReadField(bo, input, 16, 4);
    if !ok {
      return Refused(BadHeader(cut)), null;
    }
    ok, network, cut := ReadField(bo, input, 20, 4);
    if !ok {
      return Refused(BadHeader(cut)), null;
    }
    GlobalFields(bo, input);
    var header := Header(magic, major, minor, Signed32(zone), sigFigs, snapLen, network);
    o := Opened(header, bo, if isNano then Nano else Micro);
    reader := new PcapReader(input[GLOBAL_SIZE..], header, isBE, isNano);
  }

  /** The replay loop of sources.go: every packet up to the first error. */
  method ReadAll(input: seq<byte>) returns (packets: seq<Packet>, end: Error)
    ensures Decoded(packets, end) == Decode(input)
  {
    packets := [];
    var o, reader := NewPcapReader(input);
    if reader == null {
      return [], o.why;
    }
    ghost var all := DecodeRecords(o.e, o.r, reader.unread);
    while true
      invariant reader.Order() == o.e && reader.Resolution() == o.r
      invariant var d := DecodeRecords(o.e, o.r, reader.unread);
                all == Decoded(packets + d.packets, d.end)
      decreases |reader.unread|
    {
      var n := reader.NextPacket();
      match n
      case Stop(error) => return packets, error;
      case Got(p) => packets := packets + [p];
    }
  }
}
