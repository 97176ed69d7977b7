/**
 The .flx container of internal/binary/flx/container.go: a 36-byte header that
 places a metadata table, a constant pool and a bytecode region anywhere in
 the file.
 */
module Container {
  import opened Prelude
  import opened Bytes
  import opened Streams
  import Pool
  import Disasm

  const MAGIC: seq<byte> := [0x46, 0x4c, 0x58, 0x01]
  const FIELDS: seq<nat> := [2, 2, 4, 4, 4, 4, 4, 4, 4]
  const HEADER_SIZE: nat := 36

  /** The header after its magic number, in file order. */
  datatype Header = Header(version: nat, flags: nat, entry: nat, poolOffset: nat, poolCount: nat,
                           codeOffset: nat, codeSize: nat, metaOffset: nat, metaCount: nat)

  type Metadata = map<seq<byte>, seq<byte>>

  datatype File = File(header: Header, metadata: Metadata, pool: Pool.ConstantPool, code: seq<byte>,
                       listing: seq<Disasm.Instruction>)

  datatype Part = KeyLength | Key | ValueLength | Value

  datatype Error = ShortHeader(cut: Cut) | BadMagic(magic: seq<byte>)
                 | BadMetadata(index: nat, part: Part, why: Cut)
                 | BadPool(problem: Pool.Error) | ShortCode(missing: Cut) | BadCode(offset: nat)

  datatype Parsed = Parsed(file: File) | Refused(error: Error)

  // The header

  lemma FieldsWidth()
    ensures Width(FIELDS) == HEADER_SIZE - 4
  {
    assert FIELDS[1..] == [2, 4, 4, 4, 4, 4, 4, 4];
    assert FIELDS[1..][1..] == [4, 4, 4, 4, 4, 4, 4];
    FoursWidth(7, FIELDS[1..][1..]);
  }

  lemma {:induction false} FoursWidth(n: nat, ws: seq<nat>)
    requires |ws| == n && forall i :: 0 <= i < n ==> ws[i] == 4
    ensures Width(ws) == 4 * n
  {
    if n > 0 {
      FoursWidth(n - 1, ws[1..]);
    }
  }

  function HeaderValues(h: Header): seq<nat> {
    [h.version, h.flags, h.entry, h.poolOffset, h.poolCount, h.codeOffset, h.codeSize, h.metaOffset, h.metaCount]
  }

  /** The header that `b` holds, if it begins with the magic number. */
  function HeaderOf(b: seq<byte>): Header
    requires |b| == HEADER_SIZE
  {
    FieldsWidth();
    var v := DecFields(Little, From(b, 4), FIELDS);
    Header(v[0], v[1], v[2], v[3], v[4], v[5], v[6], v[7], v[8])
  }

  function EncodeHeader(h: Header): (b: seq<byte>)
    ensures |b| == HEADER_SIZE
  {
    FieldsWidth();
    MAGIC + EncFields(Little, HeaderValues(h), FIELDS)
  }

  ghost predicate HeaderFits(h: Header) {
    Fits(HeaderValues(h), FIELDS)
  }

  lemma HeaderRoundTrip(h: Header)
    requires HeaderFits(h)
    ensures EncodeHeader(h)[..4] == MAGIC && HeaderOf(EncodeHeader(h)) == h
  {
    FieldsWidth();
    DecEncFields(Little, HeaderValues(h), FIELDS);
    assert From(EncodeHeader(h), 4) == EncFields(Little, HeaderValues(h), FIELDS);
    hide EncFields;
    hide DecFields;
  }

  /** Any 36 bytes with the magic number are the encoding of the header they hold. */
  lemma HeaderExact(b: seq<byte>)
    requires |b| == HEADER_SIZE && b[..4] == MAGIC
    ensures HeaderFits(HeaderOf(b)) && EncodeHeader(HeaderOf(b)) == b
  {
    FieldsWidth();
    var rest := From(b, 4);
    EncDecFields(Little, rest, FIELDS);
    assert HeaderValues(HeaderOf(b)) == DecFields(Little, rest, FIELDS);
    assert b == b[..4] + rest;
    hide EncFields;
    hide DecFields;
  }

  /** Every field at its place: two 16-bit numbers after the magic number, then seven 32-bit ones, little-endian. */
  lemma HeaderFields(b: seq<byte>)
    requires |b| == HEADER_SIZE
    ensures HeaderOf(b) == Header(Dec(Little, b[4..6]), Dec(Little, b[6..8]), Dec(Little, b[8..12]),
                                  Dec(Little, b[12..16]), Dec(Little, b[16..20]), Dec(Little, b[20..24]),
                                  Dec(Little, b[24..28]), Dec(Little, b[28..32]), Dec(Little, b[32..36]))
  {
    HeaderField(b, 0, 4, 2);
    HeaderField(b, 1, 6, 2);
    HeaderField(b, 2, 8, 4);
    HeaderField(b, 3, 12, 4);
    HeaderField(b, 4, 16, 4);
    HeaderField(b, 5, 20, 4);
    HeaderField(b, 6, 24, 4);
    HeaderField(b, 7, 28, 4);
    HeaderField(b, 8, 32, 4);
    hide Dec;
    hide From;
    hide DecFields;
  }

  lemma HeaderField(b: seq<byte>, i: nat, o: nat, w: nat)
    requires |b| == HEADER_SIZE && i < 9 && o == 4 + [0, 2, 4, 8, 12, 16, 20, 24, 28][i] && w == FIELDS[i]
    ensures o + w <= HEADER_SIZE && |From(b, 4)| == Width(FIELDS)
    ensures DecFields(Little, From(b, 4), FIELDS)[i] == Dec(Little, b[o..o + w])
  {
    FieldsWidth();
    FieldAt(Little, From(b, 4), FIELDS, i);
    FieldOffsets(i);
    SliceFrom(b, 4, o - 4, o - 4 + w);
    hide Dec;
    hide From;
    hide DecFields;
    hide Width;
  }

  lemma FieldOffsets(i: nat)
    requires i < 9
    ensures Width(FIELDS[..i]) == [0, 2, 4, 8, 12, 16, 20, 24, 28][i]
  {
    if i > 0 {
      FieldOffsets(i - 1);
      WidthAppend(FIELDS[..i - 1], FIELDS[i - 1]);
      assert FIELDS[..i] == FIELDS[..i - 1] + [FIELDS[i - 1]];
    }
  }

  // Metadata

  datatype Text = Text(bytes: seq<byte>, rest: seq<byte>) | NoLength(cut: Cut) | NoBody(cut: Cut)

  /** A 16-bit length and that many bytes. */
  function DecodeText(s: seq<byte>): (t: Text)
    ensures t.Text? ==> |t.rest| < |s|
  {
    var head := ReadIn(s, 2);
    if head.Short? then NoLength(head.cut)
    else
      var n, after := Dec(Little, head.bytes), From(s, 2);
      var body := ReadIn(after, n);
      if body.Short? then NoBody(body.cut) else Text(body.bytes, From(after, n))
  }

  datatype Entries = Entries(table: Metadata) | Broken(error: Error)

  /** `count` pairs from `s`, the first of which is pair number `i`, added to `acc`. */
  function DecodePairs(s: seq<byte>, i: nat, count: nat, acc: Metadata): Entries
    decreases count
  {
    if count == 0 then Entries(acc)
    else match DecodeText(s)
      case NoLength(cut) => Broken(BadMetadata(i, KeyLength, cut))
      case NoBody(cut) => Broken(BadMetadata(i, Key, cut))
      case Text(key, rest) =>
        match DecodeText(rest)
        case NoLength(cut) => Broken(BadMetadata(i, ValueLength, cut))
        case NoBody(cut) => Broken(BadMetadata(i, Value, cut))
        case Text(val, more) => DecodePairs(more, i + 1, count - 1, acc[key := val])
  }

  // The whole file

  /** The bytecode section and the end of parsing. */
  function ParseCode(data: seq<byte>, h: Header, metadata: Metadata, pool: Pool.ConstantPool): Parsed {
    if h.codeOffset == 0 || h.codeSize == 0 then Parsed(File(h, metadata, pool, [], []))
    else
      var c := ReadIn(Tail(data, h.codeOffset), h.codeSize);
      if c.Short? then Refused(ShortCode(c.cut))
      else
        var l := Disasm.ListFrom(Disasm.Opcodes, c.bytes, 0, Some(pool));
        if l.truncated.Some? then Refused(BadCode(l.truncated.value))
        else Parsed(File(h, metadata, pool, c.bytes, l.instructions))
  }

  /** The pool section and what follows it. */
  function ParsePool(data: seq<byte>, h: Header, metadata: Metadata): Parsed {
    if h.poolOffset == 0 || h.poolCount == 0 then ParseCode(data, h, metadata, Pool.ConstantPool([]))
    else
      var d := Pool.DecodeValues(Tail(data, h.poolOffset), 0, h.poolCount);
      if d.error.Some? then Refused(BadPool(d.error.value))
      else ParseCode(data, h, metadata, Pool.PoolOf(d.values, h.poolCount))
  }

  /** The metadata section and what follows it. */
  function ParseMetadata(data: seq<byte>, h: Header): Parsed {
    if h.metaOffset == 0 || h.metaCount == 0 then ParsePool(data, h, map[])
    else match DecodePairs(Tail(data, h.metaOffset), 0, h.metaCount, map[])
      case Broken(error) => Refused(error)
      case Entries(table) => ParsePool(data, h, table)
  }

  /** A container in `data` whose header starts at `start`. */
  function Parse(data: seq<byte>, start: nat): Parsed {
    var c := ReadIn(Tail(data, start), HEADER_SIZE);
    if c.Short? then Refused(ShortHeader(c.cut))
    else if c.bytes[..4] != MAGIC then Refused(BadMagic(c.bytes[..4]))
    else ParseMetadata(data, HeaderOf(c.bytes))
  }

  datatype TextRead = Bytes(bytes: seq<byte>) | LengthCut(cut: Cut) | BodyCut(cut: Cut)

  method ReadText(r: ByteReader) returns (t: TextRead)
    modifies r
    ensures match DecodeText(old(r.Rest()))
            case Text(bytes, rest) => t == Bytes(bytes) && r.Rest() == rest
            case NoLength(cut) => t == LengthCut(cut)
            case NoBody(cut) => t == BodyCut(cut)
  {
    hide From;
    var head := r.ReadFull(2);
    if head.Short? {
      return LengthCut(head.cut);
    }
    var body := r.ReadFull(Dec(Little, head.bytes));
    if body.Short? {
      return BodyCut(body.cut);
    }
    t := Bytes(body.bytes);
  }

  /** The loop over the metadata table, which fills the map pair by pair. */
  method ReadMetadata(r: ByteReader, count: nat) returns (table: Metadata, error: Option<Error>)
    modifies r
    ensures match DecodePairs(old(r.Rest()), 0, count, map[])
            case Entries(all) => error.None? && table == all
            case Broken(e) => error == Some(e)
  {
    hide DecodeText;
    ghost var all := DecodePairs(r.Rest(), 0, count, map[]);
    table := map[];
    var i := 0;
    while i < count
      invariant i <= count
      invariant all == DecodePairs(r.Rest(), i, count - i, table)
    {
      var key := ReadText(r);
      if key.LengthCut? {
        error := Some(BadMetadata(i, KeyLength, key.cut));
        return;
      }
      if key.BodyCut? {
        error := Some(BadMetadata(i, Key, key.cut));
        return;
      }
      var val := ReadText(r);
      if val.LengthCut? {
        error := Some(BadMetadata(i, ValueLength, val.cut));
        return;
      }
      if val.BodyCut? {
        error := Some(BadMetadata(i, Value, val.cut));
        return;
      }
      table := table[key.bytes := val.bytes];
      i := i + 1;
    }
    error := None;
  }

  /** `ParseReader`: header from where the reader stands, then one seek per section that is present. */
  method ParseReader(r: ByteReader) returns (p: Parsed)
    modifies r
    ensures p == Parse(r.data, old(r.pos))
  {
    hide HeaderOf;
    hide From;
    hide DecodePairs;
    var head := r.ReadFull(HEADER_SIZE);
    if head.Short? {
      return Refused(ShortHeader(head.cut));
    }
    if head.bytes[..4] != MAGIC {
      return Refused(BadMagic(head.bytes[..4]));
    }
    var h := HeaderOf(head.bytes);
    var metadata: Metadata := map[];
    if h.metaOffset > 0 && h.metaCount > 0 {
      r.SeekStart(h.metaOffset);
      var table, failure := ReadMetadata(r, h.metaCount);
      if failure.Some? {
        return Refused(failure.value);
      }
      metadata := table;
    }
    var pool := Pool.ConstantPool([]);
    if h.poolOffset > 0 && h.poolCount > 0 {
      r.SeekStart(h.poolOffset);
      var filled, failure := Pool.DecodePool(r, h.poolCount);
      if failure.Some? {
        return Refused(BadPool(failure.value));
      }
      pool := filled;
    }
    var code, listing := [], [];
    if h.codeOffset > 0 && h.codeSize > 0 {
      r.SeekStart(h.codeOffset);
      var c := r.ReadFull(h.codeSize);
      if c.Short? {
        return Refused(ShortCode(c.cut));
      }
      code := c.bytes;
      var instructions, truncated := Disasm.Disassemble(Disasm.Opcodes, code, Some(pool));
      if truncated.Some? {
        return Refused(BadCode(truncated.value));
      }
      listing := instructions;
    }
    p := Parsed(File(h, metadata, pool, code, listing));
  }

  // Layout independence

  datatype Pair = Pair(key: seq<byte>, val: seq<byte>)

  function EncodeText(s: seq<byte>): seq<byte> {
    Enc(Little, |s|, 2) + s
  }

  function EncodePairs(ps: seq<Pair>): seq<byte> {
    if ps == [] then [] else EncodeText(ps[0].key) + EncodeText(ps[0].val) + EncodePairs(ps[1..])
  }

  predicate PairsFit(ps: seq<Pair>) {
    forall i :: 0 <= i < |ps| ==> |ps[i].key| < U16 && |ps[i].val| < U16
  }

  /** The table a list of pairs means: added to `acc` in order, so that the last of a key wins. */
  function Fold(acc: Metadata, ps: seq<Pair>): Metadata
    decreases ps
  {
    if ps == [] then acc else Fold(acc[ps[0].key := ps[0].val], ps[1..])
  }

  /** A key maps to the value of its last pair, and keys without a pair keep what they had. */
  lemma {:induction false} LastWins(acc: Metadata, ps: seq<Pair>, i: nat)
    requires i < |ps| && forall j :: i < j < |ps| ==> ps[j].key != ps[i].key
    ensures ps[i].key in Fold(acc, ps) && Fold(acc, ps)[ps[i].key] == ps[i].val
    decreases ps
  {
    if i == 0 {
      forall j | 0 <= j < |ps[1..]| ensures ps[1..][j].key != ps[0].key {
        assert ps[1..][j] == ps[j + 1];
      }
      Untouched(acc[ps[0].key := ps[0].val], ps[1..], ps[0].key);
    } else {
      forall j | i - 1 < j < |ps[1..]| ensures ps[1..][j].key != ps[1..][i - 1].key {
        assert ps[1..][j] == ps[j + 1];
      }
      LastWins(acc[ps[0].key := ps[0].val], ps[1..], i - 1);
    }
  }

  lemma {:induction false} Untouched(acc: Metadata, ps: seq<Pair>, key: seq<byte>)
    requires forall j :: 0 <= j < |ps| ==> ps[j].key != key
    ensures key in Fold(acc, ps) <==> key in acc
    ensures key in acc ==> Fold(acc, ps)[key] == acc[key]
    decreases ps
  {
    if ps != [] {
      forall j | 0 <= j < |ps[1..]| ensures ps[1..][j].key != key {
        assert ps[1..][j] == ps[j + 1];
      }
      Untouched(acc[ps[0].key := ps[0].val], ps[1..], key);
    }
  }

  lemma DecodeEncodedText(s: seq<byte>, tail: seq<byte>)
    requires |s| < U16
    ensures DecodeText(EncodeText(s) + tail) == Text(s, tail)
  {
    var n := Enc(Little, |s|, 2);
    assert EncodeText(s) + tail == n + (s + tail);
    ReadAppend(n, s + tail);
    ReadAppend(s, tail);
    assert Dec(Little, n) == |s| by {
      Pow256Values();
      DecEnc(Little, |s|, 2);
    }
    hide ReadIn;
    hide From;
    hide Enc;
    hide Dec;
  }

  lemma {:induction false} PairsRoundTrip(ps: seq<Pair>, i: nat, acc: Metadata, tail: seq<byte>)
    requires PairsFit(ps)
    ensures DecodePairs(EncodePairs(ps) + tail, i, |ps|, acc) == Entries(Fold(acc, ps))
  {
    hide DecodeText;
    hide EncodeText;
    if ps != [] {
      var more := EncodePairs(ps[1..]) + tail;
      var key, val := EncodeText(ps[0].key), EncodeText(ps[0].val);
      assert EncodePairs(ps) + tail == key + (val + more);
      DecodeEncodedText(ps[0].key, val + more);
      DecodeEncodedText(ps[0].val, more);
      PairsRoundTrip(ps[1..], i + 1, acc[ps[0].key := ps[0].val], tail);
    }
  }

  // Cut metadata

  function CutAfter(have: nat): Cut {
    if have == 0 then AtEnd else Partway
  }

  /** A text cut short lacks its length or, from the third byte on, its body. */
  lemma TextCut(s: seq<byte>, k: nat)
    requires |s| < U16 && k < |EncodeText(s)|
    ensures DecodeText(EncodeText(s)[..k]) == if k < 2 then NoLength(CutAfter(k)) else NoBody(CutAfter(k - 2))
  {
    var n := Enc(Little, |s|, 2);
    Pow256Values();
    DecEnc(Little, |s|, 2);
    if k >= 2 {
      assert EncodeText(s)[..k][..2] == n;
    }
    hide Enc;
    hide Dec;
    hide Pow256;
  }

  /** Which read of which pair fails when only the first `k` bytes of the table are there. */
  function CutAt(ps: seq<Pair>, i: nat, k: nat): Error
    requires k < |EncodePairs(ps)|
    decreases ps
  {
    var key, val := |ps[0].key|, |ps[0].val|;
    if k < 2 then BadMetadata(i, KeyLength, CutAfter(k))
    else if k < 2 + key then BadMetadata(i, Key, CutAfter(k - 2))
    else if k < 4 + key then BadMetadata(i, ValueLength, CutAfter(k - 2 - key))
    else if k < 4 + key + val then BadMetadata(i, Value, CutAfter(k - 4 - key))
    else CutAt(ps[1..], i + 1, k - 4 - key - val)
  }

  /** A metadata table cut anywhere is refused, with the pair and the part of it that is not whole. */
  lemma {:induction false} MetadataCut(ps: seq<Pair>, i: nat, acc: Metadata, k: nat)
    requires PairsFit(ps) && k < |EncodePairs(ps)|
    ensures DecodePairs(EncodePairs(ps)[..k], i, |ps|, acc) == Broken(CutAt(ps, i, k))
    decreases ps
  {
    hide DecodeText;
    hide CutAfter;
    var key, val, more := EncodeText(ps[0].key), EncodeText(ps[0].val), EncodePairs(ps[1..]);
    var a, b := |key|, |key| + |val|;
    if k < a {
      assert EncodePairs(ps)[..k] == key[..k];
      TextCut(ps[0].key, k);
    } else if k < b {
      assert EncodePairs(ps)[..k] == key + val[..k - a];
      DecodeEncodedText(ps[0].key, val[..k - a]);
      TextCut(ps[0].val, k - a);
    } else {
      var rest := more[..k - b];
      assert EncodePairs(ps)[..k] == key + (val + rest);
      DecodeEncodedText(ps[0].key, val + rest);
      DecodeEncodedText(ps[0].val, rest);
      MetadataCut(ps[1..], i + 1, acc[ps[0].key := ps[0].val], k - b);
    }
  }

  // Layout

  /** What the header says of the sections holds of the file, wherever they are and whatever lies between. */
  ghost predicate Laid(data: seq<byte>, h: Header, ps: seq<Pair>, values: seq<Pool.Value>, code: seq<byte>) {
    && h.metaCount == |ps| && (ps != [] ==> h.metaOffset > 0 && Lies(data, h.metaOffset, EncodePairs(ps)))
    && h.poolCount == |values|
    && (values != [] ==> h.poolOffset > 0 && Lies(data, h.poolOffset, Pool.EncodeValues(values)))
    && h.codeSize == |code| && (code != [] ==> h.codeOffset > 0 && Lies(data, h.codeOffset, code))
  }

  /** The file those sections mean. */
  function Meaning(h: Header, ps: seq<Pair>, values: seq<Pool.Value>, code: seq<byte>): Parsed {
    var pool := Pool.PoolOf(values, |values|);
    var l := Disasm.ListFrom(Disasm.Opcodes, code, 0, Some(pool));
    if l.truncated.Some? then Refused(BadCode(l.truncated.value))
    else Parsed(File(h, Fold(map[], ps), pool, code, l.instructions))
  }

  /**
   Parsing does not depend on layout: metadata, pool and code come back entry
   for entry from any offsets, in any order, with anything between them.
   */
  lemma LayoutIndependent(data: seq<byte>, start: nat, h: Header, ps: seq<Pair>,
                           values: seq<Pool.Value>, code: seq<byte>)
    requires HeaderFits(h) && Lies(data, start, EncodeHeader(h)) && Laid(data, h, ps, values, code)
    requires PairsFit(ps) && forall v :: v in values ==> Pool.Encodable(v)
    ensures Parse(data, start) == Meaning(h, ps, values, code)
  {
    hide EncodeHeader;
    hide HeaderOf;
    ReadPlaced(data, start, EncodeHeader(h));
    HeaderRoundTrip(h);
    hide ParseMetadata;
    hide Meaning;
    hide Lies;
    hide HeaderFits;
    MetadataPlaced(data, h, ps, values, code);
  }

  lemma MetadataPlaced(data: seq<byte>, h: Header, ps: seq<Pair>, values: seq<Pool.Value>, code: seq<byte>)
    requires Laid(data, h, ps, values, code)
    requires PairsFit(ps) && forall v :: v in values ==> Pool.Encodable(v)
    ensures ParseMetadata(data, h) == Meaning(h, ps, values, code)
  {
    hide Pool.Encodable;
    hide DecodePairs;
    hide From;
    PoolPlaced(data, h, ps, values, code);
    hide ParsePool;
    hide Meaning;
    if ps != [] {
      TailOf(data, h.metaOffset, EncodePairs(ps));
      PairsRoundTrip(ps, 0, map[], From(data, h.metaOffset + |EncodePairs(ps)|));
    }
  }

  lemma PoolPlaced(data: seq<byte>, h: Header, ps: seq<Pair>, values: seq<Pool.Value>, code: seq<byte>)
    requires Laid(data, h, ps, values, code) && forall v :: v in values ==> Pool.Encodable(v)
    ensures ParsePool(data, h, Fold(map[], ps)) == Meaning(h, ps, values, code)
  {
    hide Pool.Encodable;
    hide Pool.DecodeValues;
    hide From;
    CodePlaced(data, h, ps, values, code);
    hide ParseCode;
    hide Meaning;
    if values != [] {
      var b := Pool.EncodeValues(values);
      TailOf(data, h.poolOffset, b);
      Pool.PoolRoundTrip(values, 0, From(data, h.poolOffset + |b|));
    } else {
      assert Pool.PoolOf([], 0) == Pool.ConstantPool([]);
    }
  }

  lemma CodePlaced(data: seq<byte>, h: Header, ps: seq<Pair>, values: seq<Pool.Value>, code: seq<byte>)
    requires Laid(data, h, ps, values, code)
    ensures ParseCode(data, h, Fold(map[], ps), Pool.PoolOf(values, |values|)) == Meaning(h, ps, values, code)
  {
    hide ReadIn;
    hide Fold;
    if code != [] {
      ReadPlaced(data, h.codeOffset, code);
    }
  }

  // Any file

  /** Refused by its header: too short for one, or without the magic number. */
  lemma HeaderRefused(data: seq<byte>, start: nat)
    ensures Parse(data, start) == Refused(ShortHeader(AtEnd)) <==> start >= |data|
    ensures Parse(data, start) == Refused(ShortHeader(Partway)) <==> start < |data| < start + 36
    ensures (exists m :: Parse(data, start) == Refused(BadMagic(m))) <==>
            start + 36 <= |data| && data[start..start + 4] != [0x46, 0x4c, 0x58, 0x01]
  {
    if start + 36 <= |data| {
      var b := From(data, start)[..36];
      assert b[..4] == data[start..start + 4];
      if b[..4] != MAGIC {
        assert Parse(data, start) == Refused(BadMagic(b[..4]));
      } else {
        SectionErrors(data, HeaderOf(b));
      }
    }
    hide HeaderOf;
    hide ParseMetadata;
  }

  /** What follows the header is not refused for the header. */
  lemma SectionErrors(data: seq<byte>, h: Header)
    ensures var p := ParseMetadata(data, h); p.Refused? ==> !p.error.ShortHeader? && !p.error.BadMagic?
  {
    hide DecodePairs;
    hide Tail;
    hide ParsePool;
    PairsErrors(Tail(data, h.metaOffset), 0, h.metaCount, map[]);
    match DecodePairs(Tail(data, h.metaOffset), 0, h.metaCount, map[])
    case Broken(_) => PoolErrors(data, h, map[]);
    case Entries(table) =>
      PoolErrors(data, h, table);
      PoolErrors(data, h, map[]);
  }

  lemma PoolErrors(data: seq<byte>, h: Header, metadata: Metadata)
    ensures var p := ParsePool(data, h, metadata);
            p.Refused? ==> p.error.BadPool? || p.error.ShortCode? || p.error.BadCode?
  {
    hide Tail;
    hide ReadIn;
    hide Pool.DecodeValues;
    hide Pool.PoolOf;
    hide Disasm.ListFrom;
  }

  lemma {:induction false} PairsErrors(s: seq<byte>, i: nat, count: nat, acc: Metadata)
    ensures var d := DecodePairs(s, i, count, acc); d.Broken? ==> d.error.BadMetadata?
    decreases count
  {
    hide DecodeText;
    if count > 0 && DecodeText(s).Text? {
      var key := DecodeText(s);
      if DecodeText(key.rest).Text? {
        var val := DecodeText(key.rest);
        PairsErrors(val.rest, i + 1, count - 1, acc[key.bytes := val.bytes]);
      }
    }
  }

  /**
   The code is what the header points at, the pool has as many entries as it
   says, and the listing is of all of that code: instructions end to end, each
   saying what its bytes say with the file's own pool.
   */
  ghost predicate Listed(data: seq<byte>, f: File) {
    match f
    case File(h, _, pool, code, listing) =>
      && |code| == (if h.codeOffset == 0 then 0 else h.codeSize)
      && (code != [] ==> Lies(data, h.codeOffset, code))
      && |pool.entries| == (if h.poolOffset == 0 then 0 else h.poolCount)
      && Disasm.Chained(Disasm.Opcodes, code, Some(pool), 0, listing)
      && Disasm.Assemble(Disasm.Sources(listing)) == code
  }

  lemma CodeRead(data: seq<byte>, o: nat, n: nat)
    requires ReadIn(Tail(data, o), n).Full? && n > 0
    ensures Lies(data, o, ReadIn(Tail(data, o), n).bytes)
  {
    var b := From(data, o);
    assert b[..n] == data[o..o + n];
  }

  lemma AllListed(code: seq<byte>, pool: Pool.ConstantPool)
    ensures var l := Disasm.ListFrom(Disasm.Opcodes, code, 0, Some(pool));
            l.truncated.None? ==>
              && Disasm.Chained(Disasm.Opcodes, code, Some(pool), 0, l.instructions)
              && Disasm.Assemble(Disasm.Sources(l.instructions)) == code
  {
    Disasm.Offsets(Disasm.Opcodes, code, 0, Some(pool));
    Disasm.Reassembly(Disasm.Opcodes, code, 0, Some(pool));
    assert code[0..|code|] == code;
    hide Disasm.Chained;
    hide Disasm.Assemble;
    hide Disasm.Sources;
    hide Disasm.ListFrom;
  }

  lemma CodeListed(data: seq<byte>, h: Header, metadata: Metadata, pool: Pool.ConstantPool)
    requires |pool.entries| == if h.poolOffset == 0 then 0 else h.poolCount
    ensures var p := ParseCode(data, h, metadata, pool);
            p.Parsed? ==> p.file.header == h && p.file.metadata == metadata && Listed(data, p.file)
  {
    AllListed([], pool);
    if h.codeOffset != 0 && h.codeSize != 0 && ReadIn(Tail(data, h.codeOffset), h.codeSize).Full? {
      CodeRead(data, h.codeOffset, h.codeSize);
      AllListed(ReadIn(Tail(data, h.codeOffset), h.codeSize).bytes, pool);
    }
    hide Lies;
    hide Tail;
    hide Disasm.Chained;
    hide Disasm.Assemble;
    hide Disasm.Sources;
  }

  lemma PoolListed(data: seq<byte>, h: Header, metadata: Metadata)
    ensures var p := ParsePool(data, h, metadata);
            p.Parsed? ==> p.file.header == h && p.file.metadata == metadata && Listed(data, p.file)
  {
    var d := Pool.DecodeValues(Tail(data, h.poolOffset), 0, h.poolCount);
    hide Listed;
    hide ParseCode;
    hide Pool.DecodeValues;
    hide Tail;
    if h.poolOffset == 0 || h.poolCount == 0 {
      CodeListed(data, h, metadata, Pool.ConstantPool([]));
    } else if d.error.None? {
      CodeListed(data, h, metadata, Pool.PoolOf(d.values, h.poolCount));
    }
  }

  /** Of any file that parses: the header is read at `start`, and code and listing are as that header says. */
  lemma ParsedListing(data: seq<byte>, start: nat)
    requires Parse(data, start).Parsed?
    ensures var f := Parse(data, start).file;
            start + 36 <= |data| && f.header == HeaderOf(data[start..start + 36]) && Listed(data, f)
  {
    assert From(data, start)[..36] == data[start..start + 36];
    var h := HeaderOf(data[start..start + 36]);
    hide HeaderOf;
    hide Listed;
    hide ParsePool;
    hide DecodePairs;
    PoolListed(data, h, map[]);
    if h.metaOffset != 0 && h.metaCount != 0 {
      var d := DecodePairs(Tail(data, h.metaOffset), 0, h.metaCount, map[]);
      if d.Entries? {
        PoolListed(data, h, d.table);
      }
    }
  }
}
