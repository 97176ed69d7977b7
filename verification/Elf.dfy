/**
 The ELF tables of internal/binary/elf.go, elf_segments.go and elf_symbols.go
 (chapters 4 and 5 of the System V gABI). Entries are read at the offsets the
 source uses, in either class and either byte order; entry sizes declared in
 the header are ignored, as the source ignores them.
 */
module Elf {
  import opened Prelude
  import opened Bytes
  import opened Streams

  datatype Class = Class32 | Class64

  datatype Format = Format(width: Class, e: Endian)

  datatype Header = Header(format: Format, machine: nat, entry: nat, phOff: nat, shOff: nat,
                           phEntSize: nat, phNum: nat, shEntSize: nat, shNum: nat, shStrIdx: nat)

  datatype Segment = Segment(index: nat, kind: nat, flags: nat, offset: nat, vaddr: nat, paddr: nat,
                             fileSize: nat, memSize: nat, align: nat)

  datatype Section = Section(index: nat, name: seq<byte>, nameOff: nat, kind: nat, flags: nat, addr: nat,
                             offset: nat, size: nat, link: nat, info: nat, addrAlign: nat, entSize: nat)

  /** What the section index of a symbol stands for; unnamed and out-of-range sections show their number. */
  datatype Place = Undefined | Absolute | Common | Named(name: seq<byte>) | Numbered(shndx: nat)

  datatype Symbol = Symbol(index: nat, name: seq<byte>, nameOff: nat, value: nat, size: nat, info: byte, other: byte,
                           shndx: nat, binding: nat, kind: nat, visibility: nat, place: Place)

  datatype File = File(header: Header, segments: seq<Segment>, sections: seq<Section>,
                       symbols: seq<Symbol>, dynSymbols: seq<Symbol>)

  datatype Error = ShortHeader(cut: Cut) | BadMagic | BadClass(width: byte) | BadEncoding(data: byte)
                 | SegmentSeek | SegmentRead(why: Cut) | SectionSeek | SectionRead(missing: Cut)

  datatype Result<T> = Ok(value: T) | Failed(error: Error)

  const MAGIC: seq<byte> := [0x7f, 0x45, 0x4c, 0x46]
  const HEADER_READ: nat := 64
  const SHT_SYMTAB: nat := 2
  const SHT_STRTAB: nat := 3
  const SHT_DYNSYM: nat := 11
  const SHN_ABS: nat := 0xFFF1
  const SHN_COMMON: nat := 0xFFF2

  /** An offset that is still positive as a signed 64-bit position. */
  predicate Seekable(offset: nat) {
    offset < 0x8000_0000_0000_0000
  }

  // Entries at the source's offsets

  function HeaderIn(raw: seq<byte>, f: Format): Header
    requires |raw| == HEADER_READ
  {
    var e := f.e;
    if f.width.Class64? then
      Header(f, Dec(e, raw[18..20]), Dec(e, raw[24..32]), Dec(e, raw[32..40]), Dec(e, raw[40..48]),
             Dec(e, raw[54..56]), Dec(e, raw[56..58]), Dec(e, raw[58..60]), Dec(e, raw[60..62]), Dec(e, raw[62..64]))
    else
      Header(f, Dec(e, raw[18..20]), Dec(e, raw[24..28]), Dec(e, raw[28..32]), Dec(e, raw[32..36]),
             Dec(e, raw[42..44]), Dec(e, raw[44..46]), Dec(e, raw[46..48]), Dec(e, raw[48..50]), Dec(e, raw[50..52]))
  }

  function SegmentSize(c: Class): nat {
    match c case Class64 => 56 case Class32 => 32
  }

  function SegmentIn(f: Format, b: seq<byte>, i: nat): Segment
    requires |b| == SegmentSize(f.width)
  {
    var e := f.e;
    if f.width.Class64? then
      Segment(i, Dec(e, b[0..4]), Dec(e, b[4..8]), Dec(e, b[8..16]), Dec(e, b[16..24]), Dec(e, b[24..32]),
              Dec(e, b[32..40]), Dec(e, b[40..48]), Dec(e, b[48..56]))
    else
      Segment(i, Dec(e, b[0..4]), Dec(e, b[24..28]), Dec(e, b[4..8]), Dec(e, b[8..12]), Dec(e, b[12..16]),
              Dec(e, b[16..20]), Dec(e, b[20..24]), Dec(e, b[28..32]))
  }

  function SectionSize(c: Class): nat {
    match c case Class64 => 64 case Class32 => 40
  }

  /** A section header, its name not yet resolved. */
  function SectionIn(f: Format, b: seq<byte>, i: nat): Section
    requires |b| == SectionSize(f.width)
  {
    var e := f.e;
    if f.width.Class64? then
      Section(i, [], Dec(e, b[0..4]), Dec(e, b[4..8]), Dec(e, b[8..16]), Dec(e, b[16..24]), Dec(e, b[24..32]),
              Dec(e, b[32..40]), Dec(e, b[40..44]), Dec(e, b[44..48]), Dec(e, b[48..56]), Dec(e, b[56..64]))
    else
      Section(i, [], Dec(e, b[0..4]), Dec(e, b[4..8]), Dec(e, b[8..12]), Dec(e, b[12..16]), Dec(e, b[16..20]),
              Dec(e, b[20..24]), Dec(e, b[24..28]), Dec(e, b[28..32]), Dec(e, b[32..36]), Dec(e, b[36..40]))
  }

  function SymbolSize(c: Class): nat {
    match c case Class64 => 24 case Class32 => 16
  }

  /** A symbol, its name and place not yet resolved. */
  function SymbolIn(f: Format, b: seq<byte>, i: nat): Symbol
    requires |b| == SymbolSize(f.width)
  {
    var e := f.e;
    if f.width.Class64? then
      Bare(i, Dec(e, b[0..4]), Dec(e, b[8..16]), Dec(e, b[16..24]), b[4], b[5], Dec(e, b[6..8]))
    else
      Bare(i, Dec(e, b[0..4]), Dec(e, b[4..8]), Dec(e, b[8..12]), b[12], b[13], Dec(e, b[14..16]))
  }

  function Bare(i: nat, nameOff: nat, value: nat, size: nat, info: byte, other: byte, shndx: nat): Symbol {
    Symbol(i, [], nameOff, value, size, info, other, shndx, info / 16, info % 16, other % 4, Undefined)
  }

  // Names

  /** Where the string that starts at `from` ends: at the first zero byte, or with the table. */
  function StringEnd(table: seq<byte>, from: nat): (end: nat)
    requires from <= |table|
    ensures from <= end <= |table|
    ensures 0 !in table[from..end]
    ensures end < |table| ==> table[end] == 0
    decreases |table| - from
  {
    if from == |table| || table[from] == 0 then from
    else
      var end := StringEnd(table, from + 1);
      assert table[from..end] == [table[from]] + table[from + 1..end];
      end
  }

  /** `extractNullString`. */
  function NullString(table: seq<byte>, offset: nat): seq<byte> {
    if offset >= |table| then [] else table[offset..StringEnd(table, offset)]
  }

  method ExtractNullString(table: seq<byte>, offset: nat) returns (s: seq<byte>)
    ensures s == NullString(table, offset)
  {
    if offset >= |table| {
      return [];
    }
    var end := offset;
    while end < |table| && table[end] != 0
      invariant offset <= end <= |table|
      invariant StringEnd(table, offset) == StringEnd(table, end)
    {
      end := end + 1;
    }
    s := table[offset..end];
  }

  /** `resolveSectionIndex`. */
  function Resolve(shndx: nat, sections: seq<Section>): Place {
    if shndx == 0 then Undefined
    else if shndx == SHN_ABS then Absolute
    else if shndx == SHN_COMMON then Common
    else if shndx < |sections| && sections[shndx].name != [] then Named(sections[shndx].name)
    else Numbered(shndx)
  }

  // Tables

  /** The `n` entries of a table of `size`-byte entries. */
  function Entries(buf: seq<byte>, size: nat, n: nat): (es: seq<seq<byte>>)
    requires |buf| == n * size
    ensures |es| == n && Uniform(es, size)
  {
    seq(n, i requires 0 <= i < n => EntryAt(buf, size, n, i))
  }

  predicate Uniform(es: seq<seq<byte>>, size: nat) {
    forall i :: 0 <= i < |es| ==> |es[i]| == size
  }

  function EntryAt(buf: seq<byte>, size: nat, n: nat, i: nat): (b: seq<byte>)
    requires |buf| == n * size && i < n
    ensures |b| == size
  {
    Room(n, size, i);
    buf[i * size..i * size + size]
  }

  lemma Room(n: nat, size: nat, i: nat)
    requires i < n
    ensures i * size + size <= n * size
  {
    assert (n - i - 1) * size >= 0;
    assert n * size == i * size + size + (n - i - 1) * size;
  }

  function SegmentsIn(f: Format, es: seq<seq<byte>>): (s: seq<Segment>)
    requires Uniform(es, SegmentSize(f.width))
    ensures |s| == |es| && forall i :: 0 <= i < |s| ==> s[i] == SegmentIn(f, es[i], i)
  {
    seq(|es|, i requires 0 <= i < |es| => SegmentIn(f, es[i], i))
  }

  function SectionsIn(f: Format, es: seq<seq<byte>>): (s: seq<Section>)
    requires Uniform(es, SectionSize(f.width))
    ensures |s| == |es| && forall i :: 0 <= i < |s| ==> s[i] == SectionIn(f, es[i], i)
  {
    seq(|es|, i requires 0 <= i < |es| => SectionIn(f, es[i], i))
  }

  /** `parseSegments`. */
  function Segments(data: seq<byte>, h: Header): Result<seq<Segment>> {
    if h.phOff == 0 || h.phNum == 0 then Ok([])
    else if !Seekable(h.phOff) then Failed(SegmentSeek)
    else match ReadIn(Tail(data, h.phOff), h.phNum * SegmentSize(h.format.width))
      case Short(cut) => Failed(SegmentRead(cut))
      case Full(buf) => Ok(SegmentsIn(h.format, Entries(buf, SegmentSize(h.format.width), h.phNum)))
  }

  /** The bytes of a string table section, when it is one and can be read. */
  function Strings(data: seq<byte>, sec: Section): Option<seq<byte>> {
    if sec.kind == SHT_STRTAB && sec.size > 0 && Seekable(sec.offset) then
      (match ReadIn(Tail(data, sec.offset), sec.size) case Full(b) => Some(b) case Short(_) => None)
    else None
  }

  function WithNames(sections: seq<Section>, table: seq<byte>): (s: seq<Section>)
    ensures |s| == |sections|
    ensures forall i :: 0 <= i < |s| ==> s[i] == sections[i].(name := NullString(table, sections[i].nameOff))
  {
    seq(|sections|, i requires 0 <= i < |sections| => sections[i].(name := NullString(table, sections[i].nameOff)))
  }

  /** Names from the section the header designates; index zero and anything but a readable string table name nothing. */
  function Resolved(data: seq<byte>, h: Header, sections: seq<Section>): seq<Section> {
    if 0 < h.shStrIdx < |sections| then
      (match Strings(data, sections[h.shStrIdx]) case Some(table) => WithNames(sections, table) case None => sections)
    else sections
  }

  /** `parseSections`. */
  function Sections(data: seq<byte>, h: Header): Result<seq<Section>> {
    if h.shOff == 0 || h.shNum == 0 then Ok([])
    else if !Seekable(h.shOff) then Failed(SectionSeek)
    else match ReadIn(Tail(data, h.shOff), h.shNum * SectionSize(h.format.width))
      case Short(cut) => Failed(SectionRead(cut))
      case Full(buf) => Ok(Resolved(data, h, SectionsIn(h.format, Entries(buf, SectionSize(h.format.width), h.shNum))))
  }

  /**
   The string table of a symbol table. A read that comes short leaves a table
   of the declared size whose missing bytes are zero.
   */
  function LinkedStrings(data: seq<byte>, sec: Section, sections: seq<Section>): seq<byte> {
    if 0 < sec.link < |sections| && sections[sec.link].kind == SHT_STRTAB then
      var s := sections[sec.link];
      var got := if Seekable(s.offset) then Tail(data, s.offset) else [];
      if s.size <= |got| then got[..s.size] else got + seq(s.size - |got|, _ => 0)
    else []
  }

  function Complete(s: Symbol, strings: seq<byte>, sections: seq<Section>): Symbol {
    s.(name := if strings == [] then [] else NullString(strings, s.nameOff), place := Resolve(s.shndx, sections))
  }

  function SymbolsIn(f: Format, es: seq<seq<byte>>, strings: seq<byte>, sections: seq<Section>): (s: seq<Symbol>)
    requires Uniform(es, SymbolSize(f.width))
    ensures |s| == |es|
    ensures forall i :: 0 <= i < |s| ==> s[i] == Complete(SymbolIn(f, es[i], i), strings, sections)
  {
    seq(|es|, i requires 0 <= i < |es| => Complete(SymbolIn(f, es[i], i), strings, sections))
  }

  /** `parseSymbolTable`; nothing when it fails, which the caller ignores. */
  function Symbols(data: seq<byte>, f: Format, sec: Section, sections: seq<Section>): Option<seq<Symbol>> {
    if sec.size == 0 || sec.offset == 0 then Some([])
    else if !Seekable(sec.offset) then None
    else
      var n := sec.size / SymbolSize(f.width);
      match ReadIn(Tail(data, sec.offset), n * SymbolSize(f.width))
      case Short(_) => None
      case Full(buf) =>
        Some(SymbolsIn(f, Entries(buf, SymbolSize(f.width), n), LinkedStrings(data, sec, sections), sections))
  }

  /** The symbols of the last readable table of a kind among `sections[i..]`. */
  function LastSymbols(data: seq<byte>, f: Format, sections: seq<Section>, i: nat,
                       kind: nat, acc: seq<Symbol>): seq<Symbol>
    requires i <= |sections|
    decreases |sections| - i
  {
    if i == |sections| then acc
    else
      var found := if sections[i].kind == kind then Symbols(data, f, sections[i], sections) else None;
      LastSymbols(data, f, sections, i + 1, kind, if found.Some? then found.value else acc)
  }

  /** The identification: magic number, class and byte order. */
  function Identify(raw: seq<byte>): Result<Format>
    requires |raw| == HEADER_READ
  {
    if raw[..4] != MAGIC then Failed(BadMagic)
    else if raw[4] != 1 && raw[4] != 2 then Failed(BadClass(raw[4]))
    else if raw[5] != 1 && raw[5] != 2 then Failed(BadEncoding(raw[5]))
    else Ok(Format(if raw[4] == 2 then Class64 else Class32, if raw[5] == 1 then Little else Big))
  }

  /** `ParseELFReader`; 64 bytes must be there for a header of either class. */
  function Parse(data: seq<byte>, start: nat): Result<File> {
    var c := ReadIn(Tail(data, start), HEADER_READ);
    if c.Short? then Failed(ShortHeader(c.cut))
    else match Identify(c.bytes)
      case Failed(error) => Failed(error)
      case Ok(f) =>
        var h := HeaderIn(c.bytes, f);
        match Segments(data, h)
        case Failed(error) => Failed(error)
        case Ok(segments) =>
          match Sections(data, h)
          case Failed(error) => Failed(error)
          case Ok(sections) =>
            Ok(File(h, segments, sections,
                    LastSymbols(data, f, sections, 0, SHT_SYMTAB, []),
                    LastSymbols(data, f, sections, 0, SHT_DYNSYM, [])))
  }

  // The readers

  method ParseSegments(r: ByteReader, h: Header) returns (res: Result<seq<Segment>>)
    modifies r
    ensures res == Segments(r.data, h)
  {
    hide SegmentIn;
    hide Tail;
    if h.phOff == 0 || h.phNum == 0 {
      return Ok([]);
    }
    if !Seekable(h.phOff) {
      return Failed(SegmentSeek);
    }
    r.SeekStart(h.phOff);
    var size := SegmentSize(h.format.width);
    var c := r.ReadFull(h.phNum * size);
    if c.Short? {
      return Failed(SegmentRead(c.cut));
    }
    ghost var es := Entries(c.bytes, size, h.phNum);
    var segments: seq<Segment> := [];
    var i := 0;
    while i < h.phNum
      invariant i == |segments| <= h.phNum
      invariant forall j :: 0 <= j < i ==> segments[j] == SegmentIn(h.format, es[j], j)
    {
      Room(h.phNum, size, i);
      var off := i * size;
      segments := segments + [SegmentIn(h.format, c.bytes[off..off + size], i)];
      i := i + 1;
    }
    assert segments == SegmentsIn(h.format, es);
    res := Ok(segments);
  }

  method ParseSections(r: ByteReader, h: Header) returns (res: Result<seq<Section>>)
    modifies r
    ensures res == Sections(r.data, h)
  {
    hide SectionIn;
    hide Tail;
    hide Resolved;
    if h.shOff == 0 || h.shNum == 0 {
      return Ok([]);
    }
    if !Seekable(h.shOff) {
      return Failed(SectionSeek);
    }
    r.SeekStart(h.shOff);
    var size := SectionSize(h.format.width);
    var c := r.ReadFull(h.shNum * size);
    if c.Short? {
      return Failed(SectionRead(c.cut));
    }
    ghost var es := Entries(c.bytes, size, h.shNum);
    var sections: seq<Section> := [];
    var i := 0;
    while i < h.shNum
      invariant i == |sections| <= h.shNum
      invariant forall j :: 0 <= j < i ==> sections[j] == SectionIn(h.format, es[j], j)
    {
      Room(h.shNum, size, i);
      var off := i * size;
      sections := sections + [SectionIn(h.format, c.bytes[off..off + size], i)];
      i := i + 1;
    }
    assert sections == SectionsIn(h.format, es);
    var named := ResolveNames(r, h, sections);
    res := Ok(named);
  }

  /** The second half of `parseSections`: names are assigned entry by entry once the table has been read. */
  method ResolveNames(r: ByteReader, h: Header, bare: seq<Section>) returns (sections: seq<Section>)
    modifies r
    ensures sections == Resolved(r.data, h, bare)
  {
    sections := bare;
    if h.shStrIdx < |sections| && h.shStrIdx != 0 {
      var strSec := sections[h.shStrIdx];
      if strSec.size > 0 && strSec.kind == SHT_STRTAB && Seekable(strSec.offset) {
        r.SeekStart(strSec.offset);
        var c := r.ReadFull(strSec.size);
        if c.Full? {
          var i := 0;
          while i < |sections|
            invariant i <= |sections| == |bare|
            invariant forall j :: 0 <= j < |bare| ==>
                        sections[j] == if j < i then bare[j].(name := NullString(c.bytes, bare[j].nameOff)) else bare[j]
          {
            var name := ExtractNullString(c.bytes, sections[i].nameOff);
            sections := sections[i := sections[i].(name := name)];
            i := i + 1;
          }
        }
      }
    }
  }

  method ReadStrings(r: ByteReader, symSec: Section, sections: seq<Section>) returns (strTable: seq<byte>)
    modifies r
    ensures strTable == LinkedStrings(r.data, symSec, sections)
  {
    strTable := [];
    if symSec.link < |sections| && symSec.link != 0 {
      var strSec := sections[symSec.link];
      if strSec.kind == SHT_STRTAB && strSec.size > 0 {
        strTable := seq(strSec.size, _ => 0);
        if Seekable(strSec.offset) {
          r.SeekStart(strSec.offset);
          var left := if strSec.offset <= |r.data| then |r.data| - strSec.offset else 0;
          var c := r.ReadFull(if left < strSec.size then left else strSec.size);
          strTable := c.bytes + seq(strSec.size - |c.bytes|, _ => 0);
        }
      }
    }
  }

  method CompleteSymbol(bare: Symbol, strTable: seq<byte>, sections: seq<Section>) returns (sym: Symbol)
    ensures sym == Complete(bare, strTable, sections)
  {
    sym := bare;
    if |strTable| > 0 {
      var name := ExtractNullString(strTable, sym.nameOff);
      sym := sym.(name := name);
    } else {
      sym := sym.(name := []);
    }
    sym := sym.(place := Resolve(sym.shndx, sections));
  }

  method ParseSymbolTable(r: ByteReader, symSec: Section, sections: seq<Section>, f: Format)
    returns (res: Option<seq<Symbol>>)
    modifies r
    ensures res == Symbols(r.data, f, symSec, sections)
  {
    hide SymbolIn;
    hide Complete;
    hide LinkedStrings;
    if symSec.size == 0 || symSec.offset == 0 {
      return Some([]);
    }
    var strTable := ReadStrings(r, symSec, sections);
    if !Seekable(symSec.offset) {
      return None;
    }
    r.SeekStart(symSec.offset);
    var size := SymbolSize(f.width);
    var n := symSec.size / size;
    var c := r.ReadFull(n * size);
    if c.Short? {
      return None;
    }
    ghost var es := Entries(c.bytes, size, n);
    var symbols: seq<Symbol> := [];
    var i := 0;
    while i < n
      invariant i == |symbols| <= n
      invariant forall j :: 0 <= j < i ==> symbols[j] == Complete(SymbolIn(f, es[j], j), strTable, sections)
    {
      Room(n, size, i);
      var off := i * size;
      var sym := CompleteSymbol(SymbolIn(f, c.bytes[off..off + size], i), strTable, sections);
      symbols := symbols + [sym];
      i := i + 1;
    }
    assert symbols == SymbolsIn(f, es, strTable, sections);
    res := Some(symbols);
  }

  method ParseELFReader(r: ByteReader) returns (res: Result<File>)
    modifies r
    ensures res == Parse(r.data, old(r.pos))
  {
    hide HeaderIn;
    hide Symbols;
    var c := r.ReadFull(HEADER_READ);
    if c.Short? {
      return Failed(ShortHeader(c.cut));
    }
    var id := Identify(c.bytes);
    if id.Failed? {
      return Failed(id.error);
    }
    var h := HeaderIn(c.bytes, id.value);
    var segments := ParseSegments(r, h);
    if segments.Failed? {
      return Failed(segments.error);
    }
    var sections := ParseSections(r, h);
    if sections.Failed? {
      return Failed(sections.error);
    }
    var all := sections.value;
    var symbols, dynSymbols: seq<Symbol> := [], [];
    var i := 0;
    while i < |all|
      invariant i <= |all|
      invariant LastSymbols(r.data, id.value, all, 0, SHT_SYMTAB, []) ==
                LastSymbols(r.data, id.value, all, i, SHT_SYMTAB, symbols)
      invariant LastSymbols(r.data, id.value, all, 0, SHT_DYNSYM, []) ==
                LastSymbols(r.data, id.value, all, i, SHT_DYNSYM, dynSymbols)
    {
      if all[i].kind == SHT_SYMTAB {
        var syms := ParseSymbolTable(r, all[i], all, id.value);
        if syms.Some? {
          symbols := syms.value;
        }
      } else if all[i].kind == SHT_DYNSYM {
        var syms := ParseSymbolTable(r, all[i], all, id.value);
        if syms.Some? {
          dynSymbols := syms.value;
        }
      }
      i := i + 1;
    }
    res := Ok(File(h, segments.value, all, symbols, dynSymbols));
  }
}
