/**
 ELF tables mean the same in all four encodings: whatever 32- or 64-bit class
 and byte order the entries are written in, the reader recovers the same
 records, although the two classes order their fields differently.
 */
module ElfTheorems {
  import opened Prelude
  import opened Bytes
  import opened Streams
  import opened Elf

  // Field lists and the offsets the reader uses

  ghost predicate Offsets(ws: seq<nat>, offs: seq<nat>) {
    && |offs| == |ws|
    && (ws != [] ==> offs[0] == 0)
    && (forall k :: 0 < k < |ws| ==> offs[k] == offs[k - 1] + ws[k - 1])
  }

  lemma {:induction false} PrefixSum(ws: seq<nat>, offs: seq<nat>, k: nat)
    requires Offsets(ws, offs) && k < |ws|
    ensures Width(ws[..k]) == offs[k]
    decreases k
  {
    if k == 0 {
      assert offs[0] == 0;
      assert Width(ws[..0]) == 0;
    } else {
      PrefixSum(ws, offs, k - 1);
      WidthAppend(ws[..k - 1], ws[k - 1]);
      assert ws[..k] == ws[..k - 1] + [ws[k - 1]];
    }
  }

  lemma WidthIs(ws: seq<nat>, offs: seq<nat>)
    requires ws != [] && Offsets(ws, offs)
    ensures Width(ws) == offs[|ws| - 1] + ws[|ws| - 1]
  {
    var n := |ws| - 1;
    PrefixSum(ws, offs, n);
    WidthAppend(ws[..n], ws[n]);
    assert ws == ws[..n] + [ws[n]];
  }

  /** Each field of an encoded record is found at its offset, in a buffer that may go on. */
  lemma FieldsAt(e: Endian, vals: seq<nat>, ws: seq<nat>, offs: seq<nat>, b: seq<byte>, k: nat)
    requires Offsets(ws, offs) && Fits(vals, ws) && EncFields(e, vals, ws) <= b && k < |ws|
    ensures offs[k] + ws[k] <= |b|
    ensures Dec(e, b[offs[k]..offs[k] + ws[k]]) == vals[k]
  {
    var r := EncFields(e, vals, ws);
    DecEncFields(e, vals, ws);
    FieldAt(e, r, ws, k);
    PrefixSum(ws, offs, k);
    assert b[..|r|] == r;
    SliceTake(b, |r|, offs[k], offs[k] + ws[k]);
  }

  /** A record: its byte order, and its fields' values, widths and offsets. */
  datatype Record = Record(e: Endian, vals: seq<nat>, ws: seq<nat>, offs: seq<nat>)

  /** The record's values fit, and its encoding starts `b`. */
  ghost predicate Packed(r: Record, b: seq<byte>) {
    match r
    case Record(e, vals, ws, offs) => Offsets(ws, offs) && Fits(vals, ws) && EncFields(e, vals, ws) <= b
  }

  /** Field `k` stands at `o`, is `w` wide and holds `v`. */
  ghost predicate Has(r: Record, k: nat, o: nat, w: nat, v: nat) {
    match r
    case Record(e, vals, ws, offs) =>
      && k < |offs| && k < |ws| && k < |vals|
      && offs[k] == o && ws[k] == w && vals[k] == v
  }

  /** One field with offset, width and value spelt out. */
  lemma Found(r: Record, b: seq<byte>, k: nat, o: nat, w: nat, v: nat)
    requires Packed(r, b) && Has(r, k, o, w, v)
    ensures o + w <= |b| && Dec(r.e, b[o..o + w]) == v
  {
    FieldsAt(r.e, r.vals, r.ws, r.offs, b, k);
  }

  // Segments

  function SegmentWidths(c: Class): seq<nat> {
    match c case Class64 => [4, 4, 8, 8, 8, 8, 8, 8] case Class32 => [4, 4, 4, 4, 4, 4, 4, 4]
  }

  function SegmentOffsets(c: Class): seq<nat> {
    match c case Class64 => [0, 4, 8, 16, 24, 32, 40, 48] case Class32 => [0, 4, 8, 12, 16, 20, 24, 28]
  }

  /** Field order in the file: the flags stand second in 64-bit entries and last but one in 32-bit ones. */
  function SegmentValues(c: Class, s: Segment): seq<nat> {
    match c
    case Class64 => [s.kind, s.flags, s.offset, s.vaddr, s.paddr, s.fileSize, s.memSize, s.align]
    case Class32 => [s.kind, s.offset, s.vaddr, s.paddr, s.fileSize, s.memSize, s.flags, s.align]
  }

  ghost predicate SegmentFits(c: Class, s: Segment) {
    Fits(SegmentValues(c, s), SegmentWidths(c))
  }

  function EncodeSegment(f: Format, s: Segment): seq<byte> {
    EncFields(f.e, SegmentValues(f.width, s), SegmentWidths(f.width))
  }

  function SegmentRecord(f: Format, s: Segment): Record {
    Record(f.e, SegmentValues(f.width, s), SegmentWidths(f.width), SegmentOffsets(f.width))
  }

  lemma SegmentLayout(c: Class)
    ensures Offsets(SegmentWidths(c), SegmentOffsets(c))
    ensures Width(SegmentWidths(c)) == SegmentSize(c)
  {
    var ws, offs := SegmentWidths(c), SegmentOffsets(c);
    forall k | 0 < k < 8 ensures offs[k] == offs[k - 1] + ws[k - 1] {
      if k < 5 {
        assert k == 1 || k == 2 || k == 3 || k == 4;
      } else {
        assert k == 5 || k == 6 || k == 7;
      }
    }
    WidthIs(ws, offs);
  }

  lemma SegmentPacked(f: Format, s: Segment)
    requires SegmentFits(f.width, s)
    ensures Packed(SegmentRecord(f, s), EncodeSegment(f, s)) && |EncodeSegment(f, s)| == SegmentSize(f.width)
  {
    SegmentLayout(f.width);
    hide Offsets;
    hide Fits;
    hide EncFields;
    hide Width;
    hide SegmentValues;
    hide SegmentWidths;
    hide SegmentOffsets;
  }

  lemma Segment64(f: Format, s: Segment, i: nat, b: seq<byte>)
    requires f.width.Class64? && |b| == SegmentSize(f.width) && Packed(SegmentRecord(f, s), b)
    ensures SegmentIn(f, b, i) == s.(index := i)
  {
    hide Dec;
    hide Packed;
    var r := SegmentRecord(f, s);
    Found(r, b, 0, 0, 4, s.kind);
    Found(r, b, 1, 4, 4, s.flags);
    Found(r, b, 2, 8, 8, s.offset);
    Found(r, b, 3, 16, 8, s.vaddr);
    Found(r, b, 4, 24, 8, s.paddr);
    Found(r, b, 5, 32, 8, s.fileSize);
    Found(r, b, 6, 40, 8, s.memSize);
    Found(r, b, 7, 48, 8, s.align);
  }

  lemma Segment32(f: Format, s: Segment, i: nat, b: seq<byte>)
    requires f.width.Class32? && |b| == SegmentSize(f.width) && Packed(SegmentRecord(f, s), b)
    ensures SegmentIn(f, b, i) == s.(index := i)
  {
    hide Dec;
    hide Packed;
    var r := SegmentRecord(f, s);
    Found(r, b, 0, 0, 4, s.kind);
    Found(r, b, 1, 4, 4, s.offset);
    Found(r, b, 2, 8, 4, s.vaddr);
    Found(r, b, 3, 12, 4, s.paddr);
    Found(r, b, 4, 16, 4, s.fileSize);
    Found(r, b, 5, 20, 4, s.memSize);
    Found(r, b, 6, 24, 4, s.flags);
    Found(r, b, 7, 28, 4, s.align);
  }

  lemma SegmentInverse(f: Format, s: Segment, i: nat)
    requires SegmentFits(f.width, s)
    ensures |EncodeSegment(f, s)| == SegmentSize(f.width)
    ensures SegmentIn(f, EncodeSegment(f, s), i) == s.(index := i)
  {
    SegmentPacked(f, s);
    hide *;
    if f.width.Class64? {
      Segment64(f, s, i, EncodeSegment(f, s));
    } else {
      Segment32(f, s, i, EncodeSegment(f, s));
    }
  }

  // Tables

  function Concat(es: seq<seq<byte>>): seq<byte> {
    if es == [] then [] else es[0] + Concat(es[1..])
  }

  lemma {:induction false} ConcatSize(es: seq<seq<byte>>, size: nat)
    requires Uniform(es, size)
    ensures |Concat(es)| == |es| * size
  {
    if es != [] {
      ConcatSize(es[1..], size);
      assert |es| * size == size + (|es| - 1) * size;
    }
  }

  lemma {:induction false} ConcatEntry(es: seq<seq<byte>>, size: nat, i: nat)
    requires Uniform(es, size) && i < |es|
    ensures i * size + size <= |Concat(es)|
    ensures Concat(es)[i * size..i * size + size] == es[i]
    decreases i
  {
    ConcatSize(es, size);
    Room(|es|, size, i);
    var rest := Concat(es[1..]);
    if i > 0 {
      ConcatEntry(es[1..], size, i - 1);
      var o := (i - 1) * size;
      assert i * size == size + o;
      assert Concat(es)[size + o..size + o + size] == rest[o..o + size];
    }
  }

  /** Cutting a table into entries undoes laying them end to end. */
  lemma EntriesOf(es: seq<seq<byte>>, size: nat)
    requires Uniform(es, size)
    ensures |Concat(es)| == |es| * size && Entries(Concat(es), size, |es|) == es
  {
    ConcatSize(es, size);
    forall i | 0 <= i < |es| ensures EntryAt(Concat(es), size, |es|, i) == es[i] {
      ConcatEntry(es, size, i);
    }
  }

  function EncodedSegments(f: Format, segs: seq<Segment>): (es: seq<seq<byte>>)
    ensures |es| == |segs| && forall i :: 0 <= i < |es| ==> es[i] == EncodeSegment(f, segs[i])
  {
    seq(|segs|, i requires 0 <= i < |segs| => EncodeSegment(f, segs[i]))
  }

  /** A header and file that hold the given segment table. */
  ghost predicate SegmentsLaid(data: seq<byte>, h: Header, segs: seq<Segment>) {
    && h.phNum == |segs|
    && (segs != [] ==> 0 < h.phOff && Seekable(h.phOff)
                       && Lies(data, h.phOff, Concat(EncodedSegments(h.format, segs))))
    && (forall i :: 0 <= i < |segs| ==> segs[i].index == i && SegmentFits(h.format.width, segs[i]))
  }

  lemma SegmentsRecovered(data: seq<byte>, h: Header, segs: seq<Segment>)
    requires SegmentsLaid(data, h, segs)
    ensures Segments(data, h) == Ok(segs)
  {
    if segs != [] {
      var f, es := h.format, EncodedSegments(h.format, segs);
      var size := SegmentSize(f.width);
      forall i | 0 <= i < |segs| ensures |es[i]| == size && SegmentIn(f, es[i], i) == segs[i] {
        SegmentInverse(f, segs[i], i);
      }
      EntriesOf(es, size);
      ReadPlaced(data, h.phOff, Concat(es));
      assert SegmentsIn(f, es) == segs;
    }
  }

  // Sections

  function SectionWidths(c: Class): seq<nat> {
    match c case Class64 => [4, 4, 8, 8, 8, 8, 4, 4, 8, 8] case Class32 => [4, 4, 4, 4, 4, 4, 4, 4, 4, 4]
  }

  function SectionOffsets(c: Class): seq<nat> {
    match c case Class64 => [0, 4, 8, 16, 24, 32, 40, 44, 48, 56] case Class32 => [0, 4, 8, 12, 16, 20, 24, 28, 32, 36]
  }

  function SectionValues(s: Section): seq<nat> {
    [s.nameOff, s.kind, s.flags, s.addr, s.offset, s.size, s.link, s.info, s.addrAlign, s.entSize]
  }

  ghost predicate SectionFits(c: Class, s: Section) {
    Fits(SectionValues(s), SectionWidths(c))
  }

  function EncodeSection(f: Format, s: Section): seq<byte> {
    EncFields(f.e, SectionValues(s), SectionWidths(f.width))
  }

  function SectionRecord(f: Format, s: Section): Record {
    Record(f.e, SectionValues(s), SectionWidths(f.width), SectionOffsets(f.width))
  }

  lemma SectionLayout(c: Class)
    ensures Offsets(SectionWidths(c), SectionOffsets(c))
    ensures Width(SectionWidths(c)) == SectionSize(c)
  {
    var ws, offs := SectionWidths(c), SectionOffsets(c);
    forall k | 0 < k < 10 ensures offs[k] == offs[k - 1] + ws[k - 1] {
      if k < 5 {
        assert k == 1 || k == 2 || k == 3 || k == 4;
      } else if k < 8 {
        assert k == 5 || k == 6 || k == 7;
      } else {
        assert k == 8 || k == 9;
      }
    }
    WidthIs(ws, offs);
  }

  lemma SectionPacked(f: Format, s: Section)
    requires SectionFits(f.width, s)
    ensures Packed(SectionRecord(f, s), EncodeSection(f, s)) && |EncodeSection(f, s)| == SectionSize(f.width)
  {
    SectionLayout(f.width);
    hide Offsets;
    hide Fits;
    hide EncFields;
    hide Width;
    hide SectionValues;
    hide SectionWidths;
    hide SectionOffsets;
  }

  lemma Section64(f: Format, s: Section, i: nat, b: seq<byte>)
    requires f.width.Class64? && |b| == SectionSize(f.width) && Packed(SectionRecord(f, s), b)
    ensures SectionIn(f, b, i) == s.(index := i, name := [])
  {
    hide Dec;
    hide Packed;
    var r := SectionRecord(f, s);
    Found(r, b, 0, 0, 4, s.nameOff);
    Found(r, b, 1, 4, 4, s.kind);
    Found(r, b, 2, 8, 8, s.flags);
    Found(r, b, 3, 16, 8, s.addr);
    Found(r, b, 4, 24, 8, s.offset);
    Found(r, b, 5, 32, 8, s.size);
    Found(r, b, 6, 40, 4, s.link);
    Found(r, b, 7, 44, 4, s.info);
    Found(r, b, 8, 48, 8, s.addrAlign);
    Found(r, b, 9, 56, 8, s.entSize);
  }

  lemma Section32(f: Format, s: Section, i: nat, b: seq<byte>)
    requires f.width.Class32? && |b| == SectionSize(f.width) && Packed(SectionRecord(f, s), b)
    ensures SectionIn(f, b, i) == s.(index := i, name := [])
  {
    hide Dec;
    hide Packed;
    var r := SectionRecord(f, s);
    Found(r, b, 0, 0, 4, s.nameOff);
    Found(r, b, 1, 4, 4, s.kind);
    Found(r, b, 2, 8, 4, s.flags);
    Found(r, b, 3, 12, 4, s.addr);
    Found(r, b, 4, 16, 4, s.offset);
    Found(r, b, 5, 20, 4, s.size);
    Found(r, b, 6, 24, 4, s.link);
    Found(r, b, 7, 28, 4, s.info);
    Found(r, b, 8, 32, 4, s.addrAlign);
    Found(r, b, 9, 36, 4, s.entSize);
  }

  lemma SectionInverse(f: Format, s: Section, i: nat)
    requires SectionFits(f.width, s)
    ensures |EncodeSection(f, s)| == SectionSize(f.width)
    ensures SectionIn(f, EncodeSection(f, s), i) == s.(index := i, name := [])
  {
    SectionPacked(f, s);
    hide *;
    if f.width.Class64? {
      Section64(f, s, i, EncodeSection(f, s));
    } else {
      Section32(f, s, i, EncodeSection(f, s));
    }
  }

  function EncodedSections(f: Format, secs: seq<Section>): (es: seq<seq<byte>>)
    ensures |es| == |secs| && forall i :: 0 <= i < |es| ==> es[i] == EncodeSection(f, secs[i])
  {
    seq(|secs|, i requires 0 <= i < |secs| => EncodeSection(f, secs[i]))
  }

  /** `name` stands at `offset` of a string table and a zero byte ends it. */
  ghost predicate NameLies(table: seq<byte>, offset: nat, name: seq<byte>) {
    Lies(table, offset, name) && 0 !in name && offset + |name| < |table| && table[offset + |name|] == 0
  }

  /** Every name is the string laid at its offset in a zero-terminated table. */
  lemma NameRecovered(table: seq<byte>, offset: nat, name: seq<byte>)
    requires NameLies(table, offset, name)
    ensures NullString(table, offset) == name
  {
    FirstZero(table, offset, offset + |name|);
  }

  /** The string that starts at `from` ends at the first zero byte. */
  lemma {:induction false} FirstZero(table: seq<byte>, from: nat, stop: nat)
    requires from <= stop < |table| && table[stop] == 0 && 0 !in table[from..stop]
    ensures StringEnd(table, from) == stop
    decreases stop - from
  {
    if from < stop {
      assert table[from] == table[from..stop][0];
      assert table[from + 1..stop] == table[from..stop][1..];
      FirstZero(table, from + 1, stop);
    }
  }

  /** Names one after another, each ended by a zero byte. */
  function TableOf(names: seq<seq<byte>>): seq<byte> {
    if names == [] then [] else names[0] + [0] + TableOf(names[1..])
  }

  function OffsetOf(names: seq<seq<byte>>, k: nat): nat
    requires k < |names|
    decreases k
  {
    if k == 0 then 0 else |names[0]| + 1 + OffsetOf(names[1..], k - 1)
  }

  /** In a table built from names, every name is found at its offset, whatever comes before the table. */
  lemma {:induction false} BuiltTable(before: seq<byte>, names: seq<seq<byte>>, k: nat)
    requires k < |names| && forall i :: 0 <= i < |names| ==> 0 !in names[i]
    ensures NameLies(before + TableOf(names), |before| + OffsetOf(names, k), names[k])
    decreases k
  {
    var rest := TableOf(names[1..]);
    var first := names[0] + [0];
    assert before + TableOf(names) == (before + first) + rest;
    if k == 0 {
      var whole := before + TableOf(names);
      assert whole[|before|..|before| + |names[0]|] == names[0];
    } else {
      BuiltTable(before + first, names[1..], k - 1);
    }
  }

  /** The section is a string table holding `table`. */
  ghost predicate StringsLaid(data: seq<byte>, sec: Section, table: seq<byte>) {
    && sec.kind == SHT_STRTAB && sec.size == |table| && table != []
    && Seekable(sec.offset) && Lies(data, sec.offset, table)
  }

  /** Section names stand in the string table the header designates; when it designates none they are empty. */
  ghost predicate NamesLaid(data: seq<byte>, h: Header, secs: seq<Section>, table: seq<byte>) {
    if h.shStrIdx == 0 then forall i :: 0 <= i < |secs| ==> secs[i].name == []
    else
      && h.shStrIdx < |secs| && StringsLaid(data, secs[h.shStrIdx], table)
      && (forall i :: 0 <= i < |secs| ==> NameLies(table, secs[i].nameOff, secs[i].name))
  }

  /** A header and file that hold the given section table and its names; it may have no sections at all. */
  ghost predicate SectionsLaid(data: seq<byte>, h: Header, secs: seq<Section>, table: seq<byte>) {
    && h.shNum == |secs|
    && (secs != [] ==>
          && 0 < h.shOff && Seekable(h.shOff) && Lies(data, h.shOff, Concat(EncodedSections(h.format, secs)))
          && NamesLaid(data, h, secs, table))
    && (forall i :: 0 <= i < |secs| ==> secs[i].index == i && SectionFits(h.format.width, secs[i]))
  }

  lemma SectionsRecovered(data: seq<byte>, h: Header, secs: seq<Section>, table: seq<byte>)
    requires SectionsLaid(data, h, secs, table)
    ensures Sections(data, h) == Ok(secs)
  {
    if secs != [] {
      var f, es := h.format, EncodedSections(h.format, secs);
      var bare := SectionsBare(f, secs);
      EntriesOf(es, SectionSize(f.width));
      ReadPlaced(data, h.shOff, Concat(es));
      NamesRecovered(data, h, bare, secs, table);
      hide Concat;
      hide Entries;
      hide SectionsIn;
      hide Resolved;
      hide EncodedSections;
      hide NamesLaid;
      hide SectionFits;
      hide Tail;
      hide ReadIn;
      hide Lies;
    }
  }

  /** Entries decode to nameless sections. */
  lemma SectionsBare(f: Format, secs: seq<Section>) returns (bare: seq<Section>)
    requires forall i :: 0 <= i < |secs| ==> secs[i].index == i && SectionFits(f.width, secs[i])
    ensures Uniform(EncodedSections(f, secs), SectionSize(f.width))
    ensures bare == SectionsIn(f, EncodedSections(f, secs)) && |bare| == |secs|
    ensures forall i :: 0 <= i < |secs| ==> bare[i] == secs[i].(name := [])
  {
    var es := EncodedSections(f, secs);
    forall i | 0 <= i < |secs|
      ensures |es[i]| == SectionSize(f.width) && SectionIn(f, es[i], i) == secs[i].(name := [])
    {
      SectionInverse(f, secs[i], i);
    }
    bare := SectionsIn(f, es);
  }

  /** The designated string table names them. */
  lemma NamesRecovered(data: seq<byte>, h: Header, bare: seq<Section>, secs: seq<Section>, table: seq<byte>)
    requires |bare| == |secs| && forall i :: 0 <= i < |secs| ==> bare[i] == secs[i].(name := [])
    requires NamesLaid(data, h, secs, table)
    ensures Resolved(data, h, bare) == secs
  {
    if h.shStrIdx == 0 {
      assert bare == secs;
    } else {
      ReadPlaced(data, secs[h.shStrIdx].offset, table);
      assert bare[h.shStrIdx] == secs[h.shStrIdx].(name := []);
      forall i | 0 <= i < |secs| ensures WithNames(bare, table)[i] == secs[i] {
        NameRecovered(table, secs[i].nameOff, secs[i].name);
      }
      assert WithNames(bare, table) == secs;
      hide Lies;
      hide Tail;
      hide ReadIn;
      hide NameLies;
    }
  }

  // Symbols

  /** A symbol table entry before its name and place are looked up. */
  datatype Logical = Logical(name: seq<byte>, nameOff: nat, value: nat, size: nat, info: byte, other: byte, shndx: nat)

  function SymbolWidths(c: Class): seq<nat> {
    match c case Class64 => [4, 1, 1, 2, 8, 8] case Class32 => [4, 4, 4, 1, 1, 2]
  }

  function SymbolOffsets(c: Class): seq<nat> {
    match c case Class64 => [0, 4, 5, 6, 8, 16] case Class32 => [0, 4, 8, 12, 13, 14]
  }

  /** Field order in the file, which differs between the classes. */
  function SymbolValues(c: Class, s: Logical): seq<nat> {
    match c
    case Class64 => [s.nameOff, s.info, s.other, s.shndx, s.value, s.size]
    case Class32 => [s.nameOff, s.value, s.size, s.info, s.other, s.shndx]
  }

  ghost predicate SymbolFits(c: Class, s: Logical) {
    Fits(SymbolValues(c, s), SymbolWidths(c))
  }

  function EncodeSymbol(f: Format, s: Logical): seq<byte> {
    EncFields(f.e, SymbolValues(f.width, s), SymbolWidths(f.width))
  }

  lemma OneByte(e: Endian, b: seq<byte>, o: nat)
    requires o < |b|
    ensures Dec(e, b[o..o + 1]) == b[o]
  {
    var s := b[o..o + 1];
    assert s[1..] == [] && s[..0] == [];
  }

  function SymbolRecord(f: Format, s: Logical): Record {
    Record(f.e, SymbolValues(f.width, s), SymbolWidths(f.width), SymbolOffsets(f.width))
  }

  lemma SymbolLayout(c: Class)
    ensures Offsets(SymbolWidths(c), SymbolOffsets(c))
    ensures Width(SymbolWidths(c)) == SymbolSize(c)
  {
    var ws, offs := SymbolWidths(c), SymbolOffsets(c);
    forall k | 0 < k < 6 ensures offs[k] == offs[k - 1] + ws[k - 1] {
      if k < 4 {
        assert k == 1 || k == 2 || k == 3;
      } else {
        assert k == 4 || k == 5;
      }
    }
    WidthIs(ws, offs);
  }

  lemma SymbolPacked(f: Format, s: Logical)
    requires SymbolFits(f.width, s)
    ensures Packed(SymbolRecord(f, s), EncodeSymbol(f, s)) && |EncodeSymbol(f, s)| == SymbolSize(f.width)
  {
    SymbolLayout(f.width);
    hide Offsets;
    hide Fits;
    hide EncFields;
    hide Width;
    hide SymbolValues;
    hide SymbolWidths;
    hide SymbolOffsets;
  }

  lemma Symbol64(f: Format, s: Logical, i: nat, b: seq<byte>)
    requires f.width.Class64? && |b| == SymbolSize(f.width) && Packed(SymbolRecord(f, s), b)
    ensures SymbolIn(f, b, i) == Bare(i, s.nameOff, s.value, s.size, s.info, s.other, s.shndx)
  {
    hide Dec;
    hide Packed;
    var r := SymbolRecord(f, s);
    OneByte(f.e, b, 4);
    OneByte(f.e, b, 5);
    Found(r, b, 0, 0, 4, s.nameOff);
    Found(r, b, 1, 4, 1, s.info);
    Found(r, b, 2, 5, 1, s.other);
    Found(r, b, 3, 6, 2, s.shndx);
    Found(r, b, 4, 8, 8, s.value);
    Found(r, b, 5, 16, 8, s.size);
  }

  lemma Symbol32(f: Format, s: Logical, i: nat, b: seq<byte>)
    requires f.width.Class32? && |b| == SymbolSize(f.width) && Packed(SymbolRecord(f, s), b)
    ensures SymbolIn(f, b, i) == Bare(i, s.nameOff, s.value, s.size, s.info, s.other, s.shndx)
  {
    hide Dec;
    hide Packed;
    var r := SymbolRecord(f, s);
    OneByte(f.e, b, 12);
    OneByte(f.e, b, 13);
    Found(r, b, 0, 0, 4, s.nameOff);
    Found(r, b, 1, 4, 4, s.value);
    Found(r, b, 2, 8, 4, s.size);
    Found(r, b, 3, 12, 1, s.info);
    Found(r, b, 4, 13, 1, s.other);
    Found(r, b, 5, 14, 2, s.shndx);
  }

  lemma SymbolInverse(f: Format, s: Logical, i: nat)
    requires SymbolFits(f.width, s)
    ensures |EncodeSymbol(f, s)| == SymbolSize(f.width)
    ensures SymbolIn(f, EncodeSymbol(f, s), i) == Bare(i, s.nameOff, s.value, s.size, s.info, s.other, s.shndx)
  {
    SymbolPacked(f, s);
    hide *;
    if f.width.Class64? {
      Symbol64(f, s, i, EncodeSymbol(f, s));
    } else {
      Symbol32(f, s, i, EncodeSymbol(f, s));
    }
  }

  function EncodedSymbols(f: Format, syms: seq<Logical>): (es: seq<seq<byte>>)
    ensures |es| == |syms| && forall i :: 0 <= i < |es| ==> es[i] == EncodeSymbol(f, syms[i])
  {
    seq(|syms|, i requires 0 <= i < |syms| => EncodeSymbol(f, syms[i]))
  }

  /**
   The symbol is placed by its own section index: nowhere for 0, absolute and
   common for the two reserved numbers, otherwise in the section of that very
   index when it is there and has a name, and under its number when not.
   */
  predicate Placed(s: Symbol, sections: seq<Section>) {
    var named := s.shndx !in {0, 0xFFF1, 0xFFF2} && s.shndx < |sections| && sections[s.shndx].name != [];
    && (s.place == Undefined <==> s.shndx == 0)
    && (s.place == Absolute <==> s.shndx == 0xFFF1)
    && (s.place == Common <==> s.shndx == 0xFFF2)
    && (s.place.Named? <==> named)
    && (named ==> s.place.name == sections[s.shndx].name)
    && (s.place.Numbered? ==> s.place.shndx == s.shndx)
  }

  /** Binding and type are the two halves of the information byte, visibility the last two bits of the other. */
  predicate Split(s: Symbol) {
    s.info == 16 * s.binding + s.kind && s.kind < 16 && s.other % 4 == s.visibility < 4
  }

  /** All symbols of a table are placed and split. */
  ghost predicate AllPlaced(syms: seq<Symbol>, sections: seq<Section>) {
    forall i :: 0 <= i < |syms| ==> syms[i].index == i && Placed(syms[i], sections) && Split(syms[i])
  }

  /** Whatever the bytes, a table that can be read has every symbol placed by its own section index. */
  lemma SymbolsPlaced(data: seq<byte>, f: Format, sec: Section, sections: seq<Section>)
    ensures var t := Symbols(data, f, sec, sections);
            t.Some? ==> AllPlaced(t.value, sections)
  {
    hide Tail;
    hide ReadIn;
    hide Entries;
    hide LinkedStrings;
    hide NullString;
    hide Dec;
  }

  lemma {:induction false} LastPlaced(data: seq<byte>, f: Format, sections: seq<Section>, i: nat, kind: nat,
                                      acc: seq<Symbol>)
    requires i <= |sections| && AllPlaced(acc, sections)
    ensures AllPlaced(LastSymbols(data, f, sections, i, kind, acc), sections)
    decreases |sections| - i
  {
    hide Symbols;
    hide AllPlaced;
    if i < |sections| {
      SymbolsPlaced(data, f, sections[i], sections);
      var found := if sections[i].kind == kind then Symbols(data, f, sections[i], sections) else None;
      LastPlaced(data, f, sections, i + 1, kind, if found.Some? then found.value else acc);
    }
  }

  /** So in any file that parses, every static and dynamic symbol is placed among the sections reported. */
  lemma ParsedPlaced(data: seq<byte>, start: nat)
    requires Parse(data, start).Ok?
    ensures var file := Parse(data, start).value;
            AllPlaced(file.symbols, file.sections) && AllPlaced(file.dynSymbols, file.sections)
  {
    var file := Parse(data, start).value;
    LastPlaced(data, file.header.format, file.sections, 0, SHT_SYMTAB, []);
    LastPlaced(data, file.header.format, file.sections, 0, SHT_DYNSYM, []);
    hide AllPlaced;
    hide LastSymbols;
    hide Segments;
    hide Sections;
    hide HeaderIn;
  }

  /** What a logical symbol table means next to a section table. */
  function Meant(syms: seq<Logical>, sections: seq<Section>): (s: seq<Symbol>)
    ensures |s| == |syms| && AllPlaced(s, sections)
    ensures forall i :: 0 <= i < |s| ==>
              s[i] == Symbol(i, syms[i].name, syms[i].nameOff, syms[i].value, syms[i].size, syms[i].info, syms[i].other,
                             syms[i].shndx, syms[i].info / 16, syms[i].info % 16, syms[i].other % 4,
                             Resolve(syms[i].shndx, sections))
  {
    seq(|syms|, i requires 0 <= i < |syms| =>
      var s := syms[i];
      Symbol(i, s.name, s.nameOff, s.value, s.size, s.info, s.other, s.shndx, s.info / 16, s.info % 16, s.other % 4,
             Resolve(s.shndx, sections)))
  }

  /** A section that holds the given symbols, linked to a string table with their names. */
  ghost predicate SymbolsLaid(data: seq<byte>, f: Format, sec: Section, sections: seq<Section>,
                              syms: seq<Logical>, table: seq<byte>)
  {
    && sec.size == |syms| * SymbolSize(f.width)
    && (syms != [] ==>
          && 0 < sec.offset && Seekable(sec.offset) && Lies(data, sec.offset, Concat(EncodedSymbols(f, syms)))
          && 0 < sec.link < |sections| && StringsLaid(data, sections[sec.link], table)
          && (forall i :: 0 <= i < |syms| ==>
                SymbolFits(f.width, syms[i]) && NameLies(table, syms[i].nameOff, syms[i].name)))
  }

  lemma SymbolsRecovered(data: seq<byte>, f: Format, sec: Section, sections: seq<Section>,
                         syms: seq<Logical>, table: seq<byte>)
    requires SymbolsLaid(data, f, sec, sections, syms, table)
    ensures Symbols(data, f, sec, sections) == Some(Meant(syms, sections))
  {
    if syms == [] {
      assert Meant(syms, sections) == [];
    } else {
      var es, size := EncodedSymbols(f, syms), SymbolSize(f.width);
      SymbolsMeant(f, syms, table, sections);
      EntriesOf(es, size);
      ReadPlaced(data, sec.offset, Concat(es));
      Whole(|syms|, size);
      LinkedTable(data, sec, sections, table);
      hide Concat;
      hide Entries;
      hide SymbolsIn;
      hide Meant;
      hide LinkedStrings;
      hide StringsLaid;
      hide NameLies;
      hide SymbolFits;
      hide Tail;
      hide ReadIn;
      hide EncodedSymbols;
    }
  }

  lemma SymbolsMeant(f: Format, syms: seq<Logical>, table: seq<byte>, sections: seq<Section>)
    requires table != []
    requires forall i :: 0 <= i < |syms| ==>
               SymbolFits(f.width, syms[i]) && NameLies(table, syms[i].nameOff, syms[i].name)
    ensures Uniform(EncodedSymbols(f, syms), SymbolSize(f.width))
    ensures SymbolsIn(f, EncodedSymbols(f, syms), table, sections) == Meant(syms, sections)
  {
    var es := EncodedSymbols(f, syms);
    forall i | 0 <= i < |syms|
      ensures |es[i]| == SymbolSize(f.width)
      ensures Complete(SymbolIn(f, es[i], i), table, sections) == Meant(syms, sections)[i]
    {
      SymbolInverse(f, syms[i], i);
      NameRecovered(table, syms[i].nameOff, syms[i].name);
    }
    assert SymbolsIn(f, es, table, sections) == Meant(syms, sections);
  }

  lemma Whole(n: nat, size: nat)
    requires size in {16, 24}
    ensures n * size / size == n && (n > 0 ==> n * size > 0)
  {
  }

  lemma LinkedTable(data: seq<byte>, sec: Section, sections: seq<Section>, table: seq<byte>)
    requires 0 < sec.link < |sections| && StringsLaid(data, sections[sec.link], table)
    ensures LinkedStrings(data, sec, sections) == table
  {
    var s := sections[sec.link];
    ReadPlaced(data, s.offset, table);
  }

  // The header

  /** Header bytes the reader skips. */
  datatype Skipped = Skipped(ident: seq<byte>, kind: nat, version: nat, flags: nat, size: nat)

  function HeaderWidths(c: Class): seq<nat> {
    match c
    case Class64 => [2, 2, 4, 8, 8, 8, 4, 2, 2, 2, 2, 2, 2]
    case Class32 => [2, 2, 4, 4, 4, 4, 4, 2, 2, 2, 2, 2, 2]
  }

  function HeaderOffsets(c: Class): seq<nat> {
    match c
    case Class64 => [0, 2, 4, 8, 16, 24, 32, 36, 38, 40, 42, 44, 46]
    case Class32 => [0, 2, 4, 8, 12, 16, 20, 24, 26, 28, 30, 32, 34]
  }

  function HeaderValues(h: Header, x: Skipped): seq<nat> {
    [x.kind, h.machine, x.version, h.entry, h.phOff, h.shOff, x.flags, x.size,
     h.phEntSize, h.phNum, h.shEntSize, h.shNum, h.shStrIdx]
  }

  function Ident(f: Format, x: Skipped): seq<byte> {
    MAGIC + [if f.width.Class64? then 2 else 1, if f.e.Little? then 1 else 2] + x.ident
  }

  ghost predicate HeaderFits(h: Header, x: Skipped) {
    |x.ident| == 10 && Fits(HeaderValues(h, x), HeaderWidths(h.format.width))
  }

  function EncodeHeader(h: Header, x: Skipped): seq<byte> {
    Ident(h.format, x) + EncFields(h.format.e, HeaderValues(h, x), HeaderWidths(h.format.width))
  }

  lemma IdentRecovered(h: Header, x: Skipped, raw: seq<byte>)
    requires |x.ident| == 10 && |raw| == HEADER_READ && EncodeHeader(h, x) <= raw
    ensures Identify(raw) == Ok(h.format)
    ensures EncFields(h.format.e, HeaderValues(h, x), HeaderWidths(h.format.width)) <= From(raw, 16)
  {
    var id, fields := Ident(h.format, x), EncFields(h.format.e, HeaderValues(h, x), HeaderWidths(h.format.width));
    var b := EncodeHeader(h, x);
    hide EncFields;
    assert raw[..|b|] == b && |id| == 16;
    assert raw[..4] == MAGIC && raw[4] == id[4] && raw[5] == id[5];
    forall k | 0 <= k < |fields| ensures From(raw, 16)[k] == fields[k] {
      assert raw[16 + k] == b[16 + k];
    }
  }

  /** A field behind the 16 identification bytes. */
  lemma Beyond(raw: seq<byte>, r: Record, body: seq<byte>, k: nat, o: nat, w: nat, v: nat)
    requires |raw| == HEADER_READ && body == From(raw, 16)
    requires Packed(r, body) && Has(r, k, o, w, v)
    ensures 16 + o + w <= |raw| && Dec(r.e, raw[16 + o..16 + o + w]) == v
  {
    Found(r, body, k, o, w, v);
    SliceFrom(raw, 16, o, o + w);
  }

  function HeaderRecord(h: Header, x: Skipped): Record {
    Record(h.format.e, HeaderValues(h, x), HeaderWidths(h.format.width), HeaderOffsets(h.format.width))
  }

  /** The first half of the fields of a 64-bit header. */
  lemma Header64Front(h: Header, x: Skipped, raw: seq<byte>)
    requires h.format.width.Class64? && |raw| == HEADER_READ && Packed(HeaderRecord(h, x), From(raw, 16))
    ensures Dec(h.format.e, raw[18..20]) == h.machine && Dec(h.format.e, raw[24..32]) == h.entry
    ensures Dec(h.format.e, raw[32..40]) == h.phOff && Dec(h.format.e, raw[40..48]) == h.shOff
  {
    hide Dec;
    hide Packed;
    hide From;
    var r, body := HeaderRecord(h, x), From(raw, 16);
    Beyond(raw, r, body, 1, 2, 2, h.machine);
    Beyond(raw, r, body, 3, 8, 8, h.entry);
    Beyond(raw, r, body, 4, 16, 8, h.phOff);
    Beyond(raw, r, body, 5, 24, 8, h.shOff);
  }

  /** The second half. */
  lemma Header64Back(h: Header, x: Skipped, raw: seq<byte>)
    requires h.format.width.Class64? && |raw| == HEADER_READ && Packed(HeaderRecord(h, x), From(raw, 16))
    ensures Dec(h.format.e, raw[54..56]) == h.phEntSize && Dec(h.format.e, raw[56..58]) == h.phNum
    ensures Dec(h.format.e, raw[58..60]) == h.shEntSize && Dec(h.format.e, raw[60..62]) == h.shNum
    ensures Dec(h.format.e, raw[62..64]) == h.shStrIdx
  {
    hide Dec;
    hide Packed;
    hide From;
    var r, body := HeaderRecord(h, x), From(raw, 16);
    Beyond(raw, r, body, 8, 38, 2, h.phEntSize);
    Beyond(raw, r, body, 9, 40, 2, h.phNum);
    Beyond(raw, r, body, 10, 42, 2, h.shEntSize);
    Beyond(raw, r, body, 11, 44, 2, h.shNum);
    Beyond(raw, r, body, 12, 46, 2, h.shStrIdx);
  }

  lemma Header64(h: Header, x: Skipped, raw: seq<byte>)
    requires h.format.width.Class64? && |raw| == HEADER_READ && Packed(HeaderRecord(h, x), From(raw, 16))
    ensures HeaderIn(raw, h.format) == h
  {
    Header64Front(h, x, raw);
    Header64Back(h, x, raw);
    hide Dec;
    hide Packed;
    hide From;
    hide HeaderRecord;
  }

  /** The first half of the fields of a 32-bit header. */
  lemma Header32Front(h: Header, x: Skipped, raw: seq<byte>)
    requires h.format.width.Class32? && |raw| == HEADER_READ && Packed(HeaderRecord(h, x), From(raw, 16))
    ensures Dec(h.format.e, raw[18..20]) == h.machine && Dec(h.format.e, raw[24..28]) == h.entry
    ensures Dec(h.format.e, raw[28..32]) == h.phOff && Dec(h.format.e, raw[32..36]) == h.shOff
  {
    hide Dec;
    hide Packed;
    hide From;
    var r, body := HeaderRecord(h, x), From(raw, 16);
    Beyond(raw, r, body, 1, 2, 2, h.machine);
    Beyond(raw, r, body, 3, 8, 4, h.entry);
    Beyond(raw, r, body, 4, 12, 4, h.phOff);
    Beyond(raw, r, body, 5, 16, 4, h.shOff);
  }

  /** The second half. */
  lemma Header32Back(h: Header, x: Skipped, raw: seq<byte>)
    requires h.format.width.Class32? && |raw| == HEADER_READ && Packed(HeaderRecord(h, x), From(raw, 16))
    ensures Dec(h.format.e, raw[42..44]) == h.phEntSize && Dec(h.format.e, raw[44..46]) == h.phNum
    ensures Dec(h.format.e, raw[46..48]) == h.shEntSize && Dec(h.format.e, raw[48..50]) == h.shNum
    ensures Dec(h.format.e, raw[50..52]) == h.shStrIdx
  {
    hide Dec;
    hide Packed;
    hide From;
    var r, body := HeaderRecord(h, x), From(raw, 16);
    Beyond(raw, r, body, 8, 26, 2, h.phEntSize);
    Beyond(raw, r, body, 9, 28, 2, h.phNum);
    Beyond(raw, r, body, 10, 30, 2, h.shEntSize);
    Beyond(raw, r, body, 11, 32, 2, h.shNum);
    Beyond(raw, r, body, 12, 34, 2, h.shStrIdx);
  }

  lemma Header32(h: Header, x: Skipped, raw: seq<byte>)
    requires h.format.width.Class32? && |raw| == HEADER_READ && Packed(HeaderRecord(h, x), From(raw, 16))
    ensures HeaderIn(raw, h.format) == h
  {
    Header32Front(h, x, raw);
    Header32Back(h, x, raw);
    hide Dec;
    hide Packed;
    hide From;
    hide HeaderRecord;
  }

  lemma HeaderLayout(c: Class)
    ensures Offsets(HeaderWidths(c), HeaderOffsets(c))
  {
    var ws, offs := HeaderWidths(c), HeaderOffsets(c);
    forall k | 0 < k < 13 ensures offs[k] == offs[k - 1] + ws[k - 1] {
      if k < 5 {
        assert k == 1 || k == 2 || k == 3 || k == 4;
      } else if k < 9 {
        assert k == 5 || k == 6 || k == 7 || k == 8;
      } else {
        assert k == 9 || k == 10 || k == 11 || k == 12;
      }
    }
  }

  lemma HeaderPacked(h: Header, x: Skipped, b: seq<byte>)
    requires HeaderFits(h, x) && EncFields(h.format.e, HeaderValues(h, x), HeaderWidths(h.format.width)) <= b
    ensures Packed(HeaderRecord(h, x), b)
  {
    HeaderLayout(h.format.width);
    hide Offsets;
    hide Fits;
    hide EncFields;
    hide HeaderValues;
    hide HeaderWidths;
    hide HeaderOffsets;
  }

  /** A header of either class and byte order reads back from a file of at least 64 bytes. */
  lemma HeaderRecovered(h: Header, x: Skipped, raw: seq<byte>)
    requires HeaderFits(h, x) && |raw| == HEADER_READ && EncodeHeader(h, x) <= raw
    ensures Identify(raw) == Ok(h.format) && HeaderIn(raw, h.format) == h
  {
    IdentRecovered(h, x, raw);
    HeaderPacked(h, x, From(raw, 16));
    hide *;
    if h.format.width.Class64? {
      Header64(h, x, raw);
    } else {
      Header32(h, x, raw);
    }
  }

  // A whole file

  /** A symbol table: the section that holds it, its symbols, and their string table. A file may have none. */
  datatype Table = NoTable | TableAt(i: nat, syms: seq<Logical>, strings: seq<byte>)

  function Listed(t: Table): seq<Logical> {
    match t case NoTable => [] case TableAt(_, syms, _) => syms
  }

  /** No section is of this kind, or the last one that is holds the table. */
  ghost predicate TableLaid(data: seq<byte>, f: Format, secs: seq<Section>, kind: nat, t: Table) {
    match t
    case NoTable => forall k :: 0 <= k < |secs| ==> secs[k].kind != kind
    case TableAt(i, syms, strings) =>
      && i < |secs| && secs[i].kind == kind
      && (forall k :: i < k < |secs| ==> secs[k].kind != kind)
      && SymbolsLaid(data, f, secs[i], secs, syms, strings)
  }

  lemma {:induction false} NoMoreTables(data: seq<byte>, f: Format, secs: seq<Section>, from: nat, kind: nat,
                                        acc: seq<Symbol>)
    requires from <= |secs| && forall k :: from <= k < |secs| ==> secs[k].kind != kind
    ensures LastSymbols(data, f, secs, from, kind, acc) == acc
    decreases |secs| - from
  {
    hide Symbols;
    if from < |secs| {
      NoMoreTables(data, f, secs, from + 1, kind, acc);
    }
  }

  /** The last readable table of a kind is the one that is reported. */
  lemma {:induction false} LastTable(data: seq<byte>, f: Format, secs: seq<Section>, from: nat, i: nat, kind: nat,
                                     found: seq<Symbol>, acc: seq<Symbol>)
    requires from <= i < |secs| && secs[i].kind == kind
    requires forall k :: i < k < |secs| ==> secs[k].kind != kind
    requires Symbols(data, f, secs[i], secs) == Some(found)
    ensures LastSymbols(data, f, secs, from, kind, acc) == found
    decreases i - from
  {
    hide Symbols;
    if from < i {
      var here := if secs[from].kind == kind then Symbols(data, f, secs[from], secs) else None;
      LastTable(data, f, secs, from + 1, i, kind, found, if here.Some? then here.value else acc);
    } else {
      NoMoreTables(data, f, secs, i + 1, kind, found);
    }
  }

  lemma TableRecovered(data: seq<byte>, f: Format, secs: seq<Section>, kind: nat, t: Table)
    requires TableLaid(data, f, secs, kind, t)
    ensures LastSymbols(data, f, secs, 0, kind, []) == Meant(Listed(t), secs)
  {
    hide Symbols;
    match t
    case NoTable =>
      NoMoreTables(data, f, secs, 0, kind, []);
      assert Meant([], secs) == [];
    case TableAt(i, syms, strings) =>
      SymbolsRecovered(data, f, secs[i], secs, syms, strings);
      LastTable(data, f, secs, 0, i, kind, Meant(syms, secs), []);
  }

  /** What a file says: its segments, its sections with their names, and its symbol tables. */
  datatype Contents = Contents(segs: seq<Segment>, secs: seq<Section>, names: seq<byte>, symtab: Table, dynsym: Table)

  /** The file holds the contents, in the class and byte order of its header and wherever its tables point. */
  ghost predicate FileLaid(data: seq<byte>, h: Header, x: Skipped, c: Contents) {
    match c
    case Contents(segs, secs, names, symtab, dynsym) =>
      && |data| >= HEADER_READ && HeaderFits(h, x) && EncodeHeader(h, x) <= data[..HEADER_READ]
      && SegmentsLaid(data, h, segs) && SectionsLaid(data, h, secs, names)
      && TableLaid(data, h.format, secs, SHT_SYMTAB, symtab)
      && TableLaid(data, h.format, secs, SHT_DYNSYM, dynsym)
  }

  function Reported(h: Header, c: Contents): File {
    File(h, c.segs, c.secs, Meant(Listed(c.symtab), c.secs), Meant(Listed(c.dynsym), c.secs))
  }

  lemma HeaderOf(data: seq<byte>, h: Header, x: Skipped)
    requires |data| >= HEADER_READ && HeaderFits(h, x) && EncodeHeader(h, x) <= data[..HEADER_READ]
    ensures ReadIn(Tail(data, 0), HEADER_READ) == Full(data[..HEADER_READ])
    ensures Identify(data[..HEADER_READ]) == Ok(h.format) && HeaderIn(data[..HEADER_READ], h.format) == h
  {
    HeaderRecovered(h, x, data[..HEADER_READ]);
    hide Identify;
    hide HeaderIn;
    hide HeaderFits;
    hide EncodeHeader;
  }

  /**
   A file that holds the given contents parses to exactly those, in any class
   and byte order and at any layout. Stripped files, static ones and object
   files are among them: segments, sections and either symbol table may be
   missing.
   */
  lemma FileRecovered(data: seq<byte>, h: Header, x: Skipped, c: Contents)
    requires FileLaid(data, h, x, c)
    ensures Parse(data, 0) == Ok(Reported(h, c))
  {
    HeaderOf(data, h, x);
    SegmentsRecovered(data, h, c.segs);
    SectionsRecovered(data, h, c.secs, c.names);
    TableRecovered(data, h.format, c.secs, SHT_SYMTAB, c.symtab);
    TableRecovered(data, h.format, c.secs, SHT_DYNSYM, c.dynsym);
    hide *;
    ParseOf(data, h, c);
  }

  lemma ParseOf(data: seq<byte>, h: Header, c: Contents)
    requires |data| >= HEADER_READ && ReadIn(Tail(data, 0), HEADER_READ) == Full(data[..HEADER_READ])
    requires Identify(data[..HEADER_READ]) == Ok(h.format) && HeaderIn(data[..HEADER_READ], h.format) == h
    requires Segments(data, h) == Ok(c.segs) && Sections(data, h) == Ok(c.secs)
    requires LastSymbols(data, h.format, c.secs, 0, SHT_SYMTAB, []) == Meant(Listed(c.symtab), c.secs)
    requires LastSymbols(data, h.format, c.secs, 0, SHT_DYNSYM, []) == Meant(Listed(c.dynsym), c.secs)
    ensures Parse(data, 0) == Ok(Reported(h, c))
  {
    hide Identify;
    hide HeaderIn;
    hide Segments;
    hide Sections;
    hide LastSymbols;
    hide Meant;
    hide ReadIn;
    hide Tail;
  }

  // All four encodings

  /** One section in two files: where its bytes lie, and how many an entry or the whole takes, is each file's own. */
  predicate SameSection(a: Section, b: Section) {
    a.(offset := b.offset, size := b.size, entSize := b.entSize) == b
  }

  ghost predicate SameSections(a: seq<Section>, b: seq<Section>) {
    |a| == |b| && forall i :: 0 <= i < |a| ==> SameSection(a[i], b[i])
  }

  /** The same logical tables. */
  ghost predicate SameContents(a: Contents, b: Contents) {
    && a.segs == b.segs && SameSections(a.secs, b.secs)
    && Listed(a.symtab) == Listed(b.symtab) && Listed(a.dynsym) == Listed(b.dynsym)
  }

  /** What a symbol means depends on the sections' names only. */
  lemma MeantBySections(syms: seq<Logical>, a: seq<Section>, b: seq<Section>)
    requires SameSections(a, b)
    ensures Meant(syms, a) == Meant(syms, b)
  {
    forall i | 0 <= i < |syms| ensures Resolve(syms[i].shndx, a) == Resolve(syms[i].shndx, b) {
      var k := syms[i].shndx;
      if k < |a| {
        assert SameSection(a[k], b[k]);
      }
    }
  }

  /**
   The same logical tables, written in any two of the four encodings and at
   any two layouts, parse to equal segments, symbols and dynamic symbols, and
   to sections that are equal up to where and in how many bytes they are
   stored.
   */
  lemma EncodingIrrelevant(dataA: seq<byte>, hA: Header, xA: Skipped, a: Contents,
                           dataB: seq<byte>, hB: Header, xB: Skipped, b: Contents)
    requires FileLaid(dataA, hA, xA, a) && FileLaid(dataB, hB, xB, b) && SameContents(a, b)
    ensures Parse(dataA, 0).Ok? && Parse(dataB, 0).Ok?
    ensures var fa, fb := Parse(dataA, 0).value, Parse(dataB, 0).value;
            && fa.header == hA && fb.header == hB
            && fa.segments == fb.segments && SameSections(fa.sections, fb.sections)
            && fa.symbols == fb.symbols && fa.dynSymbols == fb.dynSymbols
  {
    FileRecovered(dataA, hA, xA, a);
    FileRecovered(dataB, hB, xB, b);
    MeantBySections(Listed(a.symtab), a.secs, b.secs);
    MeantBySections(Listed(a.dynsym), a.secs, b.secs);
    hide FileLaid;
    hide Parse;
    hide Meant;
    hide SameSections;
  }
}
