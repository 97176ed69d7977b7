/**
 What the ELF reader of internal/binary answers on arbitrary bytes: exactly
 which files it refuses and why, which section and symbol names it reports when
 string tables are missing or cut, and which symbol tables it reports at all.
 */
module ElfAnswers {
  import opened Prelude
  import opened Bytes
  import opened Streams
  import opened Elf

  // Refusals

  predicate InBytes(data: seq<byte>, offset: nat, n: nat) {
    offset < 0x8000_0000_0000_0000 && offset + n <= |data|
  }

  /** A table of `n` entries is absent, or it can be sought and lies in the file. */
  predicate TableThere(data: seq<byte>, offset: nat, n: nat, size: nat) {
    offset == 0 || n == 0 || InBytes(data, offset, n * size)
  }

  /** How a read of `n` bytes comes short: with nothing, or with less than asked for. */
  function HowShort(data: seq<byte>, offset: nat): Cut {
    if offset >= |data| then AtEnd else Partway
  }

  /** The error of a table that is not there. */
  predicate TableError(data: seq<byte>, offset: nat, seeking: Error, short: Error, error: Error) {
    error == if offset >= 0x8000_0000_0000_0000 then seeking else short
  }

  /** The header read from the 64 bytes at `start`, whose class and byte order are those of bytes 4 and 5. */
  function HeaderAt(data: seq<byte>, start: nat): Header
    requires start + 64 <= |data|
  {
    HeaderIn(data[start..start + 64],
             Format(if data[start + 4] == 2 then Class64 else Class32, if data[start + 5] == 1 then Little else Big))
  }

  predicate Segmented(data: seq<byte>, h: Header) {
    TableThere(data, h.phOff, h.phNum, if h.format.width.Class64? then 56 else 32)
  }

  predicate Sectioned(data: seq<byte>, h: Header) {
    TableThere(data, h.shOff, h.shNum, if h.format.width.Class64? then 64 else 40)
  }

  /**
   Every file is parsed or refused for the first of these reasons: fewer than
   64 bytes, another magic number, another class, another byte order, program
   headers not there, section headers not there. What is wrong with symbol
   tables or names is never a reason.
   */
  lemma AnsweredExactly(data: seq<byte>, start: nat)
    ensures var r := Parse(data, start);
            if start + 64 > |data| then r == Failed(ShortHeader(HowShort(data, start)))
            else if data[start..start + 4] != [0x7F, 0x45, 0x4C, 0x46] then r == Failed(BadMagic)
            else if data[start + 4] !in {1, 2} then r == Failed(BadClass(data[start + 4]))
            else if data[start + 5] !in {1, 2} then r == Failed(BadEncoding(data[start + 5]))
            else
              var h := HeaderAt(data, start);
              if !Segmented(data, h) then
                r.Failed? && TableError(data, h.phOff, SegmentSeek, SegmentRead(HowShort(data, h.phOff)), r.error)
              else if !Sectioned(data, h) then
                r.Failed? && TableError(data, h.shOff, SectionSeek, SectionRead(HowShort(data, h.shOff)), r.error)
              else r.Ok? && r.value.header == h && |r.value.segments| == Listing(h.phOff, h.phNum)
                   && |r.value.sections| == Listing(h.shOff, h.shNum)
  {
    TailIs(data, start, 64);
    if start + 64 <= |data| {
      var raw := data[start..start + 64];
      SliceTake4(data, start);
      assert raw[4] == data[start + 4] && raw[5] == data[start + 5];
      if Identify(raw).Ok? {
        SegmentsAnswered(data, HeaderAt(data, start));
        SectionsAnswered(data, HeaderAt(data, start));
      }
    }
    hide HeaderIn;
    hide Segments;
    hide Sections;
    hide LastSymbols;
    hide Segmented;
    hide Sectioned;
    hide ReadIn;
    hide Tail;
    hide TableError;
  }

  /** How many entries are reported of a table that is absent when it has no offset. */
  function Listing(offset: nat, n: nat): nat {
    if offset == 0 then 0 else n
  }

  lemma SliceTake4(data: seq<byte>, start: nat)
    requires start + 64 <= |data|
    ensures data[start..start + 64][..4] == data[start..start + 4]
  {
  }

  lemma TailIs(data: seq<byte>, offset: nat, n: nat)
    ensures ReadIn(Tail(data, offset), n) ==
            if offset + n <= |data| then Full(data[offset..offset + n])
            else if n == 0 then Full([]) else Short(HowShort(data, offset))
  {
    if offset + n <= |data| {
      Skipping(data, offset, n);
    }
  }

  lemma SegmentsAnswered(data: seq<byte>, h: Header)
    ensures var r := Segments(data, h);
            if Segmented(data, h) then r.Ok? && |r.value| == Listing(h.phOff, h.phNum)
            else r.Failed? && TableError(data, h.phOff, SegmentSeek, SegmentRead(HowShort(data, h.phOff)), r.error)
  {
    TailIs(data, h.phOff, h.phNum * SegmentSize(h.format.width));
    hide Tail;
    hide ReadIn;
    hide SegmentIn;
    hide Entries;
  }

  lemma SectionsAnswered(data: seq<byte>, h: Header)
    ensures var r := Sections(data, h);
            if Sectioned(data, h) then r.Ok? && |r.value| == Listing(h.shOff, h.shNum)
            else r.Failed? && TableError(data, h.shOff, SectionSeek, SectionRead(HowShort(data, h.shOff)), r.error)
  {
    TailIs(data, h.shOff, h.shNum * SectionSize(h.format.width));
    hide Tail;
    hide ReadIn;
    hide SectionIn;
    hide Entries;
    hide Strings;
  }

  // Names

  /** What is found at an offset of a string table: the bytes up to the first zero or the end of the table. */
  predicate StringAt(table: seq<byte>, offset: nat, s: seq<byte>) {
    if offset >= |table| then s == []
    else
      && offset + |s| <= |table| && s == table[offset..offset + |s|] && 0 !in s
      && (offset + |s| == |table| || table[offset + |s|] == 0)
  }

  lemma NullStringAt(table: seq<byte>, offset: nat)
    ensures StringAt(table, offset, NullString(table, offset))
  {
  }

  /** The table of section names: of type 3, not empty, and wholly in the file. Section 0 is none. */
  predicate NameTable(data: seq<byte>, idx: nat, sections: seq<Section>) {
    && 0 < idx < |sections| && sections[idx].kind == 3 && sections[idx].size > 0
    && InBytes(data, sections[idx].offset, sections[idx].size)
  }

  /** Each section has the name its offset leads to in that table; without such a table none has a name. */
  predicate Named(data: seq<byte>, idx: nat, sections: seq<Section>) {
    if NameTable(data, idx, sections) then
      var t := sections[idx];
      forall i :: 0 <= i < |sections| ==>
        StringAt(data[t.offset..t.offset + t.size], sections[i].nameOff, sections[i].name)
    else forall i :: 0 <= i < |sections| ==> sections[i].name == []
  }

  lemma SectionsNamed(data: seq<byte>, start: nat)
    requires Parse(data, start).Ok?
    ensures var file := Parse(data, start).value;
            Named(data, file.header.shStrIdx, file.sections)
  {
    var h := Parse(data, start).value.header;
    SectionsOf(data, h);
    hide Named;
    hide Sections;
    hide Segments;
    hide LastSymbols;
    hide HeaderIn;
    hide Identify;
  }

  lemma SectionsOf(data: seq<byte>, h: Header)
    ensures var r := Sections(data, h);
            r.Ok? ==> Named(data, h.shStrIdx, r.value)
  {
    hide SectionIn;
    hide Entries;
    hide Tail;
    hide ReadIn;
    hide Resolved;
    hide Named;
    if h.shOff != 0 && h.shNum != 0 && Sections(data, h).Ok? {
      var buf := ReadIn(Tail(data, h.shOff), h.shNum * SectionSize(h.format.width)).bytes;
      var bare := SectionsBare(h, buf);
      ResolvedNamed(data, h, bare);
    } else {
      NoSections(data, h.shStrIdx);
    }
  }

  lemma NoSections(data: seq<byte>, idx: nat)
    ensures Named(data, idx, [])
  {
  }

  lemma SectionsBare(h: Header, buf: seq<byte>) returns (bare: seq<Section>)
    requires |buf| == h.shNum * SectionSize(h.format.width)
    ensures bare == SectionsIn(h.format, Entries(buf, SectionSize(h.format.width), h.shNum))
    ensures forall i :: 0 <= i < |bare| ==> bare[i].name == []
  {
    bare := SectionsIn(h.format, Entries(buf, SectionSize(h.format.width), h.shNum));
    hide Dec;
    hide Entries;
  }

  lemma ResolvedNamed(data: seq<byte>, h: Header, bare: seq<Section>)
    requires forall i :: 0 <= i < |bare| ==> bare[i].name == []
    ensures Named(data, h.shStrIdx, Resolved(data, h, bare))
  {
    hide Tail;
    hide ReadIn;
    hide NullString;
    hide StringAt;
    var idx := h.shStrIdx;
    if 0 < idx < |bare| {
      TailIs(data, bare[idx].offset, bare[idx].size);
      var t := bare[idx];
      forall table: seq<byte>, i | 0 <= i < |bare|
        ensures StringAt(table, bare[i].nameOff, NullString(table, bare[i].nameOff))
      {
        NullStringAt(table, bare[i].nameOff);
      }
    }
  }

  // Symbol tables

  function EntrySize(f: Format): nat {
    if f.width.Class64? then 24 else 16
  }

  /** How many whole entries a symbol table has. */
  function Whole(f: Format, sec: Section): nat {
    if sec.offset == 0 then 0 else sec.size / EntrySize(f)
  }

  /** The table has no entries to look for, or they can be read. */
  predicate Readable(data: seq<byte>, f: Format, sec: Section) {
    sec.size == 0 || sec.offset == 0
    || (sec.offset < 0x8000_0000_0000_0000
        && (Whole(f, sec) == 0 || sec.offset + Whole(f, sec) * EntrySize(f) <= |data|))
  }

  /** The names of a symbol table are looked up in the string table it links to: section 0 is none. */
  predicate LinksTo(sec: Section, sections: seq<Section>) {
    0 < sec.link < |sections| && sections[sec.link].kind == 3
  }

  /** The table as the reader has it: of its declared size, with zeros for the bytes that cannot be read. */
  predicate Padded(data: seq<byte>, t: Section, table: seq<byte>) {
    && |table| == t.size
    && forall j :: 0 <= j < t.size ==> table[j] == if InBytes(data, t.offset, j + 1) then data[t.offset + j] else 0
  }

  /** Each symbol has the name its offset leads to in the linked table; without one it has none. */
  ghost predicate SymbolsNamed(data: seq<byte>, sec: Section, sections: seq<Section>, syms: seq<Symbol>) {
    if LinksTo(sec, sections) then
      exists table :: Padded(data, sections[sec.link], table) && AllAt(table, syms)
    else Nameless(syms)
  }

  predicate AllAt(table: seq<byte>, syms: seq<Symbol>) {
    forall i :: 0 <= i < |syms| ==> StringAt(table, syms[i].nameOff, syms[i].name)
  }

  predicate Nameless(syms: seq<Symbol>) {
    forall i :: 0 <= i < |syms| ==> syms[i].name == []
  }

  lemma LinkedExactly(data: seq<byte>, sec: Section, sections: seq<Section>)
    ensures var table := LinkedStrings(data, sec, sections);
            if LinksTo(sec, sections) then Padded(data, sections[sec.link], table) else table == []
  {
  }

  /** A table is read exactly when its entries are there; it has as many symbols as whole entries fit its size. */
  lemma TableExactly(data: seq<byte>, f: Format, sec: Section, sections: seq<Section>)
    ensures var t := Symbols(data, f, sec, sections);
            && (t.Some? <==> Readable(data, f, sec))
            && (t.Some? ==> |t.value| == Whole(f, sec) && SymbolsNamed(data, sec, sections, t.value))
  {
    TailIs(data, sec.offset, Whole(f, sec) * SymbolSize(f.width));
    LinkedExactly(data, sec, sections);
    var t, table := Symbols(data, f, sec, sections), LinkedStrings(data, sec, sections);
    if t.Some? {
      forall i | 0 <= i < |t.value| ensures StringAt(table, t.value[i].nameOff, t.value[i].name) {
        NullStringAt(table, t.value[i].nameOff);
      }
      assert AllAt(table, t.value);
    }
    hide Tail;
    hide ReadIn;
    hide SymbolIn;
    hide Entries;
    hide LinkedStrings;
    hide Padded;
    hide NullString;
    hide Resolve;
  }

  /** The last readable symbol table of a type from section `i` on is `syms`, or there is none and `syms` is `acc`. */
  ghost predicate LastFrom(data: seq<byte>, f: Format, kind: nat, sections: seq<Section>, i: nat,
                           acc: seq<Symbol>, syms: seq<Symbol>)
  {
    if forall k :: i <= k < |sections| && sections[k].kind == kind ==> !Readable(data, f, sections[k]) then syms == acc
    else
      exists k ::
        && i <= k < |sections| && sections[k].kind == kind
        && Symbols(data, f, sections[k], sections) == Some(syms)
        && forall j :: k < j < |sections| && sections[j].kind == kind ==> !Readable(data, f, sections[j])
  }

  lemma {:induction false} LastReadable(data: seq<byte>, f: Format, kind: nat, sections: seq<Section>, i: nat,
                                        acc: seq<Symbol>)
    requires i <= |sections|
    ensures LastFrom(data, f, kind, sections, i, acc, LastSymbols(data, f, sections, i, kind, acc))
    decreases |sections| - i
  {
    hide Symbols;
    hide Readable;
    if i < |sections| {
      TableExactly(data, f, sections[i], sections);
      var found := if sections[i].kind == kind then Symbols(data, f, sections[i], sections) else None;
      LastReadable(data, f, kind, sections, i + 1, if found.Some? then found.value else acc);
    }
  }

  /** Static symbols come from the last readable section of type 2, dynamic ones from that of type 11. */
  lemma TablesExactly(data: seq<byte>, start: nat)
    requires Parse(data, start).Ok?
    ensures var file := Parse(data, start).value;
            && LastFrom(data, file.header.format, 2, file.sections, 0, [], file.symbols)
            && LastFrom(data, file.header.format, 11, file.sections, 0, [], file.dynSymbols)
  {
    var file := Parse(data, start).value;
    var f := file.header.format;
    LastReadable(data, f, 2, file.sections, 0, []);
    LastReadable(data, f, 11, file.sections, 0, []);
    hide LastSymbols;
    hide Segments;
    hide Sections;
    hide HeaderIn;
    hide LastFrom;
  }
}
