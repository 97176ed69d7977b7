/**
 Files to go with the theorems on ELF tables: any segments, symbols and names
 that 32-bit entries can hold are laid out here in each of the four encodings,
 so the same contents in a 32-bit and in a 64-bit file are a case that exists,
 and writing them and parsing them back is the identity.
 */
module ElfImages {
  import opened Prelude
  import opened Bytes
  import opened Streams
  import opened Elf
  import opened ElfTheorems

  /** A string table, and where in it the names of the two tables' sections stand. */
  datatype Names = Names(table: seq<byte>, strName: seq<byte>, strOff: nat, symName: seq<byte>, symOff: nat)

  /** What is written, whatever the encoding. */
  datatype Plan = Plan(names: Names, syms: seq<Logical>, segs: seq<Segment>)

  predicate NarrowSymbol(s: Logical) {
    s.nameOff < U32 && s.value < U32 && s.size < U32 && s.shndx < U16
  }

  predicate NarrowSegment(s: Segment) {
    && s.kind < U32 && s.flags < U32 && s.offset < U32 && s.vaddr < U32 && s.paddr < U32
    && s.fileSize < U32 && s.memSize < U32 && s.align < U32
  }

  lemma SymbolFitsBoth(c: Class, s: Logical)
    requires NarrowSymbol(s)
    ensures SymbolFits(c, s)
  {
    Pow256Values();
    hide Pow256;
  }

  lemma SegmentFitsBoth(c: Class, s: Segment)
    requires NarrowSegment(s)
    ensures SegmentFits(c, s)
  {
    Pow256Values();
    hide Pow256;
  }

  /** Names stand where they are said to, and everything fits 32-bit entries. */
  ghost predicate Sound(p: Plan) {
    match p
    case Plan(Names(table, strName, strOff, symName, symOff), syms, segs) =>
      && table != [] && NameLies(table, 0, []) && NameLies(table, strOff, strName) && NameLies(table, symOff, symName)
      && (forall i :: 0 <= i < |syms| ==> NarrowSymbol(syms[i]) && NameLies(table, syms[i].nameOff, syms[i].name))
      && (forall i :: 0 <= i < |segs| ==> NarrowSegment(segs[i]) && segs[i].index == i)
      && |segs| < U16 && 256 + |table| + 24 * |syms| < U32
  }

  // Layout: header, section table, strings, symbols, segments

  function StringsAt(f: Format): nat {
    HEADER_READ + 3 * SectionSize(f.width)
  }

  function SymbolsAt(f: Format, p: Plan): nat {
    StringsAt(f) + |p.names.table|
  }

  function SegmentsAt(f: Format, p: Plan): nat {
    SymbolsAt(f, p) + |p.syms| * SymbolSize(f.width)
  }

  /** The null section, the string table, and the symbol table linked to it. */
  function SectionsOf(f: Format, p: Plan): (s: seq<Section>)
    ensures |s| == 3
  {
    var n := p.names;
    [Section(0, [], 0, 0, 0, 0, 0, 0, 0, 0, 0, 0),
     Section(1, n.strName, n.strOff, SHT_STRTAB, 0, 0, StringsAt(f), |n.table|, 0, 0, 1, 0),
     Section(2, n.symName, n.symOff, SHT_SYMTAB, 0, 0, SymbolsAt(f, p), |p.syms| * SymbolSize(f.width), 1, 0, 4,
             SymbolSize(f.width))]
  }

  function HeaderOfPlan(f: Format, p: Plan): Header {
    Header(f, 62, 0, SegmentsAt(f, p), HEADER_READ, SegmentSize(f.width), |p.segs|, SectionSize(f.width), 3, 1)
  }

  const SKIPPED := Skipped(seq(10, _ => 0), 1, 1, 0, 0)

  /** The header, filled up to 64 bytes. */
  function Head(f: Format, p: Plan): seq<byte> {
    var b := EncodeHeader(HeaderOfPlan(f, p), SKIPPED);
    b + if f.width.Class64? then [] else seq(12, _ => 0)
  }

  /** The pieces of a file, in their order. */
  datatype Parts = Parts(head: seq<byte>, secs: seq<byte>, table: seq<byte>, syms: seq<byte>, segs: seq<byte>)

  function Joined(x: Parts): seq<byte> {
    x.head + (x.secs + (x.table + (x.syms + x.segs)))
  }

  function PartsOf(f: Format, p: Plan): Parts {
    Parts(Head(f, p), Concat(EncodedSections(f, SectionsOf(f, p))), p.names.table,
          Concat(EncodedSymbols(f, p.syms)), Concat(EncodedSegments(f, p.segs)))
  }

  function ImageOf(f: Format, p: Plan): seq<byte> {
    Joined(PartsOf(f, p))
  }

  function ContentsOf(f: Format, p: Plan): Contents {
    Contents(p.segs, SectionsOf(f, p), p.names.table, TableAt(2, p.syms, p.names.table), NoTable)
  }

  lemma LiesAfter(before: seq<byte>, b: seq<byte>, after: seq<byte>)
    ensures Lies(before + (b + after), |before|, b)
  {
    Middle(before, b, after);
  }

  /** The pieces lie one after another, each where the lengths before it put it. */
  ghost predicate InRow(s: seq<byte>, x: Parts) {
    match x
    case Parts(h, a, b, c, d) =>
      && Lies(s, |h|, a) && Lies(s, |h| + |a|, b)
      && Lies(s, |h| + |a| + |b|, c) && Lies(s, |h| + |a| + |b| + |c|, d)
  }

  lemma JoinedInRow(x: Parts)
    ensures InRow(Joined(x), x)
  {
    hide Lies;
    var h, a, b, c, d := x.head, x.secs, x.table, x.syms, x.segs;
    LiesAfter(h, a, b + (c + d));
    Assoc(h, a, b + (c + d));
    LiesAfter(h + a, b, c + d);
    Assoc(h + a, b, c + d);
    LiesAfter(h + a + b, c, d);
    Assoc(h + a + b, c, d);
    LiesAfter(h + a + b + c, d, []);
    Neutral(d);
  }

  lemma HeadFirst(f: Format, p: Plan)
    ensures Head(f, p) <= ImageOf(f, p)
  {
    var x := PartsOf(f, p);
    assert x.head == Head(f, p) && ImageOf(f, p) == Joined(x);
    hide *;
    Prefix(x);
  }

  lemma Prefix(x: Parts)
    ensures x.head <= Joined(x)
  {
  }

  lemma HeaderFitsPlan(f: Format, p: Plan)
    requires Sound(p)
    ensures HeaderFits(HeaderOfPlan(f, p), SKIPPED)
  {
    Pow256Values();
    hide Pow256;
    hide NameLies;
    hide NarrowSymbol;
    hide NarrowSegment;
  }

  lemma HeadSize(f: Format, p: Plan)
    requires Sound(p)
    ensures |Head(f, p)| == HEADER_READ && EncodeHeader(HeaderOfPlan(f, p), SKIPPED) <= Head(f, p)
  {
    HeaderLayout(f.width);
    WidthIs(HeaderWidths(f.width), HeaderOffsets(f.width));
    hide Width;
    hide Sound;
    hide EncFields;
    hide Offsets;
  }

  lemma SectionsFit(f: Format, p: Plan)
    requires Sound(p)
    ensures forall i :: 0 <= i < 3 ==>
              SectionsOf(f, p)[i].index == i && SectionFits(f.width, SectionsOf(f, p)[i])
    ensures Uniform(EncodedSections(f, SectionsOf(f, p)), SectionSize(f.width))
  {
    var secs := SectionsOf(f, p);
    Pow256Values();
    hide Pow256;
    forall i | 0 <= i < 3 ensures secs[i].index == i && SectionFits(f.width, secs[i]) {
      assert i == 0 || i == 1 || i == 2;
    }
    forall i | 0 <= i < 3 ensures |EncodedSections(f, secs)[i]| == SectionSize(f.width) {
      SectionInverse(f, secs[i], i);
    }
  }

  lemma SymbolsFit(f: Format, p: Plan)
    requires Sound(p)
    ensures forall i :: 0 <= i < |p.syms| ==> SymbolFits(f.width, p.syms[i])
    ensures Uniform(EncodedSymbols(f, p.syms), SymbolSize(f.width))
  {
    forall i | 0 <= i < |p.syms|
      ensures SymbolFits(f.width, p.syms[i]) && |EncodedSymbols(f, p.syms)[i]| == SymbolSize(f.width)
    {
      SymbolFitsBoth(f.width, p.syms[i]);
      SymbolInverse(f, p.syms[i], i);
    }
  }

  lemma SegmentsFit(f: Format, p: Plan)
    requires Sound(p)
    ensures forall i :: 0 <= i < |p.segs| ==> p.segs[i].index == i && SegmentFits(f.width, p.segs[i])
  {
    forall i | 0 <= i < |p.segs| ensures SegmentFits(f.width, p.segs[i]) {
      SegmentFitsBoth(f.width, p.segs[i]);
    }
  }

  lemma PieceSizes(f: Format, p: Plan)
    requires Sound(p)
    ensures var x := PartsOf(f, p);
            && |x.head| == HEADER_READ && |x.head| + |x.secs| == StringsAt(f)
            && |x.syms| == |p.syms| * SymbolSize(f.width) && x.table == p.names.table
  {
    HeadSize(f, p);
    SectionsFit(f, p);
    SymbolsFit(f, p);
    ConcatSize(EncodedSections(f, SectionsOf(f, p)), SectionSize(f.width));
    ConcatSize(EncodedSymbols(f, p.syms), SymbolSize(f.width));
    hide Sound;
    hide Concat;
    hide SymbolFits;
    hide SectionFits;
    hide EncodeHeader;
    hide Head;
  }

  /** The pieces of an image lie where the plan says. */
  ghost predicate Arranged(s: seq<byte>, f: Format, p: Plan) {
    match PartsOf(f, p)
    case Parts(head, secs, table, syms, segs) =>
      && Lies(s, HEADER_READ, secs) && Lies(s, StringsAt(f), table)
      && Lies(s, SymbolsAt(f, p), syms) && Lies(s, SegmentsAt(f, p), segs)
  }

  lemma ImageLies(f: Format, p: Plan)
    requires Sound(p)
    ensures Arranged(ImageOf(f, p), f, p)
  {
    PieceSizes(f, p);
    JoinedInRow(PartsOf(f, p));
    Arrange(ImageOf(f, p), f, p);
    hide Sound;
    hide PartsOf;
    hide InRow;
    hide Joined;
    hide Arranged;
  }

  lemma Arrange(s: seq<byte>, f: Format, p: Plan)
    requires InRow(s, PartsOf(f, p))
    requires var x := PartsOf(f, p);
             && |x.head| == HEADER_READ && |x.head| + |x.secs| == StringsAt(f)
             && |x.syms| == |p.syms| * SymbolSize(f.width) && x.table == p.names.table
    ensures Arranged(s, f, p)
  {
    hide PartsOf;
    hide Lies;
    hide StringsAt;
    hide SymbolSize;
  }

  lemma ImageSections(s: seq<byte>, f: Format, p: Plan)
    requires Sound(p) && Arranged(s, f, p)
    ensures SectionsLaid(s, HeaderOfPlan(f, p), SectionsOf(f, p), p.names.table)
  {
    SectionsFit(f, p);
    ImageNames(s, f, p);
    hide Lies;
    hide NamesLaid;
    hide SectionFits;
    hide EncodedSections;
    hide EncodedSymbols;
    hide EncodedSegments;
    hide Concat;
    hide Sound;
    hide SectionsOf;
    hide Head;
    hide SymbolsAt;
    hide SegmentsAt;
    hide StringsAt;
  }

  lemma ImageNames(s: seq<byte>, f: Format, p: Plan)
    requires Sound(p) && Arranged(s, f, p)
    ensures NamesLaid(s, HeaderOfPlan(f, p), SectionsOf(f, p), p.names.table)
  {
    NamesOf(f, p);
    hide Lies;
    hide NameLies;
    hide Concat;
    hide Sound;
    hide Head;
    hide EncodedSections;
    hide EncodedSymbols;
    hide EncodedSegments;
    var secs := SectionsOf(f, p);
    forall i | 0 <= i < 3 ensures NameLies(p.names.table, secs[i].nameOff, secs[i].name) {
      assert i == 0 || i == 1 || i == 2;
    }
  }

  lemma ImageSegments(s: seq<byte>, f: Format, p: Plan)
    requires Sound(p) && Arranged(s, f, p)
    ensures SegmentsLaid(s, HeaderOfPlan(f, p), p.segs)
  {
    SegmentsFit(f, p);
    NamesOf(f, p);
    hide Lies;
    hide NameLies;
    hide SegmentFits;
    hide EncodedSections;
    hide EncodedSymbols;
    hide EncodedSegments;
    hide Concat;
    hide Sound;
    hide Head;
    hide SectionsOf;
    hide StringsAt;
    hide SymbolsAt;
    hide SegmentsAt;
  }

  lemma NamesOf(f: Format, p: Plan)
    requires Sound(p)
    ensures p.names.table != [] && StringsAt(f) < SymbolsAt(f, p) <= SegmentsAt(f, p) < U32
    ensures NameLies(p.names.table, 0, [])
    ensures NameLies(p.names.table, p.names.strOff, p.names.strName)
    ensures NameLies(p.names.table, p.names.symOff, p.names.symName)
    ensures forall i :: 0 <= i < |p.syms| ==> NameLies(p.names.table, p.syms[i].nameOff, p.syms[i].name)
  {
    hide NameLies;
    hide NarrowSymbol;
    hide NarrowSegment;
  }

  lemma ImageSymbols(s: seq<byte>, f: Format, p: Plan)
    requires Sound(p) && Arranged(s, f, p)
    ensures SymbolsLaid(s, f, SectionsOf(f, p)[2], SectionsOf(f, p), p.syms, p.names.table)
  {
    SymbolsFit(f, p);
    NamesOf(f, p);
    hide Lies;
    hide NameLies;
    hide SymbolFits;
    hide EncodedSections;
    hide EncodedSymbols;
    hide EncodedSegments;
    hide Concat;
    hide Sound;
    hide Head;
    hide StringsAt;
    hide SymbolsAt;
    hide SegmentsAt;
    hide SymbolSize;
    hide SectionSize;
  }

  lemma ImageTables(s: seq<byte>, f: Format, p: Plan)
    requires Sound(p) && Arranged(s, f, p)
    ensures TableLaid(s, f, SectionsOf(f, p), SHT_SYMTAB, TableAt(2, p.syms, p.names.table))
    ensures TableLaid(s, f, SectionsOf(f, p), SHT_DYNSYM, NoTable)
  {
    ImageSymbols(s, f, p);
    KindsOf(f, p);
    hide SymbolsLaid;
    hide Arranged;
    hide Sound;
    hide SectionsOf;
  }

  lemma KindsOf(f: Format, p: Plan)
    ensures var secs := SectionsOf(f, p);
            secs[2].kind == SHT_SYMTAB && forall k :: 0 <= k < 3 ==> secs[k].kind != SHT_DYNSYM
  {
    var secs := SectionsOf(f, p);
    assert secs[0].kind == 0 && secs[1].kind == SHT_STRTAB && secs[2].kind == SHT_SYMTAB;
  }

  lemma HeadKept(a: seq<byte>, b: seq<byte>, s: seq<byte>)
    requires a <= b <= s
    ensures a <= s[..|b|]
  {
  }

  /** Every sound plan has a file in every encoding. */
  lemma ImageLaid(f: Format, p: Plan)
    requires Sound(p)
    ensures FileLaid(ImageOf(f, p), HeaderOfPlan(f, p), SKIPPED, ContentsOf(f, p))
  {
    var s := ImageOf(f, p);
    ImageLies(f, p);
    HeaderFitsPlan(f, p);
    HeadSize(f, p);
    HeadFirst(f, p);
    HeadKept(EncodeHeader(HeaderOfPlan(f, p), SKIPPED), Head(f, p), s);
    ImageSections(s, f, p);
    ImageSegments(s, f, p);
    ImageTables(s, f, p);
    hide ImageOf;
    hide Head;
    hide HeaderFits;
    hide EncodeHeader;
    hide SegmentsLaid;
    hide SectionsLaid;
    hide TableLaid;
    hide SectionsOf;
    hide Sound;
    hide Lies;
    hide Concat;
  }

  /** What an image is parsed to. */
  lemma ImageParsed(f: Format, p: Plan)
    requires Sound(p)
    ensures Parse(ImageOf(f, p), 0)
            == Ok(File(HeaderOfPlan(f, p), p.segs, SectionsOf(f, p), Meant(p.syms, SectionsOf(f, p)), []))
  {
    ImageLaid(f, p);
    hide FileLaid;
    hide ImageOf;
    hide Parse;
    hide Sound;
    hide SectionsOf;
    FileRecovered(ImageOf(f, p), HeaderOfPlan(f, p), SKIPPED, ContentsOf(f, p));
    assert Meant([], SectionsOf(f, p)) == [];
  }

  /**
   Writing a plan in any two of the four encodings, a 32-bit and a 64-bit one
   among them, and parsing the two files gives its segments and its symbols
   both times, and sections that differ only in where and how long they are.
   */
  lemma FourEncodings(f: Format, g: Format, p: Plan)
    requires Sound(p)
    ensures var a, b := SectionsOf(f, p), SectionsOf(g, p);
            && Parse(ImageOf(f, p), 0) == Ok(File(HeaderOfPlan(f, p), p.segs, a, Meant(p.syms, a), []))
            && Parse(ImageOf(g, p), 0) == Ok(File(HeaderOfPlan(g, p), p.segs, b, Meant(p.syms, b), []))
            && SameSections(a, b) && Meant(p.syms, a) == Meant(p.syms, b)
            && HeaderOfPlan(f, p).format == f && HeaderOfPlan(g, p).format == g
  {
    ImageParsed(f, p);
    ImageParsed(g, p);
    SectionsAlike(f, g, p);
    MeantBySections(p.syms, SectionsOf(f, p), SectionsOf(g, p));
    hide ImageOf;
    hide Parse;
    hide Sound;
    hide SectionsOf;
    hide SameSections;
    hide Meant;
  }

  lemma SectionsAlike(f: Format, g: Format, p: Plan)
    ensures SameSections(SectionsOf(f, p), SectionsOf(g, p))
  {
    var a, b := SectionsOf(f, p), SectionsOf(g, p);
    forall i | 0 <= i < 3 ensures SameSection(a[i], b[i]) {
      assert i == 0 || i == 1 || i == 2;
    }
  }
}
