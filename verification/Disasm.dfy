/**
 The table-driven disassembler of internal/binary/flx/disasm.go. Mnemonics are
 fixed by the opcode and left out; annotations are kept as the values the
 source formats into them.
 */
module Disasm {
  import opened Prelude
  import opened Bytes
  import Pool

  datatype Kind = Plain | PoolIdx16 | Byte8 | Word16 | RelJumpI16

  /** An opcode table: the operand of each opcode it holds. Every result below is for any table. */
  type Table = byte -> Option<Kind>

  /** `OpcodeTable`, which has no opcode with a plain 16-bit operand. */
  function Opcodes(op: byte): Option<Kind> {
    if op in {0x01, 0x02, 0x03} then Some(PoolIdx16)
    else if 0x30 <= op <= 0x33 then Some(RelJumpI16)
    else if op == 0x40 then Some(Byte8)
    else if op <= 0x06 || 0x10 <= op <= 0x19 || 0x20 <= op <= 0x25 || 0x41 <= op <= 0x43 || op >= 0xFE then Some(Plain)
    else None
  }

  /**
   The table opcode by opcode: loads and stores of 0x01 to 0x03 index the pool,
   the four jumps from 0x30 are relative, the call 0x40 has an argument count,
   and 25 more opcodes stand alone. Every other byte is unknown.
   */
  lemma OpcodesExactly(op: byte)
    ensures Opcodes(op) == Some(PoolIdx16) <==> op in {0x01, 0x02, 0x03}
    ensures Opcodes(op) == Some(RelJumpI16) <==> op in {0x30, 0x31, 0x32, 0x33}
    ensures Opcodes(op) == Some(Byte8) <==> op == 0x40
    ensures Opcodes(op) == Some(Plain) <==>
            op in {0x00, 0x04, 0x05, 0x06, 0x10, 0x11, 0x12, 0x13, 0x14, 0x15, 0x16, 0x17, 0x18, 0x19,
                   0x20, 0x21, 0x22, 0x23, 0x24, 0x25, 0x41, 0x42, 0x43, 0xFE, 0xFF}
    ensures Opcodes(op) != Some(Word16)
  {
  }

  datatype Operand = Absent | Index(idx: nat) | Small(val: byte) | Word(word: nat) | Relative(rel: int)

  /** What an annotation says: a pool entry, a bare index, an argument count, a word, or a jump target. */
  datatype Note = Silent | UnknownOpcode | Entry(found: Option<Pool.Constant>) | BareIndex(i: nat)
                | Argc(n: byte) | Val(w: nat) | Target(rel: int, target: int)

  datatype Instruction = Instruction(offset: nat, op: byte, raw: seq<byte>, operand: Operand, note: Note)

  /** The listing so far and, if it stopped early, the offset of the truncated instruction. */
  datatype Listing = Listing(instructions: seq<Instruction>, truncated: Option<nat>)

  function OperandSize(kind: Kind): nat {
    match kind
    case Plain => 0
    case Byte8 => 1
    case PoolIdx16 => 2
    case Word16 => 2
    case RelJumpI16 => 2
  }

  /** Bytes taken by an instruction with this opcode; an unknown one is a single data byte. */
  function Size(table: Table, op: byte): (n: nat)
    ensures 1 <= n <= 3
  {
    match table(op) case None => 1 case Some(kind) => 1 + OperandSize(kind)
  }

  function Signed16(w: nat): int {
    if w < 0x8000 then w else w - U16
  }

  function OperandIn(table: Table, op: byte, args: seq<byte>): Operand
    requires |args| == Size(table, op) - 1
  {
    match table(op)
    case None => Absent
    case Some(Plain) => Absent
    case Some(PoolIdx16) => Index(Dec(Little, args))
    case Some(Byte8) => Small(args[0])
    case Some(Word16) => Word(Dec(Little, args))
    case Some(RelJumpI16) => Relative(Signed16(Dec(Little, args)))
  }

  function NoteFor(table: Table, op: byte, operand: Operand, next: nat, pool: Option<Pool.ConstantPool>): Note {
    if table(op).None? then UnknownOpcode
    else match operand
      case Absent => Silent
      case Index(idx) => (match pool case None => BareIndex(idx) case Some(p) => Entry(Pool.Get(p, idx)))
      case Small(val) => Argc(val)
      case Word(word) => Val(word)
      case Relative(rel) => Target(rel, next + rel)
  }

  /** The instruction at `o`, or nothing when the code ends inside it. */
  function At(table: Table, code: seq<byte>, o: nat, pool: Option<Pool.ConstantPool>): (r: Option<Instruction>)
    requires o < |code|
    ensures r.Some? ==> |r.value.raw| == Size(table, code[o]) && o + |r.value.raw| <= |code|
  {
    var n := Size(table, code[o]);
    if o + n > |code| then None
    else
      var operand := OperandIn(table, code[o], code[o + 1..o + n]);
      Some(Instruction(o, code[o], code[o..o + n], operand, NoteFor(table, code[o], operand, o + n, pool)))
  }

  /** Instructions from `o` on. */
  function ListFrom(table: Table, code: seq<byte>, o: nat, pool: Option<Pool.ConstantPool>): Listing
    requires o <= |code|
    decreases |code| - o
  {
    if o == |code| then Listing([], None)
    else match At(table, code, o, pool)
      case None => Listing([], Some(o))
      case Some(inst) =>
        var more := ListFrom(table, code, o + |inst.raw|, pool);
        Listing([inst] + more.instructions, more.truncated)
  }

  /** The body of the disassembler's loop: one instruction, or nothing when its operand is cut off. */
  method DecodeAt(table: Table, code: seq<byte>, o: nat, pool: Option<Pool.ConstantPool>)
     returns (r: Option<Instruction>)
    requires o < |code|
    ensures r == At(table, code, o, pool)
  {
    hide Dec;
    hide Signed16;
    hide Pool.Get;
    var op := code[o];
    assert code[o..o + 1] == [op];
    match table(op) {
      case None =>
        r := Some(Instruction(o, op, [op], Absent, UnknownOpcode));
      case Some(Plain) =>
        r := Some(Instruction(o, op, [op], Absent, Silent));
      case Some(PoolIdx16) =>
        if o + 2 >= |code| {
          return None;
        }
        var idx := Dec(Little, code[o + 1..o + 3]);
        var note := match pool case None => BareIndex(idx) case Some(p) => Entry(Pool.Get(p, idx));
        r := Some(Instruction(o, op, code[o..o + 3], Index(idx), note));
      case Some(Byte8) =>
        if o + 1 >= |code| {
          return None;
        }
        var val := code[o + 1];
        assert code[o + 1..o + 2] == [val];
        r := Some(Instruction(o, op, code[o..o + 2], Small(val), Argc(val)));
      case Some(Word16) =>
        if o + 2 >= |code| {
          return None;
        }
        var word := Dec(Little, code[o + 1..o + 3]);
        r := Some(Instruction(o, op, code[o..o + 3], Word(word), Val(word)));
      case Some(RelJumpI16) =>
        if o + 2 >= |code| {
          return None;
        }
        var rel := Signed16(Dec(Little, code[o + 1..o + 3]));
        r := Some(Instruction(o, op, code[o..o + 3], Relative(rel), Target(rel, o + 3 + rel)));
    }
  }

  /** A listing that is `done` and then `left`. */
  ghost predicate Continues(whole: Listing, done: seq<Instruction>, left: Listing) {
    match left
    case Listing(instructions, truncated) => whole == Listing(done + instructions, truncated)
  }

  lemma ContinuesAtFirst(whole: Listing)
    ensures Continues(whole, [], whole)
  {
    Neutral(whole.instructions);
  }

  lemma ContinuesNext(whole: Listing, done: seq<Instruction>, i: Instruction, more: Listing)
    requires Continues(whole, done, Listing([i] + more.instructions, more.truncated))
    ensures Continues(whole, done + [i], more)
  {
    Assoc(done, [i], more.instructions);
  }

  lemma ContinuesToEnd(whole: Listing, done: seq<Instruction>, truncated: Option<nat>)
    requires Continues(whole, done, Listing([], truncated))
    ensures whole == Listing(done, truncated)
  {
    Neutral(done);
  }

  /** `Disassemble`. */
  method Disassemble(table: Table, code: seq<byte>, pool: Option<Pool.ConstantPool>)
    returns (instructions: seq<Instruction>, truncated: Option<nat>)
    ensures Listing(instructions, truncated) == ListFrom(table, code, 0, pool)
  {
    hide At;
    hide Continues;
    ghost var whole := ListFrom(table, code, 0, pool);
    instructions, truncated := [], None;
    ContinuesAtFirst(whole);
    var o := 0;
    while o < |code|
      invariant o <= |code|
      invariant Continues(whole, instructions, ListFrom(table, code, o, pool))
    {
      var inst := DecodeAt(table, code, o, pool);
      if inst.None? {
        ContinuesToEnd(whole, instructions, Some(o));
        return instructions, Some(o);
      }
      ContinuesNext(whole, instructions, inst.value, ListFrom(table, code, o + |inst.value.raw|, pool));
      instructions := instructions + [inst.value];
      o := o + |inst.value.raw|;
    }
    ContinuesToEnd(whole, instructions, None);
  }

  // Reassembly

  function EncodeOperand(operand: Operand): seq<byte> {
    match operand
    case Absent => []
    case Index(idx) => Enc(Little, idx, 2)
    case Small(val) => [val]
    case Word(word) => Enc(Little, word, 2)
    case Relative(rel) => Enc(Little, if 0 <= rel then rel else if -rel <= U16 then rel + U16 else 0, 2)
  }

  /** An instruction as written: opcode and operand. */
  datatype Source = Source(op: byte, operand: Operand)

  function Encode(s: Source): (b: seq<byte>)
    ensures 1 <= |b| <= 3
  {
    [s.op] + EncodeOperand(s.operand)
  }

  function Assemble(program: seq<Source>): seq<byte> {
    if program == [] then [] else Encode(program[0]) + Assemble(program[1..])
  }

  /** What a listing says, without offsets, bytes and annotations. */
  function Sources(list: seq<Instruction>): (p: seq<Source>)
    ensures |p| == |list|
    ensures forall k :: 0 <= k < |list| ==> p[k] == Source(list[k].op, list[k].operand)
  {
    seq(|list|, k requires 0 <= k < |list| => Source(list[k].op, list[k].operand))
  }

  /** Offset at which a listing of `code` ends. */
  function Reached(l: Listing, code: seq<byte>): nat {
    match l.truncated case None => |code| case Some(t) => t
  }

  lemma DecTwo(args: seq<byte>)
    requires |args| == 2
    ensures Dec(Little, args) < U16 && Enc(Little, Dec(Little, args), 2) == args
  {
    EncDec(Little, args);
    Pow256Values();
  }

  lemma ReencodeOperand(table: Table, op: byte, args: seq<byte>)
    requires |args| == Size(table, op) - 1
    ensures EncodeOperand(OperandIn(table, op, args)) == args
  {
    if |args| == 2 {
      DecTwo(args);
    }
  }

  /** One decoded instruction re-encodes to the bytes it came from. */
  lemma ReencodeAt(table: Table, code: seq<byte>, o: nat, pool: Option<Pool.ConstantPool>)
    requires o < |code| && At(table, code, o, pool).Some?
    ensures var i := At(table, code, o, pool).value;
            Encode(Source(i.op, i.operand)) == i.raw == code[o..o + |i.raw|]
  {
    var n := Size(table, code[o]);
    ReencodeOperand(table, code[o], code[o + 1..o + n]);
    assert code[o..o + n] == [code[o]] + code[o + 1..o + n];
  }

  /**
   Disassembly loses nothing: re-encoding the listing gives the code up to
   where it ends, which is all of it unless the instruction at the reported
   offset runs past the end.
   */
  lemma {:induction false} Reassembly(table: Table, code: seq<byte>, o: nat, pool: Option<Pool.ConstantPool>)
    requires o <= |code|
    ensures var l := ListFrom(table, code, o, pool);
            && o <= Reached(l, code) <= |code|
            && Assemble(Sources(l.instructions)) == code[o..Reached(l, code)]
            && (l.truncated.Some? ==>
                  l.truncated.value < |code| && l.truncated.value + Size(table, code[l.truncated.value]) > |code|)
    decreases |code| - o
  {
    hide At;
    hide Encode;
    hide Sources;
    hide Size;
    AssembleNothing();
    if o < |code| {
      CutOff(table, code, o, pool);
      if At(table, code, o, pool).Some? {
        var i := At(table, code, o, pool).value;
        ReencodeAt(table, code, o, pool);
        Reassembly(table, code, o + |i.raw|, pool);
        var more := ListFrom(table, code, o + |i.raw|, pool);
        AssembleFirst(i, more.instructions);
        hide Assemble;
        Join(code, o, o + |i.raw|, Reached(more, code));
      }
    }
  }

  lemma AssembleNothing()
    ensures Assemble(Sources([])) == []
  {
  }

  lemma AssembleFirst(i: Instruction, more: seq<Instruction>)
    ensures Assemble(Sources([i] + more)) == Encode(Source(i.op, i.operand)) + Assemble(Sources(more))
  {
    assert Sources([i] + more)[1..] == Sources(more);
  }

  lemma Join(code: seq<byte>, a: nat, b: nat, c: nat)
    requires a <= b <= c <= |code|
    ensures code[a..b] + code[b..c] == code[a..c]
  {
  }

  lemma CutOff(table: Table, code: seq<byte>, o: nat, pool: Option<Pool.ConstantPool>)
    requires o < |code|
    ensures At(table, code, o, pool).None? <==> o + Size(table, code[o]) > |code|
  {
  }

  /** The little-endian 16-bit number in two bytes. */
  function Pair(first: byte, second: byte): (n: nat)
    ensures n < 0x1_0000
  {
    var low: nat, high: nat := first, second;
    low + 256 * high
  }

  /** What the bytes of an instruction say, kind by kind: its length, its operand and its annotation. */
  ghost predicate Reads(kind: Option<Kind>, pool: Option<Pool.ConstantPool>, i: Instruction) {
    match kind
    case None => |i.raw| == 1 && i.operand == Absent && i.note == UnknownOpcode
    case Some(Plain) => |i.raw| == 1 && i.operand == Absent && i.note == Silent
    case Some(Byte8) => |i.raw| == 2 && i.operand == Small(i.raw[1]) && i.note == Argc(i.raw[1])
    case Some(Word16) =>
      && |i.raw| == 3
      && var word := Pair(i.raw[1], i.raw[2]);
         i.operand == Word(word) && i.note == Val(word)
    case Some(PoolIdx16) =>
      && |i.raw| == 3
      && var idx := Pair(i.raw[1], i.raw[2]);
         && i.operand == Index(idx)
         && i.note == if pool.None? then BareIndex(idx)
                      else if idx < |pool.value.entries| then Entry(Some(pool.value.entries[idx]))
                      else Entry(None)
    case Some(RelJumpI16) =>
      && |i.raw| == 3
      && var word := Pair(i.raw[1], i.raw[2]);
         var rel := if word < 0x8000 then word else word - 0x1_0000;
         i.operand == Relative(rel) && i.note == Target(rel, i.offset + 3 + rel)
  }

  /** The instruction shows the bytes at its offset and says what they say. */
  ghost predicate Shows(table: Table, code: seq<byte>, pool: Option<Pool.ConstantPool>, i: Instruction) {
    && i.offset + |i.raw| <= |code| && i.raw == code[i.offset..i.offset + |i.raw|]
    && i.raw != [] && i.op == i.raw[0]
    && Reads(table(i.op), pool, i)
  }

  lemma TwoBytes(args: seq<byte>)
    requires |args| == 2
    ensures Dec(Little, args) == Pair(args[0], args[1])
  {
    var last := args[1..];
    assert last[1..] == [];
    assert Dec(Little, last) == last[0];
  }

  lemma AtFacts(table: Table, code: seq<byte>, o: nat, pool: Option<Pool.ConstantPool>)
    requires o < |code| && At(table, code, o, pool).Some?
    ensures var i := At(table, code, o, pool).value;
            i.offset == o && Shows(table, code, pool, i)
  {
    if Size(table, code[o]) == 3 {
      TwoBytes(code[o + 1..o + 3]);
    }
    hide Dec;
  }

  /** The instructions stand end to end from `o` on, each showing its bytes. */
  ghost predicate Chained(table: Table, code: seq<byte>, pool: Option<Pool.ConstantPool>,
                          o: nat, list: seq<Instruction>)
    decreases list
  {
    list == [] || (
      && list[0].offset == o && Shows(table, code, pool, list[0])
      && Chained(table, code, pool, o + |list[0].raw|, list[1..]))
  }

  /**
   Every listed instruction starts where the one before it ends, shows the
   bytes there, as many as its opcode says, and reads its operand and its
   annotation from them: a jump the target three bytes on plus its signed
   operand, a load the pool entry it indexes, or none past the end of the pool.
   */
  lemma {:induction false} Offsets(table: Table, code: seq<byte>, o: nat, pool: Option<Pool.ConstantPool>)
    requires o <= |code|
    ensures Chained(table, code, pool, o, ListFrom(table, code, o, pool).instructions)
    decreases |code| - o
  {
    hide Shows;
    if ListFrom(table, code, o, pool).instructions != [] {
      var first := FirstListed(table, code, o, pool);
      var next := o + |first.raw|;
      Offsets(table, code, next, pool);
      var more := ListFrom(table, code, next, pool).instructions;
      hide ListFrom;
      assert ([first] + more)[1..] == more;
    }
  }

  lemma FirstListed(table: Table, code: seq<byte>, o: nat, pool: Option<Pool.ConstantPool>) returns (first: Instruction)
    requires o <= |code| && ListFrom(table, code, o, pool).instructions != []
    ensures first.offset == o && 0 < |first.raw| && o + |first.raw| <= |code| && Shows(table, code, pool, first)
    ensures ListFrom(table, code, o, pool).instructions ==
            [first] + ListFrom(table, code, o + |first.raw|, pool).instructions
  {
    AtFacts(table, code, o, pool);
    hide At;
    hide Shows;
    first := At(table, code, o, pool).value;
  }

  // Concatenation

  /** The same instruction `base` bytes further on; jump targets move with it. */
  function Moved(i: Instruction, base: nat): Instruction {
    i.(offset := i.offset + base,
       note := if i.note.Target? then Target(i.note.rel, i.note.target + base) else i.note)
  }

  function MovedAll(list: seq<Instruction>, base: nat): (r: seq<Instruction>)
    ensures |r| == |list|
    ensures forall k :: 0 <= k < |list| ==> r[k] == Moved(list[k], base)
  {
    seq(|list|, k requires 0 <= k < |list| => Moved(list[k], base))
  }

  lemma AtMoved(table: Table, a: seq<byte>, b: seq<byte>, o: nat, pool: Option<Pool.ConstantPool>)
    requires o < |b|
    ensures var there := At(table, b, o, pool);
            At(table, a + b, |a| + o, pool) == if there.None? then None else Some(Moved(there.value, |a|))
  {
    var n := Size(table, b[o]);
    if o + n <= |b| {
      assert (a + b)[|a| + o..|a| + o + n] == b[o..o + n];
      assert (a + b)[|a| + o + 1..|a| + o + n] == b[o + 1..o + n];
    }
  }

  lemma MovedFirst(i: Instruction, more: seq<Instruction>, base: nat)
    ensures MovedAll([i] + more, base) == [Moved(i, base)] + MovedAll(more, base)
  {
  }

  lemma {:induction false} ListMoved(table: Table, a: seq<byte>, b: seq<byte>, o: nat, pool: Option<Pool.ConstantPool>)
    requires o <= |b|
    ensures var l := ListFrom(table, b, o, pool);
            ListFrom(table, a + b, |a| + o, pool) ==
            Listing(MovedAll(l.instructions, |a|), if l.truncated.None? then None else Some(l.truncated.value + |a|))
    decreases |b| - o
  {
    hide At;
    assert MovedAll([], |a|) == [];
    hide MovedAll;
    if o < |b| {
      AtMoved(table, a, b, o, pool);
      var there := At(table, b, o, pool);
      if there.Some? {
        var next := o + |there.value.raw|;
        ListMoved(table, a, b, next, pool);
        MovedFirst(there.value, ListFrom(table, b, next, pool).instructions, |a|);
      }
    }
  }

  lemma AtKept(table: Table, a: seq<byte>, b: seq<byte>, o: nat, pool: Option<Pool.ConstantPool>)
    requires o < |a| && At(table, a, o, pool).Some?
    ensures At(table, a + b, o, pool) == At(table, a, o, pool)
  {
    var n := Size(table, a[o]);
    assert (a + b)[o..o + n] == a[o..o + n];
    assert (a + b)[o + 1..o + n] == a[o + 1..o + n];
  }

  lemma {:induction false} ListKept(table: Table, a: seq<byte>, b: seq<byte>, o: nat, pool: Option<Pool.ConstantPool>)
    requires o <= |a| && ListFrom(table, a, o, pool).truncated.None?
    ensures var rest := ListFrom(table, a + b, |a|, pool);
            ListFrom(table, a + b, o, pool) ==
            Listing(ListFrom(table, a, o, pool).instructions + rest.instructions, rest.truncated)
    decreases |a| - o
  {
    hide At;
    var rest := ListFrom(table, a + b, |a|, pool).instructions;
    if o < |a| {
      AtKept(table, a, b, o, pool);
      var first := At(table, a, o, pool).value;
      ListKept(table, a, b, o + |first.raw|, pool);
      Assoc([first], ListFrom(table, a, o + |first.raw|, pool).instructions, rest);
    } else {
      Neutral(rest);
    }
  }

  /**
   Code that decodes to its end can be followed by any other: the listing is
   the first listing and then the second, moved by the length of the first.
   */
  lemma Concatenation(table: Table, a: seq<byte>, b: seq<byte>, pool: Option<Pool.ConstantPool>)
    requires ListFrom(table, a, 0, pool).truncated.None?
    ensures var second := ListFrom(table, b, 0, pool);
            ListFrom(table, a + b, 0, pool) ==
            Listing(ListFrom(table, a, 0, pool).instructions + MovedAll(second.instructions, |a|),
                    if second.truncated.None? then None else Some(second.truncated.value + |a|))
  {
    ListKept(table, a, b, 0, pool);
    ListMoved(table, a, b, 0, pool);
  }

  // Assembly and back

  /** An operand of the kind the table gives the opcode, within its width. */
  predicate Encodable(table: Table, s: Source) {
    match table(s.op)
    case None => s.operand == Absent
    case Some(Plain) => s.operand == Absent
    case Some(PoolIdx16) => s.operand.Index? && s.operand.idx < U16
    case Some(Byte8) => s.operand.Small?
    case Some(Word16) => s.operand.Word? && s.operand.word < U16
    case Some(RelJumpI16) => s.operand.Relative? && -0x8000 <= s.operand.rel < 0x8000
  }

  lemma DecodeEncoded(table: Table, s: Source, pool: Option<Pool.ConstantPool>)
    requires Encodable(table, s)
    ensures var code := Encode(s);
            && At(table, code, 0, pool).Some?
            && var i := At(table, code, 0, pool).value; Source(i.op, i.operand) == s && i.raw == code
  {
    Pow256Values();
    var args := EncodeOperand(s.operand);
    var code := Encode(s);
    match s.operand {
      case Absent =>
      case Index(idx) => DecEnc(Little, idx, 2);
      case Small(val) =>
      case Word(word) => DecEnc(Little, word, 2);
      case Relative(rel) => DecEnc(Little, if 0 <= rel then rel else rel + U16, 2);
    }
    assert code[1..] == args;
    assert code[1..|code|] == args && code[0..|code|] == code;
    assert OperandIn(table, s.op, args) == s.operand;
  }

  lemma MovedSources(first: Instruction, more: seq<Instruction>, base: nat)
    ensures Sources([first] + MovedAll(more, base)) == [Source(first.op, first.operand)] + Sources(more)
  {
  }

  /** Assembling a program and disassembling it gives the program back, for every program. */
  lemma {:induction false} AssembleThenDisassemble(table: Table, program: seq<Source>, pool: Option<Pool.ConstantPool>)
    requires forall s :: s in program ==> Encodable(table, s)
    ensures var l := ListFrom(table, Assemble(program), 0, pool);
            l.truncated.None? && Sources(l.instructions) == program
  {
    hide Encode;
    hide At;
    hide Encodable;
    if program != [] {
      var head, tail := Encode(program[0]), Assemble(program[1..]);
      AssembleThenDisassemble(table, program[1..], pool);
      DecodeEncoded(table, program[0], pool);
      var first := At(table, head, 0, pool).value;
      assert ListFrom(table, head, |head|, pool) == Listing([], None);
      assert ListFrom(table, head, 0, pool) == Listing([first], None);
      Concatenation(table, head, tail, pool);
      hide ListFrom;
      MovedSources(first, ListFrom(table, tail, 0, pool).instructions, |head|);
      assert program == [program[0]] + program[1..];
    }
  }
}
