/** What the finished words hold for each `.word` and `.byte` value, and where they
    begin and end. */
module DataLines {
  import opened Words
  import opened DataMemory
  import opened ByteMemory
  import opened A = Assembler
  import opened Layout
  import opened LayoutProofs
  import Sim = Simulation

  /** The byte at an address of words that start at `lo`. */
  function ByteIn(ws: seq<word>, lo: int, k: int): byte
    requires lo <= k < lo + 4 * |ws|
  {
    Lane(ws[(k - lo) / 4], (k - lo) % 4)
  }

  function WordIn(ws: seq<word>, lo: int, k: int): word
    requires lo <= k && k + 4 <= lo + 4 * |ws|
  {
    FromLanes(ByteIn(ws, lo, k), ByteIn(ws, lo, k + 1), ByteIn(ws, lo, k + 2), ByteIn(ws, lo, k + 3))
  }

  /** Values are resolved in order, each to what it denotes. */
  lemma {:induction false} ResolvedInOrder(vals: seq<Operand>, syms: Symbols, j: nat)
    requires ResolveAll(vals, syms).Ok? && j < |vals|
    ensures Defined(vals[j], syms)
    ensures ResolveAll(vals, syms).value[j] == ValueOf(vals[j], syms)
    decreases |vals|
  {
    var n := |vals| - 1;
    if j < n {
      ResolvedInOrder(vals[..n], syms, j);
    } else {
      ResolveExact(vals[n], syms);
    }
  }

  lemma WordEmits(vals: seq<Operand>, pc: int, syms: Symbols, j: nat, r: nat)
    requires Emit(WordDir(vals), pc, syms).Ok? && j < |vals| && r < 4
    ensures Covers(WordDir(vals), pc, syms, pc + 4 * j + r)
    ensures Covering(WordDir(vals), pc, syms, pc + 4 * j + r) == Lane(U32(ValueOf(vals[j], syms)), r)
  {
    hide Lane, ResolveAll, BytesOfWords, U32;
    ResolvedInOrder(vals, syms, j);
    var vs := ResolveAll(vals, syms).value;
    var ws := seq(|vs|, i requires 0 <= i < |vs| => U32(vs[i]));
    DivModUnique(4 * j + r, 4, j, r);
    Sim.WordsAsBytes(ws, 4 * j + r);
  }

  lemma ByteEmits(vals: seq<Operand>, pc: int, syms: Symbols, j: nat)
    requires Emit(ByteDir(vals), pc, syms).Ok? && j < |vals|
    ensures Covers(ByteDir(vals), pc, syms, pc + j)
    ensures Covering(ByteDir(vals), pc, syms, pc + j) == ValueOf(vals[j], syms) % 0x100
  {
    hide ResolveAll;
    ResolvedInOrder(vals, syms, j);
  }

  /** One byte of one line, in the finished words. */
  lemma LineByte(srcs: seq<Source>, tb: int, pinned: bool, db: int, i: int, k: int)
    requires Build(srcs, tb, pinned, db).Ok? && RangesApart(Build(srcs, tb, pinned, db).value.placements)
    requires 0 <= i < |srcs|
    requires var b := Build(srcs, tb, pinned, db).value; Covers(srcs[i].op, b.placements[i].pc, b.syms, k)
    ensures Assembled(srcs, tb, pinned, db).Ok?
    ensures var b, ws := Build(srcs, tb, pinned, db).value, Assembled(srcs, tb, pinned, db).value;
            var lo := Origin(b.image);
            && lo <= k < lo + 4 * |ws|
            && ByteIn(ws, lo, k) == Covering(srcs[i].op, b.placements[i].pc, b.syms, k)
  {
    hide Build, Emit, Covers, Covering, Origin, PackImage, RangesApart, EmitsInRange, Written, Lane;
    LayoutSound(srcs, tb, pinned, db, k);
  }

  lemma LineIsOk(srcs: seq<Source>, tb: int, pinned: bool, db: int, i: int)
    requires Build(srcs, tb, pinned, db).Ok? && 0 <= i < |srcs|
    ensures var b := Build(srcs, tb, pinned, db).value; Emit(srcs[i].op, b.placements[i].pc, b.syms).Ok?
  {
    hide PlaceAll, SizeAll, EmitAll, Emit;
    var b := Build(srcs, tb, pinned, db).value;
    EmitOk(srcs, b.placements, b.syms, |srcs|, i);
  }

  /** Value `j` of an accepted `.word` line is a literal or a defined symbol, and the
      finished words read little-endian hold it, modulo 2^32, at its own address. */
  lemma WordLineHolds(srcs: seq<Source>, tb: int, pinned: bool, db: int, i: int, vals: seq<Operand>, j: nat)
    requires Build(srcs, tb, pinned, db).Ok? && RangesApart(Build(srcs, tb, pinned, db).value.placements)
    requires 0 <= i < |srcs| && srcs[i].op == WordDir(vals) && j < |vals|
    ensures Assembled(srcs, tb, pinned, db).Ok?
    ensures var b, ws := Build(srcs, tb, pinned, db).value, Assembled(srcs, tb, pinned, db).value;
            var lo, k := Origin(b.image), b.placements[i].pc + 4 * j;
            && Defined(vals[j], b.syms)
            && lo <= k && k + 4 <= lo + 4 * |ws|
            && WordIn(ws, lo, k) == U32(ValueOf(vals[j], b.syms))
  {
    hide Build, Assembled, Emit, Covers, Covering, Origin, RangesApart, Lane, FromLanes, U32, ByteIn;
    var b := Build(srcs, tb, pinned, db).value;
    var pc := b.placements[i].pc;
    LineIsOk(srcs, tb, pinned, db, i);
    SymbolsDefined(vals, pc, b.syms, j);
    WordEmits(vals, pc, b.syms, j, 0);
    WordEmits(vals, pc, b.syms, j, 1);
    WordEmits(vals, pc, b.syms, j, 2);
    WordEmits(vals, pc, b.syms, j, 3);
    LineByte(srcs, tb, pinned, db, i, pc + 4 * j + 0);
    LineByte(srcs, tb, pinned, db, i, pc + 4 * j + 1);
    LineByte(srcs, tb, pinned, db, i, pc + 4 * j + 2);
    LineByte(srcs, tb, pinned, db, i, pc + 4 * j + 3);
    LanesOfWord(U32(ValueOf(vals[j], b.syms)));
  }

  lemma SymbolsDefined(vals: seq<Operand>, pc: int, syms: Symbols, j: nat)
    requires (Emit(WordDir(vals), pc, syms).Ok? || Emit(ByteDir(vals), pc, syms).Ok?) && j < |vals|
    ensures Defined(vals[j], syms)
  {
    hide ResolveAll, BytesOfWords;
    ResolvedInOrder(vals, syms, j);
  }

  /** Value `j` of an accepted `.byte` line, modulo 256, is the byte at its own address. */
  lemma ByteLineHolds(srcs: seq<Source>, tb: int, pinned: bool, db: int, i: int, vals: seq<Operand>, j: nat)
    requires Build(srcs, tb, pinned, db).Ok? && RangesApart(Build(srcs, tb, pinned, db).value.placements)
    requires 0 <= i < |srcs| && srcs[i].op == ByteDir(vals) && j < |vals|
    ensures Assembled(srcs, tb, pinned, db).Ok?
    ensures var b, ws := Build(srcs, tb, pinned, db).value, Assembled(srcs, tb, pinned, db).value;
            var lo, k := Origin(b.image), b.placements[i].pc + j;
            && Defined(vals[j], b.syms)
            && lo <= k < lo + 4 * |ws|
            && ByteIn(ws, lo, k) == ValueOf(vals[j], b.syms) % 0x100
  {
    hide Build, Assembled, Emit, Covers, Covering, Origin, RangesApart, ByteIn;
    var b := Build(srcs, tb, pinned, db).value;
    LineIsOk(srcs, tb, pinned, db, i);
    SymbolsDefined(vals, b.placements[i].pc, b.syms, j);
    ByteEmits(vals, b.placements[i].pc, b.syms, j);
    LineByte(srcs, tb, pinned, db, i, b.placements[i].pc + j);
  }

  /** Word `j` of an instruction line is in the finished words at its own address. */
  lemma InstructionLineHolds(srcs: seq<Source>, tb: int, pinned: bool, db: int, i: int, ins: Instr, j: nat)
    requires Build(srcs, tb, pinned, db).Ok? && RangesApart(Build(srcs, tb, pinned, db).value.placements)
    requires 0 <= i < |srcs| && srcs[i].op == Instruction(ins) && 4 * j < InstrSize(ins)
    ensures Assembled(srcs, tb, pinned, db).Ok?
    ensures var b, ws := Build(srcs, tb, pinned, db).value, Assembled(srcs, tb, pinned, db).value;
            var lo, k, e := Origin(b.image), b.placements[i].pc + 4 * j, EncodeInstr(ins, b.placements[i].pc, b.syms);
            && e.Ok? && j < |e.value|
            && lo <= k && k + 4 <= lo + 4 * |ws|
            && WordIn(ws, lo, k) == e.value[j]
  {
    hide Build, Assembled, Emit, Covers, Covering, Origin, RangesApart, Lane, FromLanes, EncodeInstr, ByteIn;
    var b := Build(srcs, tb, pinned, db).value;
    var pc := b.placements[i].pc;
    LineIsOk(srcs, tb, pinned, db, i);
    InstructionOk(ins, pc, b.syms);
    EncodedSize(ins, pc, b.syms);
    InstructionEmits(ins, pc, b.syms, j, 0);
    InstructionEmits(ins, pc, b.syms, j, 1);
    InstructionEmits(ins, pc, b.syms, j, 2);
    InstructionEmits(ins, pc, b.syms, j, 3);
    LineByte(srcs, tb, pinned, db, i, pc + 4 * j + 0);
    LineByte(srcs, tb, pinned, db, i, pc + 4 * j + 1);
    LineByte(srcs, tb, pinned, db, i, pc + 4 * j + 2);
    LineByte(srcs, tb, pinned, db, i, pc + 4 * j + 3);
    LanesOfWord(EncodeInstr(ins, pc, b.syms).value[j]);
  }

  lemma InstructionOk(ins: Instr, pc: int, syms: Symbols)
    requires Emit(Instruction(ins), pc, syms).Ok?
    ensures EncodeInstr(ins, pc, syms).Ok?
  {
    hide EncodeInstr;
  }

  lemma InstructionEmits(ins: Instr, pc: int, syms: Symbols, j: nat, r: nat)
    requires EncodeInstr(ins, pc, syms).Ok? && j < |EncodeInstr(ins, pc, syms).value| && r < 4
    ensures Covers(Instruction(ins), pc, syms, pc + 4 * j + r)
    ensures Covering(Instruction(ins), pc, syms, pc + 4 * j + r) == Lane(EncodeInstr(ins, pc, syms).value[j], r)
  {
    hide Lane, EncodeInstr, BytesOfWords;
    DivModUnique(4 * j + r, 4, j, r);
    Sim.WordsAsBytes(EncodeInstr(ins, pc, syms).value, 4 * j + r);
  }

  /** The words are no longer than the image needs: the first and the last each hold a
      written byte, and an image with nothing in it packs to none. */
  lemma PackedTightly(image: Image)
    requires KeysListed(image)
    ensures var ws, lo := PackImage(image), Origin(image);
            && (ws == [] <==> image.keys == [])
            && (ws != [] ==>
                  && (exists k :: k in image.at && lo <= k < lo + 4)
                  && (exists k :: k in image.at && lo + 4 * |ws| - 4 <= k < lo + 4 * |ws|))
  {
    hide LeastOf, GreatestOf, RoundUp;
    if image.keys != [] {
      PackSpan(image);
      Extremes(image.keys, 0);
      var lo, hi := Origin(image), RoundUp(GreatestOf(image.keys) + 1, 4);
      QuarterSpan(lo, hi);
      RoundUpMeaning(GreatestOf(image.keys) + 1, 4);
      var first, last := LeastOf(image.keys), GreatestOf(image.keys);
      assert first in image.at && lo <= first < lo + 4;
      assert last in image.at && hi - 4 <= last < hi;
    }
  }
}
