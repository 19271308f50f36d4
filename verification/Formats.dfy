/** The instruction formats in both directions: the field packers of assemble.py
    and the immediate decoders of rv32i_emu.py (RISC-V Unprivileged ISA 20191213,
    sections 2.2 and 2.3). */
module Formats {
  import opened Words
  import opened RiscvPkg
  import opened Decoder

  // ---------- packers

  function RType(opcode: int, rd: int, f3: int, rs1: int, rs2: int, f7: int): word {
    f7 % 0x80 * 0x200_0000 + rs2 % 0x20 * 0x10_0000 + rs1 % 0x20 * 0x8000 + f3 % 8 * 0x1000 + rd % 0x20 * 0x80
    + opcode % 0x80
  }

  function IType(opcode: int, rd: int, f3: int, rs1: int, imm12: int): word {
    imm12 % 0x1000 * 0x10_0000 + rs1 % 0x20 * 0x8000 + f3 % 8 * 0x1000 + rd % 0x20 * 0x80 + opcode % 0x80
  }

  function SType(opcode: int, f3: int, rs1: int, rs2: int, imm12: int): word {
    var hi := Slice(imm12, 0x20, 0x80);
    var lo := Slice(imm12, 1, 0x20);
    hi * 0x200_0000 + rs2 % 0x20 * 0x10_0000 + rs1 % 0x20 * 0x8000 + f3 % 8 * 0x1000 + lo * 0x80 + opcode % 0x80
  }

  function BType(opcode: int, f3: int, rs1: int, rs2: int, imm13: int): word {
    var b12 := Slice(imm13, 0x1000, 2);
    var b11 := Slice(imm13, 0x800, 2);
    var b10_5 := Slice(imm13, 0x20, 0x40);
    var b4_1 := Slice(imm13, 2, 0x10);
    b12 * 0x8000_0000 + b10_5 * 0x200_0000 + rs2 % 0x20 * 0x10_0000 + rs1 % 0x20 * 0x8000 + f3 % 8 * 0x1000
    + b4_1 * 0x100 + b11 * 0x80 + opcode % 0x80
  }

  function UType(opcode: int, rd: int, imm20: int): word {
    imm20 % 0x10_0000 * 0x1000 + rd % 0x20 * 0x80 + opcode % 0x80
  }

  function JType(opcode: int, rd: int, imm21: int): word {
    var b20 := Slice(imm21, 0x10_0000, 2);
    var b19_12 := Slice(imm21, 0x1000, 0x100);
    var b11 := Slice(imm21, 0x800, 2);
    var b10_1 := Slice(imm21, 2, 0x400);
    b20 * 0x8000_0000 + b10_1 * 0x20_0000 + b11 * 0x10_0000 + b19_12 * 0x1000 + rd % 0x20 * 0x80 + opcode % 0x80
  }

  // ---------- immediate decoders

  function ImmI(inst: word): int {
    Sext(Slice(inst, 0x10_0000, 0x1000), 0x1000)
  }

  function ImmS(inst: word): int {
    Sext(Slice(inst, 0x200_0000, 0x80) * 0x20 + Slice(inst, 0x80, 0x20), 0x1000)
  }

  function ImmB(inst: word): int {
    Sext(Slice(inst, 0x8000_0000, 2) * 0x1000 + Slice(inst, 0x200_0000, 0x40) * 0x20
         + Slice(inst, 0x100, 0x10) * 2 + Slice(inst, 0x80, 2) * 0x800, 0x2000)
  }

  function ImmU(inst: word): word {
    Slice(inst, 0x1000, 0x10_0000) * 0x1000
  }

  function ImmJ(inst: word): int {
    Sext(Slice(inst, 0x8000_0000, 2) * 0x10_0000 + Slice(inst, 0x20_0000, 0x400) * 2
         + Slice(inst, 0x10_0000, 2) * 0x800 + Slice(inst, 0x1000, 0x100) * 0x1000, 0x20_0000)
  }

  // ---------- the decoders undo the packers

  lemma WholeSlice(x: int, width: int)
    requires width >= 1
    ensures Slice(x, 1, width) == x % width
  {}

  /** The top slice of a packed word needs no bound above it. */
  lemma TopAt(lo: int, m: int, field: int, k: int)
    requires 0 <= lo < m && 0 <= field < k
    ensures Slice(lo + m * field, m, k) == field
  {
    DivModUnique(lo + m * field, m, field, lo);
  }

  lemma RTypeIs(opcode: int, rd: regidx, f3: int, rs1: regidx, rs2: regidx, f7: int)
    requires 0 <= opcode < 0x80 && 0 <= f3 < 8 && 0 <= f7 < 0x80
    ensures RType(opcode, rd, f3, rs1, rs2, f7) ==
            opcode + rd * 0x80 + f3 * 0x1000 + rs1 * 0x8000 + rs2 * 0x10_0000 + f7 * 0x200_0000
  {}

  lemma RTypeDecodes(opcode: int, rd: regidx, f3: int, rs1: regidx, rs2: regidx, f7: int)
    requires 0 <= opcode < 0x80 && 0 <= f3 < 8 && 0 <= f7 < 0x80
    ensures var w := RType(opcode, rd, f3, rs1, rs2, f7);
            && Opcode(w) == opcode && Rd(w) == rd && Funct3(w) == f3 && Rs1(w) == rs1 && Rs2(w) == rs2
            && Funct7(w) == f7
  {
    hide Slice, RType;
    RTypeIs(opcode, rd, f3, rs1, rs2, f7);
    FieldAt(0, 1, opcode, 0x80, rd + f3 * 0x20 + rs1 * 0x100 + rs2 * 0x2000 + f7 * 0x4_0000);
    FieldAt(opcode, 0x80, rd, 0x20, f3 + rs1 * 8 + rs2 * 0x100 + f7 * 0x2000);
    FieldAt(opcode + rd * 0x80, 0x1000, f3, 8, rs1 + rs2 * 0x20 + f7 * 0x400);
    FieldAt(opcode + rd * 0x80 + f3 * 0x1000, 0x8000, rs1, 0x20, rs2 + f7 * 0x20);
    FieldAt(opcode + rd * 0x80 + f3 * 0x1000 + rs1 * 0x8000, 0x10_0000, rs2, 0x20, f7);
    TopAt(opcode + rd * 0x80 + f3 * 0x1000 + rs1 * 0x8000 + rs2 * 0x10_0000, 0x200_0000, f7, 0x80);
  }

  lemma Sext12(v: int)
    requires -0x800 <= v < 0x800
    ensures Sext(v % 0x1000, 0x1000) == v
  {}

  lemma ITypeIs(opcode: int, rd: regidx, f3: int, rs1: regidx, u: int)
    requires 0 <= opcode < 0x80 && 0 <= f3 < 8 && 0 <= u < 0x1000
    ensures IType(opcode, rd, f3, rs1, u) == opcode + rd * 0x80 + f3 * 0x1000 + rs1 * 0x8000 + u * 0x10_0000
  {}

  lemma ITypeDecodes(opcode: int, rd: regidx, f3: int, rs1: regidx, v: int)
    requires 0 <= opcode < 0x80 && 0 <= f3 < 8 && -0x800 <= v < 0x800
    ensures var w := IType(opcode, rd, f3, rs1, v % 0x1000);
            && Opcode(w) == opcode && Rd(w) == rd && Funct3(w) == f3 && Rs1(w) == rs1
            && Funct12(w) == v % 0x1000 && ImmI(w) == v
  {
    hide Slice, Sext, IType;
    var u := v % 0x1000;
    ITypeIs(opcode, rd, f3, rs1, u);
    FieldAt(0, 1, opcode, 0x80, rd + f3 * 0x20 + rs1 * 0x100 + u * 0x2000);
    FieldAt(opcode, 0x80, rd, 0x20, f3 + rs1 * 8 + u * 0x100);
    FieldAt(opcode + rd * 0x80, 0x1000, f3, 8, rs1 + u * 0x20);
    FieldAt(opcode + rd * 0x80 + f3 * 0x1000, 0x8000, rs1, 0x20, u);
    TopAt(opcode + rd * 0x80 + f3 * 0x1000 + rs1 * 0x8000, 0x10_0000, u, 0x1000);
    Sext12(v);
  }

  lemma STypeIs(opcode: int, f3: int, rs1: regidx, rs2: regidx, u: int)
    requires 0 <= opcode < 0x80 && 0 <= f3 < 8
    ensures SType(opcode, f3, rs1, rs2, u) ==
            opcode + Slice(u, 1, 0x20) * 0x80 + f3 * 0x1000 + rs1 * 0x8000 + rs2 * 0x10_0000
            + Slice(u, 0x20, 0x80) * 0x200_0000
  {
    hide Slice;
  }

  lemma BitsOf12(u: int)
    requires 0 <= u < 0x1000
    ensures u == Slice(u, 1, 0x20) + Slice(u, 0x20, 0x80) * 0x20
  {
    WholeSlice(u, 0x1000);
    hide Slice;
    SliceSplit(u, 1, 0x20, 0x80);
  }

  lemma STypeFields(opcode: int, f3: int, rs1: regidx, rs2: regidx, u: int)
    requires 0 <= opcode < 0x80 && 0 <= f3 < 8 && 0 <= u < 0x1000
    ensures var w := SType(opcode, f3, rs1, rs2, u);
            && Opcode(w) == opcode && Funct3(w) == f3 && Rs1(w) == rs1 && Rs2(w) == rs2 && ImmS(w) == Sext(u, 0x1000)
  {
    hide Slice, Sext, SType;
    STypeIs(opcode, f3, rs1, rs2, u);
    BitsOf12(u);
    var lo, hi := Slice(u, 1, 0x20), Slice(u, 0x20, 0x80);
    FieldAt(0, 1, opcode, 0x80, lo + f3 * 0x20 + rs1 * 0x100 + rs2 * 0x2000 + hi * 0x4_0000);
    FieldAt(opcode, 0x80, lo, 0x20, f3 + rs1 * 8 + rs2 * 0x100 + hi * 0x2000);
    FieldAt(opcode + lo * 0x80, 0x1000, f3, 8, rs1 + rs2 * 0x20 + hi * 0x400);
    FieldAt(opcode + lo * 0x80 + f3 * 0x1000, 0x8000, rs1, 0x20, rs2 + hi * 0x20);
    FieldAt(opcode + lo * 0x80 + f3 * 0x1000 + rs1 * 0x8000, 0x10_0000, rs2, 0x20, hi);
    TopAt(opcode + lo * 0x80 + f3 * 0x1000 + rs1 * 0x8000 + rs2 * 0x10_0000, 0x200_0000, hi, 0x80);
  }

  lemma STypeDecodes(opcode: int, f3: int, rs1: regidx, rs2: regidx, v: int)
    requires 0 <= opcode < 0x80 && 0 <= f3 < 8 && -0x800 <= v < 0x800
    ensures var w := SType(opcode, f3, rs1, rs2, v % 0x1000);
            && Opcode(w) == opcode && Funct3(w) == f3 && Rs1(w) == rs1 && Rs2(w) == rs2 && ImmS(w) == v
  {
    hide Sext, SType, Opcode, Funct3, Rs1, Rs2, ImmS;
    STypeFields(opcode, f3, rs1, rs2, v % 0x1000);
    Sext12(v);
  }

  lemma Even13(v: int)
    requires -0x1000 <= v < 0x1000
    ensures Sext(v % 0x2000 - v % 0x2000 % 2, 0x2000) == v - v % 2
  {
    assert v % 0x2000 == if v >= 0 then v else v + 0x2000;
  }

  lemma BitsOf13(u: int)
    requires 0 <= u < 0x2000
    ensures u == u % 2 + Slice(u, 2, 0x10) * 2 + Slice(u, 0x20, 0x40) * 0x20 + Slice(u, 0x800, 2) * 0x800
                 + Slice(u, 0x1000, 2) * 0x1000
  {
    WholeSlice(u, 0x2000);
    WholeSlice(u, 2);
    hide Slice;
    SliceSplit(u, 1, 2, 0x1000);
    SliceSplit(u, 2, 0x10, 0x100);
    SliceSplit(u, 0x20, 0x40, 4);
    SliceSplit(u, 0x800, 2, 2);
  }

  lemma BTypeIs(opcode: int, f3: int, rs1: regidx, rs2: regidx, u: int)
    requires 0 <= opcode < 0x80 && 0 <= f3 < 8
    ensures BType(opcode, f3, rs1, rs2, u) ==
            opcode + Slice(u, 0x800, 2) * 0x80 + Slice(u, 2, 0x10) * 0x100 + f3 * 0x1000 + rs1 * 0x8000
            + rs2 * 0x10_0000 + Slice(u, 0x20, 0x40) * 0x200_0000 + Slice(u, 0x1000, 2) * 0x8000_0000
  {
    hide Slice;
  }

  lemma BTypeFields(opcode: int, f3: int, rs1: regidx, rs2: regidx, u: int)
    requires 0 <= opcode < 0x80 && 0 <= f3 < 8 && 0 <= u < 0x2000
    ensures var w := BType(opcode, f3, rs1, rs2, u);
            && Opcode(w) == opcode && Funct3(w) == f3 && Rs1(w) == rs1 && Rs2(w) == rs2
            && ImmB(w) == Sext(u - u % 2, 0x2000)
  {
    hide Slice, Sext, BType;
    BTypeIs(opcode, f3, rs1, rs2, u);
    BitsOf13(u);
    var b4_1, b10_5, b11, b12 := Slice(u, 2, 0x10), Slice(u, 0x20, 0x40), Slice(u, 0x800, 2), Slice(u, 0x1000, 2);
    var top := b10_5 + b12 * 0x40;
    var rest := f3 + rs1 * 8 + rs2 * 0x100 + top * 0x2000;
    var low := opcode + b11 * 0x80 + b4_1 * 0x100;
    FieldAt(0, 1, opcode, 0x80, b11 + b4_1 * 2 + rest * 0x20);
    FieldAt(opcode, 0x80, b11, 2, b4_1 + rest * 0x10);
    FieldAt(opcode + b11 * 0x80, 0x100, b4_1, 0x10, rest);
    FieldAt(low, 0x1000, f3, 8, rs1 + rs2 * 0x20 + top * 0x400);
    FieldAt(low + f3 * 0x1000, 0x8000, rs1, 0x20, rs2 + top * 0x20);
    FieldAt(low + f3 * 0x1000 + rs1 * 0x8000, 0x10_0000, rs2, 0x20, top);
    FieldAt(low + f3 * 0x1000 + rs1 * 0x8000 + rs2 * 0x10_0000, 0x200_0000, b10_5, 0x40, b12);
    TopAt(low + f3 * 0x1000 + rs1 * 0x8000 + rs2 * 0x10_0000 + b10_5 * 0x200_0000, 0x8000_0000, b12, 2);
  }

  /** A branch offset comes back with bit 0 cleared, so exactly the even ones
      survive; `beqz` and `bnez` do not check for that. */
  lemma BTypeDecodes(opcode: int, f3: int, rs1: regidx, rs2: regidx, v: int)
    requires 0 <= opcode < 0x80 && 0 <= f3 < 8 && -0x1000 <= v < 0x1000
    ensures var w := BType(opcode, f3, rs1, rs2, v % 0x2000);
            && Opcode(w) == opcode && Funct3(w) == f3 && Rs1(w) == rs1 && Rs2(w) == rs2
            && ImmB(w) == v - v % 2 && (ImmB(w) == v <==> v % 2 == 0)
  {
    hide Sext, BType, Opcode, Funct3, Rs1, Rs2, ImmB;
    BTypeFields(opcode, f3, rs1, rs2, v % 0x2000);
    Even13(v);
  }

  lemma UTypeDecodes(opcode: int, rd: regidx, imm20: int)
    requires 0 <= opcode < 0x80
    ensures var w := UType(opcode, rd, imm20);
            Opcode(w) == opcode && Rd(w) == rd && ImmU(w) == imm20 % 0x10_0000 * 0x1000
  {
    hide Slice;
    var u := imm20 % 0x10_0000;
    FieldAt(0, 1, opcode, 0x80, rd + u * 0x20);
    FieldAt(opcode, 0x80, rd, 0x20, u);
    TopAt(opcode + rd * 0x80, 0x1000, u, 0x10_0000);
  }

  lemma Even21(v: int)
    requires -0x10_0000 <= v < 0x10_0000
    ensures Sext(v % 0x20_0000 - v % 0x20_0000 % 2, 0x20_0000) == v - v % 2
  {
    assert v % 0x20_0000 == if v >= 0 then v else v + 0x20_0000;
  }

  lemma BitsOf21(u: int)
    requires 0 <= u < 0x20_0000
    ensures u == u % 2 + Slice(u, 2, 0x400) * 2 + Slice(u, 0x800, 2) * 0x800 + Slice(u, 0x1000, 0x100) * 0x1000
                 + Slice(u, 0x10_0000, 2) * 0x10_0000
  {
    WholeSlice(u, 0x20_0000);
    WholeSlice(u, 2);
    hide Slice;
    SliceSplit(u, 1, 2, 0x10_0000);
    SliceSplit(u, 2, 0x400, 0x400);
    SliceSplit(u, 0x800, 2, 0x200);
    SliceSplit(u, 0x1000, 0x100, 2);
  }

  lemma JTypeIs(opcode: int, rd: regidx, u: int)
    requires 0 <= opcode < 0x80
    ensures JType(opcode, rd, u) ==
            opcode + rd * 0x80 + Slice(u, 0x1000, 0x100) * 0x1000 + Slice(u, 0x800, 2) * 0x10_0000
            + Slice(u, 2, 0x400) * 0x20_0000 + Slice(u, 0x10_0000, 2) * 0x8000_0000
  {
    hide Slice;
  }

  lemma JTypeFields(opcode: int, rd: regidx, u: int)
    requires 0 <= opcode < 0x80 && 0 <= u < 0x20_0000
    ensures var w := JType(opcode, rd, u);
            Opcode(w) == opcode && Rd(w) == rd && ImmJ(w) == Sext(u - u % 2, 0x20_0000)
  {
    hide Slice, Sext, JType;
    JTypeIs(opcode, rd, u);
    BitsOf21(u);
    var b10_1, b11, mid, b20 := Slice(u, 2, 0x400), Slice(u, 0x800, 2), Slice(u, 0x1000, 0x100), Slice(u, 0x10_0000, 2);
    var low := opcode + rd * 0x80;
    var top := b11 + b10_1 * 2 + b20 * 0x800;
    FieldAt(0, 1, opcode, 0x80, rd + mid * 0x20 + top * 0x2000);
    FieldAt(opcode, 0x80, rd, 0x20, mid + top * 0x100);
    FieldAt(low, 0x1000, mid, 0x100, top);
    FieldAt(low + mid * 0x1000, 0x10_0000, b11, 2, b10_1 + b20 * 0x400);
    FieldAt(low + mid * 0x1000 + b11 * 0x10_0000, 0x20_0000, b10_1, 0x400, b20);
    TopAt(low + mid * 0x1000 + b11 * 0x10_0000 + b10_1 * 0x20_0000, 0x8000_0000, b20, 2);
  }

  /** A jump offset comes back with bit 0 cleared; `j` does not check for that. */
  lemma JTypeDecodes(opcode: int, rd: regidx, v: int)
    requires 0 <= opcode < 0x80 && -0x10_0000 <= v < 0x10_0000
    ensures var w := JType(opcode, rd, v % 0x20_0000);
            && Opcode(w) == opcode && Rd(w) == rd
            && ImmJ(w) == v - v % 2 && (ImmJ(w) == v <==> v % 2 == 0)
  {
    hide Sext, JType, Opcode, Rd, ImmJ;
    JTypeFields(opcode, rd, v % 0x20_0000);
    Even21(v);
  }

  // ---------- the two immediate decoders

  /** Copying the sign bit up is sign extension. */
  lemma SignCopies(sign: int, low: int, half: int)
    requires half == 0x800 || half == 0x1000 || half == 0x10_0000
    requires 0 <= sign < 2 && 0 <= low < half
    ensures U32(Sext(sign * half + low, 2 * half)) == sign * (0x1_0000_0000 - half) + low
  {
    var x := sign * half + low;
    assert x == if sign == 0 then low else half + low;
    DivModUnique(x, 2 * half, 0, x);
    if sign == 0 {
      DivModUnique(low, 0x1_0000_0000, 0, low);
    } else {
      DivModUnique(low - half, 0x1_0000_0000, -1, low - half + 0x1_0000_0000);
    }
  }

  /** imm_gen.sv and the emulator read the same immediate out of every word. */
  lemma ImmediatesAgree(inst: word)
    ensures var op := Opcode(inst);
            && (op in {OP_LOAD, OP_IMM, OP_JALR, OP_SYSTEM, OP_FENCE} ==> ImmGen(inst) == U32(ImmI(inst)))
            && (op == OP_STORE ==> ImmGen(inst) == U32(ImmS(inst)))
            && (op == OP_BRANCH ==> ImmGen(inst) == U32(ImmB(inst)))
            && (op == OP_LUI || op == OP_AUIPC ==> ImmGen(inst) == ImmU(inst))
            && (op == OP_JAL ==> ImmGen(inst) == U32(ImmJ(inst)))
            && (op !in {OP_LOAD, OP_IMM, OP_JALR, OP_SYSTEM, OP_FENCE, OP_STORE, OP_BRANCH, OP_LUI, OP_AUIPC, OP_JAL} ==>
                  ImmGen(inst) == 0)
  {
    hide U32, Sext, Slice, Opcode;
    var sign, mid := Slice(inst, 0x8000_0000, 2), Slice(inst, 0x200_0000, 0x40);
    SliceSplit(inst, 0x10_0000, 0x800, 2);
    SliceSplit(inst, 0x200_0000, 0x40, 2);
    SignCopies(sign, Slice(inst, 0x10_0000, 0x800), 0x800);
    SignCopies(sign, mid * 0x20 + Slice(inst, 0x80, 0x20), 0x800);
    SignCopies(sign, Slice(inst, 0x80, 2) * 0x800 + mid * 0x20 + Slice(inst, 0x100, 0x10) * 2, 0x1000);
    SignCopies(sign, Slice(inst, 0x1000, 0x100) * 0x1000 + Slice(inst, 0x10_0000, 2) * 0x800
                     + Slice(inst, 0x20_0000, 0x400) * 2, 0x10_0000);
  }
}
