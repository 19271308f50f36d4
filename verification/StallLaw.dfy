/** Which registers each assembly line reads, needs early and writes, read off its
    mnemonic, and the stalls that follow: the hazard unit sees neither more nor less. */
module StallLaw {
  import opened Words
  import opened RiscvPkg
  import opened Formats
  import opened Datapath
  import opened PipelineTheorems
  import opened A = Assembler
  import Meant = SourceMeaning

  /** The dependencies of one instruction. A write of x0 is none. */
  datatype Use = Use(sources: set<regidx>, early: set<regidx>, dest: regidx, load: bool)

  /** The dependencies of a word. */
  function UseOf(w: word): Use {
    Use(Sources(w), DecodeSources(w), if WritesRd(w) then Rd(w) else 0, IsLoad(w))
  }

  predicate LiIsShort(imm: Operand, syms: Symbols) {
    -0x800 <= ValueOf(imm, syms) < 0x800
  }

  function Plain(sources: set<regidx>, rd: regidx): Use {
    Use(sources, {}, rd, false)
  }

  /** The dependencies of word `j` of a line. */
  function LineUse(ins: Instr, j: nat, syms: Symbols): Use {
    match ins
    case Reg(_, rd, rs1, rs2) => Plain({rs1, rs2}, rd)
    case Imm(_, rd, rs1, _) => Plain({rs1}, rd)
    case Shift(_, rd, rs1, _) => Plain({rs1}, rd)
    case Load(_, rd, _, rs1) => Use({rs1}, {}, rd, true)
    case Store(_, rs2, _, rs1) => Plain({rs1, rs2}, 0)
    case Branch(_, rs1, rs2, _) => Use({rs1, rs2}, {rs1, rs2}, 0, false)
    case Jal(rd, _) => Plain({}, rd)
    case Jalr(rd, rs1, _) => Use({rs1}, {rs1}, rd, false)
    case Lui(rd, _) => Plain({}, rd)
    case Auipc(rd, _) => Plain({}, rd)
    case Fence => Plain({}, 0)
    case FenceI => Plain({}, 0)
    case Ecall => Plain({}, 0)
    case Ebreak => Plain({}, 0)
    case Nop => Plain({0}, 0)
    case Ret => Use({1}, {1}, 0, false)
    case Mv(rd, rs) => Plain({rs}, rd)
    case Not(rd, rs) => Plain({rs}, rd)
    case Neg(rd, rs) => Plain({0, rs}, rd)
    case J(_) => Plain({}, 0)
    case Jr(rs) => Use({rs}, {rs}, 0, false)
    case Beqz(rs, _) => Use({rs, 0}, {rs, 0}, 0, false)
    case Bnez(rs, _) => Use({rs, 0}, {rs, 0}, 0, false)
    case Li(rd, imm) =>
      if LiIsShort(imm, syms) then (if j == 0 then Plain({0}, rd) else Plain({0}, 0))
      else if j == 0 then Plain({}, rd)
      else Plain({rd}, rd)
    case La(rd, _) => if j == 0 then Plain({}, rd) else Plain({rd}, rd)
    case Call(_) => if j == 0 then Plain({}, 1) else Use({1}, {1}, 1, false)
  }

  lemma UseR(opcode: int, rd: regidx, f3: int, rs1: regidx, rs2: regidx, f7: int)
    requires (opcode == OP_REG || opcode == OP_IMM) && 0 <= f3 < 8 && 0 <= f7 < 0x80
    ensures UseOf(RType(opcode, rd, f3, rs1, rs2, f7)) == Plain(if opcode == OP_REG then {rs1, rs2} else {rs1}, rd)
  {
    hide RType, Slice, Opcode, Rd, Rs1, Rs2, Funct3, Funct7;
    RTypeDecodes(opcode, rd, f3, rs1, rs2, f7);
  }

  lemma UseI(opcode: int, rd: regidx, f3: int, rs1: regidx, u: int)
    requires 0 <= opcode < 0x80 && 0 <= f3 < 8 && 0 <= u < 0x1000
    requires opcode in {OP_IMM, OP_LOAD, OP_JALR, OP_FENCE, OP_SYSTEM}
    requires opcode == OP_LOAD ==> f3 in {0, 1, 2, 4, 5}
    ensures UseOf(IType(opcode, rd, f3, rs1, u)) ==
            if opcode == OP_FENCE || opcode == OP_SYSTEM then Plain({}, 0)
            else Use({rs1}, if opcode == OP_JALR then {rs1} else {}, rd, opcode == OP_LOAD)
  {
    hide IType, Slice, Sext, Opcode, Rd, Rs1, Rs2, Funct3, Funct12, ImmI;
    Meant.LowSext(u);
    ITypeDecodes(opcode, rd, f3, rs1, Sext(u, 0x1000));
  }

  lemma UseS(f3: int, rs1: regidx, rs2: regidx, v: int)
    requires 0 <= f3 < 8 && -0x800 <= v < 0x800
    ensures UseOf(SType(OP_STORE, f3, rs1, rs2, v % 0x1000)) == Plain({rs1, rs2}, 0)
  {
    hide SType, Slice, Opcode, Rd, Rs1, Rs2, Funct3, ImmS;
    STypeDecodes(OP_STORE, f3, rs1, rs2, v);
  }

  lemma UseB(f3: int, rs1: regidx, rs2: regidx, v: int)
    requires f3 in {0, 1, 4, 5, 6, 7} && -0x1000 <= v < 0x1000
    ensures UseOf(BType(OP_BRANCH, f3, rs1, rs2, v % 0x2000)) == Use({rs1, rs2}, {rs1, rs2}, 0, false)
  {
    hide BType, Slice, Opcode, Rd, Rs1, Rs2, Funct3, ImmB;
    BTypeDecodes(OP_BRANCH, f3, rs1, rs2, v);
  }

  lemma UseU(opcode: int, rd: regidx, u: int)
    requires opcode == OP_LUI || opcode == OP_AUIPC
    ensures UseOf(UType(opcode, rd, u)) == Plain({}, rd)
  {
    hide UType, Slice, Opcode, Rd, Rs1, Rs2, Funct3, ImmU;
    UTypeDecodes(opcode, rd, u);
  }

  lemma UseJ(rd: regidx, v: int)
    requires -0x10_0000 <= v < 0x10_0000
    ensures UseOf(JType(OP_JAL, rd, v % 0x20_0000)) == Plain({}, rd)
  {
    hide JType, Slice, Opcode, Rd, Rs1, Rs2, Funct3, ImmJ;
    JTypeDecodes(OP_JAL, rd, v);
  }

  lemma BaseUses(ins: Instr, pc: int, syms: Symbols, j: nat)
    requires !Meant.IsPseudo(ins) && InstrSize(ins) == 4
    requires EncodeInstr(ins, pc, syms).Ok? && j < |EncodeInstr(ins, pc, syms).value|
    ensures UseOf(EncodeInstr(ins, pc, syms).value[j]) == LineUse(ins, j, syms)
  {
    hide RType, IType, SType, BType, UType, JType, UseOf, U32, Upper;
    match ins
    case Reg(op, rd, rs1, rs2) => UseR(OP_REG, rd, ArithF3(op), rs1, rs2, ArithF7(op));
    case Imm(op, rd, rs1, imm) => UseI(OP_IMM, rd, ImmF3(op), rs1, ValueOf(imm, syms) % 0x1000);
    case Shift(op, rd, rs1, sh) =>
      var f7 := if op == SRAI then F7_ALT else F7_DEFAULT;
      UseR(OP_IMM, rd, if op == SLLI then 1 else 5, rs1, ValueOf(sh, syms), f7);
    case Load(op, rd, imm, rs1) => UseI(OP_LOAD, rd, LoadF3(op), rs1, ValueOf(imm, syms) % 0x1000);
    case Store(op, rs2, imm, rs1) => UseS(StoreF3(op), rs1, rs2, ValueOf(imm, syms));
    case Branch(cond, rs1, rs2, t) => UseB(CondF3(cond), rs1, rs2, ValueOf(t, syms) - pc);
    case Jal(rd, t) => UseJ(rd, ValueOf(t, syms) - pc);
    case Jalr(rd, rs1, imm) => UseI(OP_JALR, rd, 0, rs1, ValueOf(imm, syms) % 0x1000);
    case Lui(rd, imm) => UseU(OP_LUI, rd, ValueOf(imm, syms) % 0x10_0000);
    case Auipc(rd, imm) => UseU(OP_AUIPC, rd, ValueOf(imm, syms) % 0x10_0000);
    case Fence => UseI(OP_FENCE, 0, 0, 0, 0xFF);
    case FenceI => UseI(OP_FENCE, 0, 1, 0, 0);
    case Ecall => UseI(OP_SYSTEM, 0, 0, 0, F12_ECALL);
    case Ebreak => UseI(OP_SYSTEM, 0, 0, 0, F12_EBREAK);
  }

  lemma PseudoUses(ins: Instr, pc: int, syms: Symbols, j: nat)
    requires Meant.IsPseudo(ins)
    requires EncodeInstr(ins, pc, syms).Ok? && j < |EncodeInstr(ins, pc, syms).value|
    ensures UseOf(EncodeInstr(ins, pc, syms).value[j]) == LineUse(ins, j, syms)
  {
    hide RType, IType, SType, BType, UType, JType, UseOf, U32, Upper;
    match ins
    case Neg(rd, rs) => UseR(OP_REG, rd, 0, 0, rs, F7_ALT);
    case J(t) => UseJ(0, ValueOf(t, syms) - pc);
    case Beqz(rs, t) => UseB(0, rs, 0, ValueOf(t, syms) - pc);
    case Bnez(rs, t) => UseB(1, rs, 0, ValueOf(t, syms) - pc);
    case Nop => UseI(OP_IMM, 0, 0, 0, 0);
    case Ret => UseI(OP_JALR, 0, 0, 1, 0);
    case Mv(rd, rs) => UseI(OP_IMM, rd, 0, rs, 0);
    case Not(rd, rs) => UseI(OP_IMM, rd, 4, rs, (-1) % 0x1000);
    case Jr(rs) => UseI(OP_JALR, 0, 0, rs, 0);
  }

  lemma TwoWordUses(ins: Instr, pc: int, syms: Symbols, j: nat)
    requires InstrSize(ins) == 8
    requires EncodeInstr(ins, pc, syms).Ok? && j < |EncodeInstr(ins, pc, syms).value|
    ensures UseOf(EncodeInstr(ins, pc, syms).value[j]) == LineUse(ins, j, syms)
  {
    hide RType, IType, SType, BType, UType, JType, UseOf, U32, Upper;
    match ins
    case Li(rd, imm) =>
      var v := ValueOf(imm, syms);
      UseI(OP_IMM, rd, 0, 0, v % 0x1000);
      UseI(OP_IMM, 0, 0, 0, 0);
      UseU(OP_LUI, rd, Upper(U32(v)));
      UseI(OP_IMM, rd, 0, rd, U32(v) % 0x1000);
    case La(rd, t) =>
      var d := U32(ValueOf(t, syms) - pc);
      UseU(OP_AUIPC, rd, Upper(d));
      UseI(OP_IMM, rd, 0, rd, d % 0x1000);
    case Call(t) =>
      var d := U32(ValueOf(t, syms) - pc);
      UseU(OP_AUIPC, 1, Upper(d));
      UseI(OP_JALR, 1, 0, 1, d % 0x1000);
  }

  /** Every word of every line depends on exactly what its mnemonic says. */
  lemma LineUses(ins: Instr, pc: int, syms: Symbols, j: nat)
    requires EncodeInstr(ins, pc, syms).Ok? && j < |EncodeInstr(ins, pc, syms).value|
    ensures UseOf(EncodeInstr(ins, pc, syms).value[j]) == LineUse(ins, j, syms)
  {
    hide EncodeInstr, UseOf, LineUse;
    if Meant.IsPseudo(ins) {
      PseudoUses(ins, pc, syms, j);
    } else if InstrSize(ins) == 8 {
      TwoWordUses(ins, pc, syms, j);
    } else {
      BaseUses(ins, pc, syms, j);
    }
  }

  /** Behind a load of `rd`, or any writer of `rd`, a line's word stalls exactly when
      the mnemonic reads `rd`, or needs it early. */
  lemma LineStalls(ins: Instr, pc: int, syms: Symbols, j: nat, rd: regidx)
    requires EncodeInstr(ins, pc, syms).Ok? && j < |EncodeInstr(ins, pc, syms).value|
    ensures var w, u := EncodeInstr(ins, pc, syms).value[j], LineUse(ins, j, syms);
            && (LoadUse(true, rd, w) <==> rd != 0 && rd in u.sources)
            && (BranchOperand(true, rd, w) <==> rd != 0 && rd in u.early)
  {
    hide LoadUse, BranchOperand, EncodeInstr, LineUse, Sources, DecodeSources;
    LineUses(ins, pc, syms, j);
    HazardsAreSources(true, true, rd, EncodeInstr(ins, pc, syms).value[j]);
  }

  /** Two words in a row stall once, for a load's reader or for an early need. */
  predicate Waits(prev: Use, cur: Use) {
    prev.dest != 0 && ((prev.load && prev.dest in cur.sources) || prev.dest in cur.early)
  }

  /** The schedule's stalls between emitted words, read off the two mnemonics. */
  lemma StallsOfLines(prev: Instr, prevPc: int, i: nat, cur: Instr, curPc: int, j: nat, syms: Symbols)
    requires EncodeInstr(prev, prevPc, syms).Ok? && i < |EncodeInstr(prev, prevPc, syms).value|
    requires EncodeInstr(cur, curPc, syms).Ok? && j < |EncodeInstr(cur, curPc, syms).value|
    ensures StallPair(EncodeInstr(prev, prevPc, syms).value[i], EncodeInstr(cur, curPc, syms).value[j]) <==>
            Waits(LineUse(prev, i, syms), LineUse(cur, j, syms))
  {
    hide EncodeInstr, LineUse, Sources, DecodeSources;
    LineUses(prev, prevPc, syms, i);
    LineUses(cur, curPc, syms, j);
  }
}
