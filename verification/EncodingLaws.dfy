/** Which lines are accepted, with which error otherwise, and the standard's numbers in
    the words they encode to (RISC-V Unprivileged ISA Specification, chapter 24). */
module EncodingLaws {
  import opened Words
  import opened RiscvPkg
  import opened Formats
  import opened A = Assembler
  import Meant = SourceMeaning

  /** The operand of a line that can be undefined or out of range. */
  function OperandOf(ins: Instr): Operand {
    match ins
    case Imm(_, _, _, imm) => imm
    case Shift(_, _, _, sh) => sh
    case Load(_, _, imm, _) => imm
    case Store(_, _, imm, _) => imm
    case Branch(_, _, _, t) => t
    case Jal(_, t) => t
    case Jalr(_, _, imm) => imm
    case Lui(_, imm) => imm
    case Auipc(_, imm) => imm
    case J(t) => t
    case Beqz(_, t) => t
    case Bnez(_, t) => t
    case Li(_, imm) => imm
    case La(_, t) => t
    case Call(t) => t
    case _ => Num(0)
  }

  /** A value that its own low bits, sign-extended, give back. */
  predicate Signed(v: int, span: int)
    requires span >= 2
  {
    Sext(v % span, span) == v
  }

  /** The value of the operand can be recovered from its field. */
  predicate Recoverable(ins: Instr, pc: int, v: int) {
    match ins
    case Imm(_, _, _, _) => Signed(v, 0x1000)
    case Load(_, _, _, _) => Signed(v, 0x1000)
    case Store(_, _, _, _) => Signed(v, 0x1000)
    case Jalr(_, _, _) => Signed(v, 0x1000)
    case Shift(_, _, _, _) => v == v % 32
    case Branch(_, _, _, _) => Signed(v - pc, 0x2000)
    case Beqz(_, _) => Signed(v - pc, 0x2000)
    case Bnez(_, _) => Signed(v - pc, 0x2000)
    case Jal(_, _) => Signed(v - pc, 0x20_0000)
    case J(_) => Signed(v - pc, 0x20_0000)
    case Lui(_, _) => v == v % 0x10_0000 || Signed(v, 0x10_0000)
    case Auipc(_, _) => v == v % 0x10_0000 || Signed(v, 0x10_0000)
    case _ => true
  }

  /** `jal` and the two-register branches insist on an even offset. */
  predicate OddOffset(ins: Instr, pc: int, v: int) {
    (ins.Branch? || ins.Jal?) && (v - pc) % 2 == 1
  }

  lemma SignedRange(v: int, span: int)
    requires span >= 2 && span % 2 == 0
    ensures Signed(v, span) <==> -span <= 2 * v < span
  {
    Meant.FitSignedExact(v, span);
  }

  /** Exactly which lines are accepted, and the error of every other. */
  lemma AcceptedExactly(ins: Instr, pc: int, syms: Symbols)
    ensures var r, o := EncodeInstr(ins, pc, syms), OperandOf(ins);
            var v := ValueOf(o, syms);
            if !Defined(o, syms) then r == Err(UNDEFINED_SYMBOL)
            else if OddOffset(ins, pc, v) then r == Err(ODD_TARGET)
            else if !Recoverable(ins, pc, v) then r == Err(OUT_OF_RANGE)
            else r.Ok?
  {
    hide RType, IType, SType, BType, UType, JType, Upper, U32, Resolve, Signed, ValueOf;
    var o := OperandOf(ins);
    ResolveExact(o, syms);
    var v := ValueOf(o, syms);
    SignedRange(v, 0x1000);
    SignedRange(v, 0x10_0000);
    SignedRange(v - pc, 0x2000);
    SignedRange(v - pc, 0x20_0000);
  }

  /** The opcode and funct3 of the first word; -1 where the format has no funct3. */
  function StandardCode(ins: Instr, syms: Symbols): (int, int) {
    match ins
    case Reg(op, _, _, _) =>
      (0x33, match op case ADD => 0 case SUB => 0 case SLL => 1 case SLT => 2 case SLTU => 3
             case XOR => 4 case SRL => 5 case SRA => 5 case OR => 6 case AND => 7)
    case Imm(op, _, _, _) =>
      (0x13, match op case ADDI => 0 case SLTI => 2 case SLTIU => 3 case XORI => 4 case ORI => 6 case ANDI => 7)
    case Shift(op, _, _, _) => (0x13, if op.SLLI? then 1 else 5)
    case Load(op, _, _, _) => (0x03, match op case LB => 0 case LH => 1 case LW => 2 case LBU => 4 case LHU => 5)
    case Store(op, _, _, _) => (0x23, match op case SB => 0 case SH => 1 case SW => 2)
    case Branch(op, _, _, _) =>
      (0x63, match op case BEQ => 0 case BNE => 1 case BLT => 4 case BGE => 5 case BLTU => 6 case BGEU => 7)
    case Jal(_, _) => (0x6F, -1)
    case Jalr(_, _, _) => (0x67, 0)
    case Lui(_, _) => (0x37, -1)
    case Auipc(_, _) => (0x17, -1)
    case Fence => (0x0F, 0)
    case FenceI => (0x0F, 1)
    case Ecall => (0x73, 0)
    case Ebreak => (0x73, 0)
    case Nop => (0x13, 0)
    case Ret => (0x67, 0)
    case Mv(_, _) => (0x13, 0)
    case Not(_, _) => (0x13, 4)
    case Neg(_, _) => (0x33, 0)
    case J(_) => (0x6F, -1)
    case Jr(_) => (0x67, 0)
    case Beqz(_, _) => (0x63, 0)
    case Bnez(_, _) => (0x63, 1)
    case Li(_, imm) => if -0x800 <= ValueOf(imm, syms) < 0x800 then (0x13, 0) else (0x37, -1)
    case La(_, _) => (0x17, -1)
    case Call(_) => (0x17, -1)
  }

  /** The word carries the standard's opcode and funct3. */
  predicate Carries(w: word, code: (int, int)) {
    Opcode(w) == code.0 && (code.1 >= 0 ==> Funct3(w) == code.1)
  }

  lemma CodeR(opcode: int, rd: regidx, f3: int, rs1: regidx, rs2: regidx, f7: int)
    requires 0 <= opcode < 0x80 && 0 <= f3 < 8 && 0 <= f7 < 0x80
    ensures Carries(RType(opcode, rd, f3, rs1, rs2, f7), (opcode, f3))
    ensures Funct7(RType(opcode, rd, f3, rs1, rs2, f7)) == f7
  {
    hide RType, Opcode, Funct3, Funct7, Rd, Rs1, Rs2;
    RTypeDecodes(opcode, rd, f3, rs1, rs2, f7);
  }

  lemma CodeI(opcode: int, rd: regidx, f3: int, rs1: regidx, u: int)
    requires 0 <= opcode < 0x80 && 0 <= f3 < 8 && 0 <= u < 0x1000
    ensures Carries(IType(opcode, rd, f3, rs1, u), (opcode, f3))
  {
    hide IType, Sext, Opcode, Funct3, Funct12, Rd, Rs1, ImmI;
    Meant.LowSext(u);
    ITypeDecodes(opcode, rd, f3, rs1, Sext(u, 0x1000));
  }

  lemma CodeS(f3: int, rs1: regidx, rs2: regidx, v: int)
    requires 0 <= f3 < 8 && -0x800 <= v < 0x800
    ensures Carries(SType(OP_STORE, f3, rs1, rs2, v % 0x1000), (OP_STORE, f3))
  {
    hide SType, Opcode, Funct3, Rs1, Rs2, ImmS;
    STypeDecodes(OP_STORE, f3, rs1, rs2, v);
  }

  lemma CodeB(f3: int, rs1: regidx, rs2: regidx, v: int)
    requires 0 <= f3 < 8 && -0x1000 <= v < 0x1000
    ensures Carries(BType(OP_BRANCH, f3, rs1, rs2, v % 0x2000), (OP_BRANCH, f3))
  {
    hide BType, Opcode, Funct3, Rs1, Rs2, ImmB;
    BTypeDecodes(OP_BRANCH, f3, rs1, rs2, v);
  }

  lemma CodeU(opcode: int, rd: regidx, u: int)
    requires 0 <= opcode < 0x80
    ensures Carries(UType(opcode, rd, u), (opcode, -1))
  {
    hide UType, Opcode, Rd, ImmU;
    UTypeDecodes(opcode, rd, u);
  }

  lemma CodeJ(rd: regidx, v: int)
    requires -0x10_0000 <= v < 0x10_0000
    ensures Carries(JType(OP_JAL, rd, v % 0x20_0000), (OP_JAL, -1))
  {
    hide JType, Opcode, Rd, ImmJ;
    JTypeDecodes(OP_JAL, rd, v);
  }

  lemma PseudoCodes(ins: Instr, pc: int, syms: Symbols)
    requires Meant.IsPseudo(ins) || InstrSize(ins) == 8
    requires EncodeInstr(ins, pc, syms).Ok?
    ensures |EncodeInstr(ins, pc, syms).value| > 0
    ensures Carries(EncodeInstr(ins, pc, syms).value[0], StandardCode(ins, syms))
  {
    hide RType, IType, SType, BType, UType, JType, U32, Upper, Carries;
    var v := ValueOf(OperandOf(ins), syms);
    match ins
    case Nop => CodeI(OP_IMM, 0, 0, 0, 0);
    case Ret => CodeI(OP_JALR, 0, 0, 1, 0);
    case Mv(rd, rs) => CodeI(OP_IMM, rd, 0, rs, 0);
    case Not(rd, rs) => CodeI(OP_IMM, rd, 4, rs, (-1) % 0x1000);
    case Neg(rd, rs) => CodeR(OP_REG, rd, 0, 0, rs, F7_ALT);
    case J(_) => CodeJ(0, v - pc);
    case Jr(rs) => CodeI(OP_JALR, 0, 0, rs, 0);
    case Beqz(rs, _) => CodeB(0, rs, 0, v - pc);
    case Bnez(rs, _) => CodeB(1, rs, 0, v - pc);
    case Li(rd, _) =>
      CodeI(OP_IMM, rd, 0, 0, v % 0x1000);
      CodeU(OP_LUI, rd, Upper(U32(v)));
    case La(rd, _) => CodeU(OP_AUIPC, rd, Upper(U32(v - pc)));
    case Call(_) => CodeU(OP_AUIPC, 1, Upper(U32(v - pc)));
  }

  /** Every first word carries the standard's opcode and funct3. */
  lemma StandardCodes(ins: Instr, pc: int, syms: Symbols)
    requires EncodeInstr(ins, pc, syms).Ok?
    ensures |EncodeInstr(ins, pc, syms).value| > 0
    ensures Carries(EncodeInstr(ins, pc, syms).value[0], StandardCode(ins, syms))
  {
    hide RType, IType, SType, BType, UType, JType, U32, Upper, Carries;
    var v := ValueOf(OperandOf(ins), syms);
    match ins
    case Reg(op, rd, rs1, rs2) => CodeR(OP_REG, rd, ArithF3(op), rs1, rs2, ArithF7(op));
    case Imm(op, rd, rs1, _) => CodeI(OP_IMM, rd, ImmF3(op), rs1, v % 0x1000);
    case Shift(op, rd, rs1, _) =>
      CodeR(OP_IMM, rd, if op == SLLI then 1 else 5, rs1, v, if op == SRAI then F7_ALT else F7_DEFAULT);
    case Load(op, rd, _, rs1) => CodeI(OP_LOAD, rd, LoadF3(op), rs1, v % 0x1000);
    case Store(op, rs2, _, rs1) => CodeS(StoreF3(op), rs1, rs2, v);
    case Branch(cond, rs1, rs2, _) => CodeB(CondF3(cond), rs1, rs2, v - pc);
    case Jal(rd, _) => CodeJ(rd, v - pc);
    case Jalr(rd, rs1, _) => CodeI(OP_JALR, rd, 0, rs1, v % 0x1000);
    case Lui(rd, _) => CodeU(OP_LUI, rd, v % 0x10_0000);
    case Auipc(rd, _) => CodeU(OP_AUIPC, rd, v % 0x10_0000);
    case Fence => CodeI(OP_FENCE, 0, 0, 0, 0xFF);
    case FenceI => CodeI(OP_FENCE, 0, 1, 0, 0);
    case Ecall => CodeI(OP_SYSTEM, 0, 0, 0, F12_ECALL);
    case Ebreak => CodeI(OP_SYSTEM, 0, 0, 0, F12_EBREAK);
    case _ => PseudoCodes(ins, pc, syms);
  }

  /** funct7 tells the subtracting and arithmetic forms from the others. */
  lemma StandardFunct7(ins: Instr, pc: int, syms: Symbols)
    requires EncodeInstr(ins, pc, syms).Ok? && (ins.Reg? || ins.Shift? || ins.Neg?)
    ensures Funct7(EncodeInstr(ins, pc, syms).value[0]) ==
            if ins.Neg? || (ins.Reg? && (ins.op.SUB? || ins.op.SRA?)) || (ins.Shift? && ins.sop.SRAI?) then 0x20 else 0
  {
    hide RType, Funct7;
    match ins
    case Reg(op, rd, rs1, rs2) => CodeR(OP_REG, rd, ArithF3(op), rs1, rs2, ArithF7(op));
    case Shift(op, rd, rs1, sh) =>
      CodeR(OP_IMM, rd, if op == SLLI then 1 else 5, rs1, ValueOf(sh, syms), if op == SRAI then F7_ALT else F7_DEFAULT);
    case Neg(rd, rs) => CodeR(OP_REG, rd, 0, 0, rs, F7_ALT);
  }

  /** The lines without operands are the standard's own words. */
  lemma FixedWords(pc: int, syms: Symbols)
    ensures EncodeInstr(Fence, pc, syms) == Ok([0x0FF0_000F]) && EncodeInstr(FenceI, pc, syms) == Ok([0x0000_100F])
    ensures EncodeInstr(Ecall, pc, syms) == Ok([0x0000_0073]) && EncodeInstr(Ebreak, pc, syms) == Ok([0x0010_0073])
    ensures EncodeInstr(Nop, pc, syms) == Ok([0x0000_0013]) && EncodeInstr(Ret, pc, syms) == Ok([0x0000_8067])
    ensures NOP_INST == NOP_WORD
  {}
}
