/** What each assembly line means, said without encodings, and the proof that the
    emulator does exactly that on the words the assembler emits. */
module SourceMeaning {
  import opened Words
  import opened RiscvPkg
  import opened RegFile
  import opened ByteMemory
  import opened Formats
  import opened Agreement
  import opened A = Assembler
  import Emu = Emulator

  function ArithValue(op: Arith, a: word, b: word): word {
    match op
    case ADD => U32(a + b)
    case SUB => U32(a - b)
    case SLL => U32(a * Pow2(b % 32))
    case SLT => if S32(a) < S32(b) then 1 else 0
    case SLTU => if a < b then 1 else 0
    case XOR => Xor32(a, b)
    case SRL => ShiftRight(a, b % 32)
    case SRA => U32(S32(a) / Pow2(b % 32))
    case OR => Or32(a, b)
    case AND => And32(a, b)
  }

  function ImmValue(op: ImmArith, a: word, v: int): word {
    match op
    case ADDI => U32(a + v)
    case SLTI => if S32(a) < S32(v) then 1 else 0
    case SLTIU => if a < U32(v) then 1 else 0
    case XORI => Xor32(a, U32(v))
    case ORI => Or32(a, U32(v))
    case ANDI => And32(a, U32(v))
  }

  function ShiftValue(op: ImmShift, a: word, sh: nat): word {
    match op
    case SLLI => U32(a * Pow2(sh))
    case SRLI => ShiftRight(a, sh)
    case SRAI => U32(S32(a) / Pow2(sh))
  }

  predicate Holds(cond: Cond, a: word, b: word) {
    match cond
    case BEQ => a == b
    case BNE => a != b
    case BLT => S32(a) < S32(b)
    case BGE => S32(a) >= S32(b)
    case BLTU => a < b
    case BGEU => a >= b
  }

  function LoadSize(op: LoadOp): MemSize {
    match op
    case LB => MEM_B case LBU => MEM_B case LH => MEM_H case LHU => MEM_H case LW => MEM_W
  }

  function StoreSize(op: StoreOp): MemSize {
    match op
    case SB => MEM_B case SH => MEM_H case SW => MEM_W
  }

  function Goto(s: Emu.Cpu, go: bool, target: int): Emu.Executed {
    Emu.Executed(s, if go then U32(target) else U32(s.pc + 4), Emu.None)
  }

  function Link(s: Emu.Cpu, rd: regidx, target: int): Emu.Executed {
    Emu.Wrote(s, rd, U32(s.pc + 4), U32(target))
  }

  function JumpReg(s: Emu.Cpu, rd: regidx, target: word): Emu.Executed {
    var t := target - target % 2;
    if t % 4 != 0 then Emu.Trapped(Emu.MISALIGNED_FETCH) else Emu.Wrote(s, rd, U32(s.pc + 4), t)
  }

  /** One line as one action: labels are addresses, constants are whole, and the
      two-instruction pseudos are single steps of eight bytes. */
  function Meaning(ec: Emu.EmuConfig, s: Emu.Cpu, ins: Instr, syms: Symbols): Emu.Executed {
    var next := U32(s.pc + 4);
    var r := s.regs;
    match ins
    case Reg(op, rd, rs1, rs2) => Emu.Wrote(s, rd, ArithValue(op, r[rs1], r[rs2]), next)
    case Imm(op, rd, rs1, imm) => Emu.Wrote(s, rd, ImmValue(op, r[rs1], ValueOf(imm, syms)), next)
    case Shift(op, rd, rs1, sh) =>
      var v := ValueOf(sh, syms);
      Emu.Wrote(s, rd, ShiftValue(op, r[rs1], if v >= 0 then v else 0), next)
    case Load(op, rd, imm, rs1) =>
      (match Emu.LoadAt(ec, s.mem, U32(r[rs1] + ValueOf(imm, syms)), LoadSize(op), op.LB? || op.LH?)
       case BadFetch(k) => Emu.Trapped(k)
       case Word(v) => Emu.Wrote(s, rd, v, next))
    case Store(op, rs2, imm, rs1) =>
      Emu.StoreAt(ec, s, U32(r[rs1] + ValueOf(imm, syms)), r[rs2], StoreSize(op))
    case Branch(cond, rs1, rs2, target) => Goto(s, Holds(cond, r[rs1], r[rs2]), ValueOf(target, syms))
    case Jal(rd, target) => Link(s, rd, ValueOf(target, syms))
    case Jalr(rd, rs1, imm) => JumpReg(s, rd, U32(r[rs1] + ValueOf(imm, syms)))
    case Lui(rd, imm) => Emu.Wrote(s, rd, ValueOf(imm, syms) * 0x1000, next)
    case Auipc(rd, imm) => Emu.Wrote(s, rd, s.pc + ValueOf(imm, syms) * 0x1000, next)
    case Fence => Emu.Executed(s, next, Emu.None)
    case FenceI => Emu.Executed(s, next, Emu.None)
    case Ecall =>
      if ec.trapOnEcall then Emu.TakeTrap(s, Emu.CAUSE_ECALL_M)
      else Emu.Executed(s.(halted := true, reason := Emu.BY_ECALL), next, Emu.None)
    case Ebreak =>
      if ec.trapOnEcall then Emu.TakeTrap(s, Emu.CAUSE_BREAKPOINT)
      else Emu.Executed(s.(halted := true, reason := Emu.BY_EBREAK), next, Emu.None)
    case Nop => Emu.Executed(s, next, Emu.None)
    case Ret => JumpReg(s, 0, r[1])
    case Mv(rd, rs) => Emu.Wrote(s, rd, r[rs], next)
    case Not(rd, rs) => Emu.Wrote(s, rd, 0xFFFF_FFFF - r[rs], next)
    case Neg(rd, rs) => Emu.Wrote(s, rd, -(r[rs] as int), next)
    case J(target) => Goto(s, true, ValueOf(target, syms))
    case Jr(rs) => JumpReg(s, 0, r[rs])
    case Beqz(rs, target) => Goto(s, r[rs] == 0, ValueOf(target, syms))
    case Bnez(rs, target) => Goto(s, r[rs] != 0, ValueOf(target, syms))
    case Li(rd, imm) => Emu.Wrote(s, rd, ValueOf(imm, syms), U32(s.pc + 8))
    case La(rd, target) => Emu.Wrote(s, rd, ValueOf(target, syms), U32(s.pc + 8))
    case Call(target) => Emu.Wrote(s, 1, s.pc + 8, U32(ValueOf(target, syms)))
  }

  // ---------- one-word lines

  lemma RegMeans(ec: Emu.EmuConfig, s: Emu.Cpu, op: Arith, rd: regidx, rs1: regidx, rs2: regidx, w: word)
    requires w == RType(OP_REG, rd, ArithF3(op), rs1, rs2, ArithF7(op))
    ensures Emu.Execute(ec, s, w) == Emu.Wrote(s, rd, ArithValue(op, s.regs[rs1], s.regs[rs2]), U32(s.pc + 4))
  {
    hide RType, Slice, U32, S32, Pow2, Opcode, Rd, Rs1, Rs2, Funct3, Funct7, RegWrite, Xor32, Or32, And32, ShiftRight;
    RTypeDecodes(OP_REG, rd, ArithF3(op), rs1, rs2, ArithF7(op));
    WordIsItself(s.regs[rs2]);
  }

  lemma ImmMeans(ec: Emu.EmuConfig, s: Emu.Cpu, op: ImmArith, rd: regidx, rs1: regidx, v: int, w: word)
    requires -0x800 <= v < 0x800 && w == IType(OP_IMM, rd, ImmF3(op), rs1, v % 0x1000)
    ensures Emu.Execute(ec, s, w) == Emu.Wrote(s, rd, ImmValue(op, s.regs[rs1], v), U32(s.pc + 4))
  {
    hide IType, Slice, U32, S32, Pow2, Opcode, Rd, Rs1, Rs2, Funct3, Funct7, RegWrite, Xor32, Or32, And32, ShiftRight,
      ImmI;
    ITypeDecodes(OP_IMM, rd, ImmF3(op), rs1, v);
  }

  /** The shift amount is the low field of the immediate the emulator decodes. */
  lemma ShamtOfImm(rd: regidx, f3: int, rs1: regidx, sh: int, f7: int)
    requires 0 <= sh < 32 && 0 <= f3 < 8 && 0 <= f7 < 0x80
    ensures ImmI(RType(OP_IMM, rd, f3, rs1, sh, f7)) % 32 == sh
  {
    hide Slice, RType;
    var w := RType(OP_IMM, rd, f3, rs1, sh, f7);
    RTypeDecodes(OP_IMM, rd, f3, rs1, sh, f7);
    SliceSplit(w, 0x10_0000, 0x20, 0x80);
    var u := Slice(w, 0x10_0000, 0x1000);
    assert u == sh + 0x20 * f7;
    SextLow(u);
  }

  lemma SextLow(u: int)
    requires 0 <= u < 0x1000
    ensures Sext(u, 0x1000) % 32 == u % 32
  {
    hide Sext;
    LowSext(u);
    ModShift(u, 32, -0x80);
  }

  lemma ShiftMeans(ec: Emu.EmuConfig, s: Emu.Cpu, op: ImmShift, rd: regidx, rs1: regidx, sh: nat, w: word)
    requires sh < 32
    requires w == RType(OP_IMM, rd, if op == SLLI then 1 else 5, rs1, sh, if op == SRAI then F7_ALT else F7_DEFAULT)
    ensures Emu.Execute(ec, s, w) == Emu.Wrote(s, rd, ShiftValue(op, s.regs[rs1], sh), U32(s.pc + 4))
  {
    hide RType, Slice, U32, S32, Pow2, Opcode, Rd, Rs1, Rs2, Funct3, Funct7, RegWrite, ShiftRight, ImmI;
    var f3, f7 := if op == SLLI then 1 else 5, if op == SRAI then F7_ALT else F7_DEFAULT;
    RTypeDecodes(OP_IMM, rd, f3, rs1, sh, f7);
    ShamtOfImm(rd, f3, rs1, sh, f7);
  }

  lemma LoadMeans(ec: Emu.EmuConfig, s: Emu.Cpu, op: LoadOp, rd: regidx, rs1: regidx, v: int, w: word)
    requires -0x800 <= v < 0x800 && w == IType(OP_LOAD, rd, LoadF3(op), rs1, v % 0x1000)
    ensures Emu.Execute(ec, s, w) ==
            match Emu.LoadAt(ec, s.mem, U32(s.regs[rs1] + v), LoadSize(op), op.LB? || op.LH?)
            case BadFetch(k) => Emu.Trapped(k)
            case Word(x) => Emu.Wrote(s, rd, x, U32(s.pc + 4))
  {
    hide IType, Slice, U32, Opcode, Rd, Rs1, Rs2, Funct3, Funct7, RegWrite, ImmI, ByteMemory.Load, Aligned;
    ITypeDecodes(OP_LOAD, rd, LoadF3(op), rs1, v);
  }

  lemma StoreMeans(ec: Emu.EmuConfig, s: Emu.Cpu, op: StoreOp, rs1: regidx, rs2: regidx, v: int, w: word)
    requires -0x800 <= v < 0x800 && w == SType(OP_STORE, StoreF3(op), rs1, rs2, v % 0x1000)
    ensures Emu.Execute(ec, s, w) == Emu.StoreAt(ec, s, U32(s.regs[rs1] + v), s.regs[rs2], StoreSize(op))
  {
    hide SType, Slice, U32, Opcode, Rd, Rs1, Rs2, Funct3, Funct7, RegWrite, ImmS, Emu.StoreAt;
    STypeDecodes(OP_STORE, StoreF3(op), rs1, rs2, v);
  }

  lemma OffsetTarget(pc: word, base: int, target: int)
    requires pc == U32(base)
    ensures U32(pc + (target - base)) == U32(target)
  {
    WrapAdd(target - base, base);
  }

  lemma AlignedWrap(target: int)
    requires target % 4 == 0
    ensures U32(target) % 4 == 0
  {
    var q := target / 0x1_0000_0000;
    ModShift(U32(target), 4, 0x4000_0000 * q);
    assert target == U32(target) + 4 * (0x4000_0000 * q);
  }

  lemma EvenPart(t: word)
    ensures (t - t % 2) % 4 == 0 && t - t % 2 == t <==> t % 4 == 0
  {
    ModShift(t % 4, 2, 2 * (t / 4));
  }

  lemma LowBits(x: int)
    ensures U32(x) % 4 == x % 4 && x % 2 == x % 4 % 2
  {
    var q := x / 0x1_0000_0000;
    ModShift(U32(x), 4, 0x4000_0000 * q);
    assert x == U32(x) + 4 * (0x4000_0000 * q);
    ModShift(x % 4, 2, 2 * (x / 4));
  }

  lemma DifferenceParity(base: int, target: int)
    requires base % 4 == 0
    ensures (target - base) % 2 == target % 2
  {
    ModShift(target, 2, -2 * (base / 4));
  }

  /** The packed offset drops bit 0, so a transfer lands on its target, and may,
      exactly when the target is word-aligned. */
  lemma Landing(pc: word, base: int, target: int)
    requires pc == U32(base) && base % 4 == 0
    ensures var v := target - base;
            var t := U32(pc + (v - v % 2));
            t % 4 == 0 && t == U32(target) <==> target % 4 == 0
  {
    hide U32;
    var d := target % 2;
    DifferenceParity(base, target);
    OffsetTarget(pc, base, target - d);
    LowBits(target);
    LowBits(target - d);
  }

  /** A branch does what the line says exactly when it is not taken or its target is
      word-aligned; `beqz` and `bnez` accept odd targets, which fall on the byte below. */
  lemma BranchMeans(ec: Emu.EmuConfig, s: Emu.Cpu, f3: int, cond: Cond, rs1: regidx, rs2: regidx, base: int, target: int,
                    w: word)
    requires f3 == CondF3(cond) && -0x1000 <= target - base < 0x1000
    requires w == BType(OP_BRANCH, f3, rs1, rs2, (target - base) % 0x2000)
    requires s.pc == U32(base) && base % 4 == 0
    ensures Emu.Execute(ec, s, w) == Goto(s, Holds(cond, s.regs[rs1], s.regs[rs2]), target) <==>
            (Holds(cond, s.regs[rs1], s.regs[rs2]) ==> target % 4 == 0)
  {
    hide BType, Slice, U32, S32, Opcode, Rd, Rs1, Rs2, Funct3, Funct7, RegWrite, ImmB, Holds, CondF3, Emu.BranchTakes;
    BranchTakesHolds(cond, s.regs[rs1], s.regs[rs2]);
    BTypeDecodes(OP_BRANCH, f3, rs1, rs2, target - base);
    Landing(s.pc, base, target);
  }

  lemma BranchTakesHolds(cond: Cond, a: word, b: word)
    ensures Emu.BranchTakes(CondF3(cond), a, b) == Emu.Some(Holds(cond, a, b)) && 0 <= CondF3(cond) < 8
  {
    hide S32;
  }

  /** `jal` and `j` likewise. */
  lemma JalMeans(ec: Emu.EmuConfig, s: Emu.Cpu, rd: regidx, base: int, target: int, w: word)
    requires -0x10_0000 <= target - base < 0x10_0000 && w == JType(OP_JAL, rd, (target - base) % 0x20_0000)
    requires s.pc == U32(base) && base % 4 == 0
    ensures Emu.Execute(ec, s, w) == Link(s, rd, target) <==> target % 4 == 0
    ensures rd == 0 ==> Link(s, rd, target) == Goto(s, true, target)
  {
    hide JType, Slice, U32, Opcode, Rd, Rs1, Rs2, Funct3, Funct7, ImmJ;
    JTypeDecodes(OP_JAL, rd, target - base);
    Landing(s.pc, base, target);
  }

  lemma JalrMeans(ec: Emu.EmuConfig, s: Emu.Cpu, rd: regidx, rs1: regidx, v: int, w: word)
    requires -0x800 <= v < 0x800 && w == IType(OP_JALR, rd, 0, rs1, v % 0x1000)
    ensures Emu.Execute(ec, s, w) == JumpReg(s, rd, U32(s.regs[rs1] + v))
  {
    hide IType, RType, Slice, U32, Opcode, Rd, Rs1, Rs2, Funct3, Funct7, ImmI, RegWrite;
    ITypeDecodes(OP_JALR, rd, 0, rs1, v);
  }

  lemma UpperMeans(ec: Emu.EmuConfig, s: Emu.Cpu, rd: regidx, v: int, lui: word, auipc: word)
    requires -0x8_0000 <= v < 0x10_0000
    requires lui == UType(OP_LUI, rd, v % 0x10_0000) && auipc == UType(OP_AUIPC, rd, v % 0x10_0000)
    ensures Emu.Execute(ec, s, lui) == Emu.Wrote(s, rd, v * 0x1000, U32(s.pc + 4))
    ensures Emu.Execute(ec, s, auipc) == Emu.Wrote(s, rd, s.pc + v * 0x1000, U32(s.pc + 4))
  {
    hide UType, Slice, U32, Opcode, Rd, Rs1, Rs2, Funct3, Funct7, ImmU, RegWrite;
    UTypeDecodes(OP_LUI, rd, v % 0x10_0000);
    UTypeDecodes(OP_AUIPC, rd, v % 0x10_0000);
    UpperShift(v, s.pc);
  }

  lemma UpperShift(v: int, pc: word)
    ensures var u := v % 0x10_0000 % 0x10_0000 * 0x1000;
            U32(u) == U32(v * 0x1000) && U32(U32(pc + u)) == U32(pc + v * 0x1000)
  {
    var q := v / 0x10_0000;
    var u := v % 0x10_0000 * 0x1000;
    assert v * 0x1000 == u + 0x1_0000_0000 * q;
    ModShift(u, 0x1_0000_0000, q);
    ModShift(pc + u, 0x1_0000_0000, q);
    WrapAdd(0, pc + u);
  }

  lemma SystemMeans(ec: Emu.EmuConfig, s: Emu.Cpu, f12: int, w: word)
    requires (f12 == F12_ECALL || f12 == F12_EBREAK) && w == IType(OP_SYSTEM, 0, 0, 0, f12)
    ensures Emu.Execute(ec, s, w) ==
            if ec.trapOnEcall then
              Emu.TakeTrap(s, if f12 == F12_ECALL then Emu.CAUSE_ECALL_M else Emu.CAUSE_BREAKPOINT)
            else
              Emu.Executed(s.(halted := true, reason := if f12 == F12_ECALL then Emu.BY_ECALL else Emu.BY_EBREAK),
                           U32(s.pc + 4), Emu.None)
  {
    hide IType, Slice, U32, Opcode, Rd, Rs1, Rs2, Funct3, Funct7, Funct12, RegWrite;
    ITypeDecodes(OP_SYSTEM, 0, 0, 0, f12);
  }

  lemma FenceMeans(ec: Emu.EmuConfig, s: Emu.Cpu, f3: int, v: int, w: word)
    requires 0 <= f3 < 8 && 0 <= v < 0x800 && w == IType(OP_FENCE, 0, f3, 0, v)
    ensures Emu.Execute(ec, s, w) == Emu.Executed(s, U32(s.pc + 4), Emu.None)
  {
    hide IType, Slice, U32, Opcode, Rd, Rs1, Rs2, Funct3, Funct7, Funct12, RegWrite;
    ITypeDecodes(OP_FENCE, 0, f3, 0, v);
  }

  lemma NotMeans(a: word)
    ensures Xor32(a, U32(-1)) == 0xFFFF_FFFF - a
  {
    Pow2At32();
    XorOnes(a, 32);
  }

  /** Writing x0 changes nothing, so a NOP is no more than its PC step. */
  lemma WroteZero(s: Emu.Cpu, v: int, next: word)
    ensures Emu.Wrote(s, 0, v, next) == Emu.Executed(s, next, Emu.None)
  {}

  /** An accepted line whose label operand, if it has one, is word-aligned. */
  predicate AlignedTarget(ins: Instr, syms: Symbols) {
    match ins
    case Branch(_, _, _, t) => ValueOf(t, syms) % 4 == 0
    case Jal(_, t) => ValueOf(t, syms) % 4 == 0
    case J(t) => ValueOf(t, syms) % 4 == 0
    case Beqz(_, t) => ValueOf(t, syms) % 4 == 0
    case Bnez(_, t) => ValueOf(t, syms) % 4 == 0
    case Call(t) => ValueOf(t, syms) % 4 == 0
    case _ => true
  }

  predicate IsPseudo(ins: Instr) {
    ins.Nop? || ins.Ret? || ins.Mv? || ins.Not? || ins.Neg? || ins.J? || ins.Jr? || ins.Beqz? || ins.Bnez?
  }

  lemma PseudoMeans(ec: Emu.EmuConfig, s: Emu.Cpu, ins: Instr, base: int, syms: Symbols)
    requires IsPseudo(ins)
    requires EncodeInstr(ins, base, syms).Ok? && InstrSize(ins) == 4
    requires s.pc == U32(base) && base % 4 == 0 && AlignedTarget(ins, syms)
    ensures |EncodeInstr(ins, base, syms).value| == 1
    ensures Emu.Execute(ec, s, EncodeInstr(ins, base, syms).value[0]) == Meaning(ec, s, ins, syms)
  {
    hide Emu.Execute, RType, IType, SType, BType, UType, JType, U32, S32, Xor32, Or32, And32, Pow2, ShiftRight,
      ArithValue, ShiftValue, RegWrite, Emu.LoadAt, Emu.StoreAt, Emu.TakeTrap, Emu.Jump, Emu.Wrote;
    var w := EncodeInstr(ins, base, syms).value[0];
    match ins
    case Nop =>
      ImmMeans(ec, s, ADDI, 0, 0, 0, w);
      WroteZero(s, ImmValue(ADDI, s.regs[0], 0), U32(s.pc + 4));
    case Ret =>
      JalrMeans(ec, s, 0, 1, 0, w);
      WordIsItself(s.regs[1]);
    case Mv(rd, rs) =>
      ImmMeans(ec, s, ADDI, rd, rs, 0, w);
      WordIsItself(s.regs[rs]);
    case Not(rd, rs) =>
      ImmMeans(ec, s, XORI, rd, rs, -1, w);
      NotMeans(s.regs[rs]);
    case Neg(rd, rs) =>
      RegMeans(ec, s, Arith.SUB, rd, 0, rs, w);
      NegMeans(s, rd, rs);
    case J(t) => JalMeans(ec, s, 0, base, ValueOf(t, syms), w);
    case Jr(rs) =>
      JalrMeans(ec, s, 0, rs, 0, w);
      WordIsItself(s.regs[rs]);
    case Beqz(rs, t) => BranchMeans(ec, s, 0, BEQ, rs, 0, base, ValueOf(t, syms), w);
    case Bnez(rs, t) => BranchMeans(ec, s, 1, BNE, rs, 0, base, ValueOf(t, syms), w);
  }

  predicate IsCompute(ins: Instr) {
    ins.Reg? || ins.Imm? || ins.Shift? || ins.Load? || ins.Store?
  }

  lemma ComputeMeans(ec: Emu.EmuConfig, s: Emu.Cpu, ins: Instr, base: int, syms: Symbols)
    requires IsCompute(ins)
    requires EncodeInstr(ins, base, syms).Ok? && InstrSize(ins) == 4
    requires s.pc == U32(base) && base % 4 == 0 && AlignedTarget(ins, syms)
    ensures |EncodeInstr(ins, base, syms).value| == 1
    ensures Emu.Execute(ec, s, EncodeInstr(ins, base, syms).value[0]) == Meaning(ec, s, ins, syms)
  {
    hide Emu.Execute, RType, IType, SType, BType, UType, JType, U32, S32, Xor32, Or32, And32, Pow2, ShiftRight,
      ArithValue, ShiftValue, RegWrite, Emu.LoadAt, Emu.StoreAt, Emu.TakeTrap, Emu.Jump, Emu.Wrote;
    var w := EncodeInstr(ins, base, syms).value[0];
    match ins
    case Reg(op, rd, rs1, rs2) => RegMeans(ec, s, op, rd, rs1, rs2, w);
    case Imm(op, rd, rs1, imm) => ImmMeans(ec, s, op, rd, rs1, ValueOf(imm, syms), w);
    case Shift(op, rd, rs1, sh) => ShiftMeans(ec, s, op, rd, rs1, ValueOf(sh, syms), w);
    case Load(op, rd, imm, rs1) => LoadMeans(ec, s, op, rd, rs1, ValueOf(imm, syms), w);
    case Store(op, rs2, imm, rs1) => StoreMeans(ec, s, op, rs1, rs2, ValueOf(imm, syms), w);
  }

  lemma ControlMeans(ec: Emu.EmuConfig, s: Emu.Cpu, ins: Instr, base: int, syms: Symbols)
    requires !IsCompute(ins) && !IsPseudo(ins)
    requires EncodeInstr(ins, base, syms).Ok? && InstrSize(ins) == 4
    requires s.pc == U32(base) && base % 4 == 0 && AlignedTarget(ins, syms)
    ensures |EncodeInstr(ins, base, syms).value| == 1
    ensures Emu.Execute(ec, s, EncodeInstr(ins, base, syms).value[0]) == Meaning(ec, s, ins, syms)
  {
    hide Emu.Execute, RType, IType, SType, BType, UType, JType, U32, S32, Xor32, Or32, And32, Pow2, ShiftRight,
      ArithValue, ShiftValue, RegWrite, Emu.LoadAt, Emu.StoreAt, Emu.TakeTrap, Emu.Jump, Emu.Wrote;
    var w := EncodeInstr(ins, base, syms).value[0];
    match ins
    case Branch(cond, rs1, rs2, t) => BranchMeans(ec, s, CondF3(cond), cond, rs1, rs2, base, ValueOf(t, syms), w);
    case Jal(rd, t) => JalMeans(ec, s, rd, base, ValueOf(t, syms), w);
    case Jalr(rd, rs1, imm) => JalrMeans(ec, s, rd, rs1, ValueOf(imm, syms), w);
    case Lui(rd, imm) =>
      UpperMeans(ec, s, rd, ValueOf(imm, syms), w, UType(OP_AUIPC, rd, ValueOf(imm, syms) % 0x10_0000));
    case Auipc(rd, imm) =>
      UpperMeans(ec, s, rd, ValueOf(imm, syms), UType(OP_LUI, rd, ValueOf(imm, syms) % 0x10_0000), w);
    case Fence => FenceMeans(ec, s, 0, 0xFF, w);
    case FenceI => FenceMeans(ec, s, 1, 0, w);
    case Ecall => SystemMeans(ec, s, F12_ECALL, w);
    case Ebreak => SystemMeans(ec, s, F12_EBREAK, w);
  }

  /** A one-word line does what it means: the emulator, on the emitted word, takes
      the line's step. */
  lemma OneWordMeans(ec: Emu.EmuConfig, s: Emu.Cpu, ins: Instr, base: int, syms: Symbols)
    requires EncodeInstr(ins, base, syms).Ok? && InstrSize(ins) == 4
    requires s.pc == U32(base) && base % 4 == 0 && AlignedTarget(ins, syms)
    ensures |EncodeInstr(ins, base, syms).value| == 1
    ensures Emu.Execute(ec, s, EncodeInstr(ins, base, syms).value[0]) == Meaning(ec, s, ins, syms)
  {
    hide EncodeInstr, Meaning, Emu.Execute, U32, AlignedTarget;
    if IsCompute(ins) {
      ComputeMeans(ec, s, ins, base, syms);
    } else if IsPseudo(ins) {
      PseudoMeans(ec, s, ins, base, syms);
    } else {
      ControlMeans(ec, s, ins, base, syms);
    }
  }

  lemma NegMeans(s: Emu.Cpu, rd: regidx, rs: regidx)
    ensures Emu.Wrote(s, rd, ArithValue(Arith.SUB, s.regs[0], s.regs[rs]), U32(s.pc + 4)) ==
            Emu.Wrote(s, rd, -(s.regs[rs] as int), U32(s.pc + 4))
  {
    hide U32, RegWrite;
    WrapAdd(0, -(s.regs[rs] as int));
  }

  // ---------- two-word lines

  /** LUI's twenty bits plus ADDI's sign-extended twelve make the whole constant,
      with the carry out of bit 11 and the wrap at the top. */
  lemma HighLow(v: word, pc: int)
    ensures U32(U32(pc + Upper(v) % 0x10_0000 * 0x1000) + Sext(v % 0x1000, 0x1000)) == U32(pc + v)
    ensures -0x800 <= Sext(v % 0x1000, 0x1000) < 0x800 && Sext(v % 0x1000, 0x1000) % 0x1000 == v % 0x1000
  {
    hide U32, Upper, Sext;
    var lo, hi := v % 0x1000, v / 0x1000;
    LowSext(lo);
    UpperIs(v, hi, lo);
    UpperBound(v);
    var k := if lo >= 0x800 && hi == 0xF_FFFF then 1 else 0;
    var x, y := pc + Upper(v) * 0x1000, Sext(lo, 0x1000);
    assert x + y == pc + v - 0x1_0000_0000 * k;
    WrapAdd(y, x);
    ModShift(pc + v, 0x1_0000_0000, -k);
    WrapDown(pc + v, k);
  }

  lemma WrapDown(x: int, k: int)
    requires 0 <= k < 2
    ensures U32(x - 0x1_0000_0000 * k) == U32(x)
  {
    ModShift(x, 0x1_0000_0000, -k);
  }

  lemma LowSext(lo: int)
    requires 0 <= lo < 0x1000
    ensures var y := Sext(lo, 0x1000);
            -0x800 <= y < 0x800 && y % 0x1000 == lo && y == if lo >= 0x800 then lo - 0x1000 else lo
  {}

  lemma UpperIs(v: word, hi: int, lo: int)
    requires hi == v / 0x1000 && lo == v % 0x1000
    ensures v == hi * 0x1000 + lo && 0 <= hi < 0x10_0000
    ensures Upper(v) == if lo < 0x800 then hi else if hi == 0xF_FFFF then 0 else hi + 1
  {}

  /** The state between the two words: one instruction further, still running. */
  function Between(e: Emu.Executed): Emu.Cpu
    requires e.Executed?
  {
    e.cpu.(pc := e.nextPc, steps := e.cpu.steps + 1)
  }

  /** The first word of a two-word line runs on to the second, leaving memory alone. */
  predicate RunsOn(s: Emu.Cpu, e: Emu.Executed) {
    e.Executed? && e.memWrite == Emu.None && e.cpu.halted == s.halted && e.nextPc == U32(s.pc + 4) && e.cpu.mem == s.mem
  }

  /** For every value: `li` leaves it mod 2^32 in rd, two words on. */
  lemma LiMeans(ec: Emu.EmuConfig, s: Emu.Cpu, rd: regidx, v: int, w0: word, w1: word)
    requires if -0x800 <= v < 0x800 then w0 == IType(OP_IMM, rd, 0, 0, v % 0x1000) && w1 == NOP_WORD
             else w0 == UType(OP_LUI, rd, Upper(U32(v))) && w1 == IType(OP_IMM, rd, 0, rd, U32(v) % 0x1000)
    ensures var e0 := Emu.Execute(ec, s, w0);
            RunsOn(s, e0)
            && Emu.Execute(ec, Between(e0), w1) == Emu.Wrote(s.(pc := e0.nextPc, steps := s.steps + 1), rd, v, U32(s.pc + 8))
  {
    hide IType, UType, U32, Upper, Emu.Execute, Emu.Wrote, RunsOn;
    if -0x800 <= v < 0x800 {
      LiShort(ec, s, rd, v, w0, w1);
    } else {
      LiLong(ec, s, rd, v, w0, w1);
    }
  }

  lemma LiShort(ec: Emu.EmuConfig, s: Emu.Cpu, rd: regidx, v: int, w0: word, w1: word)
    requires -0x800 <= v < 0x800 && w0 == IType(OP_IMM, rd, 0, 0, v % 0x1000) && w1 == NOP_WORD
    ensures var e0 := Emu.Execute(ec, s, w0);
            RunsOn(s, e0)
            && Emu.Execute(ec, Between(e0), w1) == Emu.Wrote(s.(pc := e0.nextPc, steps := s.steps + 1), rd, v, U32(s.pc + 8))
  {
    hide IType, U32, Emu.Execute, RegWrite;
    WrapAdd(4, s.pc + 4);
    WrapAdd(0, v);
    ImmMeans(ec, s, ADDI, rd, 0, v, w0);
    var e0 := Emu.Execute(ec, s, w0);
    ImmMeans(ec, Between(e0), ADDI, 0, 0, 0, w1);
    WroteZero(Between(e0), ImmValue(ADDI, Between(e0).regs[0], 0), U32(e0.nextPc + 4));
  }

  lemma LiLong(ec: Emu.EmuConfig, s: Emu.Cpu, rd: regidx, v: int, w0: word, w1: word)
    requires w0 == UType(OP_LUI, rd, Upper(U32(v))) && w1 == IType(OP_IMM, rd, 0, rd, U32(v) % 0x1000)
    ensures var e0 := Emu.Execute(ec, s, w0);
            RunsOn(s, e0)
            && Emu.Execute(ec, Between(e0), w1) == Emu.Wrote(s.(pc := e0.nextPc, steps := s.steps + 1), rd, v, U32(s.pc + 8))
  {
    hide IType, UType, U32, Emu.Execute, Upper, Sext;
    WrapAdd(4, s.pc + 4);
    WrapAdd(0, v);
    HighLow(U32(v), 0);
    var lo := Sext(U32(v) % 0x1000, 0x1000);
    UpperBound(U32(v));
    UpperMeans(ec, s, rd, Upper(U32(v)), w0, UType(OP_AUIPC, rd, Upper(U32(v))));
    var e0 := Emu.Execute(ec, s, w0);
    ImmMeans(ec, Between(e0), ADDI, rd, rd, lo, w1);
    WriteTwice(s.regs, rd, U32(Upper(U32(v)) * 0x1000), U32(v));
  }

  lemma UpperBound(v: word)
    ensures 0 <= Upper(v) < 0x10_0000 && Upper(v) % 0x10_0000 == Upper(v)
  {}

  lemma WriteTwice(regs: RegBank, rd: regidx, x: word, y: word)
    ensures RegWrite(RegWrite(regs, true, rd, x), true, rd, y) == RegWrite(regs, true, rd, y)
    ensures rd != 0 ==> RegWrite(regs, true, rd, x)[rd] == x
  {}

  /** For every target: `la` leaves its address in rd, two words on. */
  lemma LaMeans(ec: Emu.EmuConfig, s: Emu.Cpu, rd: regidx, base: int, target: int, w0: word, w1: word)
    requires s.pc == U32(base)
    requires w0 == UType(OP_AUIPC, rd, Upper(U32(target - base)))
    requires w1 == IType(OP_IMM, rd, 0, rd, U32(target - base) % 0x1000)
    ensures var e0 := Emu.Execute(ec, s, w0);
            RunsOn(s, e0)
            && Emu.Execute(ec, Between(e0), w1) ==
               Emu.Wrote(s.(pc := e0.nextPc, steps := s.steps + 1), rd, target, U32(s.pc + 8))
  {
    hide IType, UType, U32, Emu.Execute, Upper, Sext;
    WrapAdd(4, s.pc + 4);
    WrapAdd(0, target);
    WrapAdd(s.pc, target - base);
    OffsetTarget(s.pc, base, target);
    var d := U32(target - base);
    HighLow(d, s.pc);
    UpperBound(d);
    UpperMeans(ec, s, rd, Upper(d), UType(OP_LUI, rd, Upper(d)), w0);
    var e0 := Emu.Execute(ec, s, w0);
    ImmMeans(ec, Between(e0), ADDI, rd, rd, Sext(d % 0x1000, 0x1000), w1);
    WriteTwice(s.regs, rd, U32(s.pc + Upper(d) * 0x1000), U32(target));
  }

  /** `call` leaves pc + 8 in x1 and goes to its target exactly when that is
      word-aligned; otherwise JALR clears bit 0, or traps. */
  lemma CallMeans(ec: Emu.EmuConfig, s: Emu.Cpu, base: int, target: int, w0: word, w1: word)
    requires s.pc == U32(base)
    requires w0 == UType(OP_AUIPC, 1, Upper(U32(target - base)))
    requires w1 == IType(OP_JALR, 1, 0, 1, U32(target - base) % 0x1000)
    ensures var e0 := Emu.Execute(ec, s, w0);
            && RunsOn(s, e0)
            && var called := Emu.Wrote(s.(pc := e0.nextPc, steps := s.steps + 1), 1, s.pc + 8, U32(target));
            Emu.Execute(ec, Between(e0), w1) == called <==> target % 4 == 0
  {
    hide IType, UType, U32, Emu.Execute, Upper, Sext, RegWrite;
    WrapAdd(4, s.pc + 4);
    WrapAdd(0, s.pc + 8);
    WrapAdd(s.pc, target - base);
    OffsetTarget(s.pc, base, target);
    LowBits(target);
    EvenPart(U32(target));
    var d := U32(target - base);
    HighLow(d, s.pc);
    UpperBound(d);
    UpperMeans(ec, s, 1, Upper(d), UType(OP_LUI, 1, Upper(d)), w0);
    var e0 := Emu.Execute(ec, s, w0);
    JalrMeans(ec, Between(e0), 1, 1, Sext(d % 0x1000, 0x1000), w1);
    WriteTwice(s.regs, 1, U32(s.pc + Upper(d) * 0x1000), U32(s.pc + 8));
  }

  // ---------- what is accepted

  /** A signed field accepts exactly the values its pattern sign-extends back to. */
  lemma FitSignedExact(v: int, span: int)
    requires span >= 2 && span % 2 == 0
    ensures FitSigned(v, span).Ok? <==> Sext(v % span, span) == v
  {
    DivModUnique(v % span, span, 0, v % span);
    if 0 <= v < span {
      DivModUnique(v, span, 0, v);
    } else if -span <= v < 0 {
      DivModUnique(v, span, -1, v + span);
    }
  }

  /** `jal` and the branches accept exactly the targets whose offset comes back from
      the word; `j`, which does not check parity, accepts every target in range. */
  lemma TransfersAccepted(cond: Cond, rd: regidx, rs1: regidx, rs2: regidx, t: int, pc: int, syms: Symbols)
    ensures EncodeInstr(Jal(rd, Num(t)), pc, syms).Ok? <==> ImmJ(JType(OP_JAL, rd, (t - pc) % 0x20_0000)) == t - pc
    ensures EncodeInstr(Branch(cond, rs1, rs2, Num(t)), pc, syms).Ok? <==>
            ImmB(BType(OP_BRANCH, CondF3(cond), rs1, rs2, (t - pc) % 0x2000)) == t - pc
    ensures EncodeInstr(J(Num(t)), pc, syms).Ok? <==> -0x10_0000 <= t - pc < 0x10_0000
  {
    hide JType, BType, ImmJ, ImmB, CondF3;
    var v := t - pc;
    ImmRange(JType(OP_JAL, rd, v % 0x20_0000));
    ImmRange(BType(OP_BRANCH, CondF3(cond), rs1, rs2, v % 0x2000));
    if -0x10_0000 <= v < 0x10_0000 {
      JTypeDecodes(OP_JAL, rd, v);
    }
    if -0x1000 <= v < 0x1000 {
      CondRange(cond);
      BTypeDecodes(OP_BRANCH, CondF3(cond), rs1, rs2, v);
    }
  }

  lemma CondRange(cond: Cond)
    ensures 0 <= CondF3(cond) < 8
  {}

  lemma ImmRange(w: word)
    ensures -0x10_0000 <= ImmJ(w) < 0x10_0000 && -0x1000 <= ImmB(w) < 0x1000
  {
    hide Slice;
  }

  // ---------- emitted words and the RTL

  lemma AgreedR(opcode: int, rd: regidx, f3: int, rs1: regidx, rs2: regidx, f7: int)
    requires (opcode == OP_REG || opcode == OP_IMM) && 0 <= f3 < 8 && (f7 == F7_DEFAULT || f7 == F7_ALT)
    ensures AgreedWord(RType(opcode, rd, f3, rs1, rs2, f7))
  {
    hide RType, Slice, Opcode, Funct3, Funct7, Funct12, Rd, Rs1, Rs2;
    RTypeDecodes(opcode, rd, f3, rs1, rs2, f7);
  }

  lemma AgreedI(opcode: int, rd: regidx, f3: int, rs1: regidx, u: int)
    requires 0 <= opcode < 0x80 && opcode != OP_REG && 0 <= f3 < 8 && 0 <= u < 0x1000
    requires !(opcode == OP_IMM && f3 == 5)
    requires opcode == OP_SYSTEM ==> f3 == 0 && (u == F12_ECALL || u == F12_EBREAK)
    ensures AgreedWord(IType(opcode, rd, f3, rs1, u))
  {
    hide IType, Slice, Sext, Opcode, Funct3, Funct7, Funct12, Rd, Rs1, Rs2, ImmI;
    LowSext(u);
    ITypeDecodes(opcode, rd, f3, rs1, Sext(u, 0x1000));
  }

  lemma AgreedOther(w: word, opcode: int)
    requires Opcode(w) == opcode && opcode !in {OP_IMM, OP_REG, OP_SYSTEM}
    ensures AgreedWord(w)
  {
    hide Opcode, Funct3, Funct7, Funct12;
  }

  lemma AgreedStore(f3: int, rs1: regidx, rs2: regidx, v: int)
    requires 0 <= f3 < 8 && -0x800 <= v < 0x800
    ensures AgreedWord(SType(OP_STORE, f3, rs1, rs2, v % 0x1000))
  {
    hide SType, AgreedWord;
    STypeDecodes(OP_STORE, f3, rs1, rs2, v);
    AgreedOther(SType(OP_STORE, f3, rs1, rs2, v % 0x1000), OP_STORE);
  }

  lemma AgreedBranch(f3: int, rs1: regidx, rs2: regidx, v: int)
    requires 0 <= f3 < 8 && -0x1000 <= v < 0x1000
    ensures AgreedWord(BType(OP_BRANCH, f3, rs1, rs2, v % 0x2000))
  {
    hide BType, AgreedWord;
    BTypeDecodes(OP_BRANCH, f3, rs1, rs2, v);
    AgreedOther(BType(OP_BRANCH, f3, rs1, rs2, v % 0x2000), OP_BRANCH);
  }

  lemma AgreedJump(rd: regidx, v: int)
    requires -0x10_0000 <= v < 0x10_0000
    ensures AgreedWord(JType(OP_JAL, rd, v % 0x20_0000))
  {
    hide JType, AgreedWord;
    JTypeDecodes(OP_JAL, rd, v);
    AgreedOther(JType(OP_JAL, rd, v % 0x20_0000), OP_JAL);
  }

  lemma AgreedUpper(opcode: int, rd: regidx, u: int)
    requires opcode == OP_LUI || opcode == OP_AUIPC
    ensures AgreedWord(UType(opcode, rd, u))
  {
    hide UType, AgreedWord;
    UTypeDecodes(opcode, rd, u);
    AgreedOther(UType(opcode, rd, u), opcode);
  }

  /** Every word the assembler emits for an instruction is one the RTL and the
      emulator decode alike. */
  lemma EmittedAgreed(ins: Instr, pc: int, syms: Symbols, j: nat)
    requires EncodeInstr(ins, pc, syms).Ok? && j < |EncodeInstr(ins, pc, syms).value|
    ensures AgreedWord(EncodeInstr(ins, pc, syms).value[j])
  {
    hide RType, IType, SType, BType, UType, JType, AgreedWord, U32, Upper;
    match ins
    case Reg(op, rd, rs1, rs2) => AgreedR(OP_REG, rd, ArithF3(op), rs1, rs2, ArithF7(op));
    case Imm(op, rd, rs1, imm) => AgreedI(OP_IMM, rd, ImmF3(op), rs1, ValueOf(imm, syms) % 0x1000);
    case Shift(op, rd, rs1, sh) =>
      AgreedR(OP_IMM, rd, if op == SLLI then 1 else 5, rs1, ValueOf(sh, syms), if op == SRAI then F7_ALT else F7_DEFAULT);
    case Load(op, rd, imm, rs1) => AgreedI(OP_LOAD, rd, LoadF3(op), rs1, ValueOf(imm, syms) % 0x1000);
    case Store(op, rs2, imm, rs1) => AgreedStore(StoreF3(op), rs1, rs2, ValueOf(imm, syms));
    case Branch(cond, rs1, rs2, t) => AgreedBranch(CondF3(cond), rs1, rs2, ValueOf(t, syms) - pc);
    case Jal(rd, t) => AgreedJump(rd, ValueOf(t, syms) - pc);
    case Jalr(rd, rs1, imm) => AgreedI(OP_JALR, rd, 0, rs1, ValueOf(imm, syms) % 0x1000);
    case Lui(rd, imm) => AgreedUpper(OP_LUI, rd, ValueOf(imm, syms) % 0x10_0000);
    case Auipc(rd, imm) => AgreedUpper(OP_AUIPC, rd, ValueOf(imm, syms) % 0x10_0000);
    case Fence => AgreedI(OP_FENCE, 0, 0, 0, 0xFF);
    case FenceI => AgreedI(OP_FENCE, 0, 1, 0, 0);
    case Ecall => AgreedI(OP_SYSTEM, 0, 0, 0, F12_ECALL);
    case Ebreak => AgreedI(OP_SYSTEM, 0, 0, 0, F12_EBREAK);
    case Neg(rd, rs) => AgreedR(OP_REG, rd, 0, 0, rs, F7_ALT);
    case J(t) => AgreedJump(0, ValueOf(t, syms) - pc);
    case Beqz(rs, t) => AgreedBranch(0, rs, 0, ValueOf(t, syms) - pc);
    case Bnez(rs, t) => AgreedBranch(1, rs, 0, ValueOf(t, syms) - pc);
    case Nop => AgreedI(OP_IMM, 0, 0, 0, 0);
    case Ret => AgreedI(OP_JALR, 0, 0, 1, 0);
    case Mv(rd, rs) => AgreedI(OP_IMM, rd, 0, rs, 0);
    case Not(rd, rs) => AgreedI(OP_IMM, rd, 4, rs, (-1) % 0x1000);
    case Jr(rs) => AgreedI(OP_JALR, 0, 0, rs, 0);
    case Li(rd, imm) =>
      var v := ValueOf(imm, syms);
      AgreedI(OP_IMM, rd, 0, 0, v % 0x1000);
      AgreedI(OP_IMM, 0, 0, 0, 0);
      AgreedUpper(OP_LUI, rd, Upper(U32(v)));
      AgreedI(OP_IMM, rd, 0, rd, U32(v) % 0x1000);
    case La(rd, t) =>
      var d := U32(ValueOf(t, syms) - pc);
      AgreedUpper(OP_AUIPC, rd, Upper(d));
      AgreedI(OP_IMM, rd, 0, rd, d % 0x1000);
    case Call(t) =>
      var d := U32(ValueOf(t, syms) - pc);
      AgreedUpper(OP_AUIPC, 1, Upper(d));
      AgreedI(OP_JALR, 1, 0, 1, d % 0x1000);
  }
}
