/** assemble.py after parsing: one instruction line to its words. */
module Assembler {
  import opened Words
  import opened RiscvPkg
  import opened Formats

  /** A parsed operand: an integer literal or a symbol. */
  datatype Operand = Num(v: int) | Sym(name: string)
  type Symbols = map<string, int>

  datatype Arith = ADD | SUB | SLL | SLT | SLTU | XOR | SRL | SRA | OR | AND
  datatype ImmArith = ADDI | SLTI | SLTIU | XORI | ORI | ANDI
  datatype ImmShift = SLLI | SRLI | SRAI
  datatype LoadOp = LB | LH | LW | LBU | LHU
  datatype StoreOp = SB | SH | SW
  datatype Cond = BEQ | BNE | BLT | BGE | BLTU | BGEU

  datatype Instr =
    | Reg(op: Arith, rd: regidx, rs1: regidx, rs2: regidx)
    | Imm(iop: ImmArith, rd: regidx, rs1: regidx, imm: Operand)
    | Shift(sop: ImmShift, rd: regidx, rs1: regidx, shamt: Operand)
    | Load(lop: LoadOp, rd: regidx, imm: Operand, rs1: regidx)
    | Store(wop: StoreOp, rs2: regidx, imm: Operand, rs1: regidx)
    | Branch(cond: Cond, rs1: regidx, rs2: regidx, target: Operand)
    | Jal(rd: regidx, target: Operand)
    | Jalr(rd: regidx, rs1: regidx, imm: Operand)
    | Lui(rd: regidx, imm: Operand)
    | Auipc(rd: regidx, imm: Operand)
    | Fence | FenceI | Ecall | Ebreak | Nop | Ret
    | Mv(rd: regidx, rs1: regidx)
    | Not(rd: regidx, rs1: regidx)
    | Neg(rd: regidx, rs1: regidx)
    | J(target: Operand)
    | Jr(rs1: regidx)
    | Beqz(rs1: regidx, target: Operand)
    | Bnez(rs1: regidx, target: Operand)
    | Li(rd: regidx, imm: Operand)
    | La(rd: regidx, target: Operand)
    | Call(target: Operand)

  datatype AsmError = UNDEFINED_SYMBOL | OUT_OF_RANGE | ODD_TARGET | DUPLICATE_LABEL | BAD_ALIGN | NO_VALUES

  datatype Result<+T> = Ok(value: T) | Err(error: AsmError) {
    predicate IsFailure() { Err? }
    function PropagateFailure<U>(): Result<U>
      requires Err?
    { Err(error) }
    function Extract(): T
      requires Ok?
    { value }
  }

  function Resolve(o: Operand, syms: Symbols): Result<int> {
    match o
    case Num(v) => Ok(v)
    case Sym(n) => if n in syms then Ok(syms[n]) else Err(UNDEFINED_SYMBOL)
  }

  /** What an operand denotes, said apart from the lookup: a literal itself, a symbol
      its table entry. */
  function ValueOf(o: Operand, syms: Symbols): int {
    match o
    case Num(v) => v
    case Sym(n) => if n in syms then syms[n] else 0
  }

  predicate Defined(o: Operand, syms: Symbols) {
    o.Sym? ==> o.name in syms
  }

  lemma ResolveExact(o: Operand, syms: Symbols)
    ensures Resolve(o, syms) == if Defined(o, syms) then Ok(ValueOf(o, syms)) else Err(UNDEFINED_SYMBOL)
  {}

  /** Range-check a signed value; `span` is 2 to the number of bits. */
  function FitSigned(v: int, span: int): Result<int>
    requires span >= 2
  {
    if -span <= 2 * v < span then Ok(v % span) else Err(OUT_OF_RANGE)
  }

  function FitUnsigned(v: int, span: int): Result<int> {
    if 0 <= v < span then Ok(v) else Err(OUT_OF_RANGE)
  }

  function ArithF3(op: Arith): int {
    match op
    case ADD => 0 case SUB => 0 case SLL => 1 case SLT => 2 case SLTU => 3
    case XOR => 4 case SRL => 5 case SRA => 5 case OR => 6 case AND => 7
  }

  function ArithF7(op: Arith): int {
    if op.SUB? || op.SRA? then F7_ALT else F7_DEFAULT
  }

  function ImmF3(op: ImmArith): int {
    match op
    case ADDI => 0 case SLTI => 2 case SLTIU => 3 case XORI => 4 case ORI => 6 case ANDI => 7
  }

  function LoadF3(op: LoadOp): int {
    match op
    case LB => 0 case LH => 1 case LW => 2 case LBU => 4 case LHU => 5
  }

  function StoreF3(op: StoreOp): int {
    match op
    case SB => 0 case SH => 1 case SW => 2
  }

  function CondF3(op: Cond): int {
    match op
    case BEQ => 0 case BNE => 1 case BLT => 4 case BGE => 5 case BLTU => 6 case BGEU => 7
  }

  const NOP_WORD: word := IType(OP_IMM, 0, 0, 0, 0)

  /** The upper twenty bits that, with a sign-extended low twelve added, give `v`. */
  function Upper(v: word): int {
    var lo := v % 0x1000;
    var hi := v / 0x1000 % 0x10_0000;
    if lo >= 0x800 then (hi + 1) % 0x10_0000 else hi
  }

  function BranchWord(f3: int, rs1: regidx, rs2: regidx, offset: int): Result<seq<word>> {
    var imm :- FitSigned(offset, 0x2000);
    Ok([BType(OP_BRANCH, f3, rs1, rs2, imm)])
  }

  function JumpWord(rd: regidx, offset: int): Result<seq<word>> {
    var imm :- FitSigned(offset, 0x20_0000);
    Ok([JType(OP_JAL, rd, imm)])
  }

  /** LUI and AUIPC take a raw 20-bit value or a signed one. */
  function UpperWord(opcode: int, rd: regidx, v: int): Result<seq<word>> {
    if -0x8_0000 <= v < 0x10_0000 then Ok([UType(opcode, rd, v % 0x10_0000)]) else Err(OUT_OF_RANGE)
  }

  /** The words of an instruction at address `pc`. */
  function EncodeInstr(ins: Instr, pc: int, syms: Symbols): Result<seq<word>> {
    match ins
    case Reg(op, rd, rs1, rs2) => Ok([RType(OP_REG, rd, ArithF3(op), rs1, rs2, ArithF7(op))])
    case Imm(op, rd, rs1, imm) =>
      var v :- Resolve(imm, syms);
      var imm12 :- FitSigned(v, 0x1000);
      Ok([IType(OP_IMM, rd, ImmF3(op), rs1, imm12)])
    case Shift(op, rd, rs1, shamt) =>
      var v :- Resolve(shamt, syms);
      var sh :- FitUnsigned(v, 32);
      Ok([RType(OP_IMM, rd, if op == SLLI then 1 else 5, rs1, sh, if op == SRAI then F7_ALT else F7_DEFAULT)])
    case Load(op, rd, imm, rs1) =>
      var v :- Resolve(imm, syms);
      var imm12 :- FitSigned(v, 0x1000);
      Ok([IType(OP_LOAD, rd, LoadF3(op), rs1, imm12)])
    case Store(op, rs2, imm, rs1) =>
      var v :- Resolve(imm, syms);
      var imm12 :- FitSigned(v, 0x1000);
      Ok([SType(OP_STORE, StoreF3(op), rs1, rs2, imm12)])
    case Branch(cond, rs1, rs2, target) =>
      var t :- Resolve(target, syms);
      if (t - pc) % 2 != 0 then Err(ODD_TARGET) else BranchWord(CondF3(cond), rs1, rs2, t - pc)
    case Jal(rd, target) =>
      var t :- Resolve(target, syms);
      if (t - pc) % 2 != 0 then Err(ODD_TARGET) else JumpWord(rd, t - pc)
    case Jalr(rd, rs1, imm) =>
      var v :- Resolve(imm, syms);
      var imm12 :- FitSigned(v, 0x1000);
      Ok([IType(OP_JALR, rd, 0, rs1, imm12)])
    case Lui(rd, imm) =>
      var v :- Resolve(imm, syms);
      UpperWord(OP_LUI, rd, v)
    case Auipc(rd, imm) =>
      var v :- Resolve(imm, syms);
      UpperWord(OP_AUIPC, rd, v)
    case Fence => Ok([IType(OP_FENCE, 0, 0, 0, 0xFF)])
    case FenceI => Ok([IType(OP_FENCE, 0, 1, 0, 0)])
    case Ecall => Ok([IType(OP_SYSTEM, 0, 0, 0, F12_ECALL)])
    case Ebreak => Ok([IType(OP_SYSTEM, 0, 0, 0, F12_EBREAK)])
    case Nop => Ok([NOP_WORD])
    case Ret => Ok([IType(OP_JALR, 0, 0, 1, 0)])
    case Mv(rd, rs) => Ok([IType(OP_IMM, rd, 0, rs, 0)])
    case Not(rd, rs) => Ok([IType(OP_IMM, rd, 4, rs, (-1) % 0x1000)])
    case Neg(rd, rs) => Ok([RType(OP_REG, rd, 0, 0, rs, F7_ALT)])
    case J(target) =>
      var t :- Resolve(target, syms);
      JumpWord(0, t - pc)
    case Jr(rs) => Ok([IType(OP_JALR, 0, 0, rs, 0)])
    case Beqz(rs, target) =>
      var t :- Resolve(target, syms);
      BranchWord(0, rs, 0, t - pc)
    case Bnez(rs, target) =>
      var t :- Resolve(target, syms);
      BranchWord(1, rs, 0, t - pc)
    case Li(rd, imm) =>
      var v :- Resolve(imm, syms);
      if -0x800 <= v < 0x800 then Ok([IType(OP_IMM, rd, 0, 0, v % 0x1000), NOP_WORD])
      else
        Ok([UType(OP_LUI, rd, Upper(U32(v))), IType(OP_IMM, rd, 0, rd, U32(v) % 0x1000)])
    case La(rd, target) =>
      var t :- Resolve(target, syms);
      Ok([UType(OP_AUIPC, rd, Upper(U32(t - pc))), IType(OP_IMM, rd, 0, rd, U32(t - pc) % 0x1000)])
    case Call(target) =>
      var t :- Resolve(target, syms);
      Ok([UType(OP_AUIPC, 1, Upper(U32(t - pc))), IType(OP_JALR, 1, 0, 1, U32(t - pc) % 0x1000)])
  }

  /** The bytes pass 1 reserves for an instruction. */
  function InstrSize(ins: Instr): nat {
    if ins.Li? || ins.La? || ins.Call? then 8 else 4
  }

  /** Pass 2 emits exactly what pass 1 reserved. */
  lemma EncodedSize(ins: Instr, pc: int, syms: Symbols)
    ensures var r := EncodeInstr(ins, pc, syms); r.Ok? ==> 4 * |r.value| == InstrSize(ins)
  {
    hide RType, IType, SType, BType, UType, JType, Upper, U32;
  }
}
