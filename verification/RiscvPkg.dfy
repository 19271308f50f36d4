/** The shared encoding constants and the decoder's control bundle. */
module RiscvPkg {
  import opened Words

  const OP_LUI: int := 0x37
  const OP_AUIPC: int := 0x17
  const OP_JAL: int := 0x6F
  const OP_JALR: int := 0x67
  const OP_BRANCH: int := 0x63
  const OP_LOAD: int := 0x03
  const OP_STORE: int := 0x23
  const OP_IMM: int := 0x13
  const OP_REG: int := 0x33
  const OP_FENCE: int := 0x0F
  const OP_SYSTEM: int := 0x73

  const F7_DEFAULT: int := 0x00
  const F7_ALT: int := 0x20
  const F12_ECALL: int := 0x000
  const F12_EBREAK: int := 0x001

  datatype AluOp = ADD | SUB | AND | OR | XOR | SLL | SRL | SRA | SLT | SLTU | PASS_B
  datatype AluSrcA = A_RS1 | A_PC
  datatype AluSrcB = B_RS2 | B_IMM
  datatype WbSrc = WB_ALU | WB_MEM | WB_PC4
  datatype BranchOp = BR_NONE | BR_EQ | BR_NE | BR_LT | BR_GE | BR_LTU | BR_GEU | BR_JUMP
  datatype MemSize = MEM_B | MEM_H | MEM_W

  datatype Control = Control(
    regWrite: bool, wbSrc: WbSrc, memRead: bool, memWrite: bool, memSize: MemSize, memUnsigned: bool,
    aluOp: AluOp, aluSrcA: AluSrcA, aluSrcB: AluSrcB, branchOp: BranchOp, jalr: bool, illegal: bool)

  /** The do-nothing bundle the decoder starts from. */
  const NOP_CTRL: Control :=
    Control(false, WB_ALU, false, false, MEM_W, false, ADD, A_RS1, B_RS2, BR_NONE, false, false)

  /** The all-zero bundle a flushed pipeline register holds. */
  const BUBBLE: Control :=
    Control(false, WB_ALU, false, false, MEM_B, false, ADD, A_RS1, B_RS2, BR_NONE, false, false)

  /** addi x0, x0, 0 */
  const NOP_INST: word := 0x0000_0013

  datatype HaltCause = NONE | ECALL | EBREAK | ILLEGAL | MISALIGNED | TOHOST

  function Opcode(inst: word): int { Slice(inst, 1, 0x80) }
  function Rd(inst: word): regidx { Slice(inst, 0x80, 0x20) }
  function Funct3(inst: word): int { Slice(inst, 0x1000, 8) }
  function Rs1(inst: word): regidx { Slice(inst, 0x8000, 0x20) }
  function Rs2(inst: word): regidx { Slice(inst, 0x10_0000, 0x20) }
  function Funct7(inst: word): int { Slice(inst, 0x200_0000, 0x80) }
  function Funct12(inst: word): int { Slice(inst, 0x10_0000, 0x1000) }
}
