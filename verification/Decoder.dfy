/** decoder.sv, imm_gen.sv and the halt-cause detection of the decode stage. */
module Decoder {
  import opened Words
  import opened RiscvPkg

  function Decode(inst: word): Control {
    var op := Opcode(inst);
    var f3 := Funct3(inst);
    var f7 := Funct7(inst);
    if op == OP_LUI then
      NOP_CTRL.(regWrite := true, aluOp := PASS_B, aluSrcB := B_IMM)
    else if op == OP_AUIPC then
      NOP_CTRL.(regWrite := true, aluSrcA := A_PC, aluSrcB := B_IMM)
    else if op == OP_JAL then
      NOP_CTRL.(regWrite := true, wbSrc := WB_PC4, aluSrcA := A_PC, aluSrcB := B_IMM, branchOp := BR_JUMP)
    else if op == OP_JALR then
      NOP_CTRL.(regWrite := true, wbSrc := WB_PC4, aluSrcB := B_IMM, branchOp := BR_JUMP, jalr := true)
    else if op == OP_BRANCH then
      var c := NOP_CTRL.(aluSrcA := A_PC, aluSrcB := B_IMM);
      if f3 == 0 then c.(branchOp := BR_EQ)
      else if f3 == 1 then c.(branchOp := BR_NE)
      else if f3 == 4 then c.(branchOp := BR_LT)
      else if f3 == 5 then c.(branchOp := BR_GE)
      else if f3 == 6 then c.(branchOp := BR_LTU)
      else if f3 == 7 then c.(branchOp := BR_GEU)
      else c.(illegal := true)
    else if op == OP_LOAD then
      var c := NOP_CTRL.(regWrite := true, wbSrc := WB_MEM, aluSrcB := B_IMM, memRead := true);
      if f3 == 0 then c.(memSize := MEM_B)
      else if f3 == 1 then c.(memSize := MEM_H)
      else if f3 == 2 then c.(memSize := MEM_W)
      else if f3 == 4 then c.(memSize := MEM_B, memUnsigned := true)
      else if f3 == 5 then c.(memSize := MEM_H, memUnsigned := true)
      else c.(memRead := false, regWrite := false, illegal := true)
    else if op == OP_STORE then
      var c := NOP_CTRL.(aluSrcB := B_IMM, memWrite := true);
      if f3 == 0 then c.(memSize := MEM_B)
      else if f3 == 1 then c.(memSize := MEM_H)
      else if f3 == 2 then c.(memSize := MEM_W)
      else c.(memWrite := false, illegal := true)
    else if op == OP_IMM then
      NOP_CTRL.(regWrite := true, aluSrcB := B_IMM,
        aluOp := if f3 == 0 then ADD else ArithOp(f3, f7))
    else if op == OP_REG then
      NOP_CTRL.(regWrite := true,
        aluOp := if f3 == 0 then (if f7 == F7_ALT then SUB else ADD) else ArithOp(f3, f7))
    else if op == OP_FENCE then
      NOP_CTRL
    else if op == OP_SYSTEM then
      if f3 != 0 then NOP_CTRL.(illegal := true) else NOP_CTRL
    else
      NOP_CTRL.(illegal := true)
  }

  /** The ALU operations OP-IMM and OP share: every funct3 but 000. */
  function ArithOp(f3: int, f7: int): AluOp {
    if f3 == 1 then SLL
    else if f3 == 2 then SLT
    else if f3 == 3 then SLTU
    else if f3 == 4 then XOR
    else if f3 == 5 then (if f7 == F7_ALT then SRA else SRL)
    else if f3 == 6 then OR
    else AND
  }

  /** The five immediate formats, picked by opcode; the top bits copy inst[31]. */
  function ImmGen(inst: word): word {
    var op := Opcode(inst);
    var sign := Slice(inst, 0x8000_0000, 2);
    if op == OP_LOAD || op == OP_IMM || op == OP_JALR || op == OP_SYSTEM || op == OP_FENCE then
      sign * 0xFFFF_F000 + Slice(inst, 0x10_0000, 0x1000)
    else if op == OP_STORE then
      sign * 0xFFFF_F000 + Slice(inst, 0x200_0000, 0x80) * 0x20 + Slice(inst, 0x80, 0x20)
    else if op == OP_BRANCH then
      sign * 0xFFFF_F000 + Slice(inst, 0x80, 2) * 0x800 + Slice(inst, 0x200_0000, 0x40) * 0x20
      + Slice(inst, 0x100, 0x10) * 2
    else if op == OP_LUI || op == OP_AUIPC then
      Slice(inst, 0x1000, 0x10_0000) * 0x1000
    else if op == OP_JAL then
      sign * 0xFFF0_0000 + Slice(inst, 0x1000, 0x100) * 0x1000 + Slice(inst, 0x10_0000, 2) * 0x800
      + Slice(inst, 0x20_0000, 0x400) * 2
    else 0
  }

  /** The cause an instruction carries out of decode. */
  function DecodeCause(inst: word): HaltCause {
    var isSystem := Opcode(inst) == OP_SYSTEM && Funct3(inst) == 0;
    if Decode(inst).illegal then ILLEGAL
    else if isSystem && Funct12(inst) == F12_ECALL then ECALL
    else if isSystem && Funct12(inst) == F12_EBREAK then EBREAK
    else NONE
  }

  /** hazard_unit.sv: the registers each opcode really reads. */
  predicate ReadsRs1(inst: word) {
    var op := Opcode(inst);
    op == OP_REG || op == OP_STORE || op == OP_BRANCH || op == OP_IMM || op == OP_LOAD || op == OP_JALR
  }

  predicate ReadsRs2(inst: word) {
    var op := Opcode(inst);
    op == OP_REG || op == OP_STORE || op == OP_BRANCH
  }

  predicate CondBranch(c: Control) {
    c.branchOp != BR_NONE && c.branchOp != BR_JUMP
  }

  predicate JumpReg(c: Control) {
    c.branchOp == BR_JUMP && c.jalr
  }

  /** What the rest of the pipeline relies on about the control bundle. */
  predicate WellDecoded(inst: word, c: Control) {
    && (c.memRead ==> c.regWrite && c.wbSrc == WB_MEM && !c.memWrite)
    && (c.regWrite && c.wbSrc == WB_MEM ==> c.memRead)
    && (c.memWrite ==> !c.regWrite)
    && (c.illegal ==> !c.regWrite && !c.memRead && !c.memWrite && c.branchOp == BR_NONE)
    && (c.branchOp != BR_NONE ==> !c.memRead && !c.memWrite)
    && (c.branchOp == BR_JUMP ==> c.regWrite && c.wbSrc == WB_PC4)
    && (c.jalr ==> c.branchOp == BR_JUMP)
    && (CondBranch(c) ==> ReadsRs1(inst) && ReadsRs2(inst) && !c.regWrite)
    && (JumpReg(c) ==> ReadsRs1(inst))
    && (c.memRead || c.memWrite ==> c.aluSrcA == A_RS1 && c.aluSrcB == B_IMM && c.aluOp == ADD && ReadsRs1(inst))
    && (c.memWrite ==> ReadsRs2(inst))
    && (c.regWrite && c.wbSrc == WB_ALU ==>
          && (c.aluSrcA == A_RS1 && c.aluOp != PASS_B ==> ReadsRs1(inst))
          && (c.aluSrcB == B_RS2 ==> ReadsRs2(inst)))
    && (c.illegal <==> DecodeCause(inst) == ILLEGAL)
    && DecodeCause(inst) != MISALIGNED && DecodeCause(inst) != TOHOST
    && (DecodeCause(inst) != NONE ==>
          !c.regWrite && !c.memRead && !c.memWrite && c.branchOp == BR_NONE)
  }

  /** Every word decodes to a well-formed bundle: illegal words commit nothing,
      a load is exactly a register write from memory, and an operand the datapath
      consumes is one the hazard table lists. */
  lemma DecodeWellFormed(inst: word)
    ensures WellDecoded(inst, Decode(inst))
  {}

  /** The bubble a redirect leaves in IF/ID does nothing and never stalls. */
  lemma NopDecodes()
    ensures Decode(NOP_INST) == NOP_CTRL.(regWrite := true, aluSrcB := B_IMM)
    ensures Rd(NOP_INST) == Rs1(NOP_INST) == 0
    ensures DecodeCause(NOP_INST) == NONE && !ReadsRs2(NOP_INST)
  {}
}
