/** The combinational blocks of the execute and decode stages: alu.sv,
    branch_unit.sv, hazard_unit.sv and forwarding_unit.sv. */
module Datapath {
  import opened Words
  import opened RiscvPkg
  import opened Decoder

  /** An arithmetic right shift: a logical one with copies of the sign bit on top. */
  function ShiftRightArith(a: word, s: nat): word
    requires s < 32
  {
    SignFillBound(s);
    var fill := if a >= 0x8000_0000 then 0x1_0000_0000 - Pow2(32 - s) else 0;
    ShiftRightBound(a, s);
    ShiftRight(a, s) + fill
  }

  lemma PowDouble(n: nat)
    requires n >= 1
    ensures Pow2(n) == 2 * Pow2(n - 1)
  {}

  lemma SignFillBound(s: nat)
    requires s < 32
    ensures Pow2(32 - s) * Pow2(s) == 0x1_0000_0000
    ensures 2 <= Pow2(32 - s) <= 0x1_0000_0000
  {
    hide Pow2;
    Pow2At32();
    Pow2Add(32 - s, s);
    PowDouble(32 - s);
    MulAtLeast(Pow2(32 - s), Pow2(s));
  }

  lemma QuotientBelow(a: int, p: int, k: int)
    requires p >= 1 && 0 <= a < k * p
    ensures 0 <= a / p < k
  {
    var q, r := a / p, a % p;
    assert a == p * q + r;
    assert p * (q - k) == p * q - k * p;
    MulAtLeast(p, q - k);
  }

  lemma ShiftRightBound(a: word, s: nat)
    requires s < 32
    ensures 0 <= a / Pow2(s) < Pow2(32 - s)
  {
    hide Pow2;
    SignFillBound(s);
    QuotientBelow(a, Pow2(s), Pow2(32 - s));
  }

  function Alu(a: word, b: word, op: AluOp): word {
    match op
    case ADD => U32(a + b)
    case SUB => U32(a - b)
    case AND => And32(a, b)
    case OR => Or32(a, b)
    case XOR => Xor32(a, b)
    case SLL => ShiftLeft(a, Shamt(b))
    case SRL => ShiftRight(a, Shamt(b))
    case SRA => ShiftRightArith(a, Shamt(b))
    case SLT => if S32(a) < S32(b) then 1 else 0
    case SLTU => if a < b then 1 else 0
    case PASS_B => b
  }

  predicate BranchTaken(op: BranchOp, a: word, b: word) {
    match op
    case BR_NONE => false
    case BR_EQ => a == b
    case BR_NE => a != b
    case BR_LT => S32(a) < S32(b)
    case BR_GE => S32(a) >= S32(b)
    case BR_LTU => a < b
    case BR_GEU => a >= b
    case BR_JUMP => true
  }

  function AluA(c: Control, pc: word, v1: word): word {
    if c.aluSrcA == A_PC then pc else v1
  }

  function AluB(c: Control, imm: word, v2: word): word {
    if c.aluSrcB == B_IMM then imm else v2
  }

  function AluResult(c: Control, pc: word, imm: word, v1: word, v2: word): word {
    Alu(AluA(c, pc, v1), AluB(c, imm, v2), c.aluOp)
  }

  /** JALR clears bit 0 of rs1 + imm; branches and JAL add to the PC. */
  function Target(c: Control, pc: word, imm: word, v1: word): word {
    if c.jalr then
      var t := U32(v1 + imm);
      t - t % 2
    else U32(pc + imm)
  }

  /** hazard_unit.sv: a load in EX feeds a register the ID instruction reads. */
  predicate LoadUse(exMemRead: bool, exRd: regidx, inst: word) {
    exMemRead && exRd != 0 && ((ReadsRs1(inst) && exRd == Rs1(inst)) || (ReadsRs2(inst) && exRd == Rs2(inst)))
  }

  /** A branch or JALR in ID needs a result that EX is still computing. */
  predicate BranchOperand(exRegWrite: bool, exRd: regidx, inst: word) {
    var c := Decode(inst);
    exRegWrite && exRd != 0 &&
    (((CondBranch(c) || JumpReg(c)) && exRd == Rs1(inst)) || (CondBranch(c) && exRd == Rs2(inst)))
  }

  datatype Forward = FWD_NONE | FWD_EXMEM | FWD_MEMWB

  /** forwarding_unit.sv: the younger producer wins and x0 never forwards. */
  function Pick(rs: regidx, memWrite: bool, memRd: regidx, wbWrite: bool, wbRd: regidx): Forward {
    if memWrite && memRd != 0 && memRd == rs then FWD_EXMEM
    else if wbWrite && wbRd != 0 && wbRd == rs then FWD_MEMWB
    else FWD_NONE
  }

  /** The sign-filled shift is the floor division of the signed reading. */
  lemma ShiftRightArithIsFloor(a: word, s: nat)
    requires s < 32
    ensures ShiftRightArith(a, s) == U32(S32(a) / Pow2(s))
  {
    hide Pow2;
    var p, q, k := Pow2(s), ShiftRight(a, s), Pow2(32 - s);
    assert 0 <= q < k <= 0x1_0000_0000 by {
      SignFillBound(s);
      ShiftRightBound(a, s);
    }
    if a >= 0x8000_0000 {
      assert S32(a) / p == q - k by {
        SignFillBound(s);
        FloorShift(a, p, q, k);
      }
      WrapNegative(q - k);
    } else {
      assert S32(a) / p == q;
    }
  }

  lemma WrapNegative(x: int)
    requires -0x1_0000_0000 <= x < 0
    ensures U32(x) == x + 0x1_0000_0000
  {}

  lemma FloorShift(a: int, p: int, q: int, k: int)
    requires p >= 1 && q == a / p && k * p == 0x1_0000_0000
    ensures (a - 0x1_0000_0000) / p == q - k
  {
    var r := a % p;
    assert a == p * q + r;
    assert p * (q - k) == p * q - k * p;
    DivModUnique(a - 0x1_0000_0000, p, q - k, r);
  }

  /** The hazard table is sound for every word: a register it does not list can
      hold anything without changing what the instruction writes back, the memory
      address and data it uses, whether it transfers control, or where to. */
  lemma HazardTableSound(inst: word, pc: word, v1: word, w1: word, v2: word, w2: word)
    requires ReadsRs1(inst) ==> v1 == w1
    requires ReadsRs2(inst) ==> v2 == w2
    ensures var c, imm := Decode(inst), ImmGen(inst);
            && (c.memRead || c.memWrite || (c.regWrite && c.wbSrc == WB_ALU) ==>
                  AluResult(c, pc, imm, v1, v2) == AluResult(c, pc, imm, w1, w2))
            && (c.memWrite ==> v2 == w2)
            && BranchTaken(c.branchOp, v1, v2) == BranchTaken(c.branchOp, w1, w2)
            && (BranchTaken(c.branchOp, v1, v2) ==> Target(c, pc, imm, v1) == Target(c, pc, imm, w1))
  {
    var c := Decode(inst);
    DecodeWellFormed(inst);
    hide Decode, ImmGen, ReadsRs1, ReadsRs2, U32;
    if c.branchOp == BR_JUMP {
      assert c.jalr ==> JumpReg(c);
    } else if c.branchOp != BR_NONE {
      assert CondBranch(c);
    }
  }
}
