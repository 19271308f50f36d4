/** The emulator's one byte array and the RTL's two word arrays run the same
    program the same way, step for step, and stop for the same reason. */
module Agreement {
  import opened Words
  import opened RiscvPkg
  import opened Decoder
  import opened Datapath
  import opened DataMemory
  import opened RegFile
  import opened Reference
  import opened Formats
  import opened ByteMemory
  import Emu = Emulator

  /** The words both decoders read alike: funct7 selects only between the two
      standard values, and SYSTEM is ECALL, EBREAK or WFI, or the reserved funct3. */
  predicate AgreedWord(inst: word) {
    var op, f3, f7 := Opcode(inst), Funct3(inst), Funct7(inst);
    && (op == OP_IMM && f3 == 5 ==> f7 == F7_DEFAULT || f7 == F7_ALT)
    && (op == OP_REG && (f3 == 0 || f3 == 5) ==> f7 == F7_DEFAULT || f7 == F7_ALT)
    && (op == OP_SYSTEM ==>
          if f3 == 0 then Funct12(inst) == F12_ECALL || Funct12(inst) == F12_EBREAK || Funct12(inst) == Emu.F12_WFI
          else f3 == 4)
  }

  lemma ModShift(x: int, m: int, k: int)
    requires m >= 1
    ensures (x + m * k) % m == x % m
  {
    assert m * (x / m + k) == m * (x / m) + m * k;
    DivModUnique(x + m * k, m, x / m + k, x % m);
  }

  lemma WrapAdd(a: int, b: int)
    ensures U32(a + U32(b)) == U32(a + b) && S32(U32(b)) == S32(b) && U32(U32(b)) == U32(b)
    ensures U32(b) % 32 == b % 32
  {
    var q := b / 0x1_0000_0000;
    ModShift(a + U32(b), 0x1_0000_0000, q);
    ModShift(U32(b), 32, 0x800_0000 * q);
    assert b == U32(b) + 0x1_0000_0000 * q;
  }

  lemma WordIsItself(a: word)
    ensures U32(a) == a
  {}

  /** Every shared ALU operation computes the same word. */
  lemma AluCommonAgrees(f3: int, f7: int, a: word, b: int)
    requires 0 < f3 < 8 && (f3 == 5 ==> f7 == F7_DEFAULT || f7 == F7_ALT)
    ensures Emu.AluCommon(f3, f7, a, b) == Emu.Some(Alu(a, U32(b), ArithOp(f3, f7)))
  {
    WrapAdd(0, b);
    hide U32, S32, Pow2, And32, Or32, Xor32, ShiftRight, ShiftRightArith;
    if f3 == 5 && f7 == F7_ALT {
      ShiftRightArithIsFloor(a, Shamt(U32(b)));
    }
  }

  lemma AluAgrees(inst: word, v1: word, v2: word)
    requires AgreedWord(inst)
    ensures var c := Decode(inst);
            && (Opcode(inst) == OP_IMM ==>
                  Emu.AluImm(inst, v1, ImmI(inst)) == Emu.Some(AluResult(c, 0, ImmGen(inst), v1, v2)))
            && (Opcode(inst) == OP_REG ==>
                  Emu.AluReg(inst, v1, v2) == Emu.Some(AluResult(c, 0, ImmGen(inst), v1, v2)))
  {
    hide U32, ImmGen, ImmI, Emu.AluCommon, Slice, ArithOp;
    ImmediatesAgree(inst);
    WrapAdd(v1, ImmI(inst));
    WordIsItself(v2);
    if Funct3(inst) != 0 {
      if Opcode(inst) == OP_IMM {
        AluCommonAgrees(Funct3(inst), Funct7(inst), v1, ImmI(inst));
      } else if Opcode(inst) == OP_REG {
        AluCommonAgrees(Funct3(inst), Funct7(inst), v1, v2);
      }
    }
  }

  // ---------- the relation

  predicate Same(cfg: Config, ec: Emu.EmuConfig, a: Arch, s: Emu.Cpu) {
    && ec.memBase == 0 && ec.tohost == cfg.devices.tohost && !ec.trapOnEcall
    && !s.halted
    && s.pc == a.pc && s.regs == a.regs && s.mem == BytesOf(a.mem)
  }

  /** The instruction array and the byte array hold the same word at every word
      index in `code`. */
  predicate CodeIs(cfg: Config, mem: seq<byte>, code: set<int>) {
    forall w :: w in code ==> 0 <= w < |cfg.imem| && 4 * w + 4 <= |mem| && cfg.imem[w] == Get32(mem, 4 * w)
  }

  /** The program stays inside what the two machines share: fetches are aligned and
      inside `code`, transfers go to aligned addresses, data accesses stay inside
      the array and off the devices except for host stores, and nothing stores into
      `code`. */
  predicate InBounds(cfg: Config, a: Arch, code: set<int>) {
    var c, y := Ctrl(cfg, a), AluY(cfg, a);
    && a.pc % 4 == 0 && a.pc / 4 in code
    && AgreedWord(Inst(cfg, a))
    && (Taken(cfg, a) ==> NextPc(cfg, a) % 4 == 0)
    && (c.memRead || c.memWrite ==> y != cfg.devices.uart)
    && (c.memRead ==> y != cfg.devices.tohost)
    && ((c.memRead || c.memWrite) && y != cfg.devices.tohost && Aligned(y, c.memSize) ==>
          && y + SizeOf(c.memSize) <= 4 * |a.mem|
          && (c.memWrite ==> y / 4 !in code))
  }

  lemma FetchAgrees(cfg: Config, ec: Emu.EmuConfig, a: Arch, s: Emu.Cpu, code: set<int>)
    requires Same(cfg, ec, a, s) && CodeIs(cfg, s.mem, code)
    requires a.pc % 4 == 0 && a.pc / 4 in code
    ensures Emu.FetchAt(ec, s.mem, s.pc) == Emu.Word(Inst(cfg, a))
  {
    hide Get32;
    SmallIndex(a.pc / 4, |cfg.imem|);
  }

  lemma SmallIndex(i: nat, depth: nat)
    requires i < depth
    ensures i % depth == i
  {}

  /** What one emulator step must be, given what the reference does. */
  predicate StepMatches(cfg: Config, ec: Emu.EmuConfig, a: Arch, s: Emu.Cpu, code: set<int>, r: Emu.Stepped) {
    match Cause(cfg, a)
    case NONE => r.Done? && Same(cfg, ec, Step(cfg, a), r.cpu) && CodeIs(cfg, r.cpu.mem, code)
    case ECALL => Stopped(a, s, r) && r.cpu.reason == Emu.BY_ECALL
    case EBREAK => Stopped(a, s, r) && r.cpu.reason == Emu.BY_EBREAK
    case TOHOST =>
      && Stopped(a, s, r) && r.cpu.tohostValue == Emu.Some(Src2(cfg, a))
      && r.cpu.reason == if Src2(cfg, a) == 1 then Emu.TOHOST_PASS else Emu.TOHOST_FAIL
    case ILLEGAL => r == Emu.Raised(Emu.ILLEGAL_INST)
    case MISALIGNED =>
      r == Emu.Raised(if Ctrl(cfg, a).memRead then Emu.MISALIGNED_LOAD else Emu.MISALIGNED_STORE)
  }

  predicate Stopped(a: Arch, s: Emu.Cpu, r: Emu.Stepped) {
    r.Done? && r.cpu.halted && r.cpu.regs == a.regs && r.cpu.mem == s.mem
  }

  /** An instruction that touches no memory commits the same register and PC. */
  predicate PlainMatches(cfg: Config, a: Arch, s: Emu.Cpu, e: Emu.Executed) {
    if Cause(cfg, a) == NONE then
      && e == Emu.Executed(s.(regs := Step(cfg, a).regs), Step(cfg, a).pc, Emu.None)
      && Step(cfg, a).mem == a.mem
    else Cause(cfg, a) == ILLEGAL && e == Emu.Trapped(Emu.ILLEGAL_INST)
  }

  lemma UpperAgrees(cfg: Config, ec: Emu.EmuConfig, a: Arch, s: Emu.Cpu)
    requires s.pc == a.pc && s.regs == a.regs
    requires Opcode(Inst(cfg, a)) == OP_LUI || Opcode(Inst(cfg, a)) == OP_AUIPC
    ensures PlainMatches(cfg, a, s, Emu.Execute(ec, s, Inst(cfg, a)))
  {
    ImmediatesAgree(Inst(cfg, a));
    WordIsItself(ImmU(Inst(cfg, a)));
    WrapAdd(0, a.pc + ImmU(Inst(cfg, a)));
    hide U32, ImmGen, ImmU, Slice, Inst, ReadData, Target;
  }

  lemma JumpAgrees(cfg: Config, ec: Emu.EmuConfig, a: Arch, s: Emu.Cpu)
    requires s.pc == a.pc && s.regs == a.regs && (Taken(cfg, a) ==> NextPc(cfg, a) % 4 == 0)
    requires Opcode(Inst(cfg, a)) == OP_JAL || Opcode(Inst(cfg, a)) == OP_JALR
    ensures PlainMatches(cfg, a, s, Emu.Execute(ec, s, Inst(cfg, a)))
  {
    var i := Inst(cfg, a);
    ImmediatesAgree(i);
    WrapAdd(a.pc, ImmJ(i));
    WrapAdd(Src1(cfg, a), ImmI(i));
    WrapAdd(0, a.pc + 4);
    hide U32, ImmGen, ImmI, ImmJ, Slice, Inst, ReadData, AluResult;
  }

  lemma BranchAgrees(cfg: Config, ec: Emu.EmuConfig, a: Arch, s: Emu.Cpu)
    requires s.pc == a.pc && s.regs == a.regs && (Taken(cfg, a) ==> NextPc(cfg, a) % 4 == 0)
    requires Opcode(Inst(cfg, a)) == OP_BRANCH
    ensures PlainMatches(cfg, a, s, Emu.Execute(ec, s, Inst(cfg, a)))
  {
    var i := Inst(cfg, a);
    ImmediatesAgree(i);
    WrapAdd(a.pc, ImmB(i));
    hide U32, S32, ImmGen, ImmB, Slice, Inst, ReadData, AluResult, WriteValue;
  }

  lemma ArithAgrees(cfg: Config, ec: Emu.EmuConfig, a: Arch, s: Emu.Cpu)
    requires s.pc == a.pc && s.regs == a.regs && AgreedWord(Inst(cfg, a))
    requires Opcode(Inst(cfg, a)) == OP_IMM || Opcode(Inst(cfg, a)) == OP_REG
    ensures PlainMatches(cfg, a, s, Emu.Execute(ec, s, Inst(cfg, a)))
  {
    var i := Inst(cfg, a);
    AluAgrees(i, Src1(cfg, a), Src2(cfg, a));
    WordIsItself(AluY(cfg, a));
    hide U32, ImmGen, ImmI, Slice, Inst, ReadData, Alu, ArithOp, Emu.AluImm, Emu.AluReg, Target;
  }

  lemma OtherAgrees(cfg: Config, ec: Emu.EmuConfig, a: Arch, s: Emu.Cpu)
    requires s.pc == a.pc && s.regs == a.regs && AgreedWord(Inst(cfg, a)) && !ec.trapOnEcall
    requires var op := Opcode(Inst(cfg, a));
             op !in {OP_LUI, OP_AUIPC, OP_JAL, OP_JALR, OP_BRANCH, OP_LOAD, OP_STORE, OP_IMM, OP_REG}
    ensures var e := Emu.Execute(ec, s, Inst(cfg, a));
            match Cause(cfg, a)
            case ECALL => e.Executed? && e.cpu == s.(halted := true, reason := Emu.BY_ECALL)
            case EBREAK => e.Executed? && e.cpu == s.(halted := true, reason := Emu.BY_EBREAK)
            case _ => PlainMatches(cfg, a, s, e)
  {
    hide U32, ImmGen, Slice, Inst, ReadData, AluResult, WriteValue, Target;
  }

  /** What can stop a load or a store. */
  lemma AccessCause(cfg: Config, a: Arch)
    requires Opcode(Inst(cfg, a)) == OP_LOAD || Opcode(Inst(cfg, a)) == OP_STORE
    ensures var c, y := Ctrl(cfg, a), AluY(cfg, a);
            Cause(cfg, a) ==
            if c.illegal then ILLEGAL
            else if !IsMmio(cfg.devices, y) && !Aligned(y, c.memSize) then MISALIGNED
            else if c.memWrite && y == cfg.devices.tohost then TOHOST
            else NONE
  {
    hide Decode, DecodeCause, Aligned, Misaligned, AluY, Inst, IsMmio;
    var i, c, y := Inst(cfg, a), Ctrl(cfg, a), AluY(cfg, a);
    if Opcode(i) == OP_LOAD {
      LoadShape(i);
    } else {
      StoreShape(i);
    }
    MisalignedMeaning(cfg.devices, y, c.memRead, c.memWrite, c.memSize);
  }

  lemma LoadedAgrees(cfg: Config, ec: Emu.EmuConfig, a: Arch, s: Emu.Cpu, code: set<int>, signed: bool)
    requires Same(cfg, ec, a, s) && InBounds(cfg, a, code)
    requires var c := Ctrl(cfg, a);
             c.memRead && Aligned(AluY(cfg, a), c.memSize) && (c.memSize != MEM_W ==> signed == !c.memUnsigned)
    ensures var c := Ctrl(cfg, a);
            Emu.LoadAt(ec, s.mem, AluY(cfg, a), c.memSize, signed) == Emu.Word(Loaded(cfg, a))
  {
    hide Ctrl, AluY, ReadData, BytesOf, AgreedWord, Inst, Taken, NextPc, Load;
    var c, y := Ctrl(cfg, a), AluY(cfg, a);
    NoAlias(y, |a.mem|);
    ReadIsLoad(cfg.devices, a.mem, y, c.memSize, c.memUnsigned);
    WordLoadUnsigned(BytesOf(a.mem), y);
  }

  lemma WordLoadUnsigned(bs: seq<byte>, i: nat)
    ensures i + 4 <= |bs| ==> Load(bs, i, MEM_W, true) == Load(bs, i, MEM_W, false)
  {}

  lemma LoadAgrees(cfg: Config, ec: Emu.EmuConfig, a: Arch, s: Emu.Cpu, code: set<int>)
    requires Same(cfg, ec, a, s) && InBounds(cfg, a, code)
    requires Opcode(Inst(cfg, a)) == OP_LOAD
    ensures var e := Emu.Execute(ec, s, Inst(cfg, a));
            if Cause(cfg, a) == MISALIGNED then Ctrl(cfg, a).memRead && e == Emu.Trapped(Emu.MISALIGNED_LOAD)
            else PlainMatches(cfg, a, s, e)
  {
    hide U32, ImmGen, ImmI, Slice, Inst, Load, ReadData, Misaligned, Target, Decode, DecodeCause, AgreedWord, BytesOf,
      Aligned, AluY, Loaded, Taken, Step, Cause;
    var i, y := Inst(cfg, a), AluY(cfg, a);
    var c := Ctrl(cfg, a);
    LoadAddress(cfg, a);
    LoadShape(i);
    AccessCause(cfg, a);
    if Cause(cfg, a) == NONE {
      LoadStep(cfg, a);
    }
    if c.memRead && Aligned(y, c.memSize) {
      LoadedAgrees(cfg, ec, a, s, code, Funct3(i) < 2);
      WordIsItself(Loaded(cfg, a));
    }
  }

  lemma LoadStep(cfg: Config, a: Arch)
    requires Opcode(Inst(cfg, a)) == OP_LOAD && Cause(cfg, a) == NONE
    ensures Step(cfg, a) ==
            a.(pc := U32(a.pc + 4), regs := RegWrite(a.regs, true, Rd(Inst(cfg, a)), Loaded(cfg, a)))
  {
    LoadShape(Inst(cfg, a));
    NotBranch(cfg, a);
    hide U32, Decode, Inst, AluY, Loaded, Taken, NextPc, DecodeCause, Misaligned, RegWrite;
  }

  lemma StoreStep(cfg: Config, a: Arch)
    requires Opcode(Inst(cfg, a)) == OP_STORE && Cause(cfg, a) == NONE
    ensures var c, n := Ctrl(cfg, a), Step(cfg, a);
            && n.pc == U32(a.pc + 4) && n.regs == a.regs
            && n.mem == MemNext(cfg.devices, a.mem, AluY(cfg, a), Src2(cfg, a), c.memWrite, c.memSize)
  {
    StoreShape(Inst(cfg, a));
    NotBranch(cfg, a);
    hide U32, Decode, Inst, AluY, Taken, NextPc, DecodeCause, Misaligned, MemNext, WriteValue;
  }

  lemma NotBranch(cfg: Config, a: Arch)
    requires Ctrl(cfg, a).branchOp == BR_NONE
    ensures !Taken(cfg, a) && NextPc(cfg, a) == U32(a.pc + 4)
  {}

  lemma LoadAddress(cfg: Config, a: Arch)
    requires Opcode(Inst(cfg, a)) == OP_LOAD
    ensures Ctrl(cfg, a).memRead ==> AluY(cfg, a) == U32(Src1(cfg, a) + ImmI(Inst(cfg, a)))
  {
    hide U32, ImmGen, ImmI, Slice, Inst, Decode, DecodeCause, Opcode, Funct3;
    var i := Inst(cfg, a);
    ImmediatesAgree(i);
    WrapAdd(Src1(cfg, a), ImmI(i));
    LoadShape(i);
  }

  /** The two load decoders pick the same width and extension. */
  lemma LoadShape(inst: word)
    requires Opcode(inst) == OP_LOAD
    ensures var c, f3 := Decode(inst), Funct3(inst);
            && c.branchOp == BR_NONE && !c.memWrite && DecodeCause(inst) == (if c.illegal then ILLEGAL else NONE)
            && (c.illegal <==> f3 == 3 || f3 > 5)
            && c.memRead == c.regWrite == !c.illegal
            && (c.memRead ==>
                  && c.wbSrc == WB_MEM && c.aluOp == ADD && c.aluSrcA == A_RS1 && c.aluSrcB == B_IMM
                  && c.memSize == (if f3 == 0 || f3 == 4 then MEM_B else if f3 == 1 || f3 == 5 then MEM_H else MEM_W)
                  && (c.memSize != MEM_W ==> c.memUnsigned == !(f3 < 2)))
  {}

  lemma StoreShape(inst: word)
    requires Opcode(inst) == OP_STORE
    ensures var c, f3 := Decode(inst), Funct3(inst);
            && c.branchOp == BR_NONE && !c.memRead && !c.regWrite
            && DecodeCause(inst) == (if c.illegal then ILLEGAL else NONE)
            && (c.illegal <==> f3 > 2)
            && c.memWrite == !c.illegal
            && (c.memWrite ==>
                  && c.aluOp == ADD && c.aluSrcA == A_RS1 && c.aluSrcB == B_IMM
                  && c.memSize == (if f3 == 0 then MEM_B else if f3 == 1 then MEM_H else MEM_W))
  {}

  lemma NoAlias(addr: word, depth: nat)
    requires addr < 4 * depth
    ensures Effective(addr, depth) == addr
  {
    SmallIndex(addr / 4, depth);
  }

  lemma StoreAgrees(cfg: Config, ec: Emu.EmuConfig, a: Arch, s: Emu.Cpu, code: set<int>)
    requires Same(cfg, ec, a, s) && InBounds(cfg, a, code)
    requires Opcode(Inst(cfg, a)) == OP_STORE
    ensures var e := Emu.Execute(ec, s, Inst(cfg, a));
            match Cause(cfg, a)
            case NONE =>
              && e.Executed? && e.cpu == s.(mem := BytesOf(Step(cfg, a).mem)) && e.nextPc == Step(cfg, a).pc
              && Step(cfg, a).regs == a.regs
              && CodeKept(s.mem, e.cpu.mem, code)
            case TOHOST =>
              && e.Executed?
              && e.cpu == s.(tohostValue := Emu.Some(Src2(cfg, a)), halted := true,
                             reason := if Src2(cfg, a) == 1 then Emu.TOHOST_PASS else Emu.TOHOST_FAIL)
            case MISALIGNED => !Ctrl(cfg, a).memRead && e == Emu.Trapped(Emu.MISALIGNED_STORE)
            case ILLEGAL => e == Emu.Trapped(Emu.ILLEGAL_INST)
            case _ => false
  {
    hide U32, ImmGen, ImmS, Slice, Inst, Store, ReadData, Misaligned, Target, Decode, DecodeCause, AgreedWord, BytesOf,
      MemNext, WriteValue, AluY, Taken, Aligned, NextPc, Step, Cause;
    var i, y := Inst(cfg, a), AluY(cfg, a);
    var c := Ctrl(cfg, a);
    StoreAddress(cfg, a);
    StoreShape(i);
    AccessCause(cfg, a);
    if Cause(cfg, a) == NONE {
      StoreStep(cfg, a);
    }
    if c.memWrite && y != cfg.devices.tohost && Aligned(y, c.memSize) {
      NoAlias(y, |a.mem|);
      WriteIsStore(cfg.devices, a.mem, y, Src2(cfg, a), true, c.memSize);
      StoreKeepsCode(s.mem, y, Src2(cfg, a), c.memSize, code);
    }
  }

  /** No byte of the code changed. */
  predicate CodeKept(mem: seq<byte>, next: seq<byte>, code: set<int>) {
    |next| == |mem| && forall j :: 0 <= j < |mem| && j / 4 in code ==> next[j] == mem[j]
  }

  lemma StoreKeepsCode(bs: seq<byte>, i: nat, v: word, size: MemSize, code: set<int>)
    requires i + SizeOf(size) <= |bs| && Aligned(i, size) && i / 4 !in code
    ensures CodeKept(bs, Store(bs, i, v, size), code)
  {
    hide Store;
    forall j | 0 <= j < |bs| && j / 4 in code
      ensures Store(bs, i, v, size)[j] == bs[j]
    {
      StoreBytes(bs, i, v, size, j);
      if i <= j < i + SizeOf(size) {
        SameWord(i, j, size);
      }
    }
  }

  /** The bytes of an aligned access share a word. */
  lemma SameWord(i: nat, j: nat, size: MemSize)
    requires Aligned(i, size) && i <= j < i + SizeOf(size)
    ensures j / 4 == i / 4
  {
    if size == MEM_H {
      EvenQuarter(i);
    }
    DivModUnique(j, 4, i / 4, j - 4 * (i / 4));
  }

  lemma StoreAddress(cfg: Config, a: Arch)
    requires Opcode(Inst(cfg, a)) == OP_STORE
    ensures Ctrl(cfg, a).memWrite ==> AluY(cfg, a) == U32(Src1(cfg, a) + ImmS(Inst(cfg, a)))
  {
    hide U32, ImmGen, ImmS, Slice, Inst, Decode, DecodeCause, Opcode, Funct3;
    var i := Inst(cfg, a);
    ImmediatesAgree(i);
    WrapAdd(Src1(cfg, a), ImmS(i));
    StoreShape(i);
  }

  lemma CodeStaysEqual(cfg: Config, mem: seq<byte>, next: seq<byte>, code: set<int>)
    requires CodeIs(cfg, mem, code) && CodeKept(mem, next, code)
    ensures CodeIs(cfg, next, code)
  {
    forall w | w in code
      ensures Get32(next, 4 * w) == Get32(mem, 4 * w)
    {
      DivModUnique(4 * w + 1, 4, w, 1);
      DivModUnique(4 * w + 2, 4, w, 2);
      DivModUnique(4 * w + 3, 4, w, 3);
      assert next[4 * w] == mem[4 * w] && next[4 * w + 1] == mem[4 * w + 1];
      assert next[4 * w + 2] == mem[4 * w + 2] && next[4 * w + 3] == mem[4 * w + 3];
    }
  }

  /** One step: same registers, memory and PC afterwards, or the same halt. */
  lemma StepAgrees(cfg: Config, ec: Emu.EmuConfig, a: Arch, s: Emu.Cpu, code: set<int>)
    requires Same(cfg, ec, a, s) && CodeIs(cfg, s.mem, code) && InBounds(cfg, a, code)
    ensures StepMatches(cfg, ec, a, s, code, Emu.EmuStep(ec, s))
  {
    FetchAgrees(cfg, ec, a, s, code);
    hide Emu.Execute, Emu.FetchAt, AgreedWord, Inst, AluY, Decode, Step, Cause, CodeIs, BytesOf, Src2, Opcode,
      Emu.RecordsRd, CodeKept;
    var i := Inst(cfg, a);
    var op := Opcode(i);
    if op == OP_LUI || op == OP_AUIPC {
      UpperAgrees(cfg, ec, a, s);
    } else if op == OP_JAL || op == OP_JALR {
      JumpAgrees(cfg, ec, a, s);
    } else if op == OP_BRANCH {
      BranchAgrees(cfg, ec, a, s);
    } else if op == OP_LOAD {
      LoadAgrees(cfg, ec, a, s, code);
    } else if op == OP_STORE {
      StoreAgrees(cfg, ec, a, s, code);
      var e := Emu.Execute(ec, s, i);
      if Cause(cfg, a) == NONE {
        CodeStaysEqual(cfg, s.mem, e.cpu.mem, code);
      }
    } else if op == OP_IMM || op == OP_REG {
      ArithAgrees(cfg, ec, a, s);
    } else {
      OtherAgrees(cfg, ec, a, s);
    }
  }

  // ---------- whole runs

  /** Up to the first halting instruction, and as long as the program stays in
      bounds, the emulator run for `n` steps holds the reference state. */
  lemma {:induction false} RunsAgree(cfg: Config, ec: Emu.EmuConfig, a: Arch, s: Emu.Cpu, code: set<int>, n: nat)
    requires Same(cfg, ec, a, s) && CodeIs(cfg, s.mem, code)
    requires Live(cfg, a, n)
    requires forall j: nat :: j < n ==> InBounds(cfg, Run(cfg, a, j), code)
    ensures var r := Emu.EmuRun(ec, s, n);
            && r.end == Emu.STEP_LIMIT && |r.traces| == n
            && Same(cfg, ec, Run(cfg, a, n), r.cpu) && CodeIs(cfg, r.cpu.mem, code)
    decreases n
  {
    hide Emu.EmuStep, Emu.EmuRun, InBounds, CodeIs, Same, Step, Cause;
    if n == 0 {
      NoSteps(cfg, ec, a, s);
    } else {
      RunsAgree(cfg, ec, a, s, code, n - 1);
      var p := Emu.EmuRun(ec, s, n - 1).cpu;
      StepAgrees(cfg, ec, Run(cfg, a, n - 1), p, code);
      Emu.RunOn(ec, s, n - 1, 1);
      OneMore(cfg, ec, Run(cfg, a, n - 1), p, Run(cfg, a, n));
    }
  }

  lemma NoSteps(cfg: Config, ec: Emu.EmuConfig, a: Arch, s: Emu.Cpu)
    requires Same(cfg, ec, a, s)
    ensures Emu.EmuRun(ec, s, 0) == Emu.RunResult(s, [], Emu.STEP_LIMIT)
  {}

  lemma OneMore(cfg: Config, ec: Emu.EmuConfig, a: Arch, p: Emu.Cpu, b: Arch)
    requires Same(cfg, ec, a, p)
    ensures var e, r := Emu.EmuStep(ec, p), Emu.EmuRun(ec, p, 1);
            e.Done? && Same(cfg, ec, b, e.cpu) ==> r == Emu.RunResult(e.cpu, [e.trace], Emu.STEP_LIMIT)
  {
    hide Emu.EmuStep;
  }

  /** How an emulator run ends at a halting instruction reached after `n` steps: host
      calls and host stores are executed, the rest raise. */
  predicate EndsFor(hc: HaltCause, load: bool, value: word, n: nat, r: Emu.RunResult) {
    match hc
    case NONE => false
    case ECALL => r.end == Emu.HALTED && r.cpu.reason == Emu.BY_ECALL && |r.traces| == n + 1
    case EBREAK => r.end == Emu.HALTED && r.cpu.reason == Emu.BY_EBREAK && |r.traces| == n + 1
    case TOHOST =>
      && r.end == Emu.HALTED && r.cpu.tohostValue == Emu.Some(value) && |r.traces| == n + 1
      && r.cpu.reason == if value == 1 then Emu.TOHOST_PASS else Emu.TOHOST_FAIL
    case ILLEGAL => r.end == Emu.TRAPPED(Emu.ILLEGAL_INST) && |r.traces| == n
    case MISALIGNED =>
      r.end == Emu.TRAPPED(if load then Emu.MISALIGNED_LOAD else Emu.MISALIGNED_STORE) && |r.traces| == n
  }

  /** At the first halting instruction the emulator's run ends too, for the same
      reason, with the reference registers and memory, whatever steps it had left. */
  lemma HaltsAgree(cfg: Config, ec: Emu.EmuConfig, a: Arch, s: Emu.Cpu, code: set<int>, n: nat, fuel: nat)
    requires Same(cfg, ec, a, s) && CodeIs(cfg, s.mem, code)
    requires HaltsAt(cfg, a, n) && fuel > n
    requires forall j: nat :: j <= n ==> InBounds(cfg, Run(cfg, a, j), code)
    ensures var r, b := Emu.EmuRun(ec, s, fuel), Run(cfg, a, n);
            && r.cpu.regs == b.regs && r.cpu.mem == BytesOf(b.mem)
            && EndsFor(Cause(cfg, b), Ctrl(cfg, b).memRead, Src2(cfg, b), n, r)
  {
    hide Emu.EmuStep, Emu.EmuRun, InBounds, CodeIs, Same, Step, Cause, StepMatches, EndsFor, Run, Src2, Ctrl, BytesOf;
    RunsAgree(cfg, ec, a, s, code, n);
    var p := Emu.EmuRun(ec, s, n).cpu;
    StepAgrees(cfg, ec, Run(cfg, a, n), p, code);
    Emu.RunOn(ec, s, n, fuel - n);
    LastStep(cfg, ec, Run(cfg, a, n), p, code, fuel - n, n, Emu.EmuRun(ec, s, fuel));
  }

  lemma LastStep(cfg: Config, ec: Emu.EmuConfig, a: Arch, p: Emu.Cpu, code: set<int>, fuel: nat, n: nat, r: Emu.RunResult)
    requires Same(cfg, ec, a, p) && fuel > 0 && Cause(cfg, a) != NONE
    requires StepMatches(cfg, ec, a, p, code, Emu.EmuStep(ec, p))
    requires var q := Emu.EmuRun(ec, p, fuel); r.cpu == q.cpu && r.end == q.end && |r.traces| == n + |q.traces|
    ensures r.cpu.regs == a.regs && r.cpu.mem == BytesOf(a.mem)
    ensures EndsFor(Cause(cfg, a), Ctrl(cfg, a).memRead, Src2(cfg, a), n, r)
  {
    hide Emu.EmuStep, Step, Cause, CodeIs, Src2, Ctrl, BytesOf;
    var e := Emu.EmuStep(ec, p);
    if e.Done? {
      HaltedRun(ec, e.cpu, fuel - 1);
    }
  }

  lemma HaltedRun(ec: Emu.EmuConfig, s: Emu.Cpu, fuel: nat)
    ensures s.halted ==> Emu.EmuRun(ec, s, fuel) == Emu.RunResult(s, [], Emu.HALTED)
  {}

  /** Outside the agreed words the two really differ, but for an MRET that returns to
      the next instruction: a stray funct7 or SYSTEM funct12 is a NOP or a base
      operation in the RTL and a trap in the emulator; a CSR access halts the RTL as
      illegal and runs in the emulator; MRET falls through in the RTL and jumps to
      mepc in the emulator. */
  lemma DisagreedWords(cfg: Config, ec: Emu.EmuConfig, a: Arch, s: Emu.Cpu)
    requires s.pc == a.pc && s.regs == a.regs && !ec.trapOnEcall
    requires !AgreedWord(Inst(cfg, a))
    ensures var i, e := Inst(cfg, a), Emu.Execute(ec, s, Inst(cfg, a));
            if Opcode(i) == OP_SYSTEM && Funct3(i) != 0 then Cause(cfg, a) == ILLEGAL && e.Executed?
            else if Opcode(i) == OP_SYSTEM && Funct12(i) == Emu.F12_MRET then
              && Cause(cfg, a) == NONE && NextPc(cfg, a) == U32(a.pc + 4)
              && e.Executed? && e.nextPc == Emu.CsrGet(s.csrs, Emu.CSR_MEPC)
            else Cause(cfg, a) == NONE && e == Emu.Trapped(Emu.ILLEGAL_INST)
    ensures var i := Inst(cfg, a);
            PlainMatches(cfg, a, s, Emu.Execute(ec, s, i)) <==>
            && Opcode(i) == OP_SYSTEM && Funct3(i) == 0 && Funct12(i) == Emu.F12_MRET
            && Emu.CsrGet(s.csrs, Emu.CSR_MEPC) == U32(a.pc + 4)
  {
    hide U32, ImmGen, Slice, Inst, ReadData, AluResult, WriteValue, Target, ImmI, Or32, And32;
  }
}
