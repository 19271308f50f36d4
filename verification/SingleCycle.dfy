/** top.sv: the single-cycle core, one reference step per clock. */
module SingleCycle {
  import opened Words
  import opened RiscvPkg
  import opened Decoder
  import opened Datapath
  import opened DataMemory
  import opened RegFile
  import opened PipelineRegs
  import opened Reference
  import opened TopPipeline
  import opened PipelineInvariant
  import opened PipelineTheorems

  datatype SState = SState(pc: word, regs: RegBank, mem: Ram, haltedQ: bool, uart: seq<byte>)

  /** The wires of one cycle, from the values latched before it. */
  datatype Wires = Wires(ctrl: Control, rd: regidx, rs2Val: word, aluY: word, wbData: word, nextPc: word,
                         store: bool, haltNow: bool, cause: HaltCause)

  function Settle(cfg: Config, s: SState): Wires {
    var inst := Fetch(cfg.imem, s.pc);
    var c := Decode(inst);
    var v1 := ReadPort(s.regs, false, false, 0, 0, Rs1(inst));
    var v2 := ReadPort(s.regs, false, false, 0, 0, Rs2(inst));
    var y := AluResult(c, s.pc, ImmGen(inst), v1, v2);
    var store := c.memWrite && !s.haltedQ;
    var misaligned := Misaligned(cfg.devices, y, c.memRead, store, c.memSize);
    var rdata := ReadData(cfg.devices, s.mem, y, c.memRead, c.memSize, c.memUnsigned);
    var pc4 := U32(s.pc + 4);
    var nextPc := if BranchTaken(c.branchOp, v1, v2) then (if c.jalr then y - y % 2 else y) else pc4;
    var isSystem := Opcode(inst) == OP_SYSTEM && Funct3(inst) == 0;
    var cause :=
      if s.haltedQ then NONE
      else if c.illegal then ILLEGAL
      else if misaligned then MISALIGNED
      else if isSystem && Funct12(inst) == F12_ECALL then ECALL
      else if isSystem && Funct12(inst) == F12_EBREAK then EBREAK
      else if store && y == cfg.devices.tohost then TOHOST
      else NONE;
    Wires(c, Rd(inst), v2, y, WbMux(c.wbSrc, y, rdata, pc4), nextPc, store, cause != NONE, cause)
  }

  function TopTick(cfg: Config, s: SState): SState {
    var w := Settle(cfg, s);
    SState(
      Latched(s.pc, false, !s.haltedQ, cfg.pcReset, w.nextPc),
      RegWrite(s.regs, w.ctrl.regWrite && !s.haltedQ, w.rd, w.wbData),
      MemNext(cfg.devices, s.mem, w.aluY, w.rs2Val, w.store, w.ctrl.memSize),
      s.haltedQ || w.haltNow,
      UartNext(cfg.devices, s.uart, w.aluY, w.rs2Val, w.store))
  }

  function TopAt(cfg: Config, data: Ram, t: nat): SState {
    if t == 0 then SState(cfg.pcReset, ResetRegs(), data, false, [])
    else TopTick(cfg, TopAt(cfg, data, t - 1))
  }

  class Top {
    const cfg: Config
    const pcReg: PcRegister
    const regFile: Registers
    const dmem: DataMem
    var haltedQ: bool
    var uart: seq<byte>  // what an observer of the UART strobe has seen

    ghost predicate Valid()
      reads this, regFile.xregs, dmem.mem
    {
      && regFile.Valid()
      && dmem.mem.Length > 0
      && regFile.xregs != dmem.mem
      && dmem.devices == cfg.devices
      && pcReg.pcReset == cfg.pcReset
    }

    ghost function State(): SState
      requires Valid()
      reads this, pcReg, regFile.xregs, dmem.mem
    {
      SState(pcReg.pc, regFile.xregs[..], dmem.mem[..], haltedQ, uart)
    }

    constructor (cfg: Config, data: Ram)
      ensures Valid() && this.cfg == cfg && State() == TopAt(cfg, data, 0)
      ensures fresh(pcReg) && fresh(regFile.xregs) && fresh(dmem.mem)
    {
      this.cfg := cfg;
      pcReg := new PcRegister(cfg.pcReset);
      regFile := new Registers();
      dmem := new DataMem(cfg.devices, data);
      haltedQ := false;
      uart := [];
    }

    method Clock() returns (halted: bool, cause: HaltCause)
      requires Valid()
      modifies this, pcReg, regFile.xregs, dmem.mem
      ensures Valid()
      ensures State() == TopTick(cfg, old(State()))
      ensures cause == Settle(cfg, old(State())).cause && halted == (old(haltedQ) || cause != NONE)
    {
      hide Settle, MemNext, UartNext, RegWrite;
      var w := Settle(cfg, SState(pcReg.pc, regFile.xregs[..], dmem.mem[..], haltedQ, uart));
      halted, cause := haltedQ || w.haltNow, w.cause;
      assert w.haltNow == (w.cause != NONE) by { HaltNowMeansCause(cfg, State()); }
      pcReg.Clock(false, !haltedQ, w.nextPc);
      regFile.Clock(false, w.ctrl.regWrite && !haltedQ, w.rd, w.wbData);
      dmem.Clock(false, w.aluY, w.rs2Val, w.ctrl.memRead, w.store, w.ctrl.memSize);
      uart := UartNext(cfg.devices, uart, w.aluY, w.rs2Val, w.store);
      if w.haltNow {
        haltedQ := true;
      }
    }
  }

  lemma HaltNowMeansCause(cfg: Config, s: SState)
    ensures Settle(cfg, s).haltNow == (Settle(cfg, s).cause != NONE)
  {}

  function Embed(a: Arch): SState {
    SState(a.pc, a.regs, a.mem, false, a.uart)
  }

  /** The ALU doubles as the target adder. */
  lemma TargetIsAluResult(inst: word, pc: word, v1: word, v2: word)
    ensures var c := Decode(inst);
            c.branchOp != BR_NONE ==>
              var y := AluResult(c, pc, ImmGen(inst), v1, v2);
              Target(c, pc, ImmGen(inst), v1) == if c.jalr then y - y % 2 else y
  {
    hide ImmGen;
  }

  lemma SettleMeaning(cfg: Config, a: Arch)
    ensures var w := Settle(cfg, Embed(a));
            && w.ctrl == Ctrl(cfg, a) && w.rd == Rd(Inst(cfg, a)) && w.rs2Val == Src2(cfg, a)
            && w.aluY == AluY(cfg, a) && w.wbData == WriteValue(cfg, a) && w.nextPc == NextPc(cfg, a)
            && w.store == w.ctrl.memWrite && w.cause == Cause(cfg, a) && w.haltNow == (w.cause != NONE)
  {
    var i := Inst(cfg, a);
    DecodeWellFormed(i);
    TargetIsAluResult(i, a.pc, Src1(cfg, a), Src2(cfg, a));
    CauseOfWord(i);
    hide Decode, ImmGen, AluResult, ReadData, Target, Misaligned, DecodeCause, Fetch;
  }

  lemma CauseOfWord(inst: word)
    ensures var isSystem := Opcode(inst) == OP_SYSTEM && Funct3(inst) == 0;
            DecodeCause(inst) ==
            if Decode(inst).illegal then ILLEGAL
            else if isSystem && Funct12(inst) == F12_ECALL then ECALL
            else if isSystem && Funct12(inst) == F12_EBREAK then EBREAK
            else NONE
  {}

  /** A cycle that does not halt is exactly one reference step. */
  lemma CycleIsStep(cfg: Config, a: Arch)
    requires Cause(cfg, a) == NONE
    ensures TopTick(cfg, Embed(a)) == Embed(Step(cfg, a))
  {
    SettleMeaning(cfg, a);
    hide Settle, Decode, ImmGen, AluResult, ReadData, Target, Misaligned, DecodeCause, Cause, WriteValue, NextPc;
  }

  /** Up to the first halting instruction, cycle `n` holds the reference state
      before instruction `n`. */
  lemma {:induction false} SingleCycleRefines(cfg: Config, data: Ram, n: nat)
    requires Live(cfg, Start(cfg, data), n)
    ensures TopAt(cfg, data, n) == Embed(Ref(cfg, data, n))
  {
    hide Step, Cause, TopTick;
    if n > 0 {
      SingleCycleRefines(cfg, data, n - 1);
      CycleIsStep(cfg, Ref(cfg, data, n - 1));
    }
  }

  predicate MisalignedLoad(cfg: Config, a: Arch) {
    Ctrl(cfg, a).memRead && Cause(cfg, a) == MISALIGNED
  }

  /** The registers a halting instruction leaves: a misaligned load still writes. */
  function FinalRegs(cfg: Config, a: Arch): RegBank {
    RegWrite(a.regs, MisalignedLoad(cfg, a), Rd(Inst(cfg, a)), Loaded(cfg, a))
  }

  /** In the halting cycle memory and the UART are left alone, but a misaligned load
      still writes its register: the registers keep the reference values if and only
      if the instruction is not a misaligned load that changes one. */
  lemma HaltingCycle(cfg: Config, a: Arch)
    requires Cause(cfg, a) != NONE
    ensures var s := TopTick(cfg, Embed(a));
            var rd := Rd(Inst(cfg, a));
            && s.haltedQ && s.mem == a.mem && s.uart == a.uart
            && s.regs == FinalRegs(cfg, a)
            && (s.regs == a.regs <==> !(MisalignedLoad(cfg, a) && rd != 0 && Loaded(cfg, a) != a.regs[rd]))
  {
    SettleMeaning(cfg, a);
    DecodeWellFormed(Inst(cfg, a));
    hide Settle, Decode, ImmGen, AluResult, ReadData, Target, DecodeCause, NextPc, Inst, NextWord, WordIndex;
  }

  /** lw x1, 2(x0) */
  const LOAD_WORD_AT_2: word := 0x0020_2083

  lemma LoadWordAt2()
    ensures var c := Decode(LOAD_WORD_AT_2);
            && c.memRead && c.memSize == MEM_W && !c.illegal
            && c.aluOp == ADD && c.aluSrcA == A_RS1 && c.aluSrcB == B_IMM
    ensures Rs1(LOAD_WORD_AT_2) == 0 && Rd(LOAD_WORD_AT_2) == 1 && ImmGen(LOAD_WORD_AT_2) == 2
  {
    hide DecodeCause;
  }

  /** Over a memory holding 5, that load changes x1, which the reference keeps. */
  lemma MisalignedLoadWrites()
    ensures var cfg := Config([LOAD_WORD_AT_2], 0, Devices(0x8000_1000, 0xFFFF_0000));
            var a := Start(cfg, [5]);
            Cause(cfg, a) == MISALIGNED && TopTick(cfg, Embed(a)).regs != Step(cfg, a).regs
  {
    hide TopTick, Settle, Decode, ImmGen, Rd, Rs1, Rs2, MemNext, UartNext, BranchTaken, Target, NextPc, DecodeCause;
    LoadWordAt2();
    var cfg := Config([LOAD_WORD_AT_2], 0, Devices(0x8000_1000, 0xFFFF_0000));
    var a := Start(cfg, [5]);
    assert Inst(cfg, a) == LOAD_WORD_AT_2;
    assert AluY(cfg, a) == 2;
    assert Cause(cfg, a) == MISALIGNED;
    assert Loaded(cfg, a) == 5;
    HaltingCycle(cfg, a);
  }

  /** After the halting cycle nothing moves, and the cause reads as none. */
  lemma StoppedStays(cfg: Config, s: SState)
    requires s.haltedQ
    ensures TopTick(cfg, s) == s && Settle(cfg, s).cause == NONE
  {}

  lemma {:induction false} StoppedForGood(cfg: Config, data: Ram, n: nat, m: nat)
    requires n <= m && TopAt(cfg, data, n).haltedQ
    ensures TopAt(cfg, data, m) == TopAt(cfg, data, n)
    decreases m
  {
    hide TopTick;
    if n < m {
      StoppedForGood(cfg, data, n, m - 1);
      StoppedStays(cfg, TopAt(cfg, data, m - 1));
    }
  }

  /** Both cores reach the same halting instruction with the same committed state and
      see the same cause. */
  lemma CoresAgree(cfg: Config, data: Ram, t: nat)
    requires Halted(At(cfg, data, t))
    ensures var p, n := At(cfg, data, t), OccAt(cfg, data, t).retired;
            var s := TopAt(cfg, data, n);
            && p.regs == s.regs && p.mem == s.mem && p.uart == s.uart
            && !s.haltedQ && p.wbHc == Settle(cfg, s).cause != NONE
  {
    hide At, OccAt, Halted, Cause, Settle, Run, TopAt, Start;
    var n := OccAt(cfg, data, t).retired;
    PreciseHalt(cfg, data, t);
    SingleCycleRefines(cfg, data, n);
    SettleMeaning(cfg, Ref(cfg, data, n));
  }

  /** How the two cores end: in every cycle after the halting one the single-cycle
      core is stopped with the pipeline's final memory and UART, and with its final
      registers if and only if the halting instruction is not a misaligned load that
      changes one; such a load has written its register in the single-cycle core. */
  lemma CoresEnd(cfg: Config, data: Ram, t: nat, m: nat)
    requires Halted(At(cfg, data, t)) && m > OccAt(cfg, data, t).retired
    ensures var p, s := At(cfg, data, t), TopAt(cfg, data, m);
            var a := Ref(cfg, data, OccAt(cfg, data, t).retired);
            var rd := Rd(Inst(cfg, a));
            && s.haltedQ && s.mem == p.mem && s.uart == p.uart
            && s.regs == FinalRegs(cfg, a)
            && (s.regs == p.regs <==>
                !(Ctrl(cfg, a).memRead && p.wbHc == MISALIGNED && rd != 0 && Loaded(cfg, a) != p.regs[rd]))
  {
    hide At, OccAt, Halted, Cause, Settle, Run, Start, TopTick, FinalRegs, Loaded, Inst, Ctrl;
    var n := OccAt(cfg, data, t).retired;
    PreciseHalt(cfg, data, t);
    SingleCycleRefines(cfg, data, n);
    HaltingCycle(cfg, Ref(cfg, data, n));
    StoppedForGood(cfg, data, n + 1, m);
  }
}
