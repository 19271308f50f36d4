/** rv32i_emu.py: the byte-addressed reference emulator. A raised Trap is a value. */
module Emulator {
  import opened Words
  import opened RiscvPkg
  import opened Formats
  import opened RegFile
  import opened ByteMemory

  datatype Option<+T> = None | Some(value: T)

  datatype TrapKind = MISALIGNED_FETCH | MISALIGNED_LOAD | MISALIGNED_STORE | MEM_RANGE | ILLEGAL_INST
  datatype HaltReason = RUNNING | BY_ECALL | BY_EBREAK | TOHOST_PASS | TOHOST_FAIL

  datatype EmuConfig = EmuConfig(memBase: nat, tohost: word, trapOnEcall: bool)

  datatype Cpu = Cpu(pc: word, regs: RegBank, mem: seq<byte>, csrs: map<int, word>,
                     tohostValue: Option<word>, halted: bool, reason: HaltReason, steps: nat)

  datatype RegRecord = RegRecord(rd: regidx, value: word)
  datatype MemRecord = MemRecord(addr: word, value: word, size: MemSize)
  datatype StepTrace = StepTrace(pc: word, inst: word, rdWrite: Option<RegRecord>, memWrite: Option<MemRecord>)

  datatype Fetched = Word(word: word) | BadFetch(kind: TrapKind)
  datatype Executed = Executed(cpu: Cpu, nextPc: word, memWrite: Option<MemRecord>) | Trapped(kind: TrapKind)
  datatype Stepped = Done(cpu: Cpu, trace: StepTrace) | Raised(kind: TrapKind)

  const CSR_MTVEC: int := 0x305
  const CSR_MEPC: int := 0x341
  const CSR_MCAUSE: int := 0x342
  const F12_MRET: int := 0x302
  const F12_WFI: int := 0x105
  const CAUSE_BREAKPOINT: int := 3
  const CAUSE_ECALL_M: int := 11

  function CsrGet(csrs: map<int, word>, csr: int): word {
    if csr in csrs then csrs[csr] else 0
  }

  // ---------- memory

  predicate InRange(cfg: EmuConfig, length: nat, addr: word, size: nat) {
    cfg.memBase <= addr && addr + size <= cfg.memBase + length
  }

  function FetchAt(cfg: EmuConfig, mem: seq<byte>, addr: word): Fetched {
    if addr % 4 != 0 then BadFetch(MISALIGNED_FETCH)
    else if !InRange(cfg, |mem|, addr, 4) then BadFetch(MEM_RANGE)
    else Word(Get32(mem, addr - cfg.memBase))
  }

  function LoadAt(cfg: EmuConfig, mem: seq<byte>, addr: word, size: MemSize, signed: bool): Fetched {
    if !Aligned(addr, size) then BadFetch(MISALIGNED_LOAD)
    else if !InRange(cfg, |mem|, addr, SizeOf(size)) then BadFetch(MEM_RANGE)
    else Word(Load(mem, addr - cfg.memBase, size, signed))
  }

  /** The host address is intercepted before any check. */
  function StoreAt(cfg: EmuConfig, s: Cpu, addr: word, value: word, size: MemSize): Executed {
    var rec := Some(MemRecord(addr, value, size));
    var next := U32(s.pc + 4);
    if addr == cfg.tohost then
      Executed(s.(tohostValue := Some(value), halted := true,
                  reason := if value == 1 then TOHOST_PASS else TOHOST_FAIL), next, rec)
    else if !Aligned(addr, size) then Trapped(MISALIGNED_STORE)
    else if !InRange(cfg, |s.mem|, addr, SizeOf(size)) then Trapped(MEM_RANGE)
    else Executed(s.(mem := Store(s.mem, addr - cfg.memBase, value, size)), next, rec)
  }

  // ---------- instruction groups; the PC and step count move afterwards

  function Wrote(s: Cpu, rd: regidx, value: int, next: word): Executed {
    Executed(s.(regs := RegWrite(s.regs, true, rd, U32(value))), next, None)
  }

  function Jump(s: Cpu, inst: word, target: word): Executed {
    if target % 4 != 0 then Trapped(MISALIGNED_FETCH)
    else Wrote(s, Rd(inst), U32(s.pc + 4), target)
  }

  function BranchTakes(f3: int, a: word, b: word): Option<bool> {
    if f3 == 0 then Some(a == b)
    else if f3 == 1 then Some(a != b)
    else if f3 == 4 then Some(S32(a) < S32(b))
    else if f3 == 5 then Some(S32(a) >= S32(b))
    else if f3 == 6 then Some(a < b)
    else if f3 == 7 then Some(a >= b)
    else None
  }

  function Branch(s: Cpu, inst: word): Executed {
    match BranchTakes(Funct3(inst), s.regs[Rs1(inst)], s.regs[Rs2(inst)])
    case None => Trapped(ILLEGAL_INST)
    case Some(taken) =>
      var target := U32(s.pc + ImmB(inst));
      if !taken then Executed(s, U32(s.pc + 4), None)
      else if target % 4 != 0 then Trapped(MISALIGNED_FETCH)
      else Executed(s, target, None)
  }

  function LoadInst(cfg: EmuConfig, s: Cpu, inst: word): Executed {
    var addr := U32(s.regs[Rs1(inst)] + ImmI(inst));
    var f3 := Funct3(inst);
    if f3 == 3 || f3 > 5 then Trapped(ILLEGAL_INST)
    else
      var size := if f3 == 0 || f3 == 4 then MEM_B else if f3 == 1 || f3 == 5 then MEM_H else MEM_W;
      match LoadAt(cfg, s.mem, addr, size, f3 < 2)
      case BadFetch(k) => Trapped(k)
      case Word(v) => Wrote(s, Rd(inst), v, U32(s.pc + 4))
  }

  function StoreInst(cfg: EmuConfig, s: Cpu, inst: word): Executed {
    var addr := U32(s.regs[Rs1(inst)] + ImmS(inst));
    var f3 := Funct3(inst);
    if f3 > 2 then Trapped(ILLEGAL_INST)
    else StoreAt(cfg, s, addr, s.regs[Rs2(inst)], if f3 == 0 then MEM_B else if f3 == 1 then MEM_H else MEM_W)
  }

  /** The operations OP-IMM and OP share, given the second operand. */
  function AluCommon(f3: int, f7: int, a: word, b: int): Option<word> {
    if f3 == 1 then Some(U32(a * Pow2(b % 32)))
    else if f3 == 2 then Some(if S32(a) < S32(b) then 1 else 0)
    else if f3 == 3 then Some(if a < U32(b) then 1 else 0)
    else if f3 == 4 then Some(Xor32(a, U32(b)))
    else if f3 == 5 then
      if f7 == F7_DEFAULT then Some(ShiftRight(a, b % 32))
      else if f7 == F7_ALT then Some(U32(S32(a) / Pow2(b % 32)))
      else None
    else if f3 == 6 then Some(Or32(a, U32(b)))
    else Some(And32(a, U32(b)))
  }

  function AluImm(inst: word, a: word, imm: int): Option<word> {
    if Funct3(inst) == 0 then Some(U32(a + imm)) else AluCommon(Funct3(inst), Funct7(inst), a, imm)
  }

  function AluReg(inst: word, a: word, b: word): Option<word> {
    if Funct3(inst) == 0 then
      if Funct7(inst) == F7_DEFAULT then Some(U32(a + b))
      else if Funct7(inst) == F7_ALT then Some(U32(a - b))
      else None
    else AluCommon(Funct3(inst), Funct7(inst), a, b)
  }

  function AluWrote(s: Cpu, inst: word, v: Option<word>): Executed {
    match v
    case None => Trapped(ILLEGAL_INST)
    case Some(v) => Wrote(s, Rd(inst), v, U32(s.pc + 4))
  }

  function TakeTrap(s: Cpu, cause: word): Executed {
    var tvec := CsrGet(s.csrs[CSR_MEPC := s.pc][CSR_MCAUSE := cause], CSR_MTVEC);
    Executed(s.(csrs := s.csrs[CSR_MEPC := s.pc][CSR_MCAUSE := cause]), tvec - tvec % 4, None)
  }

  function System(cfg: EmuConfig, s: Cpu, inst: word): Executed {
    var f3, f12 := Funct3(inst), Funct12(inst);
    var next := U32(s.pc + 4);
    if f3 == 0 then
      if f12 == F12_ECALL then
        if cfg.trapOnEcall then TakeTrap(s, CAUSE_ECALL_M)
        else Executed(s.(halted := true, reason := BY_ECALL), next, None)
      else if f12 == F12_EBREAK then
        if cfg.trapOnEcall then TakeTrap(s, CAUSE_BREAKPOINT)
        else Executed(s.(halted := true, reason := BY_EBREAK), next, None)
      else if f12 == F12_MRET then Executed(s, CsrGet(s.csrs, CSR_MEPC), None)
      else if f12 == F12_WFI then Executed(s, next, None)
      else Trapped(ILLEGAL_INST)
    else if f3 == 4 then Trapped(ILLEGAL_INST)
    else
      var src: word := if f3 > 4 then Rs1(inst) else s.regs[Rs1(inst)];
      var prior := CsrGet(s.csrs, f12);
      var csrs :=
        if f3 % 4 == 1 then s.csrs[f12 := src]
        else if src == 0 then s.csrs
        else if f3 % 4 == 2 then s.csrs[f12 := Or32(prior, src)]
        else s.csrs[f12 := And32(prior, 0xFFFF_FFFF - src)];
      Wrote(s.(csrs := csrs), Rd(inst), prior, next)
  }

  function Execute(cfg: EmuConfig, s: Cpu, inst: word): Executed {
    var op := Opcode(inst);
    var v1, v2 := s.regs[Rs1(inst)], s.regs[Rs2(inst)];
    var next := U32(s.pc + 4);
    if op == OP_LUI then Wrote(s, Rd(inst), ImmU(inst), next)
    else if op == OP_AUIPC then Wrote(s, Rd(inst), U32(s.pc + ImmU(inst)), next)
    else if op == OP_JAL then Jump(s, inst, U32(s.pc + ImmJ(inst)))
    else if op == OP_JALR then
      var t := U32(v1 + ImmI(inst));
      Jump(s, inst, t - t % 2)
    else if op == OP_BRANCH then Branch(s, inst)
    else if op == OP_LOAD then LoadInst(cfg, s, inst)
    else if op == OP_STORE then StoreInst(cfg, s, inst)
    else if op == OP_IMM then AluWrote(s, inst, AluImm(inst, v1, ImmI(inst)))
    else if op == OP_REG then AluWrote(s, inst, AluReg(inst, v1, v2))
    else if op == OP_FENCE then Executed(s, next, None)
    else if op == OP_SYSTEM then System(cfg, s, inst)
    else Trapped(ILLEGAL_INST)
  }

  /** Opcodes whose rd the trace records. */
  predicate RecordsRd(inst: word) {
    var op := Opcode(inst);
    Rd(inst) != 0 &&
    (op == OP_LUI || op == OP_AUIPC || op == OP_JAL || op == OP_JALR || op == OP_LOAD || op == OP_IMM
     || op == OP_REG || op == OP_SYSTEM)
  }

  function Retire(s: Cpu, inst: word, e: Executed): Stepped {
    match e
    case Trapped(k) => Raised(k)
    case Executed(c, next, mw) =>
      Done(c.(pc := next, steps := c.steps + 1),
           StepTrace(s.pc, inst, if RecordsRd(inst) then Some(RegRecord(Rd(inst), c.regs[Rd(inst)])) else None, mw))
  }

  function EmuStep(cfg: EmuConfig, s: Cpu): Stepped {
    match FetchAt(cfg, s.mem, s.pc)
    case BadFetch(k) => Raised(k)
    case Word(inst) => Retire(s, inst, Execute(cfg, s, inst))
  }

  // ---------- whole runs

  datatype RunEnd = HALTED | STEP_LIMIT | TRAPPED(kind: TrapKind)
  datatype RunResult = RunResult(cpu: Cpu, traces: seq<StepTrace>, end: RunEnd)

  /** Step until halted, trapped, or `fuel` steps were taken. */
  function EmuRun(cfg: EmuConfig, s: Cpu, fuel: nat): RunResult
    decreases fuel
  {
    if s.halted then RunResult(s, [], HALTED)
    else if fuel == 0 then RunResult(s, [], STEP_LIMIT)
    else
      match EmuStep(cfg, s)
      case Raised(k) => RunResult(s, [], TRAPPED(k))
      case Done(c, t) =>
        var r := EmuRun(cfg, c, fuel - 1);
        RunResult(r.cpu, [t] + r.traces, r.end)
  }

  /** A run that has not stopped after `m` steps goes on from where it was. */
  lemma {:induction false} RunOn(cfg: EmuConfig, s: Cpu, m: nat, k: nat)
    requires EmuRun(cfg, s, m).end == STEP_LIMIT
    ensures var p := EmuRun(cfg, s, m);
            var q := EmuRun(cfg, p.cpu, k);
            EmuRun(cfg, s, m + k) == RunResult(q.cpu, p.traces + q.traces, q.end)
    decreases m
  {
    hide EmuStep;
    if m > 0 {
      var e := EmuStep(cfg, s);
      RunOn(cfg, e.cpu, m - 1, k);
      var q := EmuRun(cfg, EmuRun(cfg, s, m).cpu, k);
      assert [e.trace] + (EmuRun(cfg, e.cpu, m - 1).traces + q.traces) == EmuRun(cfg, s, m).traces + q.traces;
    }
  }

  function ReplayRegs(regs: RegBank, t: StepTrace): RegBank {
    match t.rdWrite
    case None => regs
    case Some(r) => RegWrite(regs, true, r.rd, r.value)
  }

  /** Host stores are recorded but never reach memory. */
  function ReplayMem(cfg: EmuConfig, mem: seq<byte>, t: StepTrace): seq<byte> {
    match t.memWrite
    case None => mem
    case Some(w) =>
      if w.addr == cfg.tohost || !InRange(cfg, |mem|, w.addr, SizeOf(w.size)) then mem
      else Store(mem, w.addr - cfg.memBase, w.value, w.size)
  }

  function ReplayAll(cfg: EmuConfig, regs: RegBank, mem: seq<byte>, ts: seq<StepTrace>): (RegBank, seq<byte>)
    decreases |ts|
  {
    if ts == [] then (regs, mem)
    else ReplayAll(cfg, ReplayRegs(regs, ts[0]), ReplayMem(cfg, mem, ts[0]), ts[1..])
  }

  lemma ExecuteRecords(cfg: EmuConfig, s: Cpu, inst: word)
    ensures var e := Execute(cfg, s, inst);
            e.Executed? ==>
              && (forall i :: 0 <= i < 32 && (i != Rd(inst) || !RecordsRd(inst)) ==> e.cpu.regs[i] == s.regs[i])
              && e.cpu.mem == ReplayMem(cfg, s.mem, StepTrace(s.pc, inst, None, e.memWrite))
              && |e.cpu.mem| == |s.mem|
  {
    hide ImmI, ImmS, ImmB, ImmJ, ImmU, AluCommon, Load, Store, U32, BranchTakes, Slice, Or32, And32;
  }

  /** The recorded writes are the step's whole effect on registers and memory. */
  lemma StepReplays(cfg: EmuConfig, s: Cpu)
    requires EmuStep(cfg, s).Done?
    ensures var r := EmuStep(cfg, s);
            r.cpu.regs == ReplayRegs(s.regs, r.trace) && r.cpu.mem == ReplayMem(cfg, s.mem, r.trace)
  {
    hide Execute, FetchAt, Store, RecordsRd;
    var inst := FetchAt(cfg, s.mem, s.pc).word;
    ExecuteRecords(cfg, s, inst);
    RecordedIsNonzero(inst);
    var r := EmuStep(cfg, s);
    assert r.cpu.regs == ReplayRegs(s.regs, r.trace);
  }

  lemma RecordedIsNonzero(inst: word)
    ensures RecordsRd(inst) ==> Rd(inst) != 0
  {}

  /** Over any run, however it ends, replaying the trace from the initial registers
      and memory gives the final ones. */
  lemma {:induction false} TraceIsComplete(cfg: EmuConfig, s: Cpu, fuel: nat)
    ensures var r := EmuRun(cfg, s, fuel);
            ReplayAll(cfg, s.regs, s.mem, r.traces) == (r.cpu.regs, r.cpu.mem)
    decreases fuel
  {
    hide EmuStep, ReplayRegs, ReplayMem;
    if !s.halted && fuel > 0 {
      var st := EmuStep(cfg, s);
      if st.Done? {
        StepReplays(cfg, s);
        TraceIsComplete(cfg, st.cpu, fuel - 1);
        assert ([st.trace] + EmuRun(cfg, st.cpu, fuel - 1).traces)[1..] == EmuRun(cfg, st.cpu, fuel - 1).traces;
      }
    }
  }
}
