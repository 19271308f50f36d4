/** The RV32I object of rv32i_emu.py: registers and memory updated in place. */
module EmulatorObject {
  import opened Words
  import opened RiscvPkg
  import opened Formats
  import opened RegFile
  import opened ByteMemory
  import opened Emulator

  class RV32I {
    const cfg: EmuConfig
    const regs: array<word>
    const mem: array<byte>
    var pc: word
    var csrs: map<int, word>
    var tohostValue: Option<word>
    var halted: bool
    var reason: HaltReason
    var steps: nat

    ghost predicate Valid()
      reads this, regs
    {
      regs.Length == 32 && regs[0] == 0
    }

    ghost function State(): Cpu
      requires Valid()
      reads this, regs, mem
    {
      Cpu(pc, regs[..], mem[..], csrs, tohostValue, halted, reason, steps)
    }

    constructor (cfg: EmuConfig, memSize: nat)
      ensures Valid() && fresh(regs) && fresh(mem) && this.cfg == cfg
      ensures State() == Cpu(U32(cfg.memBase), ResetRegs(), seq(memSize, i => 0), map[0xF14 := 0], None, false, RUNNING, 0)
    {
      this.cfg := cfg;
      regs := new word[32](i => 0);
      mem := new byte[memSize](i => 0);
      pc := U32(cfg.memBase);
      csrs := map[0xF14 := 0];
      tohostValue, halted, reason, steps := None, false, RUNNING, 0;
      new;
      assert regs[..] == ResetRegs();
      assert mem[..] == seq(memSize, i => 0);
    }

    /** Put bytes at `base`, or fail without touching memory. */
    method LoadProgram(data: seq<byte>, base: int) returns (ok: bool)
      modifies mem
      ensures ok <==> cfg.memBase <= base && base - cfg.memBase + |data| <= mem.Length
      ensures !ok ==> mem[..] == old(mem[..])
      ensures ok ==> var o := base - cfg.memBase;
                     mem[..] == old(mem[..])[..o] + data + old(mem[..])[o + |data|..]
    {
      ok := cfg.memBase <= base && base - cfg.memBase + |data| <= mem.Length;
      if ok {
        var o := base - cfg.memBase;
        for i := 0 to |data|
          invariant mem[..] == old(mem[..])[..o] + data[..i] + old(mem[..])[o + i..]
        {
          mem[o + i] := data[i];
        }
      }
    }

    method Fetch(addr: word) returns (f: Fetched)
      ensures f == FetchAt(cfg, mem[..], addr)
    {
      if addr % 4 != 0 {
        return BadFetch(MISALIGNED_FETCH);
      }
      if addr < cfg.memBase || addr + 4 > cfg.memBase + mem.Length {
        return BadFetch(MEM_RANGE);
      }
      return Word(Unpack(addr - cfg.memBase));
    }

    /** Four bytes, least significant first. */
    function Unpack(i: nat): (w: word)
      requires i + 4 <= mem.Length
      reads mem
      ensures w == Get32(mem[..], i)
    {
      mem[i] + 0x100 * (mem[i + 1] as int) + 0x1_0000 * (mem[i + 2] as int) + 0x100_0000 * (mem[i + 3] as int)
    }

    method LoadFrom(addr: word, size: MemSize, signed: bool) returns (f: Fetched)
      ensures f == LoadAt(cfg, mem[..], addr, size, signed)
    {
      if (size == MEM_H && addr % 2 != 0) || (size == MEM_W && addr % 4 != 0) {
        return BadFetch(MISALIGNED_LOAD);
      }
      var n := match size case MEM_B => 1 case MEM_H => 2 case MEM_W => 4;
      if addr < cfg.memBase || addr + n > cfg.memBase + mem.Length {
        return BadFetch(MEM_RANGE);
      }
      var i := addr - cfg.memBase;
      if size == MEM_B {
        return Word(if signed then U32(Sext(mem[i], 0x100)) else mem[i]);
      }
      if size == MEM_H {
        var h := mem[i] + 0x100 * (mem[i + 1] as int);
        return Word(if signed then U32(Sext(h, 0x1_0000)) else h);
      }
      return Word(Unpack(i));
    }

    method Wr(rd: regidx, value: int)
      requires Valid()
      modifies regs
      ensures Valid()
      ensures regs[..] == RegWrite(old(regs[..]), true, rd, U32(value))
    {
      if rd != 0 {
        regs[rd] := U32(value);
      }
    }

    method WriteBytes(i: nat, v: word, size: MemSize)
      requires i + SizeOf(size) <= mem.Length
      modifies mem
      ensures mem[..] == Store(old(mem[..]), i, v, size)
    {
      mem[i] := v % 0x100;
      if size != MEM_B {
        mem[i + 1] := v / 0x100 % 0x100;
      }
      if size == MEM_W {
        mem[i + 2] := v / 0x1_0000 % 0x100;
        mem[i + 3] := v / 0x100_0000 % 0x100;
      }
    }

    method StoreTo(addr: word, value: word, size: MemSize) returns (e: Executed)
      requires Valid()
      modifies this, mem
      ensures Valid()
      ensures e == StoreAt(cfg, old(State()), addr, value, size)
      ensures State() == if e.Executed? then e.cpu else old(State())
    {
      var next := U32(pc + 4);
      if addr == cfg.tohost {
        tohostValue, halted := Some(value), true;
        reason := if value == 1 then TOHOST_PASS else TOHOST_FAIL;
      } else if !Aligned(addr, size) {
        return Trapped(MISALIGNED_STORE);
      } else if !InRange(cfg, mem.Length, addr, SizeOf(size)) {
        return Trapped(MEM_RANGE);
      } else {
        WriteBytes(addr - cfg.memBase, value, size);
      }
      return Executed(Cpu(pc, regs[..], mem[..], csrs, tohostValue, halted, reason, steps), next,
                      Some(MemRecord(addr, value, size)));
    }

    method DoSystem(inst: word) returns (e: Executed)
      requires Valid()
      modifies this, regs
      ensures Valid()
      ensures e == System(cfg, old(State()), inst)
      ensures State() == if e.Executed? then e.cpu else old(State())
    {
      var f3, f12, next := Funct3(inst), Funct12(inst), U32(pc + 4);
      if f3 == 0 {
        if f12 == F12_ECALL || f12 == F12_EBREAK {
          if cfg.trapOnEcall {
            csrs := csrs[CSR_MEPC := pc];
            csrs := csrs[CSR_MCAUSE := if f12 == F12_ECALL then CAUSE_ECALL_M else CAUSE_BREAKPOINT];
            var tvec := CsrGet(csrs, CSR_MTVEC);
            next := tvec - tvec % 4;
          } else {
            halted := true;
            reason := if f12 == F12_ECALL then BY_ECALL else BY_EBREAK;
          }
        } else if f12 == F12_MRET {
          next := CsrGet(csrs, CSR_MEPC);
        } else if f12 != F12_WFI {
          return Trapped(ILLEGAL_INST);
        }
      } else if f3 == 4 {
        return Trapped(ILLEGAL_INST);
      } else {
        var src: word := if f3 > 4 then Rs1(inst) else regs[Rs1(inst)];
        var prior := CsrGet(csrs, f12);
        if f3 % 4 == 1 {
          csrs := csrs[f12 := src];
        } else if src != 0 {
          csrs := csrs[f12 := if f3 % 4 == 2 then Or32(prior, src) else And32(prior, 0xFFFF_FFFF - src)];
        }
        Wr(Rd(inst), prior);
      }
      return Executed(Cpu(pc, regs[..], mem[..], csrs, tohostValue, halted, reason, steps), next, None);
    }

    /** Write a computed value to rd and carry on at `next`. */
    method WriteRd(inst: word, value: int, next: word) returns (e: Executed)
      requires Valid()
      modifies regs
      ensures Valid()
      ensures e == Wrote(old(State()), Rd(inst), value, next) && e.Executed? && State() == e.cpu
    {
      Wr(Rd(inst), value);
      return Executed(Cpu(pc, regs[..], mem[..], csrs, tohostValue, halted, reason, steps), next, None);
    }

    /** The opcode dispatch: a trap leaves every field as it was. */
    method Dispatch(inst: word) returns (e: Executed)
      requires Valid()
      modifies this, regs, mem
      ensures Valid()
      ensures e == Execute(cfg, old(State()), inst)
      ensures State() == if e.Executed? then e.cpu else old(State())
    {
      hide ImmI, ImmS, ImmB, ImmJ, ImmU, AluImm, AluReg, U32, S32, RegWrite, System, LoadAt, StoreAt, Slice, Wrote;
      var op := Opcode(inst);
      var next := U32(pc + 4);
      var v1, v2 := regs[Rs1(inst)], regs[Rs2(inst)];
      e := Trapped(ILLEGAL_INST);
      if op == OP_LUI {
        e := WriteRd(inst, ImmU(inst), next);
      } else if op == OP_AUIPC {
        e := WriteRd(inst, U32(pc + ImmU(inst)), next);
      } else if op == OP_JAL || op == OP_JALR {
        var t := if op == OP_JAL then U32(pc + ImmJ(inst)) else U32(v1 + ImmI(inst));
        var target := if op == OP_JAL then t else t - t % 2;
        if target % 4 != 0 {
          e := Trapped(MISALIGNED_FETCH);
        } else {
          e := WriteRd(inst, next, target);
        }
      } else if op == OP_BRANCH {
        var f3 := Funct3(inst);
        if f3 != 2 && f3 != 3 {
          var taken :=
            if f3 == 0 then v1 == v2
            else if f3 == 1 then v1 != v2
            else if f3 == 4 then S32(v1) < S32(v2)
            else if f3 == 5 then S32(v1) >= S32(v2)
            else if f3 == 6 then v1 < v2
            else v1 >= v2;
          if taken {
            next := U32(pc + ImmB(inst));
          }
          if taken && next % 4 != 0 {
            e := Trapped(MISALIGNED_FETCH);
          } else {
            e := Executed(Cpu(pc, regs[..], mem[..], csrs, tohostValue, halted, reason, steps), next, None);
          }
        }
      } else if op == OP_LOAD {
        var f3 := Funct3(inst);
        if f3 != 3 && f3 <= 5 {
          var size := if f3 == 0 || f3 == 4 then MEM_B else if f3 == 1 || f3 == 5 then MEM_H else MEM_W;
          var v := LoadFrom(U32(v1 + ImmI(inst)), size, f3 < 2);
          if v.BadFetch? {
            e := Trapped(v.kind);
          } else {
            e := WriteRd(inst, v.word, next);
          }
        }
      } else if op == OP_STORE {
        var f3 := Funct3(inst);
        if f3 <= 2 {
          e := StoreTo(U32(v1 + ImmS(inst)), v2, if f3 == 0 then MEM_B else if f3 == 1 then MEM_H else MEM_W);
        }
      } else if op == OP_IMM || op == OP_REG {
        var v := if op == OP_IMM then AluImm(inst, v1, ImmI(inst)) else AluReg(inst, v1, v2);
        if v.Some? {
          e := WriteRd(inst, v.value, next);
        }
      } else if op == OP_FENCE {
        e := Executed(Cpu(pc, regs[..], mem[..], csrs, tohostValue, halted, reason, steps), next, None);
      } else if op == OP_SYSTEM {
        e := DoSystem(inst);
      }
    }

    /** One instruction; a halted CPU refuses. A refused step, or one that raises,
        changes nothing at all. */
    method Step() returns (r: Option<Stepped>)
      requires Valid()
      modifies this, regs, mem
      ensures Valid()
      ensures r == if old(halted) then None else Some(EmuStep(cfg, old(State())))
      ensures State() == if r.Some? && r.value.Done? then r.value.cpu else old(State())
    {
      hide Execute, RecordsRd;
      if halted {
        return None;
      }
      var f := Fetch(pc);
      if f.BadFetch? {
        return Some(Raised(f.kind));
      }
      var inst, pc0 := f.word, pc;
      var e := Dispatch(inst);
      if e.Trapped? {
        return Some(Raised(e.kind));
      }
      pc := e.nextPc;
      steps := steps + 1;
      var rec := if RecordsRd(inst) then Some(RegRecord(Rd(inst), regs[Rd(inst)])) else None;
      return Some(Done(Cpu(pc, regs[..], mem[..], csrs, tohostValue, halted, reason, steps),
                       StepTrace(pc0, inst, rec, e.memWrite)));
    }

    /** Step until halted or `maxSteps` steps in all, or until a step raises. */
    method Run(maxSteps: nat) returns (end: RunEnd, ghost traces: seq<StepTrace>)
      requires Valid()
      modifies this, regs, mem
      ensures Valid()
      ensures EmuRun(cfg, old(State()), if maxSteps >= old(steps) then maxSteps - old(steps) else 0)
              == RunResult(State(), traces, end)
    {
      hide EmuStep;
      traces := [];
      ghost var fuel := if maxSteps >= steps then maxSteps - steps else 0;
      ghost var start := State();
      while !halted && steps < maxSteps
        invariant Valid()
        invariant fuel >= |traces|
        invariant steps < maxSteps || fuel > |traces| ==> fuel - |traces| == maxSteps - steps
        invariant EmuRun(cfg, start, fuel) == Prepend(traces, EmuRun(cfg, State(), fuel - |traces|))
        decreases maxSteps - steps
      {
        ghost var s, rest := State(), fuel - |traces|;
        assert rest > 0;
        var step := Step();
        var r := step.value;
        if r.Raised? {
          assert traces + [] == traces;
          return TRAPPED(r.kind), traces;
        }
        StepCounts(cfg, s);
        PrependOne(traces, r.trace, EmuRun(cfg, State(), rest - 1));
        traces := traces + [r.trace];
      }
      assert traces + [] == traces;
      end := if halted then HALTED else STEP_LIMIT;
    }
  }

  ghost function Prepend(ts: seq<StepTrace>, r: RunResult): RunResult {
    r.(traces := ts + r.traces)
  }

  lemma PrependOne(ts: seq<StepTrace>, t: StepTrace, r: RunResult)
    ensures Prepend(ts, Prepend([t], r)) == Prepend(ts + [t], r)
  {
    assert ts + ([t] + r.traces) == ts + [t] + r.traces;
  }

  lemma StepCounts(cfg: EmuConfig, s: Cpu)
    ensures EmuStep(cfg, s).Done? ==> EmuStep(cfg, s).cpu.steps == s.steps + 1
  {
    hide ImmI, ImmS, ImmB, ImmJ, ImmU, AluImm, AluReg, U32, RegWrite, BranchTakes, Slice, Load, Store, FetchAt, Or32,
      And32;
  }
}
