/** What every pipeline slot holds, in terms of the reference run. A slot is a
    bubble or holds one instruction of the run; a slot younger than the first
    halting instruction may hold anything. */
module PipelineInvariant {
  import opened Words
  import opened RiscvPkg
  import opened Decoder
  import opened Datapath
  import opened DataMemory
  import opened RegFile
  import opened PipelineRegs
  import opened Reference
  import opened TopPipeline

  /** Which slots hold an instruction, and how many have left WB. The bits travel
      with the pipeline registers: fetch sets one, a stall or redirect clears one. */
  datatype Occupancy = Occupancy(id: bool, ex: bool, mem: bool, wb: bool, retired: nat)

  function OccNext(cfg: Config, p: PState, o: Occupancy): Occupancy {
    var en := !Halted(p);
    Occupancy(
      if Redirect(cfg, p) then false else if FrontEn(p) then true else o.id,
      if Stall(p) then false else if en then o.id else o.ex,
      if en then o.ex else o.mem,
      if en then o.mem else o.wb,
      o.retired + if en && o.wb then 1 else 0)
  }

  function OccAt(cfg: Config, data: Ram, t: nat): Occupancy {
    if t == 0 then Occupancy(false, false, false, false, 0)
    else OccNext(cfg, At(cfg, data, t - 1), OccAt(cfg, data, t - 1))
  }

  /** The architectural states just before the instruction in each slot. */
  datatype Flight = Flight(wb: Arch, mem: Arch, ex: Arch, id: Arch)

  function Advance(cfg: Config, full: bool, a: Arch): Arch {
    if full then Step(cfg, a) else a
  }

  function FlightFrom(cfg: Config, o: Occupancy, a: Arch): Flight {
    var m := Advance(cfg, o.wb, a);
    var e := Advance(cfg, o.mem, m);
    Flight(a, m, e, Advance(cfg, o.ex, e))
  }

  /** No instruction older than the slot halts. */
  predicate LiveMem(cfg: Config, o: Occupancy, f: Flight) {
    o.wb ==> Cause(cfg, f.wb) == NONE
  }

  predicate LiveEx(cfg: Config, o: Occupancy, f: Flight) {
    LiveMem(cfg, o, f) && (o.mem ==> Cause(cfg, f.mem) == NONE)
  }

  predicate LiveId(cfg: Config, o: Occupancy, f: Flight) {
    LiveEx(cfg, o, f) && (o.ex ==> Cause(cfg, f.ex) == NONE)
  }

  predicate AluUsed(c: Control) {
    c.memRead || c.memWrite || (c.regWrite && c.wbSrc == WB_ALU)
  }

  predicate NoEffect(c: Control, rd: regidx) {
    (c.regWrite ==> rd == 0) && !c.memRead && !c.memWrite
  }

  predicate WbHolds(cfg: Config, a: Arch, q: MemWb, hc: HaltCause) {
    && hc == Cause(cfg, a)
    && (hc == NONE ==>
          && q.ctrl.regWrite == Ctrl(cfg, a).regWrite
          && q.rd == Rd(Inst(cfg, a))
          && (q.ctrl.regWrite ==> WbMux(q.ctrl.wbSrc, q.aluY, q.memRdata, q.pc4) == WriteValue(cfg, a)))
  }

  predicate MemHolds(cfg: Config, a: Arch, q: ExMem, hc: HaltCause) {
    && q.ctrl == Ctrl(cfg, a)
    && q.rd == Rd(Inst(cfg, a))
    && q.pc4 == U32(a.pc + 4)
    && (AluUsed(q.ctrl) ==> q.aluY == AluY(cfg, a))
    && (q.ctrl.memWrite ==> q.rs2Val == Src2(cfg, a))
    && hc == DecodeCause(Inst(cfg, a))
  }

  predicate ExHolds(cfg: Config, a: Arch, q: IdEx, hc: HaltCause, regs: RegBank) {
    var i := Inst(cfg, a);
    && q == IdEx(Decode(i), a.pc, U32(a.pc + 4), regs[Rs1(i)], regs[Rs2(i)], ImmGen(i), Rs1(i), Rs2(i), Rd(i))
    && hc == DecodeCause(i)
  }

  predicate IdHolds(cfg: Config, a: Arch, q: IfId) {
    q == IfId(a.pc, U32(a.pc + 4), Inst(cfg, a))
  }

  predicate Inv(cfg: Config, p: PState, o: Occupancy, f: Flight) {
    // committed state: registers lag memory by the instruction in WB
    && f == FlightFrom(cfg, o, f.wb)
    && p.regs == f.wb.regs
    && p.mem == f.mem.mem
    && p.uart == f.mem.uart
    && p.tohostValue == (if o.wb && Cause(cfg, f.wb) == TOHOST then Src2(cfg, f.wb) else 0)
    && (p.haltedQ ==> p.wbHc != NONE)
    // slots
    && (if o.wb then WbHolds(cfg, f.wb, p.memwb, p.wbHc) else NoEffect(p.memwb.ctrl, p.memwb.rd) && p.wbHc == NONE)
    && (LiveMem(cfg, o, f) ==>
          if o.mem then MemHolds(cfg, f.mem, p.exmem, p.memHc)
          else NoEffect(p.exmem.ctrl, p.exmem.rd) && p.memHc == NONE)
    && (LiveEx(cfg, o, f) ==>
          if o.ex then
            && ExHolds(cfg, f.ex, p.idex, p.exHc, p.regs)
            && !LoadUse(p.exmem.ctrl.memRead, p.exmem.rd, Inst(cfg, f.ex))
          else NoEffect(p.idex.ctrl, p.idex.rd) && p.exHc == NONE)
    && (LiveId(cfg, o, f) ==>
          if o.id then IdHolds(cfg, f.id, p.ifid) && p.pc == U32(f.id.pc + 4)
          else p.ifid.inst == NOP_INST && p.pc == f.id.pc)
  }

  // ---------- operand freshness

  lemma StepRegs(cfg: Config, a: Arch)
    requires Cause(cfg, a) == NONE
    ensures Step(cfg, a).regs ==
            RegWrite(a.regs, Ctrl(cfg, a).regWrite, Rd(Inst(cfg, a)), WriteValue(cfg, a))
  {}

  lemma StepPc(cfg: Config, a: Arch)
    requires Cause(cfg, a) == NONE
    ensures Step(cfg, a).pc == NextPc(cfg, a)
  {}

  /** The registers after the WB instruction, read through the write-first file. */
  lemma IdReadFresh(cfg: Config, p: PState, o: Occupancy, f: Flight, rs: regidx)
    requires Inv(cfg, p, o, f) && !Halted(p)
    ensures RegWrite(p.regs, WbWe(p), p.memwb.rd, WbData(p)) == f.mem.regs
    ensures IdRead(p, rs) == f.mem.regs[rs]
  {
    hide Decode, ImmGen, AluResult, ReadData, MemNext, UartNext, Target, Misaligned, DecodeCause, WriteValue;
    ReadPortMeaning(p.regs, WbWe(p), p.memwb.rd, WbData(p), rs);
    if o.wb {
      StepRegs(cfg, f.wb);
    }
  }

  /** What a live instruction in MEM forwards to ID is the value it will write. */
  lemma MemForwardsToId(cfg: Config, p: PState, o: Occupancy, f: Flight)
    requires Inv(cfg, p, o, f) && LiveMem(cfg, o, f) && o.mem && Ctrl(cfg, f.mem).regWrite
    ensures MemWbValue(cfg, p) == WriteValue(cfg, f.mem)
  {
    hide Decode, ImmGen, AluResult, ReadData, MemNext, UartNext, Target, Misaligned, DecodeCause, RegWrite;
    DecodeWellFormed(Inst(cfg, f.mem));
  }

  /** The EX operands are the program-order values of every register read. A load
      in MEM never forwards its address, because the load-use stall kept its
      reader out of EX. */
  lemma ExOperandFresh(cfg: Config, p: PState, o: Occupancy, f: Flight, rs: regidx)
    requires Inv(cfg, p, o, f) && LiveEx(cfg, o, f) && o.ex && !Halted(p)
    requires var i := Inst(cfg, f.ex); (ReadsRs1(i) && rs == Rs1(i)) || (ReadsRs2(i) && rs == Rs2(i))
    ensures Forwarded(p, rs, p.regs[rs]) == f.ex.regs[rs]
  {
    hide Decode, ImmGen, AluResult, ReadData, MemNext, UartNext, Target, Misaligned, DecodeCause, ReadsRs1, ReadsRs2,
      Step;
    if o.wb {
      StepRegs(cfg, f.wb);
    }
    if o.mem {
      StepRegs(cfg, f.mem);
      DecodeWellFormed(Inst(cfg, f.mem));
    }
  }

  /** An unstalled branch or JALR in ID compares the program-order values. */
  lemma IdOperandFresh(cfg: Config, p: PState, o: Occupancy, f: Flight, rs: regidx)
    requires Inv(cfg, p, o, f) && LiveId(cfg, o, f) && o.id && !Halted(p) && !Stall(p)
    requires var i := Inst(cfg, f.id);
             ((CondBranch(Decode(i)) || JumpReg(Decode(i))) && rs == Rs1(i)) || (CondBranch(Decode(i)) && rs == Rs2(i))
    ensures IdCmp(cfg, p, rs) == f.id.regs[rs]
  {
    hide Decode, ImmGen, AluResult, ReadData, MemNext, UartNext, Target, Misaligned, DecodeCause, MemWbValue, IdRead,
      WriteValue, Step;
    IdReadFresh(cfg, p, o, f, rs);
    if o.mem {
      StepRegs(cfg, f.mem);
      if Ctrl(cfg, f.mem).regWrite {
        MemForwardsToId(cfg, p, o, f);
      }
    }
    if o.ex {
      StepRegs(cfg, f.ex);
    }
  }

  // ---------- one clock edge, slot by slot

  /** A running pipeline has no halting instruction in WB. */
  lemma RunningIsLive(cfg: Config, p: PState, o: Occupancy, f: Flight)
    requires Inv(cfg, p, o, f) && !Halted(p)
    ensures LiveMem(cfg, o, f)
  {}

  lemma MemToWb(cfg: Config, p: PState, o: Occupancy, f: Flight)
    requires Inv(cfg, p, o, f) && !Halted(p)
    ensures if o.mem then WbHolds(cfg, f.mem, AccessedIn(cfg, p), MemHc(cfg, p))
            else NoEffect(p.exmem.ctrl, p.exmem.rd) && MemHc(cfg, p) == NONE
    ensures TohostWe(cfg, p) <==> o.mem && Cause(cfg, f.mem) == TOHOST
    ensures TohostWe(cfg, p) ==> p.exmem.rs2Val == Src2(cfg, f.mem)
  {
    hide Decode, ImmGen, AluResult, ReadData, MemNext, UartNext, Target, DecodeCause, RegWrite, Step;
    RunningIsLive(cfg, p, o, f);
    DecodeWellFormed(Inst(cfg, f.mem));
  }

  lemma MemCommits(cfg: Config, p: PState, o: Occupancy, f: Flight)
    requires Inv(cfg, p, o, f) && !Halted(p)
    ensures Tick(cfg, p).mem == f.ex.mem && Tick(cfg, p).uart == f.ex.uart
  {
    hide Decode, ImmGen, AluResult, ReadData, NextWord, WordIndex, Target, DecodeCause, RegWrite, MemHc, NextPcIn,
      Redirect, Stall, FetchedIn, DecodedIn, ExecutedIn, AccessedIn, WbData, WriteValue;
    RunningIsLive(cfg, p, o, f);
    DecodeWellFormed(Inst(cfg, f.mem));
  }

  lemma ExToMem(cfg: Config, p: PState, o: Occupancy, f: Flight)
    requires Inv(cfg, p, o, f) && LiveEx(cfg, o, f) && o.ex && !Halted(p)
    ensures MemHolds(cfg, f.ex, ExecutedIn(p), p.exHc)
  {
    hide Decode, ImmGen, AluResult, ReadData, MemNext, UartNext, Target, Misaligned, DecodeCause, ReadsRs1, ReadsRs2,
      Step, Cause, Forwarded, RegWrite;
    var i := Inst(cfg, f.ex);
    if ReadsRs1(i) {
      ExOperandFresh(cfg, p, o, f, Rs1(i));
    }
    if ReadsRs2(i) {
      ExOperandFresh(cfg, p, o, f, Rs2(i));
    }
    DecodeWellFormed(i);
    HazardTableSound(i, f.ex.pc, ExRs1(p), Src1(cfg, f.ex), ExRs2(p), Src2(cfg, f.ex));
  }

  lemma IdToEx(cfg: Config, p: PState, o: Occupancy, f: Flight)
    requires Inv(cfg, p, o, f) && LiveId(cfg, o, f) && o.id && !Halted(p) && !Stall(p)
    ensures ExHolds(cfg, f.id, DecodedIn(p), DecodeCause(p.ifid.inst), Tick(cfg, p).regs)
    ensures !LoadUse(p.idex.ctrl.memRead, p.idex.rd, Inst(cfg, f.id))
  {
    hide Decode, ImmGen, AluResult, ReadData, MemNext, UartNext, Target, Misaligned, DecodeCause, Step, Cause,
      NextPcIn, MemHc, Redirect, FetchedIn, ExecutedIn, AccessedIn, LoadUse, BranchOperand, IdRead, WbData;
    var i := Inst(cfg, f.id);
    IdReadFresh(cfg, p, o, f, Rs1(i));
    IdReadFresh(cfg, p, o, f, Rs2(i));
  }

  /** The decode stage redirects exactly when the reference transfers control, and
      to the same place. */
  lemma IdResolves(cfg: Config, p: PState, o: Occupancy, f: Flight)
    requires Inv(cfg, p, o, f) && LiveId(cfg, o, f) && o.id && !Halted(p) && !Stall(p)
    ensures Redirect(cfg, p) == Taken(cfg, f.id)
    ensures Taken(cfg, f.id) ==> IdTarget(cfg, p) == NextPc(cfg, f.id)
  {
    hide Decode, ImmGen, AluResult, ReadData, MemNext, UartNext, Misaligned, DecodeCause, Step, Cause, IdCmp,
      ReadsRs1, ReadsRs2;
    var i := Inst(cfg, f.id);
    var c := Decode(i);
    if CondBranch(c) || JumpReg(c) {
      IdOperandFresh(cfg, p, o, f, Rs1(i));
    }
    if CondBranch(c) {
      IdOperandFresh(cfg, p, o, f, Rs2(i));
    }
    DecodeWellFormed(i);
  }

  /** A bubble in ID neither stalls nor redirects. */
  lemma BubbleIdle(cfg: Config, p: PState)
    requires p.ifid.inst == NOP_INST
    ensures !Stall(p) && !Redirect(cfg, p)
  {
    NopDecodes();
  }

  lemma StallWaits(cfg: Config, p: PState)
    ensures Stall(p) ==> !Redirect(cfg, p)
  {}

  /** The next cycle's states before the instruction in each slot. */
  function FlightNext(cfg: Config, p: PState, o: Occupancy, f: Flight): Flight {
    FlightFrom(cfg, OccNext(cfg, p, o), if Halted(p) then f.wb else f.mem)
  }

  lemma FlightNextShifts(cfg: Config, p: PState, o: Occupancy, f: Flight)
    requires f == FlightFrom(cfg, o, f.wb) && !Halted(p)
    ensures FlightNext(cfg, p, o, f) == Flight(f.mem, f.ex, f.id, Advance(cfg, !Stall(p) && o.id, f.id))
  {
    hide Step, Stall, Redirect;
  }

  lemma BackEndKept(cfg: Config, p: PState, o: Occupancy, f: Flight)
    requires Inv(cfg, p, o, f) && !Halted(p)
    ensures var q, o', f' := Tick(cfg, p), OccNext(cfg, p, o), FlightNext(cfg, p, o, f);
            && q.regs == f'.wb.regs && q.mem == f'.mem.mem && q.uart == f'.mem.uart
            && q.tohostValue == (if o'.wb && Cause(cfg, f'.wb) == TOHOST then Src2(cfg, f'.wb) else 0)
            && (q.haltedQ ==> q.wbHc != NONE)
            && (if o'.wb then WbHolds(cfg, f'.wb, q.memwb, q.wbHc) else NoEffect(q.memwb.ctrl, q.memwb.rd) && q.wbHc == NONE)
            && (LiveMem(cfg, o', f') ==>
                  if o'.mem then MemHolds(cfg, f'.mem, q.exmem, q.memHc)
                  else NoEffect(q.exmem.ctrl, q.exmem.rd) && q.memHc == NONE)
  {
    hide Decode, ImmGen, AluResult, ReadData, MemNext, UartNext, Target, Misaligned, DecodeCause, Step, Cause,
      FlightNext,
      NextPcIn, MemHc, Redirect, Stall, FetchedIn, DecodedIn, WbData, RegWrite, WriteValue, Forwarded, TohostWe, Src2;
    FlightNextShifts(cfg, p, o, f);
    RunningIsLive(cfg, p, o, f);
    IdReadFresh(cfg, p, o, f, 0);
    MemToWb(cfg, p, o, f);
    MemCommits(cfg, p, o, f);
    if o.ex && LiveEx(cfg, o, f) {
      ExToMem(cfg, p, o, f);
    }
  }

  lemma ExKept(cfg: Config, p: PState, o: Occupancy, f: Flight)
    requires Inv(cfg, p, o, f) && !Halted(p)
    ensures var q, o', f' := Tick(cfg, p), OccNext(cfg, p, o), FlightNext(cfg, p, o, f);
            LiveEx(cfg, o', f') ==>
              if o'.ex then
                && ExHolds(cfg, f'.ex, q.idex, q.exHc, q.regs)
                && !LoadUse(q.exmem.ctrl.memRead, q.exmem.rd, Inst(cfg, f'.ex))
              else NoEffect(q.idex.ctrl, q.idex.rd) && q.exHc == NONE
  {
    hide Decode, ImmGen, AluResult, ReadData, MemNext, UartNext, Target, Misaligned, DecodeCause, Cause, FlightNext,
      MemHc, Redirect, Stall, WbData, RegWrite, WriteValue, TohostWe, Src2, IdTarget, LoadUse, Taken, ExHolds,
      FlightFrom, NextPcIn, FetchedIn, ExAluY, ExRs2, MemRdata, Step;
    FlightNextShifts(cfg, p, o, f);
    RunningIsLive(cfg, p, o, f);
    NopDecodes();
    if LiveId(cfg, o, f) && o.id && !Stall(p) {
      IdToEx(cfg, p, o, f);
    }
  }

  lemma IdKept(cfg: Config, p: PState, o: Occupancy, f: Flight)
    requires Inv(cfg, p, o, f) && !Halted(p)
    ensures var q, o', f' := Tick(cfg, p), OccNext(cfg, p, o), FlightNext(cfg, p, o, f);
            LiveId(cfg, o', f') ==>
              if o'.id then IdHolds(cfg, f'.id, q.ifid) && q.pc == U32(f'.id.pc + 4)
              else q.ifid.inst == NOP_INST && q.pc == f'.id.pc
  {
    hide Step, Decode, ImmGen, AluResult, ReadData, MemNext, UartNext, Target, Misaligned, DecodeCause, Cause,
      FlightNext,
      MemHc, Redirect, Stall, WbData, RegWrite, WriteValue, TohostWe, Src2, IdTarget, LoadUse, Taken, ExHolds,
      FlightFrom, ExAluY, ExRs2, MemRdata, DecodedIn, ExecutedIn, AccessedIn, MemHolds, WbHolds;
    FlightNextShifts(cfg, p, o, f);
    RunningIsLive(cfg, p, o, f);
    StallWaits(cfg, p);
    if LiveId(cfg, o, f) {
      if !o.id {
        BubbleIdle(cfg, p);
      } else if !Stall(p) {
        IdResolves(cfg, p, o, f);
        if Cause(cfg, f.id) == NONE {
          StepPc(cfg, f.id);
        }
      }
    }
  }

  /** Once halted, nothing committed moves and nothing younger is ever live. */
  lemma HaltedKept(cfg: Config, p: PState, o: Occupancy, f: Flight)
    requires Inv(cfg, p, o, f) && Halted(p)
    ensures Inv(cfg, Tick(cfg, p), OccNext(cfg, p, o), FlightNext(cfg, p, o, f))
    ensures OccNext(cfg, p, o).wb && OccNext(cfg, p, o).retired == o.retired
  {
    hide Decode, ImmGen, AluResult, ReadData, Target, Misaligned, DecodeCause, Cause, MemHc, Redirect, Stall, WbData,
      WriteValue, Src2, IdTarget, LoadUse, Step, NextPcIn, FetchedIn, DecodedIn, ExecutedIn, AccessedIn;
  }

  lemma TickKeepsInv(cfg: Config, p: PState, o: Occupancy, f: Flight)
    requires Inv(cfg, p, o, f)
    ensures Inv(cfg, Tick(cfg, p), OccNext(cfg, p, o), FlightNext(cfg, p, o, f))
  {
    hide Tick, OccNext, Step, WbHolds, MemHolds, ExHolds, IdHolds, LoadUse, NoEffect, Cause, Src2, Inst;
    if Halted(p) {
      HaltedKept(cfg, p, o, f);
    } else {
      BackEndKept(cfg, p, o, f);
      ExKept(cfg, p, o, f);
      IdKept(cfg, p, o, f);
    }
  }
}
