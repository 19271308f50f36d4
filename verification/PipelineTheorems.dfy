/** Whole runs of the pipeline from reset, for every program and every initial
    data memory: refinement, precise halt, and the exact schedule. */
module PipelineTheorems {
  import opened Words
  import opened RiscvPkg
  import opened Decoder
  import opened Datapath
  import opened DataMemory
  import opened PipelineRegs
  import opened Reference
  import opened TopPipeline
  import opened PipelineInvariant

  /** The reference state before instruction `k`. */
  function Ref(cfg: Config, data: Ram, k: nat): Arch {
    Run(cfg, Start(cfg, data), k)
  }

  function FlightAt(cfg: Config, data: Ram, t: nat): Flight {
    var o := OccAt(cfg, data, t);
    FlightFrom(cfg, o, Ref(cfg, data, o.retired))
  }

  function Count(b: bool): nat {
    if b then 1 else 0
  }

  /** The run index of the instruction in each slot, or of the next to reach it. */
  function MemIndex(o: Occupancy): nat { o.retired + Count(o.wb) }
  function ExIndex(o: Occupancy): nat { MemIndex(o) + Count(o.mem) }
  function IdIndex(o: Occupancy): nat { ExIndex(o) + Count(o.ex) }

  lemma FlightIsRun(cfg: Config, data: Ram, t: nat)
    ensures var o, f := OccAt(cfg, data, t), FlightAt(cfg, data, t);
            && f.wb == Ref(cfg, data, o.retired)
            && f.mem == Ref(cfg, data, MemIndex(o))
            && f.ex == Ref(cfg, data, ExIndex(o))
            && f.id == Ref(cfg, data, IdIndex(o))
  {
    hide Step, OccAt, Start;
  }

  lemma {:induction false} Reachable(cfg: Config, data: Ram, t: nat)
    ensures Inv(cfg, At(cfg, data, t), OccAt(cfg, data, t), FlightAt(cfg, data, t))
    ensures Live(cfg, Start(cfg, data), OccAt(cfg, data, t).retired)
  {
    hide Inv, Tick, Step, Start, Cause, OccNext, FlightAt, Live;
    if t == 0 {
      ResetHolds(cfg, data);
      LiveNone(cfg, Start(cfg, data));
    } else {
      Reachable(cfg, data, t - 1);
      var p, o, f := At(cfg, data, t - 1), OccAt(cfg, data, t - 1), FlightAt(cfg, data, t - 1);
      TickKeepsInv(cfg, p, o, f);
      NextFlight(cfg, data, t - 1);
      RetiredIsLive(cfg, p, o, f);
      FlightIsRun(cfg, data, t - 1);
      LiveNext(cfg, Start(cfg, data), o.retired);
    }
  }

  lemma LiveNone(cfg: Config, s: Arch)
    ensures Live(cfg, s, 0)
  {}

  lemma ResetHolds(cfg: Config, data: Ram)
    ensures Inv(cfg, At(cfg, data, 0), OccAt(cfg, data, 0), FlightAt(cfg, data, 0))
  {
    hide Decode, ImmGen, AluResult;
  }

  lemma RetiredIsLive(cfg: Config, p: PState, o: Occupancy, f: Flight)
    requires Inv(cfg, p, o, f)
    ensures Halted(p) ==> o.wb && Cause(cfg, f.wb) != NONE && p.wbHc == Cause(cfg, f.wb)
    ensures !Halted(p) && o.wb ==> Cause(cfg, f.wb) == NONE
  {
    hide Cause, MemHolds, ExHolds, IdHolds, FlightFrom;
  }

  lemma NextFlight(cfg: Config, data: Ram, t: nat)
    requires Inv(cfg, At(cfg, data, t), OccAt(cfg, data, t), FlightAt(cfg, data, t))
    ensures var p, o, f := At(cfg, data, t), OccAt(cfg, data, t), FlightAt(cfg, data, t);
            && OccAt(cfg, data, t + 1) == OccNext(cfg, p, o)
            && FlightAt(cfg, data, t + 1) == FlightNext(cfg, p, o, f)
            && OccAt(cfg, data, t + 1).retired == o.retired + Count(!Halted(p) && o.wb)
  {
    hide Inv, Step, Start, At, Redirect, Stall, Cause, FlightFrom;
    var p, o, f := At(cfg, data, t), OccAt(cfg, data, t), FlightAt(cfg, data, t);
    assert f.wb == Ref(cfg, data, o.retired) && f.mem == Ref(cfg, data, MemIndex(o)) by {
      FlightIsRun(cfg, data, t);
    }
    RetiredIsLive(cfg, p, o, f);
  }

  // ---------- refinement

  /** In every cycle the register file is the reference run after exactly the
      retired instructions, and data memory and the UART after those plus the one
      in WB; none of the retired instructions halts. */
  lemma PipelineRefines(cfg: Config, data: Ram, t: nat)
    ensures var p, o := At(cfg, data, t), OccAt(cfg, data, t);
            && p.regs == Ref(cfg, data, o.retired).regs
            && p.mem == Ref(cfg, data, MemIndex(o)).mem
            && p.uart == Ref(cfg, data, MemIndex(o)).uart
            && Live(cfg, Start(cfg, data), o.retired)
  {
    Reachable(cfg, data, t);
    FlightIsRun(cfg, data, t);
    hide MemHolds, WbHolds, ExHolds, IdHolds, Cause, At, OccAt, Live, Step;
  }

  /** A live instruction in EX sees the program-order value of every register it
      reads, and so does an unstalled branch or JALR in ID. */
  lemma OperandsFresh(cfg: Config, data: Ram, t: nat, rs: regidx)
    requires !Halted(At(cfg, data, t))
    ensures var p, o := At(cfg, data, t), OccAt(cfg, data, t);
            var a := Ref(cfg, data, ExIndex(o));
            o.ex && Live(cfg, Start(cfg, data), ExIndex(o)) ==>
              && p.idex.ctrl == Ctrl(cfg, a)
              && (ReadsRs1(Inst(cfg, a)) ==> ExRs1(p) == Src1(cfg, a))
              && (ReadsRs2(Inst(cfg, a)) ==> ExRs2(p) == Src2(cfg, a))
    ensures var p, o := At(cfg, data, t), OccAt(cfg, data, t);
            var a := Ref(cfg, data, IdIndex(o));
            o.id && Live(cfg, Start(cfg, data), IdIndex(o)) && !Stall(p) ==>
              && p.ifid.inst == Inst(cfg, a)
              && (CondBranch(Ctrl(cfg, a)) || JumpReg(Ctrl(cfg, a)) ==>
                    IdCmp(cfg, p, Rs1(p.ifid.inst)) == Src1(cfg, a))
              && (CondBranch(Ctrl(cfg, a)) ==> IdCmp(cfg, p, Rs2(p.ifid.inst)) == Src2(cfg, a))
              && Redirect(cfg, p) == Taken(cfg, a)
  {
    hide Live, At, OccAt, Decode, Stall, Redirect, IdCmp, Forwarded, Cause, Step, ReadsRs1, ReadsRs2, Taken, WbHolds,
      MemHolds,
      FlightAt, LoadUse;
    Reachable(cfg, data, t);
    FlightIsRun(cfg, data, t);
    var p, o, f := At(cfg, data, t), OccAt(cfg, data, t), FlightAt(cfg, data, t);
    if o.ex && Live(cfg, Start(cfg, data), ExIndex(o)) {
      LiveSlots(cfg, data, t);
      var i := Inst(cfg, f.ex);
      if ReadsRs1(i) {
        ExOperandFresh(cfg, p, o, f, Rs1(i));
      }
      if ReadsRs2(i) {
        ExOperandFresh(cfg, p, o, f, Rs2(i));
      }
    }
    if o.id && Live(cfg, Start(cfg, data), IdIndex(o)) && !Stall(p) {
      LiveSlots(cfg, data, t);
      IdResolves(cfg, p, o, f);
      var i := Inst(cfg, f.id);
      if CondBranch(Decode(i)) || JumpReg(Decode(i)) {
        IdOperandFresh(cfg, p, o, f, Rs1(i));
      }
      if CondBranch(Decode(i)) {
        IdOperandFresh(cfg, p, o, f, Rs2(i));
      }
    }
  }

  /** A slot is live exactly when no instruction of the run before it halts. */
  lemma LiveSlots(cfg: Config, data: Ram, t: nat)
    ensures var o, f, s := OccAt(cfg, data, t), FlightAt(cfg, data, t), Start(cfg, data);
            && (LiveMem(cfg, o, f) <==> Live(cfg, s, MemIndex(o)))
            && (LiveEx(cfg, o, f) <==> Live(cfg, s, ExIndex(o)))
            && (LiveId(cfg, o, f) <==> Live(cfg, s, IdIndex(o)))
  {
    Reachable(cfg, data, t);
    FlightIsRun(cfg, data, t);
    hide Inv, Cause, Step, Start, At, OccAt, FlightAt, Run;
    var o, s := OccAt(cfg, data, t), Start(cfg, data);
    LiveNext(cfg, s, o.retired);
    LiveNext(cfg, s, MemIndex(o));
    LiveNext(cfg, s, ExIndex(o));
  }

  lemma LiveNext(cfg: Config, s: Arch, k: nat)
    ensures Live(cfg, s, k + 1) <==> Live(cfg, s, k) && Cause(cfg, Run(cfg, s, k)) == NONE
  {
    hide Cause, Run;
  }

  // ---------- the schedule

  // The dependencies of an instruction word, from the opcode table of the RISC-V
  // Unprivileged ISA Specification, chapter 24.

  predicate IsLoad(inst: word) {
    Opcode(inst) == 0x03 && Funct3(inst) in {0, 1, 2, 4, 5}
  }

  predicate WritesRd(inst: word) {
    IsLoad(inst) || Opcode(inst) in {0x37, 0x17, 0x6F, 0x67, 0x13, 0x33}
  }

  /** The registers an instruction reads. */
  function Sources(inst: word): set<regidx> {
    if Opcode(inst) in {0x33, 0x23, 0x63} then {Rs1(inst), Rs2(inst)}
    else if Opcode(inst) in {0x13, 0x03, 0x67} then {Rs1(inst)}
    else {}
  }

  /** The registers an instruction needs already in decode: a branch compares two and
      JALR adds to one. */
  function DecodeSources(inst: word): set<regidx> {
    if Opcode(inst) == 0x63 && Funct3(inst) !in {2, 3} then {Rs1(inst), Rs2(inst)}
    else if Opcode(inst) == 0x67 then {Rs1(inst)}
    else {}
  }

  /** The stall an instruction takes behind the one just ahead of it: it reads what a
      load is fetching, or needs in decode what is still being computed. */
  predicate StallPair(prev: word, cur: word) {
    var d := Rd(prev);
    d != 0 && ((IsLoad(prev) && d in Sources(cur)) || (WritesRd(prev) && d in DecodeSources(cur)))
  }

  /** The hazard unit and the branch stall look for exactly those dependencies, on
      every word, whatever is in EX. */
  lemma HazardsAreSources(load: bool, writes: bool, d: regidx, cur: word)
    ensures LoadUse(load, d, cur) <==> load && d != 0 && d in Sources(cur)
    ensures BranchOperand(writes, d, cur) <==> writes && d != 0 && d in DecodeSources(cur)
  {
    hide Slice;
  }

  lemma DecodedWrites(inst: word)
    ensures Decode(inst).memRead <==> IsLoad(inst)
    ensures Decode(inst).regWrite <==> WritesRd(inst)
  {
    hide Slice;
  }

  predicate TakenAt(cfg: Config, data: Ram, k: nat) {
    Taken(cfg, Ref(cfg, data, k))
  }

  /** Instruction `k` waits one cycle: the flush behind a taken transfer already
      separates it from its predecessor. */
  predicate StallsAt(cfg: Config, data: Ram, k: nat) {
    k > 0 && !TakenAt(cfg, data, k - 1)
    && StallPair(Inst(cfg, Ref(cfg, data, k - 1)), Inst(cfg, Ref(cfg, data, k)))
  }

  /** The last cycle instruction `k` spends in ID. */
  function LeavesId(cfg: Config, data: Ram, k: nat): nat {
    if k == 0 then 1
    else LeavesId(cfg, data, k - 1) + 1 + Count(TakenAt(cfg, data, k - 1)) + Count(StallsAt(cfg, data, k))
  }

  function TakenBefore(cfg: Config, data: Ram, k: nat): nat {
    if k == 0 then 0 else TakenBefore(cfg, data, k - 1) + Count(TakenAt(cfg, data, k - 1))
  }

  function StallsThrough(cfg: Config, data: Ram, k: nat): nat {
    if k == 0 then 0 else StallsThrough(cfg, data, k - 1) + Count(StallsAt(cfg, data, k))
  }

  /** Neighbours leave ID one or two cycles apart, never three: an instruction does
      not stall behind a taken transfer. */
  lemma LeavesGap(cfg: Config, data: Ram, k: nat)
    ensures 1 <= LeavesId(cfg, data, k + 1) - LeavesId(cfg, data, k) <= 2
  {
    hide TakenAt, StallPair, Inst, Run, Start;
  }

  lemma {:induction false} ScheduleClosedForm(cfg: Config, data: Ram, k: nat)
    ensures LeavesId(cfg, data, k) == 1 + k + TakenBefore(cfg, data, k) + StallsThrough(cfg, data, k)
    ensures LeavesId(cfg, data, k) <= 1 + 2 * k
  {
    hide TakenAt, StallsAt;
    if k > 0 {
      ScheduleClosedForm(cfg, data, k - 1);
      LeavesGap(cfg, data, k - 1);
    }
  }

  lemma {:induction false} LeavesInOrder(cfg: Config, data: Ram, j: nat, k: nat)
    requires j < k
    ensures LeavesId(cfg, data, j) < LeavesId(cfg, data, k)
    decreases k
  {
    hide TakenAt, StallsAt;
    if j < k - 1 {
      LeavesInOrder(cfg, data, j, k - 1);
    }
  }

  /** Where each slot's instruction is in its schedule. */
  ghost predicate OnTime(cfg: Config, data: Ram, t: nat) {
    var o, f := OccAt(cfg, data, t), FlightAt(cfg, data, t);
    && (o.retired > 0 ==> t > LeavesId(cfg, data, o.retired - 1) + 3)
    && (o.wb ==> t == LeavesId(cfg, data, o.retired) + 3)
    && (o.mem && LiveMem(cfg, o, f) ==> t == LeavesId(cfg, data, MemIndex(o)) + 2)
    && (o.ex && LiveEx(cfg, o, f) ==> t == LeavesId(cfg, data, ExIndex(o)) + 1)
    && (LiveId(cfg, o, f) ==> IdSlotOnTime(cfg, data, t, o, f))
  }

  ghost predicate IdSlotOnTime(cfg: Config, data: Ram, t: nat, o: Occupancy, f: Flight) {
    && (o.id && o.ex ==> !Taken(cfg, f.ex))
    && (o.id && !o.ex ==> t == LeavesId(cfg, data, IdIndex(o)))
    && (!o.id ==> t + 1 == LeavesId(cfg, data, IdIndex(o)))
  }

  /** A stall in the pipeline is the stall of the pair of neighbours in the run. */
  lemma StallIsPair(cfg: Config, p: PState, o: Occupancy, f: Flight)
    requires Inv(cfg, p, o, f) && LiveId(cfg, o, f) && o.id
    ensures Stall(p) <==> o.ex && StallPair(Inst(cfg, f.ex), Inst(cfg, f.id))
  {
    hide Decode, ReadsRs1, ReadsRs2, CondBranch, JumpReg, IsLoad, WritesRd, Sources, DecodeSources, Cause, WbHolds,
      MemHolds;
    var prev, cur := Inst(cfg, f.ex), Inst(cfg, f.id);
    HazardsAreSources(Decode(prev).memRead, Decode(prev).regWrite, Rd(prev), cur);
    DecodedWrites(prev);
  }

  lemma BackEndOnTime(cfg: Config, data: Ram, t: nat)
    requires OnTime(cfg, data, t) && !Halted(At(cfg, data, t))
    ensures var o', f' := OccAt(cfg, data, t + 1), FlightAt(cfg, data, t + 1);
            && (o'.retired > 0 ==> t + 1 > LeavesId(cfg, data, o'.retired - 1) + 3)
            && (o'.wb ==> t + 1 == LeavesId(cfg, data, o'.retired) + 3)
            && (o'.mem && LiveMem(cfg, o', f') ==> t + 1 == LeavesId(cfg, data, MemIndex(o')) + 2)
  {
    hide Inv, Cause, Step, Start, At, Redirect, Stall, LeavesId, Taken, FlightAt, OccAt, FlightNext, FlightFrom,
      Advance;
    var p, o, f := At(cfg, data, t), OccAt(cfg, data, t), FlightAt(cfg, data, t);
    Reachable(cfg, data, t);
    RunningIsLive(cfg, p, o, f);
    FlightNextShifts(cfg, p, o, f) by { InvFlight(cfg, p, o, f); }
    NextFlight(cfg, data, t);
  }

  lemma InvFlight(cfg: Config, p: PState, o: Occupancy, f: Flight)
    requires Inv(cfg, p, o, f)
    ensures f == FlightFrom(cfg, o, f.wb)
  {}

  lemma NextLeaves(cfg: Config, data: Ram, k: nat)
    ensures var a, b := Ref(cfg, data, k), Ref(cfg, data, k + 1);
            LeavesId(cfg, data, k + 1) == LeavesId(cfg, data, k) + 1 +
              if Taken(cfg, a) then 1 else Count(StallPair(Inst(cfg, a), Inst(cfg, b)))
  {
    hide Taken, StallPair, Inst, Run, Start;
  }

  /** An instruction in ID leaves this cycle, or the next one if it stalls. */
  lemma IdOnTime(cfg: Config, data: Ram, t: nat)
    requires OnTime(cfg, data, t)
    requires var o := OccAt(cfg, data, t); LiveId(cfg, o, FlightAt(cfg, data, t)) && o.id
    ensures LeavesId(cfg, data, IdIndex(OccAt(cfg, data, t))) == t + Count(Stall(At(cfg, data, t)))
  {
    hide Inv, Cause, Step, Start, At, Redirect, Stall, Taken, StallPair, FlightAt, OccAt, Run, LeavesId;
    var p, o, f := At(cfg, data, t), OccAt(cfg, data, t), FlightAt(cfg, data, t);
    Reachable(cfg, data, t);
    FlightIsRun(cfg, data, t);
    StallIsPair(cfg, p, o, f);
    if o.ex {
      NextLeaves(cfg, data, ExIndex(o));
    }
  }

  /** A waiting or arriving instruction: the front end held, or ID was a bubble. */
  lemma WaitsOnTime(cfg: Config, data: Ram, t: nat)
    requires OnTime(cfg, data, t) && !Halted(At(cfg, data, t))
    requires !OccAt(cfg, data, t).id || Stall(At(cfg, data, t))
    ensures var o', f' := OccAt(cfg, data, t + 1), FlightAt(cfg, data, t + 1);
            !o'.ex && (LiveId(cfg, o', f') ==> IdSlotOnTime(cfg, data, t + 1, o', f'))
  {
    hide Inv, Cause, Step, Start, At, Redirect, Stall, Taken, StallPair, FlightAt, OccAt, FlightNext, FlightFrom, Run,
      LeavesId, Advance, Halted, Inst, StallsAt, TakenAt;
    var p, o, f := At(cfg, data, t), OccAt(cfg, data, t), FlightAt(cfg, data, t);
    Reachable(cfg, data, t);
    RunningIsLive(cfg, p, o, f);
    FlightNextShifts(cfg, p, o, f) by { InvFlight(cfg, p, o, f); }
    NextFlight(cfg, data, t);
    StallWaits(cfg, p);
    if LiveId(cfg, o, f) {
      if o.id {
        IdOnTime(cfg, data, t);
        StallIsPair(cfg, p, o, f);
      } else {
        BubbleIdle(cfg, p) by { InvBubble(cfg, p, o, f); }
      }
    }
  }

  /** An instruction leaving ID moves every slot on by one. */
  lemma FlowShifts(cfg: Config, data: Ram, t: nat)
    requires !Halted(At(cfg, data, t)) && OccAt(cfg, data, t).id && !Stall(At(cfg, data, t))
    ensures var p, o, f := At(cfg, data, t), OccAt(cfg, data, t), FlightAt(cfg, data, t);
            var o', f' := OccAt(cfg, data, t + 1), FlightAt(cfg, data, t + 1);
            && Inv(cfg, p, o, f)
            && o' == Occupancy(!Redirect(cfg, p), true, o.ex, o.mem, o.retired + Count(o.wb))
            && f'.wb == f.mem && f'.mem == f.ex && f'.ex == f.id
            && (LiveEx(cfg, o', f') <==> LiveId(cfg, o, f))
            && ExIndex(o') == IdIndex(o) && IdIndex(o') == IdIndex(o) + 1
  {
    hide Inv, Cause, Step, Start, At, Redirect, Stall, FlightAt, OccAt, FlightNext, FlightFrom, Run, Advance, Halted;
    var p, o, f := At(cfg, data, t), OccAt(cfg, data, t), FlightAt(cfg, data, t);
    Reachable(cfg, data, t);
    RunningIsLive(cfg, p, o, f);
    FlightNextShifts(cfg, p, o, f) by { InvFlight(cfg, p, o, f); }
    NextFlight(cfg, data, t);
    RunningEn(cfg, p, o);
  }

  lemma RunningEn(cfg: Config, p: PState, o: Occupancy)
    requires !Halted(p) && !Stall(p) && o.id
    ensures OccNext(cfg, p, o) == Occupancy(!Redirect(cfg, p), true, o.ex, o.mem, o.retired + Count(o.wb))
  {
    hide Halted, Stall, Redirect;
  }

  /** An instruction leaving ID, and the one fetched or flushed behind it. */
  lemma FlowsOnTime(cfg: Config, data: Ram, t: nat)
    requires OnTime(cfg, data, t) && !Halted(At(cfg, data, t))
    requires OccAt(cfg, data, t).id && !Stall(At(cfg, data, t))
    ensures var o', f' := OccAt(cfg, data, t + 1), FlightAt(cfg, data, t + 1);
            && (LiveEx(cfg, o', f') ==> t == LeavesId(cfg, data, ExIndex(o')))
            && (LiveId(cfg, o', f') ==> IdSlotOnTime(cfg, data, t + 1, o', f'))
  {
    hide Inv, OnTime, Cause, Step, Start, At, Redirect, Stall, Taken, StallPair, FlightAt, OccAt, Run, LeavesId,
      Halted, Inst,
      LiveEx, ExIndex, IdIndex;
    var p, o, f := At(cfg, data, t), OccAt(cfg, data, t), FlightAt(cfg, data, t);
    FlowShifts(cfg, data, t);
    if LiveId(cfg, o, f) {
      IdOnTime(cfg, data, t);
      IdResolves(cfg, p, o, f);
      FlightIsRun(cfg, data, t);
      NextLeaves(cfg, data, IdIndex(o));
    }
  }

  lemma InvBubble(cfg: Config, p: PState, o: Occupancy, f: Flight)
    requires Inv(cfg, p, o, f) && LiveId(cfg, o, f) && !o.id
    ensures p.ifid.inst == NOP_INST
  {}

  // ---------- halting

  /** Everything an observer of a stopped core can read. */
  predicate SameCommitted(p: PState, q: PState) {
    && p.regs == q.regs && p.mem == q.mem && p.uart == q.uart
    && p.wbHc == q.wbHc && p.tohostValue == q.tohostValue
  }

  lemma HaltedStep(cfg: Config, data: Ram, t: nat)
    requires Halted(At(cfg, data, t))
    ensures Halted(At(cfg, data, t + 1))
    ensures SameCommitted(At(cfg, data, t), At(cfg, data, t + 1))
    ensures OccAt(cfg, data, t + 1).retired == OccAt(cfg, data, t).retired
  {
    hide Redirect, Stall, NextPcIn, FetchedIn, DecodedIn, ExecutedIn, AccessedIn, MemHc, DecodeCause;
    assert At(cfg, data, t + 1) == Tick(cfg, At(cfg, data, t));
  }

  lemma {:induction false} HaltedForever(cfg: Config, data: Ram, t: nat, u: nat)
    requires Halted(At(cfg, data, t)) && t <= u
    ensures Halted(At(cfg, data, u))
    ensures SameCommitted(At(cfg, data, t), At(cfg, data, u))
    ensures OccAt(cfg, data, u).retired == OccAt(cfg, data, t).retired
    decreases u
  {
    hide At, OccAt, Halted;
    if t < u {
      HaltedForever(cfg, data, t, u - 1);
      HaltedStep(cfg, data, u - 1);
    }
  }

  /** When the core reports halted, registers, memory, UART, cause and tohost value
      are those of the reference at its first halting instruction, and they never
      change again, whatever younger instructions were in flight. */
  lemma PreciseHalt(cfg: Config, data: Ram, t: nat)
    requires Halted(At(cfg, data, t))
    ensures var p, n := At(cfg, data, t), OccAt(cfg, data, t).retired;
            var a := Ref(cfg, data, n);
            && HaltsAt(cfg, Start(cfg, data), n)
            && p.regs == a.regs && p.mem == a.mem && p.uart == a.uart
            && p.wbHc == Cause(cfg, a)
            && p.tohostValue == (if p.wbHc == TOHOST then Src2(cfg, a) else 0)
    ensures forall u: nat :: t <= u ==> Halted(At(cfg, data, u)) && SameCommitted(At(cfg, data, t), At(cfg, data, u))
  {
    hide At, OccAt, Halted, Live, Start, Run, Cause, Src2;
    Reachable(cfg, data, t);
    FlightIsRun(cfg, data, t);
    var p, o, f := At(cfg, data, t), OccAt(cfg, data, t), FlightAt(cfg, data, t);
    RetiredIsLive(cfg, p, o, f);
    InvFlight(cfg, p, o, f);
    forall u: nat | t <= u
      ensures Halted(At(cfg, data, u)) && SameCommitted(At(cfg, data, t), At(cfg, data, u))
    {
      HaltedForever(cfg, data, t, u);
    }
  }

  // ---------- exact timing

  lemma {:induction false} RunsOnTime(cfg: Config, data: Ram, t: nat)
    requires t > 0 ==> !Halted(At(cfg, data, t - 1))
    ensures OnTime(cfg, data, t)
  {
    hide At, OccAt, FlightAt, Halted, LiveMem, LiveEx, LiveId, LeavesId, Taken, IdSlotOnTime, Stall;
    if t == 0 {
      ResetOnTime(cfg, data);
    } else {
      if t > 1 && Halted(At(cfg, data, t - 2)) {
        HaltedStep(cfg, data, t - 2);
      }
      RunsOnTime(cfg, data, t - 1);
      BackEndOnTime(cfg, data, t - 1);
      if OccAt(cfg, data, t - 1).id && !Stall(At(cfg, data, t - 1)) {
        FlowsOnTime(cfg, data, t - 1);
      } else {
        WaitsOnTime(cfg, data, t - 1);
      }
    }
  }

  lemma ResetOnTime(cfg: Config, data: Ram)
    ensures OnTime(cfg, data, 0)
  {
    hide Cause, FlightAt, Taken, OccAt, LeavesId, LiveId, LiveEx, LiveMem, At;
    FirstOcc(cfg, data);
    FirstLeaves(cfg, data);
  }

  lemma FirstLeaves(cfg: Config, data: Ram)
    ensures LeavesId(cfg, data, 0) == 1
  {}

  /** Up to the halt, the next instruction to retire is not late. */
  lemma NotLate(cfg: Config, data: Ram, t: nat)
    requires t > 0 ==> !Halted(At(cfg, data, t - 1))
    ensures var o := OccAt(cfg, data, t);
            if o.wb then t == LeavesId(cfg, data, o.retired) + 3 else t < LeavesId(cfg, data, o.retired) + 3
  {
    hide At, OccAt, FlightAt, Halted, LeavesId, Taken, Cause;
    RunsOnTime(cfg, data, t);
    var o, f := OccAt(cfg, data, t), FlightAt(cfg, data, t);
    if !o.wb && !o.mem && !o.ex && o.id {
      assert t == LeavesId(cfg, data, IdIndex(o));
    }
  }

  lemma {:induction false} HaltTime(cfg: Config, data: Ram, t: nat)
    requires Halted(At(cfg, data, t))
    ensures t >= LeavesId(cfg, data, OccAt(cfg, data, t).retired) + 3
  {
    hide LeavesId, At, OccAt, Halted, Cause;
    if t > 0 && Halted(At(cfg, data, t - 1)) {
      HaltTime(cfg, data, t - 1);
      HaltedStep(cfg, data, t - 1);
    } else {
      NotLate(cfg, data, t);
      Reachable(cfg, data, t);
      RetiredIsLive(cfg, At(cfg, data, t), OccAt(cfg, data, t), FlightAt(cfg, data, t));
    }
  }

  /** Instruction `k` has retired exactly when its fourth cycle after leaving ID has
      come, for every instruction before the first halting one and every cycle. */
  lemma {:induction false} RetiresOnSchedule(cfg: Config, data: Ram, t: nat, k: nat)
    requires Live(cfg, Start(cfg, data), k + 1)
    ensures k < OccAt(cfg, data, t).retired <==> LeavesId(cfg, data, k) + 3 < t
  {
    hide LeavesId, At, OccAt, Halted, Cause, Live, FlightAt, Run;
    var w := OccAt(cfg, data, t).retired;
    if t > 0 && Halted(At(cfg, data, t - 1)) {
      RetiresOnSchedule(cfg, data, t - 1, k);
      HaltedStep(cfg, data, t - 1);
      PreciseHalt(cfg, data, t - 1);
      FirstHaltAfter(cfg, Start(cfg, data), k, w);
    } else {
      NotLate(cfg, data, t);
      RunsOnTime(cfg, data, t);
      if k < w - 1 {
        LeavesInOrder(cfg, data, k, w - 1);
      } else if w < k {
        LeavesInOrder(cfg, data, w, k);
      }
    }
  }

  lemma FirstHaltAfter(cfg: Config, s: Arch, k: nat, n: nat)
    requires Live(cfg, s, k + 1) && HaltsAt(cfg, s, n)
    ensures k < n
  {
    hide Cause, Run;
  }

  lemma FirstHaltUnique(cfg: Config, s: Arch, m: nat, n: nat)
    requires HaltsAt(cfg, s, m) && HaltsAt(cfg, s, n)
    ensures m == n
  {
    hide Cause, Run;
  }

  /** The exact cycle law. If instruction `n` (counting from 0) is the first to
      halt, then the core is halted from cycle (n + 1) + 3 + taken transfers +
      operand stalls on, and in no earlier cycle. */
  lemma CycleLaw(cfg: Config, data: Ram, n: nat, t: nat)
    requires HaltsAt(cfg, Start(cfg, data), n)
    ensures Halted(At(cfg, data, t)) <==>
            t >= (n + 1) + 3 + TakenBefore(cfg, data, n) + StallsThrough(cfg, data, n)
  {
    hide At, OccAt, LeavesId, Cause, Run, Live;
    ScheduleClosedForm(cfg, data, n);
    if Halted(At(cfg, data, t)) {
      HaltTime(cfg, data, t);
      PreciseHalt(cfg, data, t);
      FirstHaltUnique(cfg, Start(cfg, data), n, OccAt(cfg, data, t).retired);
    } else {
      RunningIsEarly(cfg, data, n, t);
    }
  }

  lemma RunningIsEarly(cfg: Config, data: Ram, n: nat, t: nat)
    requires HaltsAt(cfg, Start(cfg, data), n) && !Halted(At(cfg, data, t))
    ensures t < LeavesId(cfg, data, n) + 3
  {
    hide At, OccAt, LeavesId, Cause, Run, Halted, FlightAt;
    if t > 0 && Halted(At(cfg, data, t - 1)) {
      HaltedStep(cfg, data, t - 1);
    }
    var o := OccAt(cfg, data, t);
    NotLate(cfg, data, t);
    Reachable(cfg, data, t);
    RetiredIsLive(cfg, At(cfg, data, t), o, FlightAt(cfg, data, t));
    FlightIsRun(cfg, data, t);
    if o.retired < n {
      LeavesInOrder(cfg, data, o.retired, n);
    }
  }

  /** A run that never halts never stops the pipeline. */
  lemma NeverHalts(cfg: Config, data: Ram, t: nat)
    requires forall n: nat :: !HaltsAt(cfg, Start(cfg, data), n)
    ensures !Halted(At(cfg, data, t))
  {
    if Halted(At(cfg, data, t)) {
      PreciseHalt(cfg, data, t);
    }
  }

  // ---------- throughput

  /** In any state at all, a stall or a redirect is followed by a cycle that does
      not stall: the flush that either one causes beats every enable. */
  lemma NoStallAfterBubble(cfg: Config, p: PState)
    requires Stall(p) || Redirect(cfg, p)
    ensures !Stall(Tick(cfg, p))
  {
    if Redirect(cfg, p) {
      BubbleIdle(cfg, Tick(cfg, p));
    }
  }

  /** A run whose first halting instruction is the n-th, counting from 1, stops
      within 2n + 2 cycles. */
  lemma Throughput(cfg: Config, data: Ram, n: nat)
    requires n > 0 && HaltsAt(cfg, Start(cfg, data), n - 1)
    ensures Halted(At(cfg, data, 2 * n + 2))
  {
    hide At, TakenAt, StallsAt, HaltsAt;
    ScheduleClosedForm(cfg, data, n - 1);
    CycleLaw(cfg, data, n - 1, 2 * n + 2);
  }

  /** Retirements follow each other by one or two cycles: when an instruction has
      retired, the next has within two cycles more, and never in the same cycle. */
  lemma RetirementGap(cfg: Config, data: Ram, t: nat, k: nat)
    requires Live(cfg, Start(cfg, data), k + 2)
    ensures k < OccAt(cfg, data, t).retired ==> k + 1 < OccAt(cfg, data, t + 2).retired
    ensures k + 1 < OccAt(cfg, data, t + 1).retired ==> k < OccAt(cfg, data, t).retired
  {
    hide OccAt, LeavesId, Live, Start, Cause, Run, At, Halted, Step;
    LiveNext(cfg, Start(cfg, data), k + 1);
    LeavesGap(cfg, data, k);
    RetiresOnSchedule(cfg, data, t, k);
    RetiresOnSchedule(cfg, data, t + 2, k + 1);
    RetiresOnSchedule(cfg, data, t + 1, k + 1);
  }

  // ---------- the correct path

  /** The instructions that have left ID, with their addresses, oldest first. */
  ghost function Issued(cfg: Config, data: Ram, t: nat): seq<(word, word)> {
    if t == 0 then []
    else
      var p, o := At(cfg, data, t - 1), OccAt(cfg, data, t - 1);
      Issued(cfg, data, t - 1) +
      (if o.id && !Halted(p) && !Stall(p) then [(p.ifid.pc, p.ifid.inst)] else [])
  }

  /** The instructions leaving ID are the reference run's own sequence, up to and
      including the first that halts: entry `k` is instruction `k`, present exactly
      from the cycle after its scheduled last one in ID. */
  lemma {:induction false} CorrectPathOnce(cfg: Config, data: Ram, t: nat, k: nat)
    requires Live(cfg, Start(cfg, data), k)
    ensures k < |Issued(cfg, data, t)| <==> LeavesId(cfg, data, k) < t
    ensures k < |Issued(cfg, data, t)| ==>
              var a := Ref(cfg, data, k);
              Issued(cfg, data, t)[k] == (a.pc, Inst(cfg, a))
  {
    hide At, OccAt, Live, LeavesId, Run, Cause, Stall, Halted, FlightAt;
    if t > 0 {
      CorrectPathOnce(cfg, data, t - 1, k);
      var p, o := At(cfg, data, t - 1), OccAt(cfg, data, t - 1);
      if Halted(p) {
        LeftBeforeHalt(cfg, data, t - 1, k);
      } else {
        IssuedLength(cfg, data, t - 1);
        IssuesInstruction(cfg, data, t - 1, k);
      }
    }
  }

  lemma LeftBeforeHalt(cfg: Config, data: Ram, t: nat, k: nat)
    requires Live(cfg, Start(cfg, data), k) && Halted(At(cfg, data, t))
    ensures LeavesId(cfg, data, k) < t
  {
    hide At, OccAt, LeavesId, Run, Cause, Halted;
    HaltTime(cfg, data, t);
    PreciseHalt(cfg, data, t);
    var n := OccAt(cfg, data, t).retired;
    if k < n {
      LeavesInOrder(cfg, data, k, n);
    }
  }

  lemma {:induction false} IssuedLength(cfg: Config, data: Ram, t: nat)
    requires !Halted(At(cfg, data, t))
    ensures |Issued(cfg, data, t)| == IdIndex(OccAt(cfg, data, t))
  {
    hide At, Stall, Redirect, Halted, FlightAt, OccAt;
    if t == 0 {
      FirstOcc(cfg, data);
    } else {
      if Halted(At(cfg, data, t - 1)) {
        HaltedStep(cfg, data, t - 1);
      }
      IssuedLength(cfg, data, t - 1);
      Reachable(cfg, data, t - 1);
      NextFlight(cfg, data, t - 1);
    }
  }

  lemma FirstOcc(cfg: Config, data: Ram)
    ensures OccAt(cfg, data, 0) == Occupancy(false, false, false, false, 0)
  {}

  /** In a running cycle, instruction `k` is the one in ID exactly at its turn. */
  lemma IssuesInstruction(cfg: Config, data: Ram, t: nat, k: nat)
    requires Live(cfg, Start(cfg, data), k) && !Halted(At(cfg, data, t))
    ensures var p, o := At(cfg, data, t), OccAt(cfg, data, t);
            var leaves := o.id && !Stall(p);
            && (k == IdIndex(o) ==> (leaves <==> LeavesId(cfg, data, k) <= t))
            && (k == IdIndex(o) && leaves ==>
                  var a := Ref(cfg, data, k); (p.ifid.pc, p.ifid.inst) == (a.pc, Inst(cfg, a)))
            && (k > IdIndex(o) ==> t < LeavesId(cfg, data, k))
  {
    hide At, OccAt, LeavesId, Run, Cause, Halted, FlightAt, Stall, LiveEx, Live, Taken;
    if t > 0 && Halted(At(cfg, data, t - 1)) {
      HaltedStep(cfg, data, t - 1);
    }
    var p, o, f := At(cfg, data, t), OccAt(cfg, data, t), FlightAt(cfg, data, t);
    RunsOnTime(cfg, data, t);
    LiveSlots(cfg, data, t);
    if k >= IdIndex(o) {
      LiveEarlier(cfg, Start(cfg, data), IdIndex(o), k);
      Reachable(cfg, data, t);
      FlightIsRun(cfg, data, t);
      if o.id {
        IdOnTime(cfg, data, t);
        InvId(cfg, p, o, f);
      }
      if k > IdIndex(o) {
        LeavesInOrder(cfg, data, IdIndex(o), k);
      }
    }
  }

  lemma LiveEarlier(cfg: Config, s: Arch, j: nat, k: nat)
    requires j <= k && Live(cfg, s, k)
    ensures Live(cfg, s, j)
  {
    hide Cause, Run;
  }

  lemma InvId(cfg: Config, p: PState, o: Occupancy, f: Flight)
    requires Inv(cfg, p, o, f) && LiveId(cfg, o, f) && o.id
    ensures IdHolds(cfg, f.id, p.ifid)
  {}
}
