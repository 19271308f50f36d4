/** top_pipeline.sv: the five-stage core. The wires are functions of the latched
    state, and one clock edge replaces every register from the old values. */
module TopPipeline {
  import opened Words
  import opened RiscvPkg
  import opened Decoder
  import opened Datapath
  import opened DataMemory
  import opened RegFile
  import opened PipelineRegs
  import opened Reference

  datatype PState = PState(
    pc: word, ifid: IfId, idex: IdEx, exmem: ExMem, memwb: MemWb,
    exHc: HaltCause, memHc: HaltCause, wbHc: HaltCause, haltedQ: bool, tohostValue: word,
    regs: RegBank, mem: Ram, uart: seq<byte>)

  // ---------- WB stage and halt

  predicate Halted(p: PState) {
    p.wbHc != NONE || p.haltedQ
  }

  function WbData(p: PState): word {
    WbMux(p.memwb.ctrl.wbSrc, p.memwb.aluY, p.memwb.memRdata, p.memwb.pc4)
  }

  predicate WbWe(p: PState) {
    p.memwb.ctrl.regWrite && !Halted(p)
  }

  // ---------- MEM stage

  function MemRdata(cfg: Config, p: PState): word {
    var c := p.exmem.ctrl;
    ReadData(cfg.devices, p.mem, p.exmem.aluY, c.memRead, c.memSize, c.memUnsigned)
  }

  predicate MemStore(p: PState) {
    p.exmem.ctrl.memWrite && !Halted(p)
  }

  predicate TohostWe(cfg: Config, p: PState) {
    MemStore(p) && p.exmem.aluY == cfg.devices.tohost
  }

  function MemHc(cfg: Config, p: PState): HaltCause {
    var c := p.exmem.ctrl;
    if Misaligned(cfg.devices, p.exmem.aluY, c.memRead, MemStore(p), c.memSize) then MISALIGNED
    else if TohostWe(cfg, p) then TOHOST
    else p.memHc
  }

  /** What the MEM instruction forwards to EX: a link, or the ALU result. */
  function MemFwdValue(p: PState): word {
    if p.exmem.ctrl.wbSrc == WB_PC4 then p.exmem.pc4 else p.exmem.aluY
  }

  /** What the MEM instruction forwards to ID, loaded data included. */
  function MemWbValue(cfg: Config, p: PState): word {
    WbMux(p.exmem.ctrl.wbSrc, p.exmem.aluY, MemRdata(cfg, p), p.exmem.pc4)
  }

  // ---------- EX stage

  function Forwarded(p: PState, rs: regidx, latched: word): word {
    match Pick(rs, p.exmem.ctrl.regWrite, p.exmem.rd, p.memwb.ctrl.regWrite, p.memwb.rd)
    case FWD_EXMEM => MemFwdValue(p)
    case FWD_MEMWB => WbData(p)
    case FWD_NONE => latched
  }

  function ExRs1(p: PState): word {
    Forwarded(p, p.idex.rs1, p.idex.rs1Val)
  }

  function ExRs2(p: PState): word {
    Forwarded(p, p.idex.rs2, p.idex.rs2Val)
  }

  function ExAluY(p: PState): word {
    AluResult(p.idex.ctrl, p.idex.pc, p.idex.imm, ExRs1(p), ExRs2(p))
  }

  // ---------- ID stage

  function IdRead(p: PState, rs: regidx): word {
    ReadPort(p.regs, true, WbWe(p), p.memwb.rd, WbData(p), rs)
  }

  /** The branch comparator's operand, with the MEM stage forwarded. */
  function IdCmp(cfg: Config, p: PState, rs: regidx): word {
    if p.exmem.ctrl.regWrite && p.exmem.rd != 0 && p.exmem.rd == rs then MemWbValue(cfg, p) else IdRead(p, rs)
  }

  predicate Stall(p: PState) {
    || LoadUse(p.idex.ctrl.memRead, p.idex.rd, p.ifid.inst)
    || BranchOperand(p.idex.ctrl.regWrite, p.idex.rd, p.ifid.inst)
  }

  predicate IdTaken(cfg: Config, p: PState) {
    var i := p.ifid.inst;
    BranchTaken(Decode(i).branchOp, IdCmp(cfg, p, Rs1(i)), IdCmp(cfg, p, Rs2(i)))
  }

  function IdTarget(cfg: Config, p: PState): word {
    var i := p.ifid.inst;
    Target(Decode(i), p.ifid.pc, ImmGen(i), IdCmp(cfg, p, Rs1(i)))
  }

  predicate Redirect(cfg: Config, p: PState) {
    IdTaken(cfg, p) && !Stall(p)
  }

  predicate FrontEn(p: PState) {
    !Halted(p) && !Stall(p)
  }

  // ---------- what each register takes in

  function FetchedIn(cfg: Config, p: PState): IfId {
    IfId(p.pc, U32(p.pc + 4), Fetch(cfg.imem, p.pc))
  }

  function DecodedIn(p: PState): IdEx {
    var i := p.ifid.inst;
    IdEx(Decode(i), p.ifid.pc, p.ifid.pc4, IdRead(p, Rs1(i)), IdRead(p, Rs2(i)), ImmGen(i), Rs1(i), Rs2(i), Rd(i))
  }

  function ExecutedIn(p: PState): ExMem {
    ExMem(p.idex.ctrl, ExAluY(p), ExRs2(p), p.idex.rd, p.idex.pc4)
  }

  function AccessedIn(cfg: Config, p: PState): MemWb {
    MemWb(p.exmem.ctrl, p.exmem.aluY, MemRdata(cfg, p), p.exmem.rd, p.exmem.pc4)
  }

  function NextPcIn(cfg: Config, p: PState): word {
    if Redirect(cfg, p) then IdTarget(cfg, p) else U32(p.pc + 4)
  }

  /** One clock edge. */
  function Tick(cfg: Config, p: PState): PState {
    var en := !Halted(p);
    PState(
      Latched(p.pc, false, FrontEn(p), cfg.pcReset, NextPcIn(cfg, p)),
      Latched(p.ifid, Redirect(cfg, p), FrontEn(p), IF_ID_NOP, FetchedIn(cfg, p)),
      Latched(p.idex, Stall(p), en, ID_EX_BUBBLE, DecodedIn(p)),
      Latched(p.exmem, false, en, EX_MEM_BUBBLE, ExecutedIn(p)),
      Latched(p.memwb, false, en, MEM_WB_BUBBLE, AccessedIn(cfg, p)),
      if en then (if Stall(p) then NONE else DecodeCause(p.ifid.inst)) else p.exHc,
      if en then p.exHc else p.memHc,
      if en then MemHc(cfg, p) else p.wbHc,
      p.haltedQ || Halted(p),
      if TohostWe(cfg, p) && !Halted(p) then p.exmem.rs2Val else p.tohostValue,
      RegWrite(p.regs, WbWe(p), p.memwb.rd, WbData(p)),
      MemNext(cfg.devices, p.mem, p.exmem.aluY, p.exmem.rs2Val, MemStore(p), p.exmem.ctrl.memSize),
      UartNext(cfg.devices, p.uart, p.exmem.aluY, p.exmem.rs2Val, MemStore(p)))
  }

  /** The state after reset, with any contents in data memory. */
  function Reset(cfg: Config, data: Ram): PState {
    PState(cfg.pcReset, IF_ID_NOP, ID_EX_BUBBLE, EX_MEM_BUBBLE, MEM_WB_BUBBLE,
           NONE, NONE, NONE, false, 0, ResetRegs(), data, [])
  }

  /** The state `t` clock edges after reset. */
  function At(cfg: Config, data: Ram, t: nat): PState {
    if t == 0 then Reset(cfg, data) else Tick(cfg, At(cfg, data, t - 1))
  }

  class Core {
    const cfg: Config
    const pcReg: PcRegister
    const ifId: IfIdReg
    const idEx: IdExReg
    const exMem: ExMemReg
    const memWb: MemWbReg
    const regFile: Registers
    const dmem: DataMem
    var exHc: HaltCause
    var memHc: HaltCause
    var wbHc: HaltCause
    var haltedQ: bool
    var tohostValue: word
    var uart: seq<byte>  // what an observer of the UART strobe has seen

    ghost predicate Valid()
      reads this, regFile.xregs, dmem.mem
    {
      && regFile.Valid()
      && dmem.mem.Length > 0
      && regFile.xregs != dmem.mem
      && dmem.devices == cfg.devices
      && pcReg.pcReset == cfg.pcReset
    }

    ghost function State(): PState
      requires Valid()
      reads this, pcReg, ifId, idEx, exMem, memWb, regFile.xregs, dmem.mem
    {
      PState(pcReg.pc, ifId.q, idEx.q, exMem.q, memWb.q, exHc, memHc, wbHc, haltedQ, tohostValue,
             regFile.xregs[..], dmem.mem[..], uart)
    }

    constructor (cfg: Config, data: Ram)
      ensures Valid() && this.cfg == cfg && State() == Reset(cfg, data)
      ensures fresh(pcReg) && fresh(ifId) && fresh(idEx) && fresh(exMem) && fresh(memWb)
      ensures fresh(regFile.xregs) && fresh(dmem.mem)
    {
      this.cfg := cfg;
      pcReg := new PcRegister(cfg.pcReset);
      ifId := new IfIdReg();
      idEx := new IdExReg();
      exMem := new ExMemReg();
      memWb := new MemWbReg();
      regFile := new Registers();
      dmem := new DataMem(cfg.devices, data);
      exHc, memHc, wbHc, haltedQ, tohostValue := NONE, NONE, NONE, false, 0;
      uart := [];
    }

    /** The PC and the four pipeline registers take their inputs. */
    method ClockStages(en: bool, frontEn: bool, stall: bool, redirect: bool, nextPc: word,
                       fetched: IfId, decoded: IdEx, executed: ExMem, accessed: MemWb)
      modifies pcReg, ifId, idEx, exMem, memWb
      ensures pcReg.pc == Latched(old(pcReg.pc), false, frontEn, pcReg.pcReset, nextPc)
      ensures ifId.q == Latched(old(ifId.q), redirect, frontEn, IF_ID_NOP, fetched)
      ensures idEx.q == Latched(old(idEx.q), stall, en, ID_EX_BUBBLE, decoded)
      ensures exMem.q == Latched(old(exMem.q), false, en, EX_MEM_BUBBLE, executed)
      ensures memWb.q == Latched(old(memWb.q), false, en, MEM_WB_BUBBLE, accessed)
    {
      pcReg.Clock(false, frontEn, nextPc);
      ifId.Clock(false, frontEn, redirect, fetched);
      idEx.Clock(false, en, stall, decoded);
      exMem.Clock(false, en, false, executed);
      memWb.Clock(false, en, false, accessed);
    }

    /** The shadow halt causes, the sticky halt flag and the reported value. */
    method ClockHalt(halted: bool, stall: bool, decodeCause: HaltCause, memCause: HaltCause, tohostWe: bool, tohost: word)
      modifies this
      ensures unchanged(`uart)
      ensures exHc == if halted then old(exHc) else if stall then NONE else decodeCause
      ensures memHc == if halted then old(memHc) else old(exHc)
      ensures wbHc == if halted then old(wbHc) else memCause
      ensures haltedQ == (old(haltedQ) || halted)
      ensures tohostValue == if tohostWe && !halted then tohost else old(tohostValue)
    {
      if !halted {
        wbHc := memCause;
        memHc := exHc;
        exHc := if stall then NONE else decodeCause;
      }
      if tohostWe && !halted {
        tohostValue := tohost;
      }
      if halted {
        haltedQ := true;
      }
    }

    /** One clock edge: settle every wire from the old values, then clock every register. */
    method Clock()
      requires Valid()
      modifies this, pcReg, ifId, idEx, exMem, memWb, regFile.xregs, dmem.mem
      ensures Valid()
      ensures State() == Tick(cfg, old(State()))
    {
      hide Halted, WbData, WbWe, FrontEn, Misaligned, MemNext, UartNext, RegWrite, MemStore, Stall, Redirect, MemHc,
        NextPcIn, FetchedIn, DecodedIn, ExecutedIn, AccessedIn, TohostWe, DecodeCause, Latched;
      var p := PState(pcReg.pc, ifId.q, idEx.q, exMem.q, memWb.q, exHc, memHc, wbHc, haltedQ, tohostValue,
                      regFile.xregs[..], dmem.mem[..], uart);
      var halted, stall, redirect := Halted(p), Stall(p), Redirect(cfg, p);
      var store := MemStore(p);
      var tohostWe := TohostWe(cfg, p);
      var memCause := MemHc(cfg, p);
      var fetched, decoded, executed, accessed := FetchedIn(cfg, p), DecodedIn(p), ExecutedIn(p), AccessedIn(cfg, p);
      var nextPc := NextPcIn(cfg, p);

      ClockStages(!halted, FrontEn(p), stall, redirect, nextPc, fetched, decoded, executed, accessed);
      regFile.Clock(false, WbWe(p), p.memwb.rd, WbData(p));
      dmem.Clock(false, p.exmem.aluY, p.exmem.rs2Val, p.exmem.ctrl.memRead, store, p.exmem.ctrl.memSize);
      ClockHalt(halted, stall, DecodeCause(p.ifid.inst), memCause, tohostWe, p.exmem.rs2Val);
      uart := UartNext(cfg.devices, uart, p.exmem.aluY, p.exmem.rs2Val, store);

      ghost var q := Tick(cfg, p);
      assert pcReg.pc == q.pc && ifId.q == q.ifid && idEx.q == q.idex && exMem.q == q.exmem && memWb.q == q.memwb;
      assert exHc == q.exHc && memHc == q.memHc && wbHc == q.wbHc && haltedQ == q.haltedQ;
      assert tohostValue == q.tohostValue && uart == q.uart;
      assert regFile.xregs[..] == q.regs && dmem.mem[..] == q.mem;
    }
  }
}
