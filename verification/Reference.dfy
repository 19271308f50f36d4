/** One-instruction-at-a-time RV32I over separate instruction and data arrays.
    An instruction that halts commits nothing. */
module Reference {
  import opened Words
  import opened RiscvPkg
  import opened Decoder
  import opened Datapath
  import opened DataMemory
  import opened RegFile

  datatype Config = Config(imem: Ram, pcReset: word, devices: DeviceMap)

  datatype Arch = Arch(pc: word, regs: RegBank, mem: Ram, uart: seq<byte>)

  /** instr_memory.sv: the index drops the low two bits and wraps at the depth. */
  function Fetch(imem: Ram, pc: word): word {
    imem[WordIndex(pc, |imem|)]
  }

  function Inst(cfg: Config, a: Arch): word {
    Fetch(cfg.imem, a.pc)
  }

  function Ctrl(cfg: Config, a: Arch): Control {
    Decode(Inst(cfg, a))
  }

  function Src1(cfg: Config, a: Arch): word {
    a.regs[Rs1(Inst(cfg, a))]
  }

  function Src2(cfg: Config, a: Arch): word {
    a.regs[Rs2(Inst(cfg, a))]
  }

  function AluY(cfg: Config, a: Arch): word {
    AluResult(Ctrl(cfg, a), a.pc, ImmGen(Inst(cfg, a)), Src1(cfg, a), Src2(cfg, a))
  }

  function Loaded(cfg: Config, a: Arch): word {
    var c := Ctrl(cfg, a);
    ReadData(cfg.devices, a.mem, AluY(cfg, a), c.memRead, c.memSize, c.memUnsigned)
  }

  function WbMux(src: WbSrc, aluY: word, loaded: word, pc4: word): word {
    match src
    case WB_ALU => aluY
    case WB_MEM => loaded
    case WB_PC4 => pc4
  }

  function WriteValue(cfg: Config, a: Arch): word {
    WbMux(Ctrl(cfg, a).wbSrc, AluY(cfg, a), Loaded(cfg, a), U32(a.pc + 4))
  }

  predicate Taken(cfg: Config, a: Arch) {
    BranchTaken(Ctrl(cfg, a).branchOp, Src1(cfg, a), Src2(cfg, a))
  }

  function NextPc(cfg: Config, a: Arch): word {
    if Taken(cfg, a) then Target(Ctrl(cfg, a), a.pc, ImmGen(Inst(cfg, a)), Src1(cfg, a))
    else U32(a.pc + 4)
  }

  /** The halt priority of top.sv. */
  function Cause(cfg: Config, a: Arch): HaltCause {
    var c := Ctrl(cfg, a);
    var y := AluY(cfg, a);
    if c.illegal then ILLEGAL
    else if Misaligned(cfg.devices, y, c.memRead, c.memWrite, c.memSize) then MISALIGNED
    else if DecodeCause(Inst(cfg, a)) != NONE then DecodeCause(Inst(cfg, a))
    else if c.memWrite && y == cfg.devices.tohost then TOHOST
    else NONE
  }

  function Step(cfg: Config, a: Arch): Arch {
    if Cause(cfg, a) != NONE then a
    else
      var c := Ctrl(cfg, a);
      Arch(NextPc(cfg, a),
           RegWrite(a.regs, c.regWrite, Rd(Inst(cfg, a)), WriteValue(cfg, a)),
           MemNext(cfg.devices, a.mem, AluY(cfg, a), Src2(cfg, a), c.memWrite, c.memSize),
           UartNext(cfg.devices, a.uart, AluY(cfg, a), Src2(cfg, a), c.memWrite))
  }

  function Start(cfg: Config, data: Ram): Arch {
    Arch(cfg.pcReset, ResetRegs(), data, [])
  }

  /** The state before instruction `n` of the run. */
  function Run(cfg: Config, s: Arch, n: nat): Arch
    decreases n
  {
    if n == 0 then s else Step(cfg, Run(cfg, s, n - 1))
  }

  /** No instruction before `n` halts. */
  ghost predicate Live(cfg: Config, s: Arch, n: nat) {
    forall j: nat :: j < n ==> Cause(cfg, Run(cfg, s, j)) == NONE
  }

  /** Instruction `n` is the first that halts. */
  ghost predicate HaltsAt(cfg: Config, s: Arch, n: nat) {
    Live(cfg, s, n) && Cause(cfg, Run(cfg, s, n)) != NONE
  }
}
