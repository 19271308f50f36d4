/** What a program's loads and stores do to memory and the UART, said from the
    architectural registers, one instruction at a time and over whole runs. */
module DeviceIO {
  import opened Words
  import opened RiscvPkg
  import opened Decoder
  import opened DataMemory
  import opened RegFile
  import opened Reference
  import opened Formats
  import opened ByteMemory
  import opened Agreement
  import opened PipelineInvariant
  import opened PipelineTheorems
  import Core = TopPipeline
  import Single = SingleCycle

  predicate IsStore(inst: word) {
    Opcode(inst) == 0x23 && Funct3(inst) in {0, 1, 2}
  }

  function StoreAddr(cfg: Config, a: Arch): word {
    U32(a.regs[Rs1(Inst(cfg, a))] + ImmS(Inst(cfg, a)))
  }

  function LoadAddr(cfg: Config, a: Arch): word {
    U32(a.regs[Rs1(Inst(cfg, a))] + ImmI(Inst(cfg, a)))
  }

  function StoredSize(inst: word): MemSize {
    if Funct3(inst) == 0 then MEM_B else if Funct3(inst) == 1 then MEM_H else MEM_W
  }

  /** The bytes an instruction sends: a store at the UART address, of any width, sends
      the low byte of rs2. */
  function SentBy(cfg: Config, a: Arch): seq<byte> {
    if IsStore(Inst(cfg, a)) && StoreAddr(cfg, a) == cfg.devices.uart then [a.regs[Rs2(Inst(cfg, a))] % 0x100] else []
  }

  /** An instruction fetch, at any PC, reads the word its address selects once wrapped
      to the size of the instruction array. */
  lemma FetchWraps(cfg: Config, a: Arch)
    ensures Inst(cfg, a) == cfg.imem[a.pc % (4 * |cfg.imem|) / 4]
  {
    EffectiveWraps(a.pc, |cfg.imem|);
    var v := WordIndex(a.pc, |cfg.imem|);
    hide WordIndex;
    DivModUnique(4 * v + a.pc % 4, 4, v, a.pc % 4);
  }

  lemma StoresOnly(inst: word)
    ensures Decode(inst).memWrite <==> IsStore(inst)
    ensures IsStore(inst) ==> Decode(inst).memSize == StoredSize(inst) && !Decode(inst).memRead
    ensures IsStore(inst) ==> !Decode(inst).illegal && DecodeCause(inst) == NONE && !Decode(inst).regWrite
  {
    hide Slice;
  }

  lemma StepUart(cfg: Config, a: Arch)
    ensures var c := Ctrl(cfg, a);
            Step(cfg, a).uart ==
            if Cause(cfg, a) != NONE then a.uart
            else UartNext(cfg.devices, a.uart, AluY(cfg, a), Src2(cfg, a), c.memWrite)
  {
    hide Cause, Decode, AluY, Inst, NextPc, WriteValue, MemNext, UartNext;
  }

  /** A UART store never halts. */
  lemma UartCommits(cfg: Config, a: Arch)
    requires IsStore(Inst(cfg, a)) && AluY(cfg, a) == cfg.devices.uart
    ensures Cause(cfg, a) == NONE
  {
    hide Decode, DecodeCause, AluY, Inst, IsStore;
    StoresOnly(Inst(cfg, a));
  }

  /** Every instruction, halting ones included, appends exactly what it sends. */
  lemma StepSends(cfg: Config, a: Arch)
    ensures Step(cfg, a).uart == a.uart + SentBy(cfg, a)
  {
    hide Slice, U32, Decode, AluY, Inst, ImmS, Step, Cause, Opcode, Funct3, IsStore;
    var i := Inst(cfg, a);
    StoresOnly(i);
    StepUart(cfg, a);
    if IsStore(i) {
      StoreIsWide(i);
      StoreAddress(cfg, a);
      if AluY(cfg, a) == cfg.devices.uart {
        UartCommits(cfg, a);
      }
    }
  }

  /** A store that commits writes the low bytes of rs2, little-endian, at its address
      wrapped to the array, and a store at the UART writes no memory; no other
      instruction writes any. */
  lemma StepStores(cfg: Config, a: Arch)
    requires Cause(cfg, a) == NONE
    ensures var i, addr := Inst(cfg, a), StoreAddr(cfg, a);
            if !IsStore(i) || addr == cfg.devices.uart then Step(cfg, a).mem == a.mem
            else
              && addr != cfg.devices.tohost && Aligned(addr, StoredSize(i))
              && var o := addr % (4 * |a.mem|);
              && o + SizeOf(StoredSize(i)) <= 4 * |a.mem|
              && BytesOf(Step(cfg, a).mem) == Store(BytesOf(a.mem), o, a.regs[Rs2(i)], StoredSize(i))
  {
    hide Slice, U32, Decode, DecodeCause, AluY, Inst, Misaligned, ImmS, NextPc, WriteValue, Opcode, Funct3, Store,
      BytesOf, Effective, MemNext, UartNext, Aligned, WordIndex, StoredSize, SizeOf, IsStore;
    var i := Inst(cfg, a);
    StoresOnly(i);
    StepMem(cfg, a);
    if IsStore(i) {
      StoreIsWide(i);
      StoreAddress(cfg, a);
      MisalignedMeaning(cfg.devices, AluY(cfg, a), false, true, Decode(i).memSize);
      EffectiveWraps(AluY(cfg, a), |a.mem|);
      WriteIsStore(cfg.devices, a.mem, AluY(cfg, a), Src2(cfg, a), true, Decode(i).memSize);
      DeviceStores(cfg, a);
    }
  }

  lemma StoreIsWide(inst: word)
    ensures IsStore(inst) ==> Opcode(inst) == OP_STORE
  {}

  lemma StepMem(cfg: Config, a: Arch)
    requires Cause(cfg, a) == NONE
    ensures var c := Ctrl(cfg, a);
            Step(cfg, a).mem == MemNext(cfg.devices, a.mem, AluY(cfg, a), Src2(cfg, a), c.memWrite, c.memSize)
    ensures !Ctrl(cfg, a).memWrite ==> Step(cfg, a).mem == a.mem
  {
    hide Decode, DecodeCause, AluY, Inst, Misaligned, NextPc, WriteValue, UartNext, NextWord, WordIndex;
  }

  lemma DeviceStores(cfg: Config, a: Arch)
    ensures IsMmio(cfg.devices, AluY(cfg, a)) ==>
              MemNext(cfg.devices, a.mem, AluY(cfg, a), Src2(cfg, a), true, Ctrl(cfg, a).memSize) == a.mem
  {
    hide Decode, AluY, Inst;
  }

  /** A load at either device address reads zero and disturbs nothing. */
  lemma DeviceLoads(cfg: Config, a: Arch)
    requires Cause(cfg, a) == NONE && IsLoad(Inst(cfg, a))
    requires LoadAddr(cfg, a) == cfg.devices.uart || LoadAddr(cfg, a) == cfg.devices.tohost
    ensures Step(cfg, a) == a.(pc := U32(a.pc + 4), regs := RegWrite(a.regs, true, Rd(Inst(cfg, a)), 0))
  {
    LoadAddress(cfg, a);
    LoadShape(Inst(cfg, a));
    LoadStep(cfg, a);
    hide Slice, U32, Decode, AluY, Inst, ImmI, Step, Cause, Opcode, Funct3, RegWrite;
  }

  /** A store at the tohost address halts and commits nothing. */
  lemma HostStores(cfg: Config, a: Arch)
    requires IsStore(Inst(cfg, a))
    ensures Cause(cfg, a) == TOHOST <==> StoreAddr(cfg, a) == cfg.devices.tohost
  {
    var i := Inst(cfg, a);
    StoresOnly(i);
    StoreAddress(cfg, a);
    MisalignedMeaning(cfg.devices, AluY(cfg, a), false, true, Decode(i).memSize);
    hide Slice, U32, Decode, DecodeCause, AluY, Inst, Misaligned, ImmS, Opcode, Funct3;
  }

  /** Everything the first `n` instructions send, in order. */
  function Sent(cfg: Config, s: Arch, n: nat): seq<byte>
    decreases n
  {
    if n == 0 then [] else Sent(cfg, s, n - 1) + SentBy(cfg, Run(cfg, s, n - 1))
  }

  lemma {:induction false} RunSends(cfg: Config, s: Arch, n: nat)
    ensures Run(cfg, s, n).uart == s.uart + Sent(cfg, s, n)
    decreases n
  {
    hide Step, SentBy;
    if n > 0 {
      RunSends(cfg, s, n - 1);
      StepSends(cfg, Run(cfg, s, n - 1));
    }
  }

  /** In every cycle the pipeline has sent what the program's instructions send, up to
      the one that has reached WB, in order; and so has the single-cycle core, up to
      the first halting instruction. */
  lemma CoresSend(cfg: Config, data: Ram, t: nat)
    ensures Core.At(cfg, data, t).uart == Sent(cfg, Start(cfg, data), MemIndex(OccAt(cfg, data, t)))
    ensures Live(cfg, Start(cfg, data), t) ==> Single.TopAt(cfg, data, t).uart == Sent(cfg, Start(cfg, data), t)
  {
    hide Core.At, OccAt, Run, Live, Sent, Single.TopAt, MemIndex, Cause;
    PipelineRefines(cfg, data, t);
    RunSends(cfg, Start(cfg, data), MemIndex(OccAt(cfg, data, t)));
    RunSends(cfg, Start(cfg, data), t);
    if Live(cfg, Start(cfg, data), t) {
      Single.SingleCycleRefines(cfg, data, t);
    }
  }
}
