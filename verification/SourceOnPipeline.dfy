/** From assembly source to the pipeline: a program whose source run halts makes the
    pipelined core halt with the source run's registers and memory, at the cycle the
    schedule gives. */
module SourceOnPipeline {
  import opened Words
  import opened RiscvPkg
  import opened Decoder
  import opened Datapath
  import opened DataMemory
  import opened RegFile
  import opened Reference
  import opened Formats
  import opened ByteMemory
  import opened Agreement
  import opened PipelineInvariant
  import opened PipelineTheorems
  import opened Layout
  import opened LayoutProofs
  import Asm = Assembler
  import Meant = SourceMeaning
  import Core = TopPipeline
  import Emu = Emulator
  import Sim = Simulation

  // ---------- an emulator step that neither traps nor stores into code is in bounds

  /** Both device addresses lie above data memory, as the shipped ones do. */
  predicate DevicesApart(cfg: Config, depth: nat) {
    4 * depth <= cfg.devices.tohost && 4 * depth <= cfg.devices.uart
  }

  predicate WriteClear(ec: Emu.EmuConfig, w: Emu.Option<Emu.MemRecord>, code: set<int>) {
    w.Some? && w.value.addr != ec.tohost ==> w.value.addr / 4 !in code
  }

  predicate IsTransfer(inst: word) {
    var op := Opcode(inst);
    op == OP_JAL || op == OP_JALR || op == OP_BRANCH
  }

  lemma OnlyTransfersMove(cfg: Config, a: Arch)
    requires !IsTransfer(Inst(cfg, a))
    ensures !Taken(cfg, a)
  {
    hide Inst;
  }

  /** A jump the emulator executes goes to an aligned address. */
  lemma CleanJump(cfg: Config, ec: Emu.EmuConfig, a: Arch, s: Emu.Cpu)
    requires s.pc == a.pc && s.regs == a.regs
    requires Opcode(Inst(cfg, a)) == OP_JAL || Opcode(Inst(cfg, a)) == OP_JALR
    requires Emu.Execute(ec, s, Inst(cfg, a)).Executed?
    ensures NextPc(cfg, a) % 4 == 0
  {
    var i := Inst(cfg, a);
    ImmediatesAgree(i);
    WrapAdd(a.pc, ImmJ(i));
    WrapAdd(Src1(cfg, a), ImmI(i));
    hide U32, ImmGen, ImmI, ImmJ, Slice, Inst, RegWrite;
  }

  lemma CleanBranch(cfg: Config, ec: Emu.EmuConfig, a: Arch, s: Emu.Cpu)
    requires s.pc == a.pc && s.regs == a.regs && Opcode(Inst(cfg, a)) == OP_BRANCH
    requires Emu.Execute(ec, s, Inst(cfg, a)).Executed?
    ensures Taken(cfg, a) ==> NextPc(cfg, a) % 4 == 0
  {
    var i := Inst(cfg, a);
    ImmediatesAgree(i);
    WrapAdd(a.pc, ImmB(i));
    hide U32, S32, ImmGen, ImmB, Slice, Inst, RegWrite;
  }

  /** A load the emulator executes is aligned and in memory, hence off the devices. */
  lemma CleanLoad(cfg: Config, ec: Emu.EmuConfig, a: Arch, s: Emu.Cpu)
    requires Same(cfg, ec, a, s) && Opcode(Inst(cfg, a)) == OP_LOAD
    requires Emu.Execute(ec, s, Inst(cfg, a)).Executed?
    ensures var c, y := Ctrl(cfg, a), AluY(cfg, a);
            && c.memRead && !c.memWrite && Aligned(y, c.memSize) && y + SizeOf(c.memSize) <= 4 * |a.mem|
  {
    LoadAddress(cfg, a);
    LoadShape(Inst(cfg, a));
    hide U32, ImmI, Slice, Inst, Decode, AluY, ByteMemory.Load, RegWrite, Opcode, Funct3, DecodeCause;
  }

  /** A store the emulator executes is a host store, or aligned and in memory. */
  lemma CleanStore(cfg: Config, ec: Emu.EmuConfig, a: Arch, s: Emu.Cpu)
    requires Same(cfg, ec, a, s) && Opcode(Inst(cfg, a)) == OP_STORE
    requires Emu.Execute(ec, s, Inst(cfg, a)).Executed?
    ensures var c, y, e := Ctrl(cfg, a), AluY(cfg, a), Emu.Execute(ec, s, Inst(cfg, a));
            && !c.memRead && c.memWrite && e.memWrite.Some? && e.memWrite.value.addr == y
            && (y != ec.tohost ==> Aligned(y, c.memSize) && y + SizeOf(c.memSize) <= 4 * |a.mem|)
  {
    StoreAddress(cfg, a);
    StoreShape(Inst(cfg, a));
    hide U32, ImmS, Slice, Inst, Decode, AluY, ByteMemory.Store, RegWrite, Opcode, Funct3, DecodeCause;
  }

  lemma NoAccess(inst: word)
    requires Opcode(inst) != OP_LOAD && Opcode(inst) != OP_STORE
    ensures !Decode(inst).memRead && !Decode(inst).memWrite
  {}

  lemma CleanInBounds(cfg: Config, ec: Emu.EmuConfig, a: Arch, s: Emu.Cpu, code: set<int>)
    requires Same(cfg, ec, a, s) && DevicesApart(cfg, |a.mem|)
    requires a.pc % 4 == 0 && a.pc / 4 in code && AgreedWord(Inst(cfg, a))
    requires var e := Emu.Execute(ec, s, Inst(cfg, a)); e.Executed? && WriteClear(ec, e.memWrite, code)
    ensures InBounds(cfg, a, code)
  {
    hide Emu.Execute, AgreedWord, Inst, AluY, Decode, Taken, NextPc, Opcode, BytesOf, Aligned;
    var op := Opcode(Inst(cfg, a));
    if op == OP_JAL || op == OP_JALR {
      CleanJump(cfg, ec, a, s);
    } else if op == OP_BRANCH {
      CleanBranch(cfg, ec, a, s);
    } else {
      OnlyTransfersMove(cfg, a);
    }
    if op == OP_LOAD {
      CleanLoad(cfg, ec, a, s);
    } else if op == OP_STORE {
      CleanStore(cfg, ec, a, s);
    } else {
      NoAccess(Inst(cfg, a));
    }
  }

  /** Why a run stopped, as the RTL reports it and as the emulator does. */
  predicate SameReason(hc: HaltCause, tohost: word, c: Emu.Cpu) {
    match hc
    case ECALL => c.reason == Emu.BY_ECALL
    case EBREAK => c.reason == Emu.BY_EBREAK
    case TOHOST =>
      c.tohostValue == Emu.Some(tohost) && c.reason == if tohost == 1 then Emu.TOHOST_PASS else Emu.TOHOST_FAIL
    case _ => false
  }

  /** Where a step leaves the pair: both running on in step, or both stopped. */
  predicate InStepOrStopped(cfg: Config, ec: Emu.EmuConfig, a: Arch, c: Emu.Cpu, code: set<int>) {
    if c.halted then
      && Cause(cfg, a) != NONE && SameReason(Cause(cfg, a), Src2(cfg, a), c)
      && c.regs == a.regs && c.mem == BytesOf(a.mem)
    else Cause(cfg, a) == NONE && Same(cfg, ec, Step(cfg, a), c) && CodeIs(cfg, c.mem, code)
  }

  lemma CleanStep(cfg: Config, ec: Emu.EmuConfig, a: Arch, s: Emu.Cpu, code: set<int>, w: word)
    requires Same(cfg, ec, a, s) && CodeIs(cfg, s.mem, code) && DevicesApart(cfg, |a.mem|)
    requires a.pc % 4 == 0 && a.pc / 4 in code
    requires Emu.FetchAt(ec, s.mem, s.pc) == Emu.Word(w) && AgreedWord(w)
    requires var e := Emu.EmuStep(ec, s); e.Done? && WriteClear(ec, e.trace.memWrite, code)
    ensures InStepOrStopped(cfg, ec, a, Emu.EmuStep(ec, s).cpu, code)
  {
    hide Emu.Execute, Emu.FetchAt, AgreedWord, Inst, CodeIs, BytesOf, WriteClear, Cause, Step, Src2, DevicesApart,
      InBounds, Ctrl, Emu.RecordsRd;
    FetchAgrees(cfg, ec, a, s, code);
    CleanInBounds(cfg, ec, a, s, code);
    StepAgrees(cfg, ec, a, s, code);
  }

  // ---------- one line of source

  /** The word indices of every aligned instruction line. */
  function CodeWords(p: Sim.Program): set<int> {
    set i, j | 0 <= i < |p.srcs| && 0 <= j < 2 && IsWordOf(p, i, j) :: p.ps[i].pc / 4 + j
  }

  predicate IsWordOf(p: Sim.Program, i: int, j: int) {
    Sim.IsCode(p, i) && 0 <= j && 4 * j < Asm.InstrSize(p.srcs[i].op.ins) && p.ps[i].pc % 4 == 0
  }

  lemma InCodeWords(p: Sim.Program, i: int, j: int)
    requires IsWordOf(p, i, j)
    ensures p.ps[i].pc / 4 + j in CodeWords(p)
  {}

  /** A word of the code is all one line's bytes. */
  lemma WordIsCode(p: Sim.Program, i: int, j: int, k: int)
    requires Sim.Accepted(p) && IsWordOf(p, i, j) && 0 <= k < 4
    ensures Sim.CodeByte(p, i, 4 * (p.ps[i].pc / 4 + j) + k)
  {
    hide Asm.EncodeInstr;
    var ins := p.srcs[i].op.ins;
    Asm.EncodedSize(ins, p.ps[i].pc, p.syms);
  }

  /** An address in the code's words is one of some line's bytes. */
  lemma AddressIsCode(p: Sim.Program, addr: int)
    requires Sim.Accepted(p) && addr / 4 in CodeWords(p)
    ensures exists i :: Sim.CodeByte(p, i, addr)
  {
    hide Sim.Accepted, Sim.CodeByte, IsWordOf;
    var i, j :| 0 <= i < |p.srcs| && 0 <= j < 2 && IsWordOf(p, i, j) && p.ps[i].pc / 4 + j == addr / 4;
    WordIsCode(p, i, j, addr % 4);
    assert addr == 4 * (addr / 4) + addr % 4;
  }

  /** A store off every instruction line's bytes is off the code's words. */
  lemma ClearIsClear(ec: Emu.EmuConfig, p: Sim.Program, w: Emu.Option<Emu.MemRecord>)
    requires Sim.Accepted(p) && Sim.ClearOfCode(ec, p, w)
    ensures WriteClear(ec, w, CodeWords(p))
  {
    hide Sim.Accepted, Sim.CodeByte, CodeWords;
    if w.Some? && w.value.addr != ec.tohost && w.value.addr / 4 in CodeWords(p) {
      AddressIsCode(p, w.value.addr);
    }
  }

  /** What holds between the reference and the emulator at the start of each line. */
  ghost predicate AtLine(cfg: Config, ec: Emu.EmuConfig, p: Sim.Program, a: Arch, s: Emu.Cpu) {
    && Same(cfg, ec, a, s) && CodeIs(cfg, s.mem, CodeWords(p)) && DevicesApart(cfg, |a.mem|)
    && Sim.Loaded(ec, s.mem, p) && s.pc % 4 == 0
  }

  lemma DepthKept(cfg: Config, a: Arch)
    ensures |Step(cfg, a).mem| == |a.mem|
  {
    hide AluY, WriteValue, NextPc, Cause, Inst;
  }

  /** Where a line of `d` instructions leaves the pair. */
  ghost predicate AfterLine(cfg: Config, ec: Emu.EmuConfig, p: Sim.Program, a: Arch, c: Emu.Cpu, d: nat) {
    if c.halted then
      && d == 1 && Cause(cfg, a) != NONE && SameReason(Cause(cfg, a), Src2(cfg, a), c)
      && c.regs == a.regs && c.mem == BytesOf(a.mem)
    else
      && d > 0 && Live(cfg, a, d) && |Run(cfg, a, d).mem| == |a.mem|
      && Same(cfg, ec, Run(cfg, a, d), c) && CodeIs(cfg, c.mem, CodeWords(p))
  }

  lemma OneWordOnRtl(cfg: Config, ec: Emu.EmuConfig, p: Sim.Program, a: Arch, s: Emu.Cpu, i: nat, c: Emu.Cpu,
                     w: Emu.Option<Emu.MemRecord>)
    requires Sim.Accepted(p) && AtLine(cfg, ec, p, a, s) && Sim.ClearOfCode(ec, p, w)
    requires Sim.IsCode(p, i) && p.ps[i].pc == s.pc && Asm.InstrSize(p.srcs[i].op.ins) == 4
    requires Sim.Finish(Meant.Meaning(ec, s, p.srcs[i].op.ins, p.syms), 1) == Sim.Stepped(c, w)
    ensures AfterLine(cfg, ec, p, a, c, 1)
  {
    hide Sim.Accepted, Sim.Loaded, Sim.ClearOfCode, Emu.EmuStep, Emu.FetchAt, Meant.Meaning, Asm.EncodeInstr, CodeWords,
      Cause, Step, Src2, BytesOf, CodeIs, DevicesApart, AgreedWord;
    LineAccepted(p, i);
    Sim.OneWordLine(ec, p, s, i);
    Meant.EmittedAgreed(p.srcs[i].op.ins, s.pc, p.syms, 0);
    InCodeWords(p, i, 0);
    ClearIsClear(ec, p, w);
    CleanStep(cfg, ec, a, s, CodeWords(p), Asm.EncodeInstr(p.srcs[i].op.ins, s.pc, p.syms).value[0]);
    DepthKept(cfg, a);
    LiveOne(cfg, a);
  }

  lemma LineAccepted(p: Sim.Program, i: int)
    requires Sim.Accepted(p) && Sim.IsCode(p, i)
    ensures Asm.EncodeInstr(p.srcs[i].op.ins, p.ps[i].pc, p.syms).Ok?
  {}

  lemma LiveOne(cfg: Config, a: Arch)
    ensures Live(cfg, a, 1) <==> Cause(cfg, a) == NONE
    ensures Run(cfg, a, 1) == Step(cfg, a)
  {
    hide Cause, Step;
    assert Run(cfg, a, 0) == a;
  }

  lemma LiveTwo(cfg: Config, a: Arch)
    ensures Live(cfg, a, 2) <==> Cause(cfg, a) == NONE && Cause(cfg, Step(cfg, a)) == NONE
    ensures Run(cfg, a, 2) == Step(cfg, Step(cfg, a))
  {
    hide Cause, Step;
    LiveOne(cfg, a);
    LiveNext(cfg, a, 1);
  }

  lemma TwoWordOnRtl(cfg: Config, ec: Emu.EmuConfig, p: Sim.Program, a: Arch, s: Emu.Cpu, i: nat, c: Emu.Cpu,
                     w: Emu.Option<Emu.MemRecord>)
    requires Sim.Accepted(p) && AtLine(cfg, ec, p, a, s) && Sim.ClearOfCode(ec, p, w)
    requires Sim.IsCode(p, i) && p.ps[i].pc == s.pc && Asm.InstrSize(p.srcs[i].op.ins) == 8
    requires Sim.Finish(Meant.Meaning(ec, s, p.srcs[i].op.ins, p.syms), 2) == Sim.Stepped(c, w)
    ensures AfterLine(cfg, ec, p, a, c, 2)
  {
    hide Sim.Accepted, Sim.Loaded, Sim.ClearOfCode, Emu.EmuStep, Emu.FetchAt, Meant.Meaning, Asm.EncodeInstr, CodeWords,
      Cause, Step, Src2, BytesOf, CodeIs, AgreedWord, U32;
    var ins, code := p.srcs[i].op.ins, CodeWords(p);
    LineAccepted(p, i);
    var ws := Asm.EncodeInstr(ins, s.pc, p.syms).value;
    Sim.TwoWordLine(ec, p, s, i);
    Sim.NoTrapInTwo(ec, s, ins, p.syms);
    Meant.EmittedAgreed(ins, s.pc, p.syms, 0);
    Meant.EmittedAgreed(ins, s.pc, p.syms, 1);
    InCodeWords(p, i, 0);
    InCodeWords(p, i, 1);
    ClearIsClear(ec, p, w);
    CleanStep(cfg, ec, a, s, code, ws[0]);
    DepthKept(cfg, a);
    var m := Emu.EmuStep(ec, s).cpu;
    SecondWord(ec, p, s, i);
    CleanStep(cfg, ec, Step(cfg, a), m, code, ws[1]);
    DepthKept(cfg, Step(cfg, a));
    LiveTwo(cfg, a);
  }

  /** The second word's address does not wrap. */
  lemma SecondWord(ec: Emu.EmuConfig, p: Sim.Program, s: Emu.Cpu, i: nat)
    requires Sim.Accepted(p) && Sim.Loaded(ec, s.mem, p) && s.pc % 4 == 0
    requires Sim.IsCode(p, i) && p.ps[i].pc == s.pc && Asm.InstrSize(p.srcs[i].op.ins) == 8
    ensures U32(s.pc + 4) == s.pc + 4 && U32(s.pc + 4) % 4 == 0 && U32(s.pc + 4) / 4 == s.pc / 4 + 1
  {
    hide Sim.Loaded, Sim.Accepted, Asm.EncodeInstr, Emu.FetchAt, Get32;
    LineAccepted(p, i);
    Asm.EncodedSize(p.srcs[i].op.ins, s.pc, p.syms);
    Sim.WordFetched(ec, s.mem, p, i, 1);
    Sim.MemoryFits(ec, s.mem, p);
    DivModUnique(s.pc + 4, 4, s.pc / 4 + 1, 0);
  }

  lemma LineOnRtl(cfg: Config, ec: Emu.EmuConfig, p: Sim.Program, a: Arch, s: Emu.Cpu)
    requires Sim.Accepted(p) && AtLine(cfg, ec, p, a, s) && Sim.LineStep(ec, p, s).Stepped?
    requires Sim.ClearOfCode(ec, p, Sim.LineStep(ec, p, s).wrote)
    ensures var c := Sim.LineStep(ec, p, s).cpu;
            && c.steps > s.steps && AfterLine(cfg, ec, p, a, c, c.steps - s.steps)
            && Sim.Loaded(ec, c.mem, p) && c.pc % 4 == 0
  {
    hide Sim.Accepted, Sim.Loaded, Sim.ClearOfCode, Meant.Meaning, AfterLine, Same, CodeIs, DevicesApart;
    var i := Sim.FindLine(p, s.pc, |p.srcs|).value;
    var ins := p.srcs[i].op.ins;
    var l := Sim.LineStep(ec, p, s);
    Sim.LineKeeps(ec, p, s);
    Sim.MeaningSteps(ec, s, ins, p.syms);
    if Asm.InstrSize(ins) == 4 {
      OneWordOnRtl(cfg, ec, p, a, s, i, l.cpu, l.wrote);
    } else {
      TwoWordOnRtl(cfg, ec, p, a, s, i, l.cpu, l.wrote);
    }
  }

  // ---------- whole runs

  lemma {:induction false} RunFrom(cfg: Config, a: Arch, d: nat, k: nat)
    ensures Run(cfg, Run(cfg, a, d), k) == Run(cfg, a, d + k)
    decreases k
  {
    hide Step;
    if k > 0 {
      RunFrom(cfg, a, d, k - 1);
      assert d + k - 1 == d + (k - 1);
    }
  }

  lemma HaltsLater(cfg: Config, a: Arch, d: nat, k: nat)
    requires Live(cfg, a, d) && HaltsAt(cfg, Run(cfg, a, d), k)
    ensures HaltsAt(cfg, a, d + k) && Run(cfg, a, d + k) == Run(cfg, Run(cfg, a, d), k)
  {
    hide Cause, Run;
    forall j: nat | j < d + k
      ensures Cause(cfg, Run(cfg, a, j)) == NONE
    {
      if j >= d {
        RunFrom(cfg, a, d, j - d);
      }
    }
    RunFrom(cfg, a, d, k);
  }

  /** The state of the reference at the instruction that stopped a source run. */
  ghost predicate StopsAs(cfg: Config, a: Arch, n: nat, c: Emu.Cpu) {
    var b := Run(cfg, a, n);
    && HaltsAt(cfg, a, n)
    && b.regs == c.regs && BytesOf(b.mem) == c.mem && SameReason(Cause(cfg, b), Src2(cfg, b), c)
  }

  lemma StopsNow(cfg: Config, ec: Emu.EmuConfig, p: Sim.Program, a: Arch, c: Emu.Cpu, d: nat)
    requires AfterLine(cfg, ec, p, a, c, d) && c.halted
    ensures d == 1 && StopsAs(cfg, a, 0, c)
  {
    hide Cause, Src2, BytesOf;
  }

  lemma StopsLater(cfg: Config, a: Arch, d: nat, n: nat, c: Emu.Cpu)
    requires Live(cfg, a, d) && StopsAs(cfg, Run(cfg, a, d), n, c)
    ensures StopsAs(cfg, a, d + n, c)
  {
    hide Cause, Src2, BytesOf, Live, Run;
    HaltsLater(cfg, a, d, n);
  }

  /** The source run and the reference run stop together: at the instruction the source
      run's step count names, with its registers and memory, for its reason. */
  lemma {:induction false} LinesOnRtl(cfg: Config, ec: Emu.EmuConfig, p: Sim.Program, a: Arch, s: Emu.Cpu, n: nat)
    requires Sim.Accepted(p) && AtLine(cfg, ec, p, a, s)
    requires Sim.NoCodeStores(ec, p, s, n) && Sim.RunLines(ec, p, s, n).Halted?
    ensures var c := Sim.RunLines(ec, p, s, n).cpu;
            c.steps > s.steps && StopsAs(cfg, a, c.steps - s.steps - 1, c)
    decreases n
  {
    hide Sim.Accepted, Sim.Loaded, Sim.ClearOfCode, Sim.LineStep, AfterLine, CodeIs, StopsAs, Live, Run, BytesOf;
    RunningAt(cfg, ec, p, a, s);
    var l := Sim.LineStep(ec, p, s);
    LineOnRtl(cfg, ec, p, a, s);
    var d := l.cpu.steps - s.steps;
    if l.cpu.halted {
      StopsNow(cfg, ec, p, a, l.cpu, d);
    } else {
      NextLine(cfg, ec, p, a, s, l.cpu, d);
      LinesOnRtl(cfg, ec, p, Run(cfg, a, d), l.cpu, n - 1);
      var c := Sim.RunLines(ec, p, s, n).cpu;
      StopsLater(cfg, a, d, c.steps - l.cpu.steps - 1, c);
    }
  }

  lemma RunningAt(cfg: Config, ec: Emu.EmuConfig, p: Sim.Program, a: Arch, s: Emu.Cpu)
    requires AtLine(cfg, ec, p, a, s)
    ensures !s.halted
  {}

  lemma NextLine(cfg: Config, ec: Emu.EmuConfig, p: Sim.Program, a: Arch, s: Emu.Cpu, c: Emu.Cpu, d: nat)
    requires AtLine(cfg, ec, p, a, s) && AfterLine(cfg, ec, p, a, c, d) && !c.halted
    requires Sim.Loaded(ec, c.mem, p) && c.pc % 4 == 0
    ensures Live(cfg, a, d) && AtLine(cfg, ec, p, Run(cfg, a, d), c)
  {
    hide Sim.Loaded, CodeIs, Run, Live, Same, CodeWords;
  }

  // ---------- the loaded image

  /** The words sit in the array from the word address `base` up. */
  predicate HoldsWords(mem: Ram, base: int, ws: seq<word>) {
    0 <= base && base / 4 + |ws| <= |mem| && mem[base / 4..base / 4 + |ws|] == ws
  }

  lemma BytesAt(mem: Ram, base: int, ws: seq<word>, j: nat)
    requires HoldsWords(mem, base, ws) && base % 4 == 0 && j < 4 * |ws|
    ensures BytesOf(mem)[base + j] == BytesOfWords(ws)[j]
  {
    hide Lane, BytesOfWords, BytesOf;
    Sim.WordsAsBytes(ws, j);
    DivModUnique(base + j, 4, base / 4 + j / 4, j % 4);
    assert mem[base / 4..base / 4 + |ws|][j / 4] == mem[base / 4 + j / 4];
  }

  lemma ImageInBytes(ec: Emu.EmuConfig, mem: Ram, base: int, ws: seq<word>)
    requires HoldsWords(mem, base, ws) && base % 4 == 0 && ec.memBase == 0
    ensures Sim.LoadedAt(ec, BytesOf(mem), BytesOf(mem), ws, base)
  {
    hide Lane, BytesOfWords, BytesOf;
    var bs := BytesOf(mem);
    forall j | 0 <= j < 4 * |ws|
      ensures bs[base + j] == BytesOfWords(ws)[j]
    {
      BytesAt(mem, base, ws, j);
    }
    assert bs[base..base + 4 * |ws|] == BytesOfWords(ws);
    assert bs == bs[..base] + bs[base..base + 4 * |ws|] + bs[base + 4 * |ws|..];
  }

  lemma WordOfBytes(mem: Ram, v: nat)
    requires v < |mem|
    ensures Get32(BytesOf(mem), 4 * v) == mem[v]
  {
    hide Lane, Get32, BytesOf;
    DivModUnique(4 * v, 4, v, 0);
    WordInWord(mem, 4 * v);
    WordAt(BytesOf(mem), 4 * v, mem[v]);
  }

  /** Every word of the code lies in the packed words. */
  lemma CodeInImage(srcs: seq<Source>, tb: int, i: int, j: int)
    requires Build(srcs, tb, false, 0).Ok? && BaseFits(srcs, tb) && tb % 4 == 0
    requires var p := Sim.ProgramOf(srcs, Build(srcs, tb, false, 0).value); Sim.Accepted(p) && IsWordOf(p, i, j)
    ensures var p, ws := Sim.ProgramOf(srcs, Build(srcs, tb, false, 0).value), Assembled(srcs, tb, false, 0).value;
            tb / 4 <= p.ps[i].pc / 4 + j < tb / 4 + |ws|
  {
    hide Build, BaseFits, Origin, PackImage, Written, RangesApart, EmitsInRange, Covers, Covering, Lane, Sim.Accepted;
    var b := Build(srcs, tb, false, 0).value;
    var p, ws := Sim.ProgramOf(srcs, b), Assembled(srcs, tb, false, 0).value;
    var v := p.ps[i].pc / 4 + j;
    WordIsCode(p, i, j, 0);
    BuildIsApart(srcs, tb);
    LayoutSound(srcs, tb, false, 0, 4 * v);
    ImageNonempty(srcs, tb, i, 4 * v);
    OriginIsBase(srcs, tb);
    assert tb <= 4 * v < tb + 4 * |ws|;
  }

  lemma ImageNonempty(srcs: seq<Source>, tb: int, i: int, k: int)
    requires Build(srcs, tb, false, 0).Ok? && 0 <= i < |srcs|
    requires var b := Build(srcs, tb, false, 0).value; Covers(srcs[i].op, b.placements[i].pc, b.syms, k)
    ensures Build(srcs, tb, false, 0).value.image.keys != []
  {
    hide PlaceAll, SizeAll, EmitAll, Covers, DefaultDataBase;
    var b := Build(srcs, tb, false, 0).value;
    ImageKeys(srcs, b.placements, b.syms, |srcs|, k);
    HasKey(b.image, k);
  }

  lemma ImageIsCode(cfg: Config, data: Ram, srcs: seq<Source>, tb: int)
    requires Build(srcs, tb, false, 0).Ok? && BaseFits(srcs, tb) && tb % 4 == 0
    requires var ws := Assembled(srcs, tb, false, 0).value; HoldsWords(cfg.imem, tb, ws) && HoldsWords(data, tb, ws)
    requires Sim.Accepted(Sim.ProgramOf(srcs, Build(srcs, tb, false, 0).value))
    ensures CodeIs(cfg, BytesOf(data), CodeWords(Sim.ProgramOf(srcs, Build(srcs, tb, false, 0).value)))
  {
    hide Build, BaseFits, PackImage, Get32, IsWordOf, BytesOf, Sim.Accepted;
    var p, ws := Sim.ProgramOf(srcs, Build(srcs, tb, false, 0).value), Assembled(srcs, tb, false, 0).value;
    forall v | v in CodeWords(p)
      ensures 0 <= v < |cfg.imem| && v < |data| && cfg.imem[v] == Get32(BytesOf(data), 4 * v)
    {
      var i, j :| 0 <= i < |p.srcs| && 0 <= j < 2 && IsWordOf(p, i, j) && p.ps[i].pc / 4 + j == v;
      CodeInImage(srcs, tb, i, j);
      assert cfg.imem[v] == cfg.imem[tb / 4..tb / 4 + |ws|][v - tb / 4];
      assert data[v] == data[tb / 4..tb / 4 + |ws|][v - tb / 4];
      WordOfBytes(data, v);
    }
  }

  // ---------- the theorem

  /** The emulator as it starts on the same memory, with host calls halting it. */
  function EmuOf(cfg: Config): Emu.EmuConfig {
    Emu.EmuConfig(0, cfg.devices.tohost, false)
  }

  function Boot(cfg: Config, data: Ram): Emu.Cpu {
    Emu.Cpu(cfg.pcReset, ResetRegs(), BytesOf(data), map[0xF14 := 0], Emu.None, false, Emu.RUNNING, 0)
  }

  lemma BootsAtLine(cfg: Config, data: Ram, srcs: seq<Source>, tb: int)
    requires Build(srcs, tb, false, 0).Ok? && BaseFits(srcs, tb) && tb % 4 == 0
    requires var ws := Assembled(srcs, tb, false, 0).value; HoldsWords(cfg.imem, tb, ws) && HoldsWords(data, tb, ws)
    requires DevicesApart(cfg, |data|) && cfg.pcReset % 4 == 0
    requires Sim.Accepted(Sim.ProgramOf(srcs, Build(srcs, tb, false, 0).value))
    ensures var p := Sim.ProgramOf(srcs, Build(srcs, tb, false, 0).value);
            AtLine(cfg, EmuOf(cfg), p, Start(cfg, data), Boot(cfg, data))
  {
    hide Build, BaseFits, PackImage, Sim.Accepted, Sim.Loaded, CodeIs, CodeWords, HoldsWords, Sim.LoadedAt;
    var ws := Assembled(srcs, tb, false, 0).value;
    ImageInBytes(EmuOf(cfg), data, tb, ws);
    Sim.LoadsAtBase(EmuOf(cfg), srcs, tb, BytesOf(data), BytesOf(data));
    ImageIsCode(cfg, data, srcs, tb);
  }

  /** Assemble a program, put its words in both memories at the text base, and reset.
      If the source run halts, storing into no code on the way, then the pipeline halts,
      at exactly the cycle the schedule gives for that many instructions, with the
      source run's registers and memory, for its reason. */
  lemma SourceRunsOnPipeline(cfg: Config, data: Ram, srcs: seq<Source>, tb: int, n: nat, t: nat)
    requires Build(srcs, tb, false, 0).Ok? && BaseFits(srcs, tb) && tb % 4 == 0
    requires var ws := Assembled(srcs, tb, false, 0).value; HoldsWords(cfg.imem, tb, ws) && HoldsWords(data, tb, ws)
    requires DevicesApart(cfg, |data|) && cfg.pcReset % 4 == 0
    requires var b := Build(srcs, tb, false, 0).value;
             && Sim.TargetsAligned(srcs, b.syms)
             && Sim.NoCodeStores(EmuOf(cfg), Sim.ProgramOf(srcs, b), Boot(cfg, data), n)
             && Sim.RunLines(EmuOf(cfg), Sim.ProgramOf(srcs, b), Boot(cfg, data), n).Halted?
    ensures var p, q := Sim.ProgramOf(srcs, Build(srcs, tb, false, 0).value), Core.At(cfg, data, t);
            var c := Sim.RunLines(EmuOf(cfg), p, Boot(cfg, data), n).cpu;
            && c.steps > 0
            && (Core.Halted(q) <==>
                t >= c.steps + 3 + TakenBefore(cfg, data, c.steps - 1) + StallsThrough(cfg, data, c.steps - 1))
            && (Core.Halted(q) ==> q.regs == c.regs && BytesOf(q.mem) == c.mem && SameReason(q.wbHc, q.tohostValue, c))
  {
    hide Build, BaseFits, Assembled, HoldsWords, DevicesApart, Sim.TargetsAligned, Sim.NoCodeStores, Sim.RunLines,
      Sim.Accepted, AtLine, Core.At, Core.Halted, OccAt, Cause, Run, Live, BytesOf, Src2, TakenBefore, StallsThrough;
    var p := Sim.ProgramOf(srcs, Build(srcs, tb, false, 0).value);
    Sim.BuildAccepts(srcs, tb, false, 0);
    BootsAtLine(cfg, data, srcs, tb);
    LinesOnRtl(cfg, EmuOf(cfg), p, Start(cfg, data), Boot(cfg, data), n);
    var c := Sim.RunLines(EmuOf(cfg), p, Boot(cfg, data), n).cpu;
    CycleLaw(cfg, data, c.steps - 1, t);
    if Core.Halted(Core.At(cfg, data, t)) {
      PreciseHalt(cfg, data, t);
      FirstHaltUnique(cfg, Start(cfg, data), c.steps - 1, OccAt(cfg, data, t).retired);
    }
  }
}
