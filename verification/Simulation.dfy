/** Source-to-image simulation: the emulator, started on the assembled image, runs the
    program line by line as the source says, with labels as addresses and li, la and
    call as single steps. */
module Simulation {
  import opened Words
  import opened RiscvPkg
  import opened DataMemory
  import opened ByteMemory
  import opened RegFile
  import opened Formats
  import opened Agreement
  import opened A = Assembler
  import opened Layout
  import opened LayoutProofs
  import opened SourceMeaning
  import Emu = Emulator

  /** An accepted program: its lines and what the two passes made of them. */
  datatype Placing = Program(srcs: seq<Source>, ps: seq<Placement>, syms: Symbols)
  type Program = p: Placing | |p.srcs| == |p.ps| witness Program([], [], map[])

  predicate IsCode(p: Program, i: int) {
    0 <= i < |p.srcs| && p.srcs[i].op.Instruction?
  }

  /** Every instruction line encodes, and every label operand is word-aligned. */
  ghost predicate Accepted(p: Program) {
    forall i :: IsCode(p, i) ==>
                  && EncodeInstr(p.srcs[i].op.ins, p.ps[i].pc, p.syms).Ok?
                  && AlignedTarget(p.srcs[i].op.ins, p.syms)
  }

  predicate CodeByte(p: Program, i: int, k: int) {
    IsCode(p, i) && Covers(p.srcs[i].op, p.ps[i].pc, p.syms, k)
  }

  /** The memory holds the bytes of every instruction line. */
  ghost predicate Loaded(ec: Emu.EmuConfig, mem: seq<byte>, p: Program) {
    && ec.memBase + |mem| <= 0x1_0000_0000
    && forall i, k :: CodeByte(p, i, k) ==>
                        && ec.memBase <= k < ec.memBase + |mem|
                        && mem[k - ec.memBase] == Covering(p.srcs[i].op, p.ps[i].pc, p.syms, k)
  }

  // ---------- the source's own run

  /** The last instruction line placed at an address. */
  function FindLine(p: Program, pc: int, n: nat): (r: Emu.Option<nat>)
    requires n <= |p.srcs|
    ensures r.Some? ==> IsCode(p, r.value) && p.ps[r.value].pc == pc
    ensures r.None? ==> forall i :: 0 <= i < n && IsCode(p, i) ==> p.ps[i].pc != pc
  {
    if n == 0 then Emu.None
    else if IsCode(p, n - 1) && p.ps[n - 1].pc == pc then Emu.Some(n - 1)
    else FindLine(p, pc, n - 1)
  }

  datatype LineResult = Stepped(cpu: Emu.Cpu, wrote: Emu.Option<Emu.MemRecord>) | Trap(kind: Emu.TrapKind) | OffProgram

  function Finish(e: Emu.Executed, words: nat): LineResult {
    match e
    case Trapped(k) => Trap(k)
    case Executed(c, next, mw) => Stepped(c.(pc := next, steps := c.steps + words), mw)
  }

  /** One line of source. */
  function LineStep(ec: Emu.EmuConfig, p: Program, s: Emu.Cpu): LineResult {
    match FindLine(p, s.pc, |p.srcs|)
    case None => OffProgram
    case Some(i) =>
      var ins := p.srcs[i].op.ins;
      Finish(Meaning(ec, s, ins, p.syms), InstrSize(ins) / 4)
  }

  datatype SourceRun = Halted(cpu: Emu.Cpu) | Going(cpu: Emu.Cpu) | Off(cpu: Emu.Cpu) | Fault(cpu: Emu.Cpu, kind: Emu.TrapKind)

  /** At most `n` lines. */
  function RunLines(ec: Emu.EmuConfig, p: Program, s: Emu.Cpu, n: nat): SourceRun
    decreases n
  {
    if s.halted then Halted(s)
    else if n == 0 then Going(s)
    else
      match LineStep(ec, p, s)
      case OffProgram => Off(s)
      case Trap(k) => Fault(s, k)
      case Stepped(c, _) => RunLines(ec, p, c, n - 1)
  }

  /** A store touches no instruction line's bytes. */
  ghost predicate ClearOfCode(ec: Emu.EmuConfig, p: Program, w: Emu.Option<Emu.MemRecord>) {
    w.Some? && w.value.addr != ec.tohost ==>
      forall i, k :: w.value.addr <= k < w.value.addr + SizeOf(w.value.size) ==> !CodeByte(p, i, k)
  }

  /** None of the first `n` lines stores into code. */
  ghost predicate NoCodeStores(ec: Emu.EmuConfig, p: Program, s: Emu.Cpu, n: nat)
    decreases n
  {
    n == 0 || s.halted ||
    match LineStep(ec, p, s)
    case Stepped(c, w) => ClearOfCode(ec, p, w) && NoCodeStores(ec, p, c, n - 1)
    case _ => true
  }

  // ---------- the words are where the PC looks for them

  lemma {:induction false} WordsAsBytes(ws: seq<word>, j: nat)
    requires j < 4 * |ws|
    ensures BytesOfWords(ws)[j] == Lane(ws[j / 4], j % 4)
    decreases |ws|
  {
    var n := |ws| - 1;
    if j < 4 * n {
      WordsAsBytes(ws[..n], j);
    }
  }

  lemma WordFetched(ec: Emu.EmuConfig, mem: seq<byte>, p: Program, i: int, j: nat)
    requires Loaded(ec, mem, p) && IsCode(p, i)
    requires var r := EncodeInstr(p.srcs[i].op.ins, p.ps[i].pc, p.syms); r.Ok? && j < |r.value|
    ensures var a := p.ps[i].pc + 4 * j;
            && ec.memBase <= a && a + 4 <= ec.memBase + |mem|
            && Get32(mem, a - ec.memBase) == EncodeInstr(p.srcs[i].op.ins, p.ps[i].pc, p.syms).value[j]
  {
    hide EncodeInstr, BytesOfWords, Lane, FromLanes;
    var ws, a := EncodeInstr(p.srcs[i].op.ins, p.ps[i].pc, p.syms).value, p.ps[i].pc + 4 * j;
    forall r | 0 <= r < 4
      ensures ec.memBase <= a + r < ec.memBase + |mem| && mem[a + r - ec.memBase] == Lane(ws[j], r)
    {
      assert CodeByte(p, i, a + r);
      WordsAsBytes(ws, 4 * j + r);
    }
    assert a == a + 0;
    LanesOfWord(ws[j]);
    FourBytes(mem, a - ec.memBase, ws[j]);
  }

  lemma FourBytes(mem: seq<byte>, o: nat, w: word)
    requires o + 4 <= |mem|
    requires mem[o] == Lane(w, 0) && mem[o + 1] == Lane(w, 1) && mem[o + 2] == Lane(w, 2) && mem[o + 3] == Lane(w, 3)
    ensures Get32(mem, o) == w
  {
    LanesOfWord(w);
  }

  lemma FetchLine(ec: Emu.EmuConfig, mem: seq<byte>, p: Program, i: int, j: nat, pc: word)
    requires Loaded(ec, mem, p) && IsCode(p, i)
    requires var r := EncodeInstr(p.srcs[i].op.ins, p.ps[i].pc, p.syms); r.Ok? && j < |r.value|
    requires pc == p.ps[i].pc + 4 * j && pc % 4 == 0
    ensures Emu.FetchAt(ec, mem, pc) == Emu.Word(EncodeInstr(p.srcs[i].op.ins, p.ps[i].pc, p.syms).value[j])
    ensures pc + 4 <= 0x1_0000_0000
  {
    hide Loaded, EncodeInstr, Get32;
    WordFetched(ec, mem, p, i, j);
    MemoryFits(ec, mem, p);
  }

  lemma MemoryFits(ec: Emu.EmuConfig, mem: seq<byte>, p: Program)
    requires Loaded(ec, mem, p)
    ensures ec.memBase + |mem| <= 0x1_0000_0000
  {}

  // ---------- one line

  /** The two words of a two-word line make its one step. */
  lemma TwoWordMeans(ec: Emu.EmuConfig, s: Emu.Cpu, ins: Instr, base: int, syms: Symbols)
    requires EncodeInstr(ins, base, syms).Ok? && InstrSize(ins) == 8
    requires s.pc == U32(base) && AlignedTarget(ins, syms)
    ensures var ws := EncodeInstr(ins, base, syms).value;
            && |ws| == 2
            && var e0 := Emu.Execute(ec, s, ws[0]);
            && RunsOn(s, e0)
            && Finish(Emu.Execute(ec, Between(e0), ws[1]), 1) == Finish(Meaning(ec, s, ins, syms), 2)
  {
    hide Emu.Execute, IType, UType, U32, Upper, RegWrite;
    var ws := EncodeInstr(ins, base, syms).value;
    match ins
    case Li(rd, imm) => LiMeans(ec, s, rd, ValueOf(imm, syms), ws[0], ws[1]);
    case La(rd, t) => LaMeans(ec, s, rd, base, ValueOf(t, syms), ws[0], ws[1]);
    case Call(t) => CallMeans(ec, s, base, ValueOf(t, syms), ws[0], ws[1]);
  }

  lemma OneStep(ec: Emu.EmuConfig, s: Emu.Cpu, w: word)
    requires Emu.FetchAt(ec, s.mem, s.pc) == Emu.Word(w)
    ensures var e := Emu.EmuStep(ec, s);
            match Finish(Emu.Execute(ec, s, w), 1)
            case Trap(k) => e == Emu.Raised(k)
            case Stepped(c, w) => e.Done? && e.cpu == c && e.trace.memWrite == w
            case OffProgram => false
  {
    hide Emu.Execute, Emu.FetchAt, Emu.RecordsRd;
  }

  /** The emulator from `s` reaches `t` in `d` steps, running all the way. */
  ghost predicate Reaches(ec: Emu.EmuConfig, s: Emu.Cpu, d: nat, t: Emu.Cpu)
    decreases d
  {
    if d == 0 then s == t
    else !s.halted && Emu.EmuStep(ec, s).Done? && Reaches(ec, Emu.EmuStep(ec, s).cpu, d - 1, t)
  }

  /** A one-word line in the emulator: its word is fetched and its step taken. */
  lemma OneWordLine(ec: Emu.EmuConfig, p: Program, s: Emu.Cpu, i: nat)
    requires Accepted(p) && Loaded(ec, s.mem, p) && s.pc % 4 == 0
    requires IsCode(p, i) && p.ps[i].pc == s.pc && InstrSize(p.srcs[i].op.ins) == 4
    ensures var ws, e := EncodeInstr(p.srcs[i].op.ins, s.pc, p.syms).value, Emu.EmuStep(ec, s);
            && |ws| == 1 && Emu.FetchAt(ec, s.mem, s.pc) == Emu.Word(ws[0])
            && match Finish(Meaning(ec, s, p.srcs[i].op.ins, p.syms), 1)
               case Trap(k) => e == Emu.Raised(k)
               case Stepped(c, w) => e.Done? && e.cpu == c && e.trace.memWrite == w
               case OffProgram => false
  {
    hide EncodeInstr, Meaning, Loaded, Emu.EmuStep, Emu.Execute, Emu.FetchAt, U32;
    var ins := p.srcs[i].op.ins;
    EncodedSize(ins, s.pc, p.syms);
    WordIsItself(s.pc);
    FetchLine(ec, s.mem, p, i, 0, s.pc);
    OneStep(ec, s, EncodeInstr(ins, s.pc, p.syms).value[0]);
    OneWordMeans(ec, s, ins, s.pc, p.syms);
  }

  /** A two-word line in the emulator: two fetches and two steps, neither storing. */
  lemma TwoWordLine(ec: Emu.EmuConfig, p: Program, s: Emu.Cpu, i: nat)
    requires Accepted(p) && Loaded(ec, s.mem, p) && s.pc % 4 == 0
    requires IsCode(p, i) && p.ps[i].pc == s.pc && InstrSize(p.srcs[i].op.ins) == 8
    ensures var ws, e := EncodeInstr(p.srcs[i].op.ins, s.pc, p.syms).value, Emu.EmuStep(ec, s);
            && |ws| == 2 && Emu.FetchAt(ec, s.mem, s.pc) == Emu.Word(ws[0])
            && e.Done? && e.trace.memWrite == Emu.None && e.cpu.halted == s.halted
            && e.cpu.pc == U32(s.pc + 4) && Emu.FetchAt(ec, e.cpu.mem, e.cpu.pc) == Emu.Word(ws[1])
            && var f := Emu.EmuStep(ec, e.cpu);
            f.Done? && Finish(Meaning(ec, s, p.srcs[i].op.ins, p.syms), 2) == Stepped(f.cpu, f.trace.memWrite)
  {
    hide EncodeInstr, Meaning, Loaded, Emu.EmuStep, Emu.Execute, Emu.FetchAt, U32;
    var ins := p.srcs[i].op.ins;
    var ws := EncodeInstr(ins, s.pc, p.syms).value;
    EncodedSize(ins, s.pc, p.syms);
    WordIsItself(s.pc);
    FetchLine(ec, s.mem, p, i, 0, s.pc);
    OneStep(ec, s, ws[0]);
    TwoWordMeans(ec, s, ins, s.pc, p.syms);
    FetchLast(ec, s.mem, p, i, s.pc);
    OneStep(ec, Between(Emu.Execute(ec, s, ws[0])), ws[1]);
    NoTrapInTwo(ec, s, ins, p.syms);
  }

  /** A running emulator at a line does what the line means: one step or two, or the
      line's own trap with nothing changed. */
  lemma LineSimulated(ec: Emu.EmuConfig, p: Program, s: Emu.Cpu)
    requires Accepted(p) && Loaded(ec, s.mem, p) && !s.halted && s.pc % 4 == 0
    requires !LineStep(ec, p, s).OffProgram?
    ensures match LineStep(ec, p, s)
            case Trap(k) => Emu.EmuStep(ec, s) == Emu.Raised(k)
            case Stepped(c, _) => c.steps >= s.steps + 1 && Reaches(ec, s, c.steps - s.steps, c)
            case OffProgram => false
  {
    hide EncodeInstr, Meaning, Loaded, Accepted, Emu.EmuStep, Emu.FetchAt, U32;
    var i := FindLine(p, s.pc, |p.srcs|).value;
    var ins := p.srcs[i].op.ins;
    MeaningSteps(ec, s, ins, p.syms);
    if InstrSize(ins) == 4 {
      OneWordLine(ec, p, s, i);
      ReachesOne(ec, s);
    } else {
      TwoWordLine(ec, p, s, i);
      ReachesTwo(ec, s);
    }
  }

  lemma FetchLast(ec: Emu.EmuConfig, mem: seq<byte>, p: Program, i: int, pc: word)
    requires Loaded(ec, mem, p) && IsCode(p, i) && pc == p.ps[i].pc && pc % 4 == 0
    requires var r := EncodeInstr(p.srcs[i].op.ins, p.ps[i].pc, p.syms); r.Ok? && |r.value| == 2
    ensures Emu.FetchAt(ec, mem, U32(pc + 4)) == Emu.Word(EncodeInstr(p.srcs[i].op.ins, p.ps[i].pc, p.syms).value[1])
  {
    hide Loaded, EncodeInstr, Emu.FetchAt;
    WordFetched(ec, mem, p, i, 1);
    MemoryFits(ec, mem, p);
    FetchLine(ec, mem, p, i, 1, pc + 4);
  }

  lemma ReachesOne(ec: Emu.EmuConfig, s: Emu.Cpu)
    requires !s.halted
    ensures Emu.EmuStep(ec, s).Done? ==> Reaches(ec, s, 1, Emu.EmuStep(ec, s).cpu)
  {
    hide Emu.EmuStep;
  }

  lemma ReachesTwo(ec: Emu.EmuConfig, s: Emu.Cpu)
    requires !s.halted && Emu.EmuStep(ec, s).Done?
    ensures var m := Emu.EmuStep(ec, s).cpu;
            !m.halted && Emu.EmuStep(ec, m).Done? ==> Reaches(ec, s, 2, Emu.EmuStep(ec, m).cpu)
  {
    hide Emu.EmuStep;
    var m := Emu.EmuStep(ec, s).cpu;
    if !m.halted && Emu.EmuStep(ec, m).Done? {
      ReachesOne(ec, m);
    }
  }

  /** No line's action counts steps. */
  lemma MeaningSteps(ec: Emu.EmuConfig, s: Emu.Cpu, ins: Instr, syms: Symbols)
    ensures var e := Meaning(ec, s, ins, syms); e.Executed? ==> e.cpu.steps == s.steps
  {
    hide U32, RegWrite, ArithValue, ImmValue, ShiftValue, ByteMemory.Load, ByteMemory.Store, Holds;
  }

  lemma NoTrapInTwo(ec: Emu.EmuConfig, s: Emu.Cpu, ins: Instr, syms: Symbols)
    requires InstrSize(ins) == 8
    ensures var e := Meaning(ec, s, ins, syms); e.Executed? && e.memWrite == Emu.None && e.cpu.halted == s.halted
  {
    hide U32, RegWrite;
  }

  // ---------- what a line keeps

  /** Every accepted line leads to an aligned PC. */
  lemma NextAligned(ec: Emu.EmuConfig, s: Emu.Cpu, ins: Instr, syms: Symbols)
    requires s.pc % 4 == 0 && AlignedTarget(ins, syms)
    ensures var e := Meaning(ec, s, ins, syms); e.Executed? ==> e.nextPc % 4 == 0
  {
    hide U32, RegWrite, ArithValue, ImmValue, ShiftValue, ByteMemory.Load, ByteMemory.Store, Holds, Emu.TakeTrap,
      ValueOf;
    TrapVectorAligned(s, Emu.CAUSE_ECALL_M);
    TrapVectorAligned(s, Emu.CAUSE_BREAKPOINT);
    OnwardAligned(s.pc);
    match ins
    case Branch(_, _, _, t) => AlignedWrap(ValueOf(t, syms));
    case Jal(_, t) => AlignedWrap(ValueOf(t, syms));
    case J(t) => AlignedWrap(ValueOf(t, syms));
    case Beqz(_, t) => AlignedWrap(ValueOf(t, syms));
    case Bnez(_, t) => AlignedWrap(ValueOf(t, syms));
    case Call(t) => AlignedWrap(ValueOf(t, syms));
    case _ =>
  }

  lemma OnwardAligned(pc: word)
    requires pc % 4 == 0
    ensures U32(pc + 4) % 4 == 0 && U32(pc + 8) % 4 == 0
  {
    hide U32;
    AlignedWrap(pc + 4);
    AlignedWrap(pc + 8);
  }

  lemma TrapVectorAligned(s: Emu.Cpu, cause: word)
    ensures var e := Emu.TakeTrap(s, cause); e.Executed? && e.nextPc % 4 == 0
  {}

  /** A line changes memory only where its recorded store says. */
  lemma MeaningStores(ec: Emu.EmuConfig, s: Emu.Cpu, ins: Instr, syms: Symbols)
    ensures var e := Meaning(ec, s, ins, syms);
            e.Executed? ==> ChangedBy(ec, s.mem, e.cpu.mem, e.memWrite)
  {
    hide U32, RegWrite, ArithValue, ImmValue, ShiftValue, ByteMemory.Load, Holds, Emu.StoreAt;
    if ins.Store? {
      var addr := U32(s.regs[ins.rs1] + ValueOf(ins.imm, syms));
      StoreChanges(ec, s, addr, s.regs[ins.rs2], StoreSize(ins.wop));
    }
  }

  ghost predicate ChangedBy(ec: Emu.EmuConfig, mem: seq<byte>, next: seq<byte>, w: Emu.Option<Emu.MemRecord>) {
    && |next| == |mem|
    && forall j :: 0 <= j < |mem| && next[j] != mem[j] ==>
                     w.Some? && w.value.addr != ec.tohost
                     && w.value.addr <= ec.memBase + j < w.value.addr + SizeOf(w.value.size)
  }

  lemma StoreChanges(ec: Emu.EmuConfig, s: Emu.Cpu, addr: word, value: word, size: MemSize)
    ensures var e := Emu.StoreAt(ec, s, addr, value, size);
            e.Executed? ==> ChangedBy(ec, s.mem, e.cpu.mem, e.memWrite)
  {
    if Emu.InRange(ec, |s.mem|, addr, SizeOf(size)) {
      StoreOutside(s.mem, addr - ec.memBase, value, size);
    }
    hide ByteMemory.Store;
  }

  lemma StoreOutside(bs: seq<byte>, i: nat, v: word, size: MemSize)
    requires i + SizeOf(size) <= |bs|
    ensures forall j :: 0 <= j < |bs| && !(i <= j < i + SizeOf(size)) ==> ByteMemory.Store(bs, i, v, size)[j] == bs[j]
  {}

  lemma CodeStays(ec: Emu.EmuConfig, p: Program, mem: seq<byte>, next: seq<byte>, w: Emu.Option<Emu.MemRecord>)
    requires Loaded(ec, mem, p) && ChangedBy(ec, mem, next, w) && ClearOfCode(ec, p, w)
    ensures Loaded(ec, next, p)
  {
    hide Covers, Covering, Emit;
    forall i, k | CodeByte(p, i, k)
      ensures ec.memBase <= k < ec.memBase + |next|
      ensures next[k - ec.memBase] == Covering(p.srcs[i].op, p.ps[i].pc, p.syms, k)
    {
      var j := k - ec.memBase;
      assert mem[j] == Covering(p.srcs[i].op, p.ps[i].pc, p.syms, k);
    }
  }

  lemma LineKeeps(ec: Emu.EmuConfig, p: Program, s: Emu.Cpu)
    requires Accepted(p) && Loaded(ec, s.mem, p) && s.pc % 4 == 0 && LineStep(ec, p, s).Stepped?
    requires ClearOfCode(ec, p, LineStep(ec, p, s).wrote)
    ensures var c := LineStep(ec, p, s).cpu; Loaded(ec, c.mem, p) && c.pc % 4 == 0
  {
    hide Meaning, Loaded, ClearOfCode, ChangedBy, AlignedTarget, EncodeInstr;
    var i := FindLine(p, s.pc, |p.srcs|).value;
    var ins := p.srcs[i].op.ins;
    assert AlignedTarget(ins, p.syms);
    NextAligned(ec, s, ins, p.syms);
    MeaningStores(ec, s, ins, p.syms);
    var e := Meaning(ec, s, ins, p.syms);
    CodeStays(ec, p, s.mem, e.cpu.mem, e.memWrite);
  }

  // ---------- whole runs

  /** `fuel` steps of a run that passes through `t` after `d` of them. */
  lemma {:induction false} RunThrough(ec: Emu.EmuConfig, s: Emu.Cpu, d: nat, t: Emu.Cpu, fuel: nat)
    requires Reaches(ec, s, d, t) && fuel >= d
    ensures var r, q := Emu.EmuRun(ec, s, fuel), Emu.EmuRun(ec, t, fuel - d);
            r.cpu == q.cpu && r.end == q.end && |r.traces| == d + |q.traces|
    decreases d
  {
    hide Emu.EmuStep;
    if d > 0 {
      RunThrough(ec, Emu.EmuStep(ec, s).cpu, d - 1, t, fuel - 1);
    }
  }

  /** How the emulator's run ends, given how the source's does; a source run that is
      still going says nothing beyond the state it reached. */
  predicate EndsAlike(r: SourceRun, e: Emu.RunResult) {
    match r
    case Halted(t) => e.cpu == t && e.end == Emu.HALTED
    case Fault(t, k) => e.cpu == t && e.end == Emu.TRAPPED(k)
    case Going(t) => e.cpu == t && e.end == Emu.STEP_LIMIT
    case Off(t) => e.cpu == t && e.end == Emu.STEP_LIMIT
  }

  /** The whole run: started on the loaded image, the emulator given exactly the
      steps the source run counted (one more to raise a trap) stops in the source
      run's final state, for the same reason. */
  lemma {:induction false} SourceSimulated(ec: Emu.EmuConfig, p: Program, s: Emu.Cpu, n: nat)
    requires Accepted(p) && Loaded(ec, s.mem, p) && s.pc % 4 == 0
    requires NoCodeStores(ec, p, s, n)
    ensures var r := RunLines(ec, p, s, n);
            && r.cpu.steps >= s.steps
            && EndsAlike(r, Emu.EmuRun(ec, s, r.cpu.steps - s.steps + if r.Fault? then 1 else 0))
    decreases n
  {
    hide LineStep, Loaded, Accepted, ClearOfCode, Emu.EmuStep;
    if !s.halted && n > 0 {
      var l := LineStep(ec, p, s);
      if !l.OffProgram? {
        LineSimulated(ec, p, s);
      }
      if l.Stepped? {
        LineKeeps(ec, p, s);
        SourceSimulated(ec, p, l.cpu, n - 1);
        var r := RunLines(ec, p, l.cpu, n - 1);
        RunThrough(ec, s, l.cpu.steps - s.steps, l.cpu, r.cpu.steps - s.steps + if r.Fault? then 1 else 0);
      }
    }
  }

  // ---------- from source to run

  /** The program of an accepted assembly. */
  function ProgramOf(srcs: seq<Source>, b: Placed): Program
    requires |b.placements| == |srcs|
  {
    Program(srcs, b.placements, b.syms)
  }

  /** Every label operand of every line is word-aligned. */
  ghost predicate TargetsAligned(srcs: seq<Source>, syms: Symbols) {
    forall i :: 0 <= i < |srcs| && srcs[i].op.Instruction? ==> AlignedTarget(srcs[i].op.ins, syms)
  }

  lemma BuildAccepts(srcs: seq<Source>, tb: int, pinned: bool, db: int)
    requires Build(srcs, tb, pinned, db).Ok? && TargetsAligned(srcs, Build(srcs, tb, pinned, db).value.syms)
    ensures Accepted(ProgramOf(srcs, Build(srcs, tb, pinned, db).value))
  {
    hide PlaceAll, SizeAll, EmitAll, EncodeInstr, AlignedTarget;
    var b := Build(srcs, tb, pinned, db).value;
    var p := ProgramOf(srcs, b);
    forall i | IsCode(p, i)
      ensures EncodeInstr(srcs[i].op.ins, b.placements[i].pc, b.syms).Ok? && AlignedTarget(srcs[i].op.ins, b.syms)
    {
      EmitOk(srcs, b.placements, b.syms, |srcs|, i);
    }
  }

  /** What `load_program` leaves: the words' bytes at `base`, the rest as before. */
  predicate LoadedAt(ec: Emu.EmuConfig, mem: seq<byte>, before: seq<byte>, ws: seq<word>, base: int) {
    var o := base - ec.memBase;
    && ec.memBase <= base && o + 4 * |ws| <= |before|
    && mem == before[..o] + BytesOfWords(ws) + before[o + 4 * |ws|..]
  }

  /** Loading the packed words at the image's origin loads every line's bytes. */
  lemma ImageLoads(ec: Emu.EmuConfig, srcs: seq<Source>, tb: int, pinned: bool, db: int,
                   before: seq<byte>, mem: seq<byte>)
    requires Build(srcs, tb, pinned, db).Ok? && RangesApart(Build(srcs, tb, pinned, db).value.placements)
    requires var lo, ws := Origin(Build(srcs, tb, pinned, db).value.image), Assembled(srcs, tb, pinned, db).value;
             LoadedAt(ec, mem, before, ws, lo)
    requires ec.memBase + |mem| <= 0x1_0000_0000
    ensures Loaded(ec, mem, ProgramOf(srcs, Build(srcs, tb, pinned, db).value))
  {
    hide PlaceAll, SizeAll, EmitAll, Emit, Covers, Covering, Origin, PackImage, RangesApart, BytesOfWords, EmitsInRange,
      Written, DefaultDataBase, Lane, Build;
    var b := Build(srcs, tb, pinned, db).value;
    var p := ProgramOf(srcs, b);
    var lo, ws := Origin(b.image), Assembled(srcs, tb, pinned, db).value;
    var o := lo - ec.memBase;
    forall i, k | CodeByte(p, i, k)
      ensures ec.memBase <= k < ec.memBase + |mem|
      ensures mem[k - ec.memBase] == Covering(srcs[i].op, b.placements[i].pc, b.syms, k)
    {
      LayoutSound(srcs, tb, pinned, db, k);
      WordsAsBytes(ws, k - lo);
      assert mem[k - ec.memBase] == BytesOfWords(ws)[k - lo];
    }
  }

  /** An image with nothing in it has no code to load. */
  lemma NothingLoads(ec: Emu.EmuConfig, srcs: seq<Source>, tb: int, pinned: bool, db: int, mem: seq<byte>)
    requires Build(srcs, tb, pinned, db).Ok? && Build(srcs, tb, pinned, db).value.image.keys == []
    requires ec.memBase + |mem| <= 0x1_0000_0000
    ensures Loaded(ec, mem, ProgramOf(srcs, Build(srcs, tb, pinned, db).value))
  {
    hide PlaceAll, SizeAll, EmitAll, Emit, Covers, Covering, DefaultDataBase;
    var b := Build(srcs, tb, pinned, db).value;
    var p := ProgramOf(srcs, b);
    forall i, k | IsCode(p, i)
      ensures !CodeByte(p, i, k)
    {
      ImageKeys(srcs, b.placements, b.syms, |srcs|, k);
      assert k !in b.image.keys;
    }
  }

  /** Source to image to run, for any bases that keep the lines apart: assemble, load at
      the image's origin, start at any aligned address; as long as nothing stores into
      code, the emulator does what the source says and stops as it stops. */
  lemma ImageRuns(ec: Emu.EmuConfig, srcs: seq<Source>, tb: int, pinned: bool, db: int, s: Emu.Cpu,
                  before: seq<byte>, n: nat)
    requires Build(srcs, tb, pinned, db).Ok? && RangesApart(Build(srcs, tb, pinned, db).value.placements)
    requires var lo, ws := Origin(Build(srcs, tb, pinned, db).value.image), Assembled(srcs, tb, pinned, db).value;
             LoadedAt(ec, s.mem, before, ws, lo)
    requires ec.memBase + |s.mem| <= 0x1_0000_0000 && s.pc % 4 == 0
    requires var b := Build(srcs, tb, pinned, db).value;
             TargetsAligned(srcs, b.syms) && NoCodeStores(ec, ProgramOf(srcs, b), s, n)
    ensures var r := RunLines(ec, ProgramOf(srcs, Build(srcs, tb, pinned, db).value), s, n);
            && r.cpu.steps >= s.steps
            && EndsAlike(r, Emu.EmuRun(ec, s, r.cpu.steps - s.steps + if r.Fault? then 1 else 0))
  {
    hide Build, Origin, Assembled, BytesOfWords, TargetsAligned, NoCodeStores, RunLines, Emu.EmuRun, Loaded, Accepted,
      RangesApart, EndsAlike, LoadedAt;
    BuildAccepts(srcs, tb, pinned, db);
    ImageLoads(ec, srcs, tb, pinned, db, before, s.mem);
    SourceSimulated(ec, ProgramOf(srcs, Build(srcs, tb, pinned, db).value), s, n);
  }

  /** With the default data base and a fitting text base that is a word address, the
      same holds with the words loaded where the assembler says they belong, at the
      text base. */
  lemma AssembledRuns(ec: Emu.EmuConfig, srcs: seq<Source>, tb: int, s: Emu.Cpu, before: seq<byte>, n: nat)
    requires Build(srcs, tb, false, 0).Ok? && BaseFits(srcs, tb) && tb % 4 == 0
    requires LoadedAt(ec, s.mem, before, Assembled(srcs, tb, false, 0).value, tb)
    requires ec.memBase + |s.mem| <= 0x1_0000_0000 && s.pc % 4 == 0
    requires var b := Build(srcs, tb, false, 0).value;
             TargetsAligned(srcs, b.syms) && NoCodeStores(ec, ProgramOf(srcs, b), s, n)
    ensures var r := RunLines(ec, ProgramOf(srcs, Build(srcs, tb, false, 0).value), s, n);
            && r.cpu.steps >= s.steps
            && EndsAlike(r, Emu.EmuRun(ec, s, r.cpu.steps - s.steps + if r.Fault? then 1 else 0))
  {
    hide Build, Origin, Assembled, BaseFits, BytesOfWords, TargetsAligned, NoCodeStores, RunLines, Emu.EmuRun, Loaded,
      Accepted, RangesApart, EndsAlike, LoadedAt;
    BuildAccepts(srcs, tb, false, 0);
    LoadsAtBase(ec, srcs, tb, before, s.mem);
    SourceSimulated(ec, ProgramOf(srcs, Build(srcs, tb, false, 0).value), s, n);
  }

  lemma LoadsAtBase(ec: Emu.EmuConfig, srcs: seq<Source>, tb: int, before: seq<byte>, mem: seq<byte>)
    requires Build(srcs, tb, false, 0).Ok? && BaseFits(srcs, tb) && tb % 4 == 0
    requires LoadedAt(ec, mem, before, Assembled(srcs, tb, false, 0).value, tb)
    requires ec.memBase + |mem| <= 0x1_0000_0000
    ensures Loaded(ec, mem, ProgramOf(srcs, Build(srcs, tb, false, 0).value))
  {
    hide Build, Origin, Assembled, BaseFits, BytesOfWords, Loaded, RangesApart, LoadedAt;
    if Build(srcs, tb, false, 0).value.image.keys == [] {
      NothingLoads(ec, srcs, tb, false, 0, mem);
    } else {
      OriginIsBase(srcs, tb);
      BuildIsApart(srcs, tb);
      ImageLoads(ec, srcs, tb, false, 0, before, mem);
    }
  }
}
