/** What the emulator's trace names, what its memory keeps, and what its CSRs and traps
    do, from the state before the step. */
module EmulatorLaws {
  import opened Words
  import opened RiscvPkg
  import opened Formats
  import opened RegFile
  import opened ByteMemory
  import opened Emulator

  // ---------- the trace

  /** A step's trace names its own PC and the word fetched there; it records a register
      exactly when a non-x0 destination was written, and a store exactly when the word
      is a store, with its address and data. */
  lemma TraceNames(cfg: EmuConfig, s: Cpu)
    requires EmuStep(cfg, s).Done?
    ensures var r := EmuStep(cfg, s);
            var t := r.trace;
            var op := Opcode(t.inst);
            && t.pc == s.pc && FetchAt(cfg, s.mem, s.pc) == Word(t.inst)
            && (t.rdWrite.Some? <==> Rd(t.inst) != 0 && op !in {0x63, 0x23, 0x0F})
            && (t.rdWrite.Some? ==> t.rdWrite.value == RegRecord(Rd(t.inst), r.cpu.regs[Rd(t.inst)]))
            && (t.memWrite.Some? <==> op == 0x23)
            && (t.memWrite.Some? ==>
                  && t.memWrite.value.addr == U32(s.regs[Rs1(t.inst)] + ImmS(t.inst))
                  && t.memWrite.value.value == s.regs[Rs2(t.inst)]
                  && SizeOf(t.memWrite.value.size) == Pow2(Funct3(t.inst)))
            && r.cpu.steps == s.steps + 1
  {
    hide ImmI, ImmS, ImmB, ImmJ, ImmU, AluCommon, Load, Store, U32, BranchTakes, Slice, Or32, And32, FetchAt, RegWrite;
    Pow2Small();
  }

  lemma Pow2Small()
    ensures Pow2(0) == 1 && Pow2(1) == 2 && Pow2(2) == 4
  {}

  /** Entry `k` of a run's trace is the instruction the run executed from its state
      after `k` steps. */
  lemma {:induction false} TracePath(cfg: EmuConfig, s: Cpu, fuel: nat, k: nat)
    requires k < |EmuRun(cfg, s, fuel).traces|
    ensures var t, p := EmuRun(cfg, s, fuel).traces[k], EmuRun(cfg, s, k).cpu;
            t.pc == p.pc && FetchAt(cfg, p.mem, p.pc) == Word(t.inst) && EmuRun(cfg, s, k).end == STEP_LIMIT
    decreases k
  {
    hide EmuStep, FetchAt;
    var e := EmuStep(cfg, s);
    if k == 0 {
      TraceNames(cfg, s);
    } else {
      TracePath(cfg, e.cpu, fuel - 1, k - 1);
    }
  }

  // ---------- memory

  /** A store that is executed, and not for the host, is a byte store in range. */
  lemma StoreShape(cfg: EmuConfig, s: Cpu, addr: word, value: word, size: MemSize)
    requires addr != cfg.tohost && StoreAt(cfg, s, addr, value, size).Executed?
    ensures InRange(cfg, |s.mem|, addr, SizeOf(size)) && Aligned(addr, size)
    ensures StoreAt(cfg, s, addr, value, size).cpu.mem == Store(s.mem, addr - cfg.memBase, value, size)
  {
    hide Store, U32, Aligned, SizeOf;
  }

  /** The part of a word an access of this size carries. */
  function LowPart(v: word, size: MemSize): word {
    match size
    case MEM_B => v % 0x100
    case MEM_H => v % 0x1_0000
    case MEM_W => v
  }

  /** What a store leaves is what a load of the same address and size returns, cut to
      the size. */
  lemma StoreThenLoad(cfg: EmuConfig, s: Cpu, addr: word, value: word, size: MemSize)
    requires addr != cfg.tohost && StoreAt(cfg, s, addr, value, size).Executed?
    ensures LoadAt(cfg, StoreAt(cfg, s, addr, value, size).cpu.mem, addr, size, false) ==
            Word(LowPart(value, size))
  {
    hide StoreAt, Store, Load, LowPart;
    StoreShape(cfg, s, addr, value, size);
    StoredBack(s.mem, addr - cfg.memBase, value, size);
  }

  /** An access that shares no byte with a store is as it was before it. */
  lemma StoreElsewhere(cfg: EmuConfig, s: Cpu, addr: word, value: word, size: MemSize, other: word, width: MemSize,
                       signed: bool)
    requires addr != cfg.tohost && StoreAt(cfg, s, addr, value, size).Executed?
    requires other + SizeOf(width) <= addr || addr + SizeOf(size) <= other
    ensures LoadAt(cfg, StoreAt(cfg, s, addr, value, size).cpu.mem, other, width, signed) ==
            LoadAt(cfg, s.mem, other, width, signed)
  {
    hide StoreAt, Store, Load, SizeOf, Aligned;
    StoreShape(cfg, s, addr, value, size);
    if InRange(cfg, |s.mem|, other, SizeOf(width)) {
      StoredElsewhere(s.mem, addr - cfg.memBase, value, size, other - cfg.memBase, width, signed);
    }
  }

  lemma StoredBack(bs: seq<byte>, i: nat, v: word, size: MemSize)
    requires i + SizeOf(size) <= |bs|
    ensures Load(Store(bs, i, v, size), i, size, false) == LowPart(v, size)
  {
    DivDiv(v, 0x100, 0x100);
    DivDiv(v, 0x1_0000, 0x100);
    var a, b, c := v / 0x100, v / 0x1_0000, v / 0x100_0000;
    assert v == v % 0x100 + 0x100 * a && a == a % 0x100 + 0x100 * b && b == b % 0x100 + 0x100 * c;
    DivModUnique(v, 0x1_0000, b, v % 0x100 + 0x100 * (a % 0x100));
  }

  lemma StoredElsewhere(bs: seq<byte>, i: nat, v: word, size: MemSize, j: nat, width: MemSize, signed: bool)
    requires i + SizeOf(size) <= |bs| && j + SizeOf(width) <= |bs|
    requires j + SizeOf(width) <= i || i + SizeOf(size) <= j
    ensures Load(Store(bs, i, v, size), j, width, signed) == Load(bs, j, width, signed)
  {
    hide U32, Sext;
  }

  // ---------- CSRs and traps

  /** A CSR's value, zero if it was never written. */
  function CsrOf(s: Cpu, csr: int): word {
    if csr in s.csrs then s.csrs[csr] else 0
  }

  /** The six CSR instructions: rd gets the old value; the write is the source itself,
      or sets or clears the source's bits, and a zero source sets and clears nothing;
      nothing else changes. */
  lemma CsrInstructions(cfg: EmuConfig, s: Cpu, inst: word, k: nat, other: int)
    requires Opcode(inst) == 0x73 && Funct3(inst) in {1, 2, 3, 5, 6, 7} && k < 32
    ensures var f3, csr, e := Funct3(inst), Funct12(inst), Execute(cfg, s, inst);
            var src: word := if f3 >= 5 then Rs1(inst) else s.regs[Rs1(inst)];
            && e.Executed? && e.memWrite == None && e.nextPc == U32(s.pc + 4)
            && e.cpu == s.(regs := RegWrite(s.regs, true, Rd(inst), CsrOf(s, csr)), csrs := e.cpu.csrs)
            && (other != csr ==> CsrOf(e.cpu, other) == CsrOf(s, other))
            && (f3 in {1, 5} ==> CsrOf(e.cpu, csr) == src)
            && (f3 in {2, 6} ==> (Bit(CsrOf(e.cpu, csr), k) <==> Bit(CsrOf(s, csr), k) || Bit(src, k)))
            && (f3 in {3, 7} ==> (Bit(CsrOf(e.cpu, csr), k) <==> Bit(CsrOf(s, csr), k) && !Bit(src, k)))
            && (f3 !in {1, 5} && src == 0 ==> e.cpu == s.(regs := e.cpu.regs))
  {
    hide Slice, Bit, Or32, And32, RegWrite;
    var f3, csr := Funct3(inst), Funct12(inst);
    var src: word := if f3 >= 5 then Rs1(inst) else s.regs[Rs1(inst)];
    WordBits(CsrOf(s, csr), src, k);
    WordBits(CsrOf(s, csr), 0xFFFF_FFFF - src, k);
    Inverted(src, k);
    NoBits(k);
    DivModUnique(CsrOf(s, csr), 0x1_0000_0000, 0, CsrOf(s, csr));
  }

  lemma Inverted(a: word, k: nat)
    requires k < 32
    ensures Bit(0xFFFF_FFFF - a, k) <==> !Bit(a, k)
  {
    Pow2At32();
    XorOnes(a, 32);
    Bitwise(a, 0xFFFF_FFFF, k);
    BitOfOnes(32, k);
  }

  /** With traps enabled, ECALL and EBREAK save the PC in mepc and their cause in
      mcause, touch nothing else, and go to mtvec with its low two bits cleared; an MRET
      that still finds that mepc comes back to the instruction that trapped. */
  lemma TrapAndReturn(cfg: EmuConfig, s: Cpu, inst: word, t: Cpu, ret: word)
    requires cfg.trapOnEcall && Opcode(inst) == 0x73 && Funct3(inst) == 0 && Funct12(inst) in {0, 1}
    requires Opcode(ret) == 0x73 && Funct3(ret) == 0 && Funct12(ret) == 0x302
    ensures var e := Execute(cfg, s, inst);
            && e.Executed? && e.memWrite == None && e.cpu == s.(csrs := e.cpu.csrs)
            && CsrOf(e.cpu, 0x341) == s.pc && CsrOf(e.cpu, 0x342) == (if Funct12(inst) == 0 then 11 else 3)
            && (forall c :: c != 0x341 && c != 0x342 ==> CsrOf(e.cpu, c) == CsrOf(s, c))
            && e.nextPc % 4 == 0 && e.nextPc <= CsrOf(s, 0x305) < e.nextPc + 4
            && (CsrOf(t, 0x341) == CsrOf(e.cpu, 0x341) ==> Execute(cfg, t, ret) == Executed(t, s.pc, None))
  {
    hide Slice, U32;
  }
}
