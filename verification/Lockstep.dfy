/** The repository's lockstep check, for every program that stays in bounds: the
    pipelined core and the emulator's run end in the same state. */
module Lockstep {
  import opened Words
  import opened RiscvPkg
  import opened Decoder
  import opened DataMemory
  import opened Reference
  import opened ByteMemory
  import opened TopPipeline
  import opened PipelineInvariant
  import opened PipelineTheorems
  import opened Agreement
  import Emu = Emulator

  /** When the pipeline reports halted, the emulator's run from the same start, given
      any more steps than the pipeline retired instructions, ends with the same
      registers and the same memory bytes, for the reported cause. */
  lemma PipelineMatchesEmulator(cfg: Config, ec: Emu.EmuConfig, data: Ram, s: Emu.Cpu, code: set<int>, t: nat, fuel: nat)
    requires Same(cfg, ec, Start(cfg, data), s) && CodeIs(cfg, s.mem, code)
    requires Halted(At(cfg, data, t)) && fuel > OccAt(cfg, data, t).retired
    requires forall j: nat :: j <= OccAt(cfg, data, t).retired ==> InBounds(cfg, Run(cfg, Start(cfg, data), j), code)
    ensures var p, n, r := At(cfg, data, t), OccAt(cfg, data, t).retired, Emu.EmuRun(ec, s, fuel);
            && p.regs == r.cpu.regs && BytesOf(p.mem) == r.cpu.mem
            && EndsFor(p.wbHc, Ctrl(cfg, Ref(cfg, data, n)).memRead, p.tohostValue, n, r)
  {
    hide At, OccAt, Halted, Emu.EmuRun, InBounds, CodeIs, Step, Run, Cause, Src2, Ctrl;
    PreciseHalt(cfg, data, t);
    HaltsAgree(cfg, ec, Start(cfg, data), s, code, OccAt(cfg, data, t).retired, fuel);
  }

  /** The smallest program: a lone ECALL at address 0. It meets every assumption
      above, both machines stop on it at once, and the pipeline says so from the
      fourth clock edge on. */
  lemma EcallProgram(cfg: Config, ec: Emu.EmuConfig, data: Ram, s: Emu.Cpu, t: nat)
    requires cfg.imem == [ECALL_WORD] && cfg.pcReset == 0
    requires Same(cfg, ec, Start(cfg, data), s) && Get32(s.mem, 0) == ECALL_WORD
    ensures CodeIs(cfg, s.mem, {0}) && InBounds(cfg, Start(cfg, data), {0})
    ensures HaltsAt(cfg, Start(cfg, data), 0) && Cause(cfg, Start(cfg, data)) == ECALL
    ensures Halted(At(cfg, data, t)) <==> t >= 4
  {
    EcallDecodes();
    hide At, Decode, Opcode, Funct3, Funct7, Funct12, DecodeCause, BytesOf, AluY;
    var a := Start(cfg, data);
    assert Inst(cfg, a) == ECALL_WORD;
    NotBranch(cfg, a);
    assert Cause(cfg, a) == ECALL;
    CycleLaw(cfg, data, 0, t);
  }

  const ECALL_WORD: word := 0x0000_0073

  lemma EcallDecodes()
    ensures Decode(ECALL_WORD) == NOP_CTRL && DecodeCause(ECALL_WORD) == ECALL && AgreedWord(ECALL_WORD)
  {}
}
