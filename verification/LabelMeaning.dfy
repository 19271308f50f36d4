/** Labels from line to line: what an emitted word that names a label does, in terms of
    the line that carries it. */
module LabelMeaning {
  import opened Words
  import opened RiscvPkg
  import opened RegFile
  import opened Formats
  import opened A = Assembler
  import opened Layout
  import opened LayoutProofs
  import opened SourceMeaning
  import Emu = Emulator

  /** Line `i` carries the label, and is no section directive. */
  predicate Carries(srcs: seq<Source>, i: int, name: string) {
    0 <= i < |srcs| && srcs[i].mark == Label(name) && !srcs[i].op.TextDir? && !srcs[i].op.DataDir?
  }

  predicate IsLine(srcs: seq<Source>, j: int, ins: Instr) {
    0 <= j < |srcs| && srcs[j].op == Instruction(ins)
  }

  /** The table's entry for a label is the address of the line that carries it. */
  lemma LabelValue(srcs: seq<Source>, tb: int, pinned: bool, db: int, i: int, name: string)
    requires Build(srcs, tb, pinned, db).Ok? && Carries(srcs, i, name)
    ensures var b := Build(srcs, tb, pinned, db).value;
            Defined(Sym(name), b.syms) && ValueOf(Sym(name), b.syms) == b.placements[i].pc
  {
    hide PlaceAll, SizeAll, EmitAll;
    var base := if pinned then db else DefaultDataBase(tb, SizeAll(srcs, |srcs|).value);
    LabelAddress(srcs, tb, base, |srcs|, i);
  }

  lemma LineEncodes(srcs: seq<Source>, tb: int, pinned: bool, db: int, j: int, ins: Instr)
    requires Build(srcs, tb, pinned, db).Ok? && IsLine(srcs, j, ins)
    ensures var b := Build(srcs, tb, pinned, db).value; EncodeInstr(ins, b.placements[j].pc, b.syms).Ok?
  {
    hide PlaceAll, SizeAll, EmitAll, EncodeInstr;
    var b := Build(srcs, tb, pinned, db).value;
    EmitOk(srcs, b.placements, b.syms, |srcs|, j);
  }

  /** The one-word transfers to a symbol, and when each is taken. */
  predicate TransfersTo(ins: Instr, name: string) {
    match ins
    case Branch(_, _, _, t) => t == Sym(name)
    case Jal(_, t) => t == Sym(name)
    case J(t) => t == Sym(name)
    case Beqz(_, t) => t == Sym(name)
    case Bnez(_, t) => t == Sym(name)
    case _ => false
  }

  predicate IsTaken(ins: Instr, regs: RegBank) {
    match ins
    case Branch(cond, rs1, rs2, _) => Holds(cond, regs[rs1], regs[rs2])
    case Beqz(rs, _) => regs[rs] == 0
    case Bnez(rs, _) => regs[rs] != 0
    case _ => true
  }

  /** A taken branch or jump to a label goes to the line that carries it. */
  lemma TransferReachesLine(ec: Emu.EmuConfig, s: Emu.Cpu, srcs: seq<Source>, tb: int, pinned: bool, db: int,
                            i: int, j: int, ins: Instr, name: string)
    requires Build(srcs, tb, pinned, db).Ok? && Carries(srcs, i, name)
    requires IsLine(srcs, j, ins) && TransfersTo(ins, name)
    requires var b := Build(srcs, tb, pinned, db).value;
             s.pc == U32(b.placements[j].pc) && b.placements[j].pc % 4 == 0 && b.placements[i].pc % 4 == 0
    ensures var b := Build(srcs, tb, pinned, db).value;
            var r := EncodeInstr(ins, b.placements[j].pc, b.syms);
            && r.Ok? && |r.value| == 1
            && var e := Emu.Execute(ec, s, r.value[0]);
            e.Executed? && e.nextPc == if IsTaken(ins, s.regs) then U32(b.placements[i].pc) else U32(s.pc + 4)
  {
    hide Build, EncodeInstr, Emu.Execute, U32, Holds, RegWrite, ValueOf;
    var b := Build(srcs, tb, pinned, db).value;
    LabelValue(srcs, tb, pinned, db, i, name);
    LineEncodes(srcs, tb, pinned, db, j, ins);
    OneWordMeans(ec, s, ins, b.placements[j].pc, b.syms);
  }

  /** `call` to a label goes to the line that carries it and links past itself. */
  lemma CallReachesLine(ec: Emu.EmuConfig, s: Emu.Cpu, srcs: seq<Source>, tb: int, pinned: bool, db: int,
                        i: int, j: int, name: string)
    requires Build(srcs, tb, pinned, db).Ok? && Carries(srcs, i, name) && IsLine(srcs, j, Call(Sym(name)))
    requires var b := Build(srcs, tb, pinned, db).value;
             s.pc == U32(b.placements[j].pc) && b.placements[i].pc % 4 == 0
    ensures var b := Build(srcs, tb, pinned, db).value;
            var r := EncodeInstr(Call(Sym(name)), b.placements[j].pc, b.syms);
            && r.Ok? && |r.value| == 2
            && var e0 := Emu.Execute(ec, s, r.value[0]);
            && e0.Executed?
            && var e1 := Emu.Execute(ec, Between(e0), r.value[1]);
            e1.Executed? && e1.nextPc == U32(b.placements[i].pc) && e1.cpu.regs[1] == U32(s.pc + 8)
  {
    hide Build, Emu.Execute, U32, IType, UType, Upper;
    var b := Build(srcs, tb, pinned, db).value;
    LabelValue(srcs, tb, pinned, db, i, name);
    LineEncodes(srcs, tb, pinned, db, j, Call(Sym(name)));
    var ws := EncodeInstr(Call(Sym(name)), b.placements[j].pc, b.syms).value;
    CallMeans(ec, s, b.placements[j].pc, b.placements[i].pc, ws[0], ws[1]);
  }

  /** `la` of a label leaves the address of the line that carries it. */
  lemma LaLeavesAddress(ec: Emu.EmuConfig, s: Emu.Cpu, srcs: seq<Source>, tb: int, pinned: bool, db: int,
                        i: int, j: int, rd: regidx, name: string)
    requires Build(srcs, tb, pinned, db).Ok? && Carries(srcs, i, name) && IsLine(srcs, j, La(rd, Sym(name)))
    requires s.pc == U32(Build(srcs, tb, pinned, db).value.placements[j].pc) && rd != 0
    ensures var b := Build(srcs, tb, pinned, db).value;
            var r := EncodeInstr(La(rd, Sym(name)), b.placements[j].pc, b.syms);
            && r.Ok? && |r.value| == 2
            && var e0 := Emu.Execute(ec, s, r.value[0]);
            && e0.Executed?
            && var e1 := Emu.Execute(ec, Between(e0), r.value[1]);
            && e1.Executed? && e1.nextPc == U32(s.pc + 8)
            && e1.cpu.regs == s.regs[rd := U32(b.placements[i].pc)]
  {
    hide Build, Emu.Execute, U32, IType, UType, Upper;
    var b := Build(srcs, tb, pinned, db).value;
    LabelValue(srcs, tb, pinned, db, i, name);
    LineEncodes(srcs, tb, pinned, db, j, La(rd, Sym(name)));
    var ws := EncodeInstr(La(rd, Sym(name)), b.placements[j].pc, b.syms).value;
    LaMeans(ec, s, rd, b.placements[j].pc, b.placements[i].pc, ws[0], ws[1]);
  }

  /** `li` of a literal leaves the literal, modulo 2^32. */
  lemma LiLeavesLiteral(ec: Emu.EmuConfig, s: Emu.Cpu, pc: int, syms: Symbols, rd: regidx, v: int)
    requires rd != 0
    ensures var r := EncodeInstr(Li(rd, Num(v)), pc, syms);
            && r.Ok? && |r.value| == 2
            && var e0 := Emu.Execute(ec, s, r.value[0]);
            && e0.Executed?
            && var e1 := Emu.Execute(ec, Between(e0), r.value[1]);
            && e1.Executed? && e1.nextPc == U32(s.pc + 8) && e1.cpu.regs == s.regs[rd := U32(v)]
  {
    hide Emu.Execute, U32, IType, UType, Upper;
    var ws := EncodeInstr(Li(rd, Num(v)), pc, syms).value;
    LiMeans(ec, s, rd, v, ws[0], ws[1]);
  }
}
