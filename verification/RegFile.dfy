/** reg_file.sv: 31 writable registers and x0. Entry 0 of the array is never written. */
module RegFile {
  import opened Words

  type RegBank = s: seq<word> | |s| == 32 && s[0] == 0 witness seq(32, i => 0)

  function ResetRegs(): (r: RegBank)
    ensures forall i :: 0 <= i < 32 ==> r[i] == 0
  {
    seq(32, i => 0)
  }

  /** The registers after a clock edge. */
  function RegWrite(regs: RegBank, we: bool, ws: regidx, wd: word): RegBank {
    if we && ws != 0 then regs[ws := wd] else regs
  }

  /** A read port; with the bypass it returns the data being written this cycle. */
  function ReadPort(regs: RegBank, writeFirst: bool, we: bool, ws: regidx, wd: word, rs: regidx): word {
    if rs == 0 then 0
    else if writeFirst && we && ws == rs then wd
    else regs[rs]
  }

  /** A write-first port reads what the register will hold after this edge; a
      plain port reads what it held before. */
  lemma ReadPortMeaning(regs: RegBank, we: bool, ws: regidx, wd: word, rs: regidx)
    ensures ReadPort(regs, true, we, ws, wd, rs) == RegWrite(regs, we, ws, wd)[rs]
    ensures ReadPort(regs, false, we, ws, wd, rs) == regs[rs]
  {}

  class Registers {
    const xregs: array<word>

    ghost predicate Valid()
      reads xregs
    {
      xregs.Length == 32 && xregs[0] == 0
    }

    constructor ()
      ensures fresh(xregs) && Valid() && xregs[..] == ResetRegs()
    {
      var x := new word[32](i => 0);
      xregs := x;
      new;
      assert xregs[..] == ResetRegs();
    }

    method Clock(rst: bool, we: bool, ws: regidx, wd: word)
      requires Valid()
      modifies xregs
      ensures Valid()
      ensures xregs[..] == if rst then ResetRegs() else RegWrite(old(xregs[..]), we, ws, wd)
    {
      if rst {
        for i := 1 to 32
          invariant xregs[0] == 0
          invariant forall j :: 0 < j < i ==> xregs[j] == 0
        {
          xregs[i] := 0;
        }
        assert xregs[..] == ResetRegs();
      } else if we && ws != 0 {
        xregs[ws] := wd;
      }
    }
  }
}
