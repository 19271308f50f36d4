/** pc_register.sv and the four pipeline registers. Each holds its contents, takes
    new ones, or is cleared to a bubble; clearing wins over holding. */
module PipelineRegs {
  import opened Words
  import opened RiscvPkg

  datatype IfId = IfId(pc: word, pc4: word, inst: word)
  datatype IdEx = IdEx(ctrl: Control, pc: word, pc4: word, rs1Val: word, rs2Val: word, imm: word,
                       rs1: regidx, rs2: regidx, rd: regidx)
  datatype ExMem = ExMem(ctrl: Control, aluY: word, rs2Val: word, rd: regidx, pc4: word)
  datatype MemWb = MemWb(ctrl: Control, aluY: word, memRdata: word, rd: regidx, pc4: word)

  const IF_ID_NOP := IfId(0, 0, NOP_INST)
  const ID_EX_BUBBLE := IdEx(BUBBLE, 0, 0, 0, 0, 0, 0, 0, 0)
  const EX_MEM_BUBBLE := ExMem(BUBBLE, 0, 0, 0, 0)
  const MEM_WB_BUBBLE := MemWb(BUBBLE, 0, 0, 0, 0)

  function Latched<T>(q: T, clear: bool, en: bool, cleared: T, d: T): T {
    if clear then cleared else if en then d else q
  }

  class PcRegister {
    const pcReset: word
    var pc: word

    constructor (pcReset: word)
      ensures pc == pcReset && this.pcReset == pcReset
    {
      this.pcReset, pc := pcReset, pcReset;
    }

    method Clock(rst: bool, en: bool, next: word)
      modifies this
      ensures pc == Latched(old(pc), rst, en, pcReset, next)
    {
      if rst {
        pc := pcReset;
      } else if en {
        pc := next;
      }
    }
  }

  class IfIdReg {
    var q: IfId

    constructor ()
      ensures q == IF_ID_NOP
    {
      q := IF_ID_NOP;
    }

    method Clock(rst: bool, en: bool, flush: bool, d: IfId)
      modifies this
      ensures q == Latched(old(q), rst || flush, en, IF_ID_NOP, d)
    {
      if rst {
        q := IfId(0, 0, NOP_INST);
      } else if flush {
        q := IfId(0, 0, NOP_INST);
      } else if en {
        q := d;
      }
    }
  }

  class IdExReg {
    var q: IdEx

    constructor ()
      ensures q == ID_EX_BUBBLE
    {
      q := ID_EX_BUBBLE;
    }

    method Clock(rst: bool, en: bool, flush: bool, d: IdEx)
      modifies this
      ensures q == Latched(old(q), rst || flush, en, ID_EX_BUBBLE, d)
    {
      if rst || flush {
        q := ID_EX_BUBBLE;
      } else if en {
        q := d;
      }
    }
  }

  class ExMemReg {
    var q: ExMem

    constructor ()
      ensures q == EX_MEM_BUBBLE
    {
      q := EX_MEM_BUBBLE;
    }

    method Clock(rst: bool, en: bool, flush: bool, d: ExMem)
      modifies this
      ensures q == Latched(old(q), rst || flush, en, EX_MEM_BUBBLE, d)
    {
      if rst || flush {
        q := EX_MEM_BUBBLE;
      } else if en {
        q := d;
      }
    }
  }

  class MemWbReg {
    var q: MemWb

    constructor ()
      ensures q == MEM_WB_BUBBLE
    {
      q := MEM_WB_BUBBLE;
    }

    method Clock(rst: bool, en: bool, flush: bool, d: MemWb)
      modifies this
      ensures q == Latched(old(q), rst || flush, en, MEM_WB_BUBBLE, d)
    {
      if rst || flush {
        q := MEM_WB_BUBBLE;
      } else if en {
        q := d;
      }
    }
  }
}
