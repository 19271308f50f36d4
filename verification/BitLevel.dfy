/** The logic and shift operations read bit by bit, in the RTL, in the emulator and in
    the meaning of a source line. */
module BitLevel {
  import opened Words
  import opened RiscvPkg
  import opened Datapath
  import opened Decoder
  import Asm = Assembler
  import Meant = SourceMeaning
  import Emu = Emulator

  lemma {:induction false} BitOfConcat(low: nat, m: nat, high: nat, k: nat)
    requires low < Pow2(m)
    ensures low + Pow2(m) * high >= 0
    ensures Bit(low + Pow2(m) * high, k) <==> if k < m then Bit(low, k) else Bit(high, k - m)
    decreases m
  {
    if m > 0 {
      hide Pow2;
      Pow2Twice(m);
      var p := Pow2(m - 1);
      assert (2 * p) * high == 2 * (p * high);
      var rest := low / 2 + p * high;
      assert low + Pow2(m) * high == low % 2 + 2 * rest;
      BitOfConcat(low / 2, m - 1, high, if k > 0 then k - 1 else 0);
      Halves(low % 2, rest);
    }
  }

  lemma Pow2At31()
    ensures Pow2(31) == 0x8000_0000
  {
    Pow2At32();
    hide Pow2;
    Pow2Twice(32);
  }

  lemma TopBit(a: word)
    ensures Bit(a, 31) <==> a >= 0x8000_0000
  {
    Pow2At31();
    BitOfQuotient(a, 31, 0);
    hide Pow2;
    QuotientBelow(a, 0x8000_0000, 2);
  }

  lemma NoHighBits(a: word, k: nat)
    requires k >= 32
    ensures !Bit(a, k)
  {
    Pow2At32();
    hide Pow2, Bit;
    BitOfRemainder(a, 32, k);
    DivModUnique(a, 0x1_0000_0000, 0, a);
  }

  lemma ArithShiftBits(a: word, s: nat, k: nat)
    requires s < 32 && k < 32
    ensures Bit(ShiftRightArith(a, s), k) <==> Bit(a, if k + s < 32 then k + s else 31)
  {
    hide Pow2, Bit;
    TopBit(a);
    BitOfQuotient(a, s, k);
    SignFillBound(s);
    ShiftRightBound(a, s);
    NoHighBits(a, if k + s >= 32 then k + s else 32);
    if a >= 0x8000_0000 {
      var m := 32 - s;
      assert Pow2(m) * (Pow2(s) - 1) == 0x1_0000_0000 - Pow2(m);
      BitOfConcat(ShiftRight(a, s), m, Pow2(s) - 1, k);
      if k >= m {
        BitOfOnes(s, k - m);
      }
    }
  }

  /** The RTL's ALU, bit by bit; a shift moves bits by the low five bits of `b`. */
  lemma AluBits(a: word, b: word, k: nat)
    requires k < 32
    ensures Bit(Alu(a, b, AND), k) <==> Bit(a, k) && Bit(b, k)
    ensures Bit(Alu(a, b, OR), k) <==> Bit(a, k) || Bit(b, k)
    ensures Bit(Alu(a, b, XOR), k) <==> Bit(a, k) != Bit(b, k)
    ensures Bit(Alu(a, b, SLL), k) <==> k >= b % 32 && Bit(a, k - b % 32)
    ensures Bit(Alu(a, b, SRL), k) <==> k + b % 32 < 32 && Bit(a, k + b % 32)
    ensures Bit(Alu(a, b, SRA), k) <==> Bit(a, if k + b % 32 < 32 then k + b % 32 else 31)
  {
    hide Pow2, Bit, And32, Or32, Xor32, ShiftRightArith;
    var s := b % 32;
    WordBits(a, b, k);
    Pow2At32();
    BitOfProduct(a, s, k);
    BitOfRemainder(a * Pow2(s), 32, k);
    BitOfQuotient(a, s, k);
    NoHighBits(a, if k + s >= 32 then k + s else 32);
    ArithShiftBits(a, s, k);
  }

  /** The emulator's register and immediate forms; a negative immediate has the bits of
      its low 32. */
  lemma EmulatorBits(inst: word, a: word, b: word, imm: int, k: nat)
    requires k < 32
    ensures var r := Emu.AluReg(inst, a, b);
            && (Funct3(inst) == 7 ==> r.Some? && (Bit(r.value, k) <==> Bit(a, k) && Bit(b, k)))
            && (Funct3(inst) == 6 ==> r.Some? && (Bit(r.value, k) <==> Bit(a, k) || Bit(b, k)))
            && (Funct3(inst) == 4 ==> r.Some? && (Bit(r.value, k) <==> Bit(a, k) != Bit(b, k)))
    ensures var r, i := Emu.AluImm(inst, a, imm), imm % 0x1_0000_0000;
            && (Funct3(inst) == 7 ==> r.Some? && (Bit(r.value, k) <==> Bit(a, k) && Bit(i, k)))
            && (Funct3(inst) == 6 ==> r.Some? && (Bit(r.value, k) <==> Bit(a, k) || Bit(i, k)))
            && (Funct3(inst) == 4 ==> r.Some? && (Bit(r.value, k) <==> Bit(a, k) != Bit(i, k)))
  {
    hide Bit, And32, Or32, Xor32, Pow2, ShiftRight, Slice, S32;
    DivModUnique(b, 0x1_0000_0000, 0, b);
    WordBits(a, b, k);
    WordBits(a, U32(imm), k);
  }

  /** What `and`, `or`, `xor` and their immediate forms mean in a source line. */
  lemma MeaningBits(a: word, b: word, imm: int, k: nat)
    requires k < 32
    ensures Bit(Meant.ArithValue(Asm.Arith.AND, a, b), k) <==> Bit(a, k) && Bit(b, k)
    ensures Bit(Meant.ArithValue(Asm.Arith.OR, a, b), k) <==> Bit(a, k) || Bit(b, k)
    ensures Bit(Meant.ArithValue(Asm.Arith.XOR, a, b), k) <==> Bit(a, k) != Bit(b, k)
    ensures var i := imm % 0x1_0000_0000;
            && (Bit(Meant.ImmValue(Asm.ANDI, a, imm), k) <==> Bit(a, k) && Bit(i, k))
            && (Bit(Meant.ImmValue(Asm.ORI, a, imm), k) <==> Bit(a, k) || Bit(i, k))
            && (Bit(Meant.ImmValue(Asm.XORI, a, imm), k) <==> Bit(a, k) != Bit(i, k))
  {
    hide Bit, And32, Or32, Xor32;
    WordBits(a, b, k);
    WordBits(a, U32(imm), k);
  }

  /** A word is its 32 bits, so the lemmas above determine the results. */
  lemma WordIsItsBits(a: word, b: word)
    requires forall k: nat :: k < 32 ==> Bit(a, k) == Bit(b, k)
    ensures a == b
  {
    Pow2At32();
    hide Pow2, Bit;
    BitsDetermine(a, b, 32);
  }
}
