/** A little-endian byte array, as the emulator keeps it, and the proof that the
    word array of data_memory.sv implements one. */
module ByteMemory {
  import opened Words
  import opened RiscvPkg
  import opened DataMemory

  function SizeOf(s: MemSize): nat {
    match s
    case MEM_B => 1
    case MEM_H => 2
    case MEM_W => 4
  }

  function Get16(bs: seq<byte>, i: nat): (h: int)
    requires i + 2 <= |bs|
  {
    bs[i] + (bs[i + 1] as int) * 0x100
  }

  function Get32(bs: seq<byte>, i: nat): word
    requires i + 4 <= |bs|
  {
    bs[i] + (bs[i + 1] as int) * 0x100 + (bs[i + 2] as int) * 0x1_0000 + (bs[i + 3] as int) * 0x100_0000
  }

  /** A load of `size` bytes, extended to 32 bits. */
  function Load(bs: seq<byte>, i: nat, size: MemSize, signed: bool): word
    requires i + SizeOf(size) <= |bs|
  {
    match size
    case MEM_B => if signed then U32(Sext(bs[i], 0x100)) else bs[i]
    case MEM_H => if signed then U32(Sext(Get16(bs, i), 0x1_0000)) else Get16(bs, i)
    case MEM_W => Get32(bs, i)
  }

  /** A store of the low bytes of `v`, least significant first. */
  function Store(bs: seq<byte>, i: nat, v: int, size: MemSize): (r: seq<byte>)
    requires i + SizeOf(size) <= |bs|
    ensures |r| == |bs|
  {
    match size
    case MEM_B => bs[i := v % 0x100]
    case MEM_H => bs[i := v % 0x100][i + 1 := v / 0x100 % 0x100]
    case MEM_W => bs[i := v % 0x100][i + 1 := v / 0x100 % 0x100]
                    [i + 2 := v / 0x1_0000 % 0x100][i + 3 := v / 0x100_0000 % 0x100]
  }

  /** The bytes of a word array in address order. */
  function BytesOf(mem: Ram): (bs: seq<byte>)
    ensures |bs| == 4 * |mem|
    ensures forall i :: 0 <= i < 4 * |mem| ==> bs[i] == Lane(mem[i / 4], i % 4)
  {
    seq(4 * |mem|, i requires 0 <= i < 4 * |mem| => Lane(mem[i / 4], i % 4))
  }

  /** The byte an address selects, after the array's wrap-around. */
  function Effective(addr: word, depth: nat): (i: nat)
    requires depth > 0
    ensures i < 4 * depth && i % 4 == addr % 4 && i / 4 == WordIndex(addr, depth)
  {
    4 * WordIndex(addr, depth) + addr % 4
  }

  /** Addresses wrap at the size of the array. */
  lemma EffectiveWraps(addr: word, depth: nat)
    requires depth > 0
    ensures Effective(addr, depth) == addr % (4 * depth)
  {
    var w, lo := addr / 4, addr % 4;
    var q, r := w / depth, w % depth;
    assert w == depth * q + r && addr == 4 * w + lo;
    assert 4 * (depth * q) == (4 * depth) * q;
    DivModUnique(addr, 4 * depth, q, 4 * r + lo);
  }

  lemma LanesOfWord(w: word)
    ensures FromLanes(Lane(w, 0), Lane(w, 1), Lane(w, 2), Lane(w, 3)) == w
    ensures w % 0x1_0000 == Lane(w, 0) + Lane(w, 1) * 0x100
    ensures w / 0x1_0000 == Lane(w, 2) + Lane(w, 3) * 0x100
  {
    var a, b := w / 0x100, w / 0x1_0000;
    DivDiv(w, 0x100, 0x100);
    DivDiv(w, 0x1_0000, 0x100);
    var l0: int, l1: int, l2: int, l3: int := Lane(w, 0), Lane(w, 1), Lane(w, 2), Lane(w, 3);
    assert w == l0 + 0x100 * a && a == l1 + 0x100 * b && b == l2 + 0x100 * l3;
    hide Lane;
    DivModUnique(w, 0x1_0000, b, l0 + l1 * 0x100);
  }

  lemma LanesRebuilt(b0: byte, b1: byte, b2: byte, b3: byte)
    ensures var w := FromLanes(b0, b1, b2, b3);
            Lane(w, 0) == b0 && Lane(w, 1) == b1 && Lane(w, 2) == b2 && Lane(w, 3) == b3
  {
    var w := FromLanes(b0, b1, b2, b3);
    DivModUnique(w, 0x100, b1 + b2 * 0x100 + b3 * 0x1_0000, b0);
    DivModUnique(b1 + b2 * 0x100 + b3 * 0x1_0000, 0x100, b2 + b3 * 0x100, b1);
    DivModUnique(w, 0x1_0000, b2 + b3 * 0x100, b0 + b1 * 0x100);
    DivModUnique(b2 + b3 * 0x100, 0x100, b3, b2);
    DivModUnique(w, 0x100_0000, b3, b0 + b1 * 0x100 + b2 * 0x1_0000);
  }

  predicate Aligned(addr: int, size: MemSize) {
    addr % SizeOf(size) == 0
  }

  lemma MisalignedMeaning(d: DeviceMap, addr: word, read: bool, write: bool, size: MemSize)
    ensures Misaligned(d, addr, read, write, size) <==>
            (read || write) && !IsMmio(d, addr) && !Aligned(addr, size)
  {}

  /** An aligned access lies inside one word. */
  lemma AlignedInWord(addr: word, depth: nat, size: MemSize)
    requires depth > 0 && Aligned(addr, size)
    ensures addr % 4 + SizeOf(size) <= 4
    ensures Effective(addr, depth) + SizeOf(size) <= 4 * depth
  {
    hide WordIndex;
  }

  /** Sign fill above a byte or halfword is sign extension. */
  lemma FillIsSext(v: int, span: int)
    requires span == 0x100 || span == 0x1_0000
    requires 0 <= v < span
    ensures U32(Sext(v, span)) == if v < span / 2 then v else 0x1_0000_0000 - span + v
  {}

  lemma HalfBit(x: int)
    ensures x / 2 % 2 == x % 4 / 2
  {
    DivModUnique(x / 2, 2, x / 4, x % 4 / 2);
  }

  /** Every aligned read is a little-endian load of the effective bytes. */
  lemma ReadIsLoad(d: DeviceMap, mem: Ram, addr: word, size: MemSize, unsigned: bool)
    requires !IsMmio(d, addr) && Aligned(addr, size)
    requires Effective(addr, |mem|) + SizeOf(size) <= 4 * |mem|
    ensures ReadData(d, mem, addr, true, size, unsigned) == Load(BytesOf(mem), Effective(addr, |mem|), size, !unsigned)
  {
    hide WordIndex, U32, Sext, Lane, FromLanes, Get16, Get32, BytesOf, Effective;
    var i, bs := Effective(addr, |mem|), BytesOf(mem);
    var w := mem[i / 4];
    match size
    case MEM_B =>
      FillIsSext(Lane(w, i % 4), 0x100);
      assert bs[i] == Lane(w, i % 4);
    case MEM_H =>
      EvenQuarter(addr);
      HalfBit(addr);
      HalfInWord(mem, i);
      HalfAt(bs, i, w);
      HalfBound(bs, i);
      FillIsSext(Get16(bs, i), 0x1_0000);
    case MEM_W =>
      WordInWord(mem, i);
      WordAt(bs, i, w);
  }

  lemma HalfBound(bs: seq<byte>, i: nat)
    requires i + 2 <= |bs|
    ensures 0 <= Get16(bs, i) < 0x1_0000
  {}

  lemma EvenQuarter(x: int)
    requires x % 2 == 0
    ensures x % 4 == 0 || x % 4 == 2
  {
    DivModUnique(x, 2, 2 * (x / 4) + x % 4 / 2, x % 4 % 2);
  }

  lemma HalfInWord(mem: Ram, i: nat)
    requires (i % 4 == 0 || i % 4 == 2) && i + 2 <= 4 * |mem|
    ensures BytesOf(mem)[i] == Lane(mem[i / 4], i % 4) && BytesOf(mem)[i + 1] == Lane(mem[i / 4], i % 4 + 1)
  {
    hide Lane;
    DivModUnique(i + 1, 4, i / 4, i % 4 + 1);
  }

  lemma WordInWord(mem: Ram, i: nat)
    requires i % 4 == 0 && i + 4 <= 4 * |mem|
    ensures forall j | i <= j < i + 4 :: BytesOf(mem)[j] == Lane(mem[i / 4], j % 4)
  {
    hide Lane;
  }

  lemma HalfAt(bs: seq<byte>, i: nat, w: word)
    requires (i % 4 == 0 || i % 4 == 2) && i + 2 <= |bs|
    requires bs[i] == Lane(w, i % 4) && bs[i + 1] == Lane(w, i % 4 + 1)
    ensures Get16(bs, i) == if i % 4 == 2 then w / 0x1_0000 else w % 0x1_0000
  {
    hide Lane;
    LanesOfWord(w);
  }

  lemma WordAt(bs: seq<byte>, i: nat, w: word)
    requires i % 4 == 0 && i + 4 <= |bs|
    requires forall j | i <= j < i + 4 :: bs[j] == Lane(w, j % 4)
    ensures Get32(bs, i) == w
  {
    hide Lane;
    LanesOfWord(w);
    assert bs[i] == Lane(w, 0) && bs[i + 1] == Lane(w, 1) && bs[i + 2] == Lane(w, 2) && bs[i + 3] == Lane(w, 3);
  }

  lemma NextWordLanes(w: word, data: word, addr: word, size: MemSize, k: nat)
    requires Aligned(addr, size) && k < 4
    ensures var o := addr % 4;
            Lane(NextWord(w, data, addr, size), k) ==
            if o <= k < o + SizeOf(size) then Lane(data, k - o) else Lane(w, k)
  {
    hide Lane, FromLanes;
    match size
    case MEM_B =>
      LowLane(data);
      var b, o := data % 0x100, addr % 4;
      LanesRebuilt(if o == 0 then b else Lane(w, 0), if o == 1 then b else Lane(w, 1),
                   if o == 2 then b else Lane(w, 2), if o == 3 then b else Lane(w, 3));
    case MEM_H =>
      LanesRebuilt(Lane(w, 0), Lane(w, 1), Lane(data, 0), Lane(data, 1));
      LanesRebuilt(Lane(data, 0), Lane(data, 1), Lane(w, 2), Lane(w, 3));
    case MEM_W =>
  }

  lemma LowLane(w: word)
    ensures Lane(w, 0) == w % 0x100
  {}

  lemma StoreBytes(bs: seq<byte>, i: nat, v: word, size: MemSize, j: nat)
    requires i + SizeOf(size) <= |bs| && j < |bs|
    ensures Store(bs, i, v, size)[j] == if i <= j < i + SizeOf(size) then Lane(v, j - i) else bs[j]
  {}

  /** A read-modify-write of the addressed lanes is a byte store; a misaligned store
      or a device store leaves every byte alone. */
  lemma WriteIsStore(d: DeviceMap, mem: Ram, addr: word, data: word, write: bool, size: MemSize)
    ensures var m := MemNext(d, mem, addr, data, write, size);
            if write && !IsMmio(d, addr) && Aligned(addr, size) then
              && Effective(addr, |mem|) + SizeOf(size) <= 4 * |mem|
              && BytesOf(m) == Store(BytesOf(mem), Effective(addr, |mem|), data, size)
            else BytesOf(m) == BytesOf(mem)
  {
    hide WordIndex, NextWord, Lane, Store;
    if write && !IsMmio(d, addr) && Aligned(addr, size) {
      AlignedInWord(addr, |mem|, size);
      var m, bs, i := MemNext(d, mem, addr, data, write, size), BytesOf(mem), Effective(addr, |mem|);
      forall j | 0 <= j < 4 * |mem|
        ensures BytesOf(m)[j] == Store(bs, i, data, size)[j]
      {
        StoreBytes(bs, i, data, size, j);
        NextWordLanes(mem[i / 4], data, addr, size, j % 4);
      }
      assert BytesOf(m) == Store(bs, i, data, size);
    }
  }

  /** One bus access: a store, or a load whose result is observed. */
  datatype Access = Access(addr: word, data: word, write: bool, size: MemSize, unsigned: bool)

  /** The word array serving a sequence of accesses; loads append what they return. */
  function RunWords(d: DeviceMap, mem: Ram, ops: seq<Access>): (Ram, seq<word>)
    decreases |ops|
  {
    if ops == [] then (mem, [])
    else
      var op := ops[0];
      var (m, out) := RunWords(d, MemNext(d, mem, op.addr, op.data, op.write, op.size), ops[1..]);
      (m, (if op.write then [] else [ReadData(d, mem, op.addr, true, op.size, op.unsigned)]) + out)
  }

  /** The byte array serving the same accesses: devices read as zero and absorb
      stores, and a misaligned store is dropped. */
  function RunBytes(d: DeviceMap, bs: seq<byte>, depth: nat, ops: seq<Access>): (seq<byte>, seq<word>)
    requires depth > 0 && |bs| == 4 * depth
    requires forall op :: op in ops && !op.write ==> Aligned(op.addr, op.size)
    decreases |ops|
  {
    if ops == [] then (bs, [])
    else
      var op := ops[0];
      var i := Effective(op.addr, depth);
      if op.write then
        if IsMmio(d, op.addr) || !Aligned(op.addr, op.size) then RunBytes(d, bs, depth, ops[1..])
        else
          AlignedInWord(op.addr, depth, op.size);
          RunBytes(d, Store(bs, i, op.data, op.size), depth, ops[1..])
      else
        AlignedInWord(op.addr, depth, op.size);
        var v := if IsMmio(d, op.addr) then 0 else Load(bs, i, op.size, !op.unsigned);
        var (b, out) := RunBytes(d, bs, depth, ops[1..]);
        (b, [v] + out)
  }

  /** Over any sequence of stores and aligned loads, byte, half or word, the word
      array returns what the byte array returns and ends holding the same bytes. */
  lemma {:induction false} MemoryRefines(d: DeviceMap, mem: Ram, ops: seq<Access>)
    requires forall op :: op in ops && !op.write ==> Aligned(op.addr, op.size)
    ensures var (m, out) := RunWords(d, mem, ops);
            RunBytes(d, BytesOf(mem), |mem|, ops) == (BytesOf(m), out)
    decreases |ops|
  {
    hide ReadData, MemNext, Effective, Load, Store, IsMmio, BytesOf;
    if ops != [] {
      var op := ops[0];
      WriteIsStore(d, mem, op.addr, op.data, op.write, op.size);
      MemoryRefines(d, MemNext(d, mem, op.addr, op.data, op.write, op.size), ops[1..]);
      if !op.write {
        NoWrite(d, mem, op);
        AlignedInWord(op.addr, |mem|, op.size);
        if !IsMmio(d, op.addr) {
          ReadIsLoad(d, mem, op.addr, op.size, op.unsigned);
        } else {
          DeviceReadsZero(d, mem, op);
        }
      } else {
        var (m, out) := RunWords(d, MemNext(d, mem, op.addr, op.data, op.write, op.size), ops[1..]);
        assert [] + out == out;
      }
    }
  }

  lemma NoWrite(d: DeviceMap, mem: Ram, op: Access)
    requires !op.write
    ensures MemNext(d, mem, op.addr, op.data, op.write, op.size) == mem
  {}

  lemma DeviceReadsZero(d: DeviceMap, mem: Ram, op: Access)
    requires IsMmio(d, op.addr)
    ensures ReadData(d, mem, op.addr, true, op.size, op.unsigned) == 0
  {}
}
