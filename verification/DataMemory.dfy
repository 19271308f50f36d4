/** data_memory.sv: a word array with byte lanes, behind two device addresses. */
module DataMemory {
  import opened Words
  import opened RiscvPkg

  type Ram = s: seq<word> | |s| > 0 witness [0]

  /** The two device addresses. The shipped ones differ, and so must any override. */
  datatype Devices = Devices(tohost: word, uart: word)
  type DeviceMap = d: Devices | d.tohost != d.uart witness Devices(0x8000_1000, 0xFFFF_0000)

  predicate IsMmio(d: DeviceMap, addr: word) {
    addr == d.tohost || addr == d.uart
  }

  /** The array ignores the address bits above its index, so addresses alias. */
  function WordIndex(addr: word, depth: nat): (i: nat)
    requires depth > 0
    ensures i < depth
  {
    addr / 4 % depth
  }

  function Lane(w: word, k: int): byte
    requires 0 <= k < 4
  {
    if k == 0 then w % 0x100
    else if k == 1 then w / 0x100 % 0x100
    else if k == 2 then w / 0x1_0000 % 0x100
    else w / 0x100_0000
  }

  function FromLanes(b0: byte, b1: byte, b2: byte, b3: byte): word {
    b0 + b1 * 0x100 + b2 * 0x1_0000 + b3 * 0x100_0000
  }

  predicate Misaligned(d: DeviceMap, addr: word, read: bool, write: bool, size: MemSize) {
    (read || write) && !IsMmio(d, addr) &&
    match size
    case MEM_B => false
    case MEM_H => addr % 2 != 0
    case MEM_W => addr % 4 != 0
  }

  function ReadData(d: DeviceMap, mem: Ram, addr: word, read: bool, size: MemSize, unsigned: bool): word {
    if !read || IsMmio(d, addr) then 0
    else
      var w := mem[WordIndex(addr, |mem|)];
      match size
      case MEM_B =>
        var b := Lane(w, addr % 4);
        if unsigned || b < 0x80 then b else 0xFFFF_FF00 + b
      case MEM_H =>
        var h := if addr / 2 % 2 == 1 then w / 0x1_0000 else w % 0x1_0000;
        if unsigned || h < 0x8000 then h else 0xFFFF_0000 + h
      case MEM_W => w
  }

  /** The addressed word with the stored lanes replaced. */
  function NextWord(w: word, data: word, addr: word, size: MemSize): word {
    match size
    case MEM_B =>
      var b := data % 0x100;
      var k := addr % 4;
      FromLanes(if k == 0 then b else Lane(w, 0), if k == 1 then b else Lane(w, 1),
                if k == 2 then b else Lane(w, 2), if k == 3 then b else Lane(w, 3))
    case MEM_H =>
      if addr / 2 % 2 == 1 then FromLanes(Lane(w, 0), Lane(w, 1), Lane(data, 0), Lane(data, 1))
      else FromLanes(Lane(data, 0), Lane(data, 1), Lane(w, 2), Lane(w, 3))
    case MEM_W => data
  }

  /** The array after a clock edge; the caller gates `write`. */
  function MemNext(d: DeviceMap, mem: Ram, addr: word, data: word, write: bool, size: MemSize): (m: Ram)
    ensures |m| == |mem|
  {
    if write && !IsMmio(d, addr) && !Misaligned(d, addr, false, write, size) then
      var i := WordIndex(addr, |mem|);
      mem[i := NextWord(mem[i], data, addr, size)]
    else mem
  }

  /** The bytes sent so far, after a cycle with this store. */
  function UartNext(d: DeviceMap, sent: seq<byte>, addr: word, data: word, write: bool): seq<byte> {
    if write && addr == d.uart then sent + [data % 0x100] else sent
  }

  class DataMem {
    const devices: DeviceMap
    const mem: array<word>

    constructor (devices: DeviceMap, image: Ram)
      ensures fresh(mem) && mem[..] == image && this.devices == devices
    {
      this.devices := devices;
      var m := new word[|image|](i requires 0 <= i < |image| => image[i]);
      this.mem := m;
      new;
      assert mem[..] == image;
    }

    method Clock(rst: bool, addr: word, data: word, read: bool, write: bool, size: MemSize)
      requires mem.Length > 0
      modifies mem
      ensures mem[..] == MemNext(devices, old(mem[..]), addr, data, write && !rst, size)
    {
      var misaligned := Misaligned(devices, addr, read, write, size);
      if !rst && write && !IsMmio(devices, addr) && !misaligned {
        var i := WordIndex(addr, mem.Length);
        mem[i] := NextWord(mem[i], data, addr, size);
      }
    }
  }
}
