/** assemble.py's two passes over the parsed lines: layout, emission and packing. */
module Layout {
  import opened Words
  import opened DataMemory
  import opened A = Assembler

  datatype Section = TEXT | DATA
  datatype Label = NoLabel | Label(name: string)

  /** What a parsed line says after its label. */
  datatype Op =
    | Bare
    | TextDir
    | DataDir
    | Align(args: seq<int>)
    | WordDir(vals: seq<Operand>)
    | ByteDir(vals: seq<Operand>)
    | Instruction(ins: Instr)

  datatype Source = Source(mark: Label, op: Op)

  /** What pass 1 fills in. */
  datatype Placement = Placement(section: Section, pc: int, size: int)

  datatype Cursor = Cursor(text: int, data: int, current: Section, syms: Symbols)

  function Here(c: Cursor): int {
    if c.current == TEXT then c.text else c.data
  }

  function Bump(c: Cursor, n: int): Cursor {
    if c.current == TEXT then c.(text := c.text + n) else c.(data := c.data + n)
  }

  /** The next multiple of `b`. */
  function RoundUp(x: int, b: int): int
    requires b >= 1
  {
    (x + b - 1) / b * b
  }

  function Define(c: Cursor, mark: Label): Result<Cursor> {
    match mark
    case NoLabel => Ok(c)
    case Label(n) => if n in c.syms then Err(DUPLICATE_LABEL) else Ok(c.(syms := c.syms[n := Here(c)]))
  }

  function Take(c: Cursor, size: int): (Placement, Cursor) {
    (Placement(c.current, Here(c), size), Bump(c, size))
  }

  /** Pass 1 on one line; a label belongs to the section active before a directive. */
  function Place(c0: Cursor, src: Source): Result<(Placement, Cursor)> {
    var c :- Define(c0, src.mark);
    match src.op
    case Bare => Ok(Take(c, 0))
    case TextDir => Ok(Take(c.(current := TEXT), 0))
    case DataDir => Ok(Take(c.(current := DATA), 0))
    case Align(args) =>
      if |args| != 1 || !(0 <= args[0] <= 12) then Err(BAD_ALIGN)
      else Ok(Take(c, RoundUp(Here(c), Pow2(args[0])) - Here(c)))
    case WordDir(vals) => if vals == [] then Err(NO_VALUES) else Ok(Take(c, 4 * |vals|))
    case ByteDir(vals) => if vals == [] then Err(NO_VALUES) else Ok(Take(c, |vals|))
    case Instruction(ins) => Ok(Take(c, InstrSize(ins)))
  }

  /** Pass 1 on the first `n` lines. */
  function PlaceAll(srcs: seq<Source>, textBase: int, dataBase: int, n: nat): (r: Result<(seq<Placement>, Cursor)>)
    requires n <= |srcs|
    ensures r.Ok? ==> |r.value.0| == n
    decreases n
  {
    if n == 0 then Ok(([], Cursor(textBase, dataBase, TEXT, map[])))
    else
      var (ps, c) :- PlaceAll(srcs, textBase, dataBase, n - 1);
      var (p, c') :- Place(c, srcs[n - 1]);
      Ok((ps + [p], c'))
  }

  /** The sizing pass that runs first, with both sections counted from zero. */
  datatype Sizes = Sizes(text: int, data: int, current: Section)

  function Grow(z: Sizes, n: int): Sizes {
    if z.current == TEXT then z.(text := z.text + n) else z.(data := z.data + n)
  }

  function SizeOne(z: Sizes, op: Op): Result<Sizes> {
    match op
    case Bare => Ok(z)
    case TextDir => Ok(z.(current := TEXT))
    case DataDir => Ok(z.(current := DATA))
    case Align(args) =>
      if args == [] then Ok(z)
      else if args[0] < 0 then Err(BAD_ALIGN)
      else
        var x := if z.current == TEXT then z.text else z.data;
        Ok(Grow(z, RoundUp(x, Pow2(args[0])) - x))
    case WordDir(vals) => Ok(Grow(z, 4 * |vals|))
    case ByteDir(vals) => Ok(Grow(z, |vals|))
    case Instruction(ins) => Ok(Grow(z, InstrSize(ins)))
  }

  function SizeAll(srcs: seq<Source>, n: nat): Result<Sizes>
    requires n <= |srcs|
    decreases n
  {
    if n == 0 then Ok(Sizes(0, 0, TEXT))
    else
      var z :- SizeAll(srcs, n - 1);
      SizeOne(z, srcs[n - 1].op)
  }

  // ---------- pass 2

  function WordBytes(w: word): seq<byte> {
    [Lane(w, 0), Lane(w, 1), Lane(w, 2), Lane(w, 3)]
  }

  function BytesOfWords(ws: seq<word>): (bs: seq<byte>)
    ensures |bs| == 4 * |ws|
  {
    if ws == [] then [] else BytesOfWords(ws[..|ws| - 1]) + WordBytes(ws[|ws| - 1])
  }

  function ResolveAll(vals: seq<Operand>, syms: Symbols): (r: Result<seq<int>>)
    ensures r.Ok? ==> |r.value| == |vals|
  {
    if vals == [] then Ok([])
    else
      var rest :- ResolveAll(vals[..|vals| - 1], syms);
      var v :- Resolve(vals[|vals| - 1], syms);
      Ok(rest + [v])
  }

  /** The bytes a line emits, in address order from its PC. */
  function Emit(op: Op, pc: int, syms: Symbols): Result<seq<byte>> {
    match op
    case WordDir(vals) =>
      var vs :- ResolveAll(vals, syms);
      Ok(BytesOfWords(seq(|vs|, i requires 0 <= i < |vs| => U32(vs[i]))))
    case ByteDir(vals) =>
      var vs :- ResolveAll(vals, syms);
      Ok(seq(|vs|, i requires 0 <= i < |vs| => vs[i] % 0x100))
    case Instruction(ins) =>
      var ws :- EncodeInstr(ins, pc, syms);
      Ok(BytesOfWords(ws))
    case _ => Ok([])
  }

  /** The image dictionary, with its keys in the order they were first written. */
  datatype Image = Image(at: map<int, byte>, keys: seq<int>)

  const EMPTY: Image := Image(map[], [])

  function Write(image: Image, k: int, b: byte): Image {
    Image(image.at[k := b], if k in image.at then image.keys else image.keys + [k])
  }

  /** The image with the bytes written from `pc` up. */
  function Put(image: Image, pc: int, bs: seq<byte>): Image {
    if bs == [] then image
    else
      var last := |bs| - 1;
      Write(Put(image, pc, bs[..last]), pc + last, bs[last])
  }

  ghost predicate KeysListed(image: Image) {
    forall k :: k in image.at <==> k in image.keys
  }

  lemma {:induction false} PutAt(image: Image, pc: int, bs: seq<byte>, k: int)
    ensures var m := Put(image, pc, bs).at;
            && (k in m <==> k in image.at || pc <= k < pc + |bs|)
            && (k in m ==> m[k] == if pc <= k < pc + |bs| then bs[k - pc] else image.at[k])
    decreases |bs|
  {
    if bs != [] {
      PutAt(image, pc, bs[..|bs| - 1], k);
    }
  }

  lemma {:induction false} PutListed(image: Image, pc: int, bs: seq<byte>)
    requires KeysListed(image)
    ensures KeysListed(Put(image, pc, bs))
    decreases |bs|
  {
    if bs != [] {
      PutListed(image, pc, bs[..|bs| - 1]);
    }
  }

  /** Pass 2 on the first `n` lines. */
  function EmitAll(srcs: seq<Source>, ps: seq<Placement>, syms: Symbols, n: nat): Result<Image>
    requires n <= |srcs| == |ps|
    decreases n
  {
    if n == 0 then Ok(EMPTY)
    else
      var image :- EmitAll(srcs, ps, syms, n - 1);
      var bs :- Emit(srcs[n - 1].op, ps[n - 1].pc, syms);
      Ok(Put(image, ps[n - 1].pc, bs))
  }

  // ---------- packing

  function LeastOf(keys: seq<int>): int
    requires keys != []
  {
    var last := keys[|keys| - 1];
    if |keys| == 1 then last
    else
      var m := LeastOf(keys[..|keys| - 1]);
      if last < m then last else m
  }

  function GreatestOf(keys: seq<int>): int
    requires keys != []
  {
    var last := keys[|keys| - 1];
    if |keys| == 1 then last
    else
      var m := GreatestOf(keys[..|keys| - 1]);
      if last > m then last else m
  }

  /** The least and the greatest are keys, and bound every key. */
  lemma {:induction false} Extremes(keys: seq<int>, i: nat)
    requires i < |keys|
    ensures LeastOf(keys) <= keys[i] <= GreatestOf(keys)
    ensures LeastOf(keys) in keys && GreatestOf(keys) in keys
    decreases |keys|
  {
    var n := |keys| - 1;
    if n > 0 {
      Extremes(keys[..n], if i < n then i else 0);
      forall x | x in keys[..n]
        ensures x in keys
      {}
    }
  }

  function ByteAt(image: Image, k: int): byte {
    if k in image.at then image.at[k] else 0
  }

  function WordAtAddr(image: Image, a: int): word {
    FromLanes(ByteAt(image, a), ByteAt(image, a + 1), ByteAt(image, a + 2), ByteAt(image, a + 3))
  }

  function Pack(image: Image, lo: int, n: nat): seq<word> {
    seq(n, i requires 0 <= i < n => WordAtAddr(image, lo + 4 * i))
  }

  /** Where the packed words start: the lowest written byte, rounded down. */
  function Origin(image: Image): int {
    if image.keys == [] then 0 else LeastOf(image.keys) / 4 * 4
  }

  function PackImage(image: Image): seq<word> {
    if image.keys == [] then []
    else
      PackSpan(image);
      Pack(image, Origin(image), (RoundUp(GreatestOf(image.keys) + 1, 4) - Origin(image)) / 4)
  }

  lemma PackSpan(image: Image)
    requires image.keys != []
    ensures var lo, hi := Origin(image), RoundUp(GreatestOf(image.keys) + 1, 4);
            lo % 4 == 0 && hi % 4 == 0 && lo <= LeastOf(image.keys) && GreatestOf(image.keys) < hi && lo <= hi
  {
    hide LeastOf, GreatestOf;
    var a, b := LeastOf(image.keys), GreatestOf(image.keys) + 1;
    Extremes(image.keys, 0);
    RoundUpMeaning(b, 4);
    DivModUnique(a / 4 * 4, 4, a / 4, 0);
  }

  lemma RoundUpMeaning(x: int, b: int)
    requires b >= 1
    ensures x <= RoundUp(x, b) < x + b && RoundUp(x, b) % b == 0
  {
    var q, r := (x + b - 1) / b, (x + b - 1) % b;
    assert x + b - 1 == b * q + r && q * b == b * q;
    DivModUnique(q * b, b, q, 0);
  }

  // ---------- the whole assembler

  datatype Placed = Placed(placements: seq<Placement>, syms: Symbols, image: Image)

  function DefaultDataBase(textBase: int, z: Sizes): int {
    textBase + RoundUp(z.text, 4)
  }

  /** Everything up to packing, with `data_base` left to default or pinned. */
  function Build(srcs: seq<Source>, textBase: int, pinned: bool, dataBase: int): (r: Result<Placed>)
    ensures r.Ok? ==> |r.value.placements| == |srcs|
  {
    var z :- SizeAll(srcs, |srcs|);
    var base := if pinned then dataBase else DefaultDataBase(textBase, z);
    var (ps, c) :- PlaceAll(srcs, textBase, base, |srcs|);
    var image :- EmitAll(srcs, ps, c.syms, |srcs|);
    Ok(Placed(ps, c.syms, image))
  }

  /** The assembled words. */
  function Assembled(srcs: seq<Source>, textBase: int, pinned: bool, dataBase: int): Result<seq<word>> {
    var b :- Build(srcs, textBase, pinned, dataBase);
    Ok(PackImage(b.image))
  }
}
