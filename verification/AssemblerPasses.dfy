/** assemble.py as it runs: lines are annotated in place by pass 1, and pass 2 fills a
    byte dictionary that is then packed into words. */
module AssemblerPasses {
  import opened Words
  import opened DataMemory
  import opened A = Assembler
  import opened Layout

  /** A parsed line; pass 1 fills in the last three fields. */
  class Line {
    const mark: Label
    const op: Op
    var section: Section
    var pc: int
    var size: int

    constructor (mark: Label, op: Op)
      ensures this.mark == mark && this.op == op
    {
      this.mark, this.op := mark, op;
      section, pc, size := TEXT, 0, 0;
    }

    method Set(section: Section, pc: int, size: int)
      modifies this
      ensures this.section == section && this.pc == pc && this.size == size
    {
      this.section, this.pc, this.size := section, pc, size;
    }
  }

  predicate Distinct(lines: seq<Line>) {
    forall i, j :: 0 <= i < j < |lines| ==> lines[i] != lines[j]
  }

  function Sources(lines: seq<Line>): seq<Source> {
    seq(|lines|, i requires 0 <= i < |lines| => Source(lines[i].mark, lines[i].op))
  }

  ghost predicate Annotated(lines: seq<Line>, ps: seq<Placement>)
    reads lines
  {
    |ps| <= |lines| &&
    forall i :: 0 <= i < |ps| ==> Placement(lines[i].section, lines[i].pc, lines[i].size) == ps[i]
  }

  /** An error in one line is the error of the whole pass. */
  lemma {:induction false} PlaceFails(srcs: seq<Source>, tb: int, db: int, n: nat, m: nat)
    requires n <= m <= |srcs| && PlaceAll(srcs, tb, db, n).Err?
    ensures PlaceAll(srcs, tb, db, m) == PlaceAll(srcs, tb, db, n)
    decreases m
  {
    hide Place;
    if n < m {
      PlaceFails(srcs, tb, db, n, m - 1);
    }
  }

  lemma {:induction false} SizeFails(srcs: seq<Source>, n: nat, m: nat)
    requires n <= m <= |srcs| && SizeAll(srcs, n).Err?
    ensures SizeAll(srcs, m) == SizeAll(srcs, n)
    decreases m
  {
    hide SizeOne;
    if n < m {
      SizeFails(srcs, n, m - 1);
    }
  }

  lemma {:induction false} EmitFails(srcs: seq<Source>, ps: seq<Placement>, syms: Symbols, n: nat, m: nat)
    requires n <= m <= |srcs| == |ps| && EmitAll(srcs, ps, syms, n).Err?
    ensures EmitAll(srcs, ps, syms, m) == EmitAll(srcs, ps, syms, n)
    decreases m
  {
    hide Emit, Put;
    if n < m {
      EmitFails(srcs, ps, syms, n, m - 1);
    }
  }

  /** Pass 1's counters as one value. */
  ghost function CursorOf(pc: map<Section, int>, current: Section, syms: Symbols): Cursor
    requires TEXT in pc && DATA in pc
  {
    Cursor(pc[TEXT], pc[DATA], current, syms)
  }

  /** One line of pass 1. */
  method PlaceLine(ln: Line, pc0: map<Section, int>, current0: Section, syms0: Symbols)
    returns (r: Result<()>, pc: map<Section, int>, current: Section, syms: Symbols)
    requires TEXT in pc0 && DATA in pc0
    modifies ln
    ensures TEXT in pc && DATA in pc
    ensures match Place(CursorOf(pc0, current0, syms0), Source(ln.mark, ln.op))
            case Err(e) => r == Err(e)
            case Ok(v) =>
              r == Ok(()) && v == (Placement(ln.section, ln.pc, ln.size), CursorOf(pc, current, syms))
  {
    hide RoundUp, Pow2, InstrSize;
    r, pc, current, syms := Ok(()), pc0, current0, syms0;
    assert current == TEXT || current == DATA;
    if ln.mark.Label? {
      if ln.mark.name in syms {
        r := Err(DUPLICATE_LABEL);
        return;
      }
      syms := syms[ln.mark.name := pc[current]];
    }
    match ln.op {
      case Bare =>
        ln.Set(current, pc[current], 0);
      case TextDir =>
        current := TEXT;
        ln.Set(current, pc[current], 0);
      case DataDir =>
        current := DATA;
        ln.Set(current, pc[current], 0);
      case Align(args) =>
        if |args| != 1 || !(0 <= args[0] <= 12) {
          r := Err(BAD_ALIGN);
          return;
        }
        var padded := RoundUp(pc[current], Pow2(args[0]));
        ln.Set(current, pc[current], padded - pc[current]);
        pc := pc[current := padded];
      case WordDir(vals) =>
        if vals == [] {
          r := Err(NO_VALUES);
          return;
        }
        ln.Set(current, pc[current], 4 * |vals|);
        pc := pc[current := pc[current] + ln.size];
      case ByteDir(vals) =>
        if vals == [] {
          r := Err(NO_VALUES);
          return;
        }
        ln.Set(current, pc[current], |vals|);
        pc := pc[current := pc[current] + ln.size];
      case Instruction(ins) =>
        ln.Set(current, pc[current], InstrSize(ins));
        pc := pc[current := pc[current] + ln.size];
    }
  }

  /** Pass 1: every line gets its section, address and size; the symbol table comes back. */
  method Pass1(lines: seq<Line>, textBase: int, dataBase: int) returns (r: Result<Symbols>)
    requires Distinct(lines)
    modifies lines
    ensures match PlaceAll(Sources(lines), textBase, dataBase, |lines|)
            case Err(e) => r == Err(e)
            case Ok(v) => r == Ok(v.1.syms) && Annotated(lines, v.0)
  {
    hide Place;
    ghost var srcs := Sources(lines);
    ghost var ps: seq<Placement> := [];
    var syms: Symbols := map[];
    var pc := map[TEXT := textBase, DATA := dataBase];
    var current := TEXT;
    for i := 0 to |lines|
      invariant TEXT in pc && DATA in pc
      invariant PlaceAll(srcs, textBase, dataBase, i) == Ok((ps, CursorOf(pc, current, syms)))
      invariant |ps| == i && Annotated(lines, ps)
    {
      var ln := lines[i];
      assert srcs[i] == Source(ln.mark, ln.op);
      var line;
      line, pc, current, syms := PlaceLine(ln, pc, current, syms);
      if line.Err? {
        PlaceFails(srcs, textBase, dataBase, i + 1, |lines|);
        return Err(line.error);
      }
      ps := ps + [Placement(ln.section, ln.pc, ln.size)];
    }
    return Ok(syms);
  }

  /** The sizing pass that lets the data base default. */
  method SizingPass(lines: seq<Line>) returns (r: Result<int>)
    ensures match SizeAll(Sources(lines), |lines|)
            case Err(e) => r == Err(e)
            case Ok(z) => r == Ok(z.text)
  {
    hide RoundUp, Pow2, InstrSize;
    ghost var srcs := Sources(lines);
    var sizes := map[TEXT := 0, DATA := 0];
    var current := TEXT;
    for i := 0 to |lines|
      invariant TEXT in sizes && DATA in sizes
      invariant SizeAll(srcs, i) == Ok(Sizes(sizes[TEXT], sizes[DATA], current))
    {
      assert srcs[i].op == lines[i].op;
      assert current == TEXT || current == DATA;
      match lines[i].op {
        case Bare =>
        case TextDir => current := TEXT;
        case DataDir => current := DATA;
        case Align(args) =>
          if args != [] {
            if args[0] < 0 {
              SizeFails(srcs, i + 1, |lines|);
              return Err(BAD_ALIGN);
            }
            sizes := sizes[current := RoundUp(sizes[current], Pow2(args[0]))];
          }
        case WordDir(vals) => sizes := sizes[current := sizes[current] + 4 * |vals|];
        case ByteDir(vals) => sizes := sizes[current := sizes[current] + |vals|];
        case Instruction(ins) => sizes := sizes[current := sizes[current] + InstrSize(ins)];
      }
    }
    return Ok(sizes[TEXT]);
  }

  // ---------- pass 2

  lemma {:induction false} PutPut(image: Image, pc: int, a: seq<byte>, b: seq<byte>)
    ensures Put(Put(image, pc, a), pc + |a|, b) == Put(image, pc, a + b)
    decreases |b|
  {
    hide Write;
    if b == [] {
      assert a + b == a;
    } else {
      var n := |b| - 1;
      PutPut(image, pc, a, b[..n]);
      assert (a + b)[..|a| + n] == a + b[..n];
    }
  }

  /** The image dictionary. */
  class ByteImage {
    var at: map<int, byte>
    var keys: seq<int>

    function State(): Image
      reads this
    {
      Image(at, keys)
    }

    /** The byte at an address, zero where nothing was written. */
    function Get(k: int): byte
      reads this
    {
      if k in at then at[k] else 0
    }

    constructor ()
      ensures State() == EMPTY
    {
      at, keys := map[], [];
    }

    method Set(k: int, b: byte)
      modifies this
      ensures State() == Write(old(State()), k, b)
    {
      if k !in at {
        keys := keys + [k];
      }
      at := at[k := b];
    }

    /** A word goes in as its four bytes, least significant first. */
    method EmitWord(addr: int, w: word)
      modifies this
      ensures State() == Put(old(State()), addr, WordBytes(w))
    {
      ghost var b := WordBytes(w);
      ghost var s := State();
      hide Write;
      PutFour(s, addr, b);
      Set(addr, Lane(w, 0));
      Set(addr + 1, Lane(w, 1));
      Set(addr + 2, Lane(w, 2));
      Set(addr + 3, Lane(w, 3));
    }

    method EmitWords(pc: int, ws: seq<word>)
      modifies this
      ensures State() == Put(old(State()), pc, BytesOfWords(ws))
    {
      hide Put, WordBytes;
      ghost var s := State();
      PutNothing(s, pc);
      for i := 0 to |ws|
        invariant State() == Put(s, pc, BytesOfWords(ws[..i]))
      {
        assert ws[..i + 1][..i] == ws[..i] && ws[..i + 1][i] == ws[i];
        PutPut(s, pc, BytesOfWords(ws[..i]), WordBytes(ws[i]));
        EmitWord(pc + 4 * i, ws[i]);
      }
      assert ws[..|ws|] == ws;
    }

    method EmitBytes(pc: int, bs: seq<byte>)
      modifies this
      ensures State() == Put(old(State()), pc, bs)
    {
      hide Write;
      ghost var s := State();
      for i := 0 to |bs|
        invariant State() == Put(s, pc, bs[..i])
      {
        assert bs[..i + 1][..i] == bs[..i];
        Set(pc + i, bs[i]);
      }
      assert bs[..|bs|] == bs;
    }
  }

  lemma PutNothing(s: Image, pc: int)
    ensures Put(s, pc, []) == s
  {}

  lemma PutFour(s: Image, pc: int, b: seq<byte>)
    requires |b| == 4
    ensures Put(s, pc, b) == Write(Write(Write(Write(s, pc, b[0]), pc + 1, b[1]), pc + 2, b[2]), pc + 3, b[3])
  {
    hide Write;
    assert b[..3][..2] == b[..2] && b[..2][..1] == b[..1] && b[..1][..0] == [];
    assert b[..3][2] == b[2] && b[..2][1] == b[1] && b[..1][0] == b[0];
    assert Put(s, pc, b[..1]) == Write(s, pc, b[0]);
    assert Put(s, pc, b[..2]) == Write(Put(s, pc, b[..1]), pc + 1, b[1]);
    assert Put(s, pc, b[..3]) == Write(Put(s, pc, b[..2]), pc + 2, b[2]);
  }

  /** One line of pass 2. */
  method EmitLine(ln: Line, syms: Symbols, image: ByteImage) returns (r: Result<()>)
    modifies image
    ensures match Emit(ln.op, ln.pc, syms)
            case Err(e) => r == Err(e)
            case Ok(bs) => r == Ok(()) && image.State() == Put(old(image.State()), ln.pc, bs)
  {
    hide Put, EncodeInstr, ResolveAll, BytesOfWords;
    PutNothing(image.State(), ln.pc);
    match ln.op {
      case WordDir(vals) =>
        var vs :- ResolveAll(vals, syms);
        image.EmitWords(ln.pc, seq(|vs|, i requires 0 <= i < |vs| => U32(vs[i])));
      case ByteDir(vals) =>
        var vs :- ResolveAll(vals, syms);
        image.EmitBytes(ln.pc, seq(|vs|, i requires 0 <= i < |vs| => vs[i] % 0x100));
      case Instruction(ins) =>
        var ws :- EncodeInstr(ins, ln.pc, syms);
        image.EmitWords(ln.pc, ws);
      case _ =>
    }
    return Ok(());
  }

  method EmitPass(lines: seq<Line>, syms: Symbols, ghost ps: seq<Placement>, image: ByteImage) returns (r: Result<()>)
    requires |ps| == |lines| && Annotated(lines, ps)
    requires image.State() == EMPTY
    modifies image
    ensures match EmitAll(Sources(lines), ps, syms, |lines|)
            case Err(e) => r == Err(e)
            case Ok(m) => r == Ok(()) && image.State() == m
  {
    hide Emit, Put;
    ghost var srcs := Sources(lines);
    for i := 0 to |lines|
      invariant EmitAll(srcs, ps, syms, i) == Ok(image.State())
    {
      assert srcs[i].op == lines[i].op && ps[i].pc == lines[i].pc;
      r := EmitLine(lines[i], syms, image);
      if r.Err? {
        EmitFails(srcs, ps, syms, i + 1, |lines|);
        return;
      }
    }
    return Ok(());
  }

  /** The words from the lowest written byte to the highest, zeros between. */
  method PackWords(image: ByteImage) returns (words: seq<word>)
    ensures words == PackImage(image.State())
  {
    hide LeastOf, GreatestOf, FromLanes, RoundUp;
    words := [];
    if image.keys == [] {
      return;
    }
    PackSpan(image.State());
    ghost var s := image.State();
    var lo := LeastOf(image.keys) / 4 * 4;
    var hi := RoundUp(GreatestOf(image.keys) + 1, 4);
    ghost var n := QuarterSteps(lo, hi);
    var addr := lo;
    while addr < hi
      invariant addr == lo + 4 * |words| && |words| <= n
      invariant words == Pack(s, lo, |words|)
      decreases n - |words|
    {
      words := words + [FromLanes(image.Get(addr), image.Get(addr + 1), image.Get(addr + 2), image.Get(addr + 3))];
      addr := addr + 4;
    }
  }

  lemma QuarterSteps(lo: int, hi: int) returns (n: nat)
    requires lo % 4 == 0 && hi % 4 == 0 && lo <= hi
    ensures hi == lo + 4 * n && n == (hi - lo) / 4
  {
    n := hi / 4 - lo / 4;
    DivModUnique(hi - lo, 4, n, 0);
  }

  /** The whole assembler after parsing, with `data_base` left to default or pinned. */
  method Assemble(lines: seq<Line>, textBase: int, pinned: bool, dataBase: int) returns (r: Result<seq<word>>)
    requires Distinct(lines)
    modifies lines
    ensures r == Assembled(Sources(lines), textBase, pinned, dataBase)
  {
    hide PlaceAll, SizeAll, EmitAll, PackImage, RoundUp;
    var text :- SizingPass(lines);
    var base := if pinned then dataBase else textBase + RoundUp(text, 4);
    var syms :- Pass1(lines, textBase, base);
    ghost var ps := PlaceAll(Sources(lines), textBase, base, |lines|).value.0;
    var image := new ByteImage();
    var _ :- EmitPass(lines, syms, ps, image);
    var words := PackWords(image);
    return Ok(words);
  }
}
