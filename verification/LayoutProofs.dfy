/** Layout soundness: pass 2 fills exactly what pass 1 reserved, the lines' ranges do
    not overlap, and the packed words are the written bytes with zeros between. */
module LayoutProofs {
  import opened Words
  import opened DataMemory
  import opened ByteMemory
  import opened A = Assembler
  import opened Layout

  // ---------- sizes

  /** Every accepted line emits exactly the bytes pass 1 reserved; `.align` reserves
      and emits none. */
  lemma EmitsItsSize(c: Cursor, src: Source, pc: int, syms: Symbols)
    requires Place(c, src).Ok? && Emit(src.op, pc, syms).Ok?
    ensures var p, bs := Place(c, src).value.0, Emit(src.op, pc, syms).value;
            if src.op.Align? then bs == [] && p.size >= 0 else |bs| == p.size
  {
    hide EncodeInstr, RoundUp, Define;
    if src.op.Instruction? {
      EncodedSize(src.op.ins, pc, syms);
    } else if src.op.Align? {
      var c' := Define(c, src.mark).value;
      RoundUpMeaning(Here(c'), Pow2(src.op.args[0]));
    }
  }

  /** The line-by-line view of an accepted pass 1. */
  lemma {:induction false} PlacedBy(srcs: seq<Source>, tb: int, db: int, n: nat, i: nat)
    requires i < n <= |srcs| && PlaceAll(srcs, tb, db, n).Ok?
    ensures PlaceAll(srcs, tb, db, i).Ok? && PlaceAll(srcs, tb, db, i + 1).Ok?
    ensures var c := PlaceAll(srcs, tb, db, i).value.1;
            && Place(c, srcs[i]).Ok?
            && Place(c, srcs[i]).value.0 == PlaceAll(srcs, tb, db, n).value.0[i]
            && Place(c, srcs[i]).value.1 == PlaceAll(srcs, tb, db, i + 1).value.1
    decreases n
  {
    hide Place;
    if i < n - 1 {
      PlacedBy(srcs, tb, db, n - 1, i);
    }
  }

  // ---------- ranges

  lemma PlaceShape(c: Cursor, src: Source)
    requires Place(c, src).Ok?
    ensures var (p, c') := Place(c, src).value;
            && p.size >= 0
            && (if p.section == TEXT then p.pc == c.text && c'.text == c.text + p.size && c'.data == c.data
                else p.pc == c.data && c'.data == c.data + p.size && c'.text == c.text)
            && (src.op.TextDir? || src.op.DataDir? || p.section == c.current)
            && c'.current == p.section
  {
    hide RoundUp;
    if src.op.Align? {
      var c' := Define(c, src.mark).value;
      RoundUpMeaning(Here(c'), Pow2(src.op.args[0]));
    }
  }

  /** Both cursors only move up. */
  lemma {:induction false} CursorsGrow(srcs: seq<Source>, tb: int, db: int, i: nat, n: nat)
    requires i <= n <= |srcs| && PlaceAll(srcs, tb, db, n).Ok?
    ensures PlaceAll(srcs, tb, db, i).Ok?
    ensures var c, d := PlaceAll(srcs, tb, db, i).value.1, PlaceAll(srcs, tb, db, n).value.1;
            c.text <= d.text && c.data <= d.data
    decreases n
  {
    hide Place;
    if i < n {
      PlacedBy(srcs, tb, db, n, n - 1);
      PlaceShape(PlaceAll(srcs, tb, db, n - 1).value.1, srcs[n - 1]);
      CursorsGrow(srcs, tb, db, i, n - 1);
    }
  }

  /** A text line lies between the text base and the end of text; a data line lies
      at or above the data base. */
  lemma LineInSection(srcs: seq<Source>, tb: int, db: int, i: nat)
    requires i < |srcs| && PlaceAll(srcs, tb, db, |srcs|).Ok?
    ensures var (ps, c) := PlaceAll(srcs, tb, db, |srcs|).value;
            && ps[i].size >= 0
            && (ps[i].section == TEXT ==> tb <= ps[i].pc && ps[i].pc + ps[i].size <= c.text)
            && (ps[i].section == DATA ==> db <= ps[i].pc && ps[i].pc + ps[i].size <= c.data)
  {
    hide Place, PlaceAll;
    PlacedBy(srcs, tb, db, |srcs|, i);
    PlaceShape(PlaceAll(srcs, tb, db, i).value.1, srcs[i]);
    CursorsGrow(srcs, tb, db, 0, i);
    CursorsGrow(srcs, tb, db, i + 1, |srcs|);
    NothingPlaced(srcs, tb, db);
  }

  lemma NothingPlaced(srcs: seq<Source>, tb: int, db: int)
    ensures PlaceAll(srcs, tb, db, 0) == Ok(([], Cursor(tb, db, TEXT, map[])))
  {}

  /** Two lines of one section never overlap: the later starts where the earlier
      ended or above. */
  lemma SectionOrdered(srcs: seq<Source>, tb: int, db: int, i: nat, j: nat)
    requires i < j < |srcs| && PlaceAll(srcs, tb, db, |srcs|).Ok?
    ensures var ps := PlaceAll(srcs, tb, db, |srcs|).value.0;
            ps[i].section == ps[j].section ==> ps[i].pc + ps[i].size <= ps[j].pc
  {
    hide Place, PlaceAll;
    PlacedBy(srcs, tb, db, |srcs|, i);
    PlacedBy(srcs, tb, db, |srcs|, j);
    PlaceShape(PlaceAll(srcs, tb, db, i).value.1, srcs[i]);
    PlaceShape(PlaceAll(srcs, tb, db, j).value.1, srcs[j]);
    CursorsGrow(srcs, tb, db, i + 1, j);
  }

  // ---------- labels

  lemma PlaceSyms(c: Cursor, src: Source)
    requires Place(c, src).Ok?
    ensures var (p, c') := Place(c, src).value;
            match src.mark
            case NoLabel => c'.syms == c.syms
            case Label(n) =>
              && n !in c.syms && c'.syms == c.syms[n := Here(c)]
              && (!src.op.TextDir? && !src.op.DataDir? ==> p.pc == Here(c))
  {
    hide RoundUp;
  }

  /** A label's address is its own line's; on a section directive it is where the
      section being left had got to. */
  lemma {:induction false} LabelAddress(srcs: seq<Source>, tb: int, db: int, n: nat, i: nat)
    requires i < n <= |srcs| && PlaceAll(srcs, tb, db, n).Ok? && srcs[i].mark.Label?
    ensures PlaceAll(srcs, tb, db, i).Ok?
    ensures var (ps, c) := PlaceAll(srcs, tb, db, n).value;
            var name := srcs[i].mark.name;
            && name in c.syms && c.syms[name] == Here(PlaceAll(srcs, tb, db, i).value.1)
            && (!srcs[i].op.TextDir? && !srcs[i].op.DataDir? ==> c.syms[name] == ps[i].pc)
    decreases n
  {
    hide Place, Here;
    PlacedBy(srcs, tb, db, n, n - 1);
    PlaceSyms(PlaceAll(srcs, tb, db, n - 1).value.1, srcs[n - 1]);
    if i < n - 1 {
      LabelAddress(srcs, tb, db, n - 1, i);
    }
  }

  /** An accepted program defines no label twice. */
  lemma LabelsDistinct(srcs: seq<Source>, tb: int, db: int, i: nat, j: nat)
    requires i < j < |srcs| && PlaceAll(srcs, tb, db, |srcs|).Ok?
    requires srcs[i].mark.Label? && srcs[j].mark.Label?
    ensures srcs[i].mark.name != srcs[j].mark.name
  {
    hide Place, Here;
    PlacedBy(srcs, tb, db, |srcs|, j);
    LabelAddress(srcs, tb, db, j, i);
    PlaceSyms(PlaceAll(srcs, tb, db, j).value.1, srcs[j]);
  }

  // ---------- text stays below data

  /** The text base is a multiple of every boundary the program aligns to. */
  predicate BaseFits(srcs: seq<Source>, tb: int) {
    forall i :: 0 <= i < |srcs| && srcs[i].op.Align? && srcs[i].op.args != [] && srcs[i].op.args[0] >= 0 ==>
                  tb % Pow2(srcs[i].op.args[0]) == 0
  }

  lemma RoundUpShift(base: int, x: int, b: int)
    requires b >= 1 && base % b == 0
    ensures RoundUp(base + x, b) == base + RoundUp(x, b)
  {
    var k, q, r := base / b, (x + b - 1) / b, (x + b - 1) % b;
    assert base == b * k && x + b - 1 == b * q + r;
    assert b * (k + q) == b * k + b * q;
    DivModUnique(base + x + b - 1, b, k + q, r);
    assert (k + q) * b == b * (k + q) && q * b == b * q;
  }

  predicate InStep(c: Cursor, z: Sizes, tb: int) {
    c.text == tb + z.text && c.current == z.current
  }

  lemma SizingStep(c: Cursor, z: Sizes, src: Source, tb: int)
    requires InStep(c, z, tb) && Place(c, src).Ok? && SizeOne(z, src.op).Ok?
    requires src.op.Align? && src.op.args != [] && src.op.args[0] >= 0 ==> tb % Pow2(src.op.args[0]) == 0
    ensures InStep(Place(c, src).value.1, SizeOne(z, src.op).value, tb)
  {
    hide Pow2, RoundUp;
    match src.op
    case Align(args) => RoundUpShift(tb, z.text, Pow2(args[0]));
    case _ =>
  }

  /** The sizing pass predicts where pass 1's text cursor ends. */
  lemma {:induction false} SizingPredicts(srcs: seq<Source>, tb: int, db: int, n: nat)
    requires n <= |srcs| && BaseFits(srcs, tb)
    requires PlaceAll(srcs, tb, db, n).Ok? && SizeAll(srcs, n).Ok?
    ensures InStep(PlaceAll(srcs, tb, db, n).value.1, SizeAll(srcs, n).value, tb)
    decreases n
  {
    hide Pow2, Place, SizeOne;
    if n > 0 {
      SizingPredicts(srcs, tb, db, n - 1);
      SizingStep(PlaceAll(srcs, tb, db, n - 1).value.1, SizeAll(srcs, n - 1).value, srcs[n - 1], tb);
    }
  }

  /** With the data base left to default, and a text base that fits the program's
      alignments, all of text lies below all of data. */
  lemma TextBelowData(srcs: seq<Source>, tb: int)
    requires Build(srcs, tb, false, 0).Ok? && BaseFits(srcs, tb)
    ensures var z := SizeAll(srcs, |srcs|).value;
            var db := DefaultDataBase(tb, z);
            PlaceAll(srcs, tb, db, |srcs|).Ok? && PlaceAll(srcs, tb, db, |srcs|).value.1.text <= db
  {
    hide PlaceAll, EmitAll, SizeAll, RoundUp;
    var z := SizeAll(srcs, |srcs|).value;
    SizingPredicts(srcs, tb, DefaultDataBase(tb, z), |srcs|);
    RoundUpMeaning(z.text, 4);
  }

  // ---------- the image

  /** No two lines' ranges share an address. */
  predicate RangesApart(ps: seq<Placement>) {
    forall i, j :: 0 <= i < j < |ps| ==>
                     ps[i].pc + ps[i].size <= ps[j].pc || ps[j].pc + ps[j].size <= ps[i].pc
  }

  lemma BuildIsApart(srcs: seq<Source>, tb: int)
    requires Build(srcs, tb, false, 0).Ok? && BaseFits(srcs, tb)
    ensures RangesApart(Build(srcs, tb, false, 0).value.placements)
  {
    hide PlaceAll, EmitAll, SizeAll, DefaultDataBase, BaseFits;
    TextBelowData(srcs, tb);
    var db := DefaultDataBase(tb, SizeAll(srcs, |srcs|).value);
    var ps := Build(srcs, tb, false, 0).value.placements;
    forall i, j | 0 <= i < j < |ps|
      ensures ps[i].pc + ps[i].size <= ps[j].pc || ps[j].pc + ps[j].size <= ps[i].pc
    {
      SectionOrdered(srcs, tb, db, i, j);
      LineInSection(srcs, tb, db, i);
      LineInSection(srcs, tb, db, j);
    }
  }

  /** A program that shows why the base must fit: one instruction after the
      alignment, and enough data to reach wherever it lands. */
  function Aligner(e: nat): seq<Source> {
    [Source(NoLabel, Align([e])), Source(NoLabel, Instruction(Nop)), Source(NoLabel, DataDir),
     Source(NoLabel, WordDir(seq(Pow2(e), i => Num(0))))]
  }

  lemma AlignerSizes(e: nat)
    ensures var z := SizeAll(Aligner(e), 4); z.Ok? && z.value.text == 4
  {
    hide Pow2;
    var b := Pow2(e);
    assert SizeAll(Aligner(e), 0) == Ok(Sizes(0, 0, TEXT));
    DivModUnique(b - 1, b, 0, b - 1);
    assert RoundUp(0, b) == 0;
    assert SizeAll(Aligner(e), 1) == Ok(Sizes(0, 0, TEXT));
    assert SizeAll(Aligner(e), 2) == Ok(Sizes(4, 0, TEXT));
    assert SizeAll(Aligner(e), 3) == Ok(Sizes(4, 0, DATA));
  }

  lemma AlignerPlaced(e: nat, tb: int, db: int)
    requires e <= 12
    ensures var b := RoundUp(tb, Pow2(e));
            PlaceAll(Aligner(e), tb, db, 4) ==
            Ok(([Placement(TEXT, tb, b - tb), Placement(TEXT, b, 4), Placement(DATA, db, 0),
                 Placement(DATA, db, 4 * Pow2(e))], Cursor(b + 4, db + 4 * Pow2(e), DATA, map[])))
  {
    hide Pow2, RoundUp, PlaceAll;
    var b := RoundUp(tb, Pow2(e));
    var none: Symbols := map[];
    var p0, p1, p2 := Placement(TEXT, tb, b - tb), Placement(TEXT, b, 4), Placement(DATA, db, 0);
    var d: seq<Operand> := seq(Pow2(e), i => Num(0));
    var c0, c1, c2, c3 := Cursor(tb, db, TEXT, none), Cursor(b, db, TEXT, none), Cursor(b + 4, db, TEXT, none),
                          Cursor(b + 4, db, DATA, none);
    NothingPlaced(Aligner(e), tb, db);
    assert Place(c0, Source(NoLabel, Align([e]))) == Ok((p0, c1));
    assert Place(c1, Source(NoLabel, Instruction(Nop))) == Ok((p1, c2));
    assert Place(c2, Source(NoLabel, DataDir)) == Ok((p2, c3));
    assert Place(c3, Source(NoLabel, WordDir(d))) ==
           Ok((Placement(DATA, db, 4 * Pow2(e)), Cursor(b + 4, db + 4 * Pow2(e), DATA, none)));
    hide Place;
    var none0: seq<Placement> := [];
    var p3 := Placement(DATA, db, 4 * Pow2(e));
    assert [p0, p1, p2] + [p3] == [p0, p1, p2, p3];
    assert none0 + [p0] == [p0] && [p0] + [p1] == [p0, p1] && [p0, p1] + [p2] == [p0, p1, p2];
    PlaceOne(Aligner(e), tb, db, 0, [], c0);
    PlaceOne(Aligner(e), tb, db, 1, [p0], c1);
    PlaceOne(Aligner(e), tb, db, 2, [p0, p1], c2);
    PlaceOne(Aligner(e), tb, db, 3, [p0, p1, p2], c3);
  }

  lemma PlaceOne(srcs: seq<Source>, tb: int, db: int, n: nat, ps: seq<Placement>, c: Cursor)
    requires n < |srcs| && PlaceAll(srcs, tb, db, n) == Ok((ps, c)) && Place(c, srcs[n]).Ok?
    ensures PlaceAll(srcs, tb, db, n + 1) == Ok((ps + [Place(c, srcs[n]).value.0], Place(c, srcs[n]).value.1))
  {
    hide Place;
  }

  lemma {:induction false} ResolveZeros(n: nat, syms: Symbols)
    ensures ResolveAll(seq(n, i => Num(0)), syms).Ok?
  {
    if n > 0 {
      ResolveZeros(n - 1, syms);
      assert seq(n, i => Num(0))[..n - 1] == seq(n - 1, i => Num(0));
    }
  }

  lemma AlignerEmits(e: nat, ps: seq<Placement>, syms: Symbols)
    requires |ps| == 4
    ensures EmitAll(Aligner(e), ps, syms, 4).Ok?
  {
    hide Pow2, Put, BytesOfWords;
    ResolveZeros(Pow2(e), syms);
    var s := Aligner(e);
    assert EmitAll(s, ps, syms, 0).Ok?;
    assert EmitAll(s, ps, syms, 1).Ok?;
    assert EmitAll(s, ps, syms, 2).Ok?;
    assert EmitAll(s, ps, syms, 3).Ok?;
  }

  /** If the base does not fit, that program's instruction lands on its own data. */
  lemma UnfitBaseOverlaps(tb: int, e: nat)
    requires e <= 12 && tb % Pow2(e) != 0
    ensures var b := Build(Aligner(e), tb, false, 0); b.Ok? && !RangesApart(b.value.placements)
  {
    hide Pow2, RoundUp, PlaceAll, SizeAll, EmitAll, DefaultDataBase, Aligner, RangesApart;
    AlignerLength(e);
    AlignerSizes(e);
    var db := AlignerBase(e, tb);
    AlignerPlaced(e, tb, db);
    var ps := PlaceAll(Aligner(e), tb, tb + 4, 4).value.0;
    AlignerEmits(e, ps, map[]);
    AlignerOverlaps(e, tb, ps);
  }

  lemma AlignerBase(e: nat, tb: int) returns (db: int)
    ensures db == tb + 4 && SizeAll(Aligner(e), 4).Ok? && db == DefaultDataBase(tb, SizeAll(Aligner(e), 4).value)
  {
    hide Aligner, SizeAll;
    db := tb + 4;
    AlignerSizes(e);
  }

  lemma AlignerOverlaps(e: nat, tb: int, ps: seq<Placement>)
    requires |ps| == 4 && tb % Pow2(e) != 0
    requires var b := RoundUp(tb, Pow2(e));
             ps[1] == Placement(TEXT, b, 4) && ps[3] == Placement(DATA, tb + 4, 4 * Pow2(e))
    ensures !RangesApart(ps)
  {
    RoundUpMeaning(tb, Pow2(e));
    hide Pow2, RoundUp;
    assert ps[1].pc + ps[1].size > ps[3].pc && ps[3].pc + ps[3].size > ps[1].pc;
  }

  lemma AlignerLength(e: nat)
    ensures |Aligner(e)| == 4 && AlignsWithin(Aligner(e), e)
  {}

  predicate AlignsWithin(srcs: seq<Source>, e: nat) {
    forall i :: 0 <= i < |srcs| && srcs[i].op.Align? && srcs[i].op.args != [] ==> srcs[i].op.args[0] <= e
  }

  lemma PowerDivides(x: int, a: nat, e: nat)
    requires a <= e && x % Pow2(e) == 0
    ensures x % Pow2(a) == 0
  {
    hide Pow2;
    Pow2Add(a, e - a);
    var p, q, k := Pow2(a), Pow2(e - a), x / Pow2(e);
    assert x == (p * q) * k;
    assert (p * q) * k == p * (q * k);
    DivModUnique(x, p, q * k, 0);
  }

  /** With the default data base, a text base keeps every accepted program that
      aligns to at most 2^e apart exactly when it is a multiple of 2^e. */
  lemma BaseFitsExactly(tb: int, e: nat)
    requires e <= 12
    ensures tb % Pow2(e) == 0 <==>
            forall srcs :: AlignsWithin(srcs, e) && Build(srcs, tb, false, 0).Ok? ==>
                             RangesApart(Build(srcs, tb, false, 0).value.placements)
  {
    hide Build, RangesApart, Pow2, AlignsWithin;
    if tb % Pow2(e) == 0 {
      forall srcs | AlignsWithin(srcs, e) && Build(srcs, tb, false, 0).Ok?
        ensures RangesApart(Build(srcs, tb, false, 0).value.placements)
      {
        WithinFits(srcs, tb, e);
        BuildIsApart(srcs, tb);
      }
    } else {
      UnfitBaseOverlaps(tb, e);
      AlignerLength(e);
    }
  }

  lemma WithinFits(srcs: seq<Source>, tb: int, e: nat)
    requires AlignsWithin(srcs, e) && tb % Pow2(e) == 0
    ensures BaseFits(srcs, tb)
  {
    hide Pow2;
    forall i | 0 <= i < |srcs| && srcs[i].op.Align? && srcs[i].op.args != [] && srcs[i].op.args[0] >= 0
      ensures tb % Pow2(srcs[i].op.args[0]) == 0
    {
      PowerDivides(tb, srcs[i].op.args[0], e);
    }
  }

  /** Every line emits within its range. */
  predicate EmitsInRange(srcs: seq<Source>, ps: seq<Placement>, syms: Symbols)
    requires |srcs| == |ps|
  {
    forall i :: 0 <= i < |srcs| ==>
                  var r := Emit(srcs[i].op, ps[i].pc, syms); r.Ok? ==> |r.value| <= ps[i].size
  }

  lemma BuildInRange(srcs: seq<Source>, tb: int, db: int)
    requires PlaceAll(srcs, tb, db, |srcs|).Ok?
    ensures var (ps, c) := PlaceAll(srcs, tb, db, |srcs|).value; EmitsInRange(srcs, ps, c.syms)
  {
    hide PlaceAll, Place, Emit;
    var (ps, c) := PlaceAll(srcs, tb, db, |srcs|).value;
    forall i | 0 <= i < |srcs| && Emit(srcs[i].op, ps[i].pc, c.syms).Ok?
      ensures |Emit(srcs[i].op, ps[i].pc, c.syms).value| <= ps[i].size
    {
      PlacedBy(srcs, tb, db, |srcs|, i);
      EmitsItsSize(PlaceAll(srcs, tb, db, i).value.1, srcs[i], ps[i].pc, c.syms);
    }
  }

  lemma {:induction false} EmitOk(srcs: seq<Source>, ps: seq<Placement>, syms: Symbols, n: nat, i: nat)
    requires i < n <= |srcs| == |ps| && EmitAll(srcs, ps, syms, n).Ok?
    ensures Emit(srcs[i].op, ps[i].pc, syms).Ok?
    ensures EmitAll(srcs, ps, syms, i).Ok?
    decreases n
  {
    hide Emit;
    if i < n - 1 {
      EmitOk(srcs, ps, syms, n - 1, i);
    }
  }

  /** An address is written when some line's bytes cover it. */
  ghost predicate Written(srcs: seq<Source>, ps: seq<Placement>, syms: Symbols, n: nat, k: int)
    requires n <= |srcs| == |ps|
  {
    exists i :: 0 <= i < n && Covers(srcs[i].op, ps[i].pc, syms, k)
  }

  predicate Covers(op: Op, pc: int, syms: Symbols, k: int) {
    Emit(op, pc, syms).Ok? && pc <= k < pc + |Emit(op, pc, syms).value|
  }

  function Covering(op: Op, pc: int, syms: Symbols, k: int): byte
    requires Covers(op, pc, syms, k)
  {
    Emit(op, pc, syms).value[k - pc]
  }

  /** Before line `n` is emitted, none of its addresses has been written, so each
      byte of the image is written at most once. */
  lemma {:induction false} WrittenOnce(srcs: seq<Source>, ps: seq<Placement>, syms: Symbols, n: nat, k: int)
    requires n < |srcs| == |ps| && EmitAll(srcs, ps, syms, |srcs|).Ok?
    requires RangesApart(ps) && EmitsInRange(srcs, ps, syms)
    requires Covers(srcs[n].op, ps[n].pc, syms, k)
    ensures EmitAll(srcs, ps, syms, n).Ok? && k !in EmitAll(srcs, ps, syms, n).value.at
  {
    hide Emit, EmitAll;
    EmitOk(srcs, ps, syms, |srcs|, n);
    ImageKeys(srcs, ps, syms, n, k);
  }

  /** The image's keys are exactly the written addresses. */
  lemma {:induction false} ImageKeys(srcs: seq<Source>, ps: seq<Placement>, syms: Symbols, n: nat, k: int)
    requires n <= |srcs| == |ps| && EmitAll(srcs, ps, syms, n).Ok?
    ensures k in EmitAll(srcs, ps, syms, n).value.at <==> Written(srcs, ps, syms, n, k)
    ensures KeysListed(EmitAll(srcs, ps, syms, n).value)
    decreases n
  {
    hide Emit, Put;
    if n > 0 {
      ImageKeys(srcs, ps, syms, n - 1, k);
      var image, bs := EmitAll(srcs, ps, syms, n - 1).value, Emit(srcs[n - 1].op, ps[n - 1].pc, syms).value;
      PutAt(image, ps[n - 1].pc, bs, k);
      PutListed(image, ps[n - 1].pc, bs);
      assert Covers(srcs[n - 1].op, ps[n - 1].pc, syms, k) <==> ps[n - 1].pc <= k < ps[n - 1].pc + |bs|;
    }
  }

  /** Every line's bytes are in the finished image, at the line's addresses. */
  lemma {:induction false} ImageHolds(srcs: seq<Source>, ps: seq<Placement>, syms: Symbols, n: nat, i: nat, k: int)
    requires i < n <= |srcs| == |ps| && EmitAll(srcs, ps, syms, n).Ok?
    requires RangesApart(ps) && EmitsInRange(srcs, ps, syms)
    requires Covers(srcs[i].op, ps[i].pc, syms, k)
    ensures var image := EmitAll(srcs, ps, syms, n).value;
            k in image.at && image.at[k] == Covering(srcs[i].op, ps[i].pc, syms, k)
    decreases n
  {
    hide Emit, Put;
    var image, bs := EmitAll(srcs, ps, syms, n - 1).value, Emit(srcs[n - 1].op, ps[n - 1].pc, syms).value;
    PutAt(image, ps[n - 1].pc, bs, k);
    if i < n - 1 {
      ImageHolds(srcs, ps, syms, n - 1, i, k);
    }
  }

  // ---------- the words

  /** The packed words, read little-endian from the image's origin, are the image
      with zeros where nothing was written, and they cover all of it. */
  lemma PackReadsBack(image: Image, k: int)
    requires KeysListed(image)
    ensures var ws, lo := PackImage(image), Origin(image);
            && (k in image.at ==> lo <= k < lo + 4 * |ws|)
            && (lo <= k < lo + 4 * |ws| ==> Lane(ws[(k - lo) / 4], (k - lo) % 4) == ByteAt(image, k))
  {
    hide Lane, FromLanes, LeastOf, GreatestOf;
    if image.keys != [] {
      PackSpan(image);
      var lo := Origin(image);
      var hi := RoundUp(GreatestOf(image.keys) + 1, 4);
      QuarterSpan(lo, hi);
      var ws := PackImage(image);
      if k in image.at {
        var i :| 0 <= i < |image.keys| && image.keys[i] == k;
        Extremes(image.keys, i);
      }
      if lo <= k < lo + 4 * |ws| {
        var i, j := (k - lo) / 4, (k - lo) % 4;
        var a := lo + 4 * i;
        assert ws[i] == WordAtAddr(image, a);
        LanesRebuilt(ByteAt(image, a), ByteAt(image, a + 1), ByteAt(image, a + 2), ByteAt(image, a + 3));
        assert k == a + j;
      }
    }
  }

  lemma QuarterSpan(lo: int, hi: int)
    requires lo % 4 == 0 && hi % 4 == 0 && lo <= hi
    ensures 4 * ((hi - lo) / 4) == hi - lo
  {
    DivModUnique(hi - lo, 4, hi / 4 - lo / 4, 0);
  }

  /** Layout soundness in one statement: when the lines' ranges lie apart, the
      returned words read little-endian give every line's bytes at its own addresses
      and zero wherever no line wrote. */
  lemma LayoutSound(srcs: seq<Source>, tb: int, pinned: bool, db: int, k: int)
    requires Build(srcs, tb, pinned, db).Ok? && RangesApart(Build(srcs, tb, pinned, db).value.placements)
    ensures var b := Build(srcs, tb, pinned, db).value;
            var ws, lo := Assembled(srcs, tb, pinned, db).value, Origin(b.image);
            && EmitsInRange(srcs, b.placements, b.syms)
            && (forall i :: 0 <= i < |srcs| && Covers(srcs[i].op, b.placements[i].pc, b.syms, k) ==>
                  && lo <= k < lo + 4 * |ws|
                  && Lane(ws[(k - lo) / 4], (k - lo) % 4) == Covering(srcs[i].op, b.placements[i].pc, b.syms, k))
            && (lo <= k < lo + 4 * |ws| && !Written(srcs, b.placements, b.syms, |srcs|, k) ==>
                  Lane(ws[(k - lo) / 4], (k - lo) % 4) == 0)
  {
    hide PlaceAll, EmitAll, SizeAll, DefaultDataBase, BaseFits, Emit, RangesApart, EmitsInRange, PackImage, Origin,
      Lane,
      Covers, Covering, Written;
    var b := Build(srcs, tb, pinned, db).value;
    BuildInRange(srcs, tb, if pinned then db else DefaultDataBase(tb, SizeAll(srcs, |srcs|).value));
    ImageKeys(srcs, b.placements, b.syms, |srcs|, k);
    PackReadsBack(b.image, k);
    forall i | 0 <= i < |srcs| && Covers(srcs[i].op, b.placements[i].pc, b.syms, k)
      ensures k in b.image.at && b.image.at[k] == Covering(srcs[i].op, b.placements[i].pc, b.syms, k)
    {
      ImageHolds(srcs, b.placements, b.syms, |srcs|, i, k);
    }
  }

  // ---------- where the words start

  function CursorIn(c: Cursor, section: Section): int {
    if section == TEXT then c.text else c.data
  }

  lemma RoundUpFits(x: int, b: int)
    requires b >= 1 && x % b == 0
    ensures RoundUp(x, b) == x
  {
    RoundUpShift(x, 0, b);
    DivModUnique(b - 1, b, 0, b - 1);
  }

  /** An alignment reserves nothing at a base that fits it. */
  lemma AlignsFreely(c: Cursor, src: Source, base: int)
    requires Place(c, src).Ok? && src.op.Align? && CursorIn(c, c.current) == base
    requires base % Pow2(src.op.args[0]) == 0
    ensures Place(c, src).value.0.size == 0
  {
    hide Pow2, RoundUp;
    RoundUpFits(base, Pow2(src.op.args[0]));
  }

  /** A section's cursor leaves its base only once a line has written there. */
  lemma {:induction false} Anchored(srcs: seq<Source>, tb: int, db: int, section: Section, n: nat)
    requires n <= |srcs| && PlaceAll(srcs, tb, db, |srcs|).Ok?
    requires var (ps, c) := PlaceAll(srcs, tb, db, |srcs|).value; EmitAll(srcs, ps, c.syms, |srcs|).Ok?
    requires BaseFits(srcs, if section == TEXT then tb else db)
    ensures PlaceAll(srcs, tb, db, n).Ok?
    ensures var (ps, c) := PlaceAll(srcs, tb, db, |srcs|).value;
            var base := if section == TEXT then tb else db;
            CursorIn(PlaceAll(srcs, tb, db, n).value.1, section) == base || Written(srcs, ps, c.syms, n, base)
    decreases n
  {
    hide Place, PlaceAll, Emit, EmitAll, Pow2;
    CursorsGrow(srcs, tb, db, n, |srcs|);
    NothingPlaced(srcs, tb, db);
    if n > 0 {
      var (ps, d) := PlaceAll(srcs, tb, db, |srcs|).value;
      var base := if section == TEXT then tb else db;
      Anchored(srcs, tb, db, section, n - 1);
      PlacedBy(srcs, tb, db, |srcs|, n - 1);
      var c, src := PlaceAll(srcs, tb, db, n - 1).value.1, srcs[n - 1];
      PlaceShape(c, src);
      EmitOk(srcs, ps, d.syms, |srcs|, n - 1);
      EmitsItsSize(c, src, ps[n - 1].pc, d.syms);
      if Written(srcs, ps, d.syms, n - 1, base) {
        StillWritten(srcs, ps, d.syms, n - 1, base);
      } else if ps[n - 1].section == section && ps[n - 1].size > 0 {
        if src.op.Align? {
          AlignHasArg(c, src);
          AlignsFreely(c, src, base);
        } else {
          assert Covers(src.op, ps[n - 1].pc, d.syms, base);
        }
      }
    }
  }

  lemma AlignHasArg(c: Cursor, src: Source)
    requires Place(c, src).Ok? && src.op.Align?
    ensures |src.op.args| == 1 && src.op.args[0] >= 0
  {
    hide RoundUp, Pow2;
  }

  lemma StillWritten(srcs: seq<Source>, ps: seq<Placement>, syms: Symbols, n: nat, k: int)
    requires n < |srcs| == |ps| && Written(srcs, ps, syms, n, k)
    ensures Written(srcs, ps, syms, n + 1, k)
  {
    hide Covers;
  }

  /** A written address lies in a line of its section. */
  lemma WrittenInside(srcs: seq<Source>, tb: int, db: int, k: int)
    requires PlaceAll(srcs, tb, db, |srcs|).Ok?
    requires var (ps, c) := PlaceAll(srcs, tb, db, |srcs|).value; Written(srcs, ps, c.syms, |srcs|, k)
    ensures var c := PlaceAll(srcs, tb, db, |srcs|).value.1; tb <= k < c.text || db <= k < c.data
  {
    hide Place, PlaceAll, Emit;
    var (ps, c) := PlaceAll(srcs, tb, db, |srcs|).value;
    var i :| 0 <= i < |srcs| && Covers(srcs[i].op, ps[i].pc, c.syms, k);
    LineInSection(srcs, tb, db, i);
    PlacedBy(srcs, tb, db, |srcs|, i);
    EmitsItsSize(PlaceAll(srcs, tb, db, i).value.1, srcs[i], ps[i].pc, c.syms);
  }

  /** The origin, once the lowest written address is known. */
  lemma OriginFrom(image: Image, low: int)
    requires KeysListed(image) && low in image.at && (forall k :: k in image.at ==> k >= low)
    ensures Origin(image) == low / 4 * 4
  {
    hide LeastOf, GreatestOf;
    var i :| 0 <= i < |image.keys| && image.keys[i] == low;
    Extremes(image.keys, i);
  }

  lemma FirstKey(image: Image)
    requires KeysListed(image) && image.keys != []
    ensures image.keys[0] in image.at
  {
    var k := image.keys[0];
    assert k in image.keys;
  }

  /** With the default data base, a fitting text base that is a word address is where
      the packed words start, whatever the program. */
  lemma OriginIsBase(srcs: seq<Source>, tb: int)
    requires Build(srcs, tb, false, 0).Ok? && Build(srcs, tb, false, 0).value.image.keys != []
    requires BaseFits(srcs, tb) && tb % 4 == 0
    ensures Origin(Build(srcs, tb, false, 0).value.image) == tb
  {
    hide PlaceAll, SizeAll, EmitAll, RoundUp, Written, BaseFits, Origin, LeastOf, GreatestOf;
    var b := Build(srcs, tb, false, 0).value;
    var z := SizeAll(srcs, |srcs|).value;
    var db := DefaultDataBase(tb, z);
    var c := PlaceAll(srcs, tb, db, |srcs|).value.1;
    RoundUpMeaning(z.text, 4);
    SizingPredicts(srcs, tb, db, |srcs|);
    CursorsGrow(srcs, tb, db, 0, |srcs|);
    NothingPlaced(srcs, tb, db);
    forall k | k in b.image.at
      ensures tb <= k < c.text || db <= k < c.data
    {
      ImageKeys(srcs, b.placements, b.syms, |srcs|, k);
      WrittenInside(srcs, tb, db, k);
    }
    ImageKeys(srcs, b.placements, b.syms, |srcs|, tb);
    Anchored(srcs, tb, db, TEXT, |srcs|);
    if !Written(srcs, b.placements, b.syms, |srcs|, tb) {
      RoundUpFits(0, 4);
      Anchored(srcs, tb, db, DATA, |srcs|);
      FirstKey(b.image);
    }
    OriginFrom(b.image, tb);
    DivModUnique(tb, 4, tb / 4, 0);
  }

  /** One aligned instruction. */
  function Padded(e: nat): seq<Source> {
    [Source(NoLabel, Align([e])), Source(NoLabel, Instruction(Nop))]
  }

  lemma PaddedPlaced(e: nat, tb: int, db: int)
    requires e <= 12
    ensures var b := RoundUp(tb, Pow2(e));
            PlaceAll(Padded(e), tb, db, 2) ==
            Ok(([Placement(TEXT, tb, b - tb), Placement(TEXT, b, 4)], Cursor(b + 4, db, TEXT, map[])))
    ensures SizeAll(Padded(e), 2).Ok?
  {
    hide Pow2, RoundUp, PlaceAll;
    var b := RoundUp(tb, Pow2(e));
    var none: Symbols := map[];
    var p0, p1 := Placement(TEXT, tb, b - tb), Placement(TEXT, b, 4);
    assert SizeAll(Padded(e), 1).Ok?;
    NothingPlaced(Padded(e), tb, db);
    var none0: seq<Placement> := [];
    assert none0 + [p0] == [p0] && [p0] + [p1] == [p0, p1];
    PlaceOne(Padded(e), tb, db, 0, [], Cursor(tb, db, TEXT, none));
    PlaceOne(Padded(e), tb, db, 1, [p0], Cursor(b, db, TEXT, none));
  }

  lemma PaddedEmits(e: nat, ps: seq<Placement>, syms: Symbols, k: int)
    requires |ps| == 2
    ensures EmitAll(Padded(e), ps, syms, 2).Ok?
    ensures Written(Padded(e), ps, syms, 2, k) <==> ps[1].pc <= k < ps[1].pc + 4
  {
    hide Put, BytesOfWords;
    var s := Padded(e);
    assert EmitAll(s, ps, syms, 0).Ok?;
    assert EmitAll(s, ps, syms, 1).Ok?;
    assert !Covers(s[0].op, ps[0].pc, syms, k);
    assert Covers(s[1].op, ps[1].pc, syms, k) <==> ps[1].pc <= k < ps[1].pc + 4;
    hide Covers;
    if Written(s, ps, syms, 2, k) {
      var i :| 0 <= i < 2 && Covers(s[i].op, ps[i].pc, syms, k);
    }
  }

  /** Where the lone instruction lands is not the base. */
  lemma RoundedAway(tb: int, e: nat)
    requires !(tb % 4 == 0 && tb % Pow2(e) == 0)
    ensures RoundUp(tb, Pow2(e)) / 4 * 4 != tb
  {
    hide Pow2, RoundUp;
    var b := RoundUp(tb, Pow2(e));
    RoundUpMeaning(tb, Pow2(e));
    DivModUnique(b / 4 * 4, 4, b / 4, 0);
    if tb % 4 == 0 {
      FourIsPow2();
      if e < 2 {
        PowerDivides(tb, e, 2);
      } else {
        PowerDivides(b, 2, e);
      }
    }
  }

  lemma FourIsPow2()
    ensures Pow2(2) == 4
  {}

  lemma UnfitBaseMoves(tb: int, e: nat)
    requires e <= 12 && !(tb % 4 == 0 && tb % Pow2(e) == 0)
    ensures var b := Build(Padded(e), tb, false, 0);
            b.Ok? && b.value.image.keys != [] && Origin(b.value.image) != tb
  {
    hide Pow2, RoundUp, PlaceAll, SizeAll, EmitAll, DefaultDataBase, Padded, Origin, Written;
    PaddedLength(e);
    PaddedPlaced(e, tb, 0);
    var db := DefaultDataBase(tb, SizeAll(Padded(e), 2).value);
    PaddedPlaced(e, tb, db);
    var low := RoundUp(tb, Pow2(e));
    var ps := PlaceAll(Padded(e), tb, db, 2).value.0;
    var none: Symbols := map[];
    PaddedEmits(e, ps, none, low);
    var image := EmitAll(Padded(e), ps, none, 2).value;
    forall k | k in image.at
      ensures k >= low
    {
      ImageKeys(Padded(e), ps, none, 2, k);
      PaddedEmits(e, ps, none, k);
    }
    ImageKeys(Padded(e), ps, none, 2, low);
    OriginFrom(image, low);
    HasKey(image, low);
    RoundedAway(tb, e);
  }

  lemma HasKey(image: Image, k: int)
    requires KeysListed(image) && k in image.at
    ensures image.keys != []
  {
    assert k in image.keys;
  }

  lemma PaddedLength(e: nat)
    ensures |Padded(e)| == 2 && AlignsWithin(Padded(e), e)
  {}

  /** With the default data base, every accepted program that aligns to at most 2^e and
      emits anything is packed from its text base if and only if that is a multiple of
      4 and of 2^e. */
  lemma OriginIsBaseExactly(tb: int, e: nat)
    requires e <= 12
    ensures tb % 4 == 0 && tb % Pow2(e) == 0 <==>
            forall srcs :: AlignsWithin(srcs, e) && Build(srcs, tb, false, 0).Ok?
                           && Build(srcs, tb, false, 0).value.image.keys != [] ==>
                             Origin(Build(srcs, tb, false, 0).value.image) == tb
  {
    hide Build, Origin, Pow2, AlignsWithin;
    if tb % 4 == 0 && tb % Pow2(e) == 0 {
      forall srcs | AlignsWithin(srcs, e) && Build(srcs, tb, false, 0).Ok?
                    && Build(srcs, tb, false, 0).value.image.keys != []
        ensures Origin(Build(srcs, tb, false, 0).value.image) == tb
      {
        WithinFits(srcs, tb, e);
        OriginIsBase(srcs, tb);
      }
    } else {
      UnfitBaseMoves(tb, e);
      PaddedLength(e);
    }
  }
}
