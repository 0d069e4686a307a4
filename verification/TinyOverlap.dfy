/** Two bytes with an origin between them: while it steps forward the image holds both, and when it steps back to the
    first byte, pass 2 overwrites that byte without an error. */
module TinyOverlap {
  import opened Support
  import opened Expressions
  import opened Opcodes
  import opened Program
  import opened Layout
  import opened Emission
  import opened Agreement
  import opened Tiling
  import opened RelaxSafety
  import opened RelaxRun
  import opened NonInterference

  const DEFAULT_SEGMENT := "__default__"

  const OverlapConfig := Config(false, [DEFAULT_SEGMENT], [], {}, {}, map[], [])

  predicate Line(s: Stmt, name: DirName, v: int) {
    s.segment == DEFAULT_SEGMENT && s.labelName == None && s.kind == Dir(Directive(name, None, [Number(v)]))
  }

  /** `.byte 1`, `.org n`, `.byte 2`. */
  predicate OverlapProgram(c: Context, n: nat) {
    |c.prog| == 3 && Line(c.prog[0], DByte, 1) && Line(c.prog[1], DOrg, n) && Line(c.prog[2], DByte, 2) &&
    c.segs.Keys == {DEFAULT_SEGMENT} && c.segs[DEFAULT_SEGMENT].base == 0 && c.errors == 0
  }

  lemma StartIs(c: Context, n: nat)
    requires OverlapProgram(c, n)
    ensures var st := Start(OverlapConfig, c);
            st.segs.Keys == {DEFAULT_SEGMENT} && st.segs[DEFAULT_SEGMENT].base == 0 &&
            st.segs[DEFAULT_SEGMENT].pc == 0 &&
            !st.segs[DEFAULT_SEGMENT].rorgActive && st.stack == [] && st.errors == 0
  {
    hide Publish;
  }

  /** A state with the segment filled up to `pc`. */
  predicate Reached(st: State, pc: nat) {
    st.stack == [] && st.errors == 0 && st.segs.Keys == {DEFAULT_SEGMENT} && st.segs[DEFAULT_SEGMENT].base == 0 &&
    st.segs[DEFAULT_SEGMENT].pc == pc && !st.segs[DEFAULT_SEGMENT].rorgActive
  }

  lemma ByteStep(st: State, s: Stmt, v: int, pc: nat)
    requires Line(s, DByte, v) && Reached(st, pc)
    ensures Reached(Step(OverlapConfig, st, s).0, pc + 1)
    ensures var p := Step(OverlapConfig, st, s).1; Line(p, DByte, v) && p.active && p.emitAddress == pc
  {
    hide AddressSymbol;
  }

  lemma OrgStep(st: State, s: Stmt, n: nat, pc: nat)
    requires Line(s, DOrg, n) && Reached(st, pc)
    ensures Reached(Step(OverlapConfig, st, s).0, n)
    ensures var p := Step(OverlapConfig, st, s).1; Line(p, DOrg, n) && p.active
  {
    hide AddressSymbol;
    assert s.kind.dir.args[0] == Number(n);
  }

  lemma OverlapWalk(c: Context, n: nat)
    requires OverlapProgram(c, n)
    ensures var st := Start(OverlapConfig, c);
            Reached(At(OverlapConfig, st, c.prog, 1), 1) && Reached(At(OverlapConfig, st, c.prog, 2), n) &&
            Reached(At(OverlapConfig, st, c.prog, 3), n + 1)
    ensures var st := Start(OverlapConfig, c);
            var p, q, r := Laid(OverlapConfig, st, c.prog, 0), Laid(OverlapConfig, st, c.prog, 1),
                           Laid(OverlapConfig, st, c.prog, 2);
            Line(p, DByte, 1) && p.active && p.emitAddress == 0 && Line(q, DOrg, n) && q.active &&
            Line(r, DByte, 2) && r.active && r.emitAddress == n
  {
    StartIs(c, n);
    hide Publish, Start, Step, Line, Reached;
    var st := Start(OverlapConfig, c);
    assert Reached(st, 0) by { StartReached(st); }
    assert At(OverlapConfig, st, c.prog, 0) == st;
    ByteStep(st, c.prog[0], 1, 0);
    LaidAt(OverlapConfig, c, 0);
    OrgStep(At(OverlapConfig, st, c.prog, 1), c.prog[1], n, 1);
    LaidAt(OverlapConfig, c, 1);
    ByteStep(At(OverlapConfig, st, c.prog, 2), c.prog[2], 2, n);
    LaidAt(OverlapConfig, c, 2);
  }

  lemma StartReached(st: State)
    requires st.segs.Keys == {DEFAULT_SEGMENT} && st.segs[DEFAULT_SEGMENT].base == 0
    requires st.segs[DEFAULT_SEGMENT].pc == 0 && !st.segs[DEFAULT_SEGMENT].rorgActive
    requires st.stack == [] && st.errors == 0
    ensures Reached(st, 0)
  {
  }

  lemma LineShape(s: Stmt, name: DirName, v: int)
    requires Line(s, name, v)
    ensures !s.kind.Const? && !Deferred(s)
  {
  }

  lemma OverlapErrors(c: Context, n: nat)
    requires OverlapProgram(c, n)
    ensures Pass1(OverlapConfig, c).errors == 0
  {
    hide Start, At, FinalSyms, Laid, LaidProg, CheckErrors, Line, Pass1, Walked;
    OverlapWalk(c, n);
    PassErrorsAre(OverlapConfig, c);
    var prog, syms := LaidProg(OverlapConfig, c), FinalSyms(OverlapConfig, c);
    LaidProgAt(OverlapConfig, c, 0);
    LaidProgAt(OverlapConfig, c, 1);
    LaidProgAt(OverlapConfig, c, 2);
    LineShape(prog[0], DByte, 1);
    LineShape(prog[1], DOrg, n);
    LineShape(prog[2], DByte, 2);
    assert |prog| == 3;
    NothingToSettle(OverlapConfig, syms, prog, 3);
    WalkedIs(OverlapConfig, c);
  }

  /** Pass 1 reports nothing and leaves the statements where the walk put them. */
  lemma OverlapPass(c: Context, n: nat)
    requires OverlapProgram(c, n)
    ensures var c1 := Pass1(OverlapConfig, c);
            c1.errors == 0 && Line(c1.prog[0], DByte, 1) && c1.prog[0].active && c1.prog[0].emitAddress == 0 &&
            Line(c1.prog[1], DOrg, n) && c1.prog[1].active &&
            Line(c1.prog[2], DByte, 2) && c1.prog[2].active && c1.prog[2].emitAddress == n
  {
    hide Start, At, Laid, Line, Deferred, Pass1;
    OverlapErrors(c, n);
    OverlapWalk(c, n);
    var st := Start(OverlapConfig, c);
    LineShape(Laid(OverlapConfig, st, c.prog, 0), DByte, 1);
    LineShape(Laid(OverlapConfig, st, c.prog, 1), DOrg, n);
    LineShape(Laid(OverlapConfig, st, c.prog, 2), DByte, 2);
    LaidStays(OverlapConfig, c, 0);
    LaidStays(OverlapConfig, c, 1);
    LaidStays(OverlapConfig, c, 2);
  }

  lemma ByteEmitted(seg: Segment, syms: Symtab, s: Stmt, v: int)
    requires Line(s, DByte, v) && s.active && 0 <= v < 256
    ensures StmtBytes(OverlapConfig, seg, syms, s) == Emitted([v as byte], true)
  {
    assert s.kind.dir.args[0] == Number(v) && s.kind.dir.args[1..] == [];
    assert DataBytes(DByte, syms, s, [], s.address + 1) == Emitted([], true);
    assert Arg(s, syms, Number(v), s.address) == Ok(v);
  }

  lemma ByteWritten(img: Image, a: int, b: byte)
    requires InImage(a)
    ensures Write(img, a, [b]).1
  {
    assert [b][1..] == [];
  }

  /** The bytes of the three statements, and no error. */
  lemma OverlapBytes(p: Context, n: nat)
    requires |p.prog| == 3 && n < IMAGE_LIMIT
    requires Line(p.prog[0], DByte, 1) && p.prog[0].active && p.prog[0].emitAddress == 0
    requires Line(p.prog[1], DOrg, n) && p.prog[1].active
    requires Line(p.prog[2], DByte, 2) && p.prog[2].active && p.prog[2].emitAddress == n
    ensures Pass2(OverlapConfig, p).errors == p.errors
    ensures BytesOf(OverlapConfig, p, 0) == [1] && BytesOf(OverlapConfig, p, 1) == []
    ensures BytesOf(OverlapConfig, p, 2) == [2]
  {
    var e0 := EmitAt(OverlapConfig, p, 0);
    var e1 := EmitAt(OverlapConfig, p, 1);
    var e2 := EmitAt(OverlapConfig, p, 2);
    ByteEmitted(SegmentOf(p.segs, p.prog[0]), e0.syms, p.prog[0], 1);
    ByteEmitted(SegmentOf(p.segs, p.prog[2]), e2.syms, p.prog[2], 2);
    assert StmtBytes(OverlapConfig, SegmentOf(p.segs, p.prog[1]), e1.syms, p.prog[1]) == Emitted([], true);
    hide StmtBytes, Write;
    EmitOne(OverlapConfig, p, 0);
    EmitOne(OverlapConfig, p, 1);
    EmitOne(OverlapConfig, p, 2);
    ByteWritten(e0.image, 0, 1);
    assert Write(e1.image, p.prog[1].emitAddress, []).1 by { NothingWritten(e1.image, p.prog[1].emitAddress); }
    ByteWritten(e2.image, n, 2);
  }

  lemma NothingWritten(img: Image, a: int)
    ensures Write(img, a, []).1
  {
  }

  lemma OverlapForward(c: Context, n: nat)
    requires OverlapProgram(c, n)
    ensures Forward(OverlapConfig, c) <==> n > 0
  {
    OverlapWalk(c, n);
    hide Start, At, Laid, Step;
    var st := Start(OverlapConfig, c);
    assert MotionOf(OverlapConfig, c, 1) == Jump(n) by { OrgMotion(c, n); }
    assert MotionOf(OverlapConfig, c, 0).Jump? == false && MotionOf(OverlapConfig, c, 2).Jump? == false by {
      hide MotionOf;
      MotionKinds(OverlapConfig, c, 0);
      MotionKinds(OverlapConfig, c, 2);
    }
    hide MotionOf;
    assert MovesForward(OverlapConfig, c, 1) <==> 1 <= n;
    if n > 0 {
      forall i | 0 <= i < |c.prog|
        ensures MovesForward(OverlapConfig, c, i)
      {
        assert i == 0 || i == 1 || i == 2;
      }
    }
  }

  lemma OrgMotion(c: Context, n: nat)
    requires OverlapProgram(c, n) && Reached(At(OverlapConfig, Start(OverlapConfig, c), c.prog, 1), 1)
    ensures MotionOf(OverlapConfig, c, 1) == Jump(n)
  {
    hide At, Start, AfterNames;
    assert c.prog[1].kind.dir.args[0] == Number(n);
  }

  /** The two bytes agree wherever both lie exactly when they lie apart. */
  lemma AgreeApart(p: Context, n: nat)
    requires |p.prog| == 3 && p.prog[0].emitAddress == 0 && p.prog[2].emitAddress == n
    requires BytesOf(OverlapConfig, p, 0) == [1] && BytesOf(OverlapConfig, p, 1) == []
    requires BytesOf(OverlapConfig, p, 2) == [2]
    ensures Agreeing(OverlapConfig, p) <==> n > 0
  {
    hide BytesOf;
    if n == 0 {
      assert Occupies(OverlapConfig, p, 0, 0) && Occupies(OverlapConfig, p, 2, 0);
      assert ByteFor(OverlapConfig, p, 0, 0) != ByteFor(OverlapConfig, p, 2, 0);
    } else {
      forall i, y | 0 <= i < |p.prog| && Occupies(OverlapConfig, p, i, y)
        ensures (i == 0 && y == 0) || (i == 2 && y == n)
      {
        assert i == 0 || i == 1 || i == 2;
      }
    }
  }

  /** Both passes accept the program for every origin inside the image; the first byte survives exactly when the origin
      steps forward. */
  lemma OverlapExact(c: Context, n: nat)
    requires OverlapProgram(c, n) && n < IMAGE_LIMIT
    ensures Pass1(OverlapConfig, c).errors == c.errors
    ensures Pass2(OverlapConfig, Pass1(OverlapConfig, c)).errors == c.errors
    ensures Forward(OverlapConfig, c) <==> n > 0
    ensures AllIntact(OverlapConfig, Pass1(OverlapConfig, c)) <==> n > 0
  {
    hide Pass1, Pass2, BytesOf, AllIntact, Agreeing, Forward, Line;
    var c1 := Pass1(OverlapConfig, c);
    OverlapPass(c, n);
    OverlapForward(c, n);
    OverlapBytes(c1, n);
    IntactExact(OverlapConfig, c1);
    AgreeApart(c1, n);
  }

  /** Settled, the program with a forward origin meets the premises of the theorems about places. */
  lemma ForwardIsGood(c: Context, n: nat)
    requires OverlapProgram(c, n) && 0 < n < IMAGE_LIMIT && c.segs[DEFAULT_SEGMENT].usedSize == n + 1
    ensures GoodFlat(OverlapConfig, c) && !NoOrg(c.prog)
  {
    hide Pass1, Pass2, AllIntact, Forward, Apart, Orderly, SizesHold, NoOrg, SizesMatch;
    OneSegment(c, n);
    HasOrigin(c, n);
    OverlapExact(c, n);
    OverlapSizes(c, n);
    OverlapOrderly(c, n);
  }

  lemma OneSegment(c: Context, n: nat)
    requires OverlapProgram(c, n)
    ensures Apart(Pass1(OverlapConfig, c).segs)
  {
    hide Pass1;
    OverlapErrors(c, n);
    PassSegs(OverlapConfig, c);
  }

  lemma HasOrigin(c: Context, n: nat)
    requires OverlapProgram(c, n)
    ensures SizesMatch(c.prog) && !NoOrg(c.prog)
  {
    assert c.prog[1].kind.Dir? && c.prog[1].kind.dir.name == DOrg;
  }

  lemma OverlapSizes(c: Context, n: nat)
    requires OverlapProgram(c, n) && c.segs[DEFAULT_SEGMENT].usedSize == n + 1
    ensures SizesHold(OverlapConfig, c)
  {
    hide Walked, At, Start, Laid;
    OverlapWalk(c, n);
    WalkedIs(OverlapConfig, c);
  }

  lemma OverlapOrderly(c: Context, n: nat)
    requires OverlapProgram(c, n)
    ensures Orderly(OverlapConfig, c, FinalSyms(OverlapConfig, c))
  {
    hide FinalSyms, At, Start, Laid, KnownAt, Mentions, SameReading, Line;
    OverlapWalk(c, n);
    var st := Start(OverlapConfig, c);
    LineReads(Laid(OverlapConfig, st, c.prog, 0), DByte, 1);
    LineReads(Laid(OverlapConfig, st, c.prog, 1), DOrg, n);
    LineReads(Laid(OverlapConfig, st, c.prog, 2), DByte, 2);
  }

  lemma LineReads(s: Stmt, name: DirName, v: int)
    requires Line(s, name, v) && (name == DByte || name == DOrg)
    ensures SizeOperands(s) == [] && !Deferred(s)
  {
  }
}
