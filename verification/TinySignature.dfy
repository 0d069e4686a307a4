/** A relocatable program of two segments whose sizes change while the relaxer's stopping test sees nothing. */
module TinySignature {
  import opened Support
  import opened Expressions
  import opened Opcodes
  import opened Program
  import opened Layout
  import opened Agreement
  import opened Tiling
  import opened NonInterference
  import opened Relaxation
  import opened RelaxSafety
  import opened RelaxRun
  import opened RelaxFixpoint
  import opened RelaxSignature

  const DEFAULT_SEGMENT := "__default__"
  const FILE := "two.s"
  const TwoConfig := Config(true, [DEFAULT_SEGMENT, "A", "B"], [], {}, {}, map[], [])

  predicate Line(s: Stmt, segment: string, name: DirName, arg: Expr) {
    s.kind == Dir(Directive(name, None, [arg])) && s.labelName == None && s.file == FILE && s.scope == "" &&
    s.segment == segment
  }

  /** `.byte 0` and `.res B_SIZE` in segment A, `.byte 0` in segment B. */
  predicate TwoSegments(c: Context) {
    |c.prog| == 3 && Line(c.prog[0], "A", DByte, Number(0)) && Line(c.prog[1], "A", DRes, Ident("B_SIZE")) &&
    Line(c.prog[2], "B", DByte, Number(0)) && c.errors == 0 && c.segs.Keys == {DEFAULT_SEGMENT, "A", "B"} &&
    (forall n :: n in c.segs ==> c.segs[n].base == 0 && c.segs[n].usedSize >= 0) &&
    c.segs[DEFAULT_SEGMENT].usedSize == 0
  }

  lemma {:induction false} OnlyGlobals(order: seq<string>, n: nat, segs: map<string, Segment>)
    requires n <= |order|
    ensures forall k :: k in Publish(order, n, segs, map[]) ==> k.Global?
  {
    if n > 0 { OnlyGlobals(order, n - 1, segs); }
  }

  /** The size name reads what the pass before recorded. */
  lemma SizeKnown(c: Context)
    requires TwoSegments(c)
    ensures var st := Start(TwoConfig, c);
            st.segs.Keys == c.segs.Keys && st.stack == [] && st.errors == 0 &&
            (forall n :: n in st.segs ==> st.segs[n].base == 0 && st.segs[n].pc == 0 && !st.segs[n].rorgActive) &&
            forall pc :: Eval(Ident("B_SIZE"), st.syms, "", FILE, pc) == Ok(c.segs["B"].usedSize)
  {
    var segs := ResetSegments(c.segs);
    PublishHolds(TwoConfig.order, 3, segs);
    OnlyGlobals(TwoConfig.order, 3, segs);
    hide Publish;
    assert TwoConfig.order[2] == "B" && PublishedOne(Start(TwoConfig, c).syms, "B", segs["B"]);
    assert "B" + "_SIZE" == "B_SIZE";
  }

  /** A line reserves one byte, or as many as its size name says. */
  lemma LineStep(cfg: Config, st: State, s: Stmt, segment: string, name: DirName, arg: Expr, n: nat)
    requires Line(s, segment, name, arg) && segment in st.segs && st.stack == []
    requires (name == DByte && n == 1) || (name == DRes && forall pc :: Eval(arg, st.syms, "", FILE, pc) == Ok(n))
    ensures Step(cfg, st, s).0 == st.(segs := st.segs[segment := Advance(st.segs[segment], n)])
  {
    var seg := st.segs[segment];
    LineMotion(cfg, seg, st.syms, s, segment, name, arg, n, LogicalPc(seg));
    hide Eval, StorageKey, Advance, StmtMotion, LogicalPc;
    assert AfterNames(cfg, st, s) == st;
  }

  lemma LineMotion(cfg: Config, seg: Segment, syms: Symtab, s: Stmt, segment: string, name: DirName, arg: Expr,
      n: nat, pc: int)
    requires Line(s, segment, name, arg)
    requires (name == DByte && n == 1) || (name == DRes && Eval(arg, syms, "", FILE, pc) == Ok(n))
    ensures StmtMotion(cfg, seg, syms, s, pc) == Grow(n)
  {
    hide Eval, StorageKey;
    assert s.kind.dir.args[0] == arg;
  }

  lemma TwoWalk(c: Context)
    requires TwoSegments(c)
    ensures var st := Start(TwoConfig, c); var w := Walked(TwoConfig, c);
            w.syms == st.syms && w.stack == [] && w.errors == 0 && st.segs.Keys == c.segs.Keys &&
            w.segs.Keys == c.segs.Keys &&
            w.segs["A"].pc == 1 + c.segs["B"].usedSize && w.segs["B"].pc == 1 && w.segs[DEFAULT_SEGMENT].pc == 0
  {
    SizeKnown(c);
    hide Publish, Start, Eval, Step;
    var st := Start(TwoConfig, c);
    var n := c.segs["B"].usedSize;
    var st1 := st.(segs := st.segs["A" := Advance(st.segs["A"], 1)]);
    var st2 := st1.(segs := st1.segs["A" := Advance(st1.segs["A"], n)]);
    LineStep(TwoConfig, st, c.prog[0], "A", DByte, Number(0), 1);
    LineStep(TwoConfig, st1, c.prog[1], "A", DRes, Ident("B_SIZE"), n);
    LineStep(TwoConfig, st2, c.prog[2], "B", DByte, Number(0), 1);
    assert At(TwoConfig, st, c.prog, 0) == st;
    assert At(TwoConfig, st, c.prog, 1) == st1;
    assert At(TwoConfig, st, c.prog, 2) == st2;
  }

  /** A pass makes A one byte longer than B was, and B one byte long. */
  lemma TwoPass(c: Context)
    requires TwoSegments(c)
    ensures TwoSegments(RelaxPass(TwoConfig, c)) && SegsAlike(c.segs, RelaxPass(TwoConfig, c).segs)
    ensures var g := RelaxPass(TwoConfig, c).segs;
            g["A"].usedSize == 1 + c.segs["B"].usedSize && g["B"].usedSize == 1 && g[DEFAULT_SEGMENT].usedSize == 0
    ensures !FormsDiffer(c, RelaxPass(TwoConfig, c))
  {
    hide Pass1, RelaxPass, Line, FormsDiffer;
    TwoErrors(c);
    PassSegs(TwoConfig, c);
    TwoSizes(c);
    TwoLine(c, 0);
    TwoLine(c, 1);
    TwoLine(c, 2);
    TwoKept(c, Pass1(TwoConfig, c));
    NothingRelaxed(c);
    NoForms(c, Pass1(TwoConfig, c));
  }

  lemma TwoKept(c: Context, p: Context)
    requires TwoSegments(c) && p.errors == 0 && SegsAlike(c.segs, p.segs) && |p.prog| == 3
    requires forall i :: 0 <= i < 3 && i < |c.prog| ==>
               var s, t := c.prog[i], p.prog[i];
               t.kind == s.kind && t.file == s.file && t.scope == s.scope && t.segment == s.segment &&
               t.labelName == s.labelName
    requires "A" in p.segs && "B" in p.segs && DEFAULT_SEGMENT in p.segs
    requires p.segs["A"].usedSize == 1 + c.segs["B"].usedSize
    requires p.segs["B"].usedSize == 1 && p.segs[DEFAULT_SEGMENT].usedSize == 0
    ensures TwoSegments(p)
  {
  }

  lemma NothingRelaxed(c: Context)
    requires TwoSegments(Pass1(TwoConfig, c))
    ensures RelaxPass(TwoConfig, c) == Pass1(TwoConfig, c)
  {
    hide Pass1, BranchShrinks, OperandShrinks, WithMode, ZpForm;
    var p := Pass1(TwoConfig, c);
    assert forall i :: 0 <= i < 3 ==> !p.prog[i].kind.Insn?;
    assert RelaxPass(TwoConfig, c).prog == p.prog;
  }

  lemma NoForms(c: Context, p: Context)
    requires TwoSegments(c) && TwoSegments(p)
    ensures !FormsDiffer(c, p)
  {
    assert forall i :: 0 <= i < 3 ==> !p.prog[i].kind.Insn? && !c.prog[i].kind.Insn?;
  }

  lemma TwoLine(c: Context, i: nat)
    requires TwoSegments(c) && i < 3 && Pass1(TwoConfig, c).errors == c.errors
    ensures |Pass1(TwoConfig, c).prog| == 3 && !c.prog[i].kind.Insn?
    ensures var s, t := c.prog[i], Pass1(TwoConfig, c).prog[i];
            t.kind == s.kind && t.file == s.file && t.scope == s.scope && t.segment == s.segment &&
            t.labelName == s.labelName
  {
    hide Pass1, Skeleton;
    PassStmt(TwoConfig, c, i);
    SkeletonKeys(TwoConfig, c.prog[i], Pass1(TwoConfig, c).prog[i], "");
  }

  lemma TwoSizes(c: Context)
    requires TwoSegments(c)
    ensures var g := Pass1(TwoConfig, c).segs;
            g.Keys == c.segs.Keys && g["A"].usedSize == 1 + c.segs["B"].usedSize && g["B"].usedSize == 1 &&
            g[DEFAULT_SEGMENT].usedSize == 0
  {
    TwoWalk(c);
    hide Start, Walked, FinalSyms, CheckErrors, LaidProg;
  }

  lemma TwoErrors(c: Context)
    requires TwoSegments(c)
    ensures Pass1(TwoConfig, c).errors == 0
  {
    TwoWalk(c);
    hide Start, Walked, FinalSyms, At, Step;
    var prog, syms := LaidProg(TwoConfig, c), FinalSyms(TwoConfig, c);
    forall i | 0 <= i < 3
      ensures !prog[i].kind.Const?
    {
      TwoLaid(c, i);
    }
    hide Laid;
    assert CheckErrors(TwoConfig, syms, prog, 0) == 0;
    assert CheckErrors(TwoConfig, syms, prog, 1) == 0;
    assert CheckErrors(TwoConfig, syms, prog, 2) == 0;
  }

  lemma TwoLaid(c: Context, i: nat)
    requires TwoSegments(c) && i < 3
    ensures !Laid(TwoConfig, Start(TwoConfig, c), c.prog, i).kind.Const?
  {
    SizeKnown(c);
    SegsStay(TwoConfig, c, i);
    hide Publish, Start, At;
    LaidShape(TwoConfig, At(TwoConfig, Start(TwoConfig, c), c.prog, i), c.prog[i]);
  }

  /** From fresh segments the first iteration lays out one byte in each of A and B, the test sees no change, and the
      loop ends; the next pass makes A two bytes long. */
  lemma ChangeMissed(c: Context)
    requires TwoSegments(c) && c.segs["A"].usedSize == 0 && c.segs["B"].usedSize == 0
    ensures var x := RelaxPass(TwoConfig, c);
            x.segs.Keys == c.segs.Keys && x.segs["A"].usedSize == 1 && x.segs["B"].usedSize == 1 &&
            !Changed(TwoConfig, c)
    ensures RelaxLoop(TwoConfig, c, RELAX_LIMIT) == (RelaxPass(TwoConfig, c), true)
    ensures Pass1(TwoConfig, RelaxPass(TwoConfig, c)).errors == 0 && !Settled(TwoConfig, RelaxPass(TwoConfig, c))
  {
    hide Pass1, RelaxPass, Signature, Walked;
    TwoPass(c);
    var x := RelaxPass(TwoConfig, c);
    assert Listed(TwoConfig, c.segs) by { assert TwoConfig.order[0] == DEFAULT_SEGMENT && TwoConfig.order[1] == "A" && TwoConfig.order[2] == "B"; }
    GrowAlike(TwoConfig, "A", "B", c.segs, x.segs);
    TwoErrors(x);
    TwoWalk(x);
  }
}
