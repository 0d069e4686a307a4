/** A component without a `.segment` line, `.align 256` and `loop: BNE.same loop` in the default segment, meets what the
    residue theorems assume. */
module TinyPhase {
  import opened Support
  import opened Expressions
  import opened Opcodes
  import opened Program
  import opened Layout
  import opened Agreement
  import opened NonInterference
  import opened Labels
  import opened RelaxSafety
  import opened RelaxRun
  import opened PhaseScore
  import opened PhaseChoice
  import opened PhaseSound
  import opened PhaseExact

  const DEFAULT_SEGMENT := "__default__"
  const FILE := "tiny.s"
  const LOOP := InFile(FILE, "loop")

  const ObjectConfig := Config(true, [DEFAULT_SEGMENT], [Entry("BNE", EmitMode.Rel, 0xD0)], {}, {}, map[], [])

  predicate AlignLine(s: Stmt) {
    s.kind == Dir(Directive(DAlign, None, [Number(256)])) && s.file == FILE && s.scope == "" &&
    s.segment == DEFAULT_SEGMENT && s.labelName == None
  }

  predicate LoopLine(s: Stmt) {
    s.kind == Insn("BNE", false, PageSame, Some(Ident("loop")), Rel, 2) &&
    s.file == FILE && s.scope == "" && s.segment == DEFAULT_SEGMENT && s.labelName == Some("loop")
  }

  predicate Component(c: Context) {
    |c.prog| == 2 && AlignLine(c.prog[0]) && LoopLine(c.prog[1]) && c.segs.Keys == {DEFAULT_SEGMENT} &&
    c.segs[DEFAULT_SEGMENT].base == 0 && c.errors == 0 &&
    c.segs[DEFAULT_SEGMENT].explicitAlign == 1
  }

  /** The residue the pass works with. */
  function PhaseOf(g: Segment): int { if g.phaseLocked then g.selectedPhase else 0 }

  lemma StartIs(c: Context)
    requires Component(c)
    ensures var st := Start(ObjectConfig, c);
            st.segs.Keys == {DEFAULT_SEGMENT} && st.segs[DEFAULT_SEGMENT].base == 0 &&
            st.segs[DEFAULT_SEGMENT].pc == 0 && !st.segs[DEFAULT_SEGMENT].rorgActive &&
            st.segs[DEFAULT_SEGMENT].relocPhase == PhaseOf(c.segs[DEFAULT_SEGMENT]) && st.stack == [] &&
            st.errors == 0 && LOOP !in st.syms
  {
    NoLoop(ResetSegments(c.segs));
  }

  lemma NoLoop(segs: map<string, Segment>)
    ensures LOOP !in Publish([DEFAULT_SEGMENT], 1, segs, map[])
  {
    assert Publish([DEFAULT_SEGMENT], 0, segs, map[]) == map[];
  }

  lemma Is256Power()
    ensures PowerOfTwoTest(256)
  {
    Pow2Eight();
    PowerOfTwoTestExact(256);
  }

  function Pad(c: Context): nat
    requires Component(c)
  {
    AlignPadding(PhaseOf(c.segs[DEFAULT_SEGMENT]), 256, 0)
  }

  /** The walk: padding to the boundary, then the branch. */
  lemma ComponentWalk(c: Context)
    requires Component(c)
    ensures var st := Start(ObjectConfig, c); var a := At(ObjectConfig, st, c.prog, 1);
            a.syms == st.syms && a.stack == [] && a.errors == 0 && a.segs.Keys == {DEFAULT_SEGMENT} &&
            a.segs[DEFAULT_SEGMENT].base == 0 &&
            a.segs[DEFAULT_SEGMENT].pc == Pad(c) && !a.segs[DEFAULT_SEGMENT].rorgActive &&
            a.segs[DEFAULT_SEGMENT].relocAlign >= 256 &&
            MotionOf(ObjectConfig, c, 0) == AlignTo(256, Pad(c))
  {
    StartIs(c);
    Is256Power();
    hide Publish, Start, AlignPadding, PowerOfTwoTest;
    var st := Start(ObjectConfig, c);
    assert At(ObjectConfig, st, c.prog, 0) == st;
    assert Step(ObjectConfig, st, c.prog[0]).0 ==
      st.(segs := st.segs[DEFAULT_SEGMENT := Moved(st.segs[DEFAULT_SEGMENT], AlignTo(256, Pad(c)))]);
  }

  lemma BranchWalk(c: Context)
    requires Component(c)
    ensures var st := Start(ObjectConfig, c); var b := At(ObjectConfig, st, c.prog, 2);
            b.stack == [] && b.errors == 0 && b.segs.Keys == {DEFAULT_SEGMENT} &&
            b.segs[DEFAULT_SEGMENT].pc == Pad(c) + 2 && b.segs[DEFAULT_SEGMENT].relocAlign >= 256
    ensures Off(ObjectConfig, c, DEFAULT_SEGMENT, 0) == 0 && Off(ObjectConfig, c, DEFAULT_SEGMENT, 1) == Pad(c)
    ensures Off(ObjectConfig, c, DEFAULT_SEGMENT, 2) == Pad(c) + 2
  {
    StartIs(c);
    ComponentWalk(c);
    hide Publish, Start, AddressSymbol, Pad;
    var st := Start(ObjectConfig, c);
    assert At(ObjectConfig, st, c.prog, 0) == st;
    var a := At(ObjectConfig, st, c.prog, 1);
    assert AfterNames(ObjectConfig, a, c.prog[1]).errors == 0;
  }

  lemma ComponentLaid(c: Context, i: nat)
    requires Component(c) && i < 2
    ensures Laid(ObjectConfig, Start(ObjectConfig, c), c.prog, i).kind == c.prog[i].kind
    ensures Laid(ObjectConfig, Start(ObjectConfig, c), c.prog, i).active
  {
    hide Publish, Start, Pad, Step, At, Laid, MotionOf;
    StartIs(c);
    ComponentWalk(c);
    StartIsFirst(ObjectConfig, c);
    LaidAt(ObjectConfig, c, i);
    LaidShape(ObjectConfig, At(ObjectConfig, Start(ObjectConfig, c), c.prog, i), c.prog[i]);
  }

  /** A pass at any residue is free of errors and keeps the component. */
  lemma ComponentPass(c: Context)
    requires Component(c)
    ensures var p := Pass1(ObjectConfig, c);
            p.errors == 0 && |p.prog| == 2 && p.prog[0].kind == c.prog[0].kind && p.prog[1].kind == c.prog[1].kind &&
            AlignLine(p.prog[0]) && LoopLine(p.prog[1]) && p.prog[0].active && p.prog[1].active &&
            p.segs.Keys == {DEFAULT_SEGMENT} && p.segs[DEFAULT_SEGMENT].base == 0
  {
    BranchWalk(c);
    ComponentLaid(c, 0);
    ComponentLaid(c, 1);
    hide Publish, Start, Laid, At, FinalSyms, Pad;
    var prog, syms := LaidProg(ObjectConfig, c), FinalSyms(ObjectConfig, c);
    assert CheckErrors(ObjectConfig, syms, prog, 0) == 0 && CheckErrors(ObjectConfig, syms, prog, 1) == 0;
    assert Pass1(ObjectConfig, c).errors == 0;
    LaidStays(ObjectConfig, c, 0);
    LaidStays(ObjectConfig, c, 1);
    PassStmt(ObjectConfig, c, 0);
    PassStmt(ObjectConfig, c, 1);
    PassSegs(ObjectConfig, c);
    SkeletonKeys(ObjectConfig, c.prog[0], Pass1(ObjectConfig, c).prog[0], "");
    SkeletonKeys(ObjectConfig, c.prog[1], Pass1(ObjectConfig, c).prog[1], "");
  }

  lemma ComponentRelocatable(c: Context)
    requires Component(c)
    ensures Relocatable(ObjectConfig, {}, DEFAULT_SEGMENT, c)
  {
    forall i | 0 <= i < |c.prog|
      ensures LayoutFree(ObjectConfig, {}, c.prog[i])
    {
      hide StorageKey;
    }
  }

  lemma LoopFound(c: Context)
    requires Component(c)
    ensures FoundBySpelling(ObjectConfig, DEFAULT_SEGMENT, c, 1, 1)
  {
    ComponentPass(c);
    LoopDefined(c);
    LabelFinal(ObjectConfig, c, 1, LOOP);
    hide Pass1, FinalSyms, Defines;
  }

  lemma LoopDefined(c: Context)
    requires Component(c)
    ensures Defines(ObjectConfig, c, 1, LOOP)
  {
    ComponentWalk(c);
    hide Start, At, Pad, MotionOf;
  }

  /** Residue zero is admissible. */
  lemma ZeroScores(c: Context)
    requires Component(c)
    ensures Score(Pass1(ObjectConfig, c), DEFAULT_SEGMENT, 0).Some?
  {
    hide Pass1, Off, Relocatable, Score, NextEmit, EndPc, Pad, NewPc, Eval;
    ComponentPass(c);
    ComponentRelocatable(c);
    BranchWalk(c);
    MemberEmit(ObjectConfig, {}, DEFAULT_SEGMENT, c, 0);
    MemberEmit(ObjectConfig, {}, DEFAULT_SEGMENT, c, 1);
    NextEmitIsOff(ObjectConfig, {}, DEFAULT_SEGMENT, c, 2);
    FirstEmit(ObjectConfig, {}, DEFAULT_SEGMENT, c, 0);
    var p := Pass1(ObjectConfig, c);
    ZeroLayout(p, Pad(c));
    LoopValue(c);
    ZeroScored(p);
  }

  lemma ZeroScored(p: Context)
    requires |p.prog| == 2 && AlignLine(p.prog[0]) && LoopLine(p.prog[1]) && p.prog[1].active
    requires NewPc(p, DEFAULT_SEGMENT, 0, 1) == Some(0) && NewPc(p, DEFAULT_SEGMENT, 0, 2) == Some(2)
    requires Eval(Ident("loop"), p.syms, p.prog[1].scope, p.prog[1].file, p.prog[1].address + 1).Ok?
    ensures Score(p, DEFAULT_SEGMENT, 0).Some?
  {
    hide Eval, NewPc, Crosses, FirstLabelled, LastAt;
    CrossesExact(0, 0, 0);
    LoopFirst(p.prog);
  }

  lemma LoopFirst(prog: seq<Stmt>)
    requires |prog| == 2 && AlignLine(prog[0]) && LoopLine(prog[1]) && prog[1].active
    ensures FirstLabelled(prog, DEFAULT_SEGMENT, "loop", 0) == Some(1)
  {
  }

  lemma LoopValue(c: Context)
    requires Component(c)
    ensures var p := Pass1(ObjectConfig, c); var s := p.prog[1];
            |p.prog| == 2 && Eval(Ident("loop"), p.syms, s.scope, s.file, s.address + 1).Ok?
  {
    ComponentPass(c);
    LoopFound(c);
    PassSyms(ObjectConfig, c);
    hide Pass1, FinalSyms, At, Start;
    var k := Resolve(FinalSyms(ObjectConfig, c).Keys, "", FILE, "loop");
    LabelFinal(ObjectConfig, c, 1, k);
  }

  lemma ZeroLayout(p: Context, pad: nat)
    requires |p.prog| == 2 && AlignLine(p.prog[0]) && LoopLine(p.prog[1]) && p.prog[0].active && p.prog[1].active
    requires !p.prog[0].rorgActive && !p.prog[1].rorgActive && NextEmit(p.prog, DEFAULT_SEGMENT, 0, 0) == 0
    requires p.prog[1].emitAddress == pad && NextEmit(p.prog, DEFAULT_SEGMENT, 2, EndPc(p, DEFAULT_SEGMENT)) == pad + 2
    ensures NewPc(p, DEFAULT_SEGMENT, 0, 0) == Some(0) && NewPc(p, DEFAULT_SEGMENT, 0, 1) == Some(0)
    ensures NewPc(p, DEFAULT_SEGMENT, 0, 2) == Some(2)
  {
    hide NextEmit, EndPc;
    assert AlignSpan(p.syms, p.prog[0], 0, 0) == Some(0);
    assert BaseSpan(p, DEFAULT_SEGMENT, 1) == 2;
    assert NewPc(p, DEFAULT_SEGMENT, 0, 0) == Some(0);
    assert NewPc(p, DEFAULT_SEGMENT, 0, 1) == Some(0);
  }

  /** Selecting a residue for the component succeeds, and the premises of the residue theorems hold. */
  lemma PhasePremisesMet(c: Context) returns (c': Context, g: Segment)
    requires Component(c) && !c.segs[DEFAULT_SEGMENT].phaseLocked
    ensures Relocatable(ObjectConfig, {}, DEFAULT_SEGMENT, c) && Pass1(ObjectConfig, c).errors == c.errors
    ensures Chosen(ObjectConfig, DEFAULT_SEGMENT, c, c', g)
    ensures Pass1(ObjectConfig, c').errors == c'.errors && FoundBySpelling(ObjectConfig, DEFAULT_SEGMENT, c, 1, 1)
    ensures DEFAULT_SEGMENT in Pass1(ObjectConfig, c).segs && Needs(Pass1(ObjectConfig, c).segs[DEFAULT_SEGMENT])
    ensures Covered(Pass1(ObjectConfig, c).segs[DEFAULT_SEGMENT])
    ensures g.requiredAlign == 256 && Contracted(c.prog[1]) && IsAlign(c.prog[0])
  {
    hide Pass1, Relocatable, FoundBySpelling, Score, PowerOfTwoTest, SelectOne, AtLeastAsGood;
    ComponentPass(c);
    ComponentRelocatable(c);
    LoopFound(c);
    ZeroScores(c);
    Modulus(c);
    var p := Pass1(ObjectConfig, c);
    var s := p.segs[DEFAULT_SEGMENT];
    assert IsPow2(256) by { Pow2Eight(); }
    assert IsPow2(1) by { assert Pow2(0) == 1; }
    SelectionExact(p, DEFAULT_SEGMENT, s);
    g := SelectOne(p, DEFAULT_SEGMENT, s).value;
    Explicit(p, DEFAULT_SEGMENT, s, g);
    c' := p.(segs := p.segs[DEFAULT_SEGMENT := g]);
    ComponentPass(c');
  }

  lemma Explicit(p: Context, name: string, s: Segment, g: Segment)
    requires SelectOne(p, name, s) == Some(g)
    ensures g.base == s.base && g.capacity == s.capacity && g.explicitAlign == s.explicitAlign
  {
    hide BestPhase, SaneAlignment;
  }

  /** The modulus the first pass collects. */
  lemma Modulus(c: Context)
    requires Component(c) && !c.segs[DEFAULT_SEGMENT].phaseLocked
    ensures var p := Pass1(ObjectConfig, c);
            DEFAULT_SEGMENT in p.segs && p.segs[DEFAULT_SEGMENT].relocAlign == 256 &&
            !p.segs[DEFAULT_SEGMENT].phaseLocked && p.segs[DEFAULT_SEGMENT].explicitAlign == 1
  {
    BranchWalk(c);
    LockKept(ObjectConfig, c, DEFAULT_SEGMENT, 2);
    FinalLock(ObjectConfig, c, DEFAULT_SEGMENT);
    hide Pass1, At, Start, Pad;
    FinalExplicit(c);
  }

  lemma FinalExplicit(c: Context)
    requires Component(c) && !c.segs[DEFAULT_SEGMENT].phaseLocked
    ensures var g := At(ObjectConfig, Start(ObjectConfig, c), c.prog, 2).segs;
            DEFAULT_SEGMENT in g && g[DEFAULT_SEGMENT].relocAlign == 256 &&
            DEFAULT_SEGMENT in Pass1(ObjectConfig, c).segs &&
            Pass1(ObjectConfig, c).segs[DEFAULT_SEGMENT].explicitAlign == 1
  {
    StartIs(c);
    Is256Power();
    hide Publish, AlignPadding, PowerOfTwoTest, FinalSyms, CheckErrors, LaidProg, AddressSymbol;
    var st := Start(ObjectConfig, c);
    assert At(ObjectConfig, st, c.prog, 0) == st;
    assert Step(ObjectConfig, st, c.prog[0]).0 == st.(segs := st.segs[DEFAULT_SEGMENT := Moved(st.segs[DEFAULT_SEGMENT], AlignTo(256, Pad(c)))]);
    var a := At(ObjectConfig, st, c.prog, 1);
    assert AfterNames(ObjectConfig, a, c.prog[1]).segs == a.segs;
  }

  /** The premises of the selection theorem hold too: its branch is spelled out and no residue makes a pass fail. */
  lemma SelectionPremisesMet(c: Context)
    requires Component(c) && !c.segs[DEFAULT_SEGMENT].phaseLocked
    ensures AllSpelled(ObjectConfig, DEFAULT_SEGMENT, c) && QuietResidues(ObjectConfig, DEFAULT_SEGMENT, c, 256, 1)
    ensures Bound(ObjectConfig, DEFAULT_SEGMENT, c, 1)
  {
    hide Pass1, FoundBySpelling, LockedTo;
    ComponentPass(c);
    LoopFound(c);
    forall q | 0 <= q < 256 && q % 1 == 0
      ensures Pass1(ObjectConfig, LockedTo(ObjectConfig, c, DEFAULT_SEGMENT, q)).errors == LockedTo(ObjectConfig, c, DEFAULT_SEGMENT, q).errors
    {
      LockedComponent(c, q);
      ComponentPass(LockedTo(ObjectConfig, c, DEFAULT_SEGMENT, q));
    }
  }

  lemma LockedComponent(c: Context, q: int)
    requires Component(c) && !c.segs[DEFAULT_SEGMENT].phaseLocked
    ensures Component(LockedTo(ObjectConfig, c, DEFAULT_SEGMENT, q))
  {
    hide Pass1;
    ComponentPass(c);
    Modulus(c);
  }
}
