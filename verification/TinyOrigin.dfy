/** A program whose branch the relaxer shortens and pass 2 then refuses: an origin stands between the branch and its
    target, so the code in front of the branch pulls it away from the target as it shrinks. */
module TinyOrigin {
  import opened Support
  import opened Expressions
  import opened Opcodes
  import opened Program
  import opened Layout
  import opened Emission
  import opened Agreement
  import opened NonInterference
  import opened Labels
  import opened Relaxation
  import opened RelaxSafety
  import opened RelaxRun
  import opened RelaxFixpoint

  const DEFAULT_SEGMENT := "__default__"
  const FILE := "far.s"
  const FAR := InFile(FILE, "far")
  const TARGET := 132

  const OriginConfig := Config(false, [DEFAULT_SEGMENT],
                               [Entry("LDA", EmitMode.Abs, 0xAD), Entry("LDA", EmitMode.Zp, 0xA5), Entry("BNE", EmitMode.Rel, 0xD0)],
                               {}, {}, map[], [])

  predicate Here(s: Stmt) { s.file == FILE && s.scope == "" && s.segment == DEFAULT_SEGMENT }

  /** `LDA $10`, `BNE far`, `.org 132`, `far:`, in whatever forms. */
  predicate LoadLine(s: Stmt) {
    Here(s) && s.labelName == None && s.kind.Insn? && s.kind.opcode == "LDA" && !s.kind.suffixed &&
    s.kind.operand == Some(Number(16)) &&
    (s.kind.mode == EmitMode.Abs || s.kind.mode == EmitMode.Zp) && s.kind.size == ModeSize(s.kind.mode)
  }

  predicate BranchLine(s: Stmt) {
    Here(s) && s.labelName == None && s.kind.Insn? && s.kind.opcode == "BNE" && !s.kind.suffixed &&
    s.kind.operand == Some(Ident("far")) &&
    (s.kind.mode == Rel || s.kind.mode == RelLong) && s.kind.size == ModeSize(s.kind.mode)
  }

  predicate OrgLine(s: Stmt) { Here(s) && s.labelName == None && s.kind == Dir(Directive(DOrg, None, [Number(TARGET)])) }

  predicate FarLine(s: Stmt) { Here(s) && s.labelName == Some("far") && s.kind == LabelOnly }

  predicate OriginProgram(c: Context) {
    |c.prog| == 4 && LoadLine(c.prog[0]) && BranchLine(c.prog[1]) && OrgLine(c.prog[2]) && FarLine(c.prog[3]) &&
    c.segs.Keys == {DEFAULT_SEGMENT} && c.segs[DEFAULT_SEGMENT].base == 0 && c.errors == 0
  }

  lemma StartIs(c: Context)
    requires OriginProgram(c)
    ensures var st := Start(OriginConfig, c);
            st.segs.Keys == {DEFAULT_SEGMENT} && st.segs[DEFAULT_SEGMENT].base == 0 &&
            st.segs[DEFAULT_SEGMENT].pc == 0 &&
            !st.segs[DEFAULT_SEGMENT].rorgActive && st.stack == [] && st.errors == 0 && FAR !in st.syms
  {
    assert Publish([DEFAULT_SEGMENT], 0, ResetSegments(c.segs), map[]) == map[];
  }

  lemma InsnStep(st: State, s: Stmt)
    requires s.kind.Insn? && Here(s) && s.labelName == None && DEFAULT_SEGMENT in st.segs && st.stack == []
    ensures Step(OriginConfig, st, s).0 ==
              st.(segs := st.segs[DEFAULT_SEGMENT := Advance(st.segs[DEFAULT_SEGMENT], s.kind.size)])
    ensures !Step(OriginConfig, st, s).1.kind.Const?
  {
    hide AddressSymbol, Advance, LogicalPc;
  }

  lemma OrgStep(st: State, s: Stmt)
    requires OrgLine(s) && DEFAULT_SEGMENT in st.segs && st.stack == [] && st.segs[DEFAULT_SEGMENT].base == 0
    requires !st.segs[DEFAULT_SEGMENT].rorgActive
    ensures Step(OriginConfig, st, s).0 ==
              st.(segs := st.segs[DEFAULT_SEGMENT := st.segs[DEFAULT_SEGMENT].(pc := TARGET)])
    ensures !Step(OriginConfig, st, s).1.kind.Const?
  {
    hide AddressSymbol, LogicalPc;
    assert s.kind.dir.args[0] == Number(TARGET);
  }

  lemma FarStep(st: State, s: Stmt)
    requires FarLine(s) && DEFAULT_SEGMENT in st.segs && st.stack == [] && FAR !in st.syms
    ensures var r := Step(OriginConfig, st, s);
            r.0.stack == [] && r.0.errors == st.errors && r.0.segs == st.segs && !r.1.kind.Const?
  {
    hide AddressSymbol;
    assert st.segs[DEFAULT_SEGMENT := st.segs[DEFAULT_SEGMENT]] == st.segs;
  }

  /** The walk's states: the origin puts the label at 132 whatever stands in front. */
  lemma OriginWalk(c: Context)
    requires OriginProgram(c)
    ensures var st := Start(OriginConfig, c);
            DEFAULT_SEGMENT in st.segs && forall i :: 0 <= i <= 3 ==>
              At(OriginConfig, st, c.prog, i) == StateBefore(c, i)
    ensures forall i :: 0 <= i < 4 ==> !Step(OriginConfig, StateBefore(c, i), c.prog[i]).1.kind.Const?
    ensures var r := Step(OriginConfig, StateBefore(c, 3), c.prog[3]).0; r.stack == [] && r.errors == 0
  {
    StartIs(c);
    hide Publish, Start, Step, LoadLine, BranchLine, OrgLine, FarLine, Advance;
    InsnLines(c);
    var st := Start(OriginConfig, c);
    assert At(OriginConfig, st, c.prog, 0) == StateBefore(c, 0);
    InsnStep(st, c.prog[0]);
    assert At(OriginConfig, st, c.prog, 1) == StateBefore(c, 1);
    InsnStep(StateBefore(c, 1), c.prog[1]);
    assert At(OriginConfig, st, c.prog, 2) == StateBefore(c, 2);
    AdvanceKeeps(st.segs[DEFAULT_SEGMENT], c.prog[0].kind.size);
    AdvanceKeeps(StateBefore(c, 1).segs[DEFAULT_SEGMENT], c.prog[1].kind.size);
    OrgStep(StateBefore(c, 2), c.prog[2]);
    assert At(OriginConfig, st, c.prog, 3) == StateBefore(c, 3);
    FarStep(StateBefore(c, 3), c.prog[3]);
  }

  lemma AdvanceKeeps(g: Segment, n: nat)
    ensures Advance(g, n).base == g.base && Advance(g, n).rorgActive == g.rorgActive && Advance(g, n).pc == g.pc + n
  {
  }

  function StateBefore(c: Context, i: nat): State
    requires OriginProgram(c) && i <= 3
  {
    StartIs(c);
    InsnLines(c);
    var st := Start(OriginConfig, c);
    var g1 := Advance(st.segs[DEFAULT_SEGMENT], c.prog[0].kind.size);
    var g2 := Advance(g1, c.prog[1].kind.size);
    if i == 0 then st
    else if i == 1 then st.(segs := st.segs[DEFAULT_SEGMENT := g1])
    else if i == 2 then st.(segs := st.segs[DEFAULT_SEGMENT := g1][DEFAULT_SEGMENT := g2])
    else st.(segs := st.segs[DEFAULT_SEGMENT := g1][DEFAULT_SEGMENT := g2][DEFAULT_SEGMENT := g2.(pc := TARGET)])
  }

  lemma OriginOffsets(c: Context)
    requires OriginProgram(c)
    ensures c.prog[0].kind.Insn? && Off(OriginConfig, c, DEFAULT_SEGMENT, 1) == c.prog[0].kind.size
    ensures Off(OriginConfig, c, DEFAULT_SEGMENT, 3) == TARGET
  {
    StartIs(c);
    OriginWalk(c);
    hide Start, At, Step;
  }

  lemma InsnLines(c: Context)
    requires OriginProgram(c)
    ensures c.prog[0].kind.Insn? && Here(c.prog[0]) && c.prog[0].labelName == None
    ensures c.prog[1].kind.Insn? && Here(c.prog[1]) && c.prog[1].labelName == None
  {
  }

  lemma OriginErrors(c: Context)
    requires OriginProgram(c)
    ensures Pass1(OriginConfig, c).errors == 0 && c.errors == 0
  {
    OriginWalk(c);
    hide Start, At, FinalSyms, Laid, LoadLine, BranchLine, OrgLine, FarLine, CheckErrors, StateBefore, Step;
    var prog, syms := LaidProg(OriginConfig, c), FinalSyms(OriginConfig, c);
    forall i | 0 <= i < 4
      ensures !prog[i].kind.Const?
    {
      LaidAt(OriginConfig, c, i);
      LaidProgAt(OriginConfig, c, i);
    }
    NothingToSettle(OriginConfig, syms, prog, 4);
    LaidAt(OriginConfig, c, 3);
    WalkedIs(OriginConfig, c);
  }

  lemma OriginPacked(c: Context)
    requires OriginProgram(c)
    ensures Packed(OriginConfig, {}, DEFAULT_SEGMENT, c) && Steady(OriginConfig, {}, c)
  {
    forall i | 0 <= i < |c.prog|
      ensures LayoutFree(OriginConfig, {}, c.prog[i])
    {
      hide StorageKey;
    }
    hide LayoutFree;
  }

  lemma OriginRefers(c: Context)
    requires OriginProgram(c)
    ensures RefersTo(OriginConfig, c, 1, 3)
  {
    OriginErrors(c);
    OriginDefines(c);
    LabelFinal(OriginConfig, c, 3, FAR);
    hide Pass1, FinalSyms, Defines;
  }

  lemma OriginDefines(c: Context)
    requires OriginProgram(c)
    ensures Defines(OriginConfig, c, 3, FAR)
  {
    hide *;
    OriginWalk(c);
    FarReached(c);
    FarDefines(c);
  }

  lemma FarDefines(c: Context)
    requires OriginProgram(c) && At(OriginConfig, Start(OriginConfig, c), c.prog, 3).stack == []
    ensures Defines(OriginConfig, c, 3, FAR)
  {
    hide Start, At, LoadLine, BranchLine, OrgLine;
  }

  lemma FarReached(c: Context)
    requires OriginProgram(c)
    ensures |c.prog| == 4 && StateBefore(c, 3).stack == []
  {
    StartIs(c);
    hide Start;
  }

  /** Whether the short branch reaches its target: exactly while the load in front of it is long. */
  lemma OriginRange(c: Context)
    requires OriginProgram(c)
    ensures BranchInRange(OriginConfig, c, 1) <==> c.prog[0].kind.size >= 3
  {
    hide *;
    OriginErrors(c);
    OriginPacked(c);
    OriginRefers(c);
    OriginOffsets(c);
    OriginPlaces(c);
    RangeByOffsets(OriginConfig, {}, DEFAULT_SEGMENT, c, 1, 3);
    FitsAt(c.prog[0].kind.size);
  }

  lemma OriginPlaces(c: Context)
    requires OriginProgram(c)
    ensures |c.prog| == 4 && c.prog[1].segment == DEFAULT_SEGMENT && c.prog[3].segment == DEFAULT_SEGMENT
    ensures DEFAULT_SEGMENT in c.segs && c.segs[DEFAULT_SEGMENT].base == 0 && c.prog[0].kind.Insn?
    ensures 2 <= c.prog[0].kind.size <= 3
  {
  }

  lemma FitsAt(a: int)
    requires 2 <= a <= 3
    ensures BranchFits(0 + a + 2, 0 + TARGET) <==> a >= 3
  {
    assert Disp16(2 + 2, TARGET) == 128 && Disp16(3 + 2, TARGET) == 127;
  }

  /** One iteration shortens both instructions. */
  lemma OriginRelaxed(c: Context)
    requires OriginProgram(c) && c.prog[0].kind.mode == EmitMode.Abs && c.prog[1].kind.mode == RelLong
    ensures var x := RelaxPass(OriginConfig, c);
            OriginProgram(x) && x.prog[0].kind.mode == EmitMode.Zp && x.prog[1].kind.mode == Rel
  {
    OriginErrors(c);
    OriginRange(c);
    PassSegs(OriginConfig, c);
    OriginLine(c, 0);
    OriginLine(c, 1);
    OriginLine(c, 2);
    OriginLine(c, 3);
    LoadShrinks(c);
    hide Pass1, LoadLine, BranchLine, OrgLine, FarLine, Relax, RelaxPass, BranchInRange;
    OriginForms(c);
    BranchShrinksHere(c);
    RelaxedParts(c);
  }

  lemma OriginForms(c: Context)
    requires OriginProgram(c)
    ensures c.prog[0].kind.Insn? && c.prog[1].kind.Insn? && (c.prog[0].kind.mode == EmitMode.Abs ==> c.prog[0].kind.size == 3)
  {
  }

  lemma RelaxedParts(c: Context)
    ensures var p, x := Pass1(OriginConfig, c), RelaxPass(OriginConfig, c);
            |x.prog| == |p.prog| && x.segs == p.segs && x.errors == p.errors &&
            forall i :: 0 <= i < |p.prog| ==> x.prog[i] == Relax(OriginConfig, p.syms, p.prog[i])
  {
    hide Pass1, Relax;
  }

  lemma OriginLine(c: Context, i: nat)
    requires OriginProgram(c) && i < 4 && Pass1(OriginConfig, c).errors == c.errors
    ensures var s, t := c.prog[i], Pass1(OriginConfig, c).prog[i];
            (LoadLine(s) ==> LoadLine(t)) && (BranchLine(s) ==> BranchLine(t)) && (OrgLine(s) ==> OrgLine(t)) &&
            (FarLine(s) ==> FarLine(t)) &&
            (s.kind.Insn? ==> t.kind == s.kind) &&
            (!s.kind.Insn? ==> Relax(OriginConfig, Pass1(OriginConfig, c).syms, t) == t)
  {
    hide Pass1;
    PassStmt(OriginConfig, c, i);
    var s, t := c.prog[i], Pass1(OriginConfig, c).prog[i];
    SkeletonKeys(OriginConfig, t, s, "");
    if FarLine(s) { assert Skeleton(s).kind == s.kind; }
  }

  lemma LoadShrinks(c: Context)
    requires OriginProgram(c) && c.prog[0].kind.mode == EmitMode.Abs
    ensures forall syms: Symtab, t: Stmt :: LoadLine(t) && t.kind.mode == EmitMode.Abs ==>
              LoadLine(Relax(OriginConfig, syms, t)) && Relax(OriginConfig, syms, t).kind.mode == EmitMode.Zp
  {
    assert Lookup(OriginConfig.table, "LDA", EmitMode.Zp) == Some(0xA5) by { LoadFound(); }
    hide Lookup;
  }

  lemma LoadFound()
    ensures Lookup(OriginConfig.table, "LDA", EmitMode.Zp) == Some(0xA5)
  {
    var t := OriginConfig.table;
    assert t[1..][0] == t[1];
    assert Find(t[1..], "LDA", EmitMode.Zp) == Some(0xA5);
  }

  lemma BranchShrinksHere(c: Context)
    requires OriginProgram(c) && c.prog[1].kind.mode == RelLong && BranchInRange(OriginConfig, c, 1)
    requires BranchLine(Pass1(OriginConfig, c).prog[1]) && Pass1(OriginConfig, c).prog[1].kind == c.prog[1].kind
    ensures var p := Pass1(OriginConfig, c); var t := Relax(OriginConfig, p.syms, p.prog[1]);
            BranchLine(t) && t.kind.mode == Rel
  {
    hide Pass1, Eval, BranchFits, Lookup, Classify;
  }

  /** The relaxer makes the branch short because it is in range; with the load shortened in the same pass it no longer
      is, and pass 2 refuses it. */
  lemma OriginBreaksRange(c: Context)
    requires OriginProgram(c) && c.prog[0].kind.mode == EmitMode.Abs && c.prog[1].kind.mode == RelLong
    ensures var x := RelaxPass(OriginConfig, c);
            BranchInRange(OriginConfig, c, 1) && ModeIs(x, 1, Rel) && Pass1(OriginConfig, x).errors == x.errors &&
            !BranchInRange(OriginConfig, x, 1) && !Accepted(OriginConfig, x, 1)
  {
    hide Pass1, RelaxPass, RefersTo, Steady, Packed, Accepted, BranchInRange;
    OriginRange(c);
    OriginRelaxed(c);
    var x := RelaxPass(OriginConfig, c);
    OriginErrors(x);
    OriginRange(x);
    OriginPacked(x);
    OriginRefers(x);
    BranchAccepted(OriginConfig, {}, x, 1, 3);
  }
}
