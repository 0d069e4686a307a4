/** A small program placed by a segment definition, `loop: BNE loop` with the branch in its long form, meets what the
    relaxation, tiling and simulation theorems assume, and the relaxer shortens it. */
module Tiny {
  import opened Support
  import opened Expressions
  import opened Opcodes
  import opened Program
  import opened Layout
  import opened Agreement
  import opened NonInterference
  import opened Labels
  import opened Relaxation
  import opened RelaxSafety
  import opened RelaxRun
  import opened RelaxFixpoint
  import opened Emission
  import opened Tiling
  import opened Machine

  const DEFAULT_SEGMENT := "__default__"
  const CODE := "CODE"
  const FILE := "tiny.s"
  const LOOP := InFile(FILE, "loop")
  const BASE := 0x1000

  const TinyConfig := Config(false, [DEFAULT_SEGMENT, CODE],
                             [Entry("BNE", EmitMode.Rel, 0xD0), Entry("BEQ", EmitMode.Rel, 0xF0), Entry("JMP", EmitMode.Abs, 0x4C)],
                             {}, {}, map[], [])

  /** `.segmentdef` in the default segment, `.segment` in the one it opens. */
  predicate PassiveLine(s: Stmt, segment: string) {
    s.kind.Dir? && s.kind.dir.name == DPassive && s.file == FILE && s.scope == "" && s.segment == segment &&
    s.labelName == None
  }

  predicate LabelLine(s: Stmt) {
    s.kind == LabelOnly && s.file == FILE && s.scope == "" && s.segment == CODE && s.labelName == Some("loop")
  }

  predicate BranchLine(s: Stmt) {
    s.kind.Insn? && s.kind.opcode == "BNE" && !s.kind.suffixed && s.kind.operand == Some(Ident("loop")) &&
    (s.kind.mode == Rel || s.kind.mode == RelLong) && s.kind.size == ModeSize(s.kind.mode) &&
    s.file == FILE && s.scope == "" && s.segment == CODE && s.labelName == None
  }

  predicate TinyLines(prog: seq<Stmt>) {
    |prog| == 4 && PassiveLine(prog[0], DEFAULT_SEGMENT) && PassiveLine(prog[1], CODE) && LabelLine(prog[2]) &&
    BranchLine(prog[3])
  }

  predicate TinySegments(segs: map<string, Segment>) {
    segs.Keys == {DEFAULT_SEGMENT, CODE} && segs[DEFAULT_SEGMENT].base == 0 && segs[CODE].base == BASE
  }

  predicate TinyProgram(c: Context) { TinyLines(c.prog) && TinySegments(c.segs) && c.errors == 0 }

  lemma StartIs(c: Context)
    requires TinyProgram(c)
    ensures var st := Start(TinyConfig, c);
            TinySegments(st.segs) && (forall n :: n in st.segs ==> st.segs[n].pc == 0 && !st.segs[n].rorgActive) &&
            st.stack == [] && st.errors == 0 && forall k :: k in st.syms ==>
              k.Global? && st.syms[k].defined && !st.syms[k].mutable
  {
    PublishedGlobals(TinyConfig.order, |TinyConfig.order|, ResetSegments(c.segs));
    hide Publish;
  }

  lemma {:induction false} PublishedGlobals(order: seq<string>, n: nat, segs: map<string, Segment>)
    requires n <= |order|
    ensures var t := Publish(order, n, segs, map[]);
            forall k :: k in t ==> k.Global? && t[k].defined && !t[k].mutable
  {
    if n > 0 { PublishedGlobals(order, n - 1, segs); }
  }

  // ---- the walk

  lemma PassiveStep(st: State, s: Stmt, segment: string)
    requires PassiveLine(s, segment) && segment in st.segs && st.stack == []
    ensures Step(TinyConfig, st, s).0 == st && Step(TinyConfig, st, s).1.kind == s.kind
  {
    hide StorageKey, AddressSymbol;
    assert st.segs[segment := st.segs[segment]] == st.segs;
  }

  lemma LabelStep(st: State, s: Stmt)
    requires LabelLine(s) && CODE in st.segs && st.stack == [] && LOOP !in st.syms
    ensures Step(TinyConfig, st, s).0 == st.(syms := st.syms[LOOP := AddressSymbol(st.segs[CODE], s)]) &&
            Step(TinyConfig, st, s).1.kind == s.kind
  {
    hide AddressSymbol;
    assert st.segs[CODE := st.segs[CODE]] == st.segs;
  }

  lemma BranchStep(st: State, s: Stmt)
    requires BranchLine(s) && CODE in st.segs && st.stack == []
    ensures Step(TinyConfig, st, s).0 == st.(segs := st.segs[CODE := Advance(st.segs[CODE], s.kind.size)])
    ensures var p := Step(TinyConfig, st, s).1;
            p.kind == s.kind && p.active && p.emitAddress == st.segs[CODE].base + st.segs[CODE].pc
  {
    hide AddressSymbol, Advance;
  }

  /** The table behind the label. */
  function Labelled(c: Context): Symtab
    requires TinyProgram(c)
  {
    StartIs(c);
    Start(TinyConfig, c).syms[LOOP := AddressSymbol(Start(TinyConfig, c).segs[CODE], c.prog[2])]
  }

  /** The label at the segment's start, the branch right behind it. */
  lemma TinyWalk(c: Context)
    requires TinyProgram(c)
    ensures var st := Start(TinyConfig, c);
            At(TinyConfig, st, c.prog, 0) == st && At(TinyConfig, st, c.prog, 1) == st && At(TinyConfig, st, c.prog, 2) == st
    ensures var st := Start(TinyConfig, c); var w := st.(syms := Labelled(c));
            CODE in st.segs && At(TinyConfig, st, c.prog, 3) == w &&
            At(TinyConfig, st, c.prog, 4) ==
              w.(segs := st.segs[CODE := Advance(st.segs[CODE], c.prog[3].kind.size)])
    ensures |c.prog| == 4
    ensures forall i :: 0 <= i < 4 ==> Laid(TinyConfig, Start(TinyConfig, c), c.prog, i).kind == c.prog[i].kind
    ensures var p := Laid(TinyConfig, Start(TinyConfig, c), c.prog, 3); p.active && p.emitAddress == BASE
  {
    hide Publish, Start, AddressSymbol, Step, Advance, At, Laid, PassiveLine, LabelLine, BranchLine, Labelled;
    TinyStart(c);
    StartIsFirst(TinyConfig, c);
    var st := Start(TinyConfig, c);
    PassiveStep(st, c.prog[0], DEFAULT_SEGMENT);
    LaidAt(TinyConfig, c, 0);
    PassiveStep(st, c.prog[1], CODE);
    LaidAt(TinyConfig, c, 1);
    LabelStep(st, c.prog[2]);
    LaidAt(TinyConfig, c, 2);
    BranchStep(st.(syms := Labelled(c)), c.prog[3]);
    LaidAt(TinyConfig, c, 3);
  }

  lemma TinyStart(c: Context)
    requires TinyProgram(c)
    ensures var st := Start(TinyConfig, c);
            DEFAULT_SEGMENT in st.segs && CODE in st.segs && st.segs[CODE].base == BASE && st.segs[CODE].pc == 0 &&
            st.stack == [] && LOOP !in st.syms && Labelled(c) == st.syms[LOOP := AddressSymbol(st.segs[CODE], c.prog[2])]
    ensures c.prog[3].kind.Insn?
  {
    StartIs(c);
    hide Start, AddressSymbol;
  }

  /** Every pass is free of errors and leaves the shape of the program. */
  lemma TinyPass(c: Context)
    requires TinyProgram(c)
    ensures Pass1(TinyConfig, c).errors == 0 && TinyProgram(Pass1(TinyConfig, c))
    ensures Pass1(TinyConfig, c).prog[3].kind == c.prog[3].kind
  {
    TinyErrors(c);
    hide Pass1, PassiveLine, LabelLine, BranchLine, Skeleton;
    PassSegs(TinyConfig, c);
    forall i | 0 <= i < 4
      ensures SameLine(c.prog[i], Pass1(TinyConfig, c).prog[i])
    {
      PassStmt(TinyConfig, c, i);
      TinyShape(c.prog[i], Pass1(TinyConfig, c).prog[i]);
    }
    PassStmt(TinyConfig, c, 3);
    TinyBranchKind(c.prog[3]);
  }

  lemma TinyBranchKind(s: Stmt)
    requires BranchLine(s)
    ensures s.kind.Insn?
  {
  }

  lemma NoEquates(c: Context)
    requires TinyProgram(c)
    ensures |LaidProg(TinyConfig, c)| == 4 && forall i :: 0 <= i < 4 ==> !LaidProg(TinyConfig, c)[i].kind.Const?
  {
    TinyWalk(c);
    hide Start, Laid, At, Labelled, Advance, AddressSymbol;
    forall i | 0 <= i < 4
      ensures !LaidProg(TinyConfig, c)[i].kind.Const?
    {
      LaidProgAt(TinyConfig, c, i);
    }
  }

  lemma TinyErrors(c: Context)
    requires TinyProgram(c)
    ensures Pass1(TinyConfig, c).errors == 0
  {
    StartIs(c);
    TinyWalk(c);
    NoEquates(c);
    hide Start, Laid, At, Labelled, Advance, AddressSymbol, FinalSyms, LaidProg, CheckErrors, TinyLines;
    NothingToSettle(TinyConfig, FinalSyms(TinyConfig, c), LaidProg(TinyConfig, c), 4);
  }

  ghost predicate SameLine(s: Stmt, t: Stmt) {
    (forall n :: PassiveLine(s, n) ==> PassiveLine(t, n)) && (LabelLine(s) ==> LabelLine(t)) &&
    (BranchLine(s) ==> BranchLine(t))
  }

  lemma TinyShape(s: Stmt, t: Stmt)
    requires Skeleton(s) == Skeleton(t) && (s.kind.Insn? ==> t.kind == s.kind)
    ensures SameLine(s, t)
  {
    SkeletonKeys(TinyConfig, s, t, "");
    if LabelLine(s) { assert Skeleton(s).kind == s.kind; }
  }

  lemma TinyRelaxed(c: Context)
    requires TinyProgram(c)
    ensures TinyProgram(RelaxPass(TinyConfig, c))
  {
    TinyPass(c);
    hide Pass1, PassiveLine, LabelLine, BranchLine, Relax;
    var p := Pass1(TinyConfig, c);
    RelaxedLine(p.syms, p.prog[0]);
    RelaxedLine(p.syms, p.prog[1]);
    RelaxedLine(p.syms, p.prog[2]);
    RelaxedLine(p.syms, p.prog[3]);
  }

  lemma RelaxedLine(syms: Symtab, s: Stmt)
    ensures SameLine(s, Relax(TinyConfig, syms, s))
  {
    hide BranchShrinks, Lookup, Eval, Classify, IsZpImport;
  }

  lemma {:induction false} TinyQuiet(c: Context, n: nat)
    requires TinyProgram(c)
    ensures TinyProgram(Iterate(TinyConfig, c, n)) && Quiet(TinyConfig, c, n)
  {
    hide Pass1, RelaxPass;
    if n > 0 {
      TinyQuiet(c, n - 1);
      TinyRelaxed(Iterate(TinyConfig, c, n - 1));
    }
  }

  // ---- the relaxation theorems

  lemma TinyPacked(c: Context)
    requires TinyProgram(c)
    ensures AllPacked(TinyConfig, {}, c) && Steady(TinyConfig, {}, c) && Packed(TinyConfig, {}, CODE, c)
  {
    forall i | 0 <= i < |c.prog|
      ensures LayoutFree(TinyConfig, {}, c.prog[i])
    {
      hide StorageKey;
    }
    hide LayoutFree;
  }

  lemma TinyRefers(c: Context)
    requires TinyProgram(c)
    ensures RefersTo(TinyConfig, c, 3, 2)
  {
    TinyPass(c);
    TinyDefines(c);
    LabelFinal(TinyConfig, c, 2, LOOP);
    hide Pass1, FinalSyms, Defines;
  }

  lemma TinyDefines(c: Context)
    requires TinyProgram(c)
    ensures Defines(TinyConfig, c, 2, LOOP)
  {
    StartIs(c);
    TinyWalk(c);
    hide Start, AddressSymbol, Labelled, Advance, Laid, At;
  }

  lemma TinyFree(c: Context)
    requires TinyProgram(c)
    ensures FreeBetween(CODE, c.prog, 3, 2) && FreeBetween(CODE, c.prog, 2, 3)
  {
  }

  lemma TinySpan(c: Context)
    requires TinyProgram(c)
    ensures Off(TinyConfig, c, CODE, 2) == 0 && Off(TinyConfig, c, CODE, 3) == 0
    ensures Span(TinyConfig, c, CODE) == c.prog[3].kind.size && Span(TinyConfig, c, DEFAULT_SEGMENT) == 0
  {
    StartIs(c);
    TinyWalk(c);
    hide Publish, Start, Laid, Labelled, AddressSymbol;
  }

  /** The premises of the relaxation theorems can be met, for any number of passes. */
  lemma PremisesMet(c: Context, n: nat)
    requires TinyProgram(c)
    ensures Good(TinyConfig, {}, c) && SimpleOperands(TinyConfig, {}, c) && Quiet(TinyConfig, c, n)
    ensures Packed(TinyConfig, {}, CODE, c) && RefersTo(TinyConfig, c, 3, 2) && NearBranch(TinyConfig, CODE, c, 3, 2)
  {
    hide Pass1, AllPacked, Packed, RefersTo, Quiet, Off, ShortForm, Over, Steady, FreeBetween;
    TinyPacked(c);
    TinyPass(c);
    TinySpan(c);
    TinyRefers(c);
    TinyQuiet(c, n);
    TinyFree(c);
    TinySimple(c);
  }

  lemma TinySimple(c: Context)
    requires TinyProgram(c) && RefersTo(TinyConfig, c, 3, 2) && NearBranch(TinyConfig, CODE, c, 3, 2)
    ensures SimpleOperands(TinyConfig, {}, c)
  {
    hide RefersTo, Lookup, NearBranch;
    assert Targets(TinyConfig, c, 3, 2);
  }

  /** One iteration makes the branch short. */
  lemma BranchShortened(c: Context)
    requires TinyProgram(c)
    ensures ModeIs(RelaxPass(TinyConfig, c), 3, Rel)
  {
    hide Pass1, RefersTo, Off, Span, FinalSyms, Laid, Eval, RelaxPass, Steady, AllPacked, Packed, HoldsLabel;
    TinyPacked(c);
    TinyPass(c);
    TinySpan(c);
    TinyRefers(c);
    LabelValue(TinyConfig, {}, c, 3, 2);
    LabelEval(TinyConfig, c, 3, 2);
    PassSyms(TinyConfig, c);
    TinyShort(c);
  }

  lemma TinyShort(c: Context)
    requires TinyProgram(c) && |Pass1(TinyConfig, c).prog| == 4 && BranchLine(Pass1(TinyConfig, c).prog[3])
    requires Pass1(TinyConfig, c).prog[3].address == BASE
    requires var p := Pass1(TinyConfig, c).prog[3];
             Eval(Ident("loop"), Pass1(TinyConfig, c).syms, p.scope, p.file, BASE + 1) == Ok(BASE)
    ensures ModeIs(RelaxPass(TinyConfig, c), 3, Rel)
  {
    hide Pass1;
    assert Disp16(BASE + 2, BASE) == -2;
  }

  // ---- the settled program can be emitted and run

  predicate TinySettled(c: Context) {
    TinyProgram(c) && c.prog[3].kind.mode == Rel && c.segs[CODE].usedSize == 2 && c.segs[DEFAULT_SEGMENT].usedSize == 0
  }

  /** Two iterations settle the program. */
  lemma TinySettles(c: Context)
    requires TinyProgram(c)
    ensures TinySettled(RelaxPass(TinyConfig, RelaxPass(TinyConfig, c)))
  {
    hide Pass1, RelaxPass, Relax;
    var x := RelaxPass(TinyConfig, c);
    BranchShortened(c);
    TinyRelaxed(c);
    BranchShortened(x);
    TinyRelaxed(x);
    TinySpan(x);
    UsedIsSpan(TinyConfig, CODE, x);
    UsedIsSpan(TinyConfig, DEFAULT_SEGMENT, x);
    SegsAfter(x);
  }

  lemma SegsAfter(c: Context)
    ensures RelaxPass(TinyConfig, c).segs == Pass1(TinyConfig, c).segs
  {
    hide Pass1;
  }

  /** The final table: the label and the published names. */
  lemma TinyFinal(c: Context)
    requires TinySettled(c)
    ensures Settled(TinyConfig, c) && FinalSyms(TinyConfig, c) == Labelled(c)
  {
    hide *;
    TinyIs(c);
    TinyPass(c);
    TinyUsed(c);
    SettledBySpans(TinyConfig, c);
    SettledHolds(c);
    RepublishedSame(TinyConfig, c);
    TinyWalked(c);
    NoEquates(c);
    NothingToSettle(TinyConfig, Labelled(c), LaidProg(TinyConfig, c), 4);
    SweptOnce(TinyConfig, c, Labelled(c), Labelled(c));
  }

  lemma TinyIs(c: Context)
    requires TinySettled(c)
    ensures TinyProgram(c) && c.errors == 0
  {
    hide TinyLines;
  }

  lemma SettledHolds(c: Context)
    requires Settled(TinyConfig, c)
    ensures SizesHold(TinyConfig, c)
  {
    hide SizesHold, Pass1;
  }

  lemma TinyUsed(c: Context)
    requires TinySettled(c)
    ensures forall n :: n in c.segs ==> c.segs[n].usedSize == Span(TinyConfig, c, n)
  {
    TinySpan(c);
    hide Span, Off;
  }

  lemma TinyWalked(c: Context)
    requires TinyProgram(c)
    ensures Walked(TinyConfig, c).syms == Labelled(c)
  {
    TinyWalk(c);
    hide Start, At, Labelled, Laid, Advance, AddressSymbol;
  }

  lemma TinyClean(c: Context)
    requires TinySettled(c)
    ensures Clean(TinyConfig, c)
  {
    hide FinalSyms, Pass1, At, Settled, Start, Mentions, KnownAt;
    TinyFinal(c);
    TinyOrderly(c);
  }

  /** Nothing in the program is sized by a value. */
  lemma TinyOrderly(c: Context)
    requires TinyProgram(c)
    ensures Orderly(TinyConfig, c, FinalSyms(TinyConfig, c)) && SizesMatch(c.prog)
  {
    hide FinalSyms, Start, Laid, At, Mentions, KnownAt, SameReading;
    forall i | 0 <= i < 4
      ensures ReadsAlike(TinyConfig, c, FinalSyms(TinyConfig, c), i)
    {
      TinyKind(c, i);
    }
  }

  lemma TinyKind(c: Context, i: nat)
    requires TinyProgram(c) && i < 4
    ensures var s := Laid(TinyConfig, Start(TinyConfig, c), c.prog, i); SizeOperands(s) == [] && !Deferred(s)
  {
    hide *;
    TinyWalk(c);
    LineKind(c, i, Laid(TinyConfig, Start(TinyConfig, c), c.prog, i));
  }

  lemma LineKind(c: Context, i: nat, s: Stmt)
    requires TinyProgram(c) && i < 4 && i < |c.prog| && s.kind == c.prog[i].kind
    ensures SizeOperands(s) == [] && !Deferred(s)
  {
  }

  /** The branch assembles to `D0 FE`. */
  lemma TinyBytes(c: Context)
    requires TinySettled(c)
    ensures var s := Pass1(TinyConfig, c).prog[3];
            StmtBytes(TinyConfig, SegmentOf(Pass1(TinyConfig, c).segs, s), Forget(Pass1(TinyConfig, c).syms), s) == Emitted([0xD0, 0xFE], true) &&
            s.emitAddress == BASE
  {
    hide Pass1, RefersTo, Off, Span, FinalSyms, Laid, At, Start, Eval, Forget, Steady, AllPacked, Packed, HoldsLabel;
    TinyPacked(c);
    TinyPass(c);
    TinySpan(c);
    TinyRefers(c);
    TinyWalk(c);
    LabelValue(TinyConfig, {}, c, 3, 2);
    LabelEval(TinyConfig, c, 3, 2);
    PassSyms(TinyConfig, c);
    var p := Pass1(TinyConfig, c).prog[3];
    ForgetImmutable(c);
    TinyInsn(p, Forget(Pass1(TinyConfig, c).syms));
  }

  /** No entry of the program is a `.set` variable. */
  lemma ForgetImmutable(c: Context)
    requires TinySettled(c)
    ensures Forget(Pass1(TinyConfig, c).syms) == Pass1(TinyConfig, c).syms
  {
    StartIs(c);
    TinyFinal(c);
    PassSyms(TinyConfig, c);
    AddressImmutable(Start(TinyConfig, c).segs[CODE], c.prog[2]);
    hide Pass1, Publish, Start, Step, AddressSymbol, FinalSyms;
  }

  lemma TinyInsn(s: Stmt, syms: Symtab)
    requires BranchLine(s) && s.kind.mode == Rel && s.active && s.address == BASE
    requires Eval(Ident("loop"), syms, s.scope, s.file, BASE + 1) == Ok(BASE)
    ensures forall g: Segment :: StmtBytes(TinyConfig, g, syms, s) == Emitted([0xD0, 0xFE], true)
  {
    hide Eval;
    assert Disp16(BASE + 2, BASE) == -2;
    assert Lookup(TinyConfig.table, "BNE", Rel) == Some(0xD0);
  }

  lemma TinyEmits(c: Context)
    requires TinySettled(c)
    ensures Pass2(TinyConfig, Pass1(TinyConfig, c)).errors == 0
  {
    TinyPass(c);
    TinyBytes(c);
    hide Pass1, StmtBytes, Forget, Write;
    var p := Pass1(TinyConfig, c);
    var e := EmitState(Forget(p.syms), map[], 0);
    TinyBytesWritten();
    hide EmitStep, TinyProgram;
    assert EmitAt(TinyConfig, p, 0) == e;
    SilentLine(p, 0);
    assert EmitAt(TinyConfig, p, 1) == e;
    SilentLine(p, 1);
    assert EmitAt(TinyConfig, p, 2) == e;
    SilentLine(p, 2);
    assert EmitAt(TinyConfig, p, 3) == e;
    BranchWritten(p, e);
  }

  lemma TinyBytesWritten()
    ensures Write(map[], BASE, [0xD0, 0xFE]).1
  {
    assert [0xD0 as byte, 0xFE][1..] == [0xFE] && [0xFE as byte][1..] == [];
  }

  lemma BranchWritten(p: Context, e: EmitState)
    requires TinyProgram(p) && e == EmitState(Forget(p.syms), map[], 0) && Write(map[], BASE, [0xD0, 0xFE]).1
    requires p.prog[3].emitAddress == BASE
    requires StmtBytes(TinyConfig, SegmentOf(p.segs, p.prog[3]), Forget(p.syms), p.prog[3]) ==
               Emitted([0xD0, 0xFE], true)
    ensures EmitStep(TinyConfig, p.segs, e, p.prog[3]).errors == 0
  {
    hide StmtBytes, Write, Forget;
  }

  lemma SilentLine(p: Context, i: nat)
    requires TinyProgram(p) && i < 3
    ensures forall st: EmitState :: EmitStep(TinyConfig, p.segs, st, p.prog[i]) == st
  {
    hide Forget;
  }

  /** The premises of the image and simulation theorems can be met too. */
  lemma TinyRuns(c: Context)
    requires TinySettled(c)
    ensures GoodFlat(TinyConfig, c) && NoOrg(c.prog) && Runnable(TinyConfig, c)
    ensures Plain(TinyConfig, c, CODE) && Plain(TinyConfig, c, DEFAULT_SEGMENT)
  {
    hide Pass1, Pass2, Clean, Apart, NoOrg, Forward, Runnable, Plain, TinySegments, TinyLines;
    TinyClean(c);
    TinyEmits(c);
    TinyApart(c);
    TinyOrigins(c);
    NoOrgForward(TinyConfig, c);
    FlatRuns(TinyConfig, c);
    TinyPass(c);
    TinyBytes(c);
    TinyKeys(c);
    TinyPlain(c, CODE);
    TinyPlain(c, DEFAULT_SEGMENT);
  }

  lemma TinyOrigins(c: Context)
    requires TinyProgram(c)
    ensures NoOrg(c.prog) && forall i :: 0 <= i < |c.prog| ==> NoLogicalOrigin(c.prog[i])
  {
  }

  lemma TinyPlain(c: Context, name: string)
    requires TinyProgram(c) && TinyProgram(Pass1(TinyConfig, c)) && name in c.segs
    requires Pass1(TinyConfig, c).prog[3].emitAddress == BASE
    ensures Plain(TinyConfig, c, name)
  {
    hide Pass1;
    TinyOrigins(c);
  }

  lemma TinyApart(c: Context)
    requires TinySettled(c)
    ensures Apart(Pass1(TinyConfig, c).segs)
  {
    hide *;
    TinyIs(c);
    TinyKeys(c);
    TinyPass(c);
    TinyKeys(Pass1(TinyConfig, c));
    TinyUsed(c);
    TinySizes(c);
    UsedIsSpan(TinyConfig, CODE, c);
    UsedIsSpan(TinyConfig, DEFAULT_SEGMENT, c);
    ApartFrom(Pass1(TinyConfig, c).segs);
  }

  lemma TinyKeys(c: Context)
    requires TinyProgram(c)
    ensures TinySegments(c.segs) && CODE in c.segs && DEFAULT_SEGMENT in c.segs
  {
    hide TinyLines;
  }

  lemma TinySizes(c: Context)
    requires TinySettled(c)
    ensures CODE in c.segs && DEFAULT_SEGMENT in c.segs && c.segs[CODE].usedSize == 2
    ensures c.segs[DEFAULT_SEGMENT].usedSize == 0
  {
    hide TinyLines;
  }

  lemma ApartFrom(segs: map<string, Segment>)
    requires TinySegments(segs) && segs[CODE].usedSize == 2 && segs[DEFAULT_SEGMENT].usedSize == 0
    ensures Apart(segs)
  {
  }

  /** Its opcode table describes a processor. */
  lemma TinyProcessor(flags: int -> Flags, effect: (byte, int, int) -> int)
    ensures Describes(TinyConfig.table, ProcessorOf(TinyConfig.table, flags, effect))
  {
    hide ReverseMap, Describes;
    forall n | BranchOf(n).Some? && Lookup(TinyConfig.table, n, Rel).Some?
      ensures Lookup(TinyConfig.table, n, Rel).value == StandardByte(BranchOf(n).value)
    {
      TinyBranch(n);
    }
    assert Lookup(TinyConfig.table, "JMP", Abs) == Some(0x4C);
    ProcessorDescribed(TinyConfig.table, flags, effect);
  }

  lemma TinyBranch(n: string)
    requires BranchOf(n).Some? && Lookup(TinyConfig.table, n, Rel).Some?
    ensures Lookup(TinyConfig.table, n, Rel).value == StandardByte(BranchOf(n).value)
  {
    var t := TinyConfig.table;
    assert Find(t[3..], n, Rel) == None;
    assert t[1..][0] == t[1] && t[1..][1..] == t[2..] && t[2..][0] == t[2] && t[2..][1..] == t[3..];
    assert Find(t[2..], n, Rel) == None;
    assert Find(t[1..], n, Rel) == if n == "BEQ" then Some(0xF0) else None;
    assert Find(t, n, Rel) == if n == "BNE" then Some(0xD0) else Find(t[1..], n, Rel);
    assert RawByte(n).None?;
    if n == "BEQ" { assert StandardByte(BranchOf(n).value) == 0xF0; }
  }
}
