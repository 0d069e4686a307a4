/** Two programs that assemble without an error although pass 2 writes other bytes than pass 1 made room for: a
    size that reads a published name hidden later by a private one, and a size that reads an equate over a `.set`
    variable. */
module TinyReads {
  import opened Support
  import opened Expressions
  import opened Opcodes
  import opened Program
  import opened Layout
  import opened Emission
  import opened Agreement
  import opened Tiling
  import opened NonInterference
  import opened RelaxSafety
  import opened RelaxRun
  import opened RelaxFixpoint
  import opened Labels
  import TinySignature

  const DEFAULT_SEGMENT := "__default__"
  const CODE := "CODE"
  const FILE := "two.s"

  function PlainConfig(order: seq<string>): Config { Config(false, order, [], {}, {}, map[], []) }

  /** `name = expr` or `name .set expr`. */
  predicate Assigns(s: Stmt, segment: string, name: string, expr: Expr, assign: AssignKind) {
    s.kind.Const? && s.kind.name == name && s.kind.expr == expr && s.kind.assign == assign &&
    s.labelName == None && s.file == FILE && s.scope == "" && s.segment == segment
  }

  function Plain(v: int): Symbol { Symbol(v, true, AbsSeg, None, false) }

  function Variable(v: int): Symbol { Symbol(v, true, AbsSeg, None, true) }

  lemma StartPlain(cfg: Config, c: Context)
    ensures var st := Start(cfg, c);
            st.segs.Keys == c.segs.Keys && st.stack == [] && st.errors == c.errors &&
            (forall n :: n in st.segs ==> st.segs[n].base == c.segs[n].base && st.segs[n].pc == 0 && !st.segs[n].rorgActive) &&
            (forall k :: k in st.syms ==> k.Global? && !st.syms[k].mutable)
  {
    PublishHolds(cfg.order, |cfg.order|, ResetSegments(c.segs));
    TinySignature.OnlyGlobals(cfg.order, |cfg.order|, ResetSegments(c.segs));
    hide Publish;
  }

  /** An assignment to a name private to the file, read in the table that already holds its entry. */
  lemma AssignStep(cfg: Config, st: State, s: Stmt, segment: string, name: string, expr: Expr, assign: AssignKind,
      v: int, t: Symtab)
    requires Assigns(s, segment, name, expr, assign) && segment in st.segs && st.stack == [] && assign != Default
    requires cfg.commandLine == {} && cfg.exported == {} && !IsLocal(name)
    requires var k := InFile(FILE, name);
             if assign == SetVar then k in st.syms ==> st.syms[k].mutable else k !in st.syms
    requires var k := InFile(FILE, name);
             t == st.syms[k := if k in st.syms then st.syms[k] else Declared.(mutable := assign == SetVar)]
    requires forall pc :: Eval(expr, t, "", FILE, pc) == Ok(v)
    ensures Step(cfg, st, s).0 ==
              st.(syms := st.syms[InFile(FILE, name) := if assign == SetVar then Variable(v) else Plain(v)])
    ensures var p := Step(cfg, st, s).1;
            p.active && p.kind == s.kind.(applied := true) && p.file == FILE && p.scope == "" && p.segment == segment
  {
    hide Eval, LogicalPc, AddressSymbol;
    var k := InFile(FILE, name);
    var pc := LogicalPc(st.segs[segment]);
    assert AfterNames(cfg, st, s) == st && StorageKey(cfg, s, name) == k;
    assert Eval(expr, t, "", FILE, pc) == Ok(v);
    assert t[k := Assigned(t[k], v)] == st.syms[k := Assigned(t[k], v)];
    if assign == SetVar && k in st.syms { assert st.syms[k := st.syms[k]] == st.syms; }
  }

  // ---- a published name hidden later

  const HiddenConfig := PlainConfig([DEFAULT_SEGMENT, CODE])
  const HIDDEN := InFile(FILE, "CODE_BASE")

  /** `.res CODE_BASE` and behind it `CODE_BASE = 5`, in a segment at address 2, as an earlier pass left its sizes. */
  predicate HiddenProgram(c: Context) {
    |c.prog| == 2 && TinySignature.Line(c.prog[0], CODE, DRes, Ident("CODE_BASE")) &&
    Assigns(c.prog[1], CODE, "CODE_BASE", Number(5), Normal) && c.errors == 0 &&
    c.segs.Keys == {DEFAULT_SEGMENT, CODE} &&
    c.segs[DEFAULT_SEGMENT].base == 0 && c.segs[DEFAULT_SEGMENT].usedSize == 0 && c.segs[CODE].base == 2 &&
    c.segs[CODE].usedSize == 2
  }

  lemma BaseKnown(c: Context)
    requires HiddenProgram(c)
    ensures forall pc :: Eval(Ident("CODE_BASE"), Start(HiddenConfig, c).syms, "", FILE, pc) == Ok(2)
  {
    var segs := ResetSegments(c.segs);
    StartPlain(HiddenConfig, c);
    PublishHolds(HiddenConfig.order, 2, segs);
    hide Publish;
    assert HiddenConfig.order[1] == CODE && PublishedOne(Start(HiddenConfig, c).syms, CODE, segs[CODE]);
    assert CODE + "_BASE" == "CODE_BASE";
  }

  lemma HiddenWalk(c: Context)
    requires HiddenProgram(c)
    ensures var st := Start(HiddenConfig, c);
            CODE in st.segs && At(HiddenConfig, st, c.prog, 0) == st &&
            At(HiddenConfig, st, c.prog, 1) == st.(segs := st.segs[CODE := Advance(st.segs[CODE], 2)]) &&
            At(HiddenConfig, st, c.prog, 2) == st.(segs := st.segs[CODE := Advance(st.segs[CODE], 2)], syms := st.syms[HIDDEN := Plain(5)])
    ensures MotionOf(HiddenConfig, c, 0) == Grow(2)
    ensures Laid(HiddenConfig, Start(HiddenConfig, c), c.prog, 0).kind == c.prog[0].kind
    ensures var p := Laid(HiddenConfig, Start(HiddenConfig, c), c.prog, 1);
            p.active && p.file == FILE && p.scope == "" && p.kind == c.prog[1].kind.(applied := true)
  {
    StartPlain(HiddenConfig, c);
    BaseKnown(c);
    hide Publish, Start, Eval, Step, Advance;
    var st := Start(HiddenConfig, c);
    var st1 := st.(segs := st.segs[CODE := Advance(st.segs[CODE], 2)]);
    TinySignature.LineStep(HiddenConfig, st, c.prog[0], CODE, DRes, Ident("CODE_BASE"), 2);
    TinySignature.LineMotion(HiddenConfig, st.segs[CODE], st.syms, c.prog[0], CODE, DRes, Ident("CODE_BASE"), 2, LogicalPc(st.segs[CODE]));
    assert At(HiddenConfig, st, c.prog, 0) == st;
    assert At(HiddenConfig, st, c.prog, 1) == st1;
    NumberEval(5);
    AssignStep(HiddenConfig, st1, c.prog[1], CODE, "CODE_BASE", Number(5), Normal, 5, st.syms[HIDDEN := Declared]);
    LaidShape(HiddenConfig, st, c.prog[0]);
    assert AfterNames(HiddenConfig, st, c.prog[0]) == st;
  }

  lemma NumberEval(n: int)
    ensures forall t: Symtab, scope: string, file: string, pc: int :: Eval(Number(n), t, scope, file, pc) == Ok(n)
  {
  }

  lemma HiddenFinal(c: Context)
    requires HiddenProgram(c)
    ensures SizesHold(HiddenConfig, c) && FinalSyms(HiddenConfig, c) == Start(HiddenConfig, c).syms[HIDDEN := Plain(5)]
    ensures Walked(HiddenConfig, c).errors == 0 && Walked(HiddenConfig, c).stack == []
    ensures |LaidProg(HiddenConfig, c)| == 2
    ensures !LaidProg(HiddenConfig, c)[0].kind.Const? && HiddenEquate(LaidProg(HiddenConfig, c)[1])
  {
    hide *;
    HiddenLaid(c);
    HiddenWalked(c);
    RepublishedSame(HiddenConfig, c);
    var w := Start(HiddenConfig, c).syms[HIDDEN := Plain(5)];
    HiddenSwept(w, LaidProg(HiddenConfig, c));
    SweptOnce(HiddenConfig, c, w, w);
  }

  predicate HiddenEquate(p: Stmt) {
    p.active && p.file == FILE && p.scope == "" && p.kind == Const("CODE_BASE", Number(5), Normal, true)
  }

  lemma HiddenLaid(c: Context)
    requires HiddenProgram(c)
    ensures |LaidProg(HiddenConfig, c)| == 2 && !LaidProg(HiddenConfig, c)[0].kind.Const?
    ensures HiddenEquate(LaidProg(HiddenConfig, c)[1])
  {
    HiddenWalk(c);
    hide Start, Laid, At, LaidProg, Advance;
    LaidProgAt(HiddenConfig, c, 0);
    LaidProgAt(HiddenConfig, c, 1);
  }

  lemma HiddenWalked(c: Context)
    requires HiddenProgram(c)
    ensures var w := Walked(HiddenConfig, c);
            w.errors == 0 && w.stack == [] && w.syms == Start(HiddenConfig, c).syms[HIDDEN := Plain(5)]
    ensures SizesHold(HiddenConfig, c)
  {
    StartPlain(HiddenConfig, c);
    HiddenWalk(c);
    hide Start, Laid, At;
  }

  lemma HiddenSwept(w: Symtab, prog: seq<Stmt>)
    requires |prog| == 2 && !prog[0].kind.Const? && HiddenEquate(prog[1]) && HIDDEN in w && w[HIDDEN] == Plain(5)
    ensures Sweep(HiddenConfig, w, prog, 2) == w
  {
    assert Sweep(HiddenConfig, w, prog, 0) == w;
    assert Sweep(HiddenConfig, w, prog, 1) == w;
  }

  lemma HiddenErrors(c: Context)
    requires HiddenProgram(c)
    ensures Pass1(HiddenConfig, c).errors == 0 && Settled(HiddenConfig, c) && c.errors == 0
  {
    hide *;
    HiddenFinal(c);
    HiddenSizes(c);
    PassErrorsAre(HiddenConfig, c);
    HiddenChecked(FinalSyms(HiddenConfig, c), LaidProg(HiddenConfig, c));
    SettledFrom(HiddenConfig, c);
  }

  lemma HiddenChecked(w: Symtab, prog: seq<Stmt>)
    requires |prog| == 2 && !prog[0].kind.Const? && HiddenEquate(prog[1]) && HIDDEN in w && w[HIDDEN] == Plain(5)
    ensures CheckErrors(HiddenConfig, w, prog, 2) == 0
  {
    assert CheckErrors(HiddenConfig, w, prog, 0) == 0;
    assert CheckErrors(HiddenConfig, w, prog, 1) == 0;
  }

  /** No immutable entry is forgotten. */
  lemma NothingForgotten(syms: Symtab)
    requires forall k :: k in syms ==> !syms[k].mutable
    ensures Forget(syms) == syms
  {
  }

  lemma {:induction false} ZerosWritten(img: Image, a: int, n: nat)
    requires 0 <= a && a + n <= IMAGE_LIMIT
    ensures Write(img, a, Fill(n, 0)).1
    decreases n
  {
    if n > 0 {
      assert Fill(n, 0)[1..] == Fill(n - 1, 0);
      ZerosWritten(img[a := 0], a + 1, n - 1);
    }
  }

  lemma ResBytes(cfg: Config, seg: Segment, syms: Symtab, s: Stmt, name: string, n: nat)
    requires s.active && s.file == FILE && s.scope == "" && s.kind == Dir(Directive(DRes, None, [Ident(name)]))
    requires forall pc :: Eval(Ident(name), syms, "", FILE, pc) == Ok(n)
    ensures StmtBytes(cfg, seg, syms, s) == Emitted(Fill(n, 0), true)
  {
    hide Eval;
    assert s.kind.dir.args[0] == Ident(name);
  }

  lemma HiddenEmits(c: Context)
    requires HiddenProgram(c)
    ensures var p := Pass1(HiddenConfig, c);
            |p.prog| == 2 && Pass2(HiddenConfig, p).errors == 0 && BytesOf(HiddenConfig, p, 0) == Fill(5, 0)
  {
    HiddenErrors(c);
    HiddenFinal(c);
    PassSyms(HiddenConfig, c);
    HiddenPlaced(c);
    StartPlain(HiddenConfig, c);
    hide Pass1, FinalSyms, Start, StmtBytes, Write, Fill, Eval, Settled;
    var p := Pass1(HiddenConfig, c);
    NothingForgotten(p.syms);
    HiddenRead(p.syms);
    assert EmitAt(HiddenConfig, p, 0) == EmitState(p.syms, map[], 0);
    ResBytes(HiddenConfig, SegmentOf(p.segs, p.prog[0]), p.syms, p.prog[0], "CODE_BASE", 5);
    ZerosWritten(map[], p.prog[0].emitAddress, 5);
    assert EmitAt(HiddenConfig, p, 1).errors == 0;
    assert EmitAt(HiddenConfig, p, 2) == EmitAt(HiddenConfig, p, 1);
  }

  lemma HiddenRead(syms: Symtab)
    requires HIDDEN in syms && syms[HIDDEN] == Plain(5)
    ensures forall pc :: Eval(Ident("CODE_BASE"), syms, "", FILE, pc) == Ok(5)
  {
  }

  lemma HiddenPlaced(c: Context)
    requires HiddenProgram(c) && Pass1(HiddenConfig, c).errors == c.errors
    ensures var p := Pass1(HiddenConfig, c).prog;
            |p| == 2 && p[0].active && p[0].emitAddress == 2 && p[0].kind == c.prog[0].kind && p[0].file == FILE &&
            p[0].scope == "" &&
            p[1].kind.Const? && p[1].kind.assign == Normal
  {
    StartPlain(HiddenConfig, c);
    HiddenWalk(c);
    hide Pass1, Start, Step, Laid, Eval;
    LaidStays(HiddenConfig, c, 0);
    LaidStays(HiddenConfig, c, 1);
    LaidAt(HiddenConfig, c, 0);
    LaidShape(HiddenConfig, Start(HiddenConfig, c), c.prog[0]);
  }

  /** The published base sizes the reservation in pass 1, the private name in pass 2; neither pass reports an error. */
  lemma HiddenNameDiffers(c: Context)
    requires HiddenProgram(c)
    ensures Settled(HiddenConfig, c) && SizesMatch(c.prog)
    ensures Pass1(HiddenConfig, c).errors == c.errors && Pass2(HiddenConfig, Pass1(HiddenConfig, c)).errors == c.errors
    ensures |BytesOf(HiddenConfig, Pass1(HiddenConfig, c), 0)| == 5 && Room(MotionOf(HiddenConfig, c, 0)) == 2
  {
    hide *;
    HiddenErrors(c);
    HiddenEmits(c);
    HiddenMotion(c);
    HiddenSizes(c);
    FiveZeros();
  }

  lemma FiveZeros()
    ensures |Fill(5, 0)| == 5 && Room(Grow(2)) == 2
  {
  }

  lemma HiddenSizes(c: Context)
    requires HiddenProgram(c)
    ensures SizesMatch(c.prog) && c.errors == 0 && |c.prog| == 2
  {
  }

  lemma HiddenMotion(c: Context)
    requires HiddenProgram(c)
    ensures MotionOf(HiddenConfig, c, 0) == Grow(2)
  {
    HiddenWalk(c);
    hide MotionOf, Start, At, Laid;
  }

  // ---- an equate over a `.set` variable

  const VariableConfig := PlainConfig([DEFAULT_SEGMENT])
  const V := InFile(FILE, "v")
  const N := InFile(FILE, "n")

  /** `v .set 1`, `n = v`, `.res n`, `v .set 2` in the default segment, as an earlier pass left its size. */
  predicate VariableProgram(c: Context) {
    |c.prog| == 4 && Assigns(c.prog[0], DEFAULT_SEGMENT, "v", Number(1), SetVar) &&
    Assigns(c.prog[1], DEFAULT_SEGMENT, "n", Ident("v"), Normal) &&
    TinySignature.Line(c.prog[2], DEFAULT_SEGMENT, DRes, Ident("n")) &&
    Assigns(c.prog[3], DEFAULT_SEGMENT, "v", Number(2), SetVar) && c.errors == 0 && c.segs.Keys == {DEFAULT_SEGMENT} &&
    c.segs[DEFAULT_SEGMENT].base == 0 && c.segs[DEFAULT_SEGMENT].usedSize == 1
  }

  lemma NameEval(name: string, t: Symtab, v: int)
    requires !IsLocal(name) && InFile(FILE, name) in t && t[InFile(FILE, name)].defined
    requires t[InFile(FILE, name)].value == v
    ensures forall pc :: Eval(Ident(name), t, "", FILE, pc) == Ok(v)
  {
  }

  predicate Marked(p: Stmt, s: Stmt) {
    p.active && p.file == FILE && p.scope == "" && p.segment == DEFAULT_SEGMENT &&
    p.kind == if s.kind.Const? then s.kind.(applied := true) else s.kind
  }

  /** The walk's states. */
  lemma VariableWalk(c: Context)
    requires VariableProgram(c)
    ensures var st := Start(VariableConfig, c);
            DEFAULT_SEGMENT in st.segs && st.stack == [] && st.errors == 0 && StateBefore(c, 4).stack == [] &&
            forall i :: 0 <= i <= 4 ==> At(VariableConfig, st, c.prog, i) == StateBefore(c, i)
    ensures forall i :: 0 <= i < 4 ==> Marked(Laid(VariableConfig, Start(VariableConfig, c), c.prog, i), c.prog[i])
  {
    hide At, Step, Start, Marked, StateBefore, Laid;
    StateFacts(c);
    StartIsFirst(VariableConfig, c);
    VariableFirst(c);
    LaidAt(VariableConfig, c, 0);
    VariableSecond(c);
    LaidAt(VariableConfig, c, 1);
    VariableThird(c);
    LaidAt(VariableConfig, c, 2);
    VariableFourth(c);
    LaidAt(VariableConfig, c, 3);
  }

  /** The state in front of line `i`. */
  function StateBefore(c: Context, i: nat): State
    requires VariableProgram(c) && i <= 4
  {
    var st := Start(VariableConfig, c);
    StateFacts0(c);
    var g := st.segs[DEFAULT_SEGMENT := Advance(st.segs[DEFAULT_SEGMENT], 1)];
    if i == 0 then st
    else if i == 1 then st.(syms := st.syms[V := Variable(1)])
    else if i == 2 then st.(syms := st.syms[V := Variable(1)][N := Plain(1)])
    else if i == 3 then st.(syms := st.syms[V := Variable(1)][N := Plain(1)], segs := g)
    else st.(syms := st.syms[V := Variable(1)][N := Plain(1)][V := Variable(2)], segs := g)
  }

  lemma StateFacts0(c: Context)
    requires VariableProgram(c)
    ensures DEFAULT_SEGMENT in Start(VariableConfig, c).segs
  {
    StartPlain(VariableConfig, c);
    hide Start;
  }

  lemma StateFacts(c: Context)
    requires VariableProgram(c)
    ensures StateBefore(c, 0) == Start(VariableConfig, c) && DEFAULT_SEGMENT in StateBefore(c, 0).segs
    ensures forall i :: 0 <= i <= 4 ==> StateBefore(c, i).stack == [] && StateBefore(c, i).errors == 0
    ensures forall k :: k in StateBefore(c, 0).syms ==> k.Global? && !StateBefore(c, 0).syms[k].mutable
  {
    StartPlain(VariableConfig, c);
    hide Start;
  }

  lemma VariableFirst(c: Context)
    requires VariableProgram(c)
    ensures Step(VariableConfig, StateBefore(c, 0), c.prog[0]).0 == StateBefore(c, 1)
    ensures Marked(Step(VariableConfig, StateBefore(c, 0), c.prog[0]).1, c.prog[0])
  {
    StartPlain(VariableConfig, c);
    StateFacts(c);
    hide Start, Step, Eval;
    var st := StateBefore(c, 0);
    NumberEval(1);
    AssignStep(VariableConfig, st, c.prog[0], DEFAULT_SEGMENT, "v", Number(1), SetVar, 1, st.syms[V := Declared.(mutable := true)]);
  }

  lemma VariableSecond(c: Context)
    requires VariableProgram(c)
    ensures Step(VariableConfig, StateBefore(c, 1), c.prog[1]).0 == StateBefore(c, 2)
    ensures Marked(Step(VariableConfig, StateBefore(c, 1), c.prog[1]).1, c.prog[1])
  {
    StartPlain(VariableConfig, c);
    StateFacts(c);
    hide Start, Step, Eval;
    var st := StateBefore(c, 1);
    NameEval("v", st.syms[N := Declared], 1);
    AssignStep(VariableConfig, st, c.prog[1], DEFAULT_SEGMENT, "n", Ident("v"), Normal, 1, st.syms[N := Declared]);
  }

  lemma VariableThird(c: Context)
    requires VariableProgram(c)
    ensures Step(VariableConfig, StateBefore(c, 2), c.prog[2]).0 == StateBefore(c, 3)
    ensures Marked(Step(VariableConfig, StateBefore(c, 2), c.prog[2]).1, c.prog[2])
    ensures Step(VariableConfig, StateBefore(c, 2), c.prog[2]).1.emitAddress == 0
  {
    StartPlain(VariableConfig, c);
    StateFacts(c);
    hide Start, Step, Eval;
    var st := StateBefore(c, 2);
    NameEval("n", st.syms, 1);
    TinySignature.LineStep(VariableConfig, st, c.prog[2], DEFAULT_SEGMENT, DRes, Ident("n"), 1);
    LaidShape(VariableConfig, st, c.prog[2]);
  }

  lemma VariableFourth(c: Context)
    requires VariableProgram(c)
    ensures Step(VariableConfig, StateBefore(c, 3), c.prog[3]).0 == StateBefore(c, 4)
    ensures Marked(Step(VariableConfig, StateBefore(c, 3), c.prog[3]).1, c.prog[3])
  {
    StartPlain(VariableConfig, c);
    StateFacts(c);
    hide Start, Step, Eval;
    var st := StateBefore(c, 3);
    NumberEval(2);
    assert st.syms[V := st.syms[V]] == st.syms;
    AssignStep(VariableConfig, st, c.prog[3], DEFAULT_SEGMENT, "v", Number(2), SetVar, 2, st.syms);
  }

  lemma {:induction false} NothingUnresolved(cfg: Config, syms: Symtab, prog: seq<Stmt>, n: nat)
    requires n <= |prog|
    requires forall i :: 0 <= i < |prog| && Deferred(prog[i]) ==>
               SymbolValue(syms, StorageKey(cfg, prog[i], prog[i].kind.name)).Ok?
    ensures CheckErrors(cfg, syms, prog, n) == 0
  {
    hide StorageKey, Eval;
    if n > 0 { NothingUnresolved(cfg, syms, prog, n - 1); }
  }

  /** The sweeps read the variable's last value. */
  lemma VariableFinal(c: Context)
    requires VariableProgram(c)
    ensures SizesHold(VariableConfig, c) && FinalSyms(VariableConfig, c) == StateBefore(c, 4).syms[N := Plain(2)]
    ensures |c.prog| == 4 && Walked(VariableConfig, c) == StateBefore(c, 4)
  {
    hide *;
    VariableWalk(c);
    VariableLength(c);
    VariableSizes(c);
    WalkedIs(VariableConfig, c);
    RepublishedSame(VariableConfig, c);
    VariableEntries(c);
    VariableMarks(c);
    var w, prog := StateBefore(c, 4).syms, LaidProg(VariableConfig, c);
    VariableNames();
    VariableSweep(c, prog, w, 1);
    VariableSweep(c, prog, w[N := Plain(2)], 2);
    assert w[N := Plain(2)][N := Plain(2)] == w[N := Plain(2)];
    SweptOnce(VariableConfig, c, w, w[N := Plain(2)]);
  }

  lemma VariableNames()
    ensures V != N && Plain(2).defined
  {
  }

  lemma VariableLength(c: Context)
    requires VariableProgram(c)
    ensures |c.prog| == 4 && c.errors == 0
  {
  }

  lemma VariableMarks(c: Context)
    requires VariableProgram(c)
    ensures |LaidProg(VariableConfig, c)| == 4 && forall i :: 0 <= i < 4 ==>
              Marked(LaidProg(VariableConfig, c)[i], c.prog[i])
  {
    VariableWalk(c);
    hide Start, At, Laid, LaidProg, StateBefore, Marked;
    forall i | 0 <= i < 4
      ensures |LaidProg(VariableConfig, c)| == 4 && Marked(LaidProg(VariableConfig, c)[i], c.prog[i])
    {
      LaidProgAt(VariableConfig, c, i);
    }
    assert |LaidProg(VariableConfig, c)| == 4 by { LaidLength(VariableConfig, c); }
  }

  lemma VariableSizes(c: Context)
    requires VariableProgram(c) && At(VariableConfig, Start(VariableConfig, c), c.prog, 4) == StateBefore(c, 4)
    ensures SizesHold(VariableConfig, c)
  {
    StartPlain(VariableConfig, c);
    hide Start, At;
  }

  lemma VariableEntries(c: Context)
    requires VariableProgram(c)
    ensures var w := StateBefore(c, 4).syms; V in w && w[V] == Variable(2) && N in w && w[N] == Plain(1)
    ensures forall k :: k in StateBefore(c, 4).syms && k.Global? ==> !StateBefore(c, 4).syms[k].mutable
  {
    StartPlain(VariableConfig, c);
    hide Start;
  }

  lemma VariableSweep(c: Context, prog: seq<Stmt>, w: Symtab, n: int)
    requires VariableProgram(c) && |prog| == 4 && V in w && w[V] == Variable(2) && N in w && w[N] == Plain(n)
    requires forall i :: 0 <= i < 4 ==> Marked(prog[i], c.prog[i])
    ensures Sweep(VariableConfig, w, prog, 4) == w[N := Plain(2)]
  {
    NameEval("v", w, 2);
    hide Eval;
    assert Sweep(VariableConfig, w, prog, 1) == w;
    assert Sweep(VariableConfig, w, prog, 2) == w[N := Plain(2)];
    assert Sweep(VariableConfig, w, prog, 3) == w[N := Plain(2)];
  }

  lemma VariableErrors(c: Context)
    requires VariableProgram(c)
    ensures Pass1(VariableConfig, c).errors == 0 && Settled(VariableConfig, c)
  {
    hide *;
    VariableLength(c);
    VariableFinal(c);
    VariableMarks(c);
    VariableEntries(c);
    StateFacts(c);
    PassErrorsAre(VariableConfig, c);
    VariableNames();
    VariableResolved(c, FinalSyms(VariableConfig, c), LaidProg(VariableConfig, c));
    NothingUnresolved(VariableConfig, FinalSyms(VariableConfig, c), LaidProg(VariableConfig, c), 4);
    SettledFrom(VariableConfig, c);
  }

  lemma SettledFrom(cfg: Config, c: Context)
    requires Pass1(cfg, c).errors == c.errors && SizesHold(cfg, c)
    ensures Settled(cfg, c)
  {
    hide Pass1, SizesHold;
  }

  lemma VariableResolved(c: Context, syms: Symtab, prog: seq<Stmt>)
    requires VariableProgram(c) && |prog| == 4 && forall i :: 0 <= i < 4 ==> Marked(prog[i], c.prog[i])
    requires N in syms && syms[N].defined
    ensures forall i :: 0 <= i < |prog| && Deferred(prog[i]) ==>
              SymbolValue(syms, StorageKey(VariableConfig, prog[i], prog[i].kind.name)).Ok?
  {
  }

  // ---- its bytes

  lemma VariablePlaced(c: Context)
    requires VariableProgram(c)
    ensures var p := Pass1(VariableConfig, c).prog;
            |p| == 4 && p[2].emitAddress == 0 && forall i :: 0 <= i < 4 ==> Marked(p[i], c.prog[i])
  {
    hide *;
    VariableLength(c);
    VariableErrors(c);
    VariableWalk(c);
    VariableThird(c);
    LaidAt(VariableConfig, c, 2);
    VariableKept(c, 0);
    VariableKept(c, 1);
    VariableKept(c, 2);
    VariableKept(c, 3);
  }

  lemma VariableKept(c: Context, i: nat)
    requires VariableProgram(c) && i < 4 && Marked(Laid(VariableConfig, Start(VariableConfig, c), c.prog, i), c.prog[i])
    ensures var p := Pass1(VariableConfig, c).prog;
            |p| == 4 && Marked(p[i], c.prog[i]) &&
            p[i].emitAddress == Laid(VariableConfig, Start(VariableConfig, c), c.prog, i).emitAddress
  {
    LaidStays(VariableConfig, c, i);
    hide Pass1, Laid, Start;
  }

  lemma SetVarStep(c: Context, st: EmitState, p: Stmt, s: Stmt, v: int)
    requires Marked(p, s) && Assigns(s, DEFAULT_SEGMENT, "v", Number(v), SetVar) && V in st.syms && st.syms[V].mutable
    ensures p.kind.Const? && SetStep(VariableConfig, st, p) == st.(syms := st.syms[V := Variable(v)])
  {
  }

  lemma VariableEmits(c: Context)
    requires VariableProgram(c)
    ensures var p := Pass1(VariableConfig, c);
            |p.prog| == 4 && Pass2(VariableConfig, p).errors == 0 && BytesOf(VariableConfig, p, 2) == Fill(2, 0)
  {
    VariablePlaced(c);
    VariableErrors(c);
    VariableFinal(c);
    VariableEntries(c);
    PassSyms(VariableConfig, c);
    var p := Pass1(VariableConfig, c);
    var f := Forget(p.syms);
    hide Pass1, FinalSyms, Start, StmtBytes, Write, Fill, Eval, Settled, StateBefore, Walked, SetStep, SizesHold;
    var e0 := EmitState(f, map[], 0);
    var e1 := EmitState(f[V := Variable(1)], map[], 0);
    SetVarStep(c, e0, p.prog[0], c.prog[0], 1);
    assert EmitAt(VariableConfig, p, 0) == e0;
    assert EmitAt(VariableConfig, p, 1) == e1;
    NormalSilent(VariableConfig, e1, p.prog[1]);
    assert EmitAt(VariableConfig, p, 2) == e1;
    NameEval("n", e1.syms, 2);
    ResBytes(VariableConfig, SegmentOf(p.segs, p.prog[2]), e1.syms, p.prog[2], "n", 2);
    ZerosWritten(map[], 0, 2);
    var e3 := EmitAt(VariableConfig, p, 3);
    assert e3.errors == 0 && e3.syms == e1.syms;
    SetVarStep(c, e3, p.prog[3], c.prog[3], 2);
  }

  lemma NormalSilent(cfg: Config, st: EmitState, s: Stmt)
    requires s.kind.Const? && s.kind.assign == Normal
    ensures SetStep(cfg, st, s) == st
  {
  }

  lemma VariableMotion(c: Context)
    requires VariableProgram(c)
    ensures MotionOf(VariableConfig, c, 2) == Grow(1) && SizesMatch(c.prog)
  {
    hide *;
    VariableWalk(c);
    StateFacts(c);
    VariableNamesFree(c);
    VariableLine(c);
    LineMotionOf(c, StateBefore(c, 2));
  }

  lemma VariableLine(c: Context)
    requires VariableProgram(c)
    ensures |c.prog| == 4 && TinySignature.Line(c.prog[2], DEFAULT_SEGMENT, DRes, Ident("n")) && SizesMatch(c.prog)
  {
  }

  lemma LineMotionOf(c: Context, st: State)
    requires 2 < |c.prog| && At(VariableConfig, Start(VariableConfig, c), c.prog, 2) == st && st.stack == []
    requires TinySignature.Line(c.prog[2], DEFAULT_SEGMENT, DRes, Ident("n")) && DEFAULT_SEGMENT in st.segs
    requires AfterNames(VariableConfig, st, c.prog[2]) == st && forall pc :: Eval(Ident("n"), st.syms, "", FILE, pc) == Ok(1)
    ensures MotionOf(VariableConfig, c, 2) == Grow(1)
  {
    hide Start, At, Eval, StmtMotion, AfterNames, LogicalPc;
    var g := st.segs[DEFAULT_SEGMENT];
    TinySignature.LineMotion(VariableConfig, g, st.syms, c.prog[2], DEFAULT_SEGMENT, DRes, Ident("n"), 1, LogicalPc(g));
  }

  lemma VariableNamesFree(c: Context)
    requires VariableProgram(c)
    ensures DEFAULT_SEGMENT in StateBefore(c, 2).segs
    ensures AfterNames(VariableConfig, StateBefore(c, 2), c.prog[2]) == StateBefore(c, 2)
    ensures forall pc :: Eval(Ident("n"), StateBefore(c, 2).syms, "", FILE, pc) == Ok(1)
  {
    StateFacts0(c);
    NameEval("n", StateBefore(c, 2).syms, 1);
    hide Start, Eval;
  }

  /** The walk reserves by the variable's value at the equate, pass 2 by its last one; neither pass reports an error. */
  lemma VariableDiffers(c: Context)
    requires VariableProgram(c)
    ensures Settled(VariableConfig, c) && SizesMatch(c.prog) && |c.prog| == 4
    ensures Pass1(VariableConfig, c).errors == c.errors
    ensures Pass2(VariableConfig, Pass1(VariableConfig, c)).errors == c.errors
    ensures |BytesOf(VariableConfig, Pass1(VariableConfig, c), 2)| == 2 && Room(MotionOf(VariableConfig, c, 2)) == 1
  {
    hide *;
    VariableLength(c);
    VariableErrors(c);
    VariableEmits(c);
    VariableMotion(c);
    TwoZeros();
  }

  lemma TwoZeros()
    ensures |Fill(2, 0)| == 2 && Room(Grow(1)) == 1
  {
  }

}
