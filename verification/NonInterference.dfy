/** Control that does not look at the layout: two layout passes over programs that differ only in
    instruction forms take the same branches and reserve the same room for everything else. */
module NonInterference {
  import opened Support
  import opened Expressions
  import opened Opcodes
  import opened Program
  import opened Layout
  import opened Agreement

  /** The statement with everything a pass or the relaxer may rewrite blanked out. */
  function Skeleton(s: Stmt): Stmt {
    var k := match s.kind
      case Insn(_, _, _, _, _, _) => s.kind.(mode := Implied, size := 0)
      case Const(_, _, _, _) => s.kind.(applied := true)
      case _ => s.kind;
    s.(kind := k, address := 0, emitAddress := 0, rorgActive := false, active := true)
  }

  predicate SameShape(p: seq<Stmt>, q: seq<Stmt>) {
    |p| == |q| && forall i :: 0 <= i < |p| ==> Skeleton(p[i]) == Skeleton(q[i])
  }

  predicate AllOver(d: set<Key>, s: Stmt, args: seq<Expr>) {
    forall i :: 0 <= i < |args| ==> Over(d, s.scope, s.file, args[i])
  }

  predicate NamesOver(cfg: Config, d: set<Key>, s: Stmt, args: seq<Expr>) {
    forall i :: 0 <= i < |args| && args[i].Ident? ==>
      StorageKey(cfg, s, args[i].name) in d && Global(args[i].name) in d
  }

  /** `s` decides nothing by the layout: what steers the pass mentions only names in `d`, and no
      label or procedure defines such a name. Logical origins are excluded. */
  predicate LayoutFree(cfg: Config, d: set<Key>, s: Stmt) {
    && (s.labelName.Some? ==> StorageKey(cfg, s, s.labelName.value) !in d)
    && (ProcName(s).Some? ==> StorageKey(cfg, s, ProcName(s).value) !in d)
    && (s.kind.Const? && StorageKey(cfg, s, s.kind.name) in d ==> Over(d, s.scope, s.file, s.kind.expr))
    && (s.kind.Dir? ==>
         match s.kind.dir.name
         case DIf | DElif | DRes | DAlign | DOrg => AllOver(d, s, s.kind.dir.args)
         case DIfdef | DIfndef | DElifdef | DElifndef => NamesOver(cfg, d, s, s.kind.dir.args)
         case DRorg | DRend => false
         case _ => true)
  }

  predicate AllLayoutFree(cfg: Config, d: set<Key>, prog: seq<Stmt>) {
    forall i :: 0 <= i < |prog| ==> LayoutFree(cfg, d, prog[i])
  }

  predicate SegsRelated(s: map<string, Segment>, t: map<string, Segment>) {
    s.Keys == t.Keys && forall n :: n in s ==>
      s[n].base == t[n].base && s[n].capacity == t[n].capacity && !s[n].rorgActive && !t[n].rorgActive
  }

  predicate SymsRelated(d: set<Key>, s: Symtab, t: Symtab) { Agree(d, s, t) && SameMutability(s, t) }

  predicate Related(d: set<Key>, s: State, t: State) {
    s.stack == t.stack && SegsRelated(s.segs, t.segs) && SymsRelated(d, s.syms, t.syms)
  }

  lemma SkeletonKeys(cfg: Config, s: Stmt, t: Stmt, name: string)
    requires Skeleton(s) == Skeleton(t)
    ensures StorageKey(cfg, s, name) == StorageKey(cfg, t, name) && s.segment == t.segment && s.scope == t.scope
    ensures s.file == t.file
    ensures s.labelName == t.labelName && ProcName(s) == ProcName(t) && s.kind.Dir? == t.kind.Dir?
    ensures s.kind.Dir? ==> s.kind == t.kind
    ensures s.kind.Const? <==> t.kind.Const?
    ensures s.kind.Const? ==> s.kind.name == t.kind.name && s.kind.expr == t.kind.expr && s.kind.assign == t.kind.assign
    ensures s.kind.Insn? <==> t.kind.Insn?
    ensures IsConditionalStmt(s) <==> IsConditionalStmt(t)
  {
    if s.kind.Dir? { assert Skeleton(s).kind == s.kind && Skeleton(t).kind == t.kind; }
  }

  lemma JudgeAgrees(cfg: Config, d: set<Key>, s: Stmt, dir: Directive, pc: int, pc': int, parent: bool, x: Symtab,
      y: Symtab)
    requires SymsRelated(d, x, y) && IsConditional(dir.name)
    requires TestsExpression(dir.name) ==> AllOver(d, s, dir.args)
    requires !TestsExpression(dir.name) && dir.name != DElse && dir.name != DEndif ==> NamesOver(cfg, d, s, dir.args)
    requires dir.name != DElse && dir.name != DEndif
    ensures Judge(cfg, x, s, dir, pc, parent) == Judge(cfg, y, s, dir, pc', parent)
  {
    hide StorageKey;
    if WellShaped(dir) {
      var e := SingleArg(dir).value;
      assert e == dir.args[0];
      if TestsExpression(dir.name) {
        hide Eval;
        EvalAgrees(d, e, x, y, s.scope, s.file, pc, pc');
      }
    }
  }

  lemma CondAgrees(cfg: Config, d: set<Key>, s: Stmt, pc: int, pc': int, st: State, st': State)
    requires Related(d, st, st') && IsConditionalStmt(s) && LayoutFree(cfg, d, s)
    ensures Related(d, CondStep(cfg, st, s, s.kind.dir, pc), CondStep(cfg, st', s, s.kind.dir, pc'))
  {
    var dir := s.kind.dir;
    hide Judge, WellShaped, StorageKey, AllOver, NamesOver;
    if dir.name != DElse && dir.name != DEndif {
      JudgeAgrees(cfg, d, s, dir, pc, pc', CurrentActive(st.stack), st.syms, st'.syms);
      JudgeAgrees(cfg, d, s, dir, pc, pc', true, st.syms, st'.syms);
    }
  }

  lemma DeclareAgrees(cfg: Config, d: set<Key>, st: State, st': State, s: Stmt, name: Option<string>, g: Segment,
      g': Segment)
    requires Related(d, st, st') && (name.Some? ==> StorageKey(cfg, s, name.value) !in d)
    ensures Related(d, DeclareAddress(cfg, st, s, name, g), DeclareAddress(cfg, st', s, name, g'))
  {
    hide StorageKey;
  }

  lemma DeclareSame(cfg: Config, st: State, s: Stmt, t: Stmt, name: Option<string>, g: Segment)
    requires Skeleton(s) == Skeleton(t)
    ensures DeclareAddress(cfg, st, s, name, g) == DeclareAddress(cfg, st, t, name, g)
  {
    if name.Some? { SkeletonKeys(cfg, s, t, name.value); }
  }

  lemma NamesAgree(cfg: Config, d: set<Key>, st: State, st': State, s: Stmt, t: Stmt)
    requires Related(d, st, st') && LayoutFree(cfg, d, s) && Skeleton(s) == Skeleton(t) && s.segment in st.segs
    ensures t.segment in st'.segs && Related(d, AfterNames(cfg, st, s), AfterNames(cfg, st', t))
  {
    SkeletonKeys(cfg, s, t, "");
    hide StorageKey, ProcName, Related, DeclareAddress;
    var g, g' := st.segs[s.segment], SegAt(st', s.segment, st, d);
    DeclareAgrees(cfg, d, st, st', s, s.labelName, g, g');
    DeclareSame(cfg, st', s, t, s.labelName, g');
    var u, u' := DeclareAddress(cfg, st, s, s.labelName, g), DeclareAddress(cfg, st', t, t.labelName, g');
    DeclareAgrees(cfg, d, u, u', s, ProcName(s), g, g');
    DeclareSame(cfg, u', s, t, ProcName(s), g');
  }

  function SegAt(st': State, name: string, st: State, d: set<Key>): Segment
    requires Related(d, st, st') && name in st.segs
  {
    st'.segs[name]
  }

  lemma ConstAgrees(cfg: Config, d: set<Key>, st: State, st': State, s: Stmt, t: Stmt, pc: int, pc': int)
    requires Related(d, st, st') && s.kind.Const? && LayoutFree(cfg, d, s) && Skeleton(s) == Skeleton(t)
    ensures t.kind.Const? && Related(d, ConstStep(cfg, st, s, pc).0, ConstStep(cfg, st', t, pc').0)
    ensures ConstStep(cfg, st, s, pc).1 == ConstStep(cfg, st', t, pc').1
  {
    hide Eval, StorageKey, Over, Skeleton, ConstStep, LayoutFree;
    SkeletonKeys(cfg, s, t, s.kind.name);
    var k := StorageKey(cfg, s, s.kind.name);
    var blank := if s.kind.assign == SetVar then Declared.(mutable := true) else Declared;
    var x := st.syms[k := if k in st.syms then st.syms[k] else blank];
    var y := st'.syms[k := if k in st'.syms then st'.syms[k] else blank];
    assert Agree(d, x, y);
    if k in d {
      FreeConst(cfg, d, s);
      EvalAgrees(d, s.kind.expr, x, y, s.scope, s.file, pc, pc');
    }
    ConstResult(cfg, st, s, pc);
    ConstResult(cfg, st', t, pc');
  }

  lemma FreeConst(cfg: Config, d: set<Key>, s: Stmt)
    requires LayoutFree(cfg, d, s) && s.kind.Const? && StorageKey(cfg, s, s.kind.name) in d
    ensures Over(d, s.scope, s.file, s.kind.expr)
  {
    hide StorageKey, Over, ProcName;
  }

  /** What process_const_statement_pass1 leaves in the table. */
  lemma ConstResult(cfg: Config, st: State, s: Stmt, pc: int)
    requires s.kind.Const?
    ensures var k := StorageKey(cfg, s, s.kind.name);
            var r := ConstStep(cfg, st, s, pc);
            var blank := if s.kind.assign == SetVar then Declared.(mutable := true) else Declared;
            var sym := if k in st.syms then st.syms[k] else blank;
            var v := Eval(s.kind.expr, st.syms[k := sym], s.scope, s.file, pc);
            var skip := k in st.syms && !(s.kind.assign == SetVar && sym.mutable);
            r.0.segs == st.segs && r.0.stack == st.stack &&
            r.0.syms == (if skip then st.syms else st.syms[k := AssignIfKnown(sym, v)]) &&
            r.1 == !(s.kind.assign == Default && skip)
  {
    hide Eval, StorageKey;
  }

  /** Motions of two runs: identical except for instructions and alignment. */
  predicate MotionsMatch(s: Stmt, t: Stmt, m: Motion, m': Motion) {
    if s.kind.Insn? then t.kind.Insn? && m == Grow(s.kind.size) && m' == Grow(t.kind.size)
    else if s.kind.Dir? && s.kind.dir.name == DAlign then
      !m.Jump? && !m.StartLogical? && !m.EndLogical? && !m'.Jump? && !m'.StartLogical? && !m'.EndLogical?
    else m == m' && (m.Keep? || m.Fail? || m.Grow? || (m.Jump? && s.kind.Dir? && s.kind.dir.name == DOrg))
  }

  lemma MotionAgrees(cfg: Config, d: set<Key>, x: Symtab, y: Symtab, s: Stmt, t: Stmt, g: Segment, g': Segment,
      pc: int, pc': int)
    requires SymsRelated(d, x, y) && LayoutFree(cfg, d, s) && Skeleton(s) == Skeleton(t) && !IsConditionalStmt(s)
    requires g.base == g'.base && !g.rorgActive && !g'.rorgActive
    ensures MotionsMatch(s, t, StmtMotion(cfg, g, x, s, pc), StmtMotion(cfg, g', y, t, pc'))
  {
    hide StorageKey, Skeleton, LayoutFree, SymsRelated, DirMotion, ProcName;
    SkeletonKeys(cfg, s, t, "");
    FreeShape(cfg, d, s);
    if s.kind.Dir? {
      if s.kind.dir.name == DAlign {
        AlignKinds(cfg, g, x, s, s.kind.dir, pc);
        AlignKinds(cfg, g', y, t, s.kind.dir, pc');
      } else if s.kind.dir.name == DRes {
        ResMotion(cfg, d, x, y, s, t, g, g', pc, pc');
      } else if s.kind.dir.name == DOrg {
        OrgMotion(cfg, d, x, y, s, t, g, g', pc, pc');
      } else {
        PlainMotion(cfg, x, y, s, t, s.kind.dir, g, g', pc, pc');
      }
    }
  }

  lemma AlignKinds(cfg: Config, g: Segment, x: Symtab, s: Stmt, d: Directive, pc: int)
    requires d.name == DAlign
    ensures var m := DirMotion(cfg, g, x, s, d, pc); m.Fail? || m.AlignTo? || m.Grow?
  {
    hide Arg, AlignPadding, PowerOfTwoTest;
  }

  lemma ResMotion(cfg: Config, d: set<Key>, x: Symtab, y: Symtab, s: Stmt, t: Stmt, g: Segment, g': Segment, pc: int,
      pc': int)
    requires SymsRelated(d, x, y) && LayoutFree(cfg, d, s) && s.kind.Dir? && s.kind.dir.name == DRes
    requires t.scope == s.scope && t.file == s.file
    ensures var m := DirMotion(cfg, g, x, s, s.kind.dir, pc);
            (m.Fail? || m.Grow?) && DirMotion(cfg, g', y, t, s.kind.dir, pc') == m
  {
    hide Eval, LayoutFree, SymsRelated;
    if |s.kind.dir.args| == 1 { ArgAgrees(cfg, d, x, y, s, 0, pc, pc'); }
  }

  /** An origin over layout-free names jumps to the same offset. */
  lemma OrgMotion(cfg: Config, d: set<Key>, x: Symtab, y: Symtab, s: Stmt, t: Stmt, g: Segment, g': Segment, pc: int,
      pc': int)
    requires SymsRelated(d, x, y) && LayoutFree(cfg, d, s) && s.kind.Dir? && s.kind.dir.name == DOrg
    requires t.scope == s.scope && t.file == s.file
    requires g.base == g'.base && !g.rorgActive && !g'.rorgActive
    ensures var m := DirMotion(cfg, g, x, s, s.kind.dir, pc);
            (m.Fail? || m.Jump?) && DirMotion(cfg, g', y, t, s.kind.dir, pc') == m
  {
    hide Eval, LayoutFree, SymsRelated;
    if |s.kind.dir.args| == 1 { ArgAgrees(cfg, d, x, y, s, 0, pc, pc'); }
  }

  /** An argument of a directive that steers the layout. */
  lemma ArgAgrees(cfg: Config, d: set<Key>, x: Symtab, y: Symtab, s: Stmt, j: nat, pc: int, pc': int)
    requires SymsRelated(d, x, y) && LayoutFree(cfg, d, s) && s.kind.Dir? && j < |s.kind.dir.args|
    requires s.kind.dir.name == DRes || s.kind.dir.name == DAlign || s.kind.dir.name == DOrg
    ensures Eval(s.kind.dir.args[j], x, s.scope, s.file, pc) == Eval(s.kind.dir.args[j], y, s.scope, s.file, pc')
  {
    hide StorageKey, ProcName, Eval, Over;
    EvalAgrees(d, s.kind.dir.args[j], x, y, s.scope, s.file, pc, pc');
  }

  /** Directives whose size is plain text. */
  lemma PlainMotion(cfg: Config, x: Symtab, y: Symtab, s: Stmt, t: Stmt, d: Directive, g: Segment, g': Segment,
      pc: int, pc': int)
    requires d.name != DOrg && d.name != DRorg && d.name != DRend && d.name != DAlign && d.name != DRes
    requires ProcName(s) == ProcName(t)
    ensures var m := DirMotion(cfg, g, x, s, d, pc);
            (m.Keep? || m.Fail? || m.Grow?) && DirMotion(cfg, g', y, t, d, pc') == m
  {
    hide DecodeString, ProcName;
  }

  lemma FreeShape(cfg: Config, d: set<Key>, s: Stmt)
    requires LayoutFree(cfg, d, s)
    ensures s.kind.Dir? ==> s.kind.dir.name != DRorg && s.kind.dir.name != DRend
  {
    hide StorageKey, Over, ProcName;
  }

  /** One step of both runs. */
  lemma StepAgrees(cfg: Config, d: set<Key>, st: State, st': State, s: Stmt, t: Stmt)
    requires Related(d, st, st') && LayoutFree(cfg, d, s) && Skeleton(s) == Skeleton(t)
    ensures Related(d, Step(cfg, st, s).0, Step(cfg, st', t).0)
    ensures s.segment in st.segs ==> Step(cfg, st, s).1.active == Step(cfg, st', t).1.active
    ensures s.kind.Const? && s.segment in st.segs && CurrentActive(st.stack) ==>
              Step(cfg, st, s).1.kind.applied == Step(cfg, st', t).1.kind.applied
  {
    hide CondStep, ConstStep, AfterNames, StmtMotion, LogicalPc, LayoutFree, Skeleton, StorageKey, SymsRelated;
    SkeletonKeys(cfg, s, t, "");
    if s.segment in st.segs {
      var pc, pc' := LogicalPc(st.segs[s.segment]), LogicalPc(st'.segs[s.segment]);
      if IsConditionalStmt(s) {
        CondAgrees(cfg, d, s, pc, pc', st, st');
        CondSame(cfg, st', s, t, pc');
      } else if CurrentActive(st.stack) {
        NamesAgree(cfg, d, st, st', s, t);
        NamesGrow(cfg, st, s);
        NamesGrow(cfg, st', t);
        var u, u' := AfterNames(cfg, st, s), AfterNames(cfg, st', t);
        if s.kind.Const? {
          ConstAgrees(cfg, d, u, u', s, t, pc, pc');
        } else {
          MotionAgrees(cfg, d, u.syms, u'.syms, s, t, st.segs[s.segment], st'.segs[s.segment], pc, pc');
        }
      }
    }
  }

  lemma CondSame(cfg: Config, st: State, s: Stmt, t: Stmt, pc: int)
    requires IsConditionalStmt(s) && Skeleton(s) == Skeleton(t)
    ensures IsConditionalStmt(t) && CondStep(cfg, st, s, s.kind.dir, pc) == CondStep(cfg, st, t, t.kind.dir, pc)
  {
    SkeletonKeys(cfg, s, t, "");
    forall b { JudgeSame(cfg, st.syms, s, t, pc, b); }
    hide Judge, WellShaped, Skeleton;
  }

  lemma JudgeSame(cfg: Config, syms: Symtab, s: Stmt, t: Stmt, pc: int, parent: bool)
    requires s.kind.Dir? && Skeleton(s) == Skeleton(t)
    ensures t.kind == s.kind
    ensures Judge(cfg, syms, s, s.kind.dir, pc, parent) == Judge(cfg, syms, t, t.kind.dir, pc, parent)
  {
    SkeletonKeys(cfg, s, t, "");
    if SingleArg(s.kind.dir).Some? && SingleArg(s.kind.dir).value.Ident? {
      SkeletonKeys(cfg, s, t, SingleArg(s.kind.dir).value.name);
    }
    hide StorageKey, Eval;
  }

  // ---- whole passes

  predicate NoSizeNames(cfg: Config, d: set<Key>) {
    forall i :: 0 <= i < |cfg.order| ==> Global(cfg.order[i] + "_SIZE") !in d && Global(cfg.order[i] + "_END") !in d
  }

  predicate SegsAlike(s: map<string, Segment>, t: map<string, Segment>) {
    s.Keys == t.Keys && forall n :: n in s ==> s[n].base == t[n].base && s[n].capacity == t[n].capacity
  }

  /** Two contexts over one source program: only instruction forms and earlier sizes may differ. */
  predicate Twins(cfg: Config, d: set<Key>, c: Context, c': Context) {
    SameShape(c.prog, c'.prog) && SegsAlike(c.segs, c'.segs) && NoSizeNames(cfg, d) && AllLayoutFree(cfg, d, c.prog)
  }

  lemma PutAgrees(d: set<Key>, x: Symtab, y: Symtab, name: string, v: int, v': int)
    requires SymsRelated(d, x, y) && (Global(name) in d ==> v == v')
    ensures SymsRelated(d, PutAbs(x, name, v), PutAbs(y, name, v'))
  {
  }

  lemma {:induction false} PublishAgrees(cfg: Config, d: set<Key>, n: nat, s: map<string, Segment>,
      t: map<string, Segment>, x: Symtab, y: Symtab)
    requires n <= |cfg.order| && SegsAlike(s, t) && NoSizeNames(cfg, d) && SymsRelated(d, x, y)
    ensures SymsRelated(d, Publish(cfg.order, n, s, x), Publish(cfg.order, n, t, y))
  {
    hide SymsRelated, PutAbs;
    if n > 0 {
      PublishAgrees(cfg, d, n - 1, s, t, x, y);
      var u, w := Publish(cfg.order, n - 1, s, x), Publish(cfg.order, n - 1, t, y);
      var name := cfg.order[n - 1];
      if name in s {
        PublishOneAgrees(cfg, d, name, s[name], t[name], u, w);
      }
    }
  }

  lemma PublishOneAgrees(cfg: Config, d: set<Key>, name: string, s: Segment, t: Segment, u: Symtab, w: Symtab)
    requires s.base == t.base && s.capacity == t.capacity && SymsRelated(d, u, w)
    requires Global(name + "_SIZE") !in d && Global(name + "_END") !in d
    ensures SymsRelated(d, PublishOne(u, name, s), PublishOne(w, name, t))
  {
    hide SymsRelated, PutAbs;
    PutAgrees(d, u, w, name + "_BASE", s.base, t.base);
    var u1, w1 := PutAbs(u, name + "_BASE", s.base), PutAbs(w, name + "_BASE", t.base);
    PutAgrees(d, u1, w1, name + "_SIZE", s.usedSize, t.usedSize);
    var u2, w2 := PutAbs(u1, name + "_SIZE", s.usedSize), PutAbs(w1, name + "_SIZE", t.usedSize);
    PutAgrees(d, u2, w2, name + "_END", s.base + s.usedSize, t.base + t.usedSize);
    PutAgrees(d, PutAbs(u2, name + "_END", s.base + s.usedSize), PutAbs(w2, name + "_END", t.base + t.usedSize),
              name + "_CAPACITY", s.capacity, t.capacity);
  }

  lemma {:induction false} AtAgrees(cfg: Config, d: set<Key>, c: Context, c': Context, i: nat)
    requires Twins(cfg, d, c, c') && i <= |c.prog|
    ensures Related(d, At(cfg, Start(cfg, c), c.prog, i), At(cfg, Start(cfg, c'), c'.prog, i))
  {
    hide Step, Publish, Skeleton, LayoutFree, SymsRelated;
    if i == 0 {
      assert SymsRelated(d, map[], map[]) by { EmptyRelated(d); }
      PublishAgrees(cfg, d, |cfg.order|, ResetSegments(c.segs), ResetSegments(c'.segs), map[], map[]);
    } else {
      AtAgrees(cfg, d, c, c', i - 1);
      StepAgrees(cfg, d, At(cfg, Start(cfg, c), c.prog, i - 1), At(cfg, Start(cfg, c'), c'.prog, i - 1),
                 c.prog[i - 1], c'.prog[i - 1]);
    }
  }

  lemma EmptyRelated(d: set<Key>)
    ensures SymsRelated(d, map[], map[])
  {
  }

  /** Laid-out statements of both runs: same activity, same role in the sweeps. */
  lemma LaidAgrees(cfg: Config, d: set<Key>, c: Context, c': Context, i: nat)
    requires Twins(cfg, d, c, c') && i < |c.prog| && Pass1(cfg, c).errors == c.errors
    ensures var p, q := Laid(cfg, Start(cfg, c), c.prog, i), Laid(cfg, Start(cfg, c'), c'.prog, i);
            p.active == q.active && p.scope == q.scope && p.file == q.file && p.segment == q.segment &&
            Skeleton(p.(active := true)) == Skeleton(q.(active := true)) && Deferred(p) == Deferred(q)
  {
    hide Step, Start, Pass1, LayoutFree, Skeleton, At, Related;
    AtAgrees(cfg, d, c, c', i);
    UnknownSegment(cfg, c, i);
    LaidAt(cfg, c, i);
    LaidAt(cfg, c', i);
    var st, st' := At(cfg, Start(cfg, c), c.prog, i), At(cfg, Start(cfg, c'), c'.prog, i);
    StepAgrees(cfg, d, st, st', c.prog[i], c'.prog[i]);
    RelatedParts(d, st, st');
    SkeletonKeys(cfg, c.prog[i], c'.prog[i], "");
    LaidShape(cfg, st, c.prog[i]);
    LaidShape(cfg, st', c'.prog[i]);
    LaidSkeleton(cfg, st, c.prog[i]);
    LaidSkeleton(cfg, st', c'.prog[i]);
  }

  lemma RelatedParts(d: set<Key>, s: State, t: State)
    requires Related(d, s, t)
    ensures s.stack == t.stack && s.segs.Keys == t.segs.Keys && s.syms.Keys == t.syms.Keys
  {
  }

  lemma LaidSkeleton(cfg: Config, st: State, s: Stmt)
    requires s.segment in st.segs
    ensures Skeleton(Step(cfg, st, s).1) == Skeleton(s)
    ensures Skeleton(Step(cfg, st, s).1.(active := true)) == Skeleton(s)
  {
    hide CondStep, ConstStep, AfterNames, StmtMotion, LogicalPc;
  }

  lemma RepublishedAgrees(cfg: Config, d: set<Key>, c: Context, c': Context)
    requires Twins(cfg, d, c, c')
    ensures SymsRelated(d, Republished(cfg, c), Republished(cfg, c'))
  {
    hide Step, Publish, Skeleton, LayoutFree, SymsRelated, Start, At, SameShape, AllLayoutFree;
    AtAgrees(cfg, d, c, c', |c.prog|);
    SameLength(c, c');
    PublishAgrees(cfg, d, |cfg.order|, Snapshot(Walked(cfg, c).segs), Snapshot(Walked(cfg, c').segs),
                  Walked(cfg, c).syms, Walked(cfg, c').syms);
  }

  lemma SameLength(c: Context, c': Context)
    requires SameShape(c.prog, c'.prog)
    ensures |c.prog| == |c'.prog|
  {
  }

  lemma FreeStmt(cfg: Config, d: set<Key>, s: Stmt, t: Stmt)
    requires LayoutFree(cfg, d, s) && Skeleton(s) == Skeleton(t)
    ensures LayoutFree(cfg, d, t)
  {
    SkeletonKeys(cfg, s, t, "");
    hide Skeleton, StorageKey, Over, ProcName;
    if s.labelName.Some? { SkeletonKeys(cfg, s, t, s.labelName.value); }
    if ProcName(s).Some? { SkeletonKeys(cfg, s, t, ProcName(s).value); }
    if s.kind.Const? { SkeletonKeys(cfg, s, t, s.kind.name); }
    if s.kind.Dir? {
      forall x { SkeletonKeys(cfg, s, t, x); }
    }
  }

  lemma FreeSame(cfg: Config, d: set<Key>, p: seq<Stmt>, q: seq<Stmt>)
    requires AllLayoutFree(cfg, d, p) && SameShape(p, q)
    ensures AllLayoutFree(cfg, d, q)
  {
    hide Skeleton, LayoutFree;
    forall i | 0 <= i < |q|
      ensures LayoutFree(cfg, d, q[i])
    {
      assert LayoutFree(cfg, d, p[i]) && Skeleton(p[i]) == Skeleton(q[i]);
      FreeStmt(cfg, d, p[i], q[i]);
    }
  }

  // ---- equates over layout-free names settle alike

  /** Programs whose equates are the same ones. */
  predicate SameEquates(cfg: Config, d: set<Key>, p: seq<Stmt>, q: seq<Stmt>) {
    |p| == |q| && forall i :: 0 <= i < |p| ==> SameEquate(cfg, d, p[i], q[i])
  }

  predicate SameEquate(cfg: Config, d: set<Key>, s: Stmt, t: Stmt) {
    Deferred(s) == Deferred(t) && (Deferred(s) ==>
      s.kind.name == t.kind.name && s.kind.expr == t.kind.expr && s.scope == t.scope && s.file == t.file &&
      (StorageKey(cfg, s, s.kind.name) in d ==> Over(d, s.scope, s.file, s.kind.expr)))
  }

  lemma SettleAgrees(cfg: Config, d: set<Key>, x: Symtab, y: Symtab, s: Stmt, t: Stmt)
    requires SymsRelated(d, x, y) && SameEquate(cfg, d, s, t)
    ensures SymsRelated(d, Settle(cfg, x, s), Settle(cfg, y, t))
  {
    hide Eval, Over;
    if Deferred(s) {
      StorageKeyShape(cfg, s, t, s.kind.name);
      if StorageKey(cfg, s, s.kind.name) in d {
        EvalAgrees(d, s.kind.expr, x, y, s.scope, s.file, s.address, t.address);
      }
      hide StorageKey;
    }
  }

  lemma {:induction false} SweepAgrees(cfg: Config, d: set<Key>, x: Symtab, y: Symtab, p: seq<Stmt>, q: seq<Stmt>,
      n: nat)
    requires SymsRelated(d, x, y) && SameEquates(cfg, d, p, q) && n <= |p|
    ensures SymsRelated(d, Sweep(cfg, x, p, n), Sweep(cfg, y, q, n))
  {
    hide Settle, SameEquate, SymsRelated;
    if n > 0 {
      SweepAgrees(cfg, d, x, y, p, q, n - 1);
      SettleAgrees(cfg, d, Sweep(cfg, x, p, n - 1), Sweep(cfg, y, q, n - 1), p[n - 1], q[n - 1]);
    }
  }

  /** Sweeping a settled table again, any number of times, changes nothing. */
  lemma {:induction false} SettledStays(cfg: Config, x: Symtab, p: seq<Stmt>, fuel: nat)
    requires Sweep(cfg, x, p, |p|) == x
    ensures Sweeps(cfg, x, p, fuel) == x
  {
    hide Sweep;
  }

  /** A pass that settles its equates in one sweep. */
  lemma SweptOnce(cfg: Config, c: Context, w: Symtab, t: Symtab)
    requires Republished(cfg, c) == w && Sweep(cfg, w, LaidProg(cfg, c), |LaidProg(cfg, c)|) == t
    requires Sweep(cfg, t, LaidProg(cfg, c), |LaidProg(cfg, c)|) == t
    ensures FinalSyms(cfg, c) == t
  {
    hide Sweep, LaidProg, Republished;
    SettledStays(cfg, t, LaidProg(cfg, c), SWEEP_LIMIT - 1);
  }

  /** A program without equates has nothing to sweep or to check. */
  lemma {:induction false} NothingToSettle(cfg: Config, syms: Symtab, prog: seq<Stmt>, n: nat)
    requires n <= |prog| && forall i :: 0 <= i < |prog| ==> !prog[i].kind.Const?
    ensures Sweep(cfg, syms, prog, n) == syms && CheckErrors(cfg, syms, prog, n) == 0
  {
    if n > 0 { NothingToSettle(cfg, syms, prog, n - 1); }
  }

  /** Where a pass's errors come from. */
  lemma PassErrorsAre(cfg: Config, c: Context)
    ensures |LaidProg(cfg, c)| == |c.prog|
    ensures Pass1(cfg, c).errors ==
              Walked(cfg, c).errors + |Walked(cfg, c).stack| + CheckErrors(cfg, FinalSyms(cfg, c), LaidProg(cfg, c), |c.prog|)
  {
    hide Walked, CheckErrors, FinalSyms, Laid;
  }

  /** One run may sweep more often than the other; the layout-free part comes out the same. */
  lemma {:induction false} SweepsAgree(cfg: Config, d: set<Key>, x: Symtab, y: Symtab, p: seq<Stmt>, q: seq<Stmt>,
      fuel: nat)
    requires SymsRelated(d, x, y) && SameEquates(cfg, d, p, q)
    ensures SymsRelated(d, Sweeps(cfg, x, p, fuel), Sweeps(cfg, y, q, fuel))
    decreases fuel
  {
    if fuel > 0 {
      hide Sweep, SymsRelated, SameEquate;
      var x1, y1 := Sweep(cfg, x, p, |p|), Sweep(cfg, y, q, |q|);
      SweepAgrees(cfg, d, x, y, p, q, |p|);
      SweepsAgree(cfg, d, x1, y1, p, q, fuel - 1);
      if x1 == x { SettledStays(cfg, x, p, fuel - 1); }
      if y1 == y { SettledStays(cfg, y, q, fuel - 1); }
    }
  }

  lemma EquatesAgree(cfg: Config, d: set<Key>, c: Context, c': Context)
    requires Twins(cfg, d, c, c') && Pass1(cfg, c).errors == c.errors
    ensures SameEquates(cfg, d, LaidProg(cfg, c), LaidProg(cfg, c'))
  {
    hide Step, Start, Pass1, Skeleton, At, Laid, StorageKey, Over;
    forall i | 0 <= i < |c.prog|
      ensures SameEquate(cfg, d, Laid(cfg, Start(cfg, c), c.prog, i), Laid(cfg, Start(cfg, c'), c'.prog, i))
    {
      LaidAgrees(cfg, d, c, c', i);
      var p, q := Laid(cfg, Start(cfg, c), c.prog, i), Laid(cfg, Start(cfg, c'), c'.prog, i);
      SkeletonKeys(cfg, p.(active := true), q.(active := true), "");
      if Deferred(p) {
        UnknownSegment(cfg, c, i);
        LaidAt(cfg, c, i);
        LaidShape(cfg, At(cfg, Start(cfg, c), c.prog, i), c.prog[i]);
        StorageKeyShape(cfg, p, c.prog[i], p.kind.name);
        assert LayoutFree(cfg, d, c.prog[i]);
      }
    }
  }

  /** At the end of both passes the tables have the same entries and agree on the layout-free ones. */
  lemma FinalAgrees(cfg: Config, d: set<Key>, c: Context, c': Context)
    requires Twins(cfg, d, c, c') && Pass1(cfg, c).errors == c.errors
    ensures SymsRelated(d, FinalSyms(cfg, c), FinalSyms(cfg, c'))
  {
    hide Twins, Republished, SymsRelated, LaidProg, SameEquates, Pass1;
    RepublishedAgrees(cfg, d, c, c');
    EquatesAgree(cfg, d, c, c');
    SweepsAgree(cfg, d, Republished(cfg, c), Republished(cfg, c'), LaidProg(cfg, c), LaidProg(cfg, c'), SWEEP_LIMIT);
  }

  /** Room reserved by both runs: equal except at instructions and alignments. */
  lemma RoomAgrees(cfg: Config, d: set<Key>, c: Context, c': Context, i: nat)
    requires Twins(cfg, d, c, c') && i < |c.prog| && Pass1(cfg, c).errors == c.errors
    ensures var p := Laid(cfg, Start(cfg, c), c.prog, i);
            var m, m' := MotionOf(cfg, c, i), MotionOf(cfg, c', i);
            if p.active && !IsConditionalStmt(c.prog[i]) && !c.prog[i].kind.Const?
            then MotionsMatch(c.prog[i], c'.prog[i], m, m') else m == Keep && m' == Keep
  {
    hide Step, Start, Pass1, LayoutFree, Skeleton, At, SymsRelated, AfterNames, StmtMotion, LogicalPc;
    AtAgrees(cfg, d, c, c', i);
    UnknownSegment(cfg, c, i);
    LaidAt(cfg, c, i);
    var st, st' := At(cfg, Start(cfg, c), c.prog, i), At(cfg, Start(cfg, c'), c'.prog, i);
    SkeletonKeys(cfg, c.prog[i], c'.prog[i], "");
    LaidShape(cfg, st, c.prog[i]);
    if CurrentActive(st.stack) && !IsConditionalStmt(c.prog[i]) && !c.prog[i].kind.Const? {
      NamesAgree(cfg, d, st, st', c.prog[i], c'.prog[i]);
      var s, t := c.prog[i], c'.prog[i];
      MotionAgrees(cfg, d, AfterNames(cfg, st, s).syms, AfterNames(cfg, st', t).syms, s, t,
                   st.segs[s.segment], st'.segs[t.segment], LogicalPc(st.segs[s.segment]), LogicalPc(st'.segs[t.segment]));
    }
  }
}
