/** The two walks agree: pass 2 writes, for every statement, exactly the bytes pass 1 made room for. */
module Agreement {
  import opened Support
  import opened Expressions
  import opened Opcodes
  import opened Program
  import opened Layout
  import opened Emission

  // ---- what a step of the walk keeps

  /** `t` has every entry of `s`; entries that are not `.set` variables are untouched. */
  predicate Grown(s: Symtab, t: Symtab) {
    s.Keys <= t.Keys && forall k :: k in s ==> t[k].mutable == s[k].mutable && (!s[k].mutable ==> t[k] == s[k])
  }

  predicate SameShell(s: Segment, t: Segment) {
    s.base == t.base && s.capacity == t.capacity && s.usedSize == t.usedSize && s.relocPhase == t.relocPhase
  }

  predicate SameShells(s: map<string, Segment>, t: map<string, Segment>) {
    s.Keys == t.Keys && forall n :: n in s ==> SameShell(s[n], t[n])
  }

  lemma ConstStepGrows(cfg: Config, st: State, s: Stmt, pc: int)
    requires s.kind.Const?
    ensures var r := ConstStep(cfg, st, s, pc).0;
            Grown(st.syms, r.syms) && r.segs == st.segs && r.stack == st.stack && st.errors <= r.errors
  {
    hide Eval, StorageKey;
  }

  lemma CondStepGrows(cfg: Config, st: State, s: Stmt, d: Directive, pc: int)
    requires IsConditional(d.name)
    ensures var r := CondStep(cfg, st, s, d, pc); r.syms == st.syms && r.segs == st.segs && st.errors <= r.errors
  {
    hide Judge, WellShaped;
  }

  lemma NamesGrow(cfg: Config, st: State, s: Stmt)
    requires s.segment in st.segs
    ensures var r := AfterNames(cfg, st, s);
            Grown(st.syms, r.syms) && r.segs == st.segs && r.stack == st.stack && st.errors <= r.errors
  {
    hide StorageKey, ProcName, AddressSymbol;
  }

  lemma StepGrows(cfg: Config, st: State, s: Stmt)
    ensures var r := Step(cfg, st, s).0;
            Grown(st.syms, r.syms) && SameShells(st.segs, r.segs) && st.errors <= r.errors
  {
    hide CondStep, ConstStep, AfterNames, StmtMotion, LogicalPc, Placed;
    if s.segment in st.segs {
      var pc := LogicalPc(st.segs[s.segment]);
      if IsConditionalStmt(s) {
        CondStepGrows(cfg, st, s, s.kind.dir, pc);
      } else {
        NamesGrow(cfg, st, s);
        var st1 := AfterNames(cfg, st, s);
        if s.kind.Const? { ConstStepGrows(cfg, st1, s, pc); }
      }
    }
  }

  lemma {:induction false} AtGrows(cfg: Config, st0: State, prog: seq<Stmt>, i: nat, j: nat)
    requires i <= j <= |prog|
    ensures Grown(At(cfg, st0, prog, i).syms, At(cfg, st0, prog, j).syms)
    ensures SameShells(At(cfg, st0, prog, i).segs, At(cfg, st0, prog, j).segs)
    ensures At(cfg, st0, prog, i).errors <= At(cfg, st0, prog, j).errors
    decreases j - i
  {
    hide Step;
    if i < j {
      AtGrows(cfg, st0, prog, i, j - 1);
      StepGrows(cfg, At(cfg, st0, prog, j - 1), prog[j - 1]);
    }
  }

  // ---- segment symbols are published twice

  ghost predicate PublishedOne(syms: Symtab, name: string, seg: Segment) {
    Holds(syms, name + "_BASE", seg.base) && Holds(syms, name + "_SIZE", seg.usedSize) &&
    Holds(syms, name + "_END", seg.base + seg.usedSize) && Holds(syms, name + "_CAPACITY", seg.capacity)
  }

  predicate Holds(syms: Symtab, name: string, v: int) {
    var k := Global(name);
    k in syms && syms[k] == Symbol(v, true, AbsSeg, None, false)
  }

  lemma SuffixesDiffer(a: string, b: string)
    ensures a + "_BASE" != b + "_SIZE" && a + "_BASE" != b + "_END" && a + "_BASE" != b + "_CAPACITY"
    ensures a + "_SIZE" != b + "_END" && a + "_SIZE" != b + "_CAPACITY" && a + "_END" != b + "_CAPACITY"
    ensures a + "_BASE" == b + "_BASE" ==> a == b
    ensures a + "_SIZE" == b + "_SIZE" ==> a == b
    ensures a + "_END" == b + "_END" ==> a == b
    ensures a + "_CAPACITY" == b + "_CAPACITY" ==> a == b
  {
    var x, y, z, w := a + "_BASE", b + "_SIZE", b + "_END", b + "_CAPACITY";
    var y', z' := a + "_SIZE", a + "_END";
    assert x[|x| - 3] == 'A' && y[|y| - 3] == 'I' && z[|z| - 3] == 'E' && w[|w| - 3] == 'I';
    assert w[|w| - 1] == 'Y' && y[|y| - 1] == 'E' && y'[|y'| - 1] == 'E' && y'[|y'| - 3] == 'I' && z'[|z'| - 3] == 'E';
    assert (a + "_BASE")[..|a|] == a && (b + "_BASE")[..|b|] == b;
    assert (a + "_SIZE")[..|a|] == a && (b + "_SIZE")[..|b|] == b;
    assert (a + "_END")[..|a|] == a && (b + "_END")[..|b|] == b;
    assert (a + "_CAPACITY")[..|a|] == a && (b + "_CAPACITY")[..|b|] == b;
  }

  lemma PublishOneHolds(syms: Symtab, name: string, seg: Segment, other: string, seg': Segment)
    requires NoneMutable(syms)
    requires PublishedOne(syms, other, seg') && (other == name ==> seg' == seg)
    ensures PublishedOne(PublishOne(syms, name, seg), other, seg')
  {
    SuffixesDiffer(name, other);
    SuffixesDiffer(other, name);
  }

  predicate NoneMutable(syms: Symtab) { forall k :: k in syms ==> !syms[k].mutable }

  lemma PublishOneFresh(syms: Symtab, name: string, seg: Segment)
    requires NoneMutable(syms)
    ensures NoneMutable(PublishOne(syms, name, seg)) && PublishedOne(PublishOne(syms, name, seg), name, seg)
  {
    SuffixesDiffer(name, name);
  }

  lemma {:induction false} PublishHolds(order: seq<string>, n: nat, segs: map<string, Segment>)
    requires n <= |order|
    ensures var t := Publish(order, n, segs, map[]);
            NoneMutable(t) &&
            forall i :: 0 <= i < n && order[i] in segs ==> PublishedOne(t, order[i], segs[order[i]])
  {
    if n > 0 {
      PublishHolds(order, n - 1, segs);
      var t := Publish(order, n - 1, segs, map[]);
      if order[n - 1] in segs {
        PublishOneFresh(t, order[n - 1], segs[order[n - 1]]);
        hide PublishedOne, PublishOne, NoneMutable;
        forall i | 0 <= i < n - 1 && order[i] in segs
          ensures PublishedOne(PublishOne(t, order[n - 1], segs[order[n - 1]]), order[i], segs[order[i]])
        {
          PublishOneHolds(t, order[n - 1], segs[order[n - 1]], order[i], segs[order[i]]);
        }
      }
    }
  }

  /** Publishing values the table already holds changes nothing. */
  lemma {:induction false} PublishAgain(order: seq<string>, n: nat, segs: map<string, Segment>, syms: Symtab)
    requires n <= |order|
    requires forall i :: 0 <= i < n && order[i] in segs ==> PublishedOne(syms, order[i], segs[order[i]])
    ensures Publish(order, n, segs, syms) == syms
  {
    if n > 0 {
      PublishAgain(order, n - 1, segs, syms);
    }
  }

  lemma PublishedKept(s: Symtab, t: Symtab, name: string, seg: Segment)
    requires Grown(s, t) && PublishedOne(s, name, seg)
    ensures PublishedOne(t, name, seg)
  {
  }

  // ---- the class of programs

  /** The pass reported nothing, and every segment came out as large as the pass before had left it. */
  predicate Settled(cfg: Config, c: Context) { Pass1(cfg, c).errors == c.errors && SizesHold(cfg, c) }

  predicate SizesHold(cfg: Config, c: Context) {
    forall n :: n in c.segs ==> Walked(cfg, c).segs.Keys == c.segs.Keys && Walked(cfg, c).segs[n].pc == c.segs[n].usedSize
  }

  /** The expressions a statement's size or symbol depends on and both passes evaluate; a fill value is not one. */
  function SizeOperands(s: Stmt): seq<Expr> {
    match s.kind
    case Const(_, e, a, applied) => if a == SetVar || applied then [e] else []
    case Dir(d) =>
      if d.name == DRes then d.args
      else if d.name == DAlign then (if |d.args| > 2 then d.args[..2] else d.args)
      else []
    case _ => []
  }

  /** The entries that exist when statement `i`'s own operands are evaluated. */
  function KnownAt(cfg: Config, c: Context, i: nat): set<Key>
    requires i < |c.prog|
  {
    var st, s := At(cfg, Start(cfg, c), c.prog, i), c.prog[i];
    if s.segment !in st.segs then {}
    else if s.kind.Const? then AfterNames(cfg, st, s).syms.Keys + {StorageKey(cfg, s, s.kind.name)}
    else AfterNames(cfg, st, s).syms.Keys
  }

  /** What statement `i`'s size or symbol depends on reads the same entries when the walk meets it as it does among the
      entries of `syms`, and an equate reads no `.set` variable. */
  predicate ReadsAlike(cfg: Config, c: Context, syms: Symtab, i: nat)
    requires i < |c.prog|
  {
    var s := Laid(cfg, Start(cfg, c), c.prog, i);
    s.active ==>
      (forall e :: e in SizeOperands(s) ==> SameReading(KnownAt(cfg, c, i), syms.Keys, s.scope, s.file, e)) &&
      (Deferred(s) ==>
         forall k :: k in Mentions(syms.Keys, s.scope, s.file, s.kind.expr) && k in syms ==> !syms[k].mutable)
  }

  predicate Orderly(cfg: Config, c: Context, syms: Symtab) {
    forall i :: 0 <= i < |c.prog| ==> ReadsAlike(cfg, c, syms, i)
  }

  ghost predicate Clean(cfg: Config, c: Context) {
    Settled(cfg, c) && SizesMatch(c.prog) && Orderly(cfg, c, FinalSyms(cfg, c))
  }

  // ---- pass 1 values survive to the end of pass 1

  lemma RepublishedSame(cfg: Config, c: Context)
    requires SizesHold(cfg, c)
    ensures Republished(cfg, c) == Walked(cfg, c).syms
  {
    var st0 := Start(cfg, c);
    var segs := ResetSegments(c.segs);
    var w := Walked(cfg, c);
    PublishHolds(cfg.order, |cfg.order|, segs);
    AtGrows(cfg, st0, c.prog, 0, |c.prog|);
    var snap := Snapshot(w.segs);
    forall i | 0 <= i < |cfg.order| && cfg.order[i] in snap
      ensures PublishedOne(w.syms, cfg.order[i], snap[cfg.order[i]])
    {
      var n := cfg.order[i];
      assert PublishedOne(st0.syms, n, segs[n]);
      PublishedKept(st0.syms, w.syms, n, segs[n]);
      assert SameShell(segs[n], w.segs[n]);
    }
    PublishAgain(cfg.order, |cfg.order|, snap, w.syms);
  }

  lemma NoErrorsOnTheWay(cfg: Config, c: Context, i: nat)
    requires Pass1(cfg, c).errors == c.errors && i <= |c.prog|
    ensures At(cfg, Start(cfg, c), c.prog, i).errors == c.errors
    ensures Walked(cfg, c).stack == []
  {
    AtGrows(cfg, Start(cfg, c), c.prog, 0, i);
    AtGrows(cfg, Start(cfg, c), c.prog, i, |c.prog|);
  }

  /** Final entries keep what the walk had settled. */
  predicate Keeps(s: Symtab, t: Symtab) {
    s.Keys == t.Keys && forall k :: k in s ==> KeepsEntry(s[k], t[k])
  }

  predicate KeepsEntry(a: Symbol, b: Symbol) {
    a.mutable == b.mutable && (a.mutable ==> a == b) && (a.defined ==> b.defined && b.value == a.value)
  }

  /** An equate whose declaration went through. */
  lemma EquateStep(cfg: Config, st: State, s: Stmt)
    requires s.kind.Const? && s.kind.assign != SetVar && s.segment in st.segs && CurrentActive(st.stack)
    requires Step(cfg, st, s).1.kind.applied && Step(cfg, st, s).0.errors == st.errors
    ensures var a := AfterNames(cfg, st, s).syms;
            var k := StorageKey(cfg, s, s.kind.name);
            k !in a &&
            Step(cfg, st, s).0.syms ==
              a[k := AssignIfKnown(Declared, Eval(s.kind.expr, a[k := Declared], s.scope, s.file, LogicalPc(st.segs[s.segment])))]
  {
    hide CondStep, AfterNames, StmtMotion, Eval, LogicalPc, StorageKey;
    NamesGrow(cfg, st, s);
  }

  /** A `.set` that went through. */
  lemma SetVarStep(cfg: Config, st: State, s: Stmt)
    requires s.kind.Const? && s.kind.assign == SetVar && s.segment in st.segs && CurrentActive(st.stack)
    requires Step(cfg, st, s).0.errors == st.errors
    ensures var a := AfterNames(cfg, st, s).syms;
            var k := StorageKey(cfg, s, s.kind.name);
            var sym := if k in a then a[k] else Declared.(mutable := true);
            var v := Eval(s.kind.expr, a[k := sym], s.scope, s.file, LogicalPc(st.segs[s.segment]));
            sym.mutable && v.Ok? && Step(cfg, st, s).0.syms == a[k := Assigned(sym, v.value)]
  {
    hide CondStep, AfterNames, StmtMotion, Eval, LogicalPc, StorageKey;
    NamesGrow(cfg, st, s);
  }

  /** The shape of a statement after the walk. */
  lemma LaidShape(cfg: Config, st: State, s: Stmt)
    requires s.segment in st.segs
    ensures var p := Step(cfg, st, s).1;
            p.file == s.file && p.scope == s.scope && p.segment == s.segment &&
            p.address == LogicalPc(st.segs[s.segment]) &&
            p.emitAddress == st.segs[s.segment].base + st.segs[s.segment].pc &&
            p.rorgActive == st.segs[s.segment].rorgActive &&
            p.active == (IsConditionalStmt(s) || CurrentActive(st.stack)) &&
            (s.kind.Const? ==> p.kind.Const? && p.kind == s.kind.(applied := p.kind.applied)) &&
            (!s.kind.Const? ==> p.kind == s.kind)
  {
    hide CondStep, AfterNames, StmtMotion, ConstStep, LogicalPc, StorageKey;
  }

  lemma UnknownSegment(cfg: Config, c: Context, j: nat)
    requires Pass1(cfg, c).errors == c.errors && j < |c.prog|
    ensures c.prog[j].segment in At(cfg, Start(cfg, c), c.prog, j).segs
  {
    hide Step, Pass1, Start;
    NoErrorsOnTheWay(cfg, c, j);
    NoErrorsOnTheWay(cfg, c, j + 1);
    StepUnknown(cfg, At(cfg, Start(cfg, c), c.prog, j), c.prog[j]);
  }

  lemma StepUnknown(cfg: Config, st: State, s: Stmt)
    ensures s.segment !in st.segs ==> Step(cfg, st, s) == (st.(errors := st.errors + 1), s)
  {
    hide CondStep, AfterNames, StmtMotion, ConstStep, LogicalPc, StorageKey, Placed;
  }

  lemma StorageKeyShape(cfg: Config, s: Stmt, p: Stmt, name: string)
    requires p.file == s.file && p.scope == s.scope
    ensures StorageKey(cfg, s, name) == StorageKey(cfg, p, name)
  {
  }

  /** An equate that had a value when the walk passed it evaluates to that value ever after. */
  lemma EquateStable(cfg: Config, c: Context, j: nat, w: Symtab)
    requires Pass1(cfg, c).errors == c.errors && j < |c.prog|
    requires Orderly(cfg, c, w)
    requires Keeps(Walked(cfg, c).syms, w)
    requires Deferred(Laid(cfg, Start(cfg, c), c.prog, j))
    ensures var s := Laid(cfg, Start(cfg, c), c.prog, j);
            var k := StorageKey(cfg, s, s.kind.name);
            k in w && !w[k].mutable &&
            (Walked(cfg, c).syms[k].defined ==>
               Eval(s.kind.expr, w, s.scope, s.file, s.address) == Ok(Walked(cfg, c).syms[k].value))
  {
    hide *;
    var st0 := Start(cfg, c);
    var st := At(cfg, st0, c.prog, j);
    var s := Laid(cfg, st0, c.prog, j);
    var o := c.prog[j];
    NoErrorsOnTheWay(cfg, c, j);
    NoErrorsOnTheWay(cfg, c, j + 1);
    UnknownSegment(cfg, c, j);
    LaidAt(cfg, c, j);
    LaidShape(cfg, st, o);
    DeferredParts(s, o);
    EquateStep(cfg, st, o);
    AtGrows(cfg, st0, c.prog, j + 1, |c.prog|);
    WalkedIs(cfg, c);
    NamesGrow(cfg, st, o);
    StorageKeyShape(cfg, o, s, o.kind.name);
    EquateReads(cfg, c, j, w);
    StableFrom(cfg, o, s, AfterNames(cfg, st, o).syms, Walked(cfg, c).syms, w, s.address);
  }

  /** What the class says of one equate. */
  lemma EquateReads(cfg: Config, c: Context, j: nat, w: Symtab)
    requires j < |c.prog| && Orderly(cfg, c, w) && Deferred(Laid(cfg, Start(cfg, c), c.prog, j))
    requires c.prog[j].segment in At(cfg, Start(cfg, c), c.prog, j).segs && c.prog[j].kind.Const?
    ensures var s, o := Laid(cfg, Start(cfg, c), c.prog, j), c.prog[j];
            var known := AfterNames(cfg, At(cfg, Start(cfg, c), c.prog, j), o).syms.Keys + {StorageKey(cfg, o, o.kind.name)};
            SameReading(known, w.Keys, s.scope, s.file, s.kind.expr) &&
            forall k :: k in Mentions(w.Keys, s.scope, s.file, s.kind.expr) && k in w ==> !w[k].mutable
  {
    hide Laid, At, Start, AfterNames, StorageKey, SameReading, Mentions;
    var s := Laid(cfg, Start(cfg, c), c.prog, j);
    assert ReadsAlike(cfg, c, w, j) && SizeOperands(s) == [s.kind.expr];
    assert s.kind.expr in SizeOperands(s);
  }

  lemma WalkedIs(cfg: Config, c: Context)
    ensures Walked(cfg, c) == At(cfg, Start(cfg, c), c.prog, |c.prog|)
  {
    hide Step, Start;
  }

  lemma DeferredParts(s: Stmt, o: Stmt)
    requires Deferred(s) && (s.kind.Const? ==> o.kind.Const? && s.kind == o.kind.(applied := s.kind.applied))
    ensures s.kind.Const? && o.kind.Const? && !IsConditionalStmt(o) && s.active && s.kind.applied && s.kind.assign != SetVar && s.kind.name == o.kind.name &&
            s.kind.expr == o.kind.expr && s.kind.assign == o.kind.assign
  {
  }

  /** An equate's value at its statement is its value for good. */
  lemma StableFrom(cfg: Config, o: Stmt, s: Stmt, a: Symtab, last: Symtab, w: Symtab, pc: int)
    requires o.kind.Const? && s.kind.Const? && s.kind.name == o.kind.name && s.kind.expr == o.kind.expr
    requires s.scope == o.scope && s.file == o.file
    requires StorageKey(cfg, s, s.kind.name) == StorageKey(cfg, o, o.kind.name)
    requires var k := StorageKey(cfg, o, o.kind.name); var t := a[k := Declared];
             Grown(a[k := AssignIfKnown(Declared, Eval(o.kind.expr, t, o.scope, o.file, pc))], last)
    requires SameReading(a.Keys + {StorageKey(cfg, o, o.kind.name)}, w.Keys, s.scope, s.file, s.kind.expr)
    requires forall k :: k in Mentions(w.Keys, s.scope, s.file, s.kind.expr) && k in w ==> !w[k].mutable
    requires Keeps(last, w) && o.kind.assign != SetVar
    ensures var k := StorageKey(cfg, s, s.kind.name);
            k in w && !w[k].mutable &&
            (last[k].defined ==> Eval(s.kind.expr, w, s.scope, s.file, pc) == Ok(last[k].value))
  {
    hide StorageKey, Eval, Mentions, SameReading;
    var k := StorageKey(cfg, s, s.kind.name);
    var t := a[k := Declared];
    var u := a[k := AssignIfKnown(Declared, Eval(o.kind.expr, t, o.scope, o.file, pc))];
    assert k in u && !u[k].mutable;
    if last[k].defined {
      assert forall m :: m in t && t[m].defined ==> m in u && u[m] == t[m];
      assert t.Keys == a.Keys + {k};
      EvalKept(o.kind.expr, t, w, o.scope, o.file, pc);
    }
  }

  lemma {:induction false} SweepKeeps(cfg: Config, c: Context, w: Symtab, n: nat)
    requires Pass1(cfg, c).errors == c.errors && n <= |c.prog|
    requires Orderly(cfg, c, w) && Keeps(Walked(cfg, c).syms, w)
    ensures Keeps(Walked(cfg, c).syms, Sweep(cfg, w, LaidProg(cfg, c), n))
  {
    hide *;
    LaidLength(cfg, c);
    SweepUnfold(cfg, w, LaidProg(cfg, c), n);
    if n > 0 {
      SweepKeeps(cfg, c, w, n - 1);
      var t := Sweep(cfg, w, LaidProg(cfg, c), n - 1);
      SweepShape(cfg, w, LaidProg(cfg, c), n - 1);
      OrderlyShape(cfg, c, t, w);
      LaidProgAt(cfg, c, n - 1);
      if Deferred(LaidProg(cfg, c)[n - 1]) { EquateStable(cfg, c, n - 1, t); }
      SettleKeeps(cfg, Walked(cfg, c).syms, t, LaidProg(cfg, c)[n - 1]);
    }
  }

  lemma SweepUnfold(cfg: Config, w: Symtab, prog: seq<Stmt>, n: nat)
    requires n <= |prog|
    ensures n == 0 ==> Sweep(cfg, w, prog, n) == w
    ensures n > 0 ==> Sweep(cfg, w, prog, n) == Settle(cfg, Sweep(cfg, w, prog, n - 1), prog[n - 1])
  {
    hide Settle;
  }

  lemma LaidProgAt(cfg: Config, c: Context, i: nat)
    requires i < |c.prog|
    ensures |LaidProg(cfg, c)| == |c.prog| && LaidProg(cfg, c)[i] == Laid(cfg, Start(cfg, c), c.prog, i)
  {
    hide Laid, Start;
  }

  /** Settling an equate whose entry already has the value keeps the table's values. */
  lemma SettleKeeps(cfg: Config, last: Symtab, t: Symtab, s: Stmt)
    requires Keeps(last, t)
    requires Deferred(s) ==> var k := StorageKey(cfg, s, s.kind.name);
               k in t && !t[k].mutable &&
               (last[k].defined ==> Eval(s.kind.expr, t, s.scope, s.file, s.address) == Ok(last[k].value))
    ensures Keeps(last, Settle(cfg, t, s))
  {
    hide Eval, StorageKey;
  }

  lemma {:induction false} SweepsKeep(cfg: Config, c: Context, w: Symtab, fuel: nat)
    requires Pass1(cfg, c).errors == c.errors
    requires Orderly(cfg, c, w) && Keeps(Walked(cfg, c).syms, w)
    ensures Keeps(Walked(cfg, c).syms, Sweeps(cfg, w, LaidProg(cfg, c), fuel))
    decreases fuel
  {
    if fuel > 0 {
      hide Orderly, Keeps, Pass1, Walked, Sweep, LaidProg;
      var prog := LaidProg(cfg, c);
      var t := Sweep(cfg, w, prog, |prog|);
      assert |prog| == |c.prog| by { LaidLength(cfg, c); }
      SweepKeeps(cfg, c, w, |c.prog|);
      SweepShape(cfg, w, prog, |prog|);
      OrderlyShape(cfg, c, t, w);
      SweepsKeep(cfg, c, t, fuel - 1);
    }
  }

  lemma LaidLength(cfg: Config, c: Context)
    ensures |LaidProg(cfg, c)| == |c.prog|
  {
  }

  lemma {:induction false} SweepShape(cfg: Config, w: Symtab, prog: seq<Stmt>, n: nat)
    requires n <= |prog|
    ensures SameMutability(w, Sweep(cfg, w, prog, n))
  {
    if n > 0 {
      SweepShape(cfg, w, prog, n - 1);
      hide Eval, StorageKey;
    }
  }

  predicate SameMutability(s: Symtab, t: Symtab) {
    s.Keys == t.Keys && forall k :: k in s ==> s[k].mutable == t[k].mutable
  }

  lemma {:induction false} SweepsShape(cfg: Config, w: Symtab, prog: seq<Stmt>, fuel: nat)
    ensures SameMutability(w, Sweeps(cfg, w, prog, fuel))
    decreases fuel
  {
    if fuel > 0 {
      SweepShape(cfg, w, prog, |prog|);
      hide Sweep;
      SweepsShape(cfg, Sweep(cfg, w, prog, |prog|), prog, fuel - 1);
    }
  }

  lemma OrderlyShape(cfg: Config, c: Context, s: Symtab, t: Symtab)
    requires Orderly(cfg, c, t) && SameMutability(t, s)
    ensures Orderly(cfg, c, s)
  {
    hide SameReading, Mentions, Laid, KnownAt, SizeOperands;
    forall i | 0 <= i < |c.prog|
      ensures ReadsAlike(cfg, c, s, i)
    {
      assert ReadsAlike(cfg, c, t, i);
    }
  }

  lemma FinalKeeps(cfg: Config, c: Context)
    requires Clean(cfg, c)
    ensures Keeps(Walked(cfg, c).syms, FinalSyms(cfg, c))
  {
    RepublishedSame(cfg, c);
    hide Orderly, Walked, LaidProg, Republished, Pass1;
    SweepsShape(cfg, Republished(cfg, c), LaidProg(cfg, c), SWEEP_LIMIT);
    assert SameMutability(FinalSyms(cfg, c), Republished(cfg, c));
    OrderlyShape(cfg, c, Republished(cfg, c), FinalSyms(cfg, c));
    SweepsKeep(cfg, c, Walked(cfg, c).syms, SWEEP_LIMIT);
  }

  // ---- the emission walk sees at least what the layout walk saw

  /** Everything but the address of an equate is as the walk left it. */
  lemma LaidStays(cfg: Config, c: Context, i: nat)
    requires i < |c.prog|
    ensures var p := Pass1(cfg, c).prog[i];
            var s := Laid(cfg, Start(cfg, c), c.prog, i);
            p == s.(address := p.address) && (!Deferred(s) ==> p == s)
  {
    hide Laid, FinalSyms, Walked, StorageKey, Eval, CheckErrors;
  }

  /** `e`, met in the emission walk, agrees with the final table except on the current values of
      `.set` variables, and has everything the layout walk knew at that point. */
  predicate Sees(e: Symtab, f: Symtab, s: Symtab) {
    e.Keys == f.Keys && Extends(s, e) && forall k :: k in f ==> SeesEntry(e[k], f[k])
  }

  predicate SeesEntry(e: Symbol, f: Symbol) { e.mutable == f.mutable && (!f.mutable ==> e == f) }

  /** New immutable entries are in the final table, so the emitter sees them too. */
  lemma SeesGrown(e: Symtab, f: Symtab, s: Symtab, t: Symtab, last: Symtab)
    requires Sees(e, f, s) && Grown(s, t) && Grown(t, last) && Keeps(last, f)
    requires forall k :: k in t && t[k].mutable ==> k in s && t[k] == s[k]
    ensures Sees(e, f, t) && t.Keys <= f.Keys
  {
    forall k | k in t && t[k].defined
      ensures k in e && SymbolValue(e, k) == Ok(t[k].value)
    {
      if !t[k].mutable {
        assert last[k] == t[k] && KeepsEntry(last[k], f[k]) && SeesEntry(e[k], f[k]);
      }
    }
  }

  /** Labels and procedures are never `.set` variables. */
  lemma NamesImmutable(cfg: Config, st: State, s: Stmt)
    requires s.segment in st.segs
    ensures var t := AfterNames(cfg, st, s).syms;
            forall k :: k in t && t[k].mutable ==> k in st.syms && t[k] == st.syms[k]
  {
    hide StorageKey, ProcName;
  }

  /** Only an active `.set` touches a `.set` variable. */
  lemma OthersImmutable(cfg: Config, st: State, s: Stmt)
    requires !(s.kind.Const? && s.kind.assign == SetVar && s.segment in st.segs && CurrentActive(st.stack))
    ensures var t := Step(cfg, st, s).0.syms; forall k :: k in t && t[k].mutable ==> k in st.syms && t[k] == st.syms[k]
  {
    hide CondStep, AfterNames, StmtMotion, LogicalPc, StorageKey, Eval;
    if s.segment in st.segs {
      NamesImmutable(cfg, st, s);
      if IsConditionalStmt(s) { CondStepGrows(cfg, st, s, s.kind.dir, LogicalPc(st.segs[s.segment])); }
    }
  }

  lemma WalkedIsLast(cfg: Config, c: Context)
    ensures Walked(cfg, c) == At(cfg, Start(cfg, c), c.prog, |c.prog|)
  {
  }

  lemma SeesStart(s: Symtab, last: Symtab, f: Symtab)
    requires NoneMutable(s) && Grown(s, last) && Keeps(last, f)
    ensures Sees(Forget(f), f, s)
  {
    forall k | k in s && s[k].defined
      ensures SymbolValue(Forget(f), k) == Ok(s[k].value)
    {
      assert last[k] == s[k] && KeepsEntry(last[k], f[k]);
    }
  }

  lemma {:induction false} EmissionSees(cfg: Config, c: Context, i: nat)
    requires Clean(cfg, c) && i <= |c.prog|
    ensures Sees(EmitAt(cfg, Pass1(cfg, c), i).syms, FinalSyms(cfg, c), At(cfg, Start(cfg, c), c.prog, i).syms)
  {
    hide Publish, Sweeps, CheckErrors, Step, StmtBytes, Write, Sees, Grown, Keeps, Clean;
    var st0 := Start(cfg, c);
    var c1 := Pass1(cfg, c);
    FinalKeeps(cfg, c);
    AtGrows(cfg, st0, c.prog, i, |c.prog|);
    if i == 0 {
      PublishHolds(cfg.order, |cfg.order|, ResetSegments(c.segs));
      SeesStart(st0.syms, Walked(cfg, c).syms, FinalSyms(cfg, c));
    } else {
      hide Pass1, Start, FinalSyms, Walked;
      EmissionSees(cfg, c, i - 1);
      CleanErrors(cfg, c);
      NoErrorsOnTheWay(cfg, c, i - 1);
      UnknownSegment(cfg, c, i - 1);
      var st := At(cfg, st0, c.prog, i - 1);
      LaidStays(cfg, c, i - 1);
      LaidShape(cfg, st, c.prog[i - 1]);
      StepGrows(cfg, st, c.prog[i - 1]);
      if c.prog[i - 1].kind.Const? && c.prog[i - 1].kind.assign == SetVar && c1.prog[i - 1].active {
        SetSeen(cfg, c, i - 1);
      } else {
        OthersImmutable(cfg, st, c.prog[i - 1]);
        assert EmitAt(cfg, c1, i).syms == EmitAt(cfg, c1, i - 1).syms;
        WalkedIsLast(cfg, c);
        SeesGrown(EmitAt(cfg, c1, i - 1).syms, FinalSyms(cfg, c), st.syms, At(cfg, st0, c.prog, i).syms, Walked(cfg, c).syms);
      }
    }
  }

  lemma GrownTransitive(s: Symtab, t: Symtab, u: Symtab)
    requires Grown(s, t) && Grown(t, u)
    ensures Grown(s, u)
  {
  }

  lemma CleanErrors(cfg: Config, c: Context)
    requires Clean(cfg, c)
    ensures Pass1(cfg, c).errors == c.errors
  {
  }

  lemma LaidAt(cfg: Config, c: Context, i: nat)
    requires i < |c.prog|
    ensures Laid(cfg, Start(cfg, c), c.prog, i) == Step(cfg, At(cfg, Start(cfg, c), c.prog, i), c.prog[i]).1
    ensures At(cfg, Start(cfg, c), c.prog, i + 1) == Step(cfg, At(cfg, Start(cfg, c), c.prog, i), c.prog[i]).0
  {
    hide Step, Start;
  }

  /** Before the statement's own motion, the names the walk knows are known to the emitter with the same values. */
  lemma NamesSeen(cfg: Config, c: Context, i: nat)
    requires Clean(cfg, c) && i < |c.prog|
    requires Sees(EmitAt(cfg, Pass1(cfg, c), i).syms, FinalSyms(cfg, c), At(cfg, Start(cfg, c), c.prog, i).syms)
    requires Pass1(cfg, c).prog[i].active && !IsConditionalStmt(c.prog[i])
    ensures c.prog[i].segment in At(cfg, Start(cfg, c), c.prog, i).segs
    ensures var a := AfterNames(cfg, At(cfg, Start(cfg, c), c.prog, i), c.prog[i]).syms;
            Sees(EmitAt(cfg, Pass1(cfg, c), i).syms, FinalSyms(cfg, c), a) && a.Keys <= FinalSyms(cfg, c).Keys
  {
    hide Step, Pass1, Start, FinalSyms, EmitAt, AfterNames, Sees, Grown, Keeps, StorageKey, Clean, At, Laid, Walked,
         LogicalPc;
    CleanErrors(cfg, c);
    LaidAt(cfg, c, i);
    var st0 := Start(cfg, c);
    var st := At(cfg, st0, c.prog, i);
    var s := c.prog[i];
    UnknownSegment(cfg, c, i);
    LaidStays(cfg, c, i);
    LaidShape(cfg, st, s);
    NamesGrow(cfg, st, s);
    NamesImmutable(cfg, st, s);
    NamesThenRest(cfg, st, s);
    AtGrows(cfg, st0, c.prog, i + 1, |c.prog|);
    FinalKeeps(cfg, c);
    WalkedIsLast(cfg, c);
    var a := AfterNames(cfg, st, s).syms;
    GrownTransitive(a, At(cfg, st0, c.prog, i + 1).syms, Walked(cfg, c).syms);
    SeesGrown(EmitAt(cfg, Pass1(cfg, c), i).syms, FinalSyms(cfg, c), st.syms, a, Walked(cfg, c).syms);
  }

  lemma NamesThenRest(cfg: Config, st: State, s: Stmt)
    requires s.segment in st.segs && !IsConditionalStmt(s) && CurrentActive(st.stack)
    ensures Grown(AfterNames(cfg, st, s).syms, Step(cfg, st, s).0.syms)
  {
    hide CondStep, AfterNames, StmtMotion, ConstStep, LogicalPc, StorageKey;
    if s.kind.Const? { ConstStepGrows(cfg, AfterNames(cfg, st, s), s, LogicalPc(st.segs[s.segment])); }
  }

  /** `.set` computes the same value both times. */
  lemma SetSeen(cfg: Config, c: Context, i: nat)
    requires Clean(cfg, c) && i < |c.prog|
    requires Sees(EmitAt(cfg, Pass1(cfg, c), i).syms, FinalSyms(cfg, c), At(cfg, Start(cfg, c), c.prog, i).syms)
    requires c.prog[i].kind.Const? && c.prog[i].kind.assign == SetVar && Pass1(cfg, c).prog[i].active
    ensures Sees(EmitAt(cfg, Pass1(cfg, c), i + 1).syms, FinalSyms(cfg, c), At(cfg, Start(cfg, c), c.prog, i + 1).syms)
  {
    hide Step, Pass1, Start, FinalSyms, AfterNames, StorageKey, Eval, Mentions, SameReading, LogicalPc, Orderly,
         KnownAt;
    var st0 := Start(cfg, c);
    var o := c.prog[i];
    var st := At(cfg, st0, c.prog, i);
    NamesSeen(cfg, c, i);
    LaidStays(cfg, c, i);
    LaidShape(cfg, st, o);
    NoErrorsOnTheWay(cfg, c, i);
    NoErrorsOnTheWay(cfg, c, i + 1);
    SetVarStep(cfg, st, o);
    AtGrows(cfg, st0, c.prog, i + 1, |c.prog|);
    FinalKeeps(cfg, c);
    var s := Pass1(cfg, c).prog[i];
    var e := EmitAt(cfg, Pass1(cfg, c), i);
    var f := FinalSyms(cfg, c);
    var k := StorageKey(cfg, o, o.kind.name);
    StorageKeyShape(cfg, o, s, o.kind.name);
    var a := AfterNames(cfg, st, o).syms;
    var c1 := Pass1(cfg, c);
    SetReads(cfg, c, i, f);
    SetStepAgrees(cfg, a, e, f, s, k);
    assert EmitAt(cfg, c1, i + 1) == SetStep(cfg, e, s);
    var next := At(cfg, st0, c.prog, i + 1).syms;
    assert k in next && Grown(next, Walked(cfg, c).syms);
  }

  /** What the class says of one operand of an active statement. */
  lemma OperandReads(cfg: Config, c: Context, i: nat, f: Symtab, e: Expr)
    requires i < |c.prog| && Orderly(cfg, c, f) && Laid(cfg, Start(cfg, c), c.prog, i).active
    requires e in SizeOperands(Laid(cfg, Start(cfg, c), c.prog, i))
    requires c.prog[i].segment in At(cfg, Start(cfg, c), c.prog, i).segs
    ensures var s := Laid(cfg, Start(cfg, c), c.prog, i); SameReading(KnownAt(cfg, c, i), f.Keys, s.scope, s.file, e)
  {
    hide Laid, At, Start, KnownAt, SizeOperands, SameReading, Mentions;
    assert ReadsAlike(cfg, c, f, i);
  }

  lemma SetReads(cfg: Config, c: Context, i: nat, f: Symtab)
    requires i < |c.prog| && Orderly(cfg, c, f) && c.prog[i].segment in At(cfg, Start(cfg, c), c.prog, i).segs
    requires c.prog[i].kind.Const? && c.prog[i].kind.assign == SetVar && Laid(cfg, Start(cfg, c), c.prog, i).active
    ensures var o := c.prog[i];
            SameReading(AfterNames(cfg, At(cfg, Start(cfg, c), c.prog, i), o).syms.Keys + {StorageKey(cfg, o, o.kind.name)},
                        f.Keys, o.scope, o.file, o.kind.expr)
  {
    hide At, Start, AfterNames, StorageKey, SameReading, Mentions, Orderly, Step;
    LaidAt(cfg, c, i);
    LaidShape(cfg, At(cfg, Start(cfg, c), c.prog, i), c.prog[i]);
    OperandReads(cfg, c, i, f, c.prog[i].kind.expr);
  }

  lemma SetStepAgrees(cfg: Config, a: Symtab, e: EmitState, f: Symtab, s: Stmt, k: Key)
    requires s.kind.Const? && s.kind.assign == SetVar && s.active && k == StorageKey(cfg, s, s.kind.name)
    requires Sees(e.syms, f, a) && a.Keys <= f.Keys && k in f && f[k].mutable
    requires SameReading(a.Keys + {k}, f.Keys, s.scope, s.file, s.kind.expr)
    requires k in a ==> a[k].mutable
    requires Eval(s.kind.expr, a[k := if k in a then a[k] else Declared.(mutable := true)], s.scope, s.file, s.address).Ok?
    ensures var sym := if k in a then a[k] else Declared.(mutable := true);
            var v := Eval(s.kind.expr, a[k := sym], s.scope, s.file, s.address).value;
            Sees(SetStep(cfg, e, s).syms, f, a[k := Assigned(sym, v)])
  {
    var sym := if k in a then a[k] else Declared.(mutable := true);
    var t := a[k := sym];
    assert t.Keys == a.Keys + {k};
    EvalKept(s.kind.expr, t, e.syms, s.scope, s.file, s.address);
    hide Eval, StorageKey;
    assert SeesEntry(e.syms[k], f[k]);
  }

  // ---- bytes written are bytes reserved

  function Room(m: Motion): nat {
    match m
    case Grow(n) => n
    case AlignTo(_, pad) => pad
    case _ => 0
  }

  /** The motion pass 1 worked out for statement `i`; `Keep` when it moves nothing by its kind. */
  function MotionOf(cfg: Config, c: Context, i: nat): Motion
    requires i < |c.prog|
  {
    var st := At(cfg, Start(cfg, c), c.prog, i);
    var s := c.prog[i];
    if s.segment !in st.segs || IsConditionalStmt(s) || s.kind.Const? || !CurrentActive(st.stack) then Keep
    else StmtMotion(cfg, st.segs[s.segment], AfterNames(cfg, st, s).syms, s, LogicalPc(st.segs[s.segment]))
  }

  lemma {:induction false} DataLength(name: DirName, syms: Symtab, s: Stmt, args: seq<Expr>, pc: int)
    requires DataBytes(name, syms, s, args, pc).ok
    ensures |DataBytes(name, syms, s, args, pc).bytes| ==
              (if name == DByte then 1 else if name == DWord then 2 else 3) * |args|
  {
    if args != [] {
      var w := if name == DByte then 1 else if name == DWord then 2 else 3;
      DataLength(name, syms, s, args[1..], pc + w);
      hide Arg;
    }
  }

  lemma InsnLength(cfg: Config, syms: Symtab, s: Stmt)
    requires s.kind.Insn? && InsnBytes(cfg, syms, s).ok
    ensures |InsnBytes(cfg, syms, s).bytes| == ModeSize(s.kind.mode)
  {
    hide Lookup, Arg, OperandInRange, BranchFits, Disp16;
  }

  /** The arguments pass 1 evaluated evaluate to the same values in the emission walk. */
  lemma ArgSeen(s: Stmt, p: Stmt, e: Expr, a: Symtab, w: Symtab, f: Symtab)
    requires Sees(w, f, a) && a.Keys <= f.Keys && p.file == s.file && p.scope == s.scope
    requires SameReading(a.Keys, f.Keys, s.scope, s.file, e) && Arg(s, a, e, p.address).Ok?
    ensures Arg(p, w, e, p.address) == Arg(s, a, e, p.address)
  {
    EvalKept(e, a, w, s.scope, s.file, p.address);
  }

  lemma TextLength(str: Option<string>, tail: seq<byte>)
    requires !TextMotion(str, |tail|).Fail? && TextBytes(str, tail).ok
    ensures |TextBytes(str, tail).bytes| == Room(TextMotion(str, |tail|))
  {
    hide DecodeString;
  }

  /** Directives whose size is plain text or the number of their operands. */
  lemma DirLength(cfg: Config, seg: Segment, s: Stmt, p: Stmt, seg': Segment, a: Symtab, w: Symtab)
    requires s.kind.Dir? && !IsConditionalStmt(s) && p.kind == s.kind && !SizedByValue(s)
    requires !DirMotion(cfg, seg, a, s, s.kind.dir, LogicalPc(seg)).Fail? && DirBytes(cfg, seg', w, p, p.kind.dir).ok
    ensures |DirBytes(cfg, seg', w, p, p.kind.dir).bytes| == Room(DirMotion(cfg, seg, a, s, s.kind.dir, LogicalPc(seg)))
  {
    var d := s.kind.dir;
    hide LogicalPc, ProcName, MessageFits, Arg, TextMotion, TextBytes, DataBytes;
    match d.name {
      case DByte | DWord | DBankTarget => DataLength(d.name, w, p, d.args, p.address);
      case DText => TextLength(d.str, []);
      case DAsciiz => TextLength(d.str, [0]);
      case _ =>
    }
  }

  /** `.res` and `.align` reserve what their operands say. */
  predicate SizedByValue(s: Stmt) { s.kind.Dir? && (s.kind.dir.name == DRes || s.kind.dir.name == DAlign) }

  /** An operand of statement `i` as the walk reads it, and as pass 2 does. */
  function WalkArg(cfg: Config, c: Context, i: nat, e: Expr): EvalResult
    requires i < |c.prog|
  {
    var st, s := At(cfg, Start(cfg, c), c.prog, i), c.prog[i];
    if s.segment in st.segs then Arg(s, AfterNames(cfg, st, s).syms, e, LogicalPc(st.segs[s.segment])) else Unresolved
  }

  function EmitArg(cfg: Config, c: Context, i: nat, e: Expr): EvalResult
    requires i < |c.prog|
  {
    var p := Pass1(cfg, c); Arg(p.prog[i], EmitAt(cfg, p, i).syms, e, p.prog[i].address)
  }

  /** What both passes say about an active statement of an error-free assembly. */
  lemma StatementSeen(cfg: Config, c: Context, i: nat)
    requires Pass1(cfg, c).errors == c.errors && i < |c.prog|
    requires Pass2(cfg, Pass1(cfg, c)).errors == Pass1(cfg, c).errors
    ensures c.prog[i].segment in At(cfg, Start(cfg, c), c.prog, i).segs && c.prog[i].segment in Pass1(cfg, c).segs
    ensures !MotionOf(cfg, c, i).Fail?
    ensures var st := At(cfg, Start(cfg, c), c.prog, i); var p := Pass1(cfg, c).prog[i];
            var g := st.segs[c.prog[i].segment];
            p.active == (IsConditionalStmt(c.prog[i]) || CurrentActive(st.stack)) && p.segment == c.prog[i].segment &&
            (p.kind.Const? <==> c.prog[i].kind.Const?) &&
            (!c.prog[i].kind.Const? ==> p.kind == c.prog[i].kind && p.address == LogicalPc(g)) &&
            p.file == c.prog[i].file && p.scope == c.prog[i].scope && p.emitAddress == g.base + g.pc &&
            p.rorgActive == g.rorgActive
    ensures var p := Pass1(cfg, c); !p.prog[i].kind.Const? ==>
              StmtBytes(cfg, SegmentOf(p.segs, p.prog[i]), EmitAt(cfg, p, i).syms, p.prog[i]).ok
  {
    hide Step, Pass1, Start, FinalSyms, AfterNames, At, Laid, LogicalPc, StmtBytes, MotionOf;
    LaidStays(cfg, c, i);
    LaidAt(cfg, c, i);
    UnknownSegment(cfg, c, i);
    EmissionQuiet(cfg, Pass1(cfg, c), i);
    LaidShape(cfg, At(cfg, Start(cfg, c), c.prog, i), c.prog[i]);
    ActiveMotion(cfg, c, i);
    SegmentKept(cfg, c, i);
  }

  /** Whatever names a program uses, statements that are not sized by a value get the bytes pass 1 made room for. */
  lemma ReservedAnyway(cfg: Config, c: Context, i: nat)
    requires Pass1(cfg, c).errors == c.errors && i < |c.prog| && SizesMatch(c.prog)
    requires Pass2(cfg, Pass1(cfg, c)).errors == Pass1(cfg, c).errors && !SizedByValue(c.prog[i])
    ensures |BytesOf(cfg, Pass1(cfg, c), i)| == Room(MotionOf(cfg, c, i))
  {
    hide Pass1, Start, AfterNames, StorageKey, At, LogicalPc, InsnBytes, DirBytes, DirMotion, EmitAt;
    StatementSeen(cfg, c, i);
    var c1 := Pass1(cfg, c);
    var st := At(cfg, Start(cfg, c), c.prog, i);
    var s, p := c.prog[i], c1.prog[i];
    if p.active && !IsConditionalStmt(s) && !s.kind.Const? {
      var a, w := AfterNames(cfg, st, s).syms, EmitAt(cfg, c1, i).syms;
      if s.kind.Insn? {
        InsnLength(cfg, w, p);
      } else if s.kind.Dir? {
        DirLength(cfg, st.segs[s.segment], s, p, c1.segs[s.segment], a, w);
      }
    } else if IsConditionalStmt(s) {
      ConditionalSilent(cfg, SegmentOf(c1.segs, p), EmitAt(cfg, c1, i).syms, p);
    }
  }

  /** An active `.res` writes as many bytes as pass 1 made room for exactly when both passes read the same count. */
  lemma ResExact(cfg: Config, c: Context, i: nat)
    requires Pass1(cfg, c).errors == c.errors && i < |c.prog| && Pass1(cfg, c).prog[i].active
    requires Pass2(cfg, Pass1(cfg, c)).errors == Pass1(cfg, c).errors && c.prog[i].kind.Dir?
    requires c.prog[i].kind.dir.name == DRes
    ensures |c.prog[i].kind.dir.args| == 1 && WalkArg(cfg, c, i, c.prog[i].kind.dir.args[0]).Ok?
    ensures |BytesOf(cfg, Pass1(cfg, c), i)| == Room(MotionOf(cfg, c, i)) <==>
              EmitArg(cfg, c, i, c.prog[i].kind.dir.args[0]) == WalkArg(cfg, c, i, c.prog[i].kind.dir.args[0])
  {
    hide Pass1, Start, AfterNames, At, LogicalPc, EmitAt, Eval;
    StatementSeen(cfg, c, i);
  }

  /** An `.align` whose boundary and offset read the same both times pads as it reserved. */
  lemma AlignReserved(cfg: Config, c: Context, i: nat)
    requires Pass1(cfg, c).errors == c.errors && i < |c.prog| && Pass1(cfg, c).prog[i].active
    requires Pass2(cfg, Pass1(cfg, c)).errors == Pass1(cfg, c).errors && c.prog[i].kind.Dir?
    requires c.prog[i].kind.dir.name == DAlign
    requires forall j :: 0 <= j < |c.prog[i].kind.dir.args| && j < 2 ==>
               EmitArg(cfg, c, i, c.prog[i].kind.dir.args[j]) == WalkArg(cfg, c, i, c.prog[i].kind.dir.args[j])
    ensures |BytesOf(cfg, Pass1(cfg, c), i)| == Room(MotionOf(cfg, c, i))
  {
    hide Pass1, Start, AfterNames, At, EmitAt, Eval, AlignPadding, LogicalPc, PowerOfTwoTest;
    StatementSeen(cfg, c, i);
    SegmentKept(cfg, c, i);
  }

  /** In an error-free assembly each statement gets exactly the bytes pass 1 made room for, if what sizes depend on
      reads the same entries both times. */
  lemma BytesAsReserved(cfg: Config, c: Context, i: nat)
    requires Clean(cfg, c) && i < |c.prog|
    requires Pass2(cfg, Pass1(cfg, c)).errors == Pass1(cfg, c).errors
    ensures |BytesOf(cfg, Pass1(cfg, c), i)| == Room(MotionOf(cfg, c, i))
  {
    hide Pass1, Pass2, BytesOf, Room, MotionOf, WalkArg, EmitArg, SizesMatch, Settled, Orderly, Step, At, Start;
    CleanErrors(cfg, c);
    if !SizedByValue(c.prog[i]) {
      ReservedAnyway(cfg, c, i);
    } else {
      StatementSeen(cfg, c, i);
      if Pass1(cfg, c).prog[i].active {
        var d := c.prog[i].kind.dir;
        forall j | 0 <= j < |d.args| && (d.name == DRes || j < 2) && WalkArg(cfg, c, i, d.args[j]).Ok?
          ensures EmitArg(cfg, c, i, d.args[j]) == WalkArg(cfg, c, i, d.args[j])
        {
          ArgKept(cfg, c, i, j);
        }
        if d.name == DRes {
          ResExact(cfg, c, i);
        } else {
          AlignRead(cfg, c, i);
          AlignReserved(cfg, c, i);
        }
      } else {
        InactiveSilent(cfg, c, i);
      }
    }
  }

  lemma InactiveSilent(cfg: Config, c: Context, i: nat)
    requires i < |c.prog| && !Pass1(cfg, c).prog[i].active
    requires c.prog[i].segment in At(cfg, Start(cfg, c), c.prog, i).segs
    requires Pass1(cfg, c).prog[i].active ==
               (IsConditionalStmt(c.prog[i]) || CurrentActive(At(cfg, Start(cfg, c), c.prog, i).stack))
    ensures BytesOf(cfg, Pass1(cfg, c), i) == [] && Room(MotionOf(cfg, c, i)) == 0
  {
    hide Pass1, At, Start, StmtMotion, EmitAt;
  }

  /** An `.align` the walk accepted had its operands. */
  lemma AlignRead(cfg: Config, c: Context, i: nat)
    requires i < |c.prog| && c.prog[i].kind.Dir? && c.prog[i].kind.dir.name == DAlign && !MotionOf(cfg, c, i).Fail?
    requires c.prog[i].segment in At(cfg, Start(cfg, c), c.prog, i).segs
    requires CurrentActive(At(cfg, Start(cfg, c), c.prog, i).stack)
    ensures forall j :: 0 <= j < |c.prog[i].kind.dir.args| && j < 2 ==>
              WalkArg(cfg, c, i, c.prog[i].kind.dir.args[j]).Ok?
  {
    hide At, Start, AfterNames, Eval, AlignPadding, LogicalPc, PowerOfTwoTest;
  }

  lemma ArgKept(cfg: Config, c: Context, i: nat, j: nat)
    requires Clean(cfg, c) && i < |c.prog| && SizedByValue(c.prog[i]) && j < |c.prog[i].kind.dir.args|
    requires Pass1(cfg, c).prog[i].active
    requires Pass2(cfg, Pass1(cfg, c)).errors == Pass1(cfg, c).errors
    requires (c.prog[i].kind.dir.name == DRes || j < 2) && WalkArg(cfg, c, i, c.prog[i].kind.dir.args[j]).Ok?
    ensures EmitArg(cfg, c, i, c.prog[i].kind.dir.args[j]) == WalkArg(cfg, c, i, c.prog[i].kind.dir.args[j])
  {
    hide *;
    CleanErrors(cfg, c);
    StatementSeen(cfg, c, i);
    PlainStmt(c.prog[i]);
    EmissionSees(cfg, c, i);
    NamesSeen(cfg, c, i);
    LaidStays(cfg, c, i);
    SizeOperand(Laid(cfg, Start(cfg, c), c.prog, i), c.prog[i], j);
    CleanOrderly(cfg, c);
    OperandReads(cfg, c, i, FinalSyms(cfg, c), c.prog[i].kind.dir.args[j]);
    ArgFrom(cfg, c, i, c.prog[i].kind.dir.args[j]);
  }

  lemma PlainStmt(s: Stmt)
    requires SizedByValue(s)
    ensures s.kind.Dir? && !IsConditionalStmt(s) && !s.kind.Const?
  {
  }

  lemma SizeOperand(p: Stmt, s: Stmt, j: nat)
    requires SizedByValue(s) && p.kind == s.kind && j < |s.kind.dir.args| && (s.kind.dir.name == DRes || j < 2)
    ensures s.kind.dir.args[j] in SizeOperands(p)
  {
    var args := s.kind.dir.args;
    if |args| > 2 { assert args[..2][j % 2] == args[j % 2]; }
  }

  lemma CleanOrderly(cfg: Config, c: Context)
    requires Clean(cfg, c)
    ensures Orderly(cfg, c, FinalSyms(cfg, c))
  {
    hide Settled, Orderly;
  }

  lemma ArgFrom(cfg: Config, c: Context, i: nat, e: Expr)
    requires i < |c.prog| && c.prog[i].segment in At(cfg, Start(cfg, c), c.prog, i).segs && !c.prog[i].kind.Const?
    requires Pass1(cfg, c).prog[i].file == c.prog[i].file && Pass1(cfg, c).prog[i].scope == c.prog[i].scope
    requires Pass1(cfg, c).prog[i].address == LogicalPc(At(cfg, Start(cfg, c), c.prog, i).segs[c.prog[i].segment])
    requires var f := FinalSyms(cfg, c); var a := AfterNames(cfg, At(cfg, Start(cfg, c), c.prog, i), c.prog[i]).syms;
             Sees(EmitAt(cfg, Pass1(cfg, c), i).syms, f, a) && a.Keys <= f.Keys &&
             SameReading(KnownAt(cfg, c, i), f.Keys, c.prog[i].scope, c.prog[i].file, e)
    requires WalkArg(cfg, c, i, e).Ok?
    ensures EmitArg(cfg, c, i, e) == WalkArg(cfg, c, i, e)
  {
    hide Pass1, At, Start, AfterNames, FinalSyms, EmitAt, Sees, SameReading, LogicalPc, Arg;
    ArgSeen(c.prog[i], Pass1(cfg, c).prog[i], e, AfterNames(cfg, At(cfg, Start(cfg, c), c.prog, i), c.prog[i]).syms,
            EmitAt(cfg, Pass1(cfg, c), i).syms, FinalSyms(cfg, c));
  }

  lemma ConditionalSilent(cfg: Config, seg: Segment, syms: Symtab, s: Stmt)
    requires IsConditionalStmt(s)
    ensures StmtBytes(cfg, seg, syms, s).bytes == []
  {
  }

  /** No statement that reports an error is hidden in an error-free emission. */
  lemma EmissionQuiet(cfg: Config, c: Context, i: nat)
    requires i < |c.prog| && Pass2(cfg, c).errors == c.errors
    ensures EmitAt(cfg, c, i).errors == c.errors && EmitAt(cfg, c, i + 1).errors == c.errors
    ensures !c.prog[i].kind.Const? ==>
              StmtBytes(cfg, SegmentOf(c.segs, c.prog[i]), EmitAt(cfg, c, i).syms, c.prog[i]).ok
    ensures !c.prog[i].kind.Const? ==> Write(EmitAt(cfg, c, i).image, c.prog[i].emitAddress, BytesOf(cfg, c, i)).1
  {
    hide StmtBytes, Write, StorageKey, Eval;
    EmissionErrorsGrow(cfg, c, 0, i);
    EmissionErrorsGrow(cfg, c, i, i + 1);
    EmissionErrorsGrow(cfg, c, i + 1, |c.prog|);
  }

  lemma {:induction false} EmissionErrorsGrow(cfg: Config, c: Context, i: nat, j: nat)
    requires i <= j <= |c.prog|
    ensures EmitAt(cfg, c, i).errors <= EmitAt(cfg, c, j).errors
    decreases j - i
  {
    hide StmtBytes, Write, StorageKey, Eval;
    if i < j { EmissionErrorsGrow(cfg, c, i, j - 1); }
  }

  /** An error-free walk never meets a failing directive. */
  lemma ActiveMotion(cfg: Config, c: Context, i: nat)
    requires Pass1(cfg, c).errors == c.errors && i < |c.prog|
    ensures !MotionOf(cfg, c, i).Fail?
  {
    hide Pass1, Start, AfterNames, StmtMotion, LogicalPc, CondStep, ConstStep, StorageKey, Placed;
    NoErrorsOnTheWay(cfg, c, i);
    NoErrorsOnTheWay(cfg, c, i + 1);
    var st := At(cfg, Start(cfg, c), c.prog, i);
    var s := c.prog[i];
    if s.segment in st.segs && !IsConditionalStmt(s) && !s.kind.Const? && CurrentActive(st.stack) {
      NamesGrow(cfg, st, s);
      MotionStep(cfg, st, c.prog[i]);
    }
  }

  lemma MotionStep(cfg: Config, st: State, s: Stmt)
    requires s.segment in st.segs && !IsConditionalStmt(s) && !s.kind.Const? && CurrentActive(st.stack)
    ensures var a := AfterNames(cfg, st, s);
            var m := StmtMotion(cfg, st.segs[s.segment], a.syms, s, LogicalPc(st.segs[s.segment]));
            Step(cfg, st, s).0 == a.(segs := a.segs[s.segment := Moved(st.segs[s.segment], m)],
                                     errors := a.errors + if m.Fail? then 1 else 0)
  {
    hide CondStep, AfterNames, StmtMotion, ConstStep, LogicalPc, StorageKey;
  }

  lemma SegmentKept(cfg: Config, c: Context, i: nat)
    requires i < |c.prog| && c.prog[i].segment in At(cfg, Start(cfg, c), c.prog, i).segs
    ensures c.prog[i].segment in Pass1(cfg, c).segs
    ensures var n := c.prog[i].segment; var g, h := At(cfg, Start(cfg, c), c.prog, i).segs[n], Pass1(cfg, c).segs[n];
            h.base == g.base && h.relocPhase == g.relocPhase && h.capacity == g.capacity
  {
    hide Step, FinalSyms, CheckErrors, LaidProg;
    AtGrows(cfg, Start(cfg, c), c.prog, i, |c.prog|);
  }
}
