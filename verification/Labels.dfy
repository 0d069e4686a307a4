/** In an error-free pass every label's final value is the address of its statement. */
module Labels {
  import opened Support
  import opened Expressions
  import opened Opcodes
  import opened Program
  import opened Layout
  import opened Agreement

  /** Statement `j` defines a label under entry `k`. */
  predicate Defines(cfg: Config, c: Context, j: nat, k: Key)
    requires j < |c.prog|
  {
    var s := c.prog[j];
    s.labelName.Some? && !IsConditionalStmt(s) && CurrentActive(At(cfg, Start(cfg, c), c.prog, j).stack) &&
    k == StorageKey(cfg, s, s.labelName.value)
  }

  lemma LabelStep(cfg: Config, st: State, s: Stmt)
    requires s.segment in st.segs && s.labelName.Some? && !IsConditionalStmt(s) && CurrentActive(st.stack)
    requires Step(cfg, st, s).0.errors == st.errors
    ensures var k := StorageKey(cfg, s, s.labelName.value); var a := AfterNames(cfg, st, s).syms;
            k !in st.syms && k in a && a[k] == AddressSymbol(st.segs[s.segment], s)
  {
    hide CondStep, StmtMotion, ConstStep, StorageKey, ProcName, AddressSymbol;
    var a := AfterNames(cfg, st, s);
    NamesGrow(cfg, st, s);
    if s.kind.Const? { ConstStepGrows(cfg, a, s, LogicalPc(st.segs[s.segment])); }
  }

  lemma {:induction false} PublishElsewhere(order: seq<string>, n: nat, segs: map<string, Segment>, syms: Symtab,
      known: Symtab, k: Key)
    requires n <= |order| && k in syms && k !in known
    requires forall i :: 0 <= i < n && order[i] in segs ==> SegmentNamesIn(known, order[i])
    ensures k in Publish(order, n, segs, syms) && Publish(order, n, segs, syms)[k] == syms[k]
  {
    if n > 0 { PublishElsewhere(order, n - 1, segs, syms, known, k); }
  }

  predicate SegmentNamesIn(known: Symtab, name: string) {
    Global(name + "_BASE") in known && Global(name + "_SIZE") in known &&
    Global(name + "_END") in known && Global(name + "_CAPACITY") in known
  }

  lemma {:induction false} SweepElsewhere(cfg: Config, w: Symtab, p: seq<Stmt>, n: nat, k: Key)
    requires n <= |p| && k in w
    requires forall m :: 0 <= m < |p| && Deferred(p[m]) ==> StorageKey(cfg, p[m], p[m].kind.name) != k
    ensures k in Sweep(cfg, w, p, n) && Sweep(cfg, w, p, n)[k] == w[k]
  {
    if n > 0 {
      SweepElsewhere(cfg, w, p, n - 1, k);
      hide Eval, StorageKey;
    }
  }

  lemma {:induction false} SweepsElsewhere(cfg: Config, w: Symtab, p: seq<Stmt>, fuel: nat, k: Key)
    requires k in w
    requires forall m :: 0 <= m < |p| && Deferred(p[m]) ==> StorageKey(cfg, p[m], p[m].kind.name) != k
    ensures k in Sweeps(cfg, w, p, fuel) && Sweeps(cfg, w, p, fuel)[k] == w[k]
    decreases fuel
  {
    if fuel > 0 {
      SweepElsewhere(cfg, w, p, |p|, k);
      hide Sweep, StorageKey;
      SweepsElsewhere(cfg, Sweep(cfg, w, p, |p|), p, fuel - 1, k);
    }
  }

  /** No equate owns a label's entry. */
  lemma EquateElsewhere(cfg: Config, c: Context, j: nat, k: Key, m: nat)
    requires Pass1(cfg, c).errors == c.errors && j < |c.prog| && m < |c.prog| && Defines(cfg, c, j, k)
    requires Deferred(LaidProg(cfg, c)[m])
    ensures StorageKey(cfg, LaidProg(cfg, c)[m], LaidProg(cfg, c)[m].kind.name) != k
  {
    hide Pass1, Step, Start, AfterNames, StorageKey, At;
    var st0 := Start(cfg, c);
    NoErrorsOnTheWay(cfg, c, j);
    NoErrorsOnTheWay(cfg, c, j + 1);
    NoErrorsOnTheWay(cfg, c, m);
    NoErrorsOnTheWay(cfg, c, m + 1);
    UnknownSegment(cfg, c, j);
    UnknownSegment(cfg, c, m);
    LaidAt(cfg, c, j);
    LaidAt(cfg, c, m);
    var stj, stm := At(cfg, st0, c.prog, j), At(cfg, st0, c.prog, m);
    LabelStep(cfg, stj, c.prog[j]);
    NamesThenRest(cfg, stj, c.prog[j]);
    LaidShape(cfg, stm, c.prog[m]);
    EquateStep(cfg, stm, c.prog[m]);
    NamesGrow(cfg, stm, c.prog[m]);
    StorageKeyShape(cfg, c.prog[m], LaidProg(cfg, c)[m], c.prog[m].kind.name);
    if m < j {
      AtGrows(cfg, st0, c.prog, m + 1, j);
    } else if m > j {
      AtGrows(cfg, st0, c.prog, j + 1, m);
    }
  }

  lemma SegmentNamesKnown(cfg: Config, c: Context)
    ensures forall i :: 0 <= i < |cfg.order| && cfg.order[i] in c.segs ==>
              SegmentNamesIn(Start(cfg, c).syms, cfg.order[i])
  {
    var segs := ResetSegments(c.segs);
    PublishHolds(cfg.order, |cfg.order|, segs);
    hide Publish;
    forall i | 0 <= i < |cfg.order| && cfg.order[i] in c.segs
      ensures SegmentNamesIn(Start(cfg, c).syms, cfg.order[i])
    {
      assert PublishedOne(Start(cfg, c).syms, cfg.order[i], segs[cfg.order[i]]);
    }
  }

  lemma LabelWalked(cfg: Config, c: Context, j: nat, k: Key)
    requires Pass1(cfg, c).errors == c.errors && j < |c.prog| && Defines(cfg, c, j, k)
    ensures c.prog[j].segment in At(cfg, Start(cfg, c), c.prog, j).segs
    ensures k !in Start(cfg, c).syms && k in Walked(cfg, c).syms
    ensures Walked(cfg, c).syms[k] ==
              AddressSymbol(At(cfg, Start(cfg, c), c.prog, j).segs[c.prog[j].segment], c.prog[j])
    ensures Walked(cfg, c).segs.Keys == c.segs.Keys
  {
    hide Pass1, Step, Start, AfterNames, StorageKey, At, AddressSymbol;
    var st0 := Start(cfg, c);
    NoErrorsOnTheWay(cfg, c, j);
    NoErrorsOnTheWay(cfg, c, j + 1);
    UnknownSegment(cfg, c, j);
    LaidAt(cfg, c, j);
    var stj := At(cfg, st0, c.prog, j);
    LabelStep(cfg, stj, c.prog[j]);
    NamesThenRest(cfg, stj, c.prog[j]);
    AtGrows(cfg, st0, c.prog, j + 1, |c.prog|);
    AtGrows(cfg, st0, c.prog, 0, j);
    AtGrows(cfg, st0, c.prog, 0, |c.prog|);
    StartIsFirst(cfg, c);
    AddressImmutable(stj.segs[c.prog[j].segment], c.prog[j]);
    WalkedIsLast(cfg, c);
  }

  /** A label of an error-free pass ends up with its statement's address, whatever the sweeps do. */
  lemma LabelFinal(cfg: Config, c: Context, j: nat, k: Key)
    requires Pass1(cfg, c).errors == c.errors && j < |c.prog| && Defines(cfg, c, j, k)
    ensures c.prog[j].segment in At(cfg, Start(cfg, c), c.prog, j).segs
    ensures k in FinalSyms(cfg, c) &&
            FinalSyms(cfg, c)[k] == AddressSymbol(At(cfg, Start(cfg, c), c.prog, j).segs[c.prog[j].segment], c.prog[j])
  {
    hide Pass1, Step, Start, StorageKey, At, Publish, Sweeps, SegmentNamesIn, AddressSymbol, LaidProg, Walked, Defines;
    SegmentNamesKnown(cfg, c);
    LabelWalked(cfg, c, j, k);
    var w := Walked(cfg, c);
    PublishElsewhere(cfg.order, |cfg.order|, Snapshot(w.segs), w.syms, Start(cfg, c).syms, k);
    LaidLength(cfg, c);
    forall m | 0 <= m < |LaidProg(cfg, c)| && Deferred(LaidProg(cfg, c)[m])
      ensures StorageKey(cfg, LaidProg(cfg, c)[m], LaidProg(cfg, c)[m].kind.name) != k
    {
      EquateElsewhere(cfg, c, j, k, m);
    }
    SweepsElsewhere(cfg, Republished(cfg, c), LaidProg(cfg, c), SWEEP_LIMIT, k);
  }

  lemma StartIsFirst(cfg: Config, c: Context)
    ensures At(cfg, Start(cfg, c), c.prog, 0) == Start(cfg, c)
    ensures Start(cfg, c).segs.Keys == c.segs.Keys
  {
    hide Publish;
  }

  lemma AddressImmutable(seg: Segment, s: Stmt)
    ensures !AddressSymbol(seg, s).mutable && AddressSymbol(seg, s).defined
    ensures AddressSymbol(seg, s).value == LogicalPc(seg)
  {
    hide SegmentKind;
  }
}
