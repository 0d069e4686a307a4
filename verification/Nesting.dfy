/** A pass without errors has only met well-nested conditional blocks, so the meaning of the nesting is the meaning
    of every program that assembles (assembler/asm_pass.c). */
module Nesting {
  import opened Support
  import opened Expressions
  import opened Program
  import opened Layout
  import opened Agreement
  import opened Conditionals

  predicate Arm(s: Stmt) {
    s.kind.Dir? && match s.kind.dir.name case DElif | DElifdef | DElifndef | DElse | DEndif => true case _ => false
  }

  predicate Opening(s: Stmt) {
    s.kind.Dir? && match s.kind.dir.name case DIf | DIfdef | DIfndef => true case _ => false
  }

  predicate ElseIf(s: Stmt) {
    s.kind.Dir? && match s.kind.dir.name case DElif | DElifdef | DElifndef => true case _ => false
  }

  /** The walk over the whole program reports nothing from statement `i` on and leaves no block open. */
  predicate QuietFrom(cfg: Config, st0: State, prog: seq<Stmt>, i: nat) {
    i <= |prog| && At(cfg, st0, prog, |prog|).errors == At(cfg, st0, prog, i).errors &&
    At(cfg, st0, prog, |prog|).stack == []
  }

  lemma QuietStep(cfg: Config, st0: State, prog: seq<Stmt>, i: nat, k: nat)
    requires QuietFrom(cfg, st0, prog, i) && i <= k <= |prog|
    ensures QuietFrom(cfg, st0, prog, k)
    ensures k < |prog| ==> Step(cfg, At(cfg, st0, prog, k), prog[k]).0.errors == At(cfg, st0, prog, k).errors
    ensures k < |prog| ==> At(cfg, st0, prog, k + 1) == Step(cfg, At(cfg, st0, prog, k), prog[k]).0
  {
    hide Step;
    AtGrows(cfg, st0, prog, i, k);
    AtGrows(cfg, st0, prog, k, |prog|);
    if k < |prog| {
      AtGrows(cfg, st0, prog, k, k + 1);
      AtGrows(cfg, st0, prog, k + 1, |prog|);
    }
  }

  lemma NamesStay(cfg: Config, st0: State, prog: seq<Stmt>, k: nat)
    requires k <= |prog|
    ensures At(cfg, st0, prog, k).segs.Keys == st0.segs.Keys
  {
    hide Step;
    AtGrows(cfg, st0, prog, 0, k);
  }

  // ---- one statement without an error

  lemma QuietKnown(cfg: Config, st: State, s: Stmt)
    requires Step(cfg, st, s).0.errors == st.errors
    ensures s.segment in st.segs
  {
    hide CondStep, ConstStep, AfterNames, StmtMotion, LogicalPc, Placed;
  }

  lemma QuietPlain(cfg: Config, st: State, s: Stmt)
    requires !IsConditionalStmt(s)
    ensures Step(cfg, st, s).0.stack == st.stack
  {
    hide ConstStep, AfterNames, StmtMotion, LogicalPc, Placed, CondStep;
    if s.segment in st.segs {
      NamesGrow(cfg, st, s);
      if s.kind.Const? { ConstStepGrows(cfg, AfterNames(cfg, st, s), s, LogicalPc(st.segs[s.segment])); }
    }
  }

  lemma QuietOpening(cfg: Config, st: State, s: Stmt)
    requires Opening(s) && s.segment in st.segs && Step(cfg, st, s).0.errors == st.errors
    ensures Opens(s) && |Step(cfg, st, s).0.stack| == |st.stack| + 1 && Step(cfg, st, s).0.stack[1..] == st.stack
    ensures !Step(cfg, st, s).0.stack[0].sawElse
  {
    hide Eval, StorageKey, NameDefined, LogicalPc, CurrentActive;
  }

  lemma QuietElseIf(cfg: Config, st: State, s: Stmt)
    requires ElseIf(s) && s.segment in st.segs && Step(cfg, st, s).0.errors == st.errors
    ensures Continues(s) && st.stack != [] && !st.stack[0].sawElse
    ensures Step(cfg, st, s).0.stack != [] && Step(cfg, st, s).0.stack[1..] == st.stack[1..]
    ensures !Step(cfg, st, s).0.stack[0].sawElse
  {
    hide Eval, StorageKey, NameDefined, LogicalPc;
  }

  lemma QuietElse(cfg: Config, st: State, s: Stmt)
    requires s.kind.Dir? && s.kind.dir.name == DElse && s.segment in st.segs && Step(cfg, st, s).0.errors == st.errors
    ensures Bare(s, DElse) && st.stack != [] && !st.stack[0].sawElse
    ensures Step(cfg, st, s).0.stack != [] && Step(cfg, st, s).0.stack[1..] == st.stack[1..]
    ensures Step(cfg, st, s).0.stack[0].sawElse
  {
    hide LogicalPc, Judge;
  }

  lemma QuietEnd(cfg: Config, st: State, s: Stmt)
    requires s.kind.Dir? && s.kind.dir.name == DEndif && s.segment in st.segs && Step(cfg, st, s).0.errors == st.errors
    ensures Bare(s, DEndif) && st.stack != [] && Step(cfg, st, s).0.stack == st.stack[1..]
  {
    hide LogicalPc, Judge;
  }

  // ---- collecting the tree

  /** The blocks from statement `i` on, up to the next arm of the block around them. */
  lemma {:induction false} Collect(cfg: Config, st0: State, prog: seq<Stmt>, i: nat) returns (b: Blocks, k: nat)
    requires i <= |prog| && QuietFrom(cfg, st0, prog, i)
    ensures i <= k <= |prog| && prog[i..k] == Flatten(b) && WellNested(b, st0.segs.Keys)
    ensures At(cfg, st0, prog, k).stack == At(cfg, st0, prog, i).stack
    ensures k < |prog| ==> Arm(prog[k])
    decreases |prog| - i, 0
  {
    hide Step, At, QuietFrom, WellNested, Flatten, Opens, Bare, Continues;
    if i == |prog| || Arm(prog[i]) {
      b, k := Nil, i;
      NothingNested(st0.segs.Keys);
    } else {
      QuietStep(cfg, st0, prog, i, i);
      QuietStep(cfg, st0, prog, i, i + 1);
      var st := At(cfg, st0, prog, i);
      QuietKnown(cfg, st, prog[i]);
      NamesStay(cfg, st0, prog, i);
      if Opening(prog[i]) {
        QuietOpening(cfg, st, prog[i]);
        var body, k1 := Collect(cfg, st0, prog, i + 1);
        QuietEndsClosed(cfg, st0, prog, i, k1);
        QuietStep(cfg, st0, prog, i, k1);
        var arms, k2 := CollectArms(cfg, st0, prog, k1);
        QuietStep(cfg, st0, prog, i, k2);
        var after, k3 := Collect(cfg, st0, prog, k2);
        b, k := Block(prog[i], body, arms, after), k3;
        SlicesJoin(prog, i, k1, k2, k3);
        BlockNested(prog[i], body, arms, after, st0.segs.Keys);
      } else {
        NotConditional(prog[i]);
        QuietPlain(cfg, st, prog[i]);
        var rest, k1 := Collect(cfg, st0, prog, i + 1);
        b, k := Conditionals.Plain(prog[i], rest), k1;
        assert prog[i..k] == [prog[i]] + prog[i + 1..k];
        PlainNested(prog[i], rest, st0.segs.Keys);
      }
    }
  }

  /** The arms of the block whose next arm stands at `i`. */
  lemma {:induction false} CollectArms(cfg: Config, st0: State, prog: seq<Stmt>, i: nat) returns (a: Arms, k: nat)
    requires QuietFrom(cfg, st0, prog, i) && i < |prog| && Arm(prog[i])
    ensures i < k <= |prog| && prog[i..k] == FlattenArms(a) && WellNestedArms(a, st0.segs.Keys)
    ensures At(cfg, st0, prog, i).stack != [] && At(cfg, st0, prog, k).stack == At(cfg, st0, prog, i).stack[1..]
    decreases |prog| - i, 1
  {
    hide Step, At, QuietFrom, WellNested, WellNestedArms, Flatten, FlattenArms, Opens, Bare, Continues;
    QuietStep(cfg, st0, prog, i, i);
    QuietStep(cfg, st0, prog, i, i + 1);
    var st := At(cfg, st0, prog, i);
    QuietKnown(cfg, st, prog[i]);
    NamesStay(cfg, st0, prog, i);
    if prog[i].kind.dir.name == DEndif {
      QuietEnd(cfg, st, prog[i]);
      a, k := Close(prog[i]), i + 1;
      assert prog[i..k] == [prog[i]];
      CloseNested(prog[i], st0.segs.Keys);
    } else {
      if ElseIf(prog[i]) { QuietElseIf(cfg, st, prog[i]); } else { QuietElse(cfg, st, prog[i]); }
      var body, k1 := Collect(cfg, st0, prog, i + 1);
      QuietEndsClosed(cfg, st0, prog, i, k1);
      QuietStep(cfg, st0, prog, i, k1);
      var st1 := At(cfg, st0, prog, k1);
      QuietKnown(cfg, st1, prog[k1]);
      NamesStay(cfg, st0, prog, k1);
      if ElseIf(prog[i]) {
        var more, k2 := CollectArms(cfg, st0, prog, k1);
        a, k := Elif(prog[i], body, more), k2;
        ArmSlices(prog, i, k1, k2);
        ElifNested(prog[i], body, more, st0.segs.Keys);
      } else {
        OnlyEnd(cfg, st1, prog[k1]);
        QuietEnd(cfg, st1, prog[k1]);
        a, k := Else(prog[i], body, prog[k1]), k1 + 1;
        ArmSlices(prog, i, k1, k1 + 1);
        assert prog[k1..k1 + 1] == [prog[k1]];
        ElseNested(prog[i], body, prog[k1], st0.segs.Keys);
      }
    }
  }

  /** While a block is open the program goes on. */
  lemma QuietEndsClosed(cfg: Config, st0: State, prog: seq<Stmt>, i: nat, k: nat)
    requires QuietFrom(cfg, st0, prog, i) && k <= |prog| && At(cfg, st0, prog, k).stack != []
    ensures k < |prog|
  {
    hide Step, At;
  }

  /** Behind `.else` only `.endif` closes without an error. */
  lemma OnlyEnd(cfg: Config, st: State, s: Stmt)
    requires Arm(s) && s.segment in st.segs && st.stack != [] && st.stack[0].sawElse
    requires Step(cfg, st, s).0.errors == st.errors
    ensures s.kind.Dir? && s.kind.dir.name == DEndif
  {
    if ElseIf(s) {
      QuietElseIf(cfg, st, s);
    } else if s.kind.dir.name == DElse {
      QuietElse(cfg, st, s);
    }
    hide Step;
  }

  lemma NotConditional(s: Stmt)
    requires !Arm(s) && !Opening(s)
    ensures !IsConditionalStmt(s)
  {
  }

  lemma NothingNested(names: set<string>)
    ensures WellNested(Nil, names) && Flatten(Nil) == []
  {
  }

  lemma PlainNested(s: Stmt, rest: Blocks, names: set<string>)
    requires !IsConditionalStmt(s) && s.segment in names && WellNested(rest, names)
    ensures WellNested(Conditionals.Plain(s, rest), names)
    ensures Flatten(Conditionals.Plain(s, rest)) == [s] + Flatten(rest)
  {
  }

  lemma BlockNested(open: Stmt, body: Blocks, arms: Arms, after: Blocks, names: set<string>)
    requires Opens(open) && open.segment in names && WellNested(body, names) && WellNestedArms(arms, names)
    requires WellNested(after, names)
    ensures WellNested(Block(open, body, arms, after), names)
    ensures Flatten(Block(open, body, arms, after)) == [open] + (Flatten(body) + (FlattenArms(arms) + Flatten(after)))
  {
  }

  lemma CloseNested(end: Stmt, names: set<string>)
    requires Bare(end, DEndif) && end.segment in names
    ensures WellNestedArms(Close(end), names) && FlattenArms(Close(end)) == [end]
  {
  }

  lemma ElseNested(els: Stmt, body: Blocks, end: Stmt, names: set<string>)
    requires Bare(els, DElse) && els.segment in names && WellNested(body, names)
    requires Bare(end, DEndif) && end.segment in names
    ensures WellNestedArms(Else(els, body, end), names)
    ensures FlattenArms(Else(els, body, end)) == [els] + (Flatten(body) + [end])
  {
  }

  lemma ElifNested(test: Stmt, body: Blocks, more: Arms, names: set<string>)
    requires Continues(test) && test.segment in names && WellNested(body, names) && WellNestedArms(more, names)
    ensures WellNestedArms(Elif(test, body, more), names)
    ensures FlattenArms(Elif(test, body, more)) == [test] + (Flatten(body) + FlattenArms(more))
  {
  }

  lemma SlicesJoin(s: seq<Stmt>, i: nat, j: nat, k: nat, m: nat)
    requires i < j <= k <= m <= |s|
    ensures s[i..m] == [s[i]] + (s[i + 1..j] + (s[j..k] + s[k..m]))
  {
  }

  lemma ArmSlices(s: seq<Stmt>, i: nat, j: nat, k: nat)
    requires i < j <= k <= |s|
    ensures s[i..k] == [s[i]] + (s[i + 1..j] + s[j..k])
  {
  }

  /** A pass that reports nothing has met well-nested source: its statements are the flattening of a tree of blocks. */
  lemma QuietIsNested(cfg: Config, c: Context) returns (b: Blocks)
    requires Pass1(cfg, c).errors == c.errors
    ensures c.prog == Flatten(b) && WellNested(b, c.segs.Keys)
  {
    hide Flatten, WellNested, Pass1, Step;
    var st0 := Start(cfg, c);
    PassQuiet(cfg, c);
    var k;
    b, k := Collect(cfg, st0, c.prog, 0);
    PassStarts(cfg, c);
    if k < |c.prog| {
      QuietStep(cfg, st0, c.prog, 0, k);
      QuietKnown(cfg, At(cfg, st0, c.prog, k), c.prog[k]);
      ArmNeedsBlock(cfg, At(cfg, st0, c.prog, k), c.prog[k]);
    }
    assert c.prog[0..k] == c.prog;
  }

  lemma PassQuiet(cfg: Config, c: Context)
    requires Pass1(cfg, c).errors == c.errors
    ensures QuietFrom(cfg, Start(cfg, c), c.prog, 0)
  {
    hide Step, Pass1;
    NoErrorsOnTheWay(cfg, c, 0);
    NoErrorsOnTheWay(cfg, c, |c.prog|);
  }

  lemma ArmNeedsBlock(cfg: Config, st: State, s: Stmt)
    requires Arm(s) && s.segment in st.segs && Step(cfg, st, s).0.errors == st.errors
    ensures st.stack != []
  {
    hide LogicalPc, Judge, WellShaped, NoArgs;
  }

  /** So for every program: a pass that reports nothing assembles exactly the statements the meaning of its blocks
      selects, in the order and with the effect it gives them. */
  lemma QuietSelects(cfg: Config, c: Context) returns (b: Blocks)
    requires Pass1(cfg, c).errors == c.errors
    ensures c.prog == Flatten(b) && WellNested(b, c.segs.Keys)
    ensures Walked(cfg, c) == Run(cfg, Start(cfg, c), b).0 && |Run(cfg, Start(cfg, c), b).1| == |c.prog|
    ensures forall i :: 0 <= i < |c.prog| ==>
              Laid(cfg, Start(cfg, c), c.prog, i).active == Run(cfg, Start(cfg, c), b).1[i]
  {
    hide *;
    b := QuietIsNested(cfg, c);
    PassSelects(cfg, c, b);
  }
}
