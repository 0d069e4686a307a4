/** Conditional assembly: the flat frame stack of pass 1 does what the nesting of the blocks means
    (assembler/asm_pass.c, conditional_process_directive and the walk around it). */
module Conditionals {
  import opened Support
  import opened Expressions
  import opened Program
  import opened Layout

  /** Well-nested source: a conditional block has a first arm, further arms and a close. */
  datatype Blocks =
    | Nil
    | Plain(s: Stmt, rest: Blocks)
    | Block(open: Stmt, body: Blocks, arms: Arms, after: Blocks)

  datatype Arms =
    | Close(end: Stmt)
    | Else(els: Stmt, elseBody: Blocks, elseEnd: Stmt)
    | Elif(test: Stmt, elifBody: Blocks, more: Arms)

  function Flatten(b: Blocks): seq<Stmt> {
    match b
    case Nil => []
    case Plain(s, rest) => [s] + Flatten(rest)
    case Block(open, body, arms, after) => [open] + (Flatten(body) + (FlattenArms(arms) + Flatten(after)))
  }

  function FlattenArms(a: Arms): seq<Stmt> {
    match a
    case Close(end) => [end]
    case Else(els, body, end) => [els] + (Flatten(body) + [end])
    case Elif(test, body, more) => [test] + (Flatten(body) + FlattenArms(more))
  }

  /** One argument and no text; the name tests take a name. */
  predicate Asks(d: Directive, byValue: DirName) {
    d.str.None? && |d.args| == 1 && (d.name == byValue || d.args[0].Ident?)
  }

  predicate Opens(s: Stmt) {
    s.kind.Dir? && (s.kind.dir.name == DIf || s.kind.dir.name == DIfdef || s.kind.dir.name == DIfndef) &&
    Asks(s.kind.dir, DIf)
  }

  predicate Continues(s: Stmt) {
    s.kind.Dir? && (s.kind.dir.name == DElif || s.kind.dir.name == DElifdef || s.kind.dir.name == DElifndef) &&
    Asks(s.kind.dir, DElif)
  }

  predicate Bare(s: Stmt, name: DirName) {
    s.kind.Dir? && s.kind.dir.name == name && s.kind.dir.str.None? && s.kind.dir.args == []
  }

  predicate WellNested(b: Blocks, names: set<string>) {
    match b
    case Nil => true
    case Plain(s, rest) => !IsConditionalStmt(s) && s.segment in names && WellNested(rest, names)
    case Block(open, body, arms, after) =>
      Opens(open) && open.segment in names && WellNested(body, names) && WellNestedArms(arms, names) &&
      WellNested(after, names)
  }

  predicate WellNestedArms(a: Arms, names: set<string>) {
    match a
    case Close(end) => Bare(end, DEndif) && end.segment in names
    case Else(els, body, end) =>
      Bare(els, DElse) && els.segment in names && WellNested(body, names) && Bare(end, DEndif) && end.segment in names
    case Elif(test, body, more) =>
      Continues(test) && test.segment in names && WellNested(body, names) && WellNestedArms(more, names)
  }

  // ---- the flat walk

  /** Pass 1's walk with the `active` marks it leaves. */
  function Walk(cfg: Config, st: State, prog: seq<Stmt>): (State, seq<bool>)
    decreases |prog|
  {
    if prog == [] then (st, [])
    else
      var r := Step(cfg, st, prog[0]);
      var w := Walk(cfg, r.0, prog[1..]);
      (w.0, [r.1.active] + w.1)
  }

  /** The walk is the one pass 1 makes. */
  lemma {:induction false} WalkIsPass(cfg: Config, st0: State, prog: seq<Stmt>, i: nat)
    requires i <= |prog|
    ensures Walk(cfg, At(cfg, st0, prog, i), prog[i..]).0 == At(cfg, st0, prog, |prog|)
    ensures var m := Walk(cfg, At(cfg, st0, prog, i), prog[i..]).1;
            |m| == |prog| - i && forall j :: i <= j < |prog| ==> m[j - i] == Laid(cfg, st0, prog, j).active
    decreases |prog| - i
  {
    hide Step;
    if i < |prog| {
      var st := At(cfg, st0, prog, i);
      var r := Step(cfg, st, prog[i]);
      assert prog[i..][0] == prog[i] && prog[i..][1..] == prog[i + 1..];
      assert At(cfg, st0, prog, i + 1) == r.0;
      WalkIsPass(cfg, st0, prog, i + 1);
      assert Walk(cfg, st, prog[i..]).1 == [r.1.active] + Walk(cfg, r.0, prog[i + 1..]).1;
    }
  }

  lemma {:induction false} WalkAppend(cfg: Config, st: State, p: seq<Stmt>, q: seq<Stmt>)
    ensures Walk(cfg, st, p + q) ==
              (Walk(cfg, Walk(cfg, st, p).0, q).0, Walk(cfg, st, p).1 + Walk(cfg, Walk(cfg, st, p).0, q).1)
    decreases |p|
  {
    hide Step;
    if p == [] {
      assert p + q == q;
      assert Walk(cfg, st, q).1 == [] + Walk(cfg, st, q).1;
    } else {
      var r := Step(cfg, st, p[0]);
      assert (p + q)[0] == p[0] && (p + q)[1..] == p[1..] + q;
      WalkAppend(cfg, r.0, p[1..], q);
      var front, back := Walk(cfg, r.0, p[1..]).1, Walk(cfg, Walk(cfg, r.0, p[1..]).0, q).1;
      assert [r.1.active] + (front + back) == ([r.1.active] + front) + back;
    }
  }

  lemma WalkCons(cfg: Config, st: State, s: Stmt, tail: seq<Stmt>)
    ensures Walk(cfg, st, [s] + tail) ==
              (Walk(cfg, Step(cfg, st, s).0, tail).0, [Step(cfg, st, s).1.active] + Walk(cfg, Step(cfg, st, s).0, tail).1)
  {
    assert ([s] + tail)[0] == s && ([s] + tail)[1..] == tail;
    hide Step;
  }

  lemma WalkOne(cfg: Config, st: State, s: Stmt)
    ensures Walk(cfg, st, [s]) == (Step(cfg, st, s).0, [Step(cfg, st, s).1.active])
  {
    WalkCons(cfg, st, s, []);
    WalkNone(cfg, Step(cfg, st, s).0);
    hide Step, Walk;
    assert [s] + [] == [s];
    assert [Step(cfg, st, s).1.active] + [] == [Step(cfg, st, s).1.active];
  }

  // ---- the meaning of the nesting

  /** Marks of a region that is skipped: its conditional directives are marked, nothing else is. */
  function SkipMarks(b: Blocks): seq<bool> {
    match b
    case Nil => []
    case Plain(_, rest) => [false] + SkipMarks(rest)
    case Block(_, body, arms, after) => [true] + (SkipMarks(body) + (SkipArmMarks(arms) + SkipMarks(after)))
  }

  function SkipArmMarks(a: Arms): seq<bool> {
    match a
    case Close(_) => [true]
    case Else(_, body, _) => [true] + (SkipMarks(body) + [true])
    case Elif(_, body, more) => [true] + (SkipMarks(body) + SkipArmMarks(more))
  }

  function PcIn(st: State, s: Stmt): int { if s.segment in st.segs then LogicalPc(st.segs[s.segment]) else 0 }

  /** The name is defined, as an entry of its own file, scope or program or as a global one. */
  predicate IsDefined(cfg: Config, syms: Symtab, s: Stmt, name: string) {
    exists k :: k in {StorageKey(cfg, s, name), Global(name)} && k in syms && syms[k].defined
  }

  /** What a test asks at the point where the walk stands: `.if` and `.elif` hold for a number other than zero and fail
      with an error for an expression without a value; the name tests ask whether the name is defined, or is not. */
  function Test(cfg: Config, st: State, s: Stmt): Verdict
    requires Opens(s) || Continues(s)
  {
    var arg := s.kind.dir.args[0];
    match s.kind.dir.name
    case DIf | DElif =>
      (match Eval(arg, st.syms, s.scope, s.file, PcIn(st, s))
       case Ok(v) => Verdict(v < 0 || v > 0, 0)
       case _ => Verdict(false, 1))
    case DIfdef | DElifdef => Verdict(IsDefined(cfg, st.syms, s, arg.name), 0)
    case _ => Verdict(!IsDefined(cfg, st.syms, s, arg.name), 0)
  }

  /** A test does not look at the open blocks. */
  lemma TestUnder(cfg: Config, st: State, s: Stmt, stack: seq<Frame>)
    requires Opens(s) || Continues(s)
    ensures Test(cfg, st.(stack := stack), s) == Test(cfg, st, s)
  {
    hide Eval, StorageKey, LogicalPc;
  }

  /** The walk judges a well-formed test by its meaning. */
  lemma JudgedByMeaning(cfg: Config, st: State, s: Stmt)
    requires Opens(s) || Continues(s)
    ensures Judge(cfg, st.syms, s, s.kind.dir, PcIn(st, s), true) == Test(cfg, st, s)
    ensures Judge(cfg, st.syms, s, s.kind.dir, PcIn(st, s), false) == Verdict(false, 0)
    ensures WellShaped(s.kind.dir)
  {
    hide Eval, StorageKey, PcIn;
    if s.kind.dir.name != DIf && s.kind.dir.name != DElif {
      var name := s.kind.dir.args[0].name;
      var k := StorageKey(cfg, s, name);
      assert IsDefined(cfg, st.syms, s, name) <==> (k in st.syms && st.syms[k].defined) || (Global(name) in st.syms && st.syms[Global(name)].defined) by {
        assert k in {k, Global(name)} && Global(name) in {k, Global(name)};
      }
    }
  }

  /** Selected code: plain statements take effect, and of each block the first arm whose test succeeds;
      later tests are not made. */
  function Run(cfg: Config, st: State, b: Blocks): (State, seq<bool>)
    decreases b
  {
    match b
    case Nil => (st, [])
    case Plain(s, rest) =>
      var r := Step(cfg, st, s);
      var w := Run(cfg, r.0, rest);
      (w.0, [r.1.active] + w.1)
    case Block(open, body, arms, after) =>
      var v := if Opens(open) then Test(cfg, st, open) else Verdict(false, 0);
      var st1 := st.(errors := st.errors + v.errors);
      var w := if v.truth then Run(cfg, st1, body) else (st1, SkipMarks(body));
      var x := if v.truth then (w.0, SkipArmMarks(arms)) else RunArms(cfg, w.0, arms);
      var y := Run(cfg, x.0, after);
      (y.0, [true] + (w.1 + (x.1 + y.1)))
  }

  function RunArms(cfg: Config, st: State, a: Arms): (State, seq<bool>)
    decreases a
  {
    match a
    case Close(_) => (st, [true])
    case Else(_, body, _) =>
      var w := Run(cfg, st, body);
      (w.0, [true] + (w.1 + [true]))
    case Elif(test, body, more) =>
      var v := if Continues(test) then Test(cfg, st, test) else Verdict(false, 0);
      var st1 := st.(errors := st.errors + v.errors);
      var w := if v.truth then Run(cfg, st1, body) else (st1, SkipMarks(body));
      var x := if v.truth then (w.0, SkipArmMarks(more)) else RunArms(cfg, w.0, more);
      (x.0, [true] + (w.1 + x.1))
  }

  // ---- single steps under a frame

  function Push(st: State, f: Frame): State { st.(stack := [f] + st.stack) }

  lemma OpenStep(cfg: Config, st: State, s: Stmt)
    requires Opens(s) && s.segment in st.segs
    ensures var v := if CurrentActive(st.stack) then Test(cfg, st, s) else Verdict(false, 0);
            Step(cfg, st, s).0 ==
              Push(st.(errors := st.errors + v.errors), Frame(CurrentActive(st.stack), v.truth, v.truth, false))
    ensures Step(cfg, st, s).1.active
  {
    hide Eval, StorageKey, NameDefined, Judge, Test, WellShaped;
    JudgedByMeaning(cfg, st, s);
  }

  lemma ElifStep(cfg: Config, st: State, f: Frame, s: Stmt)
    requires Continues(s) && s.segment in st.segs && !f.sawElse
    ensures var go := f.parentActive && !f.anyTrue;
            var v := if go then Test(cfg, st, s) else Verdict(false, 0);
            Step(cfg, Push(st, f), s).0 ==
              Push(st.(errors := st.errors + v.errors), f.(branchActive := v.truth, anyTrue := f.anyTrue || v.truth))
    ensures Step(cfg, Push(st, f), s).1.active
  {
    hide Eval, StorageKey, NameDefined, Judge, Test, WellShaped;
    JudgedByMeaning(cfg, st, s);
  }

  lemma ElseStep(cfg: Config, st: State, f: Frame, s: Stmt)
    requires Bare(s, DElse) && s.segment in st.segs && !f.sawElse
    ensures Step(cfg, Push(st, f), s).0 ==
              Push(st, f.(branchActive := f.parentActive && !f.anyTrue, anyTrue := true, sawElse := true))
    ensures Step(cfg, Push(st, f), s).1.active
  {
    hide Eval, StorageKey, NameDefined, Judge;
  }

  lemma EndStep(cfg: Config, st: State, f: Frame, s: Stmt)
    requires Bare(s, DEndif) && s.segment in st.segs
    ensures Step(cfg, Push(st, f), s).0 == st && Step(cfg, Push(st, f), s).1.active
  {
    hide Eval, StorageKey, NameDefined, Judge;
    assert Push(st, f).stack[1..] == st.stack;
  }

  lemma NamesUnder(cfg: Config, st: State, s: Stmt, stack: seq<Frame>)
    requires s.segment in st.segs
    ensures AfterNames(cfg, st.(stack := stack), s) == AfterNames(cfg, st, s).(stack := stack)
    ensures AfterNames(cfg, st, s).stack == st.stack && AfterNames(cfg, st, s).segs == st.segs
  {
    hide StorageKey, ProcName, AddressSymbol;
  }

  lemma ConstUnder(cfg: Config, st: State, s: Stmt, pc: int, stack: seq<Frame>)
    requires s.kind.Const?
    ensures ConstStep(cfg, st.(stack := stack), s, pc) ==
              (ConstStep(cfg, st, s, pc).0.(stack := stack), ConstStep(cfg, st, s, pc).1)
    ensures ConstStep(cfg, st, s, pc).0.stack == st.stack && ConstStep(cfg, st, s, pc).0.segs == st.segs
  {
    hide Eval, StorageKey;
  }

  /** An active plain statement acts the same under any stack that leaves it active. */
  lemma PlainStep(cfg: Config, st: State, s: Stmt, stack: seq<Frame>)
    requires !IsConditionalStmt(s) && CurrentActive(st.stack) && CurrentActive(stack)
    ensures Step(cfg, st.(stack := stack), s).0 == Step(cfg, st, s).0.(stack := stack)
    ensures Step(cfg, st.(stack := stack), s).1.active == Step(cfg, st, s).1.active
    ensures Step(cfg, st, s).0.stack == st.stack && Step(cfg, st, s).0.segs.Keys == st.segs.Keys
  {
    hide CondStep, ConstStep, AfterNames, StmtMotion, LogicalPc, Moved, CurrentActive;
    if s.segment in st.segs {
      NamesUnder(cfg, st, s, stack);
      if s.kind.Const? {
        ConstUnder(cfg, AfterNames(cfg, st, s), s, LogicalPc(st.segs[s.segment]), stack);
      }
    }
  }

  lemma IdleStep(cfg: Config, st: State, s: Stmt)
    requires !IsConditionalStmt(s) && !CurrentActive(st.stack) && s.segment in st.segs
    ensures Step(cfg, st, s).0 == st && !Step(cfg, st, s).1.active
  {
    hide Eval, StorageKey, StmtMotion, ProcName, LogicalPc, ConstStep, AfterNames;
  }

  // ---- skipped regions

  /** Under an inactive frame a region changes nothing and no condition in it is evaluated. */
  lemma {:induction false} SkipRegion(cfg: Config, st: State, b: Blocks, names: set<string>)
    requires WellNested(b, names) && names <= st.segs.Keys && !CurrentActive(st.stack)
    ensures Walk(cfg, st, Flatten(b)) == (st, SkipMarks(b))
    decreases b
  {
    hide Step, Asks, Walk, Test;
    match b
    case Nil => WalkNone(cfg, st);
    case Plain(s, rest) =>
      IdleStep(cfg, st, s);
      SkipRegion(cfg, st, rest, names);
      WalkCons(cfg, st, s, Flatten(rest));
    case Block(open, body, arms, after) =>
      OpenStep(cfg, st, open);
      var f := Frame(false, false, false, false);
      assert st.(errors := st.errors + 0) == st;
      WalkCons(cfg, st, open, Flatten(body) + (FlattenArms(arms) + Flatten(after)));
      WalkAppend(cfg, Push(st, f), Flatten(body), FlattenArms(arms) + Flatten(after));
      SkipRegion(cfg, Push(st, f), body, names);
      WalkAppend(cfg, Push(st, f), FlattenArms(arms), Flatten(after));
      SkipArms(cfg, st, f, arms, names);
      SkipRegion(cfg, st, after, names);
  }

  lemma WalkNone(cfg: Config, st: State)
    ensures Walk(cfg, st, []) == (st, [])
  {
  }

  /** The remaining arms of a block that has already chosen one, or sits in skipped code. */
  lemma {:induction false} SkipArms(cfg: Config, st: State, f: Frame, a: Arms, names: set<string>)
    requires WellNestedArms(a, names) && names <= st.segs.Keys && !f.sawElse && (!f.parentActive || f.anyTrue)
    ensures Walk(cfg, Push(st, f), FlattenArms(a)) == (st, SkipArmMarks(a))
    decreases a
  {
    hide Step, Asks, Walk, Test;
    match a
    case Close(end) =>
      EndStep(cfg, st, f, end);
      WalkOne(cfg, Push(st, f), end);
    case Else(els, body, end) =>
      ElseStep(cfg, st, f, els);
      var g := f.(branchActive := false, anyTrue := true, sawElse := true);
      WalkCons(cfg, Push(st, f), els, Flatten(body) + [end]);
      WalkAppend(cfg, Push(st, g), Flatten(body), [end]);
      SkipRegion(cfg, Push(st, g), body, names);
      EndStep(cfg, st, g, end);
      WalkOne(cfg, Push(st, g), end);
    case Elif(test, body, more) =>
      ElifStep(cfg, st, f, test);
      var g := f.(branchActive := false);
      assert st.(errors := st.errors + 0) == st;
      WalkCons(cfg, Push(st, f), test, Flatten(body) + FlattenArms(more));
      WalkAppend(cfg, Push(st, g), Flatten(body), FlattenArms(more));
      SkipRegion(cfg, Push(st, g), body, names);
      SkipArms(cfg, st, g, more, names);
  }

  // ---- selected regions

  /** The tree semantics keeps the stack and the set of segments, and does not care which stack it is. */
  lemma {:induction false} RunUnder(cfg: Config, st: State, b: Blocks, names: set<string>, stack: seq<Frame>)
    requires WellNested(b, names) && CurrentActive(st.stack) && CurrentActive(stack)
    ensures Run(cfg, st.(stack := stack), b) == (Run(cfg, st, b).0.(stack := stack), Run(cfg, st, b).1)
    ensures Run(cfg, st, b).0.stack == st.stack && Run(cfg, st, b).0.segs.Keys == st.segs.Keys
    decreases b
  {
    hide Step, Asks, CurrentActive, Test;
    match b
    case Nil =>
    case Plain(s, rest) =>
      PlainStep(cfg, st, s, stack);
      RunUnder(cfg, Step(cfg, st, s).0, rest, names, stack);
    case Block(open, body, arms, after) =>
      var v := Test(cfg, st, open);
      TestUnder(cfg, st, open, stack);
      var st1 := st.(errors := st.errors + v.errors);
      if v.truth {
        RunUnder(cfg, st1, body, names, stack);
        RunUnder(cfg, Run(cfg, st1, body).0, after, names, stack);
      } else {
        RunArmsUnder(cfg, st1, arms, names, stack);
        RunUnder(cfg, RunArms(cfg, st1, arms).0, after, names, stack);
      }
  }

  lemma {:induction false} RunArmsUnder(cfg: Config, st: State, a: Arms, names: set<string>, stack: seq<Frame>)
    requires WellNestedArms(a, names) && CurrentActive(st.stack) && CurrentActive(stack)
    ensures RunArms(cfg, st.(stack := stack), a) == (RunArms(cfg, st, a).0.(stack := stack), RunArms(cfg, st, a).1)
    ensures RunArms(cfg, st, a).0.stack == st.stack && RunArms(cfg, st, a).0.segs.Keys == st.segs.Keys
    decreases a
  {
    hide Step, Asks, CurrentActive, Test;
    match a
    case Close(_) =>
    case Else(_, body, _) => RunUnder(cfg, st, body, names, stack);
    case Elif(test, body, more) =>
      var v := Test(cfg, st, test);
      TestUnder(cfg, st, test, stack);
      var st1 := st.(errors := st.errors + v.errors);
      if v.truth { RunUnder(cfg, st1, body, names, stack); } else { RunArmsUnder(cfg, st1, more, names, stack); }
  }

  /** Well-nested source in an active place: the flat walk, frame stack and all, is the tree semantics,
      state and marks alike. */
  lemma {:induction false} WalkIsRun(cfg: Config, st: State, b: Blocks, names: set<string>)
    requires WellNested(b, names) && names <= st.segs.Keys && CurrentActive(st.stack)
    ensures Walk(cfg, st, Flatten(b)) == Run(cfg, st, b)
    decreases b
  {
    hide Step, Asks, Walk, Test;
    match b
    case Nil => WalkNone(cfg, st);
    case Plain(s, rest) =>
      PlainStep(cfg, st, s, st.stack);
      WalkCons(cfg, st, s, Flatten(rest));
      WalkIsRun(cfg, Step(cfg, st, s).0, rest, names);
    case Block(open, body, arms, after) =>
      OpenStep(cfg, st, open);
      var v := Test(cfg, st, open);
      var st1 := st.(errors := st.errors + v.errors);
      var f := Frame(true, v.truth, v.truth, false);
      var rest := FlattenArms(arms) + Flatten(after);
      WalkCons(cfg, st, open, Flatten(body) + rest);
      WalkAppend(cfg, Push(st1, f), Flatten(body), rest);
      if v.truth {
        WalkIsRun(cfg, Push(st1, f), body, names);
        RunPushed(cfg, st1, f, body, names);
        var st2 := Run(cfg, st1, body).0;
        WalkAppend(cfg, Push(st2, f), FlattenArms(arms), Flatten(after));
        SkipArms(cfg, st2, f, arms, names);
        WalkIsRun(cfg, st2, after, names);
      } else {
        SkipRegion(cfg, Push(st1, f), body, names);
        WalkAppend(cfg, Push(st1, f), FlattenArms(arms), Flatten(after));
        ArmsAreRun(cfg, st1, f, arms, names);
        RunArmsUnder(cfg, st1, arms, names, st1.stack);
        WalkIsRun(cfg, RunArms(cfg, st1, arms).0, after, names);
      }
  }

  /** Running a body inside the frame that selected it. */
  lemma RunPushed(cfg: Config, st: State, f: Frame, b: Blocks, names: set<string>)
    requires WellNested(b, names) && CurrentActive(st.stack) && f.parentActive && f.branchActive
    ensures Run(cfg, Push(st, f), b) == (Push(Run(cfg, st, b).0, f), Run(cfg, st, b).1)
    ensures Run(cfg, st, b).0.stack == st.stack && Run(cfg, st, b).0.segs.Keys == st.segs.Keys
  {
    hide Run, WellNested;
    RunUnder(cfg, st, b, names, [f] + st.stack);
  }

  /** Arms still to be decided, in an active place. */
  lemma {:induction false} ArmsAreRun(cfg: Config, st: State, f: Frame, a: Arms, names: set<string>)
    requires WellNestedArms(a, names) && names <= st.segs.Keys && CurrentActive(st.stack)
    requires f.parentActive && !f.anyTrue && !f.sawElse && !f.branchActive
    ensures Walk(cfg, Push(st, f), FlattenArms(a)) == RunArms(cfg, st, a)
    decreases a
  {
    hide Step, Asks, Walk, Test;
    match a
    case Close(end) =>
      EndStep(cfg, st, f, end);
      WalkOne(cfg, Push(st, f), end);
    case Else(els, body, end) =>
      ElseStep(cfg, st, f, els);
      var g := f.(branchActive := true, anyTrue := true, sawElse := true);
      WalkCons(cfg, Push(st, f), els, Flatten(body) + [end]);
      WalkAppend(cfg, Push(st, g), Flatten(body), [end]);
      WalkIsRun(cfg, Push(st, g), body, names);
      RunPushed(cfg, st, g, body, names);
      EndStep(cfg, Run(cfg, st, body).0, g, end);
      WalkOne(cfg, Push(Run(cfg, st, body).0, g), end);
    case Elif(test, body, more) =>
      ElifStep(cfg, st, f, test);
      var v := Test(cfg, st, test);
      var st1 := st.(errors := st.errors + v.errors);
      var g := f.(branchActive := v.truth, anyTrue := v.truth);
      WalkCons(cfg, Push(st, f), test, Flatten(body) + FlattenArms(more));
      WalkAppend(cfg, Push(st1, g), Flatten(body), FlattenArms(more));
      if v.truth {
        WalkIsRun(cfg, Push(st1, g), body, names);
        RunPushed(cfg, st1, g, body, names);
        SkipArms(cfg, Run(cfg, st1, body).0, g, more, names);
      } else {
        SkipRegion(cfg, Push(st1, g), body, names);
        ArmsAreRun(cfg, st1, g, more, names);
      }
  }

  /** The whole pass over well-nested source selects what the nesting selects, and leaves no block open. */
  lemma PassSelects(cfg: Config, c: Context, b: Blocks)
    requires c.prog == Flatten(b) && WellNested(b, c.segs.Keys)
    ensures Walked(cfg, c) == Run(cfg, Start(cfg, c), b).0 && Walked(cfg, c).stack == []
    ensures |Run(cfg, Start(cfg, c), b).1| == |c.prog|
    ensures forall i :: 0 <= i < |c.prog| ==>
              Laid(cfg, Start(cfg, c), c.prog, i).active == Run(cfg, Start(cfg, c), b).1[i]
  {
    hide *;
    var st := Start(cfg, c);
    PassStarts(cfg, c);
    WalkIsPass(cfg, st, c.prog, 0);
    assert c.prog[0..] == c.prog;
    WalkIsRun(cfg, st, b, c.segs.Keys);
    RunUnder(cfg, st, b, c.segs.Keys, st.stack);
  }

  lemma PassStarts(cfg: Config, c: Context)
    ensures At(cfg, Start(cfg, c), c.prog, 0) == Start(cfg, c)
    ensures Walked(cfg, c) == At(cfg, Start(cfg, c), c.prog, |c.prog|)
    ensures Start(cfg, c).segs.Keys == c.segs.Keys && Start(cfg, c).stack == [] && CurrentActive(Start(cfg, c).stack)
  {
    hide Publish, Step;
  }
}
