/** Relaxation computes the least set of shortened instructions closed under its own rule, and stops
    within two passes of the number of shrinkable instructions. */
module RelaxFixpoint {
  import opened Support
  import opened Expressions
  import opened Opcodes
  import opened Program
  import opened Layout
  import opened Agreement
  import opened Tiling
  import opened NonInterference
  import opened Labels
  import opened Relaxation
  import opened RelaxSafety
  import opened RelaxRun

  /** The form the relaxer may give an instruction. */
  function ShortForm(cfg: Config, s: Stmt): Option<EmitMode> {
    if !s.kind.Insn? then None
    else if s.kind.mode == RelLong then Some(Rel)
    else ZpForm(cfg, s)
  }

  /** The operand of `i` is the label of `j`; a long branch is near it. */
  predicate Targets(cfg: Config, c: Context, i: nat, j: nat) {
    RefersTo(cfg, c, i, j) && i < |c.prog| && j < |c.prog| &&
    (c.prog[i].kind.Insn? && c.prog[i].kind.mode == RelLong ==> NearBranch(cfg, c.prog[i].segment, c, i, j))
  }

  /** Long branches name near labels; other shrinkable operands are labels or layout-free. */
  predicate SimpleOperands(cfg: Config, d: set<Key>, c: Context) {
    forall i :: 0 <= i < |c.prog| && ShortForm(cfg, c.prog[i]).Some? && c.prog[i].kind.operand.Some? ==>
      (exists j :: 0 <= j < |c.prog| && Targets(cfg, c, i, j)) ||
      (c.prog[i].kind.mode != RelLong && Over(d, c.prog[i].scope, c.prog[i].file, c.prog[i].kind.operand.value))
  }

  /** `r` is `c` with some shrinkable instructions in their short form. */
  predicate ShortenedFrom(cfg: Config, c: Context, r: Context) {
    |c.prog| == |r.prog| && forall i :: 0 <= i < |c.prog| ==>
      ModeAt(r, i) == ModeAt(c, i) || (ShortForm(cfg, c.prog[i]).Some? && ModeAt(r, i) == ShortForm(cfg, c.prog[i]))
  }

  /** Everything `x` shortened, `r` shortened too. */
  predicate Within(c: Context, x: Context, r: Context) {
    |c.prog| == |x.prog| == |r.prog| &&
    forall i :: 0 <= i < |c.prog| && ModeAt(x, i) != ModeAt(c, i) ==> ModeAt(r, i) == ModeAt(x, i)
  }

  /** No instruction of `r` is still waiting to be shortened. */
  predicate ClosedUnderRule(cfg: Config, r: Context) { !FormsDiffer(r, RelaxPass(cfg, r)) }

  lemma ClassifyAgrees(cfg: Config, d: set<Key>, x: Symtab, y: Symtab, scope: string, file: string, e: Expr)
    requires Over(d, scope, file, e) && SymsRelated(d, x, y)
    ensures Classify(cfg, x, scope, file, e) == Classify(cfg, y, scope, file, e)
  {
    match e
    case Unary(_, c) => ClassifyAgrees(cfg, d, x, y, scope, file, c);
    case Binary(_, l, r) =>
      ClassifyAgrees(cfg, d, x, y, scope, file, l);
      ClassifyAgrees(cfg, d, x, y, scope, file, r);
    case _ => hide ContractIsZp;
  }

  /** The operand test as a statement about the whole context. */
  predicate OperandReady(cfg: Config, c: Context, i: nat) {
    i < |c.prog| && c.prog[i].kind.Insn? && Pass1(cfg, c).prog[i].kind.Insn? &&
    OperandShrinks(cfg, Pass1(cfg, c).syms, Pass1(cfg, c).prog[i])
  }

  predicate BranchReady(cfg: Config, c: Context, i: nat) {
    i < |c.prog| && c.prog[i].kind.Insn? && c.prog[i].kind.mode == RelLong && BranchInRange(cfg, c, i)
  }

  /** When an iteration changes a form, exactly. */
  lemma ChangeExactly(cfg: Config, c: Context, i: nat)
    requires Pass1(cfg, c).errors == c.errors && i < |c.prog| && SizesMatch(c.prog)
    ensures ModeAt(RelaxPass(cfg, c), i) ==
              if BranchReady(cfg, c, i) then Some(Rel)
              else if OperandReady(cfg, c, i) then ZpForm(cfg, c.prog[i]) else ModeAt(c, i)
    ensures BranchReady(cfg, c, i) || OperandReady(cfg, c, i) ==>
              ShortForm(cfg, c.prog[i]).Some? && ModeAt(RelaxPass(cfg, c), i) == ShortForm(cfg, c.prog[i])
  {
    hide Pass1, Lookup, Eval, Classify, IsZpImport, BranchFits;
    PassStmt(cfg, c, i);
    if c.prog[i].kind.Insn? { PassScope(cfg, c, i); }
  }

  lemma PassScope(cfg: Config, c: Context, i: nat)
    requires i < |c.prog| && Pass1(cfg, c).errors == c.errors
    ensures Pass1(cfg, c).prog[i].scope == c.prog[i].scope && Pass1(cfg, c).prog[i].file == c.prog[i].file
  {
    hide Pass1;
    PassStmt(cfg, c, i);
    SkeletonKeys(cfg, Pass1(cfg, c).prog[i], c.prog[i], "");
  }

  /** How the classifier sees a bare label of segment `seg`. */
  function LabelClass(cfg: Config, x: string, seg: string): ZpKind {
    if ImportIsZp(cfg, x) then ZpReloc
    else if !cfg.objectMode || SegmentKind(seg) == AbsSeg then Absolute
    else if SegmentKind(seg) == ZpSeg || ContractIsZp(cfg.contracts, seg) then ZpReloc
    else Unsafe
  }

  /** The operand test on a bare label: the label's segment decides its class, its address the rest. */
  lemma LabelReady(cfg: Config, d: set<Key>, c: Context, i: nat, j: nat)
    requires Steady(cfg, d, c) && Pass1(cfg, c).errors == c.errors && RefersTo(cfg, c, i, j)
    ensures i < |c.prog| && j < |c.prog| && c.prog[i].kind.Insn? && c.prog[i].kind.operand.Some?
    ensures c.prog[i].kind.operand.value.Ident?
    ensures OperandReady(cfg, c, i) <==>
              ZpForm(cfg, c.prog[i]).Some? && OperandInPage(cfg, c, i) &&
              LabelClass(cfg, c.prog[i].kind.operand.value.name, c.prog[j].segment) != Unsafe
  {
    hide Steady, Pass1, FinalSyms, RefersTo, Laid, Off, ZpForm, ContractIsZp, Lookup, SegmentKind, Resolve;
    LabelValue(cfg, d, c, i, j);
    LabelEval(cfg, c, i, j);
    PassSyms(cfg, c);
    SameZpForm(cfg, c.prog[i], Pass1(cfg, c).prog[i]);
  }

  lemma SameZpForm(cfg: Config, s: Stmt, t: Stmt)
    requires s.kind.Insn? && t.kind.Insn? && s.kind.opcode == t.kind.opcode && s.kind.suffixed == t.kind.suffixed
    requires s.kind.mode == t.kind.mode
    ensures ZpForm(cfg, s) == ZpForm(cfg, t)
  {
  }

  lemma PackedIn(cfg: Config, d: set<Key>, name: string, c: Context)
    requires AllPacked(cfg, d, c) && name in c.segs
    ensures Packed(cfg, d, name, c)
  {
    hide Steady, NoAlign;
  }

  lemma AllSteady(cfg: Config, d: set<Key>, c: Context)
    requires AllPacked(cfg, d, c)
    ensures Steady(cfg, d, c) && SizesMatch(c.prog) && Twins(cfg, d, c, c)
  {
    hide AllLayoutFree, SizesMatch, NoSizeNames, NoAlign, Twins;
    SteadyTwin(cfg, d, c);
    SteadySizes(cfg, d, c);
  }

  lemma SteadySizes(cfg: Config, d: set<Key>, c: Context)
    requires Steady(cfg, d, c)
    ensures SizesMatch(c.prog)
  {
  }

  lemma AllKept(cfg: Config, d: set<Key>, c: Context, x: Context)
    requires AllPacked(cfg, d, c) && Twins(cfg, d, c, x) && Steady(cfg, d, x)
    ensures AllPacked(cfg, d, x)
  {
    hide AllPacked, Packed, Steady, SameShape, AllLayoutFree, NoSizeNames;
    forall n | n in x.segs
      ensures Packed(cfg, d, n, x)
    {
      PackedIn(cfg, d, n, c);
      PackedKept(cfg, d, n, c, x);
    }
    AllFromEach(cfg, d, x);
  }

  lemma AllFromEach(cfg: Config, d: set<Key>, x: Context)
    requires Steady(cfg, d, x) && forall n :: n in x.segs ==> Packed(cfg, d, n, x)
    ensures AllPacked(cfg, d, x)
  {
    hide Steady, NoAlign;
    forall n | n in x.segs
      ensures x.segs[n].base >= 0 && (cfg.objectMode ==> NoAlign(n, x.prog))
    {
      assert Packed(cfg, d, n, x);
    }
  }

  /** Readiness only grows as the program shrinks. */
  lemma OperandReadyGrows(cfg: Config, d: set<Key>, x: Context, y: Context, i: nat)
    requires AllPacked(cfg, d, x) && AllPacked(cfg, d, y) && Twins(cfg, d, x, y) && Smaller(x, y)
    requires Pass1(cfg, x).errors == x.errors && Pass1(cfg, y).errors == y.errors
    requires i < |x.prog| && i < |y.prog| && ModeAt(x, i) == ModeAt(y, i) && OperandReady(cfg, x, i)
    requires SimpleOperands(cfg, d, x)
    ensures OperandReady(cfg, y, i)
  {
    hide *;
    AllSteady(cfg, d, x);
    AllSteady(cfg, d, y);
    ReadyShape(cfg, x, i);
    var j := TargetOf(cfg, d, x, i);
    if j.Some? {
      LabelReadyGrows(cfg, d, x, y, i, j.value);
    } else {
      FreeReadySame(cfg, d, x, y, i);
    }
  }

  lemma ReadyShape(cfg: Config, x: Context, i: nat)
    requires i < |x.prog| && OperandReady(cfg, x, i) && Pass1(cfg, x).errors == x.errors
    ensures x.prog[i].kind.Insn? && x.prog[i].kind.operand.Some? && ShortForm(cfg, x.prog[i]).Some?
  {
    hide Pass1, Eval, Classify, Lookup, IsZpImport;
    PassStmt(cfg, x, i);
  }

  lemma TargetOf(cfg: Config, d: set<Key>, x: Context, i: nat) returns (j: Option<nat>)
    requires SimpleOperands(cfg, d, x) && i < |x.prog| && x.prog[i].kind.Insn?
    requires ShortForm(cfg, x.prog[i]).Some? && x.prog[i].kind.operand.Some?
    ensures j.Some? ==> RefersTo(cfg, x, i, j.value) && Targets(cfg, x, i, j.value)
    ensures j.None? ==>
              x.prog[i].kind.mode != RelLong && Over(d, x.prog[i].scope, x.prog[i].file, x.prog[i].kind.operand.value)
  {
    hide RefersTo, ShortForm, Over;
    if k :| 0 <= k < |x.prog| && Targets(cfg, x, i, k) { j := Some(k); } else { j := None; }
  }

  lemma LabelReadyGrows(cfg: Config, d: set<Key>, x: Context, y: Context, i: nat, j: nat)
    requires AllPacked(cfg, d, x) && AllPacked(cfg, d, y) && Twins(cfg, d, x, y) && Smaller(x, y)
    requires Pass1(cfg, x).errors == x.errors && Pass1(cfg, y).errors == y.errors && RefersTo(cfg, x, i, j)
    requires i < |x.prog| && i < |y.prog| && ModeAt(x, i) == ModeAt(y, i) && OperandReady(cfg, x, i)
    ensures OperandReady(cfg, y, i)
  {
    hide AllPacked, Packed, Steady, Pass1, RefersTo, Twins, Smaller, OperandReady, OperandInPage, ZpForm, LabelClass,
         NearBranch, BranchInRange;
    AllSteady(cfg, d, x);
    AllSteady(cfg, d, y);
    RefersSame(cfg, d, x, y, i, j);
    LabelReady(cfg, d, x, i, j);
    LabelReady(cfg, d, y, i, j);
    SegmentKnown(cfg, d, x, y, j);
    TwinOperand(cfg, d, x, y, i);
    SameZpForm(cfg, x.prog[i], y.prog[i]);
    PackedIn(cfg, d, x.prog[j].segment, x);
    PackedIn(cfg, d, x.prog[j].segment, y);
    StaysInRange(cfg, d, x.prog[j].segment, x, y, i, j);
  }

  /** A layout-free operand passes the test in both or in neither. */
  lemma FreeReadySame(cfg: Config, d: set<Key>, x: Context, y: Context, i: nat)
    requires Twins(cfg, d, x, y) && Pass1(cfg, x).errors == x.errors && Pass1(cfg, y).errors == y.errors
    requires i < |x.prog| && i < |y.prog| && ModeAt(x, i) == ModeAt(y, i) && OperandReady(cfg, x, i)
    requires x.prog[i].kind.Insn? && x.prog[i].kind.operand.Some?
    requires Over(d, x.prog[i].scope, x.prog[i].file, x.prog[i].kind.operand.value)
    ensures OperandReady(cfg, y, i)
  {
    hide Pass1, Eval, Classify, Lookup, Over, Twins, IsZpImport, ZpForm;
    PassStmt(cfg, x, i);
    PassStmt(cfg, y, i);
    PassScope(cfg, x, i);
    PassScope(cfg, y, i);
    TwinOperand(cfg, d, x, y, i);
    var p, q := Pass1(cfg, x).prog[i], Pass1(cfg, y).prog[i];
    SameZpForm(cfg, p, q);
    var e := x.prog[i].kind.operand.value;
    FinalAgrees(cfg, d, x, y);
    PassSyms(cfg, x);
    PassSyms(cfg, y);
    ClassifyAgrees(cfg, d, FinalSyms(cfg, x), FinalSyms(cfg, y), p.scope, p.file, e);
    assert Agree(d, FinalSyms(cfg, x), FinalSyms(cfg, y));
    EvalAgrees(d, e, FinalSyms(cfg, x), FinalSyms(cfg, y), p.scope, p.file, p.address, q.address);
  }

  lemma TwinOperand(cfg: Config, d: set<Key>, x: Context, y: Context, i: nat)
    requires Twins(cfg, d, x, y) && i < |x.prog| && i < |y.prog| && x.prog[i].kind.Insn?
    ensures y.prog[i].kind.Insn? && y.prog[i].kind.operand == x.prog[i].kind.operand
    ensures y.prog[i].kind.opcode == x.prog[i].kind.opcode && y.prog[i].kind.suffixed == x.prog[i].kind.suffixed
    ensures x.prog[i].scope == y.prog[i].scope && x.prog[i].file == y.prog[i].file
  {
    assert Skeleton(x.prog[i]) == Skeleton(y.prog[i]);
    SkeletonOperand(x.prog[i], y.prog[i]);
  }

  lemma BranchReadyGrows(cfg: Config, d: set<Key>, x: Context, y: Context, i: nat)
    requires Good(cfg, d, x) && Good(cfg, d, y) && Twins(cfg, d, x, y) && Smaller(x, y)
    requires i < |x.prog| && i < |y.prog| && ModeAt(x, i) == ModeAt(y, i) && BranchReady(cfg, x, i)
    requires SimpleOperands(cfg, d, x)
    ensures BranchReady(cfg, y, i)
  {
    hide *;
    GoodParts(cfg, d, x);
    GoodParts(cfg, d, y);
    BranchReadyShape(cfg, x, y, i);
    var t := TargetOf(cfg, d, x, i);
    var j := t.value;
    var n := x.prog[i].segment;
    TargetNear(cfg, x, i, j);
    AllSteady(cfg, d, x);
    SegmentKnown(cfg, d, x, y, i);
    PackedIn(cfg, d, n, x);
    PackedIn(cfg, d, n, y);
    NearEnds(cfg, n, x, i, j);
    StaysInRange(cfg, d, n, x, y, i, j);
    BranchReadyFrom(cfg, x, y, i);
  }

  lemma BranchReadyShape(cfg: Config, x: Context, y: Context, i: nat)
    requires i < |x.prog| && BranchReady(cfg, x, i)
    ensures x.prog[i].kind.Insn? && x.prog[i].kind.mode == RelLong && BranchInRange(cfg, x, i)
    ensures x.prog[i].kind.operand.Some?
    ensures ShortForm(cfg, x.prog[i]).Some? && Smaller(x, x)
  {
    hide Pass1, Eval, ZpForm, BranchFits;
  }

  lemma BranchReadyFrom(cfg: Config, x: Context, y: Context, i: nat)
    requires i < |x.prog| && i < |y.prog| && ModeAt(x, i) == ModeAt(y, i) && BranchReady(cfg, x, i)
    requires BranchInRange(cfg, y, i)
    ensures BranchReady(cfg, y, i)
  {
    hide BranchInRange;
  }

  lemma TargetNear(cfg: Config, c: Context, i: nat, j: nat)
    requires Targets(cfg, c, i, j)
    ensures i < |c.prog| && j < |c.prog|
    ensures c.prog[i].kind.Insn? && c.prog[i].kind.mode == RelLong ==> NearBranch(cfg, c.prog[i].segment, c, i, j)
  {
    hide RefersTo, NearBranch;
  }

  lemma NearEnds(cfg: Config, name: string, c: Context, i: nat, j: nat)
    requires NearBranch(cfg, name, c, i, j)
    ensures i < |c.prog| && j < |c.prog| && c.prog[i].segment == name && c.prog[j].segment == name
  {
    hide Off, FreeBetween;
  }

  /** A context in which everything the least-fixpoint argument needs holds. */
  predicate Good(cfg: Config, d: set<Key>, c: Context) { AllPacked(cfg, d, c) && Pass1(cfg, c).errors == c.errors }

  lemma GoodParts(cfg: Config, d: set<Key>, c: Context)
    requires Good(cfg, d, c)
    ensures AllPacked(cfg, d, c) && Pass1(cfg, c).errors == c.errors
  {
  }

  /** An error-free twin is as good. */
  lemma GoodKept(cfg: Config, d: set<Key>, c: Context, x: Context)
    requires Good(cfg, d, c) && Twins(cfg, d, c, x) && Steady(cfg, d, x) && Pass1(cfg, x).errors == x.errors
    ensures Good(cfg, d, x)
  {
    hide Pass1, AllPacked, Steady, SameShape, AllLayoutFree, NoSizeNames, Twins;
    AllKept(cfg, d, c, x);
  }

  lemma SimpleSame(cfg: Config, d: set<Key>, c: Context, x: Context)
    requires Good(cfg, d, c) && Twins(cfg, d, c, x) && Smaller(c, x) && SimpleOperands(cfg, d, c)
    requires ShortenedFrom(cfg, c, x)
    ensures SimpleOperands(cfg, d, x)
  {
    hide Good, Twins, RefersTo, Over, Lookup, Targets, Smaller;
    TwinLength(cfg, d, c, x);
    forall i | 0 <= i < |x.prog| && ShortForm(cfg, x.prog[i]).Some? && x.prog[i].kind.operand.Some?
      ensures (exists j :: 0 <= j < |x.prog| && Targets(cfg, x, i, j)) ||
              (x.prog[i].kind.mode != RelLong && Over(d, x.prog[i].scope, x.prog[i].file, x.prog[i].kind.operand.value))
    {
      assert ModeAt(x, i) == ModeAt(c, i) || ModeAt(x, i) == ShortForm(cfg, c.prog[i]);
      TwinsBack(cfg, d, c, x, i);
      TwinOperand(cfg, d, c, x, i);
      if j :| 0 <= j < |c.prog| && Targets(cfg, c, i, j) { TargetsSame(cfg, d, c, x, i, j); }
    }
  }

  lemma TwinLength(cfg: Config, d: set<Key>, c: Context, x: Context)
    requires Twins(cfg, d, c, x)
    ensures |c.prog| == |x.prog|
  {
    SameLength(c, x);
  }

  /** A reference keeps its target in a smaller twin, and a branch still long stays near. */
  lemma TargetsSame(cfg: Config, d: set<Key>, c: Context, x: Context, i: nat, j: nat)
    requires Good(cfg, d, c) && Twins(cfg, d, c, x) && Smaller(c, x) && Targets(cfg, c, i, j) && i < |x.prog|
    requires i < |c.prog|
    requires x.prog[i].kind.Insn? && x.prog[i].kind.mode == RelLong ==>
               c.prog[i].kind.Insn? && c.prog[i].kind.mode == RelLong
    ensures Targets(cfg, x, i, j)
  {
    hide Twins, Smaller, RefersTo, NearBranch, AllPacked, Pass1;
    TargetNear(cfg, c, i, j);
    RefersSame(cfg, d, c, x, i, j);
    SegmentKnown(cfg, d, c, x, i);
    SegmentKnown(cfg, d, c, x, j);
    var n := c.prog[i].segment;
    PackedIn(cfg, d, n, c);
    if NearBranch(cfg, n, c, i, j) { NearStays(cfg, d, n, c, x, i, j); }
  }

  lemma TwinsBack(cfg: Config, d: set<Key>, x: Context, y: Context, i: nat)
    requires Twins(cfg, d, x, y) && i < |x.prog| && i < |y.prog| && y.prog[i].kind.Insn?
    ensures x.prog[i].kind.Insn?
  {
    assert Skeleton(x.prog[i]) == Skeleton(y.prog[i]);
    SkeletonKeys(cfg, x.prog[i], y.prog[i], "");
  }

  lemma SmallerByModes(cfg: Config, d: set<Key>, c: Context, x: Context, r: Context)
    requires Twins(cfg, d, c, x) && Twins(cfg, d, c, r) && Within(c, x, r) && ShortenedFrom(cfg, c, r)
    requires SizesMatch(c.prog) && SizesMatch(x.prog) && SizesMatch(r.prog)
    ensures Smaller(x, r)
  {
    hide Twins, Lookup;
    forall i | 0 <= i < |x.prog| && x.prog[i].kind.Insn?
      ensures r.prog[i].kind.Insn? && r.prog[i].kind.size <= x.prog[i].kind.size
    {
      TwinsBack(cfg, d, c, x, i);
      TwinOperand(cfg, d, c, r, i);
      assert ModeAt(r, i) == ModeAt(c, i) || ModeAt(r, i) == ShortForm(cfg, c.prog[i]);
    }
  }

  /** The shortened set of every pass lies inside every closed set, however many segments the program has. */
  lemma {:induction false} LeastClosedSet(cfg: Config, d: set<Key>, c: Context, r: Context, k: nat)
    requires Good(cfg, d, c) && SimpleOperands(cfg, d, c) && Quiet(cfg, c, k)
    requires Good(cfg, d, r) && Twins(cfg, d, c, r) && ShortenedFrom(cfg, c, r) && ClosedUnderRule(cfg, r)
    ensures Within(c, Iterate(cfg, c, k), r) && ShortenedFrom(cfg, c, Iterate(cfg, c, k))
  {
    hide AllPacked, Good, Pass1, Twins, Span, Quiet, RelaxPass, SimpleOperands, RefersTo, ShortForm, ClosedUnderRule,
         Steady, Smaller;
    RunLength(cfg, c, k);
    if k > 0 {
      var x := Iterate(cfg, c, k - 1);
      QuietSteps(cfg, c, k - 1, k);
      LeastClosedSet(cfg, d, c, r, k - 1);
      IterateZero(cfg, c);
      GoodParts(cfg, d, c);
      AllSteady(cfg, d, c);
      RunKeeps(cfg, d, c, 0, k - 1);
      GoodKept(cfg, d, c, x);
      SimpleSame(cfg, d, c, x);
      TwinsJoin(cfg, d, c, x, r);
      SteadySizes(cfg, d, x);
      GoodParts(cfg, d, r);
      AllSteady(cfg, d, r);
      SmallerByModes(cfg, d, c, x, r);
      RunLength(cfg, c, k - 1);
      forall i | 0 <= i < |c.prog| && ModeAt(RelaxPass(cfg, x), i) != ModeAt(c, i)
        ensures ModeAt(r, i) == ModeAt(RelaxPass(cfg, x), i)
      {
        StepWithin(cfg, d, c, x, r, i);
      }
      forall i | 0 <= i < |c.prog|
        ensures ModeAt(RelaxPass(cfg, x), i) ==
                  ModeAt(c, i) || (ShortForm(cfg, c.prog[i]).Some? && ModeAt(RelaxPass(cfg, x), i) == ShortForm(cfg, c.prog[i]))
      {
        StepShortens(cfg, d, c, x, i);
      }
    }
  }

  lemma TwinsJoin(cfg: Config, d: set<Key>, c: Context, x: Context, r: Context)
    requires Twins(cfg, d, c, x) && Twins(cfg, d, c, r)
    ensures Twins(cfg, d, x, r)
  {
    hide Skeleton, LayoutFree, NoSizeNames;
    FreeSame(cfg, d, c.prog, x.prog);
  }

  /** Short forms: fixed by the mnemonic, different from the long form, and final. */
  lemma ShortFormFacts(cfg: Config, s: Stmt, t: Stmt)
    requires s.kind.Insn? && t.kind.Insn? && s.kind.opcode == t.kind.opcode && s.kind.suffixed == t.kind.suffixed
    ensures s.kind.mode == t.kind.mode ==> ShortForm(cfg, s) == ShortForm(cfg, t)
    ensures ShortForm(cfg, s).Some? ==> ShortForm(cfg, s).value != s.kind.mode
    ensures ShortForm(cfg, s).Some? && t.kind.mode == ShortForm(cfg, s).value ==> ShortForm(cfg, t).None?
  {
    hide Lookup;
  }

  lemma TwinFacts(cfg: Config, d: set<Key>, c: Context, x: Context, i: nat)
    requires Twins(cfg, d, c, x) && i < |c.prog| && i < |x.prog| && c.prog[i].kind.Insn?
    ensures x.prog[i].kind.Insn?
    ensures ModeAt(x, i) == ModeAt(c, i) ==> ShortForm(cfg, x.prog[i]) == ShortForm(cfg, c.prog[i])
    ensures ShortForm(cfg, c.prog[i]).Some? ==> ShortForm(cfg, c.prog[i]) != ModeAt(c, i)
    ensures ShortForm(cfg, c.prog[i]).Some? && ModeAt(x, i) == ShortForm(cfg, c.prog[i]) ==>
              ShortForm(cfg, x.prog[i]).None?
  {
    TwinOperand(cfg, d, c, x, i);
    hide Twins, ShortForm;
    ShortFormFacts(cfg, c.prog[i], x.prog[i]);
  }

  lemma StepWithin(cfg: Config, d: set<Key>, c: Context, x: Context, r: Context, i: nat)
    requires Good(cfg, d, x) && Good(cfg, d, r) && Twins(cfg, d, x, r) && Smaller(x, r)
    requires Twins(cfg, d, c, x) && Twins(cfg, d, c, r)
    requires SimpleOperands(cfg, d, x) && SizesMatch(x.prog) && SizesMatch(r.prog)
    requires Within(c, x, r) && ShortenedFrom(cfg, c, r) && ShortenedFrom(cfg, c, x) && ClosedUnderRule(cfg, r)
    requires i < |c.prog| && ModeAt(RelaxPass(cfg, x), i) != ModeAt(c, i)
    ensures ModeAt(r, i) == ModeAt(RelaxPass(cfg, x), i)
  {
    hide AllPacked, Good, Pass1, Twins, Span, RelaxPass, SimpleOperands, RefersTo, BranchReady, OperandReady, ZpForm,
         ShortForm, Smaller, SizesMatch;
    GoodParts(cfg, d, x);
    ChangeExactly(cfg, x, i);
    assert ModeAt(r, i) == ModeAt(c, i) || ModeAt(r, i) == ShortForm(cfg, c.prog[i]);
    assert ModeAt(x, i) == ModeAt(c, i) || ModeAt(x, i) == ShortForm(cfg, c.prog[i]);
    if c.prog[i].kind.Insn? {
      TwinFacts(cfg, d, c, x, i);
      TwinFacts(cfg, d, c, r, i);
      if ModeAt(x, i) == ModeAt(c, i) && ModeAt(r, i) == ModeAt(c, i) {
        ClosedHere(cfg, d, x, r, i);
      }
    } else {
      if x.prog[i].kind.Insn? { TwinsBack(cfg, d, c, x, i); }
      ReadyIsInsn(cfg, x, i);
    }
  }

  lemma ReadyIsInsn(cfg: Config, x: Context, i: nat)
    requires i < |x.prog| && !x.prog[i].kind.Insn?
    ensures !BranchReady(cfg, x, i) && !OperandReady(cfg, x, i)
  {
    hide Pass1;
  }

  /** An instruction ready in the larger program cannot be waiting in a closed one. */
  lemma ClosedHere(cfg: Config, d: set<Key>, x: Context, r: Context, i: nat)
    requires Good(cfg, d, x) && Good(cfg, d, r) && Twins(cfg, d, x, r) && Smaller(x, r)
    requires SimpleOperands(cfg, d, x) && SizesMatch(r.prog) && SizesMatch(x.prog) && ClosedUnderRule(cfg, r)
    requires i < |x.prog| && i < |r.prog| && x.prog[i].kind.Insn? && ModeAt(x, i) == ModeAt(r, i)
    ensures ModeAt(RelaxPass(cfg, x), i) == ModeAt(x, i)
  {
    hide AllPacked, Good, Pass1, Twins, Span, SimpleOperands, RefersTo, BranchReady, OperandReady, ZpForm, ShortForm,
         Smaller, SizesMatch;
    GoodParts(cfg, d, x);
    GoodParts(cfg, d, r);
    ChangeExactly(cfg, x, i);
    ChangeExactly(cfg, r, i);
    hide RelaxPass;
    assert ModeAt(RelaxPass(cfg, r), i) == ModeAt(r, i);
    TwinFacts(cfg, d, x, r, i);
    TwinsBack(cfg, d, x, r, i);
    ShortFormFacts(cfg, r.prog[i], r.prog[i]);
    if BranchReady(cfg, x, i) { BranchReadyGrows(cfg, d, x, r, i); }
    if OperandReady(cfg, x, i) { OperandReadyGrows(cfg, d, x, r, i); }
  }

  lemma StepShortens(cfg: Config, d: set<Key>, c: Context, x: Context, i: nat)
    requires Pass1(cfg, x).errors == x.errors && SizesMatch(x.prog) && Twins(cfg, d, c, x) && ShortenedFrom(cfg, c, x)
    requires i < |c.prog| && i < |x.prog|
    ensures ModeAt(RelaxPass(cfg, x), i) == ModeAt(c, i) ||
            (ShortForm(cfg, c.prog[i]).Some? && ModeAt(RelaxPass(cfg, x), i) == ShortForm(cfg, c.prog[i]))
  {
    hide Pass1, Twins, RelaxPass, BranchReady, OperandReady, ZpForm, ShortForm, SizesMatch;
    ChangeExactly(cfg, x, i);
    assert ModeAt(x, i) == ModeAt(c, i) || ModeAt(x, i) == ShortForm(cfg, c.prog[i]);
    if c.prog[i].kind.Insn? {
      TwinFacts(cfg, d, c, x, i);
    } else if x.prog[i].kind.Insn? {
      TwinsBack(cfg, d, c, x, i);
    } else {
      ReadyIsInsn(cfg, x, i);
    }
  }

  // ---- when the run stops

  /** Shrinkable instructions among the first `n` statements. */
  function Shrinkable(cfg: Config, c: Context, n: nat): nat
    requires n <= |c.prog|
  {
    if n == 0 then 0 else Shrinkable(cfg, c, n - 1) + if ShortForm(cfg, c.prog[n - 1]).Some? then 1 else 0
  }

  lemma {:induction false} CountDrops(cfg: Config, c: Context, n: nat)
    requires Pass1(cfg, c).errors == c.errors && SizesMatch(c.prog) && n <= |c.prog|
    ensures Shrinkable(cfg, RelaxPass(cfg, c), n) <= Shrinkable(cfg, c, n)
    ensures (exists i :: 0 <= i < n && ModeAt(c, i) != ModeAt(RelaxPass(cfg, c), i)) ==>
              Shrinkable(cfg, RelaxPass(cfg, c), n) < Shrinkable(cfg, c, n)
  {
    hide Pass1, RelaxPass, ShortForm, SizesMatch, ModeAt;
    if n > 0 {
      CountDrops(cfg, c, n - 1);
      CountAt(cfg, c, n - 1);
      var x := RelaxPass(cfg, c);
    }
  }

  lemma CountAt(cfg: Config, c: Context, i: nat)
    requires Pass1(cfg, c).errors == c.errors && SizesMatch(c.prog) && i < |c.prog|
    ensures ShortForm(cfg, RelaxPass(cfg, c).prog[i]).Some? ==> ShortForm(cfg, c.prog[i]).Some?
    ensures ModeAt(c, i) != ModeAt(RelaxPass(cfg, c), i) ==>
              ShortForm(cfg, c.prog[i]).Some? && ShortForm(cfg, RelaxPass(cfg, c).prog[i]).None?
  {
    ChangeExactly(cfg, c, i);
    PassStmt(cfg, c, i);
    RelaxShape(cfg, Pass1(cfg, c).syms, Pass1(cfg, c).prog[i]);
    hide Pass1, Relax, ZpForm, BranchReady, OperandReady, SizesMatch, Skeleton;
    var s, t := c.prog[i], RelaxPass(cfg, c).prog[i];
    assert t == Relax(cfg, Pass1(cfg, c).syms, Pass1(cfg, c).prog[i]);
    if s.kind.Insn? {
      hide ShortForm;
      ShortFormFacts(cfg, s, t);
    }
  }

  lemma SameModesSmaller(cfg: Config, d: set<Key>, c: Context, x: Context)
    requires Twins(cfg, d, c, x) && SizesMatch(c.prog) && SizesMatch(x.prog)
    requires forall i :: 0 <= i < |c.prog| && i < |x.prog| ==> ModeAt(c, i) == ModeAt(x, i)
    ensures Smaller(c, x) && Smaller(x, c)
  {
    SameLength(c, x);
    forall i | 0 <= i < |c.prog|
      ensures c.prog[i].kind.Insn? <==> x.prog[i].kind.Insn?
      ensures c.prog[i].kind.Insn? ==> x.prog[i].kind.size == c.prog[i].kind.size
    {
      assert ModeAt(c, i) == ModeAt(x, i);
    }
  }

  lemma TwinsSwap(cfg: Config, d: set<Key>, c: Context, x: Context)
    requires Twins(cfg, d, c, x)
    ensures Twins(cfg, d, x, c)
  {
    hide Skeleton, LayoutFree, NoSizeNames;
    FreeSame(cfg, d, c.prog, x.prog);
  }

  /** A pass that shortens nothing is followed by one that changes nothing at all. */
  lemma QuietAfterIdle(cfg: Config, d: set<Key>, c: Context)
    requires Good(cfg, d, c) && SimpleOperands(cfg, d, c) && !FormsDiffer(c, RelaxPass(cfg, c))
    requires Pass1(cfg, RelaxPass(cfg, c)).errors == c.errors
    ensures Good(cfg, d, RelaxPass(cfg, c)) && !Changed(cfg, RelaxPass(cfg, c))
    ensures forall n :: n in c.segs ==> Span(cfg, RelaxPass(cfg, c), n) == Span(cfg, c, n)
  {
    hide AllPacked, Good, Pass1, Twins, Span, SimpleOperands, RefersTo, BranchReady, OperandReady, ZpForm, ShortForm,
         Smaller, SizesMatch, Relax, Steady, Packed;
    var x := RelaxPass(cfg, c);
    GoodParts(cfg, d, c);
    AllSteady(cfg, d, c);
    RelaxPassKeeps(cfg, d, c);
    AllKept(cfg, d, c, x);
    GoodKept(cfg, d, c, x);
    SteadySizes(cfg, d, x);
    TwinsSwap(cfg, d, c, x);
    assert forall i :: 0 <= i < |c.prog| && i < |x.prog| ==> ModeAt(c, i) == ModeAt(x, i);
    SameModesSmaller(cfg, d, c, x);
    forall n | n in c.segs
      ensures Span(cfg, x, n) == Span(cfg, c, n)
    {
      TwinSegs(cfg, d, c, x);
      PackedIn(cfg, d, n, c);
      PackedIn(cfg, d, n, x);
      SpanShrinks(cfg, d, n, c, x);
      SpanShrinks(cfg, d, n, x, c);
    }
    forall i | 0 <= i < |x.prog|
      ensures ModeAt(x, i) == ModeAt(RelaxPass(cfg, x), i)
    {
      StillIdle(cfg, d, c, x, i);
    }
    SizesRepeat(cfg, c);
  }

  lemma TwinSegs(cfg: Config, d: set<Key>, c: Context, x: Context)
    requires Twins(cfg, d, c, x)
    ensures SegsAlike(c.segs, x.segs)
  {
    hide SameShape, AllLayoutFree, NoSizeNames;
  }

  lemma StillIdle(cfg: Config, d: set<Key>, c: Context, x: Context, i: nat)
    requires Good(cfg, d, c) && Good(cfg, d, x) && Twins(cfg, d, c, x) && Twins(cfg, d, x, c) && Smaller(x, c)
    requires Smaller(c, x)
    requires SimpleOperands(cfg, d, c) && x == RelaxPass(cfg, c) && i < |c.prog| && i < |x.prog|
    requires forall j :: 0 <= j < |c.prog| && j < |x.prog| ==> ModeAt(c, j) == ModeAt(x, j)
    ensures ModeAt(RelaxPass(cfg, x), i) == ModeAt(x, i)
  {
    hide AllPacked, Good, Pass1, Twins, Span, SimpleOperands, RefersTo, BranchReady, OperandReady, ZpForm, ShortForm,
         Smaller, RelaxPass, Steady;
    GoodParts(cfg, d, c);
    GoodParts(cfg, d, x);
    AllSteady(cfg, d, c);
    AllSteady(cfg, d, x);
    ChangeExactly(cfg, x, i);
    ChangeExactly(cfg, c, i);
    SimpleIdle(cfg, d, c, x);
    if x.prog[i].kind.Insn? {
      TwinFacts(cfg, d, x, c, i);
      if BranchReady(cfg, x, i) { BranchReadyGrows(cfg, d, x, c, i); }
      if OperandReady(cfg, x, i) { OperandReadyGrows(cfg, d, x, c, i); }
    } else {
      ReadyIsInsn(cfg, x, i);
    }
  }

  lemma SimpleIdle(cfg: Config, d: set<Key>, c: Context, x: Context)
    requires Good(cfg, d, c) && Twins(cfg, d, c, x) && Smaller(c, x) && SimpleOperands(cfg, d, c)
    requires forall j :: 0 <= j < |c.prog| && j < |x.prog| ==> ModeAt(c, j) == ModeAt(x, j)
    ensures SimpleOperands(cfg, d, x)
  {
    hide Good, SimpleOperands, Skeleton, AllLayoutFree, Smaller, NoSizeNames;
    SameLength(c, x);
    SimpleSame(cfg, d, c, x);
  }

  /** Equal spans make the next pass repeat every recorded size. */
  lemma SizesRepeat(cfg: Config, c: Context)
    requires forall n :: n in c.segs ==> Span(cfg, RelaxPass(cfg, c), n) == Span(cfg, c, n)
    ensures var x := RelaxPass(cfg, c);
            Signature(cfg, |cfg.order|, x.segs) == Signature(cfg, |cfg.order|, RelaxPass(cfg, x).segs)
  {
    var x := RelaxPass(cfg, c);
    PassSegs(cfg, c);
    PassSegs(cfg, x);
    assert x.segs == Pass1(cfg, c).segs && RelaxPass(cfg, x).segs == Pass1(cfg, x).segs;
    hide Pass1, RelaxPass, Bitwise, Span, Signature;
    forall n | n in c.segs
      ensures n in x.segs && n in Pass1(cfg, x).segs && x.segs[n].usedSize == Pass1(cfg, x).segs[n].usedSize
    {
      UsedIsSpan(cfg, n, c);
      UsedIsSpan(cfg, n, x);
    }
    SignatureSame(cfg, |cfg.order|, x.segs, Pass1(cfg, x).segs);
  }

  /** What the signature sees of two segment maps. */
  predicate SameSizes(s: map<string, Segment>, t: map<string, Segment>) {
    SegsAlike(s, t) && forall n :: n in s ==> s[n].usedSize == t[n].usedSize
  }

  lemma {:induction false} SignatureSame(cfg: Config, n: nat, s: map<string, Segment>, t: map<string, Segment>)
    requires n <= |cfg.order| && SameSizes(s, t)
    ensures Signature(cfg, n, s) == Signature(cfg, n, t)
  {
    hide Bitwise;
    if n > 0 { SignatureSame(cfg, n - 1, s, t); }
  }

  lemma UsedIsSpan(cfg: Config, name: string, c: Context)
    requires name in c.segs
    ensures name in Pass1(cfg, c).segs && Pass1(cfg, c).segs[name].usedSize == Span(cfg, c, name)
  {
    hide Step, Publish, FinalSyms, CheckErrors;
    AtGrows(cfg, Start(cfg, c), c.prog, 0, |c.prog|);
  }

  /** With the iteration cap ignored, some pass among the first (shrinkable instructions + 2) changes nothing. */
  lemma {:induction false} RunStops(cfg: Config, d: set<Key>, c: Context) returns (k: nat)
    requires Good(cfg, d, c) && SimpleOperands(cfg, d, c)
    requires Quiet(cfg, c, Shrinkable(cfg, c, |c.prog|) + 2)
    ensures k <= Shrinkable(cfg, c, |c.prog|) + 1 && !Changed(cfg, Iterate(cfg, c, k))
    decreases Shrinkable(cfg, c, |c.prog|)
  {
    hide AllPacked, Pass1, Twins, Span, SimpleOperands, RefersTo, Smaller, SizesMatch, Shrinkable, Changed, RelaxPass,
         FormsDiffer, Quiet, Good, Steady;
    var n := Shrinkable(cfg, c, |c.prog|);
    var x := RelaxPass(cfg, c);
    GoodParts(cfg, d, c);
    AllSteady(cfg, d, c);
    RelaxPassKeeps(cfg, d, c);
    IterateOne(cfg, c);
    QuietSteps(cfg, c, 1, n + 2);
    if !FormsDiffer(c, x) {
      QuietAfterIdle(cfg, d, c);
      k := 1;
    } else {
      FormsWitness(cfg, c);
      RunStepGood(cfg, d, c);
      var m := Shrinkable(cfg, x, |x.prog|);
      IterateShift(cfg, c, m + 2);
      QuietShift(cfg, c, m + 2, n + 2);
      var k1 := RunStops(cfg, d, x);
      IterateShift(cfg, c, k1);
      k := k1 + 1;
    }
  }

  lemma FormsWitness(cfg: Config, c: Context)
    requires Pass1(cfg, c).errors == c.errors && SizesMatch(c.prog) && FormsDiffer(c, RelaxPass(cfg, c))
    ensures Shrinkable(cfg, RelaxPass(cfg, c), |c.prog|) < Shrinkable(cfg, c, |c.prog|)
  {
    hide Pass1, RelaxPass, Shrinkable, SizesMatch;
    CountDrops(cfg, c, |c.prog|);
  }

  lemma RunStepGood(cfg: Config, d: set<Key>, c: Context)
    requires Good(cfg, d, c) && SimpleOperands(cfg, d, c)
    requires Pass1(cfg, RelaxPass(cfg, c)).errors == c.errors
    ensures Good(cfg, d, RelaxPass(cfg, c)) && SimpleOperands(cfg, d, RelaxPass(cfg, c))
  {
    hide AllPacked, Good, Pass1, Twins, Span, SimpleOperands, Smaller, SizesMatch, RelaxPass, ShortForm, Steady;
    var x := RelaxPass(cfg, c);
    GoodParts(cfg, d, c);
    AllSteady(cfg, d, c);
    RelaxPassKeeps(cfg, d, c);
    GoodKept(cfg, d, c, x);
    forall i | 0 <= i < |c.prog|
      ensures ModeAt(x, i) ==
                ModeAt(c, i) || (ShortForm(cfg, c.prog[i]).Some? && ModeAt(x, i) == ShortForm(cfg, c.prog[i]))
    {
      ChangeExactly(cfg, c, i);
    }
    SimpleSame(cfg, d, c, x);
  }

  lemma IterateOne(cfg: Config, c: Context)
    ensures Iterate(cfg, c, 1) == RelaxPass(cfg, c)
  {
    hide RelaxPass;
    assert Iterate(cfg, c, 0) == c;
  }

  lemma {:induction false} IterateShift(cfg: Config, c: Context, k: nat)
    ensures Iterate(cfg, RelaxPass(cfg, c), k) == Iterate(cfg, c, k + 1)
  {
    hide RelaxPass;
    if k == 0 { IterateOne(cfg, c); } else { IterateShift(cfg, c, k - 1); }
  }

  lemma QuietShift(cfg: Config, c: Context, m: nat, n: nat)
    requires Quiet(cfg, c, n) && m + 1 <= n && RelaxPass(cfg, c).errors == c.errors
    ensures Quiet(cfg, RelaxPass(cfg, c), m)
  {
    hide RelaxPass;
    IterateShift(cfg, c, m);
    IterateErrors(cfg, c, m + 1, n);
    IterateErrors(cfg, RelaxPass(cfg, c), 0, m);
  }

  /** The loop of asm_relax is this iteration, stopped at the first idle pass or at its cap. */
  lemma {:induction false} LoopIterates(cfg: Config, c: Context, fuel: nat) returns (k: nat)
    ensures k <= fuel && RelaxLoop(cfg, c, fuel).0 == Iterate(cfg, c, k)
    ensures RelaxLoop(cfg, c, fuel).1 ==> k >= 1 && !Changed(cfg, Iterate(cfg, c, k - 1))
    ensures !RelaxLoop(cfg, c, fuel).1 ==> k == fuel && forall m: nat :: m < fuel ==> Changed(cfg, Iterate(cfg, c, m))
    decreases fuel
  {
    hide RelaxPass, Changed;
    IterateZero(cfg, c);
    if fuel == 0 {
      k := 0;
    } else if Changed(cfg, c) {
      k := LoopIterates(cfg, RelaxPass(cfg, c), fuel - 1);
      forall m: nat { IterateShift(cfg, c, m); }
      assert forall m: nat :: m < fuel && m > 0 ==> Iterate(cfg, c, m) == Iterate(cfg, RelaxPass(cfg, c), m - 1);
      k := k + 1;
    } else {
      IterateOne(cfg, c);
      k := 1;
    }
  }

  /** When the run stops by itself, nothing is left to shorten: no remaining long branch reaches its
      target in two bytes, and no remaining operand passes the page-zero test. */
  lemma NothingLeft(cfg: Config, c: Context, i: nat)
    requires Pass1(cfg, c).errors == c.errors && SizesMatch(c.prog) && !Changed(cfg, c) && i < |c.prog|
    ensures !BranchReady(cfg, c, i) && !OperandReady(cfg, c, i)
  {
    hide Pass1, BranchReady, OperandReady, ShortForm, Relax, SizesMatch, ZpForm, Signature;
    ChangeExactly(cfg, c, i);
    assert ModeAt(c, i) == ModeAt(RelaxPass(cfg, c), i);
    if c.prog[i].kind.Insn? { ShortFormFacts(cfg, c.prog[i], c.prog[i]); } else { ReadyIsInsn(cfg, c, i); }
  }

  /** After the last pass of a run that stopped by itself, one more layout pass repeats every size of every segment,
      which is what pass 2 relies on, and still nothing is left to shorten. */
  lemma ConvergedIsSettled(cfg: Config, d: set<Key>, c: Context)
    requires Good(cfg, d, c) && SimpleOperands(cfg, d, c) && !Changed(cfg, c)
    requires Pass1(cfg, RelaxPass(cfg, c)).errors == c.errors
    ensures Settled(cfg, RelaxPass(cfg, c))
    ensures forall i :: 0 <= i < |c.prog| ==>
              !BranchReady(cfg, RelaxPass(cfg, c), i) && !OperandReady(cfg, RelaxPass(cfg, c), i)
  {
    hide Pass1, Span, BranchReady, OperandReady, ShortForm, Relax, SizesMatch, ZpForm, Signature, SimpleOperands,
         AllPacked, Good, Steady, Twins, Settled;
    var x := RelaxPass(cfg, c);
    QuietAfterIdle(cfg, d, c);
    GoodParts(cfg, d, c);
    AllSteady(cfg, d, c);
    RelaxPassKeeps(cfg, d, c);
    SteadySizes(cfg, d, x);
    forall i | 0 <= i < |c.prog| { NothingLeft(cfg, x, i); }
    SpansSettle(cfg, c);
  }

  /** When a pass moves no end of a segment, the sizes it recorded are those the next pass finds. */
  lemma SpansSettle(cfg: Config, c: Context)
    requires Pass1(cfg, RelaxPass(cfg, c)).errors == RelaxPass(cfg, c).errors
    requires forall n :: n in c.segs ==> Span(cfg, RelaxPass(cfg, c), n) == Span(cfg, c, n)
    ensures Settled(cfg, RelaxPass(cfg, c))
  {
    var x := RelaxPass(cfg, c);
    assert x.segs == Pass1(cfg, c).segs;
    PassSegs(cfg, c);
    hide Pass1, Span, RelaxPass;
    forall n | n in c.segs { UsedIsSpan(cfg, n, c); }
    SettledBySpans(cfg, x);
  }

  lemma SettledBySpans(cfg: Config, c: Context)
    requires Pass1(cfg, c).errors == c.errors && forall n :: n in c.segs ==> c.segs[n].usedSize == Span(cfg, c, n)
    ensures Settled(cfg, c)
  {
    hide Step, Publish, FinalSyms, CheckErrors;
    SegsStay(cfg, c, |c.prog|);
    forall n | n in c.segs
      ensures Walked(cfg, c).segs.Keys == c.segs.Keys && Walked(cfg, c).segs[n].pc == c.segs[n].usedSize
    {
      assert c.segs[n].usedSize == Span(cfg, c, n);
    }
  }
}
