/** Whole relaxation runs: what was in range stays in range, and pass 2 accepts what the relaxer chose. */
module RelaxRun {
  import opened Support
  import opened Expressions
  import opened Opcodes
  import opened Program
  import opened Layout
  import opened Emission
  import opened Agreement
  import opened Tiling
  import opened NonInterference
  import opened Labels
  import opened Relaxation
  import opened RelaxSafety

  // ---- one iteration

  lemma PassErrors(cfg: Config, c: Context)
    ensures c.errors <= Pass1(cfg, c).errors
  {
    hide Step, Publish, FinalSyms, CheckErrors;
    AtGrows(cfg, Start(cfg, c), c.prog, 0, |c.prog|);
  }

  lemma PassSegs(cfg: Config, c: Context)
    ensures SegsAlike(c.segs, Pass1(cfg, c).segs)
  {
    hide Step, Publish, FinalSyms, CheckErrors;
    AtGrows(cfg, Start(cfg, c), c.prog, 0, |c.prog|);
  }

  lemma RelaxShape(cfg: Config, syms: Symtab, s: Stmt)
    ensures var t := Relax(cfg, syms, s);
            Skeleton(t) == Skeleton(s) && t.segment == s.segment && t.labelName == s.labelName && t.file == s.file &&
            t.scope == s.scope
    ensures !s.kind.Insn? ==> Relax(cfg, syms, s) == s
    ensures s.kind.Insn? ==> var t := Relax(cfg, syms, s);
              t.kind.Insn? && t.kind.opcode == s.kind.opcode && t.kind.operand == s.kind.operand &&
              t.kind.suffixed == s.kind.suffixed
    ensures s.kind.Insn? && s.kind.size == ModeSize(s.kind.mode) ==>
              Relax(cfg, syms, s).kind.size == ModeSize(Relax(cfg, syms, s).kind.mode) <= s.kind.size
  {
    hide Lookup, Eval, Classify, IsZpImport, BranchFits;
  }

  lemma CheckedShape(cfg: Config, syms: Symtab, s: Stmt)
    ensures Skeleton(Checked(cfg, syms, s).0) == Skeleton(s) && Checked(cfg, syms, s).0.kind == s.kind &&
            Checked(cfg, syms, s).0.segment == s.segment
  {
    hide Eval, StorageKey;
  }

  /** Statement `i` after one iteration. */
  lemma PassStmt(cfg: Config, c: Context, i: nat)
    requires i < |c.prog| && Pass1(cfg, c).errors == c.errors
    ensures Pass1(cfg, c).prog[i].segment == c.prog[i].segment
    ensures Skeleton(Pass1(cfg, c).prog[i]) == Skeleton(c.prog[i])
    ensures c.prog[i].kind.Insn? <==> Pass1(cfg, c).prog[i].kind.Insn?
    ensures c.prog[i].kind.Insn? ==> Pass1(cfg, c).prog[i].kind == c.prog[i].kind
  {
    LaidStays(cfg, c, i);
    CheckedShape(cfg, FinalSyms(cfg, c), Laid(cfg, Start(cfg, c), c.prog, i));
    PassIsChecked(cfg, c, i);
    hide Pass1, Step, Start, At, Skeleton, Checked;
    UnknownSegment(cfg, c, i);
    LaidAt(cfg, c, i);
    LaidShape(cfg, At(cfg, Start(cfg, c), c.prog, i), c.prog[i]);
    LaidSkeleton(cfg, At(cfg, Start(cfg, c), c.prog, i), c.prog[i]);
  }

  lemma PassIsChecked(cfg: Config, c: Context, i: nat)
    requires i < |c.prog|
    ensures Pass1(cfg, c).prog[i] == Checked(cfg, FinalSyms(cfg, c), Laid(cfg, Start(cfg, c), c.prog, i)).0
  {
    hide Checked, Laid, FinalSyms, Walked, CheckErrors;
  }

  /** An iteration keeps the program and the class; instructions only get shorter. */
  lemma RelaxPassKeeps(cfg: Config, d: set<Key>, c: Context)
    requires Steady(cfg, d, c) && Pass1(cfg, c).errors == c.errors
    ensures var c' := RelaxPass(cfg, c);
            Steady(cfg, d, c') && Twins(cfg, d, c, c') && Smaller(c, c') && c'.errors == c.errors
  {
    hide Pass1, Relax, Skeleton, LayoutFree;
    var c' := RelaxPass(cfg, c);
    PassSegs(cfg, c);
    forall i | 0 <= i < |c.prog|
      ensures Skeleton(c'.prog[i]) == Skeleton(c.prog[i]) && c'.prog[i].segment == c.prog[i].segment
      ensures c.prog[i].kind.Insn? ==> c'.prog[i].kind.Insn? && c'.prog[i].kind.size <= c.prog[i].kind.size
      ensures c'.prog[i].kind.Insn? ==> c'.prog[i].kind.size == ModeSize(c'.prog[i].kind.mode)
    {
      PassStmt(cfg, c, i);
      RelaxShape(cfg, Pass1(cfg, c).syms, Pass1(cfg, c).prog[i]);
    }
    FreeSame(cfg, d, c.prog, c'.prog);
  }

  /** A twin is in the class as well. */
  lemma PackedKept(cfg: Config, d: set<Key>, name: string, c: Context, c': Context)
    requires Packed(cfg, d, name, c) && Twins(cfg, d, c, c') && Steady(cfg, d, c')
    ensures Packed(cfg, d, name, c')
  {
    hide Skeleton, AllLayoutFree, NoSizeNames, SizesMatch;
    if cfg.objectMode {
      forall i | 0 <= i < |c'.prog| && c'.prog[i].segment == name
        ensures !IsAlign(c'.prog[i])
      {
        SkeletonKeys(cfg, c.prog[i], c'.prog[i], "");
      }
    }
  }

  // ---- runs

  lemma {:induction false} IterateErrors(cfg: Config, c: Context, k: nat, n: nat)
    requires k <= n
    ensures Iterate(cfg, c, k).errors <= Iterate(cfg, c, n).errors
    ensures k < n ==> Pass1(cfg, Iterate(cfg, c, k)).errors <= Iterate(cfg, c, n).errors
    decreases n - k
  {
    hide Pass1, Relax;
    if k < n {
      IterateErrors(cfg, c, k, n - 1);
      PassErrors(cfg, Iterate(cfg, c, n - 1));
    }
  }

  /** A run of `n` iterations without errors. */
  predicate Quiet(cfg: Config, c: Context, n: nat) { Iterate(cfg, c, n).errors == c.errors }

  lemma QuietSteps(cfg: Config, c: Context, k: nat, n: nat)
    requires Quiet(cfg, c, n) && k <= n
    ensures Quiet(cfg, c, k)
    ensures k < n ==> Pass1(cfg, Iterate(cfg, c, k)).errors == Iterate(cfg, c, k).errors
  {
    hide Pass1, RelaxPass;
    IterateErrors(cfg, c, 0, k);
    IterateErrors(cfg, c, k, n);
    PassErrors(cfg, Iterate(cfg, c, k));
  }

  lemma SmallerTransitive(a: Context, b: Context, c: Context)
    requires Smaller(a, b) && Smaller(b, c)
    ensures Smaller(a, c)
  {
  }

  lemma TwinsTransitive(cfg: Config, d: set<Key>, a: Context, b: Context, c: Context)
    requires Twins(cfg, d, a, b) && Twins(cfg, d, b, c)
    ensures Twins(cfg, d, a, c)
  {
    hide Skeleton, LayoutFree, NoSizeNames;
  }

  /** Throughout a quiet run the class holds and the program only shrinks. */
  lemma {:induction false} RunKeeps(cfg: Config, d: set<Key>, c: Context, k: nat, n: nat)
    requires Steady(cfg, d, c) && Quiet(cfg, c, n) && k <= n
    ensures Steady(cfg, d, Iterate(cfg, c, k)) && Steady(cfg, d, Iterate(cfg, c, n))
    ensures Twins(cfg, d, Iterate(cfg, c, k), Iterate(cfg, c, n)) && Smaller(Iterate(cfg, c, k), Iterate(cfg, c, n))
    decreases n
  {
    hide Pass1, RelaxPass, Steady, Twins;
    if n == 0 {
      SteadyTwin(cfg, d, c);
    } else {
      QuietSteps(cfg, c, n - 1, n);
      RunKeeps(cfg, d, c, if k < n then k else n - 1, n - 1);
      var x := Iterate(cfg, c, n - 1);
      RelaxPassKeeps(cfg, d, x);
      if k < n {
        SmallerTransitive(Iterate(cfg, c, k), x, Iterate(cfg, c, n));
        TwinsTransitive(cfg, d, Iterate(cfg, c, k), x, Iterate(cfg, c, n));
      } else {
        SteadyTwin(cfg, d, Iterate(cfg, c, n));
      }
    }
  }

  /** A segment of the class stays in it throughout the run. */
  lemma RunPacked(cfg: Config, d: set<Key>, name: string, c: Context, n: nat)
    requires Packed(cfg, d, name, c) && Quiet(cfg, c, n)
    ensures Packed(cfg, d, name, Iterate(cfg, c, n)) && Twins(cfg, d, c, Iterate(cfg, c, n))
    ensures Smaller(c, Iterate(cfg, c, n))
  {
    hide Quiet, Iterate, Packed, Twins, Smaller, Steady;
    PackedParts(cfg, d, name, c);
    IterateZero(cfg, c);
    RunKeeps(cfg, d, c, 0, n);
    PackedKept(cfg, d, name, c, Iterate(cfg, c, n));
  }

  lemma {:induction false} RunLength(cfg: Config, c: Context, k: nat)
    ensures |Iterate(cfg, c, k).prog| == |c.prog|
  {
    hide RelaxPass;
    if k > 0 { RunLength(cfg, c, k - 1); }
  }

  lemma SpanShrinks(cfg: Config, d: set<Key>, name: string, c: Context, c': Context)
    requires Packed(cfg, d, name, c) && Twins(cfg, d, c, c') && Smaller(c, c') && Pass1(cfg, c).errors == c.errors
    ensures Span(cfg, c', name) <= Span(cfg, c, name)
  {
    hide Packed, Twins, Pass1, Off, Smaller;
    SmallerLength(c, c');
    Below(cfg, d, name, c, c', |c.prog|);
  }

  /** The operand of instruction `i` as pass 2 reads it, one byte into the instruction. */
  function OperandValue(cfg: Config, c: Context, i: nat): EvalResult {
    if i < |c.prog| && c.prog[i].kind.Insn? && c.prog[i].kind.operand.Some? then
      var p := Pass1(cfg, c);
      Eval(c.prog[i].kind.operand.value, p.syms, p.prog[i].scope, p.prog[i].file, p.prog[i].address + 1)
    else Unresolved
  }

  /** The two-byte form of branch `i` reaches its target in the layout of `c`. */
  predicate BranchInRange(cfg: Config, c: Context, i: nat) {
    OperandValue(cfg, c, i).Ok? && i < |c.prog| &&
    BranchFits(Pass1(cfg, c).prog[i].address + 2, OperandValue(cfg, c, i).value)
  }

  /** The operand of `i` is a page-zero address in the layout of `c`. */
  predicate OperandInPage(cfg: Config, c: Context, i: nat) {
    OperandValue(cfg, c, i).Ok? && 0 <= OperandValue(cfg, c, i).value <= 0xff
  }

  lemma IterateZero(cfg: Config, c: Context)
    ensures Iterate(cfg, c, 0) == c
  {
  }

  lemma PassSyms(cfg: Config, c: Context)
    ensures Pass1(cfg, c).syms == FinalSyms(cfg, c)
  {
    hide FinalSyms, Walked, CheckErrors;
  }

  lemma RefersBounds(cfg: Config, c: Context, i: nat, j: nat)
    requires RefersTo(cfg, c, i, j)
    ensures i < |c.prog| && j < |c.prog| && c.prog[i].kind.Insn? && c.prog[i].kind.operand.Some?
    ensures c.prog[i].kind.operand.value.Ident?
  {
    hide FinalSyms;
  }

  lemma BaseSame(cfg: Config, d: set<Key>, name: string, c: Context, c': Context)
    requires Packed(cfg, d, name, c) && Twins(cfg, d, c, c')
    ensures name in c.segs && name in c'.segs && c.segs[name].base == c'.segs[name].base >= 0
  {
    hide SameShape, AllLayoutFree, Steady, NoAlign, NoSizeNames;
  }

  /** Bare labels in offsets. */
  lemma RangeByOffsets(cfg: Config, d: set<Key>, name: string, c: Context, i: nat, j: nat)
    requires Packed(cfg, d, name, c) && Pass1(cfg, c).errors == c.errors && RefersTo(cfg, c, i, j)
    requires j < |c.prog| ==> c.prog[j].segment == name
    ensures i < |c.prog| && j < |c.prog| && name in c.segs && OperandValue(cfg, c, i).Ok?
    ensures OperandInPage(cfg, c, i) <==> 0 <= c.segs[name].base + Off(cfg, c, name, j) <= 0xff
    ensures c.prog[i].segment == name ==>
              var b := c.segs[name].base;
              (BranchInRange(cfg, c, i) <==> BranchFits(b + Off(cfg, c, name, i) + 2, b + Off(cfg, c, name, j)))
  {
    hide Packed, Pass1, FinalSyms, RefersTo, Eval, BranchFits, Laid, Off, Twins, Steady, HoldsLabel;
    PackedParts(cfg, d, name, c);
    LabelValue(cfg, d, c, i, j);
    LabelEval(cfg, c, i, j);
    PassSyms(cfg, c);
  }

  /** Branch `i` and its target `j` lie in segment `name`, nothing between them is fixed, and they are too close for the
      displacement to wrap around. */
  predicate NearBranch(cfg: Config, name: string, c: Context, i: nat, j: nat) {
    i < |c.prog| && j < |c.prog| && c.prog[i].segment == name && c.prog[j].segment == name &&
    FreeBetween(name, c.prog, i, j) && FreeBetween(name, c.prog, j, i) &&
    -MAX_SPAN <= Off(cfg, c, name, j) - Off(cfg, c, name, i) <= MAX_SPAN
  }

  lemma FreeKept(cfg: Config, d: set<Key>, name: string, x: Context, y: Context, i: nat, j: nat)
    requires Twins(cfg, d, x, y) && Pass1(cfg, x).errors == x.errors && FreeBetween(name, x.prog, i, j)
    ensures FreeBetween(name, y.prog, i, j)
  {
    SameLength(x, y);
    hide Twins, Pass1, IsAlign, IsOrg;
    forall k | i <= k < j && k < |y.prog| && y.prog[k].segment == name
      ensures !IsAlign(y.prog[k]) && !IsOrg(y.prog[k])
    {
      SegmentKnown(cfg, d, x, y, k);
    }
  }

  lemma NearStays(cfg: Config, d: set<Key>, name: string, x: Context, y: Context, i: nat, j: nat)
    requires Packed(cfg, d, name, x) && Twins(cfg, d, x, y) && Smaller(x, y)
    requires Pass1(cfg, x).errors == x.errors && NearBranch(cfg, name, x, i, j)
    ensures NearBranch(cfg, name, y, i, j)
  {
    hide Packed, Twins, Off, Pass1, Smaller, FreeBetween;
    SegmentKnown(cfg, d, x, y, i);
    SegmentKnown(cfg, d, x, y, j);
    FreeKept(cfg, d, name, x, y, i, j);
    FreeKept(cfg, d, name, x, y, j, i);
    EndsCloser(cfg, d, name, x, y, i, j);
  }

  /** From one pass to a smaller one. */
  lemma StaysInRange(cfg: Config, d: set<Key>, name: string, x: Context, y: Context, i: nat, j: nat)
    requires Packed(cfg, d, name, x) && Packed(cfg, d, name, y) && Twins(cfg, d, x, y) && Smaller(x, y)
    requires Pass1(cfg, x).errors == x.errors && Pass1(cfg, y).errors == y.errors && RefersTo(cfg, x, i, j)
    requires j < |x.prog| ==> x.prog[j].segment == name
    ensures NearBranch(cfg, name, x, i, j) && BranchInRange(cfg, x, i) ==> BranchInRange(cfg, y, i)
    ensures OperandInPage(cfg, x, i) ==> OperandInPage(cfg, y, i)
  {
    hide Packed, Twins, Off, FinalSyms, RefersTo, Pass1, BranchInRange, OperandInPage, Smaller, BranchFits,
         MovesCloser, FreeBetween;
    RefersSame(cfg, d, x, y, i, j);
    RefersBounds(cfg, x, i, j);
    SegmentKnown(cfg, d, x, y, i);
    SegmentKnown(cfg, d, x, y, j);
    RangeByOffsets(cfg, d, name, x, i, j);
    RangeByOffsets(cfg, d, name, y, i, j);
    BaseSame(cfg, d, name, x, y);
    Below(cfg, d, name, x, y, j);
    if NearBranch(cfg, name, x, i, j) && BranchInRange(cfg, x, i) {
      EndsCloser(cfg, d, name, x, y, i, j);
      FitsCloser(x.segs[name].base, Off(cfg, x, name, i), Off(cfg, x, name, j), Off(cfg, y, name, i), Off(cfg, y, name, j));
    }
  }

  /** A branch to a label that was in range once is in range at every later pass, and a label operand
      that was in page zero once stays there; so whatever the relaxer shortened still encodes when
      pass 2 comes, even if the run was cut off. */
  lemma ShrinkingIsSafe(cfg: Config, d: set<Key>, name: string, c: Context, k: nat, n: nat, i: nat, j: nat)
    requires Packed(cfg, d, name, c) && Quiet(cfg, c, n + 1) && k <= n
    requires RefersTo(cfg, c, i, j) && (j < |c.prog| ==> c.prog[j].segment == name)
    ensures NearBranch(cfg, name, c, i, j) && BranchInRange(cfg, Iterate(cfg, c, k), i) ==>
              BranchInRange(cfg, Iterate(cfg, c, n), i)
    ensures OperandInPage(cfg, Iterate(cfg, c, k), i) ==> OperandInPage(cfg, Iterate(cfg, c, n), i)
  {
    hide Packed, Twins, Iterate, FinalSyms, RefersTo, Smaller, Pass1, BranchInRange, OperandInPage, Quiet, NearBranch,
         Steady;
    QuietSteps(cfg, c, 0, n + 1);
    QuietSteps(cfg, c, k, n + 1);
    QuietSteps(cfg, c, n, n + 1);
    IterateZero(cfg, c);
    var x, y := Iterate(cfg, c, k), Iterate(cfg, c, n);
    PackedParts(cfg, d, name, c);
    RunPacked(cfg, d, name, c, k);
    RunPacked(cfg, d, name, c, n);
    RunKeeps(cfg, d, c, k, n);
    RefersSame(cfg, d, c, x, i, j);
    RefersBounds(cfg, c, i, j);
    SegmentKnown(cfg, d, c, x, j);
    if NearBranch(cfg, name, c, i, j) { NearStays(cfg, d, name, c, x, i, j); }
    StaysInRange(cfg, d, name, x, y, i, j);
  }

  /** What made the relaxer change a form. */
  lemma ChangeMeansFits(cfg: Config, c: Context, i: nat)
    requires Pass1(cfg, c).errors == c.errors && i < |c.prog| && c.prog[i].kind.Insn?
    requires ModeAt(RelaxPass(cfg, c), i) != ModeAt(c, i)
    ensures if c.prog[i].kind.mode == RelLong then ModeAt(RelaxPass(cfg, c), i) == Some(Rel) && BranchInRange(cfg, c, i)
            else ZpForm(cfg, c.prog[i]).Some? && ModeAt(RelaxPass(cfg, c), i) == Some(ZpForm(cfg, c.prog[i]).value) &&
                 OperandShrinks(cfg, Pass1(cfg, c).syms, Pass1(cfg, c).prog[i])
  {
    hide Pass1, Lookup, Eval, Classify, IsZpImport, BranchFits;
    PassStmt(cfg, c, i);
  }

  /** Operands that are bare labels mean the same one byte further on. */
  lemma LabelOperandInPage(cfg: Config, d: set<Key>, c: Context, i: nat, j: nat)
    requires Steady(cfg, d, c) && Pass1(cfg, c).errors == c.errors && RefersTo(cfg, c, i, j)
    requires i < |c.prog| && Pass1(cfg, c).prog[i].kind.Insn?
    requires OperandShrinks(cfg, Pass1(cfg, c).syms, Pass1(cfg, c).prog[i])
    ensures OperandInPage(cfg, c, i)
  {
    hide Steady, Pass1, FinalSyms, RefersTo, Eval, Laid, Off, Classify, ZpForm, HoldsLabel;
    LabelValue(cfg, d, c, i, j);
    LabelEval(cfg, c, i, j);
    PassSyms(cfg, c);
  }

  // ---- acceptance by pass 2

  /** Only `.set` variables change while bytes are written. */
  lemma {:induction false} EmissionKeepsRest(cfg: Config, c: Context, n: nat)
    requires n <= |c.prog|
    ensures var e := EmitAt(cfg, c, n).syms;
            e.Keys == c.syms.Keys && forall k :: k in e ==> SeesEntry(e[k], c.syms[k])
  {
    hide StmtBytes, Write, StorageKey, Eval;
    if n > 0 { EmissionKeepsRest(cfg, c, n - 1); }
  }

  /** Pass 2 reads a label operand as the layout pass left it. */
  lemma LabelEmitted(cfg: Config, d: set<Key>, c: Context, i: nat, j: nat)
    requires Steady(cfg, d, c) && Pass1(cfg, c).errors == c.errors && RefersTo(cfg, c, i, j)
    ensures i < |c.prog| && c.prog[i].kind.Insn? && c.prog[i].kind.operand.Some?
    ensures Pass1(cfg, c).prog[i].kind == c.prog[i].kind
    ensures var p := Pass1(cfg, c); var s := p.prog[i];
            forall pc :: Eval(c.prog[i].kind.operand.value, EmitAt(cfg, p, i).syms, s.scope, s.file, pc) == OperandValue(cfg, c, i)
    ensures OperandValue(cfg, c, i).Ok?
  {
    hide Steady, Pass1, FinalSyms, RefersTo, Laid, Off, EmitAt, SegmentKind;
    LabelValue(cfg, d, c, i, j);
    LabelEval(cfg, c, i, j);
    PassSyms(cfg, c);
    EmissionKeepsRest(cfg, Pass1(cfg, c), i);
    var f := FinalSyms(cfg, c);
    var k := Resolve(f.Keys, c.prog[i].scope, c.prog[i].file, c.prog[i].kind.operand.value.name);
    assert SeesEntry(EmitAt(cfg, Pass1(cfg, c), i).syms[k], f[k]);
  }

  /** Pass 2 encodes instruction `i` of the layout pass over `c` without an error. */
  predicate Accepted(cfg: Config, c: Context, i: nat) {
    var p := Pass1(cfg, c);
    i < |c.prog| && p.prog[i].kind.Insn? && InsnBytes(cfg, EmitAt(cfg, p, i).syms, p.prog[i]).ok
  }

  /** Pass 2 takes a short branch to a label exactly when its byte is configured and the target in range. */
  lemma BranchAccepted(cfg: Config, d: set<Key>, c: Context, i: nat, j: nat)
    requires Steady(cfg, d, c) && Pass1(cfg, c).errors == c.errors && RefersTo(cfg, c, i, j)
    requires ModeIs(c, i, Rel)
    ensures Accepted(cfg, c, i) <==> Lookup(cfg.table, c.prog[i].kind.opcode, Rel).Some? && BranchInRange(cfg, c, i)
  {
    hide Steady, Pass1, RefersTo, EmitAt, Eval, Lookup, BranchFits, Disp16, OperandValue;
    LabelEmitted(cfg, d, c, i, j);
    RangeMeans(cfg, c, i);
  }

  predicate ModeIs(c: Context, i: nat, m: EmitMode) { i < |c.prog| && c.prog[i].kind.Insn? && c.prog[i].kind.mode == m }

  lemma RangeMeans(cfg: Config, c: Context, i: nat)
    requires i < |c.prog| && OperandValue(cfg, c, i).Ok?
    ensures BranchInRange(cfg, c, i) <==> BranchFits(Pass1(cfg, c).prog[i].address + 2, OperandValue(cfg, c, i).value)
  {
    hide Pass1, OperandValue, BranchFits;
  }

  /** Pass 2 takes a page-zero form with a label operand exactly when its byte is configured and the label in page
      zero. */
  lemma OperandAccepted(cfg: Config, d: set<Key>, c: Context, i: nat, j: nat, m: EmitMode)
    requires Steady(cfg, d, c) && Pass1(cfg, c).errors == c.errors && RefersTo(cfg, c, i, j)
    requires ModeIs(c, i, m) && (m == Zp || m == ZpX || m == ZpY)
    ensures Accepted(cfg, c, i) <==> Lookup(cfg.table, c.prog[i].kind.opcode, m).Some? && OperandInPage(cfg, c, i)
  {
    hide Steady, Pass1, RefersTo, EmitAt, Eval, Lookup, OperandValue;
    LabelEmitted(cfg, d, c, i, j);
  }

  /** A shortened form is final. */
  lemma {:induction false} ShortStays(cfg: Config, c: Context, k: nat, n: nat, i: nat, m: EmitMode)
    requires Quiet(cfg, c, n) && k <= n && ModeIs(Iterate(cfg, c, k), i, m)
    requires (m == Rel || m == Zp || m == ZpX || m == ZpY)
    ensures ModeIs(Iterate(cfg, c, n), i, m)
    ensures Iterate(cfg, c, n).prog[i].kind.opcode == Iterate(cfg, c, k).prog[i].kind.opcode
    decreases n - k
  {
    hide Pass1, RelaxPass, Quiet;
    if k < n {
      var x := Iterate(cfg, c, n - 1);
      QuietSteps(cfg, c, n - 1, n);
      ShortStays(cfg, c, k, n - 1, i, m);
      if ModeAt(RelaxPass(cfg, x), i) != ModeAt(x, i) { ChangeMeansFits(cfg, x, i); }
      PassKeepsOpcode(cfg, x, i);
    }
  }

  lemma PassKeepsOpcode(cfg: Config, c: Context, i: nat)
    requires i < |c.prog| && Pass1(cfg, c).errors == c.errors && c.prog[i].kind.Insn?
    ensures RelaxPass(cfg, c).prog[i].kind.Insn? && RelaxPass(cfg, c).prog[i].kind.opcode == c.prog[i].kind.opcode
  {
    hide Pass1, Relax, Skeleton;
    PassStmt(cfg, c, i);
    RelaxShape(cfg, Pass1(cfg, c).syms, Pass1(cfg, c).prog[i]);
  }

  /** The form found short at iteration `k + 1`, and what the table must hold for it. */
  lemma ShortenedTo(cfg: Config, c: Context, k: nat, n: nat, i: nat) returns (m: EmitMode)
    requires Quiet(cfg, c, n) && k < n && i < |Iterate(cfg, c, k).prog| && i < |Iterate(cfg, c, k + 1).prog|
    requires Iterate(cfg, c, k).prog[i].kind.Insn?
    requires ModeAt(Iterate(cfg, c, k + 1), i) != ModeAt(Iterate(cfg, c, k), i)
    ensures ModeIs(Iterate(cfg, c, n), i, m)
    ensures Iterate(cfg, c, n).prog[i].kind.opcode == Iterate(cfg, c, k).prog[i].kind.opcode
    ensures if Iterate(cfg, c, k).prog[i].kind.mode == RelLong then m == Rel
            else (m == Zp || m == ZpX || m == ZpY) && Lookup(cfg.table, Iterate(cfg, c, k).prog[i].kind.opcode, m).Some?
  {
    hide Pass1, RelaxPass, Quiet, Lookup, BranchInRange, OperandShrinks;
    var x := Iterate(cfg, c, k);
    QuietSteps(cfg, c, k, n);
    ChangeMeansFits(cfg, x, i);
    PassKeepsOpcode(cfg, x, i);
    m := Iterate(cfg, c, k + 1).prog[i].kind.mode;
    ShortStays(cfg, c, k + 1, n, i, m);
  }

  /** Whatever form the relaxer chose at iteration `k`, pass 2 encodes it after `n` iterations: no "branch out of
      range", no "requires a zero-page operand". A branch needs its short form in the opcode table. */
  lemma ChosenFormEncodes(cfg: Config, d: set<Key>, name: string, c: Context, k: nat, n: nat, i: nat, j: nat)
    requires Packed(cfg, d, name, c) && Quiet(cfg, c, n + 1) && k < n
    requires RefersTo(cfg, c, i, j) && (j < |c.prog| ==> c.prog[j].segment == name)
    requires i < |Iterate(cfg, c, k).prog| && i < |Iterate(cfg, c, k + 1).prog|
    requires ModeAt(Iterate(cfg, c, k + 1), i) != ModeAt(Iterate(cfg, c, k), i)
    requires ModeIs(Iterate(cfg, c, k), i, RelLong) ==>
               NearBranch(cfg, name, c, i, j) && Lookup(cfg.table, Iterate(cfg, c, k).prog[i].kind.opcode, Rel).Some?
    ensures Accepted(cfg, Iterate(cfg, c, n), i)
  {
    hide *;
    PackedParts(cfg, d, name, c);
    QuietSteps(cfg, c, 0, n + 1);
    QuietSteps(cfg, c, k, n + 1);
    QuietSteps(cfg, c, n, n + 1);
    IterateZero(cfg, c);
    RunKeeps(cfg, d, c, 0, k);
    RunKeeps(cfg, d, c, 0, n);
    var x, y := Iterate(cfg, c, k), Iterate(cfg, c, n);
    RefersSame(cfg, d, c, x, i, j);
    RefersSame(cfg, d, c, y, i, j);
    RefersBounds(cfg, x, i, j);
    ChangeFits(cfg, d, c, k, i, j);
    ShrinkingIsSafe(cfg, d, name, c, k, n, i, j);
    var m := ShortenedTo(cfg, c, k, n, i);
    LongMode(x, i);
    if x.prog[i].kind.mode == RelLong {
      BranchAccepted(cfg, d, y, i, j);
    } else {
      OperandAccepted(cfg, d, y, i, j, m);
    }
  }

  lemma LongMode(c: Context, i: nat)
    requires i < |c.prog| && c.prog[i].kind.Insn?
    ensures ModeIs(c, i, RelLong) <==> c.prog[i].kind.mode == RelLong
  {
  }

  /** What was true when iteration `k` changed the form. */
  lemma ChangeFits(cfg: Config, d: set<Key>, c: Context, k: nat, i: nat, j: nat)
    requires var x := Iterate(cfg, c, k);
             Steady(cfg, d, x) && Pass1(cfg, x).errors == x.errors && RefersTo(cfg, x, i, j)
    requires i < |Iterate(cfg, c, k).prog| && i < |Iterate(cfg, c, k + 1).prog| && Iterate(cfg, c, k).prog[i].kind.Insn?
    requires ModeAt(Iterate(cfg, c, k + 1), i) != ModeAt(Iterate(cfg, c, k), i)
    ensures if Iterate(cfg, c, k).prog[i].kind.mode == RelLong
            then BranchInRange(cfg, Iterate(cfg, c, k), i) else OperandInPage(cfg, Iterate(cfg, c, k), i)
  {
    hide Steady, Pass1, RelaxPass, RefersTo, BranchInRange, OperandInPage, OperandShrinks, ZpForm;
    var x := Iterate(cfg, c, k);
    ChangeMeansFits(cfg, x, i);
    if x.prog[i].kind.mode != RelLong {
      PassStmt(cfg, x, i);
      LabelOperandInPage(cfg, d, x, i, j);
    }
  }
}
