/** `.same` and `.cross` branches of a flat assembly: the check behind the relaxation loop, and what it is worth once
    the bytes are written (assembler/asm_pass.c). */
module PageSpecs {
  import opened Support
  import opened Expressions
  import opened Opcodes
  import opened Program
  import opened Layout
  import opened Agreement
  import opened NonInterference
  import opened Labels
  import opened Relaxation
  import opened RelaxSafety
  import opened RelaxRun
  import opened RelaxFixpoint
  import opened PhaseChoice

  predicate HardSpec(p: PageSpec) { p == PageSame || p == PageCross }

  /** validate_branch_page_specs on one statement: whether it reports an error. Unresolved targets are left to pass
      2. */
  predicate PageError(cfg: Config, syms: Symtab, s: Stmt) {
    if !s.kind.Insn? || s.kind.page == PageUnspecified then false
    else if s.kind.mode != Rel && s.kind.mode != RelLong then true
    else if HardSpec(s.kind.page) && s.kind.mode != Rel then true
    else if cfg.objectMode || !HardSpec(s.kind.page) || s.kind.operand.None? then false
    else
      var v := Eval(s.kind.operand.value, syms, s.scope, s.file, s.address + 1);
      v.Ok? && Crosses(0, s.address, v.value) != (s.kind.page == PageCross)
  }

  function PageErrors(cfg: Config, syms: Symtab, prog: seq<Stmt>, n: nat): nat
    requires n <= |prog|
  {
    if n == 0 then 0 else PageErrors(cfg, syms, prog, n - 1) + if PageError(cfg, syms, prog[n - 1]) then 1 else 0
  }

  /** The context after the check. */
  function Validated(cfg: Config, c: Context): Context {
    c.(errors := c.errors + PageErrors(cfg, c.syms, c.prog, |c.prog|))
  }

  /** The check is silent exactly when no statement fails it. */
  lemma {:induction false} SilentExact(cfg: Config, syms: Symtab, prog: seq<Stmt>, n: nat)
    requires n <= |prog|
    ensures PageErrors(cfg, syms, prog, n) == 0 <==> forall i :: 0 <= i < n ==> !PageError(cfg, syms, prog[i])
  {
    hide PageError;
    if n > 0 { SilentExact(cfg, syms, prog, n - 1); }
  }

  /** In a flat assembly a resolved `.same` or `.cross` branch passes exactly when it is short and its target lies on
      the page the annotation asks for, counted from the next instruction in the 16-bit address space. */
  lemma PageErrorExact(cfg: Config, syms: Symtab, s: Stmt)
    requires !cfg.objectMode && s.kind.Insn? && HardSpec(s.kind.page) && s.kind.operand.Some?
    requires Eval(s.kind.operand.value, syms, s.scope, s.file, s.address + 1).Ok?
    ensures var v := Eval(s.kind.operand.value, syms, s.scope, s.file, s.address + 1).value;
            !PageError(cfg, syms, s) <==>
              s.kind.mode == Rel && (((s.address + 2) / 256) % 256 != (v / 256) % 256 <==> s.kind.page == PageCross)
  {
    hide Eval, Crosses;
    CrossesExact(0, s.address, Eval(s.kind.operand.value, syms, s.scope, s.file, s.address + 1).value);
  }

  // ---- from the check to the bytes

  /** A pass that shortened nothing is followed by one that gives every statement its offset again. */
  lemma OffsetsRepeat(cfg: Config, d: set<Key>, name: string, c: Context, i: nat)
    requires AllPacked(cfg, d, c) && name in c.segs && Pass1(cfg, c).errors == c.errors && i <= |c.prog|
    requires !FormsDiffer(c, RelaxPass(cfg, c)) && Pass1(cfg, RelaxPass(cfg, c)).errors == c.errors
    ensures Off(cfg, RelaxPass(cfg, c), name, i) == Off(cfg, c, name, i)
  {
    hide AllPacked, Pass1, RelaxPass, Off, Steady, Packed, Twins, Smaller, SizesMatch, FormsDiffer;
    var x := RelaxPass(cfg, c);
    AllSteady(cfg, d, c);
    RelaxPassKeeps(cfg, d, c);
    PackedIn(cfg, d, name, c);
    PackedKept(cfg, d, name, c, x);
    TwinsSwap(cfg, d, c, x);
    SteadySizes(cfg, d, x);
    SameForms(cfg, c);
    SameModesSmaller(cfg, d, c, x);
    Below(cfg, d, name, c, x, i);
    Below(cfg, d, name, x, c, i);
  }

  lemma SameForms(cfg: Config, c: Context)
    requires !FormsDiffer(c, RelaxPass(cfg, c))
    ensures |RelaxPass(cfg, c).prog| == |c.prog|
    ensures forall i :: 0 <= i < |c.prog| ==> ModeAt(c, i) == ModeAt(RelaxPass(cfg, c), i)
  {
    hide RelaxPass, ModeAt;
  }

  /** When the loop stops by itself the next layout pass gives every label branch its address and target again. */
  lemma BranchRepeats(cfg: Config, d: set<Key>, c: Context, i: nat, j: nat)
    requires AllPacked(cfg, d, c) && Pass1(cfg, c).errors == c.errors && RefersTo(cfg, c, i, j)
    requires !FormsDiffer(c, RelaxPass(cfg, c)) && Pass1(cfg, RelaxPass(cfg, c)).errors == c.errors
    ensures i < |c.prog| && OperandValue(cfg, c, i).Ok?
    ensures Pass1(cfg, RelaxPass(cfg, c)).prog[i].address == Pass1(cfg, c).prog[i].address
    ensures OperandValue(cfg, RelaxPass(cfg, c), i) == OperandValue(cfg, c, i)
  {
    hide *;
    var x := RelaxPass(cfg, c);
    AllSteady(cfg, d, c);
    RelaxPassKeeps(cfg, d, c);
    RefersSame(cfg, d, c, x, i, j);
    LabelValue(cfg, d, c, i, j);
    LabelValue(cfg, d, x, i, j);
    SegmentKnown(cfg, d, c, x, i);
    SegmentKnown(cfg, d, c, x, j);
    TwinSegs(cfg, d, c, x);
    BasesSame(c.segs, x.segs);
    OffsetsRepeat(cfg, d, c.prog[i].segment, c, i);
    OffsetsRepeat(cfg, d, c.prog[j].segment, c, j);
    ValueAtLabel(cfg, c, i, j);
    ValueAtLabel(cfg, x, i, j);
  }

  lemma BasesSame(s: map<string, Segment>, t: map<string, Segment>)
    requires SegsAlike(s, t)
    ensures forall n :: n in s ==> n in t && t[n].base == s[n].base
  {
  }

  lemma ValueAtLabel(cfg: Config, c: Context, i: nat, j: nat)
    requires i < |c.prog| && j < |c.prog| && c.prog[i].kind.Insn? && c.prog[i].kind.operand.Some?
    requires c.prog[i].kind.operand.value.Ident?
    requires HoldsLabel(cfg, c, i, j) && Pass1(cfg, c).prog[i].scope == c.prog[i].scope
    requires Pass1(cfg, c).prog[i].file == c.prog[i].file
    ensures c.prog[j].segment in c.segs
    ensures OperandValue(cfg, c, i) == Ok(c.segs[c.prog[j].segment].base + Off(cfg, c, c.prog[j].segment, j))
  {
    hide Pass1, FinalSyms, HoldsLabel, Eval, Off;
    LabelEval(cfg, c, i, j);
    PassSyms(cfg, c);
  }

  /** Page contracts of a flat assembly hold in the emitted bytes: if the loop stopped by itself and the check was
      silent, then in the layout pass 2 works on a `.same` or `.cross` branch to a label is short and its target lies
      on the page asked for. */
  lemma FlatPagesHold(cfg: Config, d: set<Key>, c: Context, i: nat, j: nat)
    requires !cfg.objectMode && AllPacked(cfg, d, c) && Pass1(cfg, c).errors == c.errors && !Changed(cfg, c)
    requires Pass1(cfg, RelaxPass(cfg, c)).errors == c.errors && Validated(cfg, RelaxPass(cfg, c)).errors == c.errors
    requires RefersTo(cfg, c, i, j) && i < |c.prog| && c.prog[i].kind.Insn? && HardSpec(c.prog[i].kind.page)
    ensures var x := RelaxPass(cfg, c); var s := Pass1(cfg, x).prog[i];
            ModeIs(x, i, Rel) && OperandValue(cfg, x, i).Ok? &&
            (((s.address + 2) / 256) % 256 != (OperandValue(cfg, x, i).value / 256) % 256 <==> c.prog[i].kind.page == PageCross)
  {
    hide *;
    NotChanged(cfg, c);
    BranchRepeats(cfg, d, c, i, j);
    AllSteady(cfg, d, c);
    RelaxPassKeeps(cfg, d, c);
    RefersBounds(cfg, c, i, j);
    CheckSilent(cfg, c, i);
    RelaxedStmt(cfg, c, i);
    ReadAt(cfg, c, i);
    var x := RelaxPass(cfg, c);
    PageErrorExact(cfg, x.syms, x.prog[i]);
    ModeMeans(x, i);
  }

  lemma NotChanged(cfg: Config, c: Context)
    requires !Changed(cfg, c)
    ensures !FormsDiffer(c, RelaxPass(cfg, c))
  {
    hide RelaxPass, Signature, FormsDiffer;
  }

  lemma ModeMeans(c: Context, i: nat)
    requires i < |c.prog| && c.prog[i].kind.Insn? && c.prog[i].kind.mode == Rel
    ensures ModeIs(c, i, Rel)
  {
  }

  lemma CheckSilent(cfg: Config, c: Context, i: nat)
    requires Validated(cfg, RelaxPass(cfg, c)).errors == c.errors && RelaxPass(cfg, c).errors == c.errors
    requires i < |c.prog|
    ensures |RelaxPass(cfg, c).prog| == |c.prog| && !PageError(cfg, RelaxPass(cfg, c).syms, RelaxPass(cfg, c).prog[i])
  {
    hide RelaxPass, PageError;
    SilentExact(cfg, RelaxPass(cfg, c).syms, RelaxPass(cfg, c).prog, |RelaxPass(cfg, c).prog|);
  }

  /** The relaxer keeps an instruction's annotation, operand and place. */
  lemma RelaxedStmt(cfg: Config, c: Context, i: nat)
    requires i < |c.prog| && Pass1(cfg, c).errors == c.errors && c.prog[i].kind.Insn?
    ensures var s, t := Pass1(cfg, c).prog[i], RelaxPass(cfg, c).prog[i];
            |RelaxPass(cfg, c).prog| == |c.prog| && t.kind.Insn? && t.kind.page == c.prog[i].kind.page &&
            t.kind.operand == c.prog[i].kind.operand && t.address == s.address && t.scope == s.scope && t.file == s.file
  {
    hide Pass1, BranchShrinks, OperandShrinks, ZpForm;
    PassStmt(cfg, c, i);
  }

  /** The check reads the operand where pass 2 does. */
  lemma ReadAt(cfg: Config, c: Context, i: nat)
    requires i < |c.prog| && c.prog[i].kind.Insn? && c.prog[i].kind.operand.Some?
    ensures RelaxPass(cfg, c).syms == Pass1(cfg, c).syms
    ensures var s := Pass1(cfg, c).prog[i];
            OperandValue(cfg, c, i) == Eval(c.prog[i].kind.operand.value, Pass1(cfg, c).syms, s.scope, s.file, s.address + 1)
  {
    hide Pass1, Eval;
  }
}
