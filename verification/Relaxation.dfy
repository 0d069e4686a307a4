/** Relaxation: layout passes alternate with shrinking instructions until nothing moves
    (assembler/asm_pass.c). */
module Relaxation {
  import opened Support
  import opened Expressions
  import opened Opcodes
  import opened Program
  import opened Layout

  // ---- which operands may become zero page

  predicate ContainsIdent(e: Expr) {
    match e
    case Ident(_) => true
    case Unary(_, c) => ContainsIdent(c)
    case Binary(_, l, r) => ContainsIdent(l) || ContainsIdent(r)
    case _ => false
  }

  /** expr_reloc_ident: the symbol of a symbol-plus/minus-constant expression. */
  function RelocIdent(e: Expr): Option<string> {
    match e
    case Ident(x) => Some(x)
    case Unary(Pos, c) => RelocIdent(c)
    case Binary(Add, l, r) =>
      if RelocIdent(l).Some? && !ContainsIdent(r) then RelocIdent(l)
      else if RelocIdent(r).Some? && !ContainsIdent(l) then RelocIdent(r)
      else None
    case Binary(Sub, l, r) => if RelocIdent(l).Some? && !ContainsIdent(r) then RelocIdent(l) else None
    case _ => None
  }

  predicate IsZpImport(cfg: Config, e: Expr) {
    RelocIdent(e).Some? && ImportIsZp(cfg, RelocIdent(e).value)
  }

  datatype ZpKind = Unsafe | Absolute | ZpReloc

  /** What the classifier says of a single name. */
  function ClassifyName(cfg: Config, syms: Symtab, scope: string, file: string, x: string): ZpKind {
    if ImportIsZp(cfg, x) then ZpReloc
    else
      var k := Resolve(syms.Keys, scope, file, x);
      if k !in syms || !syms[k].defined then Unsafe
      else if !cfg.objectMode || syms[k].segId == AbsSeg then Absolute
      else if syms[k].segId == ZpSeg || (syms[k].segName.Some? && ContractIsZp(cfg.contracts, syms[k].segName.value)) then ZpReloc
      else Unsafe
  }

  /** classify_zp_relax_expr. */
  function Classify(cfg: Config, syms: Symtab, scope: string, file: string, e: Expr): ZpKind {
    match e
    case Number(_) => Absolute
    case CharConst(_) => Absolute
    case Pc => if cfg.objectMode then Unsafe else Absolute
    case Ident(x) => ClassifyName(cfg, syms, scope, file, x)
    case Unary(op, c) =>
      if op == Lo || op == Hi then Absolute
      else
        var k := Classify(cfg, syms, scope, file, c);
        if op == Pos then k else if k == Absolute then Absolute else Unsafe
    case Binary(op, l, r) =>
      var a := Classify(cfg, syms, scope, file, l);
      var b := Classify(cfg, syms, scope, file, r);
      if a == Absolute && b == Absolute then Absolute
      else if op == Add && ((a == ZpReloc && b == Absolute) || (b == ZpReloc && a == Absolute)) then ZpReloc
      else if op == Sub && a == ZpReloc && b == Absolute then ZpReloc
      else Unsafe
  }

  /** can_relax_to_zp_family. */
  function ZpForm(cfg: Config, s: Stmt): Option<EmitMode>
    requires s.kind.Insn?
  {
    if s.kind.suffixed then None
    else
      match s.kind.mode
      case Abs => if Lookup(cfg.table, s.kind.opcode, Zp).Some? then Some(Zp) else None
      case AbsX => if Lookup(cfg.table, s.kind.opcode, ZpX).Some? then Some(ZpX) else None
      case AbsY => if Lookup(cfg.table, s.kind.opcode, ZpY).Some? then Some(ZpY) else None
      case _ => None
  }

  /** insn_can_relax_long_branch; the test looks at the short form's displacement. */
  predicate BranchShrinks(syms: Symtab, s: Stmt)
    requires s.kind.Insn?
  {
    s.kind.mode == RelLong && s.kind.operand.Some? &&
    var v := Eval(s.kind.operand.value, syms, s.scope, s.file, s.address + 1);
    v.Ok? && BranchFits(s.address + 2, v.value)
  }

  predicate OperandShrinks(cfg: Config, syms: Symtab, s: Stmt)
    requires s.kind.Insn?
  {
    ZpForm(cfg, s).Some? && s.kind.operand.Some? &&
    var e := s.kind.operand.value;
    var kind := Classify(cfg, syms, s.scope, s.file, e);
    var v := Eval(e, syms, s.scope, s.file, s.address);
    kind != Unsafe && (if v.Ok? then 0 <= v.value <= 0xff else kind == ZpReloc && IsZpImport(cfg, e))
  }

  function WithMode(s: Stmt, m: EmitMode): Stmt
    requires s.kind.Insn?
  {
    s.(kind := s.kind.(mode := m, size := ModeSize(m)))
  }

  /** The relaxer's treatment of one statement after a layout pass. */
  function Relax(cfg: Config, syms: Symtab, s: Stmt): Stmt {
    if !s.kind.Insn? then s
    else if BranchShrinks(syms, s) then WithMode(s, Rel)
    else if OperandShrinks(cfg, syms, s) then WithMode(s, ZpForm(cfg, s).value)
    else s
  }

  /** One iteration of asm_relax without its stopping test. */
  function RelaxPass(cfg: Config, c: Context): (r: Context)
    ensures |r.prog| == |c.prog|
  {
    var p := Pass1(cfg, c);
    p.(prog := seq(|p.prog|, i requires 0 <= i < |p.prog| => Relax(cfg, p.syms, p.prog[i])))
  }

  /** The exclusive or over the first `n` segments by which asm_relax notices size changes. */
  function Signature(cfg: Config, n: nat, segs: map<string, Segment>): int
    requires n <= |cfg.order|
  {
    if n == 0 then 0
    else
      var x := Signature(cfg, n - 1, segs);
      if cfg.order[n - 1] !in segs then x
      else
        var g := segs[cfg.order[n - 1]];
        Bitwise(XorOp, Bitwise(XorOp, Bitwise(XorOp, x, g.base), 2 * g.capacity), 4 * g.usedSize)
  }

  function ModeAt(c: Context, i: nat): Option<EmitMode>
    requires i < |c.prog|
  {
    if c.prog[i].kind.Insn? then Some(c.prog[i].kind.mode) else None
  }

  /** Some instruction changed its form between the two contexts. */
  predicate FormsDiffer(c: Context, c': Context) {
    |c.prog| == |c'.prog| && exists i :: 0 <= i < |c.prog| && ModeAt(c, i) != ModeAt(c', i)
  }

  /** The test by which asm_relax decides to go on. */
  predicate Changed(cfg: Config, c: Context) {
    Signature(cfg, |cfg.order|, c.segs) != Signature(cfg, |cfg.order|, RelaxPass(cfg, c).segs) ||
    FormsDiffer(c, RelaxPass(cfg, c))
  }

  /** The context after `k` iterations. */
  function Iterate(cfg: Config, c: Context, k: nat): Context {
    if k == 0 then c else RelaxPass(cfg, Iterate(cfg, c, k - 1))
  }

  const RELAX_LIMIT: nat := 50

  /** asm_relax with `fuel` iterations left, and whether it stopped because nothing changed. */
  function RelaxLoop(cfg: Config, c: Context, fuel: nat): (Context, bool)
    decreases fuel
  {
    if fuel == 0 then (c, false)
    else if Changed(cfg, c) then RelaxLoop(cfg, RelaxPass(cfg, c), fuel - 1)
    else (RelaxPass(cfg, c), true)
  }
}
