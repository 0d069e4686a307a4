/** The zero-page classifier as a rule: which operands it calls absolute, which it calls zero-page relocatable, and
    that it calls nothing else so (assembler/asm_pass.c, classify_zp_relax_expr and expr_reloc_ident). */
module ZpRule {
  import opened Support
  import opened Expressions
  import opened Opcodes
  import opened Program
  import opened Relaxation
  import opened ZpClass

  /** A name whose address is known and, in an object file, will not move. */
  predicate FixedName(cfg: Config, syms: Symtab, scope: string, file: string, x: string) {
    var k := Resolve(syms.Keys, scope, file, x);
    !ImportIsZp(cfg, x) && k in syms && syms[k].defined && (cfg.objectMode ==> syms[k].segId == AbsSeg)
  }

  /** A name promised to page zero: an import declared so anywhere; in an object file also a symbol of a zero-page
      segment or of one under a contract. */
  predicate PromisedName(cfg: Config, syms: Symtab, scope: string, file: string, x: string) {
    ImportIsZp(cfg, x) || (cfg.objectMode && Promised(cfg, syms, scope, file, x))
  }

  /** Built of numbers, fixed names and low or high bytes of anything; the program counter is fixed in a flat
      assembly. */
  predicate FixedExpr(cfg: Config, syms: Symtab, scope: string, file: string, e: Expr) {
    match e
    case Ident(x) => FixedName(cfg, syms, scope, file, x)
    case Pc => !cfg.objectMode
    case Unary(op, c) => op == Lo || op == Hi || FixedExpr(cfg, syms, scope, file, c)
    case Binary(_, l, r) => FixedExpr(cfg, syms, scope, file, l) && FixedExpr(cfg, syms, scope, file, r)
    case _ => true
  }

  /** One promised name to which fixed expressions are added or from which they are subtracted. */
  predicate AnchoredExpr(cfg: Config, syms: Symtab, scope: string, file: string, e: Expr) {
    match e
    case Ident(x) => PromisedName(cfg, syms, scope, file, x)
    case Unary(op, c) => op == Pos && AnchoredExpr(cfg, syms, scope, file, c)
    case Binary(op, l, r) =>
      ((op == Add || op == Sub) && AnchoredExpr(cfg, syms, scope, file, l) && FixedExpr(cfg, syms, scope, file, r)) ||
      (op == Add && FixedExpr(cfg, syms, scope, file, l) && AnchoredExpr(cfg, syms, scope, file, r))
    case _ => false
  }

  /** The classifier follows the rule in both directions, in flat and object mode. */
  lemma {:induction false} ClassifierExact(cfg: Config, syms: Symtab, scope: string, file: string, e: Expr)
    ensures Classify(cfg, syms, scope, file, e) == Absolute <==> FixedExpr(cfg, syms, scope, file, e)
    ensures Classify(cfg, syms, scope, file, e) == ZpReloc <==> AnchoredExpr(cfg, syms, scope, file, e)
  {
    hide ClassifyName, FixedName, PromisedName;
    match e
    case Ident(x) => NameClass(cfg, syms, scope, file, x);
    case Unary(_, c) => ClassifierExact(cfg, syms, scope, file, c);
    case Binary(_, l, r) =>
      ClassifierExact(cfg, syms, scope, file, l);
      ClassifierExact(cfg, syms, scope, file, r);
    case _ =>
  }

  lemma NameClass(cfg: Config, syms: Symtab, scope: string, file: string, x: string)
    ensures ClassifyName(cfg, syms, scope, file, x) == Absolute <==> FixedName(cfg, syms, scope, file, x)
    ensures ClassifyName(cfg, syms, scope, file, x) == ZpReloc <==> PromisedName(cfg, syms, scope, file, x)
  {
    hide ContractIsZp, Resolve;
  }

  /** An operand is shortened exactly when it follows the rule and is a number in page zero, or has no value yet and
      stands on one zero-page import. */
  lemma ShorteningExact(cfg: Config, syms: Symtab, s: Stmt)
    requires s.kind.Insn? && ZpForm(cfg, s).Some? && s.kind.operand.Some?
    ensures var e := s.kind.operand.value; var v := Eval(e, syms, s.scope, s.file, s.address);
            OperandShrinks(cfg, syms, s) <==>
              if v.Ok? then
                (FixedExpr(cfg, syms, s.scope, s.file, e) || AnchoredExpr(cfg, syms, s.scope, s.file, e)) &&
                0 <= v.value < 256
              else AnchoredExpr(cfg, syms, s.scope, s.file, e) && exists x :: StandsOn(e, x) && ImportIsZp(cfg, x)
  {
    hide Eval, ZpForm, Classify, FixedExpr, AnchoredExpr, StandsOn, RelocIdent;
    var e := s.kind.operand.value;
    ClassifierExact(cfg, syms, s.scope, s.file, e);
    IdentExact(e);
  }

  /** The names an expression mentions. */
  function NamesOf(e: Expr): seq<string> {
    match e
    case Ident(x) => [x]
    case Unary(_, c) => NamesOf(c)
    case Binary(_, l, r) => NamesOf(l) + NamesOf(r)
    case _ => []
  }

  /** A sum or difference that mentions one name, added once. */
  predicate StandsOn(e: Expr, x: string) { NamesOf(e) == [x] && AddsName(e) }

  /** The name of an expression that mentions one is added, not subtracted or used otherwise. */
  predicate AddsName(e: Expr) {
    match e
    case Ident(_) => true
    case Unary(op, c) => op == Pos && AddsName(c)
    case Binary(op, l, r) =>
      if NamesOf(r) == [] then (op == Add || op == Sub) && AddsName(l) else op == Add && NamesOf(l) == [] && AddsName(r)
    case _ => false
  }

  lemma {:induction false} IdentExact(e: Expr)
    ensures ContainsIdent(e) <==> NamesOf(e) != []
    ensures forall x :: RelocIdent(e) == Some(x) <==> StandsOn(e, x)
    ensures RelocIdent(e).Some? ==> NamesOf(e) == [RelocIdent(e).value] && AddsName(e)
    ensures AddsName(e) ==> |NamesOf(e)| == 1 && RelocIdent(e).Some?
  {
    match e
    case Unary(_, c) => IdentExact(c);
    case Binary(_, l, r) =>
      IdentExact(l);
      IdentExact(r);
      assert NamesOf(e) == NamesOf(l) + NamesOf(r);
    case _ =>
  }

  /** Where the expression and its name have values they differ by the same amount in every table. */
  lemma {:induction false} StandsBy(e: Expr, x: string, s: Symtab, t: Symtab, scope: string, file: string, pc: int)
    requires StandsOn(e, x)
    ensures MovesAlike(Eval(e, s, scope, file, pc), Eval(e, t, scope, file, pc), Eval(Ident(x), s, scope, file, pc),
                       Eval(Ident(x), t, scope, file, pc))
  {
    match e
    case Ident(_) =>
    case Unary(_, c) => StandsBy(c, x, s, t, scope, file, pc);
    case Binary(op, l, r) =>
      assert NamesOf(e) == NamesOf(l) + NamesOf(r);
      if NamesOf(r) == [] {
        NoNameSame(r, s, t, scope, file, pc);
        StandsBy(l, x, s, t, scope, file, pc);
      } else {
        NoNameSame(l, s, t, scope, file, pc);
        assert NamesOf(r) == [x];
        StandsBy(r, x, s, t, scope, file, pc);
      }
  }

  lemma {:induction false} NoNameSame(e: Expr, s: Symtab, t: Symtab, scope: string, file: string, pc: int)
    requires NamesOf(e) == []
    ensures Eval(e, s, scope, file, pc) == Eval(e, t, scope, file, pc)
  {
    match e
    case Unary(_, c) => NoNameSame(c, s, t, scope, file, pc);
    case Binary(_, l, r) =>
      NoNameSame(l, s, t, scope, file, pc);
      NoNameSame(r, s, t, scope, file, pc);
    case _ =>
  }
}
