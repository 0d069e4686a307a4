/** The zero-page classifier in object mode: what it calls absolute never moves, and what it calls zero-page
    relocatable moves exactly with one symbol promised to lie in page zero (assembler/asm_pass.c). */
module ZpClass {
  import opened Support
  import opened Expressions
  import opened Opcodes
  import opened Program
  import opened Relaxation

  predicate IsBytePart(e: Expr) { e.Unary? && (e.uop == Lo || e.uop == Hi) }

  /** Whatever `<` and `>` are taken of is itself called absolute. */
  predicate PartsFixed(cfg: Config, syms: Symtab, scope: string, file: string, e: Expr) {
    match e
    case Unary(op, c) =>
      (IsBytePart(e) ==> Classify(cfg, syms, scope, file, c) == Absolute) && PartsFixed(cfg, syms, scope, file, c)
    case Binary(_, l, r) => PartsFixed(cfg, syms, scope, file, l) && PartsFixed(cfg, syms, scope, file, r)
    case _ => true
  }

  /** A symbol the assembler was promised to find in page zero: a zero-page import, a symbol of a zero-page
      segment, or one of a segment under a zero-page contract. */
  predicate Promised(cfg: Config, syms: Symtab, scope: string, file: string, x: string) {
    ImportIsZp(cfg, x) ||
    var k := Resolve(syms.Keys, scope, file, x);
    k in syms && syms[k].defined && syms[k].segId != AbsSeg &&
    (syms[k].segId == ZpSeg || (syms[k].segName.Some? && ContractIsZp(cfg.contracts, syms[k].segName.value)))
  }

  /** One possible outcome of linking: absolute symbols keep their values, everything else may lie anywhere. */
  ghost predicate Outcome(cfg: Config, syms: Symtab, t: Symtab) {
    (forall f, n :: InFile(f, n) in t <==> InFile(f, n) in syms) &&
    forall k :: k in syms && syms[k].defined && syms[k].segId == AbsSeg && !ImportIsZp(cfg, k.name) ==>
      k in t && SymbolValue(t, k) == Ok(syms[k].value)
  }

  lemma SameResolution(cfg: Config, syms: Symtab, t: Symtab, scope: string, file: string, x: string)
    requires Outcome(cfg, syms, t)
    ensures Resolve(t.Keys, scope, file, x) == Resolve(syms.Keys, scope, file, x)
  {
  }

  /** The final address of a name. */
  function AddressIn(t: Symtab, scope: string, file: string, x: string): EvalResult {
    SymbolValue(t, Resolve(t.Keys, scope, file, x))
  }

  /** The symbol a zero-page relocatable expression stands on. */
  function Anchor(cfg: Config, syms: Symtab, scope: string, file: string, e: Expr): string {
    match e
    case Ident(x) => x
    case Unary(_, c) => Anchor(cfg, syms, scope, file, c)
    case Binary(_, l, r) =>
      if Classify(cfg, syms, scope, file, l) == ZpReloc then Anchor(cfg, syms, scope, file, l) else Anchor(cfg, syms, scope, file, r)
    case _ => ""
  }

  /** Where `v` and `w` are values, they differ by what the addresses `x` and `y` differ by. */
  predicate MovesAlike(v: EvalResult, w: EvalResult, x: EvalResult, y: EvalResult) {
    v.Ok? && w.Ok? ==> x.Ok? && y.Ok? && v.value - w.value == x.value - y.value
  }

  lemma NameSound(cfg: Config, syms: Symtab, scope: string, file: string, x: string, t: Symtab)
    requires cfg.objectMode && Outcome(cfg, syms, t)
    ensures ClassifyName(cfg, syms, scope, file, x) == Absolute ==>
              AddressIn(t, scope, file, x) == AddressIn(syms, scope, file, x)
    ensures ClassifyName(cfg, syms, scope, file, x) == ZpReloc <==> Promised(cfg, syms, scope, file, x)
  {
    SameResolution(cfg, syms, t, scope, file, x);
    hide ContractIsZp;
    assert Resolve(syms.Keys, scope, file, x).name == x;
  }

  /** Absolute means fixed: every outcome of linking gives the value computed at assembly time. */
  lemma {:induction false} AbsoluteFixed(cfg: Config, syms: Symtab, scope: string, file: string, e: Expr, t: Symtab,
      pc: int, pc': int)
    requires cfg.objectMode && PartsFixed(cfg, syms, scope, file, e) && Outcome(cfg, syms, t)
    requires Classify(cfg, syms, scope, file, e) == Absolute
    ensures Eval(e, t, scope, file, pc') == Eval(e, syms, scope, file, pc)
  {
    hide ClassifyName, Outcome;
    match e
    case Ident(x) => NameSound(cfg, syms, scope, file, x, t);
    case Unary(_, c) => AbsoluteFixed(cfg, syms, scope, file, c, t, pc, pc');
    case Binary(_, l, r) =>
      AbsoluteFixed(cfg, syms, scope, file, l, t, pc, pc');
      AbsoluteFixed(cfg, syms, scope, file, r, t, pc, pc');
    case _ =>
  }

  /** Zero-page relocatable means: a constant away from one promised symbol, in every outcome of linking. */
  lemma {:induction false} MovesWithAnchor(cfg: Config, syms: Symtab, scope: string, file: string, e: Expr, t: Symtab,
      u: Symtab, pc: int, pc': int)
    requires cfg.objectMode && PartsFixed(cfg, syms, scope, file, e) && Outcome(cfg, syms, t) && Outcome(cfg, syms, u)
    requires Classify(cfg, syms, scope, file, e) == ZpReloc
    ensures Promised(cfg, syms, scope, file, Anchor(cfg, syms, scope, file, e))
    ensures var a := Anchor(cfg, syms, scope, file, e);
            var x, y := AddressIn(t, scope, file, a), AddressIn(u, scope, file, a);
            var v, w := Eval(e, t, scope, file, pc), Eval(e, u, scope, file, pc');
            MovesAlike(v, w, x, y)
  {
    hide ClassifyName, Outcome, Promised;
    match e
    case Ident(x) => NameSound(cfg, syms, scope, file, x, t);
    case Unary(_, c) => MovesWithAnchor(cfg, syms, scope, file, c, t, u, pc, pc');
    case Binary(op, l, r) =>
      if Classify(cfg, syms, scope, file, l) == ZpReloc {
        MovesWithAnchor(cfg, syms, scope, file, l, t, u, pc, pc');
        AbsoluteFixed(cfg, syms, scope, file, r, t, pc, pc);
        AbsoluteFixed(cfg, syms, scope, file, r, u, pc, pc);
        AbsoluteFixed(cfg, syms, scope, file, r, u, pc, pc');
      } else {
        MovesWithAnchor(cfg, syms, scope, file, r, t, u, pc, pc');
        AbsoluteFixed(cfg, syms, scope, file, l, t, pc, pc);
        AbsoluteFixed(cfg, syms, scope, file, l, u, pc, pc);
        AbsoluteFixed(cfg, syms, scope, file, l, u, pc, pc');
      }
    case _ =>
  }

  /** A value in page zero, if it is one. */
  predicate InPage(v: EvalResult) { v.Ok? ==> 0 <= v.value <= 0xff }

  lemma BytePartInPage(e: Expr, t: Symtab, scope: string, file: string, pc: int)
    requires IsBytePart(e)
    ensures InPage(Eval(e, t, scope, file, pc))
  {
  }

  /** The relaxer never shortens an operand on the strength of an unpromised relocatable symbol: a shortened operand is
      a fixed number in page zero, a low or high byte, or a constant away from a promised symbol, in every outcome of
      linking. */
  lemma ShorteningJustified(cfg: Config, syms: Symtab, s: Stmt, t: Symtab, u: Symtab, pc: int)
    requires cfg.objectMode && s.kind.Insn? && OperandShrinks(cfg, syms, s)
    requires IsBytePart(s.kind.operand.value) || PartsFixed(cfg, syms, s.scope, s.file, s.kind.operand.value)
    requires Outcome(cfg, syms, t) && Outcome(cfg, syms, u)
    ensures var e := s.kind.operand.value; var v, w := Eval(e, t, s.scope, s.file, pc), Eval(e, u, s.scope, s.file, pc);
            var a := Anchor(cfg, syms, s.scope, s.file, e);
            (v == w && v.Ok? && 0 <= v.value <= 0xff) ||
            (IsBytePart(e) && InPage(v) && InPage(w)) ||
            (Promised(cfg, syms, s.scope, s.file, a) && MovesAlike(v, w, AddressIn(t, s.scope, s.file, a), AddressIn(u, s.scope, s.file, a)))
  {
    hide Eval, Classify, Outcome, Promised, ZpForm, IsZpImport, Anchor, PartsFixed;
    var e := s.kind.operand.value;
    if IsBytePart(e) {
      BytePartInPage(e, t, s.scope, s.file, pc);
      BytePartInPage(e, u, s.scope, s.file, pc);
    } else if Classify(cfg, syms, s.scope, s.file, e) == Absolute {
      AbsoluteFixed(cfg, syms, s.scope, s.file, e, t, s.address, pc);
      AbsoluteFixed(cfg, syms, s.scope, s.file, e, u, s.address, pc);
    } else {
      MovesWithAnchor(cfg, syms, s.scope, s.file, e, t, u, pc, pc);
    }
  }

  /** A code label linked to `v`. */
  function LabelAt(k: Key, v: int): Symtab { map[k := Symbol(v, true, TextSeg, Some("CODE"), false)] }

  /** The restriction is needed: `<x + n` over any code label counts as absolute, yet it stays in page zero wherever the
      label is linked only when `n` is zero. */
  lemma PartPlusConstantExact(cfg: Config, k: Key, scope: string, file: string, x: string, n: int)
    requires cfg.objectMode && k == Resolve({}, scope, file, x) && !ImportIsZp(cfg, x)
    requires (file == "" || k != InFile(file, x))
    ensures Classify(cfg, LabelAt(k, 0), scope, file, Binary(Add, Unary(Lo, Ident(x)), Number(n))) == Absolute
    ensures forall v :: Outcome(cfg, LabelAt(k, 0), LabelAt(k, v))
    ensures (forall v :: InPage(Eval(Binary(Add, Unary(Lo, Ident(x)), Number(n)), LabelAt(k, v), scope, file, 0))) <==> n == 0
  {
    var e := Binary(Add, Unary(Lo, Ident(x)), Number(n));
    forall v
      ensures Eval(e, LabelAt(k, v), scope, file, 0) == Ok(LowByte(v) as int + n)
    {
      assert Resolve(LabelAt(k, v).Keys, scope, file, x) == k;
      assert Eval(Ident(x), LabelAt(k, v), scope, file, 0) == Ok(v);
      assert Eval(Unary(Lo, Ident(x)), LabelAt(k, v), scope, file, 0) == Ok(LowByte(v));
    }
    hide Eval;
    if n > 0 {
      assert LowByte(255) == 255 && !InPage(Eval(e, LabelAt(k, 255), scope, file, 0));
    } else if n < 0 {
      assert LowByte(0) == 0 && !InPage(Eval(e, LabelAt(k, 0), scope, file, 0));
    }
  }
}
