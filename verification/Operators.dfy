/** What each operator of an expression computes, stated without the evaluator's own formulas (assembler/expr.c). */
module Operators {
  import opened Support
  import opened Expressions

  /** Both operands have values. */
  predicate Known(l: Expr, r: Expr, syms: Symtab, scope: string, file: string, pc: int) {
    Eval(l, syms, scope, file, pc).Ok? && Eval(r, syms, scope, file, pc).Ok?
  }

  function Value(e: Expr, syms: Symtab, scope: string, file: string, pc: int): int
    requires Eval(e, syms, scope, file, pc).Ok?
  {
    Eval(e, syms, scope, file, pc).value
  }

  /** `a` added up `n` times. */
  function Repeated(a: int, n: nat): int { if n == 0 then 0 else Repeated(a, n - 1) + a }

  lemma {:induction false} RepeatedIsProduct(a: int, n: nat)
    ensures Repeated(a, n) == a * n && Repeated(-a, n) == -(a * n)
  {
    if n > 0 { RepeatedIsProduct(a, n - 1); }
  }

  /** `n` doublings of `a`. */
  function Doubled(a: int, n: nat): int { if n == 0 then a else 2 * Doubled(a, n - 1) }

  lemma {:induction false} DoubledIsProduct(a: int, n: nat)
    ensures Doubled(a, n) == a * Pow2(n)
  {
    if n > 0 {
      DoubledIsProduct(a, n - 1);
      Regroup(a, Pow2(n - 1));
    }
  }

  lemma Regroup(a: int, p: int)
    ensures 2 * (a * p) == a * (2 * p)
  {
  }

  /** Numbers, characters, `*` and names are what they say. */
  lemma LeavesExact(n: int, x: string, syms: Symtab, scope: string, file: string, pc: int)
    ensures Eval(Number(n), syms, scope, file, pc) == Ok(n) && Eval(CharConst(n), syms, scope, file, pc) == Ok(n)
    ensures Eval(Pc, syms, scope, file, pc) == Ok(pc)
    ensures var k := Resolve(syms.Keys, scope, file, x); var v := Eval(Ident(x), syms, scope, file, pc);
            (v.Ok? <==> k in syms && syms[k].defined) && (v.Ok? ==> v.value == syms[k].value)
  {
  }

  /** Sum, difference and product; a product is its left operand added up as often as its right one says. */
  lemma ArithmeticExact(l: Expr, r: Expr, syms: Symtab, scope: string, file: string, pc: int)
    requires Known(l, r, syms, scope, file, pc)
    ensures var a, b := Value(l, syms, scope, file, pc), Value(r, syms, scope, file, pc);
            Eval(Binary(Add, l, r), syms, scope, file, pc) == Ok(a + b) &&
            Eval(Binary(Sub, l, r), syms, scope, file, pc) == Ok(a - b) &&
            Eval(Binary(Mul, l, r), syms, scope, file, pc) == Ok(if b >= 0 then Repeated(a, b) else Repeated(-a, -b))
  {
    hide Repeated;
    SignedProduct(Value(l, syms, scope, file, pc), Value(r, syms, scope, file, pc));
  }

  lemma SignedProduct(a: int, b: int)
    ensures (if b >= 0 then Repeated(a, b) else Repeated(-a, -b)) == a * b
  {
    hide Repeated;
    if b >= 0 {
      RepeatedIsProduct(a, b);
    } else {
      RepeatedIsProduct(a, -b);
      assert a * b == -(a * -b);
    }
  }

  /** Quotient and remainder make up the dividend, the remainder is smaller than the divisor and has the dividend's
      sign; only division by zero fails. */
  lemma DivisionExact(l: Expr, r: Expr, syms: Symtab, scope: string, file: string, pc: int)
    requires Known(l, r, syms, scope, file, pc)
    ensures var a, b := Value(l, syms, scope, file, pc), Value(r, syms, scope, file, pc);
            var q, m := Eval(Binary(Div, l, r), syms, scope, file, pc), Eval(Binary(Mod, l, r), syms, scope, file, pc);
            if b == 0 then q == DivideByZero && m == DivideByZero
            else q.Ok? && m.Ok? && a == b * q.value + m.value && Abs(m.value) < Abs(b) &&
                 (m.value != 0 ==> (m.value < 0 <==> a < 0))
  {
    var a, b := Value(l, syms, scope, file, pc), Value(r, syms, scope, file, pc);
    if b != 0 { TruncationExact(a, b); }
    hide TruncDiv, TruncMod;
  }

  /** `<<` doubles, `>>` rounds down, and both refuse a count outside a `long`. */
  lemma ShiftsExact(l: Expr, r: Expr, syms: Symtab, scope: string, file: string, pc: int)
    requires Known(l, r, syms, scope, file, pc)
    ensures var a, b := Value(l, syms, scope, file, pc), Value(r, syms, scope, file, pc);
            var up := Eval(Binary(Shl, l, r), syms, scope, file, pc);
            var down := Eval(Binary(Shr, l, r), syms, scope, file, pc);
            if 0 <= b < 64 then
              up == Ok(Doubled(a, b)) && down.Ok? && Doubled(down.value, b) <= a < Doubled(down.value + 1, b)
            else up == BadShift && down == BadShift
  {
    var a, b := Value(l, syms, scope, file, pc), Value(r, syms, scope, file, pc);
    if 0 <= b < 64 {
      DoubledIsProduct(a, b);
      DoubledIsProduct(a / Pow2(b), b);
      DoubledIsProduct(a / Pow2(b) + 1, b);
      FloorBounds(a, Pow2(b));
    }
    hide Pow2, Doubled;
  }

  lemma FloorBounds(a: int, p: int)
    requires p >= 1
    ensures (a / p) * p <= a < (a / p + 1) * p
  {
  }

  /** Exactly one of `<`, `==` and `>` is 1, as the sign of the difference says; the others are their complements. */
  lemma ComparisonsExact(l: Expr, r: Expr, syms: Symtab, scope: string, file: string, pc: int)
    requires Known(l, r, syms, scope, file, pc)
    ensures var d := Value(l, syms, scope, file, pc) - Value(r, syms, scope, file, pc);
            Eval(Binary(Lt, l, r), syms, scope, file, pc) == Ok(if d < 0 then 1 else 0) &&
            Eval(Binary(Ge, l, r), syms, scope, file, pc) == Ok(if d < 0 then 0 else 1) &&
            Eval(Binary(Gt, l, r), syms, scope, file, pc) == Ok(if d > 0 then 1 else 0) &&
            Eval(Binary(Le, l, r), syms, scope, file, pc) == Ok(if d > 0 then 0 else 1) &&
            Eval(Binary(Eq, l, r), syms, scope, file, pc) == Ok(if d == 0 then 1 else 0) &&
            Eval(Binary(Ne, l, r), syms, scope, file, pc) == Ok(if d == 0 then 0 else 1)
  {
  }

  /** `&`, `|`, `^` and `~` work bit by bit, and a number is determined by its bits. */
  lemma BitsExact(l: Expr, r: Expr, syms: Symtab, scope: string, file: string, pc: int, k: nat)
    requires Known(l, r, syms, scope, file, pc)
    ensures var a, b := Value(l, syms, scope, file, pc), Value(r, syms, scope, file, pc);
            var both := Eval(Binary(BitAnd, l, r), syms, scope, file, pc);
            var any := Eval(Binary(BitOr, l, r), syms, scope, file, pc);
            var odd := Eval(Binary(BitXor, l, r), syms, scope, file, pc);
            var none := Eval(Unary(BitNot, l), syms, scope, file, pc);
            both.Ok? && any.Ok? && odd.Ok? && none.Ok? &&
            (Bit(both.value, k) <==> Bit(a, k) && Bit(b, k)) && (Bit(any.value, k) <==> Bit(a, k) || Bit(b, k)) &&
            (Bit(odd.value, k) <==> Bit(a, k) != Bit(b, k)) && (Bit(none.value, k) <==> !Bit(a, k))
  {
    hide Bitwise, Bit;
    var a, b := Value(l, syms, scope, file, pc), Value(r, syms, scope, file, pc);
    BitwiseBits(AndOp, a, b, k);
    BitwiseBits(OrOp, a, b, k);
    BitwiseBits(XorOp, a, b, k);
    Complement(a, k);
  }

  lemma {:induction false} Complement(a: int, k: nat)
    ensures Bit(-a - 1, k) <==> !Bit(a, k)
    decreases k
  {
    hide Bit;
    if k == 0 {
      LastBit(a);
      LastBit(-a - 1);
    } else {
      assert (-a - 1) / 2 == -(a / 2) - 1;
      Complement(a / 2, k - 1);
      BitHalf(a, k);
      BitHalf(-a - 1, k);
    }
  }

  /** `&&` and `||` ask whether their operands are nonzero and leave the right one alone when the left one decides. */
  lemma LogicExact(l: Expr, r: Expr, syms: Symtab, scope: string, file: string, pc: int)
    requires Eval(l, syms, scope, file, pc).Ok?
    ensures var a, right := Value(l, syms, scope, file, pc), Eval(r, syms, scope, file, pc);
            var both := Eval(Binary(LogAnd, l, r), syms, scope, file, pc);
            var any := Eval(Binary(LogOr, l, r), syms, scope, file, pc);
            (if a == 0 then both == Ok(0) && any == (if right.Ok? then Ok(if right.value == 0 then 0 else 1) else right)
             else any == Ok(1) && both == (if right.Ok? then Ok(if right.value == 0 then 0 else 1) else right))
  {
  }

  /** An operand without a value leaves the expression without one, for the same reason; the left one is asked first. */
  lemma FaultsPass(uop: UnaryOp, bop: BinaryOp, l: Expr, r: Expr, syms: Symtab, scope: string, file: string, pc: int)
    ensures !Eval(l, syms, scope, file, pc).Ok? ==>
              Eval(Unary(uop, l), syms, scope, file, pc) == Eval(l, syms, scope, file, pc) &&
              Eval(Binary(bop, l, r), syms, scope, file, pc) == Eval(l, syms, scope, file, pc)
    ensures Eval(l, syms, scope, file, pc).Ok? && !Eval(r, syms, scope, file, pc).Ok? &&
            bop != LogAnd && bop != LogOr ==>
              Eval(Binary(bop, l, r), syms, scope, file, pc) == Eval(r, syms, scope, file, pc)
  {
  }

  /** Signs, `!`, and the three parts of a number, which make up its low 24 bits. */
  lemma UnaryExact(l: Expr, syms: Symtab, scope: string, file: string, pc: int)
    requires Eval(l, syms, scope, file, pc).Ok?
    ensures var a := Value(l, syms, scope, file, pc);
            Eval(Unary(Pos, l), syms, scope, file, pc) == Ok(a) &&
            Eval(Unary(Neg, l), syms, scope, file, pc) == Ok(0 - a) &&
            Eval(Unary(LogNot, l), syms, scope, file, pc) == Ok(if a == 0 then 1 else 0)
    ensures var a := Value(l, syms, scope, file, pc);
            var lo, hi := Eval(Unary(Lo, l), syms, scope, file, pc), Eval(Unary(Hi, l), syms, scope, file, pc);
            var bank := Eval(Unary(Bank, l), syms, scope, file, pc);
            lo.Ok? && hi.Ok? && bank.Ok? && 0 <= lo.value < 256 && 0 <= hi.value < 256 && 0 <= bank.value < 256 &&
            (a - (lo.value + 0x100 * hi.value + 0x10000 * bank.value)) % 0x1000000 == 0
  {
    var a := Value(l, syms, scope, file, pc);
    Parts(a);
  }

  lemma Parts(a: int)
    ensures (a - ((a % 256) + 0x100 * ((a / 256) % 256) + 0x10000 * ((a / 0x10000) % 256))) % 0x1000000 == 0
  {
    var q := a / 0x1000000;
    assert a / 0x10000 == (a / 256) / 256;
    assert a == 256 * (a / 256) + a % 256 && a / 256 == 256 * (a / 0x10000) + (a / 256) % 256;
    assert a / 0x10000 == 256 * ((a / 0x10000) / 256) + (a / 0x10000) % 256;
  }
}
