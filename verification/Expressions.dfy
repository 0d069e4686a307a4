/** Assembler expressions, the symbol table they read, and their evaluation (assembler/expr.c, symtab.c). */
module Expressions {
  import opened Support

  datatype UnaryOp = Pos | Neg | LogNot | BitNot | Lo | Hi | Bank

  datatype BinaryOp =
    | Add | Sub | Mul | Div | Mod | Shl | Shr
    | Lt | Le | Gt | Ge | Eq | Ne
    | BitAnd | BitXor | BitOr | LogAnd | LogOr

  datatype Expr =
    | Number(n: int)
    | Ident(name: string)
    | CharConst(c: int)
    | Pc
    | Unary(uop: UnaryOp, child: Expr)
    | Binary(bop: BinaryOp, left: Expr, right: Expr)

  /** The three spellings under which the symbol table stores a name: exported or command-line
      names, names private to a file, and `@`-names private to a label scope. */
  datatype Key = Global(name: string) | InFile(file: string, name: string) | InScope(scope: string, name: string)

  /** Output segments of the object format; `UndefSeg` marks an import. */
  datatype SegId = UndefSeg | AbsSeg | TextSeg | DataSeg | BssSeg | ZpSeg

  datatype Symbol = Symbol(value: int, defined: bool, segId: SegId, segName: Option<string>, mutable: bool)

  type Symtab = map<Key, Symbol>

  datatype EvalResult = Ok(value: int) | Unresolved | DivideByZero | BadShift

  predicate IsLocal(name: string) { |name| > 0 && name[0] == '@' }

  /** find_scoped_ident: which entry an identifier denotes depends only on which entries exist. */
  function Resolve(keys: set<Key>, scope: string, file: string, name: string): (k: Key)
    ensures k == InScope(scope, name) || k == InFile(file, name) || k == Global(name)
  {
    if IsLocal(name) then InScope(scope, name)
    else if file != "" && InFile(file, name) in keys then InFile(file, name)
    else Global(name)
  }

  /** New entries change what an identifier denotes exactly when one of them is a private entry of its own name. */
  lemma ReadingMoves(known: set<Key>, keys: set<Key>, scope: string, file: string, name: string)
    requires known <= keys
    ensures Resolve(keys, scope, file, name) != Resolve(known, scope, file, name) <==>
              !IsLocal(name) && file != "" && InFile(file, name) in keys - known
    ensures IsLocal(name) ==> Resolve(keys, scope, file, name) == InScope(scope, name)
    ensures Resolve(keys, scope, file, name) == Global(name) ==>
              !IsLocal(name) && (file != "" ==> InFile(file, name) !in keys)
  {
  }

  /** C division truncates toward zero. */
  function TruncDiv(a: int, b: int): int
    requires b != 0
  {
    var q := Abs(a) / Abs(b);
    if (a < 0) == (b < 0) then q else -q
  }

  function TruncMod(a: int, b: int): int
    requires b != 0
  {
    a - b * TruncDiv(a, b)
  }

  function Abs(x: int): nat { if x < 0 then -x else x }

  /** C's quotient and remainder: they make up the dividend, and the remainder is smaller than the divisor and has the
      dividend's sign. */
  lemma TruncationExact(a: int, b: int)
    requires b != 0
    ensures a == b * TruncDiv(a, b) + TruncMod(a, b) && Abs(TruncMod(a, b)) < Abs(b)
    ensures TruncMod(a, b) != 0 ==> (TruncMod(a, b) < 0 <==> a < 0)
  {
    var x: int, y: int := Abs(a), Abs(b);
    var q, r := x / y, x % y;
    assert x == y * q + r && 0 <= r < y;
    SignedProducts(b, q);
  }

  lemma SignedProducts(b: int, q: int)
    ensures b >= 0 ==> b * q == Abs(b) * q && b * (-q) == -(Abs(b) * q)
    ensures b < 0 ==> b * q == -(Abs(b) * q) && b * (-q) == Abs(b) * q
  {
  }

  function Truth(b: bool): int { if b then 1 else 0 }

  const LONG_BITS := 64

  function UnaryValue(op: UnaryOp, v: int): int {
    match op
    case Pos => v
    case Neg => -v
    case LogNot => Truth(v == 0)
    case BitNot => -v - 1
    case Lo => LowByte(v)
    case Hi => HighByte(v)
    case Bank => (v / 0x10000) % 256
  }

  /** Operators that evaluate both operands. */
  function BinaryValue(op: BinaryOp, l: int, r: int): EvalResult {
    match op
    case Add => Ok(l + r)
    case Sub => Ok(l - r)
    case Mul => Ok(l * r)
    case Div => if r == 0 then DivideByZero else Ok(TruncDiv(l, r))
    case Mod => if r == 0 then DivideByZero else Ok(TruncMod(l, r))
    case Shl => if 0 <= r < LONG_BITS then Ok(l * Pow2(r)) else BadShift
    case Shr => if 0 <= r < LONG_BITS then Ok(l / Pow2(r)) else BadShift
    case Lt => Ok(Truth(l < r))
    case Le => Ok(Truth(l <= r))
    case Gt => Ok(Truth(l > r))
    case Ge => Ok(Truth(l >= r))
    case Eq => Ok(Truth(l == r))
    case Ne => Ok(Truth(l != r))
    case BitAnd => Ok(Bitwise(AndOp, l, r))
    case BitXor => Ok(Bitwise(XorOp, l, r))
    case BitOr => Ok(Bitwise(OrOp, l, r))
    case LogAnd => Ok(Truth(l != 0 && r != 0))
    case LogOr => Ok(Truth(l != 0 || r != 0))
  }

  function SymbolValue(syms: Symtab, k: Key): EvalResult {
    if k in syms && syms[k].defined then Ok(syms[k].value) else Unresolved
  }

  /** expr_eval; `&&` and `||` leave their right operand alone when the left one decides. */
  function Eval(e: Expr, syms: Symtab, scope: string, file: string, pc: int): EvalResult {
    match e
    case Number(n) => Ok(n)
    case CharConst(c) => Ok(c)
    case Pc => Ok(pc)
    case Ident(x) => SymbolValue(syms, Resolve(syms.Keys, scope, file, x))
    case Unary(op, c) =>
      var v := Eval(c, syms, scope, file, pc);
      if v.Ok? then Ok(UnaryValue(op, v.value)) else v
    case Binary(op, l, r) =>
      var lv := Eval(l, syms, scope, file, pc);
      if !lv.Ok? then lv
      else if op == LogAnd && lv.value == 0 then Ok(0)
      else if op == LogOr && lv.value != 0 then Ok(1)
      else
        var rv := Eval(r, syms, scope, file, pc);
        if !rv.Ok? then rv else BinaryValue(op, lv.value, rv.value)
  }

  /** `e` reads no program counter and only names whose every possible entry lies in `d`. */
  predicate Over(d: set<Key>, scope: string, file: string, e: Expr) {
    match e
    case Number(_) => true
    case CharConst(_) => true
    case Pc => false
    case Ident(x) => NameOver(d, scope, file, x)
    case Unary(_, c) => Over(d, scope, file, c)
    case Binary(_, l, r) => Over(d, scope, file, l) && Over(d, scope, file, r)
  }

  predicate NameOver(d: set<Key>, scope: string, file: string, x: string) {
    if IsLocal(x) then InScope(scope, x) in d else InFile(file, x) in d && Global(x) in d
  }

  /** Two tables with the same entries that agree on the entries in `d`. */
  predicate Agree(d: set<Key>, s: Symtab, t: Symtab) {
    s.Keys == t.Keys && forall k :: k in d && k in s ==> s[k] == t[k]
  }

  /** Evaluation looks at nothing but the names it mentions. */
  lemma {:induction false} EvalAgrees(d: set<Key>, e: Expr, s: Symtab, t: Symtab, scope: string, file: string,
      pc: int, pc': int)
    requires Over(d, scope, file, e) && Agree(d, s, t)
    ensures Eval(e, s, scope, file, pc) == Eval(e, t, scope, file, pc')
  {
    match e
    case Number(_) =>
    case CharConst(_) =>
    case Ident(x) =>
    case Unary(_, c) => EvalAgrees(d, c, s, t, scope, file, pc, pc');
    case Binary(_, l, r) =>
      EvalAgrees(d, l, s, t, scope, file, pc, pc');
      EvalAgrees(d, r, s, t, scope, file, pc, pc');
  }

  /** Every name of `e` that denotes an entry of `known` denotes the same entry of `keys`. */
  predicate SameReading(known: set<Key>, keys: set<Key>, scope: string, file: string, e: Expr) {
    match e
    case Number(_) => true
    case CharConst(_) => true
    case Pc => true
    case Ident(x) => var k := Resolve(known, scope, file, x); k in known ==> Resolve(keys, scope, file, x) == k
    case Unary(_, c) => SameReading(known, keys, scope, file, c)
    case Binary(_, l, r) => SameReading(known, keys, scope, file, l) && SameReading(known, keys, scope, file, r)
  }

  /** No identifier of `e` denotes a file-private entry of `keys` and a global one at once. */
  predicate Unshadowed(keys: set<Key>, file: string, e: Expr) {
    match e
    case Number(_) => true
    case CharConst(_) => true
    case Pc => true
    case Ident(x) => !(InFile(file, x) in keys && Global(x) in keys)
    case Unary(_, c) => Unshadowed(keys, file, c)
    case Binary(_, l, r) => Unshadowed(keys, file, l) && Unshadowed(keys, file, r)
  }

  /** That is enough for entries added later not to change a reading. */
  lemma {:induction false} UnshadowedReads(known: set<Key>, keys: set<Key>, scope: string, file: string, e: Expr)
    requires known <= keys && Unshadowed(keys, file, e)
    ensures SameReading(known, keys, scope, file, e)
  {
    match e
    case Number(_) =>
    case CharConst(_) =>
    case Pc =>
    case Ident(x) =>
    case Unary(_, c) => UnshadowedReads(known, keys, scope, file, c);
    case Binary(_, l, r) =>
      UnshadowedReads(known, keys, scope, file, l);
      UnshadowedReads(known, keys, scope, file, r);
  }

  /** The names an expression mentions, as entries of the table. */
  function Mentions(keys: set<Key>, scope: string, file: string, e: Expr): set<Key> {
    match e
    case Number(_) => {}
    case CharConst(_) => {}
    case Pc => {}
    case Ident(x) => {Resolve(keys, scope, file, x)}
    case Unary(_, c) => Mentions(keys, scope, file, c)
    case Binary(_, l, r) => Mentions(keys, scope, file, l) + Mentions(keys, scope, file, r)
  }

  /** `t` keeps every value `s` has. */
  predicate Extends(s: Symtab, t: Symtab) {
    forall k :: k in s && s[k].defined ==> k in t && SymbolValue(t, k) == Ok(s[k].value)
  }

  /** A value once computed stays computed while the entries it mentions keep their values. */
  lemma {:induction false} EvalKept(e: Expr, s: Symtab, t: Symtab, scope: string, file: string, pc: int)
    requires SameReading(s.Keys, t.Keys, scope, file, e)
    requires forall k :: k in Mentions(t.Keys, scope, file, e) && k in s && s[k].defined ==>
               SymbolValue(t, k) == Ok(s[k].value)
    requires Eval(e, s, scope, file, pc).Ok?
    ensures Eval(e, t, scope, file, pc) == Eval(e, s, scope, file, pc)
  {
    match e
    case Number(_) =>
    case CharConst(_) =>
    case Pc =>
    case Ident(x) =>
      var k := Resolve(s.Keys, scope, file, x);
      assert k in s && Resolve(t.Keys, scope, file, x) == k;
      assert k in Mentions(t.Keys, scope, file, e);
    case Unary(_, c) => EvalKept(c, s, t, scope, file, pc);
    case Binary(op, l, r) =>
      EvalKept(l, s, t, scope, file, pc);
      if Eval(r, s, scope, file, pc).Ok? { EvalKept(r, s, t, scope, file, pc); }
  }

  /** Evaluation at one program counter depends only on the entries it mentions. */
  lemma {:induction false} EvalMentions(e: Expr, s: Symtab, t: Symtab, scope: string, file: string, pc: int)
    requires s.Keys == t.Keys
    requires forall k :: k in Mentions(s.Keys, scope, file, e) ==> SymbolValue(s, k) == SymbolValue(t, k)
    ensures Eval(e, s, scope, file, pc) == Eval(e, t, scope, file, pc)
  {
    match e
    case Number(_) =>
    case CharConst(_) =>
    case Pc =>
    case Ident(x) =>
      assert Resolve(s.Keys, scope, file, x) in Mentions(s.Keys, scope, file, e);
    case Unary(_, c) => EvalMentions(c, s, t, scope, file, pc);
    case Binary(_, l, r) =>
      EvalMentions(l, s, t, scope, file, pc);
      EvalMentions(r, s, t, scope, file, pc);
  }
}
