/** Which operands the object writer accepts, and how a packed address lies in its output segment
    (assembler/o26.c, analyze_expr and the layout functions). */
module RelocTypes {
  import opened Support
  import opened Expressions
  import opened Opcodes
  import opened Program
  import opened Layout
  import opened Packing
  import opened Relocation

  /** Fixed at assembly time, moving with one target, or refused. */
  datatype Sort = Fixed | Moving | Refused

  /** An absolute name is fixed; one with a packed segment, or an import that is not defined, moves. */
  function NameSort(o: Object, scope: string, file: string, x: string): Sort {
    var k := Resolve(o.syms.Keys, scope, file, x);
    if k in o.syms && o.syms[k].defined then
      if o.syms[k].segId == AbsSeg then Fixed
      else if exists i :: 0 <= i < |o.layouts| && i < INDEX_LIMIT && IsHome(o, o.syms[k], i) then Moving
      else Refused
    else if x in o.cfg.imports then Moving else Refused
  }

  /** The symbol belongs to the segment of this name; symbols without one belong to the default segment. */
  predicate LivesIn(sym: Symbol, name: string) {
    sym.segName == Some(name) || (sym.segName.None? && name == "__default__")
  }

  /** Layout `i` is the first one of the symbol's segment. */
  predicate IsHome(o: Object, sym: Symbol, i: nat)
    requires i < |o.layouts|
  {
    LivesIn(sym, o.layouts[i].name) && forall j :: 0 <= j < i ==> !LivesIn(sym, o.layouts[j].name)
  }

  predicate Evaluates(o: Object, scope: string, file: string, e: Expr, pc: int) { Eval(e, o.syms, scope, file, pc).Ok? }

  /** The writer's rule: `<`, `>` and `^` keep the sort, something moving may be added to or lessened by something
      fixed, and every other operator wants fixed operands with a value; `&&` and `||` need no right operand when the
      left one decides. */
  function SortOf(o: Object, scope: string, file: string, e: Expr, pc: int): Sort {
    match e
    case Ident(x) => NameSort(o, scope, file, x)
    case Unary(op, c) =>
      if op == Lo || op == Hi || op == Bank then SortOf(o, scope, file, c, pc)
      else if SortOf(o, scope, file, c, pc) == Fixed then Fixed
      else Refused
    case Binary(op, l, r) =>
      var a, b := SortOf(o, scope, file, l, pc), SortOf(o, scope, file, r, pc);
      if a == Refused then Refused
      else if a == Fixed && Decides(o, scope, file, op, l, pc) then Fixed
      else if b == Refused then Refused
      else if a == Fixed && b == Fixed then (if Evaluates(o, scope, file, e, pc) then Fixed else Refused)
      else if op == Add then (if a == Moving && b == Moving then Refused else Moving)
      else if op == Sub && b == Fixed then Moving
      else Refused
    case _ => Fixed
  }

  /** The left operand of `&&` is zero, or that of `||` is not. */
  predicate Decides(o: Object, scope: string, file: string, op: BinaryOp, l: Expr, pc: int) {
    var v := Eval(l, o.syms, scope, file, pc);
    v.Ok? && ((op == LogAnd && v.value == 0) || (op == LogOr && v.value != 0))
  }

  /** The analysis accepts exactly what the rule does, and calls relocatable exactly what moves. */
  lemma {:induction false} AnalysisExact(o: Object, undefs: seq<string>, scope: string, file: string, e: Expr, pc: int)
    ensures Analyze(o, undefs, scope, file, e, pc).Some? <==> SortOf(o, scope, file, e, pc) != Refused
    ensures Analyze(o, undefs, scope, file, e, pc).Some? ==>
              (Analyze(o, undefs, scope, file, e, pc).value.0.isReloc <==> SortOf(o, scope, file, e, pc) == Moving)
    decreases e
  {
    match e
    case Ident(x) => NameExact(o, undefs, scope, file, x);
    case Unary(op, c) =>
      AnalysisExact(o, undefs, scope, file, c, pc);
      UnaryExact(o, undefs, scope, file, op, c, pc);
    case Binary(op, l, r) =>
      hide *;
      AnalysisExact(o, undefs, scope, file, l, pc);
      var a := Analyze(o, undefs, scope, file, l, pc);
      if a.Some? { AnalysisExact(o, a.value.1, scope, file, r, pc); }
      BinaryExact(o, undefs, scope, file, op, l, r, pc);
    case _ =>
  }

  lemma NameExact(o: Object, undefs: seq<string>, scope: string, file: string, x: string)
    ensures AnalyzeName(o, undefs, scope, file, x).Some? <==> NameSort(o, scope, file, x) != Refused
    ensures AnalyzeName(o, undefs, scope, file, x).Some? ==>
              (AnalyzeName(o, undefs, scope, file, x).value.0.isReloc <==> NameSort(o, scope, file, x) == Moving)
  {
    hide Resolve, PackedValue, Intern;
    var k := Resolve(o.syms.Keys, scope, file, x);
    if k in o.syms && o.syms[k].defined {
      var f := FindLayout(o.layouts, SymbolSegment(o.syms[k]));
      assert f.Some? ==> IsHome(o, o.syms[k], f.value);
      assert forall i :: 0 <= i < |o.layouts| && IsHome(o, o.syms[k], i) ==> f == Some(i);
    }
  }

  /** Fixed operands have their value. */
  lemma FixedValue(o: Object, undefs: seq<string>, scope: string, file: string, e: Expr, pc: int)
    requires Analyze(o, undefs, scope, file, e, pc).Some? && !Analyze(o, undefs, scope, file, e, pc).value.0.isReloc
    ensures Eval(e, o.syms, scope, file, pc) == Ok(Analyze(o, undefs, scope, file, e, pc).value.0.value)
  {
    hide *;
    FixedAnywhere(o, undefs, scope, file, e, pc, Placement([], map[]), pc);
  }

  lemma UnaryExact(o: Object, undefs: seq<string>, scope: string, file: string, op: UnaryOp, c: Expr, pc: int)
    requires Analyze(o, undefs, scope, file, c, pc).Some? <==> SortOf(o, scope, file, c, pc) != Refused
    requires Analyze(o, undefs, scope, file, c, pc).Some? ==>
               (Analyze(o, undefs, scope, file, c, pc).value.0.isReloc <==> SortOf(o, scope, file, c, pc) == Moving)
    ensures var e := Unary(op, c);
            (Analyze(o, undefs, scope, file, e, pc).Some? <==> SortOf(o, scope, file, e, pc) != Refused) &&
            (Analyze(o, undefs, scope, file, e, pc).Some? ==>
               (Analyze(o, undefs, scope, file, e, pc).value.0.isReloc <==> SortOf(o, scope, file, e, pc) == Moving))
  {
    hide Analyze, Eval, NameSort, LowByte, HighByte;
    var a := Analyze(o, undefs, scope, file, c, pc);
    UnaryAnalysis(o, undefs, scope, file, op, c, pc);
    if a.Some? && !a.value.0.isReloc {
      FixedValue(o, undefs, scope, file, c, pc);
      UnaryEvaluates(op, c, o.syms, scope, file, pc);
    }
  }

  lemma UnaryAnalysis(o: Object, undefs: seq<string>, scope: string, file: string, op: UnaryOp, c: Expr, pc: int)
    ensures Analyze(o, undefs, scope, file, Unary(op, c), pc) ==
              match Analyze(o, undefs, scope, file, c, pc)
              case None => None
              case Some((i, us)) =>
                if IsPart(op) then Some((PartOf(op, i), us))
                else if i.isReloc then None
                else Folded(o, us, scope, file, Unary(op, c), pc)
  {
    hide Folded, PartOf, AnalyzeName;
  }

  lemma UnaryEvaluates(op: UnaryOp, c: Expr, syms: Symtab, scope: string, file: string, pc: int)
    requires Eval(c, syms, scope, file, pc).Ok?
    ensures Eval(Unary(op, c), syms, scope, file, pc).Ok?
  {
  }

  lemma BinaryExact(o: Object, undefs: seq<string>, scope: string, file: string, op: BinaryOp, l: Expr, r: Expr,
      pc: int)
    requires Analyze(o, undefs, scope, file, l, pc).Some? <==> SortOf(o, scope, file, l, pc) != Refused
    requires Analyze(o, undefs, scope, file, l, pc).Some? ==>
               (Analyze(o, undefs, scope, file, l, pc).value.0.isReloc <==> SortOf(o, scope, file, l, pc) == Moving)
    requires Analyze(o, undefs, scope, file, l, pc).Some? ==>
               var us := Analyze(o, undefs, scope, file, l, pc).value.1;
               (Analyze(o, us, scope, file, r, pc).Some? <==> SortOf(o, scope, file, r, pc) != Refused) &&
               (Analyze(o, us, scope, file, r, pc).Some? ==>
                  (Analyze(o, us, scope, file, r, pc).value.0.isReloc <==> SortOf(o, scope, file, r, pc) == Moving))
    ensures var e := Binary(op, l, r);
            (Analyze(o, undefs, scope, file, e, pc).Some? <==> SortOf(o, scope, file, e, pc) != Refused) &&
            (Analyze(o, undefs, scope, file, e, pc).Some? ==>
               (Analyze(o, undefs, scope, file, e, pc).value.0.isReloc <==> SortOf(o, scope, file, e, pc) == Moving))
  {
    hide AnalyzeName, NameSort, Analyze, Eval;
    BinaryAnalysis(o, undefs, scope, file, op, l, r, pc);
    var a := Analyze(o, undefs, scope, file, l, pc);
    if a.Some? {
      if !a.value.0.isReloc { FixedValue(o, undefs, scope, file, l, pc); }
      var b := Analyze(o, a.value.1, scope, file, r, pc);
      if b.Some? && !b.value.0.isReloc && !a.value.0.isReloc {
        FixedValue(o, a.value.1, scope, file, r, pc);
        SumEvaluates(l, r, o.syms, scope, file, pc);
      }
    }
  }

  lemma SumEvaluates(l: Expr, r: Expr, syms: Symtab, scope: string, file: string, pc: int)
    requires Eval(l, syms, scope, file, pc).Ok? && Eval(r, syms, scope, file, pc).Ok?
    ensures Eval(Binary(Add, l, r), syms, scope, file, pc).Ok? && Eval(Binary(Sub, l, r), syms, scope, file, pc).Ok?
  {
  }

  // ---- packed addresses

  /** A symbol of layout `i` inside the bytes its segment holds. */
  predicate Inside(o: Object, sym: Symbol, i: nat) {
    i < |o.layouts| && sym.segId != AbsSeg && IsHome(o, sym, i) &&
    o.layouts[i].sourceBase <= sym.value < o.layouts[i].sourceBase + o.layouts[i].usedSize
  }

  /** A symbol inside its segment is recorded at an address inside its layout's packed bytes, as far from its layout's
      other symbols as it is in the source. */
  lemma PackedInside(o: Object, sym: Symbol, other: Symbol, i: nat)
    requires Inside(o, sym, i) && Inside(o, other, i)
    ensures o.layouts[i].packedBase <= PackedValue(o, sym) < o.layouts[i].packedBase + o.layouts[i].usedSize
    ensures PackedValue(o, sym) - PackedValue(o, other) == sym.value - other.value
  {
    HomeFound(o, sym, i);
    HomeFound(o, other, i);
  }

  lemma HomeFound(o: Object, sym: Symbol, i: nat)
    requires i < |o.layouts| && IsHome(o, sym, i)
    ensures FindLayout(o.layouts, SymbolSegment(sym)) == Some(i)
  {
  }

  /** Symbols of different segments packed into one output segment never get one recorded address, and all of them lie
      within 64 KiB. */
  lemma PackedApart(o: Object, p: Packed, sym: Symbol, other: Symbol, i: nat, j: nat)
    requires Tight(p) && o.layouts == p.layouts && Inside(o, sym, i) && Inside(o, other, j) && i < j
    requires o.layouts[i].segId == o.layouts[j].segId
    ensures 0 <= PackedValue(o, sym) < PackedValue(o, other) < 0x10000
  {
    hide Tight;
    PackedInside(o, sym, sym, i);
    PackedInside(o, other, other, j);
    Disjoint(p, i, j);
  }

  /** The linker's shift takes a recorded address to the symbol's place behind its segment's start. */
  lemma ShiftExact(o: Object, p: Placement, sym: Symbol, i: nat)
    requires Inside(o, sym, i)
    ensures PackedValue(o, sym) + ShiftAt(o, p, i) == FinalValue(o, p, sym)
    ensures FinalValue(o, p, sym) - StartAt(p, i) == sym.value - o.layouts[i].sourceBase
  {
    HomeFound(o, sym, i);
  }
}
