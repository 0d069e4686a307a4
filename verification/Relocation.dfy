/** Relocatable expressions: what the object writer records for an operand, what the linker makes of the record,
    and that both together give the operand's value at the final addresses (assembler/o26.c, linker/vcsc_ld.c). */
module Relocation {
  import opened Support
  import opened Expressions
  import opened Opcodes
  import opened Program
  import opened Layout
  import opened Packing

  datatype Part = PartNone | PartLow | PartHigh | PartBank | PartWord

  /** Result of analysing an expression: `value` is what the bytes at the place get, `relocValue` the addend. */
  datatype Info = Info(isReloc: bool, segId: SegId, undefIndex: nat, layoutIndex: Option<nat>,
                       value: int, relocValue: int, part: Part)

  /** What the writer reads while it emits statements. */
  datatype Object = Object(cfg: Config, syms: Symtab, layouts: seq<PackedLayout>)

  function Absolute(v: int): Info { Info(false, UndefSeg, 0, None, v, 0, PartNone) }

  function SymbolSegment(sym: Symbol): string {
    match sym.segName case Some(n) => n case None => "__default__"
  }

  /** packed_symbol_value. */
  function PackedValue(o: Object, sym: Symbol): int {
    if sym.segId == AbsSeg then sym.value
    else match FindLayout(o.layouts, SymbolSegment(sym))
      case None => sym.value
      case Some(i) => o.layouts[i].packedBase + (sym.value - o.layouts[i].sourceBase)
  }

  /** Position of the first import called `name` in the list, or its length. */
  function ImportIndex(undefs: seq<string>, name: string): (i: nat)
    ensures i <= |undefs|
    ensures i < |undefs| ==> undefs[i] == name
  {
    if undefs == [] || undefs[0] == name then 0 else 1 + ImportIndex(undefs[1..], name)
  }

  /** intern_undef: a known import keeps its first index and the list, a new one goes to the end. */
  function Intern(undefs: seq<string>, name: string): (r: (nat, seq<string>))
    ensures undefs <= r.1 && r.0 < |r.1| && r.1[r.0] == name && forall j :: 0 <= j < r.0 ==> r.1[j] != name
    ensures name in undefs ==> r.1 == undefs
    ensures name !in undefs ==> r == (|undefs|, undefs + [name])
  {
    ImportFound(undefs, name);
    var i := ImportIndex(undefs, name);
    if i < |undefs| then (i, undefs) else (i, undefs + [name])
  }

  lemma {:induction false} ImportFound(undefs: seq<string>, name: string)
    ensures name in undefs <==> ImportIndex(undefs, name) < |undefs|
    ensures forall j :: 0 <= j < ImportIndex(undefs, name) ==> undefs[j] != name
  {
    if undefs != [] && undefs[0] != name {
      ImportFound(undefs[1..], name);
      forall j | 0 <= j < ImportIndex(undefs, name)
        ensures undefs[j] != name
      {
        if j > 0 { assert undefs[j] == undefs[1..][j - 1]; }
      }
    }
  }

  const INDEX_LIMIT := 0x10000

  predicate IsPart(op: UnaryOp) { op == Lo || op == Hi || op == Bank }

  function PartOf(op: UnaryOp, i: Info): Info
    requires IsPart(op)
  {
    match op
    case Lo => i.(value := LowByte(i.value), part := PartLow)
    case Hi => i.(value := HighByte(i.value), part := PartHigh)
    case _ => i.(value := if i.isReloc then LowByte(i.relocValue) else (i.value / 0x10000) % 256, part := PartBank)
  }

  function Shifted(i: Info, n: int): Info { i.(value := i.value + n, relocValue := i.relocValue + n) }

  /** analyze_expr, threading the imports it interns; None: the writer reports an error. */
  function Analyze(o: Object, undefs: seq<string>, scope: string, file: string, e: Expr, pc: int): Option<(Info, seq<string>)>
    decreases e
  {
    match e
    case Number(n) => Some((Absolute(n), undefs))
    case CharConst(c) => Some((Absolute(c), undefs))
    case Pc => Some((Absolute(pc), undefs))
    case Ident(x) => AnalyzeName(o, undefs, scope, file, x)
    case Unary(op, c) =>
      (match Analyze(o, undefs, scope, file, c, pc)
       case None => None
       case Some((i, us)) =>
         if IsPart(op) then Some((PartOf(op, i), us))
         else if i.isReloc then None
         else Folded(o, us, scope, file, e, pc))
    case Binary(op, l, r) =>
      (match Analyze(o, undefs, scope, file, l, pc)
       case None => None
       case Some((a, us)) =>
         if (op == LogAnd || op == LogOr) && a.isReloc then None
         else if op == LogAnd && a.value == 0 then Some((Absolute(0), us))
         else if op == LogOr && a.value != 0 then Some((Absolute(1), us))
         else
           (match Analyze(o, us, scope, file, r, pc)
            case None => None
            case Some((b, vs)) =>
              if a.isReloc && b.isReloc then None
              else if op == Add then
                Some((if a.isReloc then Shifted(a, b.value) else if b.isReloc then Shifted(b, a.value) else Absolute(a.value + b.value), vs))
              else if op == Sub then
                if b.isReloc then None
                else Some((if a.isReloc then Shifted(a, -b.value) else Absolute(a.value - b.value), vs))
              else if a.isReloc || b.isReloc then None
              else Folded(o, vs, scope, file, e, pc)))
  }

  function Folded(o: Object, undefs: seq<string>, scope: string, file: string, e: Expr, pc: int): Option<(Info, seq<string>)> {
    match Eval(e, o.syms, scope, file, pc)
    case Ok(v) => Some((Absolute(v), undefs))
    case _ => None
  }

  function AnalyzeName(o: Object, undefs: seq<string>, scope: string, file: string, x: string): Option<(Info, seq<string>)> {
    var k := Resolve(o.syms.Keys, scope, file, x);
    if k in o.syms && o.syms[k].defined then
      var sym := o.syms[k];
      var v := PackedValue(o, sym);
      if sym.segId == AbsSeg then Some((Info(false, AbsSeg, 0, None, v, v, PartWord), undefs))
      else match FindLayout(o.layouts, SymbolSegment(sym))
        case None => None
        case Some(i) => if i >= INDEX_LIMIT then None else Some((Info(true, sym.segId, 0, Some(i), v, v, PartWord), undefs))
    else if x in o.cfg.imports then
      var r := Intern(undefs, x);
      Some((Info(true, UndefSeg, r.0 % INDEX_LIMIT, None, 0, 0, PartWord), r.1))
    else None
  }

  // ---- final addresses

  /** Where the linker puts things: the address each source segment starts at, and the address of each import. */
  datatype Placement = Placement(starts: seq<int>, imports: map<string, int>)

  /** Pass 1 gives every defined symbol a segment; only imports are undefined in the object format. */
  predicate SegmentsKnown(o: Object) {
    forall k :: k in o.syms && o.syms[k].defined ==> o.syms[k].segId != UndefSeg
  }

  function StartAt(p: Placement, i: nat): int { if i < |p.starts| then p.starts[i] else 0 }

  /** How far the linker moves an address recorded in layout `i`: from the layout's packed base to its start. */
  function ShiftAt(o: Object, p: Placement, i: nat): int {
    if i < |o.layouts| then StartAt(p, i) - o.layouts[i].packedBase else 0
  }

  function ImportAt(p: Placement, name: string): int { if name in p.imports then p.imports[name] else 0 }

  /** A symbol's final address: as far behind its segment's start as it stood behind the segment's base. */
  function FinalValue(o: Object, p: Placement, sym: Symbol): int {
    if sym.segId == AbsSeg then sym.value
    else match FindLayout(o.layouts, SymbolSegment(sym))
      case None => sym.value
      case Some(i) => StartAt(p, i) + (sym.value - o.layouts[i].sourceBase)
  }

  /** The entries an expression of this scope and file may read once everything is placed. */
  function LinkKeys(o: Object, scope: string, file: string): set<Key> {
    o.syms.Keys + set x | x in o.cfg.imports :: Resolve(o.syms.Keys, scope, file, x)
  }

  /** The symbol table with every address final. */
  function Link(o: Object, p: Placement, scope: string, file: string): Symtab {
    map k | k in LinkKeys(o, scope, file) ::
      if k in o.syms && o.syms[k].defined then o.syms[k].(value := FinalValue(o, p, o.syms[k]))
      else if k.name in o.cfg.imports then Symbol(ImportAt(p, k.name), true, UndefSeg, None, false)
      else if k in o.syms then o.syms[k] else Symbol(0, false, UndefSeg, None, false)
  }

  /** How far the target of a relocation moves. */
  function TargetShift(o: Object, i: Info, undefs: seq<string>, p: Placement): int {
    if i.segId == UndefSeg then ImportAt(p, if i.undefIndex < |undefs| then undefs[i.undefIndex] else "")
    else match i.layoutIndex case Some(l) => ShiftAt(o, p, l) case None => 0
  }

  predicate NoPc(e: Expr) {
    match e
    case Pc => false
    case Unary(_, c) => NoPc(c)
    case Binary(_, l, r) => NoPc(l) && NoPc(r)
    case _ => true
  }

  lemma LinkResolves(o: Object, p: Placement, scope: string, file: string, x: string)
    ensures Resolve(Link(o, p, scope, file).Keys, scope, file, x) == Resolve(o.syms.Keys, scope, file, x)
  {
  }

  /** The final value of a name. */
  lemma LinkedName(o: Object, p: Placement, scope: string, file: string, x: string)
    ensures var k := Resolve(o.syms.Keys, scope, file, x);
            Eval(Ident(x), Link(o, p, scope, file), scope, file, 0) ==
              (if k in o.syms && o.syms[k].defined then Ok(FinalValue(o, p, o.syms[k]))
               else if x in o.cfg.imports then Ok(ImportAt(p, x)) else Unresolved)
  {
    LinkResolves(o, p, scope, file, x);
    hide FinalValue;
    var k := Resolve(o.syms.Keys, scope, file, x);
    assert k.name == x;
    if x in o.cfg.imports { assert k in LinkKeys(o, scope, file); }
  }

  // ---- analysis is sound for every placement

  /** The imports only grow, and a relocatable result names a target. */
  lemma {:induction false} AnalysisShape(o: Object, undefs: seq<string>, scope: string, file: string, e: Expr, pc: int)
    requires Analyze(o, undefs, scope, file, e, pc).Some?
    ensures var r := Analyze(o, undefs, scope, file, e, pc).value;
            undefs <= r.1 && (r.0.isReloc ==> r.0.part != PartNone)
    ensures var r := Analyze(o, undefs, scope, file, e, pc).value;
            r.0.isReloc && r.0.part == PartWord ==> r.0.value == r.0.relocValue
    ensures var r := Analyze(o, undefs, scope, file, e, pc).value;
            r.0.undefIndex < INDEX_LIMIT && (r.0.layoutIndex.Some? ==> r.0.layoutIndex.value < INDEX_LIMIT) &&
            (r.0.segId == UndefSeg || r.0.undefIndex == 0)
    decreases e
  {
    hide Eval, PackedValue, Resolve;
    match e
    case Unary(_, c) => AnalysisShape(o, undefs, scope, file, c, pc);
    case Binary(op, l, r) =>
      AnalysisShape(o, undefs, scope, file, l, pc);
      var us := Analyze(o, undefs, scope, file, l, pc).value.1;
      if Analyze(o, us, scope, file, r, pc).Some? { AnalysisShape(o, us, scope, file, r, pc); }
    case _ =>
  }

  /** What is analysed as not relocatable has its value at assembly time already, wherever things are placed. */
  lemma {:induction false} FixedAnywhere(o: Object, undefs: seq<string>, scope: string, file: string, e: Expr,
      pc: int, p: Placement, pc': int)
    requires Analyze(o, undefs, scope, file, e, pc).Some? && !Analyze(o, undefs, scope, file, e, pc).value.0.isReloc
    requires NoPc(e) || pc' == pc
    ensures Eval(e, o.syms, scope, file, pc) == Ok(Analyze(o, undefs, scope, file, e, pc).value.0.value)
    ensures Eval(e, Link(o, p, scope, file), scope, file, pc') == Eval(e, o.syms, scope, file, pc)
    decreases e
  {
    hide Link, FindLayout;
    match e
    case Ident(x) =>
      LinkedName(o, p, scope, file, x);
    case Unary(op, c) =>
      FixedAnywhere(o, undefs, scope, file, c, pc, p, pc');
    case Binary(op, l, r) =>
      FixedAnywhere(o, undefs, scope, file, l, pc, p, pc');
      var us := Analyze(o, undefs, scope, file, l, pc).value.1;
      if Analyze(o, us, scope, file, r, pc).Some? && !Analyze(o, us, scope, file, r, pc).value.0.isReloc {
        FixedAnywhere(o, us, scope, file, r, pc, p, pc');
      }
    case _ =>
  }

  /** A relocatable word is its addend plus however far its target moves. */
  lemma {:induction false} MovesWithTarget(o: Object, undefs: seq<string>, scope: string, file: string, e: Expr,
      pc: int,
                                           p: Placement, pc': int, all: seq<string>)
    requires Analyze(o, undefs, scope, file, e, pc).Some? && NoPc(e)
    requires var r := Analyze(o, undefs, scope, file, e, pc).value; r.0.isReloc && r.0.part == PartWord && r.1 <= all
    requires SegmentsKnown(o) && |all| <= INDEX_LIMIT
    ensures var i := Analyze(o, undefs, scope, file, e, pc).value.0;
            Eval(e, Link(o, p, scope, file), scope, file, pc') == Ok(i.relocValue + TargetShift(o, i, all, p))
    decreases e
  {
    hide Link, FindLayout, ShiftAt, ImportAt, StartAt;
    match e
    case Ident(x) =>
      NameMoves(o, undefs, scope, file, x, p, all);
    case Binary(op, l, r) =>
      var a := Analyze(o, undefs, scope, file, l, pc).value;
      var b := Analyze(o, a.1, scope, file, r, pc).value;
      AnalysisShape(o, a.1, scope, file, r, pc);
      if a.0.isReloc {
        MovesWithTarget(o, undefs, scope, file, l, pc, p, pc', all);
        FixedAnywhere(o, a.1, scope, file, r, pc, p, pc');
      } else {
        FixedAnywhere(o, undefs, scope, file, l, pc, p, pc');
        MovesWithTarget(o, a.1, scope, file, r, pc, p, pc', all);
      }
    case _ =>
  }

  lemma NameMoves(o: Object, undefs: seq<string>, scope: string, file: string, x: string, p: Placement,
      all: seq<string>)
    requires var r := AnalyzeName(o, undefs, scope, file, x); r.Some? && r.value.0.isReloc && r.value.1 <= all
    requires SegmentsKnown(o) && |all| <= INDEX_LIMIT
    ensures var i := AnalyzeName(o, undefs, scope, file, x).value.0;
            Eval(Ident(x), Link(o, p, scope, file), scope, file, 0) == Ok(i.relocValue + TargetShift(o, i, all, p))
  {
    LinkedName(o, p, scope, file, x);
    hide Link, Resolve, ImportAt, StartAt, Intern;
    var r := AnalyzeName(o, undefs, scope, file, x).value;
    if r.0.segId == UndefSeg && r.0.layoutIndex.None? {
      var n := Intern(undefs, x);
      assert n.1 == r.1 && n.0 < |all| && all[n.0] == x;
    }
  }

  // ---- records

  /** One relocation record; `kind` is the record's type byte. */
  datatype Reloc = Reloc(offset: int, kind: int, segId: int, undefIndex: nat, layout: Option<nat>, aux: Option<byte>)

  const LOW_BIT := 0x20
  const HIGH_BIT := 0x40
  const WORD_BIT := 0x80
  const AUX_BIT := 0x10
  const LAYOUT_BIT := 0x04

  function PartCode(p: Part): int {
    match p
    case PartLow => LOW_BIT
    case PartHigh => HIGH_BIT
    case PartBank => 0x60
    case _ => WORD_BIT
  }

  /** The part a record asks for: a one-byte operand of a whole word means its low byte. */
  function RecordedPart(i: Info, width: int): Part {
    if width == 1 && (i.part == PartNone || i.part == PartWord) then PartLow
    else if i.part == PartNone then PartWord
    else i.part
  }

  function OrBits(a: int, b: int): int { Bitwise(OrOp, a, b) }

  function RecordKind(i: Info, width: int, extra: int): int {
    var k := OrBits(PartCode(RecordedPart(i, width)), extra);
    var l := if i.layoutIndex.Some? then OrBits(k, LAYOUT_BIT) else k;
    if width == 1 then OrBits(l, AUX_BIT) else l
  }

  /** maybe_add_expr_reloc: the record for a place of one or two bytes, None when nothing moves. */
  function Record(i: Info, offset: int, width: int, extra: int): Option<Reloc> {
    if !i.isReloc then None
    else
      var part := RecordedPart(i, width);
      var aux := if part == PartLow || part == PartBank then HighByte(i.relocValue) else LowByte(i.relocValue);
      Some(Reloc(offset, RecordKind(i, width, extra), SegIndex(i.segId), i.undefIndex, i.layoutIndex,
                 if width == 1 then Some(aux) else None))
  }

  lemma OrBit(a: int, b: int, k: nat)
    ensures Bit(OrBits(a, b), k) <==> Bit(a, k) || Bit(b, k)
  {
    hide Bit, Bitwise;
    BitwiseBits(OrOp, a, b, k);
  }

  /** The type bits of a record tell which optional fields follow, and the part bits what is patched,
      whatever control bits the instruction adds. */
  lemma KindBits(i: Info, width: int, extra: int)
    requires !Bit(extra, 2) && !Bit(extra, 4) && !Bit(extra, 5) && !Bit(extra, 6) && !Bit(extra, 7)
    ensures var k := RecordKind(i, width, extra); var part := RecordedPart(i, width);
            (Bit(k, 2) <==> i.layoutIndex.Some?) && (Bit(k, 4) <==> width == 1) &&
            (Bit(k, 5) <==> part == PartLow || part == PartBank) &&
            (Bit(k, 6) <==> part == PartHigh || part == PartBank) &&
            (Bit(k, 7) <==> part == PartWord)
  {
    var c := PartCode(RecordedPart(i, width));
    forall k: nat
      ensures Bit(OrBits(c, extra), k) <==> Bit(c, k) || Bit(extra, k)
      ensures Bit(OrBits(OrBits(c, extra), LAYOUT_BIT), k) <==> Bit(c, k) || Bit(extra, k) || Bit(LAYOUT_BIT, k)
      ensures Bit(OrBits(OrBits(OrBits(c, extra), LAYOUT_BIT), AUX_BIT), k) <==>
                Bit(c, k) || Bit(extra, k) || Bit(LAYOUT_BIT, k) || Bit(AUX_BIT, k)
      ensures Bit(OrBits(OrBits(c, extra), AUX_BIT), k) <==> Bit(c, k) || Bit(extra, k) || Bit(AUX_BIT, k)
    {
      OrBit(c, extra, k);
      OrBit(OrBits(c, extra), LAYOUT_BIT, k);
      OrBit(OrBits(c, extra), AUX_BIT, k);
      OrBit(OrBits(OrBits(c, extra), LAYOUT_BIT), AUX_BIT, k);
    }
    hide OrBits;
    SmallBits();
  }

  lemma SmallBits()
    ensures Bit(LAYOUT_BIT, 2) && !Bit(LAYOUT_BIT, 4) && !Bit(LAYOUT_BIT, 5) && !Bit(LAYOUT_BIT, 6)
    ensures !Bit(LAYOUT_BIT, 7)
    ensures !Bit(AUX_BIT, 2) && Bit(AUX_BIT, 4) && !Bit(AUX_BIT, 5) && !Bit(AUX_BIT, 6) && !Bit(AUX_BIT, 7)
    ensures !Bit(LOW_BIT, 2) && !Bit(LOW_BIT, 4) && Bit(LOW_BIT, 5) && !Bit(LOW_BIT, 6) && !Bit(LOW_BIT, 7)
    ensures !Bit(HIGH_BIT, 2) && !Bit(HIGH_BIT, 4) && !Bit(HIGH_BIT, 5) && Bit(HIGH_BIT, 6) && !Bit(HIGH_BIT, 7)
    ensures !Bit(WORD_BIT, 2) && !Bit(WORD_BIT, 4) && !Bit(WORD_BIT, 5) && !Bit(WORD_BIT, 6) && Bit(WORD_BIT, 7)
    ensures !Bit(0x60, 2) && !Bit(0x60, 4) && Bit(0x60, 5) && Bit(0x60, 6) && !Bit(0x60, 7)
  {
    assert Pow2(2) == 4 && Pow2(4) == 16 by { assert Pow2(3) == 8; }
    assert Pow2(5) == 32 && Pow2(6) == 64 by { assert Pow2(4) == 16; }
    assert Pow2(7) == 128 by { assert Pow2(6) == 64; }
  }

  // ---- the linker's side

  /** How far the linker moves the target a record names by its own fields. */
  function RecordShift(o: Object, rec: Reloc, undefs: seq<string>, p: Placement): int {
    if rec.segId == 0 then ImportAt(p, if rec.undefIndex < |undefs| then undefs[rec.undefIndex] else "")
    else match rec.layout case Some(l) => ShiftAt(o, p, l) case None => 0
  }

  /** A record names the target the analysis found. */
  lemma RecordNamesTarget(o: Object, i: Info, undefs: seq<string>, p: Placement, offset: int, width: int, extra: int)
    requires Record(i, offset, width, extra).Some?
    ensures RecordShift(o, Record(i, offset, width, extra).value, undefs, p) == TargetShift(o, i, undefs, p)
    ensures Record(i, offset, width, extra).value.offset == offset
  {
    hide RecordKind;
  }

  /** apply_segment_relocs: the word rebuilt from the bytes at the place and the auxiliary byte. */
  function CurrentWord(kind: int, b0: byte, b1: byte, aux: Option<byte>): int {
    var a := match aux case Some(x) => x case None => 0;
    if Bit(kind, 7) then b0 + 256 * b1
    else if Bit(kind, 5) then b0 + 256 * a
    else a + 256 * b0
  }

  /** The bytes at the place after patching with the rebuilt word moved by `shift`, in 16 bits. */
  function Patched(kind: int, b0: byte, b1: byte, aux: Option<byte>, shift: int): (byte, byte) {
    var address := (CurrentWord(kind, b0, b1, aux) + shift) % 0x10000;
    if Bit(kind, 7) then (LowByte(address), HighByte(address))
    else if Bit(kind, 5) then (LowByte(address), b1)
    else (HighByte(address), b1)
  }

  /** `e` is a word, or `<` or `>` of a word: the part operators stand outermost. */
  predicate PartOutermost(o: Object, undefs: seq<string>, scope: string, file: string, e: Expr, pc: int) {
    var r := Analyze(o, undefs, scope, file, e, pc);
    r.Some? && (r.value.0.part == PartWord ||
                (e.Unary? && (e.uop == Lo || e.uop == Hi) && Analyze(o, undefs, scope, file, e.child, pc).value.0.part == PartWord))
  }

  /** The value of such an operand at the final addresses. */
  lemma FinalOperand(o: Object, undefs: seq<string>, scope: string, file: string, e: Expr, pc: int, p: Placement,
      pc': int, all: seq<string>)
    requires PartOutermost(o, undefs, scope, file, e, pc) && NoPc(e) && SegmentsKnown(o) && |all| <= INDEX_LIMIT
    requires var r := Analyze(o, undefs, scope, file, e, pc).value; r.0.isReloc && r.1 <= all
    ensures var i := Analyze(o, undefs, scope, file, e, pc).value.0; var final := i.relocValue + TargetShift(o, i, all, p);
            Eval(e, Link(o, p, scope, file), scope, file, pc') ==
              Ok(if i.part == PartLow then LowByte(final) else if i.part == PartHigh then HighByte(final) else final)
    ensures var i := Analyze(o, undefs, scope, file, e, pc).value.0;
            i.value == (if i.part == PartLow then LowByte(i.relocValue) else if i.part == PartHigh then HighByte(i.relocValue) else i.relocValue)
    ensures var i := Analyze(o, undefs, scope, file, e, pc).value.0;
            i.part == PartWord || i.part == PartLow || i.part == PartHigh
  {
    hide Link, Resolve, FindLayout, TargetShift, AnalyzeName, Folded;
    AnalysisShape(o, undefs, scope, file, e, pc);
    if Analyze(o, undefs, scope, file, e, pc).value.0.part == PartWord {
      MovesWithTarget(o, undefs, scope, file, e, pc, p, pc', all);
    } else {
      AnalysisShape(o, undefs, scope, file, e.child, pc);
      MovesWithTarget(o, undefs, scope, file, e.child, pc, p, pc', all);
      PartsMove(o, undefs, scope, file, e, pc, p, all);
    }
  }

  /** Taking a part does not change what moves. */
  lemma PartsMove(o: Object, undefs: seq<string>, scope: string, file: string, e: Expr, pc: int, p: Placement,
      all: seq<string>)
    requires e.Unary? && (e.uop == Lo || e.uop == Hi) && Analyze(o, undefs, scope, file, e, pc).Some?
    ensures var i, j := Analyze(o, undefs, scope, file, e, pc).value.0, Analyze(o, undefs, scope, file, e.child, pc).value.0;
            TargetShift(o, i, all, p) == TargetShift(o, j, all, p) && i.relocValue == j.relocValue && i.isReloc == j.isReloc
  {
  }

  lemma ByteOfSum(x: int, shift: int)
    ensures ((LowByte(x) + 256 * HighByte(x)) + shift) % 0x10000 == (x + shift) % 0x10000
    ensures LowByte(x) + 256 * HighByte(x) == x % 0x10000
  {
    WordBytes(x);
    var q := x / 0x10000;
    assert x + shift == (x % 0x10000 + shift) + q * 0x10000;
    ModAdd(x % 0x10000 + shift, q, 0x10000);
  }

  lemma WordBytes(x: int)
    ensures LowByte(x) + 256 * HighByte(x) == x % 0x10000
  {
    assert x == (x / 0x10000) * 0x10000 + x % 0x10000;
    var w := x % 0x10000;
    assert w == (w / 256) * 256 + w % 256;
    DivModUnique(x / 256, 256, x / 0x10000, w / 256);
    DivModUnique(x, 256, x / 256, w % 256);
  }

  lemma LowOfWord(x: int)
    ensures LowByte(x % 0x10000) == LowByte(x) && HighByte(x % 0x10000) == HighByte(x)
  {
    WordBytes(x);
    WordBytes(x % 0x10000);
  }

  /** A one-byte place: the byte the linker stores is the low byte of the operand's final value. */
  lemma ByteSound(o: Object, undefs: seq<string>, scope: string, file: string, e: Expr, pc: int, p: Placement, pc': int,
                  all: seq<string>, offset: int, extra: int, next: byte)
    requires PartOutermost(o, undefs, scope, file, e, pc) && NoPc(e) && SegmentsKnown(o) && |all| <= INDEX_LIMIT
    requires var r := Analyze(o, undefs, scope, file, e, pc).value; r.0.isReloc && r.1 <= all
    requires !Bit(extra, 2) && !Bit(extra, 4) && !Bit(extra, 5) && !Bit(extra, 6) && !Bit(extra, 7)
    ensures var i := Analyze(o, undefs, scope, file, e, pc).value.0;
            var rec := Record(i, offset, 1, extra);
            var v := Eval(e, Link(o, p, scope, file), scope, file, pc');
            rec.Some? && rec.value.offset == offset && v.Ok? &&
            Patched(rec.value.kind, LowByte(i.value), next, rec.value.aux, RecordShift(o, rec.value, all, p)) == (LowByte(v.value), next)
  {
    hide Link, Analyze, TargetShift, RecordShift, Bit, RecordKind, Eval;
    var i := Analyze(o, undefs, scope, file, e, pc).value.0;
    FinalOperand(o, undefs, scope, file, e, pc, p, pc', all);
    KindBits(i, 1, extra);
    RecordNamesTarget(o, i, all, p, offset, 1, extra);
    ByteOfSum(i.relocValue, TargetShift(o, i, all, p));
    LowOfWord(i.relocValue + TargetShift(o, i, all, p));
  }

  /** A two-byte place: a word operand gets its final value, modulo 64 KiB. */
  lemma WordSound(o: Object, undefs: seq<string>, scope: string, file: string, e: Expr, pc: int, p: Placement, pc': int,
                  all: seq<string>, offset: int, extra: int)
    requires NoPc(e) && SegmentsKnown(o) && |all| <= INDEX_LIMIT && Analyze(o, undefs, scope, file, e, pc).Some?
    requires var r := Analyze(o, undefs, scope, file, e, pc).value; r.0.isReloc && r.0.part == PartWord && r.1 <= all
    requires !Bit(extra, 2) && !Bit(extra, 4) && !Bit(extra, 5) && !Bit(extra, 6) && !Bit(extra, 7)
    ensures var i := Analyze(o, undefs, scope, file, e, pc).value.0;
            var rec := Record(i, offset, 2, extra);
            var v := Eval(e, Link(o, p, scope, file), scope, file, pc');
            rec.Some? && rec.value.offset == offset && v.Ok? &&
            Patched(rec.value.kind, LowByte(i.value), HighByte(i.value), rec.value.aux, RecordShift(o, rec.value, all, p)) ==
              (LowByte(v.value), HighByte(v.value))
  {
    hide Link, Analyze, TargetShift, RecordShift, Bit, RecordKind, Eval;
    var i := Analyze(o, undefs, scope, file, e, pc).value.0;
    AnalysisShape(o, undefs, scope, file, e, pc);
    MovesWithTarget(o, undefs, scope, file, e, pc, p, pc', all);
    KindBits(i, 2, extra);
    RecordNamesTarget(o, i, all, p, offset, 2, extra);
    ByteOfSum(i.relocValue, TargetShift(o, i, all, p));
    LowOfWord(i.relocValue + TargetShift(o, i, all, p));
  }

  /** `.word <x`: no auxiliary byte is recorded, and none is needed; the place gets the low byte, and zero behind it. */
  lemma LowWordSound(o: Object, undefs: seq<string>, scope: string, file: string, e: Expr, pc: int, p: Placement,
      pc': int,
                     all: seq<string>, offset: int, extra: int)
    requires PartOutermost(o, undefs, scope, file, e, pc) && NoPc(e) && SegmentsKnown(o) && |all| <= INDEX_LIMIT
    requires var r := Analyze(o, undefs, scope, file, e, pc).value; r.0.isReloc && r.0.part == PartLow && r.1 <= all
    requires !Bit(extra, 2) && !Bit(extra, 4) && !Bit(extra, 5) && !Bit(extra, 6) && !Bit(extra, 7)
    ensures var i := Analyze(o, undefs, scope, file, e, pc).value.0;
            var rec := Record(i, offset, 2, extra);
            var v := Eval(e, Link(o, p, scope, file), scope, file, pc');
            rec.Some? && rec.value.offset == offset && rec.value.aux.None? && v.Ok? &&
            Patched(rec.value.kind, LowByte(i.value), HighByte(i.value), rec.value.aux, RecordShift(o, rec.value, all, p)) ==
              (LowByte(v.value), HighByte(v.value))
  {
    hide Link, Analyze, TargetShift, RecordShift, Bit, RecordKind, Eval, Patched;
    var i := Analyze(o, undefs, scope, file, e, pc).value.0;
    FinalOperand(o, undefs, scope, file, e, pc, p, pc', all);
    KindBits(i, 2, extra);
    RecordNamesTarget(o, i, all, p, offset, 2, extra);
    LowPatched(RecordKind(i, 2, extra), LowByte(i.relocValue), TargetShift(o, i, all, p));
    LowBytesAdd(i.relocValue, TargetShift(o, i, all, p));
  }

  lemma LowPatched(kind: int, b: byte, shift: int)
    requires !Bit(kind, 7) && Bit(kind, 5)
    ensures Patched(kind, LowByte(b), HighByte(b), None, shift) == (LowByte(b + shift), 0)
  {
    hide Bit;
    LowOfWord(b + shift);
  }

  lemma LowBytesAdd(x: int, shift: int)
    ensures LowByte(LowByte(x) + shift) == LowByte(LowByte(x + shift)) && HighByte(LowByte(x + shift)) == 0
  {
    ModShift(x, shift);
  }

  // ---- where the limits are

  /** `.word >x`: without an auxiliary byte the place comes out right exactly when the low bytes do not carry. */
  lemma HighWordExact(o: Object, undefs: seq<string>, scope: string, file: string, c: Expr, pc: int, p: Placement,
      pc': int,
                      all: seq<string>, offset: int, extra: int)
    requires NoPc(c) && SegmentsKnown(o) && |all| <= INDEX_LIMIT && Analyze(o, undefs, scope, file, c, pc).Some?
    requires var r := Analyze(o, undefs, scope, file, c, pc).value; r.0.isReloc && r.0.part == PartWord && r.1 <= all
    requires !Bit(extra, 2) && !Bit(extra, 4) && !Bit(extra, 5) && !Bit(extra, 6) && !Bit(extra, 7)
    ensures Analyze(o, undefs, scope, file, Unary(Hi, c), pc).Some?
    ensures var i := Analyze(o, undefs, scope, file, Unary(Hi, c), pc).value.0;
            var rec := Record(i, offset, 2, extra);
            var v := Eval(Unary(Hi, c), Link(o, p, scope, file), scope, file, pc');
            rec.Some? && v.Ok? &&
            (Patched(rec.value.kind, LowByte(i.value), HighByte(i.value), rec.value.aux, TargetShift(o, i, all, p)).0 == LowByte(v.value) <==>
             LowByte(i.relocValue) + LowByte(TargetShift(o, i, all, p)) < 256)
  {
    hide Link, Analyze, TargetShift, Bit, RecordKind, Eval, Patched, LowByte, HighByte, PartOutermost;
    HighAnalysis(o, undefs, scope, file, c, pc);
    var i := Analyze(o, undefs, scope, file, Unary(Hi, c), pc).value.0;
    FinalOperand(o, undefs, scope, file, Unary(Hi, c), pc, p, pc', all);
    KindBits(i, 2, extra);
    var shift := TargetShift(o, i, all, p);
    HighPatch(RecordKind(i, 2, extra), HighByte(i.relocValue), shift);
    CarryExact(i.relocValue, shift);
  }

  lemma HighAnalysis(o: Object, undefs: seq<string>, scope: string, file: string, c: Expr, pc: int)
    requires Analyze(o, undefs, scope, file, c, pc).Some?
    ensures var r := Analyze(o, undefs, scope, file, c, pc).value;
            Analyze(o, undefs, scope, file, Unary(Hi, c), pc) == Some((r.0.(value := HighByte(r.0.value), part := PartHigh), r.1))
    ensures Analyze(o, undefs, scope, file, c, pc).value.0.part == PartWord ==>
              PartOutermost(o, undefs, scope, file, Unary(Hi, c), pc)
  {
  }

  lemma HighPatch(kind: int, h: byte, shift: int)
    requires !Bit(kind, 7) && !Bit(kind, 5)
    ensures Patched(kind, LowByte(h), HighByte(h), None, shift).0 == HighByte((256 * h + shift) % 0x10000)
  {
    hide Bit;
  }

  /** High bytes add up exactly when low bytes do not carry. */
  lemma CarryExact(x: int, shift: int)
    ensures HighByte((256 * HighByte(x) + shift) % 0x10000) == LowByte(HighByte(x + shift)) <==>
              LowByte(x) + LowByte(shift) < 256
  {
    LowOfWord(256 * HighByte(x) + shift);
    var a, b := x / 256, shift / 256;
    assert x == 256 * a + LowByte(x) && shift == 256 * b + LowByte(shift);
    ModAdd(256 * HighByte(x) + LowByte(shift), b, 256);
    DivModUnique(256 * HighByte(x) + shift, 256, HighByte(x) + b, LowByte(shift));
    var carry := if LowByte(x) + LowByte(shift) < 256 then 0 else 1;
    DivModUnique(x + shift, 256, a + b + carry, LowByte(x) + LowByte(shift) - 256 * carry);
    ModShift(a, b);
    ModOne(a + b, carry);
  }

  lemma ModShift(a: int, b: int)
    ensures (a % 256 + b) % 256 == (a + b) % 256
  {
    assert a + b == (a % 256 + b) + (a / 256) * 256;
    ModAdd(a % 256 + b, a / 256, 256);
  }

  lemma ModOne(n: int, carry: int)
    requires 0 <= carry <= 1
    ensures (n + carry) % 256 == n % 256 <==> carry == 0
  {
  }

  /** `e` with the number `pc` written in place of `*`. */
  function Frozen(e: Expr, pc: int): Expr {
    match e
    case Pc => Number(pc)
    case Unary(op, c) => Unary(op, Frozen(c, pc))
    case Binary(op, l, r) => Binary(op, Frozen(l, pc), Frozen(r, pc))
    case _ => e
  }

  lemma {:induction false} FrozenEval(e: Expr, syms: Symtab, scope: string, file: string, pc: int, q: int)
    ensures NoPc(Frozen(e, pc)) && Eval(Frozen(e, pc), syms, scope, file, q) == Eval(e, syms, scope, file, pc)
  {
    match e
    case Unary(_, c) => FrozenEval(c, syms, scope, file, pc, q);
    case Binary(_, l, r) =>
      FrozenEval(l, syms, scope, file, pc, q);
      FrozenEval(r, syms, scope, file, pc, q);
    case _ =>
  }

  /** The writer records `*` as the number it is at assembly time. */
  lemma {:induction false} FrozenAnalysis(o: Object, undefs: seq<string>, scope: string, file: string, e: Expr,
      pc: int, q: int)
    ensures Analyze(o, undefs, scope, file, Frozen(e, pc), q) == Analyze(o, undefs, scope, file, e, pc)
    decreases e
  {
    match e
    case Unary(op, c) =>
      hide *;
      FrozenAnalysis(o, undefs, scope, file, c, pc, q);
      FrozenUnary(o, undefs, scope, file, op, c, pc, q);
    case Binary(op, l, r) =>
      hide *;
      FrozenAnalysis(o, undefs, scope, file, l, pc, q);
      if Analyze(o, undefs, scope, file, l, pc).Some? {
        FrozenAnalysis(o, Analyze(o, undefs, scope, file, l, pc).value.1, scope, file, r, pc, q);
      }
      FrozenBinary(o, undefs, scope, file, op, l, r, pc, q);
    case _ => hide AnalyzeName;
  }

  lemma FrozenFolded(o: Object, undefs: seq<string>, scope: string, file: string, e: Expr, pc: int, q: int)
    ensures Folded(o, undefs, scope, file, Frozen(e, pc), q) == Folded(o, undefs, scope, file, e, pc)
  {
    hide Eval, Frozen, NoPc;
    FrozenEval(e, o.syms, scope, file, pc, q);
  }

  lemma FrozenUnary(o: Object, undefs: seq<string>, scope: string, file: string, op: UnaryOp, c: Expr, pc: int, q: int)
    requires Analyze(o, undefs, scope, file, Frozen(c, pc), q) == Analyze(o, undefs, scope, file, c, pc)
    ensures Analyze(o, undefs, scope, file, Frozen(Unary(op, c), pc), q) ==
              Analyze(o, undefs, scope, file, Unary(op, c), pc)
  {
    var a := Analyze(o, undefs, scope, file, c, pc);
    if a.Some? { FrozenFolded(o, a.value.1, scope, file, Unary(op, c), pc, q); }
    hide Folded, PartOf, AnalyzeName;
  }

  /** What the analysis makes of the analyses of both operands, `folded` being the plain value of the whole. */
  function Joined(op: BinaryOp, a: Info, us: seq<string>, right: Option<(Info, seq<string>)>,
      folded: Option<(Info, seq<string>)>)
    : Option<(Info, seq<string>)>
  {
    if (op == LogAnd || op == LogOr) && a.isReloc then None
    else if op == LogAnd && a.value == 0 then Some((Absolute(0), us))
    else if op == LogOr && a.value != 0 then Some((Absolute(1), us))
    else
      match right
      case None => None
      case Some((b, vs)) =>
        if a.isReloc && b.isReloc then None
        else if op == Add then
          Some((if a.isReloc then Shifted(a, b.value) else if b.isReloc then Shifted(b, a.value) else Absolute(a.value + b.value), vs))
        else if op == Sub then
          if b.isReloc then None
          else Some((if a.isReloc then Shifted(a, -b.value) else Absolute(a.value - b.value), vs))
        else if a.isReloc || b.isReloc then None
        else folded
  }

  function FoldedAfter(o: Object, right: Option<(Info, seq<string>)>, scope: string, file: string, e: Expr, pc: int): Option<(Info, seq<string>)> {
    match right case None => None case Some((_, vs)) => Folded(o, vs, scope, file, e, pc)
  }

  lemma BinaryAnalysis(o: Object, undefs: seq<string>, scope: string, file: string, op: BinaryOp, l: Expr, r: Expr,
      pc: int)
    ensures Analyze(o, undefs, scope, file, Binary(op, l, r), pc) ==
              match Analyze(o, undefs, scope, file, l, pc)
              case None => None
              case Some((a, us)) =>
                var right := Analyze(o, us, scope, file, r, pc);
                Joined(op, a, us, right, FoldedAfter(o, right, scope, file, Binary(op, l, r), pc))
  {
    hide Folded, Shifted, AnalyzeName, PartOf, Eval, Absolute;
  }

  lemma FrozenBinary(o: Object, undefs: seq<string>, scope: string, file: string, op: BinaryOp, l: Expr, r: Expr,
      pc: int, q: int)
    requires Analyze(o, undefs, scope, file, Frozen(l, pc), q) == Analyze(o, undefs, scope, file, l, pc)
    requires var a := Analyze(o, undefs, scope, file, l, pc);
             a.Some? ==>
               Analyze(o, a.value.1, scope, file, Frozen(r, pc), q) == Analyze(o, a.value.1, scope, file, r, pc)
    ensures Analyze(o, undefs, scope, file, Frozen(Binary(op, l, r), pc), q) ==
              Analyze(o, undefs, scope, file, Binary(op, l, r), pc)
  {
    hide *;
    FrozenNode(op, l, r, pc);
    BinaryAnalysis(o, undefs, scope, file, op, l, r, pc);
    BinaryAnalysis(o, undefs, scope, file, op, Frozen(l, pc), Frozen(r, pc), q);
    var a := Analyze(o, undefs, scope, file, l, pc);
    if a.Some? { FrozenAfter(o, Analyze(o, a.value.1, scope, file, r, pc), scope, file, Binary(op, l, r), pc, q); }
  }

  lemma FrozenNode(op: BinaryOp, l: Expr, r: Expr, pc: int)
    ensures Frozen(Binary(op, l, r), pc) == Binary(op, Frozen(l, pc), Frozen(r, pc))
  {
  }

  lemma FrozenAfter(o: Object, right: Option<(Info, seq<string>)>, scope: string, file: string, e: Expr, pc: int,
      q: int)
    ensures FoldedAfter(o, right, scope, file, Frozen(e, pc), q) == FoldedAfter(o, right, scope, file, e, pc)
  {
    if right.Some? { FrozenFolded(o, right.value.1, scope, file, e, pc, q); }
    hide Folded, Frozen;
  }

  /** How often `*` is added, less how often it is subtracted; None when it enters in another way. */
  function PcWeight(e: Expr): Option<int> {
    match e
    case Pc => Some(1)
    case Unary(Pos, c) => PcWeight(c)
    case Unary(Neg, c) => (match PcWeight(c) case Some(w) => Some(-w) case None => None)
    case Binary(Add, l, r) =>
      if PcWeight(l).Some? && PcWeight(r).Some? then Some(PcWeight(l).value + PcWeight(r).value) else None
    case Binary(Sub, l, r) =>
      if PcWeight(l).Some? && PcWeight(r).Some? then Some(PcWeight(l).value - PcWeight(r).value) else None
    case _ => if NoPc(e) then Some(0) else None
  }

  lemma {:induction false} NoPcEval(e: Expr, syms: Symtab, scope: string, file: string, pc: int, pc': int)
    requires NoPc(e)
    ensures Eval(e, syms, scope, file, pc') == Eval(e, syms, scope, file, pc)
  {
    match e
    case Unary(_, c) => NoPcEval(c, syms, scope, file, pc, pc');
    case Binary(_, l, r) =>
      NoPcEval(l, syms, scope, file, pc, pc');
      NoPcEval(r, syms, scope, file, pc, pc');
    case _ =>
  }

  /** Moving `*` moves the value by its weight. */
  lemma {:induction false} PcMoves(e: Expr, syms: Symtab, scope: string, file: string, pc: int, pc': int)
    requires PcWeight(e).Some? && Eval(e, syms, scope, file, pc).Ok?
    ensures var v := Eval(e, syms, scope, file, pc');
            v.Ok? && v.value == Eval(e, syms, scope, file, pc).value + PcWeight(e).value * (pc' - pc)
  {
    hide *;
    PcForms(e);
    if NoPc(e) {
      NoWeight(e);
      NoPcEval(e, syms, scope, file, pc, pc');
    } else if e.Pc? {
      PcItself(syms, scope, file);
    } else if e.Unary? {
      SignValues(e.uop, e.child, syms, scope, file, pc);
      PcMoves(e.child, syms, scope, file, pc, pc');
      SignValues(e.uop, e.child, syms, scope, file, pc');
      Distribute(PcWeight(e.child).value, 0, pc' - pc);
    } else {
      SumValues(e.bop, e.left, e.right, syms, scope, file, pc);
      PcMoves(e.left, syms, scope, file, pc, pc');
      PcMoves(e.right, syms, scope, file, pc, pc');
      SumValues(e.bop, e.left, e.right, syms, scope, file, pc');
      Distribute(PcWeight(e.left).value, PcWeight(e.right).value, pc' - pc);
    }
  }

  lemma PcForms(e: Expr)
    requires PcWeight(e).Some?
    ensures NoPc(e) || e == Pc || e.Unary? || e.Binary?
  {
  }

  lemma PcItself(syms: Symtab, scope: string, file: string)
    ensures PcWeight(Pc) == Some(1) && forall pc :: Eval(Pc, syms, scope, file, pc) == Ok(pc)
  {
  }

  /** A sign evaluates when its operand does. */
  lemma SignValues(op: UnaryOp, c: Expr, syms: Symtab, scope: string, file: string, pc: int)
    requires PcWeight(Unary(op, c)).Some? && !NoPc(Unary(op, c))
    ensures (op == Pos || op == Neg) && PcWeight(c).Some?
    ensures PcWeight(Unary(op, c)).value == if op == Pos then PcWeight(c).value else -PcWeight(c).value
    ensures var v, x := Eval(Unary(op, c), syms, scope, file, pc), Eval(c, syms, scope, file, pc);
            (v.Ok? <==> x.Ok?) && (v.Ok? ==> v.value == if op == Pos then x.value else -x.value)
  {
  }

  lemma {:induction false} NoWeight(e: Expr)
    requires NoPc(e)
    ensures PcWeight(e) == Some(0)
  {
    match e
    case Unary(_, c) => NoWeight(c);
    case Binary(_, l, r) =>
      NoWeight(l);
      NoWeight(r);
    case _ =>
  }

  lemma Distribute(a: int, b: int, d: int)
    ensures (a + b) * d == a * d + b * d && (a - b) * d == a * d - b * d && (-a) * d == -(a * d)
  {
  }

  /** Sums and differences evaluate when both sides do. */
  lemma SumValues(op: BinaryOp, l: Expr, r: Expr, syms: Symtab, scope: string, file: string, pc: int)
    requires PcWeight(Binary(op, l, r)).Some? && !NoPc(Binary(op, l, r))
    ensures (op == Add || op == Sub) && PcWeight(l).Some? && PcWeight(r).Some?
    ensures PcWeight(Binary(op, l, r)).value ==
              if op == Add then PcWeight(l).value + PcWeight(r).value else PcWeight(l).value - PcWeight(r).value
    ensures var v, x, y := Eval(Binary(op, l, r), syms, scope, file, pc), Eval(l, syms, scope, file, pc), Eval(r, syms, scope, file, pc);
            (v.Ok? <==> x.Ok? && y.Ok?) &&
            (v.Ok? ==> v.value == if op == Add then x.value + y.value else x.value - y.value)
  {
  }

  /** A relocatable word that contains `*`: the linker stores its value at the assembly-time address, whatever the
      placement, so the word is right exactly when the net distance the `*`s should have moved is a multiple of 64
      KiB. */
  lemma PcStaysBehind(o: Object, undefs: seq<string>, scope: string, file: string, e: Expr, pc: int, p: Placement,
      pc': int,
                      all: seq<string>, offset: int, extra: int)
    requires SegmentsKnown(o) && |all| <= INDEX_LIMIT && Analyze(o, undefs, scope, file, e, pc).Some?
    requires var r := Analyze(o, undefs, scope, file, e, pc).value; r.0.isReloc && r.0.part == PartWord && r.1 <= all
    requires !Bit(extra, 2) && !Bit(extra, 4) && !Bit(extra, 5) && !Bit(extra, 6) && !Bit(extra, 7) && PcWeight(e).Some?
    ensures var i := Analyze(o, undefs, scope, file, e, pc).value.0;
            var rec := Record(i, offset, 2, extra);
            var v, v' := Eval(e, Link(o, p, scope, file), scope, file, pc), Eval(e, Link(o, p, scope, file), scope, file, pc');
            rec.Some? && v.Ok? && v'.Ok? &&
            var stored := Patched(rec.value.kind, LowByte(i.value), HighByte(i.value), rec.value.aux, RecordShift(o, rec.value, all, p));
            stored == (LowByte(v.value), HighByte(v.value)) &&
            (stored == (LowByte(v'.value), HighByte(v'.value)) <==> (PcWeight(e).value * (pc' - pc)) % 0x10000 == 0)
  {
    hide Link, Analyze, TargetShift, RecordShift, Bit, RecordKind, Eval, Patched, PcWeight, NoPc, LowByte, HighByte;
    var t := Link(o, p, scope, file);
    FrozenAnalysis(o, undefs, scope, file, e, pc, pc);
    FrozenEval(e, t, scope, file, pc, pc);
    WordSound(o, undefs, scope, file, Frozen(e, pc), pc, p, pc, all, offset, extra);
    PcMoves(e, t, scope, file, pc, pc');
    SameWord(Eval(e, t, scope, file, pc).value, Eval(e, t, scope, file, pc').value);
    MultipleExact(Eval(e, t, scope, file, pc).value, PcWeight(e).value * (pc' - pc));
  }

  /** Two numbers have the same low and high byte exactly when they agree modulo 64 KiB. */
  lemma SameWord(x: int, y: int)
    ensures (LowByte(x) == LowByte(y) && HighByte(x) == HighByte(y)) <==> x % 0x10000 == y % 0x10000
  {
    WordBytes(x);
    WordBytes(y);
    LowOfWord(x);
    LowOfWord(y);
  }

  lemma MultipleExact(x: int, d: int)
    ensures (x + d) % 0x10000 == x % 0x10000 <==> d % 0x10000 == 0
  {
  }

  /** A part operator inside a sum: what is recorded for `>c + n` comes out right exactly when adding `n` to the
      low byte changes nothing about the carry. */
  lemma InnerPartExact(o: Object, undefs: seq<string>, scope: string, file: string, c: Expr, n: int, pc: int,
      p: Placement, pc': int,
                       all: seq<string>, offset: int, extra: int, next: byte)
    requires NoPc(c) && SegmentsKnown(o) && |all| <= INDEX_LIMIT && Analyze(o, undefs, scope, file, c, pc).Some?
    requires var r := Analyze(o, undefs, scope, file, c, pc).value; r.0.isReloc && r.0.part == PartWord && r.1 <= all
    requires !Bit(extra, 2) && !Bit(extra, 4) && !Bit(extra, 5) && !Bit(extra, 6) && !Bit(extra, 7)
    ensures Analyze(o, undefs, scope, file, Binary(Add, Unary(Hi, c), Number(n)), pc).Some?
    ensures var x := Analyze(o, undefs, scope, file, c, pc).value.0.relocValue;
            var i := Analyze(o, undefs, scope, file, Binary(Add, Unary(Hi, c), Number(n)), pc).value.0;
            var rec := Record(i, offset, 1, extra);
            var v := Eval(Binary(Add, Unary(Hi, c), Number(n)), Link(o, p, scope, file), scope, file, pc');
            var s := LowByte(TargetShift(o, i, all, p));
            rec.Some? && v.Ok? &&
            (Patched(rec.value.kind, LowByte(i.value), next, rec.value.aux, TargetShift(o, i, all, p)) == (LowByte(v.value), next) <==>
             (LowByte(x + n) + s < 256 <==> LowByte(x) + s < 256))
  {
    hide Link, Analyze, TargetShift, Bit, RecordKind, Eval, LowByte, HighByte, PartOutermost, Patched;
    HighAnalysis(o, undefs, scope, file, c, pc);
    SumAnalysis(o, undefs, scope, file, Unary(Hi, c), n, pc);
    AnalysisShape(o, undefs, scope, file, c, pc);
    var h := Analyze(o, undefs, scope, file, Unary(Hi, c), pc).value.0;
    var i := Analyze(o, undefs, scope, file, Binary(Add, Unary(Hi, c), Number(n)), pc).value.0;
    FinalOperand(o, undefs, scope, file, Unary(Hi, c), pc, p, pc', all);
    SumEval(Unary(Hi, c), n, Link(o, p, scope, file), scope, file, pc');
    SumShift(o, h, n, all, p);
    KindBits(i, 1, extra);
    HighPatched(RecordKind(i, 1, extra), LowByte(i.value), next, LowByte(i.relocValue), TargetShift(o, i, all, p));
    InnerCarry(h.relocValue, n, TargetShift(o, h, all, p));
  }

  lemma SumAnalysis(o: Object, undefs: seq<string>, scope: string, file: string, e: Expr, n: int, pc: int)
    requires Analyze(o, undefs, scope, file, e, pc).Some? && Analyze(o, undefs, scope, file, e, pc).value.0.isReloc
    ensures var r := Analyze(o, undefs, scope, file, e, pc).value;
            Analyze(o, undefs, scope, file, Binary(Add, e, Number(n)), pc) == Some((Shifted(r.0, n), r.1))
  {
  }

  lemma SumEval(e: Expr, n: int, syms: Symtab, scope: string, file: string, pc: int)
    requires Eval(e, syms, scope, file, pc).Ok?
    ensures Eval(Binary(Add, e, Number(n)), syms, scope, file, pc) == Ok(Eval(e, syms, scope, file, pc).value + n)
  {
  }

  lemma SumShift(o: Object, i: Info, n: int, all: seq<string>, p: Placement)
    ensures TargetShift(o, Shifted(i, n), all, p) == TargetShift(o, i, all, p)
  {
  }

  lemma HighPatched(kind: int, b0: byte, next: byte, aux: byte, shift: int)
    requires !Bit(kind, 7) && !Bit(kind, 5)
    ensures Patched(kind, b0, next, Some(aux), shift) == (HighByte((aux + 256 * b0 + shift) % 0x10000), next)
  {
    hide Bit;
  }

  lemma InnerCarry(x: int, n: int, shift: int)
    ensures HighByte((LowByte(x + n) + 256 * LowByte(HighByte(x) + n) + shift) % 0x10000) ==
              LowByte(HighByte(x + shift) + n) <==>
              (LowByte(x + n) + LowByte(shift) < 256 <==> LowByte(x) + LowByte(shift) < 256)
  {
    var w := LowByte(x + n) + 256 * LowByte(HighByte(x) + n) + shift;
    LowOfWord(w);
    var a, b := x / 256, shift / 256;
    assert x == 256 * a + LowByte(x) && shift == 256 * b + LowByte(shift);
    var c1 := if LowByte(x + n) + LowByte(shift) < 256 then 0 else 1;
    var c0 := if LowByte(x) + LowByte(shift) < 256 then 0 else 1;
    DivModUnique(w, 256, LowByte(HighByte(x) + n) + b + c1, LowByte(x + n) + LowByte(shift) - 256 * c1);
    DivModUnique(x + shift, 256, a + b + c0, LowByte(x) + LowByte(shift) - 256 * c0);
    ModShift(HighByte(x) + n, b + c1);
    ModShift(a, n + b + c1);
    ModShift(a + b + c0, n);
    CarriesDiffer(a + b + n, c0, c1);
  }

  lemma CarriesDiffer(m: int, c0: int, c1: int)
    requires 0 <= c0 <= 1 && 0 <= c1 <= 1
    ensures (m + c1) % 256 == (m + c0) % 256 <==> c0 == c1
  {
  }

  // ---- pass 1 gives every defined symbol a segment

  predicate AllKnown(syms: Symtab) { forall k :: k in syms && syms[k].defined ==> syms[k].segId != UndefSeg }

  lemma {:induction false} PublishKnown(order: seq<string>, n: nat, segs: map<string, Segment>, syms: Symtab)
    requires n <= |order| && AllKnown(syms)
    ensures AllKnown(Publish(order, n, segs, syms))
  {
    if n > 0 { PublishKnown(order, n - 1, segs, syms); }
  }

  lemma DeclareKnown(cfg: Config, st: State, s: Stmt, name: Option<string>, g: Segment)
    requires AllKnown(st.syms)
    ensures AllKnown(DeclareAddress(cfg, st, s, name, g).syms)
  {
    hide StorageKey, InFamily, SameIgnoringCase;
  }

  lemma ConstKnown(cfg: Config, st: State, s: Stmt, pc: int)
    requires AllKnown(st.syms) && s.kind.Const?
    ensures AllKnown(ConstStep(cfg, st, s, pc).0.syms)
  {
    hide StorageKey, Eval;
  }

  lemma StepKnown(cfg: Config, st: State, s: Stmt)
    requires AllKnown(st.syms)
    ensures AllKnown(Step(cfg, st, s).0.syms)
  {
    hide AllKnown, ConstStep, DeclareAddress, StmtMotion, LogicalPc, Judge, ProcName;
    if s.segment in st.segs {
      var seg := st.segs[s.segment];
      var u := DeclareAddress(cfg, st, s, s.labelName, seg);
      DeclareKnown(cfg, st, s, s.labelName, seg);
      DeclareKnown(cfg, u, s, ProcName(s), seg);
      if s.kind.Const? { ConstKnown(cfg, AfterNames(cfg, st, s), s, LogicalPc(seg)); }
    }
  }

  lemma {:induction false} WalkKnown(cfg: Config, st0: State, prog: seq<Stmt>, n: nat)
    requires n <= |prog| && AllKnown(st0.syms)
    ensures AllKnown(At(cfg, st0, prog, n).syms)
  {
    hide AllKnown, Step;
    if n > 0 {
      WalkKnown(cfg, st0, prog, n - 1);
      StepKnown(cfg, At(cfg, st0, prog, n - 1), prog[n - 1]);
    }
  }

  lemma {:induction false} SweepKnown(cfg: Config, syms: Symtab, prog: seq<Stmt>, n: nat)
    requires n <= |prog| && AllKnown(syms)
    ensures AllKnown(Sweep(cfg, syms, prog, n))
  {
    hide StorageKey, Eval;
    if n > 0 { SweepKnown(cfg, syms, prog, n - 1); }
  }

  lemma {:induction false} SweepsKnown(cfg: Config, syms: Symtab, prog: seq<Stmt>, fuel: nat)
    requires AllKnown(syms)
    ensures AllKnown(Sweeps(cfg, syms, prog, fuel))
    decreases fuel
  {
    hide AllKnown, Sweep;
    if fuel > 0 {
      SweepKnown(cfg, syms, prog, |prog|);
      SweepsKnown(cfg, Sweep(cfg, syms, prog, |prog|), prog, fuel - 1);
    }
  }

  /** The table pass 1 leaves to the object writer. */
  lemma PassSegmentsKnown(cfg: Config, c: Context, layouts: seq<PackedLayout>)
    ensures SegmentsKnown(Object(cfg, Pass1(cfg, c).syms, layouts))
  {
    hide Step, Publish, Sweeps, CheckErrors, LaidProg;
    PublishKnown(cfg.order, |cfg.order|, ResetSegments(c.segs), map[]);
    WalkKnown(cfg, Start(cfg, c), c.prog, |c.prog|);
    PublishKnown(cfg.order, |cfg.order|, Snapshot(Walked(cfg, c).segs), Walked(cfg, c).syms);
    SweepsKnown(cfg, Republished(cfg, c), LaidProg(cfg, c), SWEEP_LIMIT);
  }
}
