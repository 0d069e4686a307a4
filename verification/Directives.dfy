/** When a directive is accepted by pass 1 and where it leaves its segment, in addresses (assembler/asm_pass.c, the
    directive part of asm_pass1). */
module Directives {
  import opened Support
  import opened Expressions
  import opened Opcodes
  import opened Program
  import opened Layout
  import opened Agreement
  import opened Tiling
  import opened Labels

  /** The one argument of a directive; Unresolved when there is none or more than one. */
  function OnlyValue(s: Stmt, syms: Symtab, d: Directive, pc: int): EvalResult {
    if |d.args| == 1 then Eval(d.args[0], syms, s.scope, s.file, pc) else Unresolved
  }

  /** The physical address of a segment's next byte. */
  function Physical(g: Segment): int { g.base + g.pc }

  /** `.rorg e` is accepted when it has one argument with a value, and from then on addresses count from that value;
      bytes go where they would have gone. */
  lemma RorgExact(cfg: Config, g: Segment, syms: Symtab, s: Stmt, d: Directive, pc: int)
    requires d.name == DRorg
    ensures var v := OnlyValue(s, syms, d, pc); var m := DirMotion(cfg, g, syms, s, d, pc); var h := Moved(g, m);
            (m.Fail? <==> !v.Ok?) && Physical(h) == Physical(g) &&
            (v.Ok? ==> h.rorgActive && LogicalPc(h) == v.value)
  {
    hide Eval;
  }

  /** `.rend` takes no argument and needs an active `.rorg`; behind it addresses are physical again. */
  lemma RendExact(cfg: Config, g: Segment, syms: Symtab, s: Stmt, d: Directive, pc: int)
    requires d.name == DRend
    ensures var m := DirMotion(cfg, g, syms, s, d, pc); var h := Moved(g, m);
            (m.Fail? <==> d.args != [] || !g.rorgActive) && Physical(h) == Physical(g) &&
            (!m.Fail? ==> !h.rorgActive && LogicalPc(h) == Physical(h))
  {
  }

  /** `.org e` is accepted outside a logical origin for one value that does not lie below the segment's base, and the
      next byte goes to that address. */
  lemma OrgExact(cfg: Config, g: Segment, syms: Symtab, s: Stmt, d: Directive, pc: int)
    requires d.name == DOrg
    ensures var v := OnlyValue(s, syms, d, pc); var m := DirMotion(cfg, g, syms, s, d, pc); var h := Moved(g, m);
            (m.Fail? <==> g.rorgActive || !v.Ok? || v.value < g.base) && h.rorgActive == g.rorgActive &&
            (!m.Fail? ==> Physical(h) == v.value && LogicalPc(h) == v.value)
  {
    hide Eval;
  }

  /** How many bytes a directive's operands or text ask for; None: it is refused. */
  function Asked(s: Stmt, syms: Symtab, d: Directive, pc: int): Option<int> {
    var text := if d.str.Some? then DecodeString(d.str.value) else Some([]);
    match d.name
    case DByte => Some(|d.args|)
    case DWord => Some(|d.args| + |d.args|)
    case DBankTarget => Some(|d.args| + |d.args| + |d.args|)
    case DText => if text.Some? then Some(|text.value|) else None
    case DAsciiz => if text.Some? then Some(|text.value| + 1) else None
    case DRes => (match OnlyValue(s, syms, d, pc) case Ok(v) => if v >= 0 then Some(v) else None case _ => None)
    case DProc => if |d.args| == 1 && d.args[0].Ident? then Some(0) else None
    case _ => Some(0)
  }

  /** Every other directive but `.align` moves physical and logical address alike by what it asks for, or is refused. */
  lemma RoomExact(cfg: Config, g: Segment, syms: Symtab, s: Stmt, pc: int)
    requires s.kind.Dir?
    requires var n := s.kind.dir.name; n != DRorg && n != DRend && n != DOrg && n != DAlign
    ensures var d := s.kind.dir; var m := DirMotion(cfg, g, syms, s, d, pc); var h := Moved(g, m);
            var n := Asked(s, syms, d, pc);
            (m.Fail? <==> n.None?) && h.rorgActive == g.rorgActive &&
            (n.Some? ==> n.value >= 0 && Physical(h) == Physical(g) + n.value && LogicalPc(h) == LogicalPc(g) + n.value)
  {
    hide Eval, DecodeString;
  }

  /** The arguments of `.align`: boundary and offset, zero if it names none. */
  function Boundary(s: Stmt, syms: Symtab, d: Directive, pc: int): EvalResult {
    if 1 <= |d.args| <= 3 then Eval(d.args[0], syms, s.scope, s.file, pc) else Unresolved
  }

  function Remainder(s: Stmt, syms: Symtab, d: Directive, pc: int): EvalResult {
    if |d.args| > 1 then Eval(d.args[1], syms, s.scope, s.file, pc) else Ok(0)
  }

  /** `.align b, o` is accepted for one to three arguments with 0 <= o < b, in a relocatable segment only for a power
      of two up to 32768, and takes the fewest bytes after which the address, in a relocatable segment the offset
      from its residue, is o modulo b. */
  lemma AlignExact(cfg: Config, g: Segment, syms: Symtab, s: Stmt, d: Directive, pc: int)
    requires d.name == DAlign && pc == LogicalPc(g)
    ensures var b, o := Boundary(s, syms, d, pc), Remainder(s, syms, d, pc);
            var m := DirMotion(cfg, g, syms, s, d, pc); var h := Moved(g, m);
            var linked := cfg.objectMode && !g.rorgActive;
            var here := if linked then h.relocPhase + h.pc else LogicalPc(h);
            (m.Fail? <==>
               !(b.Ok? && o.Ok? && 0 <= o.value < b.value && (linked ==> b.value <= 32768 && IsPow2(b.value)))) &&
            h.rorgActive == g.rorgActive &&
            (!m.Fail? ==> 0 <= Physical(h) - Physical(g) < b.value && (here - o.value) % b.value == 0 &&
                          LogicalPc(h) - LogicalPc(g) == Physical(h) - Physical(g))
  {
    hide AlignMotion, Eval, PowerOfTwoTest, IsPow2, AlignPadding;
    AlignCases(cfg, g, syms, s, d.args, pc);
    var b, o := Boundary(s, syms, d, pc), Remainder(s, syms, d, pc);
    if b.Ok? && b.value >= 1 { PowerOfTwoTestExact(b.value); }
    if b.Ok? && o.Ok? && b.value > 0 { PaddedRight(g, pc, b.value, o.value); }
  }

  lemma PaddedRight(g: Segment, pc: int, b: int, o: int)
    requires b > 0
    ensures 0 <= AlignPadding(pc, b, o) < b && (pc + AlignPadding(pc, b, o) - o) % b == 0
    ensures var p := AlignPadding(g.relocPhase + g.pc, b, o); 0 <= p < b && (g.relocPhase + (g.pc + p) - o) % b == 0
  {
    hide AlignPadding;
    var p := AlignPadding(g.relocPhase + g.pc, b, o);
    assert g.relocPhase + (g.pc + p) - o == g.relocPhase + g.pc + p - o;
  }

  /** What the walk works out for an alignment. */
  lemma AlignCases(cfg: Config, g: Segment, syms: Symtab, s: Stmt, args: seq<Expr>, pc: int)
    ensures var d := Directive(DAlign, None, args);
            var b, o := Boundary(s, syms, d, pc), Remainder(s, syms, d, pc);
            var linked := cfg.objectMode && !g.rorgActive;
            var right := b.Ok? && o.Ok? && 0 <= o.value < b.value &&
                         (linked ==> b.value <= 32768 && PowerOfTwoTest(b.value));
            AlignMotion(cfg, g, syms, s, args, pc) ==
              if !right then Fail
              else if linked then AlignTo(b.value, AlignPadding(g.relocPhase + g.pc, b.value, o.value))
              else Grow(AlignPadding(pc, b.value, o.value))
  {
    hide Eval, PowerOfTwoTest, AlignPadding;
  }

  /** An instruction takes its size. */
  lemma InsnMoves(cfg: Config, g: Segment, syms: Symtab, s: Stmt, pc: int)
    requires s.kind.Insn?
    ensures var h := Moved(g, StmtMotion(cfg, g, syms, s, pc));
            Physical(h) == Physical(g) + s.kind.size && LogicalPc(h) == LogicalPc(g) + s.kind.size
  {
  }

  // ---- labels

  /** What the final table holds for a label: the address of its statement, never to change, absolute inside a logical
      origin and otherwise an address of its segment. */
  lemma LabelExact(cfg: Config, c: Context, j: nat, k: Key)
    requires Pass1(cfg, c).errors == c.errors && j < |c.prog| && Defines(cfg, c, j, k)
    ensures c.prog[j].segment in At(cfg, Start(cfg, c), c.prog, j).segs && k in FinalSyms(cfg, c)
    ensures var g := At(cfg, Start(cfg, c), c.prog, j).segs[c.prog[j].segment]; var e := FinalSyms(cfg, c)[k];
            e.defined && !e.mutable && e.value == (if g.rorgActive then g.rorgPc else Physical(g)) &&
            (e.segId == AbsSeg <==> g.rorgActive) &&
            (e.segName == if g.rorgActive then None else Some(c.prog[j].segment)) &&
            (!g.rorgActive ==> e.segId == SegmentKind(c.prog[j].segment))
  {
    hide Pass1, At, Start, FinalSyms, Defines;
    LabelFinal(cfg, c, j, k);
    UnknownSegment(cfg, c, j);
    EntryOfLabel(At(cfg, Start(cfg, c), c.prog, j).segs[c.prog[j].segment], c.prog[j]);
  }

  lemma EntryOfLabel(g: Segment, s: Stmt)
    ensures var e := AddressSymbol(g, s);
            e.defined && !e.mutable && e.value == (if g.rorgActive then g.rorgPc else Physical(g)) &&
            (e.segId == AbsSeg <==> g.rorgActive) && (e.segName == if g.rorgActive then None else Some(s.segment)) &&
            (!g.rorgActive ==> e.segId == SegmentKind(s.segment))
  {
    hide SegmentKind;
  }

  /** `.proc` declares its one name. */
  lemma ProcNameExact(s: Stmt, name: string)
    ensures ProcName(s) == Some(name) <==>
              s.kind.Dir? && s.kind.dir.name == DProc && s.kind.dir.args == [Ident(name)]
  {
  }

  /** An active statement that reports no error enters its label and its procedure name, each new, at its own
      address. */
  lemma NamesEntered(cfg: Config, st: State, s: Stmt, name: string)
    requires s.segment in st.segs && !IsConditionalStmt(s) && CurrentActive(st.stack)
    requires Step(cfg, st, s).0.errors == st.errors && (s.labelName == Some(name) || ProcName(s) == Some(name))
    ensures var k := StorageKey(cfg, s, name); var t := AfterNames(cfg, st, s).syms;
            k !in st.syms && k in t && t[k] == AddressSymbol(st.segs[s.segment], s)
  {
    hide CondStep, StmtMotion, ConstStep, StorageKey, ProcName, AddressSymbol, LogicalPc;
    var a := AfterNames(cfg, st, s);
    NamesGrow(cfg, st, s);
    if s.kind.Const? { ConstStepGrows(cfg, a, s, LogicalPc(st.segs[s.segment])); }
  }

  // ---- equates

  /** The closing check of a pass is silent exactly when every applied equate has a value or can be given one. */
  lemma {:induction false} CheckExact(cfg: Config, syms: Symtab, prog: seq<Stmt>, n: nat)
    requires n <= |prog|
    ensures CheckErrors(cfg, syms, prog, n) == 0 <==>
              forall i :: 0 <= i < n && Deferred(prog[i]) ==>
                SymbolValue(syms, StorageKey(cfg, prog[i], prog[i].kind.name)).Ok? ||
                Eval(prog[i].kind.expr, syms, prog[i].scope, prog[i].file, prog[i].address).Ok?
  {
    hide Eval, StorageKey, SymbolValue;
    if n > 0 { CheckExact(cfg, syms, prog, n - 1); }
  }

  /** The check touches nothing but the address of an equate that has no value yet and can be given one. */
  lemma CheckedExact(cfg: Config, syms: Symtab, s: Stmt)
    ensures var late := Deferred(s) && !SymbolValue(syms, StorageKey(cfg, s, s.kind.name)).Ok?;
            var v := if late then Eval(s.kind.expr, syms, s.scope, s.file, s.address) else Unresolved;
            Checked(cfg, syms, s).0 == if v.Ok? then s.(address := v.value) else s
  {
    hide Eval, StorageKey, SymbolValue;
  }

  /** Which statements are settled and checked behind the walk: active `=` and `?=` that took effect. */
  lemma DeferredExact(s: Stmt)
    ensures Deferred(s) <==>
              s.active && s.kind.Const? && s.kind.applied && (s.kind.assign == Normal || s.kind.assign == Default)
  {
  }
}
