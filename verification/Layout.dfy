/** Pass 1: address assignment, symbol definition and conditional assembly in one walk, followed by
    the sweeps that settle equates (assembler/asm_pass.c, asm_state.c). */
module Layout {
  import opened Support
  import opened Expressions
  import opened Opcodes
  import opened Program

  /** One open conditional block. */
  datatype Frame = Frame(parentActive: bool, branchActive: bool, anyTrue: bool, sawElse: bool)

  /** What the walk carries from statement to statement; `stack[0]` is the innermost block. */
  datatype State = State(segs: map<string, Segment>, syms: Symtab, stack: seq<Frame>, errors: nat)

  predicate CurrentActive(stack: seq<Frame>) {
    stack == [] || (stack[0].parentActive && stack[0].branchActive)
  }

  // ---- conditional directives

  datatype Verdict = Verdict(truth: bool, errors: nat)

  function SingleArg(d: Directive): Option<Expr> {
    if d.str.None? && |d.args| == 1 then Some(d.args[0]) else None
  }

  predicate NoArgs(d: Directive) { d.args == [] && d.str.None? }

  predicate TestsExpression(n: DirName) { n == DIf || n == DElif }

  predicate WellShaped(d: Directive) {
    SingleArg(d).Some? && (TestsExpression(d.name) || SingleArg(d).value.Ident?)
  }

  /** conditional_symbol_defined. */
  predicate NameDefined(cfg: Config, syms: Symtab, s: Stmt, name: string) {
    SymbolValue(syms, StorageKey(cfg, s, name)).Ok? || SymbolValue(syms, Global(name)).Ok?
  }

  /** conditional_eval_expr and conditional_eval_defined. */
  function Judge(cfg: Config, syms: Symtab, s: Stmt, d: Directive, pc: int, parentActive: bool): Verdict {
    if !WellShaped(d) then Verdict(false, 1)
    else if !parentActive then Verdict(false, 0)
    else if TestsExpression(d.name) then
      var v := Eval(SingleArg(d).value, syms, s.scope, s.file, pc);
      if v.Ok? then Verdict(v.value != 0, 0) else Verdict(false, 1)
    else
      var def := NameDefined(cfg, syms, s, SingleArg(d).value.name);
      Verdict(if d.name == DIfdef || d.name == DElifdef then def else !def, 0)
  }

  /** conditional_process_directive. */
  function CondStep(cfg: Config, st: State, s: Stmt, d: Directive, pc: int): State
    requires IsConditional(d.name)
  {
    match d.name
    case DIf | DIfdef | DIfndef =>
      var parent := CurrentActive(st.stack);
      var v := Judge(cfg, st.syms, s, d, pc, parent);
      st.(stack := [Frame(parent, v.truth, v.truth, false)] + st.stack, errors := st.errors + v.errors)
    case DElif | DElifdef | DElifndef =>
      if st.stack == [] then st.(errors := st.errors + 1)
      else
        var f := st.stack[0];
        if f.sawElse then
          st.(stack := st.stack[0 := f.(branchActive := false)], errors := st.errors + 1)
        else if !f.parentActive || f.anyTrue then
          st.(stack := st.stack[0 := f.(branchActive := false)],
              errors := st.errors + if WellShaped(d) then 0 else 1)
        else
          var v := Judge(cfg, st.syms, s, d, pc, true);
          st.(stack := st.stack[0 := f.(branchActive := v.truth, anyTrue := v.truth)],
              errors := st.errors + v.errors)
    case DElse =>
      if st.stack == [] then st.(errors := st.errors + 1)
      else
        var f := st.stack[0];
        var bad := if NoArgs(d) then 0 else 1;
        if f.sawElse then
          st.(stack := st.stack[0 := f.(branchActive := false)], errors := st.errors + bad + 1)
        else
          st.(stack := st.stack[0 := f.(branchActive := f.parentActive && !f.anyTrue, anyTrue := true, sawElse := true)],
              errors := st.errors + bad)
    case _ =>
      if st.stack == [] then st.(errors := st.errors + 1)
      else st.(stack := st.stack[1..], errors := st.errors + if NoArgs(d) then 0 else 1)
  }

  // ---- symbols

  /** The entry a label or procedure gets: absolute while a logical origin is active. */
  function AddressSymbol(seg: Segment, s: Stmt): Symbol {
    if seg.rorgActive then Symbol(LogicalPc(seg), true, AbsSeg, None, false)
    else Symbol(LogicalPc(seg), true, SegmentKind(s.segment), Some(s.segment), false)
  }

  /** Declares `name` at the current address; a second declaration is an error and changes nothing. */
  function DeclareAddress(cfg: Config, st: State, s: Stmt, name: Option<string>, seg: Segment): State {
    if name.None? then st
    else
      var k := StorageKey(cfg, s, name.value);
      if k in st.syms then st.(errors := st.errors + 1)
      else st.(syms := st.syms[k := AddressSymbol(seg, s)])
  }

  const Declared := Symbol(0, false, AbsSeg, None, false)

  function Assigned(sym: Symbol, v: int): Symbol {
    sym.(value := v, defined := true, segId := AbsSeg, segName := None)
  }

  function AssignIfKnown(sym: Symbol, v: EvalResult): Symbol {
    if v.Ok? then Assigned(sym, v.value) else sym
  }

  /** process_const_statement_pass1; the second result is the statement's `applied` mark. */
  function ConstStep(cfg: Config, st: State, s: Stmt, pc: int): (State, bool)
    requires s.kind.Const?
  {
    var k := StorageKey(cfg, s, s.kind.name);
    match s.kind.assign
    case Default =>
      if k in st.syms then (st, false)
      else
        var t := st.syms[k := Declared];
        (st.(syms := t[k := AssignIfKnown(Declared, Eval(s.kind.expr, t, s.scope, s.file, pc))]), true)
    case SetVar =>
      if k in st.syms && !st.syms[k].mutable then (st.(errors := st.errors + 1), true)
      else
        var sym := if k in st.syms then st.syms[k] else Declared.(mutable := true);
        var t := st.syms[k := sym];
        var v := Eval(s.kind.expr, t, s.scope, s.file, pc);
        (st.(syms := t[k := AssignIfKnown(sym, v)], errors := st.errors + if v.Ok? then 0 else 1), true)
    case Normal =>
      if k in st.syms then (st.(errors := st.errors + 1), true)
      else
        var t := st.syms[k := Declared];
        (st.(syms := t[k := AssignIfKnown(Declared, Eval(s.kind.expr, t, s.scope, s.file, pc))]), true)
  }

  // ---- directives that move the program counter

  datatype Motion =
    | Keep
    | Fail
    | Grow(n: nat)
    | AlignTo(boundary: int, pad: nat)
    | Jump(offset: nat)
    | StartLogical(logical: int)
    | EndLogical

  function Arg(s: Stmt, syms: Symtab, e: Expr, pc: int): EvalResult { Eval(e, syms, s.scope, s.file, pc) }

  function AlignMotion(cfg: Config, seg: Segment, syms: Symtab, s: Stmt, args: seq<Expr>, pc: int): Motion {
    if args == [] || |args| > 3 then Fail
    else
      var b := Arg(s, syms, args[0], pc);
      var o := if |args| > 1 then Arg(s, syms, args[1], pc) else Ok(0);
      if !b.Ok? || !o.Ok? then Fail
      else if b.value <= 0 then Fail
      else if cfg.objectMode && !seg.rorgActive && (b.value > 32768 || !PowerOfTwoTest(b.value)) then Fail
      else if o.value < 0 || o.value >= b.value then Fail
      else if cfg.objectMode && !seg.rorgActive then
        AlignTo(b.value, AlignPadding(seg.relocPhase + seg.pc, b.value, o.value))
      else Grow(AlignPadding(pc, b.value, o.value))
  }

  function DirMotion(cfg: Config, seg: Segment, syms: Symtab, s: Stmt, d: Directive, pc: int): Motion {
    match d.name
    case DRorg =>
      if |d.args| != 1 then Fail
      else (match Arg(s, syms, d.args[0], pc) case Ok(v) => StartLogical(v) case _ => Fail)
    case DRend => if d.args != [] || !seg.rorgActive then Fail else EndLogical
    case DOrg =>
      if seg.rorgActive || |d.args| != 1 then Fail
      else
        (match Arg(s, syms, d.args[0], pc)
         case Ok(v) => if v - seg.base < 0 then Fail else Jump(v - seg.base)
         case _ => Fail)
    case DAlign => AlignMotion(cfg, seg, syms, s, d.args, pc)
    case DByte => Grow(|d.args|)
    case DWord => Grow(2 * |d.args|)
    case DBankTarget => Grow(3 * |d.args|)
    case DText => TextMotion(d.str, 0)
    case DAsciiz => TextMotion(d.str, 1)
    case DRes =>
      if |d.args| != 1 then Fail
      else
        (match Arg(s, syms, d.args[0], pc)
         case Ok(v) => if v < 0 then Fail else Grow(v)
         case _ => Fail)
    case DProc => if ProcName(s).None? then Fail else Keep
    case _ => Keep
  }

  function TextMotion(str: Option<string>, extra: nat): Motion {
    match str
    case None => Grow(extra)
    case Some(q) =>
      (match DecodeString(q) case Some(bs) => Grow(|bs| + extra) case None => Fail)
  }

  function StmtMotion(cfg: Config, seg: Segment, syms: Symtab, s: Stmt, pc: int): Motion {
    match s.kind
    case Insn(_, _, _, _, _, size) => Grow(size)
    case Dir(d) => DirMotion(cfg, seg, syms, s, d, pc)
    case _ => Keep
  }

  /** segment_advance. */
  function Advance(seg: Segment, n: nat): Segment {
    seg.(pc := seg.pc + n, rorgPc := if seg.rorgActive then seg.rorgPc + n else seg.rorgPc)
  }

  function Moved(seg: Segment, m: Motion): Segment {
    match m
    case Keep => seg
    case Fail => seg
    case Grow(n) => Advance(seg, n)
    case AlignTo(b, pad) => Advance(seg.(relocAlign := if b > seg.relocAlign then b else seg.relocAlign), pad)
    case Jump(o) => seg.(pc := o)
    case StartLogical(l) => seg.(rorgActive := true, rorgPc := l)
    case EndLogical => seg.(rorgActive := false, rorgPc := 0)
  }

  // ---- one statement

  /** The statement with the addresses and activity it gets at `st`. */
  function Placed(st: State, s: Stmt): Stmt
    requires s.segment in st.segs
  {
    var seg := st.segs[s.segment];
    s.(emitAddress := seg.base + seg.pc, address := LogicalPc(seg), rorgActive := seg.rorgActive,
       active := IsConditionalStmt(s) || CurrentActive(st.stack))
  }

  /** The symbols defined when the statement's own motion is worked out. */
  function AfterNames(cfg: Config, st: State, s: Stmt): State
    requires s.segment in st.segs
  {
    var seg := st.segs[s.segment];
    DeclareAddress(cfg, DeclareAddress(cfg, st, s, s.labelName, seg), s, ProcName(s), seg)
  }

  function Step(cfg: Config, st: State, s: Stmt): (State, Stmt) {
    if s.segment !in st.segs then (st.(errors := st.errors + 1), s)
    else
      var seg := st.segs[s.segment];
      var pc := LogicalPc(seg);
      var p := Placed(st, s);
      if IsConditionalStmt(s) then (CondStep(cfg, st, s, s.kind.dir, pc), p)
      else if !p.active then (st, p)
      else
        var st1 := AfterNames(cfg, st, s);
        if s.kind.Const? then
          var r := ConstStep(cfg, st1, s, pc);
          (r.0, p.(kind := p.kind.(applied := r.1)))
        else
          var m := StmtMotion(cfg, seg, st1.syms, s, pc);
          (st1.(segs := st1.segs[s.segment := Moved(seg, m)], errors := st1.errors + if m.Fail? then 1 else 0), p)
  }

  /** The walk's state in front of statement `n`. */
  function At(cfg: Config, st0: State, prog: seq<Stmt>, n: nat): State
    requires n <= |prog|
  {
    if n == 0 then st0 else Step(cfg, At(cfg, st0, prog, n - 1), prog[n - 1]).0
  }

  /** Statement `i` as the walk leaves it. */
  function Laid(cfg: Config, st0: State, prog: seq<Stmt>, i: nat): Stmt
    requires i < |prog|
  {
    Step(cfg, At(cfg, st0, prog, i), prog[i]).1
  }

  // ---- before and after the walk

  /** reset_segment_pcs. */
  function ResetSegment(seg: Segment): Segment {
    var s := seg.(pc := 0, rorgActive := false, rorgPc := 0);
    if seg.phaseLocked then
      s.(relocAlign := if seg.requiredAlign > 1 then seg.requiredAlign else 1, relocPhase := seg.selectedPhase)
    else
      s.(relocAlign := if seg.explicitAlign > 1 then seg.explicitAlign else 1, relocPhase := 0)
  }

  function ResetSegments(segs: map<string, Segment>): map<string, Segment> {
    map n | n in segs :: ResetSegment(segs[n])
  }

  /** snapshot_segment_used_sizes. */
  function Snapshot(segs: map<string, Segment>): map<string, Segment> {
    map n | n in segs :: segs[n].(usedSize := segs[n].pc)
  }

  /** define_or_update_abs_symbol. */
  function PutAbs(syms: Symtab, name: string, v: int): Symtab {
    var k := Global(name);
    syms[k := Assigned(if k in syms then syms[k] else Declared, v)]
  }

  function PublishOne(syms: Symtab, name: string, seg: Segment): Symtab {
    PutAbs(PutAbs(PutAbs(PutAbs(syms,
      name + "_BASE", seg.base), name + "_SIZE", seg.usedSize),
      name + "_END", seg.base + seg.usedSize), name + "_CAPACITY", seg.capacity)
  }

  /** publish_segment_symbols for the first `n` segments of the list. */
  function Publish(order: seq<string>, n: nat, segs: map<string, Segment>, syms: Symtab): Symtab
    requires n <= |order|
  {
    if n == 0 then syms
    else
      var t := Publish(order, n - 1, segs, syms);
      if order[n - 1] in segs then PublishOne(t, order[n - 1], segs[order[n - 1]]) else t
  }

  // ---- equates

  /** const_stmt_deferred_resolution_applies. */
  predicate Deferred(s: Stmt) {
    s.kind.Const? && s.active && s.kind.assign != SetVar && s.kind.applied
  }

  /** One statement of a sweep. */
  function Settle(cfg: Config, syms: Symtab, s: Stmt): Symtab {
    if !Deferred(s) then syms
    else
      var v := Eval(s.kind.expr, syms, s.scope, s.file, s.address);
      var k := StorageKey(cfg, s, s.kind.name);
      if !v.Ok? || k !in syms then syms
      else if syms[k].defined && syms[k].value == v.value then syms
      else syms[k := Assigned(syms[k], v.value)]
  }

  /** One in-place sweep over the first `n` statements. */
  function Sweep(cfg: Config, syms: Symtab, prog: seq<Stmt>, n: nat): Symtab
    requires n <= |prog|
  {
    if n == 0 then syms else Settle(cfg, Sweep(cfg, syms, prog, n - 1), prog[n - 1])
  }

  /** Sweeps until one changes nothing, at most `fuel` of them. */
  function Sweeps(cfg: Config, syms: Symtab, prog: seq<Stmt>, fuel: nat): Symtab
    decreases fuel
  {
    if fuel == 0 then syms
    else
      var t := Sweep(cfg, syms, prog, |prog|);
      if t == syms then syms else Sweeps(cfg, t, prog, fuel - 1)
  }

  const SWEEP_LIMIT: nat := 64

  /** The statement after the final check of equates: a symbol that never settled but evaluates now
      leaves its value in the statement's address field. */
  function Checked(cfg: Config, syms: Symtab, s: Stmt): (Stmt, nat) {
    if !Deferred(s) || SymbolValue(syms, StorageKey(cfg, s, s.kind.name)).Ok? then (s, 0)
    else
      match Eval(s.kind.expr, syms, s.scope, s.file, s.address)
      case Ok(v) => (s.(address := v), 0)
      case _ => (s, 1)
  }

  function CheckErrors(cfg: Config, syms: Symtab, prog: seq<Stmt>, n: nat): nat
    requires n <= |prog|
  {
    if n == 0 then 0 else CheckErrors(cfg, syms, prog, n - 1) + Checked(cfg, syms, prog[n - 1]).1
  }

  // ---- the whole pass

  datatype Context = Context(prog: seq<Stmt>, segs: map<string, Segment>, syms: Symtab, errors: nat)

  function Start(cfg: Config, c: Context): State {
    var segs := ResetSegments(c.segs);
    State(segs, Publish(cfg.order, |cfg.order|, segs, map[]), [], c.errors)
  }

  function Walked(cfg: Config, c: Context): State { At(cfg, Start(cfg, c), c.prog, |c.prog|) }

  function LaidProg(cfg: Config, c: Context): seq<Stmt> {
    seq(|c.prog|, i requires 0 <= i < |c.prog| => Laid(cfg, Start(cfg, c), c.prog, i))
  }

  /** The table the sweeps start from. */
  function Republished(cfg: Config, c: Context): Symtab {
    Publish(cfg.order, |cfg.order|, Snapshot(Walked(cfg, c).segs), Walked(cfg, c).syms)
  }

  function FinalSyms(cfg: Config, c: Context): Symtab {
    Sweeps(cfg, Republished(cfg, c), LaidProg(cfg, c), SWEEP_LIMIT)
  }

  /** asm_pass1. */
  function Pass1(cfg: Config, c: Context): (r: Context)
    ensures |r.prog| == |c.prog|
  {
    var st := Walked(cfg, c);
    var prog := LaidProg(cfg, c);
    var syms := FinalSyms(cfg, c);
    Context(seq(|prog|, i requires 0 <= i < |prog| => Checked(cfg, syms, prog[i]).0),
            Snapshot(st.segs), syms,
            st.errors + |st.stack| + CheckErrors(cfg, syms, prog, |prog|))
  }
}
