/** Pass 2: the second, independently written walk that turns statements into bytes (assembler/asm_pass.c). */
module Emission {
  import opened Support
  import opened Expressions
  import opened Opcodes
  import opened Program
  import opened Layout

  /** The bytes a statement writes before it ends or reports its first error. */
  datatype Emitted = Emitted(bytes: seq<byte>, ok: bool)

  const TEXT_BUFFER := 256
  const MESSAGE_BUFFER := 4096
  const IMAGE_LIMIT := 524288

  function Fill(n: nat, b: byte): (r: seq<byte>)
    ensures |r| == n
  {
    seq(n, _ => b)
  }

  /** `.byte`, `.word` and `.banktarget` operands, each evaluated at the logical address it lands on. */
  function DataBytes(name: DirName, syms: Symtab, s: Stmt, args: seq<Expr>, pc: int): Emitted {
    if args == [] then Emitted([], true)
    else
      match Arg(s, syms, args[0], pc)
      case Ok(v) =>
        var head := if name == DByte then [LowByte(v)]
                    else if name == DWord then [LowByte(v), HighByte(v)]
                    else [LowByte(v), HighByte(v), 0];
        var rest := DataBytes(name, syms, s, args[1..], pc + |head|);
        Emitted(head + rest.bytes, rest.ok)
      case _ => Emitted([], false)
  }

  /** Text longer than the emitter's 256-byte buffer is outside what C defines; it counts as an error here. */
  function TextBytes(str: Option<string>, tail: seq<byte>): Emitted {
    match str
    case None => Emitted(tail, true)
    case Some(q) =>
      (match DecodeString(q)
       case Some(bs) => if |bs| > TEXT_BUFFER then Emitted([], false) else Emitted(bs + tail, true)
       case None => Emitted([], false))
  }

  function AlignBytes(cfg: Config, seg: Segment, syms: Symtab, s: Stmt, args: seq<Expr>): Emitted {
    if args == [] || |args| > 3 then Emitted([], false)
    else
      var b := Arg(s, syms, args[0], s.address);
      var o := if |args| > 1 then Arg(s, syms, args[1], s.address) else Ok(0);
      var f := if |args| > 2 then Arg(s, syms, args[2], s.address) else Ok(0);
      if !b.Ok? || !o.Ok? || !f.Ok? then Emitted([], false)
      else if b.value <= 0 || o.value < 0 || o.value >= b.value || f.value < 0 || f.value > 0xff then Emitted([], false)
      else
        var at := if cfg.objectMode && !s.rorgActive then seg.relocPhase + (s.emitAddress - seg.base) else s.address;
        Emitted(Fill(AlignPadding(at, b.value, o.value), f.value), true)
  }

  /** directive_emit_pass2. */
  function DirBytes(cfg: Config, seg: Segment, syms: Symtab, s: Stmt, d: Directive): Emitted {
    match d.name
    case DAlign => AlignBytes(cfg, seg, syms, s, d.args)
    case DByte | DWord | DBankTarget => DataBytes(d.name, syms, s, d.args, s.address)
    case DText => TextBytes(d.str, [])
    case DAsciiz => TextBytes(d.str, [0])
    case DRes =>
      if |d.args| != 1 then Emitted([], false)
      else
        (match Arg(s, syms, d.args[0], s.address)
         case Ok(v) => if v < 0 then Emitted([], false) else Emitted(Fill(v, 0), true)
         case _ => Emitted([], false))
    case DEcho => Emitted([], MessageFits(d))
    case DError => Emitted([], false)
    case DUnknown => Emitted([], false)
    case _ => Emitted([], true)
  }

  predicate MessageFits(d: Directive) {
    d.str.Some? && d.args == [] && DecodeString(d.str.value).Some? && |DecodeString(d.str.value).value| < MESSAGE_BUFFER
  }

  predicate ByteOperand(m: EmitMode) {
    m == Immediate || m == Zp || m == ZpX || m == ZpY || m == IndX || m == IndY
  }

  predicate OperandInRange(cfg: Config, m: EmitMode, v: int) {
    && (m == Immediate ==> -128 <= v <= 0xff)
    && (ByteOperand(m) && m != Immediate ==> 0 <= v <= 0xff)
    && (!cfg.objectMode && m == Ind ==> v % 256 != 0xff)
  }

  /** The opcode part: one byte, or inverted branch, skip of three and `JMP` for a long branch. */
  function HeadBytes(cfg: Config, opcode: string, m: EmitMode): Emitted {
    if m == RelLong then
      match BranchOf(opcode)
      case None => Emitted([], false)
      case Some(b) =>
        (match Lookup(cfg.table, "JMP", EmitMode.Abs)
         case None => Emitted([InvertedByte(b), 3], false)
         case Some(jmp) => Emitted([InvertedByte(b), 3, jmp], true))
    else
      match Lookup(cfg.table, opcode, m)
      case None => Emitted([], false)
      case Some(b) => Emitted([b], true)
  }

  /** insn_emit_pass2. */
  function InsnBytes(cfg: Config, syms: Symtab, s: Stmt): Emitted
    requires s.kind.Insn?
  {
    var m := s.kind.mode;
    var head := HeadBytes(cfg, s.kind.opcode, m);
    if !head.ok || m == Implied || m == Accumulator then head
    else if s.kind.operand.None? then head.(ok := false)
    else
      var at := s.address + |head.bytes|;
      match Arg(s, syms, s.kind.operand.value, at)
      case Ok(v) =>
        if !OperandInRange(cfg, m, v) then head.(ok := false)
        else if ByteOperand(m) then Emitted(head.bytes + [LowByte(v)], true)
        else if m == Rel then
          if BranchFits(at + 1, v) then Emitted(head.bytes + [LowByte(Disp16(at + 1, v))], true)
          else head.(ok := false)
        else Emitted(head.bytes + [LowByte(v), HighByte(v)], true)
      case _ => head.(ok := false)
  }

  function StmtBytes(cfg: Config, seg: Segment, syms: Symtab, s: Stmt): Emitted {
    if !s.active then Emitted([], true)
    else
      match s.kind
      case Insn(_, _, _, _, _, _) => InsnBytes(cfg, syms, s)
      case Dir(d) => DirBytes(cfg, seg, syms, s, d)
      case _ => Emitted([], true)
  }

  /** The image as the set of addresses written so far with their bytes. */
  type Image = map<int, byte>

  predicate InImage(a: int) { 0 <= a < IMAGE_LIMIT }

  /** Bytes written from `a` upward, stopping at the first address outside the image. */
  function Write(img: Image, a: int, bytes: seq<byte>): (r: (Image, bool))
    decreases |bytes|
  {
    if bytes == [] then (img, true)
    else if !InImage(a) then (img, false)
    else Write(img[a := bytes[0]], a + 1, bytes[1..])
  }

  datatype EmitState = EmitState(syms: Symtab, image: Image, errors: nat)

  /** reset_mutable_symbols_for_emit. */
  function Forget(syms: Symtab): Symtab {
    map k | k in syms :: if syms[k].mutable then syms[k].(defined := false) else syms[k]
  }

  /** process_set_statement_emit. */
  function SetStep(cfg: Config, st: EmitState, s: Stmt): EmitState
    requires s.kind.Const?
  {
    if s.kind.assign != SetVar || !s.active then st
    else
      var k := StorageKey(cfg, s, s.kind.name);
      if k !in st.syms || !st.syms[k].mutable then st.(errors := st.errors + 1)
      else
        match Eval(s.kind.expr, st.syms, s.scope, s.file, s.address)
        case Ok(v) => st.(syms := st.syms[k := Assigned(st.syms[k], v)])
        case _ => st.(errors := st.errors + 1)
  }

  const NoSegment := Segment(0, 0, 0, 0, false, 0, 1, 1, 0, false, 1, 0)

  function SegmentOf(segs: map<string, Segment>, s: Stmt): Segment {
    if s.segment in segs then segs[s.segment] else NoSegment
  }

  function EmitStep(cfg: Config, segs: map<string, Segment>, st: EmitState, s: Stmt): EmitState {
    if s.kind.Const? then SetStep(cfg, st, s)
    else
      var e := StmtBytes(cfg, SegmentOf(segs, s), st.syms, s);
      var w := Write(st.image, s.emitAddress, e.bytes);
      st.(image := w.0, errors := st.errors + if e.ok && w.1 then 0 else 1)
  }

  function EmitAt(cfg: Config, c: Context, n: nat): EmitState
    requires n <= |c.prog|
  {
    if n == 0 then EmitState(Forget(c.syms), map[], c.errors)
    else EmitStep(cfg, c.segs, EmitAt(cfg, c, n - 1), c.prog[n - 1])
  }

  /** asm_pass2 on the result of a layout pass. */
  function Pass2(cfg: Config, c: Context): EmitState { EmitAt(cfg, c, |c.prog|) }

  /** The bytes statement `i` contributes. */
  function BytesOf(cfg: Config, c: Context, i: nat): seq<byte>
    requires i < |c.prog|
  {
    StmtBytes(cfg, SegmentOf(c.segs, c.prog[i]), EmitAt(cfg, c, i).syms, c.prog[i]).bytes
  }

  /** Where operand `i` of a data directive lands. */
  function DataWidth(name: DirName): nat { if name == DByte then 1 else if name == DWord then 2 else 3 }

  function DataItem(name: DirName, v: int): (bs: seq<byte>)
    ensures name == DByte || name == DWord || name == DBankTarget ==> |bs| == DataWidth(name) && bs[0] == LowByte(v)
    ensures name == DWord || name == DBankTarget ==> bs[1] == HighByte(v)
    ensures name == DBankTarget ==> bs[2] == 0
  {
    if name == DByte then [LowByte(v)] else if name == DWord then [LowByte(v), HighByte(v)] else [LowByte(v), HighByte(v), 0]
  }

  lemma DataStep(name: DirName, syms: Symtab, s: Stmt, args: seq<Expr>, pc: int)
    requires DataBytes(name, syms, s, args, pc).ok && args != []
    requires (name == DByte || name == DWord || name == DBankTarget)
    ensures var v := Arg(s, syms, args[0], pc); var rest := DataBytes(name, syms, s, args[1..], pc + DataWidth(name));
            v.Ok? && rest.ok && DataBytes(name, syms, s, args, pc).bytes == DataItem(name, v.value) + rest.bytes
  {
    hide Eval;
  }

  /** Data directives store their operands one behind the other, low byte first, each read at the address it lands
      on; the bank byte is left to the linker. */
  lemma {:induction false} DataReadsBack(name: DirName, syms: Symtab, s: Stmt, args: seq<Expr>, pc: int, i: nat)
    requires DataBytes(name, syms, s, args, pc).ok && i < |args|
    requires (name == DByte || name == DWord || name == DBankTarget)
    ensures var w := DataWidth(name); var bs := DataBytes(name, syms, s, args, pc).bytes;
            var v := Arg(s, syms, args[i], pc + w * i);
            |bs| == w * |args| && v.Ok? && w * i + w <= |bs| && bs[w * i] == LowByte(v.value) &&
            (name != DByte ==> bs[w * i + 1] == HighByte(v.value)) && (name == DBankTarget ==> bs[w * i + 2] == 0)
    decreases |args|
  {
    hide DataBytes, Arg;
    var w := DataWidth(name);
    DataStep(name, syms, s, args, pc);
    if |args| == 1 {
      NoData(name, syms, s, pc + w);
      assert args[1..] == [];
    } else {
      DataReadsBack(name, syms, s, args[1..], pc + w, if i > 0 then i - 1 else 0);
      if i > 0 { assert args[1..][i - 1] == args[i] && w * (i - 1) == w * i - w; }
    }
  }

  lemma NoData(name: DirName, syms: Symtab, s: Stmt, pc: int)
    ensures DataBytes(name, syms, s, [], pc) == Emitted([], true)
  {
  }
}
