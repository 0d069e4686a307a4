/** Statements, directives and segments: the state the assembler passes share
    (assembler/ir.h, directive.h, asm_pass.h, asm_state.c). */
module Program {
  import opened Support
  import opened Expressions
  import opened Opcodes

  datatype DirName =
    | DIf | DIfdef | DIfndef | DElif | DElifdef | DElifndef | DElse | DEndif
    | DOrg | DRorg | DRend | DAlign
    | DByte | DWord | DBankTarget | DText | DAsciiz | DRes
    | DProc | DEcho | DError
    | DPassive                       // .segment, .export and the other directives without layout or bytes
    | DUnknown

  /** `str` keeps its quotes. */
  datatype Directive = Directive(name: DirName, str: Option<string>, args: seq<Expr>)

  datatype AssignKind = Normal | Default | SetVar

  datatype PageSpec = PageUnspecified | PageFlex | PageSame | PageCross

  datatype Kind =
    | LabelOnly
    | Insn(opcode: string, suffixed: bool, page: PageSpec, operand: Option<Expr>, mode: EmitMode, size: nat)
    | Dir(dir: Directive)
    | Const(name: string, expr: Expr, assign: AssignKind, applied: bool)

  /** The last four fields are rewritten by every layout pass. */
  datatype Stmt = Stmt(kind: Kind, file: string, scope: string, segment: string, labelName: Option<string>,
                       address: int, emitAddress: int, rorgActive: bool, active: bool)

  datatype Segment = Segment(base: int, capacity: int, pc: int, usedSize: int, rorgActive: bool, rorgPc: int,
                             explicitAlign: int, requiredAlign: int, selectedPhase: int, phaseLocked: bool,
                             relocAlign: int, relocPhase: int)

  /** What is fixed before the first pass: output kind, segment order, opcode table, exported and
      command-line names, imports (true: zero page) and segment address-size contracts. */
  datatype Config = Config(objectMode: bool, order: seq<string>, table: Table,
                           exported: set<(string, string)>, commandLine: set<string>,
                           imports: map<string, bool>, contracts: seq<(string, bool)>)

  predicate IsConditional(n: DirName) {
    n == DIf || n == DIfdef || n == DIfndef || n == DElif || n == DElifdef || n == DElifndef || n == DElse || n == DEndif
  }

  predicate IsConditionalStmt(s: Stmt) { s.kind.Dir? && IsConditional(s.kind.dir.name) }

  /** symbol_storage_name. */
  function StorageKey(cfg: Config, s: Stmt, name: string): Key {
    if IsLocal(name) then InScope(s.scope, name)
    else if name in cfg.commandLine || (s.file, name) in cfg.exported then Global(name)
    else InFile(s.file, name)
  }

  /** proc_decl_name. */
  function ProcName(s: Stmt): Option<string> {
    if s.kind.Dir? && s.kind.dir.name == DProc && |s.kind.dir.args| == 1 && s.kind.dir.args[0].Ident?
    then Some(s.kind.dir.args[0].name) else None
  }

  function Lower(c: char): char { if 'A' <= c <= 'Z' then c - 'A' + 'a' else c }

  predicate SameIgnoringCase(a: string, b: string) {
    |a| == |b| && forall i :: 0 <= i < |a| ==> Lower(a[i]) == Lower(b[i])
  }

  /** `name` is `family` or one of its dotted members. */
  predicate InFamily(name: string, family: string) {
    |name| >= |family| && SameIgnoringCase(name[..|family|], family) && (|name| == |family| || name[|family|] == '.')
  }

  /** segment_name_to_o26. */
  function SegmentKind(name: string): (k: SegId)
    ensures k == TextSeg || k == DataSeg || k == BssSeg || k == ZpSeg
  {
    if SameIgnoringCase(name, "__default__") || InFamily(name, "TEXT") || InFamily(name, "CODE") || InFamily(name, "RODATA") then TextSeg
    else if InFamily(name, "DATA") then DataSeg
    else if InFamily(name, "BSS") then BssSeg
    else if InFamily(name, "ZP") || InFamily(name, "ZEROPAGE") || InFamily(name, "ZERO") then ZpSeg
    else TextSeg
  }

  /** Which names go to which output segment: no name belongs to families of two of them. */
  lemma SegmentKindExact(name: string)
    ensures SegmentKind(name) == DataSeg <==> InFamily(name, "DATA")
    ensures SegmentKind(name) == BssSeg <==> InFamily(name, "BSS")
    ensures SegmentKind(name) == ZpSeg <==> InFamily(name, "ZP") || InFamily(name, "ZEROPAGE") || InFamily(name, "ZERO")
    ensures SegmentKind(name) == TextSeg <==>
              !InFamily(name, "DATA") && !InFamily(name, "BSS") &&
              !InFamily(name, "ZP") && !InFamily(name, "ZEROPAGE") && !InFamily(name, "ZERO")
  {
    hide InFamily, SameIgnoringCase;
    FamilyLetter(name, "TEXT", 't');
    FamilyLetter(name, "CODE", 'c');
    FamilyLetter(name, "RODATA", 'r');
    FamilyLetter(name, "DATA", 'd');
    FamilyLetter(name, "BSS", 'b');
    FamilyLetter(name, "ZP", 'z');
    FamilyLetter(name, "ZEROPAGE", 'z');
    FamilyLetter(name, "ZERO", 'z');
    DefaultLetter(name);
  }

  lemma FamilyLetter(name: string, family: string, letter: char)
    requires |family| > 0 && Lower(family[0]) == letter
    ensures InFamily(name, family) ==> |name| > 0 && Lower(name[0]) == letter
  {
    if InFamily(name, family) { assert name[..|family|][0] == name[0]; }
  }

  lemma DefaultLetter(name: string)
    ensures SameIgnoringCase(name, "__default__") ==> |name| > 0 && Lower(name[0]) == '_'
  {
  }

  /** segment_addrsize_is_zp: the longest matching family decides, the earliest among equals. */
  function ContractIsZp(contracts: seq<(string, bool)>, name: string): bool {
    match BestContract(contracts, |contracts|, name)
    case Some(i) => contracts[i].1
    case None => false
  }

  function BestContract(contracts: seq<(string, bool)>, n: nat, name: string): (best: Option<nat>)
    requires n <= |contracts|
    ensures best.Some? ==> best.value < n && InFamily(name, contracts[best.value].0)
    ensures best.Some? ==>
              forall i :: 0 <= i < n && InFamily(name, contracts[i].0) ==> |contracts[i].0| <= |contracts[best.value].0|
    ensures best.None? ==> forall i :: 0 <= i < n ==> !InFamily(name, contracts[i].0)
  {
    if n == 0 then None
    else
      var b := BestContract(contracts, n - 1, name);
      if !InFamily(name, contracts[n - 1].0) then b
      else if b.None? || |contracts[n - 1].0| > |contracts[b.value].0| then Some(n - 1)
      else b
  }

  predicate ImportIsZp(cfg: Config, name: string) { name in cfg.imports && cfg.imports[name] }

  /** decode_escaped_string on the text between the quotes, from position `i`. */
  function DecodeFrom(q: string, i: nat): seq<byte>
    requires |q| >= 2
    decreases |q| - i
  {
    if i + 1 >= |q| then []
    else if q[i] == '\\' && i + 2 < |q| then [EscapeByte(q[i + 1])] + DecodeFrom(q, i + 2)
    else [q[i] as int % 256] + DecodeFrom(q, i + 1)
  }

  function EscapeByte(c: char): byte {
    if c == 'n' then 10 else if c == 'r' then 13 else if c == 't' then 9 else if c == '0' then 0
    else c as int % 256
  }

  /** None: the text is not properly quoted. */
  function DecodeString(q: string): Option<seq<byte>> {
    if |q| < 2 || q[0] != '"' || q[|q| - 1] != '"' then None else Some(DecodeFrom(q, 1))
  }

  /** align_padding_for_address. */
  function AlignPadding(address: int, boundary: int, offset: int): (p: nat)
    ensures boundary > 0 ==> p < boundary && (address + p - offset) % boundary == 0
    ensures boundary <= 0 ==> p == 0
  {
    if boundary <= 0 then 0
    else
      var m := (address - offset) % boundary;
      PaddingReaches(address - offset, boundary);
      if m != 0 then boundary - m else 0
  }

  lemma PaddingReaches(a: int, b: int)
    requires b > 0
    ensures a % b != 0 ==> (a + (b - a % b)) % b == 0
  {
    assert a + (b - a % b) == 0 + (a / b + 1) * b;
    ModAdd(0, a / b + 1, b);
  }

  /** segment_logical_pc. */
  function LogicalPc(seg: Segment): int {
    if seg.rorgActive then seg.rorgPc else seg.base + seg.pc
  }

  /** branch_disp16: displacement in the 16-bit address space, None when it does not fit a byte. */
  function Disp16(sourceAfter: int, target: int): (d: int)
    ensures -0x8000 <= d < 0x8000 && (sourceAfter + d - target) % 0x10000 == 0
  {
    var delta := (target - sourceAfter) % 0x10000;
    if delta >= 0x8000 then delta - 0x10000 else delta
  }

  predicate BranchFits(sourceAfter: int, target: int) { -128 <= Disp16(sourceAfter, target) <= 127 }

  /** Every instruction's recorded size is that of its addressing form. */
  predicate SizesMatch(prog: seq<Stmt>) {
    forall i :: 0 <= i < |prog| && prog[i].kind.Insn? ==> prog[i].kind.size == ModeSize(prog[i].kind.mode)
  }
}
