/** What written bytes mean: text reads back, reserved room is zero, padding is the fill byte, and an operand is
    accepted exactly when its place can hold it (assembler/asm_pass.c). */
module Encoding {
  import opened Support
  import opened Expressions
  import opened Opcodes
  import opened Program
  import opened Layout
  import opened Emission
  import opened Packing

  // ---- text

  /** How a byte is spelled between quotes. */
  function Spelled(b: byte): string {
    if b == 10 then "\\n" else if b == 13 then "\\r" else if b == 9 then "\\t" else if b == 0 then "\\0"
    else if b == 34 || b == 92 then ['\\', b as char]
    else [b as char]
  }

  function SpelledAll(bs: seq<byte>): string { if bs == [] then "" else Spelled(bs[0]) + SpelledAll(bs[1..]) }

  function Quoted(bs: seq<byte>): string { "\"" + SpelledAll(bs) + "\"" }

  /** Any bytes can be spelled, and the spelling reads back as them. */
  lemma QuotedReadsBack(bs: seq<byte>)
    ensures DecodeString(Quoted(bs)) == Some(bs)
  {
    hide SpelledAll, DecodeFrom;
    ReadsFrom(Quoted(bs), 1, bs);
  }

  lemma {:induction false} ReadsFrom(q: string, i: nat, bs: seq<byte>)
    requires i < |q| && q[i..] == SpelledAll(bs) + "\"" && |q| >= 2
    ensures DecodeFrom(q, i) == bs
    decreases |bs|
  {
    hide DecodeFrom, Spelled;
    if bs == [] {
      EndsAt(q, i);
    } else {
      var w, rest := Spelled(bs[0]), SpelledAll(bs[1..]) + "\"";
      SpellingLength(bs[0]);
      assert q[i..] == w + rest;
      Apart(q, i, w, rest);
      ReadsFrom(q, i + |w|, bs[1..]);
      SpellingReads(q, i, bs[0]);
      assert [bs[0]] + bs[1..] == bs;
    }
  }

  lemma EndsAt(q: string, i: nat)
    requires i < |q| && |q| >= 2 && |q[i..]| == 1
    ensures DecodeFrom(q, i) == []
  {
  }

  lemma SpellingLength(b: byte)
    ensures 1 <= |Spelled(b)| <= 2
  {
  }

  lemma Apart(q: string, i: nat, w: string, rest: string)
    requires i <= |q| && q[i..] == w + rest && |rest| >= 1
    ensures i + |w| < |q| && q[i..i + |w|] == w && q[i + |w|..] == rest
  {
    assert q[i..][..|w|] == w && q[i..][|w|..] == rest;
  }

  /** The spelling of a byte reads as that byte. */
  lemma SpellingReads(q: string, i: nat, b: byte)
    requires |q| >= 2 && i + |Spelled(b)| < |q| && q[i..i + |Spelled(b)|] == Spelled(b)
    ensures DecodeFrom(q, i) == [b] + DecodeFrom(q, i + |Spelled(b)|)
  {
    var w := Spelled(b);
    assert q[i] == q[i..i + |w|][0] == w[0];
    if |w| == 2 { assert q[i + 1] == q[i..i + |w|][1] == w[1]; }
  }

  /** Text without a backslash stands for its characters. */
  lemma PlainTextExact(q: string)
    requires |q| >= 2 && q[0] == '"' && q[|q| - 1] == '"' && forall i :: 0 < i < |q| - 1 ==> q[i] != '\\'
    ensures DecodeString(q).Some? && |DecodeString(q).value| == |q| - 2
    ensures forall i :: 0 <= i < |q| - 2 ==> DecodeString(q).value[i] == q[i + 1] as int % 256
  {
    PlainFrom(q, 1);
  }

  lemma {:induction false} PlainFrom(q: string, i: nat)
    requires |q| >= 2 && 1 <= i < |q| && forall k :: 0 < k < |q| - 1 ==> q[k] != '\\'
    ensures |DecodeFrom(q, i)| == |q| - 1 - i
    ensures forall k :: 0 <= k < |q| - 1 - i ==> DecodeFrom(q, i)[k] == q[i + k] as int % 256
    decreases |q| - i
  {
    if i + 1 < |q| { PlainFrom(q, i + 1); }
  }

  /** Text that is not quoted on both sides is refused. */
  lemma QuotesNeeded(q: string)
    ensures DecodeString(q).Some? <==> |q| >= 2 && q[0] == '"' && q[|q| - 1] == '"'
  {
    hide DecodeFrom;
  }

  /** `.text` writes its text, `.asciiz` a zero behind it; a missing text is empty. */
  lemma TextEmitted(cfg: Config, seg: Segment, syms: Symtab, s: Stmt, str: Option<string>)
    requires str.Some? ==> DecodeString(str.value).Some? && |DecodeString(str.value).value| <= 256
    ensures var text := if str.Some? then DecodeString(str.value).value else [];
            DirBytes(cfg, seg, syms, s, Directive(DText, str, [])) == Emitted(text, true) &&
            DirBytes(cfg, seg, syms, s, Directive(DAsciiz, str, [])) == Emitted(text + [0], true)
  {
    hide DecodeString;
  }

  // ---- room

  /** `.res n` writes n zeros and is refused for anything but one number that is not negative. */
  lemma ResEmitted(cfg: Config, seg: Segment, syms: Symtab, s: Stmt, args: seq<Expr>)
    ensures var e := DirBytes(cfg, seg, syms, s, Directive(DRes, None, args));
            var v := if |args| == 1 then Arg(s, syms, args[0], s.address) else Unresolved;
            (e.ok <==> v.Ok? && v.value >= 0) &&
            (e.ok ==> |e.bytes| == v.value && forall i :: 0 <= i < |e.bytes| ==> e.bytes[i] == 0)
  {
    hide Eval;
  }

  /** What `.align` writes is its fill byte, zero if it names none, as often as it takes to reach the boundary from
      where the statement stands. */
  lemma AlignEmitted(cfg: Config, seg: Segment, syms: Symtab, s: Stmt, args: seq<Expr>)
    requires DirBytes(cfg, seg, syms, s, Directive(DAlign, None, args)).ok
    ensures 1 <= |args| <= 3 && Arg(s, syms, args[0], s.address).Ok?
    ensures |args| > 1 ==> Arg(s, syms, args[1], s.address).Ok?
    ensures |args| > 2 ==> Arg(s, syms, args[2], s.address).Ok?
    ensures var bs := DirBytes(cfg, seg, syms, s, Directive(DAlign, None, args)).bytes;
            var boundary := Arg(s, syms, args[0], s.address).value;
            var offset := if |args| > 1 then Arg(s, syms, args[1], s.address).value else 0;
            var fill := if |args| > 2 then Arg(s, syms, args[2], s.address).value else 0;
            var linked := cfg.objectMode && !s.rorgActive;
            var here := if linked then seg.relocPhase + (s.emitAddress - seg.base) else s.address;
            0 < boundary && 0 <= offset < boundary && 0 <= fill < 256 && |bs| < boundary &&
            (here + |bs| - offset) % boundary == 0 && forall i :: 0 <= i < |bs| ==> bs[i] as int == fill
  {
    hide Eval, AlignPadding;
  }

  /** When `.align` is accepted by the emitter. */
  lemma AlignAccepted(cfg: Config, seg: Segment, syms: Symtab, s: Stmt, args: seq<Expr>)
    ensures DirBytes(cfg, seg, syms, s, Directive(DAlign, None, args)).ok <==>
              1 <= |args| <= 3 && (forall i :: 0 <= i < |args| ==> Arg(s, syms, args[i], s.address).Ok?) &&
              0 < Arg(s, syms, args[0], s.address).value &&
              (|args| > 1 ==> 0 <= Arg(s, syms, args[1], s.address).value < Arg(s, syms, args[0], s.address).value) &&
              (|args| > 2 ==> 0 <= Arg(s, syms, args[2], s.address).value < 256)
  {
    hide Eval, AlignPadding;
  }

  /** Data directives are accepted exactly when every operand has a value at the address it lands on. */
  lemma DataExact(name: DirName, syms: Symtab, s: Stmt, args: seq<Expr>, pc: int)
    requires name == DByte || name == DWord || name == DBankTarget
    ensures DataBytes(name, syms, s, args, pc).ok <==>
              forall i :: 0 <= i < |args| ==> Arg(s, syms, args[i], pc + DataWidth(name) * i).Ok?
  {
    hide Arg, DataBytes;
    if DataBytes(name, syms, s, args, pc).ok {
      forall i | 0 <= i < |args|
        ensures Arg(s, syms, args[i], pc + DataWidth(name) * i).Ok?
      {
        DataReadsBack(name, syms, s, args, pc, i);
      }
    } else {
      var i := DataFault(name, syms, s, args, pc);
    }
  }

  /** The operand at which a refused data directive fails. */
  lemma {:induction false} DataFault(name: DirName, syms: Symtab, s: Stmt, args: seq<Expr>, pc: int) returns (i: nat)
    requires (name == DByte || name == DWord || name == DBankTarget) && !DataBytes(name, syms, s, args, pc).ok
    ensures i < |args| && !Arg(s, syms, args[i], pc + DataWidth(name) * i).Ok?
    decreases |args|
  {
    hide Arg, DataBytes;
    var w := DataWidth(name);
    if args == [] {
      NoData(name, syms, s, pc);
    } else {
      FirstOperand(name, syms, s, args, pc);
      if Arg(s, syms, args[0], pc).Ok? {
        var j := DataFault(name, syms, s, args[1..], pc + w);
        i := j + 1;
        assert args[1..][j] == args[i] && pc + w + w * j == pc + w * i;
      } else {
        i := 0;
        assert pc + w * 0 == pc;
      }
    }
  }

  lemma FirstOperand(name: DirName, syms: Symtab, s: Stmt, args: seq<Expr>, pc: int)
    requires (name == DByte || name == DWord || name == DBankTarget) && args != []
    ensures DataBytes(name, syms, s, args, pc).ok <==>
              Arg(s, syms, args[0], pc).Ok? && DataBytes(name, syms, s, args[1..], pc + DataWidth(name)).ok
  {
    hide Arg;
  }

  // ---- everything else

  /** `.error` and unknown directives are errors, `.echo` is one unless it has a quoted text below 4096 bytes and no
      operands, and directives that place nothing write nothing. */
  lemma SilentExact(cfg: Config, seg: Segment, syms: Symtab, s: Stmt, d: Directive)
    requires match d.name case DAlign | DByte | DWord | DBankTarget | DText | DAsciiz | DRes => false case _ => true
    ensures var e := DirBytes(cfg, seg, syms, s, d);
            e.bytes == [] &&
            (!e.ok <==> d.name == DError || d.name == DUnknown ||
                        (d.name == DEcho && !(d.args == [] && d.str.Some? && DecodeString(d.str.value).Some? &&
                                              |DecodeString(d.str.value).value| < 4096)))
  {
    hide DecodeString;
  }

  /** The emission starts with every label and equate as the layout pass left it and with no `.set` variable
      assigned. */
  lemma EmissionStarts(syms: Symtab, k: Key)
    requires k in syms
    ensures k in Forget(syms) && Forget(syms).Keys == syms.Keys
    ensures SymbolValue(Forget(syms), k).Ok? <==> syms[k].defined && !syms[k].mutable
    ensures !syms[k].mutable ==> Forget(syms)[k] == syms[k]
  {
  }

  predicate OnlyReserves(s: Stmt) { s.kind.Dir? && (s.kind.dir.name == DRes || s.kind.dir.name == DAlign) }

  /** What a statement writes is part of the stored image unless it only reserves room. */
  lemma WrittenIsStored(cfg: Config, seg: Segment, syms: Symtab, s: Stmt)
    ensures StmtBytes(cfg, seg, syms, s).bytes != [] && !OnlyReserves(s) ==> EmitsImage(s)
    ensures EmitsImage(s) ==> s.active && !OnlyReserves(s)
  {
    hide InsnBytes, DataBytes, TextBytes, AlignBytes, MessageFits, Arg;
  }

  // ---- operands

  /** A byte read as a number from 0 to 255. */
  function Unsigned(b: byte): int { b as int }

  /** The operand `v` of an instruction in form `m` whose operand starts at `at` has a place: a byte that reads as it, a
      displacement that leads to it, or, for an indirect jump in a flat assembly, two bytes of one page. */
  ghost predicate HasPlace(cfg: Config, m: EmitMode, at: int, v: int) {
    match m
    case Immediate => exists b: byte :: v == Unsigned(b) || v == Signed(b)
    case Zp | ZpX | ZpY | IndX | IndY => exists b: byte :: v == Unsigned(b)
    case Rel => exists b: byte :: (at + 1 + Signed(b) - v) % 0x10000 == 0
    case Ind => cfg.objectMode || v / 256 == (v + 1) / 256
    case _ => true
  }

  /** What the operand's bytes say. */
  predicate Reads(m: EmitMode, at: int, v: int, place: seq<byte>) {
    if m == Rel then |place| == 1 && (at + 1 + Signed(place[0]) - v) % 0x10000 == 0
    else if ByteOperand(m) then |place| == 1 && (place[0] as int - v) % 256 == 0
    else |place| == 2 && (place[0] as int + 256 * place[1] as int - v) % 0x10000 == 0
  }

  /** An instruction whose opcode is configured and whose operand has a value is refused exactly when the operand has no
      place, and otherwise its operand bytes say the value. */
  lemma OperandExact(cfg: Config, syms: Symtab, s: Stmt)
    requires s.kind.Insn? && HeadBytes(cfg, s.kind.opcode, s.kind.mode).ok
    requires s.kind.mode != Implied && s.kind.mode != Accumulator && s.kind.operand.Some?
    requires Arg(s, syms, s.kind.operand.value, s.address + |HeadBytes(cfg, s.kind.opcode, s.kind.mode).bytes|).Ok?
    ensures var head := HeadBytes(cfg, s.kind.opcode, s.kind.mode).bytes; var at := s.address + |head|;
            var v := Arg(s, syms, s.kind.operand.value, at).value; var e := InsnBytes(cfg, syms, s);
            (e.ok <==> HasPlace(cfg, s.kind.mode, at, v)) && |head| <= |e.bytes| && e.bytes[..|head|] == head &&
            (e.ok ==> Reads(s.kind.mode, at, v, e.bytes[|head|..]))
  {
    hide HeadBytes, Eval, Disp16, HasPlace, Reads, OperandInRange, BranchFits;
    var m, head := s.kind.mode, HeadBytes(cfg, s.kind.opcode, s.kind.mode).bytes;
    var at := s.address + |head|;
    var v := Arg(s, syms, s.kind.operand.value, at).value;
    PlaceExact(cfg, m, at, v);
    var e := InsnBytes(cfg, syms, s);
    if e.ok {
      PlaceReads(cfg, m, at, v);
      assert e.bytes == head + OperandBytes(m, at, v);
    }
  }

  /** The head of an instruction: its configured byte, or for a long branch the opposite branch over three bytes and the
      configured absolute `JMP`; refused exactly when the table or the mnemonic does not give it. */
  lemma HeadExact(cfg: Config, opcode: string, m: EmitMode)
    ensures m != RelLong ==>
              (HeadBytes(cfg, opcode, m).ok <==> Lookup(cfg.table, opcode, m).Some?) &&
              (HeadBytes(cfg, opcode, m).ok ==> HeadBytes(cfg, opcode, m).bytes == [Lookup(cfg.table, opcode, m).value])
    ensures m == RelLong ==>
              (HeadBytes(cfg, opcode, m).ok <==> BranchOf(opcode).Some? && Lookup(cfg.table, "JMP", EmitMode.Abs).Some?) &&
              (HeadBytes(cfg, opcode, m).ok ==>
                 HeadBytes(cfg, opcode, m).bytes ==
                   [InvertedByte(BranchOf(opcode).value), 3, Lookup(cfg.table, "JMP", EmitMode.Abs).value])
  {
    hide Lookup, BranchOf;
  }

  /** Forms without an operand are their head; other forms need an operand with a value. */
  lemma OperandNeeded(cfg: Config, syms: Symtab, s: Stmt)
    requires s.kind.Insn?
    ensures var head := HeadBytes(cfg, s.kind.opcode, s.kind.mode); var e := InsnBytes(cfg, syms, s);
            if s.kind.mode == Implied || s.kind.mode == Accumulator then e == head
            else e.ok ==> head.ok && s.kind.operand.Some? &&
                          Arg(s, syms, s.kind.operand.value, s.address + |head.bytes|).Ok?
  {
    hide HeadBytes, Eval, Disp16;
  }

  /** The bytes pass 2 writes for an accepted operand. */
  function OperandBytes(m: EmitMode, at: int, v: int): seq<byte> {
    if ByteOperand(m) then [LowByte(v)]
    else if m == Rel then [LowByte(Disp16(at + 1, v))]
    else [LowByte(v), HighByte(v)]
  }

  lemma PlaceReads(cfg: Config, m: EmitMode, at: int, v: int)
    requires m == Rel ==> BranchFits(at + 1, v)
    ensures Reads(m, at, v, OperandBytes(m, at, v))
  {
    hide Disp16, BranchFits, LowByte, HighByte;
    BytesHold(v);
    WordHolds(v);
    if m == Rel { DisplacementLeads(at + 1, v); }
  }

  lemma PlaceExact(cfg: Config, m: EmitMode, at: int, v: int)
    ensures HasPlace(cfg, m, at, v) <==> OperandInRange(cfg, m, v) && (m == Rel ==> BranchFits(at + 1, v))
  {
    hide BranchFits, Signed, Unsigned;
    BytesHold(v);
    SamePage(v);
    BranchFitsExact(at + 1, v);
  }

  lemma BytesHold(v: int)
    ensures (exists b: byte :: v == Unsigned(b)) <==> 0 <= v <= 0xff
    ensures (exists b: byte :: v == Unsigned(b) || v == Signed(b)) <==> -128 <= v <= 0xff
    ensures (LowByte(v) as int - v) % 256 == 0
  {
    if 0 <= v <= 0xff {
      assert v == Unsigned(LowByte(v));
    } else if -128 <= v < 0 {
      assert v == Signed(LowByte(v));
    }
  }

  lemma SamePage(v: int)
    ensures v / 256 == (v + 1) / 256 <==> v % 256 != 0xff
  {
  }

  lemma WordHolds(v: int)
    ensures (LowByte(v) as int + 256 * HighByte(v) as int - v) % 0x10000 == 0
  {
    assert v / 256 == 256 * (v / 0x10000) + (v / 256) % 256;
    assert v == 256 * (v / 256) + v % 256;
  }

  /** A branch fits exactly when some displacement byte leads to its target. */
  lemma BranchFitsExact(after: int, target: int)
    ensures BranchFits(after, target) <==> exists b: byte :: (after + Signed(b) - target) % 0x10000 == 0
  {
    var d := Disp16(after, target);
    if BranchFits(after, target) {
      DisplacementLeads(after, target);
    }
    if b: byte :| (after + Signed(b) - target) % 0x10000 == 0 {
      assert (d - Signed(b)) % 0x10000 == 0;
      assert d == Signed(b);
    }
  }

  lemma DisplacementLeads(after: int, target: int)
    requires BranchFits(after, target)
    ensures Signed(LowByte(Disp16(after, target))) == Disp16(after, target)
    ensures (after + Signed(LowByte(Disp16(after, target))) - target) % 0x10000 == 0
  {
  }
}
