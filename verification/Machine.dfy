/** Meaning of the emitted bytes: a 6502 control-flow machine running them follows the source statement
    by statement, whichever branches ended up long and whichever short. */
module Machine {
  import opened Support
  import opened Expressions
  import opened Opcodes
  import opened Program
  import opened Layout
  import opened Emission
  import opened Agreement
  import opened Tiling
  import opened Labels
  import opened RelaxSafety
  import opened RelaxRun
  import opened RelaxFixpoint

  // ---- the processor

  datatype Flags = Flags(n: bool, v: bool, z: bool, c: bool)

  /** A processor over an abstract register and memory state: its flags, the addressing form it decodes
      from an opcode byte, and what a straight-line instruction does. */
  datatype Cpu<!S> = Cpu(flags: S -> Flags, form: byte -> Option<EmitMode>, effect: (byte, int, S) -> S)

  datatype Mach<S> = Mach(pc: int, state: S)

  /** The eight relative branches by opcode byte, and when they are taken. */
  function BranchTaken(op: byte, f: Flags): Option<bool> {
    if op == 0x10 then Some(!f.n) else if op == 0x30 then Some(f.n)
    else if op == 0x50 then Some(!f.v) else if op == 0x70 then Some(f.v)
    else if op == 0x90 then Some(!f.c) else if op == 0xB0 then Some(f.c)
    else if op == 0xD0 then Some(!f.z) else if op == 0xF0 then Some(f.z)
    else None
  }

  const JMP_BYTE: byte := 0x4C

  /** BRK, JSR, RTI, RTS and indirect JMP transfer control through memory; the machine stops at them. */
  predicate LeavesMachine(op: byte) { op == 0x00 || op == 0x20 || op == 0x40 || op == 0x60 || op == 0x6C }

  function Wrap(a: int): int { a % 0x10000 }

  function Word(lo: byte, hi: byte): int { (lo as int) + 256 * (hi as int) }

  /** One instruction; None where the machine stops. */
  function MachineStep<S>(cpu: Cpu<S>, img: Image, m: Mach<S>): Option<Mach<S>> {
    if m.pc !in img then None
    else
      var op := img[m.pc];
      var taken := BranchTaken(op, cpu.flags(m.state));
      if taken.Some? then
        if Wrap(m.pc + 1) !in img then None
        else Some(m.(pc := Wrap(m.pc + 2 + if taken.value then Signed(img[Wrap(m.pc + 1)]) else 0)))
      else if op == JMP_BYTE then
        if Wrap(m.pc + 1) !in img || Wrap(m.pc + 2) !in img then None
        else Some(m.(pc := Word(img[Wrap(m.pc + 1)], img[Wrap(m.pc + 2)])))
      else if LeavesMachine(op) then None
      else
        match cpu.form(op)
        case None => None
        case Some(f) =>
          var len := ModeSize(f);
          if len > 1 && Wrap(m.pc + 1) !in img then None
          else if len > 2 && Wrap(m.pc + 2) !in img then None
          else
            var operand := if len == 1 then 0 else if len == 2 then img[Wrap(m.pc + 1)]
                           else Word(img[Wrap(m.pc + 1)], img[Wrap(m.pc + 2)]);
            Some(Mach(Wrap(m.pc + len), cpu.effect(op, operand, m.state)))
  }

  function MachineRun<S>(cpu: Cpu<S>, img: Image, m: Mach<S>, k: nat): Option<Mach<S>>
    decreases k
  {
    if k == 0 then Some(m)
    else
      match MachineStep(cpu, img, m)
      case None => None
      case Some(m') => MachineRun(cpu, img, m', k - 1)
  }

  lemma {:induction false} RunsCompose<S>(cpu: Cpu<S>, img: Image, m: Mach<S>, j: nat, k: nat)
    requires MachineRun(cpu, img, m, j).Some?
    ensures MachineRun(cpu, img, m, j + k) == MachineRun(cpu, img, MachineRun(cpu, img, m, j).value, k)
    decreases j
  {
    hide MachineStep;
    if j > 0 { RunsCompose(cpu, img, MachineStep(cpu, img, m).value, j - 1, k); }
  }

  // ---- the source

  /** When a branch mnemonic is taken. */
  predicate Holds(b: Branch, f: Flags) {
    match b
    case BCC => !f.c
    case BCS => f.c
    case BEQ => f.z
    case BMI => f.n
    case BNE => !f.z
    case BPL => !f.n
    case BVC => !f.v
    case BVS => f.v
  }

  function StandardByte(b: Branch): byte {
    match b
    case BCC => 0x90
    case BCS => 0xB0
    case BEQ => 0xF0
    case BMI => 0x30
    case BNE => 0xD0
    case BPL => 0x10
    case BVC => 0x50
    case BVS => 0x70
  }

  /** Inversion is exact: the inverted byte is taken precisely when the branch is not. */
  lemma InversionExact(b: Branch, f: Flags)
    ensures BranchTaken(StandardByte(b), f) == Some(Holds(b, f))
    ensures BranchTaken(InvertedByte(b), f) == Some(!Holds(b, f))
  {
  }

  /** Statements behind which no instruction follows: data and origins. */
  predicate IsBarrier(s: Stmt) {
    s.kind.Dir? &&
    (match s.kind.dir.name
     case DByte | DWord | DBankTarget | DText | DAsciiz | DRes | DAlign | DOrg => true
     case _ => false)
  }

  /** A point of the source: in front of statement `index`, in the text of one segment. */
  datatype Source<S> = Source(segment: string, index: nat, state: S)

  /** The operand value of instruction `i`, read where pass 2 reads it. */
  function ValueOf(cfg: Config, c1: Context, i: nat, skip: int): EvalResult
    requires i < |c1.prog| && c1.prog[i].kind.Insn? && c1.prog[i].kind.operand.Some?
  {
    var s := c1.prog[i];
    Eval(s.kind.operand.value, EmitAt(cfg, c1, i).syms, s.scope, s.file, s.address + skip)
  }

  predicate IsJump(s: Stmt) { s.kind.Insn? && s.kind.opcode == "JMP" && s.kind.mode == Abs }

  predicate IsBranch(s: Stmt) { s.kind.Insn? && BranchOf(s.kind.opcode).Some? && (s.kind.mode == Rel || s.kind.mode == RelLong) }

  /** Control reaches the label that the operand of `a`'s instruction names, in whatever segment it lies. */
  predicate GoesTo<S>(cfg: Config, c: Context, a: Source<S>, b: Source<S>) {
    RefersTo(cfg, c, a.index, b.index) && b.index < |c.prog| && b.segment == c.prog[b.index].segment
  }

  predicate FallsThrough<S>(a: Source<S>, b: Source<S>) { b.segment == a.segment && b.index == a.index + 1 }

  /** One source step from `a` to `b`: statements of other segments and silent statements fall through, a branch goes to
      the statement its label names when its condition holds, and any other instruction acts on the state and falls
      through. */
  ghost predicate Next<S>(cfg: Config, c: Context, cpu: Cpu<S>, a: Source<S>, b: Source<S>) {
    a.index < |c.prog| && b.index <= |c.prog| &&
    var c1 := Pass1(cfg, c);
    var s := c1.prog[a.index];
    if c.prog[a.index].segment != a.segment then FallsThrough(a, b) && b.state == a.state
    else if !s.active || !s.kind.Insn? then !(s.active && IsBarrier(s)) && FallsThrough(a, b) && b.state == a.state
    else if IsBranch(s) then
      b.state == a.state &&
      (if Holds(BranchOf(s.kind.opcode).value, cpu.flags(a.state)) then GoesTo(cfg, c, a, b) else FallsThrough(a, b))
    else if IsJump(s) then b.state == a.state && GoesTo(cfg, c, a, b)
    else
      FallsThrough(a, b) && Straight(cfg, s) &&
      b.state == cpu.effect(Lookup(cfg.table, s.kind.opcode, s.kind.mode).value, ActingOperand(cfg, c1, a.index), a.state)
  }

  /** An instruction that neither branches nor leaves the machine; its byte has one configured form, as every byte of a
      loaded table has. */
  predicate Straight(cfg: Config, s: Stmt)
    requires s.kind.Insn?
  {
    var b := Lookup(cfg.table, s.kind.opcode, s.kind.mode);
    b.Some? && s.kind.mode != Rel && s.kind.mode != RelLong && ReverseMap(cfg.table, b.value) == One(s.kind.mode) &&
    BranchTaken(b.value, Flags(false, false, false, false)).None? && b.value != JMP_BYTE && !LeavesMachine(b.value)
  }

  /** The operand as the processor receives it: its low byte or its low word. */
  function ActingOperand(cfg: Config, c1: Context, i: nat): int
    requires i < |c1.prog| && c1.prog[i].kind.Insn?
  {
    var s := c1.prog[i];
    if ModeSize(s.kind.mode) == 1 || s.kind.operand.None? then 0
    else
      match ValueOf(cfg, c1, i, 1)
      case Ok(v) => if ModeSize(s.kind.mode) == 2 then v % 256 else v % 0x10000
      case _ => 0
  }

  // ---- assumptions

  /** The opcode table describes this processor. */
  ghost predicate Describes<S>(table: Table, cpu: Cpu<S>) {
    (forall b: byte, m :: ReverseMap(table, b) == One(m) ==> cpu.form(b) == Some(m)) &&
    (forall n :: BranchOf(n).Some? && Lookup(table, n, Rel).Some? ==> Lookup(table, n, Rel).value == StandardByte(BranchOf(n).value)) &&
    (Lookup(table, "JMP", Abs).Some? ==> Lookup(table, "JMP", Abs).value == JMP_BYTE)
  }

  /** The processor a table describes, whatever its other instructions do. */
  function ProcessorOf<S>(table: Table, flags: S -> Flags, effect: (byte, int, S) -> S): Cpu<S> {
    Cpu(flags, (b: byte) => match ReverseMap(table, b) case One(m) => Some(m) case _ => None, effect)
  }

  /** A table with the standard branch and `JMP` bytes describes a processor. */
  lemma ProcessorDescribed<S>(table: Table, flags: S -> Flags, effect: (byte, int, S) -> S)
    requires forall n :: BranchOf(n).Some? && Lookup(table, n, Rel).Some? ==>
               Lookup(table, n, Rel).value == StandardByte(BranchOf(n).value)
    requires Lookup(table, "JMP", Abs).Some? ==> Lookup(table, "JMP", Abs).value == JMP_BYTE
    ensures Describes(table, ProcessorOf(table, flags, effect))
  {
    hide Lookup, BranchOf, ReverseMap;
  }

  /** An error-free flat assembly in which no statement overwrites another's bytes with different ones. */
  ghost predicate Runnable(cfg: Config, c: Context) {
    !cfg.objectMode && SizesMatch(c.prog) && Pass1(cfg, c).errors == c.errors &&
    Pass2(cfg, Pass1(cfg, c)).errors == c.errors && Agreeing(cfg, Pass1(cfg, c))
  }

  /** The instructions of segment `name` lie below 64 KiB, and it sets no logical origin. */
  predicate Plain(cfg: Config, c: Context, name: string) {
    name in c.segs &&
    forall i :: 0 <= i < |c.prog| && c.prog[i].segment == name ==>
      NoLogicalOrigin(c.prog[i]) && EndsInSpace(Pass1(cfg, c).prog[i])
  }

  predicate EndsInSpace(s: Stmt) { s.active && s.kind.Insn? ==> s.emitAddress + s.kind.size <= 0x10000 }

  function AddressOf(cfg: Config, c: Context, name: string, i: nat): int
    requires i <= |c.prog| && name in c.segs
  {
    c.segs[name].base + Off(cfg, c, name, i)
  }

  // ---- what sits in memory

  lemma RunnableParts(cfg: Config, c: Context)
    requires Runnable(cfg, c)
    ensures Pass1(cfg, c).errors == c.errors && SizesMatch(c.prog) && !cfg.objectMode
    ensures Pass2(cfg, Pass1(cfg, c)).errors == Pass1(cfg, c).errors && AllIntact(cfg, Pass1(cfg, c))
  {
    hide Pass1, Pass2, Agreeing, SizesMatch, AllIntact;
    IntactExact(cfg, Pass1(cfg, c));
  }

  /** Flat programs whose origins step forward need no further check. */
  lemma FlatRuns(cfg: Config, c: Context)
    requires GoodFlat(cfg, c) && !cfg.objectMode
    ensures Runnable(cfg, c)
  {
    hide Pass1, Pass2, Agreeing, SizesMatch, AllIntact, Forward, Apart, Settled, Orderly;
    FlatFacts(cfg, c);
    NothingLost(cfg, c);
  }

  /** Without logical origins every instruction's address is where its bytes go. */
  lemma AddressOfStatement(cfg: Config, c: Context, name: string, i: nat)
    requires Runnable(cfg, c) && Plain(cfg, c, name) && i < |c.prog| && c.prog[i].segment == name
    ensures name in c.segs && name in At(cfg, Start(cfg, c), c.prog, i).segs
    ensures Pass1(cfg, c).prog[i].emitAddress == AddressOf(cfg, c, name, i)
    ensures c.prog[i].kind.Insn? ==> Pass1(cfg, c).prog[i].address == AddressOf(cfg, c, name, i)
    ensures !At(cfg, Start(cfg, c), c.prog, i).segs[name].rorgActive
  {
    hide Runnable, Pass1, At, Start, Laid, Step;
    RunnableParts(cfg, c);
    SegsStay(cfg, c, i);
    UnknownSegment(cfg, c, i);
    LaidAt(cfg, c, i);
    LaidStays(cfg, c, i);
    LaidShape(cfg, At(cfg, Start(cfg, c), c.prog, i), c.prog[i]);
    OffsetKept(cfg, c, name, 0, i);
    StartsPlain(cfg, c, name);
  }

  lemma StartsPlain(cfg: Config, c: Context, name: string)
    requires name in c.segs
    ensures name in At(cfg, Start(cfg, c), c.prog, 0).segs && !At(cfg, Start(cfg, c), c.prog, 0).segs[name].rorgActive
  {
    hide Publish;
  }

  /** Away from data and origins a segment moves by the bytes a statement writes. */
  lemma MovedByBytes(cfg: Config, c: Context, name: string, i: nat)
    requires Runnable(cfg, c) && name in c.segs && i < |c.prog| && c.prog[i].segment == name
    requires !(Pass1(cfg, c).prog[i].active && IsBarrier(Pass1(cfg, c).prog[i]))
    ensures Off(cfg, c, name, i + 1) == Off(cfg, c, name, i) + |BytesOf(cfg, Pass1(cfg, c), i)|
  {
    hide Runnable, Pass1, Pass2, BytesOf, At, Start, MotionOf, Off;
    RunnableParts(cfg, c);
    StatementSeen(cfg, c, i);
    OffMoved(cfg, name, c, i);
    MotionKinds(cfg, c, i);
    if SizedByValue(c.prog[i]) || MotionOf(cfg, c, i).Jump? {
      InactiveSilent(cfg, c, i);
      InactiveKeeps(cfg, c, i);
    } else {
      ReservedAnyway(cfg, c, i);
    }
  }

  lemma InactiveKeeps(cfg: Config, c: Context, i: nat)
    requires i < |c.prog| && !IsConditionalStmt(c.prog[i])
    requires !CurrentActive(At(cfg, Start(cfg, c), c.prog, i).stack)
    ensures MotionOf(cfg, c, i) == Keep
  {
    hide At, Start;
  }

  /** The addresses of consecutive statements of a segment, and the bytes between them. */
  lemma StatementPlaced(cfg: Config, c: Context, name: string, i: nat)
    requires Runnable(cfg, c) && Plain(cfg, c, name) && i < |c.prog| && c.prog[i].segment == name
    requires !(Pass1(cfg, c).prog[i].active && IsBarrier(Pass1(cfg, c).prog[i]))
    ensures name in c.segs
    ensures var c1 := Pass1(cfg, c); var a := AddressOf(cfg, c, name, i); var bs := BytesOf(cfg, c1, i);
            c1.prog[i].emitAddress == a && AddressOf(cfg, c, name, i + 1) == a + |bs|
    ensures var c1 := Pass1(cfg, c); var a := AddressOf(cfg, c, name, i); var bs := BytesOf(cfg, c1, i);
            forall y :: a <= y < a + |bs| ==> y in Pass2(cfg, c1).image && Pass2(cfg, c1).image[y] == bs[y - a]
  {
    hide Pass1, Pass2, BytesOf, Runnable, Off, Plain;
    RunnableParts(cfg, c);
    AddressOfStatement(cfg, c, name, i);
    MovedByBytes(cfg, c, name, i);
    var c1 := Pass1(cfg, c);
    var a, bs := AddressOf(cfg, c, name, i), BytesOf(cfg, c1, i);
    forall y | a <= y < a + |bs|
      ensures y in Pass2(cfg, c1).image && Pass2(cfg, c1).image[y] == bs[y - a]
    {
      assert Occupies(cfg, c1, i, y);
    }
  }

  /** A statement of another segment does not move this one. */
  lemma ElsewherePlaced(cfg: Config, c: Context, name: string, i: nat)
    requires Runnable(cfg, c) && Plain(cfg, c, name) && i < |c.prog| && c.prog[i].segment != name
    ensures name in c.segs && AddressOf(cfg, c, name, i + 1) == AddressOf(cfg, c, name, i)
  {
    hide Pass1, Pass2, At, Start, Runnable, MotionOf, Off, Plain;
    RunnableParts(cfg, c);
    UnknownSegment(cfg, c, i);
    SegsStay(cfg, c, i);
    PlainName(cfg, c, name);
    OffMoved(cfg, name, c, i);
  }

  /** The bytes of an active instruction, all of them valid and inside the processor's address space. */
  lemma InsnPlaced(cfg: Config, c: Context, name: string, i: nat)
    requires Runnable(cfg, c) && Plain(cfg, c, name) && i < |c.prog| && c.prog[i].segment == name
    requires Pass1(cfg, c).prog[i].kind.Insn? && Pass1(cfg, c).prog[i].active
    ensures var c1 := Pass1(cfg, c); var e := InsnBytes(cfg, EmitAt(cfg, c1, i).syms, c1.prog[i]);
            e.ok && BytesOf(cfg, c1, i) == e.bytes && c1.prog[i].kind == c.prog[i].kind
    ensures name in c.segs && Pass1(cfg, c).prog[i].address == AddressOf(cfg, c, name, i)
    ensures 0 <= AddressOf(cfg, c, name, i)
    ensures AddressOf(cfg, c, name, i) + |BytesOf(cfg, Pass1(cfg, c), i)| <= 0x10000
  {
    hide Pass1, Pass2, EmitAt, Runnable, InsnBytes, Write, Plain, Off;
    RunnableParts(cfg, c);
    EmissionQuiet(cfg, Pass1(cfg, c), i);
    PassStmt(cfg, c, i);
    AddressOfStatement(cfg, c, name, i);
    InsnLength(cfg, EmitAt(cfg, Pass1(cfg, c), i).syms, Pass1(cfg, c).prog[i]);
    WriteStarts(EmitAt(cfg, Pass1(cfg, c), i).image, Pass1(cfg, c).prog[i].emitAddress, BytesOf(cfg, Pass1(cfg, c), i));
    InsnInSpace(cfg, c, name, i);
  }

  lemma WriteStarts(img: Image, a: int, bytes: seq<byte>)
    requires Write(img, a, bytes).1 && bytes != []
    ensures InImage(a)
  {
  }

  lemma InsnInSpace(cfg: Config, c: Context, name: string, i: nat)
    requires Plain(cfg, c, name) && i < |c.prog| && c.prog[i].segment == name && SizesMatch(c.prog)
    requires Pass1(cfg, c).prog[i].kind.Insn? && Pass1(cfg, c).prog[i].active
    requires Pass1(cfg, c).prog[i].kind == c.prog[i].kind
    ensures Pass1(cfg, c).prog[i].emitAddress + ModeSize(Pass1(cfg, c).prog[i].kind.mode) <= 0x10000
  {
    hide Pass1;
  }

  /** A label operand's value is its statement's address, in pass 2 as in pass 1. */
  lemma TargetValue(cfg: Config, c: Context, name: string, i: nat, j: nat, skip: int)
    requires Runnable(cfg, c) && Plain(cfg, c, name) && RefersTo(cfg, c, i, j)
    requires (j < |c.prog| ==> c.prog[j].segment == name)
    requires i < |c.prog| && Pass1(cfg, c).prog[i].kind == c.prog[i].kind && c.prog[i].kind.Insn?
    requires c.prog[i].kind.operand.Some?
    ensures j < |c.prog| && name in c.segs && ValueOf(cfg, Pass1(cfg, c), i, skip) == Ok(AddressOf(cfg, c, name, j))
  {
    hide Pass1, EmitAt, Runnable, At, Start, FinalSyms, StorageKey, Resolve, Plain;
    RunnableParts(cfg, c);
    EmissionKeepsRest(cfg, Pass1(cfg, c), i);
    PassSyms(cfg, c);
    var x := c.prog[i].kind.operand.value.name;
    var k := Resolve(FinalSyms(cfg, c).Keys, c.prog[i].scope, c.prog[i].file, x);
    LabelFinal(cfg, c, j, k);
    AddressOfStatement(cfg, c, name, j);
    SegsStay(cfg, c, j);
    AddressImmutable(At(cfg, Start(cfg, c), c.prog, j).segs[name], c.prog[j]);
    PassScope(cfg, c, i);
    assert SeesEntry(EmitAt(cfg, Pass1(cfg, c), i).syms[k], FinalSyms(cfg, c)[k]);
  }

  // ---- instruction by instruction

  predicate Loaded(img: Image, a: int, bs: seq<byte>) {
    0 <= a && a + |bs| <= 0x10000 && forall y :: a <= y < a + |bs| ==> y in img && img[y] == bs[y - a]
  }

  lemma WordOfValue(v: int)
    ensures Word(LowByte(v), HighByte(v)) == v % 0x10000
  {
  }

  lemma SignedLow(d: int)
    requires -128 <= d <= 127
    ensures Signed(LowByte(d)) == d
  {
  }

  lemma StepShort<S>(cpu: Cpu<S>, img: Image, a: int, b: Branch, disp: byte, s: S)
    requires Loaded(img, a, [StandardByte(b), disp])
    ensures MachineStep(cpu, img, Mach(a, s)) ==
              Some(Mach(Wrap(a + 2 + if Holds(b, cpu.flags(s)) then Signed(disp) else 0), s))
  {
    InversionExact(b, cpu.flags(s));
    assert a in img && img[a] == StandardByte(b) && a + 1 in img && img[a + 1] == disp;
    hide BranchTaken;
  }

  lemma StepLong<S>(cpu: Cpu<S>, img: Image, a: int, b: Branch, lo: byte, hi: byte, s: S)
    requires Loaded(img, a, [InvertedByte(b), 3, JMP_BYTE, lo, hi])
    ensures if Holds(b, cpu.flags(s)) then MachineRun(cpu, img, Mach(a, s), 2) == Some(Mach(Word(lo, hi), s))
            else MachineRun(cpu, img, Mach(a, s), 1) == Some(Mach(Wrap(a + 5), s))
  {
    var bs := [InvertedByte(b), 3, JMP_BYTE, lo, hi];
    InversionExact(b, cpu.flags(s));
    assert a in img && img[a] == bs[0] && a + 1 in img && img[a + 1] == bs[1] && a + 2 in img && img[a + 2] == bs[2];
    assert a + 3 in img && img[a + 3] == bs[3] && a + 4 in img && img[a + 4] == bs[4];
    var m := Mach(a, s);
    if Holds(b, cpu.flags(s)) {
      var m1 := Mach(a + 2, s);
      assert MachineStep(cpu, img, m) == Some(m1);
      StepJump(cpu, img, a + 2, lo, hi, s);
      var m2 := Mach(Word(lo, hi), s);
      hide MachineStep;
      assert MachineRun(cpu, img, m2, 0) == Some(m2);
      assert MachineRun(cpu, img, m1, 1) == Some(m2);
    } else {
      var m1 := Mach(Wrap(a + 5), s);
      assert MachineStep(cpu, img, m) == Some(m1);
      hide MachineStep;
      assert MachineRun(cpu, img, m1, 0) == Some(m1);
    }
  }

  lemma StepJump<S>(cpu: Cpu<S>, img: Image, a: int, lo: byte, hi: byte, s: S)
    requires Loaded(img, a, [JMP_BYTE, lo, hi])
    ensures MachineStep(cpu, img, Mach(a, s)) == Some(Mach(Word(lo, hi), s))
  {
    assert a in img && img[a] == JMP_BYTE && a + 1 in img && img[a + 1] == lo && a + 2 in img && img[a + 2] == hi;
  }

  lemma StepStraight<S>(cpu: Cpu<S>, img: Image, a: int, op: byte, form: EmitMode, bs: seq<byte>, operand: int, s: S)
    requires Loaded(img, a, bs) && |bs| == ModeSize(form) <= 3 && bs[0] == op && cpu.form(op) == Some(form)
    requires BranchTaken(op, Flags(false, false, false, false)).None? && op != JMP_BYTE && !LeavesMachine(op)
    requires operand == if |bs| == 1 then 0 else if |bs| == 2 then bs[1] else Word(bs[1], bs[2])
    ensures MachineStep(cpu, img, Mach(a, s)) == Some(Mach(Wrap(a + |bs|), cpu.effect(op, operand, s)))
  {
    assert a in img && img[a] == op;
    assert |bs| > 1 ==> a + 1 in img && img[a + 1] == bs[1];
    assert |bs| > 2 ==> a + 2 in img && img[a + 2] == bs[2];
    assert BranchTaken(op, cpu.flags(s)).None?;
    hide BranchTaken;
  }

  /** What pass 2 wrote for an instruction, by kind. */
  lemma BranchBytes(cfg: Config, syms: Symtab, s: Stmt, cpuByte: byte)
    requires s.kind.Insn? && InsnBytes(cfg, syms, s).ok && IsBranch(s)
    requires s.kind.mode == Rel ==> Lookup(cfg.table, s.kind.opcode, Rel) == Some(cpuByte)
    requires s.kind.mode == RelLong ==> Lookup(cfg.table, "JMP", Abs) == Some(cpuByte)
    ensures s.kind.operand.Some?
    ensures s.kind.mode == Rel ==>
              var v := Eval(s.kind.operand.value, syms, s.scope, s.file, s.address + 1);
              v.Ok? && BranchFits(s.address + 2, v.value) &&
              InsnBytes(cfg, syms, s).bytes == [cpuByte, LowByte(Disp16(s.address + 2, v.value))]
    ensures s.kind.mode == RelLong ==>
              var v := Eval(s.kind.operand.value, syms, s.scope, s.file, s.address + 3);
              v.Ok? && InsnBytes(cfg, syms, s).bytes ==
                [InvertedByte(BranchOf(s.kind.opcode).value), 3, cpuByte, LowByte(v.value), HighByte(v.value)]
  {
    hide Eval, Lookup, BranchOf, Disp16;
  }

  lemma StraightBytes(cfg: Config, syms: Symtab, s: Stmt)
    requires s.kind.Insn? && InsnBytes(cfg, syms, s).ok && s.kind.mode != RelLong && s.kind.mode != Rel
    ensures var bs := InsnBytes(cfg, syms, s).bytes;
            |bs| == ModeSize(s.kind.mode) <= 3 && Lookup(cfg.table, s.kind.opcode, s.kind.mode) == Some(bs[0]) &&
            (|bs| > 1 ==> s.kind.operand.Some?)
    ensures var bs := InsnBytes(cfg, syms, s).bytes;
            |bs| > 1 ==>
              var v := Eval(s.kind.operand.value, syms, s.scope, s.file, s.address + 1);
              v.Ok? && bs[1] == LowByte(v.value) && (|bs| > 2 ==> bs[2] == HighByte(v.value))
  {
    hide Eval, Lookup;
  }

  /** One source step is matched by at most two machine instructions. */
  lemma StepSimulated<S>(cfg: Config, c: Context, cpu: Cpu<S>, a: Source<S>, b: Source<S>) returns (k: nat)
    requires Runnable(cfg, c) && Plain(cfg, c, a.segment) && Plain(cfg, c, b.segment) && Describes(cfg.table, cpu)
    requires Next(cfg, c, cpu, a, b)
    ensures a.segment in c.segs && b.segment in c.segs && a.index < |c.prog| && b.index <= |c.prog| && k <= 2
    ensures MachineRun(cpu, Pass2(cfg, Pass1(cfg, c)).image, Mach(Wrap(AddressOf(cfg, c, a.segment, a.index)), a.state), k) ==
              Some(Mach(Wrap(AddressOf(cfg, c, b.segment, b.index)), b.state))
  {
    hide Runnable, Plain, Pass1, Pass2, Describes, InsnBytes, RefersTo, BytesOf, Off, MachineStep, StmtBytes;
    var img := Pass2(cfg, Pass1(cfg, c)).image;
    PlainName(cfg, c, a.segment);
    PlainName(cfg, c, b.segment);
    var m := Mach(Wrap(AddressOf(cfg, c, a.segment, a.index)), a.state);
    var s := Pass1(cfg, c).prog[a.index];
    if c.prog[a.index].segment != a.segment {
      ElsewherePlaced(cfg, c, a.segment, a.index);
      RunNone(cpu, img, m);
      k := 0;
    } else if !s.active || !s.kind.Insn? {
      StatementPlaced(cfg, c, a.segment, a.index);
      SilentBytes(cfg, c, a.index);
      RunNone(cpu, img, m);
      k := 0;
    } else if IsBranch(s) {
      k := BranchSimulated(cfg, c, cpu, a, b);
    } else if IsJump(s) {
      JumpSimulated(cfg, c, cpu, a, b);
      RunOne(cpu, img, m);
      k := 1;
    } else {
      StraightSimulated(cfg, c, cpu, a, b);
      RunOne(cpu, img, m);
      k := 1;
    }
  }

  lemma PlainName(cfg: Config, c: Context, name: string)
    requires Plain(cfg, c, name)
    ensures name in c.segs
  {
    hide Pass1;
  }

  lemma RunNone<S>(cpu: Cpu<S>, img: Image, m: Mach<S>)
    ensures MachineRun(cpu, img, m, 0) == Some(m)
  {
  }

  lemma RunOne<S>(cpu: Cpu<S>, img: Image, m: Mach<S>)
    ensures MachineRun(cpu, img, m, 1) == MachineStep(cpu, img, m)
  {
    hide MachineStep;
    if MachineStep(cpu, img, m).Some? {
      var m1 := MachineStep(cpu, img, m).value;
      assert MachineRun(cpu, img, m1, 0) == Some(m1);
    }
  }

  /** Labels, equates, inactive code and directives without data write nothing. */
  lemma SilentBytes(cfg: Config, c: Context, i: nat)
    requires i < |c.prog|
    requires var s := Pass1(cfg, c).prog[i]; (!s.active || !s.kind.Insn?) && !(s.active && IsBarrier(s))
    ensures BytesOf(cfg, Pass1(cfg, c), i) == []
  {
    hide Pass1, EmitAt;
  }

  lemma BranchSimulated<S>(cfg: Config, c: Context, cpu: Cpu<S>, a: Source<S>, b: Source<S>) returns (k: nat)
    requires Runnable(cfg, c) && Plain(cfg, c, a.segment) && Plain(cfg, c, b.segment) && Describes(cfg.table, cpu)
    requires Next(cfg, c, cpu, a, b) && a.index < |c.prog| && c.prog[a.index].segment == a.segment
    requires a.index < |c.prog| && Pass1(cfg, c).prog[a.index].active && IsBranch(Pass1(cfg, c).prog[a.index])
    ensures a.segment in c.segs && b.segment in c.segs && b.index <= |c.prog| && k <= 2
    ensures MachineRun(cpu, Pass2(cfg, Pass1(cfg, c)).image, Mach(Wrap(AddressOf(cfg, c, a.segment, a.index)), a.state), k) ==
              Some(Mach(Wrap(AddressOf(cfg, c, b.segment, b.index)), b.state))
  {
    hide Runnable, Plain, Pass1, Pass2, InsnBytes, RefersTo, BytesOf, Off, MachineStep, MachineRun, StmtBytes, EmitAt,
         BranchOf, Lookup, Describes, Eval, Disp16, LowByte, HighByte;
    if Pass1(cfg, c).prog[a.index].kind.mode == Rel {
      ShortSimulated(cfg, c, cpu, a, b);
      k := 1;
    } else {
      k := LongSimulated(cfg, c, cpu, a, b);
    }
  }

  /** A short branch is one machine instruction. */
  lemma ShortSimulated<S>(cfg: Config, c: Context, cpu: Cpu<S>, a: Source<S>, b: Source<S>)
    requires Runnable(cfg, c) && Plain(cfg, c, a.segment) && Plain(cfg, c, b.segment) && Describes(cfg.table, cpu)
    requires Next(cfg, c, cpu, a, b) && a.index < |c.prog| && c.prog[a.index].segment == a.segment
    requires a.index < |c.prog| && Pass1(cfg, c).prog[a.index].active && IsBranch(Pass1(cfg, c).prog[a.index])
    requires Pass1(cfg, c).prog[a.index].kind.mode == Rel
    ensures a.segment in c.segs && b.segment in c.segs && b.index <= |c.prog|
    ensures MachineRun(cpu, Pass2(cfg, Pass1(cfg, c)).image, Mach(Wrap(AddressOf(cfg, c, a.segment, a.index)), a.state), 1) ==
              Some(Mach(Wrap(AddressOf(cfg, c, b.segment, b.index)), b.state))
  {
    hide Runnable, Plain, Pass1, Pass2, InsnBytes, RefersTo, BytesOf, Off, MachineStep, MachineRun, StmtBytes, EmitAt,
         BranchOf, Lookup, Describes, Eval, Disp16, LowByte, HighByte;
    var i := a.index;
    var c1 := Pass1(cfg, c);
    var s := c1.prog[i];
    var br := BranchOf(s.kind.opcode).value;
    StatementPlaced(cfg, c, a.segment, i);
    InsnPlaced(cfg, c, a.segment, i);
    var img, adr := Pass2(cfg, c1).image, AddressOf(cfg, c, a.segment, i);
    var e := EmitAt(cfg, c1, i).syms;
    var bs := BytesOf(cfg, c1, i);
    var taken := Holds(br, cpu.flags(a.state));
    var jmp := HeadByte(cfg, e, s, cpu);
    BranchBytes(cfg, e, s, jmp);
    assert Loaded(img, adr, bs);
    var v := Eval(s.kind.operand.value, e, s.scope, s.file, s.address + 1).value;
    StepShort(cpu, img, adr, br, bs[1], a.state);
    SignedLow(Disp16(adr + 2, v));
    if taken {
      RefersInside(cfg, c, i, b.index);
      TargetValue(cfg, c, b.segment, i, b.index, 1);
      ReachesTarget(adr + 2, v);
    }
    RunOne(cpu, img, Mach(Wrap(adr), a.state));
  }

  /** A long branch is one instruction when not taken and two when taken. */
  lemma LongSimulated<S>(cfg: Config, c: Context, cpu: Cpu<S>, a: Source<S>, b: Source<S>) returns (k: nat)
    requires Runnable(cfg, c) && Plain(cfg, c, a.segment) && Plain(cfg, c, b.segment) && Describes(cfg.table, cpu)
    requires Next(cfg, c, cpu, a, b) && a.index < |c.prog| && c.prog[a.index].segment == a.segment
    requires a.index < |c.prog| && Pass1(cfg, c).prog[a.index].active && IsBranch(Pass1(cfg, c).prog[a.index])
    requires Pass1(cfg, c).prog[a.index].kind.mode == RelLong
    ensures a.segment in c.segs && b.segment in c.segs && b.index <= |c.prog| && k <= 2
    ensures MachineRun(cpu, Pass2(cfg, Pass1(cfg, c)).image, Mach(Wrap(AddressOf(cfg, c, a.segment, a.index)), a.state), k) ==
              Some(Mach(Wrap(AddressOf(cfg, c, b.segment, b.index)), b.state))
  {
    hide Runnable, Plain, Pass1, Pass2, InsnBytes, RefersTo, BytesOf, Off, MachineStep, MachineRun, StmtBytes, EmitAt,
         BranchOf, Lookup, Describes, Eval, Disp16, LowByte, HighByte;
    var i := a.index;
    var c1 := Pass1(cfg, c);
    var s := c1.prog[i];
    var br := BranchOf(s.kind.opcode).value;
    StatementPlaced(cfg, c, a.segment, i);
    InsnPlaced(cfg, c, a.segment, i);
    var img, adr := Pass2(cfg, c1).image, AddressOf(cfg, c, a.segment, i);
    var e := EmitAt(cfg, c1, i).syms;
    var bs := BytesOf(cfg, c1, i);
    var taken := Holds(br, cpu.flags(a.state));
    var jmp := HeadByte(cfg, e, s, cpu);
    BranchBytes(cfg, e, s, jmp);
    assert Loaded(img, adr, bs);
    var v := Eval(s.kind.operand.value, e, s.scope, s.file, s.address + 3).value;
    StepLong(cpu, img, adr, br, bs[3], bs[4], a.state);
    WordOfValue(v);
    if taken {
      RefersInside(cfg, c, i, b.index);
      TargetValue(cfg, c, b.segment, i, b.index, 3);
    }
    k := if taken then 2 else 1;
  }

  lemma ReachesTarget(after: int, target: int)
    ensures Wrap(after + Disp16(after, target)) == Wrap(target)
  {
  }

  lemma RefersInside(cfg: Config, c: Context, i: nat, j: nat)
    requires RefersTo(cfg, c, i, j)
    ensures j < |c.prog|
  {
    hide FinalSyms;
  }

  /** The byte a branch depends on: its own for a short one, `JMP` for a long one. */
  lemma HeadByte<S>(cfg: Config, syms: Symtab, s: Stmt, cpu: Cpu<S>) returns (b: byte)
    requires s.kind.Insn? && InsnBytes(cfg, syms, s).ok && IsBranch(s) && Describes(cfg.table, cpu)
    ensures s.kind.mode == Rel ==>
              Lookup(cfg.table, s.kind.opcode, Rel) == Some(b) && b == StandardByte(BranchOf(s.kind.opcode).value)
    ensures s.kind.mode == RelLong ==> Lookup(cfg.table, "JMP", Abs) == Some(b) && b == JMP_BYTE
  {
    hide Eval, Lookup, BranchOf;
    b := if s.kind.mode == Rel then Lookup(cfg.table, s.kind.opcode, Rel).value else Lookup(cfg.table, "JMP", Abs).value;
  }

  lemma JumpSimulated<S>(cfg: Config, c: Context, cpu: Cpu<S>, a: Source<S>, b: Source<S>)
    requires Runnable(cfg, c) && Plain(cfg, c, a.segment) && Plain(cfg, c, b.segment) && Describes(cfg.table, cpu)
    requires Next(cfg, c, cpu, a, b) && a.index < |c.prog| && c.prog[a.index].segment == a.segment
    requires a.index < |c.prog| && Pass1(cfg, c).prog[a.index].active && IsJump(Pass1(cfg, c).prog[a.index])
    ensures a.segment in c.segs && b.segment in c.segs && b.index <= |c.prog|
    ensures MachineStep(cpu, Pass2(cfg, Pass1(cfg, c)).image, Mach(Wrap(AddressOf(cfg, c, a.segment, a.index)), a.state)) ==
              Some(Mach(Wrap(AddressOf(cfg, c, b.segment, b.index)), b.state))
  {
    hide Runnable, Plain, Pass1, Pass2, InsnBytes, RefersTo, BytesOf, Off, MachineStep, StmtBytes, EmitAt, Lookup, Eval;
    var i := a.index;
    var c1 := Pass1(cfg, c);
    StatementPlaced(cfg, c, a.segment, i);
    InsnPlaced(cfg, c, a.segment, i);
    RefersInside(cfg, c, i, b.index);
    var img, adr, bs := Pass2(cfg, c1).image, AddressOf(cfg, c, a.segment, i), BytesOf(cfg, c1, i);
    StraightBytes(cfg, EmitAt(cfg, c1, i).syms, c1.prog[i]);
    TargetValue(cfg, c, b.segment, i, b.index, 1);
    assert bs == [JMP_BYTE, bs[1], bs[2]];
    assert Loaded(img, adr, bs);
    StepJump(cpu, img, adr, bs[1], bs[2], a.state);
    WordOfValue(AddressOf(cfg, c, b.segment, b.index));
  }

  lemma StraightSimulated<S>(cfg: Config, c: Context, cpu: Cpu<S>, a: Source<S>, b: Source<S>)
    requires Runnable(cfg, c) && Plain(cfg, c, a.segment) && Plain(cfg, c, b.segment) && Describes(cfg.table, cpu)
    requires Next(cfg, c, cpu, a, b) && a.index < |c.prog| && c.prog[a.index].segment == a.segment
    requires a.index < |c.prog| && Pass1(cfg, c).prog[a.index].active && Pass1(cfg, c).prog[a.index].kind.Insn?
    requires !IsBranch(Pass1(cfg, c).prog[a.index]) && !IsJump(Pass1(cfg, c).prog[a.index])
    ensures a.segment in c.segs && b.segment in c.segs && b.index <= |c.prog|
    ensures MachineStep(cpu, Pass2(cfg, Pass1(cfg, c)).image, Mach(Wrap(AddressOf(cfg, c, a.segment, a.index)), a.state)) ==
              Some(Mach(Wrap(AddressOf(cfg, c, b.segment, b.index)), b.state))
  {
    hide Runnable, Plain, Pass1, Pass2, InsnBytes, RefersTo, BytesOf, Off, MachineStep, StmtBytes, EmitAt, Lookup,
         Eval, BranchTaken, LeavesMachine;
    var i := a.index;
    var c1 := Pass1(cfg, c);
    var s := c1.prog[i];
    StatementPlaced(cfg, c, a.segment, i);
    InsnPlaced(cfg, c, a.segment, i);
    var img, adr, bs := Pass2(cfg, c1).image, AddressOf(cfg, c, a.segment, i), BytesOf(cfg, c1, i);
    StraightBytes(cfg, EmitAt(cfg, c1, i).syms, s);
    assert Loaded(img, adr, bs);
    var operand := ActingOperand(cfg, c1, i);
    if |bs| == 3 { WordOfValue(ValueOf(cfg, c1, i, 1).value); }
    StepStraight(cpu, img, adr, bs[0], s.kind.mode, bs, operand, a.state);
  }

  /** A source execution, state by state, through plain segments. */
  ghost predicate Execution<S>(cfg: Config, c: Context, cpu: Cpu<S>, run: seq<Source<S>>) {
    |run| > 0 && (forall t :: 0 <= t < |run| ==> Plain(cfg, c, run[t].segment)) &&
    forall t :: 0 <= t < |run| - 1 ==> Next(cfg, c, cpu, run[t], run[t + 1])
  }

  /** Whole executions: from the address of the first statement the machine reaches the address of the
      last one in the same state, for every choice of long and short forms that assembles. */
  lemma {:induction false} RunSimulated<S>(cfg: Config, c: Context, cpu: Cpu<S>, run: seq<Source<S>>) returns (k: nat)
    requires Runnable(cfg, c) && Describes(cfg.table, cpu) && Execution(cfg, c, cpu, run) && run[0].index <= |c.prog|
    ensures k <= 2 * (|run| - 1) && run[|run| - 1].index <= |c.prog|
    ensures run[0].segment in c.segs && run[|run| - 1].segment in c.segs
    ensures var a, b := run[0], run[|run| - 1];
            MachineRun(cpu, Pass2(cfg, Pass1(cfg, c)).image, Mach(Wrap(AddressOf(cfg, c, a.segment, a.index)), a.state), k) ==
              Some(Mach(Wrap(AddressOf(cfg, c, b.segment, b.index)), b.state))
    decreases |run|
  {
    hide Runnable, Plain, Pass1, Pass2, Describes, Off, MachineStep, Next;
    var n := |run| - 1;
    var img := Pass2(cfg, Pass1(cfg, c)).image;
    PlainName(cfg, c, run[0].segment);
    if n == 0 {
      k := 0;
    } else {
      var front := run[..n];
      forall t | 0 <= t < |front| - 1
        ensures Next(cfg, c, cpu, front[t], front[t + 1])
      {
        assert front[t] == run[t] && front[t + 1] == run[t + 1];
      }
      var k1 := RunSimulated(cfg, c, cpu, front);
      assert front[n - 1] == run[n - 1] && Next(cfg, c, cpu, run[n - 1], run[n - 1 + 1]);
      var k2 := StepSimulated(cfg, c, cpu, run[n - 1], run[n]);
      RunsCompose(cpu, img, Mach(Wrap(AddressOf(cfg, c, run[0].segment, run[0].index)), run[0].state), k1, k2);
      k := k1 + k2;
    }
  }
}
