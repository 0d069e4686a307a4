/** Shrinking is safe over the whole run: distances never grow, so what once fitted fits for good. */
module RelaxSafety {
  import opened Support
  import opened Expressions
  import opened Opcodes
  import opened Program
  import opened Layout
  import opened Agreement
  import opened Tiling
  import opened NonInterference
  import opened Labels
  import opened Relaxation

  predicate IsAlign(s: Stmt) { s.kind.Dir? && s.kind.dir.name == DAlign }

  predicate IsOrg(s: Stmt) { s.kind.Dir? && s.kind.dir.name == DOrg }

  /** Segment `name` holds no alignment. */
  predicate NoAlign(name: string, prog: seq<Stmt>) {
    forall i :: 0 <= i < |prog| && prog[i].segment == name ==> !IsAlign(prog[i])
  }

  /** Programs whose control, origins and reserved sizes do not depend on the layout. */
  predicate Steady(cfg: Config, d: set<Key>, c: Context) {
    AllLayoutFree(cfg, d, c.prog) && SizesMatch(c.prog) && NoSizeNames(cfg, d)
  }

  /** Segment `name` has a base the assembler accepts; in object mode, where padding depends on the chosen residue, it
      holds no alignment. */
  predicate Packed(cfg: Config, d: set<Key>, name: string, c: Context) {
    Steady(cfg, d, c) && name in c.segs && c.segs[name].base >= 0 && (cfg.objectMode ==> NoAlign(name, c.prog))
  }

  /** So it is in every segment. */
  predicate AllPacked(cfg: Config, d: set<Key>, c: Context) {
    Steady(cfg, d, c) && forall n :: n in c.segs ==> c.segs[n].base >= 0 && (cfg.objectMode ==> NoAlign(n, c.prog))
  }

  /** No origin and no alignment of segment `name` lies among the statements from `i` up to `j`. */
  predicate FreeBetween(name: string, prog: seq<Stmt>, i: nat, j: nat) {
    forall k :: i <= k < j && k < |prog| && prog[k].segment == name ==> !IsAlign(prog[k]) && !IsOrg(prog[k])
  }

  /** Same program, every instruction at most as long. */
  predicate Smaller(c: Context, c': Context) {
    |c.prog| == |c'.prog| && forall i :: 0 <= i < |c.prog| && c.prog[i].kind.Insn? ==>
      c'.prog[i].kind.Insn? && c'.prog[i].kind.size <= c.prog[i].kind.size
  }

  lemma SteadyTwin(cfg: Config, d: set<Key>, c: Context)
    requires Steady(cfg, d, c)
    ensures Twins(cfg, d, c, c)
  {
    hide Skeleton, NoSizeNames, StorageKey;
  }

  lemma PackedParts(cfg: Config, d: set<Key>, name: string, c: Context)
    requires Packed(cfg, d, name, c)
    ensures Steady(cfg, d, c) && Twins(cfg, d, c, c)
    ensures name in c.segs && c.segs[name].base >= 0
  {
    hide AllLayoutFree, NoSizeNames, Twins, NoAlign, SizesMatch;
    SteadyTwin(cfg, d, c);
  }

  /** Statement `i`'s offset in the segment. */
  function Off(cfg: Config, c: Context, name: string, i: nat): int
    requires i <= |c.prog|
  {
    var segs := At(cfg, Start(cfg, c), c.prog, i).segs;
    if name in segs then segs[name].pc else 0
  }

  function Span(cfg: Config, c: Context, name: string): int { Off(cfg, c, name, |c.prog|) }

  /** How a statement moves the offset of a segment. */
  lemma OffMoved(cfg: Config, name: string, c: Context, i: nat)
    requires name in c.segs && i < |c.prog| && c.prog[i].segment in c.segs
    ensures name in At(cfg, Start(cfg, c), c.prog, i).segs
    ensures At(cfg, Start(cfg, c), c.prog, i).segs[name].pc == Off(cfg, c, name, i)
    ensures Off(cfg, c, name, i + 1) ==
              if c.prog[i].segment == name then Moved(At(cfg, Start(cfg, c), c.prog, i).segs[name], MotionOf(cfg, c, i)).pc
              else Off(cfg, c, name, i)
  {
    hide MotionOf, At, Start, Moved;
    MotionMoves(cfg, c, i);
  }

  /** Every statement but an origin adds its room. */
  lemma OffSteps(cfg: Config, name: string, c: Context, i: nat)
    requires name in c.segs && i < |c.prog| && c.prog[i].segment in c.segs
    requires (c.prog[i].segment == name ==> !IsOrg(c.prog[i]))
    ensures Off(cfg, c, name, i + 1) == Off(cfg, c, name, i) + if c.prog[i].segment ==
              name then Room(MotionOf(cfg, c, i)) else 0
  {
    hide MotionOf, At, Start, Off;
    OffMoved(cfg, name, c, i);
    MotionKinds(cfg, c, i);
  }

  lemma RoomSmaller(cfg: Config, d: set<Key>, c: Context, c': Context, i: nat)
    requires Twins(cfg, d, c, c') && Smaller(c, c') && Pass1(cfg, c).errors == c.errors && i < |c.prog|
    requires !IsAlign(c.prog[i])
    ensures Room(MotionOf(cfg, c', i)) <= Room(MotionOf(cfg, c, i))
  {
    hide MotionOf, At, Start, Pass1, Twins, Laid;
    RoomAgrees(cfg, d, c, c', i);
  }

  /** Every statement of an error-free pass lies in a known segment, the same one in both contexts. */
  lemma SegmentKnown(cfg: Config, d: set<Key>, c: Context, c': Context, i: nat)
    requires Twins(cfg, d, c, c') && Pass1(cfg, c).errors == c.errors && i < |c.prog|
    ensures i < |c'.prog| && c'.prog[i].segment == c.prog[i].segment && c.prog[i].segment in c.segs
    ensures c'.segs.Keys == c.segs.Keys
    ensures IsAlign(c'.prog[i]) == IsAlign(c.prog[i]) && IsOrg(c'.prog[i]) == IsOrg(c.prog[i])
  {
    SameLength(c, c');
    assert Skeleton(c.prog[i]) == Skeleton(c'.prog[i]);
    SkeletonKeys(cfg, c.prog[i], c'.prog[i], "");
    hide Pass1, At, Start, SameShape, AllLayoutFree, Skeleton;
    UnknownSegment(cfg, c, i);
    SegsStay(cfg, c, i);
  }

  /** Distances over which nothing is fixed shrink when instructions do, whatever else there is in the segment and in
      others. */
  lemma {:induction false} Closer(cfg: Config, d: set<Key>, name: string, c: Context, c': Context, i: nat, j: nat)
    requires Twins(cfg, d, c, c') && Smaller(c, c') && name in c.segs && FreeBetween(name, c.prog, i, j)
    requires Pass1(cfg, c).errors == c.errors && i <= j <= |c.prog|
    ensures |c.prog| == |c'.prog|
    ensures 0 <= Off(cfg, c', name, j) - Off(cfg, c', name, i) <= Off(cfg, c, name, j) - Off(cfg, c, name, i)
    decreases j - i
  {
    hide MotionOf, At, Start, Pass1, Twins, Off, Room;
    if i < j {
      Closer(cfg, d, name, c, c', i, j - 1);
      SegmentKnown(cfg, d, c, c', j - 1);
      OffSteps(cfg, name, c, j - 1);
      OffSteps(cfg, name, c', j - 1);
      if c.prog[j - 1].segment == name { RoomSmaller(cfg, d, c, c', j - 1); }
    }
  }

  // ---- offsets never grow

  /** Rounding up keeps the order. */
  lemma PaddingMonotone(p: int, q: int, boundary: int, offset: int)
    requires p <= q && boundary > 0
    ensures p + AlignPadding(p, boundary, offset) <= q + AlignPadding(q, boundary, offset)
  {
    var x, y := p + AlignPadding(p, boundary, offset), q + AlignPadding(q, boundary, offset);
    hide AlignPadding;
    var n := ModEqualDifference(x - offset, y - offset, boundary);
    NoSmallMultiple(n, boundary, x - y);
  }

  lemma NoSmallMultiple(n: int, b: int, gap: int)
    requires b > 0 && n * b == gap && gap < b
    ensures gap <= 0
  {
    if n >= 1 { MulAtLeast(n, b); }
  }

  /** An alignment of a flat assembly rounds both runs' addresses up by the same rule. */
  lemma AlignAgrees(cfg: Config, d: set<Key>, c: Context, c': Context, i: nat) returns (boundary: int, offset: int)
    requires Twins(cfg, d, c, c') && Pass1(cfg, c).errors == c.errors && i < |c.prog| && IsAlign(c.prog[i])
    requires !cfg.objectMode
    ensures i < |c'.prog| && c.prog[i].segment in c.segs && c'.prog[i].segment == c.prog[i].segment && boundary > 0
    ensures var n := c.prog[i].segment;
            var g, g' := At(cfg, Start(cfg, c), c.prog, i).segs, At(cfg, Start(cfg, c'), c'.prog, i).segs;
            n in g && n in g' && g[n].base == g'[n].base &&
            (MotionOf(cfg, c, i) == MotionOf(cfg, c', i) == Keep ||
             (MotionOf(cfg, c, i) == Grow(AlignPadding(g[n].base + g[n].pc, boundary, offset)) &&
              MotionOf(cfg, c', i) == Grow(AlignPadding(g'[n].base + g'[n].pc, boundary, offset))))
  {
    hide *;
    SegmentKnown(cfg, d, c, c', i);
    AtAgrees(cfg, d, c, c', i);
    UnknownSegment(cfg, c, i);
    ActiveMotion(cfg, c, i);
    TwinStmt(cfg, d, c, c', i);
    var st, st' := At(cfg, Start(cfg, c), c.prog, i), At(cfg, Start(cfg, c'), c'.prog, i);
    RelatedSegs(d, st, st');
    MotionOfAlign(cfg, c, i);
    MotionOfAlign(cfg, c', i);
    if CurrentActive(st.stack) {
      NamesAgree(cfg, d, st, st', c.prog[i], c'.prog[i]);
      RelatedSegs(d, AfterNames(cfg, st, c.prog[i]), AfterNames(cfg, st', c'.prog[i]));
      var n := c.prog[i].segment;
      boundary, offset := AlignRule(cfg, d, AfterNames(cfg, st, c.prog[i]).syms, AfterNames(cfg, st', c'.prog[i]).syms,
                                    c.prog[i], c'.prog[i], st.segs[n], st'.segs[n]);
    } else {
      boundary, offset := 1, 0;
    }
  }

  lemma TwinStmt(cfg: Config, d: set<Key>, c: Context, c': Context, i: nat)
    requires Twins(cfg, d, c, c') && i < |c.prog|
    ensures i < |c'.prog| && Skeleton(c.prog[i]) == Skeleton(c'.prog[i]) && LayoutFree(cfg, d, c.prog[i])
    ensures IsAlign(c.prog[i]) ==> c'.prog[i].kind == c.prog[i].kind
    ensures c'.prog[i].scope == c.prog[i].scope && c'.prog[i].file == c.prog[i].file
  {
    hide Skeleton, LayoutFree, NoSizeNames;
    SkeletonKeys(cfg, c.prog[i], c'.prog[i], "");
  }

  lemma RelatedSegs(d: set<Key>, s: State, t: State)
    requires Related(d, s, t)
    ensures s.stack == t.stack && s.segs.Keys == t.segs.Keys && SymsRelated(d, s.syms, t.syms)
    ensures forall n :: n in s.segs ==>
              s.segs[n].base == t.segs[n].base && !s.segs[n].rorgActive && !t.segs[n].rorgActive
  {
    hide SymsRelated;
  }

  lemma MotionOfAlign(cfg: Config, c: Context, i: nat)
    requires i < |c.prog| && IsAlign(c.prog[i])
    ensures var st := At(cfg, Start(cfg, c), c.prog, i); var s := c.prog[i];
            s.segment in st.segs ==>
              MotionOf(cfg, c, i) == if CurrentActive(st.stack) then AlignMotion(cfg, st.segs[s.segment], AfterNames(cfg, st, s).syms, s, s.kind.dir.args, LogicalPc(st.segs[s.segment]))
                                     else Keep
  {
    hide At, Start, AfterNames, AlignMotion, LogicalPc;
  }

  lemma AlignRule(cfg: Config, d: set<Key>, x: Symtab, y: Symtab, s: Stmt, t: Stmt, g: Segment, g': Segment) returns (boundary: int, offset: int)
    requires SymsRelated(d, x, y) && LayoutFree(cfg, d, s) && IsAlign(s) && t.kind == s.kind && t.scope == s.scope
    requires t.file == s.file
    requires !cfg.objectMode && !g.rorgActive && !g'.rorgActive
    requires !AlignMotion(cfg, g, x, s, s.kind.dir.args, LogicalPc(g)).Fail?
    ensures boundary > 0
    ensures AlignMotion(cfg, g, x, s, s.kind.dir.args, LogicalPc(g)) ==
              Grow(AlignPadding(g.base + g.pc, boundary, offset))
    ensures AlignMotion(cfg, g', y, t, t.kind.dir.args, LogicalPc(g')) ==
              Grow(AlignPadding(g'.base + g'.pc, boundary, offset))
  {
    hide LayoutFree, SymsRelated, Eval, AlignPadding, PowerOfTwoTest;
    var args := s.kind.dir.args;
    ArgAgrees(cfg, d, x, y, s, 0, LogicalPc(g), LogicalPc(g'));
    if |args| > 1 { ArgAgrees(cfg, d, x, y, s, 1, LogicalPc(g), LogicalPc(g')); }
    boundary := Arg(s, x, args[0], LogicalPc(g)).value;
    offset := if |args| > 1 then Arg(s, x, args[1], LogicalPc(g)).value else 0;
  }

  /** What a statement other than an alignment makes of two ordered offsets. */
  lemma MotionBelow(s: Stmt, t: Stmt, m: Motion, m': Motion, g: Segment, g': Segment)
    requires MotionsMatch(s, t, m, m') || m == m' == Keep
    requires !IsAlign(s) && (s.kind.Insn? && t.kind.Insn? ==> t.kind.size <= s.kind.size)
    requires 0 <= g'.pc <= g.pc
    ensures 0 <= Moved(g', m').pc <= Moved(g, m).pc
  {
  }

  /** No statement ever moves away from its segment's start, origins and alignments included. */
  lemma {:induction false} Below(cfg: Config, d: set<Key>, name: string, c: Context, c': Context, i: nat)
    requires Packed(cfg, d, name, c) && Twins(cfg, d, c, c') && Smaller(c, c') && Pass1(cfg, c).errors == c.errors
    requires i <= |c.prog|
    ensures |c.prog| == |c'.prog| && 0 <= Off(cfg, c', name, i) <= Off(cfg, c, name, i)
  {
    hide *;
    SmallerLength(c, c');
    PackedParts(cfg, d, name, c);
    if i == 0 {
      OffStart(cfg, name, c);
      OffStart(cfg, name, c');
    } else {
      Below(cfg, d, name, c, c', i - 1);
      SegmentKnown(cfg, d, c, c', i - 1);
      OffMoved(cfg, name, c, i - 1);
      OffMoved(cfg, name, c', i - 1);
      if c.prog[i - 1].segment == name {
        var g, g' := At(cfg, Start(cfg, c), c.prog, i - 1).segs[name], At(cfg, Start(cfg, c'), c'.prog, i - 1).segs[name];
        if IsAlign(c.prog[i - 1]) {
          PackedAlign(cfg, d, name, c, i - 1);
          var b, o := AlignAgrees(cfg, d, c, c', i - 1);
          PaddingMonotone(g'.base + g'.pc, g.base + g.pc, b, o);
          GrownBelow(g, g', MotionOf(cfg, c, i - 1), MotionOf(cfg, c', i - 1), b, o);
        } else {
          MotionsOf(cfg, d, c, c', i - 1);
          SmallerAt(c, c', i - 1);
          MotionBelow(c.prog[i - 1], c'.prog[i - 1], MotionOf(cfg, c, i - 1), MotionOf(cfg, c', i - 1), g, g');
        }
      }
    }
  }

  lemma SmallerLength(c: Context, c': Context)
    requires Smaller(c, c')
    ensures |c.prog| == |c'.prog|
  {
  }

  lemma SmallerAt(c: Context, c': Context, i: nat)
    requires Smaller(c, c') && i < |c.prog|
    ensures i < |c'.prog|
    ensures (c.prog[i].kind.Insn? && c'.prog[i].kind.Insn? ==> c'.prog[i].kind.size <= c.prog[i].kind.size)
  {
  }

  lemma PackedAlign(cfg: Config, d: set<Key>, name: string, c: Context, i: nat)
    requires Packed(cfg, d, name, c) && i < |c.prog| && c.prog[i].segment == name && IsAlign(c.prog[i])
    ensures !cfg.objectMode
  {
    hide Steady;
  }

  lemma GrownBelow(g: Segment, g': Segment, m: Motion, m': Motion, b: int, o: int)
    requires 0 <= g'.pc <= g.pc && g.base == g'.base && b > 0
    requires m == m' == Keep ||
             (m == Grow(AlignPadding(g.base + g.pc, b, o)) && m' == Grow(AlignPadding(g'.base + g'.pc, b, o)))
    requires g'.base + g'.pc + AlignPadding(g'.base + g'.pc, b, o) <= g.base + g.pc + AlignPadding(g.base + g.pc, b, o)
    ensures 0 <= Moved(g', m').pc <= Moved(g, m).pc
  {
    hide AlignPadding;
  }

  /** The motions of one statement in both runs, inactive ones included. */
  lemma MotionsOf(cfg: Config, d: set<Key>, c: Context, c': Context, i: nat)
    requires Twins(cfg, d, c, c') && Smaller(c, c') && Pass1(cfg, c).errors == c.errors && i < |c.prog|
    requires !IsAlign(c.prog[i])
    ensures i < |c'.prog| && (MotionsMatch(c.prog[i], c'.prog[i], MotionOf(cfg, c, i), MotionOf(cfg, c', i)) ||
                              MotionOf(cfg, c, i) == MotionOf(cfg, c', i) == Keep)
  {
    hide MotionOf, At, Start, Pass1, Twins, Laid, MotionsMatch;
    RoomAgrees(cfg, d, c, c', i);
    SmallerLength(c, c');
  }

  lemma OffStart(cfg: Config, name: string, c: Context)
    ensures Off(cfg, c, name, 0) == 0
  {
    hide Publish;
  }

  // ---- label operands

  /** The operand of instruction `i` is the bare label of statement `j`. */
  predicate RefersTo(cfg: Config, c: Context, i: nat, j: nat) {
    i < |c.prog| && j < |c.prog| && c.prog[i].kind.Insn? && c.prog[i].kind.operand.Some? &&
    c.prog[i].kind.operand.value.Ident? &&
    Defines(cfg, c, j, Resolve(FinalSyms(cfg, c).Keys, c.prog[i].scope, c.prog[i].file, c.prog[i].kind.operand.value.name))
  }

  /** Offsets of two runs mean the same labels. */
  lemma RefersSame(cfg: Config, d: set<Key>, c: Context, c': Context, i: nat, j: nat)
    requires Twins(cfg, d, c, c') && Pass1(cfg, c).errors == c.errors && RefersTo(cfg, c, i, j)
    ensures RefersTo(cfg, c', i, j)
  {
    SameLength(c, c');
    assert Skeleton(c.prog[i]) == Skeleton(c'.prog[i]) && Skeleton(c.prog[j]) == Skeleton(c'.prog[j]);
    SkeletonKeys(cfg, c.prog[i], c'.prog[i], "");
    SkeletonOperand(c.prog[i], c'.prog[i]);
    hide Skeleton, Twins, Pass1, FinalSyms, At, Start, StorageKey, Resolve, Related;
    FinalAgrees(cfg, d, c, c');
    AtAgrees(cfg, d, c, c', j);
    RelatedParts(d, At(cfg, Start(cfg, c), c.prog, j), At(cfg, Start(cfg, c'), c'.prog, j));
    SkeletonKeys(cfg, c.prog[j], c'.prog[j], c.prog[j].labelName.value);
  }

  lemma SkeletonOperand(s: Stmt, t: Stmt)
    requires Skeleton(s) == Skeleton(t) && s.kind.Insn?
    ensures t.kind.Insn? && t.kind.operand == s.kind.operand && t.kind.opcode == s.kind.opcode
    ensures t.kind.suffixed == s.kind.suffixed
  {
    assert s.kind.(mode := Implied, size := 0) == t.kind.(mode := Implied, size := 0);
  }

  /** What a pass says about an instruction and its bare label, each in its own segment. */
  lemma LabelValue(cfg: Config, d: set<Key>, c: Context, i: nat, j: nat)
    requires Steady(cfg, d, c) && Pass1(cfg, c).errors == c.errors && RefersTo(cfg, c, i, j)
    ensures i < |c.prog| && j < |c.prog| && c.prog[i].segment in c.segs && c.prog[j].segment in c.segs
    ensures c.prog[i].kind.Insn? && c.prog[i].kind.operand.Some? && c.prog[i].kind.operand.value.Ident?
    ensures var p, m := Pass1(cfg, c).prog[i], c.prog[i].segment;
            p == Laid(cfg, Start(cfg, c), c.prog, i) && p.kind == c.prog[i].kind && p.scope == c.prog[i].scope &&
            p.file == c.prog[i].file &&
            p.address == c.segs[m].base + Off(cfg, c, m, i)
    ensures HoldsLabel(cfg, c, i, j)
  {
    hide *;
    SteadyTwin(cfg, d, c);
    ReferenceKey(cfg, c, i, j);
    SegmentKnown(cfg, d, c, c, i);
    SegmentKnown(cfg, d, c, c, j);
    AddressOfInsn(cfg, d, c, i);
    var k := Resolve(FinalSyms(cfg, c).Keys, c.prog[i].scope, c.prog[i].file, c.prog[i].kind.operand.value.name);
    LabelFinal(cfg, c, j, k);
    AtAgrees(cfg, d, c, c, j);
    SegsStay(cfg, c, j);
    var st := At(cfg, Start(cfg, c), c.prog, j);
    PlainAddress(d, st, st, c.prog[j]);
    BareLabelEntry(cfg, c, i, j, k);
  }

  /** The final entry the bare operand of `i` denotes is that of a label at statement `j`. */
  predicate HoldsLabel(cfg: Config, c: Context, i: nat, j: nat)
    requires i < |c.prog| && j < |c.prog| && c.prog[i].kind.Insn? && c.prog[i].kind.operand.Some?
    requires c.prog[i].kind.operand.value.Ident?
  {
    var n, f := c.prog[j].segment, FinalSyms(cfg, c);
    var k := Resolve(f.Keys, c.prog[i].scope, c.prog[i].file, c.prog[i].kind.operand.value.name);
    n in c.segs && k in f && f[k] == Symbol(c.segs[n].base + Off(cfg, c, n, j), true, SegmentKind(n), Some(n), false)
  }

  lemma LabelEval(cfg: Config, c: Context, i: nat, j: nat)
    requires i < |c.prog| && j < |c.prog| && c.prog[i].kind.Insn? && c.prog[i].kind.operand.Some?
    requires c.prog[i].kind.operand.value.Ident?
    requires HoldsLabel(cfg, c, i, j)
    ensures c.prog[j].segment in c.segs
    ensures var n := c.prog[j].segment;
            forall pc :: Eval(c.prog[i].kind.operand.value, FinalSyms(cfg, c), c.prog[i].scope, c.prog[i].file, pc) ==
                           Ok(c.segs[n].base + Off(cfg, c, n, j))
  {
    hide FinalSyms, Off, Resolve, SegmentKind;
  }

  lemma ReferenceKey(cfg: Config, c: Context, i: nat, j: nat)
    requires RefersTo(cfg, c, i, j)
    ensures i < |c.prog| && j < |c.prog| && c.prog[i].kind.Insn? && c.prog[i].kind.operand.Some?
    ensures c.prog[i].kind.operand.value.Ident?
    ensures Defines(cfg, c, j, Resolve(FinalSyms(cfg, c).Keys, c.prog[i].scope, c.prog[i].file, c.prog[i].kind.operand.value.name))
  {
    hide FinalSyms, Defines, Resolve;
  }

  /** Without a logical origin a label's entry holds its physical address. */
  lemma PlainAddress(d: set<Key>, st: State, st': State, s: Stmt)
    requires Related(d, st, st') && s.segment in st.segs
    ensures var g := st.segs[s.segment];
            AddressSymbol(g, s) == Symbol(g.base + g.pc, true, SegmentKind(s.segment), Some(s.segment), false)
  {
    hide SymsRelated, SegmentKind;
  }

  lemma BareLabelEntry(cfg: Config, c: Context, i: nat, j: nat, k: Key)
    requires i < |c.prog| && j < |c.prog| && c.prog[i].kind.Insn? && c.prog[i].kind.operand.Some?
    requires c.prog[i].kind.operand.value.Ident?
    requires k == Resolve(FinalSyms(cfg, c).Keys, c.prog[i].scope, c.prog[i].file, c.prog[i].kind.operand.value.name)
    requires var n := c.prog[j].segment; n in c.segs && n in At(cfg, Start(cfg, c), c.prog, j).segs
    requires var n := c.prog[j].segment; var g := At(cfg, Start(cfg, c), c.prog, j).segs[n];
             g.base == c.segs[n].base && k in FinalSyms(cfg, c) &&
             FinalSyms(cfg, c)[k] == Symbol(g.base + g.pc, true, SegmentKind(n), Some(n), false)
    ensures HoldsLabel(cfg, c, i, j)
  {
    hide FinalSyms, At, Start, Resolve, SegmentKind;
  }

  lemma AddressOfInsn(cfg: Config, d: set<Key>, c: Context, i: nat)
    requires Steady(cfg, d, c) && Pass1(cfg, c).errors == c.errors && i < |c.prog| && c.prog[i].kind.Insn?
    ensures c.prog[i].segment in c.segs
    ensures var p, m := Pass1(cfg, c).prog[i], c.prog[i].segment;
            p == Laid(cfg, Start(cfg, c), c.prog, i) && p.kind == c.prog[i].kind && p.scope == c.prog[i].scope &&
            p.file == c.prog[i].file &&
            p.address == c.segs[m].base + Off(cfg, c, m, i)
  {
    SteadyTwin(cfg, d, c);
    hide Steady, Pass1, At, Start, Twins, Step, SymsRelated;
    AtAgrees(cfg, d, c, c, i);
    SegsStay(cfg, c, i);
    UnknownSegment(cfg, c, i);
    LaidAt(cfg, c, i);
    LaidStays(cfg, c, i);
    LaidShape(cfg, At(cfg, Start(cfg, c), c.prog, i), c.prog[i]);
  }

  // ---- arithmetic of displacements

  /** The longest distance over which displacements cannot wrap around: 64 KiB less the two bytes of the branch and
      its reach of 128. */
  const MAX_SPAN := 0xff7e

  /** `t'` is on the same side of `a'` as `t` is of `a`, and no farther away. */
  predicate MovesCloser(a: int, t: int, a': int, t': int) {
    if a <= t then 0 <= t' - a' <= t - a else 0 <= a' - t' <= a - t
  }

  /** Within that distance a displacement that fits still fits when both ends move closer. */
  lemma FitsCloser(b: int, a: int, t: int, a': int, t': int)
    requires -MAX_SPAN <= t - a <= MAX_SPAN && MovesCloser(a, t, a', t')
    requires BranchFits(b + a + 2, b + t)
    ensures BranchFits(b + a' + 2, b + t')
  {
    DispSmall(b + a + 2, b + t);
    DispExact(b + a' + 2, b + t');
  }

  lemma DispExact(s: int, t: int)
    requires -0x8000 <= t - s < 0x8000
    ensures Disp16(s, t) == t - s
  {
  }

  lemma DispSmall(s: int, t: int)
    requires -0xff80 <= t - s < 0xff80 && BranchFits(s, t)
    ensures -128 <= t - s <= 127
  {
  }

  /** One move of a branch at `a` and its target `t`, in a program of span `span` placed at `b`, that keeps the branch
      in range if it was. */
  predicate KeepsFitting(span: int, b: int, a: int, t: int, a': int, t': int) {
    0 <= a <= span && 0 <= t <= span && MovesCloser(a, t, a', t') && BranchFits(b + a + 2, b + t) ==>
      BranchFits(b + a' + 2, b + t')
  }

  /** Shrinking is monotone exactly up to that span: in a program one byte longer a branch to the far end fits by
      wrapping around the address space, and no longer fits once its target has come one byte closer. */
  lemma SpanExact(span: int)
    ensures (forall b, a, t, a', t' :: KeepsFitting(span, b, a, t, a', t')) <==> span <= MAX_SPAN
  {
    if span <= MAX_SPAN {
      forall b, a, t, a', t'
        ensures KeepsFitting(span, b, a, t, a', t')
      {
        if 0 <= a <= span && 0 <= t <= span && MovesCloser(a, t, a', t') && BranchFits(b + a + 2, b + t) {
          FitsCloser(b, a, t, a', t');
        }
      }
    } else {
      assert BranchFits(0 + 0xff7f + 2, 0 + 0) && !BranchFits(0 + 0xff7e + 2, 0 + 0);
      assert !KeepsFitting(span, 0, 0xff7f, 0, 0xff7e, 0);
    }
  }

  /** Both ends of a reference inside one segment, seen in a pass and in a later, smaller one. */
  lemma EndsCloser(cfg: Config, d: set<Key>, name: string, c: Context, c': Context, i: nat, j: nat)
    requires Packed(cfg, d, name, c) && Twins(cfg, d, c, c') && Smaller(c, c') && Pass1(cfg, c).errors == c.errors
    requires i < |c.prog| && j < |c.prog| && FreeBetween(name, c.prog, i, j) && FreeBetween(name, c.prog, j, i)
    ensures |c.prog| == |c'.prog|
    ensures MovesCloser(Off(cfg, c, name, i), Off(cfg, c, name, j), Off(cfg, c', name, i), Off(cfg, c', name, j))
  {
    hide Pass1, At, Start, Twins, Off, Steady, FreeBetween;
    if i < j {
      Closer(cfg, d, name, c, c', i, j);
    } else {
      Closer(cfg, d, name, c, c', j, i);
    }
  }

}
