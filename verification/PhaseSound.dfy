/** What the chosen residue buys: at every final address with that residue the branch page contracts and the
    interior alignments of the component hold (assembler/asm_pass.c). */
module PhaseSound {
  import opened Support
  import opened Expressions
  import opened Opcodes
  import opened Program
  import opened Layout
  import opened Agreement
  import opened Tiling
  import opened NonInterference
  import opened Labels
  import opened Relaxation
  import opened RelaxSafety
  import opened RelaxRun
  import opened RelaxFixpoint
  import opened PhaseScore
  import opened PhaseChoice

  /** `c'` is pass 1's result for `c` with the residues chosen; `name` got the residue of `g`. */
  predicate Chosen(cfg: Config, name: string, c: Context, c': Context, g: Segment) {
    var p := Pass1(cfg, c);
    name in p.segs && SelectOne(p, name, p.segs[name]) == Some(g) && g.phaseLocked &&
    c'.prog == p.prog && SegsAlike(p.segs, c'.segs) && c'.segs[name] == g
  }

  lemma ChosenIsLocked(cfg: Config, d: set<Key>, name: string, c: Context, c': Context, g: Segment)
    requires Relocatable(cfg, d, name, c) && Pass1(cfg, c).errors == c.errors && Chosen(cfg, name, c, c', g)
    ensures LockedAt(cfg, d, name, c, c', g.selectedPhase)
  {
    hide *;
    TwinSelf(cfg, d, name, c);
    PassSegs(cfg, c);
    ChosenParts(cfg, name, c, c', g);
    PassForms(cfg, c);
    SameFormsSmaller(c, c', Pass1(cfg, c).prog);
    AlikeThrough(c.segs, Pass1(cfg, c).segs, c'.segs);
    LockedFromParts(cfg, d, name, c, c', g.selectedPhase);
  }

  /** A layout pass keeps the program and its forms. */
  lemma PassForms(cfg: Config, c: Context)
    requires Pass1(cfg, c).errors == c.errors
    ensures SameShape(c.prog, Pass1(cfg, c).prog)
    ensures forall i :: 0 <= i < |c.prog| ==> (c.prog[i].kind.Insn? <==> Pass1(cfg, c).prog[i].kind.Insn?)
    ensures forall i :: 0 <= i < |c.prog| && c.prog[i].kind.Insn? ==> Pass1(cfg, c).prog[i].kind == c.prog[i].kind
  {
    hide Pass1, Skeleton;
    forall i | 0 <= i < |c.prog|
      ensures Skeleton(c.prog[i]) == Skeleton(Pass1(cfg, c).prog[i])
      ensures c.prog[i].kind.Insn? <==> Pass1(cfg, c).prog[i].kind.Insn?
      ensures c.prog[i].kind.Insn? ==> Pass1(cfg, c).prog[i].kind == c.prog[i].kind
    {
      PassStmt(cfg, c, i);
    }
  }

  lemma SameFormsSmaller(c: Context, c': Context, prog: seq<Stmt>)
    requires c'.prog == prog && SameShape(c.prog, prog)
    requires forall i :: 0 <= i < |c.prog| && i < |prog| ==> (c.prog[i].kind.Insn? <==> prog[i].kind.Insn?)
    requires forall i :: 0 <= i < |c.prog| && i < |prog| && c.prog[i].kind.Insn? ==> prog[i].kind == c.prog[i].kind
    ensures SameShape(c.prog, c'.prog) && Smaller(c, c') && Smaller(c', c)
  {
    hide Skeleton;
  }

  lemma AlikeThrough(r: map<string, Segment>, s: map<string, Segment>, t: map<string, Segment>)
    requires SegsAlike(r, s) && SegsAlike(s, t)
    ensures SegsAlike(r, t) && r.Keys == t.Keys
  {
  }

  lemma LockedFromParts(cfg: Config, d: set<Key>, name: string, c: Context, c': Context, phase: int)
    requires SameShape(c.prog, c'.prog) && SegsAlike(c.segs, c'.segs) && Twins(cfg, d, c, c) && Smaller(c, c')
    requires Smaller(c', c)
    requires name in c'.segs && c'.segs[name].phaseLocked && c'.segs[name].selectedPhase == phase
    ensures LockedAt(cfg, d, name, c, c', phase)
  {
    hide Skeleton, LayoutFree, AllLayoutFree, SameShape, NoSizeNames, SegsAlike, Smaller;
  }

  // ---- branch page contracts

  /** Every offset in front of the end is known when the end is. */
  lemma OffsetsKnown(cfg: Config, d: set<Key>, name: string, c: Context, c': Context, phase: int, i: nat)
    requires Relocatable(cfg, d, name, c) && Pass1(cfg, c).errors == c.errors && LockedAt(cfg, d, name, c, c', phase)
    requires Pass1(cfg, c').errors == c'.errors && i <= |c.prog|
    ensures NewOffset(Pass1(cfg, c), name, phase, i) == Off(cfg, c', name, i) && Off(cfg, c', name, i) >= 0
  {
    hide Pass1, Off, Relocatable, LockedAt, NewPc, AllLayoutFree, Twins;
    ScoreIsLayout(cfg, d, name, c, c', phase, i);
    TwinSelf(cfg, d, name, c);
    LockedFree(cfg, d, name, c, c', phase);
    OffNotNegative(cfg, d, name, c', i);
  }

  lemma {:induction false} OffNotNegative(cfg: Config, d: set<Key>, name: string, c: Context, i: nat)
    requires NoOrg(c.prog) && name in c.segs && Pass1(cfg, c).errors == c.errors && i <= |c.prog|
    ensures Off(cfg, c, name, i) >= 0
  {
    hide Pass1, Off, AllLayoutFree, MotionOf, Room;
    if i == 0 {
      OffStart(cfg, name, c);
    } else {
      OffNotNegative(cfg, d, name, c, i - 1);
      OffMoves(cfg, d, name, c, i - 1);
    }
  }

  /** Statement `j` carries the label the bare operand of branch `i` denotes, and the scorer finds it by its
      spelling. */
  predicate FoundBySpelling(cfg: Config, name: string, c: Context, i: nat, j: nat) {
    RefersTo(cfg, c, i, j) && c.prog[i].segment == name && c.prog[j].segment == name &&
    c.prog[j].labelName == Some(c.prog[i].kind.operand.value.name) &&
    forall k :: 0 <= k < j && c.prog[k].segment == name && c.prog[k].labelName == c.prog[j].labelName ==>
      !Pass1(cfg, c).prog[k].active
  }

  lemma LabelKept(cfg: Config, c: Context, i: nat)
    requires Pass1(cfg, c).errors == c.errors && i < |c.prog|
    ensures Pass1(cfg, c).prog[i].labelName == c.prog[i].labelName && Pass1(cfg, c).prog[i].segment == c.prog[i].segment
  {
    PassStmt(cfg, c, i);
    hide Pass1;
    SkeletonKeys(cfg, Pass1(cfg, c).prog[i], c.prog[i], "");
  }

  lemma DefinerActive(cfg: Config, c: Context, j: nat, k: Key)
    requires Pass1(cfg, c).errors == c.errors && j < |c.prog| && Defines(cfg, c, j, k)
    ensures Pass1(cfg, c).prog[j].active
  {
    hide Pass1, At, Start, Step;
    UnknownSegment(cfg, c, j);
    LaidAt(cfg, c, j);
    LaidStays(cfg, c, j);
    LaidShape(cfg, At(cfg, Start(cfg, c), c.prog, j), c.prog[j]);
  }

  lemma FirstIsDefiner(cfg: Config, name: string, c: Context, i: nat, j: nat)
    requires Pass1(cfg, c).errors == c.errors && FoundBySpelling(cfg, name, c, i, j) && Pass1(cfg, c).prog[j].active
    ensures FirstLabelled(Pass1(cfg, c).prog, name, c.prog[i].kind.operand.value.name, 0) == Some(j)
  {
    hide Pass1, RefersTo;
    var prog := Pass1(cfg, c).prog;
    assert i < |c.prog| && j < |c.prog| && c.prog[i].kind.Insn? && c.prog[i].kind.operand.Some? && c.prog[i].kind.operand.value.Ident? by {
      ReferenceShape(cfg, c, i, j);
    }
    var x := c.prog[i].kind.operand.value.name;
    LabelKept(cfg, c, j);
    assert Member(prog[j], name) && prog[j].labelName == Some(x);
    var f := FirstLabelled(prog, name, x, 0);
    if f.Some? && f.value < j { LabelKept(cfg, c, f.value); }
  }

  lemma ReferenceShape(cfg: Config, c: Context, i: nat, j: nat)
    requires RefersTo(cfg, c, i, j)
    ensures i < |c.prog| && j < |c.prog| && c.prog[i].kind.Insn? && c.prog[i].kind.operand.Some?
    ensures c.prog[i].kind.operand.value.Ident?
  {
    hide FinalSyms, Defines;
  }

  lemma SpellingFound(cfg: Config, d: set<Key>, name: string, c: Context, c': Context, phase: int, i: nat, j: nat,
      target: int)
    requires Relocatable(cfg, d, name, c) && Pass1(cfg, c).errors == c.errors && LockedAt(cfg, d, name, c, c', phase)
    requires Pass1(cfg, c').errors == c'.errors && FoundBySpelling(cfg, name, c, i, j)
    ensures TargetOffset(Pass1(cfg, c), name, phase, c.prog[i].kind.operand.value, target) == Off(cfg, c', name, j)
  {
    DefinerActive(cfg, c, j, Resolve(FinalSyms(cfg, c).Keys, c.prog[i].scope, c.prog[i].file, c.prog[i].kind.operand.value.name));
    hide Pass1, Off, Relocatable, LockedAt, NewOffset, FirstLabelled, FinalSyms, Resolve, Defines, LastAt, Eval;
    OffsetsKnown(cfg, d, name, c, c', phase, j);
    FirstIsDefiner(cfg, name, c, i, j);
  }

  /** The label's final value is its offset: relocatable segments start at zero. */
  lemma LabelIsOffset(cfg: Config, d: set<Key>, name: string, c: Context, c': Context, phase: int, j: nat, k: Key)
    requires Relocatable(cfg, d, name, c) && LockedAt(cfg, d, name, c, c', phase) && Pass1(cfg, c').errors == c'.errors
    requires j < |c'.prog| && c'.prog[j].segment == name && Defines(cfg, c', j, k)
    ensures SymbolValue(FinalSyms(cfg, c'), k) == Ok(Off(cfg, c', name, j))
  {
    hide *;
    TwinSelf(cfg, d, name, c);
    LockedFree(cfg, d, name, c, c', phase);
    LockedAlike(cfg, d, name, c, c', phase);
    BaseZero(cfg, d, name, c, c');
    SegsStay(cfg, c', j);
    LabelFinal(cfg, c', j, k);
    NoRorg(cfg, d, c', j, name);
    var g := At(cfg, Start(cfg, c'), c'.prog, j).segs[name];
    AddressImmutable(g, c'.prog[j]);
    LabelEntry(FinalSyms(cfg, c'), k, g, c'.prog[j]);
    OffIs(cfg, c', name, j);
  }

  lemma BaseZero(cfg: Config, d: set<Key>, name: string, c: Context, c': Context)
    requires Relocatable(cfg, d, name, c) && SegsAlike(c.segs, c'.segs)
    ensures name in c'.segs && c'.segs[name].base == 0
  {
    hide AllLayoutFree, NoSizeNames, SizesMatch, ClosedArgs;
  }

  lemma LabelEntry(syms: Symtab, k: Key, g: Segment, s: Stmt)
    requires k in syms && syms[k] == AddressSymbol(g, s) && !g.rorgActive && g.base == 0
    ensures SymbolValue(syms, k) == Ok(g.pc)
  {
    hide SegmentKind;
  }

  lemma LockedAlike(cfg: Config, d: set<Key>, name: string, c: Context, c': Context, phase: int)
    requires LockedAt(cfg, d, name, c, c', phase)
    ensures SegsAlike(c.segs, c'.segs) && Twins(cfg, d, c, c')
  {
    hide SameShape, NoSizeNames, AllLayoutFree;
  }

  /** Without `.rorg` no logical origin is ever active. */
  lemma NoRorg(cfg: Config, d: set<Key>, c: Context, j: nat, name: string)
    requires AllLayoutFree(cfg, d, c.prog) && j <= |c.prog| && name in At(cfg, Start(cfg, c), c.prog, j).segs
    ensures !At(cfg, Start(cfg, c), c.prog, j).segs[name].rorgActive
  {
    hide AllLayoutFree, Publish, Step;
    StaysPhysical(cfg, d, c, j, name);
  }

  lemma {:induction false} StaysPhysical(cfg: Config, d: set<Key>, c: Context, j: nat, name: string)
    requires AllLayoutFree(cfg, d, c.prog) && j <= |c.prog| && name in At(cfg, Start(cfg, c), c.prog, j).segs
    ensures !At(cfg, Start(cfg, c), c.prog, j).segs[name].rorgActive
  {
    hide *;
    if j == 0 {
      StartsPhysical(cfg, c, name);
    } else {
      FreeAt(cfg, d, c.prog, j - 1);
      FreeKinds(cfg, d, c.prog[j - 1]);
      SegsStay(cfg, c, j - 1);
      SegsStay(cfg, c, j);
      StaysPhysical(cfg, d, c, j - 1, name);
      if c.prog[j - 1].segment in c.segs {
        MotionMoves(cfg, c, j - 1);
        MotionKinds(cfg, c, j - 1);
        MovedPhysical(At(cfg, Start(cfg, c), c.prog, j - 1).segs[c.prog[j - 1].segment], MotionOf(cfg, c, j - 1));
      } else {
        SegmentGoneStep(cfg, c, j - 1);
      }
    }
  }

  lemma StartsPhysical(cfg: Config, c: Context, name: string)
    requires name in At(cfg, Start(cfg, c), c.prog, 0).segs
    ensures !At(cfg, Start(cfg, c), c.prog, 0).segs[name].rorgActive
  {
    hide Publish;
  }

  lemma FreeAt(cfg: Config, d: set<Key>, prog: seq<Stmt>, i: nat)
    requires AllLayoutFree(cfg, d, prog) && i < |prog|
    ensures LayoutFree(cfg, d, prog[i])
  {
    hide LayoutFree;
  }

  lemma MovedPhysical(g: Segment, m: Motion)
    requires !m.StartLogical?
    ensures !g.rorgActive ==> !Moved(g, m).rorgActive
  {
  }

  lemma FreeKinds(cfg: Config, d: set<Key>, s: Stmt)
    requires LayoutFree(cfg, d, s)
    ensures s.kind.Dir? ==> s.kind.dir.name != DRorg
  {
    hide StorageKey, ProcName;
  }

  /** A bare label denotes the same statement in both contexts. */
  lemma SameTarget(cfg: Config, d: set<Key>, name: string, c: Context, c': Context, phase: int, i: nat, j: nat)
    requires Relocatable(cfg, d, name, c) && Pass1(cfg, c).errors == c.errors && LockedAt(cfg, d, name, c, c', phase)
    requires Pass1(cfg, c').errors == c'.errors && FoundBySpelling(cfg, name, c, i, j)
    ensures i < |c'.prog| && j < |c'.prog| && c'.prog[i].kind.Insn? && c'.prog[i].kind.operand == c.prog[i].kind.operand
    ensures c'.prog[i].kind.operand.Some?
    ensures forall pc :: Eval(c'.prog[i].kind.operand.value, FinalSyms(cfg, c'), c'.prog[i].scope, c'.prog[i].file, pc) == Ok(Off(cfg, c', name, j))
  {
    LockedAlike(cfg, d, name, c, c', phase);
    SameLength(c, c');
    assert Skeleton(c.prog[i]) == Skeleton(c'.prog[i]) && Skeleton(c.prog[j]) == Skeleton(c'.prog[j]);
    SkeletonKeys(cfg, c.prog[j], c'.prog[j], "");
    SkeletonOperand(c.prog[i], c'.prog[i]);
    RefersSame(cfg, d, c, c', i, j);
    hide Pass1, FinalSyms, Off, Relocatable, LockedAt, Twins, Skeleton, Resolve, Defines;
    LabelIsOffset(cfg, d, name, c, c', phase, j,
      Resolve(FinalSyms(cfg, c').Keys, c'.prog[i].scope, c'.prog[i].file, c'.prog[i].kind.operand.value.name));
  }

  lemma ChosenParts(cfg: Config, name: string, c: Context, c': Context, g: Segment)
    requires Chosen(cfg, name, c, c', g)
    ensures var p := Pass1(cfg, c);
            name in p.segs && SelectOne(p, name, p.segs[name]) == Some(g) && name in c'.segs && c'.segs[name] == g &&
            g.phaseLocked &&
            c'.prog == p.prog && SegsAlike(p.segs, c'.segs)
  {
    hide Pass1, SelectOne;
  }

  /** The segment takes part in the search for residues. */
  predicate Needs(g: Segment) { AtLeastOne(WithRequired(g).requiredAlign) > 1 }

  /** The modulus searched under covers every alignment the last pass met. */
  predicate Covered(g: Segment) { g.relocAlign <= WithRequired(g).requiredAlign }

  /** At the first selection that is so by construction. */
  lemma FirstSelection(p: Context, name: string, s: Segment, g: Segment)
    requires SelectOne(p, name, s) == Some(g) && g.phaseLocked && !s.phaseLocked
    ensures Needs(s) && Covered(s)
  {
    hide BestPhase, SaneAlignment;
  }

  lemma ScoreMeans(p: Context, name: string, phase: int, i: nat)
    requires Score(p, name, phase).Some? && i < |p.prog|
    ensures ContractMet(p, name, phase, i)
  {
    hide NewPc, ContractMet;
  }

  /** What the search established about one branch, in terms of the locked layout. */
  lemma ContractAtResidue(cfg: Config, d: set<Key>, name: string, c: Context, c': Context, g: Segment, i: nat, j: nat)
    requires Relocatable(cfg, d, name, c) && Pass1(cfg, c).errors == c.errors
    requires LockedAt(cfg, d, name, c, c', g.selectedPhase)
    requires Pass1(cfg, c').errors == c'.errors && Score(Pass1(cfg, c), name, g.selectedPhase).Some?
    requires FoundBySpelling(cfg, name, c, i, j) && Contracted(c.prog[i]) && Pass1(cfg, c).prog[i].active
    ensures BranchFits(Off(cfg, c', name, i) + 2, Off(cfg, c', name, j))
    ensures Crosses(g.selectedPhase, Off(cfg, c', name, i), Off(cfg, c', name, j)) == (c.prog[i].kind.page == PageCross)
  {
    hide Pass1, FinalSyms, Off, Relocatable, LockedAt, Eval, FoundBySpelling, Score, NewOffset, TargetOffset, Crosses,
         BranchFits, Skeleton;
    SpellingLength(cfg, name, c, i, j);
    PassStmt(cfg, c, i);
    var p := Pass1(cfg, c);
    ScoreMeans(p, name, g.selectedPhase, i);
    OffsetsKnown(cfg, d, name, c, c', g.selectedPhase, i);
    var v := Eval(p.prog[i].kind.operand.value, p.syms, p.prog[i].scope, p.prog[i].file, p.prog[i].address + 1);
    if v.Ok? { SpellingFound(cfg, d, name, c, c', g.selectedPhase, i, j, v.value); }
  }

  lemma SearchResult(p: Context, name: string, s: Segment, g: Segment)
    requires SelectOne(p, name, s) == Some(g) && Needs(s)
    ensures 0 <= g.selectedPhase < g.requiredAlign && Score(p, name, g.selectedPhase).Some?
    ensures g.requiredAlign == WithRequired(s).requiredAlign && IsPow2(g.requiredAlign)
    ensures g.selectedPhase % AtLeastOne(s.explicitAlign) == 0 && IsPow2(AtLeastOne(s.explicitAlign))
    ensures AtLeastOne(s.explicitAlign) <= g.requiredAlign
  {
    SelectionExact(p, name, s);
    hide SelectOne, Score, AtLeastAsGood, IsPow2;
  }

  /** The page contracts are kept wherever the linker may put the component: at every base with the chosen residue a
      `.same` branch stays on the page of its next instruction and a `.cross` branch leaves it. */
  lemma PageContractsHold(cfg: Config, d: set<Key>, name: string, c: Context, c': Context, g: Segment, i: nat, j: nat,
      base: int)
    requires Relocatable(cfg, d, name, c) && Pass1(cfg, c).errors == c.errors && Chosen(cfg, name, c, c', g)
    requires Pass1(cfg, c').errors == c'.errors && Needs(Pass1(cfg, c).segs[name])
    requires FoundBySpelling(cfg, name, c, i, j) && Contracted(c.prog[i]) && Pass1(cfg, c).prog[i].active
    requires g.requiredAlign % 256 == 0 && g.requiredAlign > 0 && base % g.requiredAlign == g.selectedPhase
    ensures i < |c'.prog| && c'.prog[i].kind.Insn? && c'.prog[i].kind.operand.Some?
    ensures var t := Eval(c'.prog[i].kind.operand.value, FinalSyms(cfg, c'), c'.prog[i].scope, c'.prog[i].file, Off(cfg, c', name, i) + 1);
            t.Ok? && t.value == Off(cfg, c', name, j) && BranchFits(Off(cfg, c', name, i) + 2, t.value) &&
            (((base + Off(cfg, c', name, i) + 2) / 256) % 256 != ((base + t.value) / 256) % 256 <==> c.prog[i].kind.page == PageCross)
  {
    hide *;
    ChosenIsLocked(cfg, d, name, c, c', g);
    SameTarget(cfg, d, name, c, c', g.selectedPhase, i, j);
    ChosenParts(cfg, name, c, c', g);
    SpellingLength(cfg, name, c, i, j);
    SearchResult(Pass1(cfg, c), name, Pass1(cfg, c).segs[name], g);
    ContractAtResidue(cfg, d, name, c, c', g, i, j);
    SmallResidue(g.selectedPhase, g.requiredAlign);
    SamePages(base, g.selectedPhase, g.requiredAlign, Off(cfg, c', name, i), Off(cfg, c', name, j));
    CrossesExact(base, Off(cfg, c', name, i), Off(cfg, c', name, j));
  }

  lemma SpellingLength(cfg: Config, name: string, c: Context, i: nat, j: nat)
    requires FoundBySpelling(cfg, name, c, i, j)
    ensures i < |c.prog| && c.prog[i].segment == name
  {
    hide Pass1, FinalSyms;
  }

  lemma SmallResidue(x: int, m: int)
    requires 0 <= x < m
    ensures x % m == x
  {
  }

  // ---- interior alignment

  /** The modulus a pass collects covers every alignment it met. */
  lemma {:induction false} ModulusCovers(cfg: Config, c: Context, name: string, i: nat, n: nat)
    requires i < n <= |c.prog| && name in c.segs && c.prog[i].segment == name
    ensures name in At(cfg, Start(cfg, c), c.prog, n).segs
    ensures MotionOf(cfg, c, i).AlignTo? ==>
              MotionOf(cfg, c, i).boundary <= At(cfg, Start(cfg, c), c.prog, n).segs[name].relocAlign
    decreases n
  {
    hide MotionOf, Start, At;
    SegsStay(cfg, c, n - 1);
    SegsStay(cfg, c, n);
    if c.prog[n - 1].segment in c.segs {
      MotionMoves(cfg, c, n - 1);
      MovedModulus(At(cfg, Start(cfg, c), c.prog, n - 1).segs[c.prog[n - 1].segment], MotionOf(cfg, c, n - 1));
      hide Moved;
      if i < n - 1 { ModulusCovers(cfg, c, name, i, n - 1); }
    } else {
      ModulusCovers(cfg, c, name, i, n - 1);
      SegmentGoneStep(cfg, c, n - 1);
    }
  }

  lemma SegmentGoneStep(cfg: Config, c: Context, i: nat)
    requires i < |c.prog| && c.prog[i].segment !in c.segs
    ensures At(cfg, Start(cfg, c), c.prog, i + 1).segs == At(cfg, Start(cfg, c), c.prog, i).segs
  {
    SegsStay(cfg, c, i);
    hide Start;
  }

  lemma MovedModulus(g: Segment, m: Motion)
    ensures Moved(g, m).relocAlign >= g.relocAlign
    ensures m.AlignTo? ==> Moved(g, m).relocAlign >= m.boundary
  {
  }

  /** What an object-mode alignment that succeeds looks like. */
  lemma AlignShape(cfg: Config, g: Segment, syms: Symtab, s: Stmt, pc: int)
    requires cfg.objectMode && !g.rorgActive && IsAlign(s) && !AlignMotion(cfg, g, syms, s, s.kind.dir.args, pc).Fail?
    ensures var args := s.kind.dir.args;
            var b := Arg(s, syms, args[0], pc); var o := if |args| > 1 then Arg(s, syms, args[1], pc) else Ok(0);
            var m := AlignMotion(cfg, g, syms, s, args, pc);
            m.AlignTo? && b == Ok(m.boundary) && IsPow2(m.boundary) && o.Ok? && 0 <= o.value < m.boundary &&
            (g.relocPhase + g.pc + m.pad - o.value) % m.boundary == 0
  {
    var b := Arg(s, syms, s.kind.dir.args[0], pc);
    if b.Ok? && b.value >= 1 { PowerOfTwoTestExact(b.value); }
    hide Eval, PowerOfTwoTest, IsPow2;
  }

  /** Moving by a multiple of the modulus keeps a zero remainder. */
  lemma AlignedAt(base: int, phase: int, m: int, b: int, x: int)
    requires IsPow2(m) && IsPow2(b) && b <= m && base % m == phase % m && (phase + x) % b == 0
    ensures (base + x) % b == 0
  {
    PowersDivide(b, m);
    CongruentModDivisor(base, phase, m, b);
    var q := ModEqualDifference(base, phase, b);
    ModAdd(phase + x, q, b);
  }

  /** The alignment a selected component meets at statement `i`. */
  lemma AlignInLocked(cfg: Config, d: set<Key>, name: string, c: Context, c': Context, phase: int, i: nat)
    requires Relocatable(cfg, d, name, c) && Pass1(cfg, c).errors == c.errors && LockedAt(cfg, d, name, c, c', phase)
    requires Pass1(cfg, c').errors == c'.errors
    requires i < |c.prog| && Member(Pass1(cfg, c).prog[i], name) && IsAlign(c.prog[i])
    ensures |c'.prog| == |c.prog| && c.prog[i].segment == name
    ensures MotionOf(cfg, c, i).AlignTo? && MotionOf(cfg, c', i).AlignTo?
    ensures MotionOf(cfg, c, i).boundary == MotionOf(cfg, c', i).boundary
    ensures var m := MotionOf(cfg, c', i); var args := c.prog[i].kind.dir.args;
            var o := if |args| > 1 then Arg(c.prog[i], map[], args[1], 0) else Ok(0);
            args != [] && Arg(c.prog[i], map[], args[0], 0) == Ok(m.boundary) && IsPow2(m.boundary) && o.Ok? &&
            0 <= o.value < m.boundary && (phase + Off(cfg, c', name, i + 1) - o.value) % m.boundary == 0
  {
    hide *;
    AlignTwin(cfg, d, name, c, c', phase, i);
    AlignPredicted(cfg, d, name, c, c', phase, i);
    TwinSelf(cfg, d, name, c);
    LockedFree(cfg, d, name, c, c', phase);
    MemberSegment(cfg, c, i, name);
    OffMoves(cfg, d, name, c', i);
    AlignHere(cfg, d, name, c', phase, i);
    ArgShared(c.prog[i], c'.prog[i]);
  }

  lemma ArgShared(s: Stmt, t: Stmt)
    requires t.scope == s.scope && t.file == s.file
    ensures forall e: Expr, pc: int :: Arg(s, map[], e, pc) == Arg(t, map[], e, pc)
  {
    hide Eval;
  }

  lemma MemberSegment(cfg: Config, c: Context, i: nat, name: string)
    requires Pass1(cfg, c).errors == c.errors && i < |c.prog| && Member(Pass1(cfg, c).prog[i], name)
    ensures c.prog[i].segment == name
  {
    PassStmt(cfg, c, i);
    hide Pass1, Skeleton;
  }

  lemma AlignHere(cfg: Config, d: set<Key>, name: string, c: Context, phase: int, i: nat)
    requires AllLayoutFree(cfg, d, c.prog) && cfg.objectMode && i < |c.prog| && name in c.segs
    requires c.prog[i].segment == name
    requires Pass1(cfg, c).errors == c.errors && c.segs[name].phaseLocked && c.segs[name].selectedPhase == phase
    requires IsAlign(c.prog[i]) && ClosedArgs(c.prog[i]) && MotionOf(cfg, c, i).AlignTo?
    ensures var m := MotionOf(cfg, c, i); var args := c.prog[i].kind.dir.args;
            var o := if |args| > 1 then Arg(c.prog[i], map[], args[1], 0) else Ok(0);
            args != [] && Arg(c.prog[i], map[], args[0], 0) == Ok(m.boundary) && IsPow2(m.boundary) && o.Ok? &&
            0 <= o.value < m.boundary && (phase + Off(cfg, c, name, i) + Room(m) - o.value) % m.boundary == 0
  {
    hide Pass1, At, Start, AllLayoutFree, AfterNames, IsPow2, AlignMotion, Eval;
    SegsStay(cfg, c, i);
    NoRorg(cfg, d, c, i, name);
    LockedPhase(cfg, name, c, i);
    var st := At(cfg, Start(cfg, c), c.prog, i);
    var s := c.prog[i];
    var syms, pc := AfterNames(cfg, st, s).syms, LogicalPc(st.segs[name]);
    AlignShape(cfg, st.segs[name], syms, s, pc);
    assert s.kind.dir.args != [] by { NoArgsFail(cfg, st.segs[name], syms, s, pc); }
    EvalClosed(s.kind.dir.args[0], syms, map[], s.scope, s.file, pc, 0);
    if |s.kind.dir.args| > 1 { EvalClosed(s.kind.dir.args[1], syms, map[], s.scope, s.file, pc, 0); }
  }

  lemma NoArgsFail(cfg: Config, g: Segment, syms: Symtab, s: Stmt, pc: int)
    requires IsAlign(s) && !AlignMotion(cfg, g, syms, s, s.kind.dir.args, pc).Fail?
    ensures s.kind.dir.args != []
  {
  }

  /** Alignment is absolute: at every base with the chosen residue what follows an interior `.align B, off` sits at
      `off` modulo B, and the base itself respects the segment's own alignment. */
  lemma AlignmentAbsolute(cfg: Config, d: set<Key>, name: string, c: Context, c': Context, g: Segment, i: nat,
      base: int)
    requires Relocatable(cfg, d, name, c) && Pass1(cfg, c).errors == c.errors && Chosen(cfg, name, c, c', g)
    requires Pass1(cfg, c').errors == c'.errors && Needs(Pass1(cfg, c).segs[name]) && Covered(Pass1(cfg, c).segs[name])
    requires i < |c.prog| && Member(Pass1(cfg, c).prog[i], name) && IsAlign(c.prog[i])
    requires g.requiredAlign > 0 && base % g.requiredAlign == g.selectedPhase
    ensures base % AtLeastOne(Pass1(cfg, c).segs[name].explicitAlign) == 0
    ensures |c'.prog| == |c.prog|
    ensures var args := c.prog[i].kind.dir.args;
            args != [] && var b := Arg(c.prog[i], map[], args[0], 0);
            var o := if |args| > 1 then Arg(c.prog[i], map[], args[1], 0) else Ok(0);
            b.Ok? && o.Ok? && 0 <= o.value < b.value && (base + Off(cfg, c', name, i + 1) - o.value) % b.value == 0
  {
    hide *;
    ChosenIsLocked(cfg, d, name, c, c', g);
    ChosenParts(cfg, name, c, c', g);
    AlignInLocked(cfg, d, name, c, c', g.selectedPhase, i);
    var p := Pass1(cfg, c);
    SearchResult(p, name, p.segs[name], g);
    AlignDir(c.prog[i]);
    RelocName(cfg, d, name, c);
    ModulusCovers(cfg, c, name, i, |c.prog|);
    FinalLock(cfg, c, name);
    CoveredByRequired(p.segs[name], MotionOf(cfg, c, i).boundary, g.requiredAlign);
    SmallResidue(g.selectedPhase, g.requiredAlign);
    ZeroAligned(base, g.selectedPhase, g.requiredAlign, AtLeastOne(p.segs[name].explicitAlign));
    var args := c.prog[i].kind.dir.args;
    var o := if |args| > 1 then Arg(c.prog[i], map[], args[1], 0) else Ok(0);
    SumOrder(g.selectedPhase, Off(cfg, c', name, i + 1), o.value, MotionOf(cfg, c', i).boundary);
    AlignedAt(base, g.selectedPhase, g.requiredAlign, MotionOf(cfg, c', i).boundary, Off(cfg, c', name, i + 1) - o.value);
  }

  lemma SumOrder(a: int, b: int, c: int, m: int)
    requires m > 0 && (a + b - c) % m == 0
    ensures (a + (b - c)) % m == 0
  {
  }

  lemma ZeroAligned(base: int, phase: int, m: int, e: int)
    requires IsPow2(m) && IsPow2(e) && e <= m && base % m == phase % m && phase % e == 0
    ensures base % e == 0
  {
    assert phase + 0 == phase && base + 0 == base;
    AlignedAt(base, phase, m, e, 0);
  }

  lemma AlignDir(s: Stmt)
    requires IsAlign(s)
    ensures s.kind.Dir?
  {
  }

  lemma RelocName(cfg: Config, d: set<Key>, name: string, c: Context)
    requires Relocatable(cfg, d, name, c)
    ensures name in c.segs
  {
    hide AllLayoutFree, NoSizeNames, SizesMatch, ClosedArgs;
  }

  lemma CoveredByRequired(g: Segment, boundary: int, required: int)
    requires boundary <= g.relocAlign && Covered(g) && required == WithRequired(g).requiredAlign
    ensures boundary <= required
  {
  }

  // ---- selecting again

  /** A pass leaves the lock and its modulus alone. */
  lemma {:induction false} LockKept(cfg: Config, c: Context, name: string, n: nat)
    requires n <= |c.prog| && name in c.segs
    ensures name in At(cfg, Start(cfg, c), c.prog, n).segs
    ensures var g := At(cfg, Start(cfg, c), c.prog, n).segs[name];
            g.phaseLocked == c.segs[name].phaseLocked && g.requiredAlign == c.segs[name].requiredAlign
  {
    hide *;
    SegsStay(cfg, c, n);
    if n == 0 {
      StartLock(cfg, c, name);
    } else {
      SegsStay(cfg, c, n - 1);
      LockKept(cfg, c, name, n - 1);
      if c.prog[n - 1].segment in c.segs {
        MotionMoves(cfg, c, n - 1);
        MovedLock(At(cfg, Start(cfg, c), c.prog, n - 1).segs[c.prog[n - 1].segment], MotionOf(cfg, c, n - 1));
      } else {
        SegmentGoneStep(cfg, c, n - 1);
      }
    }
  }

  lemma StartLock(cfg: Config, c: Context, name: string)
    requires name in c.segs
    ensures var g := At(cfg, Start(cfg, c), c.prog, 0).segs;
            name in g && g[name].phaseLocked == c.segs[name].phaseLocked &&
            g[name].requiredAlign == c.segs[name].requiredAlign &&
            (c.segs[name].phaseLocked && c.segs[name].requiredAlign > 1 ==> g[name].relocAlign == c.segs[name].requiredAlign)
  {
    hide Publish;
  }

  lemma MovedLock(g: Segment, m: Motion)
    ensures Moved(g, m).phaseLocked == g.phaseLocked && Moved(g, m).requiredAlign == g.requiredAlign
    ensures Moved(g, m).relocAlign <= g.relocAlign || (m.AlignTo? && Moved(g, m).relocAlign <= m.boundary)
  {
  }

  /** `e` is the same program as `c` in whatever forms, the lock on segment `name` and its modulus left alone. */
  predicate Resumes(cfg: Config, d: set<Key>, name: string, c: Context, e: Context) {
    Twins(cfg, d, c, e) && SizesMatch(e.prog) && name in c.segs && name in e.segs &&
    c.segs[name].phaseLocked && e.segs[name].phaseLocked && e.segs[name].requiredAlign == c.segs[name].requiredAlign
  }

  /** Once locked, the modulus a pass collects stays within the one searched under, whatever the forms are. */
  lemma {:induction false} ModulusStays(cfg: Config, d: set<Key>, name: string, c: Context, e: Context, bound: int,
      n: nat)
    requires Relocatable(cfg, d, name, c) && Pass1(cfg, c).errors == c.errors && Twins(cfg, d, c, e)
    requires Pass1(cfg, e).errors == e.errors && n <= |e.prog| && name in e.segs && name in Pass1(cfg, c).segs
    requires e.segs[name].phaseLocked && e.segs[name].requiredAlign == bound > 1
    requires Pass1(cfg, c).segs[name].relocAlign <= bound
    ensures name in At(cfg, Start(cfg, e), e.prog, n).segs
    ensures At(cfg, Start(cfg, e), e.prog, n).segs[name].relocAlign <= bound
  {
    hide *;
    TwinShape(cfg, d, c, e);
    RelocName(cfg, d, name, c);
    SegsStay(cfg, e, n);
    if n == 0 {
      StartLock(cfg, e, name);
    } else {
      SegsStay(cfg, e, n - 1);
      ModulusStays(cfg, d, name, c, e, bound, n - 1);
      if e.prog[n - 1].segment in e.segs {
        MotionMoves(cfg, e, n - 1);
        MovedLock(At(cfg, Start(cfg, e), e.prog, n - 1).segs[e.prog[n - 1].segment], MotionOf(cfg, e, n - 1));
        if e.prog[n - 1].segment == name && MotionOf(cfg, e, n - 1).AlignTo? {
          BoundarySame(cfg, d, name, c, e, n - 1);
          ModulusCovers(cfg, c, name, n - 1, |c.prog|);
          FinalLock(cfg, c, name);
        }
      } else {
        SegmentGoneStep(cfg, e, n - 1);
      }
    }
  }

  lemma TwinShape(cfg: Config, d: set<Key>, c: Context, e: Context)
    requires Twins(cfg, d, c, e)
    ensures |c.prog| == |e.prog| && SegsAlike(c.segs, e.segs) && c.segs.Keys == e.segs.Keys
  {
    hide AllLayoutFree, NoSizeNames, Skeleton;
  }

  /** An alignment met in any forms at any residue was met, with the same boundary, before. */
  lemma BoundarySame(cfg: Config, d: set<Key>, name: string, c: Context, e: Context, i: nat)
    requires Relocatable(cfg, d, name, c) && Pass1(cfg, c).errors == c.errors && Twins(cfg, d, c, e)
    requires Pass1(cfg, e).errors == e.errors && i < |e.prog| && |c.prog| == |e.prog|
    requires e.prog[i].segment == name && MotionOf(cfg, e, i).AlignTo?
    ensures c.prog[i].segment == name && MotionOf(cfg, c, i).AlignTo?
    ensures MotionOf(cfg, c, i).boundary == MotionOf(cfg, e, i).boundary
  {
    hide *;
    AlignMember(cfg, e, i);
    SameAlignStmt(cfg, d, name, c, e, i);
    LaidAgrees(cfg, d, c, e, i);
    LaidStays(cfg, c, i);
    LaidStays(cfg, e, i);
    UnknownSegment(cfg, c, i);
    UnknownSegment(cfg, e, i);
    LaidAt(cfg, c, i);
    LaidAt(cfg, e, i);
    AtAgrees(cfg, d, c, e, i);
    ActiveMotion(cfg, c, i);
    var st, st' := At(cfg, Start(cfg, c), c.prog, i), At(cfg, Start(cfg, e), e.prog, i);
    LaidShape(cfg, st, c.prog[i]);
    LaidShape(cfg, st', e.prog[i]);
    RelatedAlign(d, st, st', name);
    AlignMotionOf(cfg, c, i);
    AlignMotionOf(cfg, e, i);
    AlignParts(cfg, st.segs[name], AfterNames(cfg, st, c.prog[i]).syms, c.prog[i], LogicalPc(st.segs[name]), map[], c.prog[i],
               st'.segs[name].relocPhase, st'.segs[name], AfterNames(cfg, st', e.prog[i]).syms, e.prog[i], LogicalPc(st'.segs[name]));
  }

  /** An alignment is the same statement in both contexts. */
  lemma SameAlignStmt(cfg: Config, d: set<Key>, name: string, c: Context, e: Context, i: nat)
    requires Relocatable(cfg, d, name, c) && Twins(cfg, d, c, e) && i < |c.prog| && i < |e.prog| && IsAlign(e.prog[i])
    ensures e.prog[i].kind == c.prog[i].kind && e.prog[i].segment == c.prog[i].segment && IsAlign(c.prog[i])
    ensures c.prog[i].kind.Dir?
    ensures e.prog[i].scope == c.prog[i].scope && e.prog[i].file == c.prog[i].file && ClosedArgs(c.prog[i])
    ensures cfg.objectMode
  {
    hide AllLayoutFree, NoSizeNames, SizesMatch, Over;
    assert Skeleton(c.prog[i]) == Skeleton(e.prog[i]);
    SkeletonKeys(cfg, c.prog[i], e.prog[i], "");
    assert ClosedArgs(c.prog[i]);
  }

  lemma AlignMember(cfg: Config, c: Context, i: nat)
    requires Pass1(cfg, c).errors == c.errors && i < |c.prog| && MotionOf(cfg, c, i).AlignTo?
    ensures IsAlign(c.prog[i]) && Pass1(cfg, c).prog[i].active
  {
    hide Pass1, At, Start, AfterNames, LogicalPc, Arg, AlignPadding, PowerOfTwoTest, DecodeString, ProcName, Step;
    UnknownSegment(cfg, c, i);
    LaidAt(cfg, c, i);
    LaidStays(cfg, c, i);
    LaidShape(cfg, At(cfg, Start(cfg, c), c.prog, i), c.prog[i]);
  }

  /** Later passes keep the lock: a relaxation pass over `e` resumes what `e` resumed. */
  lemma ResumesPass(cfg: Config, d: set<Key>, name: string, c: Context, e: Context)
    requires Resumes(cfg, d, name, c, e) && Pass1(cfg, e).errors == e.errors
    ensures Resumes(cfg, d, name, c, RelaxPass(cfg, e))
  {
    hide *;
    ResumesParts(cfg, d, name, c, e);
    RelaxPassKeeps(cfg, d, e);
    SteadySizes(cfg, d, RelaxPass(cfg, e));
    TwinsTransitive(cfg, d, c, e, RelaxPass(cfg, e));
    LockKept(cfg, e, name, |e.prog|);
    FinalLock(cfg, e, name);
    SegsAfterPass(cfg, e);
    ResumesFrom(cfg, d, name, c, RelaxPass(cfg, e));
  }

  lemma SegsAfterPass(cfg: Config, e: Context)
    ensures RelaxPass(cfg, e).segs == Pass1(cfg, e).segs
  {
    hide Pass1;
  }

  lemma ResumesParts(cfg: Config, d: set<Key>, name: string, c: Context, e: Context)
    requires Resumes(cfg, d, name, c, e)
    ensures Twins(cfg, d, c, e) && Steady(cfg, d, e) && name in c.segs && name in e.segs
    ensures c.segs[name].phaseLocked && e.segs[name].phaseLocked
    ensures e.segs[name].requiredAlign == c.segs[name].requiredAlign
  {
    hide Skeleton, LayoutFree, NoSizeNames, SizesMatch;
    FreeSame(cfg, d, c.prog, e.prog);
  }

  lemma ResumesFrom(cfg: Config, d: set<Key>, name: string, c: Context, e: Context)
    requires Twins(cfg, d, c, e) && SizesMatch(e.prog) && name in c.segs && name in e.segs
    requires c.segs[name].phaseLocked && e.segs[name].phaseLocked
    requires e.segs[name].requiredAlign == c.segs[name].requiredAlign
    ensures Resumes(cfg, d, name, c, e)
  {
    hide Twins, SizesMatch;
  }

  /** So does every quiet run of the relaxer. */
  lemma {:induction false} ResumesRun(cfg: Config, d: set<Key>, name: string, c: Context, e: Context, k: nat)
    requires Resumes(cfg, d, name, c, e) && Quiet(cfg, e, k)
    ensures Resumes(cfg, d, name, c, Iterate(cfg, e, k))
  {
    hide Resumes, Quiet, Pass1, RelaxPass;
    if k > 0 {
      QuietSteps(cfg, e, k - 1, k);
      ResumesRun(cfg, d, name, c, e, k - 1);
      ResumesPass(cfg, d, name, c, Iterate(cfg, e, k - 1));
    }
  }

  /** What the driver hands to the relaxer after a selection: the selected layout, every instruction reset to some
      form. */
  lemma ResetResumes(cfg: Config, d: set<Key>, name: string, c: Context, e: Context)
    requires Twins(cfg, d, c, c) && Pass1(cfg, c).errors == c.errors && name in c.segs && c.segs[name].phaseLocked
    requires SameShape(Pass1(cfg, c).prog, e.prog) && SizesMatch(e.prog) && e.segs == Pass1(cfg, c).segs
    ensures Resumes(cfg, d, name, c, e)
  {
    hide *;
    PassForms(cfg, c);
    PassSegs(cfg, c);
    TwinThrough(cfg, d, c, Pass1(cfg, c).prog, e);
    LockKept(cfg, c, name, |c.prog|);
    FinalLock(cfg, c, name);
    ResumesFrom(cfg, d, name, c, e);
  }

  lemma TwinThrough(cfg: Config, d: set<Key>, c: Context, prog: seq<Stmt>, e: Context)
    requires Twins(cfg, d, c, c) && SameShape(c.prog, prog) && SameShape(prog, e.prog) && SegsAlike(c.segs, e.segs)
    ensures Twins(cfg, d, c, e)
  {
    hide Skeleton, AllLayoutFree, NoSizeNames;
  }

  /** After a selection the next one is covered too, whatever forms the instructions have been given in between. */
  lemma CoverKept(cfg: Config, d: set<Key>, name: string, c: Context, c': Context, g: Segment, e: Context)
    requires Relocatable(cfg, d, name, c) && Pass1(cfg, c).errors == c.errors && Chosen(cfg, name, c, c', g)
    requires Needs(Pass1(cfg, c).segs[name]) && Covered(Pass1(cfg, c).segs[name])
    requires Resumes(cfg, d, name, c', e) && Pass1(cfg, e).errors == e.errors
    ensures Relocatable(cfg, d, name, e)
    ensures name in Pass1(cfg, e).segs && Needs(Pass1(cfg, e).segs[name]) && Covered(Pass1(cfg, e).segs[name])
  {
    hide *;
    ChosenIsLocked(cfg, d, name, c, c', g);
    ChosenParts(cfg, name, c, c', g);
    LockedAlike(cfg, d, name, c, c', g.selectedPhase);
    ResumesParts(cfg, d, name, c', e);
    TwinsTransitive(cfg, d, c, c', e);
    RelocatableKept(cfg, d, name, c, e);
    var s := Pass1(cfg, c).segs[name];
    SearchResult(Pass1(cfg, c), name, s, g);
    NeededModulus(s);
    ModulusStays(cfg, d, name, c, e, g.requiredAlign, |e.prog|);
    LockKept(cfg, e, name, |e.prog|);
    FinalLock(cfg, e, name);
    StillCovered(Pass1(cfg, e).segs[name], g.requiredAlign);
  }

  /** The driver's loop: a selection, the instructions reset to any forms, any number of relaxation passes, and the next
      selection again meets the premises of the results above. */
  lemma RepeatedSelection(cfg: Config, d: set<Key>, name: string, c: Context, c': Context, g: Segment, e: Context,
      k: nat)
    requires Relocatable(cfg, d, name, c) && Pass1(cfg, c).errors == c.errors && Chosen(cfg, name, c, c', g)
    requires Needs(Pass1(cfg, c).segs[name]) && Covered(Pass1(cfg, c).segs[name])
    requires Resumes(cfg, d, name, c', e) && Quiet(cfg, e, k + 1)
    ensures var x := Iterate(cfg, e, k);
            Relocatable(cfg, d, name, x) && Pass1(cfg, x).errors == x.errors &&
            name in Pass1(cfg, x).segs && Needs(Pass1(cfg, x).segs[name]) && Covered(Pass1(cfg, x).segs[name])
  {
    hide *;
    QuietSteps(cfg, e, k, k + 1);
    ResumesRun(cfg, d, name, c', e, k);
    CoverKept(cfg, d, name, c, c', g, Iterate(cfg, e, k));
  }

  /** The class of programs is kept as well. */
  lemma RelocatableKept(cfg: Config, d: set<Key>, name: string, c: Context, e: Context)
    requires Relocatable(cfg, d, name, c) && Twins(cfg, d, c, e) && Steady(cfg, d, e)
    ensures Relocatable(cfg, d, name, e)
  {
    TwinShape(cfg, d, c, e);
    NoOrgKept(cfg, c.prog, e.prog);
    hide AllLayoutFree, NoSizeNames, SizesMatch, Over, NoOrg;
    forall i | 0 <= i < |e.prog| && IsAlign(e.prog[i])
      ensures ClosedArgs(e.prog[i])
    {
      assert Skeleton(c.prog[i]) == Skeleton(e.prog[i]);
      SkeletonKeys(cfg, c.prog[i], e.prog[i], "");
    }
  }

  lemma NeededModulus(g: Segment)
    requires Needs(g) && Covered(g)
    ensures WithRequired(g).requiredAlign > 1 && g.relocAlign <= WithRequired(g).requiredAlign
  {
  }

  lemma FinalLock(cfg: Config, c: Context, name: string)
    requires name in c.segs
    ensures name in Pass1(cfg, c).segs && name in At(cfg, Start(cfg, c), c.prog, |c.prog|).segs
    ensures var g, h := Pass1(cfg, c).segs[name], At(cfg, Start(cfg, c), c.prog, |c.prog|).segs[name];
            g.relocAlign == h.relocAlign && g.phaseLocked == h.phaseLocked && g.requiredAlign == h.requiredAlign
  {
    SegsStay(cfg, c, |c.prog|);
    hide Step, Publish, FinalSyms, CheckErrors, LaidProg;
  }

  lemma StillCovered(g: Segment, required: int)
    requires g.phaseLocked && g.requiredAlign == required > 1 && g.relocAlign <= required
    ensures Needs(g) && Covered(g)
  {
  }
}
