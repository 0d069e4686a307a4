/** Which residues the scorer admits and which one is chosen, in terms of the layout pass 1 makes once a residue is
    locked (assembler/asm_pass.c, segment_phase_candidate_score and asm_select_reloc_phases). */
module PhaseExact {
  import opened Support
  import opened Expressions
  import opened Opcodes
  import opened Program
  import opened Layout
  import opened Agreement
  import opened Tiling
  import opened NonInterference
  import opened Labels
  import opened RelaxSafety
  import opened RelaxRun
  import opened Encoding
  import opened PhaseScore
  import opened PhaseChoice
  import opened PhaseSound

  /** The laid-out program with segment `name` locked at residue `q`. */
  function LockedTo(cfg: Config, c: Context, name: string, q: int): Context {
    var p := Pass1(cfg, c);
    if name in p.segs then p.(segs := p.segs[name := p.segs[name].(selectedPhase := q, phaseLocked := true)]) else p
  }

  lemma LockedToLocks(cfg: Config, d: set<Key>, name: string, c: Context, q: int)
    requires Relocatable(cfg, d, name, c) && Pass1(cfg, c).errors == c.errors
    ensures LockedAt(cfg, d, name, c, LockedTo(cfg, c, name, q), q)
  {
    hide *;
    TwinSelf(cfg, d, name, c);
    PassSegs(cfg, c);
    LockedParts(cfg, c, name, q);
    PassForms(cfg, c);
    var c' := LockedTo(cfg, c, name, q);
    SameFormsSmaller(c, c', Pass1(cfg, c).prog);
    AlikeThrough(c.segs, Pass1(cfg, c).segs, c'.segs);
    LockedFromParts(cfg, d, name, c, c', q);
  }

  lemma LockedParts(cfg: Config, c: Context, name: string, q: int)
    requires name in c.segs && SegsAlike(c.segs, Pass1(cfg, c).segs)
    ensures var c' := LockedTo(cfg, c, name, q);
            c'.prog == Pass1(cfg, c).prog && SegsAlike(Pass1(cfg, c).segs, c'.segs) && name in c'.segs &&
            c'.segs[name].phaseLocked && c'.segs[name].selectedPhase == q
  {
    hide Pass1;
  }

  /** Statement `i` of the last pass is an active branch of the segment with a page contract. */
  predicate Bound(cfg: Config, name: string, c: Context, i: nat) {
    i < |c.prog| && c.prog[i].segment == name && Contracted(c.prog[i]) && Pass1(cfg, c).prog[i].active
  }

  /** Every such branch names a label of the segment the scorer finds by its spelling. */
  predicate AllSpelled(cfg: Config, name: string, c: Context) {
    forall i :: 0 <= i < |c.prog| && Bound(cfg, name, c, i) ==>
      exists j :: 0 <= j < |c.prog| && FoundBySpelling(cfg, name, c, i, j)
  }

  function PageAt(address: int): int { (address / 256) % 256 }

  /** In the layout of `e`, at residue `q`, some displacement byte leads the branch at `i` to `j`, and its next
      instruction and its target share a page or not, as the contract asks. */
  ghost predicate Kept(cfg: Config, name: string, e: Context, q: int, page: PageSpec, i: nat, j: nat)
    requires i <= |e.prog| && j <= |e.prog|
  {
    var after, target := Off(cfg, e, name, i) + 2, Off(cfg, e, name, j);
    (exists b: byte :: (after + Signed(b) - target) % 0x10000 == 0) &&
    (PageAt(q + after) == PageAt(q + target) <==> page == PageSame)
  }

  /** Every page contract of the segment is kept in the layout pass 1 makes at residue `q`. */
  ghost predicate ResidueHolds(cfg: Config, name: string, c: Context, q: int) {
    forall i, j :: 0 <= i < |c.prog| && 0 <= j < |c.prog| &&
                   Bound(cfg, name, c, i) && FoundBySpelling(cfg, name, c, i, j) ==>
      Kept(cfg, name, LockedTo(cfg, c, name, q), q, c.prog[i].kind.page, i, j)
  }

  /** A label operand has a value once the pass is done. */
  lemma TargetKnown(cfg: Config, c: Context, i: nat, j: nat)
    requires Pass1(cfg, c).errors == c.errors && RefersTo(cfg, c, i, j)
    ensures i < |c.prog| && Pass1(cfg, c).prog[i].kind == c.prog[i].kind && c.prog[i].kind.Insn?
    ensures c.prog[i].kind.operand.Some?
    ensures var p := Pass1(cfg, c); var s := p.prog[i];
            forall pc :: Eval(c.prog[i].kind.operand.value, p.syms, s.scope, s.file, pc).Ok?
  {
    PassStmt(cfg, c, i);
    PassSyms(cfg, c);
    hide Pass1, FinalSyms, Defines, Laid, At, Start;
    var k := Resolve(FinalSyms(cfg, c).Keys, c.prog[i].scope, c.prog[i].file, c.prog[i].kind.operand.value.name);
    LabelFinal(cfg, c, j, k);
    UnknownHere(cfg, c, j);
    AddressImmutable(At(cfg, Start(cfg, c), c.prog, j).segs[c.prog[j].segment], c.prog[j]);
    SkeletonKeys(cfg, Pass1(cfg, c).prog[i], c.prog[i], "");
  }

  lemma UnknownHere(cfg: Config, c: Context, j: nat)
    requires Pass1(cfg, c).errors == c.errors && j < |c.prog|
    ensures c.prog[j].segment in At(cfg, Start(cfg, c), c.prog, j).segs
  {
    hide Pass1;
    UnknownSegment(cfg, c, j);
  }

  /** The scorer's verdict on one branch is what happens in the locked layout. */
  lemma MetExact(cfg: Config, d: set<Key>, name: string, c: Context, q: int, i: nat, j: nat)
    requires Relocatable(cfg, d, name, c) && Pass1(cfg, c).errors == c.errors
    requires Pass1(cfg, LockedTo(cfg, c, name, q)).errors == LockedTo(cfg, c, name, q).errors
    requires Bound(cfg, name, c, i) && FoundBySpelling(cfg, name, c, i, j)
    ensures i < |c.prog| && j < |c.prog| && |LockedTo(cfg, c, name, q).prog| == |c.prog|
    ensures ContractMet(Pass1(cfg, c), name, q, i) <==>
              Kept(cfg, name, LockedTo(cfg, c, name, q), q, c.prog[i].kind.page, i, j)
  {
    hide *;
    var e := LockedTo(cfg, c, name, q);
    LockedToLocks(cfg, d, name, c, q);
    SpellingShape(cfg, name, c, i, j);
    TargetKnown(cfg, c, i, j);
    LabelKept(cfg, c, i);
    OffsetsKnown(cfg, d, name, c, e, q, i);
    OffsetsKnown(cfg, d, name, c, e, q, j);
    BoundParts(cfg, name, c, i);
    var p := Pass1(cfg, c);
    var s := p.prog[i];
    var v := Eval(s.kind.operand.value, p.syms, s.scope, s.file, s.address + 1).value;
    SpellingFound(cfg, d, name, c, e, q, i, j, v);
    LockedLength(cfg, c, name, q);
    MetFrom(cfg, p, name, q, i, Off(cfg, e, name, i), Off(cfg, e, name, j));
    KeptFrom(cfg, name, e, q, c.prog[i].kind.page, i, j);
  }

  lemma SpellingShape(cfg: Config, name: string, c: Context, i: nat, j: nat)
    requires FoundBySpelling(cfg, name, c, i, j)
    ensures i < |c.prog| && j < |c.prog| && RefersTo(cfg, c, i, j) && c.prog[i].segment == name
  {
    hide Pass1, FinalSyms;
  }

  lemma BoundParts(cfg: Config, name: string, c: Context, i: nat)
    requires Bound(cfg, name, c, i)
    ensures i < |c.prog| && c.prog[i].segment == name && Contracted(c.prog[i]) && Pass1(cfg, c).prog[i].active
    ensures c.prog[i].kind.Insn?
    ensures c.prog[i].kind.page == PageSame || c.prog[i].kind.page == PageCross
  {
    hide Pass1;
  }

  lemma LockedLength(cfg: Config, c: Context, name: string, q: int)
    ensures |LockedTo(cfg, c, name, q).prog| == |c.prog|
  {
  }

  lemma MetFrom(cfg: Config, p: Context, name: string, q: int, i: nat, from: int, to: int)
    requires i < |p.prog| && p.prog[i].active && p.prog[i].segment == name && p.prog[i].kind.Insn?
    requires (p.prog[i].kind.page == PageSame || p.prog[i].kind.page == PageCross) && p.prog[i].kind.operand.Some?
    requires var s := p.prog[i]; var v := Eval(s.kind.operand.value, p.syms, s.scope, s.file, s.address + 1);
             v.Ok? && TargetOffset(p, name, q, s.kind.operand.value, v.value) == to && to >= 0
    requires NewOffset(p, name, q, i) == from
    ensures ContractMet(p, name, q, i) <==>
              BranchFits(from + 2, to) && (Crosses(q, from, to) <==> p.prog[i].kind.page == PageCross)
  {
    hide Eval, TargetOffset, NewOffset, BranchFits, Crosses;
  }

  lemma KeptFrom(cfg: Config, name: string, e: Context, q: int, page: PageSpec, i: nat, j: nat)
    requires i <= |e.prog| && j <= |e.prog| && (page == PageSame || page == PageCross)
    ensures var from, to := Off(cfg, e, name, i), Off(cfg, e, name, j);
            Kept(cfg, name, e, q, page, i, j) <==>
              BranchFits(from + 2, to) && (Crosses(q, from, to) <==> page == PageCross)
  {
    hide BranchFits, Crosses, Off, Signed;
    var from, to := Off(cfg, e, name, i), Off(cfg, e, name, j);
    BranchFitsExact(from + 2, to);
    CrossesExact(q, from, to);
    assert q + (from + 2) == q + from + 2;
  }

  /** The scorer admits a residue if and only if every page contract is kept in the layout pass 1 makes there, and then
      its score is the segment's size in that layout. */
  lemma ScoreExact(cfg: Config, d: set<Key>, name: string, c: Context, q: int)
    requires Relocatable(cfg, d, name, c) && Pass1(cfg, c).errors == c.errors && AllSpelled(cfg, name, c)
    requires Pass1(cfg, LockedTo(cfg, c, name, q)).errors == LockedTo(cfg, c, name, q).errors
    ensures Score(Pass1(cfg, c), name, q).Some? <==> ResidueHolds(cfg, name, c, q)
    ensures |LockedTo(cfg, c, name, q).prog| == |c.prog|
    ensures Score(Pass1(cfg, c), name, q).Some? ==>
              Score(Pass1(cfg, c), name, q).value == Off(cfg, LockedTo(cfg, c, name, q), name, |c.prog|)
  {
    hide Relocatable, Pass1, LockedTo, Off, NewPc, ContractMet, FoundBySpelling, Bound, Kept;
    var e, p := LockedTo(cfg, c, name, q), Pass1(cfg, c);
    LockedToLocks(cfg, d, name, c, q);
    LockedLength(cfg, c, name, q);
    ScoreIsLayout(cfg, d, name, c, e, q, |c.prog|);
    if Score(p, name, q).Some? {
      forall i, j | 0 <= i < |c.prog| && 0 <= j < |c.prog| &&
                    Bound(cfg, name, c, i) && FoundBySpelling(cfg, name, c, i, j)
        ensures c.prog[i].kind.Insn? && Kept(cfg, name, e, q, c.prog[i].kind.page, i, j)
      {
        BoundParts(cfg, name, c, i);
        MetExact(cfg, d, name, c, q, i, j);
        assert ContractMet(p, name, q, i);
      }
    }
    if ResidueHolds(cfg, name, c, q) {
      forall i | 0 <= i < |p.prog|
        ensures ContractMet(p, name, q, i)
      {
        if Bound(cfg, name, c, i) {
          var j :| 0 <= j < |c.prog| && FoundBySpelling(cfg, name, c, i, j);
          MetExact(cfg, d, name, c, q, i, j);
        } else {
          FreeOfContract(cfg, name, c, q, i);
        }
      }
    }
  }

  /** Other statements have nothing to keep. */
  lemma FreeOfContract(cfg: Config, name: string, c: Context, q: int, i: nat)
    requires Pass1(cfg, c).errors == c.errors && i < |c.prog| && !Bound(cfg, name, c, i)
    ensures ContractMet(Pass1(cfg, c), name, q, i)
  {
    hide Pass1, Eval, TargetOffset, NewOffset, BranchFits, Crosses;
    PassStmt(cfg, c, i);
  }

  /** No residue that comes into question makes the next pass report an error. */
  predicate QuietResidues(cfg: Config, name: string, c: Context, required: int, explicit: int)
    requires explicit >= 1
  {
    forall q :: 0 <= q < required && q % explicit == 0 ==>
      Pass1(cfg, LockedTo(cfg, c, name, q)).errors == LockedTo(cfg, c, name, q).errors
  }

  /** The size of the segment in the layout at residue `q`. */
  function SizeAt(cfg: Config, name: string, c: Context, q: int): int {
    var e := LockedTo(cfg, c, name, q);
    Off(cfg, e, name, |e.prog|)
  }

  /** The selection, in terms of layouts alone: a segment is refused exactly when its alignments are no powers of two
      within the limit or no residue keeps its page contracts; otherwise it gets a residue that keeps them, with the
      smallest layout among those that do, the lowest such residue, and one its own alignment allows. */
  lemma SelectionByLayout(cfg: Config, d: set<Key>, name: string, c: Context)
    requires Relocatable(cfg, d, name, c) && Pass1(cfg, c).errors == c.errors && AllSpelled(cfg, name, c)
    requires name in Pass1(cfg, c).segs && Needs(Pass1(cfg, c).segs[name])
    requires var g := Pass1(cfg, c).segs[name];
             QuietResidues(cfg, name, c, WithRequired(g).requiredAlign, AtLeastOne(g.explicitAlign))
    ensures var p := Pass1(cfg, c); var g := p.segs[name]; var r := SelectOne(p, name, g);
            var required, own := WithRequired(g).requiredAlign, AtLeastOne(g.explicitAlign);
            r.None? <==> !(IsPow2(required) && IsPow2(own) && own <= required <= 32768) ||
                         forall q :: 0 <= q < required && q % own == 0 ==> !ResidueHolds(cfg, name, c, q)
    ensures var p := Pass1(cfg, c); var g := p.segs[name]; var r := SelectOne(p, name, g);
            var required, own := WithRequired(g).requiredAlign, AtLeastOne(g.explicitAlign);
            r.Some? ==>
              var s := r.value.selectedPhase;
              r.value.phaseLocked && r.value.requiredAlign == required && 0 <= s < required && s % own == 0 &&
              ResidueHolds(cfg, name, c, s) &&
              forall q :: 0 <= q < required && q % own == 0 && ResidueHolds(cfg, name, c, q) ==>
                SizeAt(cfg, name, c, s) < SizeAt(cfg, name, c, q) ||
                (SizeAt(cfg, name, c, s) == SizeAt(cfg, name, c, q) && s <= q)
  {
    hide Relocatable, Pass1, Off, Score, ResidueHolds, SelectOne, WithRequired, AtLeastOne, IsPow2, FoundBySpelling,
         Bound, AllSpelled, LockedTo;
    var p := Pass1(cfg, c);
    var g := p.segs[name];
    var required, own := WithRequired(g).requiredAlign, AtLeastOne(g.explicitAlign);
    NeedsRequired(g);
    forall q | 0 <= q < required && q % own == 0
      ensures Score(p, name, q).Some? <==> ResidueHolds(cfg, name, c, q)
      ensures Score(p, name, q).Some? ==> Score(p, name, q).value == SizeAt(cfg, name, c, q)
    {
      ScoreExact(cfg, d, name, c, q);
    }
    SelectionExact(p, name, g);
  }

  lemma NeedsRequired(g: Segment)
    requires Needs(g)
    ensures WithRequired(g).requiredAlign > 1
  {
  }

  /** A branch whose operand is no bare label is followed to the last collected statement at the address it had. */
  lemma FallbackExact(p: Context, name: string, q: int, e: Expr, target: int, j: nat)
    requires !e.Ident? && j < |p.prog| && Member(p.prog[j], name) && p.prog[j].address == target
    requires forall k :: j < k < |p.prog| && Member(p.prog[k], name) ==> p.prog[k].address != target
    ensures TargetOffset(p, name, q, e, target) == NewOffset(p, name, q, j)
  {
    hide NewOffset;
  }

  /** The modulus a segment starts a pass with: the one it is locked under, or its own alignment. */
  function FirstModulus(g: Segment): int {
    var own := if g.phaseLocked then g.requiredAlign else g.explicitAlign;
    if own > 1 then own else 1
  }

  /** The modulus a pass collects is the largest of the one it starts with and the boundaries of the alignments it
      meets. */
  lemma {:induction false} ModulusExact(cfg: Config, c: Context, name: string, n: nat)
    requires n <= |c.prog| && name in c.segs
    ensures name in At(cfg, Start(cfg, c), c.prog, n).segs
    ensures var m := At(cfg, Start(cfg, c), c.prog, n).segs[name].relocAlign;
            FirstModulus(c.segs[name]) <= m &&
            (forall i :: 0 <= i < n && AlignsHere(cfg, c, name, i) ==> MotionOf(cfg, c, i).boundary <= m) &&
            (m == FirstModulus(c.segs[name]) ||
             exists i :: 0 <= i < n && AlignsHere(cfg, c, name, i) && MotionOf(cfg, c, i).boundary == m)
  {
    hide MotionOf, Start, At;
    if n == 0 {
      ModulusStarts(cfg, c, name);
    } else {
      ModulusExact(cfg, c, name, n - 1);
      SegsStay(cfg, c, n - 1);
      SegsStay(cfg, c, n);
      var was := At(cfg, Start(cfg, c), c.prog, n - 1).segs[name].relocAlign;
      if c.prog[n - 1].segment in c.segs {
        MotionMoves(cfg, c, n - 1);
        ModulusMoved(At(cfg, Start(cfg, c), c.prog, n - 1).segs[c.prog[n - 1].segment], MotionOf(cfg, c, n - 1));
        hide Moved;
        if AlignsHere(cfg, c, name, n - 1) && MotionOf(cfg, c, n - 1).boundary > was {
        } else if was != FirstModulus(c.segs[name]) {
          var i :| 0 <= i < n - 1 && AlignsHere(cfg, c, name, i) && MotionOf(cfg, c, i).boundary == was;
        }
      } else {
        SegmentGoneStep(cfg, c, n - 1);
        if was != FirstModulus(c.segs[name]) {
          var i :| 0 <= i < n - 1 && AlignsHere(cfg, c, name, i) && MotionOf(cfg, c, i).boundary == was;
        }
      }
    }
  }

  /** The modulus a residue is searched under is the one the pass collected; a locked segment keeps its own. */
  lemma SearchedModulus(cfg: Config, c: Context, name: string)
    requires name in c.segs && Pass1(cfg, c).errors == c.errors
    ensures name in Pass1(cfg, c).segs
    ensures var g := Pass1(cfg, c).segs[name];
            WithRequired(g).requiredAlign == if c.segs[name].phaseLocked then c.segs[name].requiredAlign else g.relocAlign
    ensures Needs(Pass1(cfg, c).segs[name]) <==> WithRequired(Pass1(cfg, c).segs[name]).requiredAlign > 1
  {
    hide Pass1, At, Start;
    ModulusExact(cfg, c, name, |c.prog|);
    LockKept(cfg, c, name, |c.prog|);
    FinalLock(cfg, c, name);
    ExplicitKept(cfg, c, name);
  }

  lemma ExplicitKept(cfg: Config, c: Context, name: string)
    requires name in c.segs
    ensures name in Pass1(cfg, c).segs && Pass1(cfg, c).segs[name].explicitAlign == c.segs[name].explicitAlign
  {
    hide Step, Publish, FinalSyms, CheckErrors, LaidProg;
    SegsStay(cfg, c, |c.prog|);
    ExplicitAt(cfg, c, name, |c.prog|);
  }

  lemma {:induction false} ExplicitAt(cfg: Config, c: Context, name: string, n: nat)
    requires n <= |c.prog| && name in c.segs
    ensures name in At(cfg, Start(cfg, c), c.prog, n).segs
    ensures At(cfg, Start(cfg, c), c.prog, n).segs[name].explicitAlign == c.segs[name].explicitAlign
  {
    hide Step, Publish, MotionOf;
    if n > 0 {
      ExplicitAt(cfg, c, name, n - 1);
      hide Start;
      if c.prog[n - 1].segment in c.segs {
        SegsStay(cfg, c, n - 1);
        MotionMoves(cfg, c, n - 1);
      } else {
        SegmentGoneStep(cfg, c, n - 1);
      }
    }
  }

  /** Statement `i` is an alignment the linker has to keep in segment `name`. */
  predicate AlignsHere(cfg: Config, c: Context, name: string, i: nat)
    requires i < |c.prog|
  {
    c.prog[i].segment == name && name in c.segs && MotionOf(cfg, c, i).AlignTo?
  }

  lemma ModulusStarts(cfg: Config, c: Context, name: string)
    requires name in c.segs
    ensures name in At(cfg, Start(cfg, c), c.prog, 0).segs
    ensures At(cfg, Start(cfg, c), c.prog, 0).segs[name].relocAlign == FirstModulus(c.segs[name])
  {
    hide Publish;
  }

  lemma ModulusMoved(g: Segment, m: Motion)
    ensures Moved(g, m).relocAlign == if m.AlignTo? && m.boundary > g.relocAlign then m.boundary else g.relocAlign
  {
  }
}
