/** The phase scorer's fast re-layout of one relocatable segment, and its agreement with pass 1
    (assembler/asm_pass.c, segment_phase_candidate_score). */
module PhaseScore {
  import opened Support
  import opened Expressions
  import opened Opcodes
  import opened Program
  import opened Layout
  import opened Agreement
  import opened Tiling
  import opened NonInterference
  import opened RelaxSafety

  /** A statement the scorer collects for segment `name`. */
  predicate Member(s: Stmt, name: string) { s.active && s.segment == name }

  /** The emit address of the first collected statement from `i` on, or the segment's end. */
  function NextEmit(prog: seq<Stmt>, name: string, i: nat, end: int): int
    requires i <= |prog|
    decreases |prog| - i
  {
    if i == |prog| then end
    else if Member(prog[i], name) then prog[i].emitAddress
    else NextEmit(prog, name, i + 1, end)
  }

  function EndPc(p: Context, name: string): int { if name in p.segs then p.segs[name].pc else 0 }

  /** phase_layout_entries: the room a statement took in the current layout. */
  function BaseSpan(p: Context, name: string, i: nat): int
    requires i < |p.prog|
  {
    var d := NextEmit(p.prog, name, i + 1, EndPc(p, name)) - p.prog[i].emitAddress;
    if d < 0 then 0 else d
  }

  /** Padding of an `.align` met at `pc` in a component placed at residue `phase`. */
  function AlignSpan(syms: Symtab, s: Stmt, phase: int, pc: int): Option<int>
    requires IsAlign(s)
  {
    var args := s.kind.dir.args;
    if args == [] then None
    else
      match Arg(s, syms, args[0], s.address)
      case Ok(b) =>
        if b <= 0 then None
        else
          (match (if |args| > 1 then Arg(s, syms, args[1], s.address) else Ok(0))
           case Ok(o) => Some(AlignPadding(phase + pc, b, o))
           case _ => None)
      case _ => None
  }

  /** The new offset in front of statement `i`; None once an alignment could not be computed. */
  function NewPc(p: Context, name: string, phase: int, i: nat): Option<int>
    requires i <= |p.prog|
  {
    if i == 0 then Some(NextEmit(p.prog, name, 0, 0))
    else
      match NewPc(p, name, phase, i - 1)
      case None => None
      case Some(pc) =>
        var s := p.prog[i - 1];
        if !Member(s, name) then Some(pc)
        else if !s.rorgActive && IsAlign(s) then
          (match AlignSpan(p.syms, s, phase, pc) case Some(n) => Some(pc + n) case None => None)
        else Some(pc + BaseSpan(p, name, i - 1))
  }

  // ---- the class for which the fast layout is exact

  /** Relocatable programs without origins whose control is layout-free and whose alignments are plain numbers. */
  predicate Relocatable(cfg: Config, d: set<Key>, name: string, c: Context) {
    cfg.objectMode && name in c.segs && c.segs[name].base == 0 && AllLayoutFree(cfg, d, c.prog) &&
    NoSizeNames(cfg, d) &&
    NoOrg(c.prog) && SizesMatch(c.prog) && forall i :: 0 <= i < |c.prog| && IsAlign(c.prog[i]) ==> ClosedArgs(c.prog[i])
  }

  /** No name and no program counter among the arguments. */
  predicate ClosedArgs(s: Stmt)
    requires s.kind.Dir?
  {
    forall j :: 0 <= j < |s.kind.dir.args| ==> Over({}, s.scope, s.file, s.kind.dir.args[j])
  }

  /** `c'` is the same program with the same forms, segment `name` locked at residue `phase`. */
  predicate LockedAt(cfg: Config, d: set<Key>, name: string, c: Context, c': Context, phase: int) {
    Twins(cfg, d, c, c') && Smaller(c, c') && Smaller(c', c) && name in c'.segs &&
    c'.segs[name].phaseLocked && c'.segs[name].selectedPhase == phase
  }

  lemma {:induction false} EvalClosed(e: Expr, s: Symtab, t: Symtab, scope: string, file: string, pc: int, pc': int)
    requires Over({}, scope, file, e)
    ensures Eval(e, s, scope, file, pc) == Eval(e, t, scope, file, pc')
  {
    match e
    case Unary(_, c) => EvalClosed(c, s, t, scope, file, pc, pc');
    case Binary(_, l, r) =>
      EvalClosed(l, s, t, scope, file, pc, pc');
      EvalClosed(r, s, t, scope, file, pc, pc');
    case _ =>
  }

  /** One statement's effect on the segment's offset in a pass. */
  lemma OffMoves(cfg: Config, d: set<Key>, name: string, c: Context, i: nat)
    requires NoOrg(c.prog) && name in c.segs && Pass1(cfg, c).errors == c.errors && i < |c.prog|
    ensures Off(cfg, c, name, i + 1) == Off(cfg, c, name, i) + if c.prog[i].segment ==
              name then Room(MotionOf(cfg, c, i)) else 0
    ensures !Pass1(cfg, c).prog[i].active || c.prog[i].segment != name ==>
              Off(cfg, c, name, i + 1) == Off(cfg, c, name, i)
  {
    hide Pass1, At, Start, MotionOf, AllLayoutFree, Room;
    UnknownSegment(cfg, c, i);
    SegsStay(cfg, c, i);
    PcSteps(cfg, c, name, i);
    InactiveRoom(cfg, c, i);
  }

  lemma InactiveRoom(cfg: Config, c: Context, i: nat)
    requires i < |c.prog| && Pass1(cfg, c).errors == c.errors
    ensures !Pass1(cfg, c).prog[i].active ==> Room(MotionOf(cfg, c, i)) == 0
  {
    hide Pass1, At, Start, Step, StmtMotion;
    UnknownSegment(cfg, c, i);
    LaidStays(cfg, c, i);
    LaidAt(cfg, c, i);
    LaidShape(cfg, At(cfg, Start(cfg, c), c.prog, i), c.prog[i]);
  }

  /** Where a collected statement sits in the current layout. */
  lemma MemberEmit(cfg: Config, d: set<Key>, name: string, c: Context, i: nat)
    requires Relocatable(cfg, d, name, c) && Pass1(cfg, c).errors == c.errors && i < |c.prog|
    ensures Pass1(cfg, c).prog[i].segment == c.prog[i].segment
    ensures Member(Pass1(cfg, c).prog[i], name) ==> Pass1(cfg, c).prog[i].emitAddress == Off(cfg, c, name, i)
    ensures !Pass1(cfg, c).prog[i].rorgActive
    ensures c.prog[i].kind.Dir? ==> Pass1(cfg, c).prog[i].kind == c.prog[i].kind
    ensures Pass1(cfg, c).prog[i].kind.Dir? <==> c.prog[i].kind.Dir?
    ensures Pass1(cfg, c).prog[i].scope == c.prog[i].scope && Pass1(cfg, c).prog[i].file == c.prog[i].file
  {
    var free := AllLayoutFree(cfg, d, c.prog);
    TwinSelf(cfg, d, name, c);
    hide Pass1, At, Start, Step, AllLayoutFree, SymsRelated, Twins, NoSizeNames, SizesMatch;
    UnknownSegment(cfg, c, i);
    SegsStay(cfg, c, i);
    AtAgrees(cfg, d, c, c, i);
    LaidStays(cfg, c, i);
    LaidAt(cfg, c, i);
    LaidShape(cfg, At(cfg, Start(cfg, c), c.prog, i), c.prog[i]);
  }

  lemma TwinSelf(cfg: Config, d: set<Key>, name: string, c: Context)
    requires Relocatable(cfg, d, name, c)
    ensures Twins(cfg, d, c, c) && AllLayoutFree(cfg, d, c.prog) && name in c.segs && NoOrg(c.prog)
  {
    hide Skeleton, LayoutFree, NoSizeNames, SizesMatch;
  }

  /** The next collected statement starts where this point of the walk stands. */
  lemma {:induction false} NextEmitIsOff(cfg: Config, d: set<Key>, name: string, c: Context, i: nat)
    requires Relocatable(cfg, d, name, c) && Pass1(cfg, c).errors == c.errors && i <= |c.prog|
    ensures NextEmit(Pass1(cfg, c).prog, name, i, EndPc(Pass1(cfg, c), name)) == Off(cfg, c, name, i)
    decreases |c.prog| - i
  {
    TwinSelf(cfg, d, name, c);
    EndIsOff(cfg, d, name, c);
    hide Pass1, Off, Relocatable, Twins;
    if i < |c.prog| {
      MemberEmit(cfg, d, name, c, i);
      OffMoves(cfg, d, name, c, i);
      NextEmitIsOff(cfg, d, name, c, i + 1);
    }
  }

  lemma EndIsOff(cfg: Config, d: set<Key>, name: string, c: Context)
    requires name in c.segs
    ensures EndPc(Pass1(cfg, c), name) == Off(cfg, c, name, |c.prog|)
  {
    hide Step, Publish, FinalSyms, CheckErrors;
    AtGrows(cfg, Start(cfg, c), c.prog, 0, |c.prog|);
  }

  /** The scorer starts where its first collected statement is, which is where the segment starts. */
  lemma {:induction false} FirstEmit(cfg: Config, d: set<Key>, name: string, c: Context, i: nat)
    requires Relocatable(cfg, d, name, c) && Pass1(cfg, c).errors == c.errors && i <= |c.prog|
    requires Off(cfg, c, name, i) == 0
    ensures NextEmit(Pass1(cfg, c).prog, name, i, 0) == 0
    decreases |c.prog| - i
  {
    hide Pass1, Off, Relocatable, Twins, Room, MotionOf, AllLayoutFree;
    TwinSelf(cfg, d, name, c);
    if i < |c.prog| {
      MemberEmit(cfg, d, name, c, i);
      OffMoves(cfg, d, name, c, i);
      if !Member(Pass1(cfg, c).prog[i], name) { FirstEmit(cfg, d, name, c, i + 1); }
    }
  }

  /** The residue pass 1 works with once a phase is locked. */
  lemma LockedPhase(cfg: Config, name: string, c: Context, i: nat)
    requires name in c.segs && c.segs[name].phaseLocked && i <= |c.prog|
    ensures name in At(cfg, Start(cfg, c), c.prog, i).segs
    ensures At(cfg, Start(cfg, c), c.prog, i).segs[name].relocPhase == c.segs[name].selectedPhase
  {
    hide Step, Publish;
    AtGrows(cfg, Start(cfg, c), c.prog, 0, i);
  }

  /** Alignment padding: what pass 1 inserts at the locked phase is what the scorer predicted. */
  lemma AlignPredicted(cfg: Config, d: set<Key>, name: string, c: Context, c': Context, phase: int, i: nat)
    requires Relocatable(cfg, d, name, c) && Pass1(cfg, c).errors == c.errors && LockedAt(cfg, d, name, c, c', phase)
    requires i < |c.prog| && Member(Pass1(cfg, c).prog[i], name) && IsAlign(c.prog[i])
    ensures i < |c'.prog| && IsAlign(Pass1(cfg, c).prog[i])
    ensures AlignSpan(Pass1(cfg, c).syms, Pass1(cfg, c).prog[i], phase, Off(cfg, c', name, i)) ==
              Some(Room(MotionOf(cfg, c', i)))
    ensures MotionOf(cfg, c, i).AlignTo? && MotionOf(cfg, c', i).AlignTo? &&
            MotionOf(cfg, c, i).boundary == MotionOf(cfg, c', i).boundary
  {
    hide *;
    TwinSelf(cfg, d, name, c);
    AlignTwin(cfg, d, name, c, c', phase, i);
    MemberEmit(cfg, d, name, c, i);
    MemberIs(Pass1(cfg, c).prog[i], name);
    UnknownSegment(cfg, c, i);
    LaidAt(cfg, c, i);
    LaidStays(cfg, c, i);
    AtAgrees(cfg, d, c, c', i);
    LockedPhase(cfg, name, c', i);
    ActiveMotion(cfg, c, i);
    var st, st' := At(cfg, Start(cfg, c), c.prog, i), At(cfg, Start(cfg, c'), c'.prog, i);
    LaidShape(cfg, st, c.prog[i]);
    RelatedAlign(d, st, st', name);
    AlignMotionOf(cfg, c, i);
    AlignMotionOf(cfg, c', i);
    AlignParts(cfg, st.segs[name], AfterNames(cfg, st, c.prog[i]).syms, c.prog[i], LogicalPc(st.segs[name]), Pass1(cfg, c).syms, Pass1(cfg, c).prog[i], phase,
               st'.segs[name], AfterNames(cfg, st', c'.prog[i]).syms, c'.prog[i], LogicalPc(st'.segs[name]));
    OffIs(cfg, c', name, i);
    RoomOfAlign(MotionOf(cfg, c', i));
    SameAlign(c.prog[i], Pass1(cfg, c).prog[i]);
  }

  lemma SameAlign(s: Stmt, t: Stmt)
    requires IsAlign(s) && t.kind == s.kind
    ensures IsAlign(t)
  {
  }

  lemma MemberIs(s: Stmt, name: string)
    requires Member(s, name)
    ensures s.active && s.segment == name
  {
  }

  lemma RoomOfAlign(m: Motion)
    requires m.AlignTo?
    ensures Room(m) == m.pad
  {
  }

  lemma OffIs(cfg: Config, c: Context, name: string, i: nat)
    requires i <= |c.prog| && name in At(cfg, Start(cfg, c), c.prog, i).segs
    ensures Off(cfg, c, name, i) == At(cfg, Start(cfg, c), c.prog, i).segs[name].pc
  {
    hide At, Start;
  }

  lemma RelatedAlign(d: set<Key>, s: State, t: State, name: string)
    requires Related(d, s, t) && name in s.segs
    ensures name in t.segs && t.stack == s.stack && !s.segs[name].rorgActive && !t.segs[name].rorgActive
  {
    hide SymsRelated;
  }

  lemma AlignMotionOf(cfg: Config, c: Context, i: nat)
    requires i < |c.prog| && IsAlign(c.prog[i])
    ensures var st := At(cfg, Start(cfg, c), c.prog, i); var s := c.prog[i];
            s.segment in st.segs && CurrentActive(st.stack) ==>
              MotionOf(cfg, c, i) ==
                AlignMotion(cfg, st.segs[s.segment], AfterNames(cfg, st, s).syms, s, s.kind.dir.args, LogicalPc(st.segs[s.segment]))
    ensures !IsConditionalStmt(c.prog[i])
  {
    hide At, Start, AfterNames, AlignMotion, LogicalPc;
  }

  /** An alignment is the same statement in both contexts. */
  lemma AlignTwin(cfg: Config, d: set<Key>, name: string, c: Context, c': Context, phase: int, i: nat)
    requires Relocatable(cfg, d, name, c) && LockedAt(cfg, d, name, c, c', phase) && i < |c.prog| && IsAlign(c.prog[i])
    ensures Twins(cfg, d, c, c') && i < |c'.prog| && c'.prog[i].kind == c.prog[i].kind
    ensures c'.prog[i].segment == c.prog[i].segment
    ensures c'.prog[i].scope == c.prog[i].scope && c'.prog[i].file == c.prog[i].file && c.prog[i].kind.Dir?
    ensures IsAlign(c'.prog[i])
    ensures ClosedArgs(c.prog[i]) && ClosedArgs(c'.prog[i]) && cfg.objectMode
    ensures name in c'.segs && c'.segs[name].phaseLocked && c'.segs[name].selectedPhase == phase
  {
    hide AllLayoutFree, NoSizeNames, SizesMatch, Smaller, Over;
    assert Skeleton(c.prog[i]) == Skeleton(c'.prog[i]);
    SkeletonKeys(cfg, c.prog[i], c'.prog[i], "");
    assert ClosedArgs(c.prog[i]);
  }

  /** The same closed arguments give the same alignment everywhere. */
  lemma AlignParts(cfg: Config, g: Segment, x: Symtab, s: Stmt, pc: int, z: Symtab, p: Stmt, phase: int, g': Segment,
      y: Symtab, t: Stmt, pc': int)
    requires IsAlign(s) && ClosedArgs(s) && p.kind == s.kind && t.kind == s.kind
    requires p.scope == s.scope && p.file == s.file && t.scope == s.scope && t.file == s.file
    requires cfg.objectMode && !g.rorgActive && !g'.rorgActive && g'.relocPhase == phase
    requires !AlignMotion(cfg, g, x, s, s.kind.dir.args, pc).Fail?
    ensures var m, m' := AlignMotion(cfg, g, x, s, s.kind.dir.args, pc), AlignMotion(cfg, g', y, t, s.kind.dir.args, pc');
            m.AlignTo? && m'.AlignTo? && m'.boundary == m.boundary && AlignSpan(z, p, phase, g'.pc) == Some(m'.pad)
  {
    hide Eval, AlignPadding, PowerOfTwoTest, Over;
    var args := s.kind.dir.args;
    SameArg(s, p, t, x, y, z, args[0], pc, pc');
    if |args| > 1 { SameArg(s, p, t, x, y, z, args[1], pc, pc'); }
  }

  /** A closed argument has one value everywhere. */
  lemma SameArg(s: Stmt, p: Stmt, t: Stmt, x: Symtab, y: Symtab, z: Symtab, e: Expr, pc: int, pc': int)
    requires Over({}, s.scope, s.file, e) && p.scope == s.scope && p.file == s.file && t.scope == s.scope
    requires t.file == s.file
    ensures Arg(t, y, e, pc') == Arg(s, x, e, pc) && Arg(p, z, e, p.address) == Arg(s, x, e, pc)
  {
    hide Eval, Over;
    EvalClosed(e, x, y, s.scope, s.file, pc, pc');
    EvalClosed(e, x, z, s.scope, s.file, pc, p.address);
  }

  /** Everything that is not an alignment keeps its room under any phase. */
  lemma RoomPredicted(cfg: Config, d: set<Key>, name: string, c: Context, c': Context, phase: int, i: nat)
    requires Relocatable(cfg, d, name, c) && Pass1(cfg, c).errors == c.errors && LockedAt(cfg, d, name, c, c', phase)
    requires i < |c.prog| && Member(Pass1(cfg, c).prog[i], name) && !IsAlign(c.prog[i])
    ensures BaseSpan(Pass1(cfg, c), name, i) == Room(MotionOf(cfg, c', i))
  {
    hide Pass1, AllLayoutFree, Twins, MotionOf, Off, Relocatable, Laid, NextEmit, Smaller;
    TwinSelf(cfg, d, name, c);
    MemberEmit(cfg, d, name, c, i);
    OffMoves(cfg, d, name, c, i);
    NextEmitIsOff(cfg, d, name, c, i + 1);
    RoomAgrees(cfg, d, c, c', i);
    SameSize(c, c', i);
    RoomNotNegative(cfg, c, i);
  }

  lemma RoomNotNegative(cfg: Config, c: Context, i: nat)
    requires i < |c.prog|
    ensures Room(MotionOf(cfg, c, i)) >= 0
  {
  }

  lemma SameSize(c: Context, c': Context, i: nat)
    requires Smaller(c, c') && Smaller(c', c) && i < |c.prog|
    ensures |c.prog| == |c'.prog|
    ensures c.prog[i].kind.Insn? ==> c'.prog[i].kind.Insn? && c'.prog[i].kind.size == c.prog[i].kind.size
  {
  }

  /** The fast layout is the real one: in front of every statement the scorer's offset for a phase is the
      offset pass 1 assigns once that phase is locked; in particular the sizes agree. */
  lemma {:induction false} ScoreIsLayout(cfg: Config, d: set<Key>, name: string, c: Context, c': Context, phase: int,
      i: nat)
    requires Relocatable(cfg, d, name, c) && Pass1(cfg, c).errors == c.errors && LockedAt(cfg, d, name, c, c', phase)
    requires Pass1(cfg, c').errors == c'.errors && i <= |c.prog|
    ensures NewPc(Pass1(cfg, c), name, phase, i) == Some(Off(cfg, c', name, i))
  {
    hide Pass1, Off, Relocatable, MotionOf, Room, BaseSpan, AlignSpan, Twins, Smaller;
    OffStart(cfg, name, c);
    OffStart(cfg, name, c');
    if i == 0 {
      FirstEmit(cfg, d, name, c, 0);
    } else {
      ScoreIsLayout(cfg, d, name, c, c', phase, i - 1);
      MemberEmit(cfg, d, name, c, i - 1);
      MemberSame(cfg, d, name, c, c', phase, i - 1);
      TwinSelf(cfg, d, name, c);
      LockedFree(cfg, d, name, c, c', phase);
      OffMoves(cfg, d, name, c', i - 1);
      if Member(Pass1(cfg, c).prog[i - 1], name) {
        if IsAlign(c.prog[i - 1]) {
          AlignPredicted(cfg, d, name, c, c', phase, i - 1);
        } else {
          RoomPredicted(cfg, d, name, c, c', phase, i - 1);
        }
      }
    }
  }

  lemma LockedFree(cfg: Config, d: set<Key>, name: string, c: Context, c': Context, phase: int)
    requires LockedAt(cfg, d, name, c, c', phase) && AllLayoutFree(cfg, d, c.prog) && NoOrg(c.prog)
    ensures AllLayoutFree(cfg, d, c'.prog) && name in c'.segs && |c.prog| == |c'.prog| && NoOrg(c'.prog)
  {
    hide LayoutFree, Skeleton, NoSizeNames;
    FreeSame(cfg, d, c.prog, c'.prog);
    NoOrgKept(cfg, c.prog, c'.prog);
  }

  lemma NoOrgKept(cfg: Config, p: seq<Stmt>, q: seq<Stmt>)
    requires SameShape(p, q) && NoOrg(p)
    ensures NoOrg(q)
  {
    hide Skeleton;
    forall i | 0 <= i < |q|
      ensures !(q[i].kind.Dir? && q[i].kind.dir.name == DOrg)
    {
      SkeletonKeys(cfg, p[i], q[i], "");
    }
  }

  /** Activity and segment do not depend on the phase. */
  lemma MemberSame(cfg: Config, d: set<Key>, name: string, c: Context, c': Context, phase: int, i: nat)
    requires LockedAt(cfg, d, name, c, c', phase) && Pass1(cfg, c).errors == c.errors
    requires Pass1(cfg, c').errors == c'.errors
    requires i < |c.prog|
    ensures |c.prog| == |c'.prog| && c'.prog[i].segment == c.prog[i].segment
    ensures Pass1(cfg, c').prog[i].active == Pass1(cfg, c).prog[i].active
  {
    SameLength(c, c');
    assert Skeleton(c.prog[i]) == Skeleton(c'.prog[i]);
    SkeletonKeys(cfg, c.prog[i], c'.prog[i], "");
    hide Pass1, Twins, Smaller, Skeleton, Laid;
    LaidAgrees(cfg, d, c, c', i);
    LaidStays(cfg, c, i);
    LaidStays(cfg, c', i);
  }
}
