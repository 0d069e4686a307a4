/** The assembler's context and the passes that update it in place, each proved against its specification
    (assembler/asm_pass.c, asm_state.c, vcsc_as.c). */
module Assembler {
  import opened Support
  import opened Expressions
  import opened Opcodes
  import opened Program
  import opened Layout
  import opened NonInterference
  import opened Relaxation
  import opened RelaxRun
  import opened PageSpecs
  import opened PhaseChoice
  import opened Emission
  import opened HexFormat
  import opened IntelHex

  class AsmContext {
    const cfg: Config
    var prog: seq<Stmt>
    var segs: map<string, Segment>
    var syms: Symtab
    var stack: seq<Frame>
    var errors: nat

    /** What passes hand on to one another. */
    function Contents(): Context
      reads this
    {
      Context(prog, segs, syms, errors)
    }

    /** What the walk of one pass carries along. */
    function Walking(): State
      reads this
    {
      State(segs, syms, stack, errors)
    }

    constructor (c: Config, statements: seq<Stmt>, segments: map<string, Segment>)
      ensures cfg == c && Contents() == Context(statements, segments, map[], 0)
    {
      cfg, prog, segs, syms, stack, errors := c, statements, segments, map[], [], 0;
    }

    // ---- one statement of pass 1

    /** conditional_process_directive. */
    method ProcessConditional(s: Stmt, d: Directive, pc: int)
      requires IsConditional(d.name)
      modifies this`stack, this`errors
      ensures Walking() == CondStep(cfg, old(Walking()), s, d, pc)
    {
      hide Judge, WellShaped, NoArgs;
      if d.name == DIf || d.name == DIfdef || d.name == DIfndef {
        var parent := CurrentActive(stack);
        var v := Judge(cfg, syms, s, d, pc, parent);
        errors := errors + v.errors;
        stack := [Frame(parent, v.truth, v.truth, false)] + stack;
        return;
      }
      if stack == [] {
        errors := errors + 1;
        return;
      }
      var frame := stack[0];
      if d.name == DElif || d.name == DElifdef || d.name == DElifndef {
        if frame.sawElse {
          errors := errors + 1;
          stack := stack[0 := frame.(branchActive := false)];
        } else if !frame.parentActive || frame.anyTrue {
          if !WellShaped(d) { errors := errors + 1; }
          stack := stack[0 := frame.(branchActive := false)];
        } else {
          var v := Judge(cfg, syms, s, d, pc, true);
          errors := errors + v.errors;
          frame := frame.(branchActive := v.truth);
          if v.truth { frame := frame.(anyTrue := true); }
          stack := stack[0 := frame];
        }
      } else if d.name == DElse {
        if !NoArgs(d) { errors := errors + 1; }
        if frame.sawElse {
          errors := errors + 1;
          stack := stack[0 := frame.(branchActive := false)];
        } else {
          stack := stack[0 := Frame(frame.parentActive, frame.parentActive && !frame.anyTrue, true, true)];
        }
      } else {
        if !NoArgs(d) { errors := errors + 1; }
        stack := stack[1..];
      }
    }

    /** Declares a label or procedure at the segment's current address. */
    method DeclareName(s: Stmt, name: string, seg: Segment)
      modifies this`syms, this`errors
      ensures Walking() == DeclareAddress(cfg, old(Walking()), s, Some(name), seg)
    {
      hide StorageKey, AddressSymbol;
      var k := StorageKey(cfg, s, name);
      if k in syms {
        errors := errors + 1;
      } else {
        syms := syms[k := AddressSymbol(seg, s)];
      }
    }

    /** process_const_statement_pass1; the result is the statement's `applied` mark. */
    method ProcessConst(s: Stmt, pc: int) returns (applied: bool)
      requires s.kind.Const?
      modifies this`syms, this`errors
      ensures (Walking(), applied) == ConstStep(cfg, old(Walking()), s, pc)
    {
      hide StorageKey, Eval;
      var k := StorageKey(cfg, s, s.kind.name);
      if s.kind.assign == Default && k in syms { return false; }
      if s.kind.assign == Normal && k in syms {
        errors := errors + 1;
        return true;
      }
      if s.kind.assign == SetVar && k in syms && !syms[k].mutable {
        errors := errors + 1;
        return true;
      }
      if k !in syms { syms := syms[k := Declared.(mutable := s.kind.assign == SetVar)]; }
      ghost var table := syms;
      var v := Eval(s.kind.expr, syms, s.scope, s.file, pc);
      assert s.kind.assign == SetVar && k in old(syms) ==> old(syms)[k := old(syms)[k]] == table;
      if v.Ok? {
        syms := syms[k := Assigned(syms[k], v.value)];
      } else {
        assert table[k := table[k]] == table;
        if s.kind.assign == SetVar { errors := errors + 1; }
      }
      applied := true;
    }

    /** A statement's label and procedure name. */
    method DeclareNames(s: Stmt)
      requires s.segment in segs
      modifies this`syms, this`errors
      ensures Walking() == AfterNames(cfg, old(Walking()), s)
    {
      hide DeclareAddress, ProcName;
      var seg := segs[s.segment];
      NoName(s, seg, Walking());
      if s.labelName.Some? { DeclareName(s, s.labelName.value, seg); }
      NoName(s, seg, Walking());
      if ProcName(s).Some? { DeclareName(s, ProcName(s).value, seg); }
    }

    /** The body of asm_pass1's walk. */
    method ProcessStatement(i: nat)
      requires i < |prog|
      modifies this`prog, this`segs, this`syms, this`stack, this`errors
      ensures var r := Step(cfg, old(Walking()), old(prog[i]));
              Walking() == r.0 && prog == old(prog)[i := r.1]
    {
      hide CondStep, ConstStep, AfterNames, StmtMotion, LogicalPc, Moved;
      var s := prog[i];
      if s.segment !in segs {
        errors := errors + 1;
        return;
      }
      var seg := segs[s.segment];
      var pc := LogicalPc(seg);
      var active := IsConditionalStmt(s) || CurrentActive(stack);
      prog := prog[i := s.(emitAddress := seg.base + seg.pc, address := pc, rorgActive := seg.rorgActive, active := active)];
      if IsConditionalStmt(s) {
        ProcessConditional(s, s.kind.dir, pc);
        return;
      }
      if !active { return; }
      DeclareNames(s);
      if s.kind.Const? {
        var applied := ProcessConst(s, pc);
        prog := prog[i := prog[i].(kind := prog[i].kind.(applied := applied))];
      } else {
        var m := StmtMotion(cfg, seg, syms, s, pc);
        if m.Fail? { errors := errors + 1; }
        NamesKeepSegment(cfg, old(Walking()), s);
        segs := segs[s.segment := Moved(seg, m)];
      }
    }

    lemma NoName(s: Stmt, seg: Segment, st: State)
      ensures DeclareAddress(cfg, st, s, None, seg) == st
    {
    }

    // ---- whole passes

    /** publish_segment_symbols. */
    method PublishSegments()
      modifies this`syms
      ensures syms == Publish(cfg.order, |cfg.order|, segs, old(syms))
    {
      hide PutAbs;
      for i := 0 to |cfg.order|
        invariant syms == Publish(cfg.order, i, segs, old(syms))
      {
        var name := cfg.order[i];
        if name in segs {
          var g := segs[name];
          syms := PutAbs(syms, name + "_BASE", g.base);
          syms := PutAbs(syms, name + "_SIZE", g.usedSize);
          syms := PutAbs(syms, name + "_END", g.base + g.usedSize);
          syms := PutAbs(syms, name + "_CAPACITY", g.capacity);
        }
      }
    }

    /** The sweeps of resolve_constants and the check behind them. */
    method ResolveConstants()
      modifies this`prog, this`syms, this`errors
      ensures syms == Sweeps(cfg, old(syms), old(prog), SWEEP_LIMIT)
      ensures |prog| == |old(prog)| && forall i :: 0 <= i < |prog| ==> prog[i] == Checked(cfg, syms, old(prog)[i]).0
      ensures errors == old(errors) + CheckErrors(cfg, syms, old(prog), |old(prog)|)
    {
      hide Settle, Checked, Sweep, Sweeps;
      var sweeps := 0;
      NoSweeps(cfg, syms, prog);
      while sweeps < SWEEP_LIMIT
        invariant sweeps <= SWEEP_LIMIT && prog == old(prog) && errors == old(errors)
        invariant Sweeps(cfg, old(syms), prog, SWEEP_LIMIT) == Sweeps(cfg, syms, prog, SWEEP_LIMIT - sweeps)
        decreases SWEEP_LIMIT - sweeps
      {
        SweepsStep(cfg, syms, prog, SWEEP_LIMIT - sweeps);
        ghost var before := syms;
        var changed := SweepOnce();
        sweeps := sweeps + 1;
        if !changed {
          SettledStays(cfg, syms, prog, SWEEP_LIMIT - sweeps);
          break;
        }
      }
      NoSweeps(cfg, syms, prog);
      for i := 0 to |prog|
        invariant |prog| == |old(prog)| && syms == Sweeps(cfg, old(syms), old(prog), SWEEP_LIMIT)
        invariant forall j :: 0 <= j < i ==> prog[j] == Checked(cfg, syms, old(prog)[j]).0
        invariant forall j :: i <= j < |prog| ==> prog[j] == old(prog)[j]
        invariant errors == old(errors) + CheckErrors(cfg, syms, old(prog), i)
      {
        var r := Checked(cfg, syms, prog[i]);
        errors := errors + r.1;
        prog := prog[i := r.0];
      }
    }

    /** One sweep in place; a sweep that reports no change made none. */
    method SweepOnce() returns (changed: bool)
      modifies this`syms
      ensures syms == Sweep(cfg, old(syms), prog, |prog|)
      ensures !changed ==> syms == old(syms)
    {
      hide Eval, StorageKey;
      changed := false;
      for i := 0 to |prog|
        invariant syms == Sweep(cfg, old(syms), prog, i)
        invariant !changed ==> syms == old(syms)
      {
        var s := prog[i];
        if Deferred(s) {
          var v := Eval(s.kind.expr, syms, s.scope, s.file, s.address);
          var k := StorageKey(cfg, s, s.kind.name);
          if v.Ok? && k in syms && !(syms[k].defined && syms[k].value == v.value) {
            syms := syms[k := Assigned(syms[k], v.value)];
            changed := true;
          }
        }
      }
    }

    /** asm_pass1. */
    method Pass1()
      modifies this
      ensures Contents() == Layout.Pass1(cfg, old(Contents()))
    {
      hide Step, Publish, Checked, Sweeps, ResetSegment;
      ghost var c := Contents();
      syms := map[];
      segs := ResetSegments(segs);
      stack := [];
      PublishSegments();
      ghost var st0 := Walking();
      assert st0 == Start(cfg, c);
      for i := 0 to |prog|
        invariant |prog| == |c.prog| && Walking() == At(cfg, st0, c.prog, i)
        invariant forall j :: 0 <= j < i ==> prog[j] == Laid(cfg, st0, c.prog, j)
        invariant forall j :: i <= j < |prog| ==> prog[j] == c.prog[j]
      {
        ProcessStatement(i);
      }
      assert prog == LaidProg(cfg, c);
      errors := errors + |stack|;
      stack := [];
      segs := Snapshot(segs);
      PublishSegments();
      assert syms == Republished(cfg, c);
      ResolveConstants();
      assert prog == Layout.Pass1(cfg, c).prog;
    }

    // ---- relaxation

    /** The relaxer's pass over the instructions; whether one of them changed its form. */
    method RelaxInstructions() returns (changed: bool)
      modifies this`prog
      ensures |prog| == |old(prog)| && forall i :: 0 <= i < |prog| ==> prog[i] == Relax(cfg, syms, old(prog)[i])
      ensures changed <==> exists i :: 0 <= i < |prog| && ModeOf(prog[i]) != ModeOf(old(prog)[i])
    {
      hide BranchFits, Lookup, Classify, Eval, IsZpImport;
      changed := false;
      for i := 0 to |prog|
        invariant |prog| == |old(prog)|
        invariant forall j :: 0 <= j < i ==> prog[j] == Relax(cfg, syms, old(prog)[j])
        invariant forall j :: i <= j < |prog| ==> prog[j] == old(prog)[j]
        invariant changed <==> exists j :: 0 <= j < i && ModeOf(prog[j]) != ModeOf(old(prog)[j])
      {
        var s := prog[i];
        if s.kind.Insn? {
          if BranchShrinks(syms, s) {
            prog := prog[i := WithMode(s, Rel)];
            changed := true;
          } else if OperandShrinks(cfg, syms, s) {
            prog := prog[i := WithMode(s, ZpForm(cfg, s).value)];
            changed := true;
          }
        }
      }
    }

    /** validate_branch_page_specs. */
    method ValidatePageSpecs()
      modifies this`errors
      ensures Contents() == Validated(cfg, old(Contents()))
    {
      hide PageError;
      for i := 0 to |prog|
        invariant errors == old(errors) + PageErrors(cfg, syms, prog, i)
      {
        if PageError(cfg, syms, prog[i]) { errors := errors + 1; }
      }
    }

    /** asm_relax; whether its loop stopped because nothing changed. */
    method RelaxForms() returns (settled: bool)
      modifies this
      ensures var r := RelaxLoop(cfg, old(Contents()), RELAX_LIMIT); Contents() == Validated(cfg, r.0) && settled == r.1
    {
      hide Signature, Layout.Pass1, Relax, RelaxPass, Changed, RelaxLoop, FormsDiffer, Validated;
      var iter := 0;
      settled := false;
      while iter < RELAX_LIMIT
        invariant iter <= RELAX_LIMIT && !settled
        invariant RelaxLoop(cfg, old(Contents()), RELAX_LIMIT) == RelaxLoop(cfg, Contents(), RELAX_LIMIT - iter)
        decreases RELAX_LIMIT - iter
      {
        ghost var c := Contents();
        var before := Signature(cfg, |cfg.order|, segs);
        Pass1();
        ghost var p := Contents();
        var after := Signature(cfg, |cfg.order|, segs);
        var changed := RelaxInstructions();
        IterationExact(cfg, c, p, prog, changed);
        assert Contents() == RelaxPass(cfg, c);
        iter := iter + 1;
        LoopStep(cfg, c, RELAX_LIMIT - iter);
        if !changed && before == after {
          settled := true;
          break;
        }
      }
      LoopEnd(cfg, Contents());
      assert (Contents(), settled) == RelaxLoop(cfg, old(Contents()), RELAX_LIMIT);
      ValidatePageSpecs();
    }

    // ---- final-link phases

    /** The search of asm_select_reloc_phases through the residues of one segment; `p` is the layout pass 1 left. */
    method SearchPhases(p: Context, name: string, explicit: int, required: nat) returns (best: Option<nat>)
      ensures best == BestPhase(p, name, explicit, required)
    {
      hide Score, Eligible;
      best := None;
      var bestSize := 0;
      for phase := 0 to required
        invariant best == BestPhase(p, name, explicit, phase)
        invariant best.Some? ==> Score(p, name, best.value) == Some(bestSize)
      {
        if Eligible(phase, explicit) {
          var size := Score(p, name, phase);
          if size.Some? && (best.None? || size.value < bestSize) {
            best := Some(phase);
            bestSize := size.value;
          }
        }
      }
    }

    /** asm_select_reloc_phases: negative after an error, positive when a residue changed. */
    method SelectRelocPhases() returns (outcome: int)
      modifies this
      ensures !cfg.objectMode ==> outcome == 0 && Contents() == old(Contents())
      ensures cfg.objectMode ==>
                var r := SelectAll(cfg.order, old(Contents()), |cfg.order|);
                Contents() == (if r.1 then Layout.Pass1(cfg, old(Contents()).(segs := r.0))
                               else old(Contents()).(segs := r.0, errors := old(errors) + 1)) &&
                outcome == (if !r.1 then -1 else if PhasesMoved(cfg.order, old(Contents()), |cfg.order|) then 1 else 0)
    {
      hide BestPhase, SaneAlignment, Layout.Pass1, WithRequired;
      if !cfg.objectMode { return 0; }
      var p := Contents();
      var moved := false;
      for i := 0 to |cfg.order|
        invariant Contents() == p.(segs := SelectAll(cfg.order, p, i).0) && SelectAll(cfg.order, p, i).1
        invariant moved == PhasesMoved(cfg.order, p, i)
      {
        var name := cfg.order[i];
        if name in segs {
          var seg := segs[name];
          var g := WithRequired(seg);
          var required, explicit := AtLeastOne(g.requiredAlign), AtLeastOne(seg.explicitAlign);
          RequiredKeepsLock(seg);
          if required > 1 {
            if !SaneAlignment(required, explicit) {
              SelectionStuck(cfg.order, p, i + 1, |cfg.order|);
              errors := errors + 1;
              return -1;
            }
            var best := SearchPhases(p, name, explicit, required);
            if best.None? {
              SelectionStuck(cfg.order, p, i + 1, |cfg.order|);
              errors := errors + 1;
              return -1;
            }
            g := g.(selectedPhase := best.value, phaseLocked := true);
            if !seg.phaseLocked || seg.selectedPhase != best.value { moved := true; }
          }
          segs := segs[name := g];
        }
      }
      Pass1();
      outcome := if moved then 1 else 0;
    }

    // ---- emission

    /** Bytes at consecutive addresses, up to the first one outside the image. */
    method WriteBytes(image: ImageBuffer, address: int, bytes: seq<byte>) returns (ok: bool)
      requires image.Valid()
      modifies image, image.data, image.used
      ensures image.Valid()
      ensures var w := Write(old(image.Contents()), address, bytes); image.Contents() == w.0 && ok == w.1
    {
      var k := 0;
      assert bytes[0..] == bytes;
      while k < |bytes|
        invariant image.Valid() && 0 <= k <= |bytes|
        invariant Write(old(image.Contents()), address, bytes) == Write(image.Contents(), address + k, bytes[k..])
      {
        assert bytes[k..][1..] == bytes[k + 1..];
        ok := image.WriteByte(address + k, bytes[k]);
        if !ok { return; }
        k := k + 1;
      }
      ok := true;
    }

    /** asm_pass2. */
    method Pass2(image: ImageBuffer)
      requires image.Valid() && image.Contents() == map[]
      modifies this`syms, this`errors, image, image.data, image.used
      ensures image.Valid()
      ensures EmitState(syms, image.Contents(), errors) == Emission.Pass2(cfg, old(Contents()))
    {
      hide StmtBytes, Write, StorageKey, Eval, Forget;
      ghost var c := Contents();
      syms := Forget(syms);
      for i := 0 to |prog|
        invariant image.Valid() && EmitState(syms, image.Contents(), errors) == EmitAt(cfg, c, i)
      {
        var s := prog[i];
        if s.kind.Const? {
          EmitSet(s, image.Contents());
        } else {
          var e := StmtBytes(cfg, SegmentOf(segs, s), syms, s);
          var ok := WriteBytes(image, s.emitAddress, e.bytes);
          if !e.ok || !ok { errors := errors + 1; }
        }
      }
    }

    /** process_set_statement_emit. */
    method EmitSet(s: Stmt, ghost image: Image)
      requires s.kind.Const?
      modifies this`syms, this`errors
      ensures EmitState(syms, image, errors) == SetStep(cfg, EmitState(old(syms), image, old(errors)), s)
    {
      hide StorageKey, Eval;
      if s.kind.assign != SetVar || !s.active { return; }
      var k := StorageKey(cfg, s, s.kind.name);
      if k !in syms || !syms[k].mutable {
        errors := errors + 1;
        return;
      }
      var v := Eval(s.kind.expr, syms, s.scope, s.file, s.address);
      if v.Ok? {
        syms := syms[k := Assigned(syms[k], v.value)];
      } else {
        errors := errors + 1;
      }
    }

    /** Assembling to Intel HEX: relaxation, a last layout pass, emission and the dump. A dump that is written loads to
        exactly the image the second pass specifies. */
    method AssembleFlat() returns (text: Option<string>)
      modifies this
      ensures var c := Validated(cfg, RelaxLoop(cfg, old(Contents()), RELAX_LIMIT).0);
              var e := Emission.Pass2(cfg, if c.errors == 0 then Layout.Pass1(cfg, c) else c);
              (text.Some? <==> e.errors == 0) &&
              (text.Some? ==> ParseText(text.value).Some? && Load(ParseText(text.value).value, 0, map[]) == Some(e.image))
    {
      hide Layout.Pass1, Emission.Pass2, RelaxLoop, ParseText, Load, DumpText, Validated;
      var settled := RelaxForms();
      if errors == 0 { Pass1(); }
      var image := new ImageBuffer();
      Pass2(image);
      if errors != 0 { return None; }
      var dump := image.Dump();
      text := Some(dump);
    }
  }

  /** Some segment among the first `n` got another residue than it had. */
  predicate PhasesMoved(order: seq<string>, p: Context, n: nat)
    requires n <= |order|
  {
    n > 0 &&
    var r := SelectAll(order, p, n - 1);
    var name := order[n - 1];
    PhasesMoved(order, p, n - 1) ||
    (r.1 && name in r.0 && SelectOne(p, name, r.0[name]).Some? &&
     var g := SelectOne(p, name, r.0[name]).value;
     g.phaseLocked && (!r.0[name].phaseLocked || r.0[name].selectedPhase != g.selectedPhase))
  }

  lemma {:induction false} SelectionStuck(order: seq<string>, p: Context, i: nat, n: nat)
    requires i <= n <= |order| && !SelectAll(order, p, i).1
    ensures SelectAll(order, p, n) == SelectAll(order, p, i)
    decreases n
  {
    hide SelectOne;
    if i < n { SelectionStuck(order, p, i, n - 1); }
  }

  lemma RequiredKeepsLock(g: Segment)
    ensures WithRequired(g).phaseLocked == g.phaseLocked && WithRequired(g).selectedPhase == g.selectedPhase
  {
  }

  function ModeOf(s: Stmt): Option<EmitMode> { if s.kind.Insn? then Some(s.kind.mode) else None }

  lemma LoopStep(cfg: Config, c: Context, fuel: nat)
    ensures RelaxLoop(cfg, c, fuel + 1) ==
              if Changed(cfg, c) then RelaxLoop(cfg, RelaxPass(cfg, c), fuel) else (RelaxPass(cfg, c), true)
  {
    hide RelaxPass, Changed;
  }

  lemma LoopEnd(cfg: Config, c: Context)
    ensures RelaxLoop(cfg, c, 0) == (c, false)
  {
  }

  lemma StepMode(cfg: Config, st: State, s: Stmt)
    ensures ModeOf(Step(cfg, st, s).1) == ModeOf(s)
  {
    hide CondStep, AfterNames, ConstStep, StmtMotion, LogicalPc;
  }

  /** A layout pass changes no instruction's form. */
  lemma PassMode(cfg: Config, c: Context, i: nat)
    requires i < |c.prog|
    ensures ModeOf(Layout.Pass1(cfg, c).prog[i]) == ModeOf(c.prog[i])
  {
    PassIsChecked(cfg, c, i);
    hide Layout.Pass1, Step, At, Start, FinalSyms, Checked;
    StepMode(cfg, At(cfg, Start(cfg, c), c.prog, i), c.prog[i]);
    CheckedShape(cfg, FinalSyms(cfg, c), Laid(cfg, Start(cfg, c), c.prog, i));
  }

  /** What one iteration of the relaxer computes, and what its stopping test sees. */
  lemma IterationExact(cfg: Config, c: Context, p: Context, prog: seq<Stmt>, changed: bool)
    requires p == Layout.Pass1(cfg, c) && |prog| == |p.prog|
    requires forall i :: 0 <= i < |prog| ==> prog[i] == Relax(cfg, p.syms, p.prog[i])
    requires changed <==> exists i :: 0 <= i < |prog| && ModeOf(prog[i]) != ModeOf(p.prog[i])
    ensures p.(prog := prog) == RelaxPass(cfg, c)
    ensures Changed(cfg, c) <==> (Signature(cfg, |cfg.order|, c.segs) != Signature(cfg, |cfg.order|, p.segs) || changed)
  {
    hide Layout.Pass1, Relax, Signature;
    assert prog == RelaxPass(cfg, c).prog;
    forall i | 0 <= i < |c.prog|
      ensures ModeAt(c, i) == ModeOf(p.prog[i])
    {
      PassMode(cfg, c, i);
    }
    if changed {
      var i :| 0 <= i < |prog| && ModeOf(prog[i]) != ModeOf(p.prog[i]);
      assert ModeAt(c, i) != ModeAt(RelaxPass(cfg, c), i);
    }
  }

  lemma NamesKeepSegment(cfg: Config, st: State, s: Stmt)
    requires s.segment in st.segs
    ensures AfterNames(cfg, st, s).segs == st.segs && AfterNames(cfg, st, s).stack == st.stack
  {
    hide StorageKey, AddressSymbol;
  }

  lemma NoSweeps(cfg: Config, syms: Symtab, prog: seq<Stmt>)
    ensures Sweeps(cfg, syms, prog, 0) == syms
  {
  }

  /** A sweep can be done ahead: one that changes nothing changes nothing again. */
  lemma SweepsStep(cfg: Config, syms: Symtab, prog: seq<Stmt>, fuel: nat)
    requires fuel > 0
    ensures Sweeps(cfg, syms, prog, fuel) == Sweeps(cfg, Sweep(cfg, syms, prog, |prog|), prog, fuel - 1)
  {
    if Sweep(cfg, syms, prog, |prog|) == syms { SettledStays(cfg, syms, prog, fuel - 1); }
    hide Sweep;
  }
}
