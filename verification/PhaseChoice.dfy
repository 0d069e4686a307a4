/** Choosing the residue at which the linker places a relocatable segment, so that its alignments and its
    branch page contracts hold at addresses only the linker will know (assembler/asm_pass.c). */
module PhaseChoice {
  import opened Support
  import opened Expressions
  import opened Opcodes
  import opened Program
  import opened Layout
  import opened PhaseScore

  // ---- page contracts at one residue

  /** Whether a branch at offset `src` of a component at `base` leaves the page of its next instruction. */
  predicate Crosses(base: int, src: int, target: int) {
    Bitwise(AndOp, Bitwise(XorOp, (base + src + 2) % 0x10000, (base + target) % 0x10000), 0xff00) != 0
  }

  function FirstLabelled(prog: seq<Stmt>, name: string, x: string, i: nat): (j: Option<nat>)
    requires i <= |prog|
    ensures j.Some? ==> i <= j.value < |prog| && Member(prog[j.value], name) && prog[j.value].labelName == Some(x)
    ensures j.Some? ==> forall k :: i <= k < j.value && Member(prog[k], name) ==> prog[k].labelName != Some(x)
    ensures j.None? ==> forall k :: i <= k < |prog| && Member(prog[k], name) ==> prog[k].labelName != Some(x)
    decreases |prog| - i
  {
    if i == |prog| then None
    else if Member(prog[i], name) && prog[i].labelName == Some(x) then Some(i)
    else FirstLabelled(prog, name, x, i + 1)
  }

  function LastAt(prog: seq<Stmt>, name: string, address: int, n: nat): (j: Option<nat>)
    requires n <= |prog|
    ensures j.Some? ==> j.value < n && Member(prog[j.value], name) && prog[j.value].address == address
    ensures j.Some? ==> forall k :: j.value < k < n && Member(prog[k], name) ==> prog[k].address != address
    ensures j.None? ==> forall k :: 0 <= k < n && Member(prog[k], name) ==> prog[k].address != address
  {
    if n == 0 then None
    else if Member(prog[n - 1], name) && prog[n - 1].address == address then Some(n - 1)
    else LastAt(prog, name, address, n - 1)
  }

  function NewOffset(p: Context, name: string, phase: int, i: nat): int
    requires i <= |p.prog|
  {
    match NewPc(p, name, phase, i) case Some(v) => v case None => -1
  }

  /** Where the scorer thinks a branch goes: by the spelling of a bare label, else by old address; negative: nowhere. */
  function TargetOffset(p: Context, name: string, phase: int, e: Expr, target: int): int {
    var byLabel :=
      if !e.Ident? then -1
      else match FirstLabelled(p.prog, name, e.name, 0) case Some(j) => NewOffset(p, name, phase, j) case None => -1;
    if byLabel >= 0 then byLabel
    else match LastAt(p.prog, name, target, |p.prog|) case Some(j) => NewOffset(p, name, phase, j) case None => byLabel
  }

  predicate Contracted(s: Stmt) { s.kind.Insn? && (s.kind.page == PageSame || s.kind.page == PageCross) }

  predicate ContractMet(p: Context, name: string, phase: int, i: nat)
    requires i < |p.prog|
  {
    var s := p.prog[i];
    Member(s, name) && Contracted(s) ==>
      s.kind.operand.Some? &&
      var v := Eval(s.kind.operand.value, p.syms, s.scope, s.file, s.address + 1);
      v.Ok? &&
      var src := NewOffset(p, name, phase, i);
      var t := TargetOffset(p, name, phase, s.kind.operand.value, v.value);
      t >= 0 && BranchFits(src + 2, t) && Crosses(phase, src, t) == (s.kind.page == PageCross)
  }

  /** segment_phase_candidate_score: the size at an admissible residue. */
  function Score(p: Context, name: string, phase: int): Option<int> {
    match NewPc(p, name, phase, |p.prog|)
    case None => None
    case Some(end) => if forall i :: 0 <= i < |p.prog| ==> ContractMet(p, name, phase, i) then Some(end) else None
  }

  // ---- the search

  /** The component base itself must respect `.segmentalign`. */
  predicate Eligible(phase: int, explicit: int) {
    !(explicit > 1 && Bitwise(AndOp, phase, explicit - 1) != 0)
  }

  predicate Admissible(p: Context, name: string, explicit: int, phase: int) {
    Eligible(phase, explicit) && Score(p, name, phase).Some?
  }

  /** Residue `a` is at least as good as residue `b`: smaller, or as small and not higher. */
  predicate AtLeastAsGood(p: Context, name: string, a: int, b: int)
    requires Score(p, name, a).Some? && Score(p, name, b).Some?
  {
    Score(p, name, a).value < Score(p, name, b).value || (Score(p, name, a) == Score(p, name, b) && a <= b)
  }

  /** The best residue below `n`: complete and optimal. */
  function BestPhase(p: Context, name: string, explicit: int, n: nat): (best: Option<nat>)
    ensures best.Some? ==> best.value < n && Admissible(p, name, explicit, best.value)
    ensures best.Some? ==>
              forall q :: 0 <= q < n && Admissible(p, name, explicit, q) ==> AtLeastAsGood(p, name, best.value, q)
    ensures best.None? ==> forall q :: 0 <= q < n ==> !Admissible(p, name, explicit, q)
  {
    if n == 0 then None
    else
      var b := BestPhase(p, name, explicit, n - 1);
      if !Admissible(p, name, explicit, n - 1) then b
      else if b.None? || Score(p, name, n - 1).value < Score(p, name, b.value).value then Some(n - 1)
      else b
  }

  function AtLeastOne(x: int): (r: int)
    ensures r >= 1 && (x >= 1 ==> r == x)
  {
    if x > 1 then x else 1
  }

  function WithRequired(g: Segment): Segment {
    if g.phaseLocked then g
    else g.(requiredAlign := if g.relocAlign > 1 then g.relocAlign else AtLeastOne(g.explicitAlign))
  }

  const PHASE_LIMIT := 32768

  predicate SaneAlignment(required: int, explicit: int) {
    required <= PHASE_LIMIT && PowerOfTwoTest(required) && explicit <= required && PowerOfTwoTest(explicit)
  }

  /** asm_select_reloc_phases for one segment; None: the alignment state is invalid or no residue will do. */
  function SelectOne(p: Context, name: string, g: Segment): Option<Segment> {
    var h := WithRequired(g);
    var required, explicit := AtLeastOne(h.requiredAlign), AtLeastOne(g.explicitAlign);
    if required == 1 then Some(h)
    else if !SaneAlignment(required, explicit) then None
    else match BestPhase(p, name, explicit, required)
      case None => None
      case Some(b) => Some(h.(selectedPhase := b, phaseLocked := true))
  }

  /** The first `n` segments of the list; the flag tells whether all of them found a residue. */
  function SelectAll(order: seq<string>, p: Context, n: nat): (map<string, Segment>, bool)
    requires n <= |order|
  {
    if n == 0 then (p.segs, true)
    else
      var r := SelectAll(order, p, n - 1);
      if !r.1 || order[n - 1] !in r.0 then r
      else match SelectOne(p, order[n - 1], r.0[order[n - 1]])
        case None => (r.0, false)
        case Some(g) => (r.0[order[n - 1] := g], true)
  }

  // ---- what a page test depends on

  lemma CrossesExact(base: int, src: int, target: int)
    ensures Crosses(base, src, target) <==> ((base + src + 2) / 256) % 256 != ((base + target) / 256) % 256
  {
    hide Bitwise;
    PageTestExact((base + src + 2) % 0x10000, (base + target) % 0x10000);
    PageOfWord(base + src + 2);
    PageOfWord(base + target);
  }

  lemma PageOfWord(x: int)
    ensures (x % 0x10000) / 256 == (x / 256) % 256
  {
    assert x == (x / 0x10000) * 0x10000 + x % 0x10000;
    DivModUnique(x / 256, 256, x / 0x10000, (x % 0x10000) / 256);
  }

  /** The verdict at a residue is the verdict at every address with that residue. */
  ghost predicate BaseIndependent(m: int)
    requires m >= 1
  {
    forall base, phase, src, target ::
      base % m == phase % m ==> Crosses(base, src, target) == Crosses(phase, src, target)
  }

  /** Exactly the multiples of the page size make page verdicts independent of the base, wrap-around included;
      for any other modulus a one-byte hop already tells the bases apart. */
  lemma PageModulus(m: int)
    requires m >= 1
    ensures BaseIndependent(m) <==> m % 256 == 0
  {
    hide Crosses;
    if m % 256 == 0 {
      forall base, phase, src, target | base % m == phase % m
        ensures Crosses(base, src, target) == Crosses(phase, src, target)
      {
        SamePages(base, phase, m, src, target);
      }
    } else {
      var r := m % 256;
      CrossesExact(0, 509 - r, 512 - r);
      CrossesExact(m, 509 - r, 512 - r);
      assert m == (m / 256) * 256 + r;
      assert m % m == 0 % m;
      DivModUnique(m + 511 - r, 256, m / 256 + 1, 255);
      DivModUnique(m + 512 - r, 256, m / 256 + 2, 0);
      NextPage(m / 256 + 1);
      assert Crosses(m, 509 - r, 512 - r) != Crosses(0, 509 - r, 512 - r);
    }
  }

  lemma NextPage(k: int)
    ensures k % 256 != (k + 1) % 256
  {
  }

  lemma SamePages(base: int, phase: int, m: int, src: int, target: int)
    requires m >= 1 && m % 256 == 0 && base % m == phase % m
    ensures Crosses(base, src, target) == Crosses(phase, src, target)
  {
    hide Crosses;
    CongruentModDivisor(base, phase, m, 256);
    var q := ModEqualDifference(base, phase, 256);
    CrossesExact(base, src, target);
    CrossesExact(phase, src, target);
    ModAdd(phase + src + 2, q, 256);
    ModAdd(phase + target, q, 256);
    PagesMoveTogether((phase + src + 2) / 256, (phase + target) / 256, q);
  }

  lemma PagesMoveTogether(a: int, b: int, q: int)
    ensures (a + q) % 256 == (b + q) % 256 <==> a % 256 == b % 256
  {
  }

  // ---- what the search promises

  lemma EligibleExact(phase: int, explicit: int)
    requires explicit >= 1 && PowerOfTwoTest(explicit)
    ensures Eligible(phase, explicit) <==> phase % explicit == 0
  {
    hide Bitwise;
    PowerOfTwoTestExact(explicit);
    var k: nat :| explicit == Pow2(k);
    AndLowMask(phase, k);
    if explicit == 1 { assert phase % 1 == 0; }
  }

  /** A segment that needs a residue gets the best admissible one, and is refused one only when its alignments
      are not powers of two within the limit or no residue is admissible. */
  lemma SelectionExact(p: Context, name: string, g: Segment)
    requires AtLeastOne(WithRequired(g).requiredAlign) > 1
    ensures var r := SelectOne(p, name, g); var required := WithRequired(g).requiredAlign;
            var e := AtLeastOne(g.explicitAlign);
            r.None? <==> (!(IsPow2(required) && IsPow2(e) && e <= required <= PHASE_LIMIT) ||
                          forall q :: 0 <= q < required && q % e == 0 ==> Score(p, name, q).None?)
    ensures var r := SelectOne(p, name, g); var required := WithRequired(g).requiredAlign;
            var e := AtLeastOne(g.explicitAlign);
            r.Some? ==>
              r.value.phaseLocked && r.value.requiredAlign == required && 0 <= r.value.selectedPhase < required &&
                        r.value.selectedPhase % e == 0 && Score(p, name, r.value.selectedPhase).Some? &&
                        forall q :: 0 <= q < required && q % e == 0 && Score(p, name, q).Some? ==>
                          AtLeastAsGood(p, name, r.value.selectedPhase, q)
  {
    var h := WithRequired(g);
    var e := AtLeastOne(g.explicitAlign);
    PowerOfTwoTestExact(h.requiredAlign);
    PowerOfTwoTestExact(e);
    hide Score, AtLeastAsGood, PowerOfTwoTest, Eligible, IsPow2;
    if PowerOfTwoTest(e) {
      forall q ensures Eligible(q, e) <==> q % e == 0 { EligibleExact(q, e); }
      if PowerOfTwoTest(h.requiredAlign) && e <= h.requiredAlign <= PHASE_LIMIT {
        var best := BestPhase(p, name, e, h.requiredAlign);
        if best.None? {
          forall q | 0 <= q < h.requiredAlign && q % e == 0
            ensures Score(p, name, q).None?
          {
            assert !Admissible(p, name, e, q);
          }
        } else {
          forall q | 0 <= q < h.requiredAlign && q % e == 0 && Score(p, name, q).Some?
            ensures AtLeastAsGood(p, name, best.value, q)
          {
            assert Admissible(p, name, e, q);
          }
        }
      }
    }
  }
}
