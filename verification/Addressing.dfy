/** What shortening an operand does to the address an instruction uses: the processor's own address arithmetic, stated
    without the relaxer's choice of forms (assembler/asm_pass.c, can_relax_to_zp_family). */
module Addressing {
  import opened Support
  import opened Expressions
  import opened Opcodes
  import opened Program
  import opened Layout
  import opened Relaxation
  import opened RelaxRun
  import opened RelaxFixpoint

  /** The register an addressing form adds to its operand. */
  datatype Index = NoIndex | ByX | ByY

  /** Forms whose address is an operand plus at most one register: with a word operand, or with a byte operand whose sum
      wraps inside page zero. */
  datatype Direct = Direct(index: Index, pageZero: bool)

  function DirectForm(m: EmitMode): Option<Direct> {
    match m
    case Zp => Some(Direct(NoIndex, true))
    case ZpX => Some(Direct(ByX, true))
    case ZpY => Some(Direct(ByY, true))
    case Abs => Some(Direct(NoIndex, false))
    case AbsX => Some(Direct(ByX, false))
    case AbsY => Some(Direct(ByY, false))
    case _ => None
  }

  /** The address such an instruction reads or writes. */
  function Effective(d: Direct, operand: int, x: byte, y: byte): int {
    var index := match d.index case NoIndex => 0 case ByX => x as int case ByY => y as int;
    if d.pageZero then (operand + index) % 256 else (operand + index) % 0x10000
  }

  /** How far the register of a form reaches. */
  function Reach(d: Direct, x: byte, y: byte): int {
    match d.index case NoIndex => 0 case ByX => x as int case ByY => y as int
  }

  /** An instruction has a short form exactly when its form takes a word operand, is not fixed by a suffix, and the
      table has the page-zero form with the same register. */
  lemma ShortFormExact(cfg: Config, s: Stmt, m: EmitMode)
    requires s.kind.Insn?
    ensures ZpForm(cfg, s) == Some(m) <==>
              !s.kind.suffixed && DirectForm(s.kind.mode).Some? && !DirectForm(s.kind.mode).value.pageZero &&
              DirectForm(m) == Some(Direct(DirectForm(s.kind.mode).value.index, true)) &&
              Lookup(cfg.table, s.kind.opcode, m).Some?
  {
    hide Lookup;
  }

  /** A short operand names the address the long one named exactly while operand and register stay inside page zero. */
  lemma WrapExact(index: Index, operand: int, x: byte, y: byte)
    requires 0 <= operand <= 0xff
    ensures Effective(Direct(index, true), operand, x, y) == Effective(Direct(index, false), operand, x, y) <==>
              operand + Reach(Direct(index, false), x, y) < 256
  {
  }

  /** From form `m` to form `n` the address stays the same for every operand in page zero and all register contents,
      except exactly where the indexed sum leaves page zero. */
  ghost predicate KeepsAddress(m: EmitMode, n: EmitMode) {
    var before, after := DirectForm(m), DirectForm(n);
    before.Some? && after.Some? && !before.value.pageZero && after.value.pageZero &&
    forall operand: int, x: byte, y: byte :: 0 <= operand <= 0xff ==>
      (Effective(after.value, operand, x, y) == Effective(before.value, operand, x, y) <==>
         operand + Reach(before.value, x, y) < 256)
  }

  /** The same instruction: only its form may differ. */
  predicate SameButForm(s: Stmt, t: Stmt) {
    s.kind.Insn? && t.kind.Insn? && t.kind.opcode == s.kind.opcode && t.kind.operand == s.kind.operand
  }

  /** What one iteration does to an instruction that is not a long branch. */
  lemma ShorteningKeepsAddress(cfg: Config, c: Context, i: nat)
    requires Pass1(cfg, c).errors == c.errors && i < |c.prog| && c.prog[i].kind.Insn? && c.prog[i].kind.mode != RelLong
    ensures SameButForm(c.prog[i], RelaxPass(cfg, c).prog[i])
    ensures ModeAt(RelaxPass(cfg, c), i) == ModeAt(c, i) ||
            KeepsAddress(c.prog[i].kind.mode, RelaxPass(cfg, c).prog[i].kind.mode)
  {
    hide Pass1, RelaxPass, ZpForm, OperandShrinks;
    PassKeepsOpcode(cfg, c, i);
    PassKeepsOperand(cfg, c, i);
    if ModeAt(RelaxPass(cfg, c), i) != ModeAt(c, i) {
      ChangeMeansFits(cfg, c, i);
      ShortFormExact(cfg, c.prog[i], RelaxPass(cfg, c).prog[i].kind.mode);
      var index := DirectForm(c.prog[i].kind.mode).value.index;
      forall operand: int, x: byte, y: byte | 0 <= operand <= 0xff
        ensures Effective(Direct(index, true), operand, x, y) == Effective(Direct(index, false), operand, x, y) <==>
                  operand + Reach(Direct(index, false), x, y) < 256
      {
        WrapExact(index, operand, x, y);
      }
    }
  }

  /** What a whole run does to it. */
  lemma {:induction false} RunKeepsAddress(cfg: Config, c: Context, n: nat, i: nat)
    requires Quiet(cfg, c, n) && i < |c.prog| && c.prog[i].kind.Insn? && c.prog[i].kind.mode != RelLong
    ensures i < |Iterate(cfg, c, n).prog| && SameButForm(c.prog[i], Iterate(cfg, c, n).prog[i])
    ensures ModeAt(Iterate(cfg, c, n), i) == ModeAt(c, i) ||
            KeepsAddress(c.prog[i].kind.mode, Iterate(cfg, c, n).prog[i].kind.mode)
  {
    hide Pass1, RelaxPass, KeepsAddress, Quiet;
    if n > 0 {
      var x := Iterate(cfg, c, n - 1);
      QuietSteps(cfg, c, n - 1, n);
      RunKeepsAddress(cfg, c, n - 1, i);
      NeverLong(c.prog[i].kind.mode, x.prog[i].kind.mode);
      ShorteningKeepsAddress(cfg, x, i);
      if ModeAt(x, i) != ModeAt(c, i) {
        ShortOnce(c.prog[i].kind.mode, x.prog[i].kind.mode, RelaxPass(cfg, x).prog[i].kind.mode);
      }
    }
  }

  lemma NeverLong(m: EmitMode, n: EmitMode)
    requires m != RelLong && (n == m || KeepsAddress(m, n))
    ensures n != RelLong
  {
  }

  /** A shortened form has no shorter one. */
  lemma ShortOnce(m: EmitMode, n: EmitMode, k: EmitMode)
    requires KeepsAddress(m, n) && (k == n || KeepsAddress(n, k))
    ensures k == n
  {
  }

  lemma PassKeepsOperand(cfg: Config, c: Context, i: nat)
    requires i < |c.prog| && Pass1(cfg, c).errors == c.errors && c.prog[i].kind.Insn?
    ensures RelaxPass(cfg, c).prog[i].kind.Insn? && RelaxPass(cfg, c).prog[i].kind.operand == c.prog[i].kind.operand
  {
    hide Pass1, BranchShrinks, OperandShrinks, ZpForm;
    PassStmt(cfg, c, i);
  }
}
