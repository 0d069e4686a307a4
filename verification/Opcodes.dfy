/** The opcode table: mnemonics, addressing forms, raw `opXX` bytes and branch inversion (assembler/opcode.c). */
module Opcodes {
  import opened Support

  datatype EmitMode =
    | Implied | Accumulator | Immediate
    | Zp | ZpX | ZpY | Abs | AbsX | AbsY
    | Ind | IndX | IndY | Rel | RelLong

  /** emit_mode_size. */
  function ModeSize(m: EmitMode): (n: nat)
    ensures 1 <= n <= 5
  {
    match m
    case Implied | Accumulator => 1
    case Immediate | Zp | ZpX | ZpY | IndX | IndY | Rel => 2
    case RelLong => 5
    case Abs | AbsX | AbsY | Ind => 3
  }

  datatype Entry = Entry(mnemonic: string, mode: EmitMode, opcode: byte)

  /** The loaded table, newest entry first. */
  type Table = seq<Entry>

  function Find(t: Table, mnemonic: string, mode: EmitMode): Option<byte> {
    if t == [] then None
    else if t[0].mode == mode && t[0].mnemonic == mnemonic then Some(t[0].opcode)
    else Find(t[1..], mnemonic, mode)
  }

  /** What is known about the addressing form of one opcode byte. */
  datatype Usage = Unused | One(mode: EmitMode) | Mixed

  /** opcode_note_reverse_mapping. */
  function Note(u: Usage, m: EmitMode): Usage {
    match u
    case Unused => One(m)
    case One(m') => if m' == m then u else Mixed
    case Mixed => Mixed
  }

  /** The reverse map's entry for byte `b` after the first `n` table entries are noted. */
  function Noted(t: Table, n: nat, b: byte): Usage
    requires n <= |t|
  {
    if n == 0 then Unused
    else if t[n - 1].opcode == b then Note(Noted(t, n - 1, b), t[n - 1].mode)
    else Noted(t, n - 1, b)
  }

  function ReverseMap(t: Table, b: byte): Usage { Noted(t, |t|, b) }

  /** opcode_byte_conflicts. */
  predicate Conflicts(t: Table, mode: EmitMode, b: byte) {
    exists i :: 0 <= i < |t| && t[i].opcode == b && t[i].mode != mode
  }

  /** No opcode byte has two addressing forms. */
  predicate OneFormPerByte(t: Table) {
    forall i, j :: 0 <= i < |t| && 0 <= j < |t| && t[i].opcode == t[j].opcode ==> t[i].mode == t[j].mode
  }

  predicate UniqueNames(t: Table) {
    forall i, j :: 0 <= i < j < |t| ==> !(t[i].mnemonic == t[j].mnemonic && t[i].mode == t[j].mode)
  }

  /** opcode_add_mapping: a known mnemonic and form gets a new byte, anything else a new entry in front. */
  function Added(t: Table, mnemonic: string, mode: EmitMode, b: byte): Table {
    match Position(t, mnemonic, mode)
    case Some(i) => t[i := t[i].(opcode := b)]
    case None => [Entry(mnemonic, mode, b)] + t
  }

  function Position(t: Table, mnemonic: string, mode: EmitMode): (p: Option<nat>)
    ensures p.Some? ==> p.value < |t| && t[p.value].mode == mode && t[p.value].mnemonic == mnemonic
    ensures p.None? ==> forall i :: 0 <= i < |t| ==> !(t[i].mode == mode && t[i].mnemonic == mnemonic)
    ensures p.Some? ==> forall i :: 0 <= i < p.value ==> !(t[i].mode == mode && t[i].mnemonic == mnemonic)
    ensures p.Some? <==> Find(t, mnemonic, mode).Some?
    ensures p.Some? ==> Find(t, mnemonic, mode) == Some(t[p.value].opcode)
  {
    if t == [] then None
    else if t[0].mode == mode && t[0].mnemonic == mnemonic then Some(0)
    else
      match Position(t[1..], mnemonic, mode)
      case Some(i) => Some(i + 1)
      case None =>
        assert forall i :: 1 <= i < |t| ==> t[i] == t[1..][i - 1];
        None
  }

  /** One accepted configuration line: later lines win for the same mnemonic and form, and a byte
      never gets a second form. */
  lemma LoadedLineIsFound(t: Table, mnemonic: string, mode: EmitMode, b: byte)
    requires UniqueNames(t) && OneFormPerByte(t) && !Conflicts(t, mode, b)
    ensures var t' := Added(t, mnemonic, mode, b);
            UniqueNames(t') && OneFormPerByte(t') && Find(t', mnemonic, mode) == Some(b)
    ensures forall n, m :: (n != mnemonic || m != mode) ==>
              Find(Added(t, mnemonic, mode, b), n, m) == Find(t, n, m)
  {
    var t' := Added(t, mnemonic, mode, b);
    match Position(t, mnemonic, mode) {
      case Some(i) =>
        assert forall j :: 0 <= j < |t| ==> t'[j].mnemonic == t[j].mnemonic && t'[j].mode == t[j].mode;
        assert UniqueNames(t');
        FindAt(t', i);
        forall n, m | n != mnemonic || m != mode
          ensures Find(t', n, m) == Find(t, n, m)
        {
          FindUnaffected(t, i, b, n, m);
        }
      case None =>
        assert t'[1..] == t;
    }
  }

  /** The conflict test refuses exactly the lines that would give a byte a second form. */
  lemma ConflictExact(t: Table, mnemonic: string, mode: EmitMode, b: byte)
    requires UniqueNames(t) && OneFormPerByte(t)
    ensures Conflicts(t, mode, b) <==> !OneFormPerByte(Added(t, mnemonic, mode, b))
  {
    var t' := Added(t, mnemonic, mode, b);
    if i :| 0 <= i < |t| && t[i].opcode == b && t[i].mode != mode {
      match Position(t, mnemonic, mode) {
        case Some(k) => assert t'[i] == t[i] && t'[k].opcode == b && t'[k].mode == mode;
        case None => assert t'[i + 1] == t[i] && t'[0].opcode == b && t'[0].mode == mode;
      }
    } else {
      LoadedLineIsFound(t, mnemonic, mode, b);
    }
  }

  lemma {:induction false} FindAt(t: Table, i: nat)
    requires UniqueNames(t) && i < |t|
    ensures Find(t, t[i].mnemonic, t[i].mode) == Some(t[i].opcode)
  {
    if i > 0 {
      FindAt(t[1..], i - 1);
    }
  }

  lemma {:induction false} FindUnaffected(t: Table, i: nat, b: byte, n: string, m: EmitMode)
    requires i < |t| && !(t[i].mnemonic == n && t[i].mode == m)
    ensures Find(t[i := t[i].(opcode := b)], n, m) == Find(t, n, m)
  {
    var t' := t[i := t[i].(opcode := b)];
    if i == 0 {
      assert t'[1..] == t[1..];
    } else {
      assert t'[1..] == t[1..][i - 1 := t[i].(opcode := b)];
      FindUnaffected(t[1..], i - 1, b, n, m);
    }
  }

  /** The rebuilt reverse map is exact: it names a form precisely for the bytes whose entries all use it. */
  lemma {:induction false} NotedExact(t: Table, n: nat, b: byte)
    requires n <= |t|
    ensures Noted(t, n, b) == Unused <==> forall i :: 0 <= i < n ==> t[i].opcode != b
    ensures forall m :: Noted(t, n, b) == One(m) <==>
              (exists i :: 0 <= i < n && t[i].opcode == b) && forall i :: 0 <= i < n && t[i].opcode == b ==>
                t[i].mode == m
  {
    if n > 0 { NotedExact(t, n - 1, b); }
  }

  function HexNibble(ch: char): Option<nat> {
    if '0' <= ch <= '9' then Some(ch as int - '0' as int)
    else if 'A' <= ch <= 'F' then Some(10 + ch as int - 'A' as int)
    else if 'a' <= ch <= 'f' then Some(10 + ch as int - 'a' as int)
    else None
  }

  /** opcode_parse_raw_byte: the generic spelling `opXX`. */
  function RawByte(mnemonic: string): (b: Option<byte>) {
    if |mnemonic| == 4 && (mnemonic[0] == 'O' || mnemonic[0] == 'o') && (mnemonic[1] == 'P' || mnemonic[1] == 'p') then
      match (HexNibble(mnemonic[2]), HexNibble(mnemonic[3]))
      case (Some(hi), Some(lo)) => Some((16 * hi + lo) % 256)
      case _ => None
    else None
  }

  /** opcode_lookup. */
  function Lookup(t: Table, mnemonic: string, mode: EmitMode): Option<byte> {
    match RawByte(mnemonic)
    case Some(b) =>
      if mode == RelLong then Find(t, mnemonic, mode)
      else
        (match ReverseMap(t, b)
         case One(m) => if m == mode then Some(b) else None
         case _ => Some(b))
    case None => Find(t, mnemonic, mode)
  }

  /** A byte found by mnemonic in a table without clashes has exactly the form it was found under. */
  lemma {:induction false} LookupForm(t: Table, mnemonic: string, mode: EmitMode)
    requires OneFormPerByte(t) && RawByte(mnemonic).None? && Lookup(t, mnemonic, mode).Some?
    ensures ReverseMap(t, Lookup(t, mnemonic, mode).value) == One(mode)
  {
    var i := Position(t, mnemonic, mode).value;
    NotedExact(t, |t|, t[i].opcode);
  }

  /** The eight conditional branches, paired by the flag they test. */
  datatype Branch = BCC | BCS | BEQ | BMI | BNE | BPL | BVC | BVS

  /** opcode_is_conditional_branch. */
  function BranchOf(mnemonic: string): Option<Branch> {
    if mnemonic == "BCC" then Some(BCC) else if mnemonic == "BCS" then Some(BCS)
    else if mnemonic == "BEQ" then Some(BEQ) else if mnemonic == "BMI" then Some(BMI)
    else if mnemonic == "BNE" then Some(BNE) else if mnemonic == "BPL" then Some(BPL)
    else if mnemonic == "BVC" then Some(BVC) else if mnemonic == "BVS" then Some(BVS)
    else None
  }

  /** opcode_invert_branch: the byte written at the head of a long branch. */
  function InvertedByte(b: Branch): byte {
    match b
    case BCC => 0xB0
    case BCS => 0x90
    case BEQ => 0xD0
    case BMI => 0x10
    case BNE => 0xF0
    case BPL => 0x30
    case BVC => 0x70
    case BVS => 0x50
  }

  /** The table and the reverse map the assembler keeps in globals. */
  class Registry {
    var table: Table
    const forms: array<EmitMode>
    const states: array<nat>

    ghost predicate Valid()
      reads this, forms, states
    {
      forms.Length == 256 && states.Length == 256 && UniqueNames(table) && OneFormPerByte(table) &&
      forall b: byte :: 0 <= b < 256 ==> UsageAt(b) == ReverseMap(table, b)
    }

    function UsageAt(b: byte): Usage
      requires forms.Length == 256 && states.Length == 256
      reads forms, states
    {
      if states[b] == 0 then Unused else if states[b] == 1 then One(forms[b]) else Mixed
    }

    constructor ()
      ensures Valid() && table == [] && fresh(forms) && fresh(states)
    {
      table := [];
      forms := new EmitMode[256](_ => Implied);
      states := new nat[256](_ => 0);
    }

    method RebuildReverseMap()
      requires forms.Length == 256 && states.Length == 256
      modifies forms, states
      ensures forall b: byte :: 0 <= b < 256 ==> UsageAt(b) == ReverseMap(table, b)
    {
      for k := 0 to 256
        invariant forall b :: 0 <= b < k ==> states[b] == 0
      {
        forms[k] := Implied;
        states[k] := 0;
      }
      var n := 0;
      while n < |table|
        invariant n <= |table|
        invariant forall b: byte :: 0 <= b < 256 ==> UsageAt(b) == Noted(table, n, b)
      {
        var idx := table[n].opcode;
        if states[idx] == 0 {
          forms[idx] := table[n].mode;
          states[idx] := 1;
        } else if states[idx] == 1 && forms[idx] == table[n].mode {
        } else {
          states[idx] := 2;
        }
        n := n + 1;
      }
    }

    /** One configuration line: refused when the byte already has another form. */
    method LoadLine(mnemonic: string, mode: EmitMode, b: byte) returns (ok: bool)
      requires Valid()
      modifies this, forms, states
      ensures Valid()
      ensures ok <==> OneFormPerByte(Added(old(table), mnemonic, mode, b))
      ensures table == if ok then Added(old(table), mnemonic, mode, b) else old(table)
      ensures ok ==> Find(table, mnemonic, mode) == Some(b)
    {
      ConflictExact(table, mnemonic, mode, b);
      if Conflicts(table, mode, b) {
        return false;
      }
      LoadedLineIsFound(table, mnemonic, mode, b);
      table := Added(table, mnemonic, mode, b);
      RebuildReverseMap();
      return true;
    }
  }
}
