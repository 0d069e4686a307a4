/** What names mean: who sees a symbol, which family a segment belongs to, and which byte a mnemonic stands for
    (assembler/asm_state.c, o26.c, opcode.c). */
module Names {
  import opened Support
  import opened Expressions
  import opened Opcodes
  import opened Program
  import opened HexFormat
  import opened Machine

  // ---- symbols

  /** A name is public when the command line sets it or its file exports it. */
  predicate Public(cfg: Config, file: string, name: string) { name in cfg.commandLine || (file, name) in cfg.exported }

  /** A statement finds the symbol another one stores under the same name exactly if it is a local name of the same
      scope, a public one, or a private one of the same file. */
  lemma VisibilityExact(cfg: Config, s: Stmt, t: Stmt, name: string)
    ensures Resolve({StorageKey(cfg, s, name)}, t.scope, t.file, name) == StorageKey(cfg, s, name) <==>
              if |name| > 0 && name[0] == '@' then t.scope == s.scope
              else Public(cfg, s.file, name) || (t.file == s.file && t.file != "")
  {
  }

  /** Two statements store a name in one entry exactly under the same conditions, whatever their files. */
  lemma SharedExact(cfg: Config, s: Stmt, t: Stmt, name: string)
    ensures StorageKey(cfg, s, name) == StorageKey(cfg, t, name) <==>
              if |name| > 0 && name[0] == '@' then t.scope == s.scope
              else if Public(cfg, s.file, name) || Public(cfg, t.file, name) then
                Public(cfg, s.file, name) && Public(cfg, t.file, name)
              else t.file == s.file
  {
  }

  // ---- families of segments

  /** The same letter, or one the capital of the other. */
  predicate SameLetter(a: char, b: char) {
    a == b || ('a' <= a <= 'z' && b as int == a as int - 32) || ('a' <= b <= 'z' && a as int == b as int - 32)
  }

  lemma LettersExact(a: char, b: char)
    ensures Lower(a) == Lower(b) <==> SameLetter(a, b)
  {
  }

  /** A name belongs to a family if it is the family's name or that name, a dot and something behind it, in any case. */
  lemma FamilyExact(name: string, family: string)
    ensures InFamily(name, family) <==>
              |name| >= |family| && (forall i :: 0 <= i < |family| ==> SameLetter(name[i], family[i])) &&
              (|name| > |family| ==> name[|family|] == '.')
  {
    if |name| >= |family| {
      forall i | 0 <= i < |family|
        ensures name[..|family|][i] == name[i] && (Lower(name[i]) == Lower(family[i]) <==> SameLetter(name[i], family[i]))
      {
        LettersExact(name[i], family[i]);
      }
    }
  }

  /** Contract `i` speaks for the name: no matching one is longer, and no earlier matching one is as long. */
  predicate Speaks(contracts: seq<(string, bool)>, name: string, i: nat)
    requires i < |contracts|
  {
    InFamily(name, contracts[i].0) &&
    forall j :: 0 <= j < |contracts| && InFamily(name, contracts[j].0) ==>
      |contracts[j].0| <= |contracts[i].0| && (j < i ==> |contracts[j].0| < |contracts[i].0|)
  }

  /** A segment is promised to page zero exactly if the contract that speaks for it says so. */
  lemma ContractExact(contracts: seq<(string, bool)>, name: string)
    ensures ContractIsZp(contracts, name) <==>
              exists i :: 0 <= i < |contracts| && Speaks(contracts, name, i) && contracts[i].1
  {
    hide InFamily;
    BestIsFirst(contracts, |contracts|, name);
    var best := BestContract(contracts, |contracts|, name);
    if best.Some? { assert Speaks(contracts, name, best.value); }
    hide BestContract;
    forall i, j | 0 <= i < |contracts| && 0 <= j < |contracts| && Speaks(contracts, name, i) && Speaks(contracts, name, j)
      ensures i == j
    {
    }
  }

  lemma {:induction false} BestIsFirst(contracts: seq<(string, bool)>, n: nat, name: string)
    requires n <= |contracts|
    ensures var best := BestContract(contracts, n, name);
            best.Some? ==> forall j :: 0 <= j < best.value && InFamily(name, contracts[j].0) ==>
              |contracts[j].0| < |contracts[best.value].0|
  {
    hide InFamily;
    if n > 0 { BestIsFirst(contracts, n - 1, name); }
  }

  // ---- mnemonics

  /** The branch lines of the default configuration. */
  const BRANCH_LINES: seq<(string, byte)> :=
    [("BCC", 0x90), ("BCS", 0xB0), ("BEQ", 0xF0), ("BMI", 0x30),
     ("BNE", 0xD0), ("BPL", 0x10), ("BVC", 0x50), ("BVS", 0x70)]

  /** Exactly the configured branch mnemonics are branches, each the one whose byte the configuration gives. */
  lemma BranchNamesExact(name: string)
    ensures BranchOf(name).Some? <==> exists i :: 0 <= i < |BRANCH_LINES| && BRANCH_LINES[i].0 == name
    ensures forall i :: 0 <= i < |BRANCH_LINES| && BRANCH_LINES[i].0 == name ==>
              BranchOf(name).Some? && StandardByte(BranchOf(name).value) == BRANCH_LINES[i].1
  {
    assert BRANCH_LINES[0].0 == "BCC" && BRANCH_LINES[1].0 == "BCS" && BRANCH_LINES[2].0 == "BEQ";
    assert BRANCH_LINES[3].0 == "BMI" && BRANCH_LINES[4].0 == "BNE" && BRANCH_LINES[5].0 == "BPL";
    assert BRANCH_LINES[6].0 == "BVC" && BRANCH_LINES[7].0 == "BVS";
    LettersDiffer();
    hide BranchTaken, Holds;
  }

  /** The mnemonics are eight different ones. */
  lemma LettersDiffer()
    ensures "BCC" != "BCS" && "BVC" != "BVS" && "BEQ"[1] == 'E' && "BMI"[1] == 'M' && "BNE"[1] == 'N' && "BPL"[1] == 'P'
    ensures "BCC"[1] == 'C' && "BCS"[1] == 'C' && "BVC"[1] == 'V' && "BVS"[1] == 'V'
  {
    assert "BCC"[2] == 'C' && "BCS"[2] == 'S' && "BVC"[2] == 'C' && "BVS"[2] == 'S';
  }

  /** A generic mnemonic is `op` and the two hexadecimal digits of its byte, in any case. */
  lemma RawByteExact(name: string, b: byte)
    ensures RawByte(name) == Some(b) <==>
              |name| == 4 && SameLetter(name[0], 'o') && SameLetter(name[1], 'p') &&
              SameLetter(name[2], Digit(b / 16)) && SameLetter(name[3], Digit(b % 16))
  {
    hide HexNibble, Digit, SameLetter;
    if |name| == 4 {
      NibbleExact(name[2], b / 16);
      NibbleExact(name[3], b % 16);
      NibbleRange(name[2]);
      NibbleRange(name[3]);
      PrefixExact(name);
    }
  }

  lemma NibbleRange(c: char)
    ensures HexNibble(c).Some? ==> HexNibble(c).value < 16
  {
  }

  lemma PrefixExact(name: string)
    requires |name| == 4
    ensures SameLetter(name[0], 'o') <==> name[0] == 'O' || name[0] == 'o'
    ensures SameLetter(name[1], 'p') <==> name[1] == 'P' || name[1] == 'p'
  {
  }

  lemma NibbleExact(c: char, n: nat)
    requires n < 16
    ensures HexNibble(c) == Some(n) <==> SameLetter(c, Digit(n))
  {
  }

  /** Entry `i` is the newest one for a mnemonic and a form. */
  predicate Newest(t: Table, name: string, mode: EmitMode, i: nat)
    requires i < |t|
  {
    t[i].mnemonic == name && t[i].mode == mode &&
    forall j :: 0 <= j < i ==> !(t[j].mnemonic == name && t[j].mode == mode)
  }

  /** Any other mnemonic has the byte of its newest entry for the form, and none without one. */
  lemma LookupExact(t: Table, name: string, mode: EmitMode)
    requires RawByte(name).None?
    ensures Lookup(t, name, mode).Some? <==> exists i :: 0 <= i < |t| && Newest(t, name, mode, i)
    ensures forall i :: 0 <= i < |t| && Newest(t, name, mode, i) ==> Lookup(t, name, mode) == Some(t[i].opcode)
  {
    hide RawByte;
    var p := Position(t, name, mode);
    if p.Some? { assert Newest(t, name, mode, p.value); }
    forall i | 0 <= i < |t| && Newest(t, name, mode, i)
      ensures p == Some(i)
    {
    }
  }

  /** A generic mnemonic is refused in a form exactly if the table uses its byte, always in one form, and in another
      one. */
  lemma RawLookupExact(t: Table, name: string, mode: EmitMode)
    requires RawByte(name).Some? && mode != RelLong
    ensures var b := RawByte(name).value;
            (Lookup(t, name, mode).Some? ==> Lookup(t, name, mode).value == b) &&
            (Lookup(t, name, mode).None? <==>
               (exists i :: 0 <= i < |t| && t[i].opcode == b && t[i].mode != mode) &&
               forall i, j :: 0 <= i < |t| && 0 <= j < |t| && t[i].opcode == b && t[j].opcode == b ==> t[i].mode == t[j].mode)
  {
    hide RawByte, Find;
    var b := RawByte(name).value;
    NotedExact(t, |t|, b);
    if i :| 0 <= i < |t| && t[i].opcode == b && t[i].mode != mode {
      if ReverseMap(t, b) == One(t[i].mode) {
        assert Lookup(t, name, mode).None?;
      } else {
        assert Noted(t, |t|, b) != One(t[i].mode);
      }
    }
  }
}
