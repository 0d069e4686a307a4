/** The delta-coded relocation table of an object file, its writer and its reader
    (assembler/o26.c, linker/vcsc_ld_input.c). */
module RelocStream {
  import opened Support
  import opened Relocation

  const SKIP: byte := 255
  const SKIP_BY := 254

  function Word(n: int): seq<byte> { [LowByte(n), HighByte(n)] }

  /** The optional fields of a record. */
  function Fields(r: Reloc): seq<byte> {
    (if r.segId == 0 then Word(r.undefIndex) else []) +
    (if r.layout.Some? then Word(r.layout.value) else []) +
    (if r.aux.Some? then [r.aux.value] else [])
  }

  /** Skip bytes in front of a distance, and the distance left. */
  function Skips(delta: int): (r: (seq<byte>, int))
    ensures delta <= SKIP_BY ==> r == ([], delta)
    ensures delta > SKIP_BY ==> 1 <= r.1 <= SKIP_BY
    decreases delta
  {
    if delta > SKIP_BY then
      var r := Skips(delta - SKIP_BY);
      ([SKIP] + r.0, r.1)
    else ([], delta)
  }

  function EncodeOne(r: Reloc, prev: int): seq<byte> {
    var s := Skips(r.offset - prev);
    s.0 + [LowByte(s.1), LowByte(r.kind), LowByte(r.segId)] + Fields(r)
  }

  /** The table behind a record at `prev`. */
  function Encode(rs: seq<Reloc>, prev: int): seq<byte> {
    if rs == [] then [0] else EncodeOne(rs[0], prev) + Encode(rs[1..], rs[0].offset)
  }

  // ---- the linker's reader

  datatype Read<T> = Got(value: T, rest: seq<byte>) | Short

  function ReadWord(s: seq<byte>): Read<nat> {
    if |s| < 2 then Short else Got(s[0] as int + 256 * (s[1] as int), s[2..])
  }

  function ReadOptionalWord(present: bool, s: seq<byte>): Read<Option<nat>> {
    if !present then Got(None, s)
    else match ReadWord(s) case Got(v, t) => Got(Some(v), t) case Short => Short
  }

  function ReadOptionalByte(present: bool, s: seq<byte>): Read<Option<byte>> {
    if !present then Got(None, s)
    else if s == [] then Short
    else Got(Some(s[0]), s[1..])
  }

  /** One record's bytes behind its distance. */
  function ReadRecord(offset: int, s: seq<byte>): (r: Read<Reloc>)
    ensures r.Got? ==> |r.rest| < |s| && r.value.offset == offset
  {
    if |s| < 2 then Short
    else
      var kind, seg := s[0], s[1];
      match ReadOptionalWord(seg == 0, s[2..])
      case Short => Short
      case Got(undef, t) =>
        (match ReadOptionalWord(Bit(kind, 2), t)
         case Short => Short
         case Got(layout, u) =>
           (match ReadOptionalByte(Bit(kind, 4), u)
            case Short => Short
            case Got(aux, v) =>
              Got(Reloc(offset, kind, seg, match undef case Some(n) => n case None => 0, layout, aux), v)))
  }

  /** parse_reloc_table_old: the records and what follows the table. */
  function Decode(s: seq<byte>, prev: int): Read<seq<Reloc>>
    decreases |s|
  {
    if s == [] then Short
    else if s[0] == 0 then Got([], s[1..])
    else if s[0] == SKIP then Decode(s[1..], prev + SKIP_BY)
    else
      match ReadRecord(prev + s[0], s[1..])
      case Short => Short
      case Got(r, t) =>
        (match Decode(t, prev + s[0]) case Short => Short case Got(rs, u) => Got([r] + rs, u))
  }

  // ---- round trip

  /** A record whose fields are in range and whose type bits announce the fields present. */
  predicate WellFormed(r: Reloc) {
    0 <= r.kind < 256 && 0 <= r.segId < 256 && r.undefIndex < 0x10000 && (r.segId != 0 ==> r.undefIndex == 0) &&
    (r.layout.Some? ==> r.layout.value < 0x10000) && (r.layout.Some? <==> Bit(r.kind, 2)) &&
    (r.aux.Some? <==> Bit(r.kind, 4))
  }

  /** Offsets strictly increase and stay above `prev`. */
  predicate Increasing(rs: seq<Reloc>, prev: int) {
    rs != [] ==> rs[0].offset > prev && Increasing(rs[1..], rs[0].offset)
  }

  lemma WordRead(n: nat, t: seq<byte>)
    requires n < 0x10000
    ensures ReadWord(Word(n) + t) == Got(n, t)
  {
    WordBytes(n);
  }

  lemma OptionalWordRead(present: bool, n: nat, t: seq<byte>)
    requires n < 0x10000
    ensures ReadOptionalWord(present, (if present then Word(n) else []) + t) ==
              Got(if present then Some(n) else None, t)
  {
    hide Word, ReadWord;
    if present { WordRead(n, t); } else { assert [] + t == t; }
  }

  lemma OptionalByteRead(a: Option<byte>, t: seq<byte>)
    ensures ReadOptionalByte(a.Some?, (match a { case Some(x) => [x] case None => [] }) + t) == Got(a, t)
  {
    if a.Some? { assert ([a.value] + t)[1..] == t; } else { assert [] + t == t; }
  }

  lemma FieldsRead(r: Reloc, t: seq<byte>)
    requires WellFormed(r)
    ensures ReadRecord(r.offset, [LowByte(r.kind), LowByte(r.segId)] + Fields(r) + t) == Got(r, t)
  {
    hide Bit, Word, ReadOptionalWord, ReadOptionalByte;
    var a := match r.aux { case Some(x) => [x] case None => [] };
    var n := if r.layout.Some? then r.layout.value else 0;
    var l := if r.layout.Some? then Word(n) else [];
    var u := if r.segId == 0 then Word(r.undefIndex) else [];
    var s := [LowByte(r.kind), LowByte(r.segId)] + Fields(r) + t;
    assert s[2..] == u + (l + (a + t));
    OptionalWordRead(r.segId == 0, r.undefIndex, l + (a + t));
    OptionalWordRead(r.layout.Some?, n, a + t);
    OptionalByteRead(r.aux, t);
  }

  /** Skip bytes are undone by the reader. */
  lemma {:induction false} SkipsRead(delta: int, t: seq<byte>, prev: int)
    requires delta >= 1
    ensures Decode(Skips(delta).0 + t, prev) == Decode(t, prev + delta - Skips(delta).1)
    decreases delta
  {
    if delta > SKIP_BY {
      SkipsRead(delta - SKIP_BY, t, prev + SKIP_BY);
      var s := Skips(delta).0 + t;
      assert s[1..] == Skips(delta - SKIP_BY).0 + t;
      hide ReadRecord;
    } else {
      assert Skips(delta).0 + t == t;
    }
  }

  /** One record is read back, and reading goes on behind it. */
  lemma OneRead(r: Reloc, prev: int, tail: seq<byte>)
    requires WellFormed(r) && r.offset > prev
    ensures Decode(EncodeOne(r, prev) + tail, prev) ==
              match Decode(tail, r.offset) { case Short => Short case Got(rs, u) => Got([r] + rs, u) }
  {
    hide Fields, ReadRecord, WellFormed;
    var s := Skips(r.offset - prev);
    var body := [LowByte(r.kind), LowByte(r.segId)] + Fields(r) + tail;
    var rest := [LowByte(s.1)] + body;
    assert EncodeOne(r, prev) + tail == s.0 + rest;
    SkipsRead(r.offset - prev, rest, prev);
    assert rest[1..] == body;
    FieldsRead(r, tail);
  }

  /** Reading back what was written gives the records, and the reader stops where the table ends. */
  lemma {:induction false} RoundTrip(rs: seq<Reloc>, prev: int, t: seq<byte>)
    requires Increasing(rs, prev) && forall i :: 0 <= i < |rs| ==> WellFormed(rs[i])
    ensures Decode(Encode(rs, prev) + t, prev) == Got(rs, t)
    decreases |rs|
  {
    hide EncodeOne, Decode, WellFormed;
    if rs == [] {
      EmptyRead(prev, t);
    } else {
      RoundTrip(rs[1..], rs[0].offset, t);
      OneRead(rs[0], prev, Encode(rs[1..], rs[0].offset) + t);
      assert Encode(rs, prev) + t == EncodeOne(rs[0], prev) + (Encode(rs[1..], rs[0].offset) + t);
      assert rs == [rs[0]] + rs[1..];
    }
  }

  lemma EmptyRead(prev: int, t: seq<byte>)
    ensures Decode([0] + t, prev) == Got([], t)
  {
    assert ([0] + t)[1..] == t;
  }

  /** Whatever bytes it is given, the reader only ever produces strictly increasing offsets. */
  lemma {:induction false} DecodedIncrease(s: seq<byte>, prev: int)
    ensures Decode(s, prev).Got? ==> Increasing(Decode(s, prev).value, prev)
    decreases |s|
  {
    hide ReadRecord;
    if s == [] || s[0] == 0 {
    } else if s[0] == SKIP {
      DecodedIncrease(s[1..], prev + SKIP_BY);
      if Decode(s, prev).Got? { IncreasingBelow(Decode(s, prev).value, prev + SKIP_BY, prev); }
    } else {
      var r := ReadRecord(prev + s[0], s[1..]);
      if r.Got? {
        DecodedIncrease(r.rest, prev + s[0]);
        if Decode(s, prev).Got? {
          assert Decode(s, prev).value[1..] == Decode(r.rest, prev + s[0]).value;
        }
      }
    }
  }

  lemma IncreasingBelow(rs: seq<Reloc>, prev: int, lower: int)
    requires Increasing(rs, prev) && lower <= prev
    ensures Increasing(rs, lower)
  {
  }

  /** The table is sound exactly for strictly increasing, non-negative offsets. */
  lemma RoundTripExact(rs: seq<Reloc>, t: seq<byte>)
    requires forall i :: 0 <= i < |rs| ==> WellFormed(rs[i])
    ensures Decode(Encode(rs, -1) + t, -1) == Got(rs, t) <==> Increasing(rs, -1)
  {
    hide Encode, WellFormed, Decode, Increasing;
    DecodedIncrease(Encode(rs, -1) + t, -1);
    if Increasing(rs, -1) { RoundTrip(rs, -1, t); }
  }

  /** Every record the writer makes announces exactly the fields it carries. */
  lemma RecordsWellFormed(i: Info, offset: int, width: int, extra: int)
    requires i.isReloc && i.undefIndex < INDEX_LIMIT && (i.layoutIndex.Some? ==> i.layoutIndex.value < INDEX_LIMIT)
    requires i.segId.UndefSeg? || i.undefIndex == 0
    requires 0 <= extra < 16 && !Bit(extra, 2)
    ensures Record(i, offset, width, extra).Some? && WellFormed(Record(i, offset, width, extra).value)
  {
    SmallExtra(extra);
    KindRange(i, width, extra);
    hide Bit, RecordKind;
    KindBits(i, width, extra);
  }

  lemma SmallExtra(extra: int)
    requires 0 <= extra < 16
    ensures !Bit(extra, 4) && !Bit(extra, 5) && !Bit(extra, 6) && !Bit(extra, 7)
  {
    assert Pow2(4) == 16 && Pow2(5) == 32 by { assert Pow2(3) == 8; }
    assert Pow2(6) == 64 && Pow2(7) == 128 by { assert Pow2(5) == 32; }
  }

  lemma {:induction false} OrRange(a: int, b: int, k: nat)
    requires 0 <= a < Pow2(k) && 0 <= b < Pow2(k)
    ensures 0 <= OrBits(a, b) < Pow2(k)
    decreases k
  {
    OrHalf(a, b);
    hide OrBits;
    if k > 0 { OrRange(a / 2, b / 2, k - 1); } else { OrZero(); }
  }

  lemma OrHalf(a: int, b: int)
    ensures OrBits(a, b) / 2 == OrBits(a / 2, b / 2)
  {
    hide Bitwise;
    BitwiseHalf(OrOp, a, b);
  }

  lemma OrZero()
    ensures OrBits(0, 0) == 0
  {
  }

  lemma KindRange(i: Info, width: int, extra: int)
    requires 0 <= extra < 16
    ensures 0 <= RecordKind(i, width, extra) < 256
  {
    Pow2Eight();
    hide OrBits, Pow2;
    var c := PartCode(RecordedPart(i, width));
    OrRange(c, extra, 8);
    OrRange(OrBits(c, extra), LAYOUT_BIT, 8);
    OrRange(OrBits(c, extra), AUX_BIT, 8);
    OrRange(OrBits(OrBits(c, extra), LAYOUT_BIT), AUX_BIT, 8);
  }

  /** One record of write_reloc_table, with its skips. */
  method WriteReloc(r: Reloc, prev: int) returns (out: seq<byte>)
    ensures out == EncodeOne(r, prev)
  {
    hide Fields;
    out := [];
    var delta, at := r.offset - prev, prev;
    while delta > SKIP_BY
      invariant Skips(r.offset - prev).0 == out + Skips(delta).0 && Skips(r.offset - prev).1 == Skips(delta).1
      invariant at + delta == r.offset
      decreases delta
    {
      assert out + Skips(delta).0 == out + [SKIP] + Skips(delta - SKIP_BY).0;
      out := out + [SKIP];
      delta := delta - SKIP_BY;
      at := at + SKIP_BY;
    }
    assert Skips(r.offset - prev).0 == out;
    out := out + [LowByte(delta), LowByte(r.kind), LowByte(r.segId)] + Fields(r);
  }

  /** write_reloc_table. */
  method WriteRelocTable(rs: seq<Reloc>) returns (out: seq<byte>)
    ensures out == Encode(rs, -1)
    ensures Increasing(rs, -1) && (forall i :: 0 <= i < |rs| ==> WellFormed(rs[i])) ==> Decode(out, -1) == Got(rs, [])
  {
    hide EncodeOne, WellFormed, Decode, Increasing;
    out := [];
    var prev := -1;
    assert rs[0..] == rs;
    for i := 0 to |rs|
      invariant Encode(rs, -1) == out + Encode(rs[i..], prev)
    {
      EncodeStep(rs, i, prev);
      var record := WriteReloc(rs[i], prev);
      out := out + record;
      prev := rs[i].offset;
    }
    out := out + [0];
    assert Encode(rs[|rs|..], prev) == [0];
    if Increasing(rs, -1) && forall i :: 0 <= i < |rs| ==> WellFormed(rs[i]) {
      RoundTrip(rs, -1, []);
      assert out + [] == out;
    }
  }

  lemma EncodeStep(rs: seq<Reloc>, i: nat, prev: int)
    requires i < |rs|
    ensures Encode(rs[i..], prev) == EncodeOne(rs[i], prev) + Encode(rs[i + 1..], rs[i].offset)
  {
    hide EncodeOne;
    assert rs[i..][0] == rs[i] && rs[i..][1..] == rs[i + 1..];
  }
}
