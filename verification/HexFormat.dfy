/** Intel HEX records as text and as memory contents: the writer of assembler/ihex.c and a reader that follows the
    Intel Hexadecimal Object File Format Specification, Revision A, 1988. */
module HexFormat {
  import opened Support

  /** RECLEN is the length of `data`. */
  datatype Record = Record(offset: nat, kind: byte, data: seq<byte>)

  const DATA: byte := 0
  const END: byte := 1
  const EXTENDED: byte := 4

  /** A record the format can carry. */
  predicate Fits(r: Record) { r.offset < 0x10000 && |r.data| < 256 }

  function Pair(high: byte, low: byte): nat { high as int * 256 + low as int }

  // ---- text of one record

  function Digit(n: nat): (c: char)
    requires n < 16
  {
    "0123456789ABCDEF"[n]
  }

  function DigitValue(c: char): Option<nat> {
    if '0' <= c <= '9' then Some((c - '0') as int)
    else if 'A' <= c <= 'F' then Some((c - 'A') as int + 10)
    else None
  }

  /** `%02X`. */
  function Hex(b: byte): string { [Digit(b / 16), Digit(b % 16)] }

  function HexAll(bs: seq<byte>): string {
    if bs == [] then "" else Hex(bs[0]) + HexAll(bs[1..])
  }

  function Sum(bs: seq<byte>): int {
    if bs == [] then 0 else bs[0] as int + Sum(bs[1..])
  }

  /** Everything between the colon and the checksum. */
  function Body(r: Record): seq<byte>
    requires Fits(r)
  {
    [|r.data|, r.offset / 256, r.offset % 256, r.kind] + r.data
  }

  /** The checksum field, `(-sum) & 0xFF`. */
  function Checksum(body: seq<byte>): byte { (-Sum(body)) % 256 }

  /** ihex_emit_record. */
  function Line(r: Record): string
    requires Fits(r)
  {
    ":" + HexAll(Body(r)) + Hex(Checksum(Body(r))) + "\n"
  }

  function Text(rs: seq<Record>): string
    requires forall i :: 0 <= i < |rs| ==> Fits(rs[i])
  {
    if rs == [] then "" else Line(rs[0]) + Text(rs[1..])
  }

  // ---- reading text

  datatype Parsed<T> = Parsed(value: T, rest: string) | Malformed

  function ParseByte(s: string): Parsed<byte> {
    if |s| < 2 || DigitValue(s[0]).None? || DigitValue(s[1]).None? then Malformed
    else Parsed(DigitValue(s[0]).value * 16 + DigitValue(s[1]).value, s[2..])
  }

  function ParseBytes(n: nat, s: string): (r: Parsed<seq<byte>>)
    ensures r.Parsed? ==> |r.value| == n && |r.rest| == |s| - 2 * n
  {
    if n == 0 then Parsed([], s)
    else match ParseByte(s)
      case Malformed => Malformed
      case Parsed(b, t) => (match ParseBytes(n - 1, t) case Malformed => Malformed case Parsed(bs, u) => Parsed([b] + bs, u))
  }

  /** One record: mark, RECLEN, LOAD OFFSET, RECTYP, the data, and a CHKSUM that brings the sum to zero modulo 256. */
  function ParseLine(s: string): (r: Parsed<Record>)
    ensures r.Parsed? ==> |r.rest| < |s| && Fits(r.value)
  {
    if s == "" || s[0] != ':' then Malformed
    else match ParseBytes(4, s[1..])
      case Malformed => Malformed
      case Parsed(head, t) =>
        (match ParseBytes(head[0], t)
         case Malformed => Malformed
         case Parsed(data, u) =>
           (match ParseByte(u)
            case Malformed => Malformed
            case Parsed(check, v) =>
              if (Sum(head + data) + check) % 256 != 0 || v == "" || v[0] != '\n' then Malformed
              else Parsed(Record(Pair(head[1], head[2]), head[3], data), v[1..])))
  }

  function ParseText(s: string): Option<seq<Record>>
    decreases |s|
  {
    if s == "" then Some([])
    else match ParseLine(s)
      case Malformed => None
      case Parsed(r, t) => (match ParseText(t) case None => None case Some(rs) => Some([r] + rs))
  }

  // ---- the text reads back

  lemma DigitRead(n: nat)
    requires n < 16
    ensures DigitValue(Digit(n)) == Some(n)
  {
  }

  lemma HexRead(b: byte, t: string)
    ensures ParseByte(Hex(b) + t) == Parsed(b, t)
  {
    DigitRead(b / 16);
    DigitRead(b % 16);
    assert (Hex(b) + t)[2..] == t;
  }

  lemma {:induction false} HexAllRead(bs: seq<byte>, t: string)
    ensures ParseBytes(|bs|, HexAll(bs) + t) == Parsed(bs, t)
  {
    hide Hex, ParseByte;
    if bs == [] {
      assert HexAll(bs) + t == t;
    } else {
      HexRead(bs[0], HexAll(bs[1..]) + t);
      HexAllRead(bs[1..], t);
      assert HexAll(bs) + t == Hex(bs[0]) + (HexAll(bs[1..]) + t);
      assert [bs[0]] + bs[1..] == bs;
    }
  }

  lemma {:induction false} HexAllAppends(a: seq<byte>, b: seq<byte>)
    ensures HexAll(a + b) == HexAll(a) + HexAll(b)
  {
    hide Hex;
    if a == [] {
      assert a + b == b;
      assert HexAll(a) + HexAll(b) == HexAll(b);
    } else {
      HexAllAppends(a[1..], b);
      assert (a + b)[1..] == a[1..] + b && (a + b)[0] == a[0];
      assert Hex(a[0]) + (HexAll(a[1..]) + HexAll(b)) == Hex(a[0]) + HexAll(a[1..]) + HexAll(b);
    }
  }

  lemma ChecksumZero(body: seq<byte>)
    ensures (Sum(body) + Checksum(body)) % 256 == 0
  {
  }

  lemma HeadParts(r: Record)
    requires Fits(r)
    ensures var h: seq<byte> := [|r.data|, r.offset / 256, r.offset % 256, r.kind];
            Body(r) == h + r.data && HexAll(Body(r)) == HexAll(h) + HexAll(r.data) && |h| == 4 && h[0] == |r.data| &&
            Pair(h[1], h[2]) == r.offset && h[3] == r.kind
  {
    hide HexAll;
    HexAllAppends([|r.data|, r.offset / 256, r.offset % 256, r.kind], r.data);
  }

  /** A record reads back, and its bytes with the checksum sum to zero modulo 256. */
  lemma LineRead(r: Record, t: string)
    requires Fits(r)
    ensures ParseLine(Line(r) + t) == Parsed(r, t)
  {
    hide HexAll, Hex, ParseByte, ParseBytes, Sum, Checksum, Body;
    var h: seq<byte> := [|r.data|, r.offset / 256, r.offset % 256, r.kind];
    HeadParts(r);
    ChecksumZero(Body(r));
    var u := Hex(Checksum(Body(r))) + ("\n" + t);
    HexRead(Checksum(Body(r)), "\n" + t);
    HexAllRead(r.data, u);
    HexAllRead(h, HexAll(r.data) + u);
    assert (Line(r) + t)[1..] == HexAll(h) + (HexAll(r.data) + u);
    assert ("\n" + t)[1..] == t;
  }

  lemma {:induction false} TextRead(rs: seq<Record>)
    requires forall i :: 0 <= i < |rs| ==> Fits(rs[i])
    ensures ParseText(Text(rs)) == Some(rs)
  {
    hide Line, ParseLine;
    if rs != [] {
      LineRead(rs[0], Text(rs[1..]));
      TextRead(rs[1..]);
      LineStarts(rs[0]);
      assert [rs[0]] + rs[1..] == rs;
    }
  }

  lemma LineStarts(r: Record)
    requires Fits(r)
    ensures Line(r) != ""
  {
  }

  // ---- records as memory contents

  /** Data bytes loaded from `a` upward. */
  function Put(mem: map<int, byte>, a: int, bs: seq<byte>): map<int, byte>
    decreases |bs|
  {
    if bs == [] then mem else Put(mem[a := bs[0]], a + 1, bs[1..])
  }

  /** Loading with the upper linear base address in effect; the End of File Record must come last. */
  function Load(rs: seq<Record>, base: int, mem: map<int, byte>): Option<map<int, byte>>
    decreases |rs|
  {
    if rs == [] then None
    else
      var r := rs[0];
      if r.kind == END then (if |rs| == 1 && r.data == [] then Some(mem) else None)
      else if r.kind == DATA then
        if r.offset + |r.data| > 0x10000 then None else Load(rs[1..], base, Put(mem, base + r.offset, r.data))
      else if r.kind == EXTENDED && |r.data| == 2 then Load(rs[1..], Pair(r.data[0], r.data[1]) * 0x10000, mem)
      else None
  }
}
