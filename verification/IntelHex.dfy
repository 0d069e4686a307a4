/** The assembler's flat output image and its Intel HEX dump (assembler/ihex.c). */
module IntelHex {
  import opened Support
  import opened Emission
  import opened HexFormat

  const RECORD_BYTES := 16

  /** Addresses `a`, `a + 1`, ... that are used, in the 64 KiB block of `a`, at most `room` of them. */
  function RunLength(img: map<int, byte>, a: int, max: int, upper: int, room: nat): (n: nat)
    ensures n <= room && forall k :: a <= k < a + n ==> k in img && k <= max && k / 0x10000 == upper
    decreases room
  {
    if room == 0 || a > max || a !in img || a / 0x10000 != upper then 0
    else 1 + RunLength(img, a + 1, max, upper, room - 1)
  }

  function Slice(img: map<int, byte>, a: int, n: nat): seq<byte>
    requires forall k :: a <= k < a + n ==> k in img
    decreases n
  {
    if n == 0 then [] else [img[a]] + Slice(img, a + 1, n - 1)
  }

  function UpperRecord(upper: int): Record { Record(0, EXTENDED, [(upper / 256) % 256, upper % 256]) }

  const EndRecord := Record(0, END, [])

  /** The records ihex_dump writes from `addr` on, with upper address `upper` in effect. */
  function Records(img: map<int, byte>, addr: int, max: int, upper: int): seq<Record>
    requires 0 <= addr
    decreases max + 1 - addr
  {
    if addr > max then [EndRecord]
    else if addr !in img then Records(img, addr + 1, max, upper)
    else
      var up := addr / 0x10000;
      var n := RunLength(img, addr, max, up, RECORD_BYTES);
      (if up != upper then [UpperRecord(up)] else []) +
      [Record(addr % 0x10000, DATA, Slice(img, addr, n))] + Records(img, addr + n, max, up)
  }

  // ---- shape of the records

  lemma {:induction false} SliceLength(img: map<int, byte>, a: int, n: nat)
    requires forall k :: a <= k < a + n ==> k in img
    ensures |Slice(img, a, n)| == n
    decreases n
  {
    if n > 0 { SliceLength(img, a + 1, n - 1); }
  }

  lemma RunNotEmpty(img: map<int, byte>, a: int, max: int)
    requires a in img && a <= max
    ensures 1 <= RunLength(img, a, max, a / 0x10000, RECORD_BYTES) <= RECORD_BYTES
    ensures a % 0x10000 + RunLength(img, a, max, a / 0x10000, RECORD_BYTES) <= 0x10000
  {
    var n := RunLength(img, a, max, a / 0x10000, RECORD_BYTES);
    if n >= 1 {
      var last := a + n - 1;
      assert last / 0x10000 == a / 0x10000;
    }
  }

  /** A record as the dump makes them: at most 16 data bytes that stay in their 64 KiB block, and never an empty one. */
  /** Three lines as the format writes them: the end, an upper address of 0x12, and two bytes at 0x100. */
  lemma LinesExact()
    ensures Line(EndRecord) == ":00000001FF\n"
    ensures Line(UpperRecord(0x12)) == ":020000040012E8\n"
    ensures Line(Record(0x100, DATA, [0x21, 0x46])) == ":02010000214696\n"
  {
    hide Line, Hex, HexAll, Sum, Checksum;
    HexDigits();
    NoBytes();
    SumTwo(0, 0x12);
    SumTwo(0x21, 0x46);
    LineParts(EndRecord, 0, 0, 0, 1, [], 0xFF);
    LineParts(UpperRecord(0x12), 2, 0, 0, 4, [0, 0x12], 0xE8);
    LineParts(Record(0x100, DATA, [0x21, 0x46]), 2, 1, 0, 0, [0x21, 0x46], 0x96);
  }

  lemma NoBytes()
    ensures HexAll([]) == "" && Sum([]) == 0
  {
  }

  lemma HexDigits()
    ensures Hex(0) == "00" && Hex(1) == "01" && Hex(2) == "02" && Hex(4) == "04" && Hex(0x12) == "12"
    ensures Hex(0xFF) == "FF" && Hex(0xE8) == "E8" && Hex(0x21) == "21" && Hex(0x46) == "46" && Hex(0x96) == "96"
  {
  }

  /** A line is its bytes and the byte that makes them sum to zero. */
  lemma LineParts(r: Record, x: byte, y: byte, z: byte, w: byte, rest: seq<byte>, check: byte)
    requires Fits(r) && Body(r) == [x, y, z, w] + rest
    requires (x as int + y as int + z as int + w as int + Sum(rest) + check as int) % 256 == 0
    ensures Line(r) == ":" + (Hex(x) + Hex(y) + Hex(z) + Hex(w) + HexAll(rest)) + Hex(check) + "\n"
  {
    hide Hex, HexAll, Sum, Body, Line;
    SumFour(x, y, z, w, rest);
    CheckIs(Body(r), check);
    LineIs(r);
  }

  lemma CheckIs(body: seq<byte>, check: byte)
    requires (Sum(body) + check as int) % 256 == 0
    ensures Checksum(body) == check
  {
    hide Sum;
  }

  lemma LineIs(r: Record)
    requires Fits(r)
    ensures Line(r) == ":" + HexAll(Body(r)) + Hex(Checksum(Body(r))) + "\n"
  {
    hide HexAll, Hex, Checksum, Body;
  }

  lemma SumFour(x: byte, y: byte, z: byte, w: byte, rest: seq<byte>)
    ensures Sum([x, y, z, w] + rest) == x as int + y as int + z as int + w as int + Sum(rest)
    ensures HexAll([x, y, z, w] + rest) == Hex(x) + Hex(y) + Hex(z) + Hex(w) + HexAll(rest)
  {
    hide Hex;
    FirstByte(w, rest);
    FirstByte(z, [w] + rest);
    FirstByte(y, [z, w] + rest);
    FirstByte(x, [y, z, w] + rest);
    assert [z] + ([w] + rest) == [z, w] + rest && [y] + ([z, w] + rest) == [y, z, w] + rest;
    assert [x] + ([y, z, w] + rest) == [x, y, z, w] + rest;
  }

  lemma FirstByte(x: byte, rest: seq<byte>)
    ensures Sum([x] + rest) == x as int + Sum(rest) && HexAll([x] + rest) == Hex(x) + HexAll(rest)
  {
    hide Hex;
    assert ([x] + rest)[1..] == rest;
  }

  lemma SumTwo(x: byte, y: byte)
    ensures Sum([x, y]) == x as int + y as int && HexAll([x, y]) == Hex(x) + Hex(y)
  {
    hide Hex, Sum, HexAll;
    NoBytes();
    FirstByte(y, []);
    FirstByte(x, [y]);
    assert [y] + [] == [y] && [x] + [y] == [x, y];
  }

  predicate WellMade(r: Record) {
    Fits(r) && (r.kind == DATA || r.kind == EXTENDED || r.kind == END) &&
    (r.kind == DATA ==> 1 <= |r.data| <= RECORD_BYTES && r.offset + |r.data| <= 0x10000)
  }

  lemma {:induction false} RecordsWellMade(img: map<int, byte>, addr: int, max: int, upper: int)
    requires 0 <= addr
    ensures forall i :: 0 <= i < |Records(img, addr, max, upper)| ==> WellMade(Records(img, addr, max, upper)[i])
    decreases max + 1 - addr
  {
    if addr > max {
    } else if addr !in img {
      RecordsWellMade(img, addr + 1, max, upper);
    } else {
      var up := addr / 0x10000;
      var n := RunLength(img, addr, max, up, RECORD_BYTES);
      RunNotEmpty(img, addr, max);
      SliceLength(img, addr, n);
      RecordsWellMade(img, addr + n, max, up);
    }
  }

  // ---- loading the records gives the image

  function From(img: map<int, byte>, a: int): map<int, byte> { map k | k in img && a <= k :: img[k] }

  lemma {:induction false} PutSlice(mem: map<int, byte>, img: map<int, byte>, a: int, n: nat)
    requires forall k :: a <= k < a + n ==> k in img
    ensures Put(mem, a, Slice(img, a, n)) + From(img, a + n) == mem + From(img, a)
    decreases n
  {
    hide From;
    if n > 0 {
      PutSlice(mem[a := img[a]], img, a + 1, n - 1);
      assert Slice(img, a, n)[1..] == Slice(img, a + 1, n - 1);
      FromStep(mem, img, a);
    } else {
      assert Slice(img, a, 0) == [];
    }
  }

  lemma FromStep(mem: map<int, byte>, img: map<int, byte>, a: int)
    requires a in img
    ensures mem[a := img[a]] + From(img, a + 1) == mem + From(img, a)
  {
  }

  lemma LoadUpper(up: int, rest: seq<Record>, base: int, mem: map<int, byte>)
    requires 0 <= up < 0x10000
    ensures Load([UpperRecord(up)] + rest, base, mem) == Load(rest, up * 0x10000, mem)
  {
    assert ([UpperRecord(up)] + rest)[1..] == rest;
    assert Pair((up / 256) % 256, up % 256) == up;
  }

  lemma LoadData(offset: nat, bs: seq<byte>, rest: seq<Record>, base: int, mem: map<int, byte>)
    requires offset + |bs| <= 0x10000
    ensures Load([Record(offset, DATA, bs)] + rest, base, mem) == Load(rest, base, Put(mem, base + offset, bs))
  {
    assert ([Record(offset, DATA, bs)] + rest)[1..] == rest;
  }

  lemma {:induction false} LoadRecords(img: map<int, byte>, addr: int, max: int, upper: int, mem: map<int, byte>)
    requires 0 <= addr && max < 0x100000000 && forall k :: k in img ==> k <= max
    ensures Load(Records(img, addr, max, upper), upper * 0x10000, mem) == Some(mem + From(img, addr))
    decreases max + 1 - addr
  {
    if addr > max {
      assert From(img, addr) == map[];
      assert mem + map[] == mem;
    } else if addr !in img {
      LoadRecords(img, addr + 1, max, upper, mem);
      assert From(img, addr) == From(img, addr + 1);
    } else {
      LoadRun(img, addr, max, upper, mem);
    }
  }

  lemma {:induction false} LoadRun(img: map<int, byte>, addr: int, max: int, upper: int, mem: map<int, byte>)
    requires 0 <= addr <= max < 0x100000000 && addr in img && forall k :: k in img ==> k <= max
    ensures Load(Records(img, addr, max, upper), upper * 0x10000, mem) == Some(mem + From(img, addr))
    decreases max + 1 - addr, 0
  {
    hide Load, Put, Slice, Records, RunLength, From;
    var up := addr / 0x10000;
    var n := RunLength(img, addr, max, up, RECORD_BYTES);
    RunNotEmpty(img, addr, max);
    RunUsed(img, addr, max, up, RECORD_BYTES);
    SliceLength(img, addr, n);
    var bs := Slice(img, addr, n);
    LoadRecords(img, addr + n, max, up, Put(mem, addr, bs));
    PutSlice(mem, img, addr, n);
    LoadTurn(img, addr, max, upper, mem, bs);
  }

  lemma RunUsed(img: map<int, byte>, a: int, max: int, upper: int, room: nat)
    ensures forall k :: a <= k < a + RunLength(img, a, max, upper, room) ==> k in img
  {
  }

  /** Loading one turn of the dump stores its run at its address. */
  lemma LoadTurn(img: map<int, byte>, addr: int, max: int, upper: int, mem: map<int, byte>, bs: seq<byte>)
    requires 0 <= addr <= max < 0x100000000 && addr in img
    requires var n := RunLength(img, addr, max, addr / 0x10000, RECORD_BYTES);
             bs == Slice(img, addr, n) && addr % 0x10000 + |bs| <= 0x10000 && n >= 1
    ensures var n := RunLength(img, addr, max, addr / 0x10000, RECORD_BYTES); var up := addr / 0x10000;
            Load(Records(img, addr, max, upper), upper * 0x10000, mem) == Load(Records(img, addr + n, max, up), up * 0x10000, Put(mem, addr, bs))
  {
    hide Load, Put, Slice, RunLength;
    var up := addr / 0x10000;
    var rest := Records(img, addr + RunLength(img, addr, max, up, RECORD_BYTES), max, up);
    assert up * 0x10000 + addr % 0x10000 == addr;
    LoadData(addr % 0x10000, bs, rest, up * 0x10000, mem);
    var data := [Record(addr % 0x10000, DATA, bs)] + rest;
    if up != upper {
      LoadUpper(up, data, upper * 0x10000, mem);
      assert Records(img, addr, max, upper) == [UpperRecord(up)] + data;
    } else {
      assert Records(img, addr, max, upper) == data;
    }
  }

  // ---- the dump as text

  function DumpFrom(img: map<int, byte>, addr: int, max: int, upper: int): string
    requires 0 <= addr
  {
    RecordsWellMade(img, addr, max, upper);
    Text(Records(img, addr, max, upper))
  }

  /** ihex_dump of an image with extreme used addresses `min` and `max`. */
  function DumpText(img: map<int, byte>, min: int, max: int): string
    requires 0 <= min
  {
    if img == map[] then Line(EndRecord) else DumpFrom(img, min, max, 0)
  }

  /** Reading a dump back gives exactly the used addresses and their bytes. */
  lemma DumpReadsBack(img: map<int, byte>, min: int, max: int)
    requires 0 <= min && max < 0x100000000 && forall k :: k in img ==> min <= k <= max
    ensures var rs := ParseText(DumpText(img, min, max)); rs.Some? && Load(rs.value, 0, map[]) == Some(img)
  {
    hide ParseText, Load, Text, Line;
    if img == map[] {
      EmptyDump();
    } else {
      var rs := Records(img, min, max, 0);
      RecordsWellMade(img, min, max, 0);
      TextRead(rs);
      LoadRecords(img, min, max, 0, map[]);
      assert map[] + From(img, min) == img;
    }
  }

  lemma EmptyDump()
    ensures ParseText(Line(EndRecord)) == Some([EndRecord]) && Load([EndRecord], 0, map[]) == Some(map[])
  {
    TextRead([EndRecord]);
    hide Line, ParseText;
    assert Text([EndRecord]) == Line(EndRecord) + "";
    assert Line(EndRecord) + "" == Line(EndRecord);
  }

  // ---- the image

  class ImageBuffer {
    const data: array<byte>
    const used: array<bool>
    var hasData: bool
    var minAddr: nat
    var maxAddr: nat

    /** The used addresses and their bytes. */
    ghost function Contents(): map<int, byte>
      reads data, used
      requires data.Length == IMAGE_LIMIT && used.Length == IMAGE_LIMIT
    {
      map a | 0 <= a < IMAGE_LIMIT && used[a] :: data[a]
    }

    /** Besides the shape: the recorded extremes are the extreme used addresses. */
    ghost predicate Valid()
      reads this, data, used
    {
      data.Length == IMAGE_LIMIT && used.Length == IMAGE_LIMIT &&
      (hasData <==> Contents() != map[]) &&
      (hasData ==> minAddr in Contents() && maxAddr in Contents() && forall a :: a in Contents() ==> minAddr <= a <= maxAddr)
    }

    constructor ()
      ensures Valid() && Contents() == map[] && fresh(data) && fresh(used)
    {
      data := new byte[IMAGE_LIMIT](_ => 0);
      used := new bool[IMAGE_LIMIT](_ => false);
      hasData, minAddr, maxAddr := false, 0, 0;
    }

    /** ihex_write_byte. */
    method WriteByte(addr: int, value: byte) returns (ok: bool)
      requires Valid()
      modifies this`hasData, this`minAddr, this`maxAddr, data, used
      ensures Valid()
      ensures ok == InImage(addr) && Contents() == if ok then old(Contents())[addr := value] else old(Contents())
    {
      if !(0 <= addr < IMAGE_LIMIT) { return false; }
      ghost var before := Contents();
      data[addr] := value;
      used[addr] := true;
      ghost var after := Contents();
      assert after == before[addr := value] && addr in after;
      if !hasData {
        hasData := true;
        minAddr := addr;
        maxAddr := addr;
      } else {
        if addr < minAddr { minAddr := addr; }
        if addr > maxAddr { maxAddr := addr; }
      }
      assert Contents() == after;
      ok := true;
    }

    /** ihex_write_word: the high byte is lost when its address is outside. */
    method WriteWord(addr: int, value: int) returns (ok: bool)
      requires Valid()
      modifies this`hasData, this`minAddr, this`maxAddr, data, used
      ensures Valid()
      ensures var w := Write(old(Contents()), addr, [LowByte(value), HighByte(value)]);
              Contents() == w.0 && ok == w.1
    {
      WriteTwo(Contents(), addr, LowByte(value), HighByte(value));
      ok := WriteByte(addr, LowByte(value));
      if ok { ok := WriteByte(addr + 1, HighByte(value)); }
    }

    /** The inner loop of ihex_dump: the bytes of one record, and the address behind them. */
    method GatherRun(start: nat, up: nat) returns (bytes: seq<byte>, addr: nat)
      requires Valid() && start in Contents() && start <= maxAddr
      ensures addr == start + RunLength(Contents(), start, maxAddr, up, RECORD_BYTES)
      ensures bytes == Slice(Contents(), start, addr - start)
    {
      hide RunLength, Slice;
      ghost var img := Contents();
      ghost var n := RunLength(img, start, maxAddr, up, RECORD_BYTES);
      WellFormed();
      RunUsed(img, start, maxAddr, up, RECORD_BYTES);
      SliceEmpty(img, start);
      bytes, addr := [], start;
      while addr <= maxAddr && used[addr] && addr / 0x10000 == up && |bytes| < RECORD_BYTES
        invariant start <= addr && |bytes| == addr - start && |bytes| <= RECORD_BYTES && |bytes| <= n
        invariant n == |bytes| + RunLength(img, addr, maxAddr, up, RECORD_BYTES - |bytes|)
        invariant bytes == Slice(img, start, |bytes|)
        decreases maxAddr + 1 - addr
      {
        RunStep(img, addr, maxAddr, up, RECORD_BYTES - |bytes|);
        SliceAppend(img, start, |bytes|);
        bytes := bytes + [data[addr]];
        addr := addr + 1;
      }
      RunStep(img, addr, maxAddr, up, RECORD_BYTES - |bytes|);
    }

    /** ihex_dump. */
    method Dump() returns (text: string)
      requires Valid()
      ensures hasData ==> text == DumpText(Contents(), minAddr, maxAddr)
      ensures var rs := ParseText(text); rs.Some? && Load(rs.value, 0, map[]) == Some(Contents())
    {
      hide Text, Line, ParseText, Load, Records, RunLength, Slice, DumpFrom, DumpText, Contents, Valid, Put;
      WellFormed();
      ghost var img := Contents();
      if !hasData {
        EmptyDump();
        return Line(EndRecord);
      }
      DumpReadsBack(img, minAddr, maxAddr);
      DumpStarts(img, minAddr, maxAddr);
      text := "";
      var addr, upper := minAddr, 0;
      while addr <= maxAddr
        invariant minAddr <= addr
        invariant DumpText(img, minAddr, maxAddr) == text + DumpFrom(img, addr, maxAddr, upper)
        decreases maxAddr + 1 - addr
      {
        ghost var at := addr;
        while addr <= maxAddr && !used[addr]
          invariant minAddr <= addr <= maxAddr + 1 && at <= addr
          invariant DumpText(img, minAddr, maxAddr) == text + DumpFrom(img, addr, maxAddr, upper)
        {
          SkipUnused(img, addr, maxAddr, upper);
          addr := addr + 1;
        }
        if addr > maxAddr { break; }
        var start, up := addr, addr / 0x10000;
        ghost var n := RunLength(img, start, maxAddr, up, RECORD_BYTES);
        RunNotEmpty(img, start, maxAddr);
        DumpStep(img, start, maxAddr, upper);
        if up != upper {
          text := text + Line(UpperRecord(up));
          upper := up;
        }
        var bytes: seq<byte>;
        bytes, addr := GatherRun(start, up);
        text := text + Line(Record(start % 0x10000, DATA, bytes));
      }
      LastLine(img, addr, maxAddr, upper);
      text := text + Line(EndRecord);
    }

    /** The parts of validity the dump relies on. */
    lemma WellFormed()
      requires Valid()
      ensures data.Length == IMAGE_LIMIT && used.Length == IMAGE_LIMIT && IMAGE_LIMIT == 0x80000
      ensures forall a :: 0 <= a < IMAGE_LIMIT ==>
                (used[a] <==> a in Contents()) && (used[a] ==> Contents()[a] == data[a])
      ensures forall a :: a in Contents() ==> minAddr <= a <= maxAddr < IMAGE_LIMIT
      ensures hasData <==> Contents() != map[]
      ensures hasData ==> minAddr <= maxAddr < IMAGE_LIMIT
    {
    }
  }

  lemma WriteTwo(img: map<int, byte>, a: int, x: byte, y: byte)
    ensures Write(img, a, [x, y]) ==
              if !InImage(a) then (img, false)
              else if !InImage(a + 1) then (img[a := x], false) else (img[a := x][a + 1 := y], true)
  {
    assert [x, y][1..] == [y] && [y][1..] == [];
    assert Write(img[a := x], a + 1, [y]) == if !InImage(a + 1) then (img[a := x], false) else (img[a := x][a + 1 := y], true);
  }

  lemma DumpStarts(img: map<int, byte>, min: int, max: int)
    requires 0 <= min && img != map[]
    ensures DumpText(img, min, max) == DumpFrom(img, min, max, 0)
  {
    hide Text, Line;
  }

  lemma SliceEmpty(img: map<int, byte>, a: int)
    ensures Slice(img, a, 0) == []
  {
  }

  lemma RunStep(img: map<int, byte>, a: int, max: int, upper: int, room: nat)
    ensures room > 0 && a <= max && a in img && a / 0x10000 == upper ==>
              RunLength(img, a, max, upper, room) == 1 + RunLength(img, a + 1, max, upper, room - 1)
    ensures !(room > 0 && a <= max && a in img && a / 0x10000 == upper) ==> RunLength(img, a, max, upper, room) == 0
  {
  }

  lemma {:induction false} SliceAppend(img: map<int, byte>, a: int, n: nat)
    requires forall k :: a <= k < a + n + 1 ==> k in img
    ensures Slice(img, a, n + 1) == Slice(img, a, n) + [img[a + n]]
    decreases n
  {
    if n > 0 { SliceAppend(img, a + 1, n - 1); } else { assert Slice(img, a, 0) == [] && Slice(img, a + 1, 0) == []; }
  }

  lemma SkipUnused(img: map<int, byte>, addr: int, max: int, upper: int)
    requires 0 <= addr <= max && addr !in img
    ensures DumpFrom(img, addr, max, upper) == DumpFrom(img, addr + 1, max, upper)
  {
    hide Text;
  }

  lemma LastLine(img: map<int, byte>, addr: int, max: int, upper: int)
    requires 0 <= addr && addr > max
    ensures DumpFrom(img, addr, max, upper) == Line(EndRecord)
  {
    hide Line;
    assert Text([EndRecord]) == Line(EndRecord) + "";
  }

  /** What one turn of the dump adds. */
  lemma DumpStep(img: map<int, byte>, addr: int, max: int, upper: int)
    requires 0 <= addr <= max && addr in img
    ensures var up := addr / 0x10000; var n := RunLength(img, addr, max, up, RECORD_BYTES);
            |Slice(img, addr, n)| < 256 &&
            DumpFrom(img, addr, max, upper) ==
              (if up != upper then Line(UpperRecord(up)) else "") + (Line(Record(addr % 0x10000, DATA, Slice(img, addr, n))) + DumpFrom(img, addr + n, max, up))
  {
    hide Line, Slice, RunLength;
    var up := addr / 0x10000;
    var n := RunLength(img, addr, max, up, RECORD_BYTES);
    RunNotEmpty(img, addr, max);
    RunUsed(img, addr, max, up, RECORD_BYTES);
    SliceLength(img, addr, n);
    var rest := Records(img, addr + n, max, up);
    RecordsWellMade(img, addr + n, max, up);
    var r := Record(addr % 0x10000, DATA, Slice(img, addr, n));
    TextCons(r, rest);
    if up != upper {
      assert Records(img, addr, max, upper) == [UpperRecord(up)] + ([r] + rest);
      TextCons(UpperRecord(up), [r] + rest);
    } else {
      assert Records(img, addr, max, upper) == [r] + rest;
    }
  }

  lemma TextCons(r: Record, rs: seq<Record>)
    requires Fits(r) && forall i :: 0 <= i < |rs| ==> Fits(rs[i])
    ensures forall i :: 0 <= i < |[r] + rs| ==> Fits(([r] + rs)[i])
    ensures Text([r] + rs) == Line(r) + Text(rs)
  {
    hide Line;
    assert ([r] + rs)[1..] == rs;
  }
}
