/** The `.l26` archive format: reading, writing, appending and replacing members (archiver/vcsc_ar.c). */
module Archive {
  import opened Support

  /** Names are byte strings, as on the command line and in the file. */
  datatype Member = Member(name: seq<byte>, data: seq<byte>)

  /** A file named on the command line; no content: it cannot be read. */
  datatype Input = Input(path: seq<byte>, content: Option<seq<byte>>)

  const MAGIC: seq<byte> := [86, 67, 83, 76, 50, 54, 1]
  const NAME_LIMIT := 0x10000
  const SIZE_LIMIT := 0x100000000
  const COPY_BUFFER_SIZE: nat := 65536

  // ---- little-endian fields

  function Field16(n: int): seq<byte> { [n % 256, (n / 0x100) % 256] }

  function Field32(n: int): seq<byte> { [n % 256, (n / 0x100) % 256, (n / 0x10000) % 256, (n / 0x1000000) % 256] }

  function Value16(s: seq<byte>): (n: nat)
    requires |s| == 2
    ensures n < NAME_LIMIT
  {
    s[0] as int + 0x100 * s[1] as int
  }

  function Value32(s: seq<byte>): (n: nat)
    requires |s| == 4
    ensures n < SIZE_LIMIT
  {
    s[0] as int + 0x100 * s[1] as int + 0x10000 * s[2] as int + 0x1000000 * s[3] as int
  }

  lemma FieldsRead(n: nat)
    ensures n < NAME_LIMIT ==> Value16(Field16(n)) == n
    ensures n < SIZE_LIMIT ==> Value32(Field32(n)) == n
  {
    var a, b, c := n / 0x100, n / 0x10000, n / 0x1000000;
    assert b == a / 0x100 && c == b / 0x100;
    assert n == 0x100 * a + n % 256 && a == 0x100 * b + a % 256 && b == 0x100 * c + b % 256;
  }

  // ---- writing

  function MemberBytes(m: Member): seq<byte> {
    Field16(|m.name|) + Field32(|m.data|) + m.name + m.data
  }

  function MembersBytes(ms: seq<Member>): seq<byte> {
    if ms == [] then [] else MemberBytes(ms[0]) + MembersBytes(ms[1..])
  }

  function Format(ms: seq<Member>): seq<byte> { MAGIC + MembersBytes(ms) }

  // ---- reading

  /** The C string a buffer holds: everything in front of the first NUL. */
  function CString(raw: seq<byte>): (s: seq<byte>)
    ensures |s| <= |raw| && 0 !in s
    ensures 0 !in raw ==> s == raw
  {
    if raw == [] || raw[0] == 0 then [] else [raw[0]] + CString(raw[1..])
  }

  datatype Header = AtEnd | Bad | Head(name: seq<byte>, size: nat, rest: seq<byte>)

  /** read_member_header. */
  function ReadHeader(s: seq<byte>): (h: Header)
    ensures h.Head? ==> |h.rest| < |s| && h.size < SIZE_LIMIT
  {
    if s == [] then AtEnd
    else if |s| < 6 then Bad
    else
      var n := Value16(s[..2]);
      if n == 0 || |s| < 6 + n then Bad
      else Head(CString(s[6..6 + n]), Value32(s[2..6]), s[6 + n..])
  }

  function ParseMembers(s: seq<byte>): Option<seq<Member>>
    decreases |s|
  {
    match ReadHeader(s)
    case AtEnd => Some([])
    case Bad => None
    case Head(name, size, rest) =>
      if |rest| < size then None
      else match ParseMembers(rest[size..])
        case None => None
        case Some(ms) => Some([Member(name, rest[..size])] + ms)
  }

  function Parse(file: seq<byte>): Option<seq<Member>> {
    if |file| < |MAGIC| || file[..|MAGIC|] != MAGIC then None else ParseMembers(file[|MAGIC|..])
  }

  // ---- round trip

  predicate Legal(m: Member) {
    m.name != [] && 0 !in m.name && |m.name| < NAME_LIMIT && |m.data| < SIZE_LIMIT
  }

  predicate AllLegal(ms: seq<Member>) { forall i :: 0 <= i < |ms| ==> Legal(ms[i]) }

  lemma HeaderRead(m: Member, t: seq<byte>)
    requires Legal(m)
    ensures ReadHeader(MemberBytes(m) + t) == Head(m.name, |m.data|, m.data + t)
  {
    var s := MemberBytes(m) + t;
    var n := |m.name|;
    FieldsRead(n);
    FieldsRead(|m.data|);
    hide Value16, Value32, CString;
    assert s[..2] == Field16(n) && s[2..6] == Field32(|m.data|) && s[6..6 + n] == m.name && s[6 + n..] == m.data + t;
  }

  lemma {:induction false} MembersRead(ms: seq<Member>)
    requires AllLegal(ms)
    ensures ParseMembers(MembersBytes(ms)) == Some(ms)
  {
    hide ReadHeader, MemberBytes;
    if ms == [] {
      assert ReadHeader([]) == AtEnd by { NothingRead(); }
    } else {
      var m, t := ms[0], MembersBytes(ms[1..]);
      HeaderRead(m, t);
      MembersRead(ms[1..]);
      assert (m.data + t)[|m.data|..] == t && (m.data + t)[..|m.data|] == m.data;
      assert ms == [m] + ms[1..];
    }
  }

  lemma NothingRead()
    ensures ReadHeader([]) == AtEnd
  {
  }

  /** What the reader accepts: NUL-free names below 64 KiB and sizes below 2^32; a stored name that starts with NUL
      reads as the empty string. */
  predicate Readable(m: Member) { 0 !in m.name && |m.name| < NAME_LIMIT && |m.data| < SIZE_LIMIT }

  predicate AllReadable(ms: seq<Member>) { forall i :: 0 <= i < |ms| ==> Readable(ms[i]) }

  lemma {:induction false} ParsedReadable(s: seq<byte>)
    ensures ParseMembers(s).Some? ==> AllReadable(ParseMembers(s).value)
    decreases |s|
  {
    var h := ReadHeader(s);
    HeaderShape(s);
    hide ReadHeader;
    if h.Head? && |h.rest| >= h.size { ParsedReadable(h.rest[h.size..]); }
  }

  lemma HeaderShape(s: seq<byte>)
    ensures ReadHeader(s).Head? ==> 0 !in ReadHeader(s).name && |ReadHeader(s).name| < NAME_LIMIT
  {
  }

  /** A record that reads back as itself is legal, and reading goes on behind it. */
  lemma SelfReadLegal(m: Member, t: seq<byte>)
    requires var h := ReadHeader(MemberBytes(m) + t);
             h.Head? && h.name == m.name && h.size <= |h.rest| && h.rest[..h.size] == m.data
    ensures Legal(m) && ReadHeader(MemberBytes(m) + t).rest[|m.data|..] == t
  {
    hide Value16, Value32, CString, MemberBytes, Field16, Field32;
    var s := MemberBytes(m) + t;
    LengthField(|m.name|);
    RecordParts(m, t);
    var n := |m.name| % NAME_LIMIT;
    var raw := s[6..6 + n];
    CStringFull(raw);
    assert raw == (m.name + (m.data + t))[..n];
    assert m.name == raw;
    assert s[6 + n..] == s[6..][n..] == m.data + t;
  }

  lemma RecordParts(m: Member, t: seq<byte>)
    ensures var s := MemberBytes(m) + t;
            |s| >= 6 && s[..2] == Field16(|m.name|) && s[2..6] == Field32(|m.data|) && s[6..] == m.name + (m.data + t)
  {
    hide Value16, Value32;
  }

  /** The length field holds the length modulo 64 KiB. */
  lemma LengthField(n: nat)
    ensures Value16(Field16(n)) == n % NAME_LIMIT
  {
    assert (n / 0x100) % 256 == (n % NAME_LIMIT) / 0x100 && n % 256 == (n % NAME_LIMIT) % 256;
    FieldsRead(n % NAME_LIMIT);
  }

  lemma {:induction false} CStringFull(raw: seq<byte>)
    requires |CString(raw)| == |raw|
    ensures 0 !in raw && CString(raw) == raw
  {
    if raw != [] { CStringFull(raw[1..]); }
  }

  lemma {:induction false} SelfReadAllLegal(ms: seq<Member>)
    requires ParseMembers(MembersBytes(ms)) == Some(ms)
    ensures AllLegal(ms)
  {
    if ms != [] {
      hide ReadHeader, MemberBytes, Legal;
      var t := MembersBytes(ms[1..]);
      var h := ReadHeader(MemberBytes(ms[0]) + t);
      assert h.Head? && h.size <= |h.rest| && ParseMembers(h.rest[h.size..]).Some?;
      assert ms == [Member(h.name, h.rest[..h.size])] + ParseMembers(h.rest[h.size..]).value;
      SelfReadLegal(ms[0], t);
      SelfReadAllLegal(ms[1..]);
    }
  }

  /** Writing and reading back returns the members exactly when every name is nonempty, NUL-free and at most 65535 bytes
      long and every size is below 2^32. */
  lemma RoundTripExact(ms: seq<Member>)
    ensures Parse(Format(ms)) == Some(ms) <==> AllLegal(ms)
  {
    hide MembersBytes, ParseMembers;
    assert Format(ms)[..|MAGIC|] == MAGIC && Format(ms)[|MAGIC|..] == MembersBytes(ms);
    if AllLegal(ms) {
      MembersRead(ms);
    } else if Parse(Format(ms)) == Some(ms) {
      SelfReadAllLegal(ms);
    }
  }

  // ---- updating

  const SLASH: byte := 47
  const BACKSLASH: byte := 92

  predicate Separator(b: byte) { b == SLASH || b == BACKSLASH }

  /** base_name. */
  function BaseName(path: seq<byte>): seq<byte> {
    if path == [] || Separator(path[|path| - 1]) then []
    else BaseName(path[..|path| - 1]) + [path[|path| - 1]]
  }

  /** The base name is what follows the last separator. */
  lemma {:induction false} BaseNameExact(path: seq<byte>)
    ensures var k := |path| - |BaseName(path)|;
            0 <= k && BaseName(path) == path[k..] && (k > 0 ==> path[k - 1] in {47, 92}) &&
            forall i :: k <= i < |path| ==> path[i] !in {47, 92}
  {
    if path != [] && !Separator(path[|path| - 1]) {
      var front := path[..|path| - 1];
      BaseNameExact(front);
      var k := |front| - |BaseName(front)|;
      assert BaseName(path) == BaseName(front) + [path[|front|]];
      assert path[k..] == front[k..] + [path[|front|]];
      assert forall i :: k <= i < |front| ==> path[i] == front[i];
      assert k > 0 ==> path[k - 1] == front[k - 1];
    }
  }

  /** The member append_member_from_file makes of an input. */
  function InputMember(i: Input): Option<Member> {
    var name := BaseName(i.path);
    if name == [] || |name| >= NAME_LIMIT || i.content.None? || |i.content.value| >= SIZE_LIMIT then None
    else Some(Member(name, i.content.value))
  }

  /** The members of the first `n` inputs. */
  function InputMembers(inputs: seq<Input>, n: nat): Option<seq<Member>>
    requires n <= |inputs|
  {
    if n == 0 then Some([])
    else match InputMembers(inputs, n - 1)
      case None => None
      case Some(ms) => (match InputMember(inputs[n - 1]) case None => None case Some(m) => Some(ms + [m]))
  }

  /** member_name_index: the first input whose base name is `name`. */
  function NameIndex(name: seq<byte>, inputs: seq<Input>, from: nat): (i: Option<nat>)
    requires from <= |inputs|
    ensures i.Some? ==> from <= i.value < |inputs| && BaseName(inputs[i.value].path) == name &&
                        forall j :: from <= j < i.value ==> BaseName(inputs[j].path) != name
    ensures i.None? ==> forall j :: from <= j < |inputs| ==> BaseName(inputs[j].path) != name
    decreases |inputs| - from
  {
    if from == |inputs| then None
    else if BaseName(inputs[from].path) == name then Some(from)
    else NameIndex(name, inputs, from + 1)
  }

  predicate Named(name: seq<byte>, inputs: seq<Input>) { NameIndex(name, inputs, 0).Some? }

  /** The members no input replaces, in order. */
  function Kept(ms: seq<Member>, inputs: seq<Input>): seq<Member> {
    if ms == [] then []
    else (if Named(ms[0].name, inputs) then [] else [ms[0]]) + Kept(ms[1..], inputs)
  }

  function OldMembers(existing: Option<seq<byte>>): Option<seq<Member>> {
    match existing case None => Some([]) case Some(file) => Parse(file)
  }

  /** append_archive; None: the existing archive is malformed or an input cannot become a member, and nothing
      changes. */
  function Append(existing: Option<seq<byte>>, inputs: seq<Input>): Option<seq<byte>> {
    match OldMembers(existing)
    case None => None
    case Some(ms) => (match InputMembers(inputs, |inputs|) case None => None case Some(added) => Some(Format(ms + added)))
  }

  /** replace_archive. */
  function Replace(existing: Option<seq<byte>>, inputs: seq<Input>): Option<seq<byte>> {
    match OldMembers(existing)
    case None => None
    case Some(ms) => (match InputMembers(inputs, |inputs|) case None => None case Some(added) => Some(Format(Kept(ms, inputs) + added)))
  }

  /** Command-line paths are C strings. */
  predicate PathsNulFree(inputs: seq<Input>) { forall i :: 0 <= i < |inputs| ==> 0 !in inputs[i].path }

  predicate NoEmptyName(ms: seq<Member>) { forall i :: 0 <= i < |ms| ==> ms[i].name != [] }

  lemma {:induction false} InputsLegal(inputs: seq<Input>, n: nat)
    requires n <= |inputs| && PathsNulFree(inputs) && InputMembers(inputs, n).Some?
    ensures |InputMembers(inputs, n).value| == n && AllLegal(InputMembers(inputs, n).value)
    ensures forall i :: 0 <= i < n ==> InputMembers(inputs, n).value[i].name == BaseName(inputs[i].path)
  {
    if n > 0 {
      InputsLegal(inputs, n - 1);
      BaseNameExact(inputs[n - 1].path);
      hide BaseName;
    }
  }

  lemma {:induction false} KeptSound(ms: seq<Member>, inputs: seq<Input>)
    ensures forall m :: m in Kept(ms, inputs) <==> m in ms && !Named(m.name, inputs)
    ensures AllReadable(ms) ==> AllReadable(Kept(ms, inputs))
    decreases |ms|
  {
    hide Named;
    if ms != [] {
      KeptSound(ms[1..], inputs);
      assert ms == [ms[0]] + ms[1..];
      forall m: Member
        ensures m in Kept(ms, inputs) <==> m in ms && !Named(m.name, inputs)
      {
        assert m in ms <==> m == ms[0] || m in ms[1..];
      }
    }
  }

  /** Replacing: the archive afterwards holds the old members no input names, in order, followed by the inputs, exactly
      when none of the kept members has a name that reads as empty. */
  lemma ReplaceExact(existing: Option<seq<byte>>, inputs: seq<Input>)
    requires Replace(existing, inputs).Some? && PathsNulFree(inputs)
    ensures OldMembers(existing).Some? && InputMembers(inputs, |inputs|).Some?
    ensures var kept := Kept(OldMembers(existing).value, inputs);
            Parse(Replace(existing, inputs).value) == Some(kept + InputMembers(inputs, |inputs|).value) <==>
              NoEmptyName(kept)
  {
    hide Parse, Kept, Format;
    var ms := OldMembers(existing).value;
    var kept, added := Kept(ms, inputs), InputMembers(inputs, |inputs|).value;
    OldReadable(existing);
    KeptSound(ms, inputs);
    InputsLegal(inputs, |inputs|);
    RoundTripExact(kept + added);
    LegalParts(kept, added);
  }

  /** Appending: the archive afterwards holds the old members followed by the inputs exactly when no old name reads as
      empty. */
  lemma AppendExact(existing: Option<seq<byte>>, inputs: seq<Input>)
    requires Append(existing, inputs).Some? && PathsNulFree(inputs)
    ensures OldMembers(existing).Some? && InputMembers(inputs, |inputs|).Some?
    ensures var before := OldMembers(existing).value;
            Parse(Append(existing, inputs).value) == Some(before + InputMembers(inputs, |inputs|).value) <==>
              NoEmptyName(before)
  {
    hide Parse, Format;
    var ms, added := OldMembers(existing).value, InputMembers(inputs, |inputs|).value;
    OldReadable(existing);
    InputsLegal(inputs, |inputs|);
    RoundTripExact(ms + added);
    LegalParts(ms, added);
  }

  lemma {:induction false} InputsConcat(a: seq<Input>, b: seq<Input>, n: nat)
    requires n <= |b|
    ensures InputMembers(a + b, |a| + n) ==
              match InputMembers(a, |a|)
              case None => None
              case Some(x) => (match InputMembers(b, n) case None => None case Some(y) => Some(x + y))
  {
    hide InputMember;
    if n == 0 {
      InputsPrefix(a, b, |a|);
      if InputMembers(a, |a|).Some? { assert InputMembers(a, |a|).value + [] == InputMembers(a, |a|).value; }
    } else {
      InputsConcat(a, b, n - 1);
      assert (a + b)[|a| + n - 1] == b[n - 1];
      if InputMembers(a, |a|).Some? && InputMembers(b, n - 1).Some? {
        InputNext(a + b, |a| + n - 1);
        InputNext(b, n - 1);
        var x, y := InputMembers(a, |a|).value, InputMembers(b, n - 1).value;
        assert forall m :: (x + y) + [m] == x + (y + [m]);
      }
    }
  }

  lemma {:induction false} InputsPrefix(a: seq<Input>, b: seq<Input>, n: nat)
    requires n <= |a|
    ensures InputMembers(a + b, n) == InputMembers(a, n)
  {
    hide InputMember;
    if n > 0 { InputsPrefix(a, b, n - 1); }
  }

  /** Appending in two goes is appending everything at once. */
  lemma AppendSplit(existing: Option<seq<byte>>, a: seq<Input>, b: seq<Input>)
    requires Append(existing, a).Some? && PathsNulFree(a) && NoEmptyName(OldMembers(existing).value)
    ensures Append(Append(existing, a), b) == Append(existing, a + b)
  {
    hide Parse, Format, InputMembers;
    AppendExact(existing, a);
    InputsConcat(a, b, |b|);
    var ms, x := OldMembers(existing).value, InputMembers(a, |a|).value;
    if InputMembers(b, |b|).Some? {
      assert (ms + x) + InputMembers(b, |b|).value == ms + (x + InputMembers(b, |b|).value);
    }
  }

  /** An archive of one empty member whose stored name is a single NUL. */
  const NulNamed: seq<byte> := MAGIC + [1, 0, 0, 0, 0, 0, 0]

  /** It reads, but appending nothing to it makes it unreadable, and so does replacing. */
  lemma NulNameLost()
    ensures OldMembers(Some(NulNamed)) == Some([Member([], [])])
    ensures Append(Some(NulNamed), []).Some? && Parse(Append(Some(NulNamed), []).value) != Some([Member([], [])])
    ensures Replace(Some(NulNamed), []) == Append(Some(NulNamed), [])
  {
    NulNameRead();
    AppendExact(Some(NulNamed), []);
    hide Parse, Format;
    var ms := [Member([], [])];
    assert InputMembers([], 0) == Some([]) && ms + [] == ms;
    KeptAll(ms, []);
  }

  lemma NulNameRead()
    ensures Parse(NulNamed) == Some([Member([], [])])
  {
    var s: seq<byte> := [1, 0, 0, 0, 0, 0, 0];
    assert NulNamed[..|MAGIC|] == MAGIC && NulNamed[|MAGIC|..] == s;
    assert s[..2] == [1, 0] && s[2..6] == [0, 0, 0, 0] && s[6..7] == [0] && s[7..] == [];
    hide ParseMembers;
    NulHeader(s);
    NothingParsed();
    ParseOne(s, [], []);
  }

  lemma NulHeader(s: seq<byte>)
    requires |s| == 7 && s[..2] == [1, 0] && s[2..6] == [0, 0, 0, 0] && s[6..7] == [0] && s[7..] == []
    ensures ReadHeader(s) == Head([], 0, [])
  {
  }

  lemma NothingParsed()
    ensures ParseMembers([]) == Some([])
  {
  }

  lemma ParseOne(s: seq<byte>, name: seq<byte>, rest: seq<byte>)
    requires ReadHeader(s) == Head(name, 0, rest) && ParseMembers(rest) == Some([])
    ensures ParseMembers(s) == Some([Member(name, [])])
  {
    hide ReadHeader;
    assert rest[..0] == [] && rest[0..] == rest;
    assert [Member(name, [])] + [] == [Member(name, [])];
  }

  lemma OldReadable(existing: Option<seq<byte>>)
    requires OldMembers(existing).Some?
    ensures AllReadable(OldMembers(existing).value)
  {
    hide ParseMembers;
    if existing.Some? { ParsedReadable(existing.value[|MAGIC|..]); }
  }

  lemma LegalParts(a: seq<Member>, b: seq<Member>)
    requires AllReadable(a) && AllLegal(b)
    ensures AllLegal(a + b) <==> NoEmptyName(a)
  {
    if AllLegal(a + b) {
      forall i | 0 <= i < |a| ensures a[i].name != [] { assert (a + b)[i] == a[i]; }
    }
  }

  lemma KeptCons(m: Member, t: seq<Member>, inputs: seq<Input>)
    ensures Kept([m] + t, inputs) == (if Named(m.name, inputs) then [] else [m]) + Kept(t, inputs)
  {
    hide Named;
    assert ([m] + t)[1..] == t;
  }

  lemma KeptNothing(inputs: seq<Input>)
    ensures Kept([], inputs) == []
  {
  }

  lemma {:induction false} KeptAppend(a: seq<Member>, b: seq<Member>, inputs: seq<Input>)
    ensures Kept(a + b, inputs) == Kept(a, inputs) + Kept(b, inputs)
  {
    hide *;
    if a == [] {
      KeptNothing(inputs);
      assert a + b == b;
    } else {
      KeptAppend(a[1..], b, inputs);
      KeptCons(a[0], a[1..], inputs);
      KeptCons(a[0], a[1..] + b, inputs);
      assert a == [a[0]] + a[1..] && a + b == [a[0]] + (a[1..] + b);
    }
  }

  lemma {:induction false} KeptAll(ms: seq<Member>, inputs: seq<Input>)
    requires forall i :: 0 <= i < |ms| ==> !Named(ms[i].name, inputs)
    ensures Kept(ms, inputs) == ms
  {
    hide Named;
    if ms != [] { KeptAll(ms[1..], inputs); }
  }

  lemma {:induction false} KeptNone(ms: seq<Member>, inputs: seq<Input>)
    requires forall i :: 0 <= i < |ms| ==> Named(ms[i].name, inputs)
    ensures Kept(ms, inputs) == []
  {
    hide Named;
    if ms != [] { KeptNone(ms[1..], inputs); }
  }

  /** Replacing twice with the same inputs is replacing once. */
  lemma ReplaceTwice(existing: Option<seq<byte>>, inputs: seq<Input>)
    requires Replace(existing, inputs).Some? && PathsNulFree(inputs)
    requires NoEmptyName(Kept(OldMembers(existing).value, inputs))
    ensures Replace(Replace(existing, inputs), inputs) == Replace(existing, inputs)
  {
    ReplaceExact(existing, inputs);
    InputsLegal(inputs, |inputs|);
    var ms := OldMembers(existing).value;
    var kept, added := Kept(ms, inputs), InputMembers(inputs, |inputs|).value;
    hide Parse, Format, Kept, NameIndex, BaseName;
    KeptSound(ms, inputs);
    KeptAppend(kept, added, inputs);
    forall i | 0 <= i < |kept| ensures !Named(kept[i].name, inputs) { assert kept[i] in kept; }
    KeptAll(kept, inputs);
    forall i | 0 <= i < |added| ensures Named(added[i].name, inputs) { NamedBySelf(inputs, i); }
    KeptNone(added, inputs);
    assert kept + [] == kept;
  }

  lemma NamedBySelf(inputs: seq<Input>, i: nat)
    requires i < |inputs|
    ensures Named(BaseName(inputs[i].path), inputs)
  {
  }

  // ---- streams

  class InStream {
    const content: seq<byte>
    var pos: nat

    predicate Valid()
      reads this
    {
      pos <= |content|
    }

    function Rest(): seq<byte>
      reads this
      requires Valid()
    {
      content[pos..]
    }

    constructor (s: seq<byte>)
      ensures Valid() && content == s && pos == 0
    {
      content, pos := s, 0;
    }

    /** fread: as many of `n` bytes as there are. */
    method Read(n: nat) returns (bytes: seq<byte>)
      requires Valid()
      modifies this`pos
      ensures Valid()
      ensures if n <= |old(Rest())| then bytes == old(Rest())[..n] && Rest() == old(Rest())[n..]
              else bytes == old(Rest()) && Rest() == []
    {
      var end := if n <= |content| - pos then pos + n else |content|;
      bytes := content[pos..end];
      pos := end;
    }

    /** skip_n_bytes, a buffer at a time. */
    method Skip(size: nat) returns (ok: bool)
      requires Valid()
      modifies this`pos
      ensures Valid() && ok == (size <= |old(Rest())|)
      ensures ok ==> Rest() == old(Rest())[size..]
    {
      var remaining := size;
      while remaining > 0
        invariant Valid() && 0 <= remaining <= size && size - remaining <= |old(Rest())|
        invariant Rest() == old(Rest())[size - remaining..]
      {
        var chunk := if remaining > COPY_BUFFER_SIZE then COPY_BUFFER_SIZE else remaining;
        var got := Read(chunk);
        if |got| != chunk { return false; }
        remaining := remaining - chunk;
      }
      ok := true;
    }

    /** read_member_header. */
    method ReadMemberHeader() returns (h: Header)
      requires Valid()
      modifies this`pos
      ensures Valid() && h == ReadHeader(old(Rest()))
      ensures h.Head? ==> Rest() == h.rest
    {
      hide Value16, Value32, CString;
      ghost var s := Rest();
      if pos == |content| { return AtEnd; }
      var n := Read(2);
      if |n| != 2 { return Bad; }
      var size := Read(4);
      if |size| != 4 { return Bad; }
      assert n == s[..2] && size == s[2..6] && Rest() == s[6..];
      if Value16(n) == 0 { return Bad; }
      var name := Read(Value16(n));
      if |name| != Value16(n) { return Bad; }
      assert name == s[6..6 + Value16(n)] && Rest() == s[6 + Value16(n)..];
      h := Head(CString(name), Value32(size), content[pos..]);
    }
  }

  class OutStream {
    var content: seq<byte>

    constructor ()
      ensures content == []
    {
      content := [];
    }

    method Write(bytes: seq<byte>)
      modifies this
      ensures content == old(content) + bytes
    {
      content := content + bytes;
    }

    /** copy_n_bytes, a buffer at a time. */
    method CopyFrom(input: InStream, size: nat) returns (ok: bool)
      requires input.Valid()
      modifies this, input`pos
      ensures input.Valid() && ok == (size <= |old(input.Rest())|)
      ensures ok ==> content == old(content) + old(input.Rest())[..size] && input.Rest() == old(input.Rest())[size..]
    {
      var remaining := size;
      ghost var all, start := input.Rest(), content;
      while remaining > 0
        invariant input.Valid() && 0 <= remaining <= size && size - remaining <= |all|
        invariant input.Rest() == all[size - remaining..] && content == start + all[..size - remaining]
      {
        var chunk := if remaining > COPY_BUFFER_SIZE then COPY_BUFFER_SIZE else remaining;
        var got := input.Read(chunk);
        if |got| != chunk { return false; }
        Write(got);
        assert all[..size - remaining] + got == all[..size - remaining + chunk];
        remaining := remaining - chunk;
      }
      ok := true;
    }

    /** write_member_record. */
    method WriteMemberRecord(name: seq<byte>, size: nat, input: InStream) returns (ok: bool)
      requires input.Valid()
      modifies this, input`pos
      ensures input.Valid() && ok == (size <= |old(input.Rest())|)
      ensures ok ==>
                content == old(content) + MemberBytes(Member(name, old(input.Rest())[..size])) &&
                input.Rest() == old(input.Rest())[size..]
    {
      Write(Field16(|name|));
      Write(Field32(size));
      Write(name);
      ok := CopyFrom(input, size);
    }

    /** append_member_from_file. */
    method AppendMember(i: Input) returns (ok: bool)
      modifies this
      ensures ok == InputMember(i).Some?
      ensures ok ==> content == old(content) + MemberBytes(InputMember(i).value)
    {
      hide BaseName, Field16, Field32;
      var name := BaseName(i.path);
      if name == [] || |name| >= NAME_LIMIT || i.content.None? { return false; }
      var size := |i.content.value|;
      if size >= SIZE_LIMIT { return false; }
      Write(Field16(|name|));
      Write(Field32(size));
      Write(name);
      var file := new InStream(i.content.value);
      assert file.Rest()[..size] == i.content.value;
      ok := CopyFrom(file, size);
      assert content == old(content) + Field16(|name|) + Field32(size) + name + i.content.value;
    }
  }

  // ---- the two updates as the archiver performs them

  /** Input `i` took the place of a member. */
  predicate Replaced(ms: seq<Member>, inputs: seq<Input>, i: nat) {
    exists k :: 0 <= k < |ms| && NameIndex(ms[k].name, inputs, 0) == Some(i)
  }

  /** What has been read and what is left make up the archive. */
  ghost predicate Continues(start: seq<byte>, done: seq<Member>, rest: seq<byte>) {
    ParseMembers(start) == match ParseMembers(rest) { case None => None case Some(ms) => Some(done + ms) }
  }

  lemma ContinuesStart(start: seq<byte>)
    ensures Continues(start, [], start)
  {
    if ParseMembers(start).Some? { assert [] + ParseMembers(start).value == ParseMembers(start).value; }
  }

  lemma ContinuesEnd(start: seq<byte>, done: seq<Member>, rest: seq<byte>)
    requires Continues(start, done, rest)
    ensures ReadHeader(rest).AtEnd? ==> ParseMembers(start) == Some(done)
    ensures ReadHeader(rest).Bad? ==> ParseMembers(start).None?
    ensures ReadHeader(rest).Head? && ReadHeader(rest).size > |ReadHeader(rest).rest| ==> ParseMembers(start).None?
  {
    hide ReadHeader;
    assert done + [] == done;
  }

  lemma ContinuesStep(start: seq<byte>, done: seq<Member>, rest: seq<byte>)
    requires Continues(start, done, rest) && ReadHeader(rest).Head? && ReadHeader(rest).size <= |ReadHeader(rest).rest|
    ensures var h := ReadHeader(rest);
            Continues(start, done + [Member(h.name, h.rest[..h.size])], h.rest[h.size..])
  {
    hide ReadHeader;
    var h := ReadHeader(rest);
    var m := Member(h.name, h.rest[..h.size]);
    var tail := ParseMembers(h.rest[h.size..]);
    if tail.Some? { assert done + ([m] + tail.value) == done + [m] + tail.value; }
  }

  lemma {:induction false} BytesAppend(a: seq<Member>, b: seq<Member>)
    ensures MembersBytes(a + b) == MembersBytes(a) + MembersBytes(b)
  {
    hide MemberBytes;
    if a == [] {
      assert a + b == b;
    } else {
      BytesAppend(a[1..], b);
      assert (a + b)[1..] == a[1..] + b;
    }
  }

  lemma BytesOne(a: seq<Member>, m: Member)
    ensures MembersBytes(a + [m]) == MembersBytes(a) + MemberBytes(m)
  {
    BytesAppend(a, [m]);
    hide MemberBytes;
    assert MembersBytes([m]) == MemberBytes(m) + [];
  }

  lemma FormatOne(a: seq<Member>, m: Member)
    ensures Format(a + [m]) == Format(a) + MemberBytes(m)
  {
    BytesOne(a, m);
  }

  lemma FormatNothing()
    ensures Format([]) == MAGIC
  {
  }

  /** open_archive_for_read and the seek behind the magic. */
  method OpenArchive(file: seq<byte>) returns (archive: InStream, ok: bool)
    ensures fresh(archive) && archive.Valid()
    ensures ok == (|file| >= |MAGIC| && file[..|MAGIC|] == MAGIC)
    ensures ok ==> archive.Rest() == file[|MAGIC|..]
  {
    archive := new InStream(file);
    var magic := archive.Read(|MAGIC|);
    ok := |magic| == |MAGIC| && magic == MAGIC;
  }

  /** Appending the inputs behind `ms`. */
  method AppendInputs(archive: OutStream, ghost ms: seq<Member>, inputs: seq<Input>) returns (ok: bool)
    requires archive.content == Format(ms)
    modifies archive
    ensures ok == InputMembers(inputs, |inputs|).Some?
    ensures ok ==> archive.content == Format(ms + InputMembers(inputs, |inputs|).value)
  {
    hide InputMember, MemberBytes, Format;
    assert ms + [] == ms;
    for i := 0 to |inputs|
      invariant InputMembers(inputs, i).Some? && archive.content == Format(ms + InputMembers(inputs, i).value)
    {
      InputNext(inputs, i);
      ok := archive.AppendMember(inputs[i]);
      if !ok {
        InputsFail(inputs, i + 1, |inputs|);
        return;
      }
      FormatOne(ms + InputMembers(inputs, i).value, InputMember(inputs[i]).value);
      assert ms + InputMembers(inputs, i).value + [InputMember(inputs[i]).value] == ms + InputMembers(inputs, i + 1).value;
    }
    ok := true;
  }

  lemma InputNext(inputs: seq<Input>, i: nat)
    requires i < |inputs| && InputMembers(inputs, i).Some?
    ensures InputMembers(inputs, i + 1) ==
              match InputMember(inputs[i]) { case None => None case Some(m) => Some(InputMembers(inputs, i).value + [m]) }
  {
    hide InputMember;
  }

  lemma {:induction false} InputsFail(inputs: seq<Input>, i: nat, n: nat)
    requires i <= n <= |inputs| && InputMembers(inputs, i).None?
    ensures InputMembers(inputs, n).None?
    decreases n
  {
    hide InputMember;
    if i < n { InputsFail(inputs, i, n - 1); }
  }

  method AppendArchive(existing: Option<seq<byte>>, inputs: seq<Input>) returns (r: Option<seq<byte>>)
    ensures r == Append(existing, inputs)
  {
    hide ParseMembers, ReadHeader, MemberBytes, Format, InputMembers, Continues;
    var archive := new OutStream();
    archive.Write(MAGIC);
    FormatNothing();
    ghost var done: seq<Member> := [];
    if existing.Some? {
      var source, ok := OpenArchive(existing.value);
      if !ok { return None; }
      ghost var start := source.Rest();
      ContinuesStart(start);
      while true
        invariant source.Valid() && Continues(start, done, source.Rest()) && archive.content == Format(done)
        decreases |source.Rest()|
      {
        ghost var rest := source.Rest();
        ContinuesEnd(start, done, rest);
        var h := source.ReadMemberHeader();
        HeaderShrinks(rest);
        if h.AtEnd? { break; }
        if h.Bad? { return None; }
        ok := archive.WriteMemberRecord(h.name, h.size, source);
        if !ok { return None; }
        ContinuesStep(start, done, rest);
        FormatOne(done, Member(h.name, h.rest[..h.size]));
        done := done + [Member(h.name, h.rest[..h.size])];
      }
      assert OldMembers(existing) == Some(done);
    }
    var ok := AppendInputs(archive, done, inputs);
    r := if ok then Some(archive.content) else None;
  }

  lemma HeaderShrinks(s: seq<byte>)
    ensures ReadHeader(s).Head? ==> |ReadHeader(s).rest| < |s|
  {
  }

  method ReplaceArchive(existing: Option<seq<byte>>, inputs: seq<Input>) returns (r: Option<seq<byte>>, replaced: array<bool>)
    ensures r == Replace(existing, inputs)
    ensures replaced.Length == |inputs|
    ensures r.Some? ==>
              forall i :: 0 <= i < |inputs| ==> (replaced[i] <==> Replaced(OldMembers(existing).value, inputs, i))
  {
    hide ParseMembers, ReadHeader, MemberBytes, Format, InputMembers, Continues, Replaced, NameIndex, Kept;
    replaced := new bool[|inputs|](_ => false);
    var archive := new OutStream();
    archive.Write(MAGIC);
    FormatNothing();
    KeptNothing(inputs);
    NoneReplaced(inputs);
    ghost var done: seq<Member> := [];
    if existing.Some? {
      var source, ok := OpenArchive(existing.value);
      if !ok { return None, replaced; }
      ghost var start := source.Rest();
      ContinuesStart(start);
      while true
        invariant source.Valid() && Continues(start, done, source.Rest())
        invariant archive.content == Format(Kept(done, inputs))
        invariant forall i :: 0 <= i < |inputs| ==> (replaced[i] <==> Replaced(done, inputs, i))
        decreases |source.Rest()|
      {
        ghost var rest := source.Rest();
        ContinuesEnd(start, done, rest);
        var h := source.ReadMemberHeader();
        HeaderShrinks(rest);
        if h.AtEnd? { break; }
        if h.Bad? { return None, replaced; }
        ghost var m := Member(h.name, if h.size <= |h.rest| then h.rest[..h.size] else []);
        var index := NameIndex(h.name, inputs, 0);
        if index.Some? {
          replaced[index.value] := true;
          ok := source.Skip(h.size);
        } else {
          ok := archive.WriteMemberRecord(h.name, h.size, source);
        }
        if !ok { return None, replaced; }
        ContinuesStep(start, done, rest);
        KeptLast(done, m, inputs);
        ReplacedLast(done, m, inputs);
        FormatOne(Kept(done, inputs), m);
        done := done + [m];
      }
      assert OldMembers(existing) == Some(done);
    }
    var ok := AppendInputs(archive, Kept(done, inputs), inputs);
    r := if ok then Some(archive.content) else None;
  }

  lemma NoneReplaced(inputs: seq<Input>)
    ensures forall i :: 0 <= i < |inputs| ==> !Replaced([], inputs, i)
  {
    hide NameIndex;
  }

  lemma KeptLast(ms: seq<Member>, m: Member, inputs: seq<Input>)
    ensures Kept(ms + [m], inputs) ==
              if NameIndex(m.name, inputs, 0).Some? then Kept(ms, inputs) else Kept(ms, inputs) + [m]
  {
    hide NameIndex;
    KeptAppend(ms, [m], inputs);
    KeptCons(m, [], inputs);
    assert [m] + [] == [m];
  }

  lemma ReplacedLast(ms: seq<Member>, m: Member, inputs: seq<Input>)
    ensures forall i :: 0 <= i < |inputs| ==>
              (Replaced(ms + [m], inputs, i) <==> Replaced(ms, inputs, i) || NameIndex(m.name, inputs, 0) == Some(i))
  {
    hide NameIndex;
    forall i | 0 <= i < |inputs|
      ensures Replaced(ms + [m], inputs, i) <==> Replaced(ms, inputs, i) || NameIndex(m.name, inputs, 0) == Some(i)
    {
      if Replaced(ms, inputs, i) {
        var k :| 0 <= k < |ms| && NameIndex(ms[k].name, inputs, 0) == Some(i);
        assert (ms + [m])[k] == ms[k];
      }
      assert (ms + [m])[|ms|] == m;
    }
  }
}
