/** Where the bytes of an error-free assembly go: each address holds the byte written there last, statements never share
    an address while no origin steps back, and without origins the bytes tile every segment without a gap. */
module Tiling {
  import opened Support
  import opened Expressions
  import opened Opcodes
  import opened Program
  import opened Layout
  import opened Emission
  import opened Agreement

  /** No physical origin is set. */
  predicate NoOrg(prog: seq<Stmt>) {
    forall i :: 0 <= i < |prog| ==> !(prog[i].kind.Dir? && prog[i].kind.dir.name == DOrg)
  }

  predicate NoLogicalOrigin(s: Stmt) {
    !(s.kind.Dir? && (s.kind.dir.name == DRorg || s.kind.dir.name == DRend))
  }

  /** No `.org` takes a segment back behind what it already holds. */
  predicate Forward(cfg: Config, c: Context) {
    forall i :: 0 <= i < |c.prog| ==> MovesForward(cfg, c, i)
  }

  predicate MovesForward(cfg: Config, c: Context, i: nat)
    requires i < |c.prog|
  {
    var segs := At(cfg, Start(cfg, c), c.prog, i).segs;
    c.prog[i].segment in segs && MotionOf(cfg, c, i).Jump? ==>
      segs[c.prog[i].segment].pc <= MotionOf(cfg, c, i).offset
  }

  lemma NoOrgForward(cfg: Config, c: Context)
    requires NoOrg(c.prog)
    ensures Forward(cfg, c)
  {
    hide MotionOf, At;
    forall i | 0 <= i < |c.prog|
      ensures MovesForward(cfg, c, i)
    {
      MotionKinds(cfg, c, i);
    }
  }

  /** Statement `i`'s offset in its segment. */
  function Pc(cfg: Config, c: Context, name: string, i: nat): int
    requires i <= |c.prog| && name in At(cfg, Start(cfg, c), c.prog, i).segs
  {
    At(cfg, Start(cfg, c), c.prog, i).segs[name].pc
  }

  lemma SegsStay(cfg: Config, c: Context, i: nat)
    requires i <= |c.prog|
    ensures At(cfg, Start(cfg, c), c.prog, i).segs.Keys == c.segs.Keys
    ensures forall n :: n in c.segs ==> At(cfg, Start(cfg, c), c.prog, i).segs[n].base == c.segs[n].base
  {
    hide Step, Publish;
    AtGrows(cfg, Start(cfg, c), c.prog, 0, i);
  }

  /** How one statement moves its own segment; every other segment stays. */
  lemma MotionMoves(cfg: Config, c: Context, i: nat)
    requires i < |c.prog| && c.prog[i].segment in c.segs
    ensures At(cfg, Start(cfg, c), c.prog, i).segs.Keys == c.segs.Keys
    ensures var st := At(cfg, Start(cfg, c), c.prog, i); var n := c.prog[i].segment;
            At(cfg, Start(cfg, c), c.prog, i + 1).segs == st.segs[n := Moved(st.segs[n], MotionOf(cfg, c, i))]
  {
    hide Start, AfterNames, StmtMotion, LogicalPc, CondStep, ConstStep, StorageKey, Moved;
    SegsStay(cfg, c, i);
    var st := At(cfg, Start(cfg, c), c.prog, i);
    var s := c.prog[i];
    if IsConditionalStmt(s) {
      CondStepGrows(cfg, st, s, s.kind.dir, LogicalPc(st.segs[s.segment]));
      KeepMoves(st, s.segment);
    } else if !CurrentActive(st.stack) {
      KeepMoves(st, s.segment);
    } else {
      NamesGrow(cfg, st, s);
      if s.kind.Const? {
        ConstStepGrows(cfg, AfterNames(cfg, st, s), s, LogicalPc(st.segs[s.segment]));
        KeepMoves(st, s.segment);
      } else {
        MotionStep(cfg, st, s);
      }
    }
  }

  lemma KeepMoves(st: State, n: string)
    requires n in st.segs
    ensures st.segs[n := Moved(st.segs[n], Keep)] == st.segs
  {
  }

  /** Which motions a statement's kind allows. */
  lemma MotionKinds(cfg: Config, c: Context, i: nat)
    requires i < |c.prog|
    ensures MotionOf(cfg, c, i).Jump? ==>
              c.prog[i].kind.Dir? && c.prog[i].kind.dir.name == DOrg &&
              c.prog[i].segment in At(cfg, Start(cfg, c), c.prog, i).segs &&
              !At(cfg, Start(cfg, c), c.prog, i).segs[c.prog[i].segment].rorgActive
    ensures MotionOf(cfg, c, i).StartLogical? ==> c.prog[i].kind.Dir? && c.prog[i].kind.dir.name == DRorg
    ensures MotionOf(cfg, c, i).StartLogical? || MotionOf(cfg, c, i).EndLogical? ==> !NoLogicalOrigin(c.prog[i])
  {
    hide Start, At, AfterNames, LogicalPc, Arg, ProcName, AlignPadding, PowerOfTwoTest, DecodeString;
  }

  lemma PcSteps(cfg: Config, c: Context, name: string, i: nat)
    requires i < |c.prog| && name in c.segs && NoOrg(c.prog) && c.prog[i].segment in c.segs
    ensures name in At(cfg, Start(cfg, c), c.prog, i).segs && name in At(cfg, Start(cfg, c), c.prog, i + 1).segs
    ensures Pc(cfg, c, name, i + 1) == Pc(cfg, c, name, i) + if c.prog[i].segment ==
              name then Room(MotionOf(cfg, c, i)) else 0
  {
    hide Step, Start, At, MotionOf;
    MotionMoves(cfg, c, i);
    MotionKinds(cfg, c, i);
  }

  /** The same with origins, as long as they step forward. */
  lemma PcSkips(cfg: Config, c: Context, name: string, i: nat)
    requires i < |c.prog| && name in c.segs && Forward(cfg, c) && c.prog[i].segment in c.segs
    ensures name in At(cfg, Start(cfg, c), c.prog, i).segs && name in At(cfg, Start(cfg, c), c.prog, i + 1).segs
    ensures var room := if c.prog[i].segment == name then Room(MotionOf(cfg, c, i)) else 0;
            Pc(cfg, c, name, i) + room <= Pc(cfg, c, name, i + 1) &&
            (c.prog[i].segment != name || !MotionOf(cfg, c, i).Jump? ==>
               Pc(cfg, c, name, i + 1) == Pc(cfg, c, name, i) + room)
  {
    hide Step, Start, At, MotionOf;
    MotionMoves(cfg, c, i);
    assert MovesForward(cfg, c, i);
  }

  lemma {:induction false} PcGrows(cfg: Config, c: Context, name: string, i: nat, j: nat)
    requires i <= j <= |c.prog| && name in c.segs && Forward(cfg, c) && Pass1(cfg, c).errors == c.errors
    ensures name in At(cfg, Start(cfg, c), c.prog, i).segs && name in At(cfg, Start(cfg, c), c.prog, j).segs
    ensures Pc(cfg, c, name, i) <= Pc(cfg, c, name, j)
    decreases j - i
  {
    hide Step, Start, At, MotionOf, Pass1, Room, Forward;
    SegsStay(cfg, c, i);
    if i < j {
      PcGrows(cfg, c, name, i, j - 1);
      UnknownSegment(cfg, c, j - 1);
      SegsStay(cfg, c, j - 1);
      PcSkips(cfg, c, name, j - 1);
    }
  }

  /** Every offset of a segment belongs to one of its statements. */
  lemma {:induction false} OffsetCovered(cfg: Config, c: Context, name: string, n: nat, x: int) returns (i: nat)
    requires n <= |c.prog| && name in c.segs && NoOrg(c.prog) && Pass1(cfg, c).errors == c.errors
    requires name in At(cfg, Start(cfg, c), c.prog, n).segs && 0 <= x < Pc(cfg, c, name, n)
    ensures i < n && c.prog[i].segment == name && name in At(cfg, Start(cfg, c), c.prog, i).segs
    ensures Pc(cfg, c, name, i) <= x < Pc(cfg, c, name, i) + Room(MotionOf(cfg, c, i))
  {
    hide Step, MotionOf, Pass1, Room, Publish;
    if n == 0 {
      assert false;
    } else {
      UnknownSegment(cfg, c, n - 1);
      SegsStay(cfg, c, n - 1);
      PcSteps(cfg, c, name, n - 1);
      if x < Pc(cfg, c, name, n - 1) {
        i := OffsetCovered(cfg, c, name, n - 1, x);
      } else {
        i := n - 1;
      }
    }
  }

  // ---- the image

  lemma {:induction false} WriteExact(img: Image, a: int, bytes: seq<byte>)
    requires Write(img, a, bytes).1
    ensures var r := Write(img, a, bytes).0;
            (forall y :: a <= y < a + |bytes| ==> y in r && r[y] == bytes[y - a]) &&
            (forall y :: y < a || y >= a + |bytes| ==> (y in r <==> y in img) && (y in img ==> r[y] == img[y]))
    decreases |bytes|
  {
    if bytes != [] {
      var img1 := img[a := bytes[0]];
      WriteExact(img1, a + 1, bytes[1..]);
      var r := Write(img1, a + 1, bytes[1..]).0;
      forall y | a < y < a + |bytes|
        ensures y in r && r[y] == bytes[y - a]
      {
        assert bytes[1..][y - (a + 1)] == bytes[y - a];
      }
    }
  }

  predicate Occupies(cfg: Config, c: Context, i: nat, y: int)
    requires i < |c.prog|
  {
    c.prog[i].emitAddress <= y < c.prog[i].emitAddress + |BytesOf(cfg, c, i)|
  }

  /** The byte statement `i` has for address `y`. */
  function ByteFor(cfg: Config, c: Context, i: nat, y: int): byte
    requires i < |c.prog| && Occupies(cfg, c, i, y)
  {
    BytesOf(cfg, c, i)[y - c.prog[i].emitAddress]
  }

  /** Address `y` holds the byte of the statement that occupies it. */
  ghost predicate HoldsItsByte(cfg: Config, c: Context, img: Image, i: nat, y: int)
    requires i < |c.prog|
  {
    Occupies(cfg, c, i, y) && y in img && img[y] == ByteFor(cfg, c, i, y)
  }

  lemma EmitImage(cfg: Config, c: Context, i: nat)
    requires i < |c.prog| && Pass2(cfg, c).errors == c.errors
    ensures var img, r := EmitAt(cfg, c, i).image, EmitAt(cfg, c, i + 1).image;
            var a := c.prog[i].emitAddress; var bs := BytesOf(cfg, c, i);
            (forall y :: a <= y < a + |bs| ==> y in r && r[y] == bs[y - a]) &&
            (forall y :: y < a || y >= a + |bs| ==> (y in r <==> y in img) && (y in img ==> r[y] == img[y]))
  {
    hide StmtBytes, Write, StorageKey, Eval, EmitAt;
    EmissionQuiet(cfg, c, i);
    EmitOne(cfg, c, i);
    if !c.prog[i].kind.Const? {
      WriteExact(EmitAt(cfg, c, i).image, c.prog[i].emitAddress, BytesOf(cfg, c, i));
    } else {
      ConstSilent(cfg, c, i);
    }
  }

  lemma EmitOne(cfg: Config, c: Context, i: nat)
    requires i < |c.prog|
    ensures EmitAt(cfg, c, i + 1) == EmitStep(cfg, c.segs, EmitAt(cfg, c, i), c.prog[i])
  {
  }

  lemma ConstSilent(cfg: Config, c: Context, i: nat)
    requires i < |c.prog| && c.prog[i].kind.Const?
    ensures BytesOf(cfg, c, i) == []
  {
  }

  /** The last of the first `n` statements to occupy `y`. */
  ghost predicate LastWriter(cfg: Config, c: Context, n: nat, i: nat, y: int)
    requires n <= |c.prog|
  {
    i < n && Occupies(cfg, c, i, y) && forall j :: i < j < n ==> !Occupies(cfg, c, j, y)
  }

  /** The image in front of statement `n`: an address is used exactly when an earlier statement occupies it, and then it
      holds the byte of the last one that does. */
  lemma {:induction false} LastWritten(cfg: Config, c: Context, n: nat, y: int)
    requires Pass2(cfg, c).errors == c.errors && n <= |c.prog|
    ensures y in EmitAt(cfg, c, n).image ==> exists i :: LastWriter(cfg, c, n, i, y)
    ensures forall i :: LastWriter(cfg, c, n, i, y) ==> HoldsItsByte(cfg, c, EmitAt(cfg, c, n).image, i, y)
  {
    hide BytesOf, Pass2, EmitStep;
    if n > 0 {
      var m: nat := n - 1;
      EmitImage(cfg, c, m);
      LastWritten(cfg, c, m, y);
      if Occupies(cfg, c, m, y) {
        assert LastWriter(cfg, c, n, m, y);
      } else {
        assert y in EmitAt(cfg, c, n).image ==> y in EmitAt(cfg, c, m).image;
        forall i | LastWriter(cfg, c, m, i, y)
          ensures LastWriter(cfg, c, n, i, y)
        {
        }
        assert forall i :: LastWriter(cfg, c, n, i, y) ==> LastWriter(cfg, c, m, i, y);
      }
    }
  }

  lemma {:induction false} LastExists(cfg: Config, c: Context, n: nat, i: nat, y: int) returns (k: nat)
    requires i < n <= |c.prog| && Occupies(cfg, c, i, y)
    ensures i <= k && LastWriter(cfg, c, n, k, y)
    decreases n
  {
    hide Occupies;
    if n == i + 1 || Occupies(cfg, c, n - 1, y) {
      k := n - 1;
    } else {
      k := LastExists(cfg, c, n - 1, i, y);
    }
  }

  lemma PassTwoIsLast(cfg: Config, c: Context)
    ensures Pass2(cfg, c) == EmitAt(cfg, c, |c.prog|)
  {
  }

  /** Whatever origins a program sets: an error-free emission fills exactly the occupied addresses, each with the byte of
      the last statement that occupies it. */
  lemma ImageIsLastWritten(cfg: Config, c: Context, y: int)
    requires Pass2(cfg, c).errors == c.errors
    ensures y in Pass2(cfg, c).image <==> exists i :: 0 <= i < |c.prog| && Occupies(cfg, c, i, y)
    ensures forall i :: LastWriter(cfg, c, |c.prog|, i, y) ==> HoldsItsByte(cfg, c, Pass2(cfg, c).image, i, y)
  {
    hide Pass2, EmitAt, Occupies;
    PassTwoIsLast(cfg, c);
    LastWritten(cfg, c, |c.prog|, y);
    if i :| 0 <= i < |c.prog| && Occupies(cfg, c, i, y) {
      var k := LastExists(cfg, c, |c.prog|, i, y);
    }
  }

  /** Statements that share an address write the same byte there. */
  ghost predicate Agreeing(cfg: Config, c: Context) {
    forall i, j, y :: 0 <= i < |c.prog| && 0 <= j < |c.prog| && Occupies(cfg, c, i, y) && Occupies(cfg, c, j, y) ==>
      ByteFor(cfg, c, i, y) == ByteFor(cfg, c, j, y)
  }

  ghost predicate AllIntact(cfg: Config, c: Context) {
    forall i, y :: 0 <= i < |c.prog| && Occupies(cfg, c, i, y) ==> HoldsItsByte(cfg, c, Pass2(cfg, c).image, i, y)
  }

  /** Every statement's bytes survive in the image if and only if statements that share an address agree on its byte. */
  lemma IntactExact(cfg: Config, c: Context)
    requires Pass2(cfg, c).errors == c.errors
    ensures AllIntact(cfg, c) <==> Agreeing(cfg, c)
  {
    hide Pass2, Occupies, ByteFor;
    if Agreeing(cfg, c) {
      forall i, y | 0 <= i < |c.prog| && Occupies(cfg, c, i, y)
        ensures HoldsItsByte(cfg, c, Pass2(cfg, c).image, i, y)
      {
        ImageIsLastWritten(cfg, c, y);
        var k := LastExists(cfg, c, |c.prog|, i, y);
      }
    }
  }

  // ---- programs whose origins step forward

  predicate Apart(segs: map<string, Segment>) {
    forall m, n :: m in segs && n in segs && m != n ==>
      segs[m].base + segs[m].usedSize <= segs[n].base || segs[n].base + segs[n].usedSize <= segs[m].base
  }

  /** An error-free assembly whose segments lie apart and are filled from bottom to top. */
  ghost predicate GoodFlat(cfg: Config, c: Context) {
    Clean(cfg, c) && Forward(cfg, c) && Apart(Pass1(cfg, c).segs) && Pass2(cfg, Pass1(cfg, c)).errors == c.errors
  }

  lemma FlatFacts(cfg: Config, c: Context)
    requires GoodFlat(cfg, c)
    ensures Pass1(cfg, c).errors == c.errors && Pass2(cfg, Pass1(cfg, c)).errors == Pass1(cfg, c).errors
    ensures Clean(cfg, c) && Forward(cfg, c) && Apart(Pass1(cfg, c).segs)
  {
  }

  /** Where statement `i`'s bytes go and how they sit inside its segment. */
  lemma BytesPlaced(cfg: Config, c: Context, i: nat)
    requires GoodFlat(cfg, c) && i < |c.prog|
    ensures var c1 := Pass1(cfg, c); var n := c.prog[i].segment;
            n in c1.segs && n in At(cfg, Start(cfg, c), c.prog, i).segs &&
            n in At(cfg, Start(cfg, c), c.prog, i + 1).segs &&
            c1.prog[i].segment == n && c1.prog[i].emitAddress == c1.segs[n].base + Pc(cfg, c, n, i) &&
            Pc(cfg, c, n, i) + |BytesOf(cfg, c1, i)| <= Pc(cfg, c, n, i + 1) &&
            (!MotionOf(cfg, c, i).Jump? ==> Pc(cfg, c, n, i) + |BytesOf(cfg, c1, i)| == Pc(cfg, c, n, i + 1)) &&
            0 <= Pc(cfg, c, n, i) && Pc(cfg, c, n, i + 1) <= c1.segs[n].usedSize
  {
    hide Step, MotionOf, Room, Publish, BytesOf, Clean, Apart, Start, At, FinalSyms, LogicalPc, Forward;
    FlatFacts(cfg, c);
    UnknownSegment(cfg, c, i);
    SegsStay(cfg, c, i);
    SegsStay(cfg, c, |c.prog|);
    BytesAsReserved(cfg, c, i);
    var n := c.prog[i].segment;
    PcSkips(cfg, c, n, i);
    PcGrows(cfg, c, n, 0, i);
    PcGrows(cfg, c, n, i + 1, |c.prog|);
    StartsAtZero(cfg, c, n);
    LaidStays(cfg, c, i);
    LaidAt(cfg, c, i);
    LaidShape(cfg, At(cfg, Start(cfg, c), c.prog, i), c.prog[i]);
  }

  lemma StartsAtZero(cfg: Config, c: Context, name: string)
    requires name in c.segs
    ensures name in At(cfg, Start(cfg, c), c.prog, 0).segs && Pc(cfg, c, name, 0) == 0
  {
    hide Publish;
  }

  /** Two statements' bytes never share an address. */
  lemma NoOverlap(cfg: Config, c: Context, i: nat, j: nat)
    requires GoodFlat(cfg, c) && i < j < |c.prog|
    ensures var c1 := Pass1(cfg, c);
            var a, b := c1.prog[i].emitAddress, c1.prog[j].emitAddress;
            a + |BytesOf(cfg, c1, i)| <= b || b + |BytesOf(cfg, c1, j)| <= a ||
            |BytesOf(cfg, c1, i)| == 0 || |BytesOf(cfg, c1, j)| == 0
  {
    hide BytesOf, Clean, Start, At, Pass1, Pc, Pass2, Forward, MotionOf;
    FlatFacts(cfg, c);
    BytesPlaced(cfg, c, i);
    BytesPlaced(cfg, c, j);
    var m, n := c.prog[i].segment, c.prog[j].segment;
    if m == n {
      SegsStay(cfg, c, |c.prog|);
      SegsStay(cfg, c, i);
      PcGrows(cfg, c, m, i + 1, j);
    }
  }

  /** No address belongs to two statements. */
  lemma OccupantUnique(cfg: Config, c: Context, i: nat, j: nat, y: int)
    requires GoodFlat(cfg, c) && i < |c.prog| && j < |c.prog|
    requires Occupies(cfg, Pass1(cfg, c), i, y) && Occupies(cfg, Pass1(cfg, c), j, y)
    ensures i == j
  {
    hide BytesOf, GoodFlat, Pass1;
    if i < j { NoOverlap(cfg, c, i, j); }
    if j < i { NoOverlap(cfg, c, j, i); }
  }

  lemma NothingLost(cfg: Config, c: Context)
    requires GoodFlat(cfg, c)
    ensures Agreeing(cfg, Pass1(cfg, c)) && AllIntact(cfg, Pass1(cfg, c))
  {
    hide GoodFlat, Pass1, Pass2, Occupies, ByteFor, AllIntact;
    FlatFacts(cfg, c);
    var c1 := Pass1(cfg, c);
    forall i, j, y | 0 <= i < |c1.prog| && 0 <= j < |c1.prog| && Occupies(cfg, c1, i, y) && Occupies(cfg, c1, j, y)
      ensures ByteFor(cfg, c1, i, y) == ByteFor(cfg, c1, j, y)
    {
      OccupantUnique(cfg, c, i, j, y);
    }
    IntactExact(cfg, c1);
  }

  predicate InSegment(seg: Segment, y: int) { seg.base <= y < seg.base + seg.usedSize }

  /** The image is exactly what the statements occupy, inside their segments, and every address holds the byte of the one
      statement that occupies it. */
  lemma ImageExact(cfg: Config, c: Context, i: nat, y: int)
    requires GoodFlat(cfg, c) && i < |c.prog|
    ensures var c1 := Pass1(cfg, c); var img := Pass2(cfg, c1).image;
            Occupies(cfg, c1, i, y) ==>
              HoldsItsByte(cfg, c1, img, i, y) &&
              c.prog[i].segment in c1.segs && InSegment(c1.segs[c.prog[i].segment], y)
    ensures var c1 := Pass1(cfg, c);
            y in Pass2(cfg, c1).image ==> exists j :: 0 <= j < |c.prog| && Occupies(cfg, c1, j, y)
  {
    hide GoodFlat, Pass1, Pass2, BytesOf, MotionOf, At, Start, Pc, Agreeing, Forward, Clean, Apart;
    FlatFacts(cfg, c);
    NothingLost(cfg, c);
    BytesPlaced(cfg, c, i);
    ImageIsLastWritten(cfg, Pass1(cfg, c), y);
  }

  /** Without origins nothing is left out either: the image is exactly the union of the segments' ranges. */
  lemma SegmentsFilled(cfg: Config, c: Context, y: int)
    requires GoodFlat(cfg, c) && NoOrg(c.prog)
    ensures var c1 := Pass1(cfg, c);
            y in Pass2(cfg, c1).image <==> exists name :: name in c1.segs && InSegment(c1.segs[name], y)
  {
    hide GoodFlat, Pass1, Pass2, Occupies, HoldsItsByte, InSegment;
    FlatFacts(cfg, c);
    var c1 := Pass1(cfg, c);
    ImageIsLastWritten(cfg, c1, y);
    if y in Pass2(cfg, c1).image {
      var i :| 0 <= i < |c1.prog| && Occupies(cfg, c1, i, y);
      ImageExact(cfg, c, i, y);
    }
    if name :| name in c1.segs && InSegment(c1.segs[name], y) {
      var i := Occupant(cfg, c, name, y);
    }
  }

  lemma Occupant(cfg: Config, c: Context, name: string, y: int) returns (i: nat)
    requires GoodFlat(cfg, c) && NoOrg(c.prog) && name in Pass1(cfg, c).segs && InSegment(Pass1(cfg, c).segs[name], y)
    ensures i < |c.prog| && Occupies(cfg, Pass1(cfg, c), i, y)
  {
    hide BytesOf, Clean, GoodFlat, EmitAt, Start, At, FinalSyms, Step, MotionOf, Room;
    FlatFacts(cfg, c);
    SegsStay(cfg, c, |c.prog|);
    i := OffsetCovered(cfg, c, name, |c.prog|, y - Pass1(cfg, c).segs[name].base);
    BytesPlaced(cfg, c, i);
    MotionKinds(cfg, c, i);
    PcSteps(cfg, c, name, i);
  }

  // ---- logical origins

  /** While no statement of the segment starts or ends a logical origin, logical and physical
      addresses keep their distance. */
  lemma {:induction false} LogicalOffsetConstant(cfg: Config, c: Context, name: string, i: nat, j: nat)
    requires Pass1(cfg, c).errors == c.errors && name in c.segs && i <= j < |c.prog|
    requires c.prog[i].segment == name && c.prog[j].segment == name
    requires forall k :: i <= k < j && c.prog[k].segment == name ==> NoLogicalOrigin(c.prog[k])
    ensures var st, st' := Laid(cfg, Start(cfg, c), c.prog, i), Laid(cfg, Start(cfg, c), c.prog, j);
            st'.rorgActive == st.rorgActive && st'.address - st'.emitAddress == st.address - st.emitAddress
  {
    hide Step, Start, Pass1, Laid, At;
    SegsStay(cfg, c, i);
    SegsStay(cfg, c, j);
    LaidAt(cfg, c, i);
    LaidAt(cfg, c, j);
    LaidShape(cfg, At(cfg, Start(cfg, c), c.prog, i), c.prog[i]);
    LaidShape(cfg, At(cfg, Start(cfg, c), c.prog, j), c.prog[j]);
    OffsetKept(cfg, c, name, i, j);
  }

  lemma {:induction false} OffsetKept(cfg: Config, c: Context, name: string, i: nat, j: nat)
    requires Pass1(cfg, c).errors == c.errors && name in c.segs && i <= j <= |c.prog|
    requires forall k :: i <= k < j && c.prog[k].segment == name ==> NoLogicalOrigin(c.prog[k])
    ensures name in At(cfg, Start(cfg, c), c.prog, i).segs && name in At(cfg, Start(cfg, c), c.prog, j).segs
    ensures var g, h := At(cfg, Start(cfg, c), c.prog, i).segs[name], At(cfg, Start(cfg, c), c.prog, j).segs[name];
            h.rorgActive == g.rorgActive && h.base == g.base &&
            LogicalPc(h) - (h.base + h.pc) == LogicalPc(g) - (g.base + g.pc)
    decreases j - i
  {
    hide Step, Start, Pass1, MotionOf, At;
    SegsStay(cfg, c, i);
    SegsStay(cfg, c, j);
    if i < j {
      OffsetKept(cfg, c, name, i, j - 1);
      UnknownSegment(cfg, c, j - 1);
      SegsStay(cfg, c, j - 1);
      MotionMoves(cfg, c, j - 1);
      MotionKinds(cfg, c, j - 1);
    }
  }
}
