/** Packing source segments into the four output segments of an object file (assembler/o26.c). */
module Packing {
  import opened Support
  import opened Expressions
  import opened Opcodes
  import opened Program

  /** One packed source segment: where it lies in its output segment and in the stored image. */
  datatype PackedLayout = PackedLayout(name: string, segId: SegId, imageSegId: SegId, sourceBase: int,
                                       packedBase: nat, imageBase: nat, usedSize: nat)

  /** `lengths` is indexed by output segment. */
  datatype Packed = Packed(lengths: seq<nat>, layouts: seq<PackedLayout>)

  const SEGMENT_LIMIT := 0xFFFF

  function SegIndex(s: SegId): (i: nat)
    ensures i < 6
  {
    match s
    case UndefSeg => 0
    case AbsSeg => 1
    case TextSeg => 2
    case DataSeg => 3
    case BssSeg => 4
    case ZpSeg => 5
  }

  const Unpacked := Packed([0, 0, 0, 0, 0, 0], [])

  /** find_layout_index. */
  function FindLayout(layouts: seq<PackedLayout>, name: string): (i: Option<nat>)
    ensures i.Some? ==> i.value < |layouts| && layouts[i.value].name == name &&
                        forall j :: 0 <= j < i.value ==> layouts[j].name != name
    ensures i.None? ==> forall j :: 0 <= j < |layouts| ==> layouts[j].name != name
  {
    FindLayoutFrom(layouts, name, 0)
  }

  function FindLayoutFrom(layouts: seq<PackedLayout>, name: string, from: nat): (i: Option<nat>)
    requires from <= |layouts|
    ensures i.Some? ==> from <= i.value < |layouts| && layouts[i.value].name == name &&
                        forall j :: from <= j < i.value ==> layouts[j].name != name
    ensures i.None? ==> forall j :: from <= j < |layouts| ==> layouts[j].name != name
    decreases |layouts| - from
  {
    if from == |layouts| then None
    else if layouts[from].name == name then Some(from)
    else FindLayoutFrom(layouts, name, from + 1)
  }

  /** stmt_emits_load_image_bytes. */
  predicate EmitsImage(s: Stmt) {
    s.active &&
    match s.kind
    case Insn(_, _, _, _, _, _) => true
    case Dir(d) => d.name == DByte || d.name == DWord || d.name == DBankTarget || d.name == DText || d.name == DAsciiz
    case _ => false
  }

  /** segment_needs_load_image. */
  predicate NeedsImage(prog: seq<Stmt>, name: string) {
    exists i :: 0 <= i < |prog| && prog[i].segment == name && EmitsImage(prog[i])
  }

  function Used(g: Segment): nat { if g.usedSize < 0 then 0 else g.usedSize }

  /** The output segment's length once `name` is added. */
  function Total(p: Packed, seg: SegId, g: Segment): nat
    requires |p.lengths| == 6
  {
    p.lengths[SegIndex(seg)] + Used(g)
  }

  /** The layout `name` gets next. */
  function NextLayout(p: Packed, g: Segment, name: string, loaded: bool): PackedLayout
    requires |p.lengths| == 6
  {
    var seg := SegmentKind(name);
    var image := if seg == DataSeg || (seg == ZpSeg && loaded) then DataSeg else seg;
    PackedLayout(name, seg, image, g.base, p.lengths[SegIndex(seg)],
                 p.lengths[SegIndex(if seg == ZpSeg && loaded then DataSeg else seg)], Used(g))
  }

  /** register_layout; None: the output segment or the stored data would exceed 64 KiB. */
  function Register(p: Packed, segs: map<string, Segment>, name: string, loaded: bool): (r: Option<Packed>)
    requires |p.lengths| == 6
    ensures r.Some? ==> |r.value.lengths| == 6
  {
    if FindLayout(p.layouts, name).Some? || name !in segs then Some(p)
    else
      var seg := SegmentKind(name);
      var total := Total(p, seg, segs[name]);
      var imageTotal := if seg == ZpSeg && loaded then Total(p, DataSeg, segs[name]) else p.lengths[SegIndex(DataSeg)];
      if total > SEGMENT_LIMIT || imageTotal > SEGMENT_LIMIT then None
      else
        var l := p.lengths[SegIndex(seg) := total];
        Some(Packed(if seg == ZpSeg && loaded then l[SegIndex(DataSeg) := imageTotal] else l,
                    p.layouts + [NextLayout(p, segs[name], name, loaded)]))
  }

  /** The names build_layouts registers, in order: the segments of active statements, then the nonempty rest. */
  function Requests(prog: seq<Stmt>, order: seq<string>, segs: map<string, Segment>): seq<string> {
    StmtNames(prog, |prog|) + RestNames(order, segs, |order|)
  }

  function StmtNames(prog: seq<Stmt>, n: nat): seq<string>
    requires n <= |prog|
  {
    if n == 0 then [] else StmtNames(prog, n - 1) + if prog[n - 1].active then [prog[n - 1].segment] else []
  }

  function RestNames(order: seq<string>, segs: map<string, Segment>, n: nat): seq<string>
    requires n <= |order|
  {
    if n == 0 then []
    else RestNames(order, segs, n - 1) + if order[n - 1] in segs && segs[order[n - 1]].usedSize > 0 then [order[n - 1]] else []
  }

  /** Registering the first `n` names. */
  function RegisterAll(prog: seq<Stmt>, segs: map<string, Segment>, names: seq<string>, n: nat): (r: Option<Packed>)
    requires n <= |names|
    ensures r.Some? ==> |r.value.lengths| == 6
  {
    if n == 0 then Some(Unpacked)
    else match RegisterAll(prog, segs, names, n - 1)
      case None => None
      case Some(p) => Register(p, segs, names[n - 1], NeedsImage(prog, names[n - 1]))
  }

  // ---- what packing keeps

  /** Bytes of output segment `s` that layout `l` takes up: its own, or its stored image in the data segment. */
  function Charge(l: PackedLayout, s: SegId): nat {
    if l.segId == s || (s == DataSeg && l.segId == ZpSeg && l.imageSegId == DataSeg) then l.usedSize else 0
  }

  function Charges(layouts: seq<PackedLayout>, n: nat, s: SegId): nat
    requires n <= |layouts|
  {
    if n == 0 then 0 else Charges(layouts, n - 1, s) + Charge(layouts[n - 1], s)
  }

  predicate WellKinded(l: PackedLayout) {
    l.segId == SegmentKind(l.name) && (l.imageSegId == l.segId || (l.segId == ZpSeg && l.imageSegId == DataSeg))
  }

  /** Every layout starts where the earlier ones end, in its output segment and in the stored data. */
  predicate Tight(p: Packed) {
    |p.lengths| == 6 &&
    (forall i :: 0 <= i < |p.layouts| ==>
      WellKinded(p.layouts[i]) &&
      p.layouts[i].packedBase == Charges(p.layouts, i, p.layouts[i].segId) &&
      p.layouts[i].imageBase == Charges(p.layouts, i, p.layouts[i].imageSegId)) &&
    (forall i, j :: 0 <= i < j < |p.layouts| ==> p.layouts[i].name != p.layouts[j].name) &&
    forall s: SegId :: p.lengths[SegIndex(s)] == Charges(p.layouts, |p.layouts|, s) <= SEGMENT_LIMIT
  }

  lemma {:induction false} ChargesPrefix(a: seq<PackedLayout>, b: seq<PackedLayout>, n: nat, s: SegId)
    requires n <= |a|
    ensures Charges(a + b, n, s) == Charges(a, n, s)
  {
    if n > 0 {
      ChargesPrefix(a, b, n - 1, s);
      assert (a + b)[n - 1] == a[n - 1];
    }
  }

  lemma UnpackedTight()
    ensures Tight(Unpacked)
  {
  }

  /** Registration keeps the packing tight: it appends one layout behind everything charged to its segment. */
  lemma RegisterTight(p: Packed, segs: map<string, Segment>, name: string, loaded: bool)
    requires Tight(p)
    ensures var r := Register(p, segs, name, loaded); r.Some? ==> Tight(r.value) && p.layouts <= r.value.layouts
  {
    hide *;
    RegisterCases(p, segs, name, loaded);
    var r := Register(p, segs, name, loaded);
    if r.Some? && r.value != p {
      var q, l := r.value, NextLayout(p, segs[name], name, loaded);
      forall n: nat, s: SegId | n <= |p.layouts|
        ensures Charges(q.layouts, n, s) == Charges(p.layouts, n, s)
      {
        ChargesPrefix(p.layouts, [l], n, s);
      }
      forall s: SegId
        ensures q.lengths[SegIndex(s)] == Charges(q.layouts, |q.layouts|, s) <= SEGMENT_LIMIT
      {
        ChargeStep(q.layouts, |p.layouts|, s);
        TightLengths(p, s);
        LengthAfter(p, segs, name, loaded, s);
      }
      NextKinded(p, segs[name], name, loaded);
      TightFrom(p, q, l);
    }
  }

  lemma TightLengths(p: Packed, s: SegId)
    requires Tight(p)
    ensures |p.lengths| == 6 && p.lengths[SegIndex(s)] == Charges(p.layouts, |p.layouts|, s) <= SEGMENT_LIMIT
  {
    hide Charges, SegmentKind;
  }

  /** A registration changes nothing, fails, or appends one layout of a new name. */
  lemma RegisterCases(p: Packed, segs: map<string, Segment>, name: string, loaded: bool)
    requires Tight(p)
    ensures |p.lengths| == 6
    ensures var r := Register(p, segs, name, loaded);
            r.None? || r.value == p ||
            (name in segs && FindLayout(p.layouts, name).None? && r.value.layouts == p.layouts + [NextLayout(p, segs[name], name, loaded)])
  {
    hide SegmentKind, Charges, NextLayout, FindLayout;
  }

  lemma LengthAfter(p: Packed, segs: map<string, Segment>, name: string, loaded: bool, s: SegId)
    requires Tight(p) && FindLayout(p.layouts, name).None? && name in segs && Register(p, segs, name, loaded).Some?
    ensures Register(p, segs, name, loaded).value.lengths[SegIndex(s)] ==
              p.lengths[SegIndex(s)] + Charge(NextLayout(p, segs[name], name, loaded), s) <= SEGMENT_LIMIT
  {
    hide Charges, InFamily, SameIgnoringCase;
    var k := SegmentKind(name);
    assert p.lengths[SegIndex(s)] <= SEGMENT_LIMIT;
  }

  lemma NextKinded(p: Packed, g: Segment, name: string, loaded: bool)
    requires |p.lengths| == 6
    ensures var l := NextLayout(p, g, name, loaded);
            WellKinded(l) && l.name == name && l.packedBase == p.lengths[SegIndex(l.segId)] &&
            l.imageBase == p.lengths[SegIndex(l.imageSegId)]
  {
    hide InFamily, SameIgnoringCase;
  }

  lemma TightFrom(p: Packed, q: Packed, l: PackedLayout)
    requires Tight(p) && q.layouts == p.layouts + [l] && |q.lengths| == 6 && WellKinded(l)
    requires l.packedBase == p.lengths[SegIndex(l.segId)] && l.imageBase == p.lengths[SegIndex(l.imageSegId)]
    requires forall j :: 0 <= j < |p.layouts| ==> p.layouts[j].name != l.name
    requires forall n: nat, s: SegId :: n <= |p.layouts| ==> Charges(q.layouts, n, s) == Charges(p.layouts, n, s)
    requires forall s: SegId :: q.lengths[SegIndex(s)] == Charges(q.layouts, |q.layouts|, s) <= SEGMENT_LIMIT
    ensures Tight(q)
  {
    hide Charges, WellKinded;
  }

  /** Whatever is registered, in whatever order, the packing is tight. */
  lemma {:induction false} BuildTight(prog: seq<Stmt>, segs: map<string, Segment>, names: seq<string>, n: nat)
    requires n <= |names|
    ensures RegisterAll(prog, segs, names, n).Some? ==> Tight(RegisterAll(prog, segs, names, n).value)
  {
    hide Tight, Register;
    if n == 0 {
      UnpackedTight();
    } else {
      BuildTight(prog, segs, names, n - 1);
      if RegisterAll(prog, segs, names, n - 1).Some? {
        RegisterTight(RegisterAll(prog, segs, names, n - 1).value, segs, names[n - 1], NeedsImage(prog, names[n - 1]));
      }
    }
  }

  lemma {:induction false} ChargesGrow(layouts: seq<PackedLayout>, i: nat, j: nat, s: SegId)
    requires i <= j <= |layouts|
    ensures Charges(layouts, i, s) <= Charges(layouts, j, s)
    decreases j
  {
    if i < j { ChargesGrow(layouts, i, j - 1, s); }
  }

  /** A layout copies base and size of the segment it is made for. */
  predicate Copies(segs: map<string, Segment>, l: PackedLayout) {
    l.name in segs && l.sourceBase == segs[l.name].base &&
    (segs[l.name].usedSize >= 0 ==> l.usedSize == segs[l.name].usedSize) && (segs[l.name].usedSize < 0 ==> l.usedSize == 0)
  }

  /** Whatever is registered, every layout copies its segment, and every registered name that is a segment has one. */
  lemma {:induction false} BuildComplete(prog: seq<Stmt>, segs: map<string, Segment>, names: seq<string>, n: nat)
    requires n <= |names| && RegisterAll(prog, segs, names, n).Some?
    ensures var p := RegisterAll(prog, segs, names, n).value;
            (forall i :: 0 <= i < |p.layouts| ==> Copies(segs, p.layouts[i])) &&
            forall k :: 0 <= k < n && names[k] in segs ==> exists i :: 0 <= i < |p.layouts| && p.layouts[i].name == names[k]
  {
    hide Register;
    if n > 0 {
      BuildComplete(prog, segs, names, n - 1);
      var p := RegisterAll(prog, segs, names, n - 1).value;
      RegisterCopies(p, segs, names[n - 1], NeedsImage(prog, names[n - 1]));
      var q := RegisterAll(prog, segs, names, n).value;
      forall k | 0 <= k < n && names[k] in segs
        ensures exists i :: 0 <= i < |q.layouts| && q.layouts[i].name == names[k]
      {
        if k < n - 1 {
          var i :| 0 <= i < |p.layouts| && p.layouts[i].name == names[k];
          assert q.layouts[i].name == names[k];
        }
      }
    }
  }

  lemma RegisterCopies(p: Packed, segs: map<string, Segment>, name: string, loaded: bool)
    requires |p.lengths| == 6 && Register(p, segs, name, loaded).Some?
    ensures var q := Register(p, segs, name, loaded).value;
            p.layouts <= q.layouts && (forall i :: |p.layouts| <= i < |q.layouts| ==> Copies(segs, q.layouts[i])) &&
            (name in segs ==> exists i :: 0 <= i < |q.layouts| && q.layouts[i].name == name)
  {
    hide SegmentKind;
    var q := Register(p, segs, name, loaded).value;
    var f := FindLayout(p.layouts, name);
    if f.Some? {
      assert q.layouts[f.value].name == name;
    } else if name in segs {
      assert q.layouts[|p.layouts|].name == name;
    }
  }

  /** A registration is refused exactly if its output segment, or the stored data, would grow beyond 65535 bytes. */
  lemma RefusedExact(p: Packed, segs: map<string, Segment>, name: string, loaded: bool)
    requires |p.lengths| == 6
    ensures Register(p, segs, name, loaded).None? <==>
              name in segs && (forall i :: 0 <= i < |p.layouts| ==> p.layouts[i].name != name) &&
              var used := if segs[name].usedSize < 0 then 0 else segs[name].usedSize;
              p.lengths[SegIndex(SegmentKind(name))] + used > 65535 ||
              p.lengths[SegIndex(DataSeg)] + (if SegmentKind(name) == ZpSeg && loaded then used else 0) > 65535
  {
    hide SegmentKind;
  }

  /** Whether some active statement of the segment writes bytes that have to be loaded. */
  predicate HasBytes(prog: seq<Stmt>, name: string) {
    exists k :: 0 <= k < |prog| && prog[k].segment == name && prog[k].active && EmitsImage(prog[k])
  }

  /** A zero-page segment is stored with the data exactly if it has bytes to load; every other segment is stored
      where it runs. */
  lemma {:induction false} BuildImages(prog: seq<Stmt>, segs: map<string, Segment>, names: seq<string>, n: nat)
    requires n <= |names| && RegisterAll(prog, segs, names, n).Some?
    ensures forall i :: 0 <= i < |RegisterAll(prog, segs, names, n).value.layouts| ==>
              var l := RegisterAll(prog, segs, names, n).value.layouts[i];
              l.imageSegId == if l.segId == ZpSeg && HasBytes(prog, l.name) then DataSeg else l.segId
  {
    hide Register, NeedsImage, HasBytes;
    if n > 0 {
      BuildImages(prog, segs, names, n - 1);
      var p := RegisterAll(prog, segs, names, n - 1).value;
      NeedsExact(prog, names[n - 1]);
      RegisterStored(p, segs, names[n - 1], NeedsImage(prog, names[n - 1]));
    }
  }

  lemma NeedsExact(prog: seq<Stmt>, name: string)
    ensures NeedsImage(prog, name) == HasBytes(prog, name)
  {
    hide EmitsImage;
    forall k | 0 <= k < |prog| && EmitsImage(prog[k])
      ensures prog[k].active
    {
      EmitsActive(prog[k]);
    }
  }

  lemma EmitsActive(s: Stmt)
    requires EmitsImage(s)
    ensures s.active
  {
  }

  lemma RegisterStored(p: Packed, segs: map<string, Segment>, name: string, loaded: bool)
    requires |p.lengths| == 6 && Register(p, segs, name, loaded).Some?
    ensures var q := Register(p, segs, name, loaded).value;
            p.layouts <= q.layouts && forall i :: |p.layouts| <= i < |q.layouts| ==>
              q.layouts[i].name == name &&
              q.layouts[i].imageSegId == if q.layouts[i].segId == ZpSeg && loaded then DataSeg else q.layouts[i].segId
  {
    hide SegmentKind;
  }

  /** What tightness says of one layout. */
  lemma TightAt(p: Packed, i: nat)
    requires Tight(p) && i < |p.layouts|
    ensures var a := p.layouts[i];
            WellKinded(a) && a.packedBase == Charges(p.layouts, i, a.segId) &&
            a.imageBase == Charges(p.layouts, i, a.imageSegId) &&
            Charge(a, a.segId) == a.usedSize && Charge(a, a.imageSegId) == a.usedSize
    ensures |p.lengths| == 6
    ensures forall s: SegId :: p.lengths[SegIndex(s)] == Charges(p.layouts, |p.layouts|, s) <= SEGMENT_LIMIT
  {
    hide Charges, SegmentKind;
  }

  /** Bytes charged in front of layout `j` include those of any earlier layout. */
  lemma ChargedBefore(layouts: seq<PackedLayout>, i: nat, j: nat, s: SegId)
    requires i < j <= |layouts|
    ensures Charges(layouts, i, s) + Charge(layouts[i], s) <= Charges(layouts, j, s)
  {
    hide *;
    ChargeStep(layouts, i, s);
    ChargesGrow(layouts, i + 1, j, s);
  }

  lemma ChargeStep(layouts: seq<PackedLayout>, i: nat, s: SegId)
    requires i < |layouts|
    ensures Charges(layouts, i + 1, s) == Charges(layouts, i, s) + Charge(layouts[i], s)
  {
    hide Charge;
  }

  /** Layout `j` lies behind layout `i` wherever both are charged, and both end within 64 KiB. */
  lemma Disjoint(p: Packed, i: nat, j: nat)
    requires Tight(p) && i < j < |p.layouts|
    ensures |p.lengths| == 6
    ensures var a, b := p.layouts[i], p.layouts[j];
            (a.segId == b.segId ==> a.packedBase + a.usedSize <= b.packedBase) &&
            (a.imageSegId == b.imageSegId ==> a.imageBase + a.usedSize <= b.imageBase) &&
            b.packedBase + b.usedSize <= p.lengths[SegIndex(b.segId)] <= SEGMENT_LIMIT &&
            b.imageBase + b.usedSize <= p.lengths[SegIndex(b.imageSegId)] <= SEGMENT_LIMIT
  {
    hide *;
    TightAt(p, i);
    TightAt(p, j);
    var a, b := p.layouts[i], p.layouts[j];
    ChargedBefore(p.layouts, i, j, a.segId);
    ChargedBefore(p.layouts, i, j, a.imageSegId);
    ChargedBefore(p.layouts, j, |p.layouts|, b.segId);
    ChargedBefore(p.layouts, j, |p.layouts|, b.imageSegId);
  }

  /** Where write_segment_stmt stores byte `o` of a layout: zero-page images go by their image base. */
  function StoredAt(l: PackedLayout, o: nat): nat { (if l.segId == ZpSeg then l.imageBase else l.packedBase) + o }

  /** A layout whose bytes are stored in the text or the data buffer. */
  predicate Stored(l: PackedLayout) { l.imageSegId == TextSeg || l.imageSegId == DataSeg }

  /** Two different bytes of stored layouts never share a place in a buffer. */
  lemma StoredOnce(p: Packed, i: nat, j: nat, o: nat, u: nat)
    requires Tight(p) && i < |p.layouts| && j < |p.layouts| && Stored(p.layouts[i]) && Stored(p.layouts[j])
    requires o < p.layouts[i].usedSize && u < p.layouts[j].usedSize && (i != j || o != u)
    requires p.layouts[i].imageSegId == p.layouts[j].imageSegId
    ensures StoredAt(p.layouts[i], o) != StoredAt(p.layouts[j], u)
    ensures StoredAt(p.layouts[i], o) < p.lengths[SegIndex(p.layouts[i].imageSegId)] <= SEGMENT_LIMIT
  {
    StoredByImage(p, i, o);
    StoredByImage(p, j, u);
    hide Tight, StoredAt, SegmentKind;
    if i < j { Disjoint(p, i, j); } else if j < i { Disjoint(p, j, i); }
  }

  /** For stored layouts the image base is what counts. */
  lemma StoredByImage(p: Packed, i: nat, o: nat)
    requires Tight(p) && i < |p.layouts| && Stored(p.layouts[i])
    ensures StoredAt(p.layouts[i], o) == p.layouts[i].imageBase + o
    ensures p.layouts[i].imageBase + p.layouts[i].usedSize <= p.lengths[SegIndex(p.layouts[i].imageSegId)] <= SEGMENT_LIMIT
  {
    hide SegmentKind;
    assert WellKinded(p.layouts[i]);
    ChargesGrow(p.layouts, i + 1, |p.layouts|, p.layouts[i].imageSegId);
  }

  // ---- the writer's tables

  /** Once a registration fails the rest fails with it. */
  lemma {:induction false} RegisterStuck(prog: seq<Stmt>, segs: map<string, Segment>, names: seq<string>, k: nat,
      n: nat)
    requires k <= n <= |names| && RegisterAll(prog, segs, names, k).None?
    ensures RegisterAll(prog, segs, names, n).None?
    decreases n
  {
    hide Register;
    if k < n { RegisterStuck(prog, segs, names, k, n - 1); }
  }

  lemma {:induction false} StmtNamesGrow(prog: seq<Stmt>, i: nat, n: nat)
    requires i <= n <= |prog|
    ensures StmtNames(prog, i) <= StmtNames(prog, n)
    decreases n
  {
    if i < n { StmtNamesGrow(prog, i, n - 1); }
  }

  lemma {:induction false} RestNamesGrow(order: seq<string>, segs: map<string, Segment>, i: nat, n: nat)
    requires i <= n <= |order|
    ensures RestNames(order, segs, i) <= RestNames(order, segs, n)
    decreases n
  {
    if i < n { RestNamesGrow(order, segs, i, n - 1); }
  }

  lemma RegisterNext(prog: seq<Stmt>, segs: map<string, Segment>, names: seq<string>, k: nat)
    requires k < |names| && RegisterAll(prog, segs, names, k).Some?
    ensures RegisterAll(prog, segs, names, k + 1) ==
              Register(RegisterAll(prog, segs, names, k).value, segs, names[k], NeedsImage(prog, names[k]))
  {
    hide Register, NeedsImage;
  }

  lemma RequestsStart(prog: seq<Stmt>, order: seq<string>, segs: map<string, Segment>)
    ensures StmtNames(prog, 0) == [] && RestNames(order, segs, 0) == []
    ensures |StmtNames(prog, |prog|)| <= |Requests(prog, order, segs)|
    ensures RegisterAll(prog, segs, Requests(prog, order, segs), 0) == Some(Unpacked)
  {
    hide Register;
  }

  /** The request an active statement makes. */
  lemma RequestAt(prog: seq<Stmt>, order: seq<string>, segs: map<string, Segment>, i: nat)
    requires i < |prog|
    ensures var k := |StmtNames(prog, i)|; var names := Requests(prog, order, segs);
            prog[i].active ==> k < |names| && names[k] == prog[i].segment && |StmtNames(prog, i + 1)| == k + 1
    ensures !prog[i].active ==> StmtNames(prog, i + 1) == StmtNames(prog, i)
  {
    StmtNamesGrow(prog, i + 1, |prog|);
    hide RestNames;
    if prog[i].active {
      var k := |StmtNames(prog, i)|;
      assert StmtNames(prog, i + 1)[k] == prog[i].segment;
      assert StmtNames(prog, |prog|)[k] == prog[i].segment;
    }
  }

  lemma RestAt(prog: seq<Stmt>, order: seq<string>, segs: map<string, Segment>, i: nat)
    requires i < |order|
    ensures var k := |StmtNames(prog, |prog|)| + |RestNames(order, segs, i)|; var names := Requests(prog, order, segs);
            order[i] in segs && segs[order[i]].usedSize > 0 ==>
              k < |names| && names[k] == order[i] && |RestNames(order, segs, i + 1)| == |RestNames(order, segs, i)| + 1
    ensures !(order[i] in segs && segs[order[i]].usedSize > 0) ==>
              RestNames(order, segs, i + 1) == RestNames(order, segs, i)
  {
    RestNamesGrow(order, segs, i + 1, |order|);
    hide StmtNames;
    if order[i] in segs && segs[order[i]].usedSize > 0 {
      var k := |RestNames(order, segs, i)|;
      assert RestNames(order, segs, i + 1)[k] == order[i];
      assert RestNames(order, segs, |order|)[k] == order[i];
    }
  }

  class LayoutTable {
    const lengths: array<nat>
    var layouts: seq<PackedLayout>

    ghost function Contents(): Packed
      reads this, lengths
    {
      Packed(lengths[..], layouts)
    }

    ghost predicate Valid()
      reads this, lengths
    {
      lengths.Length == 6 && Tight(Contents())
    }

    constructor ()
      ensures Valid() && fresh(lengths) && Contents() == Unpacked
    {
      lengths := new nat[6](_ => 0);
      layouts := [];
      new;
      UnpackedTight();
      assert lengths[..] == [0, 0, 0, 0, 0, 0];
    }

    method RegisterLayout(segs: map<string, Segment>, name: string, loaded: bool) returns (ok: bool)
      requires Valid()
      modifies this`layouts, lengths
      ensures Valid()
      ensures var r := Register(old(Contents()), segs, name, loaded);
              ok == r.Some? && Contents() == if ok then r.value else old(Contents())
    {
      hide Tight, Charges, FindLayout, SegmentKind;
      RegisterTight(Contents(), segs, name, loaded);
      ghost var before := Contents();
      if FindLayout(layouts, name).Some? || name !in segs { return true; }
      var seg := SegmentKind(name);
      var used := Used(segs[name]);
      var stored := seg == ZpSeg && loaded;
      var total := lengths[SegIndex(seg)] + used;
      var imageTotal := lengths[SegIndex(DataSeg)] + if stored then used else 0;
      if total > SEGMENT_LIMIT || imageTotal > SEGMENT_LIMIT { return false; }
      var image := if seg == DataSeg || stored then DataSeg else seg;
      layouts := layouts + [PackedLayout(name, seg, image, segs[name].base, lengths[SegIndex(seg)],
                                   if stored then lengths[SegIndex(DataSeg)] else lengths[SegIndex(seg)], used)];
      lengths[SegIndex(seg)] := total;
      assert lengths[..] == before.lengths[SegIndex(seg) := total];
      if stored { lengths[SegIndex(DataSeg)] := imageTotal; }
      assert Contents() == Register(before, segs, name, loaded).value;
      ok := true;
    }

    method BuildLayouts(prog: seq<Stmt>, order: seq<string>, segs: map<string, Segment>) returns (ok: bool)
      requires Valid() && Contents() == Unpacked
      modifies this`layouts, lengths
      ensures Valid()
      ensures var names := Requests(prog, order, segs);
              var r := RegisterAll(prog, segs, names, |names|);
              ok == r.Some? && (ok ==> Contents() == r.value)
    {
      hide Tight, Register, RegisterAll, StmtNames, RestNames, NeedsImage;
      ghost var names := Requests(prog, order, segs);
      ghost var k := 0;
      RequestsStart(prog, order, segs);
      for i := 0 to |prog|
        invariant Valid() && k == |StmtNames(prog, i)| <= |names|
        invariant RegisterAll(prog, segs, names, k) == Some(Contents())
      {
        RequestAt(prog, order, segs, i);
        if prog[i].active {
          RegisterNext(prog, segs, names, k);
          ok := RegisterLayout(segs, prog[i].segment, NeedsImage(prog, prog[i].segment));
          if !ok {
            RegisterStuck(prog, segs, names, k + 1, |names|);
            return;
          }
          k := k + 1;
        }
      }
      for i := 0 to |order|
        invariant Valid() && k == |StmtNames(prog, |prog|)| + |RestNames(order, segs, i)| <= |names|
        invariant RegisterAll(prog, segs, names, k) == Some(Contents())
      {
        RestAt(prog, order, segs, i);
        if order[i] in segs && segs[order[i]].usedSize > 0 {
          RegisterNext(prog, segs, names, k);
          ok := RegisterLayout(segs, order[i], NeedsImage(prog, order[i]));
          if !ok {
            RegisterStuck(prog, segs, names, k + 1, |names|);
            return;
          }
          k := k + 1;
        }
      }
      ok := true;
    }
  }
}
