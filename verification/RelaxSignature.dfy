/** What the relaxer's stopping test sees: an exclusive or over the segments' bases, capacities and sizes
    (assembler/asm_pass.c). */
module RelaxSignature {
  import opened Support
  import opened Expressions
  import opened Opcodes
  import opened Program
  import opened Layout
  import opened Agreement
  import opened NonInterference
  import opened Relaxation
  import opened RelaxFixpoint

  function Xor(a: int, b: int): int { Bitwise(XorOp, a, b) }

  /** The order of two operands does not matter. */
  lemma {:induction false} XorSwap(r: int, a: int, b: int)
    ensures Xor(Xor(r, a), b) == Xor(Xor(r, b), a)
    decreases Magnitude(r) + Magnitude(a) + Magnitude(b)
  {
    hide Bitwise;
    if SignOnly(r) && SignOnly(a) && SignOnly(b) {
      XorSigns(r, a);
      XorSigns(r, b);
      XorSigns(Xor(r, a), b);
      XorSigns(Xor(r, b), a);
    } else {
      XorSwap(r / 2, a / 2, b / 2);
      XorOf(r, a, b);
      XorOf(r, b, a);
      HalvesDecide(Xor(Xor(r, a), b), Xor(Xor(r, b), a));
    }
  }

  lemma XorOf(r: int, a: int, b: int)
    ensures Xor(Xor(r, a), b) / 2 == Xor(Xor(r / 2, a / 2), b / 2)
    ensures Xor(Xor(r, a), b) % 2 == (r % 2 + a % 2 + b % 2) % 2
  {
    hide Bitwise;
    XorParts(r, a);
    XorParts(Xor(r, a), b);
  }

  lemma HalvesDecide(x: int, y: int)
    requires x / 2 == y / 2 && x % 2 == y % 2
    ensures x == y
  {
  }

  lemma {:induction false} XorTwice(r: int, a: int)
    ensures Xor(Xor(r, a), a) == r
    decreases Magnitude(r) + Magnitude(a)
  {
    hide Bitwise;
    if SignOnly(r) && SignOnly(a) {
      XorSigns(r, a);
      XorSigns(Xor(r, a), a);
    } else {
      XorParts(r, a);
      XorParts(Xor(r, a), a);
      XorTwice(r / 2, a / 2);
    }
  }

  /** Operands move across an equation. */
  lemma XorMove(r1: int, r2: int, p: int, q: int)
    requires Xor(r1, p) == Xor(r2, q)
    ensures Xor(r1, q) == Xor(r2, p)
  {
    hide Xor;
    XorTwice(r1, p);
    XorSwap(Xor(r2, q), p, q);
    XorTwice(r2, q);
  }

  /** One segment's contribution. */
  function Mix(x: int, g: Segment): int { Xor(Xor(Xor(x, g.base), 2 * g.capacity), 4 * g.usedSize) }

  lemma MixSwap(r: int, v: int, g: Segment)
    ensures Mix(Xor(r, v), g) == Xor(Mix(r, g), v)
  {
    hide Xor;
    XorSwap(r, v, g.base);
    XorSwap(Xor(r, g.base), v, 2 * g.capacity);
    XorSwap(Xor(Xor(r, g.base), 2 * g.capacity), v, 4 * g.usedSize);
  }

  lemma SignatureStep(cfg: Config, n: nat, s: map<string, Segment>)
    requires n < |cfg.order| && cfg.order[n] in s
    ensures Signature(cfg, n + 1, s) == Mix(Signature(cfg, n, s), s[cfg.order[n]])
  {
    hide Bitwise;
  }

  /** `t` is `s` with other sizes for the segments in `v`. */
  predicate Varies(v: set<string>, s: map<string, Segment>, t: map<string, Segment>) {
    SegsAlike(s, t) && forall n :: n in s ==> t[n].usedSize >= 0 && (n !in v ==> t[n].usedSize == s[n].usedSize)
  }

  predicate Distinct(order: seq<string>) { forall i, j :: 0 <= i < j < |order| ==> order[i] != order[j] }

  /** The segment list names every segment once. */
  predicate Listed(cfg: Config, s: map<string, Segment>) {
    Distinct(cfg.order) && (forall i :: 0 <= i < |cfg.order| ==> cfg.order[i] in s) &&
    (forall n :: n in s ==> exists i :: 0 <= i < |cfg.order| && cfg.order[i] == n) && forall n :: n in s ==>
      s[n].usedSize >= 0
  }

  lemma {:induction false} SignatureFront(cfg: Config, n: nat, a: string, s: map<string, Segment>,
      t: map<string, Segment>)
    requires n <= |cfg.order| && Varies({a}, s, t) && Listed(cfg, s) && forall i :: 0 <= i < n ==> cfg.order[i] != a
    ensures Signature(cfg, n, s) == Signature(cfg, n, t)
  {
    hide Bitwise;
    if n > 0 {
      SignatureFront(cfg, n - 1, a, s, t);
      SignatureStep(cfg, n - 1, s);
      SignatureStep(cfg, n - 1, t);
    }
  }

  /** The size of one segment enters as one operand next to everything else. */
  lemma {:induction false} SignatureSplit(cfg: Config, n: nat, i: nat, s: map<string, Segment>,
      t: map<string, Segment>) returns (r: int)
    requires i < n <= |cfg.order| && Listed(cfg, s) && Varies({cfg.order[i]}, s, t)
    ensures Signature(cfg, n, s) == Xor(r, 4 * s[cfg.order[i]].usedSize)
    ensures Signature(cfg, n, t) == Xor(r, 4 * t[cfg.order[i]].usedSize)
    decreases n
  {
    hide Xor, Signature;
    var a, g := cfg.order[i], s[cfg.order[n - 1]];
    SignatureStep(cfg, n - 1, s);
    SignatureStep(cfg, n - 1, t);
    if i == n - 1 {
      SignatureFront(cfg, i, a, s, t);
      r := Xor(Xor(Signature(cfg, i, s), g.base), 2 * g.capacity);
    } else {
      var q := SignatureSplit(cfg, n - 1, i, s, t);
      MixSwap(q, 4 * s[a].usedSize, g);
      MixSwap(q, 4 * t[a].usedSize, g);
      MixSame(g, t[cfg.order[n - 1]]);
      r := Mix(q, g);
    }
  }

  lemma MixSame(g: Segment, h: Segment)
    requires g.base == h.base && g.capacity == h.capacity && g.usedSize == h.usedSize
    ensures forall x :: Mix(x, g) == Mix(x, h)
  {
    hide Xor;
  }

  /** As long as only the segments in `v` change their sizes, equal signatures mean equal sizes. */
  ghost predicate Determines(cfg: Config, v: set<string>, s: map<string, Segment>) {
    forall t :: Varies(v, s, t) && Signature(cfg, |cfg.order|, s) == Signature(cfg, |cfg.order|, t) ==> SameSizes(s, t)
  }

  /** One varying size cannot hide. */
  lemma OneShows(cfg: Config, a: string, s: map<string, Segment>, t: map<string, Segment>)
    requires Listed(cfg, s) && a in s && Varies({a}, s, t)
    requires Signature(cfg, |cfg.order|, s) == Signature(cfg, |cfg.order|, t)
    ensures SameSizes(s, t)
  {
    var i :| 0 <= i < |cfg.order| && cfg.order[i] == a;
    var r := SignatureSplit(cfg, |cfg.order|, i, s, t);
    XorCancels(r, 4 * s[a].usedSize, 4 * t[a].usedSize);
  }

  /** Two varying sizes can: they are exchanged, or, when equal, both grow by one. */
  lemma TwoHide(cfg: Config, a: string, b: string, s: map<string, Segment>) returns (t: map<string, Segment>)
    requires Listed(cfg, s) && a in s && b in s && a != b
    ensures Varies({a, b}, s, t) && !SameSizes(s, t)
    ensures Signature(cfg, |cfg.order|, s) == Signature(cfg, |cfg.order|, t)
  {
    hide Xor, Signature;
    var x, y := s[a].usedSize, s[b].usedSize;
    var x', y' := if x == y then x + 1 else y, if x == y then y + 1 else x;
    var u := s[a := s[a].(usedSize := x')];
    t := u[b := u[b].(usedSize := y')];
    var i :| 0 <= i < |cfg.order| && cfg.order[i] == a;
    var j :| 0 <= j < |cfg.order| && cfg.order[j] == b;
    assert Listed(cfg, u);
    var r1 := SignatureSplit(cfg, |cfg.order|, i, s, u);
    var r2 := SignatureSplit(cfg, |cfg.order|, j, u, t);
    XorMove(r1, r2, 4 * x', 4 * y);
    if x != y { SameRest(r1, r2, 4 * y); }
  }

  lemma SameRest(r1: int, r2: int, p: int)
    requires Xor(r1, p) == Xor(r2, p)
    ensures r1 == r2
  {
    hide Xor;
    XorTwice(r1, p);
    XorTwice(r2, p);
  }

  /** The signature determines the sizes exactly when at most one segment's size can differ, whatever the bases, the
      capacities and the sizes are. */
  lemma SignatureExact(cfg: Config, v: set<string>, s: map<string, Segment>)
    requires Listed(cfg, s) && v <= s.Keys
    ensures Determines(cfg, v, s) <==> forall a, b :: a in v && b in v ==> a == b
  {
    hide Xor, Signature;
    if a, b :| a in v && b in v && a != b {
      var t := TwoHide(cfg, a, b, s);
      assert Varies(v, s, t);
    } else {
      forall t | Varies(v, s, t) && Signature(cfg, |cfg.order|, s) == Signature(cfg, |cfg.order|, t)
        ensures SameSizes(s, t)
      {
        if a :| a in v {
          assert Varies({a}, s, t);
          OneShows(cfg, a, s, t);
        }
      }
    }
  }

  /** So two segments of equal size may grow alike unnoticed. */
  lemma GrowAlike(cfg: Config, a: string, b: string, s: map<string, Segment>, t: map<string, Segment>)
    requires Listed(cfg, s) && a in s && b in s && a != b && Varies({a, b}, s, t)
    requires s[a].usedSize == s[b].usedSize && t[a].usedSize == t[b].usedSize
    ensures Signature(cfg, |cfg.order|, s) == Signature(cfg, |cfg.order|, t)
  {
    hide Xor, Signature;
    var u := s[a := t[a]];
    var i :| 0 <= i < |cfg.order| && cfg.order[i] == a;
    var j :| 0 <= j < |cfg.order| && cfg.order[j] == b;
    assert Listed(cfg, u);
    var r1 := SignatureSplit(cfg, |cfg.order|, i, s, u);
    var r2 := SignatureSplit(cfg, |cfg.order|, j, u, t);
    XorMove(r1, r2, 4 * t[a].usedSize, 4 * s[b].usedSize);
  }
}
