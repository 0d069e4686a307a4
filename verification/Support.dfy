/** Small shared vocabulary: options, bytes, powers of two and two's-complement bit operations. */
module Support {

  datatype Option<+T> = None | Some(value: T)

  type byte = x: int | 0 <= x < 256

  /** `value & 0xFF` on a C `long`. */
  function LowByte(v: int): byte { v % 256 }

  /** `(value >> 8) & 0xFF` on a C `long`; the shift is arithmetic. */
  function HighByte(v: int): byte { (v / 256) % 256 }

  /** A byte read as a two's-complement number. */
  function Signed(b: byte): int { if b < 128 then b else b - 256 }

  function Pow2(n: nat): (p: int)
    ensures p >= 1
  {
    if n == 0 then 1 else 2 * Pow2(n - 1)
  }

  lemma {:induction false} Pow2Divides(m: nat, n: nat)
    requires m <= n
    ensures Pow2(n) == Pow2(n - m) * Pow2(m)
  {
    if m == 0 {
    } else {
      Pow2Divides(m - 1, n - 1);
      calc {
        Pow2(n);
        2 * Pow2(n - 1);
        2 * (Pow2(n - m) * Pow2(m - 1));
        Pow2(n - m) * (2 * Pow2(m - 1));
        Pow2(n - m) * Pow2(m);
      }
    }
  }

  lemma {:induction false} Pow2Ordered(m: nat, n: nat)
    requires m < n
    ensures Pow2(m) < Pow2(n)
  {
    Pow2Divides(m, n);
    assert Pow2(n - m) >= 2 by { assert Pow2(n - m) == 2 * Pow2(n - m - 1); }
    assert Pow2(n - m) * Pow2(m) >= 2 * Pow2(m);
  }

  datatype BitOp = AndOp | OrOp | XorOp

  function BitFn(op: BitOp, x: int, y: int): (b: int)
    requires 0 <= x <= 1 && 0 <= y <= 1
    ensures 0 <= b <= 1
  {
    match op
    case AndOp => if x == 1 && y == 1 then 1 else 0
    case OrOp => if x == 1 || y == 1 then 1 else 0
    case XorOp => if x == y then 0 else 1
  }

  function Magnitude(x: int): nat { if x >= 0 then x else -x - 1 }

  /** All bits of `x` equal its sign bit. */
  predicate SignOnly(x: int) { x == 0 || x == -1 }

  /** Bitwise operation on an unbounded two's-complement integer, one bit at a time. */
  function Bitwise(op: BitOp, a: int, b: int): int
    decreases Magnitude(a) + Magnitude(b)
  {
    if SignOnly(a) && SignOnly(b) then -BitFn(op, -a, -b)
    else 2 * Bitwise(op, a / 2, b / 2) + BitFn(op, a % 2, b % 2)
  }

  lemma BitwiseUnfold(op: BitOp, a: int, b: int)
    ensures Bitwise(op, a, b) == 2 * Bitwise(op, a / 2, b / 2) + BitFn(op, a % 2, b % 2)
  {
    if SignOnly(a) && SignOnly(b) {
      assert a / 2 == a && b / 2 == b && a % 2 == -a && b % 2 == -b;
    }
  }

  /** Bit `k` of a two's-complement number. */
  predicate Bit(x: int, k: nat) { (x / Pow2(k)) % 2 == 1 }

  lemma LastBit(x: int)
    ensures Bit(x, 0) <==> x % 2 == 1
  {
    assert x / 1 == x;
  }

  lemma BitHalf(x: int, k: nat)
    requires k > 0
    ensures Bit(x, k) <==> Bit(x / 2, k - 1)
  {
    DivDouble(x, Pow2(k - 1));
  }

  predicate BitsCombine(op: BitOp, x: bool, y: bool) {
    match op
    case AndOp => x && y
    case OrOp => x || y
    case XorOp => x != y
  }

  /** A bitwise operation works on every bit by itself. */
  lemma {:induction false} BitwiseBits(op: BitOp, a: int, b: int, k: nat)
    ensures Bit(Bitwise(op, a, b), k) <==> BitsCombine(op, Bit(a, k), Bit(b, k))
    decreases k
  {
    hide Bit, Bitwise;
    BitwiseHalf(op, a, b);
    if k == 0 {
      LastBit(a);
      LastBit(b);
      LastBit(Bitwise(op, a, b));
    } else {
      BitwiseBits(op, a / 2, b / 2, k - 1);
      BitHalf(a, k);
      BitHalf(b, k);
      BitHalf(Bitwise(op, a, b), k);
    }
  }

  lemma BitwiseHalf(op: BitOp, a: int, b: int)
    ensures Bitwise(op, a, b) / 2 == Bitwise(op, a / 2, b / 2)
    ensures Bitwise(op, a, b) % 2 == 1 <==> BitsCombine(op, a % 2 == 1, b % 2 == 1)
  {
    hide Bitwise;
    BitwiseUnfold(op, a, b);
  }

  /** A number is determined by its bits. */
  lemma {:induction false} BitsDetermine(a: int, b: int)
    requires forall k: nat :: Bit(a, k) <==> Bit(b, k)
    ensures a == b
    decreases Magnitude(a) + Magnitude(b)
  {
    hide Bit;
    assert a % 2 == b % 2 by {
      LastBit(a);
      LastBit(b);
      assert Bit(a, 0) <==> Bit(b, 0);
    }
    if SignOnly(a) && SignOnly(b) {
    } else {
      forall k: nat
        ensures Bit(a / 2, k) <==> Bit(b / 2, k)
      {
        BitHalf(a, k + 1);
        BitHalf(b, k + 1);
        assert Bit(a, k + 1) <==> Bit(b, k + 1);
      }
      BitsDetermine(a / 2, b / 2);
    }
  }

  /** Exclusive or with a fixed operand loses nothing. */
  lemma {:induction false} XorCancels(a: int, b: int, c: int)
    requires Bitwise(XorOp, a, b) == Bitwise(XorOp, a, c)
    ensures b == c
    decreases Magnitude(a) + Magnitude(b) + Magnitude(c)
  {
    hide Bitwise;
    if SignOnly(a) && SignOnly(b) && SignOnly(c) {
      XorSigns(a, b);
      XorSigns(a, c);
    } else {
      XorParts(a, b);
      XorParts(a, c);
      XorCancels(a / 2, b / 2, c / 2);
    }
  }

  lemma XorSigns(a: int, b: int)
    requires SignOnly(a) && SignOnly(b)
    ensures Bitwise(XorOp, a, b) == if a == b then 0 else -1
  {
  }

  lemma XorParts(a: int, b: int)
    ensures Bitwise(XorOp, a, b) / 2 == Bitwise(XorOp, a / 2, b / 2)
    ensures Bitwise(XorOp, a, b) % 2 == if a % 2 == b % 2 then 0 else 1
  {
    hide Bitwise;
    BitwiseUnfold(XorOp, a, b);
  }

  lemma XorZeroIffEqual(a: int, b: int)
    ensures Bitwise(XorOp, a, b) == 0 <==> a == b
  {
    XorSelf(a);
    if Bitwise(XorOp, a, b) == 0 { XorCancels(a, b, a); }
  }

  lemma {:induction false} XorSelf(a: int)
    ensures Bitwise(XorOp, a, a) == 0
    decreases Magnitude(a)
  {
    if !SignOnly(a) { XorSelf(a / 2); }
  }

  lemma {:induction false} XorZeroRight(a: int)
    ensures Bitwise(XorOp, a, 0) == a
    decreases Magnitude(a)
  {
    if !SignOnly(a) { XorZeroRight(a / 2); }
  }

  lemma {:induction false} AndZeroRight(a: int)
    ensures Bitwise(AndOp, a, 0) == 0
    decreases Magnitude(a)
  {
    if !SignOnly(a) { AndZeroRight(a / 2); }
  }

  /** Masking with `2^k - 1` is reduction modulo `2^k`, for negative values too. */
  lemma {:induction false} AndLowMask(a: int, k: nat)
    ensures Bitwise(AndOp, a, Pow2(k) - 1) == a % Pow2(k)
    decreases k
  {
    hide Bitwise;
    if k == 0 {
      AndZeroRight(a);
    } else {
      var p := Pow2(k - 1);
      assert Pow2(k) == 2 * p;
      hide Pow2;
      BitwiseUnfold(AndOp, a, 2 * p - 1);
      OddHalf(p);
      AndLowMask(a / 2, k - 1);
      ModDouble(a, p);
    }
  }

  lemma OddHalf(p: int)
    ensures (2 * p - 1) / 2 == p - 1 && (2 * p - 1) % 2 == 1
  {
  }

  lemma ModDouble(a: int, p: int)
    requires p >= 1
    ensures a % (2 * p) == 2 * ((a / 2) % p) + a % 2
  {
    var q := (a / 2) / p;
    var r := (a / 2) % p;
    assert a == 2 * (q * p + r) + a % 2;
    assert a == q * (2 * p) + (2 * r + a % 2);
    DivModUnique(a, 2 * p, q, 2 * r + a % 2);
  }

  lemma DivModUnique(a: int, d: int, q: int, r: int)
    requires d >= 1 && a == q * d + r && 0 <= r < d
    ensures a / d == q && a % d == r
  {
    var q0, r0 := a / d, a % d;
    assert a == d * q0 + r0;
    var n := q - q0;
    assert n * d == r0 - r by { assert n * d == q * d - q0 * d; }
    if n >= 1 { MulAtLeast(n, d); }
    if n <= -1 { MulAtLeast(-n, d); }
  }

  lemma MulAtLeast(n: int, d: int)
    requires n >= 1 && d >= 1
    ensures n * d >= d
    ensures (-n) * d <= -d
  {
    assert (n - 1) * d >= 0;
  }

  lemma ModAdd(a: int, q: int, d: int)
    requires d >= 1
    ensures (a + q * d) % d == a % d
    ensures (a + q * d) / d == a / d + q
  {
    assert a + q * d == (a / d + q) * d + a % d by {
      assert a == (a / d) * d + a % d;
    }
    DivModUnique(a + q * d, d, a / d + q, a % d);
  }

  /** Numbers with equal remainders differ by a multiple of the divisor. */
  lemma ModEqualDifference(a: int, b: int, d: int) returns (q: int)
    requires d >= 1 && a % d == b % d
    ensures a == b + q * d
  {
    q := a / d - b / d;
    assert a == (a / d) * d + a % d && b == (b / d) * d + b % d;
  }

  /** `x & (x - 1) == 0`, the source's power-of-two test. */
  predicate PowerOfTwoTest(x: int) { Bitwise(AndOp, x, x - 1) == 0 }

  ghost predicate IsPow2(x: int) { exists k: nat :: x == Pow2(k) }

  lemma {:induction false} PowerOfTwoTestExact(x: int)
    requires x >= 1
    ensures PowerOfTwoTest(x) <==> IsPow2(x)
  {
    if x == 1 {
      assert Pow2(0) == 1;
      AndZeroRight(1);
    } else {
      BitwiseUnfold(AndOp, x, x - 1);
      if x % 2 == 1 {
        assert (x - 1) / 2 == x / 2;
        AndSelf(x / 2);
        assert !PowerOfTwoTest(x);
        assert forall k: nat :: k == 0 || Pow2(k) % 2 == 0;
      } else {
        assert (x - 1) / 2 == x / 2 - 1;
        PowerOfTwoTestExact(x / 2);
        if IsPow2(x / 2) {
          var k: nat :| x / 2 == Pow2(k);
          assert x == Pow2(k + 1);
        }
        if IsPow2(x) {
          var k: nat :| x == Pow2(k);
          assert k >= 1;
          assert x / 2 == Pow2(k - 1);
        }
      }
    }
  }

  lemma {:induction false} AndSelf(a: int)
    ensures Bitwise(AndOp, a, a) == a
    decreases Magnitude(a)
  {
    if !SignOnly(a) { AndSelf(a / 2); }
  }

  /** Of two powers of two the smaller divides the larger. */
  lemma PowersDivide(a: int, b: int)
    requires IsPow2(a) && IsPow2(b) && a <= b
    ensures b % a == 0
  {
    var m: nat :| a == Pow2(m);
    var n: nat :| b == Pow2(n);
    if m > n { Pow2Ordered(n, m); }
    Pow2Divides(m, n);
    assert b == 0 + Pow2(n - m) * a;
    ModAdd(0, Pow2(n - m), a);
  }

  /** Equal remainders modulo `m` give equal remainders modulo any divisor of `m`. */
  lemma CongruentModDivisor(a: int, b: int, m: int, d: int)
    requires m >= 1 && d >= 1 && m % d == 0 && a % m == b % m
    ensures a % d == b % d
  {
    var q := ModEqualDifference(a, b, m);
    var c := m / d;
    assert m == c * d;
    assert a == b + (q * c) * d by { assert q * (c * d) == (q * c) * d; }
    ModAdd(b, q * c, d);
  }

  lemma AndDouble(z: int, t: int)
    ensures Bitwise(AndOp, z, 2 * t) == 2 * Bitwise(AndOp, z / 2, t)
  {
    BitwiseUnfold(AndOp, z, 2 * t);
  }

  lemma XorHalf(a: int, b: int)
    ensures Bitwise(XorOp, a, b) / 2 == Bitwise(XorOp, a / 2, b / 2)
  {
    BitwiseUnfold(XorOp, a, b);
  }

  lemma {:induction false} XorShift(a: int, b: int, k: nat)
    ensures Bitwise(XorOp, a, b) / Pow2(k) == Bitwise(XorOp, a / Pow2(k), b / Pow2(k))
    decreases k
  {
    if k == 0 {
      assert a / 1 == a && b / 1 == b;
    } else {
      var p := Pow2(k - 1);
      XorHalf(a, b);
      XorShift(a / 2, b / 2, k - 1);
      DivDouble(a, p);
      DivDouble(b, p);
      DivDouble(Bitwise(XorOp, a, b), p);
    }
  }

  lemma DivDouble(z: int, p: int)
    requires p >= 1
    ensures (z / 2) / p == z / (2 * p)
  {
    var q := (z / 2) / p;
    var r := (z / 2) % p;
    assert z == q * (2 * p) + (2 * r + z % 2);
    DivModUnique(z, 2 * p, q, 2 * r + z % 2);
  }

  lemma {:induction false} HighMask(z: int, t: int, k: nat)
    ensures Bitwise(AndOp, z, Pow2(k) * t) == Pow2(k) * Bitwise(AndOp, z / Pow2(k), t)
    decreases k
  {
    hide Bitwise;
    if k == 0 {
      assert z / 1 == z && Pow2(0) == 1;
    } else {
      var p := Pow2(k - 1);
      assert Pow2(k) == 2 * p;
      hide Pow2;
      TwiceProduct(p, t);
      AndDouble(z, p * t);
      HighMask(z / 2, t, k - 1);
      DivDouble(z, p);
      TwiceProduct(p, Bitwise(AndOp, z / (2 * p), t));
    }
  }

  lemma TwiceProduct(p: int, t: int)
    ensures (2 * p) * t == 2 * (p * t)
  {
  }

  /** The page test of the source, `((x ^ y) & 0xff00) != 0`, compares the two page numbers. */
  lemma PageTestExact(x: int, y: int)
    requires 0 <= x < 0x10000 && 0 <= y < 0x10000
    ensures Bitwise(AndOp, Bitwise(XorOp, x, y), 0xff00) != 0 <==> x / 256 != y / 256
  {
    Pow2Eight();
    hide Bitwise, Pow2;
    var z := Bitwise(XorOp, x, y);
    XorShift(x, y, 8);
    HighMask(z, 255, 8);
    XorByte(x / 256, y / 256, 8);
    MaskByte(z / 256);
    XorZeroIffEqual(x / 256, y / 256);
  }

  lemma Pow2Eight()
    ensures Pow2(8) == 256
  {
    assert Pow2(4) == 16;
  }

  lemma MaskByte(w: int)
    requires 0 <= w < 256
    ensures Bitwise(AndOp, w, 255) == w
  {
    Pow2Eight();
    hide Bitwise, Pow2;
    AndLowMask(w, 8);
  }

  lemma {:induction false} XorByte(a: int, b: int, k: nat)
    requires 0 <= a < Pow2(k) && 0 <= b < Pow2(k)
    ensures 0 <= Bitwise(XorOp, a, b) < Pow2(k)
  {
    if k != 0 && !(SignOnly(a) && SignOnly(b)) {
      XorByte(a / 2, b / 2, k - 1);
    }
  }
}
