/**
 When the delay loop ends, exactly, in 64 bits and for every base and multiplier. Wrapped around, the delays
 of constant mode run through all multiples of the largest power of two in the base; those of exponential
 mode die out after 64 turns for an even multiplier, and for an odd one run through two residue classes.
 */
module WrappedSlots {
  import opened VisitSchedule
  import opened DelayLoop
  import opened Arithmetic

  const TWO_63: int := 0x8000_0000_0000_0000
  const TWO_64: int := 0x1_0000_0000_0000_0000

  // ----- Powers of two -----

  function Pow2(n: nat): (p: nat)
    ensures p > 0
  {
    if n == 0 then 1 else 2 * Pow2(n - 1)
  }

  lemma {:induction false} Pow2Sum(a: nat, b: nat)
    ensures Pow2(a + b) == Pow2(a) * Pow2(b)
  {
    if a > 0 {
      Pow2Sum(a - 1, b);
      Associate(2, Pow2(a - 1), Pow2(b));
    }
  }

  lemma Pow2Is64()
    ensures Pow2(64) == TWO_64
  {
    assert Pow2(8) == 256;
    Pow2Sum(8, 8);
    Pow2Sum(16, 16);
    Pow2Sum(32, 32);
  }

  /** The largest power of two that divides `n`. */
  function TwoPart(n: int): (g: nat)
    requires n != 0
    ensures g > 0
    decreases if n < 0 then -n else n
  {
    if n % 2 != 0 then 1 else 2 * TwoPart(n / 2)
  }

  lemma {:induction false} TwoPartSplits(n: int) returns (e: nat, odd: int)
    requires n != 0
    ensures TwoPart(n) == Pow2(e) && n == Pow2(e) * odd && odd % 2 == 1
    decreases if n < 0 then -n else n
  {
    if n % 2 != 0 {
      e, odd := 0, n;
    } else {
      e, odd := TwoPartSplits(n / 2);
      assert n == 2 * (n / 2) == 2 * (Pow2(e) * odd) == (2 * Pow2(e)) * odd;
      e := e + 1;
    }
  }

  lemma InverseStep(odd: int, x: int, q: int, p: int)
    requires odd * x == 1 + p * q && odd % 2 == 1 && q % 2 == 1
    ensures odd * (x + p) == 1 + (2 * p) * ((q + odd) / 2)
  {
    var h := (q + odd) / 2;
    assert q + odd == 2 * h;
    Distribute(odd, x, p);
    Distribute(p, q, odd);
    Associate(p, 2, h);
  }

  /** An odd number has an inverse modulo every power of two. */
  lemma {:induction false} OddInverse(odd: int, n: nat) returns (x: nat, q: int)
    requires odd % 2 == 1
    ensures odd * x == 1 + Pow2(n) * q
  {
    if n == 0 {
      x, q := 0, -1;
    } else {
      var p := Pow2(n - 1);
      x, q := OddInverse(odd, n - 1);
      if q % 2 == 0 {
        Associate(p, 2, q / 2);
        q := q / 2;
      } else {
        InverseStep(odd, x, q, p);
        x, q := x + p, (q + odd) / 2;
      }
    }
  }

  // ----- Wrapping around -----

  lemma WrapShift(a: int, z: int)
    ensures Wrap64(a + TWO_64 * z) == Wrap64(a)
  {
  }

  lemma Unwrap(a: int) returns (z: int)
    ensures a == Wrap64(a) + TWO_64 * z
  {
    z := (a - MIN_INT64) / TWO_64;
  }

  lemma WrapSum(d: int, b: int)
    ensures Wrap64(Wrap64(d) + b) == Wrap64(d + b)
  {
    var z := Unwrap(d);
    WrapShift(Wrap64(d) + b, z);
  }

  lemma WrapProduct(d: int, m: int)
    ensures Wrap64(Wrap64(d) * m) == Wrap64(d * m)
  {
    var w := Wrap64(d);
    var z := Unwrap(d);
    Distribute(m, w, TWO_64 * z);
    Associate(TWO_64, z, m);
    assert d * m == w * m + TWO_64 * (z * m);
    WrapShift(w * m, z * m);
  }

  /** Wrapping on every turn is the same as wrapping once at the end. */
  lemma {:induction false} WrapsIdeal(cfg: DelayConfig, k: nat)
    ensures WrappedDelay(cfg, k) == Wrap64(Delay(cfg, k))
  {
    if k > 0 {
      WrapsIdeal(cfg, k - 1);
      WrapSum(Delay(cfg, k - 1), cfg.base);
      WrapProduct(Delay(cfg, k - 1), cfg.multiplier);
    }
  }

  /** The largest 64-bit number that differs from `b` by a multiple of `stride`. */
  function Top(b: int, stride: nat): int
    requires stride > 0
  {
    MAX_INT64 - (MAX_INT64 - b) % stride
  }

  lemma ModBelow(y: int, stride: nat, z: int)
    requires stride > 0 && y - stride * z >= 0
    ensures y - stride * z >= y % stride
  {
    var q, r := y / stride, y % stride;
    assert y == stride * q + r;
    Distribute(stride, q, -z);
    assert y - stride * z == stride * (q - z) + r;
    if q < z {
      MulAtLeast(stride, z - q);
      Distribute(stride, q - z, z - q);
    } else if q > z {
      MulAtLeast(stride, q - z);
    }
  }

  lemma TopIsLargest(d: int, b: int, stride: nat, z: int)
    requires stride > 0 && Int64(d) && d == b + stride * z
    ensures d <= Top(b, stride)
  {
    ModBelow(MAX_INT64 - b, stride, z);
  }

  lemma TopIsReached(b: int, stride: nat) returns (z: int)
    requires 0 < stride <= TWO_64
    ensures Top(b, stride) == b + stride * z && Int64(Top(b, stride))
  {
    z := (MAX_INT64 - b) / stride;
    assert MAX_INT64 - b == stride * z + (MAX_INT64 - b) % stride;
  }

  /** The stride, a power of two up to 2^64, divides 2^64. */
  lemma StrideDivides(e: nat) returns (f: nat)
    requires e <= 64
    ensures Pow2(e) * f == TWO_64 && Pow2(e) <= TWO_64
  {
    f := Pow2(64 - e);
    Pow2Sum(e, 64 - e);
    Pow2Is64();
    MulAtLeast(Pow2(e), f);
  }

  lemma Factor(g: int, y: int, f: int, z: int)
    ensures g * y - (g * f) * z == g * (y - f * z)
  {
    Associate(g, f, z);
    Distribute(g, y, -(f * z));
  }

  /** A number that is `b` plus a multiple of a stride stays so when it is wrapped around. */
  lemma WrapKeepsClass(d: int, b: int, e: nat, y: int)
    requires e <= 64 && d == b + Pow2(e) * y
    ensures Wrap64(d) <= Top(b, Pow2(e))
  {
    var f := StrideDivides(e);
    var z := Unwrap(d);
    Factor(Pow2(e), y, f, z);
    TopIsLargest(Wrap64(d), b, Pow2(e), y - f * z);
  }

  // ----- Constant mode -----

  lemma ConstantBelow(cfg: DelayConfig, k: nat, e: nat, odd: int)
    requires cfg.mode.Constant? && e <= 64 && cfg.base == Pow2(e) * odd
    ensures WrappedDelay(cfg, k) <= Top(0, Pow2(e))
  {
    WrapsIdeal(cfg, k);
    DelayClosedForm(cfg, k);
    var n := k + 1;
    Associate(Pow2(e), odd, n);
    Commute(n, cfg.base);
    WrapKeepsClass(Delay(cfg, k), 0, e, odd * n);
  }

  /** Multiplying an odd multiple of a stride by the right number gives any multiple of the stride, modulo 2^64. */
  lemma MultipleReached(e: nat, odd: int, t: int) returns (x: int, q: int)
    requires odd % 2 == 1
    ensures (Pow2(e) * odd) * (x * t) == Pow2(e) * t + TWO_64 * q
  {
    var r;
    x, r := OddInverse(odd, 64);
    Pow2Is64();
    var g := Pow2(e);
    q := g * (t * r);
    Associate(odd, x, t);
    Distribute(t, 1, TWO_64 * r);
    Associate(t, TWO_64, r);
    assert odd * (x * t) == t + TWO_64 * (t * r);
    Associate(g, odd, x * t);
    Distribute(g, t, TWO_64 * (t * r));
    Associate(g, TWO_64, t * r);
    Associate(TWO_64, g, t * r);
  }

  lemma ConstantReaches(cfg: DelayConfig, e: nat, odd: int) returns (k: nat)
    requires cfg.mode.Constant? && e <= 64 && cfg.base == Pow2(e) * odd && odd % 2 == 1
    ensures WrappedDelay(cfg, k) == Top(0, Pow2(e))
  {
    var f := StrideDivides(e);
    var t := TopIsReached(0, Pow2(e));
    var x, q := MultipleReached(e, odd, t);
    // a number of turns in the same class that is large enough to be one
    var n := x * t;
    var up := if n < 0 then -n + 1 else 1;
    k := n + TWO_64 * up - 1;
    SameClass(cfg.base, n, up, q);
    WrapsIdeal(cfg, k);
    DelayClosedForm(cfg, k);
    WrapShift(Top(0, Pow2(e)), q + up * cfg.base);
  }

  lemma SameClass(base: int, n: int, up: int, q: int)
    ensures (n + TWO_64 * up) * base + TWO_64 * q == base * n + TWO_64 * (q + up * base)
  {
    Distribute(base, n, TWO_64 * up);
    Associate(TWO_64, up, base);
    Distribute(TWO_64, q, up * base);
  }

  // ----- Exponential mode, even multiplier -----

  lemma {:induction false} EvenGrows(cfg: DelayConfig, k: nat) returns (r: int)
    requires cfg.mode.Exponential? && cfg.multiplier % 2 == 0
    ensures Delay(cfg, k) == Pow2(k) * r
  {
    if k == 0 {
      r := cfg.base;
    } else {
      var h := cfg.multiplier / 2;
      r := EvenGrows(cfg, k - 1);
      assert (Pow2(k - 1) * r) * (2 * h) == (2 * Pow2(k - 1)) * (r * h) by {
        var p := Pow2(k - 1);
        Associate(p * r, 2, h);
        Associate(p, r, 2);
        Associate(p, 2, r);
        Associate(p * 2, r, h);
      }
      r := r * h;
    }
  }

  lemma EvenDiesOut(cfg: DelayConfig, k: nat)
    requires cfg.mode.Exponential? && cfg.multiplier % 2 == 0 && k >= 64
    ensures WrappedDelay(cfg, k) == 0
  {
    var r := EvenGrows(cfg, k);
    Pow2Sum(64, k - 64);
    Pow2Is64();
    Associate(TWO_64, Pow2(k - 64), r);
    WrapsIdeal(cfg, k);
    WrapShift(0, Pow2(k - 64) * r);
  }

  // ----- Exponential mode, odd multiplier -----

  lemma {:induction false} PowSum(b: int, i: nat, j: nat)
    ensures Pow(b, i + j) == Pow(b, i) * Pow(b, j)
  {
    if i > 0 {
      PowSum(b, i - 1, j);
      Associate(b, Pow(b, i - 1), Pow(b, j));
    }
  }

  lemma {:induction false} PowOdd(b: int, n: nat)
    requires b % 2 == 1
    ensures Pow(b, n) % 2 == 1
  {
    if n > 0 {
      PowOdd(b, n - 1);
      OddTimesOdd(b, Pow(b, n - 1));
    }
  }

  lemma OddTimesOdd(a: int, b: int)
    requires a % 2 == 1 && b % 2 == 1
    ensures (a * b) % 2 == 1
  {
    var h := a / 2;
    assert a * b == 2 * (h * b) + b;
  }

  lemma {:induction false} PowSquares(m: int, j: nat)
    ensures Pow(m, 2 * j) == Pow(m * m, j)
  {
    if j > 0 {
      PowSquares(m, j - 1);
      assert Pow(m, 2 * j) == m * (m * Pow(m, 2 * j - 2));
      Associate(m, m, Pow(m, 2 * j - 2));
    }
  }

  lemma SquareStep(p: int, f: int, h: int)
    requires p == 4 * h && f % 2 == 1
    ensures (1 + p * f) * (1 + p * f) == 1 + (2 * p) * (f + 2 * (h * f * f))
    ensures (f + 2 * (h * f * f)) % 2 == 1
  {
    var a := p * f;
    Distribute(1 + a, 1, a);
    Distribute(a, 1, a);
    assert a * a == (2 * p) * (2 * (h * f * f)) by {
      Associate(a, p, f);
      Associate(p, f, p);
      Associate(p, p, f);
      Associate(p * p, f, f);
      Associate(p, 4, h);
      Associate(p * 4, h, f * f);
      Associate(h, f, f);
      Associate(2 * p, 2, h * (f * f));
      Associate(2, p, 2);
    }
    Distribute(2 * p, f, 2 * (h * f * f));
    Associate(2, p, f);
  }

  /** Squaring again and again moves the lowest bit above 1 up by one place each time. */
  lemma {:induction false} SquaredPowers(m: int, w: nat, c: int, n: nat) returns (f: int)
    requires w >= 2 && m == 1 + Pow2(w) * c && c % 2 == 1
    ensures Pow(m, Pow2(n)) == 1 + Pow2(w + n) * f && f % 2 == 1
  {
    if n == 0 {
      assert Pow(m, 1) == m * Pow(m, 0);
      f := c;
    } else {
      f := SquaredPowers(m, w, c, n - 1);
      var p, h := Pow2(w + n - 1), Pow2(w + n - 3);
      assert Pow2(w + n - 1) == 2 * Pow2(w + n - 2) && Pow2(w + n - 2) == 2 * Pow2(w + n - 3);
      PowSum(m, Pow2(n - 1), Pow2(n - 1));
      SquareStep(p, f, h);
      f := f + 2 * (h * f * f);
    }
  }

  lemma CoverStep(a: int, y: int, p: int, f: int, e: int)
    requires a == 1 + y + p * e && (f * a + e) % 2 == 0
    ensures a * (1 + p * f) == 1 + y + (2 * p) * ((f * a + e) / 2)
  {
    var h := (f * a + e) / 2;
    assert f * a + e == 2 * h;
    Distribute(a, 1, p * f);
    Associate(p, f, a);
    assert a * (p * f) == p * (f * a);
    Distribute(p, f * a, e);
    Associate(p, 2, h);
  }

  lemma OneMoreThanEven(a: int, c: int)
    ensures (1 + (2 * a) * c) % 2 == 1
  {
    Associate(2, a, c);
  }

  lemma OddPlusOdd(a: int, b: int)
    requires a % 2 == 1 && b % 2 == 1
    ensures (a + b) % 2 == 0
  {
  }

  lemma CoverNext(m: int, w: nat, c: int, n: nat, y: int, j: nat, e: int) returns (j': nat, e': int)
    requires w >= 2 && m == 1 + Pow2(w) * c && c % 2 == 1 && e % 2 == 1
    requires Pow(m, j) == 1 + Pow2(w) * y + Pow2(w + n) * e
    ensures Pow(m, j') == 1 + Pow2(w) * y + (2 * Pow2(w + n)) * e'
  {
    var f := SquaredPowers(m, w, c, n);
    var a := Pow(m, j);
    OneMoreThanEven(Pow2(w - 1), c);
    PowOdd(m, j);
    OddTimesOdd(f, a);
    OddPlusOdd(f * a, e);
    PowSum(m, j, Pow2(n));
    CoverStep(a, Pow2(w) * y, Pow2(w + n), f, e);
    j', e' := j + Pow2(n), (f * a + e) / 2;
  }

  /** The powers of a number that is 1 below bit `w` reach every such number, modulo any power of two. */
  lemma {:induction false} PowersCover(m: int, w: nat, c: int, n: nat, y: int) returns (j: nat, e: int)
    requires w >= 2 && m == 1 + Pow2(w) * c && c % 2 == 1
    ensures Pow(m, j) == 1 + Pow2(w) * y + Pow2(w + n) * e
  {
    if n == 0 {
      j, e := 0, -y;
      Distribute(Pow2(w), y, -y);
    } else {
      j, e := PowersCover(m, w, c, n - 1, y);
      if e % 2 == 0 {
        Associate(Pow2(w + n - 1), 2, e / 2);
        e := e / 2;
      } else {
        j, e := CoverNext(m, w, c, n - 1, y, j, e);
      }
    }
  }

  /** `b` times a power of the squared multiplier reaches every number of its class, modulo 2^64. */
  lemma ClassReached(e: nat, odd: int, square: int, w: nat, c: int, t: int) returns (j: nat, q: int)
    requires odd % 2 == 1 && 2 <= w && e + w <= 64
    requires square == 1 + Pow2(w) * c && c % 2 == 1
    ensures (Pow2(e) * odd) * Pow(square, j) == Pow2(e) * odd + Pow2(e + w) * t + TWO_64 * q
  {
    var x, r := OddInverse(odd, 64);
    var n := 64 - w;
    var u;
    j, u := PowersCover(square, w, c, n, x * t);
    Pow2Is64();
    Pow2Sum(e, w);
    q := Pow2(e) * (Pow2(w) * (t * r) + odd * u);
    ClassArithmetic(Pow2(e), Pow2(w), odd, x, r, t, u);
  }

  lemma ClassArithmetic(g: int, p: int, odd: int, x: int, r: int, t: int, u: int)
    requires odd * x == 1 + TWO_64 * r
    ensures (g * odd) * (1 + p * (x * t) + TWO_64 * u)
         == g * odd + (g * p) * t + TWO_64 * (g * (p * (t * r) + odd * u))
  {
    assert odd * (p * (x * t)) == p * t + TWO_64 * (p * (t * r)) by {
      assert odd * (p * (x * t)) == p * (t * (odd * x)) by {
        Associate(odd, p, x * t);
        Associate(p, odd, x * t);
        Associate(odd, x, t);
      }
      Associate(t, TWO_64, r);
      Distribute(t, 1, TWO_64 * r);
      Distribute(p, t, TWO_64 * (t * r));
      Associate(p, TWO_64, t * r);
      Associate(TWO_64, p, t * r);
    }
    Distribute(odd, 1 + p * (x * t), TWO_64 * u);
    Distribute(odd, 1, p * (x * t));
    Associate(odd, TWO_64, u);
    Associate(TWO_64, odd, u);
    var inner := p * (t * r) + odd * u;
    Distribute(TWO_64, p * (t * r), odd * u);
    assert odd * (1 + p * (x * t) + TWO_64 * u) == odd + p * t + TWO_64 * inner;
    Associate(g, odd, 1 + p * (x * t) + TWO_64 * u);
    Distribute(g, odd + p * t, TWO_64 * inner);
    Distribute(g, odd, p * t);
    Associate(g, p, t);
    Associate(g, TWO_64, inner);
    Associate(TWO_64, g, inner);
  }

  /** The powers of the squared multiplier keep a number in its class. */
  lemma {:induction false} ClassKept(b: int, square: int, stride: int, z: int, j: nat) returns (y: int)
    requires b * (square - 1) == stride * z
    ensures b * Pow(square, j) == b + stride * y
  {
    if j == 0 {
      y := 0;
    } else {
      y := ClassKept(b, square, stride, z, j - 1);
      var p := Pow(square, j - 1);
      assert b * (square * p) == b * p + (b * (square - 1)) * p by {
        Associate(b, square, p);
        Distribute(b, square - 1, 1);
        Distribute(p, b * (square - 1), b);
      }
      Associate(stride, z, p);
      Distribute(stride, y, z * p);
      y := y + z * p;
    }
  }

  /** The distance between neighbours among the delays of exponential mode with an odd multiplier. */
  function Stride(base: int, multiplier: int): (g: nat)
    ensures 0 < g <= TWO_64
  {
    var square := multiplier * multiplier;
    if base == 0 || square <= 1 then TWO_64
    else
      var g := TwoPart(base) * TwoPart(square - 1);
      if 0 < g < TWO_64 then g else TWO_64
  }

  lemma Pow2Order(n: nat)
    ensures Pow2(n) < TWO_64 <==> n < 64
  {
    Pow2Is64();
    if n < 64 {
      Pow2Sum(n, 64 - n);
      Associate(Pow2(n), 2, Pow2(63 - n));
      MulAtLeast(Pow2(n) * 2, Pow2(63 - n));
    } else {
      Pow2Sum(64, n - 64);
      MulAtLeast(TWO_64, Pow2(n - 64));
    }
  }

  /** The square of an odd number other than 1 and -1 is 1 plus an odd multiple of a power of two of at least 4. */
  lemma OddSquare(m: int) returns (w: nat, c: int)
    requires m % 2 == 1 && m * m > 1
    ensures TwoPart(m * m - 1) == Pow2(w) && m * m == 1 + Pow2(w) * c && c % 2 == 1 && w >= 2
  {
    w, c := TwoPartSplits(m * m - 1);
    var h := m / 2;
    SquareOfOdd(h);
    AtLeastFour(w, c, h * h + h);
  }

  lemma SquareOfOdd(h: int)
    ensures (2 * h + 1) * (2 * h + 1) == 4 * (h * h + h) + 1
  {
    Distribute(2 * h + 1, 2 * h, 1);
    Distribute(2 * h, 2 * h, 1);
    Associate(2 * h, 2, h);
  }

  lemma AtLeastFour(w: nat, c: int, q: int)
    requires Pow2(w) * c == 4 * q && c % 2 == 1
    ensures w >= 2
  {
    assert Pow2(0) == 1 && Pow2(1) == 2;
  }

  lemma PartsMultiply(a: nat, o: int, b: nat, p: int)
    ensures (Pow2(a) * o) * (Pow2(b) * p) == Pow2(a + b) * (o * p)
  {
    Pow2Sum(a, b);
    Associate(Pow2(a) * o, Pow2(b), p);
    Associate(Pow2(a), o, Pow2(b));
    Associate(Pow2(a), Pow2(b), o);
    Associate(Pow2(a) * Pow2(b), o, p);
  }

  lemma StrideSplits(base: int, m: int) returns (e: nat, z: int)
    requires m % 2 == 1
    ensures e <= 64 && Stride(base, m) == Pow2(e)
    ensures base * (m * m - 1) == Pow2(e) * z
  {
    Pow2Is64();
    if base == 0 || m * m <= 1 {
      e, z := 64, 0;
      SquareNotBelowOne(m);
    } else {
      var a, o := TwoPartSplits(base);
      var b, p := OddSquare(m);
      PartsMultiply(a, o, b, p);
      Pow2Sum(a, b);
      Pow2Order(a + b);
      if a + b < 64 {
        e, z := a + b, o * p;
      } else {
        Pow2Sum(64, a + b - 64);
        Associate(TWO_64, Pow2(a + b - 64), o * p);
        e, z := 64, Pow2(a + b - 64) * (o * p);
      }
    }
  }

  lemma SquareNotBelowOne(m: int)
    requires m % 2 == 1
    ensures m * m >= 1
  {
    if m > 0 {
      MulAtLeast(m, m);
    } else {
      MulAtLeast(-m, -m);
    }
  }

  /** The ideal delays of exponential mode, turn by turn: powers of the squared multiplier. */
  lemma DelayByParity(cfg: DelayConfig, j: nat)
    requires cfg.mode.Exponential?
    ensures Delay(cfg, 2 * j) == cfg.base * Pow(cfg.multiplier * cfg.multiplier, j)
    ensures Delay(cfg, 2 * j + 1) == (cfg.base * cfg.multiplier) * Pow(cfg.multiplier * cfg.multiplier, j)
  {
    var b, m := cfg.base, cfg.multiplier;
    var p := Pow(m * m, j);
    DelayClosedForm(cfg, 2 * j);
    PowSquares(m, j);
    assert Delay(cfg, 2 * j + 1) == (b * p) * m;
    Associate(b, p, m);
    Associate(b, m, p);
  }

  lemma EvenTurnBelow(cfg: DelayConfig, j: nat)
    requires cfg.mode.Exponential? && cfg.multiplier % 2 == 1
    ensures WrappedDelay(cfg, 2 * j) <= Top(cfg.base, Stride(cfg.base, cfg.multiplier))
  {
    var b, m := cfg.base, cfg.multiplier;
    var e, z := StrideSplits(b, m);
    WrapsIdeal(cfg, 2 * j);
    DelayByParity(cfg, j);
    var y := ClassKept(b, m * m, Pow2(e), z, j);
    WrapKeepsClass(Delay(cfg, 2 * j), b, e, y);
  }

  lemma ScaledClass(b: int, m: int, d: int, stride: int, z: int)
    requires b * d == stride * z
    ensures (b * m) * d == stride * (z * m)
  {
    Associate(b, m, d);
    Associate(b, d, m);
    Associate(stride, z, m);
  }

  lemma OddTurnBelow(cfg: DelayConfig, j: nat)
    requires cfg.mode.Exponential? && cfg.multiplier % 2 == 1
    ensures WrappedDelay(cfg, 2 * j + 1) <= Top(cfg.base * cfg.multiplier, Stride(cfg.base, cfg.multiplier))
  {
    var b, m := cfg.base, cfg.multiplier;
    var e, z := StrideSplits(b, m);
    WrapsIdeal(cfg, 2 * j + 1);
    DelayByParity(cfg, j);
    ScaledClass(b, m, m * m - 1, Pow2(e), z);
    var y := ClassKept(b * m, m * m, Pow2(e), z * m, j);
    WrapKeepsClass(Delay(cfg, 2 * j + 1), b * m, e, y);
  }

  lemma OddBelow(cfg: DelayConfig, k: nat)
    requires cfg.mode.Exponential? && cfg.multiplier % 2 == 1
    ensures var g := Stride(cfg.base, cfg.multiplier);
            WrappedDelay(cfg, k) <= Top(cfg.base, g) || WrappedDelay(cfg, k) <= Top(cfg.base * cfg.multiplier, g)
  {
    if k % 2 == 0 {
      EvenTurnBelow(cfg, k / 2);
    } else {
      OddTurnBelow(cfg, k / 2);
    }
  }

  lemma OddPart(base: int, m: int, b: int) returns (a: nat, odd: int)
    requires base != 0 && m % 2 == 1 && (b == base || b == base * m)
    ensures TwoPart(base) == Pow2(a) && b == Pow2(a) * odd && odd % 2 == 1
  {
    a, odd := TwoPartSplits(base);
    if b != base {
      OddTimesOdd(odd, m);
      Associate(Pow2(a), odd, m);
      odd := odd * m;
    }
  }

  /** The class of `b`, which is the base or the base times the multiplier, is reached up to its top. */
  lemma OddClassTop(base: int, m: int, b: int) returns (j: nat)
    requires m % 2 == 1 && (b == base || b == base * m)
    ensures Wrap64(b * Pow(m * m, j)) == Top(b, Stride(base, m))
  {
    var g := Stride(base, m);
    var t := TopIsReached(b, g);
    if g == TWO_64 {
      j := 0;
      WrapShift(b, t);
    } else {
      var a, odd := OddPart(base, m, b);
      var w, c := OddSquare(m);
      Pow2Sum(a, w);
      Pow2Order(a + w);
      var q;
      j, q := ClassReached(a, odd, m * m, w, c, t);
      WrapShift(Top(b, g), q);
    }
  }

  lemma OddReaches(cfg: DelayConfig) returns (even: nat, odd: nat)
    requires cfg.mode.Exponential? && cfg.multiplier % 2 == 1
    ensures WrappedDelay(cfg, even) == Top(cfg.base, Stride(cfg.base, cfg.multiplier))
    ensures WrappedDelay(cfg, odd) == Top(cfg.base * cfg.multiplier, Stride(cfg.base, cfg.multiplier))
  {
    var b, m := cfg.base, cfg.multiplier;
    var i := OddClassTop(b, m, b);
    var j := OddClassTop(b, m, b * m);
    DelayByParity(cfg, i);
    DelayByParity(cfg, j);
    even, odd := 2 * i, 2 * j + 1;
    WrapsIdeal(cfg, even);
    WrapsIdeal(cfg, odd);
  }

  // ----- The exact condition -----

  /**
   What a caller can check before the loop: how far the clock may be past the timestamp for the loop to end.
   The last argument is the latest time the clock may show.
   */
  predicate Ends(cfg: DelayConfig, timestamp: int, horizon: int) {
    var age := horizon - timestamp;
    match cfg.mode
    case Constant => age <= if cfg.base == 0 then 0 else TWO_63 - TwoPart(cfg.base)
    case Exponential =>
      if cfg.multiplier % 2 == 0 then exists k: nat | k <= 64 :: WrappedSlot(cfg, timestamp, k) >= horizon
      else
        var g := Stride(cfg.base, cfg.multiplier);
        age <= Top(cfg.base, g) || age <= Top(cfg.base * cfg.multiplier, g)
  }

  /** For every configuration the loop comes to an end exactly under that condition. */
  lemma ReachesExactly(cfg: DelayConfig, timestamp: int, horizon: int)
    requires Int64(cfg.base)
    ensures Reaches(cfg, timestamp, horizon) <==> Ends(cfg, timestamp, horizon)
  {
    if cfg.mode.Constant? {
      ConstantExactly(cfg, timestamp, horizon);
    } else if cfg.multiplier % 2 == 0 {
      EvenExactly(cfg, timestamp, horizon);
    } else {
      var even, odd := OddReaches(cfg);
      forall k: nat ensures WrappedSlot(cfg, timestamp, k) >= horizon ==> Ends(cfg, timestamp, horizon) {
        OddBelow(cfg, k);
      }
      assert WrappedSlot(cfg, timestamp, even) >= horizon || WrappedSlot(cfg, timestamp, odd) >= horizon
        <== Ends(cfg, timestamp, horizon);
    }
  }

  lemma ConstantExactly(cfg: DelayConfig, timestamp: int, horizon: int)
    requires Int64(cfg.base) && cfg.mode.Constant?
    ensures Reaches(cfg, timestamp, horizon) <==> Ends(cfg, timestamp, horizon)
  {
    if cfg.base == 0 {
      forall k: nat ensures WrappedSlot(cfg, timestamp, k) == timestamp {
        WrapsIdeal(cfg, k);
        DelayClosedForm(cfg, k);
      }
      assert WrappedSlot(cfg, timestamp, 0) == timestamp;
    } else {
      var e, odd := TwoPartSplits(cfg.base);
      SmallExponent(cfg.base, e, odd);
      TopOfMultiples(e);
      var k := ConstantReaches(cfg, e, odd);
      assert WrappedSlot(cfg, timestamp, k) == timestamp + Top(0, Pow2(e));
      forall k: nat ensures WrappedSlot(cfg, timestamp, k) <= timestamp + Top(0, Pow2(e)) {
        ConstantBelow(cfg, k, e, odd);
      }
    }
  }

  lemma TopOfMultiples(e: nat)
    requires e < 64
    ensures Top(0, Pow2(e)) == TWO_63 - Pow2(e)
  {
    var g, f := Pow2(e), Pow2(63 - e);
    Pow2Is64();
    Pow2Sum(e, 63 - e);
    assert Pow2(64) == 2 * Pow2(63);
    Distribute(g, f, -1);
    DivModUnique(MAX_INT64, g, f - 1, g - 1);
  }

  lemma SmallExponent(n: int, e: nat, odd: int)
    requires Int64(n) && n == Pow2(e) * odd && odd % 2 == 1
    ensures e < 64
  {
    Pow2Order(e);
    if odd > 0 {
      MulAtLeast(Pow2(e), odd);
    } else {
      MulAtLeast(Pow2(e), -odd);
    }
  }

  lemma EvenExactly(cfg: DelayConfig, timestamp: int, horizon: int)
    requires cfg.mode.Exponential? && cfg.multiplier % 2 == 0
    ensures Reaches(cfg, timestamp, horizon) <==> Ends(cfg, timestamp, horizon)
  {
    if Reaches(cfg, timestamp, horizon) {
      var k: nat :| WrappedSlot(cfg, timestamp, k) >= horizon;
      if k > 64 {
        EvenDiesOut(cfg, k);
        EvenDiesOut(cfg, 64);
        assert WrappedSlot(cfg, timestamp, 64) >= horizon;
      }
    }
  }
}
