/**
 64-bit division on 32-bit machines (common/include/grinch/div64.h, common/src/div64.c):
 by a reciprocal for a constant divisor, and by shifting and subtracting otherwise.
 */
module Div64 {
  import opened Basics

  const HALF: nat := 0x1_0000_0000
  const FULL: nat := 0x1_0000_0000_0000_0000
  const TOP: nat := 0x8000_0000_0000_0000

  // The 128-bit product.

  lemma Product(x: nat, y: nat)
    requires x < HALF && y < HALF
    ensures x * y <= 0xffff_ffff * 0xffff_ffff
  {
    TimesUp(x, y, 0xffff_ffff);
    TimesUp(0xffff_ffff, x, 0xffff_ffff);
  }

  /** Bit 63 or bit 31 is set. */
  predicate Wide(m: nat) {
    m / TOP % 2 == 1 || m / 0x8000_0000 % 2 == 1
  }

  lemma NotWide(m: nat)
    requires m < FULL && !Wide(m)
    ensures m % HALF < 0x8000_0000 && m / HALF < 0x8000_0000
  {
  }

  lemma SmallProduct(x: nat, y: nat)
    requires x < 0x8000_0000 && y < HALF
    ensures x * y <= 0x7fff_ffff * 0xffff_ffff
  {
    TimesUp(x, y, 0xffff_ffff);
    TimesUp(0xffff_ffff, x, 0x7fff_ffff);
  }

  /** A 32-bit sum of high halves with the carry found by comparison, as the code does it. */
  lemma CarryOut(a: nat, rest: nat)
    requires a < HALF && rest < FULL
    ensures var sum := (a * HALF + rest) % FULL;
            var lo := sum / HALF;
            lo + (if lo < a then HALF else 0) == (a * HALF + rest) / HALF
  {
    var u := rest / HALF;
    assert (a * HALF + rest) / HALF == a + u;
    if a + u >= HALF {
      assert (a * HALF + rest) % FULL == a * HALF + rest - FULL;
    }
  }

  ghost predicate LookProduct(k: int) {
    true
  }

  ghost predicate IsProduct(r: nat, x: nat, y: nat) {
    forall k: int :: LookProduct(k) ==> r == x * y
  }

  /** A 32 x 32 bit multiplication. */
  method Mul32(x: nat, y: nat) returns (r: nat)
    requires x < HALF && y < HALF
    ensures IsProduct(r, x, y) && r <= 0xffff_ffff * 0xffff_ffff && (x < 0x8000_0000 ==> r <= 0x7fff_ffff * 0xffff_ffff)
  {
    Product(x, y);
    if x < 0x8000_0000 {
      SmallProduct(x, y);
    }
    r := x * y;
  }

  /** A 64-bit product from its four partial products. */
  lemma Assemble(m: nat, n: nat, ll: nat, lh: nat, hl: nat, hh: nat)
    requires IsProduct(ll, m % HALF, n % HALF) && IsProduct(lh, m % HALF, n / HALF)
    requires IsProduct(hl, m / HALF, n % HALF) && IsProduct(hh, m / HALF, n / HALF)
    ensures m * n == hh * FULL + (lh + hl) * HALF + ll
  {
    assert LookProduct(0);
    ExpandDigits(m % HALF, m / HALF, n % HALF, n / HALF);
  }

  /** `__arch_xprod_64`: the high half of m * n, or of m * n + m, in 64-bit steps. */
  method Xprod(m: nat, n: nat, bias: bool) returns (res: nat)
    requires m < FULL && n < FULL
    ensures res == (m * n + if bias then m else 0) / FULL
  {
    var ll := Mul32(m % HALF, n % HALF);
    var lh := Mul32(m % HALF, n / HALF);
    var hl := Mul32(m / HALF, n % HALF);
    var hh := Mul32(m / HALF, n / HALF);
    Assemble(m, n, ll, lh, hl, hh);
    HighPart(m, n, if bias then m else 0);
    if !Wide(m) {
      NotWide(m);
    }
    res := Combine(m, bias, ll, lh, hl, hh, m * n);
  }

  /** The sum of the partial products. */
  method Combine(m: nat, bias: bool, ll: nat, lh: nat, hl: nat, hh: nat, ghost prod: nat) returns (res: nat)
    requires m < FULL && prod == hh * FULL + (lh + hl) * HALF + ll && (prod + if bias then m else 0) / FULL < FULL
    requires var b := if Wide(m) then 0xffff_ffff * 0xffff_ffff else 0x7fff_ffff * 0xffff_ffff;
             ll <= b && lh <= b && hl <= b
    ensures res == (prod + if bias then m else 0) / FULL
  {
    ghost var extra := if bias then m else 0;
    LowPart(m, ll, extra);
    TwoFloors(ll + extra, lh + hl, hh);
    res := FirstPart(m, ll, bias);
    res := SecondPart(m, res, lh, hl);
    res := (res + hh) % FULL;
  }

  lemma ExpandDigits(mLo: nat, mHi: nat, nLo: nat, nHi: nat)
    ensures (mHi * HALF + mLo) * (nHi * HALF + nLo) == mHi * nHi * FULL + (mLo * nHi + mHi * nLo) * HALF + mLo * nLo
  {
    var n := nHi * HALF + nLo;
    assert (mHi * HALF + mLo) * n == mHi * HALF * n + mLo * n;
    assert mLo * n == mLo * nHi * HALF + mLo * nLo;
    assert mHi * HALF * n == mHi * nHi * FULL + mHi * nLo * HALF;
  }

  lemma LowPart(m: nat, ll: nat, extra: nat)
    requires m < FULL && (extra == 0 || extra == m)
    requires ll <= if Wide(m) then 0xffff_ffff * 0xffff_ffff else 0x7fff_ffff * 0xffff_ffff
    ensures (ll + extra) / HALF <= if Wide(m) then 2 * HALF - 2 else HALF
  {
    if !Wide(m) {
      NotWide(m);
    }
  }

  lemma HighPart(m: nat, n: nat, extra: nat)
    requires m < FULL && n < FULL && extra <= m
    ensures (m * n + extra) / FULL < FULL
  {
    TimesUp(m, n, FULL - 1);
    TimesUp(FULL - 1, m, FULL - 1);
  }

  /** The low half of the product, with its carry. */
  method FirstPart(m: nat, ll: nat, bias: bool) returns (res: nat)
    requires m < FULL && ll <= if Wide(m) then 0xffff_ffff * 0xffff_ffff else 0x7fff_ffff * 0xffff_ffff
    ensures res == (ll + if bias then m else 0) / HALF
  {
    if !bias {
      res := ll / HALF;
    } else if !Wide(m) {
      NotWide(m);
      res := (m + ll) % FULL / HALF;
    } else {
      var mHi := m / HALF;
      CarryOut(mHi, m % HALF + ll);
      var sum := (m + ll) % FULL;
      var lo := sum / HALF;
      var hi := if lo < mHi then 1 else 0;
      res := lo + hi * HALF;
    }
  }

  /** The cross products, with their carry. */
  method SecondPart(m: nat, low: nat, lh: nat, hl: nat) returns (res: nat)
    requires m < FULL && low <= (if Wide(m) then 2 * HALF - 2 else HALF)
    requires var b := if Wide(m) then 0xffff_ffff * 0xffff_ffff else 0x7fff_ffff * 0xffff_ffff; lh <= b && hl <= b
    ensures res == (low + lh + hl) / HALF
  {
    if !Wide(m) {
      res := (low + lh) % FULL;
      res := (res + hl) % FULL;
      res := res / HALF;
    } else {
      res := (low + lh) % FULL;
      var tmp := res / HALF;
      CarryOut(tmp, res % HALF + hl);
      res := (res + hl) % FULL;
      var lo := res / HALF;
      var hi := if lo < tmp then 1 else 0;
      res := lo + hi * HALF;
    }
  }

  lemma TwoFloors(a: nat, c: nat, d: nat)
    ensures (a / HALF + c) / HALF + d == (d * FULL + c * HALF + a) / FULL
  {
    assert (c * HALF + a) / HALF == c + a / HALF;
    var x := c * HALF + a;
    assert x / HALF / HALF == x / FULL;
    assert (d * FULL + x) / FULL == d + x / FULL;
  }

  // Division by a reciprocal.

  /** The largest power of two that is at most b (`1 << ilog2(b)`). */
  ghost predicate Msb(b: nat, p: nat) {
    p > 0 && p <= b < 2 * p
  }

  lemma DivMod(x: nat, y: nat)
    requires y > 0
    ensures x == x / y * y + x % y && 0 <= x % y < y && 0 <= x / y
  {
  }

  /** A quotient is the number of times the divisor fits. */
  lemma DivIs(x: nat, y: nat, q: nat)
    requires y > 0 && q * y <= x < (q + 1) * y
    ensures x / y == q
  {
    DivMod(x, y);
    var d := x / y;
    if d < q {
      TimesUp(y, d + 1, q);
    } else if d > q {
      TimesUp(y, q + 1, d);
    }
  }

  lemma DivDiv(x: nat, y: nat, z: nat)
    requires y > 0 && z > 0
    ensures y * z > 0 && x / y / z == x / (y * z)
  {
    DivMod(x, y);
    DivMod(x / y, z);
    var q := x / y / z;
    var r, s := x % y, x / y % z;
    TimesUp(y, s + 1, z);
    TimesUp(1, 1, y);
    assert x == (q * z + s) * y + r;
    assert x == q * (z * y) + (s * y + r);
    assert s * y + r < y * z;
    assert (q + 1) * (y * z) == q * (y * z) + y * z;
    DivIs(x, y * z, q);
  }

  /** m = ((p << 64) + b - 1) / b without 128-bit numbers, from the quotient and the rest of the largest 64-bit one */
  function UpWith(q: nat, r: nat, b: nat, p: nat): (m: nat)
    requires b > 0
  {
    q * p + ((r + 1) * p + (b - 1)) / b
  }

  /** m = (p << 64) / b, from the same */
  function DownWith(q: nat, r: nat, b: nat, p: nat): (m: nat)
    requires b > 0
  {
    q * p + (r + 1) * p / b
  }

  /** How far the rounded reciprocals are off. */
  lemma ErrorsWith(q: nat, r: nat, b: nat, p: nat) returns (e: nat, f: nat)
    requires b > 0 && q * b + r + 1 == FULL
    ensures UpWith(q, r, b, p) * b == p * FULL + e && e < b
    ensures DownWith(q, r, b, p) * b + f == p * FULL && f < b
    ensures e + f == 0 || e + f == b
  {
    var t := (r + 1) * p;
    e, f := Quotients(t, b);
    UpError(q, p, b, r, (t + (b - 1)) / b, e);
    DownError(q, p, b, r, t / b, f);
  }

  lemma UpError(q: nat, p: nat, b: nat, r: nat, u: nat, e: nat)
    requires q * b + r + 1 == FULL && u * b == (r + 1) * p + e
    ensures (q * p + u) * b == p * FULL + e
  {
    Regroup(p, q, b, r);
    Distribute(q * p, u, b);
  }

  lemma DownError(q: nat, p: nat, b: nat, r: nat, u: nat, f: nat)
    requires q * b + r + 1 == FULL && u * b + f == (r + 1) * p
    ensures (q * p + u) * b + f == p * FULL
  {
    Regroup(p, q, b, r);
    Distribute(q * p, u, b);
  }

  lemma Regroup(p: nat, q: nat, b: nat, r: nat)
    ensures p * (q * b + r + 1) == q * p * b + (r + 1) * p
  {
  }

  lemma Distribute(x: nat, y: nat, b: nat)
    ensures (x + y) * b == x * b + y * b
  {
  }

  lemma Quotients(t: nat, b: nat) returns (e: nat, f: nat)
    requires b > 0
    ensures (t + (b - 1)) / b * b == t + e && e < b && t / b * b + f == t && f < b && (e + f == 0 || e + f == b)
  {
    DivMod(t, b);
    f := t % b;
    var v := t / b;
    Distribute(v, 1, b);
    if f == 0 {
      DivIs(t + (b - 1), b, v);
      e := 0;
    } else {
      Distribute(v, 2, b);
      DivIs(t + (b - 1), b, v + 1);
      e := b - f;
    }
  }

  lemma Cancel(x: nat, y: nat, b: nat)
    requires b > 0
    ensures x * b < y * b ==> x < y
    ensures x * b <= y * b ==> x <= y
  {
    if x >= y {
      TimesUp(b, y, x);
    }
    if x > y {
      TimesUp(b, y + 1, x);
      Distribute(y, 1, b);
    }
  }

  /** A reciprocal rounded up by e / b gives the quotient k, if the error stays below the gap to the next. */
  lemma UpBounds(m: nat, b: nat, P: nat, e: nat, n: nat, k: nat, r: nat)
    requires m * b == P + e && n == k * b + r && r < b && e * n < P * (b - r)
    ensures k * P <= m * n < (k + 1) * P
  {
    assert m * n * b == P * n + e * n by { Swap(m, n, b); Distribute(P, e, n); }
    assert P * n == k * P * b + P * r by { Nest(P, k, b, r); }
    assert (k + 1) * P * b == k * P * b + P * b by { Distribute(k * P, P, b); Distribute(k, 1, P); }
    assert P * (b - r) == P * b - P * r by { Minus(P, b, r); }
    Cancel(k * P, m * n, b);
    Cancel(m * n, (k + 1) * P, b);
  }

  /** A reciprocal rounded down by f / b and a biased dividend give the quotient k. */
  lemma DownBounds(m: nat, b: nat, P: nat, f: nat, n: nat, k: nat, r: nat)
    requires m * b + f == P && f > 0 && n == k * b + r && r < b && f * (n + 1) <= P * (r + 1)
    ensures k * P <= m * (n + 1) < (k + 1) * P
  {
    assert m * (n + 1) * b + f * (n + 1) == P * (n + 1) by { Swap(m, n + 1, b); Distribute(m * b, f, n + 1); }
    assert P * (n + 1) == k * P * b + P * (r + 1) by { Nest(P, k, b, r + 1); }
    Cancel(k * P, m * (n + 1), b);
    assert m * (n + 1) * b < (k + 1) * P * b by {
      assert (k + 1) * P * b == k * P * b + P * b by { Distribute(k * P, P, b); Distribute(k, 1, P); }
      TimesUp(P, r + 1, b);
      TimesUp(f, 1, n + 1);
    }
    Cancel(m * (n + 1), (k + 1) * P, b);
  }

  lemma Swap(m: nat, n: nat, b: nat)
    ensures m * n * b == m * b * n
  {
  }

  lemma Nest(P: nat, k: nat, b: nat, r: nat)
    ensures P * (k * b + r) == k * P * b + P * r
  {
  }

  lemma Minus(P: nat, b: nat, r: nat)
    requires r <= b
    ensures P * (b - r) == P * b - P * r
  {
  }

  lemma TestAt(m: nat, b: nat, P: nat, e: nat, q: nat, x: nat)
    requires b > 0 && P > 0 && q > 0 && m * b == P + e && x + 1 == q * b
    ensures x / b == q - 1 && (m * x / P == q - 1 <==> e * x < P)
  {
    Distribute(q - 1, 1, b);
    DivIs(x, b, q - 1);
    assert m * x * b == P * x + e * x by { Swap(m, x, b); Distribute(P, e, x); }
    assert q * P * b == P * x + P by { Swap(q, P, b); Distribute(x, 1, P); }
    assert (q - 1) * P * b + P * b == q * P * b by { Distribute(q - 1, 1, P); Distribute((q - 1) * P, P, b); }
    Distribute(q - 1, 1, P);
    if e * x < P {
      Cancel(m * x, q * P, b);
      TimesUp(P, 1, b);
      Cancel((q - 1) * P, m * x, b);
      DivIs(m * x, P, q - 1);
    } else {
      Cancel(q * P, m * x, b);
      DivMod(m * x, P);
    }
  }

  /** The largest 64-bit number as a multiple of b and a rest that is not the largest one. */
  ghost predicate Split(b: nat, q: nat, r: nat) {
    q > 0 && q * b + r + 1 == FULL && r + 1 < b
  }

  lemma SplitOf(b: nat)
    requires 0 < b < HALF && FULL % b != 0
    ensures Split(b, (FULL - 1) / b, (FULL - 1) % b)
  {
    var q, r := (FULL - 1) / b, (FULL - 1) % b;
    DivMod(FULL - 1, b);
    DivMod(FULL, b);
    if r + 1 == b {
      Distribute(q, 1, b);
      DivIs(FULL, b, q + 1);
    }
    if q == 0 {
      assert false;
    }
  }

  /** The error of the rounded-up reciprocal is small enough for every dividend if it is for the test value. */
  lemma UpWorks(m: nat, b: nat, p: nat, P: nat, e: nat, q: nat, s: nat, x: nat, n: nat)
    requires b < 2 * p && P == p * FULL && m * b == P + e && e < b && Split(b, q, s) && x + 1 == q * b && n < FULL
    requires m * x / P == q - 1
    ensures m * n / P == n / b
  {
    TestAt(m, b, P, e, q, x);
    DivMod(n, b);
    UpGap(b, p, P, e, q, s, x, n, n / b, n % b);
    UpQuotient(m, b, P, e, n, n / b, n % b);
  }

  lemma UpGap(b: nat, p: nat, P: nat, e: nat, q: nat, s: nat, x: nat, n: nat, k: nat, r: nat)
    requires e < b < 2 * p && P == p * FULL && Split(b, q, s) && x + 1 == q * b && n < FULL && n == k * b + r && r < b
    requires e * x < P
    ensures e * n < P * (b - r)
  {
    if r == b - 1 {
      LastIsTest(b, q, s, n, k);
      TimesUp(e, n, x);
    } else {
      SmallError(e, n, b, p, r);
    }
  }

  lemma UpQuotient(m: nat, b: nat, P: nat, e: nat, n: nat, k: nat, r: nat)
    requires P > 0 && m * b == P + e && n == k * b + r && r < b && e * n < P * (b - r)
    ensures m * n / P == k
  {
    UpBounds(m, b, P, e, n, k, r);
    DivIs(m * n, P, k);
  }

  /** No dividend above the test value leaves the largest remainder. */
  lemma LastIsTest(b: nat, q: nat, s: nat, n: nat, k: nat)
    requires Split(b, q, s) && n < FULL && n == k * b + (b - 1)
    ensures n <= q * b - 1
  {
    Distribute(k, 1, b);
    Distribute(q, 1, b);
    if k >= q {
      TimesUp(b, q + 1, k + 1);
    } else {
      TimesUp(b, k + 1, q);
    }
  }

  lemma SmallError(e: nat, n: nat, b: nat, p: nat, r: nat)
    requires e < b < 2 * p && n < FULL && r + 2 <= b
    ensures e * n < p * FULL * (b - r)
  {
    TimesUp(n, e, 2 * p - 2);
    TimesUp(2 * p - 2, n, FULL);
    TimesUp(p * FULL, 2, b - r);
    assert (2 * p - 2) * FULL == 2 * (p * FULL) - 2 * FULL;
  }

  /** When the test fails, the rounded-down reciprocal is good enough for every dividend. */
  lemma DownWorks(up: nat, m: nat, b: nat, p: nat, P: nat, e: nat, f: nat, q: nat, s: nat, x: nat, n: nat)
    requires 0 < p && b < 2 * p && P == p * FULL && up * b == P + e && e < b && m * b + f == P
             && (e + f == 0 || e + f == b)
    requires Split(b, q, s) && x + 1 == q * b && n < FULL
    requires up * x / P != q - 1
    ensures m * (n + 1) / P == n / b
  {
    TestAt(up, b, P, e, q, x);
    LargeError(e, x, b, p, f);
    DivMod(n, b);
    DownGap(p, P, f, n, n % b);
    DownQuotient(m, b, P, f, n, n / b, n % b);
  }

  lemma DownGap(p: nat, P: nat, f: nat, n: nat, r: nat)
    requires f < p && P == p * FULL && n < FULL
    ensures f * (n + 1) <= P * (r + 1)
  {
    TimesUp(f, n + 1, FULL);
    TimesUp(FULL, f, p);
    TimesUp(P, 1, r + 1);
  }

  lemma DownQuotient(m: nat, b: nat, P: nat, f: nat, n: nat, k: nat, r: nat)
    requires P > 0 && m * b + f == P && f > 0 && n == k * b + r && r < b && f * (n + 1) <= P * (r + 1)
    ensures m * (n + 1) / P == k
  {
    DownBounds(m, b, P, f, n, k, r);
    DivIs(m * (n + 1), P, k);
  }

  /** A failed test means that rounding up is off by more than half, so rounding down is not. */
  lemma LargeError(e: nat, x: nat, b: nat, p: nat, f: nat)
    requires e * x >= p * FULL && x < FULL && b < 2 * p && p > 0 && (e + f == 0 || e + f == b)
    ensures e > p && f < p
  {
    TimesUp(p, x + 1, FULL);
    Distribute(x, 1, p);
    if e <= p {
      TimesUp(x, e, p);
    }
  }

  // The reduction of the reciprocal.

  /** Of two powers of two the one that is not larger divides the other. */
  lemma PowOrder(j: nat, k: nat)
    ensures Pow2(j) < 2 * Pow2(k) <==> j <= k
    ensures j <= k ==> Pow2(k) == Pow2(k - j) * Pow2(j)
  {
    if j <= k {
      PowAdd(k - j, j);
      TimesUp(Pow2(j), 1, Pow2(k - j));
    } else {
      PowAdd(j - k - 1, k + 1);
      TimesUp(Pow2(k + 1), 1, Pow2(j - k - 1));
    }
  }

  /** The rest of a multiple by a multiple is one itself. */
  lemma NoRest(a: nat, x: nat, y: nat, e: nat)
    requires a * x == a * y + e
    ensures e == 0 || e >= a
  {
    if x <= y {
      TimesUp(a, x, y);
    } else {
      TimesUp(a, y + 1, x);
      assert a * (y + 1) == a * y + a;
    }
  }

  /** The reciprocal has no more factors of two than p. */
  lemma LowBelow(m: nat, b: nat, p: nat, e: nat, kp: nat, kl: nat)
    requires m > 0 && m * b == p * FULL + e && 0 < e < b < 2 * p && p == Pow2(kp) && LowBit(m) == Pow2(kl)
    ensures kl <= kp
  {
    if kl > kp {
      PowOrder(kp + 1, kl);
      DivMod(m, LowBit(m));
      FactorOfBoth(m / LowBit(m), Pow2(kl - kp - 1), p, b, e);
    }
  }

  lemma FactorOfBoth(q: nat, c: nat, p: nat, b: nat, e: nat)
    requires q * (c * (2 * p)) * b == p * FULL + e
    ensures e == 0 || e >= 2 * p
  {
    assert q * (c * (2 * p)) == q * c * (2 * p);
    Swap(q * c, 2 * p, b);
    NoRest(2 * p, q * c * b, TOP, e);
  }

  /** A common factor cancels. */
  lemma Reduced(a: nat, b: nat, d: nat)
    requires b > 0 && d > 0
    ensures b * d > 0 && a * d / (b * d) == a / b
  {
    DivMod(a, b);
    var q := a / b;
    TimesUp(d, 1, b);
    TimesUp(d, q * b, a);
    assert q * (b * d) == q * b * d;
    TimesUp(d, a + 1, (q + 1) * b);
    assert (q + 1) * (b * d) == (q + 1) * b * d;
    Distribute(a, 1, d);
    DivIs(a * d, b * d, q);
  }

  /** What the macro makes of the lowest bit and the upper half of m, in 32 bits */
  function Bits(m: nat, low: nat): (bits: nat)
    requires 0 < low < HALF && m < FULL
    ensures bits < 2 * low
  {
    OrBound(m / HALF, low);
    BitsBound(low, BitOr((FULL - low) % HALF, m / HALF));
    (HALF - 1 - BitOr((FULL - low) % HALF, m / HALF)) * 2 % HALF
  }

  lemma OrBound(hi: nat, low: nat)
    requires 0 < low < HALF && hi < HALF
    ensures HALF - low <= BitOr((FULL - low) % HALF, hi) < HALF
  {
    assert (FULL - low) % HALF == HALF - low;
    Or32(HALF - low, hi);
  }

  lemma Or32(x: nat, y: nat)
    requires x < HALF && y < HALF
    ensures x <= BitOr(x, y) < HALF
  {
    Pow64();
    var k := 32;
    BitOrBounds(x, y, k);
  }

  lemma BitsBound(low: nat, or: nat)
    requires HALF - low <= or < HALF
    ensures (HALF - 1 - or) * 2 % HALF < 2 * low
  {
  }

  /** The macro divides m and p by a power of two that keeps bit 31 of m clear, if there is one. */
  method ReducePair(m: nat, p: nat, ghost kp: nat, ghost kl: nat) returns (m': nat, p': nat, ghost d: nat)
    requires 0 < m < FULL && 0 < p < HALF && p == Pow2(kp) && LowBit(m) == Pow2(kl) && kl <= kp
    ensures d > 0 && m == m' * d && p == p' * d && p' > 0
  {
    var low := LowBit(m);
    ghost var k := kl;
    PowOrder(kl, kp);
    TimesUp(low, 1, Pow2(kp - kl));
    var bits, top := Bits(m, low), low;
    if bits != 0 {
      top, k := HighBit(bits);
      PowOrder(k, kl);
    }
    Exactly(m, p, k, kl, kp);
    m', p', d := m / top, p / top, top;
  }

  lemma DivExact(x: nat, c: nat, t: nat)
    requires t > 0 && x == c * t
    ensures x / t == c
  {
    Distribute(c, 1, t);
    DivIs(x, t, c);
  }

  lemma Exactly(m: nat, p: nat, k: nat, kl: nat, kp: nat)
    requires m > 0 && LowBit(m) == Pow2(kl) && p == Pow2(kp) && k <= kl <= kp
    ensures m == m / Pow2(k) * Pow2(k) && p == p / Pow2(k) * Pow2(k) && p / Pow2(k) > 0
  {
    PowOrder(k, kl);
    PowOrder(k, kp);
    DivMod(m, Pow2(kl));
    Associate(m / Pow2(kl), Pow2(kl - k), Pow2(k));
    DivExact(m, m / Pow2(kl) * Pow2(kl - k), Pow2(k));
    DivExact(p, Pow2(kp - k), Pow2(k));
  }

  lemma Associate(x: nat, y: nat, z: nat)
    ensures x * (y * z) == x * y * z
  {
  }

  // The whole division.

  /** b & -b: the lowest set bit. */
  function LowBit(b: nat): (low: nat)
    requires b > 0
    ensures 0 < low <= b && b % low == 0
  {
    if b % 2 == 1 then 1
    else
      var low := LowBit(b / 2);
      assert b == b / 2 / low * (2 * low) by { DivMod(b / 2, low); Swap(b / 2 / low, low, 2); }
      ModMul(b / 2 / low, 2 * low);
      2 * low
  }

  lemma {:induction false} LowBitPow(b: nat) returns (k: nat)
    requires b > 0
    ensures LowBit(b) == Pow2(k)
  {
    k := 0;
    if b % 2 == 0 {
      k := LowBitPow(b / 2);
      k := k + 1;
    }
  }

  lemma Pow64()
    ensures Pow2(32) == HALF && Pow2(64) == FULL
  {
    assert Pow2(8) == 256;
    PowAdd(8, 8);
    PowAdd(16, 16);
    PowAdd(32, 32);
  }

  /** A power of two up to 2^32 divides 2^64. */
  lemma PowDivides(k: nat)
    requires k <= 32
    ensures FULL % Pow2(k) == 0
  {
    PowAdd(64 - k, k);
    Pow64();
    ModMul(Pow2(64 - k), Pow2(k));
  }

  /** Only powers of two divide a power of two. */
  lemma {:induction false} DivisorOfPow2(c: nat, b: nat, j: nat) returns (k: nat)
    requires c * b == Pow2(j)
    ensures b == Pow2(k)
    decreases j
  {
    if j == 0 {
      TimesUp(b, 1, c);
      k := 0;
    } else if b % 2 == 0 {
      assert c * (b / 2) == Pow2(j - 1) by { Swap(c, 2, b / 2); }
      k := DivisorOfPow2(c, b / 2, j - 1);
      k := k + 1;
    } else {
      OddTimes(c, b);
      assert c / 2 * b == Pow2(j - 1) by { Swap(2, c / 2, b); }
      k := DivisorOfPow2(c / 2, b, j - 1);
    }
  }

  lemma OddTimes(c: nat, b: nat)
    requires b % 2 == 1 && c * b % 2 == 0
    ensures c % 2 == 0
  {
    Nest(c, b / 2, 2, 1);
    assert c * b == 2 * (b / 2 * c) + c;
  }

  lemma NotDivisor(b: nat)
    requires 0 < b && forall k: nat :: b != Pow2(k)
    ensures FULL % b != 0
  {
    DivMod(FULL, b);
    Pow64();
    if FULL % b == 0 {
      var k := DivisorOfPow2(FULL / b, b, 64);
    }
  }

  /** 1 << ilog2(b) */
  method HighBit(b: nat) returns (p: nat, ghost k: nat)
    requires b > 0
    ensures Msb(b, p) && p == Pow2(k)
  {
    p, k := 1, 0;
    while 2 * p <= b
      invariant 0 < p <= b && p == Pow2(k)
      decreases b - p
    {
      p, k := 2 * p, k + 1;
    }
  }

  /** The highest bit of a number that is no divisor of 2^64 */
  method TopBit(b: nat) returns (p: nat, ghost k: nat)
    requires 0 < b < HALF && FULL % b != 0
    ensures Msb(b, p) && p < b && p == Pow2(k)
  {
    p, k := HighBit(b);
    if k > 32 {
      PowAdd(32, k - 32);
      Pow64();
      TimesUp(Pow2(32), 1, Pow2(k - 32));
    } else {
      PowDivides(k);
    }
  }

  /** The test multiplication of the macro: the high half of m * x, with one carry. */
  method HighHalf(m: nat, x: nat) returns (res: nat)
    requires m < FULL && x < FULL
    ensures res == m * x / FULL
  {
    var ll := Mul32(m % HALF, x % HALF);
    var lh := Mul32(m % HALF, x / HALF);
    var hl := Mul32(m / HALF, x % HALF);
    var hh := Mul32(m / HALF, x / HALF);
    Assemble(m, x, ll, lh, hl, hh);
    HighPart(m, x, 0);
    res := AddParts(ll, lh, hl, hh, m * x);
  }

  /** A 64-bit sum that wrapped is smaller than either part. */
  lemma OneCarry(a: nat, c: nat)
    requires a < FULL && c < FULL
    ensures var sum := (a + c) % FULL; sum / HALF + (if sum < a then HALF else 0) == (a + c) / HALF
  {
    if a + c >= FULL {
      assert (a + c) % FULL == a + c - FULL;
    }
  }

  method AddParts(ll: nat, lh: nat, hl: nat, hh: nat, ghost prod: nat) returns (res: nat)
    requires prod == hh * FULL + (lh + hl) * HALF + ll && prod / FULL < FULL
    requires var b := 0xffff_ffff * 0xffff_ffff; ll <= b && lh <= b && hl <= b
    ensures res == prod / FULL
  {
    TwoFloors(ll, lh + hl, hh);
    res := ll / HALF + lh;
    var t := res;
    OneCarry(t, hl);
    res := (res + hl) % FULL;
    t := if res < t then HALF else 0;
    res := res / HALF + t;
    res := (res + hh) % FULL;
  }

  /** When the odd part of b divides 2^64 - 1, that quotient is the reciprocal. */
  lemma SpecialWorks(c: nat, n: nat)
    requires c > 0 && (FULL - 1) % c == 0 && n < FULL
    ensures (FULL - 1) / c * (n + 1) / FULL == n / c
  {
    DivMod(FULL - 1, c);
    DivMod(n, c);
    TimesUp(FULL, 1, n % c + 1);
    DownQuotient((FULL - 1) / c, c, FULL, 1, n, n / c, n % c);
  }

  lemma ReciprocalFits(m: nat, b: nat, p: nat, e: nat)
    requires m * b <= p * FULL + e && e < b < HALF && p < b
    ensures m < FULL
  {
    TimesUp(FULL, p + 1, b);
    Distribute(p, 1, FULL);
    Cancel(m, FULL, b);
  }

  /** The division without a bias, by the reduced reciprocal. */
  method DivUp(m: nat, n: nat, b: nat, p: nat, ghost kp: nat, ghost e: nat) returns (res: nat)
    requires 0 < m < FULL && n < FULL && p < HALF && p == Pow2(kp) && m * b == p * FULL + e && 0 < e < b < 2 * p
    ensures p * FULL > 0 && res == m * n / (p * FULL)
  {
    ghost var kl := LowBitPow(m);
    LowBelow(m, b, p, e, kp, kl);
    var m', p';
    ghost var d;
    m', p', d := ReducePair(m, p, kp, kl);
    TimesUp(m', 1, d);
    res := DivScaled(m', n, p', false);
    Reduced(m' * n, p' * FULL, d);
    Swap(m', n, d);
    Swap(p', FULL, d);
  }

  /** Rounding up is inexact for a divisor that is no power of two. */
  lemma Inexact(m: nat, b: nat, kp: nat, e: nat)
    requires m * b == Pow2(kp) * FULL + e && forall k: nat :: b != Pow2(k)
    ensures e > 0
  {
    Pow64();
    PowAdd(kp, 64);
    if e == 0 {
      var k := DivisorOfPow2(m, b, kp + 64);
    }
  }

  /** `__div64_const32`: the quotient for every 64-bit n and every 32-bit b that is no power of two. */
  method DivConst(n: nat, b: nat) returns (res: nat)
    requires n < FULL && 0 < b < HALF && forall k: nat :: b != Pow2(k)
    ensures res == n / b
  {
    NotDivisor(b);
    var p;
    ghost var kp;
    p, kp := TopBit(b);
    var q, s := (FULL - 1) / b, (FULL - 1) % b;
    SplitOf(b);
    ghost var e, f := ErrorsWith(q, s, b, p);
    var up, down := UpWith(q, s, b, p), DownWith(q, s, b, p);
    ReciprocalFits(up, b, p, e);
    ReciprocalFits(down, b, p, 0);
    TimesUp(b, 1, q);
    var x := q * b - 1;
    TestAt(up, b, p * FULL, e, q, x);
    var test := HighHalf(up, x);
    DivDiv(up * x, FULL, p);
    test := test / p;
    var low := LowBit(b);
    if SpecialCase(b, low) {
      res := DivSpecial(n, b, low);
    } else if test != x / b {
      DownWorks(up, down, b, p, p * FULL, e, f, q, s, x, n);
      res := DivScaled(down, n, p, true);
    } else {
      UpWorks(up, b, p, p * FULL, e, q, s, x, n);
      Inexact(up, b, kp, e);
      res := DivUp(up, n, b, p, kp, e);
    }
  }

  /** The multiplication and the final shift of the macro. */
  method DivScaled(m: nat, n: nat, p: nat, bias: bool) returns (res: nat)
    requires m < FULL && n < FULL && p > 0
    ensures p * FULL > 0 && res == (m * if bias then n + 1 else n) / (p * FULL)
  {
    res := Xprod(m, n, bias);
    if bias {
      Plus(m, n);
      ShiftDown(m * n + m, p);
    } else {
      ShiftDown(m * n, p);
    }
    res := res / p;
  }

  lemma Plus(m: nat, n: nat)
    ensures m * (n + 1) == m * n + m
  {
  }

  lemma ShiftDown(a: nat, p: nat)
    requires p > 0
    ensures p * FULL > 0 && a / FULL / p == a / (p * FULL)
  {
    DivDiv(a, FULL, p);
  }

  /** The odd part of b divides 2^64 - 1. */
  predicate SpecialCase(b: nat, low: nat)
    requires 0 < low <= b
  {
    DivMod(b, low);
    b / low > 0 && (FULL - 1) % (b / low) == 0
  }

  method DivSpecial(n: nat, b: nat, low: nat) returns (res: nat)
    requires n < FULL && 0 < low <= b && b % low == 0 && SpecialCase(b, low)
    ensures res == n / b
  {
    var c := b / low;
    DivMod(b, low);
    DivMod(n, low);
    TimesUp(n / low, 1, low);
    DivMod(FULL - 1, c);
    TimesUp((FULL - 1) / c, 1, c);
    res := Xprod((FULL - 1) / c, n / low, true);
    Distribute(n / low, 1, (FULL - 1) / c);
    SpecialWorks(c, n / low);
    DivDiv(n, low, c);
  }

  lemma Halve(base: nat, k: nat)
    requires k > 0
    ensures Pow2(k) / 2 == Pow2(k - 1) && base * Pow2(k) / 2 == base * Pow2(k - 1)
            && base * Pow2(k) == 2 * (base * Pow2(k - 1))
  {
    Swap(base, 2, Pow2(k - 1));
  }

  /** The first reduction: the quotient of the high word. */
  method Reduce(n: nat, base: nat) returns (res: nat, rem: nat)
    requires n < FULL && 0 < base < HALF
    ensures res * base + rem == n && rem < base * HALF
  {
    rem, res := n, 0;
    var high := rem / HALF;
    if high >= base {
      DivMod(high, base);
      var t := high / base;
      res := t * HALF;
      Swap(t, HALF, base);
      rem := rem - t * base * HALF;
    }
  }

  /** `__div64_32`: quotient and remainder by doubling and subtracting. */
  method DivRem(n: nat, base: nat) returns (res: nat, rem: nat)
    requires n < FULL && 0 < base < HALF
    ensures res == n / base && rem == n % base
  {
    res, rem := Reduce(n, base);
    var b, d := base, 1;
    ghost var k := 0;
    while b < TOP && b < rem
      invariant 0 <= k && d == Pow2(k) && b == base * Pow2(k) && 0 < b < FULL
      decreases FULL - b
    {
      k := k + 1;
      Halve(base, k);
      b := b + b;
      d := d + d;
    }
    res, rem := Subtract(n, base, res, rem, b, d, k);
    Distribute(res, 1, base);
    DivIs(n, base, res);
    DivMod(n, base);
  }

  method Subtract(ghost n: nat, base: nat, res0: nat, rem0: nat, b0: nat, d0: nat, ghost k0: nat)
    returns (res: nat, rem: nat)
    requires base > 0 && d0 == Pow2(k0) && b0 == base * Pow2(k0) && rem0 < 2 * b0 && res0 * base + rem0 == n
    ensures res * base + rem == n && rem < base
  {
    res, rem := res0, rem0;
    var b, d := b0, d0;
    ghost var k := k0;
    while true
      invariant 0 <= k && d == Pow2(k) && b == base * Pow2(k) && rem < 2 * b && res * base + rem == n
      decreases d
    {
      if rem >= b {
        Distribute(res, d, base);
        rem := rem - b;
        res := res + d;
      }
      if k > 0 {
        Halve(base, k);
        k := k - 1;
      }
      b := b / 2;
      d := d / 2;
      if d == 0 {
        break;
      }
    }
  }
}
