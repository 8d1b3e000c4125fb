/** Arithmetic and sequences that several modules need. */
module Basics {
  ghost predicate Unique(s: seq<nat>) {
    forall i, j :: 0 <= i < j < |s| ==> s[i] != s[j]
  }

  lemma TimesUp(s: nat, x: nat, y: nat)
    requires x <= y
    ensures s * x <= s * y && x * s <= y * s
  {
    assert s * (y - x) >= 0;
  }

  function Pow2(k: nat): (p: nat)
    ensures p > 0
  {
    if k == 0 then 1 else 2 * Pow2(k - 1)
  }

  function BitOr(x: nat, y: nat): (z: nat)
  {
    if x == 0 then y
    else if y == 0 then x
    else 2 * BitOr(x / 2, y / 2) + (if x % 2 == 1 || y % 2 == 1 then 1 else 0)
  }

  /** Or-ing bits below position k into a multiple of 2^k adds them. */
  lemma {:induction false} BitOrDisjoint(q: nat, y: nat, k: nat)
    requires y < Pow2(k)
    ensures BitOr(q * Pow2(k), y) == q * Pow2(k) + y
    ensures BitOr(y, q * Pow2(k)) == q * Pow2(k) + y
  {
    var x := q * Pow2(k);
    if k > 0 && x > 0 && y > 0 {
      assert x == 2 * (q * Pow2(k - 1));
      assert x / 2 == q * Pow2(k - 1) && x % 2 == 0;
      BitOrDisjoint(q, y / 2, k - 1);
    }
  }

  lemma {:induction false} PowAdd(j: nat, k: nat)
    ensures Pow2(j + k) == Pow2(j) * Pow2(k)
  {
    if j > 0 {
      PowAdd(j - 1, k);
      assert 2 * (Pow2(j - 1) * Pow2(k)) == 2 * Pow2(j - 1) * Pow2(k);
    }
  }

  /** Or-ing loses no bits and adds none above. */
  lemma {:induction false} BitOrBounds(x: nat, y: nat, k: nat)
    requires x < Pow2(k) && y < Pow2(k)
    ensures x <= BitOr(x, y) < Pow2(k) && y <= BitOr(x, y)
  {
    if x > 0 && y > 0 {
      BitOrBounds(x / 2, y / 2, k - 1);
    }
  }

  /** The numbers below n */
  function AllBelow(n: nat): (r: set<nat>)
    ensures forall i: nat :: i in r <==> i < n
  {
    if n == 0 then {} else AllBelow(n - 1) + {n - 1}
  }

  lemma ModMul(q: nat, a: nat)
    requires a > 0
    ensures q * a % a == 0
  {
    var r, e := q * a % a, q - q * a / a;
    assert e * a == r by { assert q * a == q * a / a * a + r; }
    assert e >= 1 ==> e * a >= a;
    assert e <= 0 ==> e * a <= 0;
  }

  const PAGE_SIZE: nat := 4096

  /** `page_up` */
  function PageUp(v: nat): (r: nat) {
    (v + PAGE_SIZE - 1) / PAGE_SIZE * PAGE_SIZE
  }
}
