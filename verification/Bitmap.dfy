/**
 Bitmaps of 64-bit words (lib/bitmap.c, common/include/grinch/bitops.h, mm/mm.c) as sets of bits.

 A word is its 64 bits, the lowest first; masks and shifts act on the bits.
 */
module Bitmap {
  import opened Basics
  const BITS: nat := 64

  type Word = w: seq<bool> | |w| == BITS witness seq(BITS, i => false)

  function Fill(b: bool): (w: Word) {
    seq(BITS, i => b)
  }

  function Shl(w: Word, k: nat): (r: Word) {
    seq(BITS, i requires 0 <= i < BITS => i >= k && w[i - k])
  }

  function Shr(w: Word, k: nat): (r: Word) {
    seq(BITS, i requires 0 <= i < BITS => i + k < BITS && w[i + k])
  }

  function And(v: Word, w: Word): (r: Word) {
    seq(BITS, i requires 0 <= i < BITS => v[i] && w[i])
  }

  function Or(v: Word, w: Word): (r: Word) {
    seq(BITS, i requires 0 <= i < BITS => v[i] || w[i])
  }

  function Xor(v: Word, w: Word): (r: Word) {
    seq(BITS, i requires 0 <= i < BITS => v[i] != w[i])
  }

  function Not(w: Word): (r: Word) {
    Xor(w, Fill(true))
  }

  /** BITMAP_FIRST_WORD_MASK: the bits of a word from start on. */
  function FirstMask(start: nat): (r: Word)
    ensures forall i :: 0 <= i < BITS ==> (r[i] <==> i >= start % BITS)
  {
    Shl(Fill(true), start % BITS)
  }

  /** BITMAP_LAST_WORD_MASK: the bits of the last word below nbits. */
  function LastMask(nbits: nat): (r: Word)
    ensures forall i :: 0 <= i < BITS ==> (r[i] <==> i < if nbits % BITS == 0 then BITS else nbits % BITS)
  {
    Shr(Fill(true), (BITS - nbits % BITS) % BITS)
  }

  /** The low k bits are all clear. */
  predicate LowZero(w: Word, k: nat)
    requires k <= BITS
  {
    forall i :: 0 <= i < k ==> !w[i]
  }

  /** A definition under this guard unfolds only in proofs that mention it. */
  ghost predicate LookShift(x: int) {
    true
  }

  /** The word is what is left of a word after n low zeros, and its first one is among the low k bits. */
  ghost predicate Shifted(w: Word, v: Word, n: nat, k: nat) {
    forall x: int :: LookShift(x) ==>
      && v == Shr(w, n) && n + k <= BITS && LowZero(w, n) && exists i :: 0 <= i < k && v[i]
  }

  lemma NarrowShifted(w: Word, v: Word, n: nat, k: nat)
    requires 2 * k <= BITS && Shifted(w, v, n, 2 * k)
    ensures if LowZero(v, k) then Shifted(w, Shr(v, k), n + k, k) else Shifted(w, v, n, k)
  {
    assert LookShift(0);
    if LowZero(v, k) {
      var i :| 0 <= i < 2 * k && v[i];
      assert i >= k && Shr(v, k)[i - k] == v[i];
      assert forall j :: n <= j < n + k ==> w[j] == v[j - n];
      assert Shr(v, k) == Shr(w, n + k);
    }
  }

  /** One step of `__ffsl`: if the low half is clear, drop it. */
  method Narrow(ghost word: Word, w: Word, num: nat, k: nat) returns (v: Word, n: nat)
    requires 2 * k <= BITS && Shifted(word, w, num, 2 * k)
    ensures Shifted(word, v, n, k)
  {
    NarrowShifted(word, w, num, k);
    v, n := w, num;
    if LowZero(w, k) {
      n := num + k;
      v := Shr(w, k);
    }
  }

  /** `__ffsl`: the lowest set bit of a word, by halving. */
  method FindFirst(word: Word) returns (num: nat)
    requires exists i :: 0 <= i < BITS && word[i]
    ensures num < BITS && word[num] && forall i :: 0 <= i < num ==> !word[i]
  {
    var w: Word := word;
    num := 0;
    ShiftedStart(word);
    w, num := Narrow(word, w, num, 32);
    w, num := Narrow(word, w, num, 16);
    w, num := Narrow(word, w, num, 8);
    w, num := Narrow(word, w, num, 4);
    w, num := Narrow(word, w, num, 2);
    ShiftedEnd(word, w, num);
    if !w[0] {
      num := num + 1;
    }
  }

  lemma ShiftedStart(word: Word)
    requires exists i :: 0 <= i < BITS && word[i]
    ensures Shifted(word, word, 0, 64)
  {
    assert Shr(word, 0) == word;
  }

  lemma ShiftedEnd(word: Word, w: Word, num: nat)
    requires Shifted(word, w, num, 2)
    ensures num + 1 < BITS && w[0] == word[num] && (w[0] || word[num + 1]) && forall i :: 0 <= i < num ==> !word[i]
  {
    assert LookShift(0);
    assert w[0] == word[num] && w[1] == word[num + 1];
  }

  // Maps of words.

  ghost predicate Bit(map_: seq<Word>, n: nat) {
    n / BITS < |map_| && map_[n / BITS][n % BITS]
  }

  /** No bit of [lo, hi) has the given value. */
  ghost predicate Lacks(map_: seq<Word>, lo: nat, hi: nat, value: bool) {
    forall n: nat :: lo <= n < hi ==> Bit(map_, n) != value
  }

  /** `_find_next_bit` without its second map: the first bit from start on that has the value. */
  method FindNext(map_: array<Word>, nbits: nat, from: nat, value: bool) returns (r: nat)
    requires nbits <= BITS * map_.Length
    ensures if r < nbits then from <= r && Bit(map_[..], r) == value else r == nbits
    ensures Lacks(map_[..], from, r, value)
  {
    if from >= nbits {
      return nbits;
    }
    var invert := Fill(!value);
    var start := from;
    var tmp := And(Xor(map_[start / BITS], invert), FirstMask(start));
    start := start / BITS * BITS;
    WordBits(map_[..], start / BITS, value);
    while LowZero(tmp, BITS)
      invariant start % BITS == 0 && start < nbits && start / BITS < map_.Length
      invariant Lacks(map_[..], from, start, value)
      invariant forall i :: 0 <= i < BITS && start + i >= from ==> (tmp[i] <==> map_[start / BITS][i] == value)
      invariant forall i :: 0 <= i < BITS && tmp[i] ==> start + i >= from
      decreases nbits - start
    {
      NoneHere(map_[..], start, from, value);
      start := start + BITS;
      if start >= nbits {
        return nbits;
      }
      tmp := Xor(map_[start / BITS], invert);
    }
    var k := FindFirst(tmp);
    FirstHere(map_[..], start, from, value, k);
    r := if start + k < nbits then start + k else nbits;
  }

  lemma WordBits(map_: seq<Word>, j: nat, value: bool)
    requires j < |map_|
    ensures forall n: nat :: j * BITS <= n < (j + 1) * BITS ==> n / BITS == j && n % BITS == n - j * BITS
  {
  }

  lemma NoneHere(map_: seq<Word>, start: nat, from: nat, value: bool)
    requires start % BITS == 0 && start / BITS < |map_| && Lacks(map_, from, start, value)
    requires forall i :: 0 <= i < BITS && start + i >= from ==> map_[start / BITS][i] != value
    ensures Lacks(map_, from, start + BITS, value)
  {
    forall n: nat | from <= n < start + BITS
      ensures Bit(map_, n) != value
    {
      if n >= start {
        WordBits(map_, start / BITS, value);
        assert map_[start / BITS][n - start] != value;
      }
    }
  }

  lemma FirstHere(map_: seq<Word>, start: nat, from: nat, value: bool, k: nat)
    requires start % BITS == 0 && start / BITS < |map_| && Lacks(map_, from, start, value) && k < BITS
    requires forall i :: 0 <= i < k && start + i >= from ==> map_[start / BITS][i] != value
    ensures Lacks(map_, from, start + k, value) && Bit(map_, start + k) == map_[start / BITS][k]
  {
    WordBits(map_, start / BITS, value);
    forall n: nat | from <= n < start + k
      ensures Bit(map_, n) != value
    {
      if n >= start {
        assert map_[start / BITS][n - start] != value;
      }
    }
  }

  // Setting and clearing.

  /** The bits after [start, start + n) was set to the value. */
  ghost predicate Written(before: seq<Word>, after: seq<Word>, start: nat, n: nat, value: bool) {
    && |after| == |before|
    && forall k: nat :: k < BITS * |before| ==>
    Bit(after, k) == if start <= k < start + n then value else Bit(before, k)
  }

  function Masked(w: Word, mask: Word, value: bool): (r: Word) {
    if value then Or(w, mask) else And(w, Not(mask))
  }

  /** One word is masked, so exactly the bits of a range inside it change. */
  lemma MaskWord(before: seq<Word>, map_: seq<Word>, start: nat, at: nat, next: nat, mask: Word, value: bool)
    requires start <= at <= next && at / BITS < |map_| && Written(before, map_, start, at - start, value)
    requires next <= (at / BITS + 1) * BITS
    requires forall i :: 0 <= i < BITS ==> (mask[i] <==> at <= at / BITS * BITS + i < next)
    ensures Written(before, map_[at / BITS := Masked(map_[at / BITS], mask, value)], start, next - start, value)
  {
    var j := at / BITS;
    var w: Word := Masked(map_[j], mask, value);
    var after: seq<Word> := map_[j := w];
    WordBits(map_, j, value);
    forall k: nat | k < BITS * |before|
      ensures Bit(after, k) == if start <= k < start + (next - start) then value else Bit(before, k)
    {
      assert Bit(map_, k) == if start <= k < start + (at - start) then value else Bit(before, k);
      if k / BITS == j {
        assert w[k % BITS] == if mask[k % BITS] then value else map_[j][k % BITS];
      }
    }
  }

  /** `bitmap_set` and `bitmap_clear`: exactly the bits of the range change. */
  method Write(map_: array<Word>, start: nat, nbits: nat, value: bool)
    requires start + nbits <= BITS * map_.Length
    modifies map_
    ensures Written(old(map_[..]), map_[..], start, nbits, value)
  {
    var len: int, p := nbits, start / BITS;
    var bits, mask := BITS - start % BITS, FirstMask(start);
    ghost var before, at := map_[..], start;
    while len - bits >= 0
      invariant 0 <= len && at + len == start + nbits && start <= at && p == at / BITS && bits == BITS - at % BITS
      invariant mask == FirstMask(at)
      invariant Written(before, map_[..], start, at - start, value)
      decreases len
    {
      ghost var was := map_[..];
      assert at + bits == (p + 1) * BITS;
      MaskWord(before, was, start, at, at + bits, mask, value);
      map_[p] := Masked(map_[p], mask, value);
      assert map_[..] == was[p := Masked(was[p], mask, value)];
      at := at + bits;
      len := len - bits;
      bits := BITS;
      mask := Fill(true);
      p := p + 1;
      assert mask == FirstMask(at);
    }
    if len > 0 {
      ghost var was := map_[..];
      mask := And(mask, LastMask(start + nbits));
      LastBits(at, start + nbits);
      MaskWord(before, was, start, at, start + nbits, mask, value);
      map_[p] := Masked(map_[p], mask, value);
      assert map_[..] == was[p := Masked(was[p], mask, value)];
    }
  }

  lemma LastBits(at: nat, end: nat)
    requires at < end && end - at < BITS - at % BITS
    ensures end % BITS == end - at / BITS * BITS && end < (at / BITS + 1) * BITS
  {
  }

  // Searching for an area.

  /** The smallest multiple of a that is no less than x, as `__ALIGN_MASK` computes it for a power of two. */
  function AlignUp(x: nat, a: nat): (r: nat)
    requires a > 0
  {
    (x + (a - 1)) / a * a
  }

  lemma AlignUpLeast(x: nat, a: nat)
    requires a > 0
    ensures x <= AlignUp(x, a) && AlignUp(x, a) % a == 0 && forall y: nat :: y >= x && y % a == 0 ==> y >= AlignUp(x, a)
  {
    var n := x + (a - 1);
    var q, r := n / a, n % a;
    assert n == q * a + r;
    ModMul(q, a);
    forall y: nat | y >= x && y % a == 0
      ensures y >= q * a
    {
      assert y == y / a * a + y % a;
      LeastMultiple(x, a, q, r, y / a);
    }
  }

  lemma LeastMultiple(x: nat, a: nat, q: nat, r: nat, p: nat)
    requires a > 0 && x + (a - 1) == q * a + r && r < a && p * a >= x
    ensures p * a >= q * a
  {
    if p < q {
      TimesUp(a, p + 1, q);
    }
  }

  /** An aligned run of clear bits. */
  ghost predicate Area(map_: seq<Word>, size: nat, nr: nat, a: nat, off: nat, r: nat) {
    a > 0 && (r + off) % a == 0 && r + nr <= size && Lacks(map_, r, r + nr, true)
  }

  /** `bitmap_find_next_zero_area_off`: the least aligned run of clear bits, or a value past the end. */
  method FindArea(map_: array<Word>, size: nat, from: nat, nr: nat, a: nat, off: nat) returns (r: nat)
    requires size <= BITS * map_.Length && nr > 0 && a > 0 && off < a
    ensures if r + nr <= size then from <= r && Area(map_[..], size, nr, a, off, r) else r > size
    ensures forall k: nat :: from <= k && Area(map_[..], size, nr, a, off, k) ==> r <= k
  {
    var start := from;
    while true
      invariant from <= start && forall k: nat :: from <= k < start ==> !Area(map_[..], size, nr, a, off, k)
      decreases size - start
    {
      var index := FindNext(map_, size, start, false);
      var zero := index;
      index := AlignUp(index + off, a) - off;
      SkipToZero(map_[..], size, nr, a, off, start, zero);
      var end := index + nr;
      if end > size {
        return end;
      }
      var i := FindNext(map_, end, index, true);
      if i >= end {
        return index;
      }
      SkipPast(map_[..], size, nr, a, off, index, i);
      start := i + 1;
    }
  }

  /** An area starts at a clear bit, so not before the next clear bit rounded up. */
  lemma SkipToZero(map_: seq<Word>, size: nat, nr: nat, a: nat, off: nat, start: nat, zero: nat)
    requires nr > 0 && a > 0 && off < a && Lacks(map_, start, zero, false)
    ensures AlignUp(zero + off, a) >= zero + off && AlignUp(zero + off, a) % a == 0
    ensures forall k: nat :: start <= k && Area(map_, size, nr, a, off, k) && zero <= size ==>
            k >= AlignUp(zero + off, a) - off
  {
    AlignUpLeast(zero + off, a);
    forall k: nat | start <= k && Area(map_, size, nr, a, off, k)
      ensures k >= AlignUp(zero + off, a) - off
    {
      assert k < k + nr;
      assert !Bit(map_, k);
    }
  }

  /** An area cannot start so that it would hold a set bit. */
  lemma SkipPast(map_: seq<Word>, size: nat, nr: nat, a: nat, off: nat, index: nat, i: nat)
    requires Bit(map_, i) && index <= i < index + nr
    ensures forall k: nat :: index <= k <= i ==> !Area(map_, size, nr, a, off, k)
  {
  }
}
