/**
 The heap allocator of common/src/salloc.c: chunk headers linked by their sizes and back
 pointers, against the sequence of blocks they stand for.

 A header is present in `hdr` when its canaries are intact; the bytes between headers are the
 callers' own.
 */
module Salloc {
  const HDR: nat := 32
  const WORD: nat := 0x1_0000_0000_0000_0000
  const UINT: nat := 0x1_0000_0000

  datatype Chunk = Chunk(before: nat, size: nat, last: bool, used: bool)

  datatype Block = Block(size: nat, used: bool)

  datatype Error = Ok | NoMemory | Invalid | Again | SizeMismatch

  // Blocks and where they lie.

  function Addr(base: nat, b: seq<Block>, i: nat): (a: nat)
    requires i <= |b|
  {
    if i == 0 then base else Addr(base, b, i - 1) + HDR + b[i - 1].size
  }

  ghost function Header(base: nat, b: seq<Block>, i: nat): (c: Chunk)
    requires i < |b|
  {
    Chunk(if i == 0 then 0 else Addr(base, b, i - 1), b[i].size, i + 1 == |b|, b[i].used)
  }

  ghost predicate At(hdr: map<nat, Chunk>, base: nat, b: seq<Block>, i: nat)
    requires i < |b|
  {
    Addr(base, b, i) in hdr && hdr[Addr(base, b, i)] == Header(base, b, i)
  }

  /** The headers are exactly those of the blocks: no gap, right back links, one last chunk. */
  ghost predicate Layout(hdr: map<nat, Chunk>, base: nat, b: seq<Block>) {
    && base > 0 && |b| > 0
    && forall i: nat :: i < |b| ==> At(hdr, base, b, i)
  }

  ghost predicate Busy(b: seq<Block>, i: nat)
    requires i + 1 < |b|
  {
    b[i].used || b[i + 1].used
  }

  /** No two free blocks are neighbours. */
  ghost predicate NoFreePair(b: seq<Block>) {
    forall i: nat :: i + 1 < |b| ==> Busy(b, i)
  }

  lemma {:induction false} AddrLess(base: nat, b: seq<Block>, i: nat, j: nat)
    requires i < j <= |b|
    ensures Addr(base, b, i) + HDR + b[i].size <= Addr(base, b, j)
    decreases j
  {
    if i + 1 < j {
      AddrLess(base, b, i, j - 1);
    }
  }

  lemma Distinct(base: nat, b: seq<Block>, i: nat, j: nat)
    requires i <= |b| && j <= |b| && i != j
    ensures Addr(base, b, i) != Addr(base, b, j)
  {
    if i < j {
      AddrLess(base, b, i, j);
    } else if j < i {
      AddrLess(base, b, j, i);
    }
  }

  lemma {:induction false} AddrPrefix(base: nat, b: seq<Block>, c: seq<Block>, i: nat)
    requires i <= |b| && i <= |c| && forall k :: 0 <= k < i ==> b[k].size == c[k].size
    ensures Addr(base, b, i) == Addr(base, c, i)
  {
    if i > 0 {
      AddrPrefix(base, b, c, i - 1);
    }
  }

  /** Blocks that are the same from some point on keep their distance. */
  lemma {:induction false} AddrShift(base: nat, b: seq<Block>, i: nat, c: seq<Block>, j: nat, k: nat)
    requires i <= k <= |b| && j + (k - i) <= |c| && Addr(base, b, i) == Addr(base, c, j)
    requires forall m :: i <= m < k ==> b[m].size == c[m - i + j].size
    ensures Addr(base, b, k) == Addr(base, c, j + (k - i))
    decreases k
  {
    if k > i {
      AddrShift(base, b, i, c, j, k - 1);
      assert b[k - 1].size == c[k - 1 - i + j].size;
    }
  }

  // What the operations do to the blocks.

  /** ALIGN(size, 4) on 64 bits. */
  function Align4(size: nat): (n: nat) {
    (size + 3) % WORD / 4 * 4
  }

  /** The first free block that is large enough, or the number of blocks. */
  function FirstFit(b: seq<Block>, n: nat): (i: nat)
    ensures i <= |b|
    ensures forall k :: 0 <= k < i ==> b[k].used || b[k].size < n
    ensures i < |b| ==> !b[i].used && b[i].size >= n
  {
    if b == [] || (!b[0].used && b[0].size >= n) then 0
    else
      var i := 1 + FirstFit(b[1..], n);
      assert forall k :: 1 <= k < i ==> b[k] == b[1..][k - 1];
      i
  }

  /** The size of the rest of a split block, in an `unsigned int`. */
  function Rest(size: nat, n: nat): (r: nat)
    requires size > n + HDR
  {
    (size - n - HDR) % UINT
  }

  function Taken(b: seq<Block>, i: nat, n: nat): (c: seq<Block>)
    requires i < |b|
  {
    if b[i].size > n + HDR
    then b[..i] + [Block(n, true), Block(Rest(b[i].size, n), false)] + b[i + 1..]
    else b[i := Block(b[i].size, true)]
  }

  /** What `salloc_alloc` asks for when nothing fits. */
  function Shortage(b: seq<Block>, n: nat): (inc: int)
    requires |b| > 0
  {
    var l := b[|b| - 1];
    if l.used then HDR + n else n - l.size
  }

  /** An increase behind a block in use loses a header; what is smaller than a header wraps. */
  function Grown(b: seq<Block>, inc: nat): (c: seq<Block>)
    requires |b| > 0
  {
    var k := |b| - 1;
    if b[k].used then b + [Block((inc - HDR) % WORD, false)] else b[k := Block(b[k].size + inc, false)]
  }

  /** Joins block i with the next one; the result is free. */
  function Joined(b: seq<Block>, i: nat): (c: seq<Block>)
    requires i + 1 < |b|
  {
    b[..i] + [Block(b[i].size + HDR + b[i + 1].size, false)] + b[i + 2..]
  }

  /** A free block takes in the free block behind it. */
  function Behind(b: seq<Block>, i: nat): (c: seq<Block>)
    requires i < |b|
  {
    if i + 1 < |b| && !b[i + 1].used then Joined(b, i) else b
  }

  /** What `salloc_free` makes of the blocks around a block that was marked free. */
  function Coalesced(b: seq<Block>, i: nat): (c: seq<Block>)
    requires i < |b|
  {
    if i > 0 && !b[i - 1].used then Behind(Joined(b, i - 1), i - 1) else Behind(b, i)
  }

  function Freed(b: seq<Block>, i: nat): (c: seq<Block>)
    requires i < |b|
  {
    Coalesced(b[i := Block(b[i].size, false)], i)
  }

  /** Headers and sizes together. */
  function Total(b: seq<Block>): (t: nat) {
    Addr(0, b, |b|)
  }

  // The headers after each change.

  /** Changing the flags of one chunk. */
  lemma LayoutMark(hdr: map<nat, Chunk>, base: nat, b: seq<Block>, i: nat, used: bool)
    requires Layout(hdr, base, b) && i < |b|
    ensures At(hdr, base, b, i)
    ensures var a := Addr(base, b, i); Layout(hdr[a := hdr[a].(used := used)], base, b[i := Block(b[i].size, used)])
    ensures Addr(base, b[i := Block(b[i].size, used)], i) == Addr(base, b, i)
    ensures Addr(base, b[i := Block(b[i].size, used)], |b|) == Addr(base, b, |b|)
  {
    assert At(hdr, base, b, i);
    var c, a := b[i := Block(b[i].size, used)], Addr(base, b, i);
    AddrPrefix(base, b, c, i);
    AddrPrefix(base, b, c, |b|);
    var h := hdr[a := hdr[a].(used := used)];
    forall k: nat | k < |c|
      ensures At(h, base, c, k)
    {
      assert At(hdr, base, b, k);
      AddrPrefix(base, b, c, k);
      if k > 0 {
        AddrPrefix(base, b, c, k - 1);
      }
      if k != i {
        Distinct(base, b, k, i);
      }
    }
  }

  /** Where the blocks of a joined list lie. */
  lemma JoinedAddr(base: nat, b: seq<Block>, i: nat, k: nat)
    requires i + 1 < |b| && k <= |b| - 1
    ensures Addr(base, Joined(b, i), k) == Addr(base, b, if k <= i then k else k + 1)
  {
    var c := Joined(b, i);
    if k <= i {
      AddrPrefix(base, b, c, k);
    } else {
      AddrPrefix(base, b, c, i);
      assert Addr(base, c, i + 1) == Addr(base, b, i + 2);
      AddrShift(base, b, i + 2, c, i + 1, k + 1);
    }
  }

  /** Absorbing the next chunk, with its last flag and the back link behind it. */
  function Absorb(hdr: map<nat, Chunk>, a: nat, d: nat, e: nat, last: bool): (r: map<nat, Chunk>)
    requires a in hdr && d in hdr && (!last ==> e in hdr)
  {
    var h := hdr[a := Chunk(hdr[a].before, hdr[a].size + HDR + hdr[d].size, last, false)] - {d};
    if last || e !in h then h else h[e := h[e].(before := a)]
  }

  lemma LayoutJoin(hdr: map<nat, Chunk>, base: nat, b: seq<Block>, i: nat)
    requires Layout(hdr, base, b) && i + 1 < |b|
    ensures var a, d, e := Addr(base, b, i), Addr(base, b, i + 1), Addr(base, b, i + 2);
            a in hdr && d in hdr && (i + 2 < |b| ==> e in hdr)
              && Layout(Absorb(hdr, a, d, e, i + 2 == |b|), base, Joined(b, i))
  {
    assert At(hdr, base, b, i) && At(hdr, base, b, i + 1) && (i + 2 < |b| ==> At(hdr, base, b, i + 2));
    Distinct(base, b, i + 1, i + 2);
    var h, c := Absorb(hdr, Addr(base, b, i), Addr(base, b, i + 1), Addr(base, b, i + 2), i + 2 == |b|), Joined(b, i);
    forall k: nat | k < |c|
      ensures At(h, base, c, k)
    {
      JoinAt(hdr, base, b, i, k);
    }
  }

  lemma JoinAt(hdr: map<nat, Chunk>, base: nat, b: seq<Block>, i: nat, k: nat)
    requires Layout(hdr, base, b) && i + 1 < |b| && k < |Joined(b, i)|
    requires At(hdr, base, b, i) && At(hdr, base, b, i + 1) && (i + 2 < |b| ==> At(hdr, base, b, i + 2))
    ensures At(Absorb(hdr, Addr(base, b, i), Addr(base, b, i + 1), Addr(base, b, i + 2), i + 2 == |b|), base,
               Joined(b, i), k)
  {
    var n := if k <= i then k else k + 1;
    assert At(hdr, base, b, n);
    JoinedAddr(base, b, i, k);
    if k > 0 {
      JoinedAddr(base, b, i, k - 1);
    }
    if n != i {
      Distinct(base, b, n, i);
    }
    Distinct(base, b, n, i + 1);
    if n != i + 2 {
      Distinct(base, b, n, i + 2);
    }
    Distinct(base, b, i + 1, i + 2);
  }

  /** A split of a free block of 4 GiB and more: all but its last 64 bytes are lost. */
  lemma SplitLosesBytes()
    ensures var b := [Block(UINT + 100, false)];
            FirstFit(b, 4) == 0 && Taken(b, 0, 4) == [Block(4, true), Block(64, false)]
            && Total(b) == UINT + 132 && Total(Taken(b, 0, 4)) == 132
  {
    var b := [Block(UINT + 100, false)];
    var c := Taken(b, 0, 4);
    assert c == [Block(4, true), Block(64, false)];
    assert Addr(0, b, 1) == Addr(0, b, 0) + HDR + (UINT + 100);
    assert Addr(0, c, 1) == 36 && Addr(0, c, 2) == Addr(0, c, 1) + HDR + 64;
  }

  /** A split keeps every byte when the rest fits an `unsigned int`. */
  predicate Exact(b: seq<Block>, i: nat, n: nat)
    requires i < |b|
  {
    b[i].size > n + HDR ==> b[i].size - n - HDR < UINT
  }

  lemma TakenAddr(base: nat, b: seq<Block>, i: nat, n: nat, k: nat)
    requires i < |b| && b[i].size > n + HDR && Exact(b, i, n) && k <= |b| + 1
    ensures Addr(base, Taken(b, i, n), k) ==
            if k <= i then Addr(base, b, k) else if k == i + 1 then Addr(base, b, i) + HDR + n else Addr(base, b, k - 1)
  {
    var c := Taken(b, i, n);
    if k <= i {
      AddrPrefix(base, b, c, k);
    } else {
      AddrPrefix(base, b, c, i);
      assert Addr(base, c, i + 1) == Addr(base, b, i) + HDR + n;
      if k > i + 1 {
        assert Addr(base, c, i + 2) == Addr(base, b, i + 1);
        AddrShift(base, b, i + 1, c, i + 2, k - 1);
      }
    }
  }

  /** The headers after a chunk was split. */
  function Cut(hdr: map<nat, Chunk>, a: nat, o: nat, e: nat, last: bool, n: nat, rest: nat): (r: map<nat, Chunk>)
    requires a in hdr && (!last ==> e in hdr)
  {
    var h := if last then hdr else hdr[e := hdr[e].(before := o)];
    h[o := Chunk(a, rest, last, false)][a := Chunk(hdr[a].before, n, false, true)]
  }

  lemma LayoutCut(hdr: map<nat, Chunk>, base: nat, b: seq<Block>, i: nat, n: nat)
    requires Layout(hdr, base, b) && i < |b| && b[i].size > n + HDR && Exact(b, i, n)
    ensures At(hdr, base, b, i) && (i + 1 < |b| ==> At(hdr, base, b, i + 1))
    ensures var a, e := Addr(base, b, i), Addr(base, b, i + 1);
            Layout(Cut(hdr, a, a + HDR + n, e, i + 1 == |b|, n, Rest(b[i].size, n)), base, Taken(b, i, n))
  {
    assert At(hdr, base, b, i) && (i + 1 < |b| ==> At(hdr, base, b, i + 1));
    var a, e := Addr(base, b, i), Addr(base, b, i + 1);
    var h, c := Cut(hdr, a, a + HDR + n, e, i + 1 == |b|, n, Rest(b[i].size, n)), Taken(b, i, n);
    forall k: nat | k < |c|
      ensures At(h, base, c, k)
    {
      CutAt(hdr, base, b, i, n, k);
    }
    assert |c| == |b| + 1;
  }

  lemma CutAt(hdr: map<nat, Chunk>, base: nat, b: seq<Block>, i: nat, n: nat, k: nat)
    requires Layout(hdr, base, b) && i < |b| && b[i].size > n + HDR && Exact(b, i, n) && k < |Taken(b, i, n)|
    requires At(hdr, base, b, i) && (i + 1 < |b| ==> At(hdr, base, b, i + 1))
    ensures var a, e := Addr(base, b, i), Addr(base, b, i + 1);
            At(Cut(hdr, a, a + HDR + n, e, i + 1 == |b|, n, Rest(b[i].size, n)), base, Taken(b, i, n), k)
  {
    TakenAddr(base, b, i, n, k);
    if k > 0 {
      TakenAddr(base, b, i, n, k - 1);
    }
    if k < i {
      assert At(hdr, base, b, k);
      AddrLess(base, b, k, i);
    } else if k > i + 1 {
      assert At(hdr, base, b, k - 1);
      AddrLess(base, b, i, k - 1);
      if k > i + 2 {
        Distinct(base, b, i + 1, k - 1);
      }
    }
  }

  /** The headers after the heap has grown. */
  lemma LayoutGrow(hdr: map<nat, Chunk>, base: nat, b: seq<Block>, inc: nat)
    requires Layout(hdr, base, b)
    ensures var k := |b| - 1;
            var a, e := Addr(base, b, k), Addr(base, b, k + 1);
            && At(hdr, base, b, k)
            && Layout(if b[k].used then hdr[a := hdr[a].(last := false)][e := Chunk(a, (inc - HDR) % WORD, true, false)]
                      else hdr[a := hdr[a].(size := hdr[a].size + inc)], base, Grown(b, inc))
  {
    var j, c := |b| - 1, Grown(b, inc);
    assert At(hdr, base, b, j);
    var a, e := Addr(base, b, j), Addr(base, b, j + 1);
    var h := if b[j].used then hdr[a := hdr[a].(last := false)][e := Chunk(a, (inc - HDR) % WORD, true, false)]
             else hdr[a := hdr[a].(size := hdr[a].size + inc)];
    forall k: nat | k < |c|
      ensures At(h, base, c, k)
    {
      AddrPrefix(base, b, c, k);
      if k > 0 {
        AddrPrefix(base, b, c, k - 1);
      }
      if k < |b| {
        assert At(hdr, base, b, k);
        AddrLess(base, b, k, |b|);
      }
      if k < j {
        Distinct(base, b, k, j);
      }
    }
  }

  // What the blocks are worth.

  lemma {:induction false} AddrBase(base: nat, b: seq<Block>, i: nat)
    requires i <= |b|
    ensures Addr(base, b, i) == base + Addr(0, b, i)
  {
    if i > 0 {
      AddrBase(base, b, i - 1);
    }
  }

  /** Allocating conserves the bytes of the heap exactly when the rest fits, and leaves no free pair. */
  lemma TakenFacts(b: seq<Block>, n: nat)
    requires NoFreePair(b) && FirstFit(b, n) < |b|
    ensures var i := FirstFit(b, n);
            NoFreePair(Taken(b, i, n)) && (Total(Taken(b, i, n)) == Total(b) <==> Exact(b, i, n))
  {
    var i := FirstFit(b, n);
    var c := Taken(b, i, n);
    if b[i].size > n + HDR {
      AddrPrefix(0, b, c, i);
      TailTotal(b, i + 1, c, i + 2);
    } else {
      AddrPrefix(0, b, c, |b|);
    }
    forall k: nat | k + 1 < |c|
      ensures Busy(c, k)
    {
      TakenPair(b, i, n, k);
    }
  }

  lemma TakenPair(b: seq<Block>, i: nat, n: nat, k: nat)
    requires NoFreePair(b) && i < |b| && !b[i].used && k + 1 < |Taken(b, i, n)|
    ensures Busy(Taken(b, i, n), k)
  {
    if k + 1 < i {
      assert Busy(b, k);
    } else if b[i].size <= n + HDR {
      assert Busy(b, k);
    } else if k == i + 1 {
      assert Busy(b, i);
    } else if k > i + 1 {
      assert Busy(b, k - 1);
    }
  }

  /** Two lists with the same end differ in total by the difference of their beginnings. */
  lemma {:induction false} TailTotal(b: seq<Block>, i: nat, c: seq<Block>, j: nat)
    requires i <= |b| && j <= |c| && b[i..] == c[j..]
    ensures Total(b) - Addr(0, b, i) == Total(c) - Addr(0, c, j)
    decreases |b| - i
  {
    if i < |b| {
      assert b[i] == b[i..][0] && c[j] == c[j..][0];
      assert b[i + 1..] == b[i..][1..] && c[j + 1..] == c[j..][1..];
      TailTotal(b, i + 1, c, j + 1);
    }
  }

  lemma JoinedFacts(b: seq<Block>, i: nat)
    requires i + 1 < |b|
    ensures Total(Joined(b, i)) == Total(b)
  {
    JoinedAddr(0, b, i, |b| - 1);
  }

  /** Freeing conserves the bytes of the heap and leaves no free pair. */
  lemma FreedFacts(b: seq<Block>, i: nat)
    requires NoFreePair(b) && i < |b| && b[i].used
    ensures NoFreePair(Freed(b, i)) && Total(Freed(b, i)) == Total(b)
  {
    var b1 := b[i := Block(b[i].size, false)];
    AddrPrefix(0, b, b1, |b|);
    var before := i > 0 && !b1[i - 1].used;
    if before {
      JoinedFacts(b1, i - 1);
    }
    var b2, j := if before then Joined(b1, i - 1) else b1, if before then i - 1 else i;
    if j + 1 < |b2| && !b2[j + 1].used {
      JoinedFacts(b2, j);
    }
    FreedPairs(b, i);
  }

  lemma FreedPairs(b: seq<Block>, i: nat)
    requires NoFreePair(b) && i < |b| && b[i].used
    ensures NoFreePair(Freed(b, i))
  {
    forall k: nat | k + 1 < |Freed(b, i)|
      ensures Busy(Freed(b, i), k)
    {
      FreedPair(b, i, k);
    }
  }

  /** The blocks after a free: those before, the merged one, those behind. */
  lemma FreedAt(b: seq<Block>, i: nat, k: nat)
    requires i < |b|
    ensures var before, after := i > 0 && !b[i - 1].used, i + 1 < |b| && !b[i + 1].used;
            var j, shift := if before then i - 1 else i, (if before then 1 else 0) + (if after then 1 else 0);
            && |Freed(b, i)| == |b| - shift
            && (k < |Freed(b, i)| ==>
                if k == j then !Freed(b, i)[k].used else Freed(b, i)[k] == b[if k < j then k else k + shift])
  {
  }

  lemma FreedPair(b: seq<Block>, i: nat, k: nat)
    requires NoFreePair(b) && i < |b| && b[i].used && k + 1 < |Freed(b, i)|
    ensures Busy(Freed(b, i), k)
  {
    FreedAt(b, i, k);
    FreedAt(b, i, k + 1);
    var before, after := i > 0 && !b[i - 1].used, i + 1 < |b| && !b[i + 1].used;
    var j, shift := if before then i - 1 else i, (if before then 1 else 0) + (if after then 1 else 0);
    if k < j {
      assert Busy(b, k);
    } else {
      assert Busy(b, k + shift);
    }
  }

  /** Freeing what was just allocated restores the heap. */
  lemma FreeRestores(b: seq<Block>, n: nat)
    requires NoFreePair(b) && FirstFit(b, n) < |b| && Exact(b, FirstFit(b, n), n)
    ensures var i := FirstFit(b, n); Freed(Taken(b, i, n), i) == b
  {
    var i := FirstFit(b, n);
    var c := Taken(b, i, n);
    assert i > 0 ==> Busy(b, i - 1);
    assert i + 1 < |b| ==> Busy(b, i);
    if b[i].size > n + HDR {
      SplitThenJoin(b, i, n, Rest(b[i].size, n));
    } else {
      assert c[i := Block(b[i].size, false)] == b;
    }
  }

  lemma SplitThenJoin(b: seq<Block>, i: nat, n: nat, rest: nat)
    requires i < |b| && b[i] == Block(n + HDR + rest, false) && (i > 0 ==> b[i - 1].used)
    ensures var c := b[..i] + [Block(n, true), Block(rest, false)] + b[i + 1..];
            Coalesced(c[i := Block(n, false)], i) == b
  {
    var c := b[..i] + [Block(n, true), Block(rest, false)] + b[i + 1..];
    var c1 := c[i := Block(n, false)];
    assert c1[i + 1] == Block(rest, false) && (i > 0 ==> c1[i - 1] == b[i - 1]);
    assert c1[..i] == b[..i] && c1[i + 2..] == b[i + 1..];
    assert Joined(c1, i) == b;
  }

  /** Growing adds exactly its bytes unless they are too few for the header. */
  lemma GrownFacts(b: seq<Block>, inc: nat)
    requires NoFreePair(b) && |b| > 0 && inc < WORD
    ensures NoFreePair(Grown(b, inc))
    ensures Total(Grown(b, inc)) == Total(b) + inc + if b[|b| - 1].used && inc < HDR then WORD else 0
  {
    var c := Grown(b, inc);
    AddrPrefix(0, b, c, |b| - 1);
    AddrPrefix(0, b, c, if b[|b| - 1].used then |b| else |b| - 1);
    forall k: nat | k + 1 < |c|
      ensures Busy(c, k)
    {
      assert k + 1 < |b| ==> Busy(b, k);
    }
  }

  /** After growing by at least what was asked for, the allocation succeeds. */
  lemma RetrySucceeds(b: seq<Block>, n: nat, inc: nat)
    requires |b| > 0 && FirstFit(b, n) == |b| && Shortage(b, n) <= inc < WORD
    ensures FirstFit(Grown(b, inc), n) == |Grown(b, inc)| - 1
  {
    var c := Grown(b, inc);
    var i := FirstFit(c, n);
    assert !c[|c| - 1].used && c[|c| - 1].size >= n;
    assert forall k :: 0 <= k < |c| - 1 ==> c[k].used || c[k].size < n;
  }

  /** Rounding up keeps the size, except that the last three sizes wrap to nothing. */
  lemma AlignCovers(size: nat)
    requires size < WORD
    ensures Align4(size) % 4 == 0
    ensures size <= WORD - 4 ==> size <= Align4(size) < size + 4
    ensures size > WORD - 4 ==> Align4(size) == 0
  {
  }

  /** A block lies at an address of a heap. */
  ghost predicate Holds(base: nat, b: seq<Block>, a: nat, block: Block) {
    exists k: nat :: k < |b| && Here(base, b, k, a, block)
  }

  ghost predicate Here(base: nat, b: seq<Block>, k: nat, a: nat, block: Block)
    requires k < |b|
  {
    Addr(base, b, k) == a && b[k] == block
  }

  /** Joining two free blocks moves and changes no used one. */
  lemma JoinedKeeps(base: nat, b: seq<Block>, i: nat, k: nat)
    requires i + 1 < |b| && k < |b| && k != i && k != i + 1
    ensures Holds(base, Joined(b, i), Addr(base, b, k), b[k])
  {
    var j := if k <= i then k else k - 1;
    JoinedAddr(base, b, i, j);
    assert Joined(b, i)[j] == b[k];
    assert Here(base, Joined(b, i), j, Addr(base, b, k), b[k]);
  }

  /** Allocating moves and changes no block that is in use. */
  lemma TakenKeeps(base: nat, b: seq<Block>, n: nat, k: nat)
    requires FirstFit(b, n) < |b| && Exact(b, FirstFit(b, n), n) && k < |b| && b[k].used
    ensures Holds(base, Taken(b, FirstFit(b, n), n), Addr(base, b, k), b[k])
  {
    var i := FirstFit(b, n);
    var c := Taken(b, i, n);
    if b[i].size > n + HDR {
      var j := if k < i then k else k + 1;
      TakenAddr(base, b, i, n, j);
      assert c[j] == b[k];
      assert Here(base, c, j, Addr(base, b, k), b[k]);
    } else {
      AddrPrefix(base, b, c, k);
      assert Here(base, c, k, Addr(base, b, k), b[k]);
    }
  }

  /** Freeing a block moves and changes no other block that is in use. */
  lemma FreedKeeps(base: nat, b: seq<Block>, i: nat, k: nat)
    requires i < |b| && k < |b| && k != i && b[k].used
    ensures Holds(base, Freed(b, i), Addr(base, b, k), b[k])
  {
    var c := b[i := Block(b[i].size, false)];
    AddrPrefix(base, b, c, k);
    CoalescedKeeps(base, c, i, k);
  }

  lemma CoalescedKeeps(base: nat, b: seq<Block>, i: nat, k: nat)
    requires i < |b| && k < |b| && !b[i].used && b[k].used
    ensures Holds(base, Coalesced(b, i), Addr(base, b, k), b[k])
  {
    if i > 0 && !b[i - 1].used {
      JoinedKeeps(base, b, i - 1, k);
      var c := Joined(b, i - 1);
      var j: nat :| j < |c| && Here(base, c, j, Addr(base, b, k), b[k]);
      BehindKeeps(base, c, i - 1, j);
    } else {
      BehindKeeps(base, b, i, k);
    }
  }

  lemma BehindKeeps(base: nat, b: seq<Block>, i: nat, k: nat)
    requires i < |b| && k < |b| && !b[i].used && b[k].used
    ensures Holds(base, Behind(b, i), Addr(base, b, k), b[k])
  {
    if i + 1 < |b| && !b[i + 1].used {
      JoinedKeeps(base, b, i, k);
    } else {
      assert Here(base, b, k, Addr(base, b, k), b[k]);
    }
  }
}
