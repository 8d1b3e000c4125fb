/** The loops and header updates of common/src/salloc.c, and malloc on top of them. */
module SallocCode {
  import opened Basics
  import opened Salloc

  ghost predicate OpenAt(hdr: map<nat, Chunk>, base: nat, b: seq<Block>, i: nat)
    requires i < |b|
  {
    Addr(base, b, i) in hdr && hdr[Addr(base, b, i)] == Header(base, b, i).(last := false)
  }

  /** Walking reads a list of chunks none of which is the last: the walk leaves the heap. */
  ghost predicate Open(hdr: map<nat, Chunk>, base: nat, b: seq<Block>) {
    && base > 0 && |b| > 0
    && forall i: nat :: i < |b| ==> OpenAt(hdr, base, b, i)
  }

  /** Chunks that follow each other are determined by the headers. */
  lemma {:induction false} OpenPrefix(hdr: map<nat, Chunk>, base: nat, b: seq<Block>, c: seq<Block>, i: nat)
    requires Open(hdr, base, b) && Layout(hdr, base, c) && i <= |b|
    ensures i < |c| && Addr(base, c, i) == Addr(base, b, i)
  {
    if i > 0 {
      OpenPrefix(hdr, base, b, c, i - 1);
      assert At(hdr, base, c, i - 1);
      assert OpenAt(hdr, base, b, i - 1);
    }
  }

  /** A heap without a last chunk has no layout, unless a header happens to follow the heap. */
  lemma OpenIsBroken(hdr: map<nat, Chunk>, base: nat, b: seq<Block>)
    requires Open(hdr, base, b) && Addr(base, b, |b|) !in hdr
    ensures forall c :: !Layout(hdr, base, c)
  {
    forall c | Layout(hdr, base, c)
      ensures false
    {
      OpenNext(hdr, base, b, c);
    }
  }

  lemma OpenNext(hdr: map<nat, Chunk>, base: nat, b: seq<Block>, c: seq<Block>)
    requires Open(hdr, base, b) && Layout(hdr, base, c)
    ensures Addr(base, b, |b|) in hdr
  {
    OpenPrefix(hdr, base, b, c, |b|);
    assert At(hdr, base, c, |b|);
  }

  /** Growing by whole pages serves the request that failed from the last block, and that split loses nothing. */
  lemma GrowthFits(b: seq<Block>, n: nat, increase: nat)
    requires |b| > 0 && FirstFit(b, n) == |b| && increase == Shortage(b, n) % WORD && n + HDR + PAGE_SIZE <= WORD
    ensures increase == Shortage(b, n) && increase <= PageUp(increase) < WORD && (b[|b| - 1].used ==> increase >= HDR)
    ensures var c := Grown(b, PageUp(increase)); FirstFit(c, n) == |c| - 1 && Exact(c, |c| - 1, n)
  {
    assert !b[|b| - 1].used ==> b[|b| - 1].size < n;
    assert increase == Shortage(b, n) <= n + HDR;
    RetrySucceeds(b, n, PageUp(increase));
  }

  /** The case in which `salloc_free` drops the last flag. */
  predicate LosesLast(b: seq<Block>, i: nat)
    requires i < |b|
  {
    i + 1 == |b| && i > 0 && !b[i - 1].used
  }

  lemma LosesLastOpen(hdr: map<nat, Chunk>, base: nat, b: seq<Block>, i: nat)
    requires Layout(hdr, base, b) && i < |b| && LosesLast(b, i)
    ensures var p, a := Addr(base, b, i - 1), Addr(base, b, i);
            && p in hdr && a in hdr
            && Open(hdr[p := hdr[p].(size := hdr[p].size + HDR + hdr[a].size)] - {a}, base, Joined(b, i - 1))
            && Addr(base, Joined(b, i - 1), |b| - 1) == Addr(base, b, |b|)
  {
    var p, a, c := Addr(base, b, i - 1), Addr(base, b, i), Joined(b, i - 1);
    assert At(hdr, base, b, i - 1) && At(hdr, base, b, i);
    var h := hdr[p := hdr[p].(size := hdr[p].size + HDR + hdr[a].size)] - {a};
    forall k: nat | k < |c|
      ensures OpenAt(h, base, c, k)
    {
      LosesLastAt(hdr, base, b, i, k);
    }
    JoinedAddr(base, b, i - 1, |b| - 1);
  }

  lemma LosesLastAt(hdr: map<nat, Chunk>, base: nat, b: seq<Block>, i: nat, k: nat)
    requires Layout(hdr, base, b) && i < |b| && LosesLast(b, i) && k < i && At(hdr, base, b, i - 1)
             && At(hdr, base, b, i)
    ensures var p, a, c := Addr(base, b, i - 1), Addr(base, b, i), Joined(b, i - 1);
            var h := hdr[p := hdr[p].(size := hdr[p].size + HDR + hdr[a].size)] - {a};
            OpenAt(h, base, c, k)
  {
    assert At(hdr, base, b, k);
    JoinedAddr(base, b, i - 1, k);
    Distinct(base, b, k, i);
    if k > 0 {
      JoinedAddr(base, b, i - 1, k - 1);
    }
    if k < i - 1 {
      Distinct(base, b, k, i - 1);
    }
  }

  /** No header lies behind the heap. */
  ghost predicate Inside(hdr: map<nat, Chunk>, base: nat, b: seq<Block>) {
    forall a :: a in hdr ==> a < Addr(base, b, |b|)
  }

  lemma SameEnd(base: nat, b: seq<Block>, c: seq<Block>)
    ensures Addr(base, c, |c|) - Addr(base, b, |b|) == Total(c) - Total(b)
  {
    AddrBase(base, b, |b|);
    AddrBase(base, c, |c|);
  }

  lemma CutInside(hdr: map<nat, Chunk>, base: nat, b: seq<Block>, i: nat, n: nat)
    requires Layout(hdr, base, b) && Inside(hdr, base, b) && i < |b| && b[i].size > n + HDR && Exact(b, i, n)
    ensures At(hdr, base, b, i) && (i + 1 < |b| ==> At(hdr, base, b, i + 1))
    ensures var a, e := Addr(base, b, i), Addr(base, b, i + 1);
            Inside(Cut(hdr, a, a + HDR + n, e, i + 1 == |b|, n, Rest(b[i].size, n)), base, Taken(b, i, n))
  {
    assert At(hdr, base, b, i) && (i + 1 < |b| ==> At(hdr, base, b, i + 1));
    TakenAddr(base, b, i, n, |b| + 1);
    if i + 1 < |b| {
      AddrLess(base, b, i + 1, |b|);
    }
  }

  /** [a, d) and [e, f) have no byte in common. */
  predicate Apart(a: nat, d: nat, e: nat, f: nat) {
    d <= e || f <= a
  }

  /** The pointer leads to the data of a used block with room for size bytes. */
  ghost predicate Used(base: nat, b: seq<Block>, k: nat, ptr: nat, size: nat) {
    k < |b| && ptr == Addr(base, b, k) + HDR && b[k].used && size <= b[k].size
  }

  /** The pointer leads to a block that is used now and that no block in use before overlaps. */
  ghost predicate Granted(base: nat, before: seq<Block>, b: seq<Block>, ptr: nat, size: nat) {
    exists k: nat ::
      && Used(base, b, k, ptr, size)
      && forall j: nat :: j < |before| && before[j].used ==>
           Apart(Addr(base, before, j), Addr(base, before, j + 1), ptr - HDR, ptr + b[k].size)
  }

  lemma TakenGrants(base: nat, b: seq<Block>, n: nat)
    requires FirstFit(b, n) < |b|
    ensures Granted(base, b, Taken(b, FirstFit(b, n), n), Addr(base, b, FirstFit(b, n)) + HDR, n)
  {
    var i := FirstFit(b, n);
    var c := Taken(b, i, n);
    AddrPrefix(base, b, c, i);
    assert Used(base, c, i, Addr(base, b, i) + HDR, n);
    forall j: nat | j < |b| && b[j].used
      ensures Apart(Addr(base, b, j), Addr(base, b, j + 1), Addr(base, b, i), Addr(base, b, i) + HDR + c[i].size)
    {
      if j < i {
        AddrUp(base, b, j + 1, i);
      } else {
        AddrUp(base, b, i + 1, j);
      }
    }
  }

  lemma AddrUp(base: nat, b: seq<Block>, i: nat, j: nat)
    requires i <= j <= |b|
    ensures Addr(base, b, i) <= Addr(base, b, j)
  {
    if i < j {
      AddrLess(base, b, i, j);
    }
  }

  /** What growing adds was not in use. */
  lemma GrownGrants(base: nat, b: seq<Block>, inc: nat, c: seq<Block>, ptr: nat, size: nat)
    requires |b| > 0 && Granted(base, Grown(b, inc), c, ptr, size)
    ensures Granted(base, b, c, ptr, size)
  {
    var g := Grown(b, inc);
    var k: nat :| && Used(base, c, k, ptr, size)
                  && forall j: nat :: j < |g| && g[j].used ==>
                       Apart(Addr(base, g, j), Addr(base, g, j + 1), ptr - HDR, ptr + c[k].size);
    forall j: nat | j < |b| && b[j].used
      ensures Apart(Addr(base, b, j), Addr(base, b, j + 1), ptr - HDR, ptr + c[k].size)
    {
      assert g[j] == b[j];
      AddrPrefix(base, b, g, j);
      AddrPrefix(base, b, g, j + 1);
    }
  }

  lemma GrantedLess(base: nat, b: seq<Block>, c: seq<Block>, ptr: nat, n: nat, size: nat)
    requires Granted(base, b, c, ptr, n) && size <= n
    ensures Granted(base, b, c, ptr, size)
  {
    var k: nat :| && Used(base, c, k, ptr, n)
                  && forall j: nat :: j < |b| && b[j].used ==>
                       Apart(Addr(base, b, j), Addr(base, b, j + 1), ptr - HDR, ptr + c[k].size);
    assert Used(base, c, k, ptr, size);
  }

  class Heap {
    var hdr: map<nat, Chunk>
    const base: nat
    ghost var b: seq<Block>

    ghost predicate Valid()
      reads this
    {
      Layout(hdr, base, b) && NoFreePair(b) && Inside(hdr, base, b)
    }

    /** `salloc_init` */
    constructor (base: nat, size: nat)
      requires base > 0 && size >= 1024
      ensures Valid() && this.base == base && b == [Block(size - HDR, false)] && Total(b) == size
    {
      this.base := base;
      hdr := map[base := Chunk(0, size - HDR, true, false)];
      b := [Block(size - HDR, false)];
      new;
      assert Addr(base, b, 0) == base;
      assert Addr(0, b, 1) == Addr(0, b, 0) + HDR + (size - HDR);
    }

    /** The search of `salloc_alloc`: the first chunk that fits, or the last one. */
    method Search(n: nat) returns (this_: nat, found: bool, ghost i: nat)
      requires Valid()
      ensures i < |b| && this_ == Addr(base, b, i) && At(hdr, base, b, i)
      ensures if found then i == FirstFit(b, n) else FirstFit(b, n) == |b| && i + 1 == |b|
    {
      this_, i := base, 0;
      while true
        invariant i < |b| && this_ == Addr(base, b, i) && FirstFit(b, n) == i + FirstFit(b[i..], n)
        decreases |b| - i
      {
        assert At(hdr, base, b, i);
        assert b[i..][0] == b[i] && b[i..][1..] == b[i + 1..];
        if !hdr[this_].used && hdr[this_].size >= n {
          found := true;
          return;
        }
        if hdr[this_].last {
          found := false;
          return;
        }
        this_ := this_ + HDR + hdr[this_].size;
        i := i + 1;
      }
    }

    /** `salloc_alloc` */
    method Alloc(size: nat) returns (err: Error, dst: nat, increase: nat)
      requires Valid() && size < WORD
      modifies this
      ensures var n, i := Align4(size), FirstFit(old(b), Align4(size));
              if i < |old(b)| then
                && err == Ok && dst == Addr(base, old(b), i) + HDR && b == Taken(old(b), i, n)
                && Granted(base, old(b), b, dst, n) && (Exact(old(b), i, n) ==> Valid())
              else
                err == NoMemory && hdr == old(hdr) && b == old(b) && increase == Shortage(b, n) % WORD
    {
      var n := Align4(size);
      var this_, found;
      ghost var i;
      this_, found, i := Search(n);
      err, dst, increase := NoMemory, 0, 0;
      if !found {
        increase := (if hdr[this_].used then HDR + n else n - hdr[this_].size) % WORD;
        return;
      }
      err, dst := Ok, this_ + HDR;
      TakenGrants(base, b, n);
      if hdr[this_].size > n + HDR {
        Carve(this_, n, i);
      } else {
        Mark(this_, n, i);
      }
    }

    /** `salloc_alloc`: the block is used as it is. */
    method Mark(this_: nat, n: nat, ghost i: nat)
      requires Valid() && i == FirstFit(b, n) < |b| && this_ == Addr(base, b, i) && b[i].size <= n + HDR
      modifies this
      ensures Valid() && b == Taken(old(b), i, n)
    {
      assert At(hdr, base, b, i);
      TakenFacts(b, n);
      LayoutMark(hdr, base, b, i, true);
      SameEnd(base, b, Taken(b, i, n));
      hdr := hdr[this_ := hdr[this_].(used := true)];
      b := Taken(b, i, n);
    }

    /** `salloc_alloc`: what the block does not need becomes a free chunk of its own. */
    method Carve(this_: nat, n: nat, ghost i: nat)
      requires Valid() && i == FirstFit(b, n) < |b| && this_ == Addr(base, b, i) && b[i].size > n + HDR
      modifies this
      ensures b == Taken(old(b), i, n) && (Exact(old(b), i, n) ==> Valid())
      ensures var e := Addr(base, old(b), i + 1);
              && this_ in old(hdr) && (i + 1 < |old(b)| ==> e in old(hdr))
              && hdr == Cut(old(hdr), this_, this_ + HDR + n, e, i + 1 == |old(b)|, n, Rest(old(b)[i].size, n))
    {
      assert At(hdr, base, b, i) && (i + 1 < |b| ==> At(hdr, base, b, i + 1));
      TakenFacts(b, n);
      if Exact(b, i, n) {
        LayoutCut(hdr, base, b, i, n);
        CutInside(hdr, base, b, i, n);
      }
      var other, last := this_ + HDR + n, hdr[this_].last;
      var h := hdr;
      if !last {
        var next := this_ + HDR + hdr[this_].size;
        assert At(hdr, base, b, i + 1);
        h := h[next := h[next].(before := other)];
      }
      h := h[other := Chunk(this_, (hdr[this_].size - n - HDR) % UINT, last, false)];
      hdr := h[this_ := Chunk(hdr[this_].before, n, false, true)];
      b := Taken(b, i, n);
    }

    /** `salloc_increase` */
    method Increase(inc: nat)
      requires Valid() && inc < WORD
      modifies this
      ensures Valid() && b == Grown(old(b), inc)
      ensures Total(b) == Total(old(b)) + inc + if old(b)[|old(b)| - 1].used && inc < HDR then WORD else 0
    {
      var this_ := base;
      ghost var i := 0;
      assert At(hdr, base, b, 0);
      while !hdr[this_].last
        invariant i < |b| && this_ == Addr(base, b, i) && At(hdr, base, b, i) && Valid() && b == old(b)
        decreases |b| - i
      {
        this_ := this_ + HDR + hdr[this_].size;
        i := i + 1;
        assert At(hdr, base, b, i);
      }
      LayoutGrow(hdr, base, b, inc);
      GrownFacts(b, inc);
      SameEnd(base, b, Grown(b, inc));
      if hdr[this_].used {
        var next := this_ + HDR + hdr[this_].size;
        hdr := hdr[this_ := hdr[this_].(last := false)][next := Chunk(this_, (inc - HDR) % WORD, true, false)];
      } else {
        hdr := hdr[this_ := hdr[this_].(size := hdr[this_].size + inc)];
      }
      b := Grown(b, inc);
    }

    /** Merging a free chunk with the free chunk behind it. */
    method Merge(a: nat, d: nat, ghost i: nat)
      requires Layout(hdr, base, b) && i + 1 < |b| && a == Addr(base, b, i) && d == Addr(base, b, i + 1)
      modifies this
      ensures Layout(hdr, base, b) && b == Joined(old(b), i) && hdr.Keys <= old(hdr.Keys)
    {
      assert At(hdr, base, b, i) && At(hdr, base, b, i + 1) && (i + 2 < |b| ==> At(hdr, base, b, i + 2));
      LayoutJoin(hdr, base, b, i);
      Distinct(base, b, i, i + 1);
      Distinct(base, b, i + 1, i + 2);
      var c := hdr[d];
      var h := hdr[a := Chunk(hdr[a].before, hdr[a].size + HDR + c.size, c.last, false)] - {d};
      if !c.last {
        var e := d + HDR + c.size;
        h := h[e := h[e].(before := a)];
      }
      hdr := h;
      b := Joined(b, i);
    }

    /** `salloc_free`, for a pointer to the data of a chunk or to no chunk at all */
    method Release(ptr: nat, ghost i: nat) returns (err: Error)
      requires Valid() && ptr >= HDR && (ptr - HDR in hdr ==> i < |b| && ptr - HDR == Addr(base, b, i))
      modifies this
      ensures ptr - HDR !in old(hdr) ==> err == Invalid && hdr == old(hdr) && b == old(b)
      ensures ptr - HDR in old(hdr) && !old(b)[i].used ==> err == Again && hdr == old(hdr) && b == old(b)
      ensures ptr - HDR in old(hdr) && old(b)[i].used ==> err == Ok
      ensures ptr - HDR in old(hdr) && old(b)[i].used && !LosesLast(old(b), i) ==> Valid() && b == Freed(old(b), i)
      ensures ptr - HDR in old(hdr) && old(b)[i].used && LosesLast(old(b), i) ==>
                && Open(hdr, base, b) && b == Joined(old(b)[i := Block(old(b)[i].size, false)], i - 1)
                && Inside(hdr, base, b) && Addr(base, b, |b|) == Addr(base, old(b), |old(b)|)
    {
      var m := ptr - HDR;
      if m !in hdr {
        return Invalid;
      }
      assert At(hdr, base, b, i);
      if !hdr[m].used {
        return Again;
      }
      FreedFacts(b, i);
      LayoutMark(hdr, base, b, i, false);
      hdr := hdr[m := hdr[m].(used := false)];
      b := b[i := Block(b[i].size, false)];
      AddrPrefix(base, old(b), b, |b|);
      Coalesce(m, i);
      if !LosesLast(old(b), i) {
        SameEnd(base, old(b), b);
      }
      err := Ok;
    }

    /** The merges of `salloc_free`. */
    method Coalesce(m: nat, ghost i: nat)
      requires Layout(hdr, base, b) && i < |b| && m == Addr(base, b, i) && !b[i].used
      modifies this
      ensures hdr.Keys <= old(hdr.Keys)
      ensures !LosesLast(old(b), i) ==> Layout(hdr, base, b) && b == Coalesced(old(b), i)
      ensures LosesLast(old(b), i) ==>
                Open(hdr, base, b) && b == Joined(old(b), i - 1) && Addr(base, b, |b|) == Addr(base, old(b), |old(b)|)
    {
      assert At(hdr, base, b, i) && (i > 0 ==> At(hdr, base, b, i - 1));
      var before := hdr[m].before;
      if i > 0 {
        AddrBase(base, b, i - 1);
      }
      if before != 0 && !hdr[before].used {
        if hdr[m].last {
          // The merged chunk keeps the flags of its predecessor, which is not the last one.
          LosesLastOpen(hdr, base, b, i);
          hdr := hdr[before := hdr[before].(size := hdr[before].size + HDR + hdr[m].size)] - {m};
          b := Joined(b, i - 1);
          return;
        }
        ReleaseBetween(before, m, i);
      } else {
        ReleaseBehind(m, i);
      }
    }

    /** A freed chunk that is not the last joins the free chunk before it, then the one behind. */
    method ReleaseBetween(before: nat, m: nat, ghost i: nat)
      requires Layout(hdr, base, b) && 0 < i && i + 1 < |b| && m == Addr(base, b, i) && before == Addr(base, b, i - 1)
      requires !b[i - 1].used && !b[i].used
      modifies this
      ensures Layout(hdr, base, b) && hdr.Keys <= old(hdr.Keys)
      ensures b == Behind(Joined(old(b), i - 1), i - 1)
    {
      JoinedAddr(base, b, i - 1, i - 1);
      Merge(before, m, i - 1);
      ReleaseBehind(before, i - 1);
    }

    /** A free chunk joins the free chunk behind it. */
    method ReleaseBehind(m: nat, ghost i: nat)
      requires Layout(hdr, base, b) && i < |b| && m == Addr(base, b, i) && !b[i].used
      modifies this
      ensures Layout(hdr, base, b) && hdr.Keys <= old(hdr.Keys)
      ensures b == Behind(old(b), i)
    {
      assert At(hdr, base, b, i) && (i + 1 < |b| ==> At(hdr, base, b, i + 1));
      if !hdr[m].last {
        var after := m + HDR + hdr[m].size;
        if !hdr[after].used {
          Merge(m, after, i);
        }
      }
    }

    /** `salloc_fsck`: finds nothing wrong with a valid heap of the given size. */
    method Fsck(size: nat) returns (err: Error)
      requires Valid()
      ensures err == if size == Total(b) then Ok else SizeMismatch
    {
      var this_, sum := base, 0;
      ghost var i: nat := 0;
      while true
        invariant i < |b| && this_ == Addr(base, b, i) && sum == Addr(0, b, i)
        decreases |b| - i
      {
        assert At(hdr, base, b, i);
        sum := sum + HDR + hdr[this_].size;
        if hdr[this_].last {
          break;
        }
        this_ := this_ + HDR + hdr[this_].size;
        i := i + 1;
      }
      if sum != size {
        return SizeMismatch;
      }
      sum := 0;
      while true
        invariant i < |b| && this_ == Addr(base, b, i) && sum == Total(b) - Addr(0, b, i + 1)
        decreases i
      {
        assert At(hdr, base, b, i);
        sum := sum + HDR + hdr[this_].size;
        if hdr[this_].before == 0 {
          break;
        }
        this_ := hdr[this_].before;
        i := i - 1;
      }
      return if sum != size then SizeMismatch else Ok;
    }

    /** `malloc` of the C library: grows the heap and tries again, at most once. */
    method Malloc(size: nat, sbrk: bool) returns (ptr: nat, tries: nat)
      requires Valid() && size + HDR + 2 * PAGE_SIZE <= WORD
      modifies this
      ensures var n, i := Align4(size), FirstFit(old(b), Align4(size));
              if i < |old(b)| then
                && ptr == Addr(base, old(b), i) + HDR && tries == 1 && b == Taken(old(b), i, n)
                && (Exact(old(b), i, n) ==> Valid())
              else if sbrk then
                && tries == 2 && Valid() && Shortage(old(b), n) >= 0
                && var c := Grown(old(b), PageUp(Shortage(old(b), n)));
                b == Taken(c, |c| - 1, n) && ptr == Addr(base, c, |c| - 1) + HDR
              else
                ptr == 0 && tries == 1 && Valid() && b == old(b)
      ensures FirstFit(old(b), Align4(size)) < |old(b)| || sbrk ==>
                ptr != 0 && Granted(base, old(b), b, ptr, size)
    {
      AlignCovers(size);
      ghost var n := Align4(size);
      tries := 0;
      while true
        invariant Valid() && 0 <= tries <= 1 && (tries == 0 ==> b == old(b))
        invariant tries == 1 ==> sbrk && FirstFit(old(b), n) == |old(b)| && Shortage(old(b), n) >= 0
        invariant tries == 1 ==> b == Grown(old(b), PageUp(Shortage(old(b), n)))
        invariant tries == 1 ==> FirstFit(b, n) == |b| - 1 && Exact(b, |b| - 1, n)
        decreases 1 - tries
      {
        var err, dst, increase := Alloc(size);
        tries := tries + 1;
        if err == Ok {
          ptr := dst;
          if tries == 2 {
            GrownGrants(base, old(b), PageUp(Shortage(old(b), n)), b, ptr, n);
          }
          GrantedLess(base, old(b), b, ptr, n, size);
          return;
        }
        if !sbrk {
          ptr := 0;
          return;
        }
        GrowthFits(b, n, increase);
        Increase(PageUp(increase));
      }
    }
  }

  /**
   A new heap of 1024 bytes: the first block is allocated, then all the rest. Freeing the first
   and then the last leaves a heap without a last chunk, which is the layout of no heap.
   */
  method LastChunkLost() returns (h: Heap)
    ensures Open(h.hdr, h.base, h.b) && h.base == 64 && Addr(h.base, h.b, |h.b|) == 64 + 1024
    ensures forall c :: !Layout(h.hdr, h.base, c)
  {
    h := new Heap(64, 1024);
    var err, first, last, increase;
    err, first, increase := h.Alloc(16);
    assert h.b == [Block(16, true), Block(944, false)];
    err, last, increase := h.Alloc(944);
    assert h.b == [Block(16, true), Block(944, true)];
    assert At(h.hdr, 64, h.b, 0);
    err := h.Release(first, 0);
    assert h.b == [Block(16, false), Block(944, true)];
    assert At(h.hdr, 64, h.b, 1);
    err := h.Release(last, 1);
    OpenIsBroken(h.hdr, h.base, h.b);
  }
}
