/**
 User memory (mm/vma.c, kernel/uaccess.c): areas of pages, the frames behind them, fork and
 copies between kernel and user.

 Addresses are pages plus offsets; page tables are maps from pages to frames (what Paging
 proves of the real tables); `mem` holds the frames that serve user memory, `other` the rest of
 the memory, and `kmap` is the kernel half of every page table.
 */
module Vma {
  import opened Wrappers

  const PAGE: nat := 4096
  const USER_START: nat := 1
  const USER_PAGES: nat := 0x400_0000

  /** `struct vma`, in pages */
  datatype Area = Area(base: nat, n: nat, lazy: bool, flags: nat)

  datatype Mm = Mm(areas: seq<Area>, pt: map<nat, nat>)

  predicate Has(a: Area, v: nat) {
    a.base <= v < a.base + a.n
  }

  predicate Overlap(a: Area, base: nat, n: nat) {
    base + n > a.base && base < a.base + a.n
  }

  /** No area meets the range. */
  ghost predicate Roomy(areas: seq<Area>, base: nat, n: nat) {
    forall i :: 0 <= i < |areas| ==> !Overlap(areas[i], base, n)
  }

  ghost predicate Apart(areas: seq<Area>) {
    forall i, j :: 0 <= i < j < |areas| ==> !Overlap(areas[i], areas[j].base, areas[j].n)
  }

  /** The area of a page, if any. */
  ghost predicate Covered(areas: seq<Area>, v: nat) {
    exists i :: 0 <= i < |areas| && Has(areas[i], v)
  }

  function ZeroPage(): (c: seq<nat>) {
    seq(PAGE, i => 0)
  }

  /** The areas as `list_add` leaves them. */
  function Backwards(areas: seq<Area>): (r: seq<Area>) {
    if areas == [] then [] else [areas[|areas| - 1]] + Backwards(areas[..|areas| - 1])
  }

  lemma {:induction false} BackwardsApart(areas: seq<Area>, j: nat, k: nat)
    requires Apart(areas) && j <= k < |areas|
    ensures Roomy(Backwards(areas[..j]), areas[k].base, areas[k].n)
  {
    if j > 0 {
      assert areas[..j][..j - 1] == areas[..j - 1];
      BackwardsApart(areas, j - 1, k);
      assert !Overlap(areas[j - 1], areas[k].base, areas[k].n);
    }
  }

  /** An eagerly filled area is mapped to one run of frames. */
  ghost predicate Filled(pt: map<nat, nat>, a: Area) {
    !a.lazy ==> forall v: nat :: Has(a, v) ==> v in pt && a.base in pt && pt[v] == pt[a.base] + (v - a.base)
  }

  /** The areas are disjoint and hold every mapped page. */
  ghost predicate MmOk(mm: Mm) {
    && Apart(mm.areas)
    && (forall i :: 0 <= i < |mm.areas| ==> mm.areas[i].n > 0 && Filled(mm.pt, mm.areas[i]))
    && (forall v :: v in mm.pt ==> Covered(mm.areas, v))
  }

  /** The areas end before the kernel half. */
  ghost predicate InUser(mm: Mm) {
    forall i :: 0 <= i < |mm.areas| ==> USER_START <= mm.areas[i].base && mm.areas[i].base + mm.areas[i].n <= USER_PAGES
  }

  ghost predicate Confined(mms: map<nat, Mm>) {
    forall p {:trigger InUser(mms[p])} :: p in mms ==> InUser(mms[p])
  }

  lemma StillConfined(mms: map<nat, Mm>, p: nat, mm: Mm)
    requires Confined(mms) && p in mms
    requires forall i :: 0 <= i < |mm.areas| ==>
             mm.areas[i] in mms[p].areas
             || (USER_START <= mm.areas[i].base && mm.areas[i].base + mm.areas[i].n <= USER_PAGES)
    ensures Confined(mms[p := mm])
  {
    assert InUser(mms[p]);
    var mms' := mms[p := mm];
    forall q | q in mms'
      ensures InUser(mms'[q])
    {
      assert q != p ==> InUser(mms[q]);
    }
  }

  /** The kernel half, which every process shares: its pages lead to user frames, to other memory or to devices. */
  ghost predicate KernelOk(kmap: map<nat, nat>, mem: map<nat, seq<nat>>, other: map<nat, seq<nat>>) {
    && (forall v :: v in kmap ==> USER_PAGES <= v)
    && (forall f :: f in other ==> |other[f]| == PAGE)
  }

  /** What a process sees of a page: its frame, zeros where none was needed yet, or nothing. */
  ghost function View(mm: Mm, mem: map<nat, seq<nat>>, v: nat): (c: Option<seq<nat>>) {
    if v in mm.pt && mm.pt[v] in mem then Some(mem[mm.pt[v]])
    else if Covered(mm.areas, v) then Some(ZeroPage())
    else None
  }

  function Load(mem: map<nat, seq<nat>>, f: nat): (c: seq<nat>) {
    if f in mem then mem[f] else []
  }

  /** `__uvma_at`: the first area that meets a range. */
  method Find(areas: seq<Area>, base: nat, n: nat) returns (r: Option<nat>)
    ensures r.Some? ==> r.value < |areas| && Overlap(areas[r.value], base, n)
    ensures r.None? <==> Roomy(areas, base, n)
  {
    var i := 0;
    while i < |areas|
      invariant 0 <= i <= |areas| && forall k :: 0 <= k < i ==> !Overlap(areas[k], base, n)
    {
      if Overlap(areas[i], base, n) {
        return Some(i);
      }
      i := i + 1;
    }
    r := None;
  }

  /** The numbers [first, first + n). */
  function Range(first: nat, n: nat): (s: set<nat>)
    ensures forall x: nat :: x in s <==> first <= x < first + n
  {
    if n == 0 then {} else Range(first, n - 1) + {first + n - 1}
  }

  /** Page v of process p is backed by frame f. */
  ghost predicate Maps(mms: map<nat, Mm>, p: nat, v: nat, f: nat) {
    p in mms && v in mms[p].pt && mms[p].pt[v] == f
  }

  ghost predicate Backed(mms: map<nat, Mm>, f: nat) {
    exists p, v :: Maps(mms, p, v, f)
  }

  /** Mapped frames exist and are not free. */
  ghost predicate InUse(mms: map<nat, Mm>, free: set<nat>, mem: map<nat, seq<nat>>) {
    forall p, v, f :: Maps(mms, p, v, f) ==> f in mem && f !in free
  }

  /** No frame is behind two pages. */
  ghost predicate Exclusive(mms: map<nat, Mm>) {
    forall p, v, q, w, f :: Maps(mms, p, v, f) && Maps(mms, q, w, f) ==> p == q && v == w
  }

  /** No frame is lost. */
  ghost predicate Accounted(mms: map<nat, Mm>, free: set<nat>, mem: map<nat, seq<nat>>) {
    && (forall f :: f in mem ==> f in free || Backed(mms, f))
    && (forall f :: f in free ==> f in mem)
  }

  /** Every frame is free or behind exactly one page of one process. */
  ghost predicate Ok(mms: map<nat, Mm>, free: set<nat>, mem: map<nat, seq<nat>>) {
    forall n: int :: LookOk(n) ==>
      && (forall p :: p in mms ==> MmOk(mms[p]))
      && InUse(mms, free, mem) && Exclusive(mms) && Accounted(mms, free, mem)
      && (forall f :: f in mem ==> |mem[f]| == PAGE)
  }

  /** A definition under this guard unfolds only in proofs that mention it. */
  ghost predicate LookOk(n: int) {
    true
  }

  /** What the invariant says of one process and of one mapped page. */
  lemma OkMeans(mms: map<nat, Mm>, free: set<nat>, mem: map<nat, seq<nat>>, p: nat)
    requires Ok(mms, free, mem) && p in mms
    ensures MmOk(mms[p]) && Exclusive(mms) && free <= mem.Keys && InUse(mms, free, mem)
    ensures forall v :: v in mms[p].pt ==> mms[p].pt[v] in mem && |mem[mms[p].pt[v]]| == PAGE
  {
    assert LookOk(0);
    forall v | v in mms[p].pt
      ensures mms[p].pt[v] in mem
    {
      assert Maps(mms, p, v, mms[p].pt[v]);
    }
  }

  lemma FrameOf(mms: map<nat, Mm>, free: set<nat>, mem: map<nat, seq<nat>>, p: nat, v: nat)
    requires Ok(mms, free, mem) && p in mms && v in mms[p].pt
    ensures mms[p].pt[v] in mem && |mem[mms[p].pt[v]]| == PAGE
  {
    OkMeans(mms, free, mem, p);
  }

  /** A run of pages mapped to a run of frames. */
  function Run(base: nat, n: nat, first: nat): (m: map<nat, nat>)
    ensures m.Keys == Range(base, n) && forall v :: v in m ==> m[v] == first + (v - base)
  {
    map v | v in Range(base, n) :: first + (v - base)
  }

  /** Giving free frames to unmapped pages. */
  lemma AttachOk(mms: map<nat, Mm>, free: set<nat>, mem: map<nat, seq<nat>>, p: nat, mm: Mm, base: nat, n: nat,
                 first: nat)
    requires Ok(mms, free, mem) && p in mms && Range(first, n) <= free && MmOk(mm)
    requires mm.pt == mms[p].pt + Run(base, n, first) && forall v: nat :: base <= v < base + n ==> v !in mms[p].pt
    ensures Ok(mms[p := mm], free - Range(first, n), mem)
  {
    assert LookOk(0);
    AttachInUse(mms, free, mem, p, mm, base, n, first);
    AttachExclusive(mms, free, mem, p, mm, base, n, first);
    AttachAccounted(mms, free, mem, p, mm, base, n, first);
  }

  lemma AttachInUse(mms: map<nat, Mm>, free: set<nat>, mem: map<nat, seq<nat>>, p: nat, mm: Mm, base: nat, n: nat,
                    first: nat)
    requires InUse(mms, free, mem) && p in mms && Range(first, n) <= free && forall f :: f in free ==> f in mem
    requires mm.pt == mms[p].pt + Run(base, n, first)
    ensures InUse(mms[p := mm], free - Range(first, n), mem)
  {
    var mms' := mms[p := mm];
    forall q, v, f | Maps(mms', q, v, f)
      ensures f in mem && f !in free - Range(first, n)
    {
      Attached(mms, p, mm, base, n, first, q, v, f);
    }
  }

  lemma AttachExclusive(mms: map<nat, Mm>, free: set<nat>, mem: map<nat, seq<nat>>, p: nat, mm: Mm, base: nat, n: nat,
                        first: nat)
    requires InUse(mms, free, mem) && Exclusive(mms) && p in mms && Range(first, n) <= free
    requires mm.pt == mms[p].pt + Run(base, n, first)
    ensures Exclusive(mms[p := mm])
  {
    var mms' := mms[p := mm];
    forall q, v, r, w, f | Maps(mms', q, v, f) && Maps(mms', r, w, f)
      ensures q == r && v == w
    {
      Attached(mms, p, mm, base, n, first, q, v, f);
      Attached(mms, p, mm, base, n, first, r, w, f);
    }
  }

  lemma AttachAccounted(mms: map<nat, Mm>, free: set<nat>, mem: map<nat, seq<nat>>, p: nat, mm: Mm, base: nat, n: nat,
                        first: nat)
    requires Accounted(mms, free, mem) && p in mms && forall v: nat :: base <= v < base + n ==> v !in mms[p].pt
    requires mm.pt == mms[p].pt + Run(base, n, first)
    ensures Accounted(mms[p := mm], free - Range(first, n), mem)
  {
    var mms' := mms[p := mm];
    forall f | f in mem
      ensures f in free - Range(first, n) || Backed(mms', f)
    {
      if first <= f < first + n {
        assert Maps(mms', p, base + (f - first), f);
      } else if f !in free {
        var q, v :| Maps(mms, q, v, f);
        assert Maps(mms', q, v, f);
      }
    }
  }

  /** A page that is mapped now is one of the run, or was mapped before. */
  lemma Attached(mms: map<nat, Mm>, p: nat, mm: Mm, base: nat, n: nat, first: nat, q: nat, v: nat, f: nat)
    requires p in mms && mm.pt == mms[p].pt + Run(base, n, first) && Maps(mms[p := mm], q, v, f)
    ensures if q == p && base <= v < base + n then f == first + (v - base) && first <= f < first + n
            else Maps(mms, q, v, f)
  {
  }

  /** The frames behind a set of pages. */
  ghost function Behind(pt: map<nat, nat>, pages: set<nat>): (fs: set<nat>) {
    set v | v in pt && v in pages :: pt[v]
  }

  /** Taking frames back from pages. */
  lemma DetachOk(mms: map<nat, Mm>, free: set<nat>, mem: map<nat, seq<nat>>, p: nat, mm: Mm, pages: set<nat>)
    requires Ok(mms, free, mem) && p in mms && MmOk(mm) && mm.pt == mms[p].pt - pages
    ensures Ok(mms[p := mm], free + Behind(mms[p].pt, pages), mem)
  {
    assert LookOk(0);
    DetachInUse(mms, free, mem, p, mm, pages);
    DetachAccounted(mms, free, mem, p, mm, pages);
    var mms' := mms[p := mm];
    forall q, v, r, w, f | Maps(mms', q, v, f) && Maps(mms', r, w, f)
      ensures q == r && v == w
    {
      assert Maps(mms, q, v, f) && Maps(mms, r, w, f);
    }
  }

  lemma DetachInUse(mms: map<nat, Mm>, free: set<nat>, mem: map<nat, seq<nat>>, p: nat, mm: Mm, pages: set<nat>)
    requires InUse(mms, free, mem) && Exclusive(mms) && p in mms && mm.pt == mms[p].pt - pages
    ensures InUse(mms[p := mm], free + Behind(mms[p].pt, pages), mem)
  {
    var mms' := mms[p := mm];
    forall q, v, f | Maps(mms', q, v, f)
      ensures f in mem && f !in free + Behind(mms[p].pt, pages)
    {
      assert Maps(mms, q, v, f);
      if f in Behind(mms[p].pt, pages) {
        var w :| w in mms[p].pt && w in pages && mms[p].pt[w] == f;
        assert Maps(mms, p, w, f);
      }
    }
  }

  lemma DetachAccounted(mms: map<nat, Mm>, free: set<nat>, mem: map<nat, seq<nat>>, p: nat, mm: Mm, pages: set<nat>)
    requires InUse(mms, free, mem) && Accounted(mms, free, mem) && p in mms && mm.pt == mms[p].pt - pages
    ensures Accounted(mms[p := mm], free + Behind(mms[p].pt, pages), mem)
  {
    var mms', free' := mms[p := mm], free + Behind(mms[p].pt, pages);
    forall f | f in mem
      ensures f in free' || Backed(mms', f)
    {
      if f !in free {
        var q, v :| Maps(mms, q, v, f);
        if q == p && v in pages {
          assert f in Behind(mms[p].pt, pages);
        } else {
          assert Maps(mms', q, v, f);
        }
      }
    }
    forall f | f in free'
      ensures f in mem
    {
      if f !in free {
        var w :| w in mms[p].pt && w in pages && mms[p].pt[w] == f;
        assert Maps(mms, p, w, f);
      }
    }
  }

  /** Writing to a frame. */
  lemma StoreOk(mms: map<nat, Mm>, free: set<nat>, mem: map<nat, seq<nat>>, f: nat, c: seq<nat>)
    requires Ok(mms, free, mem) && f in mem && |c| == PAGE
    ensures Ok(mms, free, mem[f := c])
  {
    assert LookOk(0);
  }

  /** Adding an area next to the others. */
  lemma AddArea(mm: Mm, a: Area, pt: map<nat, nat>)
    requires MmOk(mm) && a.n > 0 && forall i :: 0 <= i < |mm.areas| ==> !Overlap(mm.areas[i], a.base, a.n)
    requires Filled(pt, a) && (forall v :: v in mm.pt ==> v in pt && pt[v] == mm.pt[v])
             && forall v :: v in pt && v !in mm.pt ==> Has(a, v)
    ensures MmOk(Mm([a] + mm.areas, pt))
  {
    var areas := [a] + mm.areas;
    forall v | v in pt
      ensures Covered(areas, v)
    {
      CoveredCons(a, mm.areas, v);
    }
    AddApart(mm, a);
    forall i | 0 <= i < |areas|
      ensures areas[i].n > 0 && Filled(pt, areas[i])
    {
      if i > 0 {
        assert Filled(mm.pt, mm.areas[i - 1]);
      }
    }
  }

  lemma AddApart(mm: Mm, a: Area)
    requires Apart(mm.areas) && forall i :: 0 <= i < |mm.areas| ==> !Overlap(mm.areas[i], a.base, a.n)
    ensures Apart([a] + mm.areas)
  {
    var areas := [a] + mm.areas;
    forall i, j | 0 <= i < j < |areas|
      ensures !Overlap(areas[i], areas[j].base, areas[j].n)
    {
      assert areas[j] == mm.areas[j - 1];
      if i == 0 {
        assert !Overlap(mm.areas[j - 1], a.base, a.n);
      }
    }
  }

  /** Some run of that many frames is free. */
  ghost predicate HasFrames(free: set<nat>, n: nat) {
    exists first: nat :: Range(first, n) <= free
  }

  /** No frame is left for a lazy area, no run of frames for another one, or no memory for the kernel itself. */
  ghost predicate Starved(free: set<nat>, spare: nat -> bool, a: Area) {
    (if a.lazy then free == {} else !HasFrames(free, a.n)) || exists v: nat :: Has(a, v) && !spare(v)
  }

  lemma OneFrame(free: set<nat>)
    ensures HasFrames(free, 1) <==> free != {}
  {
    if x :| x in free {
      assert Range(x, 1) <= free;
    }
    forall first: nat | Range(first, 1) <= free
      ensures first in free
    {
      assert first in Range(first, 1);
    }
  }

  class Users {
    var mms: map<nat, Mm>
    var free: set<nat>
    var mem: map<nat, seq<nat>>
    var other: map<nat, seq<nat>>
    const kmap: map<nat, nat>

    ghost predicate Valid()
      reads this
    {
      Ok(mms, free, mem) && Confined(mms) && KernelOk(kmap, mem, other)
    }

    /** Processes as they stand, with frames, other memory and a kernel half */
    constructor (mms: map<nat, Mm>, free: set<nat>, memory: Memory, kmap: map<nat, nat>)
      requires Ok(mms, free, memory.mem) && Confined(mms) && KernelOk(kmap, memory.mem, memory.other)
      ensures Valid() && World() == State(mms, memory) && this.free == free && this.kmap == kmap
    {
      this.mms, this.free, this.mem, this.other, this.kmap := mms, free, memory.mem, memory.other, kmap;
    }

    ghost function World(): (w: State)
      reads this
    {
      State(mms, Memory(mem, other))
    }

    /** `phys_pages_alloc`: some run of free frames, or nothing if there is none. */
    method Frames(n: nat) returns (r: Option<nat>)
      requires n > 0
      ensures r.Some? ==> Range(r.value, n) <= free
      ensures r.None? ==> !HasFrames(free, n)
    {
      var rest := free;
      while rest != {}
        invariant rest <= free && forall x :: x in free && x !in rest ==> !(Range(x, n) <= free)
        decreases rest
      {
        var first :| first in rest;
        if Range(first, n) <= free {
          return Some(first);
        }
        rest := rest - {first};
      }
      forall first: nat
        ensures !(Range(first, n) <= free)
      {
        assert first in Range(first, n);
      }
      return None;
    }

    /** `umemset` of whole pages that are mapped: they read as zeros. */
    method Clear(p: nat, base: nat, n: nat)
      requires Valid() && p in mms && Range(base, n) <= mms[p].pt.Keys
      modifies this`mem
      ensures Valid() && mem.Keys == old(mem).Keys
      ensures forall f :: Load(mem, f) == if f in Behind(mms[p].pt, Range(base, n)) then ZeroPage()
              else old(Load(mem, f))
    {
      var k := 0;
      while k < n
        invariant 0 <= k <= n && Valid() && mem.Keys == old(mem).Keys
        invariant forall f :: Load(mem, f) == if f in Behind(mms[p].pt, Range(base, k)) then ZeroPage()
                  else old(Load(mem, f))
      {
        var f := mms[p].pt[base + k];
        FrameOf(mms, free, mem, p, base + k);
        StoreOk(mms, free, mem, f, ZeroPage());
        mem := mem[f := ZeroPage()];
        BehindMore(mms[p].pt, base, k);
        k := k + 1;
      }
    }

    /**
     `uvma_create`: a new area of zeros; every other page of every process stays as it was. `spare`
     says, page by page, whether the kernel gets the memory it needs for itself: for its record of
     the area and for page tables.
     */
    method Create(p: nat, base: nat, n: nat, lazy: bool, flags: nat, spare: nat -> bool) returns (ok: bool)
      requires Valid() && p in mms && n > 0
      modifies this`mms, this`free, this`mem
      ensures Valid() && mms.Keys == old(mms).Keys && mem.Keys == old(mem).Keys
      ensures !ok ==> mms == old(mms) && free == old(free) && mem == old(mem)
      ensures ok <==>
                && USER_START <= base && base + n <= USER_PAGES && Roomy(old(mms)[p].areas, base, n)
                && spare(base) && (lazy || HasFrames(old(free), n))
      ensures ok ==> mms[p].areas == [Area(base, n, lazy, flags)] + old(mms)[p].areas
      ensures ok ==> forall v: nat :: base <= v < base + n ==>
              View(mms[p], mem, v) == Some(ZeroPage()) && !Covered(old(mms)[p].areas, v)
      ensures ok ==> KeepsViews(old(mms), old(mem), mms, mem, p, base, n)
      ensures ok && lazy ==> mms[p].pt == old(mms)[p].pt && mem == old(mem)
      ensures forall q :: q in mms && q != p ==> mms[q] == old(mms)[q]
      ensures ok && lazy ==> forall v: nat :: base <= v < base + n ==> v !in mms[p].pt
      ensures !ok ==> KeepsViews(old(mms), old(mem), mms, mem, p, base, n)
    {
      ok := false;
      if base < USER_START || base + n > USER_PAGES {
        return;
      }
      var hit := Find(mms[p].areas, base, n);
      if hit.Some? {
        return;
      }
      if !spare(base) {
        return;
      }
      OkMeans(mms, free, mem, p);
      NotCovered(mms[p], base, n);
      if !lazy {
        ok := CreateEager(p, Area(base, n, lazy, flags));
      } else {
        CreateLazy(p, Area(base, n, lazy, flags));
        ok := true;
      }
    }

    /** An area whose pages get their frames on demand. */
    method CreateLazy(p: nat, a: Area)
      requires Valid() && p in mms && Fits(mms[p], a) && a.lazy
      modifies this`mms
      ensures Valid() && mms == old(mms)[p := Mm([a] + old(mms)[p].areas, old(mms)[p].pt)]
      ensures NewViews(old(mms), mem, mms, mem, p, a)
    {
      OkMeans(mms, free, mem, p);
      AddArea(mms[p], a, mms[p].pt);
      LazyViews(mms, mem, p, a);
      assert mms[p].pt + Run(0, 0, 0) == mms[p].pt && free - Range(0, 0) == free;
      AttachOk(mms, free, mem, p, Mm([a] + mms[p].areas, mms[p].pt), 0, 0, 0);
      StillConfined(mms, p, Mm([a] + mms[p].areas, mms[p].pt));
      mms := mms[p := Mm([a] + mms[p].areas, mms[p].pt)];
    }

    /** An area whose pages get their frames at once. */
    method CreateEager(p: nat, a: Area) returns (ok: bool)
      requires Valid() && p in mms && Fits(mms[p], a) && !a.lazy
      modifies this`mms, this`free, this`mem
      ensures Valid() && mms.Keys == old(mms).Keys && mem.Keys == old(mem).Keys
      ensures ok <==> HasFrames(old(free), a.n)
      ensures !ok ==> mms == old(mms) && free == old(free) && mem == old(mem)
      ensures ok ==> mms[p].areas == [a] + old(mms)[p].areas
      ensures forall q :: q in mms && q != p ==> mms[q] == old(mms)[q]
      ensures ok ==> NewViews(old(mms), old(mem), mms, mem, p, a)
    {
      var first := Frames(a.n);
      if first.None? {
        return false;
      }
      OkMeans(mms, free, mem, p);
      EagerOk(mms, free, mem, p, a, first.value);
      StillConfined(mms, p, Mm([a] + mms[p].areas, mms[p].pt + Run(a.base, a.n, first.value)));
      mms := mms[p := Mm([a] + mms[p].areas, mms[p].pt + Run(a.base, a.n, first.value))];
      free := free - Range(first.value, a.n);
      Clear(p, a.base, a.n);
      ClearedViews(old(mms), old(mem), mms, mem, p, a, old(free), first.value);
      ok := true;
    }

    /** `uvma_handle_fault`: a frame of zeros for a page of a lazy area; nothing looks different. */
    method Fault(p: nat, v: nat, spare: nat -> bool) returns (ok: bool)
      requires Valid() && p in mms && v !in mms[p].pt && LazyAt(mms[p], v)
      modifies this`mms, this`free, this`mem
      ensures Valid() && mms.Keys == old(mms).Keys && mem.Keys == old(mem).Keys && mms[p].areas == old(mms)[p].areas
      ensures ok <==> old(free) != {} && spare(v)
      ensures !ok ==> mms == old(mms) && free == old(free) && mem == old(mem)
      ensures ok ==> mms[p].pt.Keys == old(mms)[p].pt.Keys + {v} && forall q :: q in mms && q != p ==>
              mms[q] == old(mms)[q]
      ensures ok ==> (forall w :: w in old(mms)[p].pt ==> mms[p].pt[w] == old(mms)[p].pt[w])
      ensures KeepsViews(old(mms), old(mem), mms, mem, p, 0, 0)
    {
      OneFrame(free);
      var first := Frames(1);
      if first.None? || !spare(v) {
        return false;
      }
      OkMeans(mms, free, mem, p);
      FaultOk(mms, free, mem, p, v, first.value);
      StillConfined(mms, p, mms[p].(pt := mms[p].pt[v := first.value]));
      mms := mms[p := mms[p].(pt := mms[p].pt[v := first.value])];
      free := free - Range(first.value, 1);
      mem := mem[first.value := ZeroPage()];
      ok := true;
    }

    /** `unmap_range` and `phys_free_pages` of one page */
    method FreePage(p: nat, v: nat)
      requires Valid() && p in mms && v in mms[p].pt && LazyAt(mms[p], v)
      modifies this`mms, this`free
      ensures Valid() && mms == old(mms)[p := old(mms)[p].(pt := old(mms)[p].pt - {v})]
      ensures free == old(free) + {old(mms)[p].pt[v]}
    {
      UnmapOk(mms, free, mem, p, v);
      StillConfined(mms, p, mms[p].(pt := mms[p].pt - {v}));
      free := free + {mms[p].pt[v]};
      mms := mms[p := mms[p].(pt := mms[p].pt - {v})];
    }

    /** `uvma_dealloc_range` on a lazy area: unmaps the pages of a range and frees their frames. */
    method DeallocLazy(p: nat, lo: nat, n: nat)
      requires Valid() && p in mms && forall v: nat :: lo <= v < lo + n && v in mms[p].pt ==> LazyAt(mms[p], v)
      modifies this`mms, this`free
      ensures Valid() && mms == old(mms)[p := old(mms)[p].(pt := old(mms)[p].pt - Range(lo, n))]
      ensures free == old(free) + Behind(old(mms)[p].pt, Range(lo, n))
    {
      var k := 0;
      ghost var pt := mms[p].pt;
      assert pt - Range(lo, 0) == pt && Behind(pt, Range(lo, 0)) == {};
      while k < n
        invariant 0 <= k <= n && Valid() && mms == old(mms)[p := old(mms)[p].(pt := pt - Range(lo, k))]
        invariant free == old(free) + Behind(pt, Range(lo, k))
      {
        BehindMore(pt, lo, k);
        assert pt - Range(lo, k) - {lo + k} == pt - Range(lo, k + 1);
        if lo + k in mms[p].pt {
          FreePage(p, lo + k);
        }
        k := k + 1;
      }
    }

    /** `uvma_destroy` and `list_del` of the first area, of either kind */
    method DestroyFirst(p: nat)
      requires Valid() && p in mms && |mms[p].areas| > 0
      modifies this`mms, this`free
      ensures Valid()
      ensures var a := old(mms)[p].areas[0];
              && mms == old(mms)[p := Mm(old(mms)[p].areas[1..], old(mms)[p].pt - Range(a.base, a.n))]
              && free == old(free) + Behind(old(mms)[p].pt, Range(a.base, a.n))
    {
      var mm, a := mms[p], mms[p].areas[0];
      OkMeans(mms, free, mem, p);
      DestroyedOk(mms, free, mem, p);
      StillConfined(mms, p, Mm(mm.areas[1..], mm.pt - Range(a.base, a.n)));
      if a.lazy {
        FirstIsLazy(mm);
        DeallocLazy(p, a.base, a.n);
        mms := mms[p := Mm(mms[p].areas[1..], mms[p].pt)];
        assert mms == old(mms)[p := Mm(mm.areas[1..], mm.pt - Range(a.base, a.n))];
      } else {
        // One run of frames, from the frame of the first page on.
        EagerFrames(mm, a);
        mms := mms[p := Mm(mm.areas[1..], mm.pt - Range(a.base, a.n))];
        free := free + Range(mm.pt[a.base], a.n);
      }
    }

    /** `uvmas_destroy`: every area goes, and every frame of the process comes back. */
    method DestroyAll(p: nat)
      requires Valid() && p in mms
      modifies this`mms, this`free
      ensures Valid() && mms == old(mms)[p := Mm([], map[])] && free == old(free) + old(mms)[p].pt.Values
    {
      ghost var pt := mms[p].pt;
      while |mms[p].areas| > 0
        invariant Valid() && p in mms && mms == old(mms)[p := mms[p]]
        invariant (forall v :: v in mms[p].pt ==> v in pt && mms[p].pt[v] == pt[v])
        invariant free == old(free) + (pt.Values - mms[p].pt.Values)
        decreases |mms[p].areas|
      {
        ghost var was, a := mms, mms[p].areas[0];
        OkMeans(mms, free, mem, p);
        FreedValues(mms, p, pt, Range(a.base, a.n));
        DestroyFirst(p);
      }
      OkMeans(mms, free, mem, p);
      EmptyMm(mms[p]);
    }

    /** `uvma_resize` of the i-th area: only lazy areas, only to whole pages, and never over another area. */
    method Resize(p: nat, i: nat, n: nat) returns (ok: bool)
      requires Valid() && p in mms && i < |mms[p].areas| && n > 0
      modifies this`mms, this`free
      ensures Ok(mms, free, mem) && mms.Keys == old(mms).Keys
      ensures Valid() <==> !ok || old(mms)[p].areas[i].base + n <= USER_PAGES
      ensures var areas := old(mms)[p].areas;
              ok <==> areas[i].lazy
                      && (n > areas[i].n ==> Roomy(areas, areas[i].base + areas[i].n, n - areas[i].n))
      ensures !ok ==> mms == old(mms) && free == old(free)
      ensures ok ==> var a := old(mms)[p].areas[i];
                     && mms[p].areas == old(mms)[p].areas[i := a.(n := n)]
                     && mms[p].pt == if n < a.n then old(mms)[p].pt - Range(a.base + n, a.n - n) else old(mms)[p].pt
      ensures ok ==> forall q :: q in mms && q != p ==> mms[q] == old(mms)[q]
    {
      var mm, a := mms[p], mms[p].areas[i];
      OkMeans(mms, free, mem, p);
      if !a.lazy {
        return false;
      }
      ok := true;
      assert InUser(mms[p]);
      if n == a.n {
        assert mm.areas[i := a.(n := n)] == mm.areas;
        return;
      }
      if n < a.n {
        AreaIsLazy(mm, i);
        DeallocLazy(p, a.base + n, a.n - n);
      } else {
        var hit := Find(mm.areas, a.base + a.n, n - a.n);
        if hit.Some? {
          return false;
        }
      }
      ResizeOk(mms, free, mem, p, i, n);
      ResizeConfined(mms, p, i, n);
      mms := mms[p := mms[p].(areas := mms[p].areas[i := a.(n := n)])];
    }

    /**
     The loop of `uvma_duplicate`: every page of the area that has a frame in the parent gets an
     equal one in the child.
     */
    method CopyPages(dst: nat, src: nat, a: Area, spare: nat -> bool) returns (ok: bool)
      requires Valid() && dst in mms && src in mms && dst != src && a in mms[dst].areas
      requires forall v: nat :: Has(a, v) ==> View(mms[dst], mem, v) == Some(ZeroPage()) && View(mms[src], mem, v).Some?
      requires a.lazy ==> forall v: nat :: Has(a, v) ==> v !in mms[dst].pt
      modifies this`mms, this`free, this`mem
      ensures Valid() && mms.Keys == old(mms).Keys && mem.Keys == old(mem).Keys
      ensures (forall q :: q in mms && q != dst ==> mms[q] == old(mms)[q]) && mms[dst].areas == old(mms)[dst].areas
      ensures KeepsViews(old(mms), old(mem), mms, mem, dst, a.base, a.n)
      ensures ok ==> forall v: nat :: Has(a, v) ==> View(mms[dst], mem, v) == View(mms[src], mem, v)
      ensures !ok ==> a.lazy && Starved(free, spare, a)
    {
      var k := 0;
      while k < a.n
        invariant 0 <= k <= a.n && Valid() && mms.Keys == old(mms).Keys && mem.Keys == old(mem).Keys
        invariant (forall q :: q in mms && q != dst ==> mms[q] == old(mms)[q]) && mms[dst].areas == old(mms)[dst].areas
        invariant KeepsViews(old(mms), old(mem), mms, mem, dst, a.base, k)
        invariant forall v: nat :: a.base <= v < a.base + k ==> View(mms[dst], mem, v) == View(mms[src], mem, v)
        invariant a.lazy ==> forall v: nat :: a.base + k <= v < a.base + a.n ==> v !in mms[dst].pt
      {
        ghost var mms1, mem1 := mms, mem;
        ok := CopyPage(dst, src, a, a.base + k, spare);
        PageCopied(old(mms), old(mem), mms1, mem1, mms, mem, dst, src, a, k);
        if !ok {
          return;
        }
        k := k + 1;
      }
      ok := true;
    }

    method CopyPage(dst: nat, src: nat, a: Area, v: nat, spare: nat -> bool) returns (ok: bool)
      requires Valid() && dst in mms && src in mms && dst != src && a in mms[dst].areas && Has(a, v)
      requires View(mms[dst], mem, v) == Some(ZeroPage()) && View(mms[src], mem, v).Some?
               && (a.lazy ==> v !in mms[dst].pt)
      modifies this`mms, this`free, this`mem
      ensures mms.Keys == old(mms).Keys && forall w :: w in mms[dst].pt ==> w in old(mms)[dst].pt || w == v
      ensures Valid() && mms.Keys == old(mms).Keys && mem.Keys == old(mem).Keys
      ensures (forall q :: q in mms && q != dst ==> mms[q] == old(mms)[q]) && mms[dst].areas == old(mms)[dst].areas
      ensures KeepsViews(old(mms), old(mem), mms, mem, dst, v, 1)
      ensures ok ==> View(mms[dst], mem, v) == View(mms[src], mem, v)
      ensures !ok ==> a.lazy && (free == {} || !spare(v))
    {
      ok := true;
      if v !in mms[src].pt {
        UnmappedIsZero(mms, free, mem, src, v);
        return;
      }
      if a.lazy {
        InLazy(mms[dst], a, v);
        ok := Fault(dst, v, spare);
        if !ok {
          return;
        }
      }
      EagerMapped(mms, free, mem, dst, a, v);
      FrameOf(mms, free, mem, dst, v);
      FrameOf(mms, free, mem, src, v);
      var from, to := mms[src].pt[v], mms[dst].pt[v];
      StoreOk(mms, free, mem, to, mem[from]);
      StoreViews(mms, free, mem, dst, v, mem[from]);
      ViewsChain(old(mms), old(mem), mms, mem, mem[to := mem[from]], dst, v);
      FramesApart(mms, free, mem, dst, src, v);
      mem := mem[to := mem[from]];
    }

    /** `uvma_duplicate`: an area of the parent with the same contents in the child. */
    method Duplicate(dst: nat, src: nat, a: Area, spare: nat -> bool) returns (ok: bool)
      requires Valid() && dst in mms && src in mms && dst != src && a in mms[src].areas
      modifies this`mms, this`free, this`mem
      ensures Valid() && mms.Keys == old(mms).Keys && mem.Keys == old(mem).Keys
      ensures forall q :: q in mms && q != dst ==> mms[q] == old(mms)[q]
      ensures KeepsViews(old(mms), old(mem), mms, mem, dst, a.base, a.n)
      ensures ok ==> mms[dst].areas == [a] + old(mms)[dst].areas
      ensures !ok && Roomy(old(mms)[dst].areas, a.base, a.n) ==> Starved(free, spare, a)
      ensures ok ==> forall v: nat :: Has(a, v) ==> View(mms[dst], mem, v) == View(mms[src], mem, v)
    {
      AreaFacts(mms, free, mem, src, a);
      assert InUser(mms[src]);
      ok := Create(dst, a.base, a.n, a.lazy, a.flags, spare);
      if !ok {
        return;
      }
      ghost var mms1, mem1 := mms, mem;
      AreaViews(mms, mem, src, a);
      ok := CopyPages(dst, src, a, spare);
      DuplicateViews(old(mms), old(mem), mms1, mem1, mms, mem, dst, a);
    }

    /** The memory part of `fork`: the child sees what the parent sees, on frames of its own. */
    method Fork(dst: nat, src: nat, spare: nat -> bool) returns (ok: bool)
      requires Valid() && dst in mms && src in mms && dst != src && mms[dst] == Mm([], map[])
      modifies this`mms, this`free, this`mem
      ensures Valid() && mms.Keys == old(mms).Keys && mem.Keys == old(mem).Keys
      ensures forall q :: q in mms && q != dst ==> mms[q] == old(mms)[q]
      ensures forall q, v: nat :: q in mms && q != dst ==> View(mms[q], mem, v) == View(old(mms)[q], old(mem), v)
      ensures ok ==> forall v: nat :: View(mms[dst], mem, v) == View(mms[src], mem, v)
      ensures ok ==> mms[dst].areas == Backwards(mms[src].areas)
      ensures !ok ==> exists a :: a in mms[src].areas && Starved(free, spare, a)
    {
      var k, areas := 0, mms[src].areas;
      NothingSeen(mms[dst], mem);
      while k < |areas|
        invariant 0 <= k <= |areas| && Valid() && mms.Keys == old(mms).Keys && mem.Keys == old(mem).Keys
        invariant forall q :: q in mms && q != dst ==> mms[q] == old(mms)[q]
        invariant forall q, v: nat :: q in mms && q != dst ==> View(mms[q], mem, v) == View(old(mms)[q], old(mem), v)
        invariant SeenSoFar(mms, mem, dst, src, areas[..k]) && mms[dst].areas == Backwards(areas[..k])
      {
        ghost var mms1, mem1 := mms, mem;
        OkMeans(mms, free, mem, src);
        BackwardsApart(areas, k, k);
        ok := Duplicate(dst, src, areas[k], spare);
        if !ok {
          return;
        }
        SeenMore(mms1, mem1, mms, mem, dst, src, areas, k);
        assert areas[..k + 1][..k] == areas[..k];
        k := k + 1;
      }
      ok := true;
      OkMeans(mms, free, mem, src);
      assert areas[..k] == areas;
      AllSeen(mms, mem, dst, src);
    }

    /** `copy_from_user`: the bytes behind the address, up to the first one that tables and areas lack. */
    method CopyFrom(p: nat, from: nat, n: nat) returns (data: seq<nat>, trap: bool)
      requires Valid() && p in mms
      ensures |data| <= n && forall i :: 0 <= i < |data| ==> ByteAt(mms[p], kmap, mem, other, from + i) == Some(data[i])
      ensures |data| < n ==> ByteAt(mms[p], kmap, mem, other, from + |data|) == None
      ensures trap <==> |data| < n && Traps(mms[p], kmap, mem, other, from + |data|)
      ensures from + n <= USER_END ==> !trap && SeenBytes(mms[p], mem, from, n, data)
    {
      data, trap := [], false;
      while |data| < n
        invariant |data| <= n && !trap
        invariant forall i :: 0 <= i < |data| ==> ByteAt(mms[p], kmap, mem, other, from + i) == Some(data[i])
        decreases n - |data|
      {
        var at := from + |data|;
        var off := at % PAGE;
        var page;
        page, trap := PageFor(p, at);
        if page.None? {
          break;
        }
        var w := if n - |data| < PAGE - off then n - |data| else PAGE - off;
        PageBytes(mms[p], kmap, mem, other, at, w, page.value);
        data := data + page.value[off..off + w];
      }
      UserBytes(mms[p], kmap, mem, other, from, n, data);
    }

    /** `user_to_direct_null`: the frame of a page, or the zero page where an area has none yet. */
    method PageFor(p: nat, at: nat) returns (page: Option<seq<nat>>, trap: bool)
      requires Valid() && p in mms
      ensures page == PageAt(mms[p], kmap, mem, other, at) && (page.Some? ==> |page.value| == PAGE)
      ensures trap <==> Traps(mms[p], kmap, mem, other, at)
      ensures page.Some? ==> !trap
    {
      var v := PageOf(at);
      LengthOk(mms, free, mem);
      if v in kmap {
        var f := kmap[v];
        if f !in mem && f !in other {
          return None, true;
        }
        return Some(if f in mem then mem[f] else other[f]), false;
      }
      if v in mms[p].pt {
        FrameOf(mms, free, mem, p, v);
        return Some(mem[mms[p].pt[v]]), false;
      }
      if IsLast(at) {
        LastByte(mms, free, mem, p, at);
        return None, true;
      }
      var area := Find(mms[p].areas, AreaPage(at), 1);
      AreaAt(mms[p].areas, AreaPage(at));
      if area.None? {
        return None, false;
      }
      assert Has(mms[p].areas[area.value], AreaPage(at));
      return Some(ZeroPage()), false;
    }

    /** `user_to_direct_fault`: makes a page present, if the process has it and a frame is left. */
    method Reach(p: nat, at: nat, spare: nat -> bool) returns (ok: bool, oom: bool, trap: bool)
      requires Valid() && p in mms
      modifies this`mms, this`free, this`mem
      ensures Valid() && mms.Keys == old(mms).Keys && KeepsViews(old(mms), old(mem), mms, mem, p, 0, 0)
              && mem.Keys == old(mem).Keys
      ensures ok ==> !oom && !trap && (PageOf(at) in mms[p].pt || PageOf(at) in kmap)
      ensures PageOf(at) in kmap ==> !oom && mms == old(mms) && mem == old(mem) && free == old(free)
                                     && (ok <==> kmap[PageOf(at)] in mem || kmap[PageOf(at)] in other)
      ensures !ok ==> mms == old(mms) && mem == old(mem) && free == old(free)
      ensures oom ==> PageOf(at) < USER_PAGES && (free == {} || !spare(PageOf(at)))
      ensures !ok ==> (oom <==> PageAt(mms[p], kmap, mem, other, at).Some?)
                      && (trap <==> Traps(mms[p], kmap, mem, other, at))
    {
      var v := PageOf(at);
      ok, oom, trap := true, false, false;
      if v in kmap {
        trap := kmap[v] !in mem && kmap[v] !in other;
        ok := !trap;
      } else if v !in mms[p].pt {
        if IsLast(at) {
          LastByte(mms, free, mem, p, at);
          return false, false, true;
        }
        var area := Find(mms[p].areas, AreaPage(at), 1);
        AreaAt(mms[p].areas, AreaPage(at));
        if area.None? {
          return false, false, false;
        }
        AreaIsUser(mms, p, area.value, at);
        FaultArea(mms, free, mem, p, area.value, v);
        ok := Fault(p, v, spare);
        oom := !ok;
      }
    }

    /** The bytes go into the frame behind one page. */
    method StoreAt(p: nat, v: nat, off: nat, bytes: seq<nat>)
      requires Valid() && p in mms && v in mms[p].pt && mms[p].pt[v] in mem && off + |bytes| <= PAGE
      modifies this`mem
      ensures Valid() && mem.Keys == old(mem).Keys
      ensures |old(mem)[mms[p].pt[v]]| == PAGE && KeepsViews(mms, old(mem), mms, mem, p, v, 1)
      ensures View(mms[p], mem, v) == Some(var c := old(mem)[mms[p].pt[v]]; c[..off] + bytes + c[off + |bytes|..])
    {
      FrameOf(mms, free, mem, p, v);
      var f := mms[p].pt[v];
      var page := mem[f][..off] + bytes + mem[f][off + |bytes|..];
      StoreOk(mms, free, mem, f, page);
      StoreViews(mms, free, mem, p, v, page);
      mem := mem[f := page];
    }

    /** The same through a page of the kernel half. */
    method StoreKernel(v: nat, off: nat, bytes: seq<nat>)
      requires Valid() && v in kmap && (kmap[v] in mem || kmap[v] in other) && off + |bytes| <= PAGE
      modifies this`mem, this`other
      ensures Valid() && mem.Keys == old(mem).Keys
      ensures Spliced(Memory(old(mem), old(other)), Memory(mem, other), kmap[v], off, bytes)
    {
      var f := kmap[v];
      LengthOk(mms, free, mem);
      if f in mem {
        var page := mem[f][..off] + bytes + mem[f][off + |bytes|..];
        StoreOk(mms, free, mem, f, page);
        mem := mem[f := page];
      } else {
        other := other[f := other[f][..off] + bytes + other[f][off + |bytes|..]];
      }
    }

    /**
     `copy_to_user`: page by page, the bytes go where the tables lead. In user space they appear at
     the address and nowhere else; in the kernel half they go wherever the kernel's mappings lead.
     */
    method CopyTo(p: nat, d: nat, data: seq<nat>, spare: nat -> bool) returns (copied: nat, oom: bool, trap: bool)
      requires Valid() && p in mms
      modifies this`mms, this`free, this`mem, this`other
      ensures Valid() && mms.Keys == old(mms).Keys && copied <= |data|
      ensures Copies(kmap, old(World()), World(), p, d, data[..copied])
      ensures copied < |data| ==> (oom || ByteAt(mms[p], kmap, mem, other, d + copied) == None)
      ensures trap <==> copied < |data| && Traps(mms[p], kmap, mem, other, d + copied)
      ensures copied == |data| ==> !oom
      ensures oom ==> free == {} || !spare(PageOf(d + copied))
      ensures d + |data| <= USER_END ==>
                Stored(old(mms), old(mem), mms, mem, p, d, data[..copied]) && other == old(other) && !trap
      ensures InKernelHalf(d, |data|) ==>
                !oom && mms == old(mms) && Memory(mem, other) == Poked(kmap, old(World()).memory, d, data[..copied])
      ensures d < USER_END < d + |data| <= 2 * USER_END ==>
                Across(kmap, old(World()), World(), p, d, data[..copied])
    {
      copied, oom, trap := 0, false, false;
      assert data[..0] == [];
      while copied < |data|
        invariant copied <= |data| && Valid() && mms.Keys == old(mms).Keys && !oom && !trap
        invariant Copies(kmap, old(World()), World(), p, d, data[..copied])
        decreases |data| - copied
      {
        var w;
        ghost var before := World();
        w, oom, trap := CopyChunk(p, d + copied, data[copied..], spare);
        if w == 0 {
          break;
        }
        CopiesMore(kmap, old(World()), before, World(), p, d, data, copied, w);
        copied := copied + w;
      }
      CopiesMeans(kmap, old(World()), World(), p, d, data, copied);
      if copied < |data| {
        assert IsKernel(d + copied) <==> USER_PAGES <= PageOf(d + copied);
        if d + copied < USER_END {
          UserByte(mms[p], kmap, mem, other, d + copied);
        }
      }
    }

    /** One round of that loop: up to the end of a page. */
    method CopyChunk(p: nat, at: nat, data: seq<nat>, spare: nat -> bool) returns (w: nat, oom: bool, trap: bool)
      requires Valid() && p in mms && data != []
      modifies this`mms, this`free, this`mem, this`other
      ensures Valid() && mms.Keys == old(mms).Keys && w <= |data| && (w > 0 ==> !oom && !trap)
      ensures w == 0 ==> World() == old(World()) && (oom || ByteAt(mms[p], kmap, mem, other, at) == None)
                         && (oom ==> PageOf(at) < USER_PAGES && (free == {} || !spare(PageOf(at))))
                         && (trap <==> Traps(mms[p], kmap, mem, other, at))
      ensures w > 0 ==> Chunk(kmap, old(World()), World(), p, at, data[..w])
    {
      var v, off := PageOf(at), at % PAGE;
      var reached;
      ConfinedTables(mms, free, mem, p, v);
      reached, oom, trap := Reach(p, at, spare);
      if !reached {
        w := 0;
        return;
      }
      w := if |data| < PAGE - off then |data| else PAGE - off;
      if v in kmap {
        StoreKernel(v, off, data[..w]);
      } else {
        ConfinedTables(mms, free, mem, p, v);
        UserChunk(p, at, data[..w], old(mms), old(mem));
      }
    }

    method UserChunk(p: nat, at: nat, bytes: seq<nat>, ghost mms1: map<nat, Mm>, ghost mem1: map<nat, seq<nat>>)
      requires Valid() && p in mms && at % PAGE + |bytes| <= PAGE && PageOf(at) in mms[p].pt
      requires mms1.Keys == mms.Keys && KeepsViews(mms1, mem1, mms, mem, p, 0, 0)
      modifies this`mem
      ensures Valid() && mem.Keys == old(mem).Keys
      ensures Stored(mms1, mem1, mms, mem, p, Low(at), bytes)
    {
      var v, off := PageOf(at), at % PAGE;
      FrameOf(mms, free, mem, p, v);
      StoreAt(p, v, off, bytes);
      LowPage(at);
      StoredChunk(mms1, mem1, mms, old(mem), mem, p, Low(at), bytes);
    }
  }

  const USER_END: nat := USER_PAGES * PAGE

  /** Addresses have 64 bits. */
  const ALL_PAGES: nat := 0x10_0000_0000_0000

  /** The page that the page tables have for an address: they use 39 of its bits. */
  function PageOf(addr: nat): (v: nat) {
    addr / PAGE % (2 * USER_PAGES)
  }

  /** The page that is looked up in the areas: all bits count. */
  function AreaPage(addr: nat): (v: nat) {
    addr / PAGE % ALL_PAGES
  }

  /** The last address of all: a range that begins there has no end. */
  predicate IsLast(addr: nat) {
    AreaPage(addr) == ALL_PAGES - 1 && addr % PAGE == PAGE - 1
  }

  /** The lowest address that the page tables take for this one */
  function Low(addr: nat): (a: nat) {
    PageOf(addr) * PAGE + addr % PAGE
  }

  lemma LowPage(addr: nat)
    ensures Low(addr) / PAGE == PageOf(addr) && Low(addr) % PAGE == addr % PAGE
            && (addr < USER_END ==> Low(addr) == addr)
  {
  }

  lemma Halves(addr: nat)
    ensures addr < USER_END ==> PageOf(addr) == AreaPage(addr) == addr / PAGE < USER_PAGES
    ensures USER_END <= addr < 2 * USER_END ==> USER_PAGES <= PageOf(addr) == addr / PAGE
    ensures AreaPage(addr) < USER_PAGES ==> PageOf(addr) == AreaPage(addr)
  {
    var n := addr / PAGE;
    assert n % ALL_PAGES % (2 * USER_PAGES) == n % (2 * USER_PAGES);
  }

  /** What the page tables and areas of a process give for an address of either half. */
  ghost function PageAt(mm: Mm, kmap: map<nat, nat>, mem: map<nat, seq<nat>>, other: map<nat, seq<nat>>,
                        addr: nat): (c: Option<seq<nat>>) {
    var v := PageOf(addr);
    if v in kmap then
      if kmap[v] in mem then Some(mem[kmap[v]]) else if kmap[v] in other then Some(other[kmap[v]]) else None
    else if v in mm.pt && mm.pt[v] in mem then Some(mem[mm.pt[v]])
    else if Covered(mm.areas, AreaPage(addr)) then Some(ZeroPage())
    else None
  }

  /** The lookup ends in a panic: at a device, and at the last address of all if no table has it. */
  ghost predicate Traps(mm: Mm, kmap: map<nat, nat>, mem: map<nat, seq<nat>>, other: map<nat, seq<nat>>, addr: nat) {
    var v := PageOf(addr);
    if v in kmap then kmap[v] !in mem && kmap[v] !in other else v !in mm.pt && IsLast(addr)
  }

  ghost function ByteAt(mm: Mm, kmap: map<nat, nat>, mem: map<nat, seq<nat>>, other: map<nat, seq<nat>>,
                        addr: nat): (b: Option<nat>) {
    var c := PageAt(mm, kmap, mem, other, addr);
    if c.Some? && |c.value| == PAGE then Some(c.value[addr % PAGE]) else None
  }

  /** The bytes that the process sees from an address on, as far as it sees any. */
  ghost predicate SeenBytes(mm: Mm, mem: map<nat, seq<nat>>, from: nat, n: nat, data: seq<nat>) {
    && |data| <= n && (forall i :: 0 <= i < |data| ==> Byte(mm, mem, from + i) == Some(data[i]))
    && (|data| < n ==> Byte(mm, mem, from + |data|) == None)
  }

  lemma UserByte(mm: Mm, kmap: map<nat, nat>, mem: map<nat, seq<nat>>, other: map<nat, seq<nat>>, addr: nat)
    requires KernelOk(kmap, mem, other) && addr < USER_END
    ensures ByteAt(mm, kmap, mem, other, addr) == Byte(mm, mem, addr) && !Traps(mm, kmap, mem, other, addr)
  {
    Halves(addr);
  }

  /** In user space, what is copied is what the process sees. */
  lemma UserBytes(mm: Mm, kmap: map<nat, nat>, mem: map<nat, seq<nat>>, other: map<nat, seq<nat>>, from: nat, n: nat,
                  data: seq<nat>)
    requires KernelOk(kmap, mem, other) && |data| <= n
    requires forall i :: 0 <= i < |data| ==> ByteAt(mm, kmap, mem, other, from + i) == Some(data[i])
    requires |data| < n ==> ByteAt(mm, kmap, mem, other, from + |data|) == None
    ensures from + n <= USER_END ==> SeenBytes(mm, mem, from, n, data)
    ensures from + n <= USER_END && |data| < n ==> !Traps(mm, kmap, mem, other, from + |data|)
  {
    if from + n <= USER_END {
      forall a: nat | from <= a < from + n
        ensures ByteAt(mm, kmap, mem, other, a) == Byte(mm, mem, a) && !Traps(mm, kmap, mem, other, a)
      {
        UserByte(mm, kmap, mem, other, a);
      }
    }
  }

  lemma LengthOk(mms: map<nat, Mm>, free: set<nat>, mem: map<nat, seq<nat>>)
    requires Ok(mms, free, mem)
    ensures forall f :: f in mem ==> |mem[f]| == PAGE
  {
    assert LookOk(0);
  }

  /** A process has no tables of its own in the kernel half. */
  lemma ConfinedTables(mms: map<nat, Mm>, free: set<nat>, mem: map<nat, seq<nat>>, p: nat, v: nat)
    requires Ok(mms, free, mem) && Confined(mms) && p in mms
    ensures v in mms[p].pt ==> v < USER_PAGES
  {
    OkMeans(mms, free, mem, p);
    assert InUser(mms[p]);
  }

  /** An area that holds an address lies in user space, where tables and areas go by the same page. */
  lemma AreaIsUser(mms: map<nat, Mm>, p: nat, i: nat, at: nat)
    requires Confined(mms) && p in mms && i < |mms[p].areas| && Has(mms[p].areas[i], AreaPage(at))
    ensures PageOf(at) == AreaPage(at) < USER_PAGES
  {
    assert InUser(mms[p]);
    Halves(at);
  }

  /** The last address of all is in no area. */
  lemma LastByte(mms: map<nat, Mm>, free: set<nat>, mem: map<nat, seq<nat>>, p: nat, at: nat)
    requires Ok(mms, free, mem) && Confined(mms) && p in mms && IsLast(at)
    ensures !Covered(mms[p].areas, AreaPage(at))
  {
    assert InUser(mms[p]);
  }

  // ----- Writing page by page -----

  /** What a copy may change */
  datatype State = State(mms: map<nat, Mm>, memory: Memory)

  /** Bytes inside a page go to the frame that the kernel half has for it, or to the process. */
  ghost predicate Chunk(kmap: map<nat, nat>, w: State, w': State, p: nat, at: nat, bytes: seq<nat>) {
    forall n: int :: LookChunk(n) ==>
      && at % PAGE + |bytes| <= PAGE
      && if PageOf(at) in kmap then
           w'.mms == w.mms && Spliced(w.memory, w'.memory, kmap[PageOf(at)], at % PAGE, bytes)
         else
           PageOf(at) < USER_PAGES && w'.memory.other == w.memory.other
           && Stored(w.mms, w.memory.mem, w'.mms, w'.memory.mem, p, Low(at), bytes)
  }

  ghost predicate LookChunk(n: int) {
    true
  }

  /** The bytes are written one piece after the other, each inside a page. */
  ghost predicate Copies(kmap: map<nat, nat>, w: State, w': State, p: nat, d: nat, data: seq<nat>)
    decreases |data|
  {
    if data == [] then w' == w
    else
      exists k: nat, m :: k < |data| && Copies(kmap, w, m, p, d, data[..k]) && Chunk(kmap, m, w', p, d + k, data[k..])
  }

  lemma CopiesMore(kmap: map<nat, nat>, w0: State, w1: State, w2: State, p: nat, d: nat, data: seq<nat>, k: nat, n: nat)
    requires 0 < n && k + n <= |data| && Copies(kmap, w0, w1, p, d, data[..k])
    requires Chunk(kmap, w1, w2, p, d + k, data[k..][..n])
    ensures Copies(kmap, w0, w2, p, d, data[..k + n])
  {
    var all := data[..k + n];
    assert all[..k] == data[..k] && all[k..] == data[k..][..n];
  }

  predicate IsKernel(addr: nat) {
    USER_PAGES <= PageOf(addr)
  }

  /** All of it in the kernel half */
  ghost predicate InKernelHalf(d: nat, n: nat) {
    forall a: nat :: d <= a < d + n ==> IsKernel(a)
  }

  /** First what is in user space, then the rest through the kernel half */
  ghost predicate Across(kmap: map<nat, nat>, w: State, w': State, p: nat, d: nat, data: seq<nat>)
    requires d < USER_END
  {
    var u := if |data| <= USER_END - d then |data| else USER_END - d;
    exists m: State :: AcrossBy(kmap, w, m, w', p, d, data, u)
  }

  ghost predicate AcrossBy(kmap: map<nat, nat>, w: State, m: State, w': State, p: nat, d: nat, data: seq<nat>, u: nat)
    requires u <= |data|
  {
    && Stored(w.mms, w.memory.mem, m.mms, m.memory.mem, p, d, data[..u]) && m.memory.other == w.memory.other
    && w'.mms == m.mms && w'.memory == Poked(kmap, m.memory, d + u, data[u..])
  }

  lemma CopiesMeans(kmap: map<nat, nat>, w: State, w': State, p: nat, d: nat, data: seq<nat>, n: nat)
    requires n <= |data| && Copies(kmap, w, w', p, d, data[..n]) && p in w.mms
    requires forall v :: v in kmap ==> USER_PAGES <= v
    ensures d + |data| <= USER_END ==>
              Stored(w.mms, w.memory.mem, w'.mms, w'.memory.mem, p, d, data[..n]) && w'.memory.other == w.memory.other
    ensures InKernelHalf(d, |data|) ==> w'.mms == w.mms && w'.memory == Poked(kmap, w.memory, d, data[..n])
    ensures d < USER_END < d + |data| <= 2 * USER_END ==> Across(kmap, w, w', p, d, data[..n])
  {
    if d + |data| <= USER_END {
      CopiesUser(kmap, w, w', p, d, data[..n]);
    }
    if InKernelHalf(d, |data|) {
      CopiesKernel(kmap, w, w', p, d, data[..n]);
    }
    if d < USER_END < d + |data| <= 2 * USER_END {
      CopiesAcross(kmap, w, w', p, d, data[..n]);
    }
  }

  /** In user space the bytes appear at the address and nowhere else. */
  lemma {:induction false} CopiesUser(kmap: map<nat, nat>, w: State, w': State, p: nat, d: nat, data: seq<nat>)
    requires Copies(kmap, w, w', p, d, data) && p in w.mms && d + |data| <= USER_END
    requires forall v :: v in kmap ==> USER_PAGES <= v
    ensures Stored(w.mms, w.memory.mem, w'.mms, w'.memory.mem, p, d, data) && w'.memory.other == w.memory.other
    decreases |data|
  {
    if data != [] {
      var k: nat, m :| k < |data| && Copies(kmap, w, m, p, d, data[..k]) && Chunk(kmap, m, w', p, d + k, data[k..]);
      CopiesUser(kmap, w, m, p, d, data[..k]);
      ChunkUser(kmap, m, w', p, d + k, data[k..]);
      StoredBoth(w.mms, w.memory.mem, m.mms, m.memory.mem, w'.mms, w'.memory.mem, p, d, data, k);
    }
  }

  lemma ChunkUser(kmap: map<nat, nat>, w: State, w': State, p: nat, at: nat, bytes: seq<nat>)
    requires Chunk(kmap, w, w', p, at, bytes) && at < USER_END && forall v :: v in kmap ==> USER_PAGES <= v
    ensures Stored(w.mms, w.memory.mem, w'.mms, w'.memory.mem, p, at, bytes) && w'.memory.other == w.memory.other
  {
    assert LookChunk(0);
    Halves(at);
    LowPage(at);
  }

  lemma StoredBoth(mms0: map<nat, Mm>, mem0: map<nat, seq<nat>>, mms1: map<nat, Mm>, mem1: map<nat, seq<nat>>,
                   mms2: map<nat, Mm>, mem2: map<nat, seq<nat>>, p: nat, d: nat, data: seq<nat>, k: nat)
    requires k <= |data| && Stored(mms0, mem0, mms1, mem1, p, d, data[..k])
    requires Stored(mms1, mem1, mms2, mem2, p, d + k, data[k..])
    ensures Stored(mms0, mem0, mms2, mem2, p, d, data)
  {
  }

  /** In the kernel half they go where its mappings lead. */
  lemma {:induction false} CopiesKernel(kmap: map<nat, nat>, w: State, w': State, p: nat, d: nat, data: seq<nat>)
    requires Copies(kmap, w, w', p, d, data) && InKernelHalf(d, |data|)
    ensures w'.mms == w.mms && w'.memory == Poked(kmap, w.memory, d, data)
    decreases |data|
  {
    if data != [] {
      var k: nat, m :| k < |data| && Copies(kmap, w, m, p, d, data[..k]) && Chunk(kmap, m, w', p, d + k, data[k..]);
      CopiesKernel(kmap, w, m, p, d, data[..k]);
      assert LookChunk(0) && IsKernel(d + k);
      KernelStep(kmap, w.memory, m.memory, w'.memory, d, data, k);
    }
  }

  lemma KernelStep(kmap: map<nat, nat>, m0: Memory, m1: Memory, m2: Memory, d: nat, data: seq<nat>, k: nat)
    requires k < |data| && PageOf(d + k) in kmap && m1 == Poked(kmap, m0, d, data[..k])
    requires Spliced(m1, m2, kmap[PageOf(d + k)], (d + k) % PAGE, data[k..])
    ensures m2 == Poked(kmap, m0, d, data)
  {
    PokedRun(kmap, m0, d, data, k, |data| - k);
    assert data[..|data|] == data && data[k..|data|] == data[k..];
  }

  /** A copy is one up to a page boundary and one from there on. */
  lemma {:induction false} CopiesSplit(kmap: map<nat, nat>, w: State, w': State, p: nat, d: nat, data: seq<nat>, u: nat)
    returns (m: State)
    requires Copies(kmap, w, w', p, d, data) && u <= |data| && (d + u) % PAGE == 0
    ensures Copies(kmap, w, m, p, d, data[..u]) && Copies(kmap, m, w', p, d + u, data[u..])
    decreases |data|
  {
    if u == |data| {
      m := w';
      assert data[..u] == data && data[u..] == [];
    } else {
      var k: nat, x :| k < |data| && Copies(kmap, w, x, p, d, data[..k]) && Chunk(kmap, x, w', p, d + k, data[k..]);
      InsidePage(kmap, x, w', p, d + k, data[k..]);
      NoPageBetween(d + k, d + u, |data| - k);
      m := CopiesSplit(kmap, w, x, p, d, data[..k], u);
      var rest := data[u..];
      assert data[..k][..u] == data[..u] && data[..k][u..] == rest[..k - u] && rest[k - u..] == data[k..];
    }
  }

  lemma InsidePage(kmap: map<nat, nat>, w: State, w': State, p: nat, at: nat, bytes: seq<nat>)
    requires Chunk(kmap, w, w', p, at, bytes)
    ensures at % PAGE + |bytes| <= PAGE
  {
    assert LookChunk(0);
  }

  lemma NoPageBetween(at: nat, b: nat, n: nat)
    requires at % PAGE + n <= PAGE && b % PAGE == 0 && b < at + n
    ensures b <= at
  {
  }

  lemma CopiesAcross(kmap: map<nat, nat>, w: State, w': State, p: nat, d: nat, data: seq<nat>)
    requires Copies(kmap, w, w', p, d, data) && p in w.mms && d < USER_END && d + |data| <= 2 * USER_END
    requires forall v :: v in kmap ==> USER_PAGES <= v
    ensures Across(kmap, w, w', p, d, data)
  {
    if d + |data| <= USER_END {
      CopiesUser(kmap, w, w', p, d, data);
      assert data[..|data|] == data && data[|data|..] == [];
      assert AcrossBy(kmap, w, w', w', p, d, data, |data|);
    } else {
      var u := USER_END - d;
      var m := CopiesSplit(kmap, w, w', p, d, data, u);
      CopiesUser(kmap, w, m, p, d, data[..u]);
      forall a: nat | USER_END <= a < d + |data|
        ensures IsKernel(a)
      {
        Halves(a);
      }
      CopiesKernel(kmap, m, w', p, USER_END, data[u..]);
      assert AcrossBy(kmap, w, m, w', p, d, data, u);
    }
  }

  // ----- Writing through the kernel half -----

  datatype Memory = Memory(mem: map<nat, seq<nat>>, other: map<nat, seq<nat>>)

  ghost function Content(m: Memory, f: nat): (c: seq<nat>) {
    if f in m.mem then m.mem[f] else if f in m.other then m.other[f] else []
  }

  ghost function Put(m: Memory, f: nat, c: seq<nat>): (r: Memory) {
    if f in m.mem then m.(mem := m.mem[f := c]) else m.(other := m.other[f := c])
  }

  /** The bytes replace those at an offset of a frame. */
  ghost predicate Spliced(m: Memory, m': Memory, f: nat, off: nat, bytes: seq<nat>) {
    var c := Content(m, f);
    |c| == PAGE && off + |bytes| <= PAGE && m' == Put(m, f, c[..off] + bytes + c[off + |bytes|..])
  }

  /** Every byte goes to the frame that the kernel half has for its address. */
  ghost function Poked(kmap: map<nat, nat>, m: Memory, d: nat, data: seq<nat>): (r: Memory) {
    if data == [] then m
    else
      var last := |data| - 1;
      var before, addr := Poked(kmap, m, d, data[..last]), d + last;
      if PageOf(addr) !in kmap || |Content(before, kmap[PageOf(addr)])| != PAGE then before
      else
        var f := kmap[PageOf(addr)];
        Put(before, f, Content(before, f)[addr % PAGE := data[last]])
  }

  /** The page with bytes [k, k + w) of the data at an offset. */
  ghost function Splice(c: seq<nat>, off: nat, data: seq<nat>, k: nat, w: nat): (r: seq<nat>)
    requires k + w <= |data| && off + w <= |c|
    ensures |r| == |c|
  {
    c[..off] + data[k..k + w] + c[off + w..]
  }

  lemma SpliceMore(c: seq<nat>, off: nat, data: seq<nat>, k: nat, w: nat)
    requires k + w < |data| && off + w < |c|
    ensures Splice(c, off, data, k, w + 1) == Splice(c, off, data, k, w)[off + w := data[k + w]]
            && Splice(c, off, data, k, 0) == c
  {
  }

  /** A run of bytes inside a page. */
  lemma {:induction false} PokedRun(kmap: map<nat, nat>, m0: Memory, d: nat, data: seq<nat>, k: nat, w: nat)
    requires k + w <= |data| && (d + k) % PAGE + w <= PAGE && PageOf(d + k) in kmap
    requires |Content(Poked(kmap, m0, d, data[..k]), kmap[PageOf(d + k)])| == PAGE
    ensures var m, f := Poked(kmap, m0, d, data[..k]), kmap[PageOf(d + k)];
            Poked(kmap, m0, d, data[..k + w]) == Put(m, f, Splice(Content(m, f), (d + k) % PAGE, data, k, w))
    decreases w
  {
    var m, f, off := Poked(kmap, m0, d, data[..k]), kmap[PageOf(d + k)], (d + k) % PAGE;
    var c := Content(m, f);
    if w == 0 {
      assert Splice(c, off, data, k, 0) == c;
      SamePut(m, f);
    } else {
      var s := Splice(c, off, data, k, w - 1);
      PokedRun(kmap, m0, d, data, k, w - 1);
      PutTwice(m, f, s, Splice(c, off, data, k, w));
      assert Content(Put(m, f, s), f) == s;
      SpliceMore(c, off, data, k, w - 1);
      PokedByte(kmap, m0, d, data, k, w - 1);
    }
  }

  /** The byte behind a run. */
  lemma PokedByte(kmap: map<nat, nat>, m0: Memory, d: nat, data: seq<nat>, k: nat, w: nat)
    requires k + w < |data| && (d + k) % PAGE + w < PAGE && PageOf(d + k) in kmap
    requires var f := kmap[PageOf(d + k)]; |Content(Poked(kmap, m0, d, data[..k + w]), f)| == PAGE
    ensures var f, before := kmap[PageOf(d + k)], Poked(kmap, m0, d, data[..k + w]);
            Poked(kmap, m0, d, data[..k + w + 1]) ==
              Put(before, f, Content(before, f)[(d + k) % PAGE + w := data[k + w]])
  {
    InPage(d + k, w);
    assert data[..k + w + 1][..k + w] == data[..k + w];
    PokedLast(kmap, m0, d, data[..k + w + 1]);
  }

  lemma PokedLast(kmap: map<nat, nat>, m: Memory, d: nat, data: seq<nat>)
    requires data != [] && PageOf(d + |data| - 1) in kmap
    requires |Content(Poked(kmap, m, d, data[..|data| - 1]), kmap[PageOf(d + |data| - 1)])| == PAGE
    ensures var before, addr := Poked(kmap, m, d, data[..|data| - 1]), d + |data| - 1;
            var f := kmap[PageOf(addr)];
            Poked(kmap, m, d, data) == Put(before, f, Content(before, f)[addr % PAGE := data[|data| - 1]])
  {
  }

  lemma SamePut(m: Memory, f: nat)
    requires |Content(m, f)| == PAGE
    ensures Put(m, f, Content(m, f)) == m
  {
  }

  lemma PutTwice(m: Memory, f: nat, c: seq<nat>, c': seq<nat>)
    requires |Content(m, f)| == PAGE
    ensures Content(Put(m, f, c), f) == c && Put(Put(m, f, c), f, c') == Put(m, f, c')
  {
    var m' := Put(m, f, c);
    if f in m.mem {
      assert m'.mem[f := c'] == m.mem[f := c'];
    } else {
      assert m'.other[f := c'] == m.other[f := c'];
    }
  }

  lemma InPage(at: nat, i: nat)
    requires at % PAGE + i < PAGE
    ensures PageOf(at + i) == PageOf(at) && AreaPage(at + i) == AreaPage(at) && (at + i) % PAGE == at % PAGE + i
  {
    assert (at + i) / PAGE == at / PAGE;
  }

  /** The page of `DIR_PHYS_BASE`, which maps all of the memory */
  const DIRECT: nat := USER_PAGES + 0x4_0000
  const DIR_PHYS_BASE: nat := 0xffff_ffc0_4000_0000

  /**
   Beyond user space, a copy reaches another process: page 16 of process 2 lies in frame 5, which
   the direct mapping of the kernel maps too. Process 1 reads it there, and changes it.
   */
  method CopyReachesOthers() returns (users: Users, seen: seq<nat>, copied: nat)
    ensures users.Valid() && 1 in users.mms && 2 in users.mms && users.mms[1] == Mm([], map[])
    ensures seen == [0] && copied == 1 && Byte(users.mms[2], users.mem, 16 * PAGE) == Some(7)
  {
    var (mms, memory, kmap) := TwoProcesses();
    TwoProcessesOk();
    DirectAddress();
    var addr, oom, trap := DIR_PHYS_BASE + 5 * PAGE, false, false;
    OnePoke(addr);
    users := new Users(mms, {}, memory, kmap);
    seen, trap := users.CopyFrom(1, addr, 1);
    copied, oom, trap := users.CopyTo(1, addr, [7], v => true);
  }

  lemma DirectAddress()
    ensures var addr := DIR_PHYS_BASE + 5 * PAGE;
            PageOf(addr) == DIRECT + 5 && addr % PAGE == 0 && InKernelHalf(addr, 1)
  {
    assert IsKernel(DIR_PHYS_BASE + 5 * PAGE);
  }

  lemma OnePoke(addr: nat)
    requires PageOf(addr) == DIRECT + 5 && addr % PAGE == 0
    ensures var (mms, memory, kmap) := TwoProcesses();
            var after := Poked(kmap, memory, addr, [7]);
            && ByteAt(mms[1], kmap, memory.mem, memory.other, addr) == Some(0)
            && after.mem == map[5 := ZeroPage()[0 := 7]] && after.other == memory.other
            && ByteAt(mms[1], kmap, after.mem, after.other, addr) == Some(7)
            && Byte(mms[2], after.mem, 16 * PAGE) == Some(7)
            && Poked(kmap, memory, addr, [7][..0]) == memory && [7][..1] == [7]
  {
    var (mms, memory, kmap) := TwoProcesses();
    assert [7][..0] == [];
    PokedLast(kmap, memory, addr, [7]);
    assert 16 * PAGE / PAGE == 16 && 16 * PAGE % PAGE == 0;
    assert |ZeroPage()| == PAGE && ZeroPage()[0] == 0;
  }

  function TwoProcesses(): (r: (map<nat, Mm>, Memory, map<nat, nat>)) {
    (map[1 := Mm([], map[]), 2 := Mm([Area(16, 1, true, 0)], map[16 := 5])],
     Memory(map[5 := ZeroPage()], map[900 := ZeroPage()]), map[USER_PAGES := 900, DIRECT + 5 := 5])
  }

  lemma TwoProcessesOk()
    ensures var (mms, memory, kmap) := TwoProcesses();
            Ok(mms, {}, memory.mem) && Confined(mms) && KernelOk(kmap, memory.mem, memory.other)
  {
    var (mms, memory, kmap) := TwoProcesses();
    assert Has(mms[2].areas[0], 16);
    assert MmOk(mms[1]) && MmOk(mms[2]);
    assert Maps(mms, 2, 16, 5);
    assert Exclusive(mms) && InUse(mms, {}, memory.mem) && Accounted(mms, {}, memory.mem);
  }

  /** One byte as the process sees it. */
  ghost function Byte(mm: Mm, mem: map<nat, seq<nat>>, addr: nat): (b: Option<nat>) {
    var c := View(mm, mem, addr / PAGE);
    if c.Some? && |c.value| == PAGE then Some(c.value[addr % PAGE]) else None
  }

  /** The bytes stand at d in process p, and every other byte of every process is as it was. */
  ghost predicate Stored(mms: map<nat, Mm>, mem: map<nat, seq<nat>>, mms': map<nat, Mm>, mem': map<nat, seq<nat>>,
                         p: nat, d: nat, data: seq<nat>) {
    && mms'.Keys == mms.Keys && p in mms
    && forall q, a: nat :: q in mms ==>
         Byte(mms'[q], mem', a) == if q == p && d <= a < d + |data| then Some(data[a - d]) else Byte(mms[q], mem, a)
  }

  lemma AreaAt(areas: seq<Area>, v: nat)
    ensures (forall i :: 0 <= i < |areas| ==> (Overlap(areas[i], v, 1) <==> Has(areas[i], v)))
    ensures (forall i :: 0 <= i < |areas| ==> !Has(areas[i], v)) ==> !Covered(areas, v)
  {
  }

  lemma FaultArea(mms: map<nat, Mm>, free: set<nat>, mem: map<nat, seq<nat>>, p: nat, i: nat, v: nat)
    requires Ok(mms, free, mem) && p in mms && i < |mms[p].areas| && Has(mms[p].areas[i], v) && v !in mms[p].pt
    ensures LazyAt(mms[p], v)
  {
    OkMeans(mms, free, mem, p);
    assert Filled(mms[p].pt, mms[p].areas[i]);
  }

  lemma PageBytes(mm: Mm, kmap: map<nat, nat>, mem: map<nat, seq<nat>>, other: map<nat, seq<nat>>, at: nat, w: nat,
                  page: seq<nat>)
    requires |page| == PAGE && PageAt(mm, kmap, mem, other, at) == Some(page) && at % PAGE + w <= PAGE
    ensures forall a: nat :: at <= a < at + w ==>
              a % PAGE == at % PAGE + (a - at) && ByteAt(mm, kmap, mem, other, a) == Some(page[a % PAGE])
  {
    forall a: nat | at <= a < at + w
      ensures PageOf(a) == PageOf(at) && AreaPage(a) == AreaPage(at) && a % PAGE == at % PAGE + (a - at)
    {
      InPage(at, a - at);
    }
  }

  lemma StoredChunk(mms0: map<nat, Mm>, mem0: map<nat, seq<nat>>, mms: map<nat, Mm>, mem: map<nat, seq<nat>>,
                    mem': map<nat, seq<nat>>, p: nat, at: nat, bytes: seq<nat>)
    requires mms.Keys == mms0.Keys && p in mms && at % PAGE + |bytes| <= PAGE
    requires KeepsViews(mms0, mem0, mms, mem, p, 0, 0)
    requires at / PAGE in mms[p].pt && mms[p].pt[at / PAGE] in mem
    requires var v, off := at / PAGE, at % PAGE;
             var c := mem[mms[p].pt[v]];
             && |c| == PAGE && View(mms[p], mem', v) == Some(c[..off] + bytes + c[off + |bytes|..])
             && KeepsViews(mms, mem, mms, mem', p, v, 1)
    ensures Stored(mms0, mem0, mms, mem', p, at, bytes)
  {
    forall q, a: nat | q in mms0
      ensures Byte(mms[q], mem', a) == if q == p && at <= a < at + |bytes| then Some(bytes[a - at])
              else Byte(mms0[q], mem0, a)
    {
      assert View(mms[q], mem, a / PAGE) == View(mms0[q], mem0, a / PAGE);
      if q == p && a / PAGE == at / PAGE {
        SamePage(at, a, |bytes|);
      } else {
        assert View(mms[q], mem', a / PAGE) == View(mms[q], mem, a / PAGE);
        OtherPage(at, a, |bytes|);
      }
    }
  }

  lemma SamePage(at: nat, a: nat, w: nat)
    requires a / PAGE == at / PAGE && at % PAGE + w <= PAGE
    ensures a - at == a % PAGE - at % PAGE
  {
  }

  lemma OtherPage(at: nat, a: nat, w: nat)
    requires at % PAGE + w <= PAGE
    ensures a / PAGE != at / PAGE ==> !(at <= a < at + w)
  {
  }

  /** The child sees the first areas of the parent, and nothing else. */
  ghost predicate SeenSoFar(mms: map<nat, Mm>, mem: map<nat, seq<nat>>, dst: nat, src: nat, areas: seq<Area>) {
    && dst in mms && src in mms
    && forall v: nat :: View(mms[dst], mem, v) == if Covered(areas, v) then View(mms[src], mem, v) else None
  }

  lemma NothingSeen(mm: Mm, mem: map<nat, seq<nat>>)
    requires mm == Mm([], map[])
    ensures forall v: nat :: View(mm, mem, v) == None && !Covered([], v)
  {
  }

  lemma SeenMore(mms1: map<nat, Mm>, mem1: map<nat, seq<nat>>, mms: map<nat, Mm>, mem: map<nat, seq<nat>>, dst: nat,
                 src: nat, areas: seq<Area>, k: nat)
    requires k < |areas| && dst != src && SeenSoFar(mms1, mem1, dst, src, areas[..k]) && dst in mms && src in mms
    requires KeepsViews(mms1, mem1, mms, mem, dst, areas[k].base, areas[k].n)
    requires forall v: nat :: Has(areas[k], v) ==> View(mms[dst], mem, v) == View(mms[src], mem, v)
    ensures SeenSoFar(mms, mem, dst, src, areas[..k + 1])
  {
    forall v: nat
      ensures View(mms[dst], mem, v) == if Covered(areas[..k + 1], v) then View(mms[src], mem, v) else None
    {
      CoveredSnoc(areas, k, v);
      if !Has(areas[k], v) {
        assert View(mms[dst], mem, v) == View(mms1[dst], mem1, v);
        assert View(mms[src], mem, v) == View(mms1[src], mem1, v);
      }
    }
  }

  lemma CoveredSnoc(areas: seq<Area>, k: nat, v: nat)
    requires k < |areas|
    ensures Covered(areas[..k + 1], v) <==> Covered(areas[..k], v) || Has(areas[k], v)
  {
    var front, all := areas[..k], areas[..k + 1];
    assert forall i :: 0 <= i < k ==> all[i] == front[i] == areas[i];
    if Covered(front, v) {
      var i :| 0 <= i < |front| && Has(front[i], v);
      assert Has(all[i], v);
    }
    if Has(areas[k], v) {
      assert Has(all[k], v);
    }
    if Covered(all, v) {
      var i :| 0 <= i < |all| && Has(all[i], v);
      assert i < k ==> Has(front[i], v);
    }
  }

  lemma AllSeen(mms: map<nat, Mm>, mem: map<nat, seq<nat>>, dst: nat, src: nat)
    requires src in mms && MmOk(mms[src]) && SeenSoFar(mms, mem, dst, src, mms[src].areas)
    ensures forall v: nat :: View(mms[dst], mem, v) == View(mms[src], mem, v)
  {
  }

  lemma AreaFacts(mms: map<nat, Mm>, free: set<nat>, mem: map<nat, seq<nat>>, p: nat, a: Area)
    requires Ok(mms, free, mem) && p in mms && a in mms[p].areas
    ensures a.n > 0
  {
    OkMeans(mms, free, mem, p);
  }

  lemma AreaViews(mms: map<nat, Mm>, mem: map<nat, seq<nat>>, p: nat, a: Area)
    requires p in mms && a in mms[p].areas
    ensures forall v: nat :: Has(a, v) ==> View(mms[p], mem, v).Some?
  {
    var i :| 0 <= i < |mms[p].areas| && mms[p].areas[i] == a;
    assert forall v: nat :: Has(a, v) ==> Has(mms[p].areas[i], v);
  }

  lemma DuplicateViews(mms0: map<nat, Mm>, mem0: map<nat, seq<nat>>, mms1: map<nat, Mm>, mem1: map<nat, seq<nat>>,
                       mms: map<nat, Mm>, mem: map<nat, seq<nat>>, p: nat, a: Area)
    requires mms1.Keys == mms0.Keys && mms.Keys == mms0.Keys
    requires KeepsViews(mms0, mem0, mms1, mem1, p, a.base, a.n) && KeepsViews(mms1, mem1, mms, mem, p, a.base, a.n)
    ensures KeepsViews(mms0, mem0, mms, mem, p, a.base, a.n)
  {
  }

  /** The page lies in an area that is filled on demand. */
  ghost predicate LazyAt(mm: Mm, v: nat) {
    exists i :: 0 <= i < |mm.areas| && Has(mm.areas[i], v) && mm.areas[i].lazy
  }

  lemma EagerOk(mms: map<nat, Mm>, free: set<nat>, mem: map<nat, seq<nat>>, p: nat, a: Area, first: nat)
    requires Ok(mms, free, mem) && p in mms && Fits(mms[p], a) && Range(first, a.n) <= free
    ensures var mm := Mm([a] + mms[p].areas, mms[p].pt + Run(a.base, a.n, first));
            Ok(mms[p := mm], free - Range(first, a.n), mem) && Range(a.base, a.n) <= mm.pt.Keys
  {
    assert LookOk(0);
    var pt := mms[p].pt + Run(a.base, a.n, first);
    AddArea(mms[p], a, pt);
    AttachOk(mms, free, mem, p, Mm([a] + mms[p].areas, pt), a.base, a.n, first);
  }

  lemma FaultOk(mms: map<nat, Mm>, free: set<nat>, mem: map<nat, seq<nat>>, p: nat, v: nat, first: nat)
    requires Ok(mms, free, mem) && p in mms && v !in mms[p].pt && LazyAt(mms[p], v) && Range(first, 1) <= free
    ensures var mms' := mms[p := mms[p].(pt := mms[p].pt[v := first])];
            Ok(mms', free - Range(first, 1), mem[first := ZeroPage()])
              && KeepsViews(mms, mem, mms', mem[first := ZeroPage()], p, 0, 0)
  {
    OkMeans(mms, free, mem, p);
    var mm := mms[p].(pt := mms[p].pt[v := first]);
    assert mm.pt == mms[p].pt + Run(v, 1, first);
    LazyKeeps(mms[p], v, mm.pt);
    AttachOk(mms, free, mem, p, mm, v, 1, first);
    StoreOk(mms[p := mm], free - Range(first, 1), mem, first, ZeroPage());
    FaultViews(mms, free, mem, p, v, first);
  }

  /** A page that read as zeros before its frame came still does. */
  lemma FaultViews(mms: map<nat, Mm>, free: set<nat>, mem: map<nat, seq<nat>>, p: nat, v: nat, first: nat)
    requires InUse(mms, free, mem) && p in mms && v !in mms[p].pt && LazyAt(mms[p], v) && first in free && first in mem
    ensures KeepsViews(mms, mem, mms[p := mms[p].(pt := mms[p].pt[v := first])], mem[first := ZeroPage()], p, 0, 0)
  {
    var mms', mem' := mms[p := mms[p].(pt := mms[p].pt[v := first])], mem[first := ZeroPage()];
    var i :| 0 <= i < |mms[p].areas| && Has(mms[p].areas[i], v) && mms[p].areas[i].lazy;
    assert Covered(mms[p].areas, v);
    forall q, w: nat | q in mms && q in mms'
      ensures View(mms'[q], mem', w) == View(mms[q], mem, w)
    {
      if w in mms[q].pt {
        assert Maps(mms, q, w, mms[q].pt[w]);
      }
    }
  }

  /** A page of a lazy area may be mapped or not. */
  lemma LazyKeeps(mm: Mm, v: nat, pt: map<nat, nat>)
    requires MmOk(mm) && LazyAt(mm, v) && forall w :: w != v ==>
             (w in pt <==> w in mm.pt) && (w in pt ==> pt[w] == mm.pt[w])
    ensures MmOk(mm.(pt := pt))
  {
    var i :| 0 <= i < |mm.areas| && Has(mm.areas[i], v) && mm.areas[i].lazy;
    assert Covered(mm.areas, v);
    forall j | 0 <= j < |mm.areas|
      ensures Filled(pt, mm.areas[j])
    {
      assert Filled(mm.pt, mm.areas[j]);
      OneArea(mm, v, i, j);
    }
  }

  /** A page lies in at most one area. */
  lemma OneArea(mm: Mm, v: nat, i: int, j: int)
    requires Apart(mm.areas) && 0 <= i < |mm.areas| && 0 <= j < |mm.areas| && Has(mm.areas[i], v)
    ensures Has(mm.areas[j], v) ==> i == j
  {
    if i < j {
      assert !Overlap(mm.areas[i], mm.areas[j].base, mm.areas[j].n);
    } else if j < i {
      assert !Overlap(mm.areas[j], mm.areas[i].base, mm.areas[i].n);
    }
  }

  lemma UnmapOk(mms: map<nat, Mm>, free: set<nat>, mem: map<nat, seq<nat>>, p: nat, v: nat)
    requires Ok(mms, free, mem) && p in mms && v in mms[p].pt && LazyAt(mms[p], v)
    ensures Ok(mms[p := mms[p].(pt := mms[p].pt - {v})], free + {mms[p].pt[v]}, mem)
  {
    assert LookOk(0);
    var mm := mms[p].(pt := mms[p].pt - {v});
    LazyKeeps(mms[p], v, mm.pt);
    DetachOk(mms, free, mem, p, mm, {v});
    assert Behind(mms[p].pt, {v}) == {mms[p].pt[v]};
  }

  lemma BehindMore(pt: map<nat, nat>, lo: nat, k: nat)
    ensures pt - Range(lo, k + 1) == pt - Range(lo, k) - {lo + k}
    ensures lo + k !in pt ==> pt - Range(lo, k + 1) == pt - Range(lo, k)
    ensures Behind(pt, Range(lo, k + 1)) == Behind(pt, Range(lo, k)) + (if lo + k in pt then {pt[lo + k]} else {})
  {
  }

  lemma RemoveArea(mm: Mm)
    requires MmOk(mm) && |mm.areas| > 0
    ensures var a := mm.areas[0]; MmOk(Mm(mm.areas[1..], mm.pt - Range(a.base, a.n)))
  {
    var a, areas := mm.areas[0], mm.areas[1..];
    var pt := mm.pt - Range(a.base, a.n);
    assert mm.areas == [a] + areas;
    forall v | v in pt
      ensures Covered(areas, v)
    {
      CoveredCons(a, areas, v);
    }
    forall i | 0 <= i < |areas|
      ensures areas[i].n > 0 && Filled(pt, areas[i])
    {
      assert areas[i] == mm.areas[i + 1] && Filled(mm.pt, mm.areas[i + 1]);
      assert !Overlap(mm.areas[0], mm.areas[i + 1].base, mm.areas[i + 1].n);
    }
  }

  lemma DestroyedOk(mms: map<nat, Mm>, free: set<nat>, mem: map<nat, seq<nat>>, p: nat)
    requires Ok(mms, free, mem) && p in mms && |mms[p].areas| > 0
    ensures var mm, a := mms[p], mms[p].areas[0];
            Ok(mms[p := Mm(mm.areas[1..], mm.pt - Range(a.base, a.n))], free + Behind(mm.pt, Range(a.base, a.n)), mem)
  {
    assert LookOk(0);
    var mm, a := mms[p], mms[p].areas[0];
    RemoveArea(mm);
    DetachOk(mms, free, mem, p, Mm(mm.areas[1..], mm.pt - Range(a.base, a.n)), Range(a.base, a.n));
  }

  /** Changing the areas alone. */
  lemma SamePtOk(mms: map<nat, Mm>, free: set<nat>, mem: map<nat, seq<nat>>, p: nat, mm: Mm)
    requires Ok(mms, free, mem) && p in mms && MmOk(mm) && mm.pt == mms[p].pt
    ensures Ok(mms[p := mm], free, mem)
  {
    assert mms[p].pt + Run(0, 0, 0) == mms[p].pt && free - Range(0, 0) == free;
    AttachOk(mms, free, mem, p, mm, 0, 0, 0);
  }

  lemma AreaIsLazy(mm: Mm, i: nat)
    requires i < |mm.areas| && mm.areas[i].lazy
    ensures forall v: nat :: Has(mm.areas[i], v) ==> LazyAt(mm, v)
  {
  }

  /** A lazy area may end anywhere short of the next, if no mapped page is left behind it. */
  lemma ResizeMm(mm: Mm, i: nat, n: nat)
    requires MmOk(mm) && i < |mm.areas| && mm.areas[i].lazy && n > 0
    requires forall v: nat :: mm.areas[i].base + n <= v < mm.areas[i].base + mm.areas[i].n ==> v !in mm.pt
    requires n > mm.areas[i].n ==> forall j :: 0 <= j < |mm.areas| ==>
             !Overlap(mm.areas[j], mm.areas[i].base + mm.areas[i].n, n - mm.areas[i].n)
    ensures MmOk(mm.(areas := mm.areas[i := mm.areas[i].(n := n)]))
  {
    var a := mm.areas[i];
    var areas := mm.areas[i := a.(n := n)];
    forall v | v in mm.pt
      ensures Covered(areas, v)
    {
      var j :| 0 <= j < |mm.areas| && Has(mm.areas[j], v);
      assert Has(areas[j], v);
    }
    forall j, k | 0 <= j < k < |areas|
      ensures !Overlap(areas[j], areas[k].base, areas[k].n)
    {
      assert !Overlap(mm.areas[j], mm.areas[k].base, mm.areas[k].n);
    }
    forall j | 0 <= j < |areas|
      ensures areas[j].n > 0 && Filled(mm.pt, areas[j])
    {
      assert Filled(mm.pt, mm.areas[j]);
    }
  }

  lemma ResizeOk(mms: map<nat, Mm>, free: set<nat>, mem: map<nat, seq<nat>>, p: nat, i: nat, n: nat)
    requires Ok(mms, free, mem) && p in mms && i < |mms[p].areas| && mms[p].areas[i].lazy && n > 0
    requires var a := mms[p].areas[i];
             && (forall v: nat :: a.base + n <= v < a.base + a.n ==> v !in mms[p].pt)
             && (n > a.n ==> forall j :: 0 <= j < |mms[p].areas| ==> !Overlap(mms[p].areas[j], a.base + a.n, n - a.n))
    ensures Ok(mms[p := mms[p].(areas := mms[p].areas[i := mms[p].areas[i].(n := n)])], free, mem)
  {
    OkMeans(mms, free, mem, p);
    ResizeMm(mms[p], i, n);
    SamePtOk(mms, free, mem, p, mms[p].(areas := mms[p].areas[i := mms[p].areas[i].(n := n)]));
  }

  /** Only the area that grew may have left user space. */
  lemma ResizeConfined(mms: map<nat, Mm>, p: nat, i: nat, n: nat)
    requires Confined(mms) && p in mms && i < |mms[p].areas|
    ensures Confined(mms[p := mms[p].(areas := mms[p].areas[i := mms[p].areas[i].(n := n)])]) <==>
            mms[p].areas[i].base + n <= USER_PAGES
  {
    var areas := mms[p].areas[i := mms[p].areas[i].(n := n)];
    var mms' := mms[p := mms[p].(areas := areas)];
    assert InUser(mms[p]) && areas[i].base == mms[p].areas[i].base && areas[i].n == n;
    if areas[i].base + n <= USER_PAGES {
      assert InUser(mms'[p]);
    } else {
      assert !InUser(mms'[p]);
    }
  }

  lemma UnmappedIsZero(mms: map<nat, Mm>, free: set<nat>, mem: map<nat, seq<nat>>, p: nat, v: nat)
    requires p in mms && v !in mms[p].pt && View(mms[p], mem, v).Some?
    ensures View(mms[p], mem, v) == Some(ZeroPage())
  {
  }

  lemma InLazy(mm: Mm, a: Area, v: nat)
    requires a in mm.areas && a.lazy && Has(a, v)
    ensures LazyAt(mm, v)
  {
    var i :| 0 <= i < |mm.areas| && mm.areas[i] == a;
    assert Has(mm.areas[i], v) && mm.areas[i].lazy;
  }

  lemma EagerMapped(mms: map<nat, Mm>, free: set<nat>, mem: map<nat, seq<nat>>, p: nat, a: Area, v: nat)
    requires Ok(mms, free, mem) && p in mms && a in mms[p].areas && Has(a, v) && (a.lazy ==> v in mms[p].pt)
    ensures v in mms[p].pt
  {
    OkMeans(mms, free, mem, p);
    var i :| 0 <= i < |mms[p].areas| && mms[p].areas[i] == a;
    assert Filled(mms[p].pt, mms[p].areas[i]);
  }

  lemma FramesApart(mms: map<nat, Mm>, free: set<nat>, mem: map<nat, seq<nat>>, p: nat, q: nat, v: nat)
    requires Ok(mms, free, mem) && p in mms && q in mms && p != q && v in mms[p].pt && v in mms[q].pt
    ensures mms[p].pt[v] != mms[q].pt[v]
  {
    OkMeans(mms, free, mem, p);
    assert Maps(mms, p, v, mms[p].pt[v]) && Maps(mms, q, v, mms[q].pt[v]);
  }

  /** A store through a page shows on that page only. */
  lemma StoreViews(mms: map<nat, Mm>, free: set<nat>, mem: map<nat, seq<nat>>, p: nat, v: nat, c: seq<nat>)
    requires Ok(mms, free, mem) && p in mms && v in mms[p].pt
    ensures var mem' := mem[mms[p].pt[v] := c];
            View(mms[p], mem', v) == Some(c) && KeepsViews(mms, mem, mms, mem', p, v, 1)
  {
    OkMeans(mms, free, mem, p);
    var f := mms[p].pt[v];
    assert Maps(mms, p, v, f);
    forall q, w: nat | q in mms && !(q == p && w == v)
      ensures View(mms[q], mem[f := c], w) == View(mms[q], mem, w)
    {
      if w in mms[q].pt {
        assert Maps(mms, q, w, mms[q].pt[w]);
        OkMeans(mms, free, mem, q);
      }
    }
  }

  lemma ViewsChain(mms0: map<nat, Mm>, mem0: map<nat, seq<nat>>, mms: map<nat, Mm>, mem: map<nat, seq<nat>>,
                   mem': map<nat, seq<nat>>, p: nat, v: nat)
    requires mms.Keys == mms0.Keys && KeepsViews(mms0, mem0, mms, mem, p, 0, 0)
             && KeepsViews(mms, mem, mms, mem', p, v, 1)
    ensures KeepsViews(mms0, mem0, mms, mem', p, v, 1)
  {
  }

  lemma PageCopied(mms0: map<nat, Mm>, mem0: map<nat, seq<nat>>, mms1: map<nat, Mm>, mem1: map<nat, seq<nat>>,
                   mms: map<nat, Mm>, mem: map<nat, seq<nat>>, dst: nat, src: nat, a: Area, k: nat)
    requires mms1.Keys == mms0.Keys && mms.Keys == mms0.Keys && k < a.n
    requires KeepsViews(mms0, mem0, mms1, mem1, dst, a.base, k) && KeepsViews(mms1, mem1, mms, mem, dst, a.base + k, 1)
    ensures KeepsViews(mms0, mem0, mms, mem, dst, a.base, k + 1) && KeepsViews(mms0, mem0, mms, mem, dst, a.base, a.n)
  {
  }

  lemma FirstIsLazy(mm: Mm)
    requires |mm.areas| > 0 && mm.areas[0].lazy
    ensures forall v: nat :: Has(mm.areas[0], v) ==> LazyAt(mm, v)
  {
  }

  lemma EagerFrames(mm: Mm, a: Area)
    requires !a.lazy && a.n > 0 && Filled(mm.pt, a)
    ensures a.base in mm.pt && Behind(mm.pt, Range(a.base, a.n)) == Range(mm.pt[a.base], a.n)
  {
    assert Has(a, a.base);
    forall f: nat | f in Range(mm.pt[a.base], a.n)
      ensures f in Behind(mm.pt, Range(a.base, a.n))
    {
      var v := a.base + (f - mm.pt[a.base]);
      assert Has(a, v) && mm.pt[v] == f;
    }
  }

  lemma FreedValues(mms: map<nat, Mm>, p: nat, pt: map<nat, nat>, pages: set<nat>)
    requires Exclusive(mms) && p in mms && forall v :: v in mms[p].pt ==> v in pt && mms[p].pt[v] == pt[v]
    ensures pt.Values - (mms[p].pt - pages).Values == (pt.Values - mms[p].pt.Values) + Behind(mms[p].pt, pages)
  {
    var now := mms[p].pt;
    forall f | f in Behind(now, pages)
      ensures f in pt.Values && f !in (now - pages).Values
    {
      var v :| v in now && v in pages && now[v] == f;
      assert pt[v] == f && Maps(mms, p, v, f);
      if f in (now - pages).Values {
        var w :| w in now - pages && (now - pages)[w] == f;
        assert Maps(mms, p, w, f);
      }
    }
    forall f | f in now.Values
      ensures f in Behind(now, pages) || f in (now - pages).Values
    {
      var v :| v in now && now[v] == f;
      if v in pages {
        assert f in Behind(now, pages);
      } else {
        assert (now - pages)[v] == f;
      }
    }
    forall f | f in (now - pages).Values
      ensures f in now.Values
    {
      var v :| v in now - pages && (now - pages)[v] == f;
      assert now[v] == f;
    }
  }

  lemma EmptyMm(mm: Mm)
    requires MmOk(mm) && |mm.areas| == 0
    ensures mm == Mm([], map[]) && mm.pt.Values == {}
  {
    assert forall v :: v in mm.pt ==> Covered(mm.areas, v);
  }

  /** The area meets no other one. */
  ghost predicate Fits(mm: Mm, a: Area) {
    && a.n > 0 && USER_START <= a.base && a.base + a.n <= USER_PAGES
    && (forall i :: 0 <= i < |mm.areas| ==> !Overlap(mm.areas[i], a.base, a.n))
    && (forall v: nat :: Has(a, v) ==> v !in mm.pt)
  }

  /** The new area reads as zeros, and every other page looks as it did. */
  ghost predicate NewViews(mms: map<nat, Mm>, mem: map<nat, seq<nat>>, mms': map<nat, Mm>, mem': map<nat, seq<nat>>,
                           p: nat, a: Area) {
    && p in mms' && (forall v: nat :: Has(a, v) ==> View(mms'[p], mem', v) == Some(ZeroPage()))
    && KeepsViews(mms, mem, mms', mem', p, a.base, a.n)
  }

  /** Every page outside one range of one process looks as it did. */
  ghost predicate KeepsViews(mms: map<nat, Mm>, mem: map<nat, seq<nat>>, mms': map<nat, Mm>, mem': map<nat, seq<nat>>,
                             p: nat, base: nat, n: nat) {
    forall q, v: nat :: q in mms && q in mms' && !(q == p && base <= v < base + n) ==>
      View(mms'[q], mem', v) == View(mms[q], mem, v)
  }

  lemma NotCovered(mm: Mm, base: nat, n: nat)
    requires MmOk(mm) && forall i :: 0 <= i < |mm.areas| ==> !Overlap(mm.areas[i], base, n)
    ensures forall v: nat :: base <= v < base + n ==> !Covered(mm.areas, v) && v !in mm.pt
  {
    forall v: nat | base <= v < base + n
      ensures !Covered(mm.areas, v)
    {
      forall i | 0 <= i < |mm.areas|
        ensures !Has(mm.areas[i], v)
      {
        assert !Overlap(mm.areas[i], base, n);
      }
    }
  }

  lemma CoveredCons(a: Area, areas: seq<Area>, v: nat)
    ensures Covered([a] + areas, v) <==> Has(a, v) || Covered(areas, v)
  {
    var all := [a] + areas;
    if Has(a, v) {
      assert Has(all[0], v);
    }
    if i :| 0 <= i < |areas| && Has(areas[i], v) {
      assert Has(all[i + 1], v);
    }
    if i :| 0 <= i < |all| && Has(all[i], v) {
      assert i > 0 ==> Has(areas[i - 1], v);
    }
  }

  lemma LazyViews(mms: map<nat, Mm>, mem: map<nat, seq<nat>>, p: nat, a: Area)
    requires p in mms && forall v: nat :: Has(a, v) ==> v !in mms[p].pt
    ensures NewViews(mms, mem, mms[p := Mm([a] + mms[p].areas, mms[p].pt)], mem, p, a)
  {
    forall v: nat
      ensures Covered([a] + mms[p].areas, v) <==> Has(a, v) || Covered(mms[p].areas, v)
    {
      CoveredCons(a, mms[p].areas, v);
    }
  }

  lemma ClearedViews(mms: map<nat, Mm>, mem: map<nat, seq<nat>>, mms': map<nat, Mm>, mem': map<nat, seq<nat>>, p: nat,
                     a: Area, free: set<nat>, first: nat)
    requires p in mms && mms' == mms[p := Mm([a] + mms[p].areas, mms[p].pt + Run(a.base, a.n, first))]
    requires InUse(mms, free, mem) && Range(first, a.n) <= free && mem'.Keys == mem.Keys && free <= mem.Keys
    requires forall v: nat :: Has(a, v) ==> v !in mms[p].pt
    requires forall f :: Load(mem', f) == if f in Behind(mms'[p].pt, Range(a.base, a.n)) then ZeroPage()
             else Load(mem, f)
    ensures NewViews(mms, mem, mms', mem', p, a)
  {
    forall f
      ensures f in Behind(mms'[p].pt, Range(a.base, a.n)) <==> f in Range(first, a.n)
    {
      if f in Range(first, a.n) {
        assert mms'[p].pt[a.base + (f - first)] == f;
      }
    }
    forall q, v: nat | q in mms && q in mms' && !(q == p && a.base <= v < a.base + a.n)
      ensures View(mms'[q], mem', v) == View(mms[q], mem, v)
    {
      OtherView(mms, mem, mms', mem', p, a, free, first, q, v);
    }
    forall v: nat | Has(a, v)
      ensures View(mms'[p], mem', v) == Some(ZeroPage())
    {
      var f := first + (v - a.base);
      assert mms'[p].pt[v] == f && f in Range(first, a.n);
      assert Load(mem', f) == ZeroPage();
    }
  }

  lemma OtherView(mms: map<nat, Mm>, mem: map<nat, seq<nat>>, mms': map<nat, Mm>, mem': map<nat, seq<nat>>, p: nat,
                  a: Area, free: set<nat>, first: nat, q: nat, v: nat)
    requires p in mms && mms' == mms[p := Mm([a] + mms[p].areas, mms[p].pt + Run(a.base, a.n, first))]
    requires InUse(mms, free, mem) && Range(first, a.n) <= free && mem'.Keys == mem.Keys && q in mms
             && !(q == p && Has(a, v))
    requires forall f :: f !in Range(first, a.n) ==> Load(mem', f) == Load(mem, f)
    ensures View(mms'[q], mem', v) == View(mms[q], mem, v)
  {
    CoveredCons(a, mms[p].areas, v);
    if v in mms[q].pt {
      assert Maps(mms, q, v, mms[q].pt[v]);
      assert Load(mem', mms[q].pt[v]) == Load(mem, mms[q].pt[v]);
    }
  }
}
