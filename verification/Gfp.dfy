/**
 Page allocation over two memory areas (mm/gfp.c, mm/mm.c).

 Area 0 holds the kernel's own pages, area 1 all of physical memory. The pages of area 0 appear
 in area 1 as well, where they are reserved.
 */
module Gfp {
  import opened Basics
  import opened Wrappers
  import opened Bitmap

  /** `struct memory_area`; a `vbase` of 0 means that the area is not mapped. */
  class Area {
    const words: array<Word>
    const bitMax: nat
    const pbase: nat
    const vbase: nat

    constructor (bitMax: nat, pbase: nat, vbase: nat)
      requires pbase % PAGE_SIZE == 0 && vbase % PAGE_SIZE == 0
      ensures this.bitMax == bitMax && this.pbase == pbase && this.vbase == vbase
      ensures fresh(words) && Ok() && forall n: nat :: n < bitMax ==> !Bit(words[..], n)
    {
      this.bitMax := bitMax;
      this.pbase := pbase;
      this.vbase := vbase;
      words := new Word[(bitMax + BITS - 1) / BITS](i => Fill(false));
      new;
      assert forall n: nat :: n < bitMax ==> n / BITS < words.Length;
    }

    predicate Ok() {
      bitMax <= BITS * words.Length && pbase % PAGE_SIZE == 0 && vbase % PAGE_SIZE == 0
    }

    function Pend(): (e: nat) {
      pbase + bitMax * PAGE_SIZE
    }

    function Vend(): (e: nat) {
      vbase + bitMax * PAGE_SIZE
    }

    /** An aligned run of free pages */
    ghost predicate HasRun(pages: nat, align: nat)
      requires align > 0
      reads words
    {
      exists k: nat :: k % align == 0 && k + pages <= bitMax && AllFree(k, pages)
    }

    /** The first aligned run of free pages */
    ghost predicate IsFirst(k: nat, pages: nat, align: nat)
      requires align > 0
      reads words
    {
      && k % align == 0 && k + pages <= bitMax && AllFree(k, pages)
      && forall j: nat :: j < k && j % align == 0 ==> !AllFree(j, pages)
    }

    /** The bit stands for a page that is in use. */
    ghost predicate Used(n: nat)
      reads words
    {
      n < bitMax && Bit(words[..], n)
    }

    ghost predicate AllFree(k: nat, pages: nat)
      reads words
    {
      forall n: nat :: k <= n < k + pages ==> !Used(n)
    }

    /** `p_in_area` */
    predicate HasPhys(addr: nat, pages: nat) {
      addr >= pbase && if pages == 0 then addr < Pend() else addr + PAGE_SIZE * pages <= Pend()
    }

    /** `mm_bitmap_find_and_allocate`: takes the first run, or exactly the run asked for. */
    method Take(pages: nat, from: Option<nat>, align: nat) returns (r: Option<nat>)
      requires Ok() && pages > 0 && align > 0
      modifies words
      ensures r.Some? ==>
                && r.value + pages <= bitMax && r.value % align == 0 && (from.Some? ==> r == from)
                && (forall n: nat :: r.value <= n < r.value + pages ==> !old(Used(n)))
                && (forall n: nat :: n < bitMax ==> (Used(n) <==> old(Used(n)) || r.value <= n < r.value + pages))
      ensures r.None? ==> words[..] == old(words[..]) && forall n: nat :: Used(n) <==> old(Used(n))
      ensures from.None? ==> (r.Some? <==> old(HasRun(pages, align)))
      ensures from.None? && r.Some? ==> old(IsFirst(r.value, pages, align))
      ensures r.None? && from.Some? && from.value % align == 0 && from.value + pages <= bitMax ==>
              !old(AllFree(from.value, pages))
    {
      var start := FindArea(words, bitMax, if from.Some? then from.value else 0, pages, align, 0);
      ghost var map_ := words[..];
      forall k: nat | k % align == 0 && k + pages <= bitMax && old(AllFree(k, pages))
        ensures Bitmap.Area(map_, bitMax, pages, align, 0, k)
      {
        forall n: nat | k <= n < k + pages
          ensures !Bit(map_, n)
        {
          assert !old(Used(n));
        }
      }
      if from.Some? && start != from.value {
        return None;
      }
      if start > bitMax {
        return None;
      }
      assert AllFree(start, pages);
      Write(words, start, pages, true);
      r := Some(start);
    }

    /** `bitmap_clear` of a run */
    method Give(start: nat, pages: nat)
      requires Ok() && start + pages <= bitMax
      modifies words
      ensures forall n: nat :: n < bitMax ==> (Used(n) <==> old(Used(n)) && !(start <= n < start + pages))
    {
      Write(words, start, pages, false);
    }
  }

  /** The pages of a run. */
  ghost predicate InRun(page: nat, first: nat, pages: nat) {
    first <= page < first + pages
  }

  /** Both areas; `memory_areas[1]` is valid once main memory is known. */
  class Memory {
    const kmm: Area
    const main: Area

    constructor (kmm: Area, main: Area)
      ensures this.kmm == kmm && this.main == main
    {
      this.kmm := kmm;
      this.main := main;
    }

    /** No two areas share a bitmap or an address, and main memory reserves the kernel's pages. */
    ghost predicate Valid()
      reads kmm.words, main.words
    {
      && kmm.Ok() && main.Ok() && kmm.words != main.words && kmm.vbase > 0 && main.vbase > 0
      && (kmm.Vend() <= main.vbase || main.Vend() <= kmm.vbase)
      && forall n: nat :: n < main.bitMax && InKmm(main.pbase / PAGE_SIZE + n) ==> main.Used(n)
    }

    /** A physical page of the kernel's area. */
    predicate InKmm(page: nat) {
      kmm.pbase / PAGE_SIZE <= page < kmm.pbase / PAGE_SIZE + kmm.bitMax
    }

    /** The physical page is handed out: by the kernel's area if it lies there, by main memory otherwise. */
    ghost predicate Owned(page: nat)
      reads kmm.words, main.words
    {
      if InKmm(page) then kmm.Used(page - kmm.pbase / PAGE_SIZE)
      else page >= main.pbase / PAGE_SIZE && main.Used(page - main.pbase / PAGE_SIZE)
    }

    /** The result of an allocation: a run that nobody held, and nothing else has changed. */
    twostate predicate Granted(new r: Option<nat>, pages: nat)
      reads kmm.words, main.words
    {
      if r.None? then kmm.words[..] == old(kmm.words[..]) && main.words[..] == old(main.words[..])
      else
        && r.value % PAGE_SIZE == 0
        && forall page: nat ::
             && (InRun(page, r.value / PAGE_SIZE, pages) ==> !old(Owned(page)))
             && (Owned(page) <==> old(Owned(page)) || InRun(page, r.value / PAGE_SIZE, pages))
    }

    /** The address is that of the first aligned run of the area. */
    ghost predicate FirstIn(area: Area, phys: nat, pages: nat, align: nat)
      requires align > 0
      reads area.words
    {
      exists k: nat :: area.IsFirst(k, pages, align) && phys == area.pbase + k * PAGE_SIZE
    }

    method AllocKernel(pages: nat, align: nat) returns (r: Option<nat>)
      requires Valid() && pages > 0 && align > 0
      modifies kmm.words
      ensures Valid() && Granted(r, pages) && (r.Some? <==> old(kmm.HasRun(pages, align)))
      ensures r.Some? ==> old(FirstIn(kmm, r.value, pages, align))
    {
      var off := kmm.Take(pages, None, align);
      if off.None? {
        return None;
      }
      r := Some(kmm.pbase + off.value * PAGE_SIZE);
      PageNumber(kmm.pbase, off.value);
      ghost var base := kmm.pbase / PAGE_SIZE;
      forall page: nat
        ensures InRun(page, base + off.value, pages) ==> !old(Owned(page))
        ensures Owned(page) <==> old(Owned(page)) || InRun(page, base + off.value, pages)
      {
        if InKmm(page) {
          assert off.value <= page - base < off.value + pages ==> !old(kmm.Used(page - base));
        }
      }
    }

    method AllocMain(pages: nat, align: nat) returns (r: Option<nat>)
      requires Valid() && pages > 0 && align > 0
      modifies main.words
      ensures Valid() && Granted(r, pages) && (r.Some? <==> old(main.HasRun(pages, align)))
      ensures r.Some? ==> old(FirstIn(main, r.value, pages, align))
    {
      var off := main.Take(pages, None, align);
      if off.None? {
        return None;
      }
      r := Some(main.pbase + off.value * PAGE_SIZE);
      PageNumber(main.pbase, off.value);
      ghost var base := main.pbase / PAGE_SIZE;
      forall page: nat
        ensures InRun(page, base + off.value, pages) ==> !old(Owned(page))
        ensures Owned(page) <==> old(Owned(page)) || InRun(page, base + off.value, pages)
      {
        if page >= base {
          assert off.value <= page - base < off.value + pages ==> !old(main.Used(page - base));
        }
      }
    }

    /** `phys_pages_alloc`: a run of pages that nobody holds, from the kernel's area if it has one. */
    method Alloc(pages: nat, align: nat) returns (r: Option<nat>)
      requires Valid() && pages > 0 && align > 0
      modifies kmm.words, main.words
      ensures Valid() && Granted(r, pages)
      ensures r.Some? <==> old(kmm.HasRun(pages, align)) || old(main.HasRun(pages, align))
      ensures r.Some? ==>
                old(FirstIn(if kmm.HasRun(pages, align) then kmm else main, r.value, pages, align))
    {
      r := AllocKernel(pages, align);
      if r.None? {
        label between:
        r := AllocMain(pages, align);
        forall page: nat
          ensures old@between(Owned(page)) <==> old(Owned(page))
        {
          assert old@between(kmm.words[..]) == old(kmm.words[..]) && old@between(main.words[..]) == old(main.words[..]);
        }
      }
    }

    /** The run lies in main memory alone, and some of the kernel's pages lie in it. */
    ghost predicate Unreserves(phys: nat, pages: nat) {
      phys % PAGE_SIZE == 0 && !kmm.HasPhys(phys, pages) && main.HasPhys(phys, pages)
      && exists page: nat :: InRun(page, phys / PAGE_SIZE, pages) && InKmm(page)
    }

    /**
     `phys_free_pages`: gives up a run that lies in one area. A run of main memory that holds some
     of the kernel's pages is not refused: these stay with the kernel, but are reserved no longer.
     */
    method Free(phys: nat, pages: nat) returns (ok: bool)
      requires Valid()
      modifies kmm.words, main.words
      ensures ok <==> phys % PAGE_SIZE == 0 && (kmm.HasPhys(phys, pages) || main.HasPhys(phys, pages))
      ensures Valid() <==> !Unreserves(phys, pages)
      ensures ok ==> forall page: nat ::
                (Owned(page) <==> old(Owned(page)) && !(InRun(page, phys / PAGE_SIZE, pages)
                                                        && (kmm.HasPhys(phys, pages) || !InKmm(page))))
      ensures !ok ==> kmm.words[..] == old(kmm.words[..]) && main.words[..] == old(main.words[..])
    {
      if phys % PAGE_SIZE != 0 {
        return false;
      }
      if kmm.HasPhys(phys, pages) {
        var start := (phys - kmm.pbase) / PAGE_SIZE;
        PageNumber(kmm.pbase, start);
        kmm.Give(start, pages);
        return true;
      }
      if main.HasPhys(phys, pages) {
        var start := (phys - main.pbase) / PAGE_SIZE;
        PageNumber(main.pbase, start);
        main.Give(start, pages);
        if page: nat :| InRun(page, phys / PAGE_SIZE, pages) && InKmm(page) {
          assert !main.Used(page - main.pbase / PAGE_SIZE);
          assert InKmm(main.pbase / PAGE_SIZE + (page - main.pbase / PAGE_SIZE));
        }
        return true;
      }
      ok := false;
    }

    lemma PageNumber(base: nat, n: nat)
      requires base % PAGE_SIZE == 0
      ensures (base + n * PAGE_SIZE) / PAGE_SIZE == base / PAGE_SIZE + n && (base + n * PAGE_SIZE) % PAGE_SIZE == 0
    {
    }

    /** `find_area` and `memory_area_v2p`, where an address lies in an area */
    function V2p(virt: nat): (phys: Option<nat>) {
      if kmm.vbase <= virt < kmm.Vend() then Some(virt - kmm.vbase + kmm.pbase)
      else if main.vbase <= virt < main.Vend() then Some(virt - main.vbase + main.pbase)
      else None
    }

    /** `p2v` */
    function P2v(phys: nat): (virt: Option<nat>) {
      if kmm.HasPhys(phys, 0) then Some(kmm.vbase + (phys - kmm.pbase))
      else if main.HasPhys(phys, 0) then Some(main.vbase + (phys - main.pbase))
      else None
    }

    /** An address lies as far behind the start of its area here as there. */
    lemma SameOffset(n: nat)
      requires Valid()
      ensures kmm.vbase + n < kmm.Vend() ==> V2p(kmm.vbase + n) == Some(kmm.pbase + n)
      ensures main.vbase + n < main.Vend() && !(kmm.vbase <= main.vbase + n < kmm.Vend()) ==>
                V2p(main.vbase + n) == Some(main.pbase + n)
      ensures kmm.pbase + n < kmm.Pend() ==> P2v(kmm.pbase + n) == Some(kmm.vbase + n)
      ensures main.pbase + n < main.Pend() && !kmm.HasPhys(main.pbase + n, 0) ==>
                P2v(main.pbase + n) == Some(main.vbase + n)
    {
    }

    /** Every physical address that has a virtual one comes back from it. */
    lemma V2pOfP2v(phys: nat)
      requires Valid() && P2v(phys).Some?
      ensures V2p(P2v(phys).value) == Some(phys)
    {
    }

    /** The other way it holds exactly outside the direct mapping of the kernel's own pages. */
    lemma P2vOfV2p(virt: nat)
      requires Valid() && V2p(virt).Some?
      ensures P2v(V2p(virt).value) == Some(virt) <==> kmm.vbase <= virt < kmm.Vend() || !kmm.HasPhys(V2p(virt).value, 0)
    {
    }
  }

  /** The test of `create_memory_area` for the kernel's pages lying in a new area. */
  predicate ReservesKernel(kernel: nat, kernelSize: nat, base: nat, size: nat) {
    kernel >= base && kernel + kernelSize < base + size
  }

  /** The test finds the kernel, or no page of the kernel lies in the new area. */
  predicate KernelSafe(kernel: nat, kernelSize: nat, base: nat, size: nat) {
    ReservesKernel(kernel, kernelSize, base, size) || size == 0 || kernel + kernelSize <= base || base + size <= kernel
  }

  /** Page n of the area is one of the kernel's. */
  ghost predicate IsKernel(kmm: Area, base: nat, n: nat) {
    kmm.pbase <= base + n * PAGE_SIZE < kmm.Pend()
  }

  /** `create_memory_area`: all pages are free but the kernel's, which are reserved if the test finds them. */
  method CreateArea(kmm: Area, base: nat, size: nat, virt: nat) returns (m: Area)
    requires kmm.Ok() && kmm.bitMax > 0 && base % PAGE_SIZE == 0 && size % PAGE_SIZE == 0 && virt % PAGE_SIZE == 0
    ensures fresh(m.words) && m.Ok() && m.pbase == base && m.bitMax == size / PAGE_SIZE && m.vbase == virt
    ensures forall n: nat :: n < m.bitMax ==>
              (m.Used(n) <==> ReservesKernel(kmm.pbase, kmm.bitMax * PAGE_SIZE, base, size) && IsKernel(kmm, base, n))
    ensures (forall n: nat :: n < m.bitMax && IsKernel(kmm, base, n) ==> m.Used(n)) <==>
            KernelSafe(kmm.pbase, kmm.bitMax * PAGE_SIZE, base, size)
  {
    m := new Area(size / PAGE_SIZE, base, virt);
    if kmm.pbase >= base && kmm.pbase + kmm.bitMax * PAGE_SIZE < base + size {
      var first := (kmm.pbase - base) / PAGE_SIZE;
      assert kmm.pbase == base + first * PAGE_SIZE;
      var r := m.Take(kmm.bitMax, Some(first), 1);
      assert r.Some?;
    }
    SharedPage(kmm, base, size);
  }

  /** Areas that meet have a page in common. */
  lemma SharedPage(kmm: Area, base: nat, size: nat)
    requires kmm.Ok() && kmm.bitMax > 0 && base % PAGE_SIZE == 0 && size % PAGE_SIZE == 0
    ensures (exists n: nat :: n < size / PAGE_SIZE && IsKernel(kmm, base, n)) <==>
            size > 0 && base < kmm.Pend() && kmm.pbase < base + size
  {
    var pages := size / PAGE_SIZE;
    assert size == pages * PAGE_SIZE;
    if size > 0 && base < kmm.Pend() && kmm.pbase < base + size {
      var n := if kmm.pbase <= base then 0 else (kmm.pbase - base) / PAGE_SIZE;
      assert base + n * PAGE_SIZE == if kmm.pbase <= base then base else kmm.pbase;
      assert n < pages && IsKernel(kmm, base, n);
    }
    forall n: nat | n < pages && IsKernel(kmm, base, n)
      ensures base < kmm.Pend() && kmm.pbase < base + size
    {
      assert n * PAGE_SIZE < pages * PAGE_SIZE;
    }
  }

  /** The kernel in the last 512 of 1024 pages: main memory hands all of them out a second time. */
  method HandsOutKernelPages() returns (kmm: Area, main: Area, off: Option<nat>)
    ensures kmm.bitMax == 512 && kmm.Used(0) && main.pbase + 512 * PAGE_SIZE == kmm.pbase && kmm.Pend() == main.Pend()
    ensures off == Some(0) && forall n: nat :: 512 <= n < 1024 ==> main.Used(n) && IsKernel(kmm, main.pbase, n)
  {
    kmm := new Area(512, 512 * PAGE_SIZE, PAGE_SIZE);
    assert kmm.AllFree(0, 1);
    var own := kmm.Take(1, Some(0), 1);
    main := CreateArea(kmm, 0, 1024 * PAGE_SIZE, 1024 * PAGE_SIZE);
    assert main.AllFree(0, 1024);
    off := main.Take(1024, None, 1);
  }
}
