/**
 Mapping and unmapping of address ranges (mm/paging.c) over the Sv39 tables.

 A table page is named by its physical address. `Create`, `Destroy` and `Split` are
 `paging_create`, `paging_destroy` and `split_hugepage`; the ghost parameter `sp` names the
 tables that belong to the root. `ok == false` is -ENOMEM.
 */
module Paging {
  import opened Basics
  import opened Wrappers
  import opened Sv39
  import opened PageTree
  import opened PageRange
  import opened PageSteps
  import opened PageRoot
  import opened PageFull

  /** Which hardware walker may reach the tables (`enum tlb_scope`). */
  datatype Scope = NoWalker | Local | Guest

  /** One round unmaps the range up to the end of the slot it stopped in, and nothing else. */
  ghost predicate RoundUnmaps(sp: Space, m: Tables, sp': Space, m': Tables, virt: nat, size: nat, level: nat) {
    level <= 2 &&
    forall v: nat :: v < Limit(sp) ==>
      Translate(sp', m', v) ==
      if virt <= v < virt + size && v < virt - Off(level, virt) + Size(level) then Unmapped else Translate(sp, m, v)
  }

  lemma RoundBefore(sp0: Space, m0: Tables, sp1: Space, m1: Tables, sp2: Space, m2: Tables, rl: nat, stop: nat,
                    virt: nat, lo: nat, dropped: set<nat>)
    requires Inv(sp0, m0) && stop <= rl <= 2 && virt < Limit(sp0) && Within(sp0, PageOf(virt)) && sp1.limit == sp0.limit
    requires Accounts(sp0, m0, sp1, m1, {}) && Accounts(sp1, m1, sp2, m2, dropped)
    requires SlotLocal(sp0, m0, sp1, m1, rl, PageOf(virt)) && SlotLocal(sp1, m1, sp2, m2, stop, PageOf(virt))
    requires RangeKept(sp0, m0, sp1, m1, lo, virt) && PathOnly(sp1, m1, sp2, m2, PageOf(virt))
    ensures Accounts(sp0, m0, sp2, m2, dropped)
    ensures SlotLocal(sp0, m0, sp2, m2, rl, PageOf(virt))
    ensures RangeKept(sp0, m0, sp2, m2, lo, virt)
  {
    AccountsTrans(sp0, m0, sp1, m1, sp2, m2, {}, dropped, dropped);
    SlotLocalTrans(sp0, m0, sp1, m1, sp2, m2, stop, rl, PageOf(virt));
    InLimit(sp0, m0, virt);
    PathOnlyKeeps(sp1, m1, sp2, m2, virt, lo);
    RangeKeptTrans(sp0, m0, sp1, m1, sp2, m2, lo, virt);
  }

  lemma UnmapsMore(sp0: Space, m0: Tables, sp1: Space, m1: Tables, sp: Space, m: Tables, lo: nat, virt: nat, size: nat,
                   level: nat)
    requires level <= 2 && lo <= virt && sp1.limit == sp0.limit
    requires Unmaps(sp0, m0, sp1, m1, lo, virt)
    requires RoundUnmaps(sp1, m1, sp, m, virt, size, level)
    ensures var advance := Size(level) - Off(level, virt);
            Unmaps(sp0, m0, sp, m, lo, if advance >= size then virt + size else virt + advance)
  {
    forall v: nat | v < Limit(sp0)
      ensures Translate(sp, m, v) ==
              if virt <= v < virt + size && v < virt - Off(level, virt) + Size(level) then Unmapped
                else Translate(sp1, m1, v)
    {
    }
  }

  lemma AdvanceAligned(level: nat, virt: nat, size: nat, advance: nat)
    requires level <= 2 && PageAligned(virt, size)
    requires advance == Size(level) - Off(level, virt) && advance < size
    ensures PageAligned(virt + advance, size - advance)
  {
    SlotStart(level, virt);
    OffAdd(level, 0, virt - Off(level, virt));
    PagesLeft(virt, size, advance);
  }

  lemma PagesLeft(virt: nat, size: nat, advance: nat)
    requires PageAligned(virt, size) && (virt + advance) % PAGE_SIZE == 0 && advance <= size
    ensures (size - advance) % PAGE_SIZE == 0
  {
  }

  ghost predicate LookGone(n: int) {
    true
  }

  /** The part [lo, virt) of a range is unmapped and its emptied tables are gone. */
  ghost predicate Gone(sp0: Space, m0: Tables, sp: Space, m: Tables, rl: nat, kernel: bool, lo: nat, virt: nat) {
    forall n: int :: LookGone(n) ==> Unmaps(sp0, m0, sp, m, lo, virt) && Cleared(sp, m, rl, kernel, lo, virt)
  }

  /** A leaf at an address, with no leaf across the end of the range, lies in the range. */
  lemma NeatCovers(sp: Space, m: Tables, rl: nat, level: nat, virt: nat, size: nat)
    requires Inv(sp, m) && level <= rl <= 2 && size > 0 && virt < Limit(sp) && Off(level, virt) == 0
    requires Get(sp, m, level, PageOf(virt)).Leaf? && NoLeafAcross(sp, m, rl, virt + size)
    ensures size >= Size(level)
  {
    var hi := virt + size;
    if size < Size(level) {
      InLimit(sp, m, virt);
      SlotFacts(level, virt);
      SlotsNest(level, 2, PageOf(virt));
      assert hi < Limit(sp);
      InLimit(sp, m, hi);
      InSlotSame(level, virt, hi);
      SameGet(sp, m, level, PageOf(hi), PageOf(virt));
      OffFrom(level, virt, hi);
    }
  }

  /** Clearing the path of an address makes no leaf. */
  lemma NeatKept(sp1: Space, m1: Tables, sp: Space, m2: Tables, m: Tables, rl: nat, kernel: bool, level: nat,
                 stop: nat, virt: nat, hi: nat)
    requires Inv(sp1, m1) && Inv(sp, m2) && virt < Limit(sp1) && hi <= Limit(sp1) && sp.limit == sp1.limit
    requires PathOnly(sp1, m1, sp, m2, PageOf(virt)) && StoppedAt(sp, m2, rl, kernel, level, stop, virt)
    requires !Get(sp1, m1, level, PageOf(virt)).Next?
    requires forall k: nat, a :: Get(sp, m, k, a) == Get(sp, m2, k, a)
    ensures NoLeafAcross(sp1, m1, rl, hi) ==> NoLeafAcross(sp, m, rl, hi)
  {
    var a := PageOf(hi);
    if hi == Limit(sp1) {
      ModMul(sp1.limit, ROOT_SLOT);
      AlignedDown(2, rl, hi);
      AlignedNoLeaf(sp, m, rl, hi);
    } else {
      InLimit(sp1, m1, hi);
      forall k: nat | k <= rl && k <= 2 && Get(sp, m, k, a).Leaf?
        ensures Get(sp1, m1, k, a).Leaf?
      {
        NeatEntry(sp1, m1, sp, m2, rl, kernel, level, stop, virt, k, a);
      }
    }
  }

  lemma NeatEntry(sp1: Space, m1: Tables, sp: Space, m: Tables, rl: nat, kernel: bool, level: nat, stop: nat,
                  virt: nat, k: nat, a: Page)
    requires Inv(sp1, m1) && Inv(sp, m) && virt < Limit(sp1) && sp.limit == sp1.limit && k <= rl
    requires PathOnly(sp1, m1, sp, m, PageOf(virt)) && StoppedAt(sp, m, rl, kernel, level, stop, virt)
    requires !Get(sp1, m1, level, PageOf(virt)).Next? && Within(sp1, a) && Get(sp, m, k, a).Leaf?
    ensures Get(sp1, m1, k, a).Leaf?
  {
    assert LookKept(0);
    var b := PageOf(virt);
    InLimit(sp1, m1, virt);
    if Same(k, a, b) {
      SameGet(sp, m, k, a, b);
      if k > stop {
        Upward(sp, m, stop, k, b);
      } else if k < level {
        Upward(sp1, m1, k, level, b);
      }
    }
  }

  /** What unmapping inside one table leaves alone. */
  ghost predicate Confined(sp0: Space, m0: Tables, sp: Space, m: Tables, rl: nat, kernel: bool, whole: bool, lo: nat) {
    forall n: int :: LookMade(n) ==>
      && Accounts(sp0, m0, sp, m, {}) && SubtreeLocal(sp0, m0, sp, m, rl, PageOf(lo))
      && (whole ==> SlotLocal(sp0, m0, sp, m, rl, PageOf(lo)) && NoNew(sp0, sp))
      && (rl == 2 && kernel ==> NextKept(sp0, m0, sp, m))
  }

  lemma GoneStart(sp: Space, m: Tables, rl: nat, kernel: bool, whole: bool, lo: nat)
    requires Inv(sp, m)
    ensures Confined(sp, m, sp, m, rl, kernel, whole, lo) && Gone(sp, m, sp, m, rl, kernel, lo, lo)
  {
    AccountsRefl(sp, m);
    SubtreeRefl(sp, m, rl, PageOf(lo));
    ClearedNothing(sp, m, rl, kernel, lo);
    SlotLocalRefl(sp, m, rl, PageOf(lo));
    assert NextKept(sp, m, sp, m);
  }

  lemma ConfinedMeans(sp0: Space, m0: Tables, sp: Space, m: Tables, rl: nat, kernel: bool, whole: bool, lo: nat)
    requires Confined(sp0, m0, sp, m, rl, kernel, whole, lo)
    ensures Accounts(sp0, m0, sp, m, {}) && SubtreeLocal(sp0, m0, sp, m, rl, PageOf(lo))
    ensures whole ==> SlotLocal(sp0, m0, sp, m, rl, PageOf(lo)) && NoNew(sp0, sp)
    ensures rl == 2 && kernel ==> NextKept(sp0, m0, sp, m)
  {
    assert LookMade(0);
  }

  lemma ConfinedMore(sp0: Space, m0: Tables, sp1: Space, m1: Tables, sp: Space, m: Tables, rl: nat, kernel: bool,
                     whole: bool, lo: nat, virt: nat)
    requires Inv(sp0, m0) && rl <= 2 && sp1.limit == sp0.limit && lo <= virt < Limit(sp0)
    requires At(rl, PageOf(lo)) in sp0.tab && At(rl, PageOf(virt)) == At(rl, PageOf(lo))
    requires Confined(sp0, m0, sp1, m1, rl, kernel, whole, lo)
    requires Accounts(sp1, m1, sp, m, {}) && SlotLocal(sp1, m1, sp, m, rl, PageOf(virt))
    requires whole ==> NoNew(sp1, sp) && virt < lo + Size(rl) && Off(rl, lo) == 0
    requires rl == 2 && kernel ==> NextKept(sp1, m1, sp, m)
    ensures Confined(sp0, m0, sp, m, rl, kernel, whole, lo)
    ensures var p := At(rl, PageOf(lo)); p in sp.tab && sp.tab[p] == sp0.tab[p]
  {
    assert LookMade(0);
    InLimit(sp0, m0, lo);
    InLimit(sp0, m0, virt);
    AccountsTrans(sp0, m0, sp1, m1, sp, m, {}, {}, {});
    SubtreeTrans(sp0, m0, sp1, m1, sp, m, rl, PageOf(lo), PageOf(virt));
    SubtreeTable(sp0, m0, sp, m, rl, PageOf(lo));
    if whole {
      WholeLocal(sp0, m0, sp1, m1, sp, m, rl, lo, virt);
    }
    if rl == 2 && kernel {
      NextKeptTrans(sp0, m0, sp1, m1, sp, m);
    }
  }

  lemma GoneMeans(sp0: Space, m0: Tables, sp: Space, m: Tables, rl: nat, kernel: bool, lo: nat, hi: nat)
    requires Gone(sp0, m0, sp, m, rl, kernel, lo, hi)
    ensures Unmaps(sp0, m0, sp, m, lo, hi) && Cleared(sp, m, rl, kernel, lo, hi)
  {
    assert LookGone(0);
  }

  lemma RoundDone(sp0: Space, m0: Tables, sp1: Space, m1: Tables, sp: Space, m: Tables, rl: nat, kernel: bool,
                  level: nat, stop: nat, lo: nat, virt: nat, size: nat, done: nat)
    requires level <= rl <= 2 && lo <= virt && PageAligned(virt, size) && sp1.limit == sp0.limit
             && sp.limit == sp0.limit
    requires done == if Size(level) - Off(level, virt) >= size then virt + size
             else virt + Size(level) - Off(level, virt)
    requires Inv(sp, m) && virt < Limit(sp) && StoppedAt(sp, m, rl, kernel, level, stop, virt)
    requires Gone(sp0, m0, sp1, m1, rl, kernel, lo, virt)
    requires RoundUnmaps(sp1, m1, sp, m, virt, size, level) && RangeKept(sp1, m1, sp, m, lo, virt)
    ensures Gone(sp0, m0, sp, m, rl, kernel, lo, done)
  {
    assert LookGone(0);
    UnmapsMore(sp0, m0, sp1, m1, sp, m, lo, virt, size, level);
    ClearedKept(sp1, m1, sp, m, rl, kernel, lo, virt);
    ClearedRound(sp, m, rl, kernel, level, stop, lo, virt, done);
  }

  /** The next round works in the same table. */
  lemma RoundNext(sp: Space, m: Tables, rl: nat, kernel: bool, level: nat, stop: nat, lo: nat, virt: nat, size: nat,
                  advance: nat)
    requires level <= rl <= 2 && lo <= virt && PageAligned(virt, size)
             && virt + size <= TableBase(rl, lo) + Size(rl + 1)
    requires Inv(sp, m) && virt + size <= Limit(sp) && StoppedAt(sp, m, rl, kernel, level, stop, virt)
    requires advance == Size(level) - Off(level, virt) && advance < size
    ensures PageAligned(virt + advance, size - advance) && virt + advance < Limit(sp)
            && Within(sp, PageOf(virt + advance))
    ensures At(rl, PageOf(virt + advance)) == At(rl, PageOf(lo))
    ensures NoLeafAcross(sp, m, rl, virt + advance)
  {
    AdvanceAligned(level, virt, size, advance);
    InLimit(sp, m, virt + advance);
    SameTable(rl, lo, virt + advance);
    NextRound(sp, m, rl, kernel, level, stop, virt, virt + advance);
  }

  lemma WholeLocal(sp0: Space, m0: Tables, sp1: Space, m1: Tables, sp: Space, m: Tables, rl: nat, lo: nat, virt: nat)
    requires rl <= 2 && Within(sp0, PageOf(lo)) && Within(sp0, PageOf(virt)) && sp1.limit == sp0.limit
    requires virt < VA_END && lo <= virt < lo + Size(rl) && Off(rl, lo) == 0
    requires SlotLocal(sp0, m0, sp1, m1, rl, PageOf(lo)) && SlotLocal(sp1, m1, sp, m, rl, PageOf(virt))
    ensures SlotLocal(sp0, m0, sp, m, rl, PageOf(lo))
  {
    InSlotSame(rl, lo, virt);
    SlotLocalSame(sp1, m1, sp, m, rl, PageOf(virt), PageOf(lo));
    SlotLocalTrans(sp0, m0, sp1, m1, sp, m, rl, rl, PageOf(lo));
  }

  lemma PageExact(level: nat, virt: nat)
    requires level <= 2 && Off(level, virt) == 0
    ensures PageDown(virt) == virt && PageUp(Size(level)) == Size(level)
    ensures Fits(level, virt, Size(level)) && Whole(level, virt, Size(level))
    ensures level > 0 ==> Fits(level - 1, virt, Size(level))
  {
    AlignedDown(level, 0, virt);
    var base := virt - Off(level + 1, virt);
    SlotStart(level + 1, virt);
    NextMultiple(level + 1, base);
    AlignedDown(level + 1, level, base + Size(level + 1));
    MultiplesApart(virt, base + Size(level + 1), Size(level));
  }

  /** In the kernel half, the walk up stops below the root unless the root entry was no pointer. */
  lemma RoundNextKept(sp0: Space, m0: Tables, sp1: Space, m1: Tables, sp: Space, m2: Tables, m: Tables, level: nat,
                      stop: nat, virt: nat)
    requires level <= stop <= 2 && virt < Limit(sp1) && Inv(sp1, m1) && sp.limit == sp1.limit
    requires NextKept(sp0, m0, sp1, m1) && SlotLocal(sp1, m1, sp, m2, stop, PageOf(virt))
    requires forall k: nat, a :: Get(sp, m, k, a) == Get(sp, m2, k, a)
    requires !Get(sp1, m1, level, PageOf(virt)).Next?
    requires stop == 2 && virt >= USER_END ==> level == 2
    ensures NextKept(sp0, m0, sp, m)
  {
    InLimit(sp1, m1, virt);
    SlotFacts(2, virt);
    SlotLocalNext(sp1, m1, sp, m2, stop, PageOf(virt));
    NextKeptTrans(sp0, m0, sp1, m1, sp, m2);
    assert LookNext(0);
  }

  lemma RoundTranslations(sp0: Space, m0: Tables, sp1: Space, m1: Tables, sp: Space, m2: Tables, m3: Tables, virt: nat,
                          size: nat, level: nat)
    requires level <= 2 && Inv(sp1, m1) && virt < Limit(sp0) && sp1.limit == sp0.limit && sp.limit == sp0.limit
    requires SameTranslations(sp0, m0, sp1, m1)
    requires SlotRemapped(sp1, m1, sp, m2, level, virt, Invalid)
    requires SameTranslations(sp, m2, sp, m3)
    requires At(level, PageOf(virt)) in sp1.tab
    requires var e := Get(sp1, m1, level, PageOf(virt));
             e.Invalid? || (e.Leaf? && Off(level, virt) == 0 && size >= Size(level))
    ensures RoundUnmaps(sp0, m0, sp, m3, virt, size, level)
  {
    forall v: nat | v < Limit(sp0)
      ensures Translate(sp, m3, v) ==
              if virt <= v < virt + size && v < virt - Off(level, virt) + Size(level) then Unmapped
                else Translate(sp0, m0, v)
    {
      assert Translate(sp, m3, v) == Translate(sp, m2, v);
      assert Translate(sp1, m1, v) == Translate(sp0, m0, v);
      if InSlot(level, virt, v) && Get(sp1, m1, level, PageOf(virt)).Invalid? {
        InvalidUnmapped(sp1, m1, level, virt, v);
      }
    }
  }

  /** `virt & PAGE_MASK` */
  function PageDown(v: nat): (r: nat) {
    v - v % PAGE_SIZE
  }

  ghost function Elems(s: seq<nat>): (r: set<nat>) {
    set t | t in s
  }

  ghost predicate Distinct(s: seq<nat>) {
    forall n: int :: LookTrail(n) ==> forall i, j :: 0 <= i < j < |s| ==> s[i] != s[j]
  }

  lemma ElemsSnoc(s: seq<nat>, x: nat)
    ensures Elems(s + [x]) == Elems(s) + {x}
  {
  }

  lemma DistinctSnoc(s: seq<nat>, x: nat)
    requires Distinct(s) && x !in Elems(s)
    ensures Distinct(s + [x])
  {
    assert LookTrail(0);
  }

  lemma DistinctMeans(s: seq<nat>)
    requires Distinct(s)
    ensures forall i, j :: 0 <= i < j < |s| ==> s[i] != s[j]
  {
    assert LookTrail(0);
  }

  /** What clearing the path of a page up to level n does. */
  ghost predicate PathCleared(sp0: Space, m0: Tables, sp: Space, m: Tables, n: nat, b: Page, cleared: set<nat>) {
    forall i: int :: LookMade(i) ==>
      Accounts(sp0, m0, sp, m, cleared) && SlotLocal(sp0, m0, sp, m, n, b) && PathOnly(sp0, m0, sp, m, b)
  }

  lemma PathClearedStart(sp: Space, m: Tables, n: nat, b: Page)
    requires Inv(sp, m)
    ensures PathCleared(sp, m, sp, m, n, b, Elems([]))
  {
    AccountsRefl(sp, m);
    SlotLocalRefl(sp, m, n, b);
    assert Elems([]) == {};
  }

  lemma ClearUpStep(sp0: Space, m0: Tables, sp1: Space, m1: Tables, sp: Space, m: Tables, n: nat, b: Page,
                    d1: set<nat>, d2: set<nat>, d: set<nat>)
    requires n <= 2 && Within(sp0, b) && d == d1 + d2
    requires PathCleared(sp0, m0, sp1, m1, n, b, d1)
    requires Accounts(sp1, m1, sp, m, d2) && SlotLocal(sp1, m1, sp, m, n, b) && PathOnly(sp1, m1, sp, m, b)
    ensures PathCleared(sp0, m0, sp, m, n, b, d)
  {
    assert LookMade(0);
    AccountsTrans(sp0, m0, sp1, m1, sp, m, d1, d2, d);
    SlotLocalTrans(sp0, m0, sp1, m1, sp, m, n, n, b);
    PathOnlyTrans(sp0, m0, sp1, m1, sp, m, b);
  }

  lemma PathClearedUp(sp0: Space, m0: Tables, sp: Space, m: Tables, n: nat, b: Page, d: set<nat>)
    requires Inv(sp0, m0) && n < 2 && Within(sp0, b) && At(n, b) in sp.tab && PathCleared(sp0, m0, sp, m, n, b, d)
    ensures PathCleared(sp0, m0, sp, m, n + 1, b, d) && sp.tab[At(n, b)] !in d
  {
    assert LookMade(0);
    DroppedApart(sp0, m0, sp, m, d, At(n, b));
    SlotLocalWiden(sp0, m0, sp, m, n, n + 1, b);
  }

  ghost predicate LookValid(n: int) {
    true
  }

  /** The condition under which `paging_create` sets a leaf of a level. */
  predicate Leafable(level: nat, phys: nat, virt: nat, size: nat, huge: bool) {
    level <= 2 && Size(level) <= size && Off(level, phys) == 0 && Off(level, virt) == 0 && (huge || level == 0)
  }

  /** What splits and new tables on the way down to a level leave as it was. */
  ghost predicate Sunk(sp0: Space, m0: Tables, sp: Space, m: Tables, kernelRoot: nat, rl: nat, level: nat, b: Page) {
    forall n: int :: LookMade(n) ==>
      && Accounts(sp0, m0, sp, m, {}) && SlotLocal(sp0, m0, sp, m, rl, b) && SameTranslations(sp0, m0, sp, m)
      && (Get(sp0, m0, rl, b).Next? ==> Get(sp, m, rl, b) == Get(sp0, m0, rl, b))
      && (Full(sp0, m0, sp0.root == kernelRoot, rl, b) ==> Full(sp, m, sp0.root == kernelRoot, level, b))
  }

  lemma SunkStart(sp: Space, m: Tables, kernelRoot: nat, rl: nat, b: Page)
    requires Inv(sp, m)
    ensures Sunk(sp, m, sp, m, kernelRoot, rl, rl, b)
  {
    AccountsRefl(sp, m);
    SlotLocalRefl(sp, m, rl, b);
  }

  lemma SunkMeans(sp0: Space, m0: Tables, sp: Space, m: Tables, kernelRoot: nat, rl: nat, level: nat, b: Page)
    requires Sunk(sp0, m0, sp, m, kernelRoot, rl, level, b)
    ensures Accounts(sp0, m0, sp, m, {}) && SlotLocal(sp0, m0, sp, m, rl, b) && SameTranslations(sp0, m0, sp, m)
    ensures Get(sp0, m0, rl, b).Next? ==> Get(sp, m, rl, b) == Get(sp0, m0, rl, b)
    ensures Full(sp0, m0, sp0.root == kernelRoot, rl, b) ==> Full(sp, m, sp0.root == kernelRoot, level, b)
  {
    assert LookMade(0);
  }

  lemma SunkStep(sp0: Space, m0: Tables, sp1: Space, m1: Tables, sp: Space, m: Tables, kernelRoot: nat, rl: nat,
                 level: nat, b: Page, ok: bool)
    requires 1 <= level <= rl <= 2 && Within(sp0, b) && sp1.limit == sp0.limit && sp1.root == sp0.root
    requires Sunk(sp0, m0, sp1, m1, kernelRoot, rl, level, b)
    requires Accounts(sp1, m1, sp, m, {}) && SlotLocal(sp1, m1, sp, m, level, b)
    requires Get(sp1, m1, level, b).Next? ==> Get(sp, m, level, b) == Get(sp1, m1, level, b)
    requires ok ==> SameTranslations(sp1, m1, sp, m)
    requires ok && Full(sp1, m1, sp1.root == kernelRoot, level, b) ==>
             Full(sp, m, sp1.root == kernelRoot, level - 1, b)
    ensures Accounts(sp0, m0, sp, m, {}) && SlotLocal(sp0, m0, sp, m, rl, b)
    ensures sp.limit == sp0.limit && sp.root == sp0.root
    ensures Get(sp0, m0, rl, b).Next? ==> Get(sp, m, rl, b) == Get(sp0, m0, rl, b)
    ensures ok ==> Sunk(sp0, m0, sp, m, kernelRoot, rl, level - 1, b)
  {
    SunkMeans(sp0, m0, sp1, m1, kernelRoot, rl, level, b);
    AccountsTrans(sp0, m0, sp1, m1, sp, m, {}, {}, {});
    SlotLocalTrans(sp0, m0, sp1, m1, sp, m, level, rl, b);
    PathKept(sp1, m1, sp, m, level, rl, b);
    SameRoot(sp1, m1, sp, m, {});
  }

  /** Linking an empty table in place of an invalid entry changes no translation. */
  lemma LinkSilent(sp: Space, m: Tables, sp': Space, m': Tables, level: nat, virt: nat)
    requires level <= 2 && Inv(sp, m) && virt < Limit(sp) && At(level, PageOf(virt)) in sp.tab
    requires Get(sp, m, level, PageOf(virt)).Invalid?
    requires SlotRemapped(sp, m, sp', m', level, virt, Invalid)
    ensures SameTranslations(sp, m, sp', m')
  {
    forall v: nat | v < Limit(sp)
      ensures Translate(sp', m', v) == Translate(sp, m, v)
    {
      if InSlot(level, virt, v) {
        InvalidUnmapped(sp, m, level, virt, v);
      }
    }
  }

  /** What an overwritten root entry of the kernel half loses: the table it pointed to. */
  lemma LeafReplaces(sp0: Space, m0: Tables, sp: Space, m: Tables, level: nat, kernel: bool, virt: nat, lost: set<nat>)
    requires level <= 2 && virt < Limit(sp0) && Inv(sp0, m0) && Inv(sp, m) && sp.limit == sp0.limit && NoNew(sp0, sp)
    requires At(level, PageOf(virt)) in sp0.tab
    requires level == 2 && kernel ==> NextKept(sp0, m0, sp, m)
    requires Get(sp, m, level, PageOf(virt)).Next? ==> level == 2 && kernel && virt >= USER_END
    requires lost == Dropped(Get(sp, m, level, PageOf(virt)))
    ensures lost == if level == 2 && kernel && virt >= USER_END then Dropped(Get(sp0, m0, 2, PageOf(virt))) else {}
  {
    var b := PageOf(virt);
    InLimit(sp0, m0, virt);
    SlotFacts(2, virt);
    assert LookNext(0);
    if level == 2 {
      Peek(sp, m, 2, b);
      Peek(sp0, m0, 1, b);
    }
  }

  /** The next round of a mapping works in the same table. */
  lemma CreateNext(sp: Space, m: Tables, rl: nat, level: nat, lo: nat, virt: nat, phys: nat, size: nat, huge: bool)
    requires level <= rl <= 2 && lo <= virt && PageAligned(virt, size) && phys % PAGE_SIZE == 0
    requires Leafable(level, phys, virt, size, huge)
    requires virt + size <= TableBase(rl, lo) + Size(rl + 1) && virt + size <= Limit(sp) && Inv(sp, m)
    ensures PageAligned(virt + Size(level), size - Size(level)) && (phys + Size(level)) % PAGE_SIZE == 0
    ensures size > Size(level) ==>
            Within(sp, PageOf(virt + Size(level))) && At(rl, PageOf(virt + Size(level))) == At(rl, PageOf(lo))
  {
    OffAdd(level, 0, virt);
    OffAdd(level, 0, phys);
    if size > Size(level) {
      InLimit(sp, m, virt + Size(level));
      SameTable(rl, lo, virt + Size(level));
    }
  }

  /** A round sets a root leaf exactly when the mapping may and a whole slot is left. */
  lemma RootLeafed(phys0: nat, virt0: nat, phys: nat, virt: nat, size: nat, huge: bool, level: nat)
    requires level <= 2 && virt0 <= virt && phys == phys0 + (virt - virt0)
    requires Leafable(level, phys, virt, size, huge) && (level < 2 ==> !Leafable(2, phys, virt, size, huge))
    ensures level == 2 ==> RootLeaves(2, phys0, virt0, huge)
    ensures RootLeaves(2, phys0, virt0, huge) ==> (level == 2 <==> Off(2, virt) == 0 && ROOT_SLOT <= size)
  {
    if Off(2, virt) == 0 {
      Congruent(phys0, virt0, phys, virt);
    }
  }

  ghost predicate LookMade(n: int) {
    true
  }

  /** The part [lo, virt) of a mapping of [lo, hi) is done. */
  ghost predicate Made(sp0: Space, m0: Tables, sp: Space, m: Tables, rl: nat, kernel: bool, huge: bool,
                       lo: nat, virt: nat, hi: nat, phys: nat, flags: nat, leaked: set<nat>)
  {
    forall n: int :: LookMade(n) ==>
      && Accounts(sp0, m0, sp, m, leaked) && SubtreeLocal(sp0, m0, sp, m, rl, PageOf(lo))
      && Maps(sp0, m0, sp, m, lo, virt, phys, flags)
      && if rl == 2 then RootProgress(sp0, m0, sp, m, RootLeaves(rl, phys, lo, huge), kernel, lo, virt, hi, leaked)
      else leaked == {}
  }

  lemma MadeStart(sp: Space, m: Tables, rl: nat, kernel: bool, huge: bool, lo: nat, hi: nat, phys: nat, flags: nat)
    requires Inv(sp, m)
    ensures Made(sp, m, sp, m, rl, kernel, huge, lo, lo, hi, phys, flags, {})
  {
    AccountsRefl(sp, m);
    SubtreeRefl(sp, m, rl, PageOf(lo));
    RootStart(sp, m, RootLeaves(rl, phys, lo, huge), kernel, lo, hi);
  }

  lemma MadeMore(sp0: Space, m0: Tables, sp1: Space, m1: Tables, sp: Space, m: Tables, rl: nat, kernel: bool,
                 huge: bool, level: nat,
                 lo: nat, virt: nat, hi: nat, phys: nat, flags: nat, leaked: set<nat>, lost: set<nat>)
    requires Inv(sp0, m0) && level <= rl <= 2 && lo <= virt < hi <= Limit(sp0) && sp1.limit == sp0.limit
    requires At(rl, PageOf(virt)) == At(rl, PageOf(lo))
    requires Made(sp0, m0, sp1, m1, rl, kernel, huge, lo, virt, hi, phys, flags, leaked)
    requires Accounts(sp1, m1, sp, m, lost) && SlotLocal(sp1, m1, sp, m, rl, PageOf(virt))
    requires SlotRemapped(sp1, m1, sp, m, level, virt, Leaf(phys + (virt - lo), flags))
    requires Leafable(level, phys + (virt - lo), virt, hi - virt, huge)
    requires level < rl == 2 ==> !Leafable(2, phys + (virt - lo), virt, hi - virt, huge)
    requires if rl == 2 then RootRound(sp1, m1, sp, m, kernel, level == 2, virt, lost) else lost == {}
    ensures Made(sp0, m0, sp, m, rl, kernel, huge, lo, virt + Size(level), hi, phys, flags, leaked + lost)
    ensures var p := At(rl, PageOf(lo)); p in sp0.tab ==> p in sp.tab && sp.tab[p] == sp0.tab[p]
  {
    assert LookMade(0);
    InLimit(sp0, m0, virt);
    InLimit(sp0, m0, lo);
    AccountsTrans(sp0, m0, sp1, m1, sp, m, leaked, lost, leaked + lost);
    SubtreeTrans(sp0, m0, sp1, m1, sp, m, rl, PageOf(lo), PageOf(virt));
    if At(rl, PageOf(lo)) in sp0.tab {
      SubtreeTable(sp0, m0, sp, m, rl, PageOf(lo));
    }
    MapsMore(sp0, m0, sp1, m1, sp, m, lo, virt, phys, flags, level);
    if rl == 2 {
      RootTurn(sp0, m0, sp1, m1, sp, m, kernel, huge, level, lo, virt, hi, phys, leaked, lost);
    }
  }

  /** A successful round carries the mapping on, and the next round works in the same table. */
  lemma MadeTurn(sp0: Space, m0: Tables, sp1: Space, m1: Tables, sp: Space, m: Tables, rl: nat, root: nat,
                 kernelRoot: nat, huge: bool, level: nat,
                 lo: nat, virt: nat, size: nat, phys0: nat, flags: nat, leaked1: set<nat>, lost: set<nat>,
                 leaked: set<nat>)
    requires Inv(sp0, m0) && Inv(sp, m) && level <= rl <= 2 && lo <= virt && size > 0 && virt + size <= Limit(sp0)
    requires sp1.limit == sp0.limit && sp.limit == sp0.limit && leaked == leaked1 + lost
    requires At(rl, PageOf(virt)) == At(rl, PageOf(lo)) && At(rl, PageOf(lo)) in sp0.tab
             && sp0.tab[At(rl, PageOf(lo))] == root
    requires PageAligned(virt, size) && virt + size <= TableBase(rl, lo) + Size(rl + 1)
             && (phys0 + (virt - lo)) % PAGE_SIZE == 0
    requires Made(sp0, m0, sp1, m1, rl, root == kernelRoot, huge, lo, virt, virt + size, phys0, flags, leaked1)
    requires Accounts(sp1, m1, sp, m, lost) && SlotLocal(sp1, m1, sp, m, rl, PageOf(virt))
    requires SlotRemapped(sp1, m1, sp, m, level, virt, Leaf(phys0 + (virt - lo), flags))
    requires Leafable(level, phys0 + (virt - lo), virt, size, huge)
    requires level < rl == 2 ==> !Leafable(2, phys0 + (virt - lo), virt, size, huge)
    requires if rl == 2 then RootRound(sp1, m1, sp, m, root == kernelRoot, level == 2, virt, lost) else lost == {}
    ensures Size(level) <= size
    ensures Made(sp0, m0, sp, m, rl, root == kernelRoot, huge, lo, virt + Size(level), virt + size, phys0, flags,
                 leaked)
    ensures PageAligned(virt + Size(level), size - Size(level)) && (phys0 + (virt - lo) + Size(level)) % PAGE_SIZE == 0
    ensures size > Size(level) ==>
              && virt + Size(level) < Limit(sp) && Within(sp, PageOf(virt + Size(level)))
              && At(rl, PageOf(virt + Size(level))) == At(rl, PageOf(lo))
              && At(rl, PageOf(lo)) in sp.tab && sp.tab[At(rl, PageOf(lo))] == root
  {
    MadeMore(sp0, m0, sp1, m1, sp, m, rl, root == kernelRoot, huge, level, lo, virt, virt + size, phys0, flags, leaked1,
             lost);
    CreateNext(sp, m, rl, level, lo, virt, phys0 + (virt - lo), size, huge);
  }

  /** The root entry of an address at the start of a slot. */
  lemma SlotEntry(sp: Space, m: Tables, i: nat, virt: nat)
    requires Inv(sp, m) && virt == i * ROOT_SLOT && virt < Limit(sp)
    ensures RootEntry(sp, m, i) == Get(sp, m, 2, PageOf(virt))
  {
    InLimit(sp, m, virt);
    SlotFacts(2, virt);
    SameGet(sp, m, 2, PageOf(virt), Page(i, 0, 0));
  }

  /** A range below the limit of a space lies in its root table. */
  lemma RootRange(sp: Space, m: Tables, vaddr: nat, size: nat)
    requires Inv(sp, m) && PageUp(size) > 0 && PageDown(vaddr) + PageUp(size) <= Limit(sp)
    ensures PageDown(vaddr) < Limit(sp) && Within(sp, PageOf(PageDown(vaddr)))
    ensures At(2, PageOf(PageDown(vaddr))) in sp.tab && sp.tab[At(2, PageOf(PageDown(vaddr)))] == sp.root
    ensures Fits(2, PageDown(vaddr), PageUp(size))
  {
    var v := PageDown(vaddr);
    InLimit(sp, m, v);
    Peek(sp, m, 2, PageOf(v));
    SlotStart(0, vaddr);
    ModMul((size + PAGE_SIZE - 1) / PAGE_SIZE, PAGE_SIZE);
  }

  lemma SameLimit(sp: Space, m: Tables, sp': Space, m': Tables, lost: set<nat>)
    requires Accounts(sp, m, sp', m', lost)
    ensures sp'.limit == sp.limit
  {
    assert LookAccounts(0);
  }

  /** A range smaller than a root slot covers none. */
  lemma TooSmall(sp: Space, m: Tables, sp': Space, m': Tables, leaves: bool, lo: nat, hi: nat)
    requires Inv(sp, m) && Inv(sp', m') && sp'.limit == sp.limit
    requires RootKept(sp, m, sp', m', leaves, lo, hi) && hi < lo + ROOT_SLOT
    ensures NextKept(sp, m, sp', m') && Leaks(sp, m, lo, hi) == {}
  {
    forall i: nat | Covered(i, lo, hi)
      ensures false
    {
    }
    assert LookNext(0);
    forall a | Within(sp, a) && Get(sp, m, 2, a).Next?
      ensures Get(sp', m', 2, a) == Get(sp, m, 2, a)
    {
      var c := Page(a.i2, 0, 0);
      SameGet(sp, m, 2, a, c);
      SameGet(sp', m', 2, a, c);
      assert RootEntry(sp', m', a.i2) == RootEntry(sp, m, a.i2);
    }
  }

  lemma RootTurn(sp0: Space, m0: Tables, sp1: Space, m1: Tables, sp: Space, m: Tables, kernel: bool, huge: bool,
                 level: nat,
                 lo: nat, virt: nat, hi: nat, phys: nat, leaked: set<nat>, lost: set<nat>)
    requires level <= 2 && lo <= virt < hi && virt < Limit(sp0) && virt < VA_END && sp1.limit == sp0.limit
    requires Leafable(level, phys + (virt - lo), virt, hi - virt, huge)
    requires level < 2 ==> !Leafable(2, phys + (virt - lo), virt, hi - virt, huge)
    requires RootProgress(sp0, m0, sp1, m1, RootLeaves(2, phys, lo, huge), kernel, lo, virt, hi, leaked)
    requires RootRound(sp1, m1, sp, m, kernel, level == 2, virt, lost)
    ensures RootProgress(sp0, m0, sp, m, RootLeaves(2, phys, lo, huge), kernel, lo, virt + Size(level), hi,
                         leaked + lost)
  {
    RootLeafed(phys, lo, phys + (virt - lo), virt, hi - virt, huge, level);
    RootMore(sp0, m0, sp1, m1, sp, m, RootLeaves(2, phys, lo, huge), kernel, level, lo, virt, hi, leaked, lost);
  }

  /** What is left when a round fails. */
  lemma MadePart(sp0: Space, m0: Tables, sp1: Space, m1: Tables, sp: Space, m: Tables, rl: nat, kernel: bool,
                 huge: bool,
                 lo: nat, virt: nat, hi: nat, phys: nat, flags: nat, leaked: set<nat>, lost: set<nat>)
    requires Inv(sp0, m0) && rl <= 2 && lo <= virt < hi <= Limit(sp0) && sp1.limit == sp0.limit
    requires At(rl, PageOf(virt)) == At(rl, PageOf(lo))
    requires Made(sp0, m0, sp1, m1, rl, kernel, huge, lo, virt, hi, phys, flags, leaked)
    requires Accounts(sp1, m1, sp, m, lost) && SlotLocal(sp1, m1, sp, m, rl, PageOf(virt))
    requires if rl == 2 then RootRound(sp1, m1, sp, m, kernel, false, virt, lost) else lost == {}
    ensures Accounts(sp0, m0, sp, m, leaked) && SubtreeLocal(sp0, m0, sp, m, rl, PageOf(lo))
    ensures rl == 2 ==> RootKept(sp0, m0, sp, m, RootLeaves(rl, phys, lo, huge), lo, hi)
    ensures leaked <= if RootLeaves(rl, phys, lo, huge) && kernel then Leaks(sp0, m0, lo, hi) else {}
  {
    assert LookMade(0);
    InLimit(sp0, m0, virt);
    InLimit(sp0, m0, lo);
    AccountsTrans(sp0, m0, sp1, m1, sp, m, leaked, lost, leaked);
    SubtreeTrans(sp0, m0, sp1, m1, sp, m, rl, PageOf(lo), PageOf(virt));
    if rl == 2 {
      RootEnd(sp0, m0, sp1, m1, sp, m, RootLeaves(rl, phys, lo, huge), kernel, lo, virt, hi, leaked);
    }
  }

  lemma MadeEnd(sp0: Space, m0: Tables, sp: Space, m: Tables, rl: nat, kernel: bool, huge: bool,
                lo: nat, hi: nat, phys: nat, flags: nat, leaked: set<nat>)
    requires Made(sp0, m0, sp, m, rl, kernel, huge, lo, hi, hi, phys, flags, leaked) && sp.limit == sp0.limit
    ensures Accounts(sp0, m0, sp, m, leaked) && SubtreeLocal(sp0, m0, sp, m, rl, PageOf(lo))
    ensures Maps(sp0, m0, sp, m, lo, hi, phys, flags)
    ensures rl == 2 ==> RootKept(sp0, m0, sp, m, RootLeaves(rl, phys, lo, huge), lo, hi)
    ensures leaked == if RootLeaves(rl, phys, lo, huge) && kernel then Leaks(sp0, m0, lo, hi) else {}
  {
    assert LookMade(0);
    if rl == 2 {
      RootEnd(sp0, m0, sp, m, sp, m, RootLeaves(rl, phys, lo, huge), kernel, lo, hi, hi, leaked);
    }
  }

  /** The arguments with which a leaf is split. */
  lemma SplitRange(sp: Space, m: Tables, level: nat, virt: nat, pte: nat)
    requires 1 <= level <= 2 && Inv(sp, m) && virt < Limit(sp) && Within(sp, PageOf(virt))
    requires Decode(pte) == Get(sp, m, level, PageOf(virt)) && GoodLeaf(level, Decode(pte))
    ensures var base, phys := virt - Off(level, virt), GetPhys(level, pte, virt);
            && phys - Off(level, phys) == Decode(pte).phys && phys - Off(level, phys) + Size(level) <= PHYS_END
            && Off(level, base) == 0 && base + Size(level) <= Limit(sp)
            && Within(sp, PageOf(base)) && At(level - 1, PageOf(base)) == At(level - 1, PageOf(virt))
            && Same(level, PageOf(base), PageOf(virt))
            && AccessFlags(GetFlags(pte))
  {
    InLimit(sp, m, virt);
    GetPhysOfLeaf(level, pte, virt);
    SplitNumbers(level, virt, Decode(pte).phys);
    LeafFlags(pte);
    var base := virt - Off(level, virt);
    InSlotSame(level, virt, base);
    SlotFacts(level, virt);
    SlotsNest(level, 2, PageOf(virt));
    assert Base(2, PageOf(virt)) + Size(2) <= Limit(sp);
  }

  lemma SplitNumbers(level: nat, virt: nat, phys: nat)
    requires 1 <= level <= 2 && Off(level, phys) == 0 && phys < PHYS_END
    ensures var base, p := virt - Off(level, virt), phys + Off(level, virt);
            p - Off(level, p) == phys && phys + Size(level) <= PHYS_END && Off(level, base) == 0
  {
    SlotStart(level, virt);
    OffFrom(level, phys, phys + Off(level, virt));
    MultiplesApart(phys, PHYS_END, Size(level));
  }

  lemma LeafFlags(pte: nat)
    requires Decode(pte).Leaf?
    ensures AccessFlags(GetFlags(pte))
  {
    DecodeWord(pte / 1024, pte % 1024);
  }

  lemma SplitLocal(sp: Space, m: Tables, sp1: Space, m1: Tables, sp': Space, m': Tables, level: nat, virt: nat)
    requires 1 <= level <= 2 && Within(sp, PageOf(virt)) && sp1.limit == sp.limit
    requires Within(sp, PageOf(virt - Off(level, virt))) && Same(level, PageOf(virt - Off(level, virt)), PageOf(virt))
    requires SlotLocal(sp, m, sp1, m1, level, PageOf(virt))
    requires SubtreeLocal(sp1, m1, sp', m', level - 1, PageOf(virt - Off(level, virt)))
    requires Get(sp1, m1, level, PageOf(virt)).Next?
    ensures SlotLocal(sp, m, sp', m', level, PageOf(virt))
    ensures Get(sp', m', level, PageOf(virt)).Next? && sp'.limit == sp.limit
    ensures At(level, PageOf(virt)) in sp.tab ==>
              At(level, PageOf(virt)) in sp'.tab && sp'.tab[At(level, PageOf(virt))] == sp.tab[At(level, PageOf(virt))]
  {
    var b, c := PageOf(virt), PageOf(virt - Off(level, virt));
    SubtreeBelowSlot(sp1, m1, sp', m', level, c);
    SameGet(sp1, m1, level, c, b);
    SameGet(sp', m', level, c, b);
    SlotLocalSame(sp1, m1, sp', m', level, c, b);
    SlotLocalTrans(sp, m, sp1, m1, sp', m', level, level, b);
    PathKept(sp, m, sp', m', level, level, b);
  }

  /** Filling the new table with the pages of the leaf restores every translation. */
  lemma SplitSame(sp: Space, m: Tables, sp1: Space, m1: Tables, sp': Space, m': Tables, level: nat, virt: nat)
    requires 1 <= level <= 2 && Inv(sp, m) && virt < Limit(sp) && At(level, PageOf(virt)) in sp.tab
             && sp1.limit == sp.limit
    requires GoodLeaf(level, Get(sp, m, level, PageOf(virt)))
    requires SlotRemapped(sp, m, sp1, m1, level, virt, Invalid)
    requires var e, base := Get(sp, m, level, PageOf(virt)), virt - Off(level, virt);
             Maps(sp1, m1, sp', m', base, base + Size(level), e.phys, e.flags)
    ensures SameTranslations(sp, m, sp', m')
  {
    var e, base := Get(sp, m, level, PageOf(virt)), virt - Off(level, virt);
    forall v: nat | v < Limit(sp)
      ensures Translate(sp', m', v) == Translate(sp, m, v)
    {
      assert Translate(sp1, m1, v) == if InSlot(level, virt, v) then Unmapped else Translate(sp, m, v);
      if InSlot(level, virt, v) {
        LeafMeans(sp, m, level, virt, v);
        SplitNumbers(level, virt, e.phys);
        OffFrom(level, base, v);
      }
    }
  }

  lemma LeafMeans(sp: Space, m: Tables, level: nat, virt: nat, v: nat)
    requires level <= 2 && Inv(sp, m) && virt < Limit(sp) && v < Limit(sp) && InSlot(level, virt, v)
    requires At(level, PageOf(virt)) in sp.tab && GoodLeaf(level, Get(sp, m, level, PageOf(virt)))
    ensures var e := Get(sp, m, level, PageOf(virt)); Translate(sp, m, v) == Mapped(e.phys + Off(level, v), e.flags)
  {
    InLimit(sp, m, v);
    InLimit(sp, m, virt);
    InSlotSame(level, virt, v);
    SameGet(sp, m, level, PageOf(v), PageOf(virt));
    Peek(sp, m, level, PageOf(v));
    Path(sp, m, level, PageOf(v));
  }

  lemma LeafSet(sp0: Space, m0: Tables, sp1: Space, m1: Tables, sp: Space, m: Tables, level: nat, virt: nat, e: Entry,
                lost: set<nat>)
    requires level <= 2 && virt < Limit(sp0) && sp1.limit == sp0.limit && Within(sp0, PageOf(virt))
             && Off(level, virt) == 0
    requires Accounts(sp0, m0, sp1, m1, {}) && SlotLocal(sp0, m0, sp1, m1, level, PageOf(virt))
    requires Unmaps(sp0, m0, sp1, m1, virt, virt + Size(level)) || SameTranslations(sp0, m0, sp1, m1)
    requires MayOverwrite(sp1, m1, level, PageOf(virt)) && GoodLeaf(level, e)
    requires sp == Pruned(sp1, m1, level, PageOf(virt)) && m == Overwritten(sp1, m1, level, virt, e)
    requires lost == Dropped(Get(sp1, m1, level, PageOf(virt)))
    ensures Inv(sp, m) && sp.limit == sp0.limit && Accounts(sp0, m0, sp, m, lost)
            && SlotLocal(sp0, m0, sp, m, level, PageOf(virt))
    ensures SlotRemapped(sp0, m0, sp, m, level, virt, e)
    ensures Get(sp, m, level, PageOf(virt)) == e
  {
    OverwriteInv(sp1, m1, level, PageOf(virt), e);
    OverwriteAccounts(sp1, m1, level, virt, e);
    OverwriteLocal(sp1, m1, level, virt, e);
    OverwriteTranslate(sp1, m1, level, virt, e);
    AccountsTrans(sp0, m0, sp1, m1, sp, m, {}, lost, lost);
    SlotLocalTrans(sp0, m0, sp1, m1, sp, m, level, level, PageOf(virt));
    forall v: nat | v < Limit(sp0)
      ensures Translate(sp, m, v) ==
              if !InSlot(level, virt, v) then Translate(sp0, m0, v) else Mapped(e.phys + Off(level, v), e.flags)
    {
      assert v < Limit(sp1);
      assert Translate(sp1, m1, v) == Translate(sp0, m0, v) || InSlot(level, virt, v);
    }
  }

  lemma SameRoot(sp: Space, m: Tables, sp': Space, m': Tables, lost: set<nat>)
    requires Accounts(sp, m, sp', m', lost)
    ensures sp'.root == sp.root
  {
    assert LookAccounts(0);
  }

  /** The exceptions are the same for all addresses of one table. */
  lemma FullMove(sp: Space, m: Tables, kernel: bool, rl: nat, lo: nat, virt: nat)
    requires At(rl, PageOf(virt)) == At(rl, PageOf(lo))
    ensures Full(sp, m, kernel, rl, PageOf(lo)) ==> Full(sp, m, kernel, rl, PageOf(virt))
  {
    if Full(sp, m, kernel, rl, PageOf(lo)) {
      FullLess(sp, m, kernel, rl, PageOf(lo), rl, PageOf(virt));
    }
  }

  lemma FullDown(sp: Space, m: Tables, kernel: bool, level: nat, b: Page)
    ensures forall c :: Full(sp, m, kernel, 2, c) ==> Full(sp, m, kernel, level, b)
  {
    forall c | Full(sp, m, kernel, 2, c)
      ensures Full(sp, m, kernel, level, b)
    {
      FullLess(sp, m, kernel, 2, c, level, b);
    }
  }

  lemma FullAny(sp: Space, m: Tables, kernel: bool, b: Page)
    ensures NoEmpty(sp, m, kernel) <==> Full(sp, m, kernel, 2, b)
  {
    FullDown(sp, m, kernel, 2, b);
    FullDown(sp, m, kernel, 2, Page(0, 0, 0));
  }

  /** A split within the table of level rl. */
  lemma SplitKeepsFull(sp0: Space, m0: Tables, sp: Space, m: Tables, sp': Space, m': Tables, kernelRoot: nat, rl: nat,
                       level: nat, b: Page)
    requires level <= rl <= 2 && Accounts(sp0, m0, sp, m, {})
    requires Full(sp0, m0, sp0.root == kernelRoot, rl, b) ==> Full(sp, m, sp0.root == kernelRoot, rl, b)
    requires Full(sp, m, sp.root == kernelRoot, level, b) ==> Full(sp', m', sp.root == kernelRoot, 2, b)
    ensures Full(sp0, m0, sp0.root == kernelRoot, rl, b) ==> Full(sp', m', sp0.root == kernelRoot, rl, b)
  {
    SameRoot(sp0, m0, sp, m, {});
    var kernel := sp0.root == kernelRoot;
    if Full(sp0, m0, kernel, rl, b) {
      FullLess(sp, m, kernel, rl, b, level, b);
      FullLess(sp', m', kernel, 2, b, rl, b);
    }
  }

  /** What splits on the way down to virt leave as it was. */
  ghost predicate Descended(sp0: Space, m0: Tables, sp: Space, m: Tables, kernelRoot: nat, rl: nat, lo: nat,
                            virt: nat) {
    forall n: int :: LookMade(n) ==>
      && Accounts(sp0, m0, sp, m, {}) && SlotLocal(sp0, m0, sp, m, rl, PageOf(virt))
      && SameTranslations(sp0, m0, sp, m) && RangeKept(sp0, m0, sp, m, lo, virt)
      && (Get(sp0, m0, rl, PageOf(virt)).Next? ==> Get(sp, m, rl, PageOf(virt)) == Get(sp0, m0, rl, PageOf(virt)))
      && (Full(sp0, m0, sp0.root == kernelRoot, rl, PageOf(virt)) ==>
          Full(sp, m, sp0.root == kernelRoot, rl, PageOf(virt)))
  }

  lemma DescendedStep(sp0: Space, m0: Tables, sp1: Space, m1: Tables, sp: Space, m: Tables, kernelRoot: nat,
                      rl: nat, level: nat, lo: nat, virt: nat, ok: bool)
    requires Inv(sp0, m0) && 1 <= level <= rl <= 2 && virt < Limit(sp0) && Within(sp0, PageOf(virt))
             && sp1.limit == sp0.limit
    requires Descended(sp0, m0, sp1, m1, kernelRoot, rl, lo, virt) && Get(sp1, m1, level, PageOf(virt)).Leaf?
    requires lo <= virt && (lo == virt || Off(level, virt) == 0)
    requires Inv(sp1, m1) && Accounts(sp1, m1, sp, m, {}) && SlotLocal(sp1, m1, sp, m, level, PageOf(virt))
    requires ok ==> SameTranslations(sp1, m1, sp, m)
    requires ok && Full(sp1, m1, sp1.root == kernelRoot, level, PageOf(virt)) ==>
             Full(sp, m, sp1.root == kernelRoot, 2, PageOf(virt))
    ensures Accounts(sp0, m0, sp, m, {}) && SlotLocal(sp0, m0, sp, m, rl, PageOf(virt))
    ensures Get(sp0, m0, rl, PageOf(virt)).Next? ==> Get(sp, m, rl, PageOf(virt)) == Get(sp0, m0, rl, PageOf(virt))
    ensures ok ==> Descended(sp0, m0, sp, m, kernelRoot, rl, lo, virt)
  {
    var b := PageOf(virt);
    assert LookMade(0);
    InLimit(sp0, m0, virt);
    AccountsTrans(sp0, m0, sp1, m1, sp, m, {}, {}, {});
    SlotLocalTrans(sp0, m0, sp1, m1, sp, m, level, rl, b);
    PathKept(sp1, m1, sp, m, level, rl, b);
    if ok {
      SplitKeepsFull(sp0, m0, sp1, m1, sp, m, kernelRoot, rl, level, b);
      SlotLocalKeeps(sp1, m1, sp, m, level, virt, lo);
      RangeKeptTrans(sp0, m0, sp1, m1, sp, m, lo, virt);
    }
  }

  /** The filled table of a split leaf. */
  lemma SplitFull(sp: Space, m: Tables, sp1: Space, m1: Tables, sp': Space, m': Tables, kernelRoot: nat, level: nat,
                  virt: nat, base: nat)
    requires Inv(sp, m) && 1 <= level <= 2 && virt < Limit(sp) && base == virt - Off(level, virt)
             && Accounts(sp, m, sp1, m1, {})
    requires Full(sp, m, sp.root == kernelRoot, level, PageOf(virt)) ==>
             Full(sp1, m1, sp.root == kernelRoot, level - 1, PageOf(virt))
    requires Full(sp1, m1, sp1.root == kernelRoot, level - 1, PageOf(base)) ==>
             Full(sp', m', sp1.root == kernelRoot, 2, PageOf(base))
    ensures Full(sp, m, sp.root == kernelRoot, level, PageOf(virt)) ==>
            Full(sp', m', sp.root == kernelRoot, 2, PageOf(virt))
  {
    var kernel := sp.root == kernelRoot;
    SameRoot(sp, m, sp1, m1, {});
    InLimit(sp, m, virt);
    if Full(sp, m, kernel, level, PageOf(virt)) {
      SlotFacts(level, virt);
      InSlotSame(level, virt, base);
      FullLess(sp1, m1, kernel, level - 1, PageOf(virt), level - 1, PageOf(base));
      FullLess(sp', m', kernel, 2, PageOf(base), 2, PageOf(virt));
    }
  }

  /** The range with which a new table is filled. */
  lemma FillNumbers(level: nat, phys: nat, base: nat, huge: bool)
    requires 1 <= level <= 2 && Off(level, base) == 0 && Off(level, phys) == 0
    ensures PageDown(base) == base && PageDown(phys) == phys && PageUp(Size(level)) == Size(level) > 0
    ensures Fits(level - 1, base, Size(level)) && !RootLeaves(level - 1, phys, base, huge)
    ensures level == 1 || huge ==> Tiles(level - 1, phys, base, Size(level), huge)
  {
    PageExact(level, base);
    PageExact(level, phys);
    AlignedDown(level, level - 1, base);
    AlignedDown(level, level - 1, phys);
  }

  /** A leaf was replaced by a new table, and that was filled. */
  lemma SplitDone(sp: Space, m: Tables, sp1: Space, m1: Tables, sp': Space, m': Tables, kernelRoot: nat, ok: bool,
                  level: nat, virt: nat, pte: nat, phys: nat, base: nat)
    requires Inv(sp, m) && 1 <= level <= 2 && virt < Limit(sp) && At(level, PageOf(virt)) in sp.tab
    requires Decode(pte).Leaf? && Decode(pte) == Get(sp, m, level, PageOf(virt))
    requires base == virt - Off(level, virt) && phys == Decode(pte).phys
    requires Accounts(sp, m, sp1, m1, {}) && SlotLocal(sp, m, sp1, m1, level, PageOf(virt)) && sp1.limit == sp.limit
    requires SlotRemapped(sp, m, sp1, m1, level, virt, Invalid) && Get(sp1, m1, level, PageOf(virt)).Next?
    requires Full(sp, m, sp.root == kernelRoot, level, PageOf(virt)) ==>
             Full(sp1, m1, sp.root == kernelRoot, level - 1, PageOf(virt))
    requires Accounts(sp1, m1, sp', m', {}) && SubtreeLocal(sp1, m1, sp', m', level - 1, PageOf(base))
    requires ok ==> Maps(sp1, m1, sp', m', base, base + Size(level), phys, GetFlags(pte))
    requires ok && Full(sp1, m1, sp1.root == kernelRoot, level - 1, PageOf(base)) ==>
               Full(sp', m', sp1.root == kernelRoot, 2, PageOf(base))
    ensures Accounts(sp, m, sp', m', {}) && SlotLocal(sp, m, sp', m', level, PageOf(virt)) && sp'.limit == sp.limit
    ensures At(level, PageOf(virt)) in sp'.tab && sp'.tab[At(level, PageOf(virt))] == sp.tab[At(level, PageOf(virt))]
    ensures Get(sp', m', level, PageOf(virt)).Next?
    ensures ok ==> SameTranslations(sp, m, sp', m')
    ensures ok && Full(sp, m, sp.root == kernelRoot, level, PageOf(virt)) ==>
              Full(sp', m', sp.root == kernelRoot, 2, PageOf(virt))
  {
    InLimit(sp, m, virt);
    Peek(sp, m, level, PageOf(virt));
    SplitRange(sp, m, level, virt, pte);
    AccountsTrans(sp, m, sp1, m1, sp', m', {}, {}, {});
    SplitLocal(sp, m, sp1, m1, sp', m', level, virt);
    if ok {
      SplitSame(sp, m, sp1, m1, sp', m', level, virt);
      SplitFull(sp, m, sp1, m1, sp', m', kernelRoot, level, virt, base);
    }
  }

  lemma ClearUpFull(sp0: Space, m0: Tables, sp: Space, m: Tables, kernelRoot: nat, rl: nat, root: nat, level: nat,
                    stop: nat, virt: nat)
    requires Inv(sp0, m0) && Inv(sp, m) && virt < Limit(sp) && PathOnly(sp0, m0, sp, m, PageOf(virt))
    requires StoppedAt(sp, m, rl, root == kernelRoot, level, stop, virt)
    requires At(rl, PageOf(virt)) in sp0.tab && sp0.tab[At(rl, PageOf(virt))] == root
    requires forall p :: p in sp0.tab && sp0.tab[p] == kernelRoot ==> p == Root
    ensures Full(sp0, m0, sp0.root == kernelRoot, rl, PageOf(virt)) ==>
            Full(sp, m, sp0.root == kernelRoot, rl, PageOf(virt))
  {
    assert root == kernelRoot ==> sp0.root == kernelRoot by { assert LookInv(0); }
    if Full(sp0, m0, sp0.root == kernelRoot, rl, PageOf(virt)) {
      FullStopped(sp0, m0, sp, m, sp0.root == kernelRoot, rl, root == kernelRoot, level, stop, virt);
    }
  }

  /** A round keeps every table holding something: the walk down, the walk up, the release. */
  lemma RoundFull(sp0: Space, m0: Tables, sp1: Space, m1: Tables, sp: Space, m2: Tables, m: Tables, freed: set<nat>,
                  kernelRoot: nat, rl: nat, b: Page)
    requires Inv(sp, m2) && Inv(sp, m) && m == m2 - freed && Accounts(sp0, m0, sp1, m1, {})
    requires Full(sp0, m0, sp0.root == kernelRoot, rl, b) ==> Full(sp1, m1, sp0.root == kernelRoot, rl, b)
    requires Full(sp1, m1, sp1.root == kernelRoot, rl, b) ==> Full(sp, m2, sp1.root == kernelRoot, rl, b)
    ensures Full(sp0, m0, sp0.root == kernelRoot, rl, b) ==> Full(sp, m, sp0.root == kernelRoot, rl, b)
  {
    SameRoot(sp0, m0, sp1, m1, {});
    if Full(sp0, m0, sp0.root == kernelRoot, rl, b) {
      FullRelease(sp, m2, m, freed, sp0.root == kernelRoot, rl, b);
    }
  }

  lemma BareRoot(root: nat, m: Tables)
    requires Empty(m, root)
    ensures Inv(Space(root, PTES_PER_PT, map[Root := root]), m)
  {
    var sp := Space(root, PTES_PER_PT, map[Root := root]);
    forall level: nat, a | level <= 2 && Within(sp, a)
      ensures EntryOk(sp, m, level, a)
    {
    }
  }

  /** `table` translates the address at the level. */
  ghost predicate Rooted(sp: Space, level: nat, table: nat, virt: nat) {
    && level <= 2 && virt < Limit(sp) && Within(sp, PageOf(virt))
    && At(level, PageOf(virt)) in sp.tab && sp.tab[At(level, PageOf(virt))] == table
  }

  /** The slot of an address at a level. */
  datatype Slot = Slot(level: nat, virt: nat)

  /** The slots that a flush of the translations of v leaves alone. */
  ghost function Unflushed(gone: set<Slot>, v: nat): (r: set<Slot>) {
    set s | s in gone && !InSlot(s.level, s.virt, v)
  }

  /**
   What walkers may still hold of live trees. `stale`: tables that `clear_entry` unlinked, and the
   walker of this CPU may still traverse. `remote`: the same for other CPUs that have the tree loaded;
   nothing here flushes those. `gone`: leaves taken out that the translation cache of this CPU may hold.
   */
  datatype Walkers = Walkers(stale: set<nat>, remote: set<nat>, gone: set<Slot>)

  /** An entry of a live tree was overwritten: its leaf stays in the translation cache. */
  ghost function Overlaid(h: Walkers, live: bool, e: Entry, level: nat, virt: nat): (r: Walkers) {
    if live && e.Leaf? then h.(gone := h.gone + {Slot(level, virt)}) else h
  }

  /** An entry of a live tree was cleared: the table it pointed to stays in the walk caches of all CPUs. */
  ghost function Detached(h: Walkers, live: bool, e: Entry, level: nat, virt: nat): (r: Walkers) {
    if live && e.Next? then Walkers(h.stale + {e.table}, h.remote + {e.table}, h.gone)
    else Overlaid(h, live, e, level, virt)
  }

  datatype Caches = Caches(free: set<nat>, held: Walkers)

  ghost predicate LookRun(n: int) {
    true
  }

  ghost predicate LookCaches(n: int) {
    true
  }

  /**
   Every table of a live tree that became free is recorded for the other CPUs. After a success, this
   CPU's translations of the leaves taken out are flushed, and those of the address `at`.
   */
  ghost predicate Flushed(live: bool, ok: bool, at: Option<nat>, c0: Caches, c: Caches) {
    forall n: int :: LookCaches(n) ==>
      && c0.held.remote <= c.held.remote
      && (if live then c.free - c0.free <= c.held.remote else c.held.remote == c0.held.remote)
      && (ok ==> c.held.gone <= if live && at.Some? then Unflushed(c0.held.gone, at.value) else c0.held.gone)
  }

  lemma FlushedRefl(live: bool, ok: bool, c: Caches)
    ensures Flushed(live, ok, None, c, c)
  {
  }

  lemma FlushedTrans(live: bool, ok: bool, at: Option<nat>, c0: Caches, c1: Caches, c: Caches)
    requires Flushed(live, true, None, c0, c1) && Flushed(live, ok, at, c1, c)
    ensures Flushed(live, ok, at, c0, c)
  {
    assert LookCaches(0);
  }

  lemma FlushedMeans(live: bool, ok: bool, at: Option<nat>, c0: Caches, c: Caches)
    requires Flushed(live, ok, at, c0, c)
    ensures c0.held.remote <= c.held.remote
            && (if live then c.free - c0.free <= c.held.remote else c.held.remote == c0.held.remote)
    ensures ok ==> c.held.gone <= c0.held.gone
  {
    assert LookCaches(0);
  }

  /**
   Tables were unlinked and a leaf of the slot was perhaps taken out: the walkers of a live tree may
   hold them.
   */
  ghost predicate Torn(live: bool, tabs: set<nat>, level: nat, virt: nat, c0: Caches, c: Caches) {
    forall n: int :: LookCaches(n) ==>
      && c.free <= c0.free
      && if live then
           && c.held.stale <= c0.held.stale + tabs && c.held.remote == c0.held.remote + tabs
           && c.held.gone <= c0.held.gone + {Slot(level, virt)}
         else
           c.held.stale == c0.held.stale && c.held.remote == c0.held.remote && c.held.gone == c0.held.gone
  }

  lemma TornRefl(live: bool, level: nat, virt: nat, c: Caches)
    ensures Torn(live, {}, level, virt, c, c)
  {
  }

  lemma TornMore(live: bool, tabs: set<nat>, e: Entry, all: set<nat>, level: nat, n: nat, virt: nat, c0: Caches,
                 c1: Caches, c: Caches)
    requires Torn(live, tabs, level, virt, c0, c1)
    requires c.free == c1.free && c.held == Detached(c1.held, live, e, n, virt)
    requires all == tabs + Dropped(e) && (n != level ==> !e.Leaf?)
    ensures Torn(live, all, level, virt, c0, c)
  {
    assert LookCaches(0);
  }

  lemma LastOne(s: set<nat>, t: nat)
    requires t in s
    ensures s - {t} == {} <==> |s| == 1
  {
    assert |s - {t}| == |s| - 1;
  }

  /** A split flushes the leaf that it replaces, with the first page of the new table. */
  lemma SplitFlushed(live: bool, sure: bool, ok: bool, t: nat, e: Entry, c0: Caches, c1: Caches, c: Caches, level: nat,
                     virt: nat, base: nat)
    requires 1 <= level <= 2 && base == virt - Off(level, virt)
    requires t in c0.free && c1.free == c0.free - {t} && c1.held == Overlaid(c0.held, live, e, level, virt)
    requires Flushed(live, true, if ok || c1.free != {} then Some(base) else None, c1, c)
    requires sure ==> ok || |c0.free| != 1
    ensures Flushed(live, sure, None, c0, c)
  {
    assert LookCaches(0);
    LastOne(c0.free, t);
  }

  /** A round of unmapping: splits, cleared entries, flush and release. */
  lemma RoundFlushed(live: bool, c0: Caches, c1: Caches, c2: Caches, c: Caches, freed: set<nat>, level: nat, virt: nat)
    requires level <= 2 && Flushed(live, true, None, c0, c1) && Torn(live, freed, level, virt, c1, c2)
    requires c.free == c2.free + freed && c.held.remote == c2.held.remote
    requires c.held.gone <= if live then Unflushed(c2.held.gone, virt) else c2.held.gone
    ensures Flushed(live, true, None, c0, c)
  {
    assert LookCaches(0);
  }

  /** A round of mapping: what was below the leaf, the leaf and its flush. */
  lemma LeafFlushed(live: bool, e: Entry, c0: Caches, c1: Caches, c2: Caches, c: Caches, level: nat, virt: nat)
    requires level <= 2 && Flushed(live, true, None, c0, c1)
    requires c2.free == c1.free && c2.held == Overlaid(c1.held, live, e, level, virt)
    requires c.free == c2.free && c.held.remote == c2.held.remote
    requires c.held.gone <= if live then Unflushed(c2.held.gone, virt) else c2.held.gone
    ensures Flushed(live, true, Some(virt), c0, c)
  {
    assert LookCaches(0);
  }

  /** The first round flushes the first address; the others add nothing. */
  lemma NextFlushed(live: bool, c0: Caches, c1: Caches, c: Caches, lo: nat, virt: nat)
    requires Flushed(live, true, if virt > lo then Some(lo) else None, c0, c1) && lo <= virt
    requires Flushed(live, true, Some(virt), c1, c)
    ensures Flushed(live, true, Some(lo), c0, c)
  {
    assert LookCaches(0);
  }

  /** A round that fails. */
  lemma LastFlushed(live: bool, sure: bool, at: Option<nat>, c0: Caches, c1: Caches, c: Caches)
    requires Flushed(live, true, at, c0, c1) && Flushed(live, sure, None, c1, c)
    ensures Flushed(live, sure, at, c0, c)
  {
    assert LookCaches(0);
  }

  lemma FlushedLess(live: bool, sure: bool, at: Option<nat>, at': Option<nat>, c0: Caches, c: Caches)
    requires Flushed(live, sure, at, c0, c) && (at' == at || at'.None?)
    ensures Flushed(live, sure, at', c0, c)
  {
    assert LookCaches(0);
  }

  /** The range consists of whole slots that `paging_create` maps as leaves of the level. */
  predicate Tiles(level: nat, phys: nat, virt: nat, size: nat, huge: bool) {
    Leafable(level, phys, virt, size, huge) && Off(level, size) == 0
  }

  /** An entry on the way to an address has no table below it, and the mapping of [lo, hi) needs one there. */
  ghost predicate Lacks(sp: Space, m: Tables, lo: nat, hi: nat, phys: nat, huge: bool, k: nat, v: nat) {
    && lo <= v < hi && 1 <= k <= 2 && At(k, PageOf(v)) in sp.tab && !Get(sp, m, k, PageOf(v)).Next?
    && !Leafable(k, phys + (v - lo), v, hi - v, huge)
  }

  /** Some address of the range lacks a table. */
  ghost predicate Short(sp: Space, m: Tables, rl: nat, lo: nat, hi: nat, phys: nat, huge: bool) {
    exists k: nat, v: nat :: k <= rl && Lacks(sp, m, lo, hi, phys, huge, k, v)
  }

  lemma OffLess(level: nat, x: nat)
    requires level <= 2 && Off(level, x) == 0 && x > Size(level)
    ensures Off(level, x - Size(level)) == 0 && x - Size(level) >= Size(level)
  {
    var n, q := Size(level), x / Size(level);
    assert x == q * n;
    assert q >= 2;
    ModMul(q - 1, n);
  }

  lemma TilesNext(rl: nat, level: nat, phys: nat, virt: nat, size: nat, huge: bool)
    requires level <= rl <= 2 && Leafable(level, phys, virt, size, huge)
    requires level < rl ==> !Leafable(rl, phys, virt, size, huge)
    ensures Tiles(rl, phys, virt, size, huge) && size > Size(level) ==>
              Tiles(rl, phys + Size(level), virt + Size(level), size - Size(level), huge)
  {
    if Tiles(rl, phys, virt, size, huge) && size > Size(rl) {
      NextMultiple(rl, phys);
      NextMultiple(rl, virt);
      OffLess(rl, size);
    }
  }

  /** A call of `paging_destroy` or `paging_create` on [lo, hi), and the state that it starts from. */
  datatype Job = Job(rl: nat, root: nat, lo: nat, hi: nat, kernelRoot: nat, live: bool, sp: Space, m: Tables, c: Caches)

  /** What `paging_create` maps the range to. */
  datatype Frames = Frames(phys: nat, flags: nat, huge: bool)

  ghost predicate JobOk(j: Job) {
    && Inv(j.sp, j.m) && Rooted(j.sp, j.rl, j.root, j.lo) && j.lo <= j.hi <= Limit(j.sp)
    && PageAligned(j.lo, j.hi - j.lo) && j.hi <= TableBase(j.rl, j.lo) + Size(j.rl + 1)
  }

  /** How far the ranges go on: the next address and its frame. */
  ghost predicate Placed(j: Job, f: Frames, virt: nat) {
    match j
    case Job(rl, _, lo, hi, _, _, _, _, _) =>
      && rl <= 2 && lo <= virt <= hi && PageAligned(virt, hi - virt) && (f.phys + (virt - lo)) % PAGE_SIZE == 0
      && (Tiles(rl, f.phys, lo, hi - lo, f.huge) && virt < hi ==>
          Tiles(rl, f.phys + (virt - lo), virt, hi - virt, f.huge))
  }

  /** The part [lo, virt) of a mapping of [lo, hi) is done. */
  ghost predicate Mapping(j: Job, f: Frames, virt: nat, sp: Space, m: Tables, c: Caches, leaked: set<nat>) {
    match j
    case Job(rl, root, lo, hi, kernelRoot, live, sp0, m0, c0) =>
      forall n: int :: LookRun(n) ==>
        && sp.limit == sp0.limit && sp.root == sp0.root
        && Made(sp0, m0, sp, m, rl, root == kernelRoot, f.huge, lo, virt, hi, f.phys, f.flags, leaked)
        && Flushed(live, true, if virt > lo then Some(lo) else None, c0, c)
        && (Full(sp0, m0, sp0.root == kernelRoot, rl, PageOf(lo)) ==>
            Full(sp, m, sp0.root == kernelRoot, if virt > lo then 2 else rl, PageOf(lo)))
        && (virt < hi ==> Rooted(sp, rl, root, virt) && At(rl, PageOf(virt)) == At(rl, PageOf(lo)))
  }

  lemma MappingStart(j: Job, f: Frames)
    requires JobOk(j)
    ensures Mapping(j, f, j.lo, j.sp, j.m, j.c, {})
  {
    FlushedRefl(j.live, true, j.c);
    MadeStart(j.sp, j.m, j.rl, j.root == j.kernelRoot, f.huge, j.lo, j.hi, f.phys, f.flags);
  }

  /** What a round starts from. */
  lemma MappingUse(j: Job, f: Frames, virt: nat, sp: Space, m: Tables, c: Caches, leaked: set<nat>)
    requires Mapping(j, f, virt, sp, m, c, leaked) && virt < j.hi
    ensures sp.limit == j.sp.limit && sp.root == j.sp.root && Rooted(sp, j.rl, j.root, virt)
  {
    assert LookRun(0);
  }

  /** A round that succeeds. */
  lemma MappingNext(j: Job, f: Frames, level: nat, virt: nat, sp1: Space, m1: Tables, c1: Caches, leaked1: set<nat>,
                    sp: Space, m: Tables, c: Caches, lost: set<nat>)
    requires JobOk(j) && Inv(sp, m) && level <= j.rl && Placed(j, f, virt) && virt < j.hi
    requires Mapping(j, f, virt, sp1, m1, c1, leaked1) && Flushed(j.live, true, Some(virt), c1, c)
    requires Accounts(sp1, m1, sp, m, lost) && SlotLocal(sp1, m1, sp, m, j.rl, PageOf(virt)) && sp.limit == j.sp.limit
    requires SlotRemapped(sp1, m1, sp, m, level, virt, Leaf(f.phys + (virt - j.lo), f.flags))
    requires Leafable(level, f.phys + (virt - j.lo), virt, j.hi - virt, f.huge)
    requires level < j.rl ==> !Leafable(j.rl, f.phys + (virt - j.lo), virt, j.hi - virt, f.huge)
    requires if j.rl == 2 then RootRound(sp1, m1, sp, m, j.root == j.kernelRoot, level == 2, virt, lost) else lost == {}
    requires Full(sp1, m1, sp1.root == j.kernelRoot, j.rl, PageOf(virt)) ==>
             Full(sp, m, sp1.root == j.kernelRoot, 2, PageOf(virt))
    ensures Mapping(j, f, virt + Size(level), sp, m, c, leaked1 + lost)
  {
    assert LookRun(0);
    SameRoot(sp1, m1, sp, m, lost);
    NextFlushed(j.live, j.c, c1, c, j.lo, virt);
    MadeTurn(j.sp, j.m, sp1, m1, sp, m, j.rl, j.root, j.kernelRoot, f.huge, level, j.lo, virt, j.hi - virt, f.phys,
             f.flags, leaked1, lost, leaked1 + lost);
    MappingFull(j, virt, sp1, m1, sp, m);
    MappingIs(j, f, virt + Size(level), sp, m, c, leaked1 + lost);
  }

  lemma MappingIs(j: Job, f: Frames, virt: nat, sp: Space, m: Tables, c: Caches, leaked: set<nat>)
    requires virt > j.lo && sp.limit == j.sp.limit && sp.root == j.sp.root
    requires Made(j.sp, j.m, sp, m, j.rl, j.root == j.kernelRoot, f.huge, j.lo, virt, j.hi, f.phys, f.flags, leaked)
    requires Flushed(j.live, true, Some(j.lo), j.c, c)
    requires Full(j.sp, j.m, j.sp.root == j.kernelRoot, j.rl, PageOf(j.lo)) ==>
             Full(sp, m, j.sp.root == j.kernelRoot, 2, PageOf(j.lo))
    requires virt < j.hi ==> Rooted(sp, j.rl, j.root, virt) && At(j.rl, PageOf(virt)) == At(j.rl, PageOf(j.lo))
    ensures Mapping(j, f, virt, sp, m, c, leaked)
  {
  }

  lemma PlacedNext(j: Job, f: Frames, level: nat, virt: nat)
    requires level <= j.rl && Placed(j, f, virt) && virt < j.hi
    requires Leafable(level, f.phys + (virt - j.lo), virt, j.hi - virt, f.huge)
    requires level < j.rl ==> !Leafable(j.rl, f.phys + (virt - j.lo), virt, j.hi - virt, f.huge)
    ensures Placed(j, f, virt + Size(level))
  {
    OffAdd(level, 0, virt);
    OffAdd(level, 0, f.phys + (virt - j.lo));
    PagesLeft(virt, j.hi - virt, Size(level));
    TilesNext(j.rl, level, f.phys + (virt - j.lo), virt, j.hi - virt, f.huge);
  }

  lemma MappingFull(j: Job, virt: nat, sp1: Space, m1: Tables, sp: Space, m: Tables)
    requires j.lo <= virt && At(j.rl, PageOf(virt)) == At(j.rl, PageOf(j.lo)) && sp1.root == j.sp.root
    requires Full(j.sp, j.m, j.sp.root == j.kernelRoot, j.rl, PageOf(j.lo)) ==>
             Full(sp1, m1, j.sp.root == j.kernelRoot, if virt > j.lo then 2 else j.rl, PageOf(j.lo))
    requires Full(sp1, m1, sp1.root == j.kernelRoot, j.rl, PageOf(virt)) ==>
             Full(sp, m, sp1.root == j.kernelRoot, 2, PageOf(virt))
    ensures Full(j.sp, j.m, j.sp.root == j.kernelRoot, j.rl, PageOf(j.lo)) ==>
            Full(sp, m, j.sp.root == j.kernelRoot, 2, PageOf(j.lo))
  {
    FullDown(sp1, m1, sp1.root == j.kernelRoot, j.rl, PageOf(j.lo));
    FullMove(sp1, m1, sp1.root == j.kernelRoot, j.rl, j.lo, virt);
    FullDown(sp, m, sp1.root == j.kernelRoot, 2, PageOf(j.lo));
  }

  /** What is left when a round fails. */
  ghost predicate Stopped(j: Job, f: Frames, sure: bool, at: Option<nat>, sp: Space, m: Tables, c: Caches,
                          leaked: set<nat>) {
    match j
    case Job(rl, root, lo, hi, kernelRoot, live, sp0, m0, c0) =>
      forall n: int :: LookRun(n) ==>
        && Accounts(sp0, m0, sp, m, leaked) && SubtreeLocal(sp0, m0, sp, m, rl, PageOf(lo))
        && (rl == 2 ==> RootKept(sp0, m0, sp, m, RootLeaves(rl, f.phys, lo, f.huge), lo, hi))
        && (leaked <= if RootLeaves(rl, f.phys, lo, f.huge) && root == kernelRoot then Leaks(sp0, m0, lo, hi) else {})
        && Flushed(live, sure, at, c0, c) && (sure ==> Short(sp, m, rl, lo, hi, f.phys, f.huge))
  }

  lemma MappingStops(j: Job, f: Frames, sure: bool, virt: nat, sp1: Space, m1: Tables, c1: Caches, leaked: set<nat>,
                     sp: Space, m: Tables, c: Caches, lost: set<nat>)
    requires JobOk(j) && j.lo <= virt < j.hi && Mapping(j, f, virt, sp1, m1, c1, leaked)
    requires Accounts(sp1, m1, sp, m, lost) && SlotLocal(sp1, m1, sp, m, j.rl, PageOf(virt))
    requires Flushed(j.live, sure, None, c1, c) && (sure ==> Short(sp, m, j.rl, j.lo, j.hi, f.phys, f.huge))
    requires if j.rl == 2 then RootRound(sp1, m1, sp, m, j.root == j.kernelRoot, false, virt, lost) else lost == {}
    ensures Stopped(j, f, sure, if virt > j.lo then Some(j.lo) else None, sp, m, c, leaked)
  {
    assert LookRun(0);
    LastFlushed(j.live, sure, if virt > j.lo then Some(j.lo) else None, j.c, c1, c);
    MadePart(j.sp, j.m, sp1, m1, sp, m, j.rl, j.root == j.kernelRoot, f.huge, j.lo, virt, j.hi, f.phys, f.flags, leaked,
             lost);
  }

  lemma StoppedLess(j: Job, f: Frames, sure: bool, at: Option<nat>, at': Option<nat>, sp: Space, m: Tables, c: Caches,
                    leaked: set<nat>)
    requires Stopped(j, f, sure, at, sp, m, c, leaked) && (at' == at || at'.None?)
    ensures Stopped(j, f, sure, at', sp, m, c, leaked)
  {
    assert LookRun(0);
    FlushedLess(j.live, sure, at, at', j.c, c);
  }

  lemma StoppedMeans(j: Job, f: Frames, sure: bool, at: Option<nat>, sp: Space, m: Tables, c: Caches, leaked: set<nat>)
    requires Stopped(j, f, sure, at, sp, m, c, leaked)
    ensures Accounts(j.sp, j.m, sp, m, leaked) && SubtreeLocal(j.sp, j.m, sp, m, j.rl, PageOf(j.lo))
    ensures j.rl == 2 ==> RootKept(j.sp, j.m, sp, m, RootLeaves(j.rl, f.phys, j.lo, f.huge), j.lo, j.hi)
    ensures leaked <= if RootLeaves(j.rl, f.phys, j.lo, f.huge) && j.root == j.kernelRoot
                      then Leaks(j.sp, j.m, j.lo, j.hi) else {}
    ensures Flushed(j.live, sure, at, j.c, c) && (sure ==> Short(sp, m, j.rl, j.lo, j.hi, f.phys, f.huge))
  {
    assert LookRun(0);
  }

  lemma MappingEnd(j: Job, f: Frames, sp: Space, m: Tables, c: Caches, leaked: set<nat>)
    requires Mapping(j, f, j.hi, sp, m, c, leaked)
    ensures Accounts(j.sp, j.m, sp, m, leaked)
    ensures Flushed(j.live, true, if j.hi > j.lo then Some(j.lo) else None, j.c, c)
    ensures SubtreeLocal(j.sp, j.m, sp, m, j.rl, PageOf(j.lo))
    ensures Maps(j.sp, j.m, sp, m, j.lo, j.hi, f.phys, f.flags)
    ensures j.rl == 2 ==> RootKept(j.sp, j.m, sp, m, RootLeaves(j.rl, f.phys, j.lo, f.huge), j.lo, j.hi)
    ensures leaked == if RootLeaves(j.rl, f.phys, j.lo, f.huge) && j.root == j.kernelRoot
                      then Leaks(j.sp, j.m, j.lo, j.hi) else {}
    ensures Full(j.sp, j.m, j.sp.root == j.kernelRoot, j.rl, PageOf(j.lo)) ==>
              Full(sp, m, j.sp.root == j.kernelRoot, if j.hi > j.lo then 2 else j.rl, PageOf(j.lo))
  {
    assert LookRun(0);
    MadeEnd(j.sp, j.m, sp, m, j.rl, j.root == j.kernelRoot, f.huge, j.lo, j.hi, f.phys, f.flags, leaked);
  }

  /** No leaf reaches across an end of the range, so that none has to be split. */
  ghost predicate Neat(j: Job) {
    NoLeafAcross(j.sp, j.m, j.rl, j.lo) && NoLeafAcross(j.sp, j.m, j.rl, j.hi)
  }

  /** The part [lo, virt) of an unmapping of [lo, hi) is done, and what the next round needs. */
  ghost predicate Unmapping(j: Job, virt: nat, sp: Space, m: Tables, c: Caches) {
    match j
    case Job(rl, root, lo, hi, kernelRoot, live, sp0, m0, c0) =>
      forall n: int :: LookRun(n) ==>
        && sp.limit == sp0.limit && sp.root == sp0.root && lo <= virt <= hi
        && Confined(sp0, m0, sp, m, rl, root == kernelRoot, Whole(rl, lo, hi - lo), lo)
        && Gone(sp0, m0, sp, m, rl, root == kernelRoot, lo, virt) && Flushed(live, true, None, c0, c)
        && (Neat(j) ==> c.free >= c0.free)
        && (Full(sp0, m0, sp0.root == kernelRoot, rl, PageOf(lo)) ==>
            Full(sp, m, sp0.root == kernelRoot, rl, PageOf(lo)))
        && (virt < hi ==>
            && PageAligned(virt, hi - virt) && Rooted(sp, rl, root, virt) && At(rl, PageOf(virt)) == At(rl, PageOf(lo))
            && (lo == virt || NoLeafAcross(sp, m, rl, virt))
            && (Neat(j) ==> NoLeafAcross(sp, m, rl, virt) && NoLeafAcross(sp, m, rl, hi)))
  }

  lemma UnmappingStart(j: Job)
    requires JobOk(j)
    ensures Unmapping(j, j.lo, j.sp, j.m, j.c)
  {
    FlushedRefl(j.live, true, j.c);
    GoneStart(j.sp, j.m, j.rl, j.root == j.kernelRoot, Whole(j.rl, j.lo, j.hi - j.lo), j.lo);
  }

  lemma WholeIsNeat(j: Job)
    requires JobOk(j) && Whole(j.rl, j.lo, j.hi - j.lo)
    ensures Neat(j)
  {
    AlignedNoLeaf(j.sp, j.m, j.rl, j.lo);
    NextMultiple(j.rl, j.lo);
    AlignedNoLeaf(j.sp, j.m, j.rl, j.hi);
  }

  /** What a round starts from. */
  lemma UnmappingUse(j: Job, virt: nat, sp: Space, m: Tables, c: Caches)
    requires JobOk(j) && Unmapping(j, virt, sp, m, c) && virt < j.hi
    ensures sp.limit == j.sp.limit && sp.root == j.sp.root && j.lo <= virt && Rooted(sp, j.rl, j.root, virt)
    ensures PageAligned(virt, j.hi - virt) && (j.lo == virt || NoLeafAcross(sp, m, j.rl, virt))
    ensures Neat(j) ==> NoLeafAcross(sp, m, j.rl, virt) && NoLeafAcross(sp, m, j.rl, j.hi)
    ensures Whole(j.rl, j.lo, j.hi - j.lo) ==> Neat(j)
  {
    assert LookRun(0);
    if Whole(j.rl, j.lo, j.hi - j.lo) {
      WholeIsNeat(j);
    }
  }

  /** A round that succeeds. */
  lemma UnmappingNext(j: Job, level: nat, stop: nat, virt: nat, sp1: Space, m1: Tables, c1: Caches, sp: Space,
                      m: Tables, c: Caches, done: nat)
    requires JobOk(j) && Inv(sp, m) && level <= j.rl && virt < j.hi && sp.limit == j.sp.limit && sp.root == j.sp.root
    requires Unmapping(j, virt, sp1, m1, c1) && Flushed(j.live, true, None, c1, c)
    requires Confined(j.sp, j.m, sp, m, j.rl, j.root == j.kernelRoot, Whole(j.rl, j.lo, j.hi - j.lo), j.lo)
    requires Neat(j) ==> c.free >= c1.free && NoLeafAcross(sp, m, j.rl, j.hi)
    requires RangeKept(sp1, m1, sp, m, j.lo, virt) && RoundUnmaps(sp1, m1, sp, m, virt, j.hi - virt, level)
    requires StoppedAt(sp, m, j.rl, j.root == j.kernelRoot, level, stop, virt)
    requires Full(sp1, m1, sp1.root == j.kernelRoot, j.rl, PageOf(virt)) ==>
             Full(sp, m, sp1.root == j.kernelRoot, j.rl, PageOf(virt))
    requires var advance := Size(level) - Off(level, virt);
             done == if advance >= j.hi - virt then j.hi else virt + advance
    ensures Unmapping(j, done, sp, m, c)
  {
    assert LookRun(0);
    var kernel := j.sp.root == j.kernelRoot;
    FullMove(sp1, m1, kernel, j.rl, j.lo, virt);
    FullMove(sp, m, kernel, j.rl, virt, j.lo);
    FlushedTrans(j.live, true, None, j.c, c1, c);
    RoundDone(j.sp, j.m, sp1, m1, sp, m, j.rl, j.root == j.kernelRoot, level, stop, j.lo, virt, j.hi - virt, done);
    if done < j.hi {
      RoundNext(sp, m, j.rl, j.root == j.kernelRoot, level, stop, j.lo, virt, j.hi - virt, done - virt);
      SubtreeHolds(j, sp, m, done);
    }
  }

  lemma SubtreeHolds(j: Job, sp: Space, m: Tables, virt: nat)
    requires JobOk(j) && virt < Limit(sp) && sp.limit == j.sp.limit && At(j.rl, PageOf(virt)) == At(j.rl, PageOf(j.lo))
    requires Within(sp, PageOf(virt))
    requires Confined(j.sp, j.m, sp, m, j.rl, j.root == j.kernelRoot, Whole(j.rl, j.lo, j.hi - j.lo), j.lo)
    ensures Rooted(sp, j.rl, j.root, virt)
  {
    ConfinedMeans(j.sp, j.m, sp, m, j.rl, j.root == j.kernelRoot, Whole(j.rl, j.lo, j.hi - j.lo), j.lo);
    SubtreeTable(j.sp, j.m, sp, m, j.rl, PageOf(j.lo));
  }

  /** Every round stays within what the whole call leaves alone. */
  lemma UnmappingStays(j: Job, virt: nat, sp1: Space, m1: Tables, c1: Caches, sp: Space, m: Tables)
    requires JobOk(j) && Unmapping(j, virt, sp1, m1, c1) && virt < j.hi
    requires Accounts(sp1, m1, sp, m, {}) && SlotLocal(sp1, m1, sp, m, j.rl, PageOf(virt))
    requires Whole(j.rl, j.lo, j.hi - j.lo) ==> NoNew(sp1, sp)
    requires j.rl == 2 && j.root == j.kernelRoot ==> NextKept(sp1, m1, sp, m)
    ensures Confined(j.sp, j.m, sp, m, j.rl, j.root == j.kernelRoot, Whole(j.rl, j.lo, j.hi - j.lo), j.lo)
  {
    assert LookRun(0);
    ConfinedMore(j.sp, j.m, sp1, m1, sp, m, j.rl, j.root == j.kernelRoot, Whole(j.rl, j.lo, j.hi - j.lo), j.lo, virt);
  }

  lemma UnmappingFails(j: Job, virt: nat, sp: Space, m: Tables, c1: Caches, c: Caches)
    requires Unmapping(j, virt, sp, m, c1) && Flushed(j.live, false, None, c1, c)
    ensures Flushed(j.live, false, None, j.c, c)
  {
    assert LookRun(0);
    FlushedTrans(j.live, false, None, j.c, c1, c);
  }

  lemma UnmappingEnd(j: Job, sp: Space, m: Tables, c: Caches)
    requires j.lo <= j.hi && Unmapping(j, j.hi, sp, m, c)
    ensures Confined(j.sp, j.m, sp, m, j.rl, j.root == j.kernelRoot, Whole(j.rl, j.lo, j.hi - j.lo), j.lo)
    ensures Flushed(j.live, true, None, j.c, c) && (Neat(j) ==> c.free >= j.c.free)
    ensures Unmaps(j.sp, j.m, sp, m, j.lo, j.hi) && Cleared(sp, m, j.rl, j.root == j.kernelRoot, j.lo, j.hi)
    ensures Full(j.sp, j.m, j.sp.root == j.kernelRoot, j.rl, PageOf(j.lo)) ==>
              Full(sp, m, j.sp.root == j.kernelRoot, j.rl, PageOf(j.lo))
  {
    assert LookRun(0);
    GoneMeans(j.sp, j.m, sp, m, j.rl, j.root == j.kernelRoot, j.lo, j.hi);
  }

  /** The word that `set_terminal` stores. */
  method LeafWord(phys: nat, flags: nat) returns (w: nat)
    requires phys % PAGE_SIZE == 0 && phys < PHYS_END && AccessFlags(flags)
    ensures Decode(w) == Leaf(phys, flags)
  {
    TerminalReadsBack(phys, flags);
    w := TerminalWord(phys, flags);
  }

  class PageTables {
    var pages: map<nat, seq<nat>>
    var free: set<nat>
    const kernelRoot: nat
    /** The root of the process that is `current_task` of this CPU */
    var current: Option<nat>

    /** The table pages as the hardware walker decodes them. */
    ghost var tables: Tables
    /** The roots of guests: the walker of this CPU reaches them through its second stage. */
    ghost const guests: set<nat>
    ghost var held: Walkers

    ghost predicate Valid()
      reads this
    {
      forall n: int :: LookValid(n) ==>
        && pages.Keys == tables.Keys && pages.Keys !! free && kernelRoot !in free
        && (forall t :: t in pages ==> |pages[t]| == PTES_PER_PT && t % PAGE_SIZE == 0 && t < PHYS_END)
        && (forall t :: t in pages ==> |tables[t]| == PTES_PER_PT && forall i :: 0 <= i < PTES_PER_PT ==>
            tables[t][i] == Decode(pages[t][i]))
        && (forall t :: t in free ==> t % PAGE_SIZE == 0 && t < PHYS_END)
    }

    ghost predicate Good(sp: Space)
      reads this
    {
      Valid() && Inv(sp, tables) && forall p :: p in sp.tab && sp.tab[p] == kernelRoot ==> p == Root
    }

    /** The walkers of this CPU reach the tree, now or under another root. */
    ghost predicate Live(root: nat)
      reads this`current
    {
      root == kernelRoot || current == Some(root) || root in guests
    }

    /** The scope of a call flushes what the tree's walkers hold. */
    ghost predicate Heeds(scope: Scope, sp: Space)
      reads this`current
    {
      Live(sp.root) ==> scope != NoWalker
    }

    /** The kernel root before anything is mapped, and the pages that the allocator has */
    constructor (kernelRoot: nat, free: set<nat>, ghost guests: set<nat>)
      requires kernelRoot !in free && forall t :: t in free + {kernelRoot} ==> t % PAGE_SIZE == 0 && t < PHYS_END
      ensures Good(Space(kernelRoot, PTES_PER_PT, map[Root := kernelRoot]))
      ensures this.kernelRoot == kernelRoot && this.free == free && Empty(tables, kernelRoot)
      ensures held.stale == {} && held.remote == {} && held.gone == {} && current == None && this.guests == guests
    {
      this.kernelRoot, this.free, this.guests, current := kernelRoot, free, guests, None;
      pages, tables := map[kernelRoot := seq(PTES_PER_PT, i => 0)], map[kernelRoot := seq(PTES_PER_PT, i => Invalid)];
      held := Walkers({}, {}, {});
      new;
      assert kernelRoot in free + {kernelRoot};
      assert forall t :: t in free ==> t in free + {kernelRoot};
      BareRoot(kernelRoot, tables);
    }

    /** `zalloc_pages(1)` */
    method Zalloc() returns (r: Option<nat>)
      requires Valid()
      modifies this`pages, this`free, this`tables
      ensures Valid()
      ensures r.None? ==> old(free) == {} && pages == old(pages) && free == old(free) && tables == old(tables)
      ensures r.Some? ==> r.value in old(free) && free == old(free) - {r.value}
      ensures r.Some? ==> r.value !in old(tables) && r.value % PAGE_SIZE == 0 && r.value != kernelRoot
      ensures r.Some? ==> tables == old(tables)[r.value := seq(PTES_PER_PT, i => Invalid)]
    {
      assert LookValid(0);
      if free == {} {
        return None;
      }
      var t :| t in free;
      pages := pages[t := seq(PTES_PER_PT, i => 0)];
      tables := tables[t := seq(PTES_PER_PT, i => Invalid)];
      free := free - {t};
      r := Some(t);
    }

    /** `free_pages(t, 1)`: the page may be handed out again, so this CPU's walker must not use it any more. */
    method Free(t: nat)
      requires Valid() && t in tables && t !in held.stale && t != kernelRoot
      modifies this`pages, this`free, this`tables
      ensures Valid() && free == old(free) + {t}
      ensures tables == old(tables) - {t}
    {
      assert LookValid(0);
      pages := pages - {t};
      tables := tables - {t};
      free := free + {t};
    }

    /** The word that `get_entry` points to. */
    function GetEntry(t: nat, level: nat, virt: nat): (pte: nat)
      requires Valid() && Holds(tables, t) && level <= 2
      reads this
      ensures Ix(level, PageOf(virt)) < PTES_PER_PT && Decode(pte) == tables[t][Ix(level, PageOf(virt))]
    {
      assert LookValid(0);
      IndexOf(level, virt);
      pages[t][Index(level, virt)]
    }

    /** A store to one entry: a leaf of a live tree stays in the translation cache. */
    method SetEntry(t: nat, level: nat, virt: nat, w: nat, ghost live: bool)
      requires Valid() && Holds(tables, t) && level <= 2
      modifies this`pages, this`tables, this`held
      ensures Valid()
      ensures Ix(level, PageOf(virt)) < PTES_PER_PT
      ensures tables == Store(old(tables), t, Ix(level, PageOf(virt)), Decode(w))
      ensures held == Overlaid(old(held), live, old(tables)[t][Ix(level, PageOf(virt))], level, virt)
    {
      assert LookValid(0);
      IndexOf(level, virt);
      held := Overlaid(held, live, tables[t][Ix(level, PageOf(virt))], level, virt);
      var i := Index(level, virt);
      var entries: seq<nat> := pages[t][i := w];
      pages := pages[t := entries];
      tables := tables[t := tables[t][i := Decode(w)]];
    }

    /** `clear_entry`: a pointer cleared in a live tree leaves its table to the walk caches of all CPUs. */
    method ClearEntry(t: nat, level: nat, virt: nat, ghost live: bool)
      requires Valid() && Holds(tables, t) && level <= 2
      modifies this`pages, this`tables, this`held
      ensures Valid()
      ensures Ix(level, PageOf(virt)) < PTES_PER_PT && tables == Store(old(tables), t, Ix(level, PageOf(virt)), Invalid)
      ensures held == Detached(old(held), live, old(tables)[t][Ix(level, PageOf(virt))], level, virt)
    {
      IndexOf(level, virt);
      ghost var h, e := held, tables[t][Ix(level, PageOf(virt))];
      SetEntry(t, level, virt, 0, live);
      held := Detached(h, live, e, level, virt);
    }

    /** `local_flush_tlb_all`, `local_flush_tlb_guest_all`: of this CPU */
    method FlushAll()
      modifies this`held
      ensures held == Walkers({}, old(held.remote), {})
    {
      held := Walkers({}, held.remote, {});
    }

    /** `local_flush_tlb_page`: the leaves of the address, and no pointers */
    method FlushPage(virt: nat)
      modifies this`held
      ensures held == old(held).(gone := Unflushed(old(held).gone, virt))
    {
      held := held.(gone := Unflushed(held.gone, virt));
    }

    method TableEmpty(t: nat) returns (empty: bool)
      requires Valid() && Holds(tables, t)
      ensures empty <==> Empty(tables, t)
    {
      assert LookValid(0);
      var i := 0;
      while i < PTES_PER_PT
        invariant 0 <= i <= PTES_PER_PT
        invariant forall j :: 0 <= j < i ==> tables[t][j].Invalid?
      {
        if EntryValid(pages[t][i]) {
          assert !tables[t][i].Invalid?;
          return false;
        }
        i := i + 1;
      }
      empty := true;
    }

    /** Allocates an empty table and links it into the slot of an address. */
    method LinkFresh(level: nat, table: nat, virt: nat, ghost sp: Space) returns (r: Option<nat>, ghost sp': Space)
      requires Good(sp) && 1 <= level && Rooted(sp, level, table, virt)
      requires !Get(sp, tables, level, PageOf(virt)).Next?
      modifies this`pages, this`free, this`tables, this`held
      ensures Good(sp') && Accounts(sp, old(tables), sp', tables, {})
      ensures SlotLocal(sp, old(tables), sp', tables, level, PageOf(virt))
      ensures r.None? ==> sp' == sp && tables == old(tables) && free == old(free) == {} && held == old(held)
      ensures r.Some? ==>
                held == Overlaid(old(held), Live(sp.root), old(Get(sp, tables, level, PageOf(virt))), level, virt)
      ensures sp'.root == sp.root && (r.Some? ==> Empty(tables, r.value))
      ensures r.Some? ==> r.value in old(free) && free == old(free) - {r.value}
      ensures sp'.limit == sp.limit && (r.Some? ==> r.value != kernelRoot)
      ensures r.Some? ==> Rooted(sp', level, table, virt) && Rooted(sp', level - 1, r.value, virt)
      ensures r.Some? ==> Get(sp', tables, level, PageOf(virt)) == Next(r.value)
      ensures r.Some? ==> SlotRemapped(sp, old(tables), sp', tables, level, virt, Invalid)
      ensures r.Some? && Full(sp, old(tables), sp.root == kernelRoot, level, PageOf(virt)) ==>
                Full(sp', tables, sp.root == kernelRoot, level - 1, PageOf(virt))
    {
      ghost var m := tables;
      Peek(sp, m, level, PageOf(virt));
      r := Zalloc();
      sp' := sp;
      if r.Some? {
        SetEntry(table, level, virt, NextWord(r.value), Live(sp.root));
        NextReadsBack(r.value);
        sp' := Grown(sp, level, PageOf(virt), r.value);
        assert tables == LinkedTo(sp, m, level, virt, r.value);
        GrowTranslate(sp, m, level, virt, r.value);
        GrowAccounts(sp, m, level, virt, r.value);
        GrowLocal(sp, m, level, virt, r.value);
        if Full(sp, m, sp.root == kernelRoot, level, PageOf(virt)) {
          FullGrow(sp, m, sp.root == kernelRoot, level, virt, r.value);
        }
        Peek(sp', tables, level - 1, PageOf(virt));
      } else {
        AccountsRefl(sp, m);
        SlotLocalRefl(sp, m, level, PageOf(virt));
      }
    }

    /** `split_hugepage`: replaces a leaf by a table that maps the same addresses. */
    method Split(level: nat, table: nat, virt: nat, huge: bool, scope: Scope, ghost sp: Space)
      returns (ok: bool, ghost sp': Space)
      requires Good(sp) && 1 <= level && Rooted(sp, level, table, virt) && held.stale == {} && Heeds(scope, sp)
      requires !Get(sp, tables, level, PageOf(virt)).Invalid?
      modifies this`pages, this`free, this`tables, this`held
      ensures Good(sp') && Accounts(sp, old(tables), sp', tables, {}) && held.stale == {}
      ensures !ok ==> free == {}
      ensures Flushed(Live(sp.root), level == 1 || huge || |old(free)| != 1, None, old(Caches(free, held)),
                      Caches(free, held))
      ensures !ok && (level == 1 || huge) ==> old(free) == {} && sp' == sp && tables == old(tables)
      ensures old(Get(sp, tables, level, PageOf(virt))).Leaf? && level == 2 && !huge && |old(free)| == 1 ==>
                !ok && (Live(sp.root) ==> Slot(level, virt) in held.gone)
      ensures SlotLocal(sp, old(tables), sp', tables, level, PageOf(virt))
      ensures Rooted(sp', level, table, virt)
      ensures old(Get(sp, tables, level, PageOf(virt)).Next?) ==>
              ok && sp' == sp && tables == old(tables) && free == old(free) && held == old(held)
      ensures ok ==> Get(sp', tables, level, PageOf(virt)).Next?
      ensures ok ==> SameTranslations(sp, old(tables), sp', tables)
      ensures ok && Full(sp, old(tables), sp.root == kernelRoot, level, PageOf(virt)) ==>
                Full(sp', tables, sp.root == kernelRoot, 2, PageOf(virt))
      decreases level, 0, 2
    {
      ghost var b, m0 := PageOf(virt), tables;
      Peek(sp, m0, level, b);
      var pte := GetEntry(table, level, virt);
      GetPhysOfLeaf(level, pte, virt);
      var phys := GetPhys(level, pte, virt);
      ok, sp' := true, sp;
      FlushedRefl(Live(sp.root), true, Caches(free, held));
      AccountsRefl(sp, m0);
      SlotLocalRefl(sp, m0, level, b);
      if phys == INVALID_PHYS_ADDR {
        if Full(sp, m0, sp.root == kernelRoot, level, b) {
          FullUp(sp, m0, sp.root == kernelRoot, level, b);
        }
        return;
      }
      SplitRange(sp, m0, level, virt, pte);
      phys := phys - Off(level, phys);
      ok, sp' := SplitLeaf(level, table, virt, pte, phys, virt - Off(level, virt), huge, scope, sp);
    }

    /** The part of `split_hugepage` past its guard. */
    method SplitLeaf(level: nat, table: nat, virt: nat, pte: nat, phys: nat, base: nat, huge: bool, scope: Scope,
                     ghost sp: Space)
      returns (ok: bool, ghost sp': Space)
      requires Good(sp) && 1 <= level && Rooted(sp, level, table, virt) && held.stale == {} && Heeds(scope, sp)
      requires Decode(pte) == Get(sp, tables, level, PageOf(virt)) && AccessFlags(GetFlags(pte))
      requires Decode(pte).Leaf? && phys == Decode(pte).phys && Off(level, phys) == 0 && phys + Size(level) <= PHYS_END
      requires base == virt - Off(level, virt) && Off(level, base) == 0 && base + Size(level) <= Limit(sp)
      requires Within(sp, PageOf(base)) && At(level - 1, PageOf(base)) == At(level - 1, PageOf(virt))
      modifies this`pages, this`free, this`tables, this`held
      ensures Good(sp') && Accounts(sp, old(tables), sp', tables, {}) && held.stale == {}
      ensures !ok ==> free == {}
      ensures Flushed(Live(sp.root), level == 1 || huge || |old(free)| != 1, None, old(Caches(free, held)),
                      Caches(free, held))
      ensures !ok && (level == 1 || huge) ==> old(free) == {} && sp' == sp && tables == old(tables)
      ensures level == 2 && !huge && |old(free)| == 1 ==> !ok && (Live(sp.root) ==> Slot(level, virt) in held.gone)
      ensures SlotLocal(sp, old(tables), sp', tables, level, PageOf(virt))
      ensures Rooted(sp', level, table, virt)
      ensures ok ==> Get(sp', tables, level, PageOf(virt)).Next?
      ensures ok ==> SameTranslations(sp, old(tables), sp', tables)
      ensures ok && Full(sp, old(tables), sp.root == kernelRoot, level, PageOf(virt)) ==>
                Full(sp', tables, sp.root == kernelRoot, 2, PageOf(virt))
      decreases level, 0, 1
    {
      ghost var m0, c0 := tables, Caches(free, held);
      var r;
      ghost var sp1;
      r, sp1 := LinkFresh(level, table, virt, sp);
      if r.None? {
        ok, sp' := false, sp1;
        FlushedRefl(Live(sp.root), true, Caches(free, held));
        return;
      }
      ghost var m1, c1 := tables, Caches(free, held);
      LastOne(c0.free, r.value);
      ok, sp' := FillTable(level, r.value, phys, base, GetFlags(pte), huge, scope, sp1);
      SplitFlushed(Live(sp.root), level == 1 || huge || |c0.free| != 1, ok, r.value, Decode(pte), c0, c1,
                   Caches(free, held), level, virt, base);
      SplitDone(sp, m0, sp1, m1, sp', tables, kernelRoot, ok, level, virt, pte, phys, base);
    }

    /** Maps all of a new table, one level below the leaf that it replaces. */
    method FillTable(level: nat, t: nat, phys: nat, base: nat, flags: nat, huge: bool, scope: Scope, ghost sp0: Space)
      returns (ok: bool, ghost sp: Space)
      requires 1 <= level <= 2 && Good(sp0) && held.stale == {} && AccessFlags(flags) && t != kernelRoot
               && Heeds(scope, sp0)
      requires Rooted(sp0, level - 1, t, base) && Off(level, base) == 0 && Off(level, phys) == 0
      requires base + Size(level) <= Limit(sp0) && phys + Size(level) <= PHYS_END
      modifies this`pages, this`free, this`tables, this`held
      ensures Good(sp) && Accounts(sp0, old(tables), sp, tables, {}) && held.stale == {}
      ensures !ok ==> free == {}
      ensures Flushed(Live(sp0.root), true, if ok || old(free) != {} then Some(base) else None,
                      old(Caches(free, held)), Caches(free, held))
      ensures level == 1 || huge ==> ok
      ensures level == 2 && !huge && old(free) == {} && old(Empty(tables, t)) ==> !ok && held == old(held)
      ensures SubtreeLocal(sp0, old(tables), sp, tables, level - 1, PageOf(base))
      ensures ok ==> Maps(sp0, old(tables), sp, tables, base, base + Size(level), phys, flags)
      ensures ok && Full(sp0, old(tables), sp0.root == kernelRoot, level - 1, PageOf(base)) ==>
                Full(sp, tables, sp0.root == kernelRoot, 2, PageOf(base))
      decreases level, 0, 0
    {
      FillNumbers(level, phys, base, huge);
      ghost var leaked;
      Peek(sp0, tables, level - 1, PageOf(base));
      ok, sp, leaked := Create(level - 1, t, phys, Size(level), base, flags, huge, scope, sp0);
    }

    /** Splits a leaf on the walk down of `paging_destroy`. */
    method SplitOnPath(rl: nat, level: nat, t: nat, virt: nat, scope: Scope, pt: seq<nat>, ghost lo: nat,
                       ghost sp0: Space, ghost m0: Tables, ghost sp1: Space, ghost c0: Caches)
      returns (ok: bool, ghost sp: Space)
      requires Inv(sp0, m0) && Good(sp1) && held.stale == {} && Heeds(scope, sp0)
      requires 1 <= level <= rl <= 2 && virt < Limit(sp0) && sp1.limit == sp0.limit && sp1.root == sp0.root
      requires Within(sp0, PageOf(virt)) && Rooted(sp1, level, t, virt) && Get(sp1, tables, level, PageOf(virt)).Leaf?
      requires |pt| == rl - level + 1 && Trail(sp1, rl, pt, PageOf(virt))
      requires lo <= virt && (lo == virt || (NoLeafAcross(sp1, tables, rl, virt) && Off(level, virt) == 0))
      requires Descended(sp0, m0, sp1, tables, kernelRoot, rl, lo, virt)
      requires Flushed(Live(sp0.root), true, None, c0, Caches(free, held))
      modifies this`pages, this`free, this`tables, this`held
      ensures Good(sp) && held.stale == {} && sp.root == sp0.root && (ok ==> sp.limit == sp0.limit)
      ensures !ok ==> free == {}
      ensures level == 2 && |old(free)| == 1 ==> !ok && (Live(sp0.root) ==> Slot(level, virt) in held.gone)
      ensures Flushed(Live(sp0.root), ok, None, c0, Caches(free, held))
      ensures Accounts(sp0, m0, sp, tables, {}) && SlotLocal(sp0, m0, sp, tables, rl, PageOf(virt))
      ensures Get(sp0, m0, rl, PageOf(virt)).Next? ==>
                Get(sp, tables, rl, PageOf(virt)) == Get(sp0, m0, rl, PageOf(virt))
      ensures ok ==> Descended(sp0, m0, sp, tables, kernelRoot, rl, lo, virt)
      ensures ok ==> Rooted(sp, level, t, virt) && Get(sp, tables, level, PageOf(virt)).Next?
      ensures ok ==> Trail(sp, rl, pt, PageOf(virt)) && (lo == virt || NoLeafAcross(sp, tables, rl, virt))
      decreases level, 0, 3
    {
      ghost var m1, c1, b := tables, Caches(free, held), PageOf(virt);
      ok, sp := Split(level, t, virt, false, scope, sp1);
      FlushedTrans(Live(sp0.root), ok, None, c0, c1, Caches(free, held));
      SameRoot(sp1, m1, sp, tables, {});
      DescendedStep(sp0, m0, sp1, m1, sp, tables, kernelRoot, rl, level, lo, virt, ok);
      if !ok {
        return;
      }
      if lo != virt {
        NoLeafKept(sp1, m1, sp, tables, rl, level, virt);
      }
      PathKept(sp1, m1, sp, tables, level, level, b);
      TrailKept(sp1, m1, sp, tables, rl, level, pt, b);
    }

    /** One level down, past a pointer or a leaf that is split. */
    method StepDown(rl: nat, level: nat, t: nat, virt: nat, pte: nat, scope: Scope, pt: seq<nat>, ghost neat: bool,
                    ghost lo: nat, ghost sp0: Space, ghost m0: Tables, ghost sp1: Space, ghost c0: Caches)
      returns (ok: bool, path: seq<nat>, ghost sp: Space)
      requires Inv(sp0, m0) && Good(sp1) && held.stale == {} && Heeds(scope, sp0)
      requires level <= rl <= 2 && virt < Limit(sp0) && sp1.limit == sp0.limit && sp1.root == sp0.root
      requires Within(sp0, PageOf(virt)) && Rooted(sp1, level, t, virt)
               && Decode(pte) == Get(sp1, tables, level, PageOf(virt))
      requires EntryValid(pte) && (Decode(pte).Leaf? ==> !neat && level > 0)
      requires |pt| == rl - level + 1 && Trail(sp1, rl, pt, PageOf(virt))
      requires lo <= virt && (lo == virt || NoLeafAcross(sp1, tables, rl, virt))
      requires Descended(sp0, m0, sp1, tables, kernelRoot, rl, lo, virt)
      requires Flushed(Live(sp0.root), true, None, c0, Caches(free, held))
      modifies this`pages, this`free, this`tables, this`held
      ensures Good(sp) && held.stale == {} && sp.root == sp0.root && (ok ==> sp.limit == sp0.limit)
      ensures !ok ==> free == {}
      ensures Flushed(Live(sp0.root), ok, None, c0, Caches(free, held))
      ensures Accounts(sp0, m0, sp, tables, {}) && SlotLocal(sp0, m0, sp, tables, rl, PageOf(virt))
      ensures Get(sp0, m0, rl, PageOf(virt)).Next? ==>
                Get(sp, tables, rl, PageOf(virt)) == Get(sp0, m0, rl, PageOf(virt))
      ensures neat ==> ok && free == old(free) && sp == sp1 && tables == old(tables)
      ensures ok ==> level > 0 && Descended(sp0, m0, sp, tables, kernelRoot, rl, lo, virt)
      ensures ok ==> |path| == |pt| + 1 && Trail(sp, rl, path, PageOf(virt))
      ensures ok ==> lo == virt || NoLeafAcross(sp, tables, rl, virt)
      decreases level, 0, 4
    {
      ghost var b := PageOf(virt);
      ok, path, sp := true, pt, sp1;
      Peek(sp1, tables, level, b);
      var next := pte;
      GetPhysOfLeaf(level, pte, virt);
      if GetPhys(level, pte, virt) != INVALID_PHYS_ADDR {
        ok, sp := SplitOnPath(rl, level, t, virt, scope, pt, lo, sp0, m0, sp1, c0);
        if !ok {
          return;
        }
        Peek(sp, tables, level, b);
        next := GetEntry(t, level, virt);
      } else {
        assert LookMade(0);
      }
      TrailPush(sp, rl, pt, b, GetNextPt(next));
      path := pt + [GetNextPt(next)];
    }

    /** The walk down of `paging_destroy`: stops at an invalid entry or at a leaf that the range covers. */
    method DestroyDescend(rl: nat, root: nat, virt: nat, size: nat, scope: Scope, ghost neat: bool, ghost lo: nat,
                          ghost sp0: Space)
      returns (ok: bool, level: nat, pt: seq<nat>, ghost sp: Space)
      requires Good(sp0) && Rooted(sp0, rl, root, virt) && PageAligned(virt, size) && held.stale == {}
               && Heeds(scope, sp0)
      requires size > 0 && virt + size <= Limit(sp0)
      requires lo <= virt && (lo == virt || NoLeafAcross(sp0, tables, rl, virt))
      requires neat ==> NoLeafAcross(sp0, tables, rl, virt) && NoLeafAcross(sp0, tables, rl, virt + size)
      modifies this`pages, this`free, this`tables, this`held
      ensures Good(sp) && held.stale == {} && sp.root == sp0.root
      ensures !ok ==> free == {}
      ensures Flushed(Live(sp0.root), ok, None, old(Caches(free, held)), Caches(free, held))
      ensures !ok ==> Accounts(sp0, old(tables), sp, tables, {})
      ensures !ok ==> SlotLocal(sp0, old(tables), sp, tables, rl, PageOf(virt))
      ensures neat ==> ok && free == old(free) && sp == sp0 && tables == old(tables)
      ensures !ok && old(Get(sp0, tables, rl, PageOf(virt))).Next? ==>
              Get(sp, tables, rl, PageOf(virt)) == old(Get(sp0, tables, rl, PageOf(virt)))
      ensures ok ==> Descended(sp0, old(tables), sp, tables, kernelRoot, rl, lo, virt)
      ensures ok ==> level <= rl && |pt| == rl - level + 1
      ensures ok ==> Trail(sp, rl, pt, PageOf(virt)) && sp.limit == sp0.limit
      ensures ok ==> (var e := Get(sp, tables, level, PageOf(virt));
                      e.Invalid? || (e.Leaf? && Off(level, virt) == 0 && size >= Size(level)))
      decreases rl, if neat then 0 else 2, 5
    {
      ok, level, pt, sp := true, rl, [root], sp0;
      ghost var b := PageOf(virt);
      ghost var m0, c0, live := tables, Caches(free, held), Live(sp0.root);
      FlushedRefl(live, ok, c0);
      AccountsRefl(sp, tables);
      SlotLocalRefl(sp, tables, rl, b);
      InLimit(sp, tables, virt);
      TrailStart(sp, rl, root, b);
      assert Descended(sp0, m0, sp, tables, kernelRoot, rl, lo, virt);
      while true
        invariant ok && level <= rl && |pt| == rl - level + 1
        invariant Good(sp) && held.stale == {} && Descended(sp0, m0, sp, tables, kernelRoot, rl, lo, virt)
        invariant Trail(sp, rl, pt, b) && sp.limit == sp0.limit
        invariant neat ==> free == old(free) && sp == sp0 && tables == m0
        invariant lo == virt || NoLeafAcross(sp, tables, rl, virt)
        invariant Flushed(live, true, None, c0, Caches(free, held)) && sp.root == sp0.root
        decreases level
      {
        var t := pt[rl - level];
        TrailAt(sp, rl, pt, b, level);
        Peek(sp, tables, level, b);
        var pte := GetEntry(t, level, virt);
        assert Decode(pte) == Get(sp, tables, level, b);
        if !EntryValid(pte) {
          return;
        }
        GetPhysOfLeaf(level, pte, virt);
        if GetPhys(level, pte, virt) != INVALID_PHYS_ADDR {
          var pageStart := virt - Off(level, virt);
          if virt <= pageStart && virt + (size - 1) >= pageStart + (Size(level) - 1) {
            return;
          }
          if neat {
            NeatCovers(sp, tables, rl, level, virt, size);
          }
        }
        ok, pt, sp := StepDown(rl, level, t, virt, pte, scope, pt, neat, lo, sp0, m0, sp, c0);
        if !ok {
          return;
        }
        level := level - 1;
      }
    }

    /** Clears the entry of an address at a level. */
    method ClearOne(level: nat, table: nat, virt: nat, ghost sp: Space) returns (ghost sp': Space)
      requires Good(sp) && Rooted(sp, level, table, virt) && MayOverwrite(sp, tables, level, PageOf(virt))
      modifies this`pages, this`tables, this`held
      ensures sp' == Pruned(sp, old(tables), level, PageOf(virt)) && Good(sp')
      ensures Accounts(sp, old(tables), sp', tables, Dropped(old(Get(sp, tables, level, PageOf(virt)))))
      ensures SlotLocal(sp, old(tables), sp', tables, level, PageOf(virt))
      ensures PathOnly(sp, old(tables), sp', tables, PageOf(virt))
      ensures SlotRemapped(sp, old(tables), sp', tables, level, virt, Invalid)
      ensures Get(sp', tables, level, PageOf(virt)).Invalid?
      ensures held == Detached(old(held), Live(sp.root), old(Get(sp, tables, level, PageOf(virt))), level, virt)
    {
      ghost var m := tables;
      Peek(sp, m, level, PageOf(virt));
      ClearEntry(table, level, virt, Live(sp.root));
      sp' := Pruned(sp, m, level, PageOf(virt));
      assert tables == Overwritten(sp, m, level, virt, Invalid);
      OverwriteInv(sp, m, level, PageOf(virt), Invalid);
      OverwriteAccounts(sp, m, level, virt, Invalid);
      OverwriteLocal(sp, m, level, virt, Invalid);
      OverwritePathOnly(sp, m, level, virt, Invalid);
      OverwriteTranslate(sp, m, level, virt, Invalid);
    }

    /** Clears one more entry on the way up; `cleared` are the tables unlinked so far. */
    method ClearNext(level: nat, n: nat, table: nat, virt: nat, ghost cleared: set<nat>, ghost sp0: Space,
                     ghost m0: Tables, ghost c0: Caches, ghost sp1: Space)
      returns (ghost sp: Space)
      requires Inv(sp0, m0) && Good(sp1) && level <= n && Rooted(sp1, n, table, virt) && Within(sp0, PageOf(virt))
      requires MayOverwrite(sp1, tables, n, PageOf(virt)) && sp1.root == sp0.root && sp1.limit == sp0.limit
      requires PathCleared(sp0, m0, sp1, tables, n, PageOf(virt), cleared)
      requires Torn(Live(sp0.root), cleared, level, virt, c0, Caches(free, held))
      requires n == level ==> sp1 == sp0 && tables == m0
      requires n > level ==> SlotRemapped(sp0, m0, sp1, tables, level, virt, Invalid)
      requires n > level ==> Get(sp1, tables, n, PageOf(virt)).Next?
      modifies this`pages, this`tables, this`held
      ensures sp == Pruned(sp1, old(tables), n, PageOf(virt)) && Good(sp)
      ensures sp.root == sp0.root && sp.limit == sp0.limit && Get(sp, tables, n, PageOf(virt)).Invalid?
      ensures SlotRemapped(sp0, m0, sp, tables, level, virt, Invalid)
      ensures SlotLocal(sp1, old(tables), sp, tables, n, PageOf(virt))
      ensures var all := cleared + Dropped(old(Get(sp1, tables, n, PageOf(virt))));
              && PathCleared(sp0, m0, sp, tables, n, PageOf(virt), all)
              && Torn(Live(sp0.root), all, level, virt, c0, Caches(free, held))
    {
      ghost var m1, c1, b := tables, Caches(free, held), PageOf(virt);
      ghost var e := Get(sp1, m1, n, b);
      sp := ClearOne(n, table, virt, sp1);
      SameRoot(sp1, m1, sp, tables, Dropped(e));
      SameLimit(sp1, m1, sp, tables, Dropped(e));
      if n > level {
        PruneSilent(sp1, m1, sp, tables, n, virt);
        RemapThenSame(sp0, m0, sp1, m1, sp, tables, level, virt, Invalid);
      }
      TornMore(Live(sp0.root), cleared, e, cleared + Dropped(e), level, n, virt, c0, c1, Caches(free, held));
      ClearUpStep(sp0, m0, sp1, m1, sp, tables, n, b, cleared, Dropped(e), cleared + Dropped(e));
    }

    /** The walk up of `paging_destroy`: clears the path and collects the tables it empties. */
    method ClearUp(rl: nat, root: nat, level: nat, virt: nat, pt: seq<nat>, ghost sp0: Space)
      returns (ghost stop: nat, empty: seq<nat>, ghost sp: Space)
      requires Good(sp0) && Rooted(sp0, rl, root, virt) && held.stale == {}
      requires level <= rl && |pt| == rl - level + 1 && Trail(sp0, rl, pt, PageOf(virt))
      requires !Get(sp0, tables, level, PageOf(virt)).Next?
      modifies this`pages, this`tables, this`held
      ensures Good(sp) && sp.limit == sp0.limit && stop <= rl
      ensures PathCleared(sp0, old(tables), sp, tables, stop, PageOf(virt), Elems(empty))
      ensures StoppedAt(sp, tables, rl, root == kernelRoot, level, stop, virt)
      ensures SlotRemapped(sp0, old(tables), sp, tables, level, virt, Invalid)
      ensures Distinct(empty) && kernelRoot !in empty
      ensures Torn(Live(sp0.root), Elems(empty), level, virt, old(Caches(free, held)), Caches(free, held))
    {
      ghost var b, m0, c0, live := PageOf(virt), tables, Caches(free, held), Live(sp0.root);
      TornRefl(live, level, virt, c0);
      ghost var cleared: seq<nat> := [];
      var n, path := level, pt;
      empty, sp := [], sp0;
      PathClearedStart(sp, tables, level, b);
      TrailAt(sp, rl, pt, b, level);
      while true
        invariant level <= n <= rl && Good(sp) && MayOverwrite(sp, tables, n, b) && sp.limit == sp0.limit
        invariant |path| == rl - n + 1 && Trail(sp, rl, path, b)
        invariant PathCleared(sp0, m0, sp, tables, n, b, Elems(cleared))
        invariant n == level ==> sp == sp0 && tables == m0 && empty == cleared == []
        invariant n > level ==> SlotRemapped(sp0, m0, sp, tables, level, virt, Invalid)
        invariant n > level ==> Get(sp, tables, n, b).Next? && empty == cleared + [Get(sp, tables, n, b).table]
        invariant Distinct(empty) && kernelRoot !in empty
        invariant Torn(live, Elems(cleared), level, virt, c0, Caches(free, held)) && sp.root == sp0.root
        invariant forall k: nat :: level <= k < n - 1 ==> At(k, b) !in sp.tab
        invariant level < n == rl == 2 ==> !(virt >= USER_END && root == kernelRoot)
        decreases rl - n
      {
        var t := path[rl - n];
        TrailAt(sp, rl, path, b, n);
        ghost var sp1, m1, e := sp, tables, Get(sp, tables, n, b);
        OverwriteTab(sp1, m1, n, b, Invalid);
        sp := ClearNext(level, n, t, virt, Elems(cleared), sp0, m0, c0, sp);
        if n > level {
          ElemsSnoc(cleared, e.table);
        }
        assert Elems(empty) == Elems(cleared) + Dropped(e);
        stop, cleared := n, empty;
        Peek(sp, tables, n, b);
        if n == rl {
          break;
        }
        var isEmpty := TableEmpty(t);
        if !isEmpty {
          break;
        }
        if rl - n == 1 && virt >= USER_END && root == kernelRoot {
          break;
        }
        PathClearedUp(sp0, m0, sp, tables, n, b, Elems(empty));
        TrailPop(sp1, m1, sp, tables, rl, n, path, b);
        DistinctSnoc(empty, t);
        empty := empty + [t];
        path := path[..|path| - 1];
        n := n + 1;
      }
    }

    /**
     The flush that a round of `paging_destroy` needs, then the release of the emptied tables.
     Walkers of other CPUs, if they have the tree, may still use every table that is released.
     */
    method FlushAndRelease(virt: nat, empty: seq<nat>, scope: Scope, ghost sp0: Space, ghost m0: Tables,
                           ghost sp: Space,
                           ghost level: nat, ghost c0: Caches)
      requires Good(sp) && Accounts(sp0, m0, sp, tables, Elems(empty))
      requires Torn(Live(sp0.root), Elems(empty), level, virt, c0, Caches(free, held)) && c0.held.stale == {}
      requires Heeds(scope, sp0)
      requires Distinct(empty) && kernelRoot !in empty
      modifies this`pages, this`tables, this`free, this`held
      ensures Good(sp) && Accounts(sp0, m0, sp, tables, {}) && held.stale == {} && held.remote == old(held.remote)
      ensures tables == old(tables) - Elems(empty) && free == old(free) + Elems(empty)
      ensures held.gone <= if Live(sp0.root) then Unflushed(old(held.gone), virt) else old(held.gone)
    {
      assert LookCaches(0);
      match scope {
        case NoWalker =>
        case Local =>
          if |empty| > 0 {
            FlushAll();
          } else {
            FlushPage(virt);
          }
        case Guest =>
          FlushAll();
      }
      Release(empty, sp0, m0, sp);
    }

    /** Releases the emptied tables, after the flush. */
    method Release(empty: seq<nat>, ghost sp0: Space, ghost m0: Tables, ghost sp: Space)
      requires Good(sp) && Accounts(sp0, m0, sp, tables, Elems(empty)) && held.stale == {}
      requires Distinct(empty) && kernelRoot !in empty
      modifies this`pages, this`tables, this`free
      ensures Good(sp) && Accounts(sp0, m0, sp, tables, {})
      ensures tables == old(tables) - Elems(empty) && free == old(free) + Elems(empty)
    {
      ghost var m := tables;
      DistinctMeans(empty);
      DroppedApart(sp0, m0, sp, tables, Elems(empty), Root);
      var n := |empty|;
      while n > 0
        invariant 0 <= n <= |empty| && Valid()
        invariant tables == m - Elems(empty[n..]) && free == old(free) + Elems(empty[n..])
        invariant forall i :: 0 <= i < n ==> empty[i] in tables
      {
        n := n - 1;
        Free(empty[n]);
        assert Elems(empty[n..]) == {empty[n]} + Elems(empty[n + 1..]);
      }
      assert empty[0..] == empty;
      ReleaseKeeps(sp0, m0, sp, m, tables, Elems(empty));
    }

    /** The end of a round of `paging_destroy`: the slot that the walk down stopped in is unmapped and reclaimed. */
    method DestroySlot(rl: nat, root: nat, level: nat, virt: nat, size: nat, pt: seq<nat>, scope: Scope, ghost lo: nat,
                       ghost sp0: Space, ghost m0: Tables, ghost sp1: Space, ghost c0: Caches)
      returns (ghost stop: nat, ghost sp: Space)
      requires Inv(sp0, m0) && Good(sp1) && held.stale == {} && Heeds(scope, sp0) && sp1.root == sp0.root
      requires Rooted(sp0, rl, root, virt) && sp1.limit == sp0.limit
      requires virt + size <= Limit(sp0)
      requires level <= rl && |pt| == rl - level + 1 && Trail(sp1, rl, pt, PageOf(virt))
      requires var e := Get(sp1, tables, level, PageOf(virt));
               e.Invalid? || (e.Leaf? && Off(level, virt) == 0 && size >= Size(level))
      requires Descended(sp0, m0, sp1, tables, kernelRoot, rl, lo, virt)
      requires Flushed(Live(sp0.root), true, None, c0, Caches(free, held))
      modifies this`pages, this`free, this`tables, this`held
      ensures Good(sp) && Accounts(sp0, m0, sp, tables, {}) && held.stale == {} && sp.limit == sp0.limit
      ensures Flushed(Live(sp0.root), true, None, c0, Caches(free, held)) && sp.root == sp0.root
      ensures SlotLocal(sp0, m0, sp, tables, rl, PageOf(virt)) && NoNew(sp1, sp)
      ensures rl == 2 && root == kernelRoot ==> NextKept(sp0, m0, sp, tables)
      ensures free >= old(free) && RangeKept(sp0, m0, sp, tables, lo, virt)
      ensures NoLeafAcross(sp1, old(tables), rl, virt + size) ==> NoLeafAcross(sp, tables, rl, virt + size)
      ensures StoppedAt(sp, tables, rl, root == kernelRoot, level, stop, virt)
      ensures RoundUnmaps(sp0, m0, sp, tables, virt, size, level)
      ensures Full(sp0, m0, sp0.root == kernelRoot, rl, PageOf(virt)) ==>
                Full(sp, tables, sp0.root == kernelRoot, rl, PageOf(virt))
    {
      ghost var m1, c1, b := tables, Caches(free, held), PageOf(virt);
      assert LookMade(0);
      PathKept(sp0, m0, sp1, m1, rl, rl, b);
      var empty;
      stop, empty, sp := ClearUp(rl, root, level, virt, pt, sp1);
      ghost var m2, c2 := tables, Caches(free, held);
      RoundBefore(sp0, m0, sp1, m1, sp, m2, rl, stop, virt, lo, Elems(empty));
      PathOnlyNoNew(sp1, m1, sp, m2, b);
      TrailAt(sp1, rl, pt, b, level);
      SameRoot(sp0, m0, sp, m2, Elems(empty));
      FlushAndRelease(virt, empty, scope, sp0, m0, sp, level, c1);
      RoundFlushed(Live(sp0.root), c0, c1, c2, Caches(free, held), Elems(empty), level, virt);
      ClearUpFull(sp1, m1, sp, m2, kernelRoot, rl, root, level, stop, virt);
      RoundFull(sp0, m0, sp1, m1, sp, m2, tables, Elems(empty), kernelRoot, rl, b);
      ReleaseKeeps(sp0, m0, sp, m2, tables, Elems(empty));
      SameView(sp0, m0, sp, m2, tables, rl, b, lo, virt);
      if rl == 2 && root == kernelRoot {
        SlotLocalNext(sp0, m0, sp1, m1, rl, b);
        RoundNextKept(sp0, m0, sp1, m1, sp, m2, tables, level, stop, virt);
      }
      NeatKept(sp1, m1, sp, m2, tables, rl, root == kernelRoot, level, stop, virt, virt + size);
      RoundTranslations(sp0, m0, sp1, m1, sp, m2, tables, virt, size, level);
    }

    /** One round of `paging_destroy`: unmaps the slot that the walk for virt ends in. */
    method DestroyRound(rl: nat, root: nat, virt: nat, size: nat, scope: Scope, ghost neat: bool, ghost lo: nat,
                        ghost sp0: Space)
      returns (ok: bool, level: nat, ghost stop: nat, ghost sp: Space)
      requires Good(sp0) && Rooted(sp0, rl, root, virt) && PageAligned(virt, size) && held.stale == {}
               && Heeds(scope, sp0)
      requires size > 0 && virt + size <= Limit(sp0)
      requires lo <= virt && (lo == virt || NoLeafAcross(sp0, tables, rl, virt))
      requires neat ==> NoLeafAcross(sp0, tables, rl, virt) && NoLeafAcross(sp0, tables, rl, virt + size)
      modifies this`pages, this`free, this`tables, this`held
      ensures Good(sp) && Accounts(sp0, old(tables), sp, tables, {}) && held.stale == {} && sp.limit == sp0.limit
      ensures !ok ==> free == {}
      ensures Flushed(Live(sp0.root), ok, None, old(Caches(free, held)), Caches(free, held)) && sp.root == sp0.root
      ensures SlotLocal(sp0, old(tables), sp, tables, rl, PageOf(virt))
      ensures rl == 2 && root == kernelRoot ==> NextKept(sp0, old(tables), sp, tables)
      ensures neat ==>
                ok && free >= old(free) && NoNew(sp0, sp) && NoLeafAcross(sp, tables, rl, virt + size)
      ensures ok ==> RangeKept(sp0, old(tables), sp, tables, lo, virt)
      ensures ok ==> level <= rl && StoppedAt(sp, tables, rl, root == kernelRoot, level, stop, virt)
      ensures ok ==> RoundUnmaps(sp0, old(tables), sp, tables, virt, size, level)
      ensures ok && Full(sp0, old(tables), sp0.root == kernelRoot, rl, PageOf(virt)) ==>
                Full(sp, tables, sp0.root == kernelRoot, rl, PageOf(virt))
      decreases rl, if neat then 0 else 2, 6
    {
      ghost var m0, b, c0 := tables, PageOf(virt), Caches(free, held);
      var pt;
      ghost var sp1;
      ok, level, pt, sp1 := DestroyDescend(rl, root, virt, size, scope, neat, lo, sp0);
      if !ok {
        stop, sp := 0, sp1;
        PathKept(sp0, m0, sp1, tables, rl, rl, b);
        if rl == 2 {
          SlotLocalNext(sp0, m0, sp1, tables, rl, b);
        }
        return;
      }
      stop, sp := DestroySlot(rl, root, level, virt, size, pt, scope, lo, sp0, m0, sp1, c0);
    }

    /** `paging_destroy`: unmaps a range and reclaims the tables it empties. */
    method Destroy(rl: nat, root: nat, virt: nat, size: nat, scope: Scope, ghost sp0: Space)
      returns (ok: bool, ghost sp: Space)
      requires Good(sp0) && held.stale == {} && Heeds(scope, sp0)
      requires Rooted(sp0, rl, root, PageDown(virt)) && Fits(rl, PageDown(virt), PageUp(size))
      requires PageDown(virt) + PageUp(size) <= Limit(sp0)
      modifies this`pages, this`free, this`tables, this`held
      ensures Good(sp) && Accounts(sp0, old(tables), sp, tables, {}) && held.stale == {}
      ensures !ok ==> free == {}
      ensures (NoLeafAcross(sp0, old(tables), rl, PageDown(virt))
               && NoLeafAcross(sp0, old(tables), rl, PageDown(virt) + PageUp(size))) ==> ok
      ensures Flushed(Live(sp0.root), ok, None, old(Caches(free, held)), Caches(free, held))
      ensures SubtreeLocal(sp0, old(tables), sp, tables, rl, PageOf(PageDown(virt)))
      ensures ok ==> Unmaps(sp0, old(tables), sp, tables, PageDown(virt), PageDown(virt) + PageUp(size))
      ensures ok ==> Cleared(sp, tables, rl, root == kernelRoot, PageDown(virt), PageDown(virt) + PageUp(size))
      ensures rl == 2 && root == kernelRoot ==> NextKept(sp0, old(tables), sp, tables)
      ensures Whole(rl, PageDown(virt), PageUp(size)) ==>
                ok && free >= old(free) && NoNew(sp0, sp)
                  && SlotLocal(sp0, old(tables), sp, tables, rl, PageOf(PageDown(virt)))
      ensures ok && Full(sp0, old(tables), sp0.root == kernelRoot, rl, PageOf(PageDown(virt))) ==>
                Full(sp, tables, sp0.root == kernelRoot, rl, PageOf(PageDown(virt)))
      decreases rl, if Whole(rl, PageDown(virt), PageUp(size)) then 0 else 2, 9
    {
      ghost var lo, hi := PageDown(virt), PageDown(virt) + PageUp(size);
      ghost var j := Job(rl, root, lo, hi, kernelRoot, Live(sp0.root), sp0, tables, Caches(free, held));
      ok, sp := DestroyPages(rl, root, PageDown(virt), PageUp(size), scope, j);
      if Whole(rl, lo, hi - lo) {
        WholeIsNeat(j);
      }
      if ok {
        UnmappingEnd(j, sp, tables, Caches(free, held));
      }
      ConfinedMeans(sp0, j.m, sp, tables, rl, root == kernelRoot, Whole(rl, lo, hi - lo), lo);
    }

    /** A round within the unmapping of j. */
    method DestroyTurn(rl: nat, root: nat, virt: nat, size: nat, scope: Scope, ghost j: Job, ghost sp1: Space)
      returns (ok: bool, advance: nat, ghost sp: Space)
      requires JobOk(j) && Heeds(scope, j.sp) && j.kernelRoot == kernelRoot && j.live == Live(j.sp.root)
      requires rl == j.rl && root == j.root && size > 0 && virt + size == j.hi
      requires Good(sp1) && held.stale == {} && Unmapping(j, virt, sp1, tables, Caches(free, held))
      modifies this`pages, this`free, this`tables, this`held
      ensures Good(sp) && held.stale == {}
      ensures !ok ==>
              free == {} && !Whole(rl, j.lo, j.hi - j.lo) && !Neat(j)
                && Flushed(j.live, false, None, j.c, Caches(free, held))
      ensures !ok ==> Confined(j.sp, j.m, sp, tables, rl, root == kernelRoot, false, j.lo)
      ensures ok ==> advance > 0
      ensures ok ==> Unmapping(j, if advance >= size then j.hi else virt + advance, sp, tables, Caches(free, held))
      decreases rl, if Whole(rl, j.lo, j.hi - j.lo) then 0 else 2, 7
    {
      ghost var m1, c1 := tables, Caches(free, held);
      UnmappingUse(j, virt, sp1, m1, c1);
      var level;
      ghost var stop;
      advance := 0;
      ok, level, stop, sp := DestroyRound(rl, root, virt, size, scope, Neat(j), j.lo, sp1);
      UnmappingStays(j, virt, sp1, m1, c1, sp, tables);
      if !ok {
        UnmappingFails(j, virt, sp1, m1, c1, Caches(free, held));
        return;
      }
      advance := Size(level) - Off(level, virt);
      UnmappingNext(j, level, stop, virt, sp1, m1, c1, sp, tables, Caches(free, held), if advance >= size then j.hi
                    else virt + advance);
    }

    /** The loop of `paging_destroy` over the page-aligned range of j. */
    method DestroyPages(rl: nat, root: nat, virt0: nat, size0: nat, scope: Scope, ghost j: Job)
      returns (ok: bool, ghost sp: Space)
      requires JobOk(j) && Heeds(scope, j.sp) && Good(j.sp) && held.stale == {}
      requires j == Job(rl, root, virt0, virt0 + size0, kernelRoot, Live(j.sp.root), j.sp, tables, Caches(free, held))
      modifies this`pages, this`free, this`tables, this`held
      ensures Good(sp) && held.stale == {}
      ensures !ok ==>
              free == {} && !Whole(rl, virt0, size0) && !Neat(j)
                && Flushed(j.live, false, None, j.c, Caches(free, held))
      ensures !ok ==> Confined(j.sp, j.m, sp, tables, rl, root == kernelRoot, false, virt0)
      ensures ok ==> Unmapping(j, j.hi, sp, tables, Caches(free, held))
      decreases rl, if Whole(rl, virt0, size0) then 0 else 2, 8
    {
      var size, virt := size0, virt0;
      ok, sp := true, j.sp;
      UnmappingStart(j);
      while size > 0
        invariant ok && 0 <= size && virt + size == j.hi
        invariant Good(sp) && held.stale == {} && Unmapping(j, virt, sp, tables, Caches(free, held))
      {
        var advance;
        ok, advance, sp := DestroyTurn(rl, root, virt, size, scope, j, sp);
        if !ok {
          return;
        }
        if advance >= size {
          break;
        }
        virt := virt + advance;
        size := size - advance;
      }
    }

    /** The table below an entry: the one it points to, a split leaf, or a new table. */
    method TableBelow(level: nat, table: nat, virt: nat, huge: bool, scope: Scope, ghost sp0: Space)
      returns (ok: bool, t: nat, ghost sp: Space)
      requires Good(sp0) && 1 <= level && Rooted(sp0, level, table, virt) && held.stale == {} && Heeds(scope, sp0)
      modifies this`pages, this`free, this`tables, this`held
      ensures Good(sp) && Accounts(sp0, old(tables), sp, tables, {}) && held.stale == {}
      ensures !ok ==> free == {}
      ensures Flushed(Live(sp0.root), ok || level == 1 || huge, None, old(Caches(free, held)), Caches(free, held))
      ensures !ok && (level == 1 || huge) ==>
                old(free) == {} && sp == sp0 && tables == old(tables) && !Get(sp, tables, level, PageOf(virt)).Next?
      ensures old(free) == {} && old(Get(sp0, tables, level, PageOf(virt))).Invalid? ==> !ok && held == old(held)
      ensures SlotLocal(sp0, old(tables), sp, tables, level, PageOf(virt))
      ensures old(Get(sp0, tables, level, PageOf(virt))).Next? ==>
                Get(sp, tables, level, PageOf(virt)) == old(Get(sp0, tables, level, PageOf(virt)))
      ensures ok ==> SameTranslations(sp0, old(tables), sp, tables) && Rooted(sp, level - 1, t, virt)
      ensures ok && Full(sp0, old(tables), sp0.root == kernelRoot, level, PageOf(virt)) ==>
                Full(sp, tables, sp0.root == kernelRoot, level - 1, PageOf(virt))
      decreases level, 1, 0
    {
      ghost var b := PageOf(virt);
      t := 0;
      Peek(sp0, tables, level, b);
      var pte := GetEntry(table, level, virt);
      FlushedRefl(Live(sp0.root), true, Caches(free, held));
      if EntryValid(pte) {
        ok, sp := Split(level, table, virt, huge, scope, sp0);
        if ok {
          FullDown(sp, tables, sp0.root == kernelRoot, level - 1, b);
          Peek(sp, tables, level, b);
          pte := GetEntry(table, level, virt);
          t := GetNextPt(pte);
        }
      } else {
        var r;
        ghost var m0 := tables;
        r, sp := LinkFresh(level, table, virt, sp0);
        ok := r.Some?;
        if ok {
          LinkSilent(sp0, m0, sp, tables, level, virt);
          t := r.value;
        }
      }
    }

    /** The walk down of `paging_create`: splits leaves and links new tables until a leaf fits. */
    method CreateDescend(rl: nat, root: nat, phys: nat, size: nat, virt: nat, huge: bool, scope: Scope,
                         ghost sp0: Space)
      returns (ok: bool, level: nat, t: nat, ghost sp: Space)
      requires Good(sp0) && Rooted(sp0, rl, root, virt) && held.stale == {} && Heeds(scope, sp0)
      requires PageAligned(virt, size) && phys % PAGE_SIZE == 0 && size > 0
      modifies this`pages, this`free, this`tables, this`held
      ensures Good(sp) && Accounts(sp0, old(tables), sp, tables, {}) && held.stale == {} && sp.limit == sp0.limit
      ensures !ok ==> free == {}
      ensures Flushed(Live(sp0.root), ok || rl <= 1 || huge, None, old(Caches(free, held)), Caches(free, held))
      ensures !ok && rl <= 1 ==> old(free) == {}
      ensures !ok && (rl <= 1 || huge) ==> level <= rl && Lacks(sp, tables, virt, virt + size, phys, huge, level, virt)
      ensures old(free) == {} && rl >= 1 && !huge && old(Get(sp0, tables, rl, PageOf(virt))).Invalid? ==>
                !ok && held == old(held)
      ensures Leafable(rl, phys, virt, size, huge) ==> ok
      ensures SlotLocal(sp0, old(tables), sp, tables, rl, PageOf(virt))
      ensures old(Get(sp0, tables, rl, PageOf(virt))).Next? ==>
              Get(sp, tables, rl, PageOf(virt)) == old(Get(sp0, tables, rl, PageOf(virt)))
      ensures ok ==> SameTranslations(sp0, old(tables), sp, tables)
      ensures ok ==> level <= rl && Leafable(level, phys, virt, size, huge) && Rooted(sp, level, t, virt)
      ensures ok ==> forall k: nat :: level < k <= rl ==> !Leafable(k, phys, virt, size, huge)
      ensures ok && level == rl ==> sp == sp0 && tables == old(tables)
      ensures ok && Full(sp0, old(tables), sp0.root == kernelRoot, rl, PageOf(virt)) ==>
                Full(sp, tables, sp0.root == kernelRoot, level, PageOf(virt))
      decreases rl, 1, 1
    {
      ghost var b, m0, c0, live := PageOf(virt), tables, Caches(free, held), Live(sp0.root);
      FlushedRefl(live, true, c0);
      ok, level, t, sp := true, rl, root, sp0;
      SunkStart(sp, tables, kernelRoot, rl, b);
      while !Leafable(level, phys, virt, size, huge)
        invariant ok && level <= rl && Good(sp) && held.stale == {} && sp.limit == sp0.limit && sp.root == sp0.root
        invariant Sunk(sp0, m0, sp, tables, kernelRoot, rl, level, b) && Rooted(sp, level, t, virt)
        invariant forall k: nat :: level < k <= rl ==> !Leafable(k, phys, virt, size, huge)
        invariant level == rl ==> sp == sp0 && tables == m0 && free == old(free) && held == old(held)
        invariant level < rl ==> old(free) != {} || !Get(sp0, m0, rl, b).Invalid?
        invariant Flushed(live, true, None, c0, Caches(free, held))
        decreases level
      {
        ghost var sp1, m1, c1 := sp, tables, Caches(free, held);
        ok, t, sp := TableBelow(level, t, virt, huge, scope, sp);
        FlushedTrans(live, ok || rl <= 1 || huge, None, c0, c1, Caches(free, held));
        SunkStep(sp0, m0, sp1, m1, sp, tables, kernelRoot, rl, level, b, ok);
        if !ok {
          return;
        }
        level := level - 1;
      }
      SunkMeans(sp0, m0, sp, tables, kernelRoot, rl, level, b);
    }

    /** The flush of a round of `paging_create` */
    method FlushLeaf(virt: nat, scope: Scope)
      requires held.stale == {}
      modifies this`held
      ensures held.stale == {} && held.remote == old(held.remote)
      ensures held.gone <= if scope != NoWalker then Unflushed(old(held.gone), virt) else old(held.gone)
    {
      match scope {
        case NoWalker =>
        case Local =>
          FlushPage(virt);
        case Guest =>
          FlushAll();
      }
    }

    /** Sets the leaf of `paging_create`, after releasing a finer mapping in its slot, and flushes its address. */
    method CreateLeaf(level: nat, t: nat, phys: nat, virt: nat, flags: nat, scope: Scope, ghost sp0: Space)
      returns (ghost sp: Space, ghost lost: set<nat>)
      requires Good(sp0) && Rooted(sp0, level, t, virt) && held.stale == {} && Heeds(scope, sp0)
      requires Off(level, virt) == 0 && Off(level, phys) == 0 && phys < PHYS_END && AccessFlags(flags)
      requires virt + Size(level) <= Limit(sp0)
      modifies this`pages, this`free, this`tables, this`held
      ensures Good(sp) && Accounts(sp0, old(tables), sp, tables, lost) && held.stale == {} && sp.limit == sp0.limit
      ensures SlotLocal(sp0, old(tables), sp, tables, level, PageOf(virt))
      ensures SlotRemapped(sp0, old(tables), sp, tables, level, virt, Leaf(phys, flags))
      ensures Get(sp, tables, level, PageOf(virt)) == Leaf(phys, flags)
      ensures lost == if level == 2 && t == kernelRoot && virt >= USER_END then
              Dropped(old(Get(sp0, tables, 2, PageOf(virt)))) else {}
      ensures Full(sp0, old(tables), sp0.root == kernelRoot, level, PageOf(virt)) ==>
                Full(sp, tables, sp0.root == kernelRoot, 2, PageOf(virt))
      ensures Flushed(Live(sp0.root), true, Some(virt), old(Caches(free, held)), Caches(free, held))
      decreases level, 1, 1
    {
      ghost var m0, b, c0 := tables, PageOf(virt), Caches(free, held);
      ghost var sp1 := ReleaseFiner(level, t, virt, scope, sp0);
      ghost var m1, e, c1 := tables, Leaf(phys, flags), Caches(free, held);
      lost := Dropped(Get(sp1, m1, level, b));
      LeafReplaces(sp0, m0, sp1, m1, level, t == kernelRoot, virt, lost);
      SameRoot(sp0, m0, sp1, m1, {});
      sp := SetLeaf(level, t, phys, virt, flags, sp1);
      LeafSet(sp0, m0, sp1, m1, sp, tables, level, virt, e, lost);
      ghost var c2 := Caches(free, held);
      FlushLeaf(virt, scope);
      LeafFlushed(Live(sp0.root), Get(sp1, m1, level, b), c0, c1, c2, Caches(free, held), level, virt);
    }

    /** The store of the leaf: what was below its slot is empty by now. */
    method SetLeaf(level: nat, t: nat, phys: nat, virt: nat, flags: nat, ghost sp0: Space) returns (ghost sp: Space)
      requires Good(sp0) && Rooted(sp0, level, t, virt) && MayOverwrite(sp0, tables, level, PageOf(virt))
      requires Off(level, virt) == 0 && Off(level, phys) == 0 && phys < PHYS_END && AccessFlags(flags)
      modifies this`pages, this`tables, this`held
      ensures Valid() && sp == Pruned(sp0, old(tables), level, PageOf(virt))
      ensures tables == Overwritten(sp0, old(tables), level, virt, Leaf(phys, flags))
      ensures held == Overlaid(old(held), Live(sp0.root), old(Get(sp0, tables, level, PageOf(virt))), level, virt)
      ensures Full(sp0, old(tables), sp0.root == kernelRoot, level, PageOf(virt)) ==>
                Full(sp, tables, sp0.root == kernelRoot, 2, PageOf(virt))
    {
      ghost var m0, b, e := tables, PageOf(virt), Leaf(phys, flags);
      Peek(sp0, m0, level, b);
      AlignedDown(level, 0, phys);
      var w := LeafWord(phys, flags);
      SetEntry(t, level, virt, w, Live(sp0.root));
      sp := Pruned(sp0, m0, level, b);
      if Full(sp0, m0, sp0.root == kernelRoot, level, b) {
        FullLeaf(sp0, m0, sp0.root == kernelRoot, level, virt, e);
      }
    }

    /** The release of a finer mapping below a new leaf; it cannot fail. */
    method ReleaseFiner(level: nat, t: nat, virt: nat, scope: Scope, ghost sp0: Space) returns (ghost sp: Space)
      requires Good(sp0) && Rooted(sp0, level, t, virt) && held.stale == {} && Heeds(scope, sp0)
      requires Off(level, virt) == 0 && virt + Size(level) <= Limit(sp0)
      modifies this`pages, this`free, this`tables, this`held
      ensures Good(sp) && Accounts(sp0, old(tables), sp, tables, {}) && held.stale == {} && sp.limit == sp0.limit
      ensures SlotLocal(sp0, old(tables), sp, tables, level, PageOf(virt)) && NoNew(sp0, sp)
      ensures Unmaps(sp0, old(tables), sp, tables, virt, virt + Size(level))
              || SameTranslations(sp0, old(tables), sp, tables)
      ensures Rooted(sp, level, t, virt) && MayOverwrite(sp, tables, level, PageOf(virt))
      ensures Get(sp, tables, level, PageOf(virt)).Next? ==> level == 2 && t == kernelRoot && virt >= USER_END
      ensures level == 2 && t == kernelRoot ==> NextKept(sp0, old(tables), sp, tables)
      ensures Full(sp0, old(tables), sp0.root == kernelRoot, level, PageOf(virt)) ==>
                Full(sp, tables, sp0.root == kernelRoot, level, PageOf(virt))
      ensures Flushed(Live(sp0.root), true, None, old(Caches(free, held)), Caches(free, held))
      decreases level, 1, 0
    {
      ghost var m0, b := tables, PageOf(virt);
      sp := sp0;
      Peek(sp0, m0, level, b);
      if Size(level) > PAGE_SIZE {
        PageExact(level, virt);
        var _, sp1 := Destroy(level, t, virt, Size(level), scope, sp0);
        sp := sp1;
        SubtreeTable(sp0, m0, sp, tables, level, b);
        ClearedSlot(sp, tables, level, t == kernelRoot, virt);
      } else {
        AccountsRefl(sp, tables);
        FlushedRefl(Live(sp0.root), true, Caches(free, held));
        SlotLocalRefl(sp, tables, level, b);
      }
    }

    /** `paging_create`: maps a range to consecutive physical pages, with the largest leaves that fit. */
    method Create(rl: nat, root: nat, phys: nat, size: nat, virt: nat, flags: nat, huge: bool, scope: Scope,
                  ghost sp0: Space)
      returns (ok: bool, ghost sp: Space, ghost leaked: set<nat>)
      requires Good(sp0) && held.stale == {} && AccessFlags(flags) && Heeds(scope, sp0)
      requires Rooted(sp0, rl, root, PageDown(virt)) && Fits(rl, PageDown(virt), PageUp(size))
      requires PageDown(virt) + PageUp(size) <= Limit(sp0) && PageDown(phys) + PageUp(size) <= PHYS_END
      modifies this`pages, this`free, this`tables, this`held
      ensures Good(sp) && Accounts(sp0, old(tables), sp, tables, leaked) && held.stale == {}
      ensures !ok ==> free == {}
      ensures Flushed(Live(sp0.root), ok || rl <= 1 || huge,
                      if PageUp(size) > 0 && (ok || (rl <= 1 && old(free) != {})) then Some(PageDown(virt)) else None,
                      old(Caches(free, held)), Caches(free, held))
      ensures PageUp(size) > 0 && old(free) == {} && rl >= 1 && !huge
              && old(Get(sp0, tables, rl, PageOf(PageDown(virt)))).Invalid? ==>
                !ok && held == old(held)
      ensures !ok && (rl <= 1 || huge) ==>
                Short(sp, tables, rl, PageDown(virt), PageDown(virt) + PageUp(size), PageDown(phys), huge)
      ensures Tiles(rl, PageDown(phys), PageDown(virt), PageUp(size), huge) ==> ok
      ensures SubtreeLocal(sp0, old(tables), sp, tables, rl, PageOf(PageDown(virt)))
      ensures ok ==>
              Maps(sp0, old(tables), sp, tables, PageDown(virt), PageDown(virt) + PageUp(size), PageDown(phys), flags)
      ensures rl == 2 ==>
              RootKept(sp0, old(tables), sp, tables, RootLeaves(rl, PageDown(phys), PageDown(virt), huge),
                       PageDown(virt), PageDown(virt) + PageUp(size))
      ensures var leaks := if RootLeaves(rl, PageDown(phys), PageDown(virt), huge) && root == kernelRoot
                           then Leaks(sp0, old(tables), PageDown(virt), PageDown(virt) + PageUp(size)) else {};
              leaked <= leaks && (ok ==> leaked == leaks)
      ensures ok && Full(sp0, old(tables), sp0.root == kernelRoot, rl, PageOf(PageDown(virt))) ==>
                Full(sp, tables, sp0.root == kernelRoot, if PageUp(size) > 0 then 2 else rl, PageOf(PageDown(virt)))
      decreases rl, 1, 5
    {
      ghost var lo, hi, f := PageDown(virt), PageDown(virt) + PageUp(size), Frames(PageDown(phys), flags, huge);
      ghost var j := Job(rl, root, lo, hi, kernelRoot, Live(sp0.root), sp0, tables, Caches(free, held));
      ok, sp, leaked := CreatePages(rl, root, PageDown(phys), PageUp(size), PageDown(virt), flags, huge, scope, j);
      if ok {
        MappingEnd(j, f, sp, tables, Caches(free, held), leaked);
      } else {
        StoppedMeans(j, f, rl <= 1 || huge, if rl <= 1 && old(free) != {} then Some(lo) else None, sp, tables,
                     Caches(free, held), leaked);
      }
    }

    /** One round of `paging_create`: maps the largest leaf at virt that the range holds. */
    method CreateRound(rl: nat, root: nat, phys: nat, size: nat, virt: nat, flags: nat, huge: bool, scope: Scope,
                       ghost sp0: Space)
      returns (ok: bool, level: nat, ghost sp: Space, ghost lost: set<nat>)
      requires Good(sp0) && held.stale == {} && AccessFlags(flags) && Rooted(sp0, rl, root, virt)
               && Heeds(scope, sp0)
      requires PageAligned(virt, size) && phys % PAGE_SIZE == 0 && size > 0 && virt + size <= Limit(sp0)
               && phys + size <= PHYS_END
      modifies this`pages, this`free, this`tables, this`held
      ensures Good(sp) && Accounts(sp0, old(tables), sp, tables, lost) && held.stale == {} && sp.limit == sp0.limit
      ensures !ok ==> free == {}
      ensures Flushed(Live(sp0.root), ok || rl <= 1 || huge, if ok then Some(virt) else None, old(Caches(free, held)),
                      Caches(free, held))
      ensures !ok && rl <= 1 ==> old(free) == {}
      ensures !ok && (rl <= 1 || huge) ==> level <= rl && Lacks(sp, tables, virt, virt + size, phys, huge, level, virt)
      ensures old(free) == {} && rl >= 1 && !huge && old(Get(sp0, tables, rl, PageOf(virt))).Invalid? ==>
                !ok && held == old(held)
      ensures Leafable(rl, phys, virt, size, huge) ==> ok
      ensures SlotLocal(sp0, old(tables), sp, tables, rl, PageOf(virt))
      ensures ok ==> level <= rl && Leafable(level, phys, virt, size, huge)
      ensures ok ==> forall k: nat :: level < k <= rl ==> !Leafable(k, phys, virt, size, huge)
      ensures ok ==> SlotRemapped(sp0, old(tables), sp, tables, level, virt, Leaf(phys, flags))
      ensures if rl == 2 then RootRound(sp0, old(tables), sp, tables, root == kernelRoot, ok && level == 2, virt, lost)
              else lost == {}
      ensures ok && Full(sp0, old(tables), sp0.root == kernelRoot, rl, PageOf(virt)) ==>
                Full(sp, tables, sp0.root == kernelRoot, 2, PageOf(virt))
      decreases rl, 1, 2
    {
      ghost var m0, b, c0, live := tables, PageOf(virt), Caches(free, held), Live(sp0.root);
      var t;
      ok, level, t, sp := CreateDescend(rl, root, phys, size, virt, huge, scope, sp0);
      lost := {};
      if ok {
        ghost var sp1, m1, c1 := sp, tables, Caches(free, held);
        SameRoot(sp0, m0, sp1, m1, {});
        sp, lost := CreateLeaf(level, t, phys, virt, flags, scope, sp);
        FlushedTrans(live, ok, Some(virt), c0, c1, Caches(free, held));
        AccountsTrans(sp0, m0, sp1, m1, sp, tables, {}, lost, lost);
        SlotLocalTrans(sp0, m0, sp1, m1, sp, tables, level, rl, b);
        PathKept(sp1, m1, sp, tables, level, rl, b);
      }
      if rl == 2 {
        RoundAtRoot(sp0, m0, sp, tables, root == kernelRoot, ok && level == 2, virt, lost);
      }
    }

    /** A round within the mapping of j. */
    method CreateTurn(rl: nat, root: nat, phys: nat, size: nat, virt: nat, flags: nat, huge: bool, scope: Scope,
                      ghost j: Job, ghost phys0: nat, ghost sp1: Space, ghost leaked1: set<nat>)
      returns (ok: bool, level: nat, ghost sp: Space, ghost leaked: set<nat>)
      requires JobOk(j) && Heeds(scope, j.sp) && j.kernelRoot == kernelRoot && j.live == Live(j.sp.root)
      requires rl == j.rl && root == j.root && AccessFlags(flags) && phys0 + (j.hi - j.lo) <= PHYS_END
      requires size > 0 && j.lo <= virt && virt + size == j.hi && phys == phys0 + (virt - j.lo)
      requires Placed(j, Frames(phys0, flags, huge), virt)
      requires Good(sp1) && held.stale == {}
               && Mapping(j, Frames(phys0, flags, huge), virt, sp1, tables, Caches(free, held), leaked1)
      modifies this`pages, this`free, this`tables, this`held
      ensures Good(sp) && held.stale == {}
      ensures !ok ==> free == {} && !Tiles(rl, phys0, j.lo, j.hi - j.lo, huge) && (rl <= 1 ==> old(free) == {})
      ensures !ok ==>
              Stopped(j, Frames(phys0, flags, huge), rl <= 1 || huge, if virt > j.lo then Some(j.lo) else None, sp,
                      tables, Caches(free, held), leaked)
      ensures old(free) == {} && rl >= 1 && !huge && old(Get(sp1, tables, rl, PageOf(virt))).Invalid? ==>
                !ok && held == old(held)
      ensures ok ==> level <= rl && Size(level) <= size && Placed(j, Frames(phys0, flags, huge), virt + Size(level))
      ensures ok ==> Mapping(j, Frames(phys0, flags, huge), virt + Size(level), sp, tables, Caches(free, held), leaked)
      decreases rl, 1, 3
    {
      ghost var m1, c1, f, lost := tables, Caches(free, held), Frames(phys0, flags, huge), {};
      MappingUse(j, f, virt, sp1, m1, c1, leaked1);
      ok, level, sp, lost := CreateRound(rl, root, phys, size, virt, flags, huge, scope, sp1);
      leaked := leaked1;
      if !ok {
        assert rl <= 1 || huge ==> Lacks(sp, tables, j.lo, j.hi, phys0, huge, level, virt);
        MappingStops(j, f, rl <= 1 || huge, virt, sp1, m1, c1, leaked, sp, tables, Caches(free, held), lost);
        return;
      }
      leaked := leaked1 + lost;
      PlacedNext(j, f, level, virt);
      MappingNext(j, f, level, virt, sp1, m1, c1, leaked1, sp, tables, Caches(free, held), lost);
    }

    /** The loop of `paging_create` over the page-aligned range of j. */
    method CreatePages(rl: nat, root: nat, phys0: nat, size0: nat, virt0: nat, flags: nat, huge: bool, scope: Scope,
                       ghost j: Job)
      returns (ok: bool, ghost sp: Space, ghost leaked: set<nat>)
      requires JobOk(j) && Heeds(scope, j.sp) && Good(j.sp) && held.stale == {} && AccessFlags(flags)
      requires j == Job(rl, root, virt0, virt0 + size0, kernelRoot, Live(j.sp.root), j.sp, tables, Caches(free, held))
      requires phys0 % PAGE_SIZE == 0 && phys0 + size0 <= PHYS_END
      modifies this`pages, this`free, this`tables, this`held
      ensures Good(sp) && held.stale == {}
      ensures !ok ==> size0 > 0 && free == {} && !Tiles(rl, phys0, virt0, size0, huge)
      ensures !ok ==>
              Stopped(j, Frames(phys0, flags, huge), rl <= 1 || huge,
                      if rl <= 1 && old(free) != {} then Some(virt0) else None, sp, tables, Caches(free, held), leaked)
      ensures size0 > 0 && old(free) == {} && rl >= 1 && !huge && old(Get(j.sp, tables, rl, PageOf(virt0))).Invalid? ==>
                !ok && held == old(held)
      ensures ok ==> Mapping(j, Frames(phys0, flags, huge), j.hi, sp, tables, Caches(free, held), leaked)
      decreases rl, 1, 4
    {
      var phys, virt, size := phys0, virt0, size0;
      ghost var f := Frames(phys0, flags, huge);
      ok, sp, leaked := true, j.sp, {};
      MappingStart(j, f);
      while size > 0
        invariant ok && virt0 <= virt && 0 <= size && virt + size == j.hi && phys == phys0 + (virt - virt0)
        invariant virt == virt0 ==> free == old(free) && sp == j.sp && tables == j.m && held == old(held)
        invariant virt > virt0 && old(free) == {} && rl >= 1 && !huge ==> !Get(j.sp, j.m, rl, PageOf(virt0)).Invalid?
        invariant Good(sp) && held.stale == {} && Placed(j, f, virt)
                  && Mapping(j, f, virt, sp, tables, Caches(free, held), leaked)
      {
        var level;
        ok, level, sp, leaked := CreateTurn(rl, root, phys, size, virt, flags, huge, scope, j, phys0, sp, leaked);
        if !ok {
          StoppedLess(j, f, rl <= 1 || huge, if virt > virt0 then Some(virt0) else None,
                      if rl <= 1 && old(free) != {} then Some(virt0) else None, sp, tables, Caches(free, held), leaked);
          return;
        }
        phys := phys + Size(level);
        virt := virt + Size(level);
        size := size - Size(level);
      }
    }

    /** `paging_get_phys`: the software walk finds what the hardware walk finds. */
    method PhysOf(root: nat, virt: nat, ghost sp: Space) returns (phys: nat)
      requires Good(sp) && Rooted(sp, 2, root, virt)
      ensures match Translate(sp, tables, virt) case Mapped(p, _) => phys == p
              && p < INVALID_PHYS_ADDR case Unmapped => phys == INVALID_PHYS_ADDR
    {
      var t, level := root, 2;
      ghost var b := PageOf(virt);
      while true
        invariant 0 <= level <= 2 && Rooted(sp, level, t, virt)
        decreases level
      {
        Peek(sp, tables, level, b);
        Path(sp, tables, level, b);
        var pte := GetEntry(t, level, virt);
        GetPhysOfLeaf(level, pte, virt);
        phys := GetPhys(level, pte, virt);
        if !EntryValid(pte) || phys != INVALID_PHYS_ADDR {
          return;
        }
        t := GetNextPt(pte);
        level := level - 1;
      }
    }

    /** `paging_prealloc`: fills the invalid root entries of a range with empty tables. */
    method Prealloc(root: nat, vaddr: nat, size: nat, ghost sp0: Space) returns (ok: bool, ghost sp: Space)
      requires Good(sp0) && vaddr + size <= Limit(sp0) && root == sp0.root
      modifies this`pages, this`free, this`tables, this`held
      ensures Good(sp) && Accounts(sp0, old(tables), sp, tables, {}) && SameTranslations(sp0, old(tables), sp, tables)
      ensures !ok ==> size > 0 && vaddr / ROOT_SLOT + |old(free)| <= (vaddr + size - 1) / ROOT_SLOT
      ensures !ok ==>
                && free == {}
                && exists i: nat ::
                     vaddr / ROOT_SLOT <= i <= (vaddr + size - 1) / ROOT_SLOT && RootEntry(sp, tables, i).Invalid?
      ensures ok && size > 0 ==>
              Populated(sp0, old(tables), sp, tables, vaddr / ROOT_SLOT, (vaddr + size - 1) / ROOT_SLOT + 1)
      ensures ok && size == 0 ==> sp == sp0 && tables == old(tables)
      ensures held == old(held)
    {
      ok, sp := true, sp0;
      AccountsRefl(sp, tables);
      if size == 0 {
        return;
      }
      ghost var m0, first, last := tables, vaddr / ROOT_SLOT, (vaddr + size - 1) / ROOT_SLOT;
      var virt := vaddr - Off(2, vaddr);
      var slots := (vaddr + size - 1 - virt) / ROOT_SLOT + 1;
      while slots > 0
        invariant ok && Good(sp) && Accounts(sp0, m0, sp, tables, {}) && SameTranslations(sp0, m0, sp, tables)
                  && sp.limit == sp0.limit
        invariant 0 <= slots && 0 <= virt && virt == (last + 1 - slots) * ROOT_SLOT && first <= last + 1 - slots
        invariant |old(free)| <= |free| + (last + 1 - slots - first)
        invariant held == old(held)
        invariant sp.root == root && Populated(sp0, m0, sp, tables, first, last + 1 - slots)
      {
        InLimit(sp, tables, virt);
        Peek(sp, tables, 2, PageOf(virt));
        var pte := GetEntry(root, 2, virt);
        if EntryValid(pte) {
          PopulatedSkip(sp0, m0, sp, tables, first, virt);
        } else {
          ghost var sp1, m1 := sp, tables;
          var sub;
          sub, sp := LinkFresh(2, root, virt, sp);
          if sub.None? {
            ok := false;
            SlotEntry(sp, tables, last + 1 - slots, virt);
            return;
          }
          LinkSilent(sp1, m1, sp, tables, 2, virt);
          AccountsTrans(sp0, m0, sp1, m1, sp, tables, {}, {}, {});
          PopulatedMore(sp0, m0, sp1, m1, sp, tables, first, virt);
          Peek(sp, tables, 2, PageOf(virt));
        }
        slots := slots - 1;
        virt := virt + ROOT_SLOT;
      }
    }

    /** `tlb_scope_of`: a tree that is live for the walker of this CPU is never without a flush. */
    method ScopeOf(root: nat) returns (scope: Scope)
      requires root !in guests
      ensures scope == NoWalker <==> !Live(root)
      ensures scope != Guest
    {
      if root == kernelRoot {
        return Local;
      }
      if current.Some? && current.value == root {
        return Local;
      }
      return NoWalker;
    }

    /** `map_range` */
    method MapRange(root: nat, vaddr: nat, paddr: nat, size: nat, flags: nat, ghost sp0: Space)
      returns (ok: bool, ghost sp: Space, ghost leaked: set<nat>)
      requires Good(sp0) && held.stale == {} && AccessFlags(flags) && root == sp0.root && root !in guests
      requires PageDown(vaddr) + PageUp(size) <= Limit(sp0) && PageDown(paddr) + PageUp(size) <= PHYS_END
      modifies this`pages, this`free, this`tables, this`held
      ensures Good(sp) && Accounts(sp0, old(tables), sp, tables, leaked) && held.stale == {}
      ensures !ok ==>
                && free == {}
                && Short(sp, tables, 2, PageDown(vaddr), PageDown(vaddr) + PageUp(size), PageDown(paddr), true)
      ensures Live(root) ==> free - old(free) <= held.remote
      ensures !Live(root) ==> held.remote == old(held.remote)
      ensures old(held.remote) <= held.remote && held.gone <= old(held.gone)
      ensures ok ==>
              Maps(sp0, old(tables), sp, tables, PageDown(vaddr), PageDown(vaddr) + PageUp(size), PageDown(paddr),
                   flags)
      ensures PageUp(size) < ROOT_SLOT ==> leaked == {} && NextKept(sp0, old(tables), sp, tables)
      ensures root != kernelRoot ==> leaked == {}
      ensures ok && NoEmpty(sp0, old(tables), root == kernelRoot) ==> NoEmpty(sp, tables, root == kernelRoot)
    {
      FullAny(sp0, tables, root == kernelRoot, PageOf(PageDown(vaddr)));
      if PageUp(size) == 0 {
        ok, sp, leaked := true, sp0, {};
        AccountsRefl(sp, tables);
        assert NextKept(sp0, tables, sp, tables);
        return;
      }
      var scope := ScopeOf(root);
      RootRange(sp0, tables, vaddr, size);
      ok, sp, leaked := Create(2, root, paddr, size, vaddr, flags, true, scope, sp0);
      FlushedMeans(Live(root), true, if ok then Some(PageDown(vaddr)) else None, old(Caches(free, held)),
                   Caches(free, held));
      FullAny(sp, tables, root == kernelRoot, PageOf(PageDown(vaddr)));
      if PageUp(size) < ROOT_SLOT {
        SameLimit(sp0, old(tables), sp, tables, leaked);
        TooSmall(sp0, old(tables), sp, tables, RootLeaves(2, PageDown(paddr), PageDown(vaddr), true), PageDown(vaddr),
                 PageDown(vaddr) + PageUp(size));
      }
    }

    /** `unmap_range` */
    method UnmapRange(root: nat, vaddr: nat, size: nat, ghost sp0: Space)
      returns (ok: bool, ghost sp: Space)
      requires Good(sp0) && held.stale == {} && root == sp0.root && root !in guests
      requires PageDown(vaddr) + PageUp(size) <= Limit(sp0)
      modifies this`pages, this`free, this`tables, this`held
      ensures Good(sp) && Accounts(sp0, old(tables), sp, tables, {}) && held.stale == {}
      ensures !ok ==> free == {}
      ensures (NoLeafAcross(sp0, old(tables), 2, PageDown(vaddr))
               && NoLeafAcross(sp0, old(tables), 2, PageDown(vaddr) + PageUp(size))) ==> ok
      ensures Live(root) ==> free - old(free) <= held.remote
      ensures !Live(root) ==> held.remote == old(held.remote)
      ensures old(held.remote) <= held.remote && (ok ==> held.gone <= old(held.gone))
      ensures ok ==> Unmaps(sp0, old(tables), sp, tables, PageDown(vaddr), PageDown(vaddr) + PageUp(size))
      ensures ok ==> Cleared(sp, tables, 2, root == kernelRoot, PageDown(vaddr), PageDown(vaddr) + PageUp(size))
      ensures root == kernelRoot ==> NextKept(sp0, old(tables), sp, tables)
      ensures ok && NoEmpty(sp0, old(tables), root == kernelRoot) ==> NoEmpty(sp, tables, root == kernelRoot)
    {
      FullAny(sp0, tables, root == kernelRoot, PageOf(PageDown(vaddr)));
      if PageUp(size) == 0 {
        ok, sp := true, sp0;
        AccountsRefl(sp, tables);
        ClearedNothing(sp, tables, 2, root == kernelRoot, PageDown(vaddr));
        return;
      }
      var scope := ScopeOf(root);
      RootRange(sp0, tables, vaddr, size);
      ok, sp := Destroy(2, root, vaddr, size, scope, sp0);
      FlushedMeans(Live(root), ok, None, old(Caches(free, held)), Caches(free, held));
      FullAny(sp, tables, root == kernelRoot, PageOf(PageDown(vaddr)));
    }
  }
}
