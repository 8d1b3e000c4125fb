/**
 The elementary changes of a page-table tree, what each does to translations, and the
 relations in which the operations of Paging are specified.
 */
module PageSteps {
  import opened Basics
  import opened Sv39
  import opened PageTree
  import opened PageRange

  ghost predicate LookAccounts(n: int) {
    true
  }

  ghost predicate LookLocal(n: int) {
    true
  }

  ghost predicate LookKept(n: int) {
    true
  }

  ghost predicate LookCleared(n: int) {
    true
  }

  ghost predicate LookTrail(n: int) {
    true
  }

  /**
   What an operation does to the memory it works in: pages outside the space and root entries
   above its limit stay as they are, and the pages in use afterwards are the others, the tables
   of the space, and the `dropped` ones, which belong to nobody.
   */
  ghost predicate Accounts(sp: Space, m: Tables, sp': Space, m': Tables, dropped: set<nat>) {
    forall n: int :: LookAccounts(n) ==>
      && sp'.root == sp.root && sp'.limit == sp.limit
      && Holds(m, sp.root) && Holds(m', sp.root)
      && m'.Keys == m.Keys - sp.tab.Values + sp'.tab.Values + dropped
      && sp'.tab.Values !! m.Keys - sp.tab.Values
      && dropped !! sp'.tab.Values && dropped !! m.Keys - sp.tab.Values
      && (forall t :: t in m && t !in sp.tab.Values ==> t in m' && m'[t] == m[t])
      && (forall i :: sp.limit <= i < PTES_PER_PT ==> m'[sp.root][i] == m[sp.root][i])
  }

  lemma AccountsRefl(sp: Space, m: Tables)
    requires Inv(sp, m)
    ensures Accounts(sp, m, sp, m, {})
  {
    assert LookInv(0);
    forall t | t in sp.tab.Values ensures t in m {
      var p :| p in sp.tab && sp.tab[p] == t;
    }
  }

  lemma AccountsTrans(sp: Space, m: Tables, sp1: Space, m1: Tables, sp2: Space, m2: Tables, d1: set<nat>, d2: set<nat>,
                      d: set<nat>)
    requires Accounts(sp, m, sp1, m1, d1)
    requires Accounts(sp1, m1, sp2, m2, d2)
    requires d == d1 + d2
    ensures Accounts(sp, m, sp2, m2, d)
  {
  }

  ghost predicate SameTranslations(sp: Space, m: Tables, sp': Space, m': Tables) {
    forall v: nat :: v < Limit(sp) ==> Translate(sp', m', v) == Translate(sp, m, v)
  }

  ghost predicate EntrySame(sp: Space, m: Tables, sp': Space, m': Tables, k: nat, a: Page) {
    && (At(k, a) in sp.tab <==> At(k, a) in sp'.tab)
    && (At(k, a) in sp.tab ==> sp'.tab[At(k, a)] == sp.tab[At(k, a)])
    && Get(sp', m', k, a) == Get(sp, m, k, a)
  }

  /** Outside one slot and everything below it, the tree is as it was. */
  ghost predicate SlotLocal(sp: Space, m: Tables, sp': Space, m': Tables, level: nat, b: Page) {
    forall n: int :: LookLocal(n) ==>
      && sp'.limit == sp.limit
      && (At(level, b) in sp.tab ==> At(level, b) in sp'.tab && sp'.tab[At(level, b)] == sp.tab[At(level, b)])
      && forall k: nat, a :: k <= 2 && Within(sp, a) && !(k <= level && Same(level, a, b)) ==>
      EntrySame(sp, m, sp', m', k, a)
  }

  /** Outside one table and everything below it, the tree is as it was. */
  ghost predicate SubtreeLocal(sp: Space, m: Tables, sp': Space, m': Tables, level: nat, b: Page) {
    forall n: int :: LookLocal(n) ==>
      && sp'.limit == sp.limit
      && (At(level, b) in sp.tab ==> At(level, b) in sp'.tab && sp'.tab[At(level, b)] == sp.tab[At(level, b)])
      && forall k: nat, a :: k <= 2 && Within(sp, a) && !(k <= level && At(level, a) == At(level, b)) ==>
      EntrySame(sp, m, sp', m', k, a)
  }

  lemma SlotLocalRefl(sp: Space, m: Tables, level: nat, b: Page)
    ensures SlotLocal(sp, m, sp, m, level, b)
  {
  }

  lemma SlotLocalTrans(sp: Space, m: Tables, sp1: Space, m1: Tables, sp2: Space, m2: Tables, j: nat, level: nat,
                       b: Page)
    requires j <= level <= 2 && Within(sp, b)
    requires SlotLocal(sp, m, sp1, m1, level, b)
    requires SlotLocal(sp1, m1, sp2, m2, j, b)
    ensures SlotLocal(sp, m, sp2, m2, level, b)
  {
    assert LookLocal(0);
    forall k: nat, a | k <= 2 && Within(sp, a) && !(k <= level && Same(level, a, b))
      ensures EntrySame(sp, m, sp2, m2, k, a)
    {
      assert EntrySame(sp, m, sp1, m1, k, a) && EntrySame(sp1, m1, sp2, m2, k, a);
    }
    if j < level {
      assert EntrySame(sp1, m1, sp2, m2, level, b);
    }
  }

  lemma SlotLocalWiden(sp: Space, m: Tables, sp': Space, m': Tables, j: nat, level: nat, b: Page)
    requires j <= level <= 2 && Within(sp, b) && SlotLocal(sp, m, sp', m', j, b)
    ensures SlotLocal(sp, m, sp', m', level, b)
  {
    SlotLocalRefl(sp, m, level, b);
    SlotLocalTrans(sp, m, sp, m, sp', m', j, level, b);
  }

  /** A change below one slot of a table, then a change below the table. */
  lemma SubtreeTrans(sp: Space, m: Tables, sp1: Space, m1: Tables, sp2: Space, m2: Tables, level: nat, b: Page, c: Page)
    requires level <= 2 && Within(sp, b) && Within(sp, c) && At(level, b) == At(level, c)
    requires SubtreeLocal(sp, m, sp1, m1, level, b)
    requires SlotLocal(sp1, m1, sp2, m2, level, c)
    ensures SubtreeLocal(sp, m, sp2, m2, level, b)
  {
    assert LookLocal(0);
    forall k: nat, a | k <= 2 && Within(sp, a) && !(k <= level && At(level, a) == At(level, b))
      ensures EntrySame(sp, m, sp2, m2, k, a)
    {
      assert EntrySame(sp, m, sp1, m1, k, a) && EntrySame(sp1, m1, sp2, m2, k, a);
    }
  }

  lemma SubtreeRefl(sp: Space, m: Tables, level: nat, b: Page)
    ensures SubtreeLocal(sp, m, sp, m, level, b)
  {
  }

  /** A change below the table of a slot is a change below the slot. */
  lemma SubtreeBelowSlot(sp: Space, m: Tables, sp': Space, m': Tables, level: nat, b: Page)
    requires 1 <= level <= 2 && Within(sp, b)
    requires SubtreeLocal(sp, m, sp', m', level - 1, b)
    ensures SlotLocal(sp, m, sp', m', level, b)
    ensures Get(sp', m', level, b) == Get(sp, m, level, b)
  {
    assert LookLocal(0);
    assert EntrySame(sp, m, sp', m', level, b);
  }

  // Overwriting one entry.

  /** The addresses of the slot of an address at a level. */
  ghost predicate InSlot(level: nat, virt: nat, v: nat) {
    level <= 2 && virt - Off(level, virt) <= v < virt - Off(level, virt) + Size(level)
  }

  lemma InSlotSame(level: nat, virt: nat, v: nat)
    requires level <= 2 && v < VA_END && virt < VA_END
    ensures IsPage(PageOf(v)) && IsPage(PageOf(virt))
    ensures Same(level, PageOf(v), PageOf(virt)) <==> InSlot(level, virt, v)
  {
    Digits(v);
    Digits(virt);
    SlotOf(level, PageOf(virt), v);
    SlotFacts(level, virt);
  }

  lemma InLimit(sp: Space, m: Tables, v: nat)
    requires Inv(sp, m) && v < Limit(sp)
    ensures v < VA_END && Within(sp, PageOf(v))
  {
    assert LookInv(0);
    Digits(v);
  }

  /** The table that overwriting an entry takes out of the space. */
  ghost function Dropped(e: Entry): (d: set<nat>) {
    if e.Next? then {e.table} else {}
  }

  ghost function Overwritten(sp: Space, m: Tables, level: nat, virt: nat, e: Entry): (m': Tables) {
    if At(level, PageOf(virt)) in sp.tab
    then Store(m, sp.tab[At(level, PageOf(virt))], Ix(level, PageOf(virt)), e)
    else m
  }

  /** Overwriting an entry changes the translations of its slot only. */
  ghost predicate SlotRemapped(sp: Space, m: Tables, sp': Space, m': Tables, level: nat, virt: nat, e: Entry) {
    forall v: nat :: v < Limit(sp) ==>
      Translate(sp', m', v) ==
      if !InSlot(level, virt, v) then Translate(sp, m, v)
      else if e.Leaf? then Mapped(e.phys + Off(level, v), e.flags)
      else Unmapped
  }

  lemma OverwriteTranslate(sp: Space, m: Tables, level: nat, virt: nat, e: Entry)
    requires virt < Limit(sp) && MayOverwrite(sp, m, level, PageOf(virt))
    requires e.Invalid? || GoodLeaf(level, e)
    ensures SlotRemapped(sp, m, Pruned(sp, m, level, PageOf(virt)), Overwritten(sp, m, level, virt, e), level, virt, e)
  {
    InLimit(sp, m, virt);
    forall v: nat | v < Limit(sp)
      ensures Translate(sp, Overwritten(sp, m, level, virt, e), v) ==
              if !InSlot(level, virt, v) then Translate(sp, m, v)
              else if e.Leaf? then Mapped(e.phys + Off(level, v), e.flags)
              else Unmapped
    {
      InLimit(sp, m, v);
      InSlotSame(level, virt, v);
      OverwriteLookup(sp, m, level, PageOf(virt), e, PageOf(v));
    }
  }

  lemma OverwriteAccounts(sp: Space, m: Tables, level: nat, virt: nat, e: Entry)
    requires MayOverwrite(sp, m, level, PageOf(virt))
    ensures Accounts(sp, m, Pruned(sp, m, level, PageOf(virt)), Overwritten(sp, m, level, virt, e),
                     Dropped(Get(sp, m, level, PageOf(virt))))
  {
    assert LookInv(0);
    var b := PageOf(virt);
    var sp' := Pruned(sp, m, level, b);
    assert EntryOk(sp, m, level, b);
    assert sp.tab[At(level, b)] in sp.tab.Values;
    forall t | t in sp.tab.Values ensures t in m {
      var p :| p in sp.tab && sp.tab[p] == t;
    }
    if Get(sp, m, level, b).Next? {
      var p := At(level - 1, b);
      assert sp.tab[p] in sp.tab.Values;
      assert sp'.tab.Values == sp.tab.Values - {sp.tab[p]} by {
        forall t | t in sp.tab.Values - {sp.tab[p]} ensures t in sp'.tab.Values {
          var q :| q in sp.tab && sp.tab[q] == t;
          assert q in sp'.tab;
        }
      }
    }
  }

  lemma OverwriteLocal(sp: Space, m: Tables, level: nat, virt: nat, e: Entry)
    requires virt < Limit(sp) && MayOverwrite(sp, m, level, PageOf(virt))
    requires e.Invalid? || GoodLeaf(level, e)
    ensures var sp', m' := Pruned(sp, m, level, PageOf(virt)), Overwritten(sp, m, level, virt, e);
            SlotLocal(sp, m, sp', m', level, PageOf(virt)) && Get(sp', m', level, PageOf(virt)) == e
  {
    StoreShows(sp, m, level, PageOf(virt), e);
    var b := PageOf(virt);
    var sp', m' := Pruned(sp, m, level, b), Overwritten(sp, m, level, virt, e);
    forall k: nat, a | k <= 2 && Within(sp, a) && !(k <= level && Same(level, a, b))
      ensures EntrySame(sp, m, sp', m', k, a)
    {
      assert At(k, a) in sp.tab <==> At(k, a) in sp'.tab;
    }
  }

  // Linking a newly allocated table.

  ghost function LinkedTo(sp: Space, m: Tables, level: nat, virt: nat, table: nat): (m': Tables) {
    var m1 := m[table := seq(PTES_PER_PT, i => Invalid)];
    if At(level, PageOf(virt)) in sp.tab
    then Store(m1, sp.tab[At(level, PageOf(virt))], Ix(level, PageOf(virt)), Next(table))
    else m1
  }

  ghost predicate MayGrow(sp: Space, m: Tables, level: nat, virt: nat, table: nat) {
    && 1 <= level <= 2 && Inv(sp, m) && virt < Limit(sp) && IsPage(PageOf(virt)) && At(level, PageOf(virt)) in sp.tab
    && !Get(sp, m, level, PageOf(virt)).Next? && table !in m
  }

  lemma GrowLinks(sp: Space, m: Tables, level: nat, virt: nat, table: nat)
    requires MayGrow(sp, m, level, virt, table)
    ensures Within(sp, PageOf(virt))
    ensures MayLink(sp, m[table := seq(PTES_PER_PT, i => Invalid)], level, PageOf(virt), table)
    ensures forall a :: Within(sp, a) ==> Lookup(sp, m[table := seq(PTES_PER_PT, i => Invalid)], a) == Lookup(sp, m, a)
  {
    assert LookInv(0);
    InLimit(sp, m, virt);
    Frame(sp, m, m[table := seq(PTES_PER_PT, i => Invalid)]);
  }

  lemma GrowTranslate(sp: Space, m: Tables, level: nat, virt: nat, table: nat)
    requires MayGrow(sp, m, level, virt, table)
    ensures Inv(Grown(sp, level, PageOf(virt), table), LinkedTo(sp, m, level, virt, table))
    ensures SlotRemapped(sp, m, Grown(sp, level, PageOf(virt), table), LinkedTo(sp, m, level, virt, table), level, virt,
                         Invalid)
  {
    var m1 := m[table := seq(PTES_PER_PT, i => Invalid)];
    var b := PageOf(virt);
    GrowLinks(sp, m, level, virt, table);
    LinkInv(sp, m1, level, b, table);
    var m', sp' := LinkedTo(sp, m, level, virt, table), Grown(sp, level, b, table);
    forall v: nat | v < Limit(sp)
      ensures Translate(sp', m', v) == if InSlot(level, virt, v) then Unmapped else Translate(sp, m, v)
    {
      InLimit(sp, m, v);
      InLimit(sp, m, virt);
      InSlotSame(level, virt, v);
      LinkLookup(sp, m1, level, b, table, PageOf(v));
    }
  }

  lemma GrowAccounts(sp: Space, m: Tables, level: nat, virt: nat, table: nat)
    requires MayGrow(sp, m, level, virt, table)
    ensures var sp', m' := Grown(sp, level, PageOf(virt), table), LinkedTo(sp, m, level, virt, table);
            Accounts(sp, m, sp', m', {})
  {
    GrowLinks(sp, m, level, virt, table);
    var b := PageOf(virt);
    LinkInv(sp, m[table := seq(PTES_PER_PT, i => Invalid)], level, b, table);
    var sp' := Grown(sp, level, b, table);
    assert sp'.tab.Values == sp.tab.Values + {table} by {
      forall t | t in sp.tab.Values ensures t in sp'.tab.Values {
        var q :| q in sp.tab && sp.tab[q] == t;
        assert sp'.tab[q] == t;
      }
      assert sp'.tab[At(level - 1, b)] == table;
    }
    assert LookInv(0);
    forall t | t in sp.tab.Values ensures t in m {
      var p :| p in sp.tab && sp.tab[p] == t;
    }
    assert sp.tab[At(level, b)] in sp.tab.Values;
  }

  lemma GrowLocal(sp: Space, m: Tables, level: nat, virt: nat, table: nat)
    requires MayGrow(sp, m, level, virt, table)
    ensures var sp', m' := Grown(sp, level, PageOf(virt), table), LinkedTo(sp, m, level, virt, table);
            SlotLocal(sp, m, sp', m', level, PageOf(virt)) && Get(sp', m', level, PageOf(virt)) == Next(table)
  {
    GrowLinks(sp, m, level, virt, table);
    var b := PageOf(virt);
    var m1 := m[table := seq(PTES_PER_PT, i => Invalid)];
    StoreShows(sp, m1, level, b, Next(table));
    LinkInv(sp, m1, level, b, table);
    var sp', m' := Grown(sp, level, b, table), LinkedTo(sp, m, level, virt, table);
    forall k: nat, a | k <= 2 && Within(sp, a) && !(k <= level && Same(level, a, b))
      ensures EntrySame(sp, m, sp', m', k, a)
    {
      assert At(k, a) in sp.tab <==> At(k, a) in sp'.tab;
    }
  }

  // Ranges.

  ghost predicate PageAligned(virt: nat, size: nat) {
    virt % PAGE_SIZE == 0 && size % PAGE_SIZE == 0
  }

  /** The first address of the table that translates virt at level rl. */
  ghost function TableBase(rl: nat, virt: nat): (v: nat) {
    if rl <= 2 then virt - Off(rl + 1, virt) else 0
  }

  /** The range lies inside the addresses of one table. */
  ghost predicate Fits(rl: nat, virt: nat, size: nat) {
    rl <= 2 && PageAligned(virt, size) && virt + size <= TableBase(rl, virt) + Size(rl + 1)
  }

  /** The range is exactly one slot of the level. */
  ghost predicate Whole(rl: nat, virt: nat, size: nat) {
    rl <= 2 && Off(rl, virt) == 0 && size == Size(rl)
  }

  /** No leaf from level rl down begins before the address and covers it. */
  ghost predicate NoLeafAcross(sp: Space, m: Tables, rl: nat, virt: nat) {
    forall k: nat :: k <= rl && k <= 2 && Get(sp, m, k, PageOf(virt)).Leaf? ==> Off(k, virt) == 0
  }

  ghost predicate SlotWithin(k: nat, a: Page, lo: nat, hi: nat) {
    k <= 2 && lo <= Base(k, a) && Base(k, a) + Size(k) <= hi
  }

  /** Entries whose slot lies in [lo, hi) are as they were, or gone with their table. */
  ghost predicate RangeKept(sp: Space, m: Tables, sp': Space, m': Tables, lo: nat, hi: nat) {
    forall n: int :: LookKept(n) ==>
      forall k: nat, a :: k <= 2 && Within(sp, a) && SlotWithin(k, a, lo, hi) && At(k, a) in sp'.tab ==>
        At(k, a) in sp.tab && Get(sp', m', k, a) == Get(sp, m, k, a)
  }

  lemma RangeKeptTrans(sp: Space, m: Tables, sp1: Space, m1: Tables, sp2: Space, m2: Tables, lo: nat, hi: nat)
    requires sp1.limit == sp.limit
    requires RangeKept(sp, m, sp1, m1, lo, hi) && RangeKept(sp1, m1, sp2, m2, lo, hi)
    ensures RangeKept(sp, m, sp2, m2, lo, hi)
  {
  }

  /** A change below a slot that begins at virt, or with an empty range before it, keeps [lo, virt). */
  lemma SlotLocalKeeps(sp: Space, m: Tables, sp': Space, m': Tables, level: nat, virt: nat, lo: nat)
    requires level <= 2 && virt < VA_END && lo <= virt
    requires SlotLocal(sp, m, sp', m', level, PageOf(virt))
    requires lo == virt || Off(level, virt) == 0
    ensures RangeKept(sp, m, sp', m', lo, virt)
  {
    assert LookLocal(0);
    forall k: nat, a | k <= 2 && Within(sp, a) && SlotWithin(k, a, lo, virt) && At(k, a) in sp'.tab
      ensures At(k, a) in sp.tab && Get(sp', m', k, a) == Get(sp, m, k, a)
    {
      SlotFacts(level, virt);
      if k <= level && Same(level, a, PageOf(virt)) {
        SlotsNest(k, level, a);
      }
      assert EntrySame(sp, m, sp', m', k, a);
    }
  }

  /** A change that only clears entries on the path of one page, or drops their tables. */
  ghost predicate PathOnly(sp: Space, m: Tables, sp': Space, m': Tables, b: Page) {
    forall n: int :: LookKept(n) ==>
      && sp'.limit == sp.limit
      && forall k: nat, a :: k <= 2 && Within(sp, a) && At(k, a) in sp'.tab ==>
           At(k, a) in sp.tab && (Same(k, a, b) || Get(sp', m', k, a) == Get(sp, m, k, a))
  }

  lemma PathOnlyTrans(sp: Space, m: Tables, sp1: Space, m1: Tables, sp2: Space, m2: Tables, b: Page)
    requires PathOnly(sp, m, sp1, m1, b) && PathOnly(sp1, m1, sp2, m2, b)
    ensures PathOnly(sp, m, sp2, m2, b)
  {
  }

  /** No table that was not there. */
  ghost predicate NoNew(sp: Space, sp': Space) {
    forall p :: p in sp'.tab ==> p in sp.tab
  }

  lemma PathOnlyNoNew(sp: Space, m: Tables, sp': Space, m': Tables, b: Page)
    requires PathOnly(sp, m, sp', m', b) && Inv(sp, m) && Inv(sp', m')
    ensures NoNew(sp, sp')
  {
    assert LookKept(0) && LookInv(0);
    forall p | p in sp'.tab
      ensures p in sp.tab
    {
      var a := match p case Root => Page(0, 0, 0) case Mid(i2) => Page(i2, 0, 0) case Low(i2, i1) => Page(i2, i1, 0);
      var k := match p case Root => 2 case Mid(_) => 1 case Low(_, _) => 0;
      assert At(k, a) == p;
      assert p != Root ==> Within(sp, a);
    }
  }

  lemma OverwritePathOnly(sp: Space, m: Tables, level: nat, virt: nat, e: Entry)
    requires MayOverwrite(sp, m, level, PageOf(virt))
    ensures PathOnly(sp, m, Pruned(sp, m, level, PageOf(virt)), Overwritten(sp, m, level, virt, e), PageOf(virt))
  {
    StoreShows(sp, m, level, PageOf(virt), e);
  }

  lemma PathOnlyKeeps(sp: Space, m: Tables, sp': Space, m': Tables, virt: nat, lo: nat)
    requires virt < VA_END
    requires PathOnly(sp, m, sp', m', PageOf(virt))
    ensures RangeKept(sp, m, sp', m', lo, virt)
  {
    assert LookKept(0);
    forall k: nat, a | k <= 2 && Within(sp, a) && SlotWithin(k, a, lo, virt) && At(k, a) in sp'.tab
      ensures At(k, a) in sp.tab && Get(sp', m', k, a) == Get(sp, m, k, a)
    {
      SlotFacts(k, virt);
    }
  }

  /** The slot of a pointer to an empty table translates nothing. */
  lemma EmptyUnmapped(sp: Space, m: Tables, level: nat, virt: nat, v: nat)
    requires level <= 2 && Inv(sp, m) && virt < Limit(sp) && v < Limit(sp) && InSlot(level, virt, v)
    requires At(level, PageOf(virt)) in sp.tab
    requires var e := Get(sp, m, level, PageOf(virt)); e.Next? && Empty(m, e.table)
    ensures Translate(sp, m, v) == Unmapped
  {
    InLimit(sp, m, v);
    InLimit(sp, m, virt);
    InSlotSame(level, virt, v);
    var a := PageOf(v);
    Peek(sp, m, level, a);
    Path(sp, m, level, a);
    assert m[Get(sp, m, level, a).table][Ix(level - 1, a)].Invalid?;
  }

  lemma InvalidUnmapped(sp: Space, m: Tables, level: nat, virt: nat, v: nat)
    requires level <= 2 && Inv(sp, m) && virt < Limit(sp) && v < Limit(sp) && InSlot(level, virt, v)
    requires At(level, PageOf(virt)) in sp.tab && Get(sp, m, level, PageOf(virt)).Invalid?
    ensures Translate(sp, m, v) == Unmapped
  {
    InLimit(sp, m, v);
    InLimit(sp, m, virt);
    InSlotSame(level, virt, v);
    Path(sp, m, level, PageOf(v));
    Peek(sp, m, level, PageOf(v));
  }

  /**
   Every slot inside [lo, hi) has an invalid entry, so no table is left there; only root slots
   of the kernel half of the kernel root keep their table.
   */
  ghost predicate Cleared(sp: Space, m: Tables, rl: nat, kernel: bool, lo: nat, hi: nat) {
    forall n: int :: LookCleared(n) ==>
      forall k: nat, a :: k <= rl && Within(sp, a) && SlotWithin(k, a, lo, hi) && At(k, a) in sp.tab ==>
        Get(sp, m, k, a).Invalid? || (k == 2 && kernel && Base(k, a) >= USER_END && Get(sp, m, k, a).Next?)
  }

  /** Where the walk up of an unmap stopped, after clearing the path of virt from `level` on. */
  ghost predicate StoppedAt(sp: Space, m: Tables, rl: nat, kernel: bool, level: nat, stop: nat, virt: nat) {
    && level <= stop <= rl <= 2
    && At(stop, PageOf(virt)) in sp.tab
    && Get(sp, m, stop, PageOf(virt)).Invalid?
    && (forall k: nat :: level <= k < stop ==> At(k, PageOf(virt)) !in sp.tab)
    && (stop == rl || !Empty(m, sp.tab[At(stop, PageOf(virt))]) || (stop == 1 && rl == 2 && kernel && virt >= USER_END))
    && (stop == rl == 2 && kernel && virt >= USER_END ==> level == 2)
  }

  /** Clearing the path of virt clears every slot up to the end of the slot the walk stopped in. */
  lemma ClearedStep(sp: Space, m: Tables, rl: nat, kernel: bool, level: nat, stop: nat, lo: nat, virt: nat, k: nat,
                    a: Page)
    requires Inv(sp, m) && virt < Limit(sp) && virt % PAGE_SIZE == 0 && lo <= virt
    requires StoppedAt(sp, m, rl, kernel, level, stop, virt)
    requires Cleared(sp, m, rl, kernel, lo, virt)
    requires k <= rl && Within(sp, a) && At(k, a) in sp.tab
    requires SlotWithin(k, a, lo, virt - Off(level, virt) + Size(level))
    decreases k, 1
    ensures Get(sp, m, k, a).Invalid? || (k == 2 && kernel && Base(k, a) >= USER_END && Get(sp, m, k, a).Next?)
  {
    var b := PageOf(virt);
    InLimit(sp, m, virt);
    if Base(k, a) + Size(k) <= virt {
      assert LookCleared(0);
    } else {
      LastPage(level, virt, k, a);
      if k < level {
        Upward(sp, m, k, level, a);
        SameGet(sp, m, level, a, b);
      } else if k > stop {
        StoppedAbove(sp, m, rl, kernel, level, stop, lo, virt, k, a);
      } else {
        SameGet(sp, m, k, a, b);
      }
    }
  }

  lemma SameGet(sp: Space, m: Tables, level: nat, a: Page, b: Page)
    requires level <= 2 && IsPage(a) && IsPage(b) && Same(level, a, b)
    ensures At(level, a) == At(level, b) && Get(sp, m, level, a) == Get(sp, m, level, b)
  {
    if level == 0 {} else if level == 1 {} else {}
  }

  /** A slot that ends inside the slot of virt, after virt, is below that slot or contains it. */
  lemma LastPage(level: nat, virt: nat, k: nat, a: Page)
    requires level <= 2 && k <= 2 && virt < VA_END && IsPage(a)
    requires virt < Base(k, a) + Size(k) <= virt - Off(level, virt) + Size(level)
    ensures k <= level ==> Same(level, a, PageOf(virt))
    ensures k >= level ==> Same(k, a, PageOf(virt))
  {
    SlotFacts(level, virt);
    Digits(virt);
    var last := Base(k, a) + Size(k) - 1;
    assert last < VA_END;
    SlotOf(k, a, last);
    SlotOf(level, PageOf(virt), last);
  }

  /** A table below a slot needs a pointer in that slot. */
  lemma Upward(sp: Space, m: Tables, k: nat, level: nat, a: Page)
    requires Inv(sp, m) && k < level <= 2 && Within(sp, a) && At(k, a) in sp.tab
    ensures At(level, a) in sp.tab && Get(sp, m, level, a).Next?
  {
    Peek(sp, m, k, a);
    Peek(sp, m, k + 1, a);
  }

  lemma StoppedAbove(sp: Space, m: Tables, rl: nat, kernel: bool, level: nat, stop: nat, lo: nat, virt: nat, k: nat,
                     a: Page)
    requires Inv(sp, m) && virt < Limit(sp) && virt % PAGE_SIZE == 0 && lo <= virt
    requires StoppedAt(sp, m, rl, kernel, level, stop, virt)
    requires Cleared(sp, m, rl, kernel, lo, virt)
    requires stop < k <= rl && Within(sp, a) && Same(k, a, PageOf(virt))
    requires SlotWithin(k, a, lo, virt - Off(level, virt) + Size(level))
    ensures k == 2 && kernel && Base(k, a) >= USER_END && Get(sp, m, k, a).Next?
    decreases k, 0
  {
    var b := PageOf(virt);
    InLimit(sp, m, virt);
    Upward(sp, m, stop, k, b);
    SameGet(sp, m, k, a, b);
    Peek(sp, m, stop, b);
    var t := sp.tab[At(stop, b)];
    forall i | 0 <= i < PTES_PER_PT
      ensures m[t][i].Invalid?
    {
      var c := if stop == 1 then b.(i1 := i) else b.(i0 := i);
      SlotsNest(stop, k, c);
      assert Base(k, c) == Base(k, a);
      ClearedStep(sp, m, rl, kernel, level, stop, lo, virt, stop, c);
      assert Get(sp, m, stop, c) == m[t][i];
    }
    SlotFacts(2, virt);
  }

  /** A change below the slot of virt keeps the tables and the entries above that slot. */
  lemma PathKept(sp: Space, m: Tables, sp': Space, m': Tables, level: nat, k: nat, b: Page)
    requires level <= k <= 2 && Within(sp, b) && SlotLocal(sp, m, sp', m', level, b)
    ensures sp'.limit == sp.limit
    ensures At(k, b) in sp.tab ==> At(k, b) in sp'.tab && sp'.tab[At(k, b)] == sp.tab[At(k, b)]
    ensures k > level ==> Get(sp', m', k, b) == Get(sp, m, k, b)
  {
    assert LookLocal(0);
    if k > level {
      assert EntrySame(sp, m, sp', m', k, b);
    }
  }

  lemma NoLeafKept(sp: Space, m: Tables, sp': Space, m': Tables, rl: nat, level: nat, virt: nat)
    requires level <= rl <= 2 && Within(sp, PageOf(virt)) && SlotLocal(sp, m, sp', m', level, PageOf(virt))
    requires NoLeafAcross(sp, m, rl, virt) && Off(level, virt) == 0
    ensures NoLeafAcross(sp', m', rl, virt)
  {
    forall k: nat | k <= rl && Get(sp', m', k, PageOf(virt)).Leaf?
      ensures Off(k, virt) == 0
    {
      if k > level {
        PathKept(sp, m, sp', m', level, k, PageOf(virt));
      } else {
        AlignedDown(level, k, virt);
      }
    }
  }

  lemma AlignedDown(level: nat, k: nat, v: nat)
    requires k <= level <= 3 && Off(level, v) == 0
    ensures Off(k, v) == 0
    decreases level
  {
    if k < level {
      var q, s := v / Size(level), Size(level - 1);
      assert v == (512 * q) * s;
      assert v % s == 0 by { ModMul(512 * q, s); }
      AlignedDown(level - 1, k, v);
    }
  }

  lemma MultiplesApart(a: nat, b: nat, s: nat)
    requires s > 0 && a % s == 0 && b % s == 0 && a < b
    ensures b - a >= s
  {
    var p, q := a / s, b / s;
    assert a == s * p && b == s * q;
    assert s * (q - p) == b - a;
    assert q - p <= 0 ==> s * (q - p) <= 0;
    assert q - p >= 1 ==> s * (q - p) >= s;
  }

  /** The tables that a walk from level rl has passed, root first. */
  ghost predicate Trail(sp: Space, rl: nat, pt: seq<nat>, b: Page) {
    forall n: int :: LookTrail(n) ==>
      |pt| <= rl + 1 &&
      forall i :: 0 <= i < |pt| ==> Passed(sp, rl - i, pt[i], b)
  }

  ghost predicate Passed(sp: Space, level: nat, table: nat, b: Page) {
    At(level, b) in sp.tab && sp.tab[At(level, b)] == table
  }

  lemma TrailStart(sp: Space, rl: nat, table: nat, b: Page)
    requires At(rl, b) in sp.tab && sp.tab[At(rl, b)] == table
    ensures Trail(sp, rl, [table], b)
  {
  }

  lemma TrailAt(sp: Space, rl: nat, pt: seq<nat>, b: Page, level: nat)
    requires Trail(sp, rl, pt, b) && level <= rl && rl - level < |pt|
    ensures At(level, b) in sp.tab && sp.tab[At(level, b)] == pt[rl - level]
  {
    assert LookTrail(0);
    assert Passed(sp, rl - (rl - level), pt[rl - level], b);
  }

  lemma TrailPush(sp: Space, rl: nat, pt: seq<nat>, b: Page, table: nat)
    requires Trail(sp, rl, pt, b) && |pt| <= rl
    requires At(rl - |pt|, b) in sp.tab && sp.tab[At(rl - |pt|, b)] == table
    ensures Trail(sp, rl, pt + [table], b)
  {
    assert LookTrail(0);
    var q := pt + [table];
    forall i | 0 <= i < |q|
      ensures Passed(sp, rl - i, q[i], b)
    {
      if i < |pt| {
        assert Passed(sp, rl - i, pt[i], b);
      }
    }
  }

  lemma TrailKept(sp: Space, m: Tables, sp': Space, m': Tables, rl: nat, level: nat, pt: seq<nat>, b: Page)
    requires level <= rl <= 2 && |pt| == rl - level + 1 && Trail(sp, rl, pt, b)
    requires Within(sp, b) && SlotLocal(sp, m, sp', m', level, b)
    ensures Trail(sp', rl, pt, b)
  {
    assert LookTrail(0);
    forall i | 0 <= i < |pt|
      ensures Passed(sp', rl - i, pt[i], b)
    {
      assert Passed(sp, rl - i, pt[i], b);
      PathKept(sp, m, sp', m', level, rl - i, b);
    }
  }

  /** Overwriting keeps the tables of the space apart from the dropped one. */
  lemma OverwriteTab(sp: Space, m: Tables, level: nat, b: Page, e: Entry)
    requires MayOverwrite(sp, m, level, b) && (e.Invalid? || GoodLeaf(level, e))
    ensures var sp' := Pruned(sp, m, level, b);
            && sp'.limit == sp.limit && sp'.root == sp.root
            && At(level, b) in sp'.tab && sp'.tab[At(level, b)] == sp.tab[At(level, b)]
            && (forall k: nat :: k <= 2 && At(k, b) !in sp.tab ==> At(k, b) !in sp'.tab)
            && (Get(sp, m, level, b).Next? ==> level > 0 && At(level - 1, b) !in sp'.tab)
  {
    Peek(sp, m, level, b);
  }

  /** Clearing a pointer to an empty table changes no translation. */
  lemma PruneSilent(sp: Space, m: Tables, sp': Space, m': Tables, level: nat, virt: nat)
    requires level <= 2 && Inv(sp, m) && virt < Limit(sp) && At(level, PageOf(virt)) in sp.tab
    requires var e := Get(sp, m, level, PageOf(virt)); e.Next? && Empty(m, e.table)
    requires SlotRemapped(sp, m, sp', m', level, virt, Invalid)
    ensures SameTranslations(sp, m, sp', m')
  {
    forall v: nat | v < Limit(sp)
      ensures Translate(sp', m', v) == Translate(sp, m, v)
    {
      if InSlot(level, virt, v) {
        EmptyUnmapped(sp, m, level, virt, v);
      }
    }
  }

  /** A dropped table is not a table of the space, and stays in memory. */
  lemma DroppedApart(sp: Space, m: Tables, sp': Space, m': Tables, dropped: set<nat>, p: Pos)
    requires Accounts(sp, m, sp', m', dropped)
    ensures p in sp'.tab ==> sp'.tab[p] !in dropped
    ensures forall t :: t in dropped ==> t in m'
  {
    assert LookAccounts(0);
    if p in sp'.tab {
      assert sp'.tab[p] in sp'.tab.Values;
    }
  }

  /** No leaf crosses the address at which the next round of an unmap starts. */
  lemma NextRound(sp: Space, m: Tables, rl: nat, kernel: bool, level: nat, stop: nat, virt: nat, virt': nat)
    requires Inv(sp, m) && virt < Limit(sp) && virt' < Limit(sp)
    requires StoppedAt(sp, m, rl, kernel, level, stop, virt)
    requires virt' == virt - Off(level, virt) + Size(level)
    ensures NoLeafAcross(sp, m, rl, virt')
  {
    InLimit(sp, m, virt);
    InLimit(sp, m, virt');
    forall k: nat | k <= rl && k <= 2 && Get(sp, m, k, PageOf(virt')).Leaf?
      ensures Off(k, virt') == 0
    {
      SlotEnd(level, k, virt);
      if Off(k, virt') != 0 {
        InSlotSame(k, virt, virt');
        SameGet(sp, m, k, PageOf(virt'), PageOf(virt));
        if k > stop {
          Upward(sp, m, stop, k, PageOf(virt));
        }
        assert false;
      }
    }
  }

  /** The end of a slot is aligned to smaller slots; it lies in the same larger slot, unless it is that slot's end. */
  lemma SlotEnd(level: nat, k: nat, virt: nat)
    requires level <= 2 && k <= 2
    ensures var e := virt - Off(level, virt) + Size(level);
            Off(k, e) == 0 || (level < k && InSlot(k, virt, e))
  {
    var s, l := Size(k), Size(level);
    var e := virt - virt % l + l;
    assert e == l * (virt / l + 1);
    ModMul(virt / l + 1, l);
    if k <= level {
      AlignedDown(level, k, e);
    } else {
      var end := virt - virt % s + s;
      assert end == s * (virt / s + 1);
      ModMul(virt / s + 1, s);
      AlignedDown(k, level, end);
      if e > end {
        MultiplesApart(end, e, l);
      }
    }
  }

  lemma RemapThenSame(sp: Space, m: Tables, sp1: Space, m1: Tables, sp2: Space, m2: Tables, level: nat, virt: nat,
                      e: Entry)
    requires level <= 2 && sp1.limit == sp.limit
    requires SlotRemapped(sp, m, sp1, m1, level, virt, e)
    requires SameTranslations(sp1, m1, sp2, m2)
    ensures SlotRemapped(sp, m, sp2, m2, level, virt, e)
  {
    forall v: nat | v < Limit(sp)
      ensures Translate(sp2, m2, v) == Translate(sp1, m1, v)
    {
    }
  }

  lemma TrailPop(sp: Space, m: Tables, sp': Space, m': Tables, rl: nat, level: nat, pt: seq<nat>, b: Page)
    requires level <= rl <= 2 && |pt| == rl - level + 1 && Trail(sp, rl, pt, b)
    requires Within(sp, b) && SlotLocal(sp, m, sp', m', level, b)
    ensures Trail(sp', rl, pt, b) && Trail(sp', rl, pt[..|pt| - 1], b)
  {
    TrailKept(sp, m, sp', m', rl, level, pt, b);
    assert LookTrail(0);
    var q := pt[..|pt| - 1];
    forall i | 0 <= i < |q|
      ensures Passed(sp', rl - i, q[i], b)
    {
      assert Passed(sp', rl - i, pt[i], b);
    }
  }

  /** Releasing dropped tables changes nothing that the space sees. */
  lemma ReleaseKeeps(sp0: Space, m0: Tables, sp: Space, m: Tables, m': Tables, dropped: set<nat>)
    requires Inv(sp, m) && Accounts(sp0, m0, sp, m, dropped)
    requires m' == m - dropped
    ensures Inv(sp, m') && Accounts(sp0, m0, sp, m', {})
    ensures SameTranslations(sp, m, sp, m')
    ensures forall k: nat, a :: Get(sp, m', k, a) == Get(sp, m, k, a)
    ensures forall p :: p in sp.tab ==> (Empty(m', sp.tab[p]) <==> Empty(m, sp.tab[p]))
  {
    assert LookInv(0) && LookAccounts(0);
    forall p | p in sp.tab
      ensures sp.tab[p] in m' && m'[sp.tab[p]] == m[sp.tab[p]]
    {
      assert sp.tab[p] in sp.tab.Values;
    }
    Frame(sp, m, m');
    forall v: nat | v < Limit(sp)
      ensures Translate(sp, m', v) == Translate(sp, m, v)
    {
      InLimit(sp, m, v);
    }
  }

  /** The relations to an earlier state only look at the entries of the space. */
  lemma SameView(sp0: Space, m0: Tables, sp: Space, m: Tables, m': Tables, level: nat, b: Page, lo: nat, hi: nat)
    requires forall k: nat, a :: Get(sp, m', k, a) == Get(sp, m, k, a)
    requires SlotLocal(sp0, m0, sp, m, level, b) && RangeKept(sp0, m0, sp, m, lo, hi)
    ensures SlotLocal(sp0, m0, sp, m', level, b) && RangeKept(sp0, m0, sp, m', lo, hi)
  {
    assert LookLocal(0);
    forall k: nat, a | k <= 2 && Within(sp0, a) && !(k <= level && Same(level, a, b))
      ensures EntrySame(sp0, m0, sp, m', k, a)
    {
      assert EntrySame(sp0, m0, sp, m, k, a);
    }
  }

  lemma ClearedKept(sp: Space, m: Tables, sp': Space, m': Tables, rl: nat, kernel: bool, lo: nat, hi: nat)
    requires rl <= 2 && sp'.limit == sp.limit
    requires Cleared(sp, m, rl, kernel, lo, hi) && RangeKept(sp, m, sp', m', lo, hi)
    ensures Cleared(sp', m', rl, kernel, lo, hi)
  {
    assert LookKept(0);
  }

  lemma ClearedRound(sp: Space, m: Tables, rl: nat, kernel: bool, level: nat, stop: nat, lo: nat, virt: nat, hi: nat)
    requires Inv(sp, m) && virt < Limit(sp) && virt % PAGE_SIZE == 0 && lo <= virt && rl <= 2
    requires StoppedAt(sp, m, rl, kernel, level, stop, virt)
    requires Cleared(sp, m, rl, kernel, lo, virt)
    requires hi <= virt - Off(level, virt) + Size(level)
    ensures Cleared(sp, m, rl, kernel, lo, hi)
  {
    forall k: nat, a | k <= rl && Within(sp, a) && SlotWithin(k, a, lo, hi) && At(k, a) in sp.tab
      ensures Get(sp, m, k, a).Invalid? || (k == 2 && kernel && Base(k, a) >= USER_END && Get(sp, m, k, a).Next?)
    {
      ClearedStep(sp, m, rl, kernel, level, stop, lo, virt, k, a);
    }
  }

  lemma ClearedNothing(sp: Space, m: Tables, rl: nat, kernel: bool, lo: nat)
    ensures Cleared(sp, m, rl, kernel, lo, lo)
  {
  }

  /** All addresses of the table of virt use that table. */
  lemma SameTable(rl: nat, virt: nat, v: nat)
    requires rl <= 2 && virt < VA_END && v < VA_END
    requires TableBase(rl, virt) <= v < TableBase(rl, virt) + Size(rl + 1)
    ensures At(rl, PageOf(v)) == At(rl, PageOf(virt))
  {
    if rl < 2 {
      InSlotSame(rl + 1, virt, v);
      SlotFacts(rl + 1, v);
      SlotFacts(rl + 1, virt);
    }
  }

  lemma SubtreeTable(sp: Space, m: Tables, sp': Space, m': Tables, level: nat, b: Page)
    requires SubtreeLocal(sp, m, sp', m', level, b) && At(level, b) in sp.tab
    ensures sp'.limit == sp.limit && At(level, b) in sp'.tab && sp'.tab[At(level, b)] == sp.tab[At(level, b)]
  {
    assert LookLocal(0);
  }

  lemma AlignedNoLeaf(sp: Space, m: Tables, rl: nat, virt: nat)
    requires rl <= 2 && Off(rl, virt) == 0
    ensures NoLeafAcross(sp, m, rl, virt)
  {
    forall k: nat | k <= rl
      ensures Off(k, virt) == 0
    {
      AlignedDown(rl, k, virt);
    }
  }

  /** Everything in [lo, hi) is unmapped and every other address keeps its translation. */
  ghost predicate Unmaps(sp: Space, m: Tables, sp': Space, m': Tables, lo: nat, hi: nat) {
    forall v: nat :: v < Limit(sp) ==>
      Translate(sp', m', v) == if lo <= v < hi then Unmapped else Translate(sp, m, v)
  }

  /** Everything in [lo, hi) is mapped to phys onwards and every other address keeps its translation. */
  ghost predicate Maps(sp: Space, m: Tables, sp': Space, m': Tables, lo: nat, hi: nat, phys: nat, flags: nat) {
    forall v: nat :: v < Limit(sp) ==>
      Translate(sp', m', v) == if lo <= v < hi then Mapped(phys + (v - lo), flags) else Translate(sp, m, v)
  }

  lemma SlotLocalSame(sp: Space, m: Tables, sp': Space, m': Tables, level: nat, b: Page, c: Page)
    requires level <= 2 && Within(sp, b) && Within(sp, c) && Same(level, b, c)
    requires SlotLocal(sp, m, sp', m', level, b)
    ensures SlotLocal(sp, m, sp', m', level, c)
  {
    assert LookLocal(0);
    forall k: nat, a | k <= 2 && Within(sp, a) && !(k <= level && Same(level, a, c))
      ensures EntrySame(sp, m, sp', m', k, a)
    {
      assert !(k <= level && Same(level, a, b));
    }
  }

  /** Root entries of the kernel half that point to a table stay. */
  ghost predicate NextKept(sp: Space, m: Tables, sp': Space, m': Tables) {
    forall n: int :: LookNext(n) ==>
      && sp'.limit == sp.limit
      && forall a :: Within(sp, a) && a.i2 >= 256 && Get(sp, m, 2, a).Next? ==> Get(sp', m', 2, a) == Get(sp, m, 2, a)
  }

  ghost predicate LookNext(n: int) {
    true
  }

  lemma NextKeptTrans(sp: Space, m: Tables, sp1: Space, m1: Tables, sp2: Space, m2: Tables)
    requires NextKept(sp, m, sp1, m1) && NextKept(sp1, m1, sp2, m2)
    ensures NextKept(sp, m, sp2, m2)
  {
    assert LookNext(0);
  }

  /** A change below a slot keeps the pointers of the root, if it keeps the one of that slot. */
  lemma SlotLocalNext(sp: Space, m: Tables, sp': Space, m': Tables, level: nat, b: Page)
    requires level <= 2 && Within(sp, b) && SlotLocal(sp, m, sp', m', level, b)
    requires level == 2 && b.i2 >= 256 && Get(sp, m, 2, b).Next? ==> Get(sp', m', 2, b) == Get(sp, m, 2, b)
    ensures NextKept(sp, m, sp', m')
  {
    assert LookLocal(0);
    forall a | Within(sp, a) && a.i2 >= 256 && Get(sp, m, 2, a).Next?
      ensures Get(sp', m', 2, a) == Get(sp, m, 2, a)
    {
      if level == 2 && Same(2, a, b) {
        SameGet(sp, m, 2, a, b);
        SameGet(sp', m', 2, a, b);
      } else {
        assert EntrySame(sp, m, sp', m', 2, a);
      }
    }
  }

  /** After unmapping exactly one slot, its entry may be overwritten by a leaf. */
  lemma ClearedSlot(sp: Space, m: Tables, level: nat, kernel: bool, virt: nat)
    requires level <= 2 && Inv(sp, m) && virt < Limit(sp) && At(level, PageOf(virt)) in sp.tab && Off(level, virt) == 0
    requires Cleared(sp, m, level, kernel, virt, virt + Size(level))
    ensures MayOverwrite(sp, m, level, PageOf(virt))
    ensures Get(sp, m, level, PageOf(virt)).Next? ==> level == 2 && kernel && virt >= USER_END
  {
    var b := PageOf(virt);
    InLimit(sp, m, virt);
    SlotFacts(level, virt);
    assert LookCleared(0);
    Peek(sp, m, level, b);
    if Get(sp, m, level, b).Next? {
      var t := Get(sp, m, level, b).table;
      Peek(sp, m, level - 1, b);
      forall i | 0 <= i < PTES_PER_PT
        ensures m[t][i].Invalid?
      {
        var c := b.(i1 := i);
        assert Get(sp, m, 1, c) == m[t][i];
        SlotsNest(1, 2, c);
      }
    }
  }

  /** One more leaf extends what is mapped so far. */
  lemma MapsMore(sp0: Space, m0: Tables, sp1: Space, m1: Tables, sp: Space, m: Tables,
                 lo: nat, virt: nat, phys0: nat, flags: nat, level: nat)
    requires level <= 2 && lo <= virt && Off(level, virt) == 0 && sp1.limit == sp0.limit
    requires Maps(sp0, m0, sp1, m1, lo, virt, phys0, flags)
    requires SlotRemapped(sp1, m1, sp, m, level, virt, Leaf(phys0 + (virt - lo), flags))
    ensures Maps(sp0, m0, sp, m, lo, virt + Size(level), phys0, flags)
  {
    forall v: nat | v < Limit(sp0)
      ensures Translate(sp, m, v) == if lo <= v < virt + Size(level) then Mapped(phys0 + (v - lo), flags)
              else Translate(sp0, m0, v)
    {
      assert v < Limit(sp1);
      if InSlot(level, virt, v) {
        OffFrom(level, virt, v);
      }
    }
  }

  lemma OffFrom(level: nat, virt: nat, v: nat)
    requires level <= 2 && Off(level, virt) == 0 && virt <= v < virt + Size(level)
    ensures Off(level, v) == v - virt
  {
    ModFrom(virt, v, Size(level));
  }

  lemma ModFrom(a: nat, v: nat, s: nat)
    requires s > 0 && a % s == 0 && a <= v < a + s
    ensures v % s == v - a
  {
    var p, q := a / s, v / s;
    if q < p {
      TimesUp(s, q + 1, p);
    } else if q > p {
      TimesUp(s, p + 1, q);
    }
  }

  /** The start of a slot. */
  lemma SlotStart(level: nat, v: nat)
    requires level <= 3
    ensures Off(level, v - Off(level, v)) == 0
  {
    var s := Size(level);
    assert v - v % s == v / s * s;
    ModMul(v / s, s);
  }

  lemma OffAdd(level: nat, k: nat, x: nat)
    requires level <= 2 && k <= level && Off(level, x) == 0
    ensures Off(k, x + Size(level)) == 0
  {
    NextMultiple(level, x);
    AlignedDown(level, k, x + Size(level));
  }

  lemma NextMultiple(level: nat, a: nat)
    requires level <= 3 && Off(level, a) == 0
    ensures Off(level, a + Size(level)) == 0
  {
    var s, q := Size(level), a / Size(level);
    assert a + s == (q + 1) * s;
    ModMul(q + 1, s);
  }
}
