/** Tables that hold something: what reclaiming emptied tables is for. */
module PageFull {
  import opened Sv39
  import opened PageTree
  import opened PageRange
  import opened PageSteps

  ghost predicate LookFull(n: int) {
    true
  }

  /** A table below the root in the kernel half. */
  ghost predicate KernelMid(p: Pos) {
    p.Mid? && p.i2 * Size(2) >= USER_END
  }

  /** The table translates the page at this level or above. */
  ghost predicate OnPath(p: Pos, level: nat, b: Page) {
    (level <= 1 && p == At(1, b)) || (level == 0 && p == At(0, b))
  }

  ghost predicate Holding(sp: Space, m: Tables, p: Pos)
    requires p in sp.tab
  {
    !Empty(m, sp.tab[p])
  }

  /**
   Every table below the root holds an entry, except those that translate b at the level or above,
   and except the tables right below the kernel root's kernel half, which stay for good.
   */
  ghost predicate Full(sp: Space, m: Tables, kernel: bool, level: nat, b: Page) {
    forall n: int :: LookFull(n) ==>
      forall p {:trigger Holding(sp, m, p)} ::
        p in sp.tab && p != Root && !(kernel && KernelMid(p)) && !OnPath(p, level, b) ==>
          Holding(sp, m, p)
  }

  /** No table is left empty. */
  ghost predicate NoEmpty(sp: Space, m: Tables, kernel: bool) {
    Full(sp, m, kernel, 2, Page(0, 0, 0))
  }

  lemma FullAt(sp: Space, m: Tables, kernel: bool, level: nat, b: Page, p: Pos)
    requires Full(sp, m, kernel, level, b) && p in sp.tab && p != Root && !(kernel && KernelMid(p))
             && !OnPath(p, level, b)
    ensures Holding(sp, m, p)
  {
    assert LookFull(0);
  }

  /** Fewer exceptions say more. */
  lemma FullLess(sp: Space, m: Tables, kernel: bool, level: nat, b: Page, level': nat, b': Page)
    requires Full(sp, m, kernel, level, b) && (level >= 2 || (level' <= level && At(level, b) == At(level, b')))
    ensures Full(sp, m, kernel, level', b')
  {
    assert LookFull(0);
  }

  /** A valid entry of a table that is on the way. */
  lemma HoldsEntry(sp: Space, m: Tables, level: nat, a: Page)
    requires Inv(sp, m) && level <= 2 && Within(sp, a) && At(level, a) in sp.tab && !Get(sp, m, level, a).Invalid?
    ensures Holding(sp, m, At(level, a))
  {
    Peek(sp, m, level, a);
    assert m[sp.tab[At(level, a)]][Ix(level, a)] == Get(sp, m, level, a);
  }

  /** A table above one that is there holds the pointer to it. */
  lemma HoldsAbove(sp: Space, m: Tables, k: nat, level: nat, a: Page)
    requires Inv(sp, m) && k < level <= 2 && Within(sp, a) && At(k, a) in sp.tab
    ensures At(level, a) in sp.tab && Holding(sp, m, At(level, a))
  {
    Upward(sp, m, k, level, a);
    HoldsEntry(sp, m, level, a);
  }

  /** If the entry at the level is valid, the exceptions on the way to it are none. */
  lemma FullUp(sp: Space, m: Tables, kernel: bool, level: nat, b: Page)
    requires Inv(sp, m) && level <= 2 && Within(sp, b) && At(level, b) in sp.tab && !Get(sp, m, level, b).Invalid?
    requires Full(sp, m, kernel, level, b)
    ensures Full(sp, m, kernel, 2, b)
  {
    HoldsEntry(sp, m, level, b);
    if level == 0 {
      HoldsAbove(sp, m, 0, 1, b);
    }
    assert LookFull(0);
  }

  /** The page whose table at level k is at the position. */
  ghost function PageAt(p: Pos): (a: Page) {
    match p
    case Root => Page(0, 0, 0)
    case Mid(i2) => Page(i2, 0, 0)
    case Low(i2, i1) => Page(i2, i1, 0)
  }

  ghost function LevelOf(p: Pos): (k: nat) {
    match p case Root => 2 case Mid(_) => 1 case Low(_, _) => 0
  }

  ghost function WithIx(k: nat, a: Page, i: nat): (c: Page) {
    if k >= 2 then a.(i2 := i) else if k == 1 then a.(i1 := i) else a.(i0 := i)
  }

  /** The entries of a table, by pages. */
  lemma EntryOf(sp: Space, m: Tables, p: Pos, i: nat)
    requires Inv(sp, m) && p in sp.tab && p != Root && i < PTES_PER_PT
    ensures var c := WithIx(LevelOf(p), PageAt(p), i);
            && Within(sp, c) && At(LevelOf(p), c) == p && Holds(m, sp.tab[p])
            && Get(sp, m, LevelOf(p), c) == m[sp.tab[p]][i]
  {
    assert LookInv(0);
    assert PosOk(sp, p);
  }

  /** A table that is not on the way to b keeps what it holds when only that way changes. */
  lemma HoldingKept(sp: Space, m: Tables, sp': Space, m': Tables, b: Page, p: Pos)
    requires Inv(sp, m) && Inv(sp', m') && PathOnly(sp, m, sp', m', b) && p in sp'.tab && p != Root
             && p != At(LevelOf(p), b)
    ensures p in sp.tab && (Holding(sp, m, p) ==> Holding(sp', m', p))
  {
    assert LookKept(0);
    EntryOf(sp', m', p, 0);
    if Holding(sp, m, p) {
      EntryOf(sp, m, p, 0);
      var i :| 0 <= i < PTES_PER_PT && !m[sp.tab[p]][i].Invalid?;
      EntryOf(sp, m, p, i);
      EntryOf(sp', m', p, i);
      assert m'[sp'.tab[p]][i] == m[sp.tab[p]][i];
    }
  }

  /** A change on the way to b alone, after which the tables on that way hold something. */
  lemma FullPathOnly(sp: Space, m: Tables, sp': Space, m': Tables, kernel: bool, level: nat, b: Page)
    requires Inv(sp, m) && Inv(sp', m') && PathOnly(sp, m, sp', m', b) && Full(sp, m, kernel, level, b)
    requires forall k: nat :: k < level && k < 2 && At(k, b) in sp'.tab ==>
             Holding(sp', m', At(k, b)) || (kernel && KernelMid(At(k, b)))
    ensures Full(sp', m', kernel, level, b)
  {
    forall p | p in sp'.tab && p != Root && !(kernel && KernelMid(p)) && !OnPath(p, level, b)
      ensures Holding(sp', m', p)
    {
      if p != At(LevelOf(p), b) {
        HoldingKept(sp, m, sp', m', b, p);
        FullAt(sp, m, kernel, level, b, p);
      }
    }
  }

  /** A new table is the one more exception. */
  lemma FullGrow(sp: Space, m: Tables, kernel: bool, level: nat, virt: nat, table: nat)
    requires MayGrow(sp, m, level, virt, table) && Full(sp, m, kernel, level, PageOf(virt))
    ensures Full(Grown(sp, level, PageOf(virt), table), LinkedTo(sp, m, level, virt, table), kernel, level - 1,
                 PageOf(virt))
  {
    var b := PageOf(virt);
    var sp', m' := Grown(sp, level, b, table), LinkedTo(sp, m, level, virt, table);
    GrowTranslate(sp, m, level, virt, table);
    forall p | p in sp'.tab && p != Root && !(kernel && KernelMid(p)) && !OnPath(p, level - 1, b)
      ensures Holding(sp', m', p)
    {
      assert p in sp.tab && sp'.tab[p] == sp.tab[p] && p != At(level, b);
      FullAt(sp, m, kernel, level, b, p);
      assert LookInv(0);
      assert sp.tab[p] != sp.tab[At(level, b)] && sp.tab[p] != table;
      assert m'[sp.tab[p]] == m[sp.tab[p]];
    }
  }

  /** A leaf takes the place of an entry, and of the empty table below it. */
  lemma FullLeaf(sp: Space, m: Tables, kernel: bool, level: nat, virt: nat, e: Entry)
    requires virt < Limit(sp) && MayOverwrite(sp, m, level, PageOf(virt)) && GoodLeaf(level, e)
             && Within(sp, PageOf(virt))
    requires Full(sp, m, kernel, level, PageOf(virt))
    ensures Full(Pruned(sp, m, level, PageOf(virt)), Overwritten(sp, m, level, virt, e), kernel, 2, PageOf(virt))
  {
    var b := PageOf(virt);
    var sp', m' := Pruned(sp, m, level, b), Overwritten(sp, m, level, virt, e);
    OverwriteInv(sp, m, level, b, e);
    OverwriteLocal(sp, m, level, virt, e);
    OverwritePathOnly(sp, m, level, virt, e);
    forall k: nat | k < level && k < 2
      ensures At(k, b) !in sp'.tab
    {
      if At(k, b) in sp'.tab {
        Upward(sp', m', k, level, b);
      }
    }
    FullPathOnly(sp, m, sp', m', kernel, level, b);
    assert LookLocal(0);
    FullUp(sp', m', kernel, level, b);
  }

  /** Where the walk up stopped, no empty table is left on the way. */
  lemma FullStopped(sp: Space, m: Tables, sp': Space, m': Tables, kernel: bool, rl: nat, sub: bool, level: nat,
                    stop: nat, virt: nat)
    requires Inv(sp, m) && Inv(sp', m') && virt < Limit(sp') && PathOnly(sp, m, sp', m', PageOf(virt))
             && (sub ==> kernel)
    requires StoppedAt(sp', m', rl, sub, level, stop, virt) && Full(sp, m, kernel, rl, PageOf(virt))
    ensures Full(sp', m', kernel, rl, PageOf(virt))
  {
    var b := PageOf(virt);
    InLimit(sp', m', virt);
    forall k: nat | k < rl && k < 2 && At(k, b) in sp'.tab
      ensures Holding(sp', m', At(k, b)) || (kernel && KernelMid(At(k, b)))
    {
      if k < stop {
        Upward(sp', m', k, stop, b);
      } else if k > stop {
        HoldsAbove(sp', m', stop, k, b);
      } else if virt >= USER_END {
        SlotFacts(2, virt);
        Digits(virt);
      }
    }
    FullPathOnly(sp, m, sp', m', kernel, rl, b);
  }

  /** Pages that are not tables of the space do not matter. */
  lemma FullFrame(sp: Space, m: Tables, m': Tables, kernel: bool, level: nat, b: Page)
    requires Inv(sp, m) && Full(sp, m, kernel, level, b)
    requires forall p :: p in sp.tab ==> sp.tab[p] in m && sp.tab[p] in m' && m'[sp.tab[p]] == m[sp.tab[p]]
    ensures Full(sp, m', kernel, level, b)
  {
    assert LookInv(0);
    forall p | p in sp.tab && p != Root && !(kernel && KernelMid(p)) && !OnPath(p, level, b)
      ensures Holding(sp, m', p)
    {
      FullAt(sp, m, kernel, level, b, p);
    }
  }

  /** A space without empty tables that translates nothing is its root alone. */
  lemma NothingLeft(sp: Space, m: Tables)
    requires Inv(sp, m) && NoEmpty(sp, m, false) && forall v: nat :: v < Limit(sp) ==> Translate(sp, m, v) == Unmapped
    ensures sp.tab == map[Root := sp.root]
  {
    forall p | p in sp.tab
      ensures p == Root
    {
      if p.Low? {
        NoLow(sp, m, p);
      } else if p.Mid? {
        NoMid(sp, m, p);
      }
    }
    assert LookInv(0);
  }

  lemma NoLow(sp: Space, m: Tables, p: Pos)
    requires Inv(sp, m) && NoEmpty(sp, m, false) && p in sp.tab && p.Low?
    ensures exists v: nat :: v < Limit(sp) && Translate(sp, m, v) != Unmapped
  {
    FullAt(sp, m, false, 2, Page(0, 0, 0), p);
    EntryOf(sp, m, p, 0);
    var i :| 0 <= i < PTES_PER_PT && !m[sp.tab[p]][i].Invalid?;
    EntryOf(sp, m, p, i);
    LeafTranslates(sp, m, 0, WithIx(0, PageAt(p), i));
  }

  lemma NoMid(sp: Space, m: Tables, p: Pos)
    requires Inv(sp, m) && NoEmpty(sp, m, false) && p in sp.tab && p.Mid?
    ensures exists v: nat :: v < Limit(sp) && Translate(sp, m, v) != Unmapped
  {
    FullAt(sp, m, false, 2, Page(0, 0, 0), p);
    EntryOf(sp, m, p, 0);
    var i :| 0 <= i < PTES_PER_PT && !m[sp.tab[p]][i].Invalid?;
    EntryOf(sp, m, p, i);
    var c := WithIx(1, PageAt(p), i);
    Peek(sp, m, 1, c);
    if Get(sp, m, 1, c).Next? {
      NoLow(sp, m, At(0, c));
    } else {
      LeafTranslates(sp, m, 1, c);
    }
  }

  /** A leaf translates the first address of its slot. */
  lemma LeafTranslates(sp: Space, m: Tables, level: nat, c: Page)
    requires Inv(sp, m) && level <= 1 && Within(sp, c) && At(level, c) in sp.tab && !Get(sp, m, level, c).Invalid?
    requires level == 1 ==> Get(sp, m, level, c).Leaf?
    ensures exists v: nat :: v < Limit(sp) && Translate(sp, m, v) != Unmapped
  {
    var v := Base(level, c);
    Peek(sp, m, level, c);
    SlotOf(level, c, v);
    InSlotPage(sp, m, level, c, v);
    Path(sp, m, level, PageOf(v));
    assert Translate(sp, m, v) != Unmapped;
  }

  lemma InSlotPage(sp: Space, m: Tables, level: nat, c: Page, v: nat)
    requires Inv(sp, m) && level <= 1 && Within(sp, c) && v == Base(level, c)
    ensures v < Limit(sp) && Within(sp, PageOf(v)) && Same(level, PageOf(v), c)
    ensures At(level, PageOf(v)) == At(level, c) && Get(sp, m, level, PageOf(v)) == Get(sp, m, level, c)
  {
    assert LookInv(0);
    SlotOf(level, c, v);
    Digits(v);
    SameGet(sp, m, level, PageOf(v), c);
  }

  /** Released pages are no tables of the space. */
  lemma FullRelease(sp: Space, m: Tables, m': Tables, freed: set<nat>, kernel: bool, level: nat, b: Page)
    requires Inv(sp, m) && Inv(sp, m') && m' == m - freed && Full(sp, m, kernel, level, b)
    ensures Full(sp, m', kernel, level, b)
  {
    assert LookInv(0);
    FullFrame(sp, m, m', kernel, level, b);
  }
}
