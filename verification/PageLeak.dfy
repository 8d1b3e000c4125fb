/** Runs that end badly: a table that a huge page makes the kernel root lose, and a split that nothing flushes. */
module PageLeak {
  import opened Basics
  import opened Sv39
  import opened PageTree
  import opened PageRange
  import opened PageSteps
  import opened PageRoot
  import opened Paging

  /** The first root entry of the kernel half */
  const BASE: nat := 256 * ROOT_SLOT

  lemma Filled(m0: Tables, sp: Space, m: Tables)
    requires Empty(m0, 0) && Inv(sp, m)
    requires Accounts(Space(0, PTES_PER_PT, map[Root := 0]), m0, sp, m, {})
    requires Populated(Space(0, PTES_PER_PT, map[Root := 0]), m0, sp, m, 256, 257)
    ensures sp.root == 0 && sp.limit == PTES_PER_PT && Leaks(sp, m, BASE, BASE + ROOT_SLOT) != {}
  {
    assert LookAccounts(0) && LookNext(0);
    assert RootEntry(Space(0, PTES_PER_PT, map[Root := 0]), m0, 256).Invalid?;
    assert RootEntry(sp, m, 256).table in Leaks(sp, m, BASE, BASE + ROOT_SLOT);
  }

  lemma Numbers()
    ensures PageUp(ROOT_SLOT) == Size(2) && PageDown(BASE) == BASE && PageDown(0) == 0 && PageUp(ROOT_SLOT) == ROOT_SLOT
    ensures Leafable(2, 0, BASE, ROOT_SLOT, true) && RootLeaves(2, 0, BASE, true)
  {
  }

  /** A new kernel root, with a slot of the kernel half filled in advance */
  method Prepare() returns (tables: PageTables, ghost sp: Space)
    ensures tables.Good(sp) && tables.held.stale == {} && tables.kernelRoot == sp.root == 0 && sp.limit == PTES_PER_PT
    ensures Leaks(sp, tables.tables, BASE, BASE + ROOT_SLOT) != {} && fresh(tables)
  {
    tables := new PageTables(0, {4096}, {});
    ghost var sp0, m0 := Space(0, PTES_PER_PT, map[Root := 0]), tables.tables;
    var ok;
    ok, sp := tables.Prealloc(0, BASE, ROOT_SLOT, sp0);
    Filled(m0, sp, tables.tables);
  }

  /**
   A slot of the kernel half is filled with an empty table in advance, as for ioremap, and then
   1 GiB is mapped there: the table is no longer linked from anywhere, and not free either.
   */
  method TableLost(flags: nat) returns (tables: PageTables, ok: bool, ghost sp: Space, ghost lost: set<nat>)
    requires AccessFlags(flags)
    ensures ok && tables.Good(sp) && sp.root == tables.kernelRoot
    ensures lost != {} && lost <= tables.tables.Keys && lost !! sp.tab.Values && lost !! tables.free
  {
    tables, sp := Prepare();
    ghost var sp1, m1 := sp, tables.tables;
    Numbers();
    RootRange(sp, tables.tables, BASE, ROOT_SLOT);
    ok, sp, lost := tables.Create(2, 0, 0, ROOT_SLOT, BASE, flags, true, Local, sp);
    Unowned(sp1, m1, sp, tables, lost);
  }

  lemma FirstLeaf(m: Tables, m': Tables, flags: nat)
    requires Empty(m, 0) && AccessFlags(flags) && Inv(Space(0, PTES_PER_PT, map[Root := 0]), m)
    requires m' == Overwritten(Space(0, PTES_PER_PT, map[Root := 0]), m, 2, BASE, Leaf(0, flags))
    ensures var sp := Space(0, PTES_PER_PT, map[Root := 0]);
            Inv(sp, m') && Rooted(sp, 2, 0, BASE) && Get(sp, m', 2, PageOf(BASE)) == Leaf(0, flags)
  {
    var sp := Space(0, PTES_PER_PT, map[Root := 0]);
    Numbers();
    RootRange(sp, m, BASE, ROOT_SLOT);
    OverwriteInv(sp, m, 2, PageOf(BASE), Leaf(0, flags));
  }

  /**
   A 1 GiB page in the kernel half, one free page, and the split that unmapping a part of it starts
   with: it takes the page for a table, fails for the next one, and returns without a flush.
   */
  method SplitUnflushed(flags: nat) returns (tables: PageTables, ok: bool, ghost sp: Space)
    requires AccessFlags(flags)
    ensures !ok && tables.Good(sp) && tables.Live(sp.root) && Slot(2, BASE) in tables.held.gone
  {
    tables := new PageTables(0, {4096}, {});
    sp := Space(0, PTES_PER_PT, map[Root := 0]);
    ghost var m0 := tables.tables;
    Numbers();
    RootRange(sp, m0, BASE, ROOT_SLOT);
    var _ := tables.SetLeaf(2, 0, 0, BASE, flags, sp);
    FirstLeaf(m0, tables.tables, flags);
    ghost var sp1, m1 := sp, tables.tables;
    ok, sp := tables.Split(2, 0, BASE, false, Local, sp);
    SameRoot(sp1, m1, sp, tables.tables, {});
  }

  lemma Unowned(sp0: Space, m0: Tables, sp: Space, tables: PageTables, lost: set<nat>)
    requires tables.Valid() && Accounts(sp0, m0, sp, tables.tables, lost)
    ensures lost <= tables.tables.Keys && lost !! sp.tab.Values && lost !! tables.free && sp.root == sp0.root
  {
    assert LookAccounts(0) && LookValid(0);
  }
}
