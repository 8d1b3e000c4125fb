/**
 A page-table tree in memory: what the hardware walker sees, and the ownership invariant
 that every page-table operation keeps (sections 4.3.2 and 4.4 of the RISC-V Privileged
 Architecture, version 20211203).

 This module is about entries and positions only; addresses as numbers come in PageRange.
 */
module PageTree {
  import opened Sv39

  /** A definition that is guarded by one of these unfolds only in proofs that mention the guard. */
  ghost predicate LookInv(n: int) {
    true
  }

  /** Table pages by physical address, each entry as the walker decodes it. */
  type Tables = map<nat, seq<Entry>>

  /** A virtual page by its three nine-bit page numbers, the root index first. */
  datatype Page = Page(i2: nat, i1: nat, i0: nat)

  ghost predicate IsPage(a: Page) {
    a.i2 < PTES_PER_PT && a.i1 < PTES_PER_PT && a.i0 < PTES_PER_PT
  }

  ghost function Ix(level: nat, a: Page): (i: nat) {
    if level >= 2 then a.i2 else if level == 1 then a.i1 else a.i0
  }

  /** Two pages lie in the same slot of a level: their walks use the same entry there. */
  ghost predicate Same(level: nat, a: Page, b: Page) {
    a.i2 == b.i2 && (level <= 1 ==> a.i1 == b.i1) && (level == 0 ==> a.i0 == b.i0)
  }

  /** Where a table sits in the tree. */
  datatype Pos = Root | Mid(i2: nat) | Low(i2: nat, i1: nat)

  /** The position of the table that translates a page at a level. */
  ghost function At(level: nat, a: Page): (p: Pos) {
    if level >= 2 then Root else if level == 1 then Mid(a.i2) else Low(a.i2, a.i1)
  }

  datatype Hit = Fault | Hit(level: nat, phys: nat, flags: nat)

  ghost predicate Holds(m: Tables, table: nat) {
    table in m && |m[table]| == PTES_PER_PT
  }

  /** The hardware walk down to a leaf entry; a pointer at level 0 faults. */
  ghost function Walk(m: Tables, table: nat, level: nat, a: Page): (r: Hit)
    decreases level
  {
    if !Holds(m, table) || !IsPage(a) then Fault
    else
      match m[table][Ix(level, a)]
      case Invalid => Fault
      case Leaf(phys, flags) => Hit(level, phys, flags)
      case Next(child) => if level == 0 then Fault else Walk(m, child, level - 1, a)
  }

  /** The tables that a root owns for its root entries below `limit`, by position. */
  datatype Space = Space(root: nat, limit: nat, tab: map<Pos, nat>)

  ghost predicate Within(sp: Space, a: Page) {
    IsPage(a) && a.i2 < sp.limit
  }

  /** The entry that a space uses for a page at a level. */
  ghost function Get(sp: Space, m: Tables, level: nat, a: Page): (e: Entry) {
    if At(level, a) in sp.tab && Holds(m, sp.tab[At(level, a)]) && IsPage(a)
    then m[sp.tab[At(level, a)]][Ix(level, a)]
    else Invalid
  }

  ghost predicate PosOk(sp: Space, p: Pos) {
    match p
    case Root => true
    case Mid(i2) => i2 < sp.limit
    case Low(i2, i1) => i2 < sp.limit && i1 < PTES_PER_PT
  }

  ghost predicate TablesOk(sp: Space, m: Tables) {
    && sp.limit <= PTES_PER_PT
    && Root in sp.tab && sp.tab[Root] == sp.root
    && forall p :: p in sp.tab ==> PosOk(sp, p) && Holds(m, sp.tab[p])
  }

  ghost predicate Injective(tab: map<Pos, nat>) {
    forall p, q :: p in tab && q in tab && tab[p] == tab[q] ==> p == q
  }

  ghost predicate GoodLeaf(level: nat, e: Entry) {
    level <= 2 && e.Leaf? && Off(level, e.phys) == 0 && e.phys < PHYS_END
  }

  ghost predicate EntryOk(sp: Space, m: Tables, level: nat, a: Page) {
    var e := Get(sp, m, level, a);
    && (e.Leaf? ==> GoodLeaf(level, e))
    && (e.Next? ==> level > 0 && At(level - 1, a) in sp.tab && sp.tab[At(level - 1, a)] == e.table)
  }

  ghost predicate EntriesOk(sp: Space, m: Tables) {
    forall level: nat, a :: level <= 2 && Within(sp, a) ==> EntryOk(sp, m, level, a)
  }

  ghost predicate LinksOk(sp: Space, m: Tables) {
    forall level: nat, a :: level <= 1 && Within(sp, a) && At(level, a) in sp.tab ==>
      At(level + 1, a) in sp.tab && Get(sp, m, level + 1, a) == Next(sp.tab[At(level, a)])
  }

  /**
   The tables of a space form a tree: no table sits at two positions, every pointer leads to
   the table at its own position, and every table below the root is linked from its parent.
   */
  ghost predicate Inv(sp: Space, m: Tables) {
    forall n: int :: LookInv(n) ==> TablesOk(sp, m) && Injective(sp.tab) && EntriesOk(sp, m) && LinksOk(sp, m)
  }

  ghost function Lookup(sp: Space, m: Tables, a: Page): (r: Hit) {
    Walk(m, sp.root, 2, a)
  }

  ghost function Store(m: Tables, table: nat, i: nat, e: Entry): (m': Tables) {
    if Holds(m, table) && i < PTES_PER_PT then m[table := m[table][i := e]] else m
  }

  ghost predicate Empty(m: Tables, table: nat) {
    Holds(m, table) && forall i :: 0 <= i < PTES_PER_PT ==> m[table][i].Invalid?
  }

  /** What the invariant says about the table and the entry of one page. */
  lemma Peek(sp: Space, m: Tables, level: nat, a: Page)
    requires Inv(sp, m) && level <= 2 && Within(sp, a)
    ensures sp.limit <= PTES_PER_PT && Root in sp.tab && sp.tab[Root] == sp.root
    ensures At(level, a) in sp.tab ==> Holds(m, sp.tab[At(level, a)])
    ensures EntryOk(sp, m, level, a)
    ensures At(level, a) in sp.tab && level < 2 ==>
              At(level + 1, a) in sp.tab && Get(sp, m, level + 1, a) == Next(sp.tab[At(level, a)])
  {
    assert LookInv(0);
  }

  /** The walk from the root reaches every table that translates the page. */
  lemma {:induction false} Path(sp: Space, m: Tables, level: nat, a: Page)
    requires Inv(sp, m) && level <= 2 && Within(sp, a) && At(level, a) in sp.tab
    ensures Lookup(sp, m, a) == Walk(m, sp.tab[At(level, a)], level, a)
    decreases 2 - level
  {
    Peek(sp, m, level, a);
    if level < 2 {
      Peek(sp, m, level + 1, a);
      Path(sp, m, level + 1, a);
    }
  }

  /** Two memories that agree on the entries of a walk agree on its result. */
  lemma {:induction false} SamePath(sp: Space, m: Tables, m': Tables, level: nat, a: Page)
    requires Inv(sp, m) && level <= 2 && Within(sp, a) && At(level, a) in sp.tab
    requires forall k: nat :: k <= level && At(k, a) in sp.tab ==>
                                Holds(m', sp.tab[At(k, a)]) && Get(sp, m', k, a) == Get(sp, m, k, a)
    ensures Walk(m', sp.tab[At(level, a)], level, a) == Walk(m, sp.tab[At(level, a)], level, a)
  {
    Peek(sp, m, level, a);
    if Get(sp, m, level, a).Next? {
      SamePath(sp, m, m', level - 1, a);
    }
  }

  /** Pages that are not tables of the space do not matter to it. */
  lemma Frame(sp: Space, m: Tables, m': Tables)
    requires Inv(sp, m)
    requires forall p :: p in sp.tab ==> sp.tab[p] in m' && sp.tab[p] in m && m'[sp.tab[p]] == m[sp.tab[p]]
    ensures Inv(sp, m')
    ensures forall a :: Within(sp, a) ==> Lookup(sp, m', a) == Lookup(sp, m, a)
  {
    assert LookInv(0);
    forall level: nat, a | level <= 2 && Within(sp, a)
      ensures EntryOk(sp, m', level, a)
    {
      assert EntryOk(sp, m, level, a);
    }
    forall a | Within(sp, a)
      ensures Lookup(sp, m', a) == Lookup(sp, m, a)
    {
      SamePath(sp, m, m', 2, a);
    }
  }

  /** A stored entry shows in exactly one slot of one level. */
  lemma StoreShows(sp: Space, m: Tables, level: nat, b: Page, e: Entry)
    requires Inv(sp, m) && level <= 2 && IsPage(b) && At(level, b) in sp.tab
    ensures var m' := Store(m, sp.tab[At(level, b)], Ix(level, b), e);
            && TablesOk(sp, m')
            && forall k: nat, a :: k <= 2 && IsPage(a) && At(k, a) in sp.tab ==>
                 Get(sp, m', k, a) == if k == level && Same(level, a, b) then e else Get(sp, m, k, a)
  {
    assert LookInv(0);
  }

  // Overwriting an entry by something that is not a pointer.

  ghost predicate MayOverwrite(sp: Space, m: Tables, level: nat, b: Page) {
    && level <= 2 && Inv(sp, m) && Within(sp, b) && At(level, b) in sp.tab
    && (Get(sp, m, level, b).Next? ==> Empty(m, Get(sp, m, level, b).table))
  }

  /** An overwritten pointer takes its (empty) table out of the space. */
  ghost function Pruned(sp: Space, m: Tables, level: nat, b: Page): (sp': Space) {
    if Get(sp, m, level, b).Next? && level > 0 then sp.(tab := sp.tab - {At(level - 1, b)}) else sp
  }

  lemma OverwriteInv(sp: Space, m: Tables, level: nat, b: Page, e: Entry)
    requires MayOverwrite(sp, m, level, b)
    requires e.Invalid? || GoodLeaf(level, e)
    ensures Inv(Pruned(sp, m, level, b), Store(m, sp.tab[At(level, b)], Ix(level, b), e))
  {
    assert LookInv(0);
    var m' := Store(m, sp.tab[At(level, b)], Ix(level, b), e);
    var sp' := Pruned(sp, m, level, b);
    StoreShows(sp, m, level, b, e);
    assert EntryOk(sp, m, level, b);
    forall k: nat, a | k <= 2 && Within(sp', a)
      ensures EntryOk(sp', m', k, a)
    {
      assert EntryOk(sp, m, k, a);
    }
    forall k: nat, a | k <= 1 && Within(sp', a) && At(k, a) in sp'.tab
      ensures At(k + 1, a) in sp'.tab && Get(sp', m', k + 1, a) == Next(sp'.tab[At(k, a)])
    {
      assert Get(sp, m, k + 1, a) == Next(sp.tab[At(k, a)]);
      assert m[sp.tab[At(k + 1, a)]][Ix(k + 1, a)].Next?;
    }
  }

  /** Overwriting an entry changes what its slot finds and nothing else. */
  lemma OverwriteLookup(sp: Space, m: Tables, level: nat, b: Page, e: Entry, a: Page)
    requires MayOverwrite(sp, m, level, b)
    requires e.Invalid? || GoodLeaf(level, e)
    requires Within(sp, a)
    ensures Lookup(sp, Store(m, sp.tab[At(level, b)], Ix(level, b), e), a) ==
            if !Same(level, a, b) then Lookup(sp, m, a)
            else if e.Leaf? then Hit(level, e.phys, e.flags)
            else Fault
  {
    var m' := Store(m, sp.tab[At(level, b)], Ix(level, b), e);
    StoreShows(sp, m, level, b, e);
    if Same(level, a, b) {
      OverwriteInv(sp, m, level, b, e);
      Path(Pruned(sp, m, level, b), m', level, a);
    } else {
      SamePath(sp, m, m', 2, a);
    }
  }

  // Linking a fresh, empty table into a slot.

  ghost predicate MayLink(sp: Space, m: Tables, level: nat, b: Page, table: nat) {
    && 1 <= level <= 2 && Inv(sp, m) && Within(sp, b) && At(level, b) in sp.tab
    && !Get(sp, m, level, b).Next?
    && Empty(m, table)
    && forall p :: p in sp.tab ==> sp.tab[p] != table
  }

  ghost function Grown(sp: Space, level: nat, b: Page, table: nat): (sp': Space) {
    if level == 0 then sp else sp.(tab := sp.tab[At(level - 1, b) := table])
  }

  lemma LinkInv(sp: Space, m: Tables, level: nat, b: Page, table: nat)
    requires MayLink(sp, m, level, b, table)
    ensures At(level - 1, b) !in sp.tab
    ensures Inv(Grown(sp, level, b, table), Store(m, sp.tab[At(level, b)], Ix(level, b), Next(table)))
  {
    assert LookInv(0);
    var m' := Store(m, sp.tab[At(level, b)], Ix(level, b), Next(table));
    var sp' := Grown(sp, level, b, table);
    StoreShows(sp, m, level, b, Next(table));
    assert At(level - 1, b) !in sp.tab;
    forall k: nat, a | k <= 2 && Within(sp', a)
      ensures EntryOk(sp', m', k, a)
    {
      if At(k, a) in sp.tab {
        assert EntryOk(sp, m, k, a);
      }
    }
    forall k: nat, a | k <= 1 && Within(sp', a) && At(k, a) in sp'.tab
      ensures At(k + 1, a) in sp'.tab && Get(sp', m', k + 1, a) == Next(sp'.tab[At(k, a)])
    {
      if At(k, a) in sp.tab {
        assert Get(sp, m, k + 1, a) == Next(sp.tab[At(k, a)]);
      } else {
        assert k + 1 == level && Same(level, a, b);
      }
    }
  }

  /** Linking an empty table unmaps its slot and changes nothing else. */
  lemma LinkLookup(sp: Space, m: Tables, level: nat, b: Page, table: nat, a: Page)
    requires MayLink(sp, m, level, b, table)
    requires Within(sp, a)
    ensures Lookup(sp, Store(m, sp.tab[At(level, b)], Ix(level, b), Next(table)), a) ==
            if Same(level, a, b) then Fault else Lookup(sp, m, a)
  {
    var m' := Store(m, sp.tab[At(level, b)], Ix(level, b), Next(table));
    StoreShows(sp, m, level, b, Next(table));
    if Same(level, a, b) {
      LinkInv(sp, m, level, b, table);
      Path(Grown(sp, level, b, table), m', level - 1, a);
      assert m'[table][Ix(level - 1, a)].Invalid?;
    } else {
      SamePath(sp, m, m', 2, a);
    }
  }
}
