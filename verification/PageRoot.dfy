/**
 What a mapping does to the entries of a root table.

 The root entries of the kernel half are copied into every process root, so a pointer there
 must stay where it is; `paging_destroy` keeps it, `paging_create` keeps it unless it sets a
 leaf of the root level over it.
 */
module PageRoot {
  import opened Sv39
  import opened PageTree
  import opened PageRange
  import opened PageSteps

  const ROOT_SLOT: nat := 0x4000_0000

  ghost function RootEntry(sp: Space, m: Tables, i: nat): (e: Entry) {
    Get(sp, m, 2, Page(i, 0, 0))
  }

  /** The range holds all addresses of a root entry. */
  ghost predicate Covered(i: nat, lo: nat, hi: nat) {
    lo <= i * ROOT_SLOT && (i + 1) * ROOT_SLOT <= hi
  }

  /** A mapping may set leaves in the root table. */
  ghost predicate RootLeaves(rl: nat, phys: nat, virt: nat, huge: bool) {
    rl == 2 && huge && Off(2, phys) == Off(2, virt)
  }

  /** Every pointer in the root stays, except those a root leaf replaces. */
  ghost predicate RootKept(sp: Space, m: Tables, sp': Space, m': Tables, leaves: bool, lo: nat, hi: nat) {
    forall n: int :: LookNext(n) ==>
      forall i: nat :: i < sp.limit && RootEntry(sp, m, i).Next? && !(leaves && Covered(i, lo, hi)) ==>
        RootEntry(sp', m', i) == RootEntry(sp, m, i)
  }

  /** The tables below the kernel-half entries that the range covers. */
  ghost function Leaks(sp: Space, m: Tables, lo: nat, hi: nat): (r: set<nat>) {
    set i: nat | 256 <= i < PTES_PER_PT && Covered(i, lo, hi) && RootEntry(sp, m, i).Next? :: RootEntry(sp, m, i).table
  }

  /** The root table after the part [lo, virt) of a mapping of [lo, hi). */
  ghost predicate RootProgress(sp: Space, m: Tables, sp': Space, m': Tables, leaves: bool, kernel: bool, lo: nat,
                               virt: nat, hi: nat, lost: set<nat>) {
    forall n: int :: LookNext(n) ==>
      && RootKept(sp, m, sp', m', leaves, lo, virt)
      && (forall i: nat :: i < sp.limit && i * ROOT_SLOT >= virt ==> RootEntry(sp', m', i) == RootEntry(sp, m, i))
      && (leaves && Off(2, virt) != 0 ==> !Covered(virt / ROOT_SLOT, lo, hi))
      && lost == if leaves && kernel then Leaks(sp, m, lo, virt) else {}
  }

  /** What one round of a mapping does to the root table. */
  ghost predicate RootRound(sp: Space, m: Tables, sp': Space, m': Tables, kernel: bool, leaf: bool, virt: nat,
                            lost: set<nat>) {
    && (forall i: nat :: i < sp.limit && i != virt / ROOT_SLOT ==> RootEntry(sp', m', i) == RootEntry(sp, m, i))
    && (!leaf && RootEntry(sp, m, virt / ROOT_SLOT).Next? ==>
        RootEntry(sp', m', virt / ROOT_SLOT) == RootEntry(sp, m, virt / ROOT_SLOT))
    && lost == if leaf && kernel && virt >= USER_END then Dropped(RootEntry(sp, m, virt / ROOT_SLOT)) else {}
  }

  lemma RootStart(sp: Space, m: Tables, leaves: bool, kernel: bool, lo: nat, hi: nat)
    ensures RootProgress(sp, m, sp, m, leaves, kernel, lo, lo, hi, {})
  {
    forall i: nat | Covered(i, lo, lo)
      ensures false
    {
    }
    assert Leaks(sp, m, lo, lo) == {};
    assert Covered(lo / ROOT_SLOT, lo, hi) ==> lo <= lo / ROOT_SLOT * ROOT_SLOT;
  }

  lemma RootMore(sp0: Space, m0: Tables, sp1: Space, m1: Tables, sp: Space, m: Tables, leaves: bool, kernel: bool,
                 level: nat, lo: nat, virt: nat, hi: nat, leaked: set<nat>, lost: set<nat>)
    requires sp1.limit == sp0.limit && virt < Limit(sp0) && virt < VA_END && level <= 2 && lo <= virt
    requires RootProgress(sp0, m0, sp1, m1, leaves, kernel, lo, virt, hi, leaked)
    requires RootRound(sp1, m1, sp, m, kernel, level == 2, virt, lost)
    requires Off(level, virt) == 0 && virt + Size(level) <= hi
    requires leaves ==> (level == 2 <==> Off(2, virt) == 0 && virt + ROOT_SLOT <= hi)
    requires level == 2 ==> leaves
    ensures RootProgress(sp0, m0, sp, m, leaves, kernel, lo, virt + Size(level), hi, leaked + lost)
  {
    assert LookNext(0);
    var next, j := virt + Size(level), virt / ROOT_SLOT;
    SlotEndOf(level, virt);
    forall i: nat
      ensures leaves ==> (Covered(i, lo, next) <==> Covered(i, lo, virt) || (level == 2 && i == j))
    {
    }
    if leaves && kernel && level == 2 {
      LeaksMore(sp0, m0, lo, virt);
    } else if leaves && kernel {
      LeaksSame(sp0, m0, lo, virt, next);
    }
  }

  lemma SlotEndOf(level: nat, virt: nat)
    requires level <= 2 && Off(level, virt) == 0
    ensures var j := virt / ROOT_SLOT; virt == j * ROOT_SLOT + Off(2, virt) && virt + Size(level) <= (j + 1) * ROOT_SLOT
    ensures virt + Size(level) < (virt / ROOT_SLOT + 1) * ROOT_SLOT ==>
            (virt + Size(level)) / ROOT_SLOT == virt / ROOT_SLOT
  {
    var e := (virt / ROOT_SLOT + 1) * ROOT_SLOT;
    AlignedDown(2, level, e);
    MultiplesApart(virt, e, Size(level));
  }

  lemma LeaksMore(sp: Space, m: Tables, lo: nat, virt: nat)
    requires lo <= virt < VA_END && Off(2, virt) == 0
    ensures Leaks(sp, m, lo, virt + ROOT_SLOT) ==
            Leaks(sp, m, lo, virt) + if virt >= USER_END then Dropped(RootEntry(sp, m, virt / ROOT_SLOT)) else {}
  {
    var j := virt / ROOT_SLOT;
    forall i: nat
      ensures Covered(i, lo, virt + ROOT_SLOT) <==> Covered(i, lo, virt) || i == j
    {
    }
    assert virt >= USER_END <==> j >= 256;
    assert virt >= USER_END && RootEntry(sp, m, j).Next? ==>
           RootEntry(sp, m, j).table in Leaks(sp, m, lo, virt + ROOT_SLOT);
    assert Leaks(sp, m, lo, virt) <= Leaks(sp, m, lo, virt + ROOT_SLOT);
  }

  lemma LeaksSame(sp: Space, m: Tables, lo: nat, virt: nat, next: nat)
    requires forall i: nat :: Covered(i, lo, next) <==> Covered(i, lo, virt)
    ensures Leaks(sp, m, lo, next) == Leaks(sp, m, lo, virt)
  {
  }

  /** What holds of the root table whether or not a mapping ends early. */
  lemma RootEnd(sp0: Space, m0: Tables, sp1: Space, m1: Tables, sp: Space, m: Tables, leaves: bool, kernel: bool,
                lo: nat, virt: nat, hi: nat, leaked: set<nat>)
    requires sp1.limit == sp0.limit && virt <= hi
    requires RootProgress(sp0, m0, sp1, m1, leaves, kernel, lo, virt, hi, leaked)
    requires (sp == sp1 && m == m1) || RootRound(sp1, m1, sp, m, kernel, false, virt, {})
    ensures RootKept(sp0, m0, sp, m, leaves, lo, hi)
    ensures var leaks := if leaves && kernel then Leaks(sp0, m0, lo, hi) else {};
            leaked <= leaks && (virt == hi ==> leaked == leaks)
  {
    assert LookNext(0);
    forall i: nat | Covered(i, lo, virt)
      ensures Covered(i, lo, hi)
    {
    }
    assert Leaks(sp0, m0, lo, virt) <= Leaks(sp0, m0, lo, hi);
  }

  /** A round confined to the slot of an address, seen from the root. */
  lemma RoundAtRoot(sp: Space, m: Tables, sp': Space, m': Tables, kernel: bool, leaf: bool, virt: nat, lost: set<nat>)
    requires Inv(sp, m) && virt < Limit(sp) && SlotLocal(sp, m, sp', m', 2, PageOf(virt))
    requires var e := Get(sp, m, 2, PageOf(virt)); !leaf && e.Next? ==> Get(sp', m', 2, PageOf(virt)) == e
    requires lost == if leaf && kernel && virt >= USER_END then Dropped(Get(sp, m, 2, PageOf(virt))) else {}
    ensures RootRound(sp, m, sp', m', kernel, leaf, virt, lost)
  {
    InLimit(sp, m, virt);
    DigitsOf(virt);
    var j := virt / ROOT_SLOT;
    assert PageOf(virt).i2 == j;
    SameGet(sp, m, 2, PageOf(virt), Page(j, 0, 0));
    SameGet(sp', m', 2, PageOf(virt), Page(j, 0, 0));
    assert LookLocal(0) && LookInv(0);
    forall i: nat | i < sp.limit && i != j
      ensures RootEntry(sp', m', i) == RootEntry(sp, m, i)
    {
      assert EntrySame(sp, m, sp', m', 2, Page(i, 0, 0));
    }
  }

  /** A range and its target are congruent when some address and its target both are multiples. */
  lemma Congruent(phys0: nat, virt0: nat, phys: nat, virt: nat)
    requires virt0 <= virt && phys == phys0 + (virt - virt0) && Off(2, virt) == 0
    ensures Off(2, phys) == 0 <==> Off(2, phys0) == Off(2, virt0)
  {
    var s := ROOT_SLOT;
    var a, b, c, d := phys0 / s, virt0 / s, phys / s, virt / s;
    assert Off(2, phys) - (Off(2, phys0) - Off(2, virt0)) == s * (a - b - c + d);
  }

  /** Every invalid root entry from first up to k got a table; no other root entry changed. */
  ghost predicate Populated(sp: Space, m: Tables, sp': Space, m': Tables, first: nat, k: nat) {
    forall n: int :: LookNext(n) ==>
      forall i: nat :: i < sp.limit ==>
        if first <= i < k && RootEntry(sp, m, i).Invalid? then RootEntry(sp', m', i).Next?
        else RootEntry(sp', m', i) == RootEntry(sp, m, i)
  }

  lemma PopulatedSkip(sp0: Space, m0: Tables, sp: Space, m: Tables, first: nat, virt: nat)
    requires sp.limit == sp0.limit && virt < Limit(sp0) && Inv(sp, m) && Off(2, virt) == 0 && first <= virt / ROOT_SLOT
    requires Populated(sp0, m0, sp, m, first, virt / ROOT_SLOT) && !Get(sp, m, 2, PageOf(virt)).Invalid?
    ensures Populated(sp0, m0, sp, m, first, virt / ROOT_SLOT + 1)
  {
    InLimit(sp, m, virt);
    DigitsOf(virt);
    SameGet(sp, m, 2, PageOf(virt), Page(virt / ROOT_SLOT, 0, 0));
    assert LookNext(0);
  }

  lemma PopulatedMore(sp0: Space, m0: Tables, sp1: Space, m1: Tables, sp: Space, m: Tables, first: nat, virt: nat)
    requires sp1.limit == sp0.limit && sp.limit == sp0.limit && virt < Limit(sp0) && Inv(sp1, m1)
             && first <= virt / ROOT_SLOT
    requires Populated(sp0, m0, sp1, m1, first, virt / ROOT_SLOT) && Get(sp1, m1, 2, PageOf(virt)).Invalid?
    requires SlotLocal(sp1, m1, sp, m, 2, PageOf(virt)) && Get(sp, m, 2, PageOf(virt)).Next?
    ensures Populated(sp0, m0, sp, m, first, virt / ROOT_SLOT + 1)
  {
    InLimit(sp1, m1, virt);
    DigitsOf(virt);
    SameGet(sp, m, 2, PageOf(virt), Page(virt / ROOT_SLOT, 0, 0));
    SameGet(sp1, m1, 2, PageOf(virt), Page(virt / ROOT_SLOT, 0, 0));
    RoundAtRoot(sp1, m1, sp, m, false, false, virt, {});
    assert LookNext(0);
  }
}
