/**
 Virtual addresses as numbers over the tree of PageTree: slots, ranges and translations.

 Addresses are the low 39 bits of a canonical address: user space is [0, 2^38), kernel
 space [2^38, 2^39).
 */
module PageRange {
  import opened Sv39
  import opened PageTree

  const VA_END: nat := 0x80_0000_0000

  datatype Translation = Unmapped | Mapped(phys: nat, flags: nat)

  /** Guards the digits of an address like `Look`. */
  ghost predicate LookDigits(n: int) {
    true
  }

  ghost predicate HasDigits(v: nat, a: Page) {
    forall n: int :: LookDigits(n) ==> a == Page(Index(2, v), Index(1, v), Index(0, v))
  }

  ghost function PageOf(v: nat): (a: Page) {
    assert HasDigits(v, Page(Index(2, v), Index(1, v), Index(0, v)));
    var a :| HasDigits(v, a);
    a
  }

  lemma DigitsOf(v: nat)
    ensures PageOf(v) == Page(Index(2, v), Index(1, v), Index(0, v))
  {
    assert LookDigits(0);
  }

  /** The index that `get_entry` uses. */
  lemma IndexOf(level: nat, v: nat)
    requires level <= 2
    ensures Ix(level, PageOf(v)) == Index(level, v)
  {
    DigitsOf(v);
  }

  /** The first address of the slot of a page at a level. */
  ghost function Base(level: nat, a: Page): (v: nat)
    requires level <= 2
  {
    a.i2 * 0x4000_0000 + (if level <= 1 then a.i1 * 0x20_0000 else 0) + (if level == 0 then a.i0 * 0x1000 else 0)
  }

  /** The address a leaf entry gives: a misaligned superpage faults (section 4.3.2, step 6). */
  ghost function Meaning(h: Hit, v: nat): (r: Translation) {
    if h.Hit? && h.level <= 2 && Off(h.level, h.phys) == 0
    then Mapped(h.phys + Off(h.level, v), h.flags)
    else Unmapped
  }

  ghost function Translate(sp: Space, m: Tables, v: nat): (r: Translation) {
    Meaning(Lookup(sp, m, PageOf(v)), v)
  }

  /** The end of the addresses that a space owns. */
  ghost function Limit(sp: Space): (v: nat) {
    sp.limit * 0x4000_0000
  }

  /** An address as its three page numbers and its offset. */
  lemma Digits(v: nat)
    requires v < VA_END
    ensures IsPage(PageOf(v))
    ensures Base(0, PageOf(v)) == v - v % 0x1000
    ensures Base(1, PageOf(v)) == v - v % 0x20_0000
    ensures Base(2, PageOf(v)) == v - v % 0x4000_0000
  {
    DigitsOf(v);
    var p := v / 0x1000;
    var q := v / 0x20_0000;
    assert q == p / 512;
    var r := v / 0x4000_0000;
    assert r == q / 512;
    assert r < 512;
  }

  lemma SlotFacts(level: nat, v: nat)
    requires level <= 2 && v < VA_END
    ensures Base(level, PageOf(v)) == v - Off(level, v)
    ensures Base(level, PageOf(v)) + Size(level) <= VA_END
  {
    Digits(v);
  }

  /** The slot of a page is an interval of addresses. */
  lemma SlotOf(level: nat, a: Page, v: nat)
    requires level <= 2 && v < VA_END && IsPage(a)
    ensures Same(level, a, PageOf(v)) <==> Base(level, a) <= v < Base(level, a) + Size(level)
  {
    Digits(v);
    var b := PageOf(v);
    if level == 2 {
    } else if level == 1 {
      assert Base(1, a) <= v < Base(1, a) + Size(1) ==> a.i2 == b.i2;
    } else {
      assert Base(0, a) <= v < Base(0, a) + Size(0) ==> a.i2 == b.i2;
      assert Base(0, a) <= v < Base(0, a) + Size(0) ==> a.i1 == b.i1;
    }
  }

  lemma SlotsNest(j: nat, k: nat, a: Page)
    requires j <= k <= 2 && IsPage(a)
    ensures Base(k, a) <= Base(j, a) && Base(j, a) + Size(j) <= Base(k, a) + Size(k)
  {
  }
}
