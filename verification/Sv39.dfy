/**
 Sv39 page-table entries as 64-bit words (arch/riscv/paging.c).

 Words and addresses are natural numbers; shifts and masks by powers of two are written
 as division and remainder, and the bitwise `|` that builds an entry is `BitOr`.
 */
module Sv39 {
  import opened Basics


  const PTES_PER_PT: nat := 512
  const INVALID_PHYS_ADDR: nat := 0xffff_ffff_ffff_ffff
  const USER_END: nat := 0x40_0000_0000

  /** The width of a RISC-V physical address. */
  const PHYS_END: nat := 0x100_0000_0000_0000

  const PTE_V: nat := 0x01
  const PTE_G: nat := 0x20

  /** Bytes covered by one entry of a level (`page_size`), and by a whole table of level - 1. */
  function Size(level: nat): (s: nat)
    requires level <= 3
  {
    if level == 0 then 0x1000
    else if level == 1 then 0x20_0000
    else if level == 2 then 0x4000_0000
    else 0x80_0000_0000
  }

  /** The offset of an address into its slot of a level (`x & (page_size - 1)`). */
  function Off(level: nat, x: nat): (r: nat)
    requires level <= 3
    ensures r < Size(level)
  {
    if level == 0 then x % 0x1000
    else if level == 1 then x % 0x20_0000
    else if level == 2 then x % 0x4000_0000
    else x % 0x80_0000_0000
  }

  // The entry accessors.

  function Pte2Phys(pte: nat): (p: nat) {
    pte / 1024 * 4096
  }

  function Phys2Pte(phys: nat): (w: nat) {
    phys / 4
  }

  function Index(level: nat, virt: nat): (i: nat)
    requires level <= 2
  {
    virt / Size(level) % 512
  }

  predicate EntryValid(pte: nat) {
    pte % 2 == 1
  }

  /** R, W or X is set. */
  predicate Terminal(pte: nat) {
    pte / 2 % 8 != 0
  }

  function GetPhys(level: nat, pte: nat, virt: nat): (p: nat)
    requires level <= 2
  {
    if !EntryValid(pte) || !Terminal(pte) then INVALID_PHYS_ADDR
    else BitOr(Pte2Phys(pte), Off(level, virt))
  }

  function GetFlags(pte: nat): (f: nat) {
    pte % 1024
  }

  function GetNextPt(pte: nat): (t: nat) {
    Pte2Phys(pte)
  }

  function TerminalWord(phys: nat, flags: nat): (w: nat) {
    BitOr(flags, Phys2Pte(phys))
  }

  function NextWord(table: nat): (w: nat) {
    BitOr(BitOr(PTE_G, PTE_V), Phys2Pte(table))
  }

  // What an entry means to the hardware walker.

  datatype Entry = Invalid | Leaf(phys: nat, flags: nat) | Next(table: nat)

  function Decode(pte: nat): (e: Entry) {
    if !EntryValid(pte) then Invalid
    else if Terminal(pte) then Leaf(Pte2Phys(pte), GetFlags(pte))
    else Next(Pte2Phys(pte))
  }

  /** Access flags that make a terminal entry: V together with R, W or X. */
  predicate AccessFlags(flags: nat) {
    flags < 1024 && EntryValid(flags) && Terminal(flags)
  }

  lemma Word(q: nat, flags: nat)
    requires flags < 1024
    ensures BitOr(flags, Phys2Pte(q * 4096)) == q * 1024 + flags
  {
    assert Pow2(10) == 1024 by { assert Pow2(5) == 32; }
    BitOrDisjoint(q, flags, 10);
  }

  lemma DecodeWord(q: nat, flags: nat)
    requires flags < 1024
    ensures Decode(q * 1024 + flags) ==
            if !EntryValid(flags) then Invalid else if Terminal(flags) then Leaf(q * 4096, flags) else Next(q * 4096)
  {
    var w := q * 1024 + flags;
    assert w / 1024 == q && w % 1024 == flags;
    LowBits(q, flags);
  }

  lemma LowBits(q: nat, flags: nat)
    ensures var w := q * 1024 + flags; w % 2 == flags % 2 && w / 2 % 8 == flags / 2 % 8
  {
    var w := q * 1024 + flags;
    assert w == 2 * (q * 512 + flags / 2) + flags % 2;
    assert w / 2 == 8 * (q * 64) + flags / 2;
  }

  /**
   A written terminal entry reads back as the mapping that was written exactly when its flags
   hold R, W or X; otherwise it reads back as a table pointer.
   */
  lemma TerminalReadsBack(phys: nat, flags: nat)
    requires phys % PAGE_SIZE == 0
    requires flags < 1024 && EntryValid(flags)
    ensures Decode(TerminalWord(phys, flags)) == if AccessFlags(flags) then Leaf(phys, flags) else Next(phys)
  {
    var q := phys / 4096;
    assert phys == q * 4096;
    Word(q, flags);
    DecodeWord(q, flags);
  }

  /** The written table pointer reads back as that table. */
  lemma NextReadsBack(table: nat)
    requires table % PAGE_SIZE == 0
    ensures Decode(NextWord(table)) == Next(table)
  {
    var q := table / 4096;
    assert table == q * 4096;
    assert BitOr(PTE_G, PTE_V) == 0x21;
    Word(q, 0x21);
    DecodeWord(q, 0x21);
  }

  /** For an aligned leaf, `get_phys` is the leaf's frame plus the offset into it. */
  lemma GetPhysOfLeaf(level: nat, pte: nat, virt: nat)
    requires level <= 2
    requires Decode(pte).Leaf? ==> Off(level, Decode(pte).phys) == 0 && Decode(pte).phys < PHYS_END
    ensures Decode(pte).Leaf? ==> GetPhys(level, pte, virt) == Decode(pte).phys + Off(level, virt)
    ensures Decode(pte).Leaf? <==> GetPhys(level, pte, virt) != INVALID_PHYS_ADDR
  {
    if Decode(pte).Leaf? {
      OrOffset(level, Pte2Phys(pte), Off(level, virt));
    }
  }

  lemma OrOffset(level: nat, phys: nat, off: nat)
    requires level <= 2 && Off(level, phys) == 0 && off < Size(level)
    ensures BitOr(phys, off) == phys + off
  {
    Pow2Sizes();
    var q := phys / Size(level);
    assert phys == q * Size(level);
    if level == 0 {
      BitOrDisjoint(q, off, 12);
    } else if level == 1 {
      BitOrDisjoint(q, off, 21);
    } else {
      BitOrDisjoint(q, off, 30);
    }
  }

  lemma Pow2Sizes()
    ensures Pow2(12) == Size(0) && Pow2(21) == Size(1) && Pow2(30) == Size(2) && Pow2(39) == Size(3)
  {
    assert Pow2(12) == 0x1000 by { assert Pow2(6) == 64; }
    assert Pow2(21) == 0x20_0000 by { assert Pow2(15) == 0x8000; assert Pow2(18) == 0x4_0000; }
    assert Pow2(30) == 0x4000_0000 by { assert Pow2(24) == 0x100_0000; assert Pow2(27) == 0x800_0000; }
    assert Pow2(39) == 0x80_0000_0000 by { assert Pow2(33) == 0x2_0000_0000; assert Pow2(36) == 0x10_0000_0000; }
  }
}
