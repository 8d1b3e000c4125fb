/** The calls of mm/paging.c as steps of the whole system. */
module SharingCode {
  import opened Basics
  import opened Sv39
  import opened PageTree
  import opened PageRange
  import opened PageSteps
  import opened PageRoot
  import opened PageFull
  import opened Paging
  import Sharing

  /** The page-table memory is that of the system, and this CPU's walker uses no unlinked table. */
  ghost predicate Ready(pt: PageTables, s: Sharing.System, sp: Space)
    reads pt
  {
    pt.tables == s.m && pt.Good(sp) && pt.held.stale == {} && s.kernel.root == pt.kernelRoot && sp.root !in pt.guests
  }

  /** `map_range` on a process */
  method MapProcess(pt: PageTables, r: nat, vaddr: nat, paddr: nat, size: nat, flags: nat,
                    ghost s: Sharing.System)
    returns (ok: bool, ghost s': Sharing.System)
    requires Sharing.SystemOk(s) && r in s.procs && Ready(pt, s, s.procs[r]) && r != pt.kernelRoot && AccessFlags(flags)
    requires PageDown(vaddr) + PageUp(size) <= Limit(s.procs[r]) && PageDown(paddr) + PageUp(size) <= PHYS_END
    modifies pt
    ensures Sharing.Next(s, Sharing.ProcOp(r, ok), s') && Ready(pt, s', s'.procs[r])
  {
    assert Sharing.ProcOk(s, r);
    ghost var sp, leaked;
    ok, sp, leaked := pt.MapRange(r, vaddr, paddr, size, flags, s.procs[r]);
    SameRoot(s.procs[r], s.m, sp, pt.tables, {});
    s' := Sharing.System(s.kernel, s.procs[r := sp], pt.tables);
  }

  /** `unmap_range` on a process */
  method UnmapProcess(pt: PageTables, r: nat, vaddr: nat, size: nat, ghost s: Sharing.System)
    returns (ok: bool, ghost s': Sharing.System)
    requires Sharing.SystemOk(s) && r in s.procs && Ready(pt, s, s.procs[r]) && r != pt.kernelRoot
    requires PageDown(vaddr) + PageUp(size) <= Limit(s.procs[r])
    modifies pt
    ensures Sharing.Next(s, Sharing.ProcOp(r, ok), s') && Ready(pt, s', s'.procs[r])
  {
    assert Sharing.ProcOk(s, r);
    ghost var sp;
    ok, sp := pt.UnmapRange(r, vaddr, size, s.procs[r]);
    SameRoot(s.procs[r], s.m, sp, pt.tables, {});
    s' := Sharing.System(s.kernel, s.procs[r := sp], pt.tables);
  }

  /** `map_range` on the kernel, below the size of a root leaf */
  method MapKernel(pt: PageTables, vaddr: nat, paddr: nat, size: nat, flags: nat, ghost s: Sharing.System)
    returns (ok: bool, ghost s': Sharing.System)
    requires Sharing.SystemOk(s) && Ready(pt, s, s.kernel) && AccessFlags(flags) && PageUp(size) < ROOT_SLOT
    requires PageDown(vaddr) + PageUp(size) <= Limit(s.kernel) && PageDown(paddr) + PageUp(size) <= PHYS_END
    modifies pt
    ensures Sharing.Next(s, Sharing.KernelOp({}), s') && Ready(pt, s', s'.kernel)
  {
    ghost var sp, leaked;
    ok, sp, leaked := pt.MapRange(pt.kernelRoot, vaddr, paddr, size, flags, s.kernel);
    s' := Sharing.System(sp, s.procs, pt.tables);
    SameRoot(s.kernel, s.m, sp, pt.tables, {});
  }

  /** `unmap_range` on the kernel */
  method UnmapKernel(pt: PageTables, vaddr: nat, size: nat, ghost s: Sharing.System)
    returns (ok: bool, ghost s': Sharing.System)
    requires Sharing.SystemOk(s) && Ready(pt, s, s.kernel) && PageDown(vaddr) + PageUp(size) <= Limit(s.kernel)
    modifies pt
    ensures Sharing.Next(s, Sharing.KernelOp({}), s') && Ready(pt, s', s'.kernel)
  {
    ghost var sp;
    ok, sp := pt.UnmapRange(pt.kernelRoot, vaddr, size, s.kernel);
    s' := Sharing.System(sp, s.procs, pt.tables);
    SameRoot(s.kernel, s.m, sp, pt.tables, {});
  }
}
