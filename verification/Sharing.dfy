/**
 All address spaces over one memory: the kernel's and one per process.

 `arch_mm_init` copies the kernel half of the root table into a new process root once. Every
 later operation is one step here, described by what the contracts of `Paging` guarantee.
 */
module Sharing {
  import opened Sv39
  import opened PageTree
  import opened PageRange
  import opened PageSteps
  import opened PageRoot
  import opened PageFull

  const KERNEL_INDEX: nat := 256

  datatype System = System(kernel: Space, procs: map<nat, Space>, m: Tables)

  /** The tables of two spaces. */
  ghost predicate Apart(a: Space, b: Space) {
    forall p, q :: p in a.tab && q in b.tab ==> a.tab[p] != b.tab[q]
  }

  ghost predicate ProcOk(s: System, r: nat) {
    r in s.procs && s.procs[r].root == r && s.procs[r].limit == KERNEL_INDEX && Inv(s.procs[r], s.m)
      && Apart(s.kernel, s.procs[r])
  }

  /** Every tree is well formed and no table belongs to two of them. */
  ghost predicate SystemOk(s: System) {
    && Inv(s.kernel, s.m) && s.kernel.limit == PTES_PER_PT
    && (forall r :: r in s.procs ==> ProcOk(s, r))
    && (forall r, r' :: r in s.procs && r' in s.procs && r != r' ==> Apart(s.procs[r], s.procs[r']))
  }

  /** A process root holds the kernel's pointers. */
  ghost predicate Shares(s: System, r: nat, i: nat) {
    Holds(s.m, r) && Holds(s.m, s.kernel.root) && i < PTES_PER_PT && s.m[r][i] == s.m[s.kernel.root][i]
  }

  /** The kernel-half entries of `copied` still are what the kernel root holds. */
  ghost predicate Synced(s: System, copied: map<nat, set<nat>>) {
    forall r, i: nat :: r in copied && i in copied[r] ==>
      r in s.procs && KERNEL_INDEX <= i < PTES_PER_PT && Shares(s, r, i) && s.m[r][i].Next?
  }

  /** A map or unmap in the kernel's space that sets no leaf over a root pointer. */
  ghost predicate KernelStep(s: System, s': System, lost: set<nat>) {
    && s'.procs == s.procs && Inv(s'.kernel, s'.m) && Accounts(s.kernel, s.m, s'.kernel, s'.m, lost)
    && NextKept(s.kernel, s.m, s'.kernel, s'.m)
  }

  /** A map or unmap in the user half of a process, and whether it succeeded. */
  ghost predicate ProcStep(s: System, s': System, r: nat, ok: bool) {
    && s'.kernel == s.kernel && r in s.procs && r in s'.procs && s'.procs == s.procs[r := s'.procs[r]]
    && Inv(s'.procs[r], s'.m) && Accounts(s.procs[r], s.m, s'.procs[r], s'.m, {})
    && (ok && NoEmpty(s.procs[r], s.m, false) ==> NoEmpty(s'.procs[r], s'.m, false))
  }

  /** `process_alloc_new` with `arch_mm_init`: a fresh root with the kernel half copied in. */
  ghost predicate NewStep(s: System, s': System, r: nat) {
    && r !in s.m && s'.kernel == s.kernel && Holds(s.m, s.kernel.root)
    && s'.m == s.m[r := seq(KERNEL_INDEX, i => Invalid) + s.m[s.kernel.root][KERNEL_INDEX..]]
    && s'.procs == s.procs[r := Space(r, KERNEL_INDEX, map[Root := r])]
  }

  /** The root of a process is released, whatever else it may have. */
  ghost predicate DropStep(s: System, s': System, r: nat) {
    r in s.procs && s' == System(s.kernel, s.procs - {r}, s.m - {r})
  }

  datatype Step = KernelOp(lost: set<nat>) | ProcOp(proc: nat, ok: bool) | NewProc(proc: nat) | DropProc(proc: nat)

  ghost predicate Next(s: System, step: Step, s': System) {
    match step
    case KernelOp(lost) => KernelStep(s, s', lost)
    case ProcOp(r, ok) => ProcStep(s, s', r, ok)
    case NewProc(r) => NewStep(s, s', r)
    case DropProc(r) => DropStep(s, s', r)
  }

  /** The entries that the processes have copied, after a step. */
  ghost function Copied(s: System, step: Step, copied: map<nat, set<nat>>): (c: map<nat, set<nat>>) {
    match step
    case NewProc(r) =>
      copied[r := set i: nat | KERNEL_INDEX <= i < PTES_PER_PT && Holds(s.m, s.kernel.root)
             && s.m[s.kernel.root][i].Next?]
    case DropProc(r) => copied - {r}
    case _ => copied
  }

  ghost predicate SamePage(m: Tables, m': Tables, t: nat) {
    Holds(m, t) && t in m' && m'[t] == m[t]
  }

  /** Tables outside a space stay as they are when the space changes. */
  lemma Untouched(a: Space, m: Tables, a': Space, m': Tables, lost: set<nat>, b: Space)
    requires Inv(a, m) && Inv(b, m) && Apart(a, b) && Inv(a', m') && Accounts(a, m, a', m', lost)
    ensures Inv(b, m') && Apart(a', b)
    ensures forall p :: p in b.tab ==> SamePage(m, m', b.tab[p])
  {
    assert LookAccounts(0) && LookInv(0);
    forall p | p in b.tab
      ensures b.tab[p] !in a.tab.Values && b.tab[p] in m && b.tab[p] !in a'.tab.Values
    {
      assert b.tab[p] in m.Keys - a.tab.Values;
    }
    forall p, q | p in a'.tab && q in b.tab
      ensures a'.tab[p] != b.tab[q]
    {
      assert a'.tab[p] in a'.tab.Values;
    }
    Frame(b, m, m');
  }

  lemma KernelKeeps(s: System, s': System, lost: set<nat>, copied: map<nat, set<nat>>)
    requires SystemOk(s) && Synced(s, copied) && KernelStep(s, s', lost)
    ensures SystemOk(s') && Synced(s', copied)
  {
    assert s'.kernel.limit == s.kernel.limit && s'.kernel.root == s.kernel.root by { assert LookAccounts(0); }
    forall r | r in s.procs
      ensures ProcOk(s', r) && SamePage(s.m, s'.m, r)
    {
      assert ProcOk(s, r);
      Untouched(s.kernel, s.m, s'.kernel, s'.m, lost, s.procs[r]);
      Rooted(s.procs[r], s.m);
    }
    Rooted(s.kernel, s.m);
    Rooted(s'.kernel, s'.m);
    assert LookNext(0);
    forall r, i: nat | r in copied && i in copied[r]
      ensures Shares(s', r, i)
    {
      assert Shares(s, r, i);
      assert RootEntry(s.kernel, s.m, i).Next? && Within(s.kernel, Page(i, 0, 0));
    }
  }

  lemma Rooted(sp: Space, m: Tables)
    requires Inv(sp, m)
    ensures Root in sp.tab && sp.tab[Root] == sp.root && Holds(m, sp.root)
    ensures forall i: nat :: i < PTES_PER_PT ==> RootEntry(sp, m, i) == m[sp.root][i]
  {
    assert LookInv(0);
  }

  lemma ProcKeeps(s: System, s': System, r: nat, ok: bool, copied: map<nat, set<nat>>)
    requires SystemOk(s) && Synced(s, copied) && ProcStep(s, s', r, ok)
    ensures SystemOk(s') && Synced(s', copied)
  {
    var a, a' := s.procs[r], s'.procs[r];
    assert ProcOk(s, r);
    Untouched(a, s.m, a', s'.m, {}, s.kernel);
    Rooted(s.kernel, s.m);
    assert s'.m[s.kernel.root] == s.m[s.kernel.root];
    assert a'.limit == a.limit && a'.root == a.root && Holds(s'.m, r)
           && forall i :: KERNEL_INDEX <= i < PTES_PER_PT ==> s'.m[r][i] == s.m[r][i] by { assert LookAccounts(0); }
    forall q | q in s.procs && q != r
      ensures ProcOk(s', q) && Apart(a', s'.procs[q]) && SamePage(s.m, s'.m, q)
    {
      assert ProcOk(s, q);
      Untouched(a, s.m, a', s'.m, {}, s.procs[q]);
      Rooted(s.procs[q], s.m);
    }
    forall q, i: nat | q in copied && i in copied[q]
      ensures Shares(s', q, i) && s'.m[q][i].Next?
    {
      assert Shares(s, q, i);
    }
  }

  lemma NewKeeps(s: System, s': System, r: nat, copied: map<nat, set<nat>>)
    requires SystemOk(s) && Synced(s, copied) && NewStep(s, s', r)
    ensures SystemOk(s') && Synced(s', Copied(s, NewProc(r), copied))
  {
    Rooted(s.kernel, s.m);
    Frame2(s.kernel, s.m, s'.m, r);
    FreshRoot(s'.procs[r], s'.m);
    forall q | q in s.procs
      ensures ProcOk(s', q) && q != r && Apart(s'.procs[q], s'.procs[r])
    {
      OldProc(s, s', r, q);
    }
    NewSynced(s, s', r, copied);
  }

  lemma OldProc(s: System, s': System, r: nat, q: nat)
    requires SystemOk(s) && NewStep(s, s', r) && q in s.procs
    ensures ProcOk(s', q) && q != r && Apart(s'.procs[q], s'.procs[r])
  {
    assert ProcOk(s, q);
    Rooted(s.procs[q], s.m);
    Frame2(s.procs[q], s.m, s'.m, r);
  }

  lemma NewSynced(s: System, s': System, r: nat, copied: map<nat, set<nat>>)
    requires Synced(s, copied) && NewStep(s, s', r) && |s.m[s.kernel.root]| == PTES_PER_PT
    ensures Synced(s', Copied(s, NewProc(r), copied))
  {
    var copied' := Copied(s, NewProc(r), copied);
    forall q, i: nat | q in copied' && i in copied'[q]
      ensures Shares(s', q, i) && s'.m[q][i].Next?
    {
      if q != r {
        assert Shares(s, q, i);
      }
    }
  }

  /** A page that holds no table of a space does not matter to it. */
  lemma Frame2(sp: Space, m: Tables, m': Tables, r: nat)
    requires Inv(sp, m) && (forall t :: t in m && t != r ==> t in m' && m'[t] == m[t])
    requires r in m ==> forall p :: p in sp.tab ==> sp.tab[p] != r
    ensures Inv(sp, m') && forall p :: p in sp.tab ==> sp.tab[p] in m
  {
    assert LookInv(0);
    Frame(sp, m, m');
  }

  lemma FreshRoot(sp: Space, m: Tables)
    requires sp.tab == map[Root := sp.root] && sp.limit == KERNEL_INDEX && Holds(m, sp.root)
    requires forall i :: 0 <= i < KERNEL_INDEX ==> m[sp.root][i].Invalid?
    ensures Inv(sp, m)
  {
  }

  lemma DropKeeps(s: System, s': System, r: nat, copied: map<nat, set<nat>>)
    requires SystemOk(s) && Synced(s, copied) && DropStep(s, s', r)
    ensures SystemOk(s') && Synced(s', Copied(s, DropProc(r), copied))
  {
    assert ProcOk(s, r);
    Rooted(s.procs[r], s.m);
    Rooted(s.kernel, s.m);
    assert forall p :: p in s.kernel.tab ==> s.kernel.tab[p] != s.procs[r].tab[Root];
    Frame2(s.kernel, s.m, s'.m, r);
    forall q | q in s'.procs
      ensures ProcOk(s', q)
    {
      assert ProcOk(s, q) && Apart(s.procs[q], s.procs[r]);
      Frame2(s.procs[q], s.m, s'.m, r);
    }
    forall q, i: nat | q in copied && q != r && i in copied[q]
      ensures Shares(s', q, i) && s'.m[q][i].Next?
    {
      assert Shares(s, q, i);
    }
  }

  /** The copied entries of a run, from its first state on. */
  ghost function CopiedAfter(states: seq<System>, steps: seq<Step>, n: nat): (c: map<nat, set<nat>>)
    requires n <= |steps| < |states|
  {
    if n == 0 then map[] else Copied(states[n - 1], steps[n - 1], CopiedAfter(states, steps, n - 1))
  }

  ghost predicate Run(states: seq<System>, steps: seq<Step>) {
    |states| == |steps| + 1 && forall k :: 0 <= k < |steps| ==> Next(states[k], steps[k], states[k + 1])
  }

  /**
   In every run of mappings, unmappings, forks and exits, the pointers a process copied from the
   kernel root at its creation equal those of the kernel root, for as long as the process exists.
   */
  lemma {:induction false} KernelHalfStaysShared(states: seq<System>, steps: seq<Step>, n: nat)
    requires Run(states, steps) && n <= |steps| && SystemOk(states[0])
    ensures SystemOk(states[n]) && Synced(states[n], CopiedAfter(states, steps, n))
    decreases n
  {
    if n > 0 {
      KernelHalfStaysShared(states, steps, n - 1);
      var s, s', copied := states[n - 1], states[n], CopiedAfter(states, steps, n - 1);
      assert Next(s, steps[n - 1], s');
      match steps[n - 1]
      case KernelOp(lost) => KernelKeeps(s, s', lost, copied);
      case ProcOp(r, ok) => ProcKeeps(s, s', r, ok, copied);
      case NewProc(r) => NewKeeps(s, s', r, copied);
      case DropProc(r) => DropKeeps(s, s', r, copied);
    }
  }

  /** A kernel half that was full of pointers when a process copied it is the same in both roots ever after. */
  lemma PopulatedHalfIsShared(states: seq<System>, steps: seq<Step>, n: nat, r: nat)
    requires Run(states, steps) && n <= |steps| && SystemOk(states[0]) && r in CopiedAfter(states, steps, n)
    requires forall i: nat :: KERNEL_INDEX <= i < PTES_PER_PT ==> i in CopiedAfter(states, steps, n)[r]
    ensures forall i: nat :: KERNEL_INDEX <= i < PTES_PER_PT ==> Shares(states[n], r, i)
  {
    KernelHalfStaysShared(states, steps, n);
    var copied := CopiedAfter(states, steps, n);
    forall i: nat | KERNEL_INDEX <= i < PTES_PER_PT
      ensures Shares(states[n], r, i)
    {
      assert i in copied[r];
    }
  }

  // ----- Released roots -----

  /** The processes with a map or unmap that failed, after a step. */
  ghost function Spoiled(step: Step, spoiled: set<nat>): (r: set<nat>) {
    match step
    case ProcOp(r, ok) => if ok then spoiled else spoiled + {r}
    case NewProc(r) => spoiled - {r}
    case DropProc(r) => spoiled - {r}
    case KernelOp(_) => spoiled
  }

  ghost function SpoiledAfter(steps: seq<Step>, n: nat): (r: set<nat>)
    requires n <= |steps|
  {
    if n == 0 then {} else Spoiled(steps[n - 1], SpoiledAfter(steps, n - 1))
  }

  ghost predicate ProcFull(s: System, r: nat) {
    r in s.procs && NoEmpty(s.procs[r], s.m, false)
  }

  /** No other process has a table without entries. */
  ghost predicate Reclaimed(s: System, spoiled: set<nat>) {
    forall r {:trigger ProcFull(s, r)} :: r in s.procs && r !in spoiled ==> ProcFull(s, r)
  }

  /** A space whose tables are as they were has no empty one if it had none. */
  lemma StillReclaimed(sp: Space, m: Tables, m': Tables)
    requires Inv(sp, m) && NoEmpty(sp, m, false) && forall p :: p in sp.tab ==> SamePage(m, m', sp.tab[p])
    ensures NoEmpty(sp, m', false)
  {
    FullFrame(sp, m, m', false, 2, Page(0, 0, 0));
  }

  lemma ReclaimedKept(s: System, step: Step, s': System, spoiled: set<nat>, r: nat)
    requires SystemOk(s) && Next(s, step, s') && Reclaimed(s, spoiled) && r in s'.procs && r !in Spoiled(step, spoiled)
    ensures ProcFull(s', r)
  {
    assert r in s.procs ==> ProcOk(s, r) && (r !in spoiled ==> ProcFull(s, r));
    match step
    case KernelOp(lost) =>
      Untouched(s.kernel, s.m, s'.kernel, s'.m, lost, s.procs[r]);
      StillReclaimed(s.procs[r], s.m, s'.m);
    case ProcOp(q, ok) =>
      assert ProcOk(s, q);
      if r != q {
        Untouched(s.procs[q], s.m, s'.procs[q], s'.m, {}, s.procs[r]);
        StillReclaimed(s.procs[r], s.m, s'.m);
      }
    case NewProc(q) =>
      if r == q {
        assert s'.procs[r].tab == map[Root := r];
      } else {
        OtherTables(s, s', q, r);
        StillReclaimed(s.procs[r], s.m, s'.m);
      }
    case DropProc(q) =>
      assert ProcOk(s, q);
      OtherTables(s, s', q, r);
      StillReclaimed(s.procs[r], s.m, s'.m);
  }

  /** A root that comes or goes is no table of another process. */
  lemma OtherTables(s: System, s': System, q: nat, r: nat)
    requires SystemOk(s) && r in s.procs && r != q
    requires NewStep(s, s', q) || DropStep(s, s', q)
    ensures forall p :: p in s.procs[r].tab ==> SamePage(s.m, s'.m, s.procs[r].tab[p])
  {
    assert ProcOk(s, r) && (q in s.procs ==> ProcOk(s, q));
    if q in s.procs {
      Rooted(s.procs[q], s.m);
    }
    assert LookInv(0);
  }

  lemma {:induction false} AllReclaimed(states: seq<System>, steps: seq<Step>, n: nat)
    requires Run(states, steps) && n <= |steps| && SystemOk(states[0]) && Reclaimed(states[0], {})
    ensures Reclaimed(states[n], SpoiledAfter(steps, n))
    decreases n
  {
    if n > 0 {
      AllReclaimed(states, steps, n - 1);
      ReclaimedOnce(states, steps, n - 1);
    }
  }

  lemma ReclaimedOnce(states: seq<System>, steps: seq<Step>, n: nat)
    requires Run(states, steps) && n < |steps| && SystemOk(states[0]) && Reclaimed(states[n], SpoiledAfter(steps, n))
    ensures Reclaimed(states[n + 1], SpoiledAfter(steps, n + 1))
  {
    assert Next(states[n], steps[n], states[n + 1]);
    KernelHalfStaysShared(states, steps, n);
    ReclaimedStep(states[n], steps[n], states[n + 1], SpoiledAfter(steps, n));
  }

  lemma ReclaimedStep(s: System, step: Step, s': System, spoiled: set<nat>)
    requires SystemOk(s) && Next(s, step, s') && Reclaimed(s, spoiled)
    ensures Reclaimed(s', Spoiled(step, spoiled))
  {
    forall r | r in s'.procs && r !in Spoiled(step, spoiled)
      ensures ProcFull(s', r)
    {
      ReclaimedKept(s, step, s', spoiled, r);
    }
  }

  /**
   When a process whose maps and unmaps all succeeded has unmapped everything, its root is all
   that is left of its tables, so releasing the root alone loses none.
   */
  lemma RootIsAllThatIsLeft(states: seq<System>, steps: seq<Step>, n: nat, r: nat)
    requires Run(states, steps) && n <= |steps| && SystemOk(states[0]) && Reclaimed(states[0], {})
    requires r in states[n].procs && r !in SpoiledAfter(steps, n)
    requires forall v: nat :: v < Limit(states[n].procs[r]) ==>
             Translate(states[n].procs[r], states[n].m, v) == Unmapped
    ensures states[n].procs[r].tab == map[Root := r]
  {
    AllReclaimed(states, steps, n);
    KernelHalfStaysShared(states, steps, n);
    assert ProcOk(states[n], r) && ProcFull(states[n], r);
    NothingLeft(states[n].procs[r], states[n].m);
  }
}
