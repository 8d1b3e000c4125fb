/**
 The translation caches of all CPUs and the identifiers (ASIDs) that tag them.

 A step model: hardware fills and evictions interleave with the kernel's steps in mm/asid.c,
 mm/vma.c, mm/paging.c, arch/riscv/task.c and arch/riscv/cpu.c. Pages are numbers, and a cached
 translation is a leaf entry of some page table, as sfence.vma addresses it. The kernel half is
 shared by all roots and left out.
 */
module Tlb {
  import opened Basics
  import opened Wrappers

  /** A leaf entry that maps n pages from `base` to `phys`; `deep` says that pointers lead to it. */
  datatype Leaf = Leaf(base: nat, n: nat, phys: nat, flags: nat, deep: bool)

  datatype Tag = Asid(id: nat) | Global

  datatype Entry = Entry(tag: Tag, leaf: Leaf)

  /** What the kernel is doing to an address space (`uvma_dealloc_range`), on which CPU. */
  datatype Op =
    | Idle
    | Unmapping(cpu: nat, lo: nat, hi: nat)
    | Shooting(cpu: nat, lo: nat, hi: nat, rest: set<nat>)

  datatype Proc = Proc(asid: nat, pt: set<Leaf>, ran: bool, op: Op)

  /** What satp holds: the kernel's root, or the root and the identifier of a process. */
  datatype Root = Kernel | Of(pid: nat, asid: nat)

  /** `current` is `current_task`; `root` is what the walker uses. */
  datatype Cpu = Cpu(current: Option<nat>, root: Root, tlb: set<Entry>)

  /**
   `pointerG`: the walker treats what lies below a pointer with the G bit as global. `keeps`: a
   CPU that released its task in wait, and finds no other, stays on the root of that task. Both
   are so for this kernel on hardware that follows the standard.
   */
  datatype Config = Config(pointerG: bool, keeps: bool)

  /** `scrub` holds the identifiers that `asid_free` is flushing, with the CPUs still to flush. */
  datatype State = State(procs: map<nat, Proc>, free: set<nat>, scrub: map<nat, set<nat>>, cpus: seq<Cpu>)

  datatype Step =
    | Fill(cpu: nat, leaf: Leaf)
    | Evict(cpu: nat, entries: set<Entry>)
    | Create(pid: nat, asid: nat)
    | Map(cpu: nat, pid: nat, leaf: Leaf)
    | Split(cpu: nat, pid: nat, leaf: Leaf, parts: set<Leaf>)
    | BeginUnmap(cpu: nat, pid: nat, lo: nat, hi: nat)
    | Clear(cpu: nat, pid: nat, leaf: Leaf)
    | BeginShoot(cpu: nat, pid: nat)
    | Shoot(pid: nat, at: nat)
    | EndShoot(pid: nat)
    | Switch(cpu: nat, pid: nat)
    | Release(cpu: nat)
    | Deactivate(cpu: nat)
    | Exit(cpu: nat, pid: nat)
    | Scrub(asid: nat, at: nat)
    | Recycle(asid: nat)

  // Leaves and what they translate.

  predicate Has(l: Leaf, v: nat) {
    l.base <= v < l.base + l.n
  }

  predicate Meets(a: Leaf, b: Leaf) {
    a.base < b.base + b.n && b.base < a.base + a.n
  }

  predicate Inside(a: Leaf, b: Leaf) {
    b.base <= a.base && a.base + a.n <= b.base + b.n
  }

  predicate Same(a: Leaf, b: Leaf, v: nat) {
    a.phys + (v - a.base) == b.phys + (v - b.base) && a.flags == b.flags
  }

  /** The page table translates v as the leaf l does. */
  ghost predicate Agrees(pt: set<Leaf>, l: Leaf, v: nat) {
    exists k :: k in pt && Has(k, v) && Same(k, l, v)
  }

  /** The frame and the flags of a page. */
  datatype Target = Target(frame: nat, flags: nat)

  function Sends(l: Leaf, v: nat): (t: Target)
    requires Has(l, v)
  {
    Target(l.phys + (v - l.base), l.flags)
  }

  /** What the page table makes of a page. */
  ghost function Translate(pt: set<Leaf>, v: nat): (t: Option<Target>) {
    if exists k :: k in pt && Has(k, v) then
      var k :| k in pt && Has(k, v);
      Some(Sends(k, v))
    else
      None
  }

  ghost predicate Separate(pt: set<Leaf>) {
    && (forall a :: a in pt ==> a.n > 0)
    && (forall a, b :: a in pt && b in pt && Meets(a, b) ==> a == b)
  }

  /** The parts of a split leaf cover it and translate as it does. */
  ghost predicate Splits(l: Leaf, parts: set<Leaf>) {
    && Separate(parts)
    && (forall k :: k in parts ==> Inside(k, l) && k.deep && Same(k, l, k.base))
    && (forall v: nat :: Has(l, v) ==> exists k :: k in parts && Has(k, v))
  }

  // Hardware.

  function TagOf(pointerG: bool, asid: nat, l: Leaf): (t: Tag) {
    if pointerG && l.deep then Global else Asid(asid)
  }

  ghost predicate Matches(e: Entry, asid: nat) {
    e.tag == Global || e.tag == Asid(asid)
  }

  function FlushPage(tlb: set<Entry>, v: nat): (r: set<Entry>) {
    set e | e in tlb && !Has(e.leaf, v)
  }

  function FlushAsid(tlb: set<Entry>, asid: nat): (r: set<Entry>) {
    set e | e in tlb && e.tag != Asid(asid)
  }

  function FlushRange(tlb: set<Entry>, asid: nat, lo: nat, hi: nat): (r: set<Entry>) {
    set e | e in tlb && !(e.tag == Asid(asid) && e.leaf.base < hi && lo < e.leaf.base + e.leaf.n)
  }

  // Steps.

  predicate Runs(s: State, c: nat, p: nat) {
    c < |s.cpus| && s.cpus[c].current == Some(p)
  }

  ghost predicate Nowhere(s: State, p: nat) {
    forall c: nat :: c < |s.cpus| ==> s.cpus[c].current != Some(p)
  }

  /** The address space is the current one of the CPU, or it never ran. */
  predicate Handles(s: State, c: nat, p: nat) {
    c < |s.cpus| && p in s.procs && (s.cpus[c].current == Some(p) || !s.procs[p].ran)
  }

  /** The CPU may switch away from its address space. */
  predicate Free(s: State, c: nat) {
    c < |s.cpus|
    && (s.cpus[c].current.Some? ==> s.cpus[c].current.value in s.procs && s.procs[s.cpus[c].current.value].op.Idle?)
  }

  /** The root of the process is in use by the walker of some CPU. */
  ghost predicate Loaded(s: State, p: nat) {
    exists c: nat :: c < |s.cpus| && s.cpus[c].root.Of? && s.cpus[c].root.pid == p
  }

  /** A walk may find the leaf; the root of a process that is gone is a free page and holds anything. */
  predicate Walks(s: State, root: Root, l: Leaf) {
    root.Of? && (root.pid in s.procs ==> l in s.procs[root.pid].pt)
  }

  /** Process numbers are not used twice (`Create`). */
  ghost predicate Enabled(s: State, step: Step) {
    match step
    case Fill(c, l) => c < |s.cpus| && Walks(s, s.cpus[c].root, l)
    case Evict(c, _) => c < |s.cpus|
    case Create(p, a) => p !in s.procs && !Loaded(s, p) && if s.free == {} then a == 0 else a in s.free
    case Map(c, p, l) =>
      && c < |s.cpus| && p in s.procs && s.procs[p].op.Idle? && (Runs(s, c, p) || Nowhere(s, p))
      && l.n > 0 && forall k :: k in s.procs[p].pt ==> !Meets(k, l)
    case Split(c, p, l, parts) =>
      c < |s.cpus| && p in s.procs && (Runs(s, c, p) || Nowhere(s, p)) && l in s.procs[p].pt && Splits(l, parts)
    case BeginUnmap(c, p, lo, hi) => Handles(s, c, p) && s.procs[p].op.Idle?
    case Clear(c, p, l) =>
      Handles(s, c, p) && l in s.procs[p].pt && s.procs[p].op.Unmapping? && s.procs[p].op.cpu == c
      && s.procs[p].op.lo <= l.base && l.base + l.n <= s.procs[p].op.hi
    case BeginShoot(c, p) => Handles(s, c, p) && s.procs[p].op.Unmapping? && s.procs[p].op.cpu == c
    case Shoot(p, i) => p in s.procs && s.procs[p].op.Shooting? && i in s.procs[p].op.rest && i < |s.cpus|
    case EndShoot(p) => p in s.procs && s.procs[p].op.Shooting? && s.procs[p].op.rest == {}
    case Switch(c, p) => Free(s, c) && p in s.procs && s.procs[p].op.Idle? && Nowhere(s, p)
    case Release(c) => Free(s, c) && s.cpus[c].current.Some?
    case Deactivate(c) => Free(s, c)
    case Exit(c, p) => Handles(s, c, p) && s.procs[p].op.Idle? && s.procs[p].pt == {}
    case Scrub(a, i) => a in s.scrub && i in s.scrub[a] && i < |s.cpus|
    case Recycle(a) => a in s.scrub && s.scrub[a] == {}
  }

  function SetTlb(s: State, c: nat, tlb: set<Entry>): (s': State)
    requires c < |s.cpus|
  {
    s.(cpus := s.cpus[c := s.cpus[c].(tlb := tlb)])
  }

  function SetProc(s: State, p: nat, proc: Proc): (s': State) {
    s.(procs := s.procs[p := proc])
  }

  /** `local_flush_tlb_page` where the address space is live on the CPU (`tlb_scope_of`). */
  function FlushLive(s: State, c: nat, p: nat, v: nat): (s': State)
    requires c < |s.cpus|
  {
    if Runs(s, c, p) then SetTlb(s, c, FlushPage(s.cpus[c].tlb, v)) else s
  }

  ghost function Apply(cfg: Config, s: State, step: Step): (s': State)
    requires Enabled(s, step)
  {
    match step
    case Fill(c, l) => SetTlb(s, c, s.cpus[c].tlb + {Entry(TagOf(cfg.pointerG, s.cpus[c].root.asid, l), l)})
    case Evict(c, es) => SetTlb(s, c, s.cpus[c].tlb - es)
    case Create(p, a) => s.(procs := s.procs[p := Proc(a, {}, false, Idle)], free := s.free - {a})
    case Map(c, p, l) => FlushLive(SetProc(s, p, s.procs[p].(pt := s.procs[p].pt + {l})), c, p, l.base)
    case Split(c, p, l, parts) => SetProc(s, p, s.procs[p].(pt := s.procs[p].pt - {l} + parts))
    case BeginUnmap(c, p, lo, hi) => SetProc(s, p, s.procs[p].(op := Unmapping(c, lo, hi)))
    case Clear(c, p, l) => FlushLive(SetProc(s, p, s.procs[p].(pt := s.procs[p].pt - {l})), c, p, l.base)
    case BeginShoot(c, p) =>
      SetProc(s, p, s.procs[p].(op := Shooting(c, s.procs[p].op.lo, s.procs[p].op.hi, AllBelow(|s.cpus|) - {c})))
    case Shoot(p, i) =>
      var op := s.procs[p].op;
      SetTlb(SetProc(s, p, s.procs[p].(op := op.(rest := op.rest - {i}))), i,
             FlushRange(s.cpus[i].tlb, s.procs[p].asid, op.lo, op.hi))
    case EndShoot(p) => SetProc(s, p, s.procs[p].(op := Idle))
    case Switch(c, p) =>
      var tlb := if s.procs[p].asid == 0 then {} else s.cpus[c].tlb;
      SetProc(s, p, s.procs[p].(ran := true)).(cpus := s.cpus[c := Cpu(Some(p), Of(p, s.procs[p].asid), tlb)])
    case Release(c) =>
      s.(cpus := s.cpus[c := s.cpus[c].(current := None, root := if cfg.keeps then s.cpus[c].root else Kernel)])
    case Deactivate(c) => s.(cpus := s.cpus[c := s.cpus[c].(current := None, root := Kernel)])
    case Exit(c, p) =>
      var a := s.procs[p].asid;
      State(s.procs - {p}, s.free, if a == 0 then s.scrub else s.scrub[a := AllBelow(|s.cpus|)],
            if Runs(s, c, p) then s.cpus[c := s.cpus[c].(current := None, root := Kernel)] else s.cpus)
    case Scrub(a, i) => SetTlb(s.(scrub := s.scrub[a := s.scrub[a] - {i}]), i, FlushAsid(s.cpus[i].tlb, a))
    case Recycle(a) => s.(scrub := s.scrub - {a}, free := s.free + {a})
  }

  // Runs and the property.

  /** The state after boot: nothing cached, no processes, identifiers 1 to nr - 1 free. */
  ghost predicate Init(s: State) {
    && s.procs == map[] && s.scrub == map[] && 0 !in s.free
    && forall c :: 0 <= c < |s.cpus| ==> s.cpus[c] == Cpu(None, Kernel, {})
  }

  ghost predicate Reaches(cfg: Config, s: State, steps: seq<Step>, s': State)
    decreases |steps|
  {
    if steps == [] then s' == s
    else
      var last := |steps| - 1;
      exists m :: Reaches(cfg, s, steps[..last], m) && Enabled(m, steps[last]) && s' == Apply(cfg, m, steps[last])
  }

  /** A process with its own identifier exits while another CPU still has its root. */
  ghost predicate Lingers(s: State, step: Step) {
    && step.Exit? && step.pid in s.procs && s.procs[step.pid].asid != 0
    && exists d: nat ::
         d < |s.cpus| && s.cpus[d].root.Of? && s.cpus[d].root.pid == step.pid && s.cpus[d].current != Some(step.pid)
  }

  /**
   A CPU enters a process with its own identifier, and has a global translation that is not one
   of that process: nothing flushes it.
   */
  ghost predicate Brings(s: State, step: Step) {
    && step.Switch? && step.cpu < |s.cpus| && step.pid in s.procs && s.procs[step.pid].asid != 0
    && exists e :: e in s.cpus[step.cpu].tlb && e.tag == Global && !Good(s.procs[step.pid], step.cpu, e.leaf)
  }

  /** A run without such exits and entries. */
  ghost predicate Calm(cfg: Config, s: State, steps: seq<Step>, s': State)
    decreases |steps|
  {
    if steps == [] then s' == s
    else
      var last := |steps| - 1;
      exists m :: Calm(cfg, s, steps[..last], m) && Enabled(m, steps[last]) && !Lingers(m, steps[last])
        && !Brings(m, steps[last]) && s' == Apply(cfg, m, steps[last])
  }

  ghost predicate Reachable(cfg: Config, s: State) {
    exists first, steps :: Init(first) && Reaches(cfg, first, steps, s)
  }

  /** Everything a CPU has cached for its current address space is what that page table says. */
  ghost predicate Fresh(s: State) {
    forall c: nat, e, v: nat :: c < |s.cpus| && e in s.cpus[c].tlb && s.cpus[c].current.Some? && Has(e.leaf, v) ==>
      var p := s.cpus[c].current.value;
      p in s.procs && (Matches(e, s.procs[p].asid) ==> Agrees(s.procs[p].pt, e.leaf, v))
  }

  // The invariant.

  /** The CPU may still hold translations of the range that is being unmapped. */
  ghost predicate Pending(op: Op, c: nat) {
    (op.Unmapping? && op.cpu != c) || (op.Shooting? && c in op.rest)
  }

  ghost predicate Good(q: Proc, c: nat, l: Leaf) {
    && l.n > 0
    && (forall v: nat :: Has(l, v) ==> Agrees(q.pt, l, v) || (Pending(q.op, c) && q.op.lo <= v < q.op.hi))
    && (forall k :: k in q.pt && Meets(k, l) ==> Inside(k, l))
  }

  /**
   The entry concerns the process: by its own identifier, untagged on a CPU that has its root, or
   as a global one on the CPU that runs it.
   */
  predicate Owns(s: State, c: nat, e: Entry, p: nat) {
    && c < |s.cpus| && p in s.procs
    && if e.tag.Global? then s.cpus[c].current == Some(p)
       else e.tag == Asid(s.procs[p].asid) && (s.procs[p].asid != 0 || s.cpus[c].root == Of(p, 0))
  }

  ghost predicate EntryOk(s: State, c: nat, e: Entry) {
    && (e.tag.Asid? ==> e.tag.id !in s.free && (e.tag.id in s.scrub ==> c in s.scrub[e.tag.id]))
    && forall p :: Owns(s, c, e, p) ==> s.procs[p].ran && Good(s.procs[p], c, e.leaf)
  }

  ghost predicate ProcOk(s: State, p: nat) {
    && p in s.procs && Separate(s.procs[p].pt)
    && s.procs[p].asid !in s.free && s.procs[p].asid !in s.scrub
    && (!s.procs[p].op.Idle? ==> Handles(s, s.procs[p].op.cpu, p))
    && (s.procs[p].op.Shooting? ==> s.procs[p].op.cpu !in s.procs[p].op.rest)
    && (!s.procs[p].ran ==> Nowhere(s, p) && !Loaded(s, p))
  }

  /** The root is that of the current process, or one left behind. */
  ghost predicate RootOk(s: State, c: nat)
    requires c < |s.cpus|
  {
    var cpu := s.cpus[c];
    && (cpu.current.Some? ==>
        cpu.current.value in s.procs && cpu.root == Of(cpu.current.value, s.procs[cpu.current.value].asid))
    && (cpu.root.Of? && cpu.root.pid in s.procs ==> cpu.root.asid == s.procs[cpu.root.pid].asid)
    && (cpu.root.Of? && cpu.root.pid !in s.procs ==> cpu.root.asid == 0)
  }

  /** Identifiers in use, free and being flushed are kept apart. */
  ghost predicate IdsOk(s: State) {
    && 0 !in s.free && 0 !in s.scrub && s.free !! s.scrub.Keys
    && forall p, q :: p in s.procs && q in s.procs && s.procs[p].asid == s.procs[q].asid != 0 ==> p == q
  }

  ghost predicate CurrentsOk(s: State) {
    forall c: nat, d: nat ::
      c < |s.cpus| && d < |s.cpus| && s.cpus[c].current.Some? && s.cpus[c].current == s.cpus[d].current ==> c == d
  }

  ghost predicate Inv(s: State) {
    && IdsOk(s) && CurrentsOk(s)
    && (forall p {:trigger ProcOk(s, p)} :: p in s.procs ==> ProcOk(s, p))
    && (forall c: nat {:trigger RootOk(s, c)} :: c < |s.cpus| ==> RootOk(s, c))
    && (forall c: nat, e {:trigger EntryOk(s, c, e)} :: c < |s.cpus| && e in s.cpus[c].tlb ==> EntryOk(s, c, e))
  }

  lemma GoodMapped(q: Proc, c: nat, l: Leaf, leaf: Leaf)
    requires Good(q, c, l) && q.op.Idle? && leaf.n > 0 && forall k :: k in q.pt ==> !Meets(k, leaf)
    ensures Good(q.(pt := q.pt + {leaf}), c, l)
  {
    forall v: nat | Has(l, v)
      ensures Agrees(q.pt + {leaf}, l, v) && !Has(leaf, v)
    {
      assert Agrees(q.pt, l, v);
      var k :| k in q.pt && Has(k, v) && Same(k, l, v);
      assert k in q.pt + {leaf};
    }
    if Meets(leaf, l) {
      var v := if leaf.base >= l.base then leaf.base else l.base;
      assert Has(l, v) && Has(leaf, v);
    }
  }

  lemma GoodSplit(q: Proc, c: nat, l: Leaf, leaf: Leaf, parts: set<Leaf>)
    requires Good(q, c, l) && leaf in q.pt && Separate(q.pt) && Splits(leaf, parts)
    ensures Good(q.(pt := q.pt - {leaf} + parts), c, l)
  {
    forall v: nat | Has(l, v) && Agrees(q.pt, l, v)
      ensures Agrees(q.pt - {leaf} + parts, l, v)
    {
      var k :| k in q.pt && Has(k, v) && Same(k, l, v);
      if k == leaf {
        var part :| part in parts && Has(part, v);
        assert part in q.pt - {leaf} + parts;
      } else {
        assert k in q.pt - {leaf} + parts;
      }
    }
  }

  lemma GoodCleared(q: Proc, c: nat, l: Leaf, leaf: Leaf)
    requires Good(q, c, l) && q.op.Unmapping? && leaf in q.pt && Separate(q.pt)
    requires if Pending(q.op, c) then q.op.lo <= leaf.base && leaf.base + leaf.n <= q.op.hi else !Has(l, leaf.base)
    ensures Good(q.(pt := q.pt - {leaf}), c, l)
  {
    forall v: nat | Has(l, v)
      ensures Agrees(q.pt - {leaf}, l, v) || (Pending(q.op, c) && q.op.lo <= v < q.op.hi)
    {
      if Agrees(q.pt, l, v) {
        var k :| k in q.pt && Has(k, v) && Same(k, l, v);
        assert k != leaf ==> k in q.pt - {leaf};
      }
    }
  }

  lemma IdsKept(cfg: Config, s: State, step: Step)
    requires Inv(s) && Enabled(s, step)
    ensures IdsOk(Apply(cfg, s, step))
  {
    forall p | p in s.procs
      ensures s.procs[p].asid !in s.free && s.procs[p].asid !in s.scrub
    {
      assert ProcOk(s, p);
    }
  }

  lemma CurrentsKept(cfg: Config, s: State, step: Step)
    requires CurrentsOk(s) && Enabled(s, step)
    ensures CurrentsOk(Apply(cfg, s, step))
  {
  }

  /** Steps that change what a process maps, or the translations of it. */
  predicate IsMemory(step: Step) {
    step.Fill? || step.Evict? || step.Map? || step.Split? || step.BeginUnmap? || step.Clear? || step.BeginShoot?
      || step.Shoot?
    || step.EndShoot?
  }

  lemma ProcKept(cfg: Config, s: State, step: Step, p: nat)
    requires Inv(s) && Enabled(s, step) && p in Apply(cfg, s, step).procs
    ensures ProcOk(Apply(cfg, s, step), p)
  {
    assert p in s.procs ==> ProcOk(s, p);
    if IsMemory(step) {
      MemoryProc(cfg, s, step, p);
    } else {
      forall c: nat | c < |s.cpus|
        ensures s.cpus[c].current.Some? ==> s.cpus[c].current.value in s.procs
      {
        assert RootOk(s, c);
      }
      if step.Exit? {
        assert ProcOk(s, step.pid);
      }
    }
  }

  lemma MemoryProc(cfg: Config, s: State, step: Step, p: nat)
    requires Enabled(s, step) && IsMemory(step) && p in s.procs && ProcOk(s, p)
    ensures ProcOk(Apply(cfg, s, step), p)
  {
  }

  lemma RootKept(cfg: Config, s: State, step: Step, c: nat)
    requires Inv(s) && Enabled(s, step) && !Lingers(s, step) && c < |s.cpus|
    ensures RootOk(Apply(cfg, s, step), c)
  {
    assert RootOk(s, c);
    if step.Exit? {
      assert ProcOk(s, step.pid);
    }
  }

  lemma EntryKept(cfg: Config, s: State, step: Step, c: nat, e: Entry)
    requires Inv(s) && Enabled(s, step) && !Lingers(s, step) && !Brings(s, step)
    requires c < |s.cpus| && e in Apply(cfg, s, step).cpus[c].tlb
    ensures EntryOk(Apply(cfg, s, step), c, e)
  {
    assert RootOk(s, c) && (e in s.cpus[c].tlb ==> EntryOk(s, c, e));
    if IsMemory(step) {
      MemoryEntry(cfg, s, step, c, e);
    } else if step.Exit? {
      assert ProcOk(s, step.pid);
    }
  }

  lemma MemoryEntry(cfg: Config, s: State, step: Step, c: nat, e: Entry)
    requires Inv(s) && Enabled(s, step) && IsMemory(step)
    requires c < |s.cpus| && RootOk(s, c) && e in Apply(cfg, s, step).cpus[c].tlb
             && (e in s.cpus[c].tlb ==> EntryOk(s, c, e))
    ensures EntryOk(Apply(cfg, s, step), c, e)
  {
    match step
    case Map(_, _, _) => MapEntry(cfg, s, step, c, e);
    case Split(_, _, _, _) => SplitEntry(cfg, s, step, c, e);
    case Clear(_, _, _) => ClearEntry(cfg, s, step, c, e);
    case Fill(_, _) => FillEntry(cfg, s, step, c, e);
    case Evict(_, _) =>
    case _ => OpEntry(cfg, s, step, c, e);
  }

  /** The steps of an unmap that leave the page table alone */
  lemma OpEntry(cfg: Config, s: State, step: Step, c: nat, e: Entry)
    requires Inv(s) && Enabled(s, step) && (step.BeginUnmap? || step.BeginShoot? || step.Shoot? || step.EndShoot?)
    requires c < |s.cpus| && e in Apply(cfg, s, step).cpus[c].tlb && EntryOk(s, c, e)
    ensures EntryOk(Apply(cfg, s, step), c, e)
  {
    assert ProcOk(s, step.pid);
  }

  lemma MapEntry(cfg: Config, s: State, step: Step, c: nat, e: Entry)
    requires Inv(s) && Enabled(s, step) && step.Map?
    requires c < |s.cpus| && e in Apply(cfg, s, step).cpus[c].tlb && EntryOk(s, c, e)
    ensures EntryOk(Apply(cfg, s, step), c, e)
  {
    if Owns(s, c, e, step.pid) {
      GoodMapped(s.procs[step.pid], c, e.leaf, step.leaf);
    }
  }

  lemma SplitEntry(cfg: Config, s: State, step: Step, c: nat, e: Entry)
    requires Inv(s) && Enabled(s, step) && step.Split?
    requires c < |s.cpus| && e in Apply(cfg, s, step).cpus[c].tlb && EntryOk(s, c, e)
    ensures EntryOk(Apply(cfg, s, step), c, e)
  {
    assert ProcOk(s, step.pid);
    if Owns(s, c, e, step.pid) {
      GoodSplit(s.procs[step.pid], c, e.leaf, step.leaf, step.parts);
    }
  }

  lemma ClearEntry(cfg: Config, s: State, step: Step, c: nat, e: Entry)
    requires Inv(s) && Enabled(s, step) && step.Clear?
    requires c < |s.cpus| && e in Apply(cfg, s, step).cpus[c].tlb && EntryOk(s, c, e)
    ensures EntryOk(Apply(cfg, s, step), c, e)
  {
    assert ProcOk(s, step.pid);
    if Owns(s, c, e, step.pid) {
      GoodCleared(s.procs[step.pid], c, e.leaf, step.leaf);
    }
  }

  lemma FillEntry(cfg: Config, s: State, step: Step, c: nat, e: Entry)
    requires Inv(s) && Enabled(s, step) && step.Fill?
    requires c < |s.cpus| && RootOk(s, c) && e in Apply(cfg, s, step).cpus[c].tlb
             && (e in s.cpus[c].tlb ==> EntryOk(s, c, e))
    ensures EntryOk(Apply(cfg, s, step), c, e)
  {
    var root := s.cpus[step.cpu].root;
    if root.pid in s.procs {
      assert ProcOk(s, root.pid);
    }
  }

  // What the steps do to the page tables.

  lemma TranslateBy(pt: set<Leaf>, l: Leaf, v: nat)
    requires Separate(pt) && l in pt && Has(l, v)
    ensures Translate(pt, v) == Some(Sends(l, v))
  {
    var k :| k in pt && Has(k, v) && Translate(pt, v) == Some(Sends(k, v));
    assert Has(k, v) && Meets(k, l);
  }

  lemma TranslateSame(pt: set<Leaf>, pt': set<Leaf>, v: nat)
    requires Separate(pt) && Separate(pt') && forall k :: Has(k, v) ==> (k in pt <==> k in pt')
    ensures Translate(pt', v) == Translate(pt, v)
  {
    if k :| k in pt && Has(k, v) {
      TranslateBy(pt, k, v);
      TranslateBy(pt', k, v);
    }
  }

  lemma TranslateSplit(pt: set<Leaf>, l: Leaf, parts: set<Leaf>, v: nat)
    requires Separate(pt) && Separate(pt - {l} + parts) && l in pt && Splits(l, parts)
    ensures Translate(pt - {l} + parts, v) == Translate(pt, v)
  {
    var pt' := pt - {l} + parts;
    if Has(l, v) {
      var k :| k in parts && Has(k, v);
      TranslateBy(pt, l, v);
      TranslateBy(pt', k, v);
    } else {
      assert forall k :: k in parts ==> !Has(k, v);
      TranslateSame(pt, pt', v);
    }
  }

  /** What a step makes of a page of an address space: only mapping it and clearing its leaf change that. */
  ghost function Turned(step: Step, p: nat, v: nat, was: Option<Target>): (t: Option<Target>) {
    if step.Map? && step.pid == p && Has(step.leaf, v) then Some(Sends(step.leaf, v))
    else if step.Clear? && step.pid == p && Has(step.leaf, v) then None
    else was
  }

  /** The steps as translations, in every address space and for every page. */
  lemma StepTranslates(cfg: Config, s: State, step: Step, p: nat, v: nat)
    requires Inv(s) && Enabled(s, step) && p in Apply(cfg, s, step).procs
    ensures var now := Translate(Apply(cfg, s, step).procs[p].pt, v);
            if p in s.procs then now == Turned(step, p, v, Translate(s.procs[p].pt, v)) else step.Create? && now == None
  {
    if p in s.procs && s.procs[p].pt != Apply(cfg, s, step).procs[p].pt {
      PtTranslates(cfg, s, step, p, v);
    }
  }

  lemma PtTranslates(cfg: Config, s: State, step: Step, p: nat, v: nat)
    requires Inv(s) && Enabled(s, step) && (step.Map? || step.Split? || step.Clear?) && step.pid == p
    ensures Translate(Apply(cfg, s, step).procs[p].pt, v) == Turned(step, p, v, Translate(s.procs[p].pt, v))
  {
    ProcKept(cfg, s, step, p);
    assert ProcOk(s, p);
    var pt, pt' := s.procs[p].pt, Apply(cfg, s, step).procs[p].pt;
    match step
    case Map(_, _, l) =>
      assert pt' == pt + {l};
      if Has(l, v) {
        TranslateBy(pt', l, v);
      } else {
        TranslateSame(pt, pt', v);
      }
    case Split(_, _, l, parts) =>
      assert pt' == pt - {l} + parts;
      TranslateSplit(pt, l, parts, v);
    case Clear(_, _, l) =>
      assert pt' == pt - {l};
      if Has(l, v) {
        forall k | k in pt && Has(k, v)
          ensures k == l
        {
          assert Meets(k, l);
        }
      } else {
        TranslateSame(pt, pt', v);
      }
  }

  /** Every other step of the kernel and of the hardware keeps the invariant. */
  lemma StepKeeps(cfg: Config, s: State, step: Step)
    requires Inv(s) && Enabled(s, step) && !Lingers(s, step) && !Brings(s, step)
    ensures Inv(Apply(cfg, s, step))
  {
    var s' := Apply(cfg, s, step);
    IdsKept(cfg, s, step);
    CurrentsKept(cfg, s, step);
    forall p | p in s'.procs
      ensures ProcOk(s', p)
    {
      ProcKept(cfg, s, step, p);
    }
    forall c: nat | c < |s'.cpus|
      ensures RootOk(s', c)
    {
      RootKept(cfg, s, step, c);
    }
    forall c: nat, e | c < |s'.cpus| && e in s'.cpus[c].tlb
      ensures EntryOk(s', c, e)
    {
      EntryKept(cfg, s, step, c, e);
    }
  }

  /** A calm run from any state that the invariant admits. */
  lemma {:induction false} CalmKeeps(cfg: Config, s: State, steps: seq<Step>, s': State)
    requires Inv(s) && Calm(cfg, s, steps, s')
    ensures Inv(s')
    decreases |steps|
  {
    if steps != [] {
      var m := CalmLast(cfg, s, steps, s');
      CalmKeeps(cfg, s, steps[..|steps| - 1], m);
      StepKeeps(cfg, m, steps[|steps| - 1]);
    }
  }

  lemma CalmLast(cfg: Config, s: State, steps: seq<Step>, s': State) returns (m: State)
    requires steps != [] && Calm(cfg, s, steps, s')
    ensures var last := |steps| - 1;
            && Calm(cfg, s, steps[..last], m) && Enabled(m, steps[last]) && !Lingers(m, steps[last])
            && !Brings(m, steps[last]) && s' == Apply(cfg, m, steps[last])
  {
    var last := |steps| - 1;
    m :| Calm(cfg, s, steps[..last], m) && Enabled(m, steps[last]) && !Lingers(m, steps[last])
      && !Brings(m, steps[last]) && s' == Apply(cfg, m, steps[last]);
  }

  lemma CalmInv(cfg: Config, s: State, steps: seq<Step>, s': State)
    requires Init(s) && Calm(cfg, s, steps, s')
    ensures Inv(s')
  {
    CalmKeeps(cfg, s, steps, s');
  }

  // The law of `uvma_dealloc_range`.

  /** Some step clears a leaf with the page. */
  ghost predicate Clears(steps: seq<Step>, p: nat, v: nat) {
    exists i :: 0 <= i < |steps| && steps[i].Clear? && steps[i].pid == p && Has(steps[i].leaf, v)
  }

  /** The steps begin with the unmap of [lo, hi) and stay within it. */
  ghost predicate Amid(steps: seq<Step>, c: nat, p: nat, lo: nat, hi: nat) {
    && steps != [] && steps[0] == BeginUnmap(c, p, lo, hi)
    && forall i :: 0 <= i < |steps| ==> steps[i] != EndShoot(p)
  }

  ghost predicate Busy(s: State, p: nat, lo: nat, hi: nat) {
    p in s.procs && !s.procs[p].op.Idle? && s.procs[p].op.lo == lo && s.procs[p].op.hi == hi
  }

  lemma StaysBusy(cfg: Config, s: State, step: Step, p: nat, lo: nat, hi: nat)
    requires Enabled(s, step) && step != EndShoot(p)
    requires Busy(s, p, lo, hi) || (p in s.procs && step.BeginUnmap? && step.pid == p && step.lo == lo && step.hi == hi)
    ensures Busy(Apply(cfg, s, step), p, lo, hi)
  {
  }

  /** So far the pages whose leaves were cleared are unmapped, and all others are as they were. */
  lemma {:induction false} UnmapSoFar(cfg: Config, s: State, steps: seq<Step>, m: State, c: nat, p: nat, lo: nat,
                                      hi: nat, v: nat)
    requires Inv(s) && p in s.procs && Calm(cfg, s, steps, m) && Amid(steps, c, p, lo, hi)
    ensures Busy(m, p, lo, hi) && (Clears(steps, p, v) ==> lo <= v < hi)
    ensures Translate(m.procs[p].pt, v) == if Clears(steps, p, v) then None else Translate(s.procs[p].pt, v)
    decreases |steps|
  {
    var last := |steps| - 1;
    var step, before := steps[last], steps[..last];
    var k := CalmLast(cfg, s, steps, m);
    CalmKeeps(cfg, s, before, k);
    assert steps == before + [step];
    ClearsMore(before, step, p, v);
    if last > 0 {
      UnmapSoFar(cfg, s, before, k, c, p, lo, hi, v);
    }
    StaysBusy(cfg, k, step, p, lo, hi);
    StepTranslates(cfg, k, step, p, v);
  }

  lemma ClearsMore(steps: seq<Step>, step: Step, p: nat, v: nat)
    ensures Clears(steps + [step], p, v) <==> Clears(steps, p, v) || (step.Clear? && step.pid == p && Has(step.leaf, v))
  {
    var all := steps + [step];
    if step.Clear? && step.pid == p && Has(step.leaf, v) {
      assert all[|steps|] == step;
    }
    if i :| 0 <= i < |steps| && steps[i].Clear? && steps[i].pid == p && Has(steps[i].leaf, v) {
      assert all[i] == steps[i];
    }
  }

  /**
   An unmap of [lo, hi) that cleared every page it found mapped has ended: no page of the range is
   translated any more, by the page table or by what any CPU has cached for the process, and every
   other page is translated as before.
   */
  lemma UnmapIsDone(cfg: Config, s: State, steps: seq<Step>, s': State, c: nat, p: nat, lo: nat, hi: nat)
    requires Inv(s) && p in s.procs && Calm(cfg, s, steps + [EndShoot(p)], s') && Amid(steps, c, p, lo, hi)
    requires forall v: nat :: lo <= v < hi ==> Translate(s.procs[p].pt, v).None? || Clears(steps, p, v)
    ensures p in s'.procs && s'.procs[p].op.Idle?
    ensures forall v: nat ::
              Translate(s'.procs[p].pt, v) == if lo <= v < hi then None else Translate(s.procs[p].pt, v)
    ensures forall i: nat, e, v: nat :: i < |s'.cpus| && e in s'.cpus[i].tlb && Owns(s', i, e, p) && Has(e.leaf, v) ==>
              !(lo <= v < hi)
  {
    var all := steps + [EndShoot(p)];
    assert all[..|all| - 1] == steps && all[|all| - 1] == EndShoot(p);
    var m := CalmLast(cfg, s, all, s');
    CalmKeeps(cfg, s, steps, m);
    CalmKeeps(cfg, s, all, s');
    UnmapSoFar(cfg, s, steps, m, c, p, lo, hi, 0);
    forall v: nat
      ensures Translate(s'.procs[p].pt, v) == if lo <= v < hi then None else Translate(s.procs[p].pt, v)
    {
      UnmapSoFar(cfg, s, steps, m, c, p, lo, hi, v);
      StepTranslates(cfg, m, EndShoot(p), p, v);
    }
    forall i: nat, e, v: nat | i < |s'.cpus| && e in s'.cpus[i].tlb && Owns(s', i, e, p) && Has(e.leaf, v)
      ensures !(lo <= v < hi)
    {
      CachedIsMapped(s', i, e, p, v);
    }
  }

  /** With no unmap under way, what is cached for a process is mapped by it, on every CPU. */
  lemma CachedIsMapped(s: State, c: nat, e: Entry, p: nat, v: nat)
    requires Inv(s) && c < |s.cpus| && e in s.cpus[c].tlb && Owns(s, c, e, p) && Has(e.leaf, v) && s.procs[p].op.Idle?
    ensures Translate(s.procs[p].pt, v) == Some(Sends(e.leaf, v))
  {
    assert EntryOk(s, c, e) && ProcOk(s, p);
    assert Agrees(s.procs[p].pt, e.leaf, v);
    var k :| k in s.procs[p].pt && Has(k, v) && Same(k, e.leaf, v);
    TranslateBy(s.procs[p].pt, k, v);
  }

  lemma CalmMore(cfg: Config, s: State, steps: seq<Step>, m: State, step: Step)
    requires Calm(cfg, s, steps, m) && Enabled(m, step) && !step.Exit? && !step.Switch?
    ensures Calm(cfg, s, steps + [step], Apply(cfg, m, step))
  {
    var all := steps + [step];
    assert all[..|all| - 1] == steps && all[|all| - 1] == step;
  }

  /** The other CPUs flush the range, one after the other. */
  lemma {:induction false} ShootAll(cfg: Config, first: State, steps: seq<Step>, s: State, p: nat)
    returns (steps': seq<Step>, s': State)
    requires Calm(cfg, first, steps, s) && p in s.procs && s.procs[p].op.Shooting?
    requires forall i :: i in s.procs[p].op.rest ==> i < |s.cpus|
    ensures Calm(cfg, first, steps', s') && |steps'| == |steps| + |s.procs[p].op.rest|
    ensures p in s'.procs && s'.procs[p] == s.procs[p].(op := s.procs[p].op.(rest := {}))
    decreases |s.procs[p].op.rest|
  {
    if s.procs[p].op.rest == {} {
      steps', s' := steps, s;
    } else {
      var i :| i in s.procs[p].op.rest;
      CalmMore(cfg, first, steps, s, Shoot(p, i));
      steps', s' := ShootAll(cfg, first, steps + [Shoot(p, i)], Apply(cfg, s, Shoot(p, i)), p);
    }
  }

  /** An unmap that is under way can always be ended, with one step for every CPU and one more. */
  lemma UnmapEnds(cfg: Config, s: State, c: nat, p: nat) returns (steps: seq<Step>, s': State)
    requires Enabled(s, BeginShoot(c, p))
    ensures Calm(cfg, s, steps, s') && |steps| == |s.cpus| + 1
    ensures p in s'.procs && s'.procs[p] == s.procs[p].(op := Idle)
  {
    var s1 := Apply(cfg, s, BeginShoot(c, p));
    CalmMore(cfg, s, [], s, BeginShoot(c, p));
    Below(|s.cpus|);
    var more, s2 := ShootAll(cfg, s, [] + [BeginShoot(c, p)], s1, p);
    CalmMore(cfg, s, more, s2, EndShoot(p));
    steps, s' := more + [EndShoot(p)], Apply(cfg, s2, EndShoot(p));
  }

  lemma {:induction false} Below(n: nat)
    ensures |AllBelow(n)| == n
  {
    if n > 0 {
      Below(n - 1);
      assert AllBelow(n) == AllBelow(n - 1) + {n - 1};
    }
  }

  // Identifiers are neither lost nor made.

  ghost function InUse(s: State): (ids: set<nat>) {
    set p | p in s.procs && s.procs[p].asid != 0 :: s.procs[p].asid
  }

  ghost function Ids(s: State): (ids: set<nat>) {
    s.free + s.scrub.Keys + InUse(s)
  }

  lemma IdTurned(cfg: Config, s: State, step: Step, a: nat)
    requires Inv(s) && Enabled(s, step)
    ensures a in Ids(s) <==> a in Ids(Apply(cfg, s, step))
  {
    var s' := Apply(cfg, s, step);
    if a in InUse(s) {
      var p :| p in s.procs && s.procs[p].asid == a;
      assert p in s'.procs ==> s'.procs[p].asid == a;
    }
    if a in InUse(s') {
      var p :| p in s'.procs && s'.procs[p].asid == a;
      assert p in s.procs ==> s.procs[p].asid == a;
    }
    if step.Create? {
      assert s'.procs[step.pid].asid == step.asid;
      forall p | p in s.procs
        ensures s'.procs[p] == s.procs[p]
      {
      }
    }
  }

  /** In every calm run each identifier is free, in use or being flushed, and only one of these. */
  lemma {:induction false} IdsConserved(cfg: Config, s: State, steps: seq<Step>, s': State)
    requires Inv(s) && Calm(cfg, s, steps, s')
    ensures Ids(s') == Ids(s) && s'.free !! s'.scrub.Keys && s'.free !! InUse(s') && s'.scrub.Keys !! InUse(s')
    decreases |steps|
  {
    CalmKeeps(cfg, s, steps, s');
    forall a | a in InUse(s')
      ensures a !in s'.free && a !in s'.scrub
    {
      var p :| p in s'.procs && s'.procs[p].asid == a;
      assert ProcOk(s', p);
    }
    if steps != [] {
      var last := |steps| - 1;
      var m := CalmLast(cfg, s, steps, s');
      CalmKeeps(cfg, s, steps[..last], m);
      IdsConserved(cfg, s, steps[..last], m);
      forall a
        ensures a in Ids(m) <==> a in Ids(s')
      {
        IdTurned(cfg, m, steps[last], a);
      }
    }
  }

  /** A CPU that left its process for the kernel's root caches nothing of any process. */
  lemma KernelFillsNothing(cfg: Config, s: State, step: Step, l: Leaf)
    requires Enabled(s, step)
    requires step.Deactivate? || (step.Release? && !cfg.keeps) || (step.Exit? && Runs(s, step.cpu, step.pid))
    ensures var s' := Apply(cfg, s, step); s'.cpus[step.cpu].current == None && !Enabled(s', Fill(step.cpu, l))
  {
  }

  /** What a CPU has cached for the address space it runs is what that page table says, even amid an unmap. */
  lemma InvFresh(s: State)
    requires Inv(s)
    ensures Fresh(s)
  {
    forall c: nat, e, v: nat | c < |s.cpus| && e in s.cpus[c].tlb && s.cpus[c].current.Some? && Has(e.leaf, v)
      ensures var p := s.cpus[c].current.value;
              p in s.procs && (Matches(e, s.procs[p].asid) ==> Agrees(s.procs[p].pt, e.leaf, v))
    {
      var p := s.cpus[c].current.value;
      assert RootOk(s, c) && EntryOk(s, c, e) && ProcOk(s, p);
      if Matches(e, s.procs[p].asid) {
        assert Owns(s, c, e, p);
      }
    }
  }

  /** In calm runs, no CPU runs a process on a translation that is not its own, whatever the walker does. */
  lemma CalmIsFresh(cfg: Config, s: State, steps: seq<Step>, s': State)
    requires Init(s) && Calm(cfg, s, steps, s')
    ensures Fresh(s')
  {
    CalmInv(cfg, s, steps, s');
    InvFresh(s');
  }

  /** A global translation that a process does not have makes the entry into that process go wrong at once. */
  lemma BringingIsStale(cfg: Config, s: State, step: Step, e: Entry, v: nat)
    requires Enabled(s, step) && step.Switch? && s.procs[step.pid].asid != 0
    requires e in s.cpus[step.cpu].tlb && e.tag == Global && Has(e.leaf, v) && !Agrees(s.procs[step.pid].pt, e.leaf, v)
    ensures Brings(s, step) && !Fresh(Apply(cfg, s, step))
  {
    var s' := Apply(cfg, s, step);
    assert s'.cpus[step.cpu].current == Some(step.pid) && e in s'.cpus[step.cpu].tlb
           && Matches(e, s.procs[step.pid].asid);
  }

  /** No translation is global. */
  ghost predicate Tagged(s: State) {
    forall c: nat, e :: c < |s.cpus| && e in s.cpus[c].tlb ==> e.tag.Asid?
  }

  lemma TaggedKept(cfg: Config, s: State, step: Step)
    requires !cfg.pointerG && Tagged(s) && Enabled(s, step)
    ensures Tagged(Apply(cfg, s, step)) && !Brings(s, step)
  {
  }

  /** A CPU that has the root of a process runs it. */
  ghost predicate RootsRun(s: State) {
    forall c: nat :: c < |s.cpus| && s.cpus[c].root.Of? ==> s.cpus[c].current == Some(s.cpus[c].root.pid)
  }

  /** If no root is left behind and no translation is global, every run is calm. */
  lemma {:induction false} DroppingIsCalm(cfg: Config, s: State, steps: seq<Step>, s': State)
    requires !cfg.pointerG && !cfg.keeps && Init(s) && Reaches(cfg, s, steps, s')
    ensures Calm(cfg, s, steps, s') && RootsRun(s') && Tagged(s')
    decreases |steps|
  {
    if steps != [] {
      var last := |steps| - 1;
      var m :| Reaches(cfg, s, steps[..last], m) && Enabled(m, steps[last]) && s' == Apply(cfg, m, steps[last]);
      DroppingIsCalm(cfg, s, steps[..last], m);
      RootsStay(cfg, m, steps[last]);
      TaggedKept(cfg, m, steps[last]);
    }
  }

  lemma RootsStay(cfg: Config, s: State, step: Step)
    requires !cfg.keeps && RootsRun(s) && Enabled(s, step)
    ensures !Lingers(s, step) && RootsRun(Apply(cfg, s, step))
  {
  }

  // The code gives every pointer entry the G bit.

  const A: Leaf := Leaf(16, 1, 100, 0, true)
  const B: Leaf := Leaf(16, 1, 200, 0, true)

  lemma Play(cfg: Config, first: State, steps: seq<Step>, s: State, step: Step, s': State)
    requires Reaches(cfg, first, steps, s) && Enabled(s, step) && Apply(cfg, s, step) == s'
    ensures Reaches(cfg, first, steps + [step], s')
  {
    var all := steps + [step];
    assert all[..|all| - 1] == steps && all[|all| - 1] == step;
  }

  /** Two processes that map the same page, one after the other on one CPU. */
  ghost function Takeover(n: nat): (s: State) {
    var one, two, idle := Proc(1, {A}, true, Idle), Proc(2, {B}, false, Idle), [Cpu(None, Kernel, {})];
    if n == 0 then State(map[], {1, 2}, map[], idle)
    else if n == 1 then State(map[1 := Proc(1, {}, false, Idle)], {2}, map[], idle)
    else if n == 2 then State(map[1 := Proc(1, {}, false, Idle), 2 := Proc(2, {}, false, Idle)], {}, map[], idle)
    else if n == 3 then State(map[1 := Proc(1, {A}, false, Idle), 2 := Proc(2, {}, false, Idle)], {}, map[], idle)
    else if n == 4 then State(map[1 := Proc(1, {A}, false, Idle), 2 := two], {}, map[], idle)
    else if n == 5 then State(map[1 := one, 2 := two], {}, map[], [Cpu(Some(1), Of(1, 1), {})])
    else if n == 6 then State(map[1 := one, 2 := two], {}, map[], [Cpu(Some(1), Of(1, 1), {Entry(Global, A)})])
    else State(map[1 := one, 2 := two.(ran := true)], {}, map[], [Cpu(Some(2), Of(2, 2), {Entry(Global, A)})])
  }

  function TakeoverStep(n: nat): (step: Step) {
    if n == 0 then Create(1, 1) else if n == 1 then Create(2, 2) else if n == 2 then Map(0, 1, A)
      else if n == 3 then Map(0, 2, B)
    else if n == 4 then Switch(0, 1) else if n == 5 then Fill(0, A) else Switch(0, 2)
  }

  lemma TakeoverGoes(cfg: Config, n: nat)
    requires cfg.pointerG && n < 7
    ensures var s := Takeover(n); Enabled(s, TakeoverStep(n)) && Apply(cfg, s, TakeoverStep(n)) == Takeover(n + 1)
  {
    if n < 4 {
      TakeoverFirst(cfg, n);
    } else {
      var s := Takeover(n);
      assert {} + {Entry(Global, A)} == {Entry(Global, A)};
      assert Apply(cfg, s, TakeoverStep(n)).procs == Takeover(n + 1).procs;
      assert Apply(cfg, s, TakeoverStep(n)).cpus == Takeover(n + 1).cpus;
    }
  }

  lemma TakeoverFirst(cfg: Config, n: nat)
    requires cfg.pointerG && n < 4
    ensures var s := Takeover(n); Enabled(s, TakeoverStep(n)) && Apply(cfg, s, TakeoverStep(n)) == Takeover(n + 1)
  {
    var s := Takeover(n);
    assert {1, 2} - {1} == {2} && {2} - {2} == {} && {} + {A} == {A} && {} + {B} == {B};
    assert Apply(cfg, s, TakeoverStep(n)).procs == Takeover(n + 1).procs;
  }

  lemma {:induction false} TakeoverRuns(cfg: Config, n: nat) returns (steps: seq<Step>)
    requires cfg.pointerG && n <= 7
    ensures Reaches(cfg, Takeover(0), steps, Takeover(n))
  {
    if n == 0 {
      steps := [];
    } else {
      var before := TakeoverRuns(cfg, n - 1);
      TakeoverGoes(cfg, n - 1);
      Play(cfg, Takeover(0), before, Takeover(n - 1), TakeoverStep(n - 1), Takeover(n));
      steps := before + [TakeoverStep(n - 1)];
    }
  }

  lemma TakeoverStale()
    ensures Init(Takeover(0)) && !Fresh(Takeover(7))
  {
    var s, e := Takeover(7), Entry(Global, A);
    assert e in s.cpus[0].tlb && Has(e.leaf, 16) && Matches(e, 2);
    assert !Agrees({B}, A, 16);
  }

  // A CPU that idles after wait keeps the root of the task it released.

  /**
   Process 1 waits on CPU 0, which idles on its root; woken, it goes on and exits on CPU 1. Its
   identifier is flushed and given to process 2, but CPU 0 goes on to walk the freed root under
   that identifier, and then runs process 2 on what it found.
   */
  ghost function LeftBehind(n: nat): (s: State) {
    var idle, kept, stale := Cpu(None, Kernel, {}), Cpu(None, Of(1, 1), {}), Cpu(None, Of(1, 1), {Entry(Asid(1), A)});
    var new_, ran := map[1 := Proc(1, {}, false, Idle)], map[1 := Proc(1, {}, true, Idle)];
    if n == 0 then State(map[], {1}, map[], [idle, idle])
    else if n == 1 then State(new_, {}, map[], [idle, idle])
    else if n == 2 then State(ran, {}, map[], [Cpu(Some(1), Of(1, 1), {}), idle])
    else if n == 3 then State(ran, {}, map[], [kept, idle])
    else if n == 4 then State(ran, {}, map[], [kept, Cpu(Some(1), Of(1, 1), {})])
    else if n == 5 then State(map[], {}, map[1 := {0, 1}], [kept, idle])
    else if n == 6 then State(map[], {}, map[1 := {1}], [kept, idle])
    else if n == 7 then State(map[], {}, map[1 := {}], [kept, idle])
    else if n == 8 then State(map[], {1}, map[], [kept, idle])
    else if n == 9 then State(map[], {1}, map[], [stale, idle])
    else if n == 10 then State(map[2 := Proc(1, {}, false, Idle)], {}, map[], [stale, idle])
    else State(map[2 := Proc(1, {}, true, Idle)], {}, map[], [Cpu(Some(2), Of(2, 1), {Entry(Asid(1), A)}), idle])
  }

  function LeftBehindStep(n: nat): (step: Step) {
    if n == 0 then Create(1, 1) else if n == 1 then Switch(0, 1) else if n == 2 then Release(0)
      else if n == 3 then Switch(1, 1)
    else if n == 4 then Exit(1, 1) else if n == 5 then Scrub(1, 0) else if n == 6 then Scrub(1, 1)
    else if n == 7 then Recycle(1)
    else if n == 8 then Fill(0, A) else if n == 9 then Create(2, 1) else Switch(0, 2)
  }

  lemma LeftBehindGoes(cfg: Config, n: nat)
    requires cfg == Config(false, true) && n < 11
    ensures var s := LeftBehind(n);
            Enabled(s, LeftBehindStep(n)) && Apply(cfg, s, LeftBehindStep(n)) == LeftBehind(n + 1)
  {
    if n < 5 {
      LeftBehindFirst(cfg, n);
    } else {
      LeftBehindThen(cfg, n);
    }
  }

  lemma LeftBehindFirst(cfg: Config, n: nat)
    requires cfg == Config(false, true) && n < 5
    ensures var s := LeftBehind(n);
            Enabled(s, LeftBehindStep(n)) && Apply(cfg, s, LeftBehindStep(n)) == LeftBehind(n + 1)
  {
    var s := LeftBehind(n);
    assert {1} - {1} == {} && AllBelow(2) == {0, 1};
    assert Apply(cfg, s, LeftBehindStep(n)).procs == LeftBehind(n + 1).procs;
    assert Apply(cfg, s, LeftBehindStep(n)).cpus == LeftBehind(n + 1).cpus;
  }

  lemma LeftBehindThen(cfg: Config, n: nat)
    requires cfg == Config(false, true) && 5 <= n < 11
    ensures var s := LeftBehind(n);
            Enabled(s, LeftBehindStep(n)) && Apply(cfg, s, LeftBehindStep(n)) == LeftBehind(n + 1)
  {
    var s := LeftBehind(n);
    assert {0, 1} - {0} == {1} && {1} - {1} == {} && {} + {1} == {1};
    assert {} + {Entry(Asid(1), A)} == {Entry(Asid(1), A)} && FlushAsid({}, 1) == {};
    assert Apply(cfg, s, LeftBehindStep(n)).scrub == LeftBehind(n + 1).scrub;
    assert Apply(cfg, s, LeftBehindStep(n)).cpus == LeftBehind(n + 1).cpus;
  }

  lemma {:induction false} LeftBehindRuns(cfg: Config, n: nat) returns (steps: seq<Step>)
    requires cfg == Config(false, true) && n <= 11
    ensures Reaches(cfg, LeftBehind(0), steps, LeftBehind(n))
  {
    if n == 0 {
      steps := [];
    } else {
      var before := LeftBehindRuns(cfg, n - 1);
      LeftBehindGoes(cfg, n - 1);
      Play(cfg, LeftBehind(0), before, LeftBehind(n - 1), LeftBehindStep(n - 1), LeftBehind(n));
      steps := before + [LeftBehindStep(n - 1)];
    }
  }

  lemma LeftBehindStale()
    ensures Init(LeftBehind(0)) && Lingers(LeftBehind(4), LeftBehindStep(4)) && !Fresh(LeftBehind(11))
  {
    var s, e := LeftBehind(11), Entry(Asid(1), A);
    assert e in s.cpus[0].tlb && Has(e.leaf, 16) && Matches(e, 1);
    assert !Agrees({}, A, 16);
    assert LeftBehind(4).cpus[0].root == Of(1, 1);
  }

  // Any such exit may end badly.

  /** s' is s with one identifier flushed everywhere. */
  ghost predicate Scrubbed(s: State, s': State, a: nat) {
    && s'.procs == s.procs && s'.free == s.free && |s'.cpus| == |s.cpus| && s'.scrub == s.scrub[a := {}]
    && forall c: nat :: c < |s.cpus| ==> s'.cpus[c].current == s.cpus[c].current && s'.cpus[c].root == s.cpus[c].root
  }

  lemma {:induction false} ScrubAll(cfg: Config, first: State, steps: seq<Step>, s: State, a: nat)
    returns (steps': seq<Step>, s': State)
    requires Reaches(cfg, first, steps, s) && a in s.scrub && forall i :: i in s.scrub[a] ==> i < |s.cpus|
    ensures Reaches(cfg, first, steps', s') && Scrubbed(s, s', a)
    decreases |s.scrub[a]|
  {
    if s.scrub[a] == {} {
      steps', s' := steps, s;
    } else {
      var i :| i in s.scrub[a];
      var m := Apply(cfg, s, Scrub(a, i));
      Play(cfg, first, steps, s, Scrub(a, i), m);
      steps', s' := ScrubAll(cfg, first, steps + [Scrub(a, i)], m, a);
    }
  }

  lemma {:induction false} Unused(used: set<nat>) returns (n: nat)
    ensures forall x :: x in used ==> x < n
    decreases used
  {
    n := 0;
    if used != {} {
      var x :| x in used;
      var m := Unused(used - {x});
      n := if x < m then m else x + 1;
      assert forall y :: y in used ==> y == x || y in used - {x};
    }
  }

  lemma {:induction false} RootPids(cpus: seq<Cpu>) returns (used: set<nat>)
    ensures forall c: nat :: c < |cpus| && cpus[c].root.Of? ==> cpus[c].root.pid in used
  {
    used := {};
    if cpus != [] {
      var rest := RootPids(cpus[1..]);
      used := rest + if cpus[0].root.Of? then {cpus[0].root.pid} else {};
      forall c: nat | c < |cpus| && cpus[c].root.Of?
        ensures cpus[c].root.pid in used
      {
        assert c > 0 ==> cpus[c] == cpus[1..][c - 1];
      }
    }
  }

  lemma NewPid(s: State) returns (q: nat)
    ensures q !in s.procs && !Loaded(s, q)
  {
    var used := RootPids(s.cpus);
    q := Unused(used + s.procs.Keys);
  }

  /** From an idle CPU on the root of a process that is gone, a new process may get to run on anything. */
  lemma StaleRoot(cfg: Config, first: State, steps: seq<Step>, s: State, d: nat, a: nat)
    returns (steps': seq<Step>, s': State)
    requires !cfg.pointerG && Reaches(cfg, first, steps, s) && a in s.free && a != 0
    requires d < |s.cpus| && s.cpus[d].current == None && s.cpus[d].root.Of? && s.cpus[d].root.asid == a
             && s.cpus[d].root.pid !in s.procs
    requires forall c: nat :: c < |s.cpus| && s.cpus[c].current.Some? ==> s.cpus[c].current.value in s.procs
    ensures Reaches(cfg, first, steps', s') && !Fresh(s')
  {
    var q := NewPid(s);
    var s1 := Apply(cfg, s, Fill(d, A));
    Play(cfg, first, steps, s, Fill(d, A), s1);
    assert s1.procs == s.procs && s1.free == s.free && !Loaded(s1, q) && s1.cpus[d].current == None;
    var s2 := Apply(cfg, s1, Create(q, a));
    Play(cfg, first, steps + [Fill(d, A)], s1, Create(q, a), s2);
    s' := Apply(cfg, s2, Switch(d, q));
    steps' := steps + [Fill(d, A)] + [Create(q, a)] + [Switch(d, q)];
    Play(cfg, first, steps + [Fill(d, A)] + [Create(q, a)], s2, Switch(d, q), s');
    var e := Entry(Asid(a), A);
    assert s'.cpus[d].current == Some(q) && s'.procs[q] == Proc(a, {}, true, Idle);
    assert e in s'.cpus[d].tlb && Has(e.leaf, 16) && Matches(e, a) && !Agrees({}, A, 16);
  }

  /** After a lingering exit the kernel may get to run a process on a translation that is not its own. */
  lemma LingeringIsFatal(cfg: Config, s: State, step: Step) returns (steps: seq<Step>, s': State)
    requires !cfg.pointerG && Inv(s) && Enabled(s, step) && Lingers(s, step)
    ensures Reaches(cfg, Apply(cfg, s, step), steps, s') && !Fresh(s')
  {
    var first, a := Apply(cfg, s, step), s.procs[step.pid].asid;
    var d := IdleOnRoot(cfg, s, step);
    var more, s1 := ScrubAll(cfg, first, [], first, a);
    var s2 := Apply(cfg, s1, Recycle(a));
    Play(cfg, first, more, s1, Recycle(a), s2);
    steps, s' := StaleRoot(cfg, first, more + [Recycle(a)], s2, d, a);
  }

  lemma IdleOnRoot(cfg: Config, s: State, step: Step) returns (d: nat)
    requires Inv(s) && Enabled(s, step) && Lingers(s, step)
    ensures var s', a := Apply(cfg, s, step), s.procs[step.pid].asid;
            && a in s'.scrub && s'.scrub[a] == AllBelow(|s'.cpus|)
            && d < |s'.cpus| && s'.cpus[d].current == None && s'.cpus[d].root == Of(step.pid, a)
            && step.pid !in s'.procs
            && forall c: nat :: c < |s'.cpus| && s'.cpus[c].current.Some? ==> s'.cpus[c].current.value in s'.procs
  {
    var p, s' := step.pid, Apply(cfg, s, step);
    d :| d < |s.cpus| && s.cpus[d].root.Of? && s.cpus[d].root.pid == p && s.cpus[d].current != Some(p);
    assert RootOk(s, d) && ProcOk(s, p);
    forall c: nat | c < |s'.cpus| && s'.cpus[c].current.Some?
      ensures s'.cpus[c].current.value in s'.procs
    {
      assert RootOk(s, c);
    }
  }

  /**
   No CPU ever runs a process on a translation that is not its own, in any run, if and only if
   the walker takes the G bit from the leaf alone and no CPU stays on the root of a task that it
   released in wait. A walker that also takes the G bit from pointers, as section 4.3.1 of the
   RISC-V Privileged Architecture has it, makes every user translation below a pointer global.
   */
  lemma FreshInEveryRun(cfg: Config)
    ensures (forall s :: Reachable(cfg, s) ==> Fresh(s)) <==> !cfg.pointerG && !cfg.keeps
  {
    if cfg.pointerG {
      var steps := TakeoverRuns(cfg, 7);
      TakeoverStale();
      assert Reachable(cfg, Takeover(7));
    } else if cfg.keeps {
      var steps := LeftBehindRuns(cfg, 11);
      LeftBehindStale();
      assert Reachable(cfg, LeftBehind(11));
    } else {
      forall s | Reachable(cfg, s)
        ensures Fresh(s)
      {
        var first, steps :| Init(first) && Reaches(cfg, first, steps, s);
        DroppingIsCalm(cfg, first, steps, s);
        CalmIsFresh(cfg, first, steps, s);
      }
    }
  }
}
