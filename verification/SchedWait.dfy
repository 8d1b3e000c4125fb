/** wait and exit: who can wake a waiting parent, and what a parent is told. */
module SchedWait {
  import opened Wrappers
  import opened Sched
  import SchedOwner

  ghost predicate ParentOk(s: State, t: nat)
    requires t in s.tasks
  {
    t != s.init ==> s.tasks[t].parent in s.tasks && s.tasks[s.tasks[t].parent].state != Dead && s.tasks[t].parent != t
  }

  /** The child is one that the wait is for. */
  ghost predicate Awaited(s: State, t: nat, child: nat) {
    Child(s, t, child) && t in s.tasks && s.tasks[t].wait.ForChild? && Wanted(s.tasks[t].wait.pid, child)
  }

  ghost predicate WaitOk(s: State, t: nat)
    requires t in s.tasks
  {
    s.tasks[t].wait.ForChild? ==>
      && (exists child :: child in s.tasks && Awaited(s, t, child) && s.tasks[child].state != Dead)
      && (t != s.init ==> forall child :: child in s.tasks && Awaited(s, t, child) ==> s.tasks[child].state != Dead)
  }

  /** A dead task remembers its code, and a living one has none. */
  ghost predicate ExitOk(s: State, t: nat)
    requires t in s.tasks
  {
    t < s.next && if s.tasks[t].state == Dead then t in s.exits && s.exits[t] == s.tasks[t].code else t !in s.exits
  }

  ghost predicate LogOk(s: State) {
    && (forall i, j :: 0 <= i < j < |s.log| ==> s.log[i].child != s.log[j].child)
    && forall i :: 0 <= i < |s.log| ==>
         var d := s.log[i];
         d.child < s.next && d.child !in s.tasks && d.child in s.exits && d.status == Status(s.exits[d.child])
  }

  ghost predicate FamilyOk(s: State) {
    && s.init in s.tasks && s.tasks[s.init].state != Dead
    && (forall t {:trigger ParentOk(s, t)} :: t in s.tasks ==> ParentOk(s, t))
    && (forall t {:trigger WaitOk(s, t)} :: t in s.tasks ==> WaitOk(s, t))
    && (forall t {:trigger ExitOk(s, t)} :: t in s.tasks ==> ExitOk(s, t))
    && (forall t :: t in s.exits ==> t < s.next) && LogOk(s)
  }

  ghost predicate Inv(s: State) {
    SchedOwner.Inv(s) && FamilyOk(s)
  }

  /** The task is the same as far as wait and exit are concerned. */
  ghost predicate SameKin(a: Task, b: Task) {
    a.parent == b.parent && (a.state == Dead <==> b.state == Dead) && a.code == b.code
    && (a.wait == b.wait || !(a.wait.ForChild? || b.wait.ForChild?))
  }

  ghost predicate Quiet(s: State, s': State) {
    && s'.tasks.Keys == s.tasks.Keys && s'.init == s.init && s'.next == s.next && s'.exits == s.exits && s'.log == s.log
    && forall t :: t in s.tasks ==> SameKin(s.tasks[t], s'.tasks[t])
  }

  lemma QuietKeeps(s: State, s': State)
    requires FamilyOk(s) && Quiet(s, s')
    ensures FamilyOk(s')
  {
    forall t | t in s'.tasks
      ensures ParentOk(s', t) && WaitOk(s', t) && ExitOk(s', t)
    {
      assert SameKin(s.tasks[t], s'.tasks[t]) && ParentOk(s, t) && WaitOk(s, t) && ExitOk(s, t);
      if t != s.init {
        assert SameKin(s.tasks[s.tasks[t].parent], s'.tasks[s.tasks[t].parent]);
      }
      if s'.tasks[t].wait.ForChild? {
        forall k | k in s.tasks
          ensures Awaited(s', t, k) <==> Awaited(s, t, k)
          ensures s'.tasks[k].state == Dead <==> s.tasks[k].state == Dead
        {
          assert SameKin(s.tasks[k], s'.tasks[k]);
        }
        var child :| child in s.tasks && Awaited(s, t, child) && s.tasks[child].state != Dead;
        assert Awaited(s', t, child);
      }
    }
    assert SameKin(s.tasks[s.init], s'.tasks[s.init]);
  }

  predicate IsQuiet(step: Step) {
    !step.Fork? && !step.WaitReaps? && !step.WaitBlocks? && !step.Exit?
  }

  lemma QuietSteps(s: State, step: Step)
    requires SchedOwner.Inv(s) && Enabled(s, step) && IsQuiet(step)
    ensures Quiet(s, Apply(s, step))
  {
    match step
    case Schedule(c) =>
      ScheduleQuiet(s, c);
    case HandleEvents(c, now) =>
      ExpireQuiet(s, c, now);
    case Wake(t) =>
    case Trap(c) =>
    case Return(c) =>
    case Resched(c) =>
    case Sleep(c, _) =>
      assert SchedOwner.CpuOk(s, c) && SchedOwner.TaskOk(s, s.cpus[c].current.value);
    case AwaitEvent(c) =>
      assert SchedOwner.CpuOk(s, c) && SchedOwner.TaskOk(s, s.cpus[c].current.value);
    case ArmVm(c, _) =>
      assert SchedOwner.CpuOk(s, c) && SchedOwner.TaskOk(s, s.cpus[c].current.value);
    case CancelVm(c) =>
      assert SchedOwner.CpuOk(s, c) && SchedOwner.TaskOk(s, s.cpus[c].current.value);
    case HaltVm(c) =>
      assert SchedOwner.CpuOk(s, c) && SchedOwner.TaskOk(s, s.cpus[c].current.value);
    case WaitFails(c, _) =>
  }

  lemma ScheduleQuiet(s: State, c: nat)
    requires SchedOwner.Inv(s) && Enabled(s, Schedule(c))
    ensures Quiet(s, Apply(s, Schedule(c)))
  {
    SchedOwner.PickFacts(s, c);
    var r := Pick(s, c);
    assert SchedOwner.CpuOk(s, c);
    if r.Some? {
      assert SchedOwner.TaskOk(s, r.value);
    }
    ActivateQuiet(s, c, r);
  }

  lemma ActivateQuiet(s: State, c: nat, r: Option<nat>)
    requires c < |s.cpus| && (r.Some? ==> r.value in s.tasks && s.tasks[r.value].state != Dead)
    ensures Quiet(s, Activate(s, c, r))
  {
  }

  lemma ExpireQuiet(s: State, c: nat, now: nat)
    requires SchedOwner.Inv(s) && c < |s.cpus|
    ensures var r := Expire(s.tasks, s.timers, c, now);
            r.tasks.Keys == s.tasks.Keys && forall t :: t in s.tasks ==> SameKin(s.tasks[t], r.tasks[t])
  {
    ExpireFacts(s.tasks, s.timers, c, now);
    var r := Expire(s.tasks, s.timers, c, now);
    forall t | t in s.tasks
      ensures SameKin(s.tasks[t], r.tasks[t])
    {
      assert Expiry(s.tasks, r.tasks, t) && SchedOwner.TaskOk(s, t);
    }
  }

  lemma ForkKeeps(s: State, step: Step)
    requires Inv(s) && Enabled(s, step) && step.Fork?
    ensures FamilyOk(Apply(s, step))
  {
    var s', x := Apply(s, step), s.cpus[step.cpu].current.value;
    assert SchedOwner.CpuOk(s, step.cpu);
    assert s.next !in s.tasks by {
      assert forall t :: t in s.tasks ==> ExitOk(s, t);
    }
    forall t | t in s'.tasks
      ensures ParentOk(s', t) && WaitOk(s', t) && ExitOk(s', t)
    {
      if t in s.tasks {
        assert ParentOk(s, t) && WaitOk(s, t) && ExitOk(s, t);
        if s.tasks[t].wait.ForChild? {
          var child :| child in s.tasks && Awaited(s, t, child) && s.tasks[child].state != Dead;
          assert Awaited(s', t, child);
        }
      }
    }
  }

  /** A task that has children, none of them dead, starts to wait. */
  ghost predicate Waits(s: State, s': State, x: nat, pid: Option<nat>) {
    && x in s.tasks && x in s'.tasks && s'.tasks == s.tasks[x := s'.tasks[x]]
    && SameKin(s.tasks[x].(wait := NoWait), s'.tasks[x].(wait := NoWait))
    && s'.init == s.init && s'.next == s.next && s'.exits == s.exits && s'.log == s.log
    && s'.tasks[x].wait == ForChild(pid) && HasChild(s, x, pid) && !HasDeadChild(s, x, pid)
  }

  lemma WaitsKeeps(s: State, s': State, x: nat, pid: Option<nat>)
    requires FamilyOk(s) && Waits(s, s', x, pid)
    ensures FamilyOk(s')
  {
    forall t | t in s'.tasks
      ensures ParentOk(s', t) && ExitOk(s', t) && WaitOk(s', t)
    {
      assert ParentOk(s, t) && ExitOk(s, t) && WaitOk(s, t);
      if t == x {
        var child :| child in s.tasks && Child(s, x, child) && Wanted(pid, child);
        assert Awaited(s', x, child);
        assert forall k :: k in s'.tasks && Awaited(s', x, k) ==> Child(s, x, k) && Wanted(pid, k);
      } else if s.tasks[t].wait.ForChild? {
        var child :| child in s.tasks && Awaited(s, t, child) && s.tasks[child].state != Dead;
        assert Awaited(s', t, child);
        assert forall k :: k in s'.tasks && Awaited(s', t, k) ==> Awaited(s, t, k);
      }
    }
  }

  lemma WaitBlocksKeeps(s: State, step: Step)
    requires Inv(s) && Enabled(s, step) && step.WaitBlocks?
    ensures FamilyOk(Apply(s, step))
  {
    assert SchedOwner.CpuOk(s, step.cpu);
    WaitsKeeps(s, Apply(s, step), s.cpus[step.cpu].current.value, step.pid);
  }

  /** A dead child leaves, and its parent no longer waits. */
  ghost predicate Reaped(s: State, s': State, x: nat, child: nat) {
    && x in s.tasks && child in s.tasks && child != x && s.tasks[child].state == Dead && s.tasks[child].parent == x
    && child != s.init
    && s'.tasks.Keys == s.tasks.Keys - {child} && s'.init == s.init && s'.next == s.next && s'.exits == s.exits
    && s'.log == s.log + [Delivery(x, child, Status(s.tasks[child].code))]
    && s'.tasks[x].parent == s.tasks[x].parent && s'.tasks[x].code == s.tasks[x].code && s'.tasks[x].wait == NoWait
    && (s'.tasks[x].state == Dead <==> s.tasks[x].state == Dead)
    && forall t :: t in s'.tasks && t != x ==> s'.tasks[t] == s.tasks[t]
  }

  lemma ReapedKeeps(s: State, s': State, x: nat, child: nat)
    requires FamilyOk(s) && Reaped(s, s', x, child)
    ensures FamilyOk(s')
  {
    assert ExitOk(s, child) && ParentOk(s, child);
    forall t | t in s'.tasks
      ensures ParentOk(s', t) && WaitOk(s', t) && ExitOk(s', t)
    {
      assert ParentOk(s, t) && WaitOk(s, t) && ExitOk(s, t);
      if t != x && s.tasks[t].wait.ForChild? {
        var k :| k in s.tasks && Awaited(s, t, k) && s.tasks[k].state != Dead;
        assert Awaited(s', t, k);
        assert forall j :: j in s'.tasks && Awaited(s', t, j) ==> Awaited(s, t, j) && j != child;
      }
    }
  }

  lemma WaitReapsKeeps(s: State, step: Step)
    requires Inv(s) && Enabled(s, step) && step.WaitReaps?
    ensures FamilyOk(Apply(s, step))
  {
    var s', x := Apply(s, step), s.cpus[step.cpu].current.value;
    assert SchedOwner.CpuOk(s, step.cpu);
    ReapedKeeps(s, s', x, step.child);
  }

  /** The result of an exit: the children of t go to init, and the parent is woken if it waits for t. */
  ghost predicate Exited(s: State, s': State, t: nat, code: int) {
    && t in s.tasks && s.tasks[t].parent in s.tasks && s.tasks[t].parent != t && t != s.init
    && s'.init == s.init && s'.next == s.next && s'.exits == s.exits[t := code]
    && s'.tasks.Keys == (if Awaited(s, s.tasks[t].parent, t) then s.tasks.Keys - {t} else s.tasks.Keys)
    && (t in s'.tasks ==>
        s'.tasks[t].state == Dead && s'.tasks[t].code == code && s'.tasks[t].wait == NoWait
        && s'.tasks[t].parent == s.tasks[t].parent)
    && s'.log ==
    (if Awaited(s, s.tasks[t].parent, t) then s.log + [Delivery(s.tasks[t].parent, t, Status(code))] else s.log)
    && forall k :: k in s.tasks && k != t ==> ExitedOther(s, s', t, k)
  }

  ghost predicate ExitedOther(s: State, s': State, t: nat, k: nat)
    requires k in s.tasks
  {
    && k in s'.tasks && s'.tasks[k].parent == (if Child(s, t, k) then s.init else s.tasks[k].parent)
    && (s'.tasks[k].state == Dead <==> s.tasks[k].state == Dead) && s'.tasks[k].code == s.tasks[k].code
    && s'.tasks[k].wait == (if Awaited(s, k, t) then NoWait else s.tasks[k].wait)
  }

  lemma ExitShape(s: State, c: nat, code: int)
    requires Enabled(s, Exit(c, code))
    requires var p := s.tasks[s.cpus[c].current.value].parent; p in s.tasks && p != s.cpus[c].current.value
    ensures Exited(s, Apply(s, Exit(c, code)), s.cpus[c].current.value, code)
  {
    var s', t := Apply(s, Exit(c, code)), s.cpus[c].current.value;
    forall k | k in s.tasks && k != t
      ensures ExitedOther(s, s', t, k)
    {
    }
  }

  lemma ExitedKeeps(s: State, s': State, t: nat, code: int)
    requires FamilyOk(s) && Exited(s, s', t, code) && !s.tasks[t].wait.ForChild? && s.tasks[t].state != Dead
    ensures FamilyOk(s')
  {
    assert ParentOk(s, t) && ExitOk(s, t) && ExitedOther(s, s', t, s.init);
    forall q | q in s'.tasks
      ensures ParentOk(s', q) && ExitOk(s', q) && WaitOk(s', q)
    {
      ExitedKin(s, s', t, code, q);
      ExitedWaitOk(s, s', t, code, q);
    }
  }

  lemma ExitedWaitOk(s: State, s': State, t: nat, code: int, q: nat)
    requires FamilyOk(s) && Exited(s, s', t, code) && !s.tasks[t].wait.ForChild? && q in s'.tasks
    ensures WaitOk(s', q)
  {
    assert WaitOk(s, q) && (q != t ==> ExitedOther(s, s', t, q));
    if s'.tasks[q].wait.ForChild? {
      ExitedWait(s, s', t, code, q);
    }
  }

  lemma ExitedKin(s: State, s': State, t: nat, code: int, q: nat)
    requires FamilyOk(s) && Exited(s, s', t, code) && s.tasks[t].state != Dead && q in s'.tasks
    ensures ParentOk(s', q) && ExitOk(s', q)
  {
    assert ParentOk(s, q) && ExitOk(s, q) && ParentOk(s, t) && ExitedOther(s, s', t, s.init);
    assert q != t ==> ExitedOther(s, s', t, q);
    assert q != s.init && s.tasks[q].parent != t ==> ExitedOther(s, s', t, s.tasks[q].parent);
  }

  lemma ExitedWait(s: State, s': State, t: nat, code: int, q: nat)
    requires Exited(s, s', t, code) && q in s.tasks && q in s'.tasks && q != t
    requires WaitOk(s, q) && s'.tasks[q].wait.ForChild?
    ensures WaitOk(s', q)
  {
    assert ExitedOther(s, s', t, q);
    var k :| k in s.tasks && Awaited(s, q, k) && s.tasks[k].state != Dead;
    assert ExitedOther(s, s', t, k) && Awaited(s', q, k);
    if q != s.init {
      forall j | j in s'.tasks && Awaited(s', q, j)
        ensures s'.tasks[j].state != Dead
      {
        assert j != t;
        assert ExitedOther(s, s', t, j) && Awaited(s, q, j);
      }
    }
  }

  lemma ExitKeeps(s: State, step: Step)
    requires Inv(s) && Enabled(s, step) && step.Exit?
    ensures FamilyOk(Apply(s, step))
  {
    var t := s.cpus[step.cpu].current.value;
    assert SchedOwner.CpuOk(s, step.cpu) && SchedOwner.TaskOk(s, t) && ParentOk(s, t);
    ExitShape(s, step.cpu, step.code);
    ExitedKeeps(s, Apply(s, step), t, step.code);
  }

  lemma StepKeeps(s: State, step: Step)
    requires Inv(s) && Enabled(s, step)
    ensures Inv(Apply(s, step))
  {
    SchedOwner.StepKeeps(s, step);
    if IsQuiet(step) {
      QuietSteps(s, step);
      QuietKeeps(s, Apply(s, step));
    } else if step.Fork? {
      ForkKeeps(s, step);
    } else if step.WaitBlocks? {
      WaitBlocksKeeps(s, step);
    } else if step.WaitReaps? {
      WaitReapsKeeps(s, step);
    } else {
      ExitKeeps(s, step);
    }
  }

  lemma {:induction false} ReachesInv(s: State, steps: seq<Step>, s': State)
    requires Init(s) && Reaches(s, steps, s')
    ensures Inv(s')
    decreases |steps|
  {
    if steps == [] {
      SchedOwner.ReachesInv(s, steps, s');
    } else {
      var last := |steps| - 1;
      var m :| Reaches(s, steps[..last], m) && Enabled(m, steps[last]) && s' == Apply(m, steps[last]);
      ReachesInv(s, steps[..last], m);
      StepKeeps(m, steps[last]);
    }
  }

  lemma ReachableInv(s: State)
    requires Reachable(s)
    ensures Inv(s)
  {
    var first, steps :| Init(first) && Reaches(first, steps, s);
    ReachesInv(first, steps, s);
  }

  /** A task blocked in wait has a living child that it waits for, and, unless it is init, no dead one. */
  lemma WaiterHasLiveChild(s: State, t: nat)
    requires Reachable(s) && t in s.tasks && s.tasks[t].wait.ForChild?
    ensures exists child :: child in s.tasks && Awaited(s, t, child) && s.tasks[child].state != Dead
    ensures t != s.init ==> !HasDeadChild(s, t, s.tasks[t].wait.pid)
  {
    ReachableInv(s);
    assert WaitOk(s, t);
    if t != s.init {
      assert forall child :: child in s.tasks && Child(s, t, child) && Wanted(s.tasks[t].wait.pid, child) ==>
             Awaited(s, t, child);
    }
  }

  /** The exit of a child that a task waits for makes the task runnable and hands over the child's status. */
  lemma ExitWakesWaiter(s: State, c: nat, code: int)
    requires Reachable(s) && Enabled(s, Exit(c, code))
    ensures var child := s.cpus[c].current.value;
            var t, s' := s.tasks[child].parent, Apply(s, Exit(c, code));
            Awaited(s, t, child) ==>
              && t in s'.tasks && s'.tasks[t].state == Runnable && s'.tasks[t].wait == NoWait && child !in s'.tasks
              && s'.log == s.log + [Delivery(t, child, Status(code))]
  {
    ReachableInv(s);
    var child := s.cpus[c].current.value;
    var t := s.tasks[child].parent;
    assert SchedOwner.CpuOk(s, c) && ParentOk(s, child) && SchedOwner.TaskOk(s, t);
    if Awaited(s, t, child) {
      ExitWakes(s, c, code, t, child);
    }
  }

  lemma ExitWakes(s: State, c: nat, code: int, t: nat, child: nat)
    requires Enabled(s, Exit(c, code)) && child == s.cpus[c].current.value && t == s.tasks[child].parent && t != child
    requires Awaited(s, t, child) && s.tasks[t].state == Blocked
    ensures var s' := Apply(s, Exit(c, code));
            && t in s'.tasks && s'.tasks[t].state == Runnable && s'.tasks[t].wait == NoWait && child !in s'.tasks
            && s'.log == s.log + [Delivery(t, child, Status(code))]
  {
  }

  /** Every exited child is delivered at most once, with its own exit code, and is gone then. */
  lemma DeliveredOnce(s: State, i: nat, j: nat)
    requires Reachable(s) && i < |s.log| && j < |s.log|
    ensures s.log[i].child == s.log[j].child ==> i == j
    ensures s.log[i].child !in s.tasks && s.log[i].child in s.exits
            && s.log[i].status == Status(s.exits[s.log[i].child])
  {
    ReachableInv(s);
  }

  /** init waits although a child that it waits for is dead. */
  ghost predicate InitMisses(s: State) {
    s.init in s.tasks && s.tasks[s.init].wait.ForChild? && HasDeadChild(s, s.init, s.tasks[s.init].wait.pid)
  }

  /** init waits, not for t, and there is a dead child of its own or of t that it waits for. */
  ghost predicate LeavesUnseen(s: State, t: nat) {
    && s.init in s.tasks && s.tasks[s.init].wait.ForChild? && !Awaited(s, s.init, t)
    && (HasDeadChild(s, s.init, s.tasks[s.init].wait.pid) || HasDeadChild(s, t, s.tasks[s.init].wait.pid))
  }

  /**
   Dead children that a task leaves behind are not announced to init: init comes to miss one
   exactly when such a task exits and init is not woken by that exit itself.
   */
  lemma ExitMisses(s: State, c: nat, code: int)
    requires s.init in s.tasks && Inv(s) && Enabled(s, Exit(c, code))
    ensures InitMisses(Apply(s, Exit(c, code))) <==> LeavesUnseen(s, s.cpus[c].current.value)
  {
    assert SchedOwner.CpuOk(s, c) && ParentOk(s, s.cpus[c].current.value);
    ExitShape(s, c, code);
    ExitedMisses(s, Apply(s, Exit(c, code)), s.cpus[c].current.value, code);
  }

  lemma ExitedMisses(s: State, s': State, t: nat, code: int)
    requires FamilyOk(s) && Exited(s, s', t, code) && s.tasks[t].state != Dead
    ensures InitMisses(s') <==> LeavesUnseen(s, t)
  {
    var w := s.tasks[s.init].wait;
    assert ExitedOther(s, s', t, s.init);
    if InitMisses(s') {
      var k :| k in s'.tasks && Child(s', s.init, k) && Wanted(w.pid, k) && s'.tasks[k].state == Dead;
      InheritedBack(s, s', t, code, k);
    } else if w.ForChild? && !Awaited(s, s.init, t) {
      if k :| k in s.tasks && Child(s, s.init, k) && Wanted(w.pid, k) && s.tasks[k].state == Dead {
        Inherited(s, s', t, code, k);
      }
      if k :| k in s.tasks && Child(s, t, k) && Wanted(w.pid, k) && s.tasks[k].state == Dead {
        Inherited(s, s', t, code, k);
      }
    }
  }

  lemma Inherited(s: State, s': State, t: nat, code: int, k: nat)
    requires FamilyOk(s) && Exited(s, s', t, code) && k in s.tasks && (Child(s, s.init, k) || Child(s, t, k))
             && s.tasks[k].state == Dead
    requires s.tasks[t].state != Dead || k != t
    ensures k in s'.tasks && Child(s', s.init, k) && s'.tasks[k].state == Dead
  {
    assert ParentOk(s, t);
    assert k != t ==> ExitedOther(s, s', t, k);
  }

  lemma InheritedBack(s: State, s': State, t: nat, code: int, k: nat)
    requires FamilyOk(s) && Exited(s, s', t, code) && k in s'.tasks && Child(s', s.init, k) && s'.tasks[k].state == Dead
    requires s'.tasks[s.init].wait.ForChild? && Wanted(s'.tasks[s.init].wait.pid, k)
    ensures k != t && k in s.tasks && (Child(s, s.init, k) || Child(s, t, k)) && s.tasks[k].state == Dead
    ensures !Awaited(s, s.init, t)
  {
    assert ExitedOther(s, s', t, s.init);
    assert k != t ==> ExitedOther(s, s', t, k);
  }

  /** Every other step leaves that as it is. */
  lemma OthersMiss(s: State, step: Step)
    requires Inv(s) && Enabled(s, step) && !step.Exit?
    ensures InitMisses(Apply(s, step)) <==> InitMisses(s)
  {
    if IsQuiet(step) {
      QuietSteps(s, step);
      QuietMisses(s, Apply(s, step));
    } else {
      ActingMiss(s, step);
    }
  }

  lemma ActingMiss(s: State, step: Step)
    requires Inv(s) && Enabled(s, step) && (step.Fork? || step.WaitReaps? || step.WaitBlocks?)
    ensures InitMisses(Apply(s, step)) <==> InitMisses(s)
  {
    var s', x := Apply(s, step), s.cpus[step.cpu].current.value;
    assert SchedOwner.CpuOk(s, step.cpu) && SchedOwner.TaskOk(s, x);
    if step.Fork? {
      assert s.next !in s.tasks by {
        assert forall t :: t in s.tasks ==> ExitOk(s, t);
      }
      BornMisses(s, s', x, step.kind);
    } else if step.WaitReaps? {
      ReapedMisses(s, s', x, step.child);
    } else {
      WaitsMiss(s, s', x, step.pid);
    }
  }

  lemma WaitsMiss(s: State, s': State, x: nat, pid: Option<nat>)
    requires s.init in s.tasks && Waits(s, s', x, pid) && s.tasks[x].wait == NoWait
    ensures InitMisses(s') <==> InitMisses(s)
  {
    forall k | k in s.tasks
      ensures Child(s', s.init, k) <==> Child(s, s.init, k)
      ensures s'.tasks[k].state == Dead <==> s.tasks[k].state == Dead
    {
    }
  }

  lemma QuietMisses(s: State, s': State)
    requires s.init in s.tasks && Quiet(s, s')
    ensures InitMisses(s') <==> InitMisses(s)
  {
    assert SameKin(s.tasks[s.init], s'.tasks[s.init]);
    forall k | k in s.tasks
      ensures Child(s', s.init, k) <==> Child(s, s.init, k)
      ensures s'.tasks[k].state == Dead <==> s.tasks[k].state == Dead
    {
      assert SameKin(s.tasks[k], s'.tasks[k]);
    }
  }

  lemma BornMisses(s: State, s': State, x: nat, kind: Kind)
    requires s.init in s.tasks && s.next !in s.tasks && s'.init == s.init && x in s.tasks
    requires s'.tasks == s.tasks[s.next := Task(kind, Runnable, None, NoWait, x, 0)]
    ensures InitMisses(s') <==> InitMisses(s)
  {
    forall k | k in s.tasks
      ensures (Child(s', s.init, k) <==> Child(s, s.init, k)) && s'.tasks[k] == s.tasks[k]
    {
    }
  }

  lemma ReapedMisses(s: State, s': State, x: nat, child: nat)
    requires s.init in s.tasks && Reaped(s, s', x, child) && s.tasks[x].wait == NoWait
    ensures InitMisses(s') <==> InitMisses(s)
  {
    if x != s.init {
      forall k | k in s'.tasks
        ensures Child(s', s.init, k) <==> Child(s, s.init, k)
        ensures s'.tasks[k].state == Dead <==> s.tasks[k].state == Dead
      {
      }
      assert !Child(s, s.init, child);
    }
  }

  // A run after which init misses a child.

  function Proc(state: TaskState, cpu: Option<nat>, wait: Wait, parent: nat, code: int): (t: Task) {
    Task(Process, state, cpu, wait, parent, code)
  }

  /**
   One CPU from boot, every time it is about to schedule. init (0) forks 1, which forks 2; init
   waits for any child, 2 forks 3, 1 waits for an event, 3 exits, and 2 exits.
   */
  function Orphaning(n: nat): (s: State) {
    var forked, waits := Proc(Runnable, None, NoWait, 0, 0), Proc(Blocked, None, ForChild(None), 0, 0);
    var second, third := forked.(parent := 1), forked.(parent := 2);
    var running, asleep := Some(0), Proc(Blocked, None, ForEvent, 0, 0);
    if n == 0 then State(map[0 := forked], [0], [], [Idle(None)], 0, 1, map[], [])
    else if n == 1 then
      State(map[0 := forked.(state := Running, cpu := running), 1 := forked], [1, 0], [], [Idle(Some(0))], 0, 2, map[],
            [])
    else if n == 2 then
      State(map[0 := forked, 1 := forked.(state := Running, cpu := running), 2 := second],
            [2, 1, 0], [], [Idle(Some(1))], 0, 3, map[], [])
    else if n == 3 then
      State(map[0 := waits, 1 := forked, 2 := second], [2, 1, 0], [], [Idle(None)], 0, 3, map[], [])
    else if n == 4 then
      State(map[0 := waits, 1 := forked, 2 := second.(state := Running, cpu := running), 3 := third],
            [3, 2, 1, 0], [], [Idle(Some(2))], 0, 4, map[], [])
    else if n == 5 then
      State(map[0 := waits, 1 := asleep.(cpu := running), 2 := second, 3 := third],
            [3, 2, 1, 0], [], [Idle(Some(1))], 0, 4, map[], [])
    else if n == 6 then
      State(map[0 := waits, 1 := asleep, 2 := second, 3 := Proc(Dead, None, NoWait, 2, 7)],
            [2, 1, 0], [], [Idle(None)], 0, 4, map[3 := 7], [])
    else
      State(map[0 := waits, 1 := asleep, 2 := Proc(Dead, None, NoWait, 1, 0), 3 := Proc(Dead, None, NoWait, 0, 7)],
            [1, 0], [], [Idle(None)], 0, 4, map[3 := 7, 2 := 0], [])
  }

  function Idle(current: Option<nat>): (cpu: Cpu) {
    Cpu(current, true, Kernel, 0)
  }

  function OrphaningTurn(n: nat): (t: nat) {
    if n == 1 || n == 4 then 1 else if n == 3 || n == 6 then 2 else if n == 5 then 3 else 0
  }

  function OrphaningStep(n: nat): (step: Step) {
    if n == 2 then WaitBlocks(0, None) else if n == 4 then AwaitEvent(0) else if n == 5 then Exit(0, 7)
    else if n == 6 then Exit(0, 0) else Fork(0, Process)
  }

  /** The CPU has switched to a task, run it, and entered the kernel again. */
  function Turned(s: State, t: nat): (s': State)
    requires |s.cpus| == 1
  {
    Activate(s, 0, Some(t)).(cpus := [Cpu(Some(t), false, Entered, s.cpus[0].deadline)])
  }

  lemma Play(first: State, steps: seq<Step>, s: State, step: Step)
    requires Reaches(first, steps, s) && Enabled(s, step)
    ensures Reaches(first, steps + [step], Apply(s, step))
  {
    var all := steps + [step];
    assert all[..|all| - 1] == steps && all[|all| - 1] == step;
  }

  lemma Turn(first: State, steps: seq<Step>, s: State, t: nat)
    requires Reaches(first, steps, s) && |s.cpus| == 1 && s.cpus[0].mode == Kernel && s.cpus[0].resched
             && Pick(s, 0) == Some(t)
    ensures Reaches(first, steps + [Schedule(0)] + [Return(0)] + [Trap(0)], Turned(s, t))
  {
    var s1 := Apply(s, Schedule(0));
    Play(first, steps, s, Schedule(0));
    var s2 := Apply(s1, Return(0));
    Play(first, steps + [Schedule(0)], s1, Return(0));
    Play(first, steps + [Schedule(0)] + [Return(0)], s2, Trap(0));
    assert Apply(s2, Trap(0)) == Turned(s, t);
  }

  lemma {:induction false} FirstAt(tasks: map<nat, Task>, q: seq<nat>, c: nat, k: nat)
    requires k <= |q| && (forall i :: 0 <= i < k ==> !Eligible(tasks, q[i], c))
             && (k < |q| ==> Eligible(tasks, q[k], c))
    ensures First(tasks, q, c) == if k < |q| then Some(q[k]) else None
  {
    if k > 0 {
      FirstAt(tasks, q[1..], c, k - 1);
    }
  }

  lemma PositionAt(q: seq<nat>, k: nat)
    requires k < |q| && q[k] !in q[..k]
    ensures Position(q, q[k]) == k
  {
    var i := Position(q, q[k]);
    assert forall j :: 0 <= j < k ==> q[..k][j] == q[j];
    assert forall j :: 0 <= j < i ==> q[..i][j] == q[j];
  }

  /** Which task is the next after the current one */
  lemma PickAt(s: State, c: nat, i: nat, k: nat)
    requires c < |s.cpus| && |s.list| > 1 && i < |s.list| && s.cpus[c].current == Some(s.list[i])
             && s.list[i] !in s.list[..i]
    requires k < |s.list| && Eligible(s.tasks, s.list[k], c)
    requires forall j :: 0 <= j < |s.list| && (if k < i then j < k || j >= i else i <= j < k) ==>
             !Eligible(s.tasks, s.list[j], c)
    ensures Pick(s, c) == Some(s.list[k])
  {
    PositionAt(s.list, i);
    if k < i {
      FirstAt(s.tasks, s.list[i..], c, |s.list| - i);
      FirstAt(s.tasks, s.list[..i], c, k);
    } else {
      FirstAt(s.tasks, s.list[i..], c, k - i);
    }
  }

  lemma OrphaningPicks(n: nat)
    requires n < 7
    ensures Pick(Orphaning(n), 0) == Some(OrphaningTurn(n))
  {
    var s := Orphaning(n);
    if n == 1 {
      PickAt(s, 0, 1, 0);
    } else if n == 2 {
      PickAt(s, 0, 1, 2);
    } else if n == 4 {
      PickAt(s, 0, 1, 2);
    } else if n == 5 {
      PickAt(s, 0, 2, 0);
    } else {
      FirstAt(s.tasks, s.list, 0, 0);
    }
  }

  lemma {:induction false} RemoveNone(q: seq<nat>, t: nat)
    requires t !in q
    ensures Remove(q, t) == q
  {
    if q != [] {
      RemoveNone(q[1..], t);
    }
  }

  lemma RemoveFirst(q: seq<nat>)
    requires |q| > 0 && q[0] !in q[1..]
    ensures Remove(q, q[0]) == q[1..]
  {
    RemoveNone(q[1..], q[0]);
  }

  /** What a round leads to, one round at a time. */
  ghost predicate Goes(n: nat) {
    var s := Turned(Orphaning(n), OrphaningTurn(n));
    Enabled(s, OrphaningStep(n)) && Apply(s, OrphaningStep(n)) == Orphaning(n + 1)
  }

  lemma OrphaningForks(n: nat)
    requires n == 0 || n == 1 || n == 3
    ensures Goes(n)
  {
    var s, step, s' := Turned(Orphaning(n), OrphaningTurn(n)), OrphaningStep(n), Orphaning(n + 1);
    assert Apply(s, step).tasks == s'.tasks;
    assert Apply(s, step).cpus == s'.cpus && Apply(s, step).list == s'.list;
  }

  lemma OrphaningWaits(n: nat)
    requires n == 2 || n == 4
    ensures Goes(n)
  {
    var s, step, s' := Turned(Orphaning(n), OrphaningTurn(n)), OrphaningStep(n), Orphaning(n + 1);
    if n == 2 {
      assert Child(s, 0, 1) && Wanted(None, 1);
    }
    assert Apply(s, step).tasks == s'.tasks;
    assert Apply(s, step).cpus == s'.cpus;
  }

  lemma OrphaningExits(n: nat)
    requires n == 5 || n == 6
    ensures Goes(n)
  {
    if n == 5 {
      OrphaningDies();
    } else {
      OrphaningLeaves();
    }
  }

  /** A task whose parent does not wait for a child dies unseen. */
  lemma DiesUnseen(s: State, t: nat, code: int)
    requires |s.cpus| == 1 && s.cpus[0].mode == Entered && s.cpus[0].current == Some(t) && t in s.tasks && t != s.init
    requires var p := s.tasks[t].parent; p in s.tasks && p != t && !s.tasks[p].wait.ForChild?
    ensures Enabled(s, Exit(0, code)) && Apply(s, Exit(0, code)) == Died(s, 0, code)
  {
  }

  lemma OrphaningDies()
    ensures Goes(5)
  {
    var s, s' := Turned(Orphaning(5), 3), Orphaning(6);
    DiesUnseen(s, 3, 7);
    RemoveFirst(s.list);
    assert s.list[1..] == s'.list;
    assert Reparent(s, 3) == s.tasks;
    assert Died(s, 0, 7).tasks == s'.tasks;
  }

  lemma OrphaningLeaves()
    ensures Goes(6)
  {
    var s, s' := Turned(Orphaning(6), 2), Orphaning(7);
    DiesUnseen(s, 2, 0);
    RemoveFirst(s.list);
    assert s.list[1..] == s'.list;
    assert Reparent(s, 2) == s.tasks[3 := s.tasks[3].(parent := 0)];
    assert Died(s, 0, 0).tasks == s'.tasks;
  }

  lemma OrphaningGoes(n: nat)
    requires n < 7
    ensures Goes(n)
  {
    if n == 2 || n == 4 {
      OrphaningWaits(n);
    } else if n < 5 {
      OrphaningForks(n);
    } else {
      OrphaningExits(n);
    }
  }

  lemma {:induction false} OrphaningRuns(n: nat) returns (steps: seq<Step>)
    requires n <= 7
    ensures Reaches(Orphaning(0), steps, Orphaning(n))
  {
    steps := [];
    if n > 0 {
      var before := OrphaningRuns(n - 1);
      var s, t := Orphaning(n - 1), OrphaningTurn(n - 1);
      OrphaningPicks(n - 1);
      OrphaningGoes(n - 1);
      Turn(Orphaning(0), before, s, t);
      var turned := before + [Schedule(0)] + [Return(0)] + [Trap(0)];
      Play(Orphaning(0), turned, Turned(s, t), OrphaningStep(n - 1));
      steps := turned + [OrphaningStep(n - 1)];
    }
  }

  /** The kernel gets to a state in which init waits on past a dead child. */
  lemma InitMissesOne()
    ensures Reachable(Orphaning(7)) && InitMisses(Orphaning(7))
  {
    var steps := OrphaningRuns(7);
    assert Init(Orphaning(0));
    assert Child(Orphaning(7), 0, 3) && Wanted(None, 3);
  }
}
