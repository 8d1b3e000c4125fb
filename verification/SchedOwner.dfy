/** Which CPU owns which task: the invariant of every interleaving, and what follows from it. */
module SchedOwner {
  import opened Basics
  import opened Wrappers
  import opened Sched

  ghost predicate CpuOk(s: State, c: nat)
    requires c < |s.cpus|
  {
    var cpu := s.cpus[c];
    && (cpu.current.Some? ==> cpu.current.value in s.tasks && s.tasks[cpu.current.value].cpu == Some(c))
    && (cpu.mode != Kernel ==> cpu.current.Some? && s.tasks[cpu.current.value].state == Running)
    && (cpu.current.Some? && s.tasks[cpu.current.value].state != Running ==> cpu.resched)
  }

  ghost predicate TaskOk(s: State, t: nat)
    requires t in s.tasks
  {
    var task := s.tasks[t];
    && t < s.next && (t in s.list <==> task.state != Dead)
    && (task.cpu.Some? ==> task.cpu.value < |s.cpus| && s.cpus[task.cpu.value].current == Some(t) && task.state != Dead)
    && (task.state == Running ==> task.cpu.Some?)
    && (if task.kind == Process then task.wait != NoWait ==>
        task.state == Blocked else task.wait.NoWait? || task.wait.ForTimer?)
    && (task.state == Dead ==> task.wait == NoWait)
  }

  /** A running task is owned by exactly the CPU that runs it, and the queue holds the living. */
  ghost predicate Inv(s: State) {
    && Unique(s.list) && (forall t :: t in s.list ==> t in s.tasks)
    && Unique(s.timers) && (forall t :: t in s.timers ==> t in s.tasks && s.tasks[t].wait.ForTimer?)
    && (forall c: nat :: c < |s.cpus| ==> CpuOk(s, c))
    && (forall t :: t in s.tasks ==> TaskOk(s, t))
  }

  lemma TrapKeeps(s: State, step: Step)
    requires Inv(s) && Enabled(s, step) && step.Trap?
    ensures Inv(Apply(s, step))
  {
    var s' := Apply(s, step);
    forall c: nat | c < |s'.cpus|
      ensures CpuOk(s', c)
    {
      assert CpuOk(s, c);
    }
    forall t | t in s'.tasks
      ensures TaskOk(s', t)
    {
      assert t in s.tasks ==> TaskOk(s, t);
    }
  }

  lemma ReturnKeeps(s: State, step: Step)
    requires Inv(s) && Enabled(s, step) && step.Return?
    ensures Inv(Apply(s, step))
  {
    var s' := Apply(s, step);
    forall c: nat | c < |s'.cpus|
      ensures CpuOk(s', c)
    {
      assert CpuOk(s, c);
    }
    forall t | t in s'.tasks
      ensures TaskOk(s', t)
    {
      assert t in s.tasks ==> TaskOk(s, t);
    }
  }

  lemma ReschedKeeps(s: State, step: Step)
    requires Inv(s) && Enabled(s, step) && step.Resched?
    ensures Inv(Apply(s, step))
  {
    var s' := Apply(s, step);
    forall c: nat | c < |s'.cpus|
      ensures CpuOk(s', c)
    {
      assert CpuOk(s, c);
    }
    forall t | t in s'.tasks
      ensures TaskOk(s', t)
    {
      assert t in s.tasks ==> TaskOk(s, t);
    }
  }

  /** What `schedule` picks: an eligible task, or the current one, or nothing when nothing is eligible. */
  lemma PickFacts(s: State, c: nat)
    requires Inv(s) && c < |s.cpus|
    ensures var r := Pick(s, c);
            && (r.Some? ==> r.value in s.tasks && r.value in s.list)
            && (r.Some? && r != s.cpus[c].current ==> Eligible(s.tasks, r.value, c))
            && (r.Some? && r == s.cpus[c].current ==>
                s.tasks[r.value].state == Running || s.tasks[r.value].state == Runnable)
            && (r.None? ==> forall t :: t in s.tasks ==>
                !Eligible(s.tasks, t, c) && !(s.cpus[c].current == Some(t) && s.tasks[t].state == Running))
  {
    var current := s.cpus[c].current;
    if current.None? {
      FirstFacts(s.tasks, s.list, c);
    } else {
      assert CpuOk(s, c) && TaskOk(s, current.value);
      if |s.list| == 1 {
        assert current.value == s.list[0];
        assert forall t :: t in s.tasks && t != s.list[0] ==> TaskOk(s, t);
      } else {
        ScanFacts(s, c, Position(s.list, current.value));
      }
    }
    forall t | t in s.tasks && Eligible(s.tasks, t, c)
      ensures t in s.list
    {
      assert TaskOk(s, t);
    }
  }

  lemma ScanFacts(s: State, c: nat, i: nat)
    requires i <= |s.list|
    ensures var later, earlier := First(s.tasks, s.list[i..], c), First(s.tasks, s.list[..i], c);
            && (later.Some? ==> later.value in s.list && Eligible(s.tasks, later.value, c))
            && (earlier.Some? ==> earlier.value in s.list && Eligible(s.tasks, earlier.value, c))
            && (later.None? && earlier.None? ==> forall t :: t in s.list ==> !Eligible(s.tasks, t, c))
  {
    FirstFacts(s.tasks, s.list[i..], c);
    FirstFacts(s.tasks, s.list[..i], c);
    assert s.list == s.list[..i] + s.list[i..];
  }

  lemma ScheduleKeeps(s: State, step: Step)
    requires Inv(s) && Enabled(s, step) && step.Schedule?
    ensures Inv(Apply(s, step))
  {
    PickFacts(s, step.cpu);
    ActivateKeeps(s, step.cpu, Pick(s, step.cpu));
  }

  lemma ActivateKeeps(s: State, c: nat, r: Option<nat>)
    requires Inv(s) && c < |s.cpus|
    requires r.Some? && r != s.cpus[c].current ==> r.value in s.list && Eligible(s.tasks, r.value, c)
    requires r.Some? && r == s.cpus[c].current ==>
             r.value in s.tasks && (s.tasks[r.value].state == Running || s.tasks[r.value].state == Runnable)
    ensures Inv(Activate(s, c, r))
  {
    var s', prev := Activate(s, c, r), s.cpus[c].current;
    assert CpuOk(s, c);
    assert r.Some? ==> TaskOk(s, r.value);
    assert prev.Some? ==> TaskOk(s, prev.value);
    forall d: nat | d < |s'.cpus|
      ensures CpuOk(s', d)
    {
      assert CpuOk(s, d);
    }
    forall t | t in s'.tasks
      ensures TaskOk(s', t)
    {
      assert TaskOk(s, t);
    }
  }

  lemma ForkKeeps(s: State, step: Step)
    requires Inv(s) && Enabled(s, step) && step.Fork?
    ensures Inv(Apply(s, step))
  {
    var x := s.cpus[step.cpu].current.value;
    assert CpuOk(s, step.cpu) && TaskOk(s, x);
    assert s.next !in s.list && s.next !in s.tasks by {
      assert forall t :: t in s.tasks ==> TaskOk(s, t);
    }
    var s' := Apply(s, step);
    forall c: nat | c < |s'.cpus|
      ensures CpuOk(s', c)
    {
      assert CpuOk(s, c);
    }
    forall t | t in s'.tasks
      ensures TaskOk(s', t)
    {
      assert t in s.tasks ==> TaskOk(s, t);
    }
  }

  lemma SleepKeeps(s: State, step: Step)
    requires Inv(s) && Enabled(s, step) && step.Sleep?
    ensures Inv(Apply(s, step))
  {
    var x := s.cpus[step.cpu].current.value;
    assert CpuOk(s, step.cpu) && TaskOk(s, x);
    RemoveFacts(s.timers, x);
    InsertFacts(s.tasks[x := s.tasks[x].(state := Blocked, wait := ForTimer(step.at))], Remove(s.timers, x), x,
                step.at);
    var s' := Apply(s, step);
    forall c: nat | c < |s'.cpus|
      ensures CpuOk(s', c)
    {
      assert CpuOk(s, c);
    }
    forall t | t in s'.tasks
      ensures TaskOk(s', t)
    {
      assert t in s.tasks ==> TaskOk(s, t);
    }
  }

  lemma AwaitEventKeeps(s: State, step: Step)
    requires Inv(s) && Enabled(s, step) && step.AwaitEvent?
    ensures Inv(Apply(s, step))
  {
    var x := s.cpus[step.cpu].current.value;
    assert CpuOk(s, step.cpu) && TaskOk(s, x);
    var s' := Apply(s, step);
    forall c: nat | c < |s'.cpus|
      ensures CpuOk(s', c)
    {
      assert CpuOk(s, c);
    }
    forall t | t in s'.tasks
      ensures TaskOk(s', t)
    {
      assert t in s.tasks ==> TaskOk(s, t);
    }
  }

  lemma ArmVmKeeps(s: State, step: Step)
    requires Inv(s) && Enabled(s, step) && step.ArmVm?
    ensures Inv(Apply(s, step))
  {
    var x := s.cpus[step.cpu].current.value;
    assert CpuOk(s, step.cpu) && TaskOk(s, x);
    RemoveFacts(s.timers, x);
    InsertFacts(s.tasks[x := s.tasks[x].(wait := ForTimer(step.at))], Remove(s.timers, x), x, step.at);
    var s' := Apply(s, step);
    forall c: nat | c < |s'.cpus|
      ensures CpuOk(s', c)
    {
      assert CpuOk(s, c);
    }
    forall t | t in s'.tasks
      ensures TaskOk(s', t)
    {
      assert t in s.tasks ==> TaskOk(s, t);
    }
  }

  lemma CancelVmKeeps(s: State, step: Step)
    requires Inv(s) && Enabled(s, step) && step.CancelVm?
    ensures Inv(Apply(s, step))
  {
    var x := s.cpus[step.cpu].current.value;
    assert CpuOk(s, step.cpu) && TaskOk(s, x);
    RemoveFacts(s.timers, x);
    var s' := Apply(s, step);
    forall c: nat | c < |s'.cpus|
      ensures CpuOk(s', c)
    {
      assert CpuOk(s, c);
    }
    forall t | t in s'.tasks
      ensures TaskOk(s', t)
    {
      assert t in s.tasks ==> TaskOk(s, t);
    }
  }

  lemma HaltVmKeeps(s: State, step: Step)
    requires Inv(s) && Enabled(s, step) && step.HaltVm?
    ensures Inv(Apply(s, step))
  {
    var x := s.cpus[step.cpu].current.value;
    assert CpuOk(s, step.cpu) && TaskOk(s, x);
    var s' := Apply(s, step);
    forall c: nat | c < |s'.cpus|
      ensures CpuOk(s', c)
    {
      assert CpuOk(s, c);
    }
    forall t | t in s'.tasks
      ensures TaskOk(s', t)
    {
      assert t in s.tasks ==> TaskOk(s, t);
    }
  }

  lemma WaitFailsKeeps(s: State, step: Step)
    requires Inv(s) && Enabled(s, step) && step.WaitFails?
    ensures Inv(Apply(s, step))
  {
    var x := s.cpus[step.cpu].current.value;
    assert CpuOk(s, step.cpu) && TaskOk(s, x);
    var s' := Apply(s, step);
    forall c: nat | c < |s'.cpus|
      ensures CpuOk(s', c)
    {
      assert CpuOk(s, c);
    }
    forall t | t in s'.tasks
      ensures TaskOk(s', t)
    {
      assert t in s.tasks ==> TaskOk(s, t);
    }
  }

  lemma WaitReapsKeeps(s: State, step: Step)
    requires Inv(s) && Enabled(s, step) && step.WaitReaps?
    ensures Inv(Apply(s, step))
  {
    var x := s.cpus[step.cpu].current.value;
    assert CpuOk(s, step.cpu) && TaskOk(s, x);
    var s' := Apply(s, step);
    forall c: nat | c < |s'.cpus|
      ensures CpuOk(s', c)
    {
      assert CpuOk(s, c);
    }
    forall t | t in s'.tasks
      ensures TaskOk(s', t)
    {
      assert t in s.tasks ==> TaskOk(s, t);
    }
  }

  lemma WaitBlocksKeeps(s: State, step: Step)
    requires Inv(s) && Enabled(s, step) && step.WaitBlocks?
    ensures Inv(Apply(s, step))
  {
    var x := s.cpus[step.cpu].current.value;
    assert CpuOk(s, step.cpu) && TaskOk(s, x);
    var s' := Apply(s, step);
    forall c: nat | c < |s'.cpus|
      ensures CpuOk(s', c)
    {
      assert CpuOk(s, c);
    }
    forall t | t in s'.tasks
      ensures TaskOk(s', t)
    {
      assert t in s.tasks ==> TaskOk(s, t);
    }
  }

  lemma DiedKeeps(s: State, c: nat, code: int)
    requires Inv(s) && Acts(s, c)
    ensures Inv(Died(s, c, code))
  {
    var x, s' := s.cpus[c].current.value, Died(s, c, code);
    assert CpuOk(s, c) && TaskOk(s, x);
    RemoveFacts(s.list, x);
    RemoveFacts(s.timers, x);
    forall d: nat | d < |s'.cpus|
      ensures CpuOk(s', d)
    {
      assert CpuOk(s, d);
    }
    forall t | t in s'.tasks
      ensures TaskOk(s', t)
    {
      assert TaskOk(s, t);
    }
  }

  lemma NotifyKeeps(s: State, t: nat, child: nat)
    requires Inv(s) && t in s.tasks && child in s.tasks && s.tasks[child].state == Dead
    ensures Inv(Notify(s, t, child))
  {
    var s' := Notify(s, t, child);
    assert TaskOk(s, t) && TaskOk(s, child);
    forall d: nat | d < |s'.cpus|
      ensures CpuOk(s', d)
    {
      assert CpuOk(s, d);
    }
    forall x | x in s'.tasks
      ensures TaskOk(s', x)
    {
      assert TaskOk(s, x);
    }
  }

  lemma ExitKeeps(s: State, step: Step)
    requires Inv(s) && Enabled(s, step) && step.Exit?
    ensures Inv(Apply(s, step))
  {
    var t, s1 := s.cpus[step.cpu].current.value, Died(s, step.cpu, step.code);
    DiedKeeps(s, step.cpu, step.code);
    if s.tasks[t].parent in s1.tasks {
      NotifyKeeps(s1, s.tasks[t].parent, t);
    }
  }

  lemma WakeKeeps(s: State, step: Step)
    requires Inv(s) && Enabled(s, step) && step.Wake?
    ensures Inv(Apply(s, step))
  {
    var s' := Apply(s, step);
    forall c: nat | c < |s'.cpus|
      ensures CpuOk(s', c)
    {
      assert CpuOk(s, c);
    }
    forall t | t in s'.tasks
      ensures TaskOk(s', t)
    {
      assert t in s.tasks ==> TaskOk(s, t);
    }
  }

  lemma HandleEventsKeeps(s: State, step: Step)
    requires Inv(s) && Enabled(s, step) && step.HandleEvents?
    ensures Inv(Apply(s, step))
  {
    ExpireFacts(s.tasks, s.timers, step.cpu, step.now);
    var s' := Apply(s, step);
    forall c: nat | c < |s'.cpus|
      ensures CpuOk(s', c)
    {
      assert CpuOk(s, c);
    }
    forall t | t in s'.tasks
      ensures TaskOk(s', t)
    {
      assert t in s.tasks ==> TaskOk(s, t);
    }
  }

  lemma StepKeeps(s: State, step: Step)
    requires Inv(s) && Enabled(s, step)
    ensures Inv(Apply(s, step))
  {
    match step
    case Trap(_) => TrapKeeps(s, step);
    case Return(_) => ReturnKeeps(s, step);
    case Resched(_) => ReschedKeeps(s, step);
    case Schedule(_) => ScheduleKeeps(s, step);
    case Fork(_, _) => ForkKeeps(s, step);
    case Sleep(_, _) => SleepKeeps(s, step);
    case AwaitEvent(_) => AwaitEventKeeps(s, step);
    case ArmVm(_, _) => ArmVmKeeps(s, step);
    case CancelVm(_) => CancelVmKeeps(s, step);
    case HaltVm(_) => HaltVmKeeps(s, step);
    case WaitFails(_, _) => WaitFailsKeeps(s, step);
    case WaitReaps(_, _, _) => WaitReapsKeeps(s, step);
    case WaitBlocks(_, _) => WaitBlocksKeeps(s, step);
    case Exit(_, _) => ExitKeeps(s, step);
    case Wake(_) => WakeKeeps(s, step);
    case HandleEvents(_, _) => HandleEventsKeeps(s, step);
  }

  lemma {:induction false} ReachesInv(s: State, steps: seq<Step>, s': State)
    requires Init(s) && Reaches(s, steps, s')
    ensures Inv(s')
    decreases |steps|
  {
    if steps == [] {
      forall c: nat | c < |s.cpus|
        ensures CpuOk(s, c)
      {
      }
    } else {
      var last := |steps| - 1;
      var m :| Reaches(s, steps[..last], m) && Enabled(m, steps[last]) && s' == Apply(m, steps[last]);
      ReachesInv(s, steps[..last], m);
      StepKeeps(m, steps[last]);
    }
  }

  lemma ReachableInv(s: State)
    requires Reachable(s)
    ensures Inv(s)
  {
    var first, steps :| Init(first) && Reaches(first, steps, s);
    ReachesInv(first, steps, s);
  }

  /** In every interleaving, no task is current on two CPUs, and a task runs exactly on the CPU that owns it. */
  lemma OneOwner(s: State, t: nat)
    requires Reachable(s) && t in s.tasks
    ensures forall c: nat, d: nat ::
              c < |s.cpus| && d < |s.cpus| && s.cpus[c].current == Some(t) == s.cpus[d].current ==> c == d
    ensures forall c: nat :: c < |s.cpus| ==> (s.cpus[c].current == Some(t) <==> s.tasks[t].cpu == Some(c))
    ensures s.tasks[t].state == Running ==> exists c: nat :: c < |s.cpus| && s.cpus[c].current == Some(t)
    ensures s.tasks[t].state == Dead ==> s.tasks[t].cpu == None
  {
    ReachableInv(s);
    assert TaskOk(s, t);
    forall c: nat | c < |s.cpus|
      ensures s.cpus[c].current == Some(t) <==> s.tasks[t].cpu == Some(c)
    {
      assert CpuOk(s, c);
    }
  }

  /** No step of any interleaving runs into one of the scheduler's own checks. */
  lemma NeverPanics(s: State, step: Step)
    requires Reachable(s) && Enabled(s, step)
    ensures !Panics(s, step)
  {
    ReachableInv(s);
    if step.Schedule? {
      PickFacts(s, step.cpu);
    } else if step.HandleEvents? {
      assert forall t :: t in s.timers ==> TaskOk(s, t);
    } else if step.Return? || step.Sleep? || step.AwaitEvent? || step.HaltVm? || step.WaitReaps? || step.WaitBlocks? {
      assert CpuOk(s, step.cpu) && TaskOk(s, s.cpus[step.cpu].current.value);
    }
  }

  /** `schedule` leaves a CPU idle exactly when no task is runnable and claimable and its own may not go on. */
  lemma IdlesOnlyWhenNothingRuns(s: State, c: nat)
    requires Reachable(s) && Enabled(s, Schedule(c))
    ensures Apply(s, Schedule(c)).cpus[c].current.None? <==>
            forall t :: t in s.tasks ==>
              !Eligible(s.tasks, t, c) && !(s.cpus[c].current == Some(t) && s.tasks[t].state == Running)
  {
    ReachableInv(s);
    PickFacts(s, c);
    var r := Pick(s, c);
    if r.Some? {
      assert r.value in s.tasks;
      assert CpuOk(s, c) && TaskOk(s, r.value);
    }
  }
}
