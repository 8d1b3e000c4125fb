/** What wakes a blocked task: its own event, and nothing else. */
module SchedWake {
  import opened Wrappers
  import opened Sched
  import SchedOwner
  import SchedTimer
  import SchedWait

  /** The step is what the blocked task waits for. */
  ghost predicate Wakes(s: State, step: Step, t: nat)
    requires Enabled(s, step) && t in s.tasks
  {
    match s.tasks[t].wait
    case NoWait => false
    case ForTimer(at) => step.HandleEvents? && at <= step.now
    case ForEvent => step == Wake(t)
    case ForChild(_) => step.Exit? && SchedWait.Awaited(s, t, s.cpus[step.cpu].current.value)
  }

  /** The task goes on with what it was blocked on, or waits as before. */
  ghost predicate Goes(s: State, s': State, t: nat, woken: bool) {
    && t in s.tasks && t in s'.tasks && s'.tasks[t].kind == s.tasks[t].kind
    && if woken then s'.tasks[t].state == Runnable && s'.tasks[t].wait == NoWait
       else s'.tasks[t].state == Blocked && s'.tasks[t].wait == s.tasks[t].wait
  }

  /**
   In every reachable state, a blocked task becomes runnable by exactly the step that it waits for:
   its expired timer, its event, or the exit of a child that its wait is for.
   */
  lemma BlockedUntil(s: State, step: Step, t: nat)
    requires Reachable(s) && Enabled(s, step) && t in s.tasks && s.tasks[t].state == Blocked
    ensures Goes(s, Apply(s, step), t, Wakes(s, step, t))
  {
    SchedTimer.ReachableInv(s);
    SchedWait.ReachableInv(s);
    assert SchedTimer.Timed(s, t) && SchedOwner.TaskOk(s, t);
    match step
    case HandleEvents(c, now) => SchedTimer.TaskHandled(s, c, now, t);
    case Schedule(c) => BlockedScheduled(s, c, t);
    case Exit(c, code) => BlockedExit(s, c, code, t);
    case WaitReaps(c, pid, child) => BlockedReaps(s, c, pid, child, t);
    case _ => BlockedElse(s, step, t);
  }

  lemma BlockedScheduled(s: State, c: nat, t: nat)
    requires SchedOwner.Inv(s) && Enabled(s, Schedule(c)) && t in s.tasks && s.tasks[t].state == Blocked
    ensures Goes(s, Apply(s, Schedule(c)), t, false)
  {
    SchedOwner.PickFacts(s, c);
  }

  lemma BlockedReaps(s: State, c: nat, pid: Option<nat>, child: nat, t: nat)
    requires SchedOwner.Inv(s) && Enabled(s, WaitReaps(c, pid, child)) && t in s.tasks && s.tasks[t].state == Blocked
    ensures Goes(s, Apply(s, WaitReaps(c, pid, child)), t, false)
  {
    assert SchedOwner.CpuOk(s, c);
  }

  lemma BlockedElse(s: State, step: Step, t: nat)
    requires SchedOwner.Inv(s) && Enabled(s, step) && t in s.tasks && s.tasks[t].state == Blocked
    requires SchedOwner.TaskOk(s, t)
    requires !step.HandleEvents? && !step.Schedule? && !step.Exit? && !step.WaitReaps?
    ensures Goes(s, Apply(s, step), t, Wakes(s, step, t))
  {
    if !step.Trap? && !step.Return? && !step.Resched? && !step.Wake? {
      assert SchedOwner.CpuOk(s, step.cpu);
    }
  }

  lemma BlockedExit(s: State, c: nat, code: int, t: nat)
    requires SchedWait.Inv(s) && Enabled(s, Exit(c, code)) && t in s.tasks && s.tasks[t].state == Blocked
    ensures Goes(s, Apply(s, Exit(c, code)), t, Wakes(s, Exit(c, code), t))
  {
    var child := s.cpus[c].current.value;
    assert SchedOwner.CpuOk(s, c) && SchedWait.ParentOk(s, child) && SchedOwner.TaskOk(s, child);
    assert SchedOwner.TaskOk(s, t);
    var s1 := Died(s, c, code);
    assert t != child && t in s1.tasks && s1.tasks[t].wait == s.tasks[t].wait && s1.tasks[t].state == Blocked;
  }

  // Runs.

  /** None of the steps is what the task waits for. */
  ghost predicate Quiet(s: State, steps: seq<Step>, t: nat) {
    forall i :: 0 <= i < |steps| && t in s.tasks ==> !For(s.tasks[t].wait, steps[i], t)
  }

  /** The step may be what such a wait is for. */
  ghost predicate For(w: Wait, step: Step, t: nat) {
    match w
    case NoWait => false
    case ForTimer(at) => step.HandleEvents? && at <= step.now
    case ForEvent => step == Wake(t)
    case ForChild(_) => step.Exit?
  }

  lemma ReachesMore(first: State, steps: seq<Step>, s: State, step: Step)
    requires Init(first) && Reaches(first, steps, s) && Enabled(s, step)
    ensures Reaches(first, steps + [step], Apply(s, step))
  {
    var all := steps + [step];
    assert all[..|all| - 1] == steps && all[|all| - 1] == step;
  }

  lemma {:induction false} ReachesThrough(s: State, steps: seq<Step>, s': State)
    requires Reachable(s) && Reaches(s, steps, s')
    ensures Reachable(s')
    decreases |steps|
  {
    if steps != [] {
      var last := |steps| - 1;
      var m :| Reaches(s, steps[..last], m) && Enabled(m, steps[last]) && s' == Apply(m, steps[last]);
      ReachesThrough(s, steps[..last], m);
      var first, before :| Init(first) && Reaches(first, before, m);
      ReachesMore(first, before, m, steps[last]);
    }
  }

  /** However long the run, a blocked task stays blocked in it until the step that it waits for. */
  lemma {:induction false} StaysBlocked(s: State, steps: seq<Step>, s': State, t: nat)
    requires Reachable(s) && Reaches(s, steps, s') && t in s.tasks && s.tasks[t].state == Blocked && Quiet(s, steps, t)
    ensures Goes(s, s', t, false)
    decreases |steps|
  {
    if steps != [] {
      var last := |steps| - 1;
      var m :| Reaches(s, steps[..last], m) && Enabled(m, steps[last]) && s' == Apply(m, steps[last]);
      StaysBlocked(s, steps[..last], m, t);
      ReachesThrough(s, steps[..last], m);
      BlockedUntil(m, steps[last], t);
      assert !For(s.tasks[t].wait, steps[last], t);
    }
  }

  /** The step makes the current task of its CPU wait. */
  predicate Blocks(step: Step) {
    step.Sleep? || step.AwaitEvent? || step.WaitBlocks? || step.HaltVm?
  }

  /** What the task asks for. */
  function Request(s: State, step: Step): (w: Wait)
    requires Blocks(step) && Enabled(s, step)
  {
    match step
    case Sleep(_, at) => ForTimer(at)
    case AwaitEvent(_) => ForEvent
    case WaitBlocks(_, pid) => ForChild(pid)
    case HaltVm(c) => s.tasks[s.cpus[c].current.value].wait
  }

  /**
   A task that asks for something is blocked in every run without the step that it asked for, and
   that step, on whichever CPU, makes it runnable.
   */
  lemma BlocksUntil(s: State, step: Step, steps: seq<Step>, m: State, waker: Step)
    requires Reachable(s) && Blocks(step) && Enabled(s, step) && Reaches(Apply(s, step), steps, m)
    requires forall i :: 0 <= i < |steps| ==> !For(Request(s, step), steps[i], s.cpus[step.cpu].current.value)
    requires Enabled(m, waker)
    ensures var t, s' := s.cpus[step.cpu].current.value, Apply(m, waker);
            && t in m.tasks && m.tasks[t].state == Blocked && m.tasks[t].wait == Request(s, step)
            && t in s'.tasks && (s'.tasks[t].state == Runnable <==> Wakes(m, waker, t))
            && (s'.tasks[t].state == Runnable ==> s'.tasks[t].wait == NoWait)
  {
    var t, s1 := s.cpus[step.cpu].current.value, Apply(s, step);
    assert s1.tasks[t].state == Blocked && s1.tasks[t].wait == Request(s, step);
    var first, before :| Init(first) && Reaches(first, before, s);
    ReachesMore(first, before, s, step);
    StaysBlocked(s1, steps, m, t);
    ReachesThrough(s1, steps, m);
    BlockedUntil(m, waker, t);
  }

  /** A process that sleeps until `at` is woken by the first pass over the timers at or after that time. */
  lemma SleepsUntil(s: State, c: nat, at: nat, steps: seq<Step>, m: State, d: nat, now: nat)
    requires Reachable(s) && Enabled(s, Sleep(c, at)) && Reaches(Apply(s, Sleep(c, at)), steps, m)
    requires forall i :: 0 <= i < |steps| && steps[i].HandleEvents? ==> steps[i].now < at
    requires Enabled(m, HandleEvents(d, now)) && at <= now
    ensures var t := s.cpus[c].current.value;
            && t in m.tasks && m.tasks[t].state == Blocked && t in m.timers
            && var s' := Apply(m, HandleEvents(d, now));
               t in s'.tasks && s'.tasks[t].state == Runnable && s'.tasks[t].wait == NoWait && t !in s'.timers
  {
    var t := s.cpus[c].current.value;
    BlocksUntil(s, Sleep(c, at), steps, m, HandleEvents(d, now));
    var first, before :| Init(first) && Reaches(first, before, s);
    ReachesMore(first, before, s, Sleep(c, at));
    ReachesThrough(Apply(s, Sleep(c, at)), steps, m);
    SchedTimer.ReachableInv(m);
    assert SchedTimer.Timed(m, t) && SchedOwner.TaskOk(m, t);
    SchedTimer.TaskHandled(m, d, now, t);
  }

  /** A CPU that is to reschedule does not return to user mode before it has. */
  lemma {:induction false} ReschedHeeded(s: State, c: nat, steps: seq<Step>, m: State)
    requires Enabled(s, Resched(c)) && Reaches(Apply(s, Resched(c)), steps, m)
    requires forall i :: 0 <= i < |steps| ==> steps[i] != Schedule(c)
    ensures c < |m.cpus| && m.cpus[c].resched && !Enabled(m, Return(c))
    decreases |steps|
  {
    if steps != [] {
      var last := |steps| - 1;
      var k :| Reaches(Apply(s, Resched(c)), steps[..last], k) && Enabled(k, steps[last]) && m == Apply(k, steps[last]);
      ReschedHeeded(s, c, steps[..last], k);
      FlagStays(k, steps[last], c);
    }
  }

  lemma FlagStays(s: State, step: Step, c: nat)
    requires Enabled(s, step) && c < |s.cpus| && s.cpus[c].resched && step != Schedule(c)
    ensures c < |Apply(s, step).cpus| && Apply(s, step).cpus[c].resched
  {
    if step.Exit? {
      var t, s1 := s.cpus[step.cpu].current.value, Died(s, step.cpu, step.code);
      if s.tasks[t].parent in s1.tasks {
        assert Notify(s1, s.tasks[t].parent, t).cpus == s1.cpus;
      }
    } else if step.Schedule? {
      assert Activate(s, step.cpu, Pick(s, step.cpu)).cpus[c] == s.cpus[c];
    }
  }

  /** The kernel acts at most once for each time that it is entered. */
  lemma OncePerEntry(s: State, step: Step)
    requires Enabled(s, step) && (Blocks(step) || step.Fork? || step.ArmVm? || step.CancelVm? || step.WaitFails?
                                  || step.WaitReaps? || step.Exit?)
    ensures Acts(s, step.cpu) && !Acts(Apply(s, step), step.cpu)
  {
  }

  /** The timer of a machine: armed it is queued for its time and goes on running, cancelled it is not queued. */
  lemma MachineTimer(s: State, c: nat, at: nat)
    requires Reachable(s)
    ensures Enabled(s, ArmVm(c, at)) ==>
              var t, s' := s.cpus[c].current.value, Apply(s, ArmVm(c, at));
              && t in s'.timers && s'.tasks[t].wait == ForTimer(at) && s'.tasks[t].state == Running
              && forall x :: x != t ==> (x in s'.timers <==> x in s.timers)
    ensures Enabled(s, CancelVm(c)) ==>
              var t, s' := s.cpus[c].current.value, Apply(s, CancelVm(c));
              && t !in s'.timers && s'.tasks[t].wait == NoWait && s'.tasks[t].state == Running
              && forall x :: x != t ==> (x in s'.timers <==> x in s.timers)
  {
    SchedTimer.ReachableInv(s);
    if Acts(s, c) {
      var t := s.cpus[c].current.value;
      assert SchedOwner.CpuOk(s, c);
      RemoveFacts(s.timers, t);
      InsertFacts(s.tasks[t := s.tasks[t].(wait := ForTimer(at))], Remove(s.timers, t), t, at);
    }
  }

  /** A wait that finds a dead child tells its status and drops it, and the parent goes on. */
  lemma ReapDelivers(s: State, c: nat, pid: Option<nat>, child: nat)
    requires Reachable(s) && Enabled(s, WaitReaps(c, pid, child))
    ensures var t, s' := s.cpus[c].current.value, Apply(s, WaitReaps(c, pid, child));
            && s'.tasks.Keys == s.tasks.Keys - {child} && child in s.exits
            && s'.log == s.log + [Delivery(t, child, Status(s.exits[child]))]
            && t in s'.tasks && s'.tasks[t].state == Running && s'.tasks[t].wait == NoWait
            && forall x :: x in s'.tasks ==> s'.tasks[x] == s.tasks[x]
  {
    SchedWait.ReachableInv(s);
    var t := s.cpus[c].current.value;
    assert SchedOwner.CpuOk(s, c) && SchedOwner.TaskOk(s, t) && SchedWait.ExitOk(s, child);
  }
}
