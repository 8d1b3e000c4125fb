/** The timer queue: it holds the sleepers, sorted, in every reachable state; what one pass over it does. */
module SchedTimer {
  import opened Basics
  import opened Wrappers
  import opened Sched
  import SchedOwner

  ghost predicate Sorted(tasks: map<nat, Task>, timers: seq<nat>) {
    forall i, j :: 0 <= i < j < |timers| ==> At(tasks, timers[i]) <= At(tasks, timers[j])
  }

  lemma {:induction false} InsertSorted(tasks: map<nat, Task>, timers: seq<nat>, t: nat, at: nat)
    requires Sorted(tasks, timers) && At(tasks, t) == at
    ensures Sorted(tasks, Insert(tasks, timers, t, at))
  {
    if timers != [] && At(tasks, timers[0]) <= at {
      InsertSorted(tasks, timers[1..], t, at);
      var r := Insert(tasks, timers[1..], t, at);
      InsertFacts(tasks, timers[1..], t, at);
      forall j | 0 <= j < |r|
        ensures At(tasks, timers[0]) <= At(tasks, r[j])
      {
        assert r[j] in r;
      }
    }
  }

  lemma {:induction false} RemoveSorted(tasks: map<nat, Task>, timers: seq<nat>, t: nat)
    requires Sorted(tasks, timers)
    ensures Sorted(tasks, Remove(timers, t))
  {
    if timers != [] {
      RemoveSorted(tasks, timers[1..], t);
      var r := Remove(timers[1..], t);
      RemoveFacts(timers[1..], t);
      forall j | 0 <= j < |r|
        ensures At(tasks, timers[0]) <= At(tasks, r[j])
      {
        assert r[j] in r;
        assert r[j] in timers[1..];
      }
    }
  }

  /** The queue is the same to its members. */
  lemma SameSorted(tasks: map<nat, Task>, tasks': map<nat, Task>, timers: seq<nat>)
    requires Sorted(tasks, timers) && forall t :: t in timers ==> At(tasks', t) == At(tasks, t)
    ensures Sorted(tasks', timers)
  {
    forall i, j | 0 <= i < j < |timers|
      ensures At(tasks', timers[i]) <= At(tasks', timers[j])
    {
      assert timers[i] in timers && timers[j] in timers;
    }
  }

  /** A machine that runs on another CPU; its expired timer stays queued. */
  predicate Away(t: Task, c: nat) {
    t.kind == Vm && t.state == Running && t.cpu != Some(c)
  }

  ghost predicate Woken(tasks: map<nat, Task>, tasks': map<nat, Task>, now: nat, t: nat) {
    && t in tasks && t in tasks' && At(tasks, t) <= now && tasks'[t].wait == NoWait
    && tasks'[t].state == (if tasks[t].state == Running then Running else Runnable)
  }

  ghost predicate Stays(tasks: map<nat, Task>, tasks': map<nat, Task>, c: nat, now: nat, t: nat) {
    && t in tasks && t in tasks' && tasks'[t] == tasks[t] && (At(tasks, t) <= now ==> Away(tasks[t], c))
  }

  /** One pass: expired tasks leave the queue and wake, except a machine that runs on another CPU. */
  ghost predicate Pass(tasks: map<nat, Task>, timers: seq<nat>, c: nat, now: nat, r: Expired) {
    && (forall t :: t in r.timers ==> t in timers && Stays(tasks, r.tasks, c, now, t))
    && (forall t :: t in timers && t !in r.timers ==> Woken(tasks, r.tasks, now, t))
  }

  ghost predicate Queue(tasks: map<nat, Task>, timers: seq<nat>) {
    Sorted(tasks, timers) && Unique(timers) && forall t :: t in timers ==> t in tasks && tasks[t].wait.ForTimer?
  }

  lemma Tail(tasks: map<nat, Task>, timers: seq<nat>)
    requires Queue(tasks, timers) && timers != []
    ensures Queue(tasks, timers[1..]) && timers[0] !in timers[1..]
    ensures forall x :: x in timers <==> x == timers[0] || x in timers[1..]
    ensures forall x :: x in timers ==> At(tasks, timers[0]) <= At(tasks, x)
  {
    forall x | x in timers
      ensures At(tasks, timers[0]) <= At(tasks, x)
    {
      var i :| 0 <= i < |timers| && timers[i] == x;
    }
  }

  function WokenTask(t: Task): (r: Task) {
    t.(state := if t.state == Running then Running else Runnable, wait := NoWait)
  }

  lemma {:induction false} ExpirePass(tasks: map<nat, Task>, timers: seq<nat>, c: nat, now: nat)
    requires Queue(tasks, timers)
    ensures Pass(tasks, timers, c, now, Expire(tasks, timers, c, now))
  {
    if timers != [] {
      Tail(tasks, timers);
      var t, rest := timers[0], timers[1..];
      if At(tasks, t) <= now && Away(tasks[t], c) {
        ExpirePass(tasks, rest, c, now);
        ExpireFacts(tasks, rest, c, now);
      } else if At(tasks, t) <= now {
        var tasks1 := tasks[t := WokenTask(tasks[t])];
        SameSorted(tasks, tasks1, rest);
        ExpirePass(tasks1, rest, c, now);
        ExpireFacts(tasks1, rest, c, now);
        PassWoken(tasks, timers, c, now, Expire(tasks1, rest, c, now));
      }
    }
  }

  lemma PassWoken(tasks: map<nat, Task>, timers: seq<nat>, c: nat, now: nat, r: Expired)
    requires Queue(tasks, timers) && timers != [] && At(tasks, timers[0]) <= now
    requires Pass(tasks[timers[0] := WokenTask(tasks[timers[0]])], timers[1..], c, now, r)
    requires timers[0] in r.tasks && r.tasks[timers[0]] == WokenTask(tasks[timers[0]])
    ensures Pass(tasks, timers, c, now, r)
  {
    Tail(tasks, timers);
    var tasks1 := tasks[timers[0] := WokenTask(tasks[timers[0]])];
    forall t | t in r.timers
      ensures t in timers && Stays(tasks, r.tasks, c, now, t)
    {
      assert Stays(tasks1, r.tasks, c, now, t);
    }
    forall t | t in timers && t !in r.timers
      ensures Woken(tasks, r.tasks, now, t)
    {
      assert t != timers[0] ==> Woken(tasks1, r.tasks, now, t);
    }
  }

  lemma SortedCons(tasks: map<nat, Task>, t: nat, q: seq<nat>)
    requires Sorted(tasks, q) && forall x :: x in q ==> At(tasks, t) <= At(tasks, x)
    ensures Sorted(tasks, [t] + q)
  {
    forall j | 0 <= j < |q|
      ensures At(tasks, t) <= At(tasks, q[j])
    {
      assert q[j] in q;
    }
  }

  lemma {:induction false} ExpireSorted(tasks: map<nat, Task>, timers: seq<nat>, c: nat, now: nat)
    requires Queue(tasks, timers)
    ensures var r := Expire(tasks, timers, c, now);
            && Sorted(r.tasks, r.timers) && (r.first.Some? ==>
                r.first.value in r.timers && At(r.tasks, r.first.value) > now)
            && forall t :: t in r.timers && At(r.tasks, t) > now ==>
                 r.first.Some? && At(r.tasks, r.first.value) <= At(r.tasks, t)
  {
    if timers != [] {
      Tail(tasks, timers);
      var t, rest := timers[0], timers[1..];
      if At(tasks, t) <= now && Away(tasks[t], c) {
        ExpireSorted(tasks, rest, c, now);
        ExpirePass(tasks, rest, c, now);
        ExpireFacts(tasks, rest, c, now);
        var r := Expire(tasks, rest, c, now);
        assert forall x :: x in r.timers ==> Stays(tasks, r.tasks, c, now, x);
        SortedCons(r.tasks, t, r.timers);
      } else if At(tasks, t) <= now {
        var tasks1 := tasks[t := WokenTask(tasks[t])];
        SameSorted(tasks, tasks1, rest);
        ExpireSorted(tasks1, rest, c, now);
      }
    }
  }

  /** The task is queued exactly when it waits for a timer, and blocks on nothing but a wait. */
  ghost predicate Timed(s: State, t: nat)
    requires t in s.tasks
  {
    (t in s.timers <==> s.tasks[t].wait.ForTimer?) && (s.tasks[t].state == Blocked ==> s.tasks[t].wait != NoWait)
  }

  ghost predicate Inv(s: State) {
    SchedOwner.Inv(s) && Sorted(s.tasks, s.timers) && forall t :: t in s.tasks ==> Timed(s, t)
  }

  lemma StepKeeps(s: State, step: Step)
    requires Inv(s) && Enabled(s, step)
    ensures Inv(Apply(s, step))
  {
    SchedOwner.StepKeeps(s, step);
    forall t | t in Apply(s, step).tasks
      ensures Timed(Apply(s, step), t)
    {
      TimedKept(s, step, t);
    }
    if step.Sleep? || step.ArmVm? {
      QueueKeeps(s, step);
    } else if step.CancelVm? || step.Exit? {
      DequeueKeeps(s, step);
    } else if step.HandleEvents? {
      ExpireSorted(s.tasks, s.timers, step.cpu, step.now);
    } else {
      Unmoved(s, step);
      SameSorted(s.tasks, Apply(s, step).tasks, s.timers);
    }
  }

  lemma TimedKept(s: State, step: Step, t: nat)
    requires Inv(s) && Enabled(s, step) && t in Apply(s, step).tasks
    ensures Timed(Apply(s, step), t)
  {
    assert t in s.tasks ==> Timed(s, t) && SchedOwner.TaskOk(s, t);
    if step.Sleep? || step.ArmVm? {
      TimedQueued(s, step, t);
    } else if step.CancelVm? || step.Exit? {
      TimedDequeued(s, step, t);
    } else if step.HandleEvents? {
      ExpirePass(s.tasks, s.timers, step.cpu, step.now);
      ExpireFacts(s.tasks, s.timers, step.cpu, step.now);
    } else if step.Schedule? {
      SchedOwner.PickFacts(s, step.cpu);
      TimedActivated(s, step.cpu, Pick(s, step.cpu), t);
    } else {
      TimedElse(s, step, t);
    }
  }

  lemma TimedQueued(s: State, step: Step, t: nat)
    requires Inv(s) && Enabled(s, step) && (step.Sleep? || step.ArmVm?) && t in s.tasks && Timed(s, t)
    ensures t in Apply(s, step).tasks && Timed(Apply(s, step), t)
  {
    var x, s' := s.cpus[step.cpu].current.value, Apply(s, step);
    assert SchedOwner.CpuOk(s, step.cpu);
    RemoveFacts(s.timers, x);
    InsertFacts(s'.tasks, Remove(s.timers, x), x, step.at);
  }

  lemma TimedDequeued(s: State, step: Step, t: nat)
    requires Inv(s) && Enabled(s, step) && (step.CancelVm? || step.Exit?) && t in Apply(s, step).tasks
    ensures Timed(Apply(s, step), t)
  {
    var x := s.cpus[step.cpu].current.value;
    assert SchedOwner.CpuOk(s, step.cpu) && Timed(s, t);
    RemoveFacts(s.timers, x);
    if step.Exit? {
      var s1 := Died(s, step.cpu, step.code);
      assert s1.timers == Remove(s.timers, x) && Timed(s1, t);
      if s.tasks[x].parent in s1.tasks {
        assert SchedOwner.TaskOk(s, s.tasks[x].parent);
        TimedNotified(s1, s.tasks[x].parent, x, t);
      }
    }
  }

  lemma TimedNotified(s: State, x: nat, child: nat, t: nat)
    requires x in s.tasks && child in s.tasks && t in Notify(s, x, child).tasks && Timed(s, t)
    requires s.tasks[x].wait.ForChild? ==> x !in s.timers
    ensures Timed(Notify(s, x, child), t)
  {
  }

  lemma TimedActivated(s: State, c: nat, r: Option<nat>, t: nat)
    requires c < |s.cpus| && t in s.tasks && Timed(s, t)
    requires r.Some? && r.value in s.tasks ==> s.tasks[r.value].state != Blocked
    ensures t in Activate(s, c, r).tasks && Timed(Activate(s, c, r), t)
  {
  }

  lemma TimedElse(s: State, step: Step, t: nat)
    requires Inv(s) && Enabled(s, step) && t in Apply(s, step).tasks && (t in s.tasks ==> Timed(s, t))
    requires !step.Sleep? && !step.ArmVm? && !step.CancelVm? && !step.Exit? && !step.HandleEvents? && !step.Schedule?
    ensures Timed(Apply(s, step), t)
  {
    if step.Fork? || step.AwaitEvent? || step.HaltVm? || step.WaitReaps? || step.WaitBlocks? {
      assert SchedOwner.CpuOk(s, step.cpu) && Timed(s, s.cpus[step.cpu].current.value);
      assert SchedOwner.TaskOk(s, s.cpus[step.cpu].current.value);
    }
    if step.Wake? {
      assert Timed(s, step.task);
    }
  }

  lemma QueueKeeps(s: State, step: Step)
    requires Inv(s) && Enabled(s, step) && (step.Sleep? || step.ArmVm?)
    ensures Sorted(Apply(s, step).tasks, Apply(s, step).timers)
  {
    var task := s.tasks[s.cpus[step.cpu].current.value].(wait := ForTimer(step.at));
    Queued(s, step.cpu, step.at, if step.Sleep? then task.(state := Blocked) else task);
  }

  lemma DequeueKeeps(s: State, step: Step)
    requires Inv(s) && Enabled(s, step) && (step.CancelVm? || step.Exit?)
    ensures Sorted(Apply(s, step).tasks, Apply(s, step).timers)
  {
    var s', t := Apply(s, step), s.cpus[step.cpu].current.value;
    forall x | x in s.timers && x != t
      ensures At(s'.tasks, x) == At(s.tasks, x)
    {
      assert SchedOwner.CpuOk(s, step.cpu) && SchedOwner.TaskOk(s, t) && SchedOwner.TaskOk(s, x);
    }
    Dequeued(s, s', t);
  }

  lemma Queued(s: State, c: nat, at: nat, task: Task)
    requires Inv(s) && Acts(s, c) && task.wait == ForTimer(at)
    ensures var t := s.cpus[c].current.value;
            Sorted(s.tasks[t := task], Insert(s.tasks[t := task], Remove(s.timers, t), t, at))
  {
    var t := s.cpus[c].current.value;
    RemoveSorted(s.tasks, s.timers, t);
    RemoveFacts(s.timers, t);
    SameSorted(s.tasks, s.tasks[t := task], Remove(s.timers, t));
    InsertSorted(s.tasks[t := task], Remove(s.timers, t), t, at);
  }

  lemma Dequeued(s: State, s': State, t: nat)
    requires Inv(s) && s'.timers == Remove(s.timers, t)
    requires forall x :: x in s.timers && x != t ==> At(s'.tasks, x) == At(s.tasks, x)
    ensures Sorted(s'.tasks, s'.timers)
  {
    RemoveSorted(s.tasks, s.timers, t);
    RemoveFacts(s.timers, t);
    SameSorted(s.tasks, s'.tasks, s'.timers);
  }

  /** The other steps leave the queue and its members' expirations alone. */
  lemma Unmoved(s: State, step: Step)
    requires SchedOwner.Inv(s) && Enabled(s, step)
    requires !step.Sleep? && !step.ArmVm? && !step.CancelVm? && !step.Exit? && !step.HandleEvents?
    ensures var s' := Apply(s, step);
            s'.timers == s.timers && forall t :: t in s.timers ==> At(s'.tasks, t) == At(s.tasks, t)
  {
    forall t | t in s.timers
      ensures At(Apply(s, step).tasks, t) == At(s.tasks, t)
    {
      assert SchedOwner.TaskOk(s, t);
      if step.Fork? || step.AwaitEvent? || step.HaltVm? || step.WaitReaps? || step.WaitBlocks? {
        assert SchedOwner.CpuOk(s, step.cpu);
      }
      UnmovedTask(s, step, t);
    }
  }

  lemma UnmovedTask(s: State, step: Step, t: nat)
    requires Enabled(s, step) && t in s.tasks && s.tasks[t].wait.ForTimer? && t != s.next && s.tasks[t].state != Dead
    requires !step.Sleep? && !step.ArmVm? && !step.CancelVm? && !step.Exit? && !step.HandleEvents?
    requires (step.AwaitEvent? || step.WaitReaps? || step.WaitBlocks?) ==> s.cpus[step.cpu].current != Some(t)
    ensures At(Apply(s, step).tasks, t) == At(s.tasks, t)
  {
  }

  lemma {:induction false} ReachesInv(s: State, steps: seq<Step>, s': State)
    requires Init(s) && Reaches(s, steps, s')
    ensures Inv(s')
    decreases |steps|
  {
    if steps == [] {
      SchedOwner.ReachesInv(s, steps, s');
    } else {
      var last := |steps| - 1;
      var m :| Reaches(s, steps[..last], m) && Enabled(m, steps[last]) && s' == Apply(m, steps[last]);
      ReachesInv(s, steps[..last], m);
      StepKeeps(m, steps[last]);
    }
  }

  lemma ReachableInv(s: State)
    requires Reachable(s)
    ensures Inv(s)
  {
    var first, steps :| Init(first) && Reaches(first, steps, s);
    ReachesInv(first, steps, s);
  }

  /** In every reachable state the timer queue holds exactly the tasks that wait for a timer, once each, sorted. */
  lemma AlwaysSorted(s: State)
    requires Reachable(s)
    ensures Sorted(s.tasks, s.timers) && Unique(s.timers)
    ensures forall t :: t in s.timers <==> t in s.tasks && s.tasks[t].wait.ForTimer?
    ensures forall t :: t in s.timers && s.tasks[t].kind == Process ==> s.tasks[t].state == Blocked
  {
    ReachableInv(s);
    forall t
      ensures t in s.timers <==> t in s.tasks && s.tasks[t].wait.ForTimer?
    {
      assert t in s.tasks ==> Timed(s, t);
    }
    assert forall t :: t in s.timers ==> SchedOwner.TaskOk(s, t);
  }

  /** A machine that runs elsewhere stays queued. */
  lemma {:induction false} ExpireHere(tasks: map<nat, Task>, timers: seq<nat>, c: nat, now: nat, t: nat)
    requires Queue(tasks, timers) && t in timers && Away(tasks[t], c)
    ensures t in Expire(tasks, timers, c, now).timers
  {
    Tail(tasks, timers);
    var first, rest := timers[0], timers[1..];
    if At(tasks, first) <= now && t != first {
      if Away(tasks[first], c) {
        ExpireHere(tasks, rest, c, now, t);
      } else {
        SameSorted(tasks, tasks[first := WokenTask(tasks[first])], rest);
        ExpireHere(tasks[first := WokenTask(tasks[first])], rest, c, now, t);
      }
    }
  }

  /** The task is awake and off the queue if its time has come, and as it was otherwise. */
  ghost predicate Handled(s: State, s': State, c: nat, now: nat, t: nat) {
    && t in s.tasks && t in s'.tasks
    && if s.tasks[t].wait.ForTimer? && s.tasks[t].wait.at <= now && !Away(s.tasks[t], c) then
         s'.tasks[t] == WokenTask(s.tasks[t]) && t !in s'.timers
       else
         s'.tasks[t] == s.tasks[t] && (t in s'.timers <==> s.tasks[t].wait.ForTimer?)
  }

  lemma TaskHandled(s: State, c: nat, now: nat, t: nat)
    requires Inv(s) && Enabled(s, HandleEvents(c, now)) && t in s.tasks
    ensures Handled(s, Apply(s, HandleEvents(c, now)), c, now, t)
  {
    ExpirePass(s.tasks, s.timers, c, now);
    ExpireFacts(s.tasks, s.timers, c, now);
    assert Timed(s, t);
    var s' := Apply(s, HandleEvents(c, now));
    assert Expiry(s.tasks, s'.tasks, t);
    if t in s.timers && Away(s.tasks[t], c) {
      ExpireHere(s.tasks, s.timers, c, now, t);
    }
    if t in s'.timers {
      assert Stays(s.tasks, s'.tasks, c, now, t);
    } else if t in s.timers {
      assert Woken(s.tasks, s'.tasks, now, t);
    }
  }

  /** The next interrupt is the earliest of those times that are still waited for and the one set before. */
  ghost predicate NextAlarm(s: State, now: nat, before: nat, alarm: nat) {
    && alarm <= before
    && (alarm == before || exists t :: t in s.tasks && s.tasks[t].wait == ForTimer(alarm) && alarm > now)
    && forall t :: t in s.tasks && s.tasks[t].wait.ForTimer? && s.tasks[t].wait.at > now ==> alarm <= s.tasks[t].wait.at
  }

  /**
   After `task_handle_events`: every task whose time has come is awake and off the queue, except a
   machine that runs on another CPU, which stays as it is; nothing else changed, and this CPU's next
   timer interrupt is set to the earliest time.
   */
  lemma EventsHandled(s: State, c: nat, now: nat)
    requires Reachable(s) && Enabled(s, HandleEvents(c, now))
    ensures var s' := Apply(s, HandleEvents(c, now));
            && s'.tasks.Keys == s.tasks.Keys && (forall t :: t in s.tasks ==> Handled(s, s', c, now, t))
            && NextAlarm(s', now, s.cpus[c].deadline, s'.cpus[c].deadline)
  {
    ReachableInv(s);
    ExpireFacts(s.tasks, s.timers, c, now);
    var s' := Apply(s, HandleEvents(c, now));
    forall t | t in s.tasks
      ensures Handled(s, s', c, now, t)
    {
      TaskHandled(s, c, now, t);
    }
    ExpireSorted(s.tasks, s.timers, c, now);
  }
}
