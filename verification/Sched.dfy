/**
 Tasks, CPUs, waiting and timers (kernel/task.c) as a state machine.

 Every locked section of the kernel is one step, and the steps of all CPUs interleave freely.
 */
module Sched {
  import opened Basics
  import opened Wrappers

  datatype Kind = Process | Vm

  datatype TaskState = Runnable | Running | Blocked | Dead

  /** What a task waits for (`enum task_wfe`); `ForChild(None)` is wait(-1). */
  datatype Wait = NoWait | ForChild(pid: Option<nat>) | ForTimer(at: nat) | ForEvent

  /** `cpu` is `on_cpu`. */
  datatype Task = Task(kind: Kind, state: TaskState, cpu: Option<nat>, wait: Wait, parent: nat, code: int)

  /** `Entered`: a trap from user mode was taken and the kernel has not acted on it yet. */
  datatype Mode = User | Entered | Kernel

  /** `resched` is the per-CPU flag `schedule`; `deadline` the next timer interrupt. */
  datatype Cpu = Cpu(current: Option<nat>, resched: bool, mode: Mode, deadline: nat)

  datatype Delivery = Delivery(parent: nat, child: nat, status: int)

  /**
   `exits` and `log` record the codes given to exit and the statuses handed to waiting parents.
   The children of a task are the tasks that name it as their parent.
   */
  datatype State = State(tasks: map<nat, Task>, list: seq<nat>, timers: seq<nat>, cpus: seq<Cpu>,
                         init: nat, next: nat, exits: map<nat, int>, log: seq<Delivery>)

  datatype Step =
    | Trap(cpu: nat)
    | Return(cpu: nat)
    | Resched(cpu: nat)
    | Schedule(cpu: nat)
    | Fork(cpu: nat, kind: Kind)
    | Sleep(cpu: nat, at: nat)
    | AwaitEvent(cpu: nat)
    | ArmVm(cpu: nat, at: nat)
    | CancelVm(cpu: nat)
    | HaltVm(cpu: nat)
    | WaitFails(cpu: nat, pid: Option<nat>)
    | WaitReaps(cpu: nat, pid: Option<nat>, child: nat)
    | WaitBlocks(cpu: nat, pid: Option<nat>)
    | Exit(cpu: nat, code: int)
    | Wake(task: nat)
    | HandleEvents(cpu: nat, now: nat)

  // The run queue.

  predicate Claimable(t: Task, c: nat) {
    t.cpu == None || t.cpu == Some(c)
  }

  predicate Eligible(tasks: map<nat, Task>, t: nat, c: nat) {
    t in tasks && tasks[t].state == Runnable && Claimable(tasks[t], c)
  }

  /** The first eligible task of a part of the queue. */
  function First(tasks: map<nat, Task>, queue: seq<nat>, c: nat): (r: Option<nat>) {
    if queue == [] then None
    else if Eligible(tasks, queue[0], c) then Some(queue[0])
    else First(tasks, queue[1..], c)
  }

  /** Where a task stands in the queue. */
  function Position(queue: seq<nat>, t: nat): (i: nat)
    ensures i <= |queue| && (t in queue ==> i < |queue| && queue[i] == t) && t !in queue[..i]
  {
    if queue == [] || queue[0] == t then 0
    else
      assert forall j :: 0 < j < |queue| ==> queue[j] == queue[1..][j - 1];
      var i := 1 + Position(queue[1..], t);
      assert queue[..i] == [queue[0]] + queue[1..][..i - 1];
      i
  }

  /** The task that `schedule` activates. */
  function Pick(s: State, c: nat): (r: Option<nat>)
    requires c < |s.cpus|
  {
    var current := s.cpus[c].current;
    if current.None? then First(s.tasks, s.list, c)
    else if |s.list| == 1 then
      var t := s.list[0];
      if t in s.tasks && (s.tasks[t].state == Blocked || !Claimable(s.tasks[t], c)) then None else Some(t)
    else
      var i := Position(s.list, current.value);
      var later, earlier := First(s.tasks, s.list[i..], c), First(s.tasks, s.list[..i], c);
      if later.Some? then later
      else if earlier.Some? then earlier
      else if current.value in s.tasks && s.tasks[current.value].state == Running then current
      else None
  }

  /** `task_activate` */
  function Activate(s: State, c: nat, r: Option<nat>): (s': State)
    requires c < |s.cpus|
  {
    var prev := s.cpus[c].current;
    var cpus := s.cpus[c := Cpu(r, false, Kernel, s.cpus[c].deadline)];
    if prev == r then
      var tasks := if r.Some? && r.value in s.tasks then s.tasks[r.value := s.tasks[r.value].(state := Running)]
        else s.tasks;
      s.(tasks := tasks, cpus := cpus)
    else
      var left := if prev.Some? && prev.value in s.tasks then
                    var t := s.tasks[prev.value];
                    s.tasks[prev.value :=
                            t.(state := if t.state == Running && t.cpu == Some(c) then Runnable
                               else t.state, cpu := None)]
                  else s.tasks;
      var tasks := if r.Some? && r.value in left then left[r.value := left[r.value].(state := Running, cpu := Some(c))]
        else left;
      s.(tasks := tasks, cpus := cpus)
  }

  // Timers.

  function At(tasks: map<nat, Task>, t: nat): (at: nat) {
    if t in tasks && tasks[t].wait.ForTimer? then tasks[t].wait.at else 0
  }

  /** `list_add_sorted` by expiration. */
  function Insert(tasks: map<nat, Task>, timers: seq<nat>, t: nat, at: nat): (r: seq<nat>) {
    if timers == [] then [t]
    else if At(tasks, timers[0]) > at then [t] + timers
    else [timers[0]] + Insert(tasks, timers[1..], t, at)
  }

  function Remove(s: seq<nat>, t: nat): (r: seq<nat>) {
    if s == [] then [] else if s[0] == t then Remove(s[1..], t) else [s[0]] + Remove(s[1..], t)
  }

  datatype Expired = Expired(tasks: map<nat, Task>, timers: seq<nat>, first: Option<nat>)

  /** The loop of `task_handle_events`. */
  function Expire(tasks: map<nat, Task>, timers: seq<nat>, c: nat, now: nat): (r: Expired) {
    if timers == [] then Expired(tasks, [], None)
    else
      var t, rest := timers[0], timers[1..];
      if At(tasks, t) > now || t !in tasks then Expired(tasks, timers, Some(t))
      else if tasks[t].kind == Vm && tasks[t].state == Running && tasks[t].cpu != Some(c) then
        var r := Expire(tasks, rest, c, now);
        r.(timers := [t] + r.timers)
      else
        Expire(tasks[t := tasks[t].(state := if tasks[t].state == Running then Running else Runnable, wait := NoWait)],
               rest, c, now)
  }

  // Steps.

  /** The CPU acts for its current task in a kernel entry from user mode. */
  predicate Acts(s: State, c: nat) {
    c < |s.cpus| && s.cpus[c].mode == Entered && s.cpus[c].current.Some? && s.cpus[c].current.value in s.tasks
  }

  predicate Wanted(pid: Option<nat>, child: nat) {
    pid.None? || pid.value == child
  }

  predicate Child(s: State, t: nat, child: nat) {
    child in s.tasks && s.tasks[child].parent == t && child != s.init
  }

  predicate HasChild(s: State, t: nat, pid: Option<nat>) {
    exists child :: child in s.tasks && Child(s, t, child) && Wanted(pid, child)
  }

  predicate HasDeadChild(s: State, t: nat, pid: Option<nat>) {
    exists child :: child in s.tasks && Child(s, t, child) && Wanted(pid, child) && s.tasks[child].state == Dead
  }

  predicate Enabled(s: State, step: Step) {
    match step
    case Trap(c) => c < |s.cpus| && s.cpus[c].mode == User
    case Return(c) => c < |s.cpus| && s.cpus[c].mode != User && !s.cpus[c].resched && s.cpus[c].current.Some?
    case Resched(c) => c < |s.cpus|
    case Schedule(c) => c < |s.cpus| && s.cpus[c].mode != User && s.cpus[c].resched
    case Fork(c, kind) => Acts(s, c) && s.tasks[s.cpus[c].current.value].kind == Process
    case Sleep(c, at) => Acts(s, c) && s.tasks[s.cpus[c].current.value].kind == Process
    case AwaitEvent(c) => Acts(s, c) && s.tasks[s.cpus[c].current.value].kind == Process
    case ArmVm(c, at) => Acts(s, c) && s.tasks[s.cpus[c].current.value].kind == Vm
    case CancelVm(c) => Acts(s, c) && s.tasks[s.cpus[c].current.value].kind == Vm
    case HaltVm(c) =>
      Acts(s, c) && s.tasks[s.cpus[c].current.value].kind == Vm && s.tasks[s.cpus[c].current.value].wait.ForTimer?
    case WaitFails(c, pid) =>
      Acts(s, c) && s.tasks[s.cpus[c].current.value].kind == Process && !HasChild(s, s.cpus[c].current.value, pid)
    case WaitReaps(c, pid, child) =>
      && Acts(s, c) && s.tasks[s.cpus[c].current.value].kind == Process
      && Child(s, s.cpus[c].current.value, child) && Wanted(pid, child) && s.tasks[child].state == Dead
    case WaitBlocks(c, pid) =>
      && Acts(s, c) && s.tasks[s.cpus[c].current.value].kind == Process
      && HasChild(s, s.cpus[c].current.value, pid) && !HasDeadChild(s, s.cpus[c].current.value, pid)
    case Exit(c, code) => Acts(s, c) && s.cpus[c].current.value != s.init
    case Wake(t) => t in s.tasks && s.tasks[t].state == Blocked && s.tasks[t].wait == ForEvent
    case HandleEvents(c, now) => c < |s.cpus| && s.cpus[c].mode != User
  }

  function SetTask(s: State, t: nat, task: Task): (s': State) {
    s.(tasks := s.tasks[t := task])
  }

  function SetCpu(s: State, c: nat, cpu: Cpu): (s': State)
    requires c < |s.cpus|
  {
    s.(cpus := s.cpus[c := cpu])
  }

  function Min(a: nat, b: nat): (r: nat) {
    if a <= b then a else b
  }

  /** `(exit_code & 0xff) << 8` */
  function Status(code: int): (r: int) {
    code % 256 * 256
  }

  /** `task_notify_wait`: hands a dead child to a parent that waits for it, and drops the child. */
  function Notify(s: State, t: nat, child: nat): (s': State)
    requires t in s.tasks && child in s.tasks
  {
    var p := s.tasks[t];
    if !p.wait.ForChild? || !Wanted(p.wait.pid, child) then s
    else
      s.(tasks := s.tasks[t := p.(state := if p.state == Blocked then Runnable else p.state, wait := NoWait)] - {child},
         log := s.log + [Delivery(t, child, Status(s.tasks[child].code))])
  }

  /** The children of a task go to init. */
  function Reparent(s: State, t: nat): (tasks: map<nat, Task>) {
    map k | k in s.tasks :: if Child(s, t, k) then s.tasks[k].(parent := s.init) else s.tasks[k]
  }

  /** `task_exit` up to the notification of the parent. */
  function Died(s: State, c: nat, code: int): (s': State)
    requires Acts(s, c)
  {
    var t := s.cpus[c].current.value;
    var dead := s.tasks[t].(state := Dead, cpu := None, wait := NoWait, code := code);
    State(Reparent(s, t)[t := dead], Remove(s.list, t), Remove(s.timers, t),
          s.cpus[c := s.cpus[c].(current := None, resched := true, mode := Kernel)], s.init, s.next, s.exits[t := code],
          s.log)
  }

  function ReschedAll(cpus: seq<Cpu>): (r: seq<Cpu>)
    ensures |r| == |cpus| && forall i :: 0 <= i < |cpus| ==> r[i] == cpus[i].(resched := true)
  {
    seq(|cpus|, i requires 0 <= i < |cpus| => cpus[i].(resched := true))
  }

  function Apply(s: State, step: Step): (s': State)
    requires Enabled(s, step)
  {
    match step
    case Trap(c) => SetCpu(s, c, s.cpus[c].(mode := Entered))
    case Return(c) => SetCpu(s, c, s.cpus[c].(mode := User))
    case Resched(c) => SetCpu(s, c, s.cpus[c].(resched := true))
    case Schedule(c) => Activate(s, c, Pick(s, c))
    case Fork(c, kind) =>
      var cpus := ReschedAll(s.cpus[c := s.cpus[c].(mode := Kernel)]);
      var child := Task(kind, Runnable, None, NoWait, s.cpus[c].current.value, 0);
      s.(tasks := s.tasks[s.next := child], list := [s.next] + s.list, cpus := cpus, next := s.next + 1)
    case Sleep(c, at) =>
      var t := s.cpus[c].current.value;
      var s1 := SetTask(s, t, s.tasks[t].(state := Blocked, wait := ForTimer(at)));
      SetCpu(s1.(timers := Insert(s1.tasks, Remove(s.timers, t), t, at)), c,
             s.cpus[c].(resched := true, mode := Kernel))
    case AwaitEvent(c) =>
      var t := s.cpus[c].current.value;
      SetCpu(SetTask(s, t, s.tasks[t].(state := Blocked, wait := ForEvent)), c,
             s.cpus[c].(resched := true, mode := Kernel))
    case ArmVm(c, at) =>
      var t := s.cpus[c].current.value;
      var s1 := SetTask(s, t, s.tasks[t].(wait := ForTimer(at)));
      SetCpu(s1.(timers := Insert(s1.tasks, Remove(s.timers, t), t, at)), c, s.cpus[c].(mode := Kernel))
    case CancelVm(c) =>
      var t := s.cpus[c].current.value;
      SetCpu(SetTask(s, t, s.tasks[t].(wait := NoWait)).(timers := Remove(s.timers, t)), c, s.cpus[c].(mode := Kernel))
    case HaltVm(c) =>
      var t := s.cpus[c].current.value;
      SetCpu(SetTask(s, t, s.tasks[t].(state := Blocked)), c, s.cpus[c].(resched := true, mode := Kernel))
    case WaitFails(c, pid) => SetCpu(s, c, s.cpus[c].(mode := Kernel))
    case WaitReaps(c, pid, child) =>
      var t := s.cpus[c].current.value;
      var s1 := SetTask(s, t, s.tasks[t].(wait := ForChild(pid)));
      SetCpu(Notify(s1, t, child), c, s.cpus[c].(mode := Kernel))
    case WaitBlocks(c, pid) =>
      var t := s.cpus[c].current.value;
      SetCpu(SetTask(s, t, s.tasks[t].(state := Blocked, wait := ForChild(pid), cpu := None)), c,
             s.cpus[c].(current := None, resched := true, mode := Kernel))
    case Exit(c, code) =>
      var t, s1 := s.cpus[c].current.value, Died(s, c, code);
      if s.tasks[t].parent in s1.tasks then Notify(s1, s.tasks[t].parent, t) else s1
    case Wake(t) => SetTask(s, t, s.tasks[t].(state := Runnable, wait := NoWait))
    case HandleEvents(c, now) =>
      var r := Expire(s.tasks, s.timers, c, now);
      var d := if r.first.Some? then Min(s.cpus[c].deadline, At(r.tasks, r.first.value)) else s.cpus[c].deadline;
      SetCpu(s.(tasks := r.tasks, timers := r.timers), c, s.cpus[c].(deadline := d))
  }

  // What must not happen.

  /** The step runs into one of the kernel's own checks. */
  ghost predicate Panics(s: State, step: Step)
    requires Enabled(s, step)
  {
    match step
    case Schedule(c) =>
      var r := Pick(s, c);
      r.Some? && (r.value !in s.tasks ||
                  if s.cpus[c].current == r then s.tasks[r.value].state !in {Running, Runnable}
                  else s.tasks[r.value].state != Runnable)
    case Return(c) => s.cpus[c].current.value !in s.tasks || s.tasks[s.cpus[c].current.value].state != Running
    case Sleep(c, _) => Busy(s.tasks[s.cpus[c].current.value])
    case AwaitEvent(c) => Busy(s.tasks[s.cpus[c].current.value])
    case HaltVm(c) => s.tasks[s.cpus[c].current.value].state == Blocked
    case WaitReaps(c, _, _) => Busy(s.tasks[s.cpus[c].current.value])
    case WaitBlocks(c, _) => Busy(s.tasks[s.cpus[c].current.value])
    case HandleEvents(c, now) =>
      exists t :: t in s.timers
        && (t !in s.tasks || (s.tasks[t].state != Blocked && s.tasks[t].kind != Vm) || !s.tasks[t].wait.ForTimer?)
    case _ => false
  }

  /** The task already waits for something. */
  predicate Busy(t: Task) {
    t.wait != NoWait || t.state == Blocked
  }

  /** The state after boot: init waits for a CPU, and every CPU is about to schedule. */
  ghost predicate Init(s: State) {
    && s.tasks == map[s.init := Task(Process, Runnable, None, NoWait, s.init, 0)] && s.next == s.init + 1
    && s.list == [s.init] && s.timers == [] && s.exits == map[] && s.log == []
    && forall c :: 0 <= c < |s.cpus| ==> s.cpus[c].current == None && s.cpus[c].resched && s.cpus[c].mode == Kernel
  }

  ghost predicate Reaches(s: State, steps: seq<Step>, s': State)
    decreases |steps|
  {
    if steps == [] then s' == s
    else
      var last := |steps| - 1;
      exists m :: Reaches(s, steps[..last], m) && Enabled(m, steps[last]) && s' == Apply(m, steps[last])
  }

  ghost predicate Reachable(s: State) {
    exists first, steps :: Init(first) && Reaches(first, steps, s)
  }

  // Facts about the queues.

  lemma {:induction false} RemoveFacts(q: seq<nat>, t: nat)
    ensures t !in Remove(q, t) && (forall x :: x != t ==> (x in Remove(q, t) <==> x in q))
    ensures Unique(q) ==> Unique(Remove(q, t))
  {
    if q != [] {
      RemoveFacts(q[1..], t);
      assert forall x :: x in q <==> x == q[0] || x in q[1..];
      if Unique(q) {
        assert q[0] !in q[1..];
        assert forall i, j :: 0 <= i < j < |q[1..]| ==> q[1..][i] == q[i + 1] && q[1..][j] == q[j + 1];
      }
    }
  }

  lemma {:induction false} FirstFacts(tasks: map<nat, Task>, queue: seq<nat>, c: nat)
    ensures var r := First(tasks, queue, c);
            if r.Some? then r.value in queue && Eligible(tasks, r.value, c) else forall t :: t in queue ==>
              !Eligible(tasks, t, c)
  {
    if queue != [] {
      FirstFacts(tasks, queue[1..], c);
      assert forall x :: x in queue <==> x == queue[0] || x in queue[1..];
    }
  }

  lemma {:induction false} InsertFacts(tasks: map<nat, Task>, timers: seq<nat>, t: nat, at: nat)
    ensures forall x :: x in Insert(tasks, timers, t, at) <==> x == t || x in timers
    ensures Unique(timers) && t !in timers ==> Unique(Insert(tasks, timers, t, at))
  {
    if timers != [] && At(tasks, timers[0]) <= at {
      InsertFacts(tasks, timers[1..], t, at);
      assert forall x :: x in timers <==> x == timers[0] || x in timers[1..];
      if Unique(timers) {
        assert timers[0] !in timers[1..];
      }
    }
  }

  /** What one pass over the timers does to a task. */
  ghost predicate Expiry(tasks: map<nat, Task>, tasks': map<nat, Task>, t: nat) {
    && t in tasks && t in tasks'
    && (tasks'[t] == tasks[t] ||
        tasks'[t] == tasks[t].(state := if tasks[t].state == Running then Running else Runnable, wait := NoWait))
  }

  lemma {:induction false} ExpireFacts(tasks: map<nat, Task>, timers: seq<nat>, c: nat, now: nat)
    requires Unique(timers) && forall t :: t in timers ==> t in tasks
    ensures var r := Expire(tasks, timers, c, now);
            && r.tasks.Keys == tasks.Keys && Unique(r.timers)
            && (forall t :: t in tasks ==> Expiry(tasks, r.tasks, t))
            && (forall t :: t in tasks && (t !in timers || t in r.timers) ==> r.tasks[t] == tasks[t])
            && (forall t :: t in r.timers ==> t in timers)
            && (forall t :: t in timers && t !in r.timers ==> r.tasks[t] != tasks[t] || tasks[t].wait == NoWait)
  {
    if timers != [] && At(tasks, timers[0]) <= now {
      var t, rest := timers[0], timers[1..];
      assert forall x :: x in timers <==> x == t || x in rest;
      assert t !in rest;
      if tasks[t].kind == Vm && tasks[t].state == Running && tasks[t].cpu != Some(c) {
        ExpireFacts(tasks, rest, c, now);
      } else {
        var tasks1 :=
          tasks[t := tasks[t].(state := if tasks[t].state == Running then Running else Runnable, wait := NoWait)];
        ExpireFacts(tasks1, rest, c, now);
        assert forall x :: x in tasks && x != t ==>
               Expiry(tasks1, Expire(tasks1, rest, c, now).tasks, x) && tasks1[x] == tasks[x];
      }
    }
  }
}
