/** The loops of kernel/task.c over the run queue and the timer queue, against the steps of Sched. */
module SchedCode {
  import opened Wrappers
  import opened Sched
  import SchedTimer

  lemma DropAt(q: seq<nat>, i: nat)
    requires i < |q|
    ensures var r := q[..i] + q[i + 1..]; r[..i] == q[..i] && r[i..] == q[i + 1..] && forall x :: x in r ==> x in q
  {
  }

  class Kernel {
    var tasks: map<nat, Task>
    var list: seq<nat>
    var timers: seq<nat>
    var cpus: seq<Cpu>
    const init: nat
    ghost var rest: State

    ghost function View(): (s: State)
      reads this
    {
      State(tasks, list, timers, cpus, init, rest.next, rest.exits, rest.log)
    }

    /** The first eligible task from position i up to j. */
    method Scan(c: nat, i: nat, j: nat) returns (r: Option<nat>)
      requires i <= j <= |list|
      ensures r == First(tasks, list[i..j], c)
    {
      var k := i;
      while k < j
        invariant i <= k <= j
        invariant First(tasks, list[i..j], c) == First(tasks, list[k..j], c)
      {
        if Eligible(tasks, list[k], c) {
          return Some(list[k]);
        }
        assert list[k..j][1..] == list[k + 1..j];
        k := k + 1;
      }
      r := None;
    }

    /** The position of the current task in the queue. */
    method Find(t: nat) returns (i: nat)
      ensures i == Position(list, t)
    {
      i := 0;
      while i < |list| && list[i] != t
        invariant i <= |list| && Position(list, t) == i + Position(list[i..], t)
      {
        assert list[i..][1..] == list[i + 1..];
        i := i + 1;
      }
    }

    /** The choice of `schedule`. */
    method PickNext(c: nat) returns (r: Option<nat>)
      requires c < |cpus|
      ensures r == Pick(View(), c)
    {
      var current := cpus[c].current;
      if current.None? {
        r := Scan(c, 0, |list|);
        assert list[0..|list|] == list;
        return;
      }
      if |list| == 1 {
        var t := list[0];
        r := if t in tasks && (tasks[t].state == Blocked || !Claimable(tasks[t], c)) then None else Some(t);
        return;
      }
      var i := Find(current.value);
      r := Scan(c, i, |list|);
      assert list[i..|list|] == list[i..] && list[0..i] == list[..i];
      if r.None? {
        r := Scan(c, 0, i);
        if r.None? && current.value in tasks && tasks[current.value].state == Running {
          r := current;
        }
      }
    }

    /** `schedule` with `task_activate` */
    method Reschedule(c: nat)
      requires Enabled(View(), Schedule(c))
      modifies this`tasks, this`cpus
      ensures View() == Apply(old(View()), Schedule(c))
    {
      var r := PickNext(c);
      var prev := cpus[c].current;
      if prev == r {
        if r.Some? && r.value in tasks {
          tasks := tasks[r.value := tasks[r.value].(state := Running)];
        }
      } else {
        if prev.Some? && prev.value in tasks {
          var t := tasks[prev.value];
          var state := if t.state == Running && t.cpu == Some(c) then Runnable else t.state;
          tasks := tasks[prev.value := t.(state := state, cpu := None)];
        }
        if r.Some? && r.value in tasks {
          tasks := tasks[r.value := tasks[r.value].(state := Running, cpu := Some(c))];
        }
      }
      cpus := cpus[c := Cpu(r, false, Sched.Kernel, cpus[c].deadline)];
    }

    /** `list_add_sorted` on the timer queue */
    method AddTimer(t: nat, at: nat)
      modifies this`timers
      ensures timers == Insert(tasks, old(timers), t, at)
    {
      var k := 0;
      while k < |timers| && At(tasks, timers[k]) <= at
        invariant 0 <= k <= |timers|
        invariant Insert(tasks, timers, t, at) == timers[..k] + Insert(tasks, timers[k..], t, at)
      {
        assert timers[..k + 1] == timers[..k] + [timers[k]] && timers[k..][1..] == timers[k + 1..];
        k := k + 1;
      }
      timers := timers[..k] + [t] + timers[k..];
    }

    /** The loop of `task_handle_events`: one pass over the timer queue, removing in place. */
    method RunTimers(c: nat, now: nat) returns (first: Option<nat>)
      requires forall t :: t in timers ==> t in tasks
      modifies this`tasks, this`timers
      ensures Expired(tasks, timers, first) == Expire(old(tasks), old(timers), c, now)
    {
      first := None;
      var i := 0;
      while i < |timers|
        invariant 0 <= i <= |timers| && first.None?
        invariant forall t :: t in timers ==> t in tasks
        invariant var r := Expire(tasks, timers[i..], c, now);
                  Expire(old(tasks), old(timers), c, now) == r.(timers := timers[..i] + r.timers)
        decreases |timers| - i
      {
        var t := timers[i];
        assert timers[i..][1..] == timers[i + 1..];
        if At(tasks, t) > now {
          first := Some(t);
          break;
        }
        if SchedTimer.Away(tasks[t], c) {
          assert timers[..i + 1] == timers[..i] + [t];
          i := i + 1;
        } else {
          tasks := tasks[t := SchedTimer.WokenTask(tasks[t])];
          DropAt(timers, i);
          timers := timers[..i] + timers[i + 1..];
        }
      }
      assert timers == timers[..i] + timers[i..];
    }

    /** `task_handle_events` with `timer_update` */
    method Events(c: nat, now: nat)
      requires Enabled(View(), HandleEvents(c, now)) && forall t :: t in timers ==> t in tasks
      modifies this`tasks, this`timers, this`cpus
      ensures View() == Apply(old(View()), HandleEvents(c, now))
    {
      var first := RunTimers(c, now);
      var d := cpus[c].deadline;
      if first.Some? && At(tasks, first.value) < d {
        d := At(tasks, first.value);
      }
      cpus := cpus[c := cpus[c].(deadline := d)];
    }
  }
}
