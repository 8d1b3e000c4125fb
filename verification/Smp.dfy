/**
 Calls on every CPU (kernel/smp.c): callers post to per-CPU slots under a lock and alert the other
 CPUs, each CPU serves its slot from the interrupt, and callers wait until every slot is free again.

 The set of online CPUs is fixed. The lock of a slot is held while its function runs. The kernel
 runs with interrupts off, so a CPU takes no interrupt while it waits in a call of its own.
 */
module Smp {
  import opened Basics
  import opened Wrappers

  /** `remote_call`; `serving` while the function runs under the lock. */
  datatype Slot = Slot(active: bool, call: nat, serving: bool)

  /** Where a caller of `on_each_cpu` stands, with the CPUs it still has to post to or wait for. */
  datatype Phase = Local | Posting(todo: set<nat>) | Waiting(todo: set<nat>) | Done

  datatype Call = Call(cpu: nat, phase: Phase)

  /** An interrupt that was sent and not taken yet, by a call or by someone else. */
  datatype Alert = Alert(from: Option<nat>, cpu: nat)

  /** `runs` counts how often the function of a call ran on a CPU. */
  datatype State = State(calls: map<nat, Call>, slots: seq<Slot>, alerts: set<Alert>, runs: multiset<(nat, nat)>)

  datatype Step =
    | Begin(call: nat, cpu: nat)
    | RunLocal(call: nat)
    | Post(call: nat, cpu: nat)
    | Broadcast(call: nat)
    | Kick(cpu: nat)
    | Serve(cpu: nat)
    | Ignore(cpu: nat)
    | Finish(cpu: nat)
    | Observe(call: nat, cpu: nat)
    | Return(call: nat)

  predicate Pending(s: State, k: nat) {
    k in s.calls && !s.calls[k].phase.Done?
  }

  /** The CPU is in a call of its own. */
  ghost predicate Inside(s: State, c: nat) {
    exists k :: Pending(s, k) && s.calls[k].cpu == c
  }

  ghost predicate Alerted(s: State, d: nat) {
    exists a :: a in s.alerts && a.cpu == d
  }

  ghost predicate Enabled(s: State, step: Step) {
    match step
    case Begin(k, c) => k !in s.calls && c < |s.slots| && !Inside(s, c) && !s.slots[c].serving
    case RunLocal(k) => k in s.calls && s.calls[k].phase.Local?
    case Post(k, d) =>
      k in s.calls && s.calls[k].phase.Posting? && d in s.calls[k].phase.todo && d < |s.slots| && !s.slots[d].active
        && !s.slots[d].serving
    case Broadcast(k) => k in s.calls && s.calls[k].phase == Posting({})
    case Kick(d) => d < |s.slots|
    case Serve(d) => d < |s.slots| && s.slots[d].active && !s.slots[d].serving && !Inside(s, d) && Alerted(s, d)
    case Ignore(d) => d < |s.slots| && !s.slots[d].active && !Inside(s, d) && Alerted(s, d)
    case Finish(d) => d < |s.slots| && s.slots[d].serving
    case Observe(k, d) =>
      k in s.calls && s.calls[k].phase.Waiting? && d in s.calls[k].phase.todo && d < |s.slots| && !s.slots[d].active
    case Return(k) => k in s.calls && s.calls[k].phase == Waiting({})
  }

  function SetPhase(s: State, k: nat, phase: Phase): (s': State)
    requires k in s.calls
  {
    s.(calls := s.calls[k := s.calls[k].(phase := phase)])
  }

  /** The CPU takes its interrupt. */
  function Taken(s: State, d: nat): (s': State) {
    s.(alerts := set a | a in s.alerts && a.cpu != d)
  }

  ghost function Apply(s: State, step: Step): (s': State)
    requires Enabled(s, step)
  {
    match step
    case Begin(k, c) => s.(calls := s.calls[k := Call(c, Local)])
    case RunLocal(k) =>
      SetPhase(s, k, Posting(AllBelow(|s.slots|) - {s.calls[k].cpu})).(runs := s.runs + multiset{(k, s.calls[k].cpu)})
    case Post(k, d) =>
      SetPhase(s, k, Posting(s.calls[k].phase.todo - {d})).(slots := s.slots[d := Slot(true, k, false)])
    case Broadcast(k) =>
      var others := AllBelow(|s.slots|) - {s.calls[k].cpu};
      SetPhase(s, k, Waiting(others)).(alerts := s.alerts + set d | d in others :: Alert(Some(k), d))
    case Kick(d) => s.(alerts := s.alerts + {Alert(None, d)})
    case Serve(d) =>
      Taken(s, d).(slots := s.slots[d := s.slots[d].(serving := true)], runs := s.runs + multiset{(s.slots[d].call, d)})
    case Ignore(d) => Taken(s, d)
    case Finish(d) => s.(slots := s.slots[d := s.slots[d].(active := false, serving := false)])
    case Observe(k, d) => SetPhase(s, k, Waiting(s.calls[k].phase.todo - {d}))
    case Return(k) => SetPhase(s, k, Done)
  }

  /** The slot of a CPU still holds the call. */
  predicate Holds(s: State, k: nat, d: nat) {
    d < |s.slots| && s.slots[d].active && s.slots[d].call == k
  }

  /** How often the function of a call has run on a CPU, given where its caller stands. */
  ghost predicate Counted(s: State, k: nat, d: nat)
    requires k in s.calls && d < |s.slots|
  {
    var n, call := s.runs[(k, d)], s.calls[k];
    match call.phase
    case Local => n == 0 && !Holds(s, k, d)
    case Posting(todo) =>
      if d == call.cpu then d !in todo && n == 1 && !Holds(s, k, d)
      else if d in todo then n == 0 && !Holds(s, k, d)
      else n == if Holds(s, k, d) && !s.slots[d].serving then 0 else 1
    case Waiting(todo) =>
      if d in todo then d != call.cpu && n == (if Holds(s, k, d) && !s.slots[d].serving then 0 else 1)
                        && (Holds(s, k, d) && !s.slots[d].serving ==> Alert(Some(k), d) in s.alerts)
      else n == 1 && !Holds(s, k, d)
    case Done => n == 1 && !Holds(s, k, d)
  }

  ghost predicate SlotOk(s: State, d: nat)
    requires d < |s.slots|
  {
    && (s.slots[d].active ==> s.slots[d].call in s.calls) && (s.slots[d].serving ==> s.slots[d].active)
    && (s.slots[d].serving ==> !Inside(s, d))
  }

  /** The call is on a CPU that exists and posts to and waits for such. */
  ghost predicate CallOk(s: State, k: nat)
    requires k in s.calls
  {
    && s.calls[k].cpu < |s.slots|
    && (s.calls[k].phase.Posting? ==> s.calls[k].phase.todo <= AllBelow(|s.slots|))
    && (s.calls[k].phase.Waiting? ==> s.calls[k].phase.todo <= AllBelow(|s.slots|))
  }

  /** The caller has alerted the other CPUs. */
  predicate Sent(s: State, k: nat) {
    k in s.calls && (s.calls[k].phase.Waiting? || s.calls[k].phase.Done?)
  }

  ghost predicate Inv(s: State) {
    && (forall k, d: nat :: k in s.calls && d < |s.slots| ==> Counted(s, k, d))
    && (forall k, d: nat :: k !in s.calls && d < |s.slots| ==> s.runs[(k, d)] == 0)
    && (forall d: nat :: d < |s.slots| ==> SlotOk(s, d))
    && (forall k :: k in s.calls ==> CallOk(s, k))
    && (forall a :: a in s.alerts && a.from.Some? ==> Sent(s, a.from.value))
    && (forall a :: a in s.alerts ==> a.cpu < |s.slots|)
    && (forall j, k :: Pending(s, j) && Pending(s, k) && s.calls[j].cpu == s.calls[k].cpu ==> j == k)
  }

  lemma CountedKept(s: State, step: Step, k: nat, d: nat)
    requires Inv(s) && Enabled(s, step) && k in Apply(s, step).calls && d < |s.slots|
    ensures Counted(Apply(s, step), k, d)
  {
    assert k in s.calls ==> Counted(s, k, d);
    assert SlotOk(s, d);
    if step.Serve? || step.Finish? {
      assert SlotOk(s, step.cpu) && Counted(s, s.slots[step.cpu].call, step.cpu);
    }
  }

  lemma SlotKept(s: State, step: Step, d: nat)
    requires Inv(s) && Enabled(s, step) && d < |s.slots|
    ensures SlotOk(Apply(s, step), d)
  {
    assert SlotOk(s, d);
    var s' := Apply(s, step);
    if k :| Pending(s', k) && s'.calls[k].cpu == d {
      assert step.Begin? || Pending(s, k);
    }
  }

  /** Every step keeps the counts, the slots and the calls in order. */
  lemma StepKeeps(s: State, step: Step)
    requires Inv(s) && Enabled(s, step)
    ensures Inv(Apply(s, step))
  {
    var s' := Apply(s, step);
    forall k, d: nat | k in s'.calls && d < |s'.slots|
      ensures Counted(s', k, d)
    {
      CountedKept(s, step, k, d);
    }
    forall d: nat | d < |s'.slots|
      ensures SlotOk(s', d)
    {
      SlotKept(s, step, d);
    }
    CallsKept(s, step);
  }

  lemma CallsKept(s: State, step: Step)
    requires Inv(s) && Enabled(s, step)
    ensures var s' := Apply(s, step);
            && (forall k :: k in s'.calls ==> CallOk(s', k))
            && (forall k, d: nat :: k !in s'.calls && d < |s'.slots| ==> s'.runs[(k, d)] == 0)
            && (forall j, k :: Pending(s', j) && Pending(s', k) && s'.calls[j].cpu == s'.calls[k].cpu ==> j == k)
            && (forall a :: a in s'.alerts && a.from.Some? ==> Sent(s', a.from.value))
            && (forall a :: a in s'.alerts ==> a.cpu < |s'.slots|)
  {
    var s' := Apply(s, step);
    forall k | k in s'.calls
      ensures CallOk(s', k)
    {
      assert k in s.calls ==> CallOk(s, k);
    }
    if step.Serve? {
      assert SlotOk(s, step.cpu);
    }
    OneEach(s, step);
    AlertsKept(s, step);
  }

  lemma OneEach(s: State, step: Step)
    requires Inv(s) && Enabled(s, step)
    ensures var s' := Apply(s, step);
            forall j, k :: Pending(s', j) && Pending(s', k) && s'.calls[j].cpu == s'.calls[k].cpu ==> j == k
  {
    var s' := Apply(s, step);
    forall j | Pending(s', j)
      ensures Pending(s, j) || (step.Begin? && j == step.call)
    {
    }
  }

  lemma AlertsKept(s: State, step: Step)
    requires Inv(s) && Enabled(s, step)
    ensures var s' := Apply(s, step);
            forall a :: a in s'.alerts ==> a.cpu < |s'.slots| && (a.from.Some? ==> Sent(s', a.from.value))
  {
    var s' := Apply(s, step);
    forall a | a in s'.alerts && a in s.alerts && a.from.Some?
      ensures Sent(s', a.from.value)
    {
      assert Sent(s, a.from.value);
    }
  }

  ghost predicate Init(s: State) {
    s.calls == map[] && s.runs == multiset{} && s.alerts == {} && forall d :: 0 <= d < |s.slots| ==>
      !s.slots[d].active && !s.slots[d].serving
  }

  ghost predicate Reaches(s: State, steps: seq<Step>, s': State)
    decreases |steps|
  {
    if steps == [] then s' == s
    else
      var last := |steps| - 1;
      exists m :: Reaches(s, steps[..last], m) && Enabled(m, steps[last]) && s' == Apply(m, steps[last])
  }

  lemma {:induction false} ReachesInv(s: State, steps: seq<Step>, s': State)
    requires Inv(s) && Reaches(s, steps, s')
    ensures Inv(s')
    decreases |steps|
  {
    if steps != [] {
      var last := |steps| - 1;
      var m :| Reaches(s, steps[..last], m) && Enabled(m, steps[last]) && s' == Apply(m, steps[last]);
      ReachesInv(s, steps[..last], m);
      StepKeeps(m, steps[last]);
    }
  }

  /**
   With any number of concurrent callers: when `on_each_cpu` returns, its function has run
   exactly once on every CPU, and no slot refers to the call or its argument any more.
   */
  lemma RanOnceEverywhere(s: State, steps: seq<Step>, s': State, k: nat, d: nat)
    requires Init(s) && Reaches(s, steps, s') && k in s'.calls && s'.calls[k].phase.Done? && d < |s'.slots|
    ensures s'.runs[(k, d)] == 1
    ensures !(s'.slots[d].active && s'.slots[d].call == k) && (s'.slots[d].serving ==> s'.slots[d].call != k)
  {
    ReachesInv(s, steps, s');
    assert Counted(s', k, d) && SlotOk(s', d);
  }

  /** A function never runs twice on a CPU for one call, at any time. */
  lemma NeverTwice(s: State, steps: seq<Step>, s': State, k: nat, d: nat)
    requires Init(s) && Reaches(s, steps, s') && d < |s'.slots|
    ensures s'.runs[(k, d)] <= 1
  {
    ReachesInv(s, steps, s');
    assert k in s'.calls ==> Counted(s', k, d);
  }

  // A call that is alone returns.

  /** What is still to be done for the calls that have begun, and interrupts to be taken. */
  datatype Token =
    | ToRun(call: nat)
    | ToPost(call: nat, cpu: nat)
    | ToBroadcast(call: nat)
    | ToTake(alert: Alert)
    | ToServe(call: nat, cpu: nat)
    | ToFinish(call: nat, cpu: nat)
    | ToObserve(call: nat, cpu: nat)
    | ToReturn(call: nat)

  predicate Unposted(s: State, k: nat, d: nat) {
    k in s.calls && d < |s.slots|
      && (s.calls[k].phase.Local? || (s.calls[k].phase.Posting? && d in s.calls[k].phase.todo))
  }

  /** The CPU has not begun to serve the call. */
  predicate Unserved(s: State, k: nat, d: nat) {
    Unposted(s, k, d) || (Holds(s, k, d) && !s.slots[d].serving)
  }

  predicate Unobserved(s: State, k: nat, d: nat) {
    && k in s.calls && d < |s.slots| && !s.calls[k].phase.Done?
    && (s.calls[k].phase.Waiting? ==> d in s.calls[k].phase.todo)
  }

  predicate Unsent(s: State, k: nat) {
    k in s.calls && (s.calls[k].phase.Local? || s.calls[k].phase.Posting?)
  }

  ghost predicate Left(s: State, t: Token) {
    match t
    case ToRun(k) => k in s.calls && s.calls[k].phase.Local?
    case ToPost(k, d) => Unposted(s, k, d)
    case ToBroadcast(k) => Unsent(s, k)
    case ToTake(a) => a.cpu < |s.slots| && (a in s.alerts || (a.from.Some? && Unsent(s, a.from.value)))
    case ToServe(k, d) => k in s.calls && Unserved(s, k, d)
    case ToFinish(k, d) => k in s.calls && (Unserved(s, k, d) || Holds(s, k, d))
    case ToObserve(k, d) => Unobserved(s, k, d)
    case ToReturn(k) => Pending(s, k)
  }

  /** All tokens that there may be for calls, for calls and CPUs, and for interrupts. */
  ghost function CallTokens(calls: set<nat>): (all: set<Token>)
    ensures forall t: Token :: (t.ToRun? || t.ToBroadcast? || t.ToReturn?) && t.call in calls ==> t in all
  {
    (set k | k in calls :: ToRun(k)) + (set k | k in calls :: ToBroadcast(k)) + (set k | k in calls :: ToReturn(k))
  }

  ghost function CpuTokens(calls: set<nat>, ds: set<nat>): (all: set<Token>)
    ensures forall t: Token ::
              (t.ToPost? || t.ToServe? || t.ToFinish? || t.ToObserve?) && t.call in calls && t.cpu in ds ==> t in all
  {
    (set k, d | k in calls && d in ds :: ToPost(k, d)) + (set k, d | k in calls && d in ds :: ToServe(k, d))
    + (set k, d | k in calls && d in ds :: ToFinish(k, d)) + (set k, d | k in calls && d in ds :: ToObserve(k, d))
  }

  ghost function AlertTokens(calls: set<nat>, ds: set<nat>, alerts: set<Alert>): (all: set<Token>)
    ensures forall a: Alert :: a in alerts || (a.from.Some? && a.from.value in calls && a.cpu in ds) ==>
            ToTake(a) in all
  {
    (set a | a in alerts :: ToTake(a)) + (set k, d | k in calls && d in ds :: ToTake(Alert(Some(k), d)))
  }

  ghost function Work(s: State): (w: set<Token>) {
    var ks, ds := s.calls.Keys, AllBelow(|s.slots|);
    set t | t in CallTokens(ks) + CpuTokens(ks, ds) + AlertTokens(ks, ds, s.alerts) && Left(s, t)
  }

  lemma LeftIsWork(s: State, t: Token)
    requires Left(s, t)
    ensures t in Work(s)
  {
    if t.ToTake? {
      assert t.alert in s.alerts
             || (t.alert.from.Some? && t.alert.from.value in s.calls && t.alert.cpu in AllBelow(|s.slots|));
    }
  }

  /** The step carries on a call that has begun, or takes an interrupt. */
  predicate Carries(step: Step) {
    !step.Begin? && !step.Kick?
  }

  /** A token that the step uses up. */
  lemma Spent(s: State, step: Step) returns (t: Token)
    requires Inv(s) && Enabled(s, step) && Carries(step)
    ensures Left(s, t) && !Left(Apply(s, step), t)
  {
    match step
    case RunLocal(k) => t := ToRun(k);
    case Post(k, d) => t := ToPost(k, d);
    case Broadcast(k) => t := ToBroadcast(k);
    case Serve(d) =>
      t := ToServe(s.slots[d].call, d);
      assert SlotOk(s, d) && Counted(s, s.slots[d].call, d);
    case Ignore(d) => t := IgnoreSpends(s, d);
    case Finish(d) =>
      t := ToFinish(s.slots[d].call, d);
      assert SlotOk(s, d) && Counted(s, s.slots[d].call, d);
    case Observe(k, d) => t := ToObserve(k, d);
    case Return(k) => t := ToReturn(k);
  }

  lemma IgnoreSpends(s: State, d: nat) returns (t: Token)
    requires Inv(s) && Enabled(s, Ignore(d))
    ensures Left(s, t) && !Left(Apply(s, Ignore(d)), t)
  {
    var a :| a in s.alerts && a.cpu == d;
    t := ToTake(a);
  }

  lemma LeftBefore(s: State, step: Step, t: Token)
    requires Inv(s) && Enabled(s, step) && Carries(step) && Left(Apply(s, step), t)
    ensures Left(s, t)
  {
    if t.ToTake? {
      TakeBefore(s, step, t.alert);
    } else if t.ToServe? || t.ToFinish? {
      ServeBefore(s, step, t.call, t.cpu);
    }
  }

  lemma TakeBefore(s: State, step: Step, a: Alert)
    requires Inv(s) && Enabled(s, step) && Carries(step) && Left(Apply(s, step), ToTake(a))
    ensures Left(s, ToTake(a))
  {
    if step.Broadcast? {
      assert a in s.alerts || a.from == Some(step.call) || Unsent(s, a.from.value);
    }
  }

  lemma ServeBefore(s: State, step: Step, k: nat, d: nat)
    requires Enabled(s, step) && Carries(step)
    ensures Unserved(Apply(s, step), k, d) ==> Unserved(s, k, d)
    ensures Holds(Apply(s, step), k, d) ==> Unserved(s, k, d) || Holds(s, k, d)
  {
  }

  /** A step that carries on leaves less to be done. */
  lemma WorkShrinks(s: State, step: Step)
    requires Inv(s) && Enabled(s, step) && Carries(step)
    ensures Work(Apply(s, step)) < Work(s)
  {
    var s' := Apply(s, step);
    forall t | t in Work(s')
      ensures t in Work(s)
    {
      LeftBefore(s, step, t);
      LeftIsWork(s, t);
    }
    var t := Spent(s, step);
    LeftIsWork(s, t);
    assert t !in Work(s');
  }

  ghost predicate AllCarry(steps: seq<Step>) {
    forall i :: 0 <= i < |steps| ==> Carries(steps[i])
  }

  lemma {:induction false} RunsAreShort(s: State, steps: seq<Step>, s': State)
    requires Inv(s) && Reaches(s, steps, s') && AllCarry(steps)
    ensures Inv(s') && s'.calls.Keys == s.calls.Keys && |steps| + |Work(s')| <= |Work(s)|
    decreases |steps|
  {
    if steps != [] {
      var last := |steps| - 1;
      var m :| Reaches(s, steps[..last], m) && Enabled(m, steps[last]) && s' == Apply(m, steps[last]);
      RunsAreShort(s, steps[..last], m);
      StepIsShort(m, steps[last]);
    }
  }

  lemma StepIsShort(s: State, step: Step)
    requires Inv(s) && Enabled(s, step) && Carries(step)
    ensures var s' := Apply(s, step); Inv(s') && s'.calls.Keys == s.calls.Keys && |Work(s')| < |Work(s)|
  {
    StepKeeps(s, step);
    WorkShrinks(s, step);
    Fewer(Work(Apply(s, step)), Work(s));
  }

  lemma Fewer(a: set<Token>, b: set<Token>)
    requires a < b
    ensures |a| < |b|
  {
    var x :| x in b && x !in a;
    assert a <= b - {x};
    NoMore(a, b - {x});
  }

  lemma {:induction false} NoMore(a: set<Token>, b: set<Token>)
    requires a <= b
    ensures |a| <= |b|
  {
    if a != {} {
      var x :| x in a;
      NoMore(a - {x}, b - {x});
    }
  }

  /** No other call is under way. */
  ghost predicate Alone(s: State, k: nat) {
    forall j :: Pending(s, j) ==> j == k
  }

  lemma {:induction false} StaysAlone(s: State, steps: seq<Step>, s': State, k: nat)
    requires Alone(s, k) && Reaches(s, steps, s') && AllCarry(steps)
    ensures Alone(s', k)
    decreases |steps|
  {
    if steps != [] {
      var last := |steps| - 1;
      var m :| Reaches(s, steps[..last], m) && Enabled(m, steps[last]) && s' == Apply(m, steps[last]);
      StaysAlone(s, steps[..last], m, k);
      forall j | Pending(s', j)
        ensures Pending(m, j)
      {
      }
    }
  }

  /** A call that is alone can go on: every slot that it waits for is free, or will be served. */
  lemma AloneMoves(s: State, k: nat) returns (step: Step)
    requires Inv(s) && Pending(s, k) && Alone(s, k)
    ensures Enabled(s, step) && Carries(step)
  {
    assert CallOk(s, k);
    match s.calls[k].phase
    case Local => step := RunLocal(k);
    case Posting(todo) =>
      if todo == {} {
        step := Broadcast(k);
      } else {
        var d :| d in todo;
        OwnSlot(s, k, d);
        step := Post(k, d);
      }
    case Waiting(todo) =>
      if todo == {} {
        step := Return(k);
      } else {
        var d :| d in todo;
        OwnSlot(s, k, d);
        step := if s.slots[d].serving then Finish(d) else if s.slots[d].active then Serve(d) else Observe(k, d);
      }
  }

  lemma OwnSlot(s: State, k: nat, d: nat)
    requires Inv(s) && Pending(s, k) && Alone(s, k) && d < |s.slots|
    ensures Counted(s, k, d) && (s.slots[d].active ==> s.slots[d].call == k)
            && (s.slots[d].serving ==> s.slots[d].active)
    ensures d != s.calls[k].cpu ==> !Inside(s, d)
  {
    assert SlotOk(s, d) && Counted(s, k, d);
    if s.slots[d].active {
      var j := s.slots[d].call;
      assert Counted(s, j, d) && Holds(s, j, d);
      assert Pending(s, j);
    }
    forall j | Pending(s, j) && s.calls[j].cpu == d
      ensures j == k
    {
    }
  }

  /**
   A call that is alone returns: whatever order the CPUs take their steps in, there are no more of
   them than there is work left, and when none can take a step, the call has returned.
   */
  lemma AloneReturns(first: State, before: seq<Step>, s: State, steps: seq<Step>, s': State, k: nat)
    requires Init(first) && Reaches(first, before, s) && k in s.calls && Alone(s, k)
    requires Reaches(s, steps, s') && AllCarry(steps)
    ensures |steps| <= |Work(s)| && k in s'.calls
    ensures (forall step :: Enabled(s', step) ==> !Carries(step)) ==> s'.calls[k].phase.Done?
  {
    ReachesInv(first, before, s);
    RunsAreShort(s, steps, s');
    StaysAlone(s, steps, s', k);
    if !s'.calls[k].phase.Done? {
      var step := AloneMoves(s', k);
    }
  }

  // Two calls at once may wait for each other for ever.

  /** Each of two calls is still to be served by the CPU that the other one is made on. */
  ghost predicate Crossed(s: State, j: nat, k: nat) {
    && Pending(s, j) && Pending(s, k) && s.calls[j].cpu != s.calls[k].cpu
    && Unserved(s, j, s.calls[k].cpu) && Unserved(s, k, s.calls[j].cpu)
  }

  lemma CrossedStays(s: State, step: Step, j: nat, k: nat)
    requires Inv(s) && Enabled(s, step) && Crossed(s, j, k)
    ensures Crossed(Apply(s, step), j, k)
  {
    var c, d := s.calls[j].cpu, s.calls[k].cpu;
    assert CallOk(s, j) && CallOk(s, k) && Counted(s, j, d) && Counted(s, k, c);
    assert Inside(s, c) && Inside(s, d);
    assert SlotOk(s, c) && SlotOk(s, d);
  }

  /** Such calls never return, in any run. */
  lemma {:induction false} CrossedForever(s: State, steps: seq<Step>, s': State, j: nat, k: nat)
    requires Inv(s) && Crossed(s, j, k) && Reaches(s, steps, s')
    ensures Crossed(s', j, k)
    decreases |steps|
  {
    if steps != [] {
      var last := |steps| - 1;
      var m :| Reaches(s, steps[..last], m) && Enabled(m, steps[last]) && s' == Apply(m, steps[last]);
      CrossedForever(s, steps[..last], m, j, k);
      ReachesInv(s, steps[..last], m);
      CrossedStays(m, steps[last], j, k);
    }
  }

  /** Two CPUs, and on each of them a call begins before it has served the other's. */
  lemma BothBegin() returns (first: State, steps: seq<Step>, s: State)
    ensures Init(first) && Reaches(first, steps, s) && Crossed(s, 0, 1)
  {
    first := State(map[], [Slot(false, 0, false), Slot(false, 0, false)], {}, multiset{});
    var one := Apply(first, Begin(0, 0));
    assert one.calls == map[0 := Call(0, Local)];
    assert !Inside(one, 1);
    s := Apply(one, Begin(1, 1));
    assert s.calls == map[0 := Call(0, Local), 1 := Call(1, Local)];
    Play(first, [], first, Begin(0, 0));
    Play(first, [] + [Begin(0, 0)], one, Begin(1, 1));
    steps := [] + [Begin(0, 0)] + [Begin(1, 1)];
  }

  lemma Play(first: State, steps: seq<Step>, s: State, step: Step)
    requires Reaches(first, steps, s) && Enabled(s, step)
    ensures Reaches(first, steps + [step], Apply(s, step))
  {
    var all := steps + [step];
    assert all[..|all| - 1] == steps && all[|all| - 1] == step;
  }
}
