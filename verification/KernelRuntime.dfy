/** The kernel's async runtime: its queues behind a lock, the kernel thread that
    polls tasks and suspends itself when there is none, and the wakers. */
module KernelRuntime {

  datatype Thread = Running | Suspended | Queued

  /** Where the kernel thread stands in its loop. */
  datatype Pc =
    | Top                    // about to lock and pop
    | Popped(task: nat)      // about to clear the task's status
    | Polling(task: nat)     // inside the task's poll
    | Returned(task: nat)    // the poll was pending, about to lock and put the task back
    | Yielding               // found no task; switches away with the lock still held
    | Switched               // marked suspended; the yield hook is still to drop the lock
    | Away                   // off the processor

  /** `status` has one flag for each task ever spawned.  `owed` counts callers
      that have queued a task and not yet called `wake_kernel_thread`.  `woken` are the
      tasks woken since their last poll began. */
  datatype State = State(
    ready: seq<nat>, suspend: set<nat>, done: set<nat>, status: seq<bool>, locked: bool,
    pc: Pc, thread: Thread, owed: nat, woken: set<nat>)

  const INIT := State([], {}, {}, [], false, Top, Running, 0, {})

  datatype Action =
    | Pop | Clear | Finish | Pend | Park | Suspend | Hook | Resume | Preempt   // the kernel thread and its scheduler
    | Wake(task: nat) | Spawn | WakeKernel                                       // everyone else

  predicate Enabled(s: State, a: Action) {
    match a
    case Pop => s.pc.Top? && s.thread.Running? && !s.locked
    case Clear => s.pc.Popped? && s.thread.Running? && s.pc.task < |s.status|
    case Finish => s.pc.Polling? && s.thread.Running?
    case Pend => s.pc.Polling? && s.thread.Running?
    case Park => s.pc.Returned? && s.thread.Running? && !s.locked && s.pc.task < |s.status|
    case Suspend => s.pc.Yielding? && s.thread.Running?
    case Hook => s.pc.Switched?
    case Resume => s.thread.Queued? && !s.pc.Switched?
    case Preempt => s.thread.Running? && !s.pc.Yielding?
    case Wake(t) => t < |s.status| && !s.locked
    case Spawn => !s.locked
    case WakeKernel => s.owed > 0
  }

  function Apply(s: State, a: Action): State
    requires Enabled(s, a)
  {
    match a
    case Pop =>
      if s.ready != [] then s.(ready := s.ready[1..], pc := Popped(s.ready[0]))
      else s.(locked := true, pc := Yielding)
    case Clear => s.(status := s.status[s.pc.task := false], pc := Polling(s.pc.task), woken := s.woken - {s.pc.task})
    case Finish => s.(done := s.done + {s.pc.task}, pc := Top)
    case Pend => s.(pc := Returned(s.pc.task))
    case Park =>
      if s.status[s.pc.task] then s.(ready := s.ready + [s.pc.task], pc := Top)
      else s.(suspend := s.suspend + {s.pc.task}, pc := Top)
    case Suspend => s.(thread := Suspended, pc := Switched)
    case Hook => s.(locked := false, pc := Away)
    case Resume => s.(thread := Running, pc := if s.pc.Away? then Top else s.pc)
    case Preempt => s.(thread := Queued)
    case Wake(t) =>
      var s' := s.(status := s.status[t := true], woken := s.woken + {t});
      if t in s.suspend then s'.(suspend := s.suspend - {t}, ready := s.ready + [t], owed := s.owed + 1) else s'
    case Spawn => s.(ready := s.ready + [|s.status|], status := s.status + [true], owed := s.owed + 1)
    case WakeKernel => s.(owed := s.owed - 1, thread := if s.thread.Suspended? then Queued else s.thread)
  }

  ghost predicate Runs(s: State, actions: seq<Action>, s': State)
    decreases |actions|
  {
    if actions == [] then s' == s
    else Enabled(s, actions[0]) && Runs(Apply(s, actions[0]), actions[1..], s')
  }

  // ---------- invariants ----------

  /** The task in the kernel thread's hands. */
  function Current(s: State): set<nat> {
    match s.pc
    case Popped(t) => {t}
    case Polling(t) => {t}
    case Returned(t) => {t}
    case _ => {}
  }

  function One(b: bool): nat {
    if b then 1 else 0
  }

  /** Every task is in exactly one place. */
  ghost predicate Placed(s: State) {
    && (forall t :: 0 <= t < |s.status| ==>
      One(t in s.ready) + One(t in s.suspend) + One(t in Current(s)) + One(t in s.done) == 1)
    && (forall t :: t in s.ready || t in s.suspend || t in Current(s) || t in s.done ==> t < |s.status|)
    && Distinct(s.ready)
  }

  /** A task woken since its last poll began will be polled again. */
  ghost predicate Heard(s: State) {
    && (forall t :: t in s.woken ==> t !in s.suspend)
    && (s.pc.Polling? || s.pc.Returned? ==> s.pc.task < |s.status| && (s.status[s.pc.task] <==> s.pc.task in s.woken))
  }

  /** A kernel thread that sleeps while tasks are ready is about to be woken. */
  ghost predicate Roused(s: State) {
    && (s.thread.Suspended? ==> s.pc.Switched? || s.pc.Away?)
    && (s.pc.Yielding? || s.pc.Switched? ==> s.locked && s.ready == [])
    && (s.pc.Yielding? ==> s.thread.Running?) && (s.pc.Switched? || s.pc.Away? ==> !s.thread.Running?)
    && (s.locked ==> s.pc.Yielding? || s.pc.Switched?)
    && (s.thread.Suspended? && s.ready != [] ==> s.owed > 0)
  }

  ghost predicate Inv(s: State) {
    Placed(s) && Heard(s) && Roused(s)
  }

  ghost predicate Distinct(q: seq<nat>) {
    forall i, j :: 0 <= i < j < |q| ==> q[i] != q[j]
  }

  lemma PopFront(q: seq<nat>)
    requires q != [] && Distinct(q)
    ensures Distinct(q[1..]) && forall t :: t in q[1..] <==> t in q && t != q[0]
  {
    forall t | t in q && t != q[0]
      ensures t in q[1..]
    {
      var i :| 0 <= i < |q| && q[i] == t;
      assert q[1..][i - 1] == t;
    }
  }

  lemma PushBack(q: seq<nat>, x: nat)
    requires Distinct(q) && x !in q
    ensures Distinct(q + [x]) && forall t :: t in q + [x] <==> t in q || t == x
  {
  }

  lemma PlacedStep(s: State, a: Action)
    requires Placed(s) && Enabled(s, a)
    ensures Placed(Apply(s, a))
  {
    hide Distinct;
    match a
    case Pop => PlacedPop(s);
    case Park => PlacedPark(s);
    case Wake(t) => PlacedWake(s, t);
    case Spawn => PushBack(s.ready, |s.status|);
    case _ =>
  }

  lemma PlacedPop(s: State)
    requires Placed(s) && Enabled(s, Pop)
    ensures Placed(Apply(s, Pop))
  {
    hide Distinct;
    if s.ready != [] {
      PopFront(s.ready);
    }
  }

  lemma PlacedPark(s: State)
    requires Placed(s) && Enabled(s, Park)
    ensures Placed(Apply(s, Park))
  {
    hide Distinct;
    assert s.pc.task in Current(s) && s.pc.task !in s.ready && s.pc.task !in s.suspend && s.pc.task !in s.done;
    PushBack(s.ready, s.pc.task);
  }

  lemma PlacedWake(s: State, t: nat)
    requires Placed(s) && Enabled(s, Wake(t))
    ensures Placed(Apply(s, Wake(t)))
  {
    hide Distinct;
    if t in s.suspend {
      assert t !in s.ready && t !in Current(s) && t !in s.done;
      PushBack(s.ready, t);
    }
  }

  lemma HeardStep(s: State, a: Action)
    requires Placed(s) && Heard(s) && Enabled(s, a)
    ensures Heard(Apply(s, a))
  {
  }

  lemma RousedStep(s: State, a: Action)
    requires Roused(s) && Enabled(s, a)
    ensures Roused(Apply(s, a))
  {
  }

  lemma InvStep(s: State, a: Action)
    requires Inv(s) && Enabled(s, a)
    ensures Inv(Apply(s, a))
  {
    hide Apply, Enabled;
    PlacedStep(s, a);
    HeardStep(s, a);
    RousedStep(s, a);
  }

  lemma {:induction false} RunInv(s: State, actions: seq<Action>, s': State)
    requires Inv(s) && Runs(s, actions, s')
    ensures Inv(s')
    decreases |actions|
  {
    hide Inv, Apply, Enabled;
    if actions != [] {
      InvStep(s, actions[0]);
      RunInv(Apply(s, actions[0]), actions[1..], s');
    }
  }

  ghost predicate Reachable(s: State) {
    exists first, actions :: first == INIT && Runs(first, actions, s)
  }

  lemma ReachedInv(s: State)
    requires Reachable(s)
    ensures Inv(s)
  {
    var first, actions :| first == INIT && Runs(first, actions, s);
    hide Runs;
    RunInv(first, actions, s);
  }

  // ---------- what every run guarantees ----------

  /** Every unfinished task is ready, suspended or in the kernel thread's hands,
      and only one of them. */
  lemma OnePlace(s: State, t: nat)
    requires Reachable(s) && t < |s.status| && t !in s.done
    ensures One(t in s.ready) + One(t in s.suspend) + One(t in Current(s)) == 1
  {
    ReachedInv(s);
  }

  /** A wake after a poll began is not lost: when the poll has returned, the task
      goes back to the ready queue. */
  lemma WakeForcesPoll(s: State, t: nat)
    requires Reachable(s) && t in s.woken && t < |s.status| && t !in s.done
    ensures t in s.ready || s.pc == Popped(t) || s.pc == Polling(t) || s.pc == Returned(t)
    ensures s.pc == Returned(t) && s.thread.Running? ==> Enabled(s, Park) && t in Apply(s, Park).ready
  {
    ReachedInv(s);
    assert s.pc == Returned(t) && s.thread.Running? ==> Enabled(s, Park) && Apply(s, Park).ready == s.ready + [t];
  }

  /** With tasks ready, the kernel thread is running, queued to run, or about to
      be woken by a caller that has not finished. */
  lemma NoLostWakeup(s: State)
    requires Reachable(s) && s.ready != []
    ensures s.thread.Running? || s.thread.Queued? || Enabled(s, WakeKernel)
    ensures s.thread.Suspended? ==> Apply(s, WakeKernel).thread.Queued?
  {
    ReachedInv(s);
  }

  /** Nobody waits for the lock for ever: its only lasting holder is the kernel
      thread on its way out, and that thread always gets on. */
  lemma LockIsReturned(s: State)
    requires Reachable(s) && s.locked
    ensures (Enabled(s, Suspend) && Enabled(Apply(s, Suspend), Hook)) || Enabled(s, Hook)
  {
    ReachedInv(s);
  }

  /** A task that nobody woke during its poll is put to sleep, not polled again. */
  lemma UnwokenSleeps(s: State, t: nat)
    requires Reachable(s) && s.pc == Returned(t) && t !in s.woken && s.thread.Running?
    ensures Enabled(s, Park) && Apply(s, Park) == s.(suspend := s.suspend + {t}, pc := Top)
  {
    ReachedInv(s);
  }

  // ---------- what the kernel thread does if left to itself ----------

  /** Task `t` is on its way to a poll. */
  ghost predicate Due(s: State, t: nat) {
    && t < |s.status|
    && (t in s.ready || s.pc == Popped(t) || ((s.pc == Polling(t) || s.pc == Returned(t)) && t in s.woken))
  }

  ghost function IndexOf(q: seq<nat>, t: nat): (i: nat)
    requires t in q
    ensures i < |q| && q[i] == t
  {
    if q[0] == t then 0 else 1 + IndexOf(q[1..], t)
  }

  /** How often the kernel thread still pops before it has `t`. */
  ghost function PopsAway(s: State, t: nat): nat
    requires Due(s, t)
  {
    if t in s.ready then 1 + IndexOf(s.ready, t) else if s.pc == Popped(t) then 0 else 1 + |s.ready|
  }

  /** How many steps it is from popping again. */
  function StepsAway(s: State): nat {
    (match s.pc
     case Popped(_) => 3
     case Polling(_) => 2
     case Returned(_) => 1
     case _ => 0)
    + (if s.thread.Running? then 0 else if s.thread.Queued? then 1 else 2)
  }

  function Onward(s: State): Action {
    match s.thread
    case Suspended => WakeKernel
    case Queued => Resume
    case Running =>
      match s.pc
      case Popped(_) => Clear
      case Polling(_) => Pend
      case Returned(_) => Park
      case _ => Pop
  }

  /** Steps of the kernel thread and of callers that have queued a task, each poll
      but the last taken to be pending. */
  predicate GoesOn(a: Action) {
    a.Pop? || a.Clear? || a.Pend? || a.Park? || a.Resume? || a.WakeKernel?
  }

  lemma PopIndex(q: seq<nat>, t: nat)
    requires t in q && q[0] != t
    ensures t in q[1..] && IndexOf(q[1..], t) == IndexOf(q, t) - 1
  {
  }

  lemma {:induction false} PushIndex(q: seq<nat>, u: nat, t: nat)
    ensures t in q ==> t in q + [u] && IndexOf(q + [u], t) == IndexOf(q, t)
    ensures t !in q && t == u ==> t in q + [u] && IndexOf(q + [u], t) == |q|
  {
    if q != [] {
      assert (q + [u])[1..] == q[1..] + [u];
      PushIndex(q[1..], u, t);
    } else {
      assert q + [u] == [u];
    }
    if t == u {
      assert (q + [u])[|q|] == t;
    }
  }

  lemma OnwardEnabled(s: State, t: nat)
    requires Inv(s) && Due(s, t)
    ensures Enabled(s, Onward(s)) && GoesOn(Onward(s))
  {
    assert s.ready != [] || s.pc.Popped? || s.pc.Polling? || s.pc.Returned?;
  }

  lemma StaysDue(s: State, t: nat)
    requires Inv(s) && Due(s, t) && Enabled(s, Onward(s)) && !(s.pc == Popped(t) && s.thread.Running?)
    ensures var s' := Apply(s, Onward(s));
      && Due(s', t)
      && (PopsAway(s', t) < PopsAway(s, t) || (PopsAway(s', t) == PopsAway(s, t) && StepsAway(s') < StepsAway(s)))
  {
    match Onward(s)
    case Pop =>
      if s.ready[0] != t {
        PopIndex(s.ready, t);
      }
    case Park => PushIndex(s.ready, s.pc.task, t);
    case _ =>
  }

  lemma {:induction false} ComesToPoll(s: State, t: nat) returns (actions: seq<Action>, s': State)
    requires Inv(s) && Due(s, t)
    ensures Runs(s, actions, s') && actions != [] && actions[|actions| - 1] == Clear
    ensures forall i :: 0 <= i < |actions| ==> GoesOn(actions[i])
    ensures s'.pc == Polling(t) && s'.thread.Running? && t !in s'.woken
    decreases PopsAway(s, t), StepsAway(s)
  {
    var a := Onward(s);
    OnwardEnabled(s, t);
    var u := Apply(s, a);
    if s.pc == Popped(t) && s.thread.Running? {
      actions, s' := [a], u;
      assert actions[1..] == [];
    } else {
      StaysDue(s, t);
      hide Inv, Due, Enabled, Apply, GoesOn, PopsAway, StepsAway;
      InvStep(s, a);
      var rest;
      rest, s' := ComesToPoll(u, t);
      actions := [a] + rest;
      assert actions[1..] == rest;
    }
  }

  /** Waking an unfinished task leads to a new poll of it, by steps of the kernel
      thread and of callers under way alone, however many tasks are before it. */
  lemma WakeLeadsToPoll(s: State, t: nat) returns (actions: seq<Action>, s': State)
    requires Reachable(s) && t < |s.status| && t !in s.done && !s.locked
    ensures Enabled(s, Wake(t))
    ensures Runs(Apply(s, Wake(t)), actions, s') && actions != [] && actions[|actions| - 1] == Clear
    ensures forall i :: 0 <= i < |actions| ==> GoesOn(actions[i])
    ensures s'.pc == Polling(t) && s'.thread.Running?
  {
    ReachedInv(s);
    InvStep(s, Wake(t));
    WokenIsDue(s, t);
    hide Runs, Inv, Due, Apply, Enabled;
    actions, s' := ComesToPoll(Apply(s, Wake(t)), t);
  }

  lemma WokenIsDue(s: State, t: nat)
    requires Inv(s) && Enabled(s, Wake(t)) && t !in s.done
    ensures Due(Apply(s, Wake(t)), t)
  {
    PushIndex(s.ready, t, t);
  }

  /** So does spawning a task. */
  lemma SpawnLeadsToPoll(s: State) returns (actions: seq<Action>, s': State)
    requires Reachable(s) && !s.locked
    ensures Enabled(s, Spawn)
    ensures Runs(Apply(s, Spawn), actions, s') && forall i :: 0 <= i < |actions| ==> GoesOn(actions[i])
    ensures s'.pc == Polling(|s.status|) && s'.thread.Running?
  {
    ReachedInv(s);
    InvStep(s, Spawn);
    PushIndex(s.ready, |s.status|, |s.status|);
    hide Runs, Inv;
    actions, s' := ComesToPoll(Apply(s, Spawn), |s.status|);
  }

  /** With nothing to do the kernel thread goes to sleep and leaves the lock behind. */
  lemma IdleSleeps(s: State)
    requires Reachable(s) && s.pc.Top? && s.thread.Running? && s.ready == []
    ensures Runs(s, [Pop, Suspend, Hook], s.(pc := Away, thread := Suspended))
  {
    hide Runs;
    ReachedInv(s);
    var s1 := Apply(s, Pop);
    var s2 := Apply(s1, Suspend);
    var s3 := Apply(s2, Hook);
    assert s3 == s.(pc := Away, thread := Suspended);
    assert [Pop] + [Suspend, Hook] == [Pop, Suspend, Hook];
    assert [Suspend] + [Hook] == [Suspend, Hook] && [Hook] + [] == [Hook];
    Stay(s3);
    First(s2, Hook, [], s3);
    First(s1, Suspend, [Hook], s3);
    First(s, Pop, [Suspend, Hook], s3);
  }

  lemma Stay(s: State)
    ensures Runs(s, [], s)
  {
  }

  lemma First(s: State, a: Action, rest: seq<Action>, s': State)
    requires Enabled(s, a) && Runs(Apply(s, a), rest, s')
    ensures Runs(s, [a] + rest, s')
  {
    hide Enabled, Apply;
    assert ([a] + rest)[1..] == rest;
  }

  /** A kernel thread that sleeps does so until a call of `wake_kernel_thread`. */
  lemma SleepsUntilWoken(s: State, a: Action)
    requires Reachable(s) && s.thread.Suspended? && Enabled(s, a)
    ensures a.Wake? || a.Spawn? || a.WakeKernel? || (a.Hook? && s.locked)
    ensures Apply(s, a).thread.Suspended? <==> !a.WakeKernel?
  {
    ReachedInv(s);
  }

  /** A kernel thread that is taken off the processor takes no step until it is put
      back, and then it stands where it stood. */
  lemma PreemptPauses(s: State, a: Action)
    requires Reachable(s) && s.thread.Running? && !s.pc.Yielding?
    ensures Enabled(s, Preempt) && Enabled(Apply(s, Preempt), Resume) && Apply(Apply(s, Preempt), Resume) == s
    ensures Enabled(Apply(s, Preempt), a) ==> a.Resume? || a.Wake? || a.Spawn? || a.WakeKernel?
  {
    ReachedInv(s);
    var t := Apply(s, Preempt);
    assert t.thread == Queued && t.pc == s.pc && !t.pc.Switched?;
    assert a.Hook? || a.Resume? || a.Wake? || a.Spawn? || a.WakeKernel? || !Enabled(t, a);
  }

  /** A task that has finished is never touched again. */
  lemma {:induction false} FinishedForGood(s: State, t: nat, actions: seq<Action>, s': State)
    requires Inv(s) && t in s.done && Runs(s, actions, s')
    ensures t in s'.done && t !in s'.ready && t !in s'.suspend && t !in Current(s')
    decreases |actions|
  {
    if actions != [] {
      InvStep(s, actions[0]);
      FinishedForGood(Apply(s, actions[0]), t, actions[1..], s');
    }
  }

  /** The future that is being polled may finish, and then its task is never queued or
      polled again. */
  lemma FinishIsFinal(s: State, t: nat, actions: seq<Action>, s': State)
    requires Reachable(s) && s.pc == Polling(t) && s.thread.Running?
    ensures Enabled(s, Finish)
    ensures Runs(Apply(s, Finish), actions, s') ==> t !in s'.ready && t !in s'.suspend && t !in Current(s')
  {
    ReachedInv(s);
    InvStep(s, Finish);
    hide Runs, Inv;
    if Runs(Apply(s, Finish), actions, s') {
      FinishedForGood(Apply(s, Finish), t, actions, s');
    }
  }

  /** What a step adds to the calls of `wake_kernel_thread` that are still to come. */
  function Owes(s: State, a: Action): int {
    match a
    case Spawn => 1
    case Wake(t) => if t in s.suspend then 1 else 0
    case WakeKernel => -1
    case _ => 0
  }

  ghost function OwedOver(s: State, actions: seq<Action>): int
    decreases |actions|
  {
    if actions == [] || !Enabled(s, actions[0]) then 0
    else Owes(s, actions[0]) + OwedOver(Apply(s, actions[0]), actions[1..])
  }

  function Spawned(actions: seq<Action>): nat {
    if actions == [] then 0 else Spawned(actions[1..]) + if actions[0].Spawn? then 1 else 0
  }

  /** Over every run: one task for each spawn, and one call of `wake_kernel_thread`
      for each task that was queued from outside. */
  lemma {:induction false} History(s: State, actions: seq<Action>, s': State)
    requires Runs(s, actions, s')
    ensures |s'.status| == |s.status| + Spawned(actions) && s'.owed == s.owed + OwedOver(s, actions)
    decreases |actions|
  {
    if actions != [] {
      History(Apply(s, actions[0]), actions[1..], s');
    }
  }
}
