/** The semaphore's two loops as the code runs them, with the steps of other
    callers coming in wherever the code lets them: each call is a run of the
    step machine, whatever the others do. */
module SemaphoreCalls {
  import opened Semaphore
  import opened Sums

  /** Steps that other callers can take while one holds the queue's lock. */
  predicate Foreign(a: Action) {
    !a.Begin? && !a.Enqueue? && !OfHolder(a)
  }

  predicate AllForeign(env: seq<Action>) {
    forall i :: 0 <= i < |env| ==> Foreign(env[i])
  }

  /** Those of the steps `env` that can be taken when their turn comes. */
  ghost function Feasible(s: State, env: seq<Action>): seq<Action>
    decreases |env|
  {
    if env == [] then []
    else if Enabled(s, env[0]) then [env[0]] + Feasible(Apply(s, env[0]), env[1..])
    else Feasible(s, env[1..])
  }

  class FairSemaphore {
    var permits: nat
    var bank: nat
    var queue: seq<nat>
    var wakers: seq<Waker>
    var lock: Lock
    var guards: seq<nat>
    var owed: seq<nat>
    var total: nat
    ghost var order: seq<nat>

    ghost function View(): State
      reads this
    {
      State(permits, bank, queue, wakers, guards, owed, lock, total, order)
    }

    ghost predicate Valid()
      reads this
    {
      Inv(View())
    }

    constructor (n: nat)
      requires n <= USIZE_MAX
      ensures View() == Init(n) && Valid()
    {
      permits, bank, queue, wakers, lock := n, 0, [], [], Idle;
      guards, owed, total, order := [], [], n, [];
      new;
      InitInv(n);
    }

    /** One step of another caller, which leaves the lock and what it protects alone. */
    method Other(a: Action) returns (ghost run: seq<Action>)
      requires Valid() && Foreign(a)
      modifies this`permits, this`wakers, this`guards, this`owed, this`total
      ensures Valid() && Runs(old(View()), run, View()) && |wakers| == |old(wakers)|
      ensures run == if Enabled(old(View()), a) then [a] else []
    {
      hide Inv, Runs;
      run := [];
      ghost var s := View();
      match a {
        case TryAcquire(n, seen) =>
          if seen == permits && n <= seen {
            permits, guards, run := seen - n, guards + [n], [a];
          }
        case Claim(t) =>
          if t < |wakers| && wakers[t].status == Acquired && !wakers[t].claimed {
            guards, wakers, run := guards + [wakers[t].permits], wakers[t := wakers[t].(claimed := true)], [a];
          }
        case Cancel(t) =>
          if t < |wakers| && wakers[t].status != GiveUp {
            owed, wakers, run := owed + [Unclaimed(wakers[t])], wakers[t := wakers[t].(status := GiveUp)], [a];
          }
        case DropGuard(g) =>
          if g < |guards| {
            owed, guards, run := owed + [guards[g]], Without(guards, g), [a];
          }
        case ReleasePart(g, n) =>
          if g < |guards| && n <= guards[g] {
            owed, guards, run := owed + [n], guards[g := guards[g] - n], [a];
          }
        case Forget(g) =>
          if g < |guards| && guards[g] <= total {
            total, guards, run := total - guards[g], Without(guards, g), [a];
          }
        case Explicit(n) =>
          if total + n <= USIZE_MAX {
            total, owed, run := total + n, owed + [n], [a];
          }
      }
      One(s, run, View(), a);
    }

    /** One step of another caller that takes or holds the lock. */
    method OtherLocked(a: Action) returns (ghost run: seq<Action>)
      requires Valid() && !Foreign(a)
      modifies this`permits, this`bank, this`queue, this`wakers, this`lock, this`owed, this`order
      ensures Valid() && Runs(old(View()), run, View())
      ensures run == if Enabled(old(View()), a) then [a] else []
    {
      hide Inv, Runs;
      run := [];
      ghost var s := View();
      match a {
        case Enqueue(n) =>
          if n < USIZE && lock == Idle {
            bank, permits, queue := Add(bank, permits), 0, queue + [|wakers|];
            wakers, owed, run := wakers + [Waker(n, Waiting, false, false)], owed + [0], [a];
          }
        case Begin(k) =>
          if lock == Idle && k < |owed| {
            bank, owed, lock, run := Add(bank, owed[k]), Without(owed, k), Releasing, [a];
          }
        case Inspect =>
          if lock == Releasing && queue != [] && queue[0] < |wakers| {
            run := [a];
            if wakers[queue[0]].status == GiveUp {
              queue := queue[1..];
            } else if bank < wakers[queue[0]].permits {
              lock := Idle;
            } else {
              queue, lock := queue[1..], Granting(queue[0]);
            }
          }
        case Grant =>
          if lock.Granting? && lock.ticket < |wakers| {
            run := [a];
            var t := lock.ticket;
            if wakers[t].status == Waiting {
              wakers, bank := wakers[t := wakers[t].(status := Acquired)], Sub(bank, wakers[t].permits);
              lock, order := Waking(t), order + [t];
            } else {
              queue, lock := [t] + queue, Idle;
            }
          }
        case WakeTask =>
          if lock.Waking? && lock.ticket < |wakers| {
            wakers, lock, run := wakers[lock.ticket := wakers[lock.ticket].(woken := true)], Releasing, [a];
          }
        case Finish =>
          if lock == Releasing && queue == [] {
            permits, bank, lock, run := Add(permits, bank), 0, Idle, [a];
          }
      }
      One(s, run, View(), a);
    }

    /** Steps of other callers while one holds the lock. */
    method Others(env: seq<Action>) returns (ghost run: seq<Action>)
      requires Valid() && AllForeign(env)
      modifies this`permits, this`wakers, this`guards, this`owed, this`total
      ensures Valid() && Runs(old(View()), run, View()) && |wakers| == |old(wakers)| && AllForeign(run)
      ensures run == Feasible(old(View()), env)
    {
      hide Inv, Apply, Enabled;
      run := [];
      assert env[0..] == env;
      for i := 0 to |env|
        invariant Valid() && Runs(old(View()), run, View()) && |wakers| == |old(wakers)| && AllForeign(run)
        invariant run + Feasible(View(), env[i..]) == Feasible(old(View()), env)
      {
        ghost var s, more := View(), [];
        more := Other(env[i]);
        RunsConcat(old(View()), run, s, more, View());
        NextFeasible(s, env[i..], more, View());
        assert env[i..][1..] == env[i + 1..];
        run := run + more;
      }
    }

    /** Steps of other callers, any of whom may hold the lock. */
    method Everyone(env: seq<Action>) returns (ghost run: seq<Action>)
      requires Valid()
      modifies this
      ensures Valid() && Runs(old(View()), run, View()) && run == Feasible(old(View()), env)
    {
      hide Inv, Apply, Enabled;
      run := [];
      assert env[0..] == env;
      for i := 0 to |env|
        invariant Valid() && Runs(old(View()), run, View())
        invariant run + Feasible(View(), env[i..]) == Feasible(old(View()), env)
      {
        ghost var s, more := View(), [];
        if Foreign(env[i]) {
          more := Other(env[i]);
        } else {
          more := OtherLocked(env[i]);
        }
        RunsConcat(old(View()), run, s, more, View());
        NextFeasible(s, env[i..], more, View());
        assert env[i..][1..] == env[i + 1..];
        run := run + more;
      }
    }

    /** Take `n` permits if there are as many: load, then compare-exchange, again
        and again until nobody has come in between. */
    method TryAcquire(n: nat, env: seq<seq<Action>>) returns (ok: bool, ghost run: seq<Action>)
      requires Valid()
      modifies this
      ensures Valid() && Runs(old(View()), run, View())
      ensures ok ==>
        run != [] && run[|run| - 1].TryAcquire? && run[|run| - 1].n == n && guards != [] && guards[|guards| - 1] == n
      ensures !ok ==> permits < n
    {
      hide Inv, Runs;
      Nothing(View());
      run := [];
      var round := 0;
      while true
        invariant 0 <= round <= |env| && Valid() && Runs(old(View()), run, View())
        decreases |env| - round
      {
        var seen := permits;
        if seen < n {
          return false, run;
        }
        ghost var s, more := View(), [];
        if round < |env| {
          more := Everyone(env[round]);
        } else {
          Nothing(s);
        }
        RunsConcat(old(View()), run, s, more, View());
        run := run + more;
        if permits == seen {
          s := View();
          permits, guards := seen - n, guards + [n];
          Step(old(View()), run, s, Action.TryAcquire(n, seen), View());
          return true, run + [Action.TryAcquire(n, seen)];
        }
        round := round + 1;
      }
    }

    method Bank(k: nat)
      requires lock == Idle && k < |owed|
      modifies this`bank, this`owed, this`lock
      ensures Enabled(old(View()), Begin(k)) && View() == Apply(old(View()), Begin(k)) && lock == Releasing
    {
      bank, owed, lock := Add(bank, owed[k]), Without(owed, k), Releasing;
    }

    method Unbank()
      requires lock == Releasing && queue == []
      modifies this`permits, this`bank, this`lock
      ensures Enabled(old(View()), Finish) && View() == Apply(old(View()), Finish) && lock == Idle
    {
      permits, bank, lock := Add(permits, bank), 0, Idle;
    }

    /** Grant to the popped waiter by compare-exchange; when it has given up
        meanwhile, put it back and let go of the lock. */
    method TryGrant(waker: nat) returns (granted: bool)
      requires lock == Granting(waker) && waker < |wakers|
      modifies this`wakers, this`bank, this`queue, this`lock, this`order
      ensures Enabled(old(View()), Grant) && View() == Apply(old(View()), Grant)
      ensures if granted then lock == Waking(waker) && queue == old(queue) else lock == Idle
      ensures |wakers| == |old(wakers)|
    {
      if wakers[waker].status == Waiting {
        wakers, bank, lock := wakers[waker := wakers[waker].(status := Acquired)], Sub(bank, wakers[waker].permits),
          Waking(waker);
        order := order + [waker];
        return true;
      }
      queue, lock := [waker] + queue, Idle;
      return false;
    }

    method Wake(waker: nat)
      requires lock == Waking(waker) && waker < |wakers|
      modifies this`wakers, this`lock
      ensures Enabled(old(View()), WakeTask) && View() == Apply(old(View()), WakeTask) && lock == Releasing
    {
      wakers, lock := wakers[waker := wakers[waker].(woken := true)], Releasing;
    }

    /** Pop the waiter at the head of the queue: a cancelled one is dropped, one
        who needs more than is banked goes back and the lock is let go. */
    method PopHead() returns (waker: nat, next: Lock)
      requires lock == Releasing && queue != [] && queue[0] < |wakers|
      modifies this`queue, this`lock
      ensures Enabled(old(View()), Inspect) && View() == Apply(old(View()), Inspect)
      ensures waker == old(queue[0]) && lock == next && (next == Granting(waker) || next == Releasing || next == Idle)
      ensures next != Idle ==> queue == old(queue)[1..]
    {
      waker, queue := queue[0], queue[1..];
      if wakers[waker].status == GiveUp {
        return waker, Releasing;
      }
      if bank < wakers[waker].permits {
        queue, lock := [waker] + queue, Idle;
        return waker, Idle;
      }
      lock := Granting(waker);
      return waker, lock;
    }

    /** The release call `owed[k]`: bank its permits, then serve the queue from the
        front for as long as they last.  Others step in while the call holds the
        lock: at the start of round `i` those of `env(3 * i)`, those of `env(3 * i + 1)`
        between finding a waiter and granting to it, and those of `env(3 * i + 2)`
        before its task is woken. */
    method Release(k: nat, env: nat -> seq<Action>) returns (ghost run: seq<Action>)
      requires Valid() && lock == Idle && k < |owed| && forall i :: AllForeign(env(i))
      modifies this
      ensures Valid() && lock == Idle && ReleaseRun(old(View()), k, run, View())
      ensures queue == [] ==> bank == 0
      ensures queue != [] && owed == [] ==>
        queue[0] < |wakers| && wakers[queue[0]].status == Waiting && bank < wakers[queue[0]].permits
    {
      hide Inv, ReleaseRun, Apply, Enabled, Runs;
      ghost var before, s := View(), View();
      Bank(k);
      Started(before, k, View());
      run := [Begin(k)];
      var round := 0;
      while queue != []
        invariant lock == Releasing && Valid() && ReleaseRun(before, k, run, View())
        decreases |queue|
      {
        s := View();
        ghost var more := Others(env(3 * round));
        Interrupted(before, k, run, s, more, View());
        run, s := run + more, View();
        HeadExists(s);
        var waker, next := PopHead();
        Advanced(before, k, run, s, Inspect, View());
        run, s := run + [Inspect], View();
        if next == Releasing {
          round := round + 1;
          continue;
        }
        if next == Idle {
          Settled(s);
          return;
        }
        more := Others(env(3 * round + 1));
        Interrupted(before, k, run, s, more, View());
        run, s := run + more, View();
        var granted := TryGrant(waker);
        Advanced(before, k, run, s, Grant, View());
        run, s := run + [Grant], View();
        if !granted {
          Settled(View());
          return;
        }
        more := Others(env(3 * round + 2));
        Interrupted(before, k, run, s, more, View());
        run, s := run + more, View();
        Wake(waker);
        Advanced(before, k, run, s, WakeTask, View());
        run := run + [WakeTask];
        round := round + 1;
      }
      s := View();
      Unbank();
      Advanced(before, k, run, s, Finish, View());
      run := run + [Finish];
      Settled(View());
    }
  }

  /** A run that starts with the release call taking the lock, and goes on with
      steps of that call and of callers without the lock. */
  ghost predicate ReleaseRun(s: State, k: nat, run: seq<Action>, s': State) {
    && Runs(s, run, s') && run != [] && run[0] == Begin(k)
    && (forall i :: 1 <= i < |run| ==> Foreign(run[i]) || OfHolder(run[i]))
  }

  lemma Started(s: State, k: nat, s': State)
    requires Inv(s) && Enabled(s, Begin(k)) && s' == Apply(s, Begin(k))
    ensures Inv(s') && ReleaseRun(s, k, [Begin(k)], s')
  {
    One(s, [Begin(k)], s', Begin(k));
  }

  lemma Advanced(s: State, k: nat, run: seq<Action>, s': State, a: Action, s'': State)
    requires ReleaseRun(s, k, run, s') && Inv(s') && OfHolder(a) && Enabled(s', a) && s'' == Apply(s', a)
    ensures Inv(s'') && ReleaseRun(s, k, run + [a], s'')
  {
    hide Inv, Enabled, Apply, Runs;
    Step(s, run, s', a, s'');
  }

  lemma Interrupted(s: State, k: nat, run: seq<Action>, s': State, more: seq<Action>, s'': State)
    requires ReleaseRun(s, k, run, s') && AllForeign(more) && Runs(s', more, s'')
    ensures ReleaseRun(s, k, run + more, s'')
  {
    hide Enabled, Apply, Runs;
    RunsConcat(s, run, s', more, s'');
  }

  lemma HeadExists(s: State)
    requires Inv(s) && s.queue != []
    ensures s.queue[0] < |s.wakers|
  {
    var i := if s.lock.Granting? then 1 else 0;
    assert Line(s)[i] == s.queue[0];
  }

  lemma Settled(s: State)
    requires Inv(s) && s.lock.Idle?
    ensures s.queue == [] ==> s.bank == 0
    ensures s.queue != [] && s.owed == [] ==>
      s.queue[0] < |s.wakers| && s.wakers[s.queue[0]].status == Waiting && s.bank < s.wakers[s.queue[0]].permits
  {
    if s.queue != [] {
      HeadExists(s);
    }
  }

  lemma Nothing(s: State)
    ensures Runs(s, [], s)
  {
  }

  /** A run goes on by one step. */
  lemma Step(s: State, run: seq<Action>, s': State, a: Action, s'': State)
    requires Runs(s, run, s') && Inv(s') && Enabled(s', a) && s'' == Apply(s', a)
    ensures Inv(s'') && Runs(s, run + [a], s'')
  {
    One(s', [a], s'', a);
    RunsConcat(s, run, s', [a], s'');
  }

  lemma One(s: State, run: seq<Action>, s': State, a: Action)
    requires Inv(s) && ((run == [] && s' == s) || (run == [a] && Enabled(s, a) && s' == Apply(s, a)))
    ensures Inv(s') && Runs(s, run, s')
  {
    hide Inv, Apply, Enabled;
    if run == [a] {
      InvStep(s, a);
      assert run[1..] == [];
    }
  }

  lemma NextFeasible(s: State, env: seq<Action>, run: seq<Action>, s': State)
    requires env != [] && Runs(s, run, s') && run == if Enabled(s, env[0]) then [env[0]] else []
    ensures Feasible(s, env) == run + Feasible(s', env[1..])
  {
    hide Apply, Enabled;
  }

  lemma {:induction false} RunsConcat(s: State, run: seq<Action>, s': State, more: seq<Action>, s'': State)
    requires Runs(s, run, s') && Runs(s', more, s'')
    ensures Runs(s, run + more, s'')
    decreases |run|
  {
    hide Apply, Enabled;
    if run == [] {
      assert run + more == more;
    } else {
      RunsConcat(Apply(s, run[0]), run[1..], s', more, s'');
      assert (run + more)[1..] == run[1..] + more;
    }
  }
}
