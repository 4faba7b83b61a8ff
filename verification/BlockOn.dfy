/** A thread that runs one future to its end and suspends itself in between:
    the handshake between its `pending` flag and the waker. */
module BlockOn {

  datatype Thread = Running | Suspended | Queued

  datatype Pc =
    | Mark        // about to set `pending`
    | Polling     // inside the poll
    | Look        // the poll was pending, about to lock and read the flag
    | Yielding    // switches away with the flag's lock held
    | Switched    // marked suspended; the yield hook is still to drop the lock
    | Away        // off the processor
    | Finished

  /** `owed` counts wakers that have cleared the flag and not yet called
      `wake_thread`.  `unheard` says that a wake came after the last poll began. */
  datatype State = State(pending: bool, locked: bool, pc: Pc, thread: Thread, owed: nat, unheard: bool)

  const INIT := State(false, false, Mark, Running, 0, false)

  datatype Action =
    | SetPending | Finish | Pend | LookUp | Suspend | Hook | Resume | Preempt   // the thread and its scheduler
    | ClearPending | WakeThread                                                   // wakers

  predicate Enabled(s: State, a: Action) {
    match a
    case SetPending => s.pc.Mark? && s.thread.Running? && !s.locked
    case Finish => s.pc.Polling? && s.thread.Running?
    case Pend => s.pc.Polling? && s.thread.Running?
    case LookUp => s.pc.Look? && s.thread.Running? && !s.locked
    case Suspend => s.pc.Yielding? && s.thread.Running?
    case Hook => s.pc.Switched?
    case Resume => s.thread.Queued? && !s.pc.Switched?
    case Preempt => s.thread.Running?
    case ClearPending => !s.locked && !s.pc.Finished?
    case WakeThread => s.owed > 0
  }

  function Apply(s: State, a: Action): State
    requires Enabled(s, a)
  {
    match a
    case SetPending => s.(pending := true, pc := Polling, unheard := false)
    case Finish => s.(pc := Finished)
    case Pend => s.(pc := Look)
    case LookUp => if s.pending then s.(locked := true, pc := Yielding) else s.(pc := Mark)
    case Suspend => s.(thread := Suspended, pc := Switched)
    case Hook => s.(locked := false, pc := Away)
    case Resume => s.(thread := Running, pc := if s.pc.Away? then Mark else s.pc)
    case Preempt => s.(thread := Queued)
    case ClearPending => s.(pending := false, owed := s.owed + 1, unheard := true)
    case WakeThread => s.(owed := s.owed - 1, thread := if s.thread.Suspended? then Queued else s.thread)
  }

  ghost predicate Runs(s: State, actions: seq<Action>, s': State)
    decreases |actions|
  {
    if actions == [] then s' == s
    else Enabled(s, actions[0]) && Runs(Apply(s, actions[0]), actions[1..], s')
  }

  ghost predicate Inv(s: State) {
    && (s.pc.Yielding? || s.pc.Switched? <==> s.locked) && (s.locked ==> s.pending)
    && (s.thread.Suspended? ==> s.pc.Switched? || s.pc.Away?)
    && (s.pc.Yielding? ==> !s.thread.Suspended?) && (s.pc.Switched? || s.pc.Away? ==> !s.thread.Running?)
    && (s.unheard && !s.pc.Finished? ==> !s.pending) && (!s.unheard && !s.pc.Mark? && !s.pc.Finished? ==> s.pending)
    && (s.thread.Suspended? && !s.pending ==> s.owed > 0)
  }

  lemma InvStep(s: State, a: Action)
    requires Inv(s) && Enabled(s, a)
    ensures Inv(Apply(s, a))
  {
  }

  lemma {:induction false} RunInv(s: State, actions: seq<Action>, s': State)
    requires Inv(s) && Runs(s, actions, s')
    ensures Inv(s')
    decreases |actions|
  {
    hide Inv, Apply, Enabled;
    if actions != [] {
      InvStep(s, actions[0]);
      RunInv(Apply(s, actions[0]), actions[1..], s');
    }
  }

  ghost predicate Reachable(s: State) {
    exists first, actions :: first == INIT && Runs(first, actions, s)
  }

  lemma ReachedInv(s: State)
    requires Reachable(s)
    ensures Inv(s)
  {
    var first, actions :| first == INIT && Runs(first, actions, s);
    hide Runs;
    RunInv(first, actions, s);
  }

  /** A wake that came after the last poll began is not slept through: the thread
      does not go to sleep on it, and if it is asleep the waker is still to rouse it. */
  lemma NoLostWakeup(s: State)
    requires Reachable(s) && s.unheard && !s.pc.Finished?
    ensures Enabled(s, LookUp) ==> Apply(s, LookUp).pc.Mark?
    ensures !s.pc.Yielding? && !s.pc.Switched?
    ensures s.thread.Suspended? ==> Enabled(s, WakeThread) && Apply(s, WakeThread).thread.Queued?
  {
    ReachedInv(s);
  }

  // ---------- the run tells what happened ----------

  /** Whether a wake came after the last poll began, from the steps alone. */
  function WokenSince(actions: seq<Action>): bool {
    if actions == [] then false
    else
      var a := actions[|actions| - 1];
      if a.ClearPending? then true else if a.SetPending? then false else WokenSince(actions[..|actions| - 1])
  }

  function Count(actions: seq<Action>, a: Action): nat {
    if actions == [] then 0
    else Count(actions[..|actions| - 1], a) + if actions[|actions| - 1] == a then 1 else 0
  }

  lemma {:induction false} RunsSplit(s: State, actions: seq<Action>, s': State) returns (t: State)
    requires Runs(s, actions, s') && actions != []
    ensures var n := |actions| - 1; Runs(s, actions[..n], t) && Enabled(t, actions[n]) && s' == Apply(t, actions[n])
    decreases |actions|
  {
    hide Apply, Enabled;
    var n := |actions| - 1;
    if n == 0 {
      t := s;
    } else {
      t := RunsSplit(Apply(s, actions[0]), actions[1..], s');
      assert actions[1..][..n - 1] == actions[..n][1..];
    }
  }

  /** The thread has finished exactly when its future has; a wake is unheard exactly
      when one came after the last poll began; and the wakers still owe what they
      have not delivered. */
  lemma {:induction false} History(first: State, actions: seq<Action>, s: State)
    requires first == INIT && Runs(first, actions, s)
    ensures s.unheard == WokenSince(actions) && (s.pc.Finished? <==> Count(actions, Finish) > 0)
    ensures s.owed + Count(actions, WakeThread) == Count(actions, ClearPending)
    decreases |actions|
  {
    hide Runs, Apply, Enabled;
    if actions == [] {
      NothingRun(first, s);
    } else {
      var t := RunsSplit(first, actions, s);
      History(first, actions[..|actions| - 1], t);
      Noted(t, actions[|actions| - 1]);
    }
  }

  lemma NothingRun(s: State, s': State)
    requires Runs(s, [], s')
    ensures s' == s
  {
  }

  lemma Noted(s: State, a: Action)
    requires Enabled(s, a)
    ensures Apply(s, a).unheard == (a.ClearPending? || (s.unheard && !a.SetPending?))
    ensures Apply(s, a).pc.Finished? <==> a.Finish? || s.pc.Finished?
    ensures Apply(s, a).owed == s.owed + (if a.ClearPending? then 1 else if a.WakeThread? then -1 else 0)
  {
  }

  // ---------- what the thread does if nobody interferes ----------

  /** Steps of the thread, its scheduler and wakers that have begun. */
  predicate GoesOn(a: Action) {
    a.Pend? || a.LookUp? || a.WakeThread? || a.Resume? || a.SetPending?
  }

  /** After a wake the future is polled again, in at most six steps that nobody
      outside has to take part in. */
  lemma WakeLeadsToPoll(s: State) returns (actions: seq<Action>, s': State)
    requires Reachable(s) && s.unheard && !s.pc.Finished?
    ensures Runs(s, actions, s') && |actions| <= 6 && forall i :: 0 <= i < |actions| ==> GoesOn(actions[i])
    ensures s'.pc.Polling? && s'.thread.Running? && !s'.unheard && s'.pending
  {
    ReachedInv(s);
    actions, s' := ToPoll(s, 6);
  }

  /** How many steps it is to the next poll. */
  function Distance(s: State): nat {
    match s.pc
    case Polling => 3 + Off(s)
    case Look => 2 + Off(s)
    case Mark => 1 + Off(s)
    case _ => 1 + Off(s)
  }

  function Off(s: State): nat {
    match s.thread
    case Running => 0
    case Queued => 1
    case Suspended => 2
  }

  function Onward(s: State): Action {
    match s.thread
    case Suspended => WakeThread
    case Queued => Resume
    case Running => if s.pc.Polling? then Pend else if s.pc.Look? then LookUp else SetPending
  }

  lemma {:induction false} ToPoll(s: State, n: nat) returns (actions: seq<Action>, s': State)
    requires Inv(s) && s.unheard && !s.pc.Finished? && Distance(s) <= n
    ensures Runs(s, actions, s') && |actions| <= n && forall i :: 0 <= i < |actions| ==> GoesOn(actions[i])
    ensures s'.pc.Polling? && s'.thread.Running? && !s'.unheard && s'.pending
    decreases n
  {
    var a := Onward(s);
    var t := Apply(s, a);
    InvStep(s, a);
    if a.SetPending? {
      actions, s' := [a], t;
      assert actions[1..] == [];
    } else {
      var rest;
      rest, s' := ToPoll(t, n - 1);
      actions := [a] + rest;
      assert actions[1..] == rest;
    }
  }

  /** Without a wake the thread goes to sleep after a pending poll, and leaves the
      flag's lock behind. */
  lemma SleepsUnlessWoken(s: State)
    requires Reachable(s) && s.pc.Polling? && s.thread.Running? && !s.unheard
    ensures Runs(s, [Pend, LookUp, Suspend, Hook], s.(pc := Away, thread := Suspended))
  {
    hide Runs;
    ReachedInv(s);
    var s1 := Apply(s, Pend);
    var s2 := Apply(s1, LookUp);
    var s3 := Apply(s2, Suspend);
    var s4 := Apply(s3, Hook);
    assert s4 == s.(pc := Away, thread := Suspended);
    assert [Pend] + [LookUp, Suspend, Hook] == [Pend, LookUp, Suspend, Hook];
    assert [LookUp] + [Suspend, Hook] == [LookUp, Suspend, Hook];
    assert [Suspend] + [Hook] == [Suspend, Hook] && [Hook] + [] == [Hook];
    Stay(s4);
    First(s3, Hook, [], s4);
    First(s2, Suspend, [Hook], s4);
    First(s1, LookUp, [Suspend, Hook], s4);
    First(s, Pend, [LookUp, Suspend, Hook], s4);
  }

  lemma Stay(s: State)
    ensures Runs(s, [], s)
  {
  }

  lemma First(s: State, a: Action, rest: seq<Action>, s': State)
    requires Enabled(s, a) && Runs(Apply(s, a), rest, s')
    ensures Runs(s, [a] + rest, s')
  {
    hide Enabled, Apply;
    assert ([a] + rest)[1..] == rest;
  }

  /** Only the scheduler and its own going to sleep take the processor from the thread,
      only a wake ends its sleep, and only the scheduler lets it run. */
  lemma ThreadMoves(s: State, a: Action)
    requires Reachable(s) && Enabled(s, a) && Apply(s, a).thread != s.thread
    ensures s.thread.Running? ==> a.Preempt? || a.Suspend?
    ensures s.thread.Suspended? ==> a.WakeThread? && Apply(s, a).thread.Queued?
    ensures s.thread.Queued? ==> a.Resume? && Apply(s, a).thread.Running?
  {
    ReachedInv(s);
  }

  /** A thread that is taken off the processor takes no step until it is put back,
      and then it stands where it stood. */
  lemma PreemptPauses(s: State, a: Action)
    requires Reachable(s) && s.thread.Running?
    ensures Enabled(s, Preempt) && Enabled(Apply(s, Preempt), Resume) && Apply(Apply(s, Preempt), Resume) == s
    ensures Enabled(Apply(s, Preempt), a) ==> a.Resume? || a.ClearPending? || a.WakeThread?
  {
    ReachedInv(s);
    var t := Apply(s, Preempt);
    assert t.thread == Queued && t.pc == s.pc;
    assert !Enabled(t, SetPending) && !Enabled(t, Finish) && !Enabled(t, Pend) && !Enabled(t, LookUp);
    assert !Enabled(t, Suspend) && !Enabled(t, Hook) && !Enabled(t, Preempt);
  }
}
