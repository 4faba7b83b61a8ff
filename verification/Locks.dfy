/** The mutex and the readers-writer lock: semaphores of one and of
    `usize::MAX` permits, with only some of the semaphore's steps on offer. */
module Locks {
  import opened Semaphore
  import opened SemaphoreLedger
  import opened Sums

  datatype Kind = MutexLock | RwLock

  /** How many permits the lock starts with: what its exclusive guard takes. */
  function Limit(k: Kind): nat {
    match k
    case MutexLock => 1
    case RwLock => USIZE_MAX
  }

  predicate Size(k: Kind, n: nat) {
    n == 1 || n == Limit(k)
  }

  /** The steps a lock's interface can cause.  The only partial release is
      `downgrade`, which leaves a writer with one permit. */
  predicate Offered(k: Kind, s: State, a: Action) {
    match a
    case TryAcquire(n, _) => Size(k, n)
    case Enqueue(n) => Size(k, n)
    case ReleasePart(g, n) => k.RwLock? && g < |s.guards| && s.guards[g] == USIZE_MAX && n == USIZE_MAX - 1
    case Explicit(_) => false
    case _ => true
  }

  ghost predicate LockRuns(k: Kind, s: State, actions: seq<Action>, s': State)
    decreases |actions|
  {
    if actions == [] then s' == s
    else Offered(k, s, actions[0]) && Enabled(s, actions[0]) && LockRuns(k, Apply(s, actions[0]), actions[1..], s')
  }

  /** Every guard, and every waker, is for one permit or for all. */
  ghost predicate Sizes(k: Kind, s: State) {
    && (forall g :: 0 <= g < |s.guards| ==> Size(k, s.guards[g]))
    && (forall t :: 0 <= t < |s.wakers| ==> Size(k, s.wakers[t].permits))
    && s.total <= Limit(k)
  }

  ghost predicate LockInv(k: Kind, s: State) {
    Inv(s) && Sizes(k, s)
  }

  lemma SizesStep(k: Kind, s: State, a: Action)
    requires Sizes(k, s) && Offered(k, s, a) && Enabled(s, a)
    ensures Sizes(k, Apply(s, a))
  {
  }

  lemma {:induction false} LockRunInv(k: Kind, s: State, actions: seq<Action>, s': State)
    requires LockInv(k, s) && LockRuns(k, s, actions, s')
    ensures LockInv(k, s')
    decreases |actions|
  {
    hide Inv, Apply, Enabled, Offered, Sizes;
    if actions != [] {
      InvStep(s, actions[0]);
      SizesStep(k, s, actions[0]);
      LockRunInv(k, Apply(s, actions[0]), actions[1..], s');
    }
  }

  lemma Reached(k: Kind, actions: seq<Action>, s: State)
    requires LockRuns(k, Init(Limit(k)), actions, s)
    ensures LockInv(k, s)
  {
    hide LockRuns, Inv;
    InitInv(Limit(k));
    LockRunInv(k, Init(Limit(k)), actions, s);
  }

  lemma {:induction false} LockRunsAreRuns(k: Kind, s: State, actions: seq<Action>, s': State)
    requires LockRuns(k, s, actions, s')
    ensures Runs(s, actions, s')
    decreases |actions|
  {
    hide Apply, Enabled, Offered;
    if actions != [] {
      LockRunsAreRuns(k, Apply(s, actions[0]), actions[1..], s');
    }
  }

  /** The lock is in order, and as its callers' steps say. */
  lemma Recorded(k: Kind, actions: seq<Action>, s: State)
    requires LockRuns(k, Init(Limit(k)), actions, s)
    ensures LockInv(k, s) && Agrees(LedgerOf(actions), s)
  {
    hide LockRuns, LockInv, Runs, Agrees, LedgerOf;
    Reached(k, actions, s);
    LockRunsAreRuns(k, Init(Limit(k)), actions, s);
    AsRecorded(Limit(k), actions, s);
  }

  /** However a mutex is used, at most one caller has a guard. */
  lemma MutexExcludes(actions: seq<Action>, s: State)
    requires LockRuns(MutexLock, Init(1), actions, s)
    ensures |LedgerOf(actions).holdings| <= 1
  {
    hide LockRuns, LedgerOf;
    Recorded(MutexLock, actions, s);
    if |s.guards| > 1 {
      GuardsShare(s, 0, 1);
      assert false;
    }
  }

  lemma FullGuardAlone(s: State, g: nat)
    requires LockInv(RwLock, s) && g < |s.guards| && s.guards[g] == USIZE_MAX
    ensures |s.guards| == 1
  {
    if |s.guards| > 1 {
      var h := if g == 0 then 1 else 0;
      assert Size(RwLock, s.guards[h]);
      GuardsShare(s, if g < h then g else h, if g < h then h else g);
      assert false;
    }
  }

  /** However a readers-writer lock is used: a caller that asked for the writer's guard,
      has it, and has not downgraded it, is the only one with a guard. */
  lemma WriterExcludes(actions: seq<Action>, s: State, g: nat)
    requires LockRuns(RwLock, Init(USIZE_MAX), actions, s)
    requires var l := LedgerOf(actions); g < |l.holdings| && l.holdings[g] == Holding(USIZE_MAX, 0)
    ensures |LedgerOf(actions).holdings| == 1 && s.guards == [USIZE_MAX]
  {
    hide LockRuns, LedgerOf;
    Recorded(RwLock, actions, s);
    assert Holds(LedgerOf(actions), s, g);
    FullGuardAlone(s, g);
  }

  lemma HeldPart(ws: seq<nat>, t: nat)
    requires t < |ws|
    ensures ws[t] <= Sum(ws)
  {
    SumAround(ws, t);
  }

  /** While any caller has a guard, no waiting writer has been granted the lock. */
  lemma GuardKeepsWritersOut(actions: seq<Action>, s: State, t: nat)
    requires LockRuns(RwLock, Init(USIZE_MAX), actions, s)
    requires var l := LedgerOf(actions); l.holdings != [] && t < |l.asked| && l.asked[t] == USIZE_MAX && t !in l.claimed
    ensures t < |s.wakers| && !s.wakers[t].status.Acquired?
  {
    hide LockRuns, LedgerOf;
    Recorded(RwLock, actions, s);
    assert Waits(LedgerOf(actions), s, t);
    assert Size(RwLock, s.guards[0]);
    HeldPart(s.guards, 0);
    HeldPart(Held(s.wakers), t);
    assert Held(s.wakers)[t] == Unclaimed(s.wakers[t]);
  }

  /** A writer that downgrades is the only one with a guard before and after, so no
      writer comes in between; its release is what lets readers in. */
  lemma DowngradeKeepsAccess(actions: seq<Action>, s: State, g: nat)
    requires LockRuns(RwLock, Init(USIZE_MAX), actions, s)
    requires var l := LedgerOf(actions); g < |l.holdings| && l.holdings[g] == Holding(USIZE_MAX, 0)
    ensures var a := ReleasePart(g, USIZE_MAX - 1);
      && Enabled(s, a) && Offered(RwLock, s, a)
      && Apply(s, a).guards == [1] && Apply(s, a).owed == s.owed + [USIZE_MAX - 1]
      && LockRuns(RwLock, Init(USIZE_MAX), actions + [a], Apply(s, a))
  {
    hide LockRuns, LedgerOf;
    Recorded(RwLock, actions, s);
    WriterExcludes(actions, s, g);
    RunsOn(RwLock, Init(USIZE_MAX), actions, s, ReleasePart(g, USIZE_MAX - 1));
  }

  lemma {:induction false} RunsOn(k: Kind, s: State, actions: seq<Action>, s': State, a: Action)
    requires LockRuns(k, s, actions, s') && Offered(k, s', a) && Enabled(s', a)
    ensures LockRuns(k, s, actions + [a], Apply(s', a))
    decreases |actions|
  {
    hide Apply, Enabled, Offered;
    if actions == [] {
      assert ([a])[1..] == [];
      assert actions + [a] == [a];
    } else {
      RunsOn(k, Apply(s, actions[0]), actions[1..], s', a);
      assert (actions + [a])[1..] == actions[1..] + [a];
    }
  }
}
