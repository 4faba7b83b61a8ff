/** The fair semaphore as atomic steps of any number of callers: the lock-free
    fast path, the queue behind a lock, the releasing loop that can be
    overtaken by cancellations, and the release calls that callers still owe. */
module Semaphore {
  import opened Sums

  const USIZE := 0x1_0000_0000_0000_0000
  const USIZE_MAX := USIZE - 1

  /** Machine arithmetic on counts. */
  function Add(a: nat, b: nat): nat {
    (a + b) % USIZE
  }

  function Sub(a: nat, b: nat): nat {
    (a - b) % USIZE
  }

  // ---------- the state ----------

  datatype Status = Waiting | Acquired | GiveUp

  /** A queued acquisition.  `claimed` once its future has handed out the guard,
      `woken` once its task has been woken. */
  datatype Waker = Waker(permits: nat, status: Status, claimed: bool, woken: bool)

  /** What the holder of the queue's lock is about to do. */
  datatype Lock = Idle | Releasing | Granting(ticket: nat) | Waking(ticket: nat)

  /** `wakers` holds every waker ever queued, in the order of queueing: a ticket is an
      index into it.  `owed` are the amounts of release calls that have not yet
      taken the lock.  `total` is the initial count plus explicit releases minus
      forgotten guards, and `order` the tickets granted so far. */
  datatype State = State(
    free: nat, bank: nat, queue: seq<nat>, wakers: seq<Waker>, guards: seq<nat>, owed: seq<nat>,
    lock: Lock, total: nat, order: seq<nat>)

  function Init(permits: nat): State {
    State(permits, 0, [], [], [], [], Idle, permits, [])
  }

  datatype Action =
    | TryAcquire(n: nat, seen: nat)   // the compare-exchange that finds `seen` unchanged
    | Enqueue(n: nat)                 // queue(), after the fast path failed
    | Claim(ticket: nat)              // poll() finds itself granted
    | Cancel(ticket: nat)             // drop of a queued future
    | DropGuard(guard: nat)
    | ReleasePart(guard: nat, n: nat)
    | Forget(guard: nat)
    | Explicit(n: nat)                // a caller's own release(n)
    | Begin(call: nat)                // a release call takes the lock
    | Inspect                         // ... looks at the head of the queue
    | Grant                           // ... tries to grant to it
    | WakeTask                        // ... wakes the task it has granted to
    | Finish                          // ... finds the queue empty

  predicate Enabled(s: State, a: Action) {
    match a
    case TryAcquire(n, seen) => seen == s.free && n <= seen
    case Enqueue(n) => n < USIZE && s.lock.Idle?
    case Claim(t) => t < |s.wakers| && s.wakers[t].status.Acquired? && !s.wakers[t].claimed
    case Cancel(t) => t < |s.wakers| && !s.wakers[t].status.GiveUp?
    case DropGuard(g) => g < |s.guards|
    case ReleasePart(g, n) => g < |s.guards| && n <= s.guards[g]
    case Forget(g) => g < |s.guards| && s.guards[g] <= s.total
    case Explicit(n) => s.total + n <= USIZE_MAX
    case Begin(k) => s.lock.Idle? && k < |s.owed|
    case Inspect => s.lock.Releasing? && s.queue != [] && s.queue[0] < |s.wakers|
    case Grant => s.lock.Granting? && s.lock.ticket < |s.wakers|
    case WakeTask => s.lock.Waking? && s.lock.ticket < |s.wakers|
    case Finish => s.lock.Releasing? && s.queue == []
  }

  function Apply(s: State, a: Action): State
    requires Enabled(s, a)
  {
    match a
    case TryAcquire(n, seen) => s.(free := seen - n, guards := s.guards + [n])
    case Enqueue(n) =>
      s.(bank := Add(s.bank, s.free), free := 0, queue := s.queue + [|s.wakers|],
         wakers := s.wakers + [Waker(n, Waiting, false, false)], owed := s.owed + [0])
    case Claim(t) => s.(wakers := s.wakers[t := s.wakers[t].(claimed := true)],
      guards := s.guards + [s.wakers[t].permits])
    case Cancel(t) => s.(wakers := s.wakers[t := s.wakers[t].(status := GiveUp)],
      owed := s.owed + [Unclaimed(s.wakers[t])])
    case DropGuard(g) => s.(guards := Without(s.guards, g), owed := s.owed + [s.guards[g]])
    case ReleasePart(g, n) => s.(guards := s.guards[g := s.guards[g] - n], owed := s.owed + [n])
    case Forget(g) => s.(guards := Without(s.guards, g), total := s.total - s.guards[g])
    case Explicit(n) => s.(total := s.total + n, owed := s.owed + [n])
    case Begin(k) => s.(owed := Without(s.owed, k), bank := Add(s.bank, s.owed[k]), lock := Releasing)
    case Inspect =>
      var w := s.wakers[s.queue[0]];
      if w.status.GiveUp? then s.(queue := s.queue[1..])
      else if s.bank < w.permits then s.(lock := Idle)
      else s.(queue := s.queue[1..], lock := Granting(s.queue[0]))
    case Grant =>
      var t := s.lock.ticket;
      if s.wakers[t].status.Waiting?
      then s.(wakers := s.wakers[t := s.wakers[t].(status := Acquired)], bank := Sub(s.bank, s.wakers[t].permits),
              lock := Waking(t), order := s.order + [t])
      else s.(queue := [t] + s.queue, lock := Idle)
    case WakeTask => s.(wakers := s.wakers[s.lock.ticket := s.wakers[s.lock.ticket].(woken := true)], lock := Releasing)
    case Finish => s.(free := Add(s.free, s.bank), bank := 0, lock := Idle)
  }

  /** The state after a list of steps, each enabled when its turn comes. */
  ghost predicate Runs(s: State, actions: seq<Action>, s': State)
    decreases |actions|
  {
    if actions == [] then s' == s
    else Enabled(s, actions[0]) && Runs(Apply(s, actions[0]), actions[1..], s')
  }

  // ---------- invariants ----------

  /** What a waker holds that its future has not yet turned into a guard. */
  function Unclaimed(w: Waker): nat {
    if w.status.Acquired? && !w.claimed then w.permits else 0
  }

  function Held(ws: seq<Waker>): seq<nat> {
    seq(|ws|, i requires 0 <= i < |ws| => Unclaimed(ws[i]))
  }

  /** No permit is lost or made up. */
  ghost predicate Conserved(s: State) {
    && s.free + s.bank + Sum(Held(s.wakers)) + Sum(s.guards) + Sum(s.owed) == s.total <= USIZE_MAX
    && (forall t :: 0 <= t < |s.wakers| && s.wakers[t].status.Waiting? ==> !s.wakers[t].claimed)
  }

  ghost predicate Increasing(s: seq<nat>) {
    forall i, j :: 0 <= i < j < |s| ==> s[i] < s[j]
  }

  /** The popped waker, if any, in front of the queue. */
  function Line(s: State): seq<nat> {
    if s.lock.Granting? then [s.lock.ticket] + s.queue else s.queue
  }

  /** Everyone who waits is in the line, which is in ticket order and holds no
      one who has been served. */
  ghost predicate InLine(s: State) {
    && Increasing(Line(s))
    && (forall i :: 0 <= i < |Line(s)| ==> Line(s)[i] < |s.wakers| && !s.wakers[Line(s)[i]].status.Acquired?)
    && (forall t :: 0 <= t < |s.wakers| && s.wakers[t].status.Waiting? ==> t in Line(s))
  }

  /** Grants went out in ticket order, before everyone still in line. */
  ghost predicate Fifo(s: State) {
    && Increasing(s.order)
    && (forall t :: 0 <= t < |s.wakers| && s.wakers[t].status.Acquired? ==> t in s.order)
    && (forall i :: 0 <= i < |s.order| ==> s.order[i] < |s.wakers|)
    && (forall i, j :: 0 <= i < |s.order| && 0 <= j < |Line(s)| ==> s.order[i] < Line(s)[j])
  }

  /** No permit is left to the fast path while someone is in line; none is
      banked while no one is. */
  ghost predicate Fair(s: State) {
    && (Line(s) != [] ==> s.free == 0)
    && (s.lock.Idle? && s.queue == [] ==> s.bank == 0)
    && (s.lock.Granting? && s.lock.ticket < |s.wakers| ==> s.wakers[s.lock.ticket].permits <= s.bank)
  }

  /** With no release call outstanding, the head of the queue waits for more
      than is banked. */
  ghost predicate Progress(s: State) {
    && (s.lock.Idle? && s.queue != [] && s.queue[0] < |s.wakers| && s.owed == [] ==>
         s.wakers[s.queue[0]].status.Waiting? && s.bank < s.wakers[s.queue[0]].permits)
    && (s.lock.Granting? && s.lock.ticket < |s.wakers| && s.owed == [] ==> s.wakers[s.lock.ticket].status.Waiting?)
  }

  /** Who has been granted permits has been woken, or is about to be by the
      holder of the lock. */
  ghost predicate Woken(s: State) {
    && (forall t :: 0 <= t < |s.wakers| && s.wakers[t].status.Acquired? ==> s.wakers[t].woken || s.lock == Waking(t))
    && (s.lock.Waking? ==> s.lock.ticket < |s.wakers|)
  }

  ghost predicate Inv(s: State) {
    Conserved(s) && InLine(s) && Fifo(s) && Fair(s) && Progress(s) && Woken(s)
  }

  lemma InitInv(permits: nat)
    requires permits <= USIZE_MAX
    ensures Inv(Init(permits))
  {
  }

  lemma HeldUpdate(ws: seq<Waker>, t: nat, w: Waker)
    requires t < |ws|
    ensures Sum(Held(ws[t := w])) == Sum(Held(ws)) - Unclaimed(ws[t]) + Unclaimed(w)
  {
    assert Held(ws[t := w]) == Held(ws)[t := Unclaimed(w)];
    SumUpdate(Held(ws), t, Unclaimed(w));
  }

  lemma HeldAppend(ws: seq<Waker>, w: Waker)
    ensures Sum(Held(ws + [w])) == Sum(Held(ws)) + Unclaimed(w)
  {
    assert Held(ws + [w]) == Held(ws) + [Unclaimed(w)];
    SumAppend(Held(ws), Unclaimed(w));
  }

  lemma Fits(a: nat, b: nat)
    ensures a + b < USIZE ==> Add(a, b) == a + b
    ensures b <= a < USIZE ==> Sub(a, b) == a - b
  {
  }

  /** Every step keeps the count; no addition wraps and no subtraction goes below zero. */
  lemma ConservedStep(s: State, a: Action)
    requires Conserved(s) && Fair(s) && Enabled(s, a)
    ensures Conserved(Apply(s, a))
  {
    hide Sum, Held, Add, Sub;
    match a
    case TryAcquire(n, seen) => SumAppend(s.guards, n);
    case Enqueue(n) =>
      SumAppend(s.owed, 0);
      HeldAppend(s.wakers, Waker(n, Waiting, false, false));
      Fits(s.bank, s.free);
    case Claim(t) => ClaimConserved(s, t);
    case Cancel(t) => CancelConserved(s, t);
    case DropGuard(g) => SumWithout(s.guards, g); SumAppend(s.owed, s.guards[g]);
    case ReleasePart(g, n) => SumUpdate(s.guards, g, s.guards[g] - n); SumAppend(s.owed, n);
    case Forget(g) => SumWithout(s.guards, g);
    case Explicit(n) => SumAppend(s.owed, n);
    case Begin(k) => SumWithout(s.owed, k); Fits(s.bank, s.owed[k]);
    case Inspect =>
    case Grant => GrantConserved(s);
    case WakeTask => HeldUpdate(s.wakers, s.lock.ticket, s.wakers[s.lock.ticket].(woken := true));
    case Finish => Fits(s.free, s.bank);
  }

  lemma ClaimConserved(s: State, t: nat)
    requires Conserved(s) && Enabled(s, Claim(t))
    ensures Conserved(Apply(s, Claim(t)))
  {
    hide Sum, Held;
    HeldUpdate(s.wakers, t, s.wakers[t].(claimed := true));
    SumAppend(s.guards, s.wakers[t].permits);
  }

  lemma CancelConserved(s: State, t: nat)
    requires Conserved(s) && Enabled(s, Cancel(t))
    ensures Conserved(Apply(s, Cancel(t)))
  {
    hide Sum, Held;
    HeldUpdate(s.wakers, t, s.wakers[t].(status := GiveUp));
    SumAppend(s.owed, Unclaimed(s.wakers[t]));
  }

  lemma GrantConserved(s: State)
    requires Conserved(s) && Fair(s) && Enabled(s, Grant)
    ensures Conserved(Apply(s, Grant))
  {
    hide Sum, Held, Sub;
    var t := s.lock.ticket;
    HeldUpdate(s.wakers, t, s.wakers[t].(status := Acquired));
    Fits(s.bank, s.wakers[t].permits);
  }

  /** Steps that leave the line and the statuses in it alone. */
  lemma LineKept(s: State, s': State)
    requires InLine(s) && Fifo(s) && Line(s') == Line(s) && s'.order == s.order && |s'.wakers| == |s.wakers|
    requires forall t :: 0 <= t < |s.wakers| ==> s'.wakers[t].status == s.wakers[t].status
    ensures InLine(s') && Fifo(s')
  {
  }

  lemma EnqueueLine(s: State, n: nat)
    requires InLine(s) && Fifo(s) && Enabled(s, Enqueue(n))
    ensures InLine(Apply(s, Enqueue(n))) && Fifo(Apply(s, Enqueue(n)))
  {
    var s' := Apply(s, Enqueue(n));
    assert Line(s') == Line(s) + [|s.wakers|];
    hide Line;
    assert Line(s')[|Line(s)|] == |s.wakers|;
    forall t | 0 <= t < |s'.wakers| && s'.wakers[t].status.Waiting?
      ensures t in Line(s')
    {
      if t < |s.wakers| {
        var i :| 0 <= i < |Line(s)| && Line(s)[i] == t;
        assert Line(s')[i] == t;
      }
    }
  }

  lemma CancelLine(s: State, t: nat)
    requires InLine(s) && Fifo(s) && Enabled(s, Cancel(t))
    ensures InLine(Apply(s, Cancel(t))) && Fifo(Apply(s, Cancel(t)))
  {
    assert Line(Apply(s, Cancel(t))) == Line(s);
    hide Line;
  }

  /** The head of the line, once nobody waits there, can leave it. */
  lemma LineLeft(s: State, s': State)
    requires InLine(s) && Fifo(s) && Line(s) != [] && Line(s') == Line(s)[1..] && |s'.wakers| == |s.wakers|
    requires s'.order == s.order || s'.order == s.order + [Line(s)[0]]
    requires forall t :: 0 <= t < |s.wakers| && t != Line(s)[0] ==> s'.wakers[t].status == s.wakers[t].status
    requires !s'.wakers[Line(s)[0]].status.Waiting?
      && (s'.wakers[Line(s)[0]].status.Acquired? ==> Line(s)[0] in s'.order)
    ensures InLine(s') && Fifo(s')
  {
    hide Line;
    forall t | 0 <= t < |s'.wakers| && s'.wakers[t].status.Waiting?
      ensures t in Line(s')
    {
      var i :| 0 <= i < |Line(s)| && Line(s)[i] == t;
      assert Line(s')[i - 1] == t;
    }
  }

  lemma LineStep(s: State, a: Action)
    requires InLine(s) && Fifo(s) && Enabled(s, a)
    ensures InLine(Apply(s, a)) && Fifo(Apply(s, a))
  {
    hide InLine, Fifo;
    var s' := Apply(s, a);
    match a
    case Enqueue(n) => EnqueueLine(s, n);
    case Cancel(t) => CancelLine(s, t);
    case Inspect =>
      var t := s.queue[0];
      if s.wakers[t].status.GiveUp? {
        LineLeft(s, s');
      } else {
        assert Line(s') == Line(s);
        LineKept(s, s');
      }
    case Grant =>
      if s.wakers[s.lock.ticket].status.Waiting? {
        assert Line(s') == Line(s)[1..];
        LineLeft(s, s');
      } else {
        LineKept(s, s');
      }
    case _ => LineKept(s, s');
  }

  lemma FairStep(s: State, a: Action)
    requires Inv(s) && Enabled(s, a)
    ensures Fair(Apply(s, a)) && Progress(Apply(s, a))
  {
  }

  lemma WokenStep(s: State, a: Action)
    requires Woken(s) && Enabled(s, a)
    ensures Woken(Apply(s, a))
  {
  }

  /** Every step keeps the invariant. */
  lemma InvStep(s: State, a: Action)
    requires Inv(s) && Enabled(s, a)
    ensures Inv(Apply(s, a))
  {
    hide Apply, Enabled;
    ConservedStep(s, a);
    LineStep(s, a);
    FairStep(s, a);
    WokenStep(s, a);
  }

  /** Every reachable state satisfies the invariant. */
  lemma {:induction false} RunInv(s: State, actions: seq<Action>, s': State)
    requires Inv(s) && Runs(s, actions, s')
    ensures Inv(s')
    decreases |actions|
  {
    hide Inv, Apply, Enabled;
    if actions != [] {
      InvStep(s, actions[0]);
      RunInv(Apply(s, actions[0]), actions[1..], s');
    }
  }

  // ---------- what every run guarantees ----------

  /** What a step does to the total: a caller's own release adds to it, a guard
      that is forgotten takes from it. */
  function Minted(s: State, a: Action): int
    requires Enabled(s, a)
  {
    match a
    case Explicit(n) => n
    case Forget(g) => -(s.guards[g] as int)
    case _ => 0
  }

  ghost function MintedOver(s: State, actions: seq<Action>): int
    decreases |actions|
  {
    if actions == [] || !Enabled(s, actions[0]) then 0
    else Minted(s, actions[0]) + MintedOver(Apply(s, actions[0]), actions[1..])
  }

  lemma {:induction false} TotalOver(s: State, actions: seq<Action>, s': State)
    requires Runs(s, actions, s')
    ensures s'.total == s.total + MintedOver(s, actions)
    decreases |actions|
  {
    if actions != [] {
      TotalOver(Apply(s, actions[0]), actions[1..], s');
    }
  }

  /** From any initial count, whatever the callers do: the permits that are free,
      banked, granted, guarded or on their way back are the initial ones plus explicit
      releases minus forgotten guards, and no count exceeds a machine word. */
  lemma PermitsConserved(permits: nat, actions: seq<Action>, s: State)
    requires permits <= USIZE_MAX && Runs(Init(permits), actions, s)
    ensures s.free + s.bank + Sum(Held(s.wakers)) + Sum(s.guards) + Sum(s.owed)
      == permits + MintedOver(Init(permits), actions)
    ensures s.free + s.bank + Sum(Held(s.wakers)) + Sum(s.guards) + Sum(s.owed) <= USIZE_MAX
  {
    hide Runs, MintedOver;
    InitInv(permits);
    RunInv(Init(permits), actions, s);
    TotalOver(Init(permits), actions, s);
  }

  /** Nobody overtakes: who is granted had the lowest ticket of all who still wait. */
  lemma ServedInOrder(permits: nat, actions: seq<Action>, s: State, t: nat, u: nat)
    requires permits <= USIZE_MAX && Runs(Init(permits), actions, s) && t < |s.wakers| && u < |s.wakers|
    requires s.wakers[t].status.Acquired? && s.wakers[u].status.Waiting?
    ensures t < u && Increasing(s.order) && t in s.order
  {
    InitInv(permits);
    RunInv(Init(permits), actions, s);
    var i :| 0 <= i < |s.order| && s.order[i] == t;
    var j :| 0 <= j < |Line(s)| && Line(s)[j] == u;
  }

  /** Between critical sections, with waiters queued no permit is free; with none
      queued no permit is banked; and with no release call outstanding the head
      of the queue waits for more than there is. */
  lemma NoPermitIdle(permits: nat, actions: seq<Action>, s: State)
    requires permits <= USIZE_MAX && Runs(Init(permits), actions, s) && s.lock.Idle?
    ensures s.queue != [] ==> s.free == 0
    ensures s.queue == [] ==> s.bank == 0
    ensures s.queue != [] && s.owed == [] ==>
      s.queue[0] < |s.wakers| && s.wakers[s.queue[0]].status.Waiting? && s.bank < s.wakers[s.queue[0]].permits
  {
    InitInv(permits);
    RunInv(Init(permits), actions, s);
    assert s.queue != [] ==> Line(s)[0] < |s.wakers|;
  }

  /** A holder of the lock lets go of it: each of its steps uses up `Work`, and
      no other step adds to it. */
  function Work(s: State): nat {
    match s.lock
    case Idle => 0
    case Releasing => 3 * |s.queue| + 1
    case Granting(_) => 3 * |s.queue| + 3
    case Waking(_) => 3 * |s.queue| + 2
  }

  predicate OfHolder(a: Action) {
    a.Inspect? || a.Grant? || a.WakeTask? || a.Finish?
  }

  lemma HolderFinishes(s: State, a: Action)
    requires Enabled(s, a) && !s.lock.Idle?
    ensures if OfHolder(a) then Work(Apply(s, a)) < Work(s) else Work(Apply(s, a)) == Work(s)
  {
  }

  /** ... and while it holds the lock it can always take a step. */
  lemma HolderCanStep(s: State)
    requires Inv(s) && !s.lock.Idle?
    ensures Enabled(s, Inspect) || Enabled(s, Grant) || Enabled(s, WakeTask) || Enabled(s, Finish)
  {
    assert Line(s) != [] ==> Line(s)[0] < |s.wakers|;
  }

  /** No grant goes unheard: a waiter that has been granted its permits has had its
      task woken, or the holder of the lock wakes it in its next step. */
  lemma GrantWakes(permits: nat, actions: seq<Action>, s: State, t: nat)
    requires permits <= USIZE_MAX && Runs(Init(permits), actions, s)
    requires t < |s.wakers| && s.wakers[t].status.Acquired? && !s.wakers[t].woken
    ensures Enabled(s, WakeTask) && Apply(s, WakeTask).wakers[t].woken
    ensures forall a :: OfHolder(a) && Enabled(s, a) ==> a == WakeTask
  {
    InitInv(permits);
    RunInv(Init(permits), actions, s);
  }

  /** Two guards never hold more than there is. */
  lemma GuardsShare(s: State, i: nat, j: nat)
    requires Inv(s) && i < j < |s.guards|
    ensures s.guards[i] + s.guards[j] <= s.total
  {
    hide InLine, Fifo, Fair, Progress, Woken;
    SumOfTwo(s.guards, i, j);
  }
}
