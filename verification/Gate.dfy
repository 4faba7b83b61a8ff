/** One of a channel's two semaphores: one side takes single permits and uses
    them up, the other side feeds single permits in. */
module Gate {
  import opened Semaphore
  import opened Sums
  import opened Options

  /** How far a side has got with its release call: it runs it to the end before
      it does anything else. */
  datatype Call = NoCall | Owing | Running

  /** `fut` is the ticket of the taker's queued acquisition, if it has one. */
  datatype Gate = Gate(sem: State, fut: Option<nat>, taker: Call, feeder: Call)

  function Initial(permits: nat): Gate {
    Gate(Init(permits), None, NoCall, NoCall)
  }

  datatype Step =
    | Take                            // try_acquire succeeds; the guard is forgotten
    | Join                            // the future queues itself
    | Redeem                          // the future finds its permit granted; the guard is forgotten
    | Leave                           // the future is dropped
    | Feed                            // release(1)
    | Start(ofFeeder: bool, call: nat) // a release call takes the lock
    | Work(action: Action)            // the holder of the lock goes on

  predicate Can(g: Gate, x: Step) {
    match x
    case Take => g.taker.NoCall? && g.fut.None? && g.sem.free >= 1 && g.sem.total >= 1
    case Join => g.taker.NoCall? && g.fut.None? && g.sem.lock.Idle?
    case Redeem => g.taker.NoCall? && g.fut.Some? && Enabled(g.sem, Claim(g.fut.value)) && 1 <= g.sem.total
                   && g.sem.wakers[g.fut.value].permits <= g.sem.total
    case Leave => g.taker.NoCall? && g.fut.Some? && Enabled(g.sem, Cancel(g.fut.value))
    case Feed => g.feeder.NoCall? && Enabled(g.sem, Explicit(1))
    case Start(ofFeeder, k) => Enabled(g.sem, Begin(k)) && (if ofFeeder then g.feeder.Owing? else g.taker.Owing?)
    case Work(a) => OfHolder(a) && Enabled(g.sem, a)
  }

  /** A permit taken and its guard forgotten at once. */
  function UsedUp(s: State, a: Action): State
    requires Enabled(s, a) && (a.TryAcquire? || a.Claim?)
    requires (if a.TryAcquire? then a.n else s.wakers[a.ticket].permits) <= s.total
  {
    var s' := Apply(s, a);
    Apply(s', Forget(|s'.guards| - 1))
  }

  function Do(g: Gate, x: Step): Gate
    requires Can(g, x)
  {
    match x
    case Take => g.(sem := UsedUp(g.sem, TryAcquire(1, g.sem.free)))
    case Join => g.(sem := Apply(g.sem, Enqueue(1)), fut := Some(|g.sem.wakers|), taker := Owing)
    case Redeem => g.(sem := UsedUp(g.sem, Claim(g.fut.value)))
    case Leave => g.(sem := Apply(g.sem, Cancel(g.fut.value)), fut := None, taker := Owing)
    case Feed => g.(sem := Apply(g.sem, Explicit(1)), feeder := Owing)
    case Start(ofFeeder, k) =>
      if ofFeeder then g.(sem := Apply(g.sem, Begin(k)), feeder := Running)
      else g.(sem := Apply(g.sem, Begin(k)), taker := Running)
    case Work(a) =>
      var s' := Apply(g.sem, a);
      if s'.lock.Idle?
      then g.(sem := s', taker := if g.taker.Running? then NoCall else g.taker,
        feeder := if g.feeder.Running? then NoCall else g.feeder)
      else g.(sem := s')
  }

  function Count(c: Call, d: Call): nat {
    if c == d then 1 else 0
  }

  /** Every outstanding release call is one side's call in progress. */
  ghost predicate CallsOk(g: Gate) {
    && |g.sem.owed| == Count(g.taker, Owing) + Count(g.feeder, Owing)
    && (if g.sem.lock.Idle? then 0 else 1) == Count(g.taker, Running) + Count(g.feeder, Running)
  }

  /** Only the taker's present future waits or holds a grant. */
  ghost predicate FutureOk(g: Gate) {
    && g.sem.guards == []
    && (forall t :: 0 <= t < |g.sem.wakers| ==> g.sem.wakers[t].permits == 1)
    && (forall t :: 0 <= t < |g.sem.wakers| && !g.sem.wakers[t].status.GiveUp? ==> g.fut == Some(t))
    && (g.fut.Some? ==> g.fut.value < |g.sem.wakers| && !g.sem.wakers[g.fut.value].status.GiveUp?)
  }

  ghost predicate GateInv(g: Gate) {
    Inv(g.sem) && CallsOk(g) && FutureOk(g)
  }

  lemma InitialGate(permits: nat)
    requires permits <= USIZE_MAX
    ensures GateInv(Initial(permits))
  {
    hide Inv;
    InitInv(permits);
  }

  lemma UsedUpInv(s: State, a: Action)
    requires Inv(s) && s.guards == [] && Enabled(s, a) && (a.TryAcquire? || a.Claim?)
    requires (if a.TryAcquire? then a.n else s.wakers[a.ticket].permits) <= s.total
    ensures Inv(UsedUp(s, a)) && UsedUp(s, a).guards == []
  {
    hide Inv;
    InvStep(s, a);
    var s' := Apply(s, a);
    InvStep(s', Forget(|s'.guards| - 1));
  }

  lemma SemInv(g: Gate, x: Step)
    requires GateInv(g) && Can(g, x)
    ensures Inv(Do(g, x).sem)
  {
    hide Inv, CallsOk, UsedUp, Apply;
    match x
    case Take => UsedUpInv(g.sem, TryAcquire(1, g.sem.free));
    case Join => InvStep(g.sem, Enqueue(1));
    case Redeem => UsedUpInv(g.sem, Claim(g.fut.value));
    case Leave => InvStep(g.sem, Cancel(g.fut.value));
    case Feed => InvStep(g.sem, Explicit(1));
    case Start(_, k) => InvStep(g.sem, Begin(k));
    case Work(a) => InvStep(g.sem, a);
  }

  /** What a step does to the number of permits in the gate. */
  function Change(x: Step): int {
    match x
    case Take => -1
    case Redeem => -1
    case Feed => 1
    case _ => 0
  }

  lemma PermitStep(g: Gate, x: Step)
    requires CallsOk(g) && FutureOk(g) && Can(g, x) && (x.Take? || x.Redeem?)
    ensures CallsOk(Do(g, x)) && FutureOk(Do(g, x)) && Do(g, x).sem.total == g.sem.total + Change(x)
  {
  }

  lemma QueueStep(g: Gate, x: Step)
    requires CallsOk(g) && FutureOk(g) && Can(g, x) && (x.Join? || x.Leave?)
    ensures CallsOk(Do(g, x)) && FutureOk(Do(g, x)) && Do(g, x).sem.total == g.sem.total + Change(x)
  {
  }

  lemma CallStep(g: Gate, x: Step)
    requires CallsOk(g) && FutureOk(g) && Can(g, x) && (x.Feed? || x.Start?)
    ensures CallsOk(Do(g, x)) && FutureOk(Do(g, x)) && Do(g, x).sem.total == g.sem.total + Change(x)
  {
  }

  lemma WorkStep(g: Gate, x: Step)
    requires CallsOk(g) && FutureOk(g) && Can(g, x) && (x.Work?)
    ensures CallsOk(Do(g, x)) && FutureOk(Do(g, x)) && Do(g, x).sem.total == g.sem.total + Change(x)
  {
  }

  lemma GateStep(g: Gate, x: Step)
    requires GateInv(g) && Can(g, x)
    ensures GateInv(Do(g, x)) && Do(g, x).sem.total == g.sem.total + Change(x)
  {
    hide Inv, CallsOk, FutureOk, Do, Can;
    SemInv(g, x);
    match x
    case Take => PermitStep(g, x);
    case Redeem => PermitStep(g, x);
    case Join => QueueStep(g, x);
    case Leave => QueueStep(g, x);
    case Work(_) => WorkStep(g, x);
    case _ => CallStep(g, x);
  }

  /** With no call in progress and no queued future, every permit is free for the
      taking: none is stuck behind a cancelled waiter. */
  lemma QuietGate(g: Gate)
    requires GateInv(g) && g.taker.NoCall? && g.feeder.NoCall? && g.fut.None?
    ensures g.sem.free == g.sem.total
  {
    var s := g.sem;
    assert s.lock.Idle? && s.owed == [];
    assert s.queue != [] ==> Line(s)[0] == s.queue[0];
    NothingHeld(s.wakers);
    assert Sum(s.guards) == 0 && Sum(s.owed) == 0;
  }

  lemma {:induction false} NothingHeld(ws: seq<Waker>)
    requires forall t :: 0 <= t < |ws| ==> ws[t].status.GiveUp?
    ensures Sum(Held(ws)) == 0
  {
    if ws != [] {
      NothingHeld(ws[1..]);
      assert Held(ws)[1..] == Held(ws[1..]);
    }
  }
}
