/** An end of a channel gets on: release calls on its gate run to their end, and then
    whoever reserves a permit gets it, or learns that the other end is gone. */
module EndProgress {
  import opened Semaphore
  import opened Gate
  import opened ChannelEnd
  import opened Sums

  // ---------- release calls on a gate run to their end ----------

  predicate OfCalls(x: Step) {
    x.Start? || x.Work?
  }

  ghost predicate GateRuns(g: Gate, steps: seq<Step>, g': Gate)
    decreases |steps|
  {
    if steps == [] then g' == g else Can(g, steps[0]) && GateRuns(Do(g, steps[0]), steps[1..], g')
  }

  predicate Quiet(g: Gate) {
    g.taker.NoCall? && g.feeder.NoCall?
  }

  /** The next step of the calls under way. */
  function CallStep(g: Gate): Step {
    match g.sem.lock
    case Idle => Start(g.feeder.Owing?, 0)
    case Releasing => Step.Work(if g.sem.queue == [] then Finish else Inspect)
    case Granting(_) => Step.Work(Grant)
    case Waking(_) => Step.Work(WakeTask)
  }

  lemma CallStepCan(g: Gate)
    requires GateInv(g) && !Quiet(g)
    ensures Can(g, CallStep(g)) && OfCalls(CallStep(g))
  {
    assert Line(g.sem) != [] ==> Line(g.sem)[0] < |g.sem.wakers|;
  }

  lemma CallStepLowers(g: Gate)
    requires Can(g, CallStep(g))
    ensures var g' := Do(g, CallStep(g));
      && (|g'.sem.owed| < |g.sem.owed|
          || (|g'.sem.owed| == |g.sem.owed| && Semaphore.Work(g'.sem) < Semaphore.Work(g.sem)))
  {
  }

  lemma {:induction false} Drains(g: Gate) returns (steps: seq<Step>, g': Gate)
    requires GateInv(g)
    ensures GateRuns(g, steps, g') && (forall i :: 0 <= i < |steps| ==> OfCalls(steps[i]))
    ensures GateInv(g') && Quiet(g') && g'.fut == g.fut && g'.sem.total == g.sem.total
    decreases |g.sem.owed|, Semaphore.Work(g.sem)
  {
    hide GateInv, Can, Do, CallStep;
    if Quiet(g) {
      steps, g' := [], g;
    } else {
      var x := CallStep(g);
      CallStepCan(g);
      CallStepLowers(g);
      GateStep(g, x);
      TakerQuiet(g, x);
      var rest;
      rest, g' := Drains(Do(g, x));
      steps := [x] + rest;
      assert steps[1..] == rest;
    }
  }

  /** In a quiet gate with a permit, a queued future has been granted it. */
  lemma QuietGranted(g: Gate)
    requires GateInv(g) && Quiet(g) && g.fut.Some? && g.sem.total >= 1 && !g.sem.wakers[g.fut.value].claimed
    ensures Can(g, Redeem)
  {
    var s, t := g.sem, g.fut.value;
    assert s.lock.Idle? && s.owed == [];
    if s.wakers[t].status.Waiting? {
      assert t in Line(s);
      OthersHoldNothing(s.wakers);
      assert false;
    }
  }

  lemma {:induction false} OthersHoldNothing(ws: seq<Waker>)
    requires forall t :: 0 <= t < |ws| ==> !ws[t].status.Acquired?
    ensures Sum(Held(ws)) == 0
  {
    if ws != [] {
      OthersHoldNothing(ws[1..]);
      assert Held(ws)[1..] == Held(ws[1..]);
    }
  }

  // ---------- an end that reserves comes to hold a permit ----------

  ghost predicate EndRuns(e: End, steps: seq<EndStep>, e': End)
    decreases |steps|
  {
    if steps == [] then e' == e else CanEnd(e, steps[0]) && EndRuns(DoEnd(e, steps[0]), steps[1..], e')
  }

  lemma {:induction false} EndRunsOn(e: End, steps: seq<EndStep>, e': End, more: seq<EndStep>, e'': End)
    requires EndRuns(e, steps, e') && EndRuns(e', more, e'')
    ensures EndRuns(e, steps + more, e'')
    decreases |steps|
  {
    hide CanEnd, DoEnd;
    if steps == [] {
      assert steps + more == more;
    } else {
      EndRunsOn(DoEnd(e, steps[0]), steps[1..], e', more, e'');
      assert (steps + more)[1..] == steps[1..] + more;
    }
  }

  lemma {:induction false} CallsLift(e: End, steps: seq<Step>, g': Gate) returns (lifted: seq<EndStep>)
    requires GateRuns(e.gate, steps, g') && forall i :: 0 <= i < |steps| ==> OfCalls(steps[i])
    ensures EndRuns(e, lifted, e.(gate := g')) && forall i :: 0 <= i < |lifted| ==> lifted[i].Call?
    decreases |steps|
  {
    hide Can, Do, OfCalls;
    if steps == [] {
      lifted := [];
    } else {
      IsCall(e, steps[0]);
      assert forall i :: 0 <= i < |steps[1..]| ==> steps[1..][i] == steps[i + 1];
      var rest := CallsLift(e.(gate := Do(e.gate, steps[0])), steps[1..], g');
      lifted := [Call(steps[0])] + rest;
      assert lifted[1..] == rest;
    }
  }

  lemma IsCall(e: End, x: Step)
    requires OfCalls(x) && Can(e.gate, x)
    ensures CanEnd(e, Call(x)) && DoEnd(e, Call(x)) == e.(gate := Do(e.gate, x))
  {
  }

  /** The release calls on an end's gate run to their end; nothing else changes. */
  lemma DrainsEnd(e: End) returns (steps: seq<EndStep>, e': End)
    requires EndInv(e)
    ensures EndRuns(e, steps, e') && forall i :: 0 <= i < |steps| ==> steps[i].Call?
    ensures EndInv(e') && Quiet(e'.gate) && e' == e.(gate := e'.gate)
    ensures e'.gate.fut == e.gate.fut && e'.gate.sem.total == e.gate.sem.total
  {
    hide GateInv, GateRuns, CanEnd, DoEnd;
    var calls, g' := Drains(e.gate);
    steps := CallsLift(e, calls, g');
    e' := e.(gate := g');
    EndRunsInv(e, steps, e');
  }

  lemma {:induction false} EndRunsInv(e: End, steps: seq<EndStep>, e': End)
    requires EndInv(e) && EndRuns(e, steps, e')
    ensures EndInv(e')
    decreases |steps|
  {
    hide CanEnd, DoEnd, EndInv, Faithful;
    if steps != [] {
      EndKeeps(e, steps[0]);
      EndRunsInv(DoEnd(e, steps[0]), steps[1..], e');
    }
  }

  /** A call that reserves a permit is under way or can begin. */
  predicate Reserving(pc: Pc) {
    pc.Ready? || pc.Acquiring? || pc.Polling? || pc.Got? || pc.Unwinding? || pc.Holding?
  }

  /** Its next step, when no release call is in its way and there is a permit. */
  function ReserveStep(e: End): EndStep {
    match e.pc
    case Ready => if e.lost then TryReserve else Reserve
    case Acquiring => Check
    case Polling => if e.gate.fut.None? then PollTake else PollRedeem
    case Got => Reset
    case _ => if e.gate.fut.Some? then DropFuture else Unwound
  }

  function Distance(e: End): nat {
    match e.pc
    case Ready => if e.lost then 10 else 20
    case Acquiring => 18
    case Polling => 16
    case Got => 8
    case Unwinding(ok) =>
      (if ok then 6 else if e.lost then 11 else 22) + (if e.gate.fut.Some? then 1 else 0)
    case _ => 0
  }

  lemma ReserveStepCan(e: End)
    requires EndInv(e) && Quiet(e.gate) && Reserving(e.pc) && !e.pc.Holding? && e.gate.sem.total + InHand(e) >= 1
    ensures CanEnd(e, ReserveStep(e))
  {
    if e.gate.fut.None? {
      QuietGate(e.gate);
    }
    if e.pc.Polling? && e.gate.fut.Some? {
      QuietGranted(e.gate);
    }
  }

  lemma ReserveStepNearer(e: End)
    requires EndInv(e) && Reserving(e.pc) && !e.pc.Holding? && CanEnd(e, ReserveStep(e))
    ensures var e' := DoEnd(e, ReserveStep(e));
      Reserving(e'.pc) && Distance(e') < Distance(e) && e'.gate.sem.total + InHand(e') == e.gate.sem.total + InHand(e)
      && e'.word.DropWord? == e.word.DropWord?
  {
    hide GateInv;
    EndKeeps(e, ReserveStep(e));
  }

  /** The steps that such a call takes; the sender does not try at once. */
  predicate OfReserve(x: EndStep, dropped: bool) {
    !x.Cancel? && !x.Observe? && (x.TryReserve? ==> dropped)
  }

  /** Whoever reserves a permit of a gate that has one comes to hold it. */
  lemma {:induction false} Reserves(e: End) returns (steps: seq<EndStep>, e': End)
    requires EndInv(e) && Reserving(e.pc) && e.gate.sem.total + InHand(e) >= 1
    ensures EndRuns(e, steps, e') && e'.pc.Holding? && EndInv(e')
    ensures forall i :: 0 <= i < |steps| ==> OfReserve(steps[i], e.word.DropWord?)
    decreases Distance(e)
  {
    hide GateInv, CanEnd, DoEnd, ReserveStep, WordOk;
    var calls, e1 := DrainsEnd(e);
    if e1.pc.Holding? {
      return calls, e1;
    }
    var x := ReserveStep(e1);
    ReserveStepCan(e1);
    ReserveStepNearer(e1);
    EndKeeps(e1, x);
    TriesWhenDropped(e1);
    var rest;
    rest, e' := Reserves(DoEnd(e1, x));
    assert ([x] + rest)[1..] == rest;
    EndRunsOn(e, calls, e1, [x] + rest, e');
    steps := calls + ([x] + rest);
  }

  lemma TriesWhenDropped(e: End)
    requires EndInv(e) && Reserving(e.pc) && !e.pc.Holding?
    ensures OfReserve(ReserveStep(e), e.word.DropWord?)
  {
  }

  /** An end that has been told of the other's drop, or will be, and has no permit. */
  predicate Forsaken(e: End) {
    e.word.DropWord? && Reserving(e.pc) && InHand(e) == 0
  }

  function LearnStep(e: End): EndStep {
    match e.pc
    case Ready => Reserve
    case Acquiring => Check
    case Polling => if e.gate.fut.None? then PollJoin else PollPending
    case _ => if e.gate.fut.Some? then DropFuture else Unwound
  }

  function ToldIn(e: End): nat {
    match e.pc
    case Polling => if e.gate.fut.None? then 14 else 12
    case Acquiring => 10
    case Unwinding(_) => 6 + if e.gate.fut.Some? then 1 else 0
    case _ => 4
  }

  lemma LearnStepGoesOn(e: End)
    requires EndInv(e) && Quiet(e.gate) && Forsaken(e) && !(e.pc.Ready? && e.lost)
    ensures CanEnd(e, LearnStep(e))
    ensures var e' := DoEnd(e, LearnStep(e)); Forsaken(e') && ((e'.pc.Ready? && e'.lost) || ToldIn(e') < ToldIn(e))
  {
  }

  /** It comes to rest knowing that the other end is lost. */
  lemma {:induction false} LearnsLoss(e: End) returns (steps: seq<EndStep>, e': End)
    requires EndInv(e) && Forsaken(e)
    ensures EndRuns(e, steps, e') && e'.pc.Ready? && e'.lost
    ensures forall i :: 0 <= i < |steps| ==> OfReserve(steps[i], false)
    decreases if e.pc.Ready? && e.lost then 0 else ToldIn(e)
  {
    hide GateInv, CanEnd, DoEnd, LearnStep, WordOk;
    if e.pc.Ready? && e.lost {
      return [], e;
    }
    var calls, e1 := DrainsEnd(e);
    var x := LearnStep(e1);
    LearnStepGoesOn(e1);
    EndKeeps(e1, x);
    var rest;
    rest, e' := LearnsLoss(DoEnd(e1, x));
    assert ([x] + rest)[1..] == rest;
    EndRunsOn(e, calls, e1, [x] + rest, e');
    steps := calls + ([x] + rest);
    LearnStepKind(e1);
  }

  lemma LearnStepKind(e: End)
    ensures OfReserve(LearnStep(e), false)
  {
  }

  /** With no permit to be had, reserving queues a future and waits. */
  lemma WaitsWhenEmpty(e: End) returns (e': End)
    requires EndInv(e) && Quiet(e.gate) && e.pc.Ready? && e.word.IdleWord? && e.gate.sem.total == 0
    ensures EndRuns(e, [Reserve, Check, PollJoin], e') && e'.pc.Acquiring? && e'.gate.fut.Some?
  {
    var e1 := DoEnd(e, Reserve);
    var e2 := DoEnd(e1, Check);
    e' := DoEnd(e2, PollJoin);
    assert [Reserve, Check, PollJoin][1..] == [Check, PollJoin] && [Check, PollJoin][1..] == [PollJoin];
    assert [PollJoin][1..] == [];
    assert EndRuns(e2, [PollJoin], e') && EndRuns(e1, [Check, PollJoin], e');
  }

  /** A wait that is cancelled ends with the end at rest and no permit gone. */
  lemma {:induction false} Unwinds(e: End) returns (steps: seq<EndStep>, e': End)
    requires EndInv(e) && e.pc == Unwinding(false)
    ensures EndRuns(e, steps, e') && e'.pc.Ready? && e'.gate.fut.None? && e'.gate.sem.total == e.gate.sem.total
    decreases e.gate.fut.Some?
  {
    hide GateInv;
    var calls, e1 := DrainsEnd(e);
    var x := if e1.gate.fut.Some? then DropFuture else Unwound;
    Leaves(e1);
    EndKeeps(e1, x);
    var e2 := DoEnd(e1, x);
    var rest;
    if x.DropFuture? {
      rest, e' := Unwinds(e2);
    } else {
      rest, e' := [], e2;
    }
    assert ([x] + rest)[1..] == rest;
    hide CanEnd, DoEnd;
    EndRunsOn(e, calls, e1, [x] + rest, e');
    steps := calls + ([x] + rest);
  }

  lemma Leaves(e: End)
    requires EndInv(e) && Quiet(e.gate)
    ensures e.gate.fut.Some? ==> Can(e.gate, Leave) && Do(e.gate, Leave).fut.None?
  {
  }

  lemma CancelReturns(e: End) returns (steps: seq<EndStep>, e': End)
    requires EndInv(e) && e.pc.Acquiring? && e.gate.taker.NoCall?
    ensures CanEnd(e, EndStep.Cancel)
    ensures EndRuns(e, [EndStep.Cancel] + steps, e') && e'.pc.Ready? && e'.gate.fut.None?
      && e'.gate.sem.total == e.gate.sem.total
  {
    hide GateInv;
    EndKeeps(e, EndStep.Cancel);
    steps, e' := Unwinds(DoEnd(e, EndStep.Cancel));
    assert ([EndStep.Cancel] + steps)[1..] == steps;
  }
}
