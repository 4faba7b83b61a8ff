/** One end of the single-producer single-consumer channel: how it reserves a
    permit of its gate, at once or by waiting, and how a wait is cancelled. */
module ChannelEnd {
  import opened Gate

  /** The state word through which the other end's drop is noticed. */
  datatype Word = IdleWord | WaitingWord | DropWord

  datatype Pc =
    | Ready                    // no call in progress
    | Acquiring                // between polls of the reserve future
    | Polling                  // inside a poll, after the state word was checked
    | Got                      // the permit is in hand, the state word still to be reset
    | Unwinding(ok: bool)      // the semaphore future is being dropped
    | Holding                  // about to touch the slot
    | Feeding                  // about to release on the other gate
    | Fed                      // running that release
    | Closed                   // dropped

  datatype End = End(gate: Gate, word: Word, pc: Pc, lost: bool)

  function Fresh(permits: nat): End {
    End(Initial(permits), IdleWord, Ready, false)
  }

  datatype EndStep =
    | TryReserve | Observe                       // try_send, try_recv, and recv once the sender is lost
    | Reserve | Check                            // the future starts; a poll looks at the state word
    | PollTake | PollJoin | PollRedeem | PollPending
    | Reset | DropFuture | Unwound               // success, failure and cancellation clean up
    | Cancel                                     // the pending future is dropped
    | Call(step: Step)                           // a release call on this gate goes on, whoever's it is

  predicate CanEnd(e: End, x: EndStep) {
    match x
    case TryReserve => e.pc.Ready? && Can(e.gate, Take)
    case Observe => e.pc.Ready? && e.word.DropWord?
    case Reserve => e.pc.Ready? && !e.lost
    case Check => e.pc.Acquiring? && e.gate.taker.NoCall?
    case PollTake => e.pc.Polling? && Can(e.gate, Take)
    case PollJoin => e.pc.Polling? && Can(e.gate, Join)
    case PollRedeem => e.pc.Polling? && Can(e.gate, Redeem)
    case PollPending => e.pc.Polling? && e.gate.fut.Some?
    case Reset => e.pc.Got?
    case DropFuture => e.pc.Unwinding? && Can(e.gate, Leave)
    case Unwound => e.pc.Unwinding? && e.gate.fut.None? && e.gate.taker.NoCall?
    case Cancel => e.pc.Acquiring? && e.gate.taker.NoCall?
    case Call(step) => (step.Start? || step.Work?) && Can(e.gate, step)
  }

  function DoEnd(e: End, x: EndStep): End
    requires CanEnd(e, x)
  {
    match x
    case TryReserve => e.(gate := Do(e.gate, Take), pc := Holding)
    case Observe => e.(lost := true)
    case Reserve => if e.word.IdleWord? then e.(word := WaitingWord, pc := Acquiring) else e.(lost := true)
    case Check => if e.word.DropWord? then e.(lost := true, pc := Unwinding(false)) else e.(pc := Polling)
    case PollTake => e.(gate := Do(e.gate, Take), pc := Got)
    case PollJoin => e.(gate := Do(e.gate, Join), pc := Acquiring)
    case PollRedeem => e.(gate := Do(e.gate, Redeem), pc := Got)
    case PollPending => e.(pc := Acquiring)
    case Reset => e.(word := if e.word.WaitingWord? then IdleWord else e.word, pc := Unwinding(true))
    case DropFuture => e.(gate := Do(e.gate, Leave))
    case Unwound => e.(pc := if e.pc.ok then Holding else Ready)
    case Cancel => e.(word := if e.word.WaitingWord? then IdleWord else e.word, pc := Unwinding(false))
    case Call(step) => e.(gate := Do(e.gate, step))
  }

  predicate Resting(pc: Pc) {
    pc.Ready? || pc.Holding? || pc.Feeding? || pc.Fed? || pc.Closed?
  }

  predicate Waits(pc: Pc) {
    pc.Acquiring? || pc.Polling? || pc.Got?
  }

  /** Permits that the end has taken and not yet used. */
  function InHand(e: End): nat {
    if e.pc.Got? || e.pc == Unwinding(true) || e.pc.Holding? then 1 else 0
  }

  ghost predicate WordOk(e: End) {
    && (Resting(e.pc) ==> e.gate.fut.None? && e.gate.taker.NoCall?)
    && (e.word.WaitingWord? ==> Waits(e.pc)) && (e.word.IdleWord? ==> !Waits(e.pc))
    && (e.lost ==> e.word.DropWord?)
    && (e.pc.Acquiring? || e.pc.Polling? ==> NotRedeemed(e.gate))
  }

  /** The taker's future, if it has one, has not handed out its guard. */
  ghost predicate NotRedeemed(g: Gate) {
    g.fut.Some? ==> g.fut.value < |g.sem.wakers| && !g.sem.wakers[g.fut.value].claimed
  }

  ghost predicate EndInv(e: End) {
    GateInv(e.gate) && WordOk(e)
  }

  /** What a step of one end keeps: permits in the gate and in hand together,
      and everything the other end relies on. */
  ghost predicate Faithful(e: End, e': End) {
    && e'.gate.sem.total + InHand(e') == e.gate.sem.total + InHand(e)
    && (e'.word.DropWord? <==> e.word.DropWord?)
    && (e'.pc.Feeding? <==> e.pc.Feeding?) && (e'.pc.Fed? <==> e.pc.Fed?) && (e'.pc.Closed? <==> e.pc.Closed?)
    && (e.gate.feeder.NoCall? ==> e'.gate.feeder.NoCall?)
  }

  lemma FeederQuiet(g: Gate, x: Step)
    requires Can(g, x) && !x.Feed? && !(x.Start? && x.ofFeeder)
    ensures g.feeder.NoCall? ==> Do(g, x).feeder.NoCall?
  {
  }

  lemma TakerQuiet(g: Gate, x: Step)
    requires Can(g, x) && (x.Start? || x.Work?)
    ensures g.taker.NoCall? ==> Do(g, x).taker.NoCall?
    ensures g.feeder.NoCall? ==> Do(g, x).feeder.NoCall?
    ensures Do(g, x).fut == g.fut && (NotRedeemed(g) ==> NotRedeemed(Do(g, x)))
  {
  }

  lemma JoinUnclaimed(g: Gate)
    requires Can(g, Join)
    ensures NotRedeemed(Do(g, Join))
  {
  }

  lemma EndKeeps(e: End, x: EndStep)
    requires EndInv(e) && CanEnd(e, x)
    ensures EndInv(DoEnd(e, x)) && Faithful(e, DoEnd(e, x))
  {
    hide GateInv, Can, Do;
    match x
    case TryReserve => GateStep(e.gate, Take); TakeQuiet(e.gate, Take);
    case PollTake => GateStep(e.gate, Take); TakeQuiet(e.gate, Take);
    case PollJoin => GateStep(e.gate, Join); FeederQuiet(e.gate, Join); JoinUnclaimed(e.gate);
    case PollRedeem => GateStep(e.gate, Redeem); TakeQuiet(e.gate, Redeem);
    case DropFuture => GateStep(e.gate, Leave); FeederQuiet(e.gate, Leave);
    case Call(step) => GateStep(e.gate, step); TakerQuiet(e.gate, step);
    case _ =>
  }

  lemma TakeQuiet(g: Gate, x: Step)
    requires Can(g, x) && (x.Take? || x.Redeem?)
    ensures Do(g, x).feeder == g.feeder && Do(g, x).taker == g.taker && Do(g, x).fut == g.fut
  {
  }
}
