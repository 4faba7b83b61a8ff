/** The channel gets on: with an item under way a receive completes, with a free slot a
    send does, and a receiver whose sender is gone is told, by moves of the call itself
    and of release calls that have begun. */
module SpscProgress {
  import Gate
  import opened ChannelEnd
  import opened EndProgress
  import opened SpscChannel

  lemma {:induction false} RunsOn<T>(c: Channel<T>, moves: seq<Move<T>>, c': Channel<T>, more: seq<Move<T>>,
      c'': Channel<T>)
    requires Runs(c, moves, c') && Runs(c', more, c'')
    ensures Runs(c, moves + more, c'')
    decreases |moves|
  {
    hide CanMove, Moved;
    if moves == [] {
      assert moves + more == more;
    } else {
      RunsOn(Moved(c, moves[0]), moves[1..], c', more, c'');
      assert (moves + more)[1..] == moves[1..] + more;
    }
  }

  lemma RunsOne<T>(c: Channel<T>, v: Move<T>)
    requires CanMove(c, v)
    ensures Runs(c, [v], Moved(c, v))
  {
    hide CanMove, Moved;
    assert [v][1..] == [];
  }

  /** Steps of the receiver's end, as moves of the channel. */
  function AsRx<T>(steps: seq<EndStep>): seq<Move<T>> {
    seq(|steps|, i requires 0 <= i < |steps| => RxStep(steps[i]))
  }

  function AsTx<T>(steps: seq<EndStep>): seq<Move<T>> {
    seq(|steps|, i requires 0 <= i < |steps| => TxStep(steps[i]))
  }

  lemma {:induction false} LiftRx<T>(c: Channel<T>, steps: seq<EndStep>, e': End)
    requires EndRuns(c.rx, steps, e')
    ensures Runs(c, AsRx(steps), c.(rx := e'))
    decreases |steps|
  {
    hide CanEnd, DoEnd;
    if steps != [] {
      LiftRx(c.(rx := DoEnd(c.rx, steps[0])), steps[1..], e');
      assert AsRx<T>(steps)[1..] == AsRx(steps[1..]);
    }
  }

  lemma {:induction false} LiftTx<T>(c: Channel<T>, steps: seq<EndStep>, e': End)
    requires EndRuns(c.tx, steps, e') && forall i :: 0 <= i < |steps| ==> OfReserve(steps[i], false)
    ensures Runs(c, AsTx(steps), c.(tx := e'))
    decreases |steps|
  {
    hide CanEnd, DoEnd;
    if steps != [] {
      assert forall i :: 0 <= i < |steps[1..]| ==> steps[1..][i] == steps[i + 1];
      LiftTx(c.(tx := DoEnd(c.tx, steps[0])), steps[1..], e');
      assert AsTx<T>(steps)[1..] == AsTx(steps[1..]);
    }
  }

  /** Moves of a receive call, and of release calls on the way. */
  predicate OfReceive<T>(v: Move<T>) {
    v.RxStep? || v.FeedRx? || v.TakeSlot? || v.FeedTx? || (v.TxStep? && v.step.Call?) || v.RxReturn?
  }

  predicate OfSend<T>(v: Move<T>) {
    v.TxStep? || v.FeedTx? || v.WriteSlot? || v.FeedRx? || (v.RxStep? && v.step.Call?) || v.TxReturn?
  }

  /** What the other end has taken out of, or put into, the ring is on its way here. */
  lemma Delivered<T>(c: Channel<T>) returns (moves: seq<Move<T>>, c': Channel<T>)
    requires ChannelInv(c)
    ensures Runs(c, moves, c') && ChannelInv(c') && !c'.tx.pc.Feeding?
      && (forall i :: 0 <= i < |moves| ==> moves[i].FeedRx?)
    ensures c'.rx.pc == c.rx.pc && c'.sent == c.sent && c'.received == c.received
  {
    hide Gate.GateInv, Ring;
    if c.tx.pc.Feeding? {
      CanFeed(c);
      KeepsChannel(c, FeedRx);
      RunsOne(c, FeedRx);
      moves, c' := [FeedRx], Moved(c, FeedRx);
    } else {
      moves, c' := [], c;
    }
  }

  /** The receiver comes to hold a permit. */
  lemma RxHolds<T>(c: Channel<T>) returns (moves: seq<Move<T>>, c': Channel<T>)
    requires ChannelInv(c) && Reserving(c.rx.pc) && |c.received| < |c.sent|
    ensures Runs(c, moves, c') && ChannelInv(c') && c'.rx.pc.Holding?
      && (forall i :: 0 <= i < |moves| ==> OfReceive(moves[i]))
    ensures c'.sent == c.sent && c'.received == c.received
  {
    hide EndInv, Ring;
    var m1, c1 := Delivered(c);
    RingOf(c1);
    Outstanding(c1);
    var steps, e' := Reserves(c1.rx);
    LiftRx(c1, steps, e');
    c' := c1.(rx := e');
    moves := m1 + AsRx(steps);
    hide Runs, ChannelInv;
    RunKeeps(c1, AsRx(steps), c');
    RunsOn(c, m1, c1, AsRx(steps), c');
  }

  lemma Outstanding<T>(c: Channel<T>)
    requires ChannelInv(c)
    ensures c.rx.gate.sem.total + InHand(c.rx) + Pending(c.tx) == |c.sent| - |c.received|
    ensures c.tx.gate.sem.total + InHand(c.tx) + Pending(c.rx) == c.size - (|c.sent| - |c.received|)
  {
    hide EndInv;
  }

  /** Having used its slot, the receiver releases the sender's permit and returns. */
  lemma RxReturns<T>(c: Channel<T>) returns (moves: seq<Move<T>>, c': Channel<T>)
    requires ChannelInv(c) && c.rx.pc.Feeding?
    ensures Runs(c, moves, c') && c'.rx.pc.Ready? && forall i :: 0 <= i < |moves| ==> OfReceive(moves[i])
    ensures c'.sent == c.sent && c'.received == c.received
  {
    hide Gate.GateInv, Ring;
    CanFeed(c);
    KeepsChannel(c, FeedTx);
    RunsOne(c, FeedTx);
    var c1 := Moved(c, FeedTx);
    var steps, e' := DrainsEnd(c1.tx);
    LiftTx(c1, steps, e');
    var c2 := c1.(tx := e');
    RunsOne(c2, RxReturn);
    c' := Moved(c2, RxReturn);
    moves := [FeedTx] + (AsTx(steps) + [RxReturn]);
    hide Runs, ChannelInv;
    RunsOn(c1, AsTx(steps), c2, [RxReturn], c');
    RunsOn(c, [FeedTx], c1, AsTx(steps) + [RxReturn], c');
  }

  /** As long as an item is left, a receive that is under way or begins completes with
      the next one, by its own moves and those of release calls. */
  lemma ReceiveCompletes<T(!new)>(c: Channel<T>) returns (moves: seq<Move<T>>, c': Channel<T>)
    requires Reachable(c) && Reserving(c.rx.pc) && |c.received| < |c.sent|
    ensures Runs(c, moves, c') && c'.rx.pc.Ready? && forall i :: 0 <= i < |moves| ==> OfReceive(moves[i])
    ensures c'.sent == c.sent && c'.received == c.received + [c.sent[|c.received|]]
  {
    hide Runs, Ring, EndInv;
    ReachedInv(c);
    var m1, c1 := RxHolds(c);
    RingSize(c1);
    var c2 := Moved(c1, TakeSlot);
    TakesNext(c1);
    KeepsChannel(c1, TakeSlot);
    RunsOne(c1, TakeSlot);
    var m3;
    m3, c' := RxReturns(c2);
    RunsOn(c1, [TakeSlot], c2, m3, c');
    RunsOn(c, m1, c1, [TakeSlot] + m3, c');
    moves := m1 + ([TakeSlot] + m3);
  }

  lemma RingSize<T>(c: Channel<T>)
    requires ChannelInv(c)
    ensures c.size == |c.buffer| >= 1
  {
    hide EndInv;
  }

  lemma TakesNext<T>(c: Channel<T>)
    requires ChannelInv(c) && c.rx.pc.Holding? && CanMove(c, TakeSlot) && |c.received| < |c.sent|
    ensures Moved(c, TakeSlot).received == c.received + [c.sent[|c.received|]] && Moved(c, TakeSlot).sent == c.sent
    ensures Moved(c, TakeSlot).rx.pc.Feeding?
  {
    hide EndInv;
    assert SlotOk(c, c.recvIndex);
  }

  lemma TxHolds<T>(c: Channel<T>) returns (moves: seq<Move<T>>, c': Channel<T>)
    requires ChannelInv(c) && Reserving(c.tx.pc) && |c.sent| - |c.received| < c.size && !c.rx.pc.Closed?
    ensures Runs(c, moves, c') && ChannelInv(c') && c'.tx.pc.Holding?
      && (forall i :: 0 <= i < |moves| ==> OfSend(moves[i]))
    ensures c'.sent == c.sent && c'.received == c.received
  {
    hide Gate.GateInv, Ring;
    var m1, c1 := Returned(c);
    Outstanding(c1);
    var steps, e' := Reserves(c1.tx);
    LiftTx(c1, steps, e');
    c' := c1.(tx := e');
    moves := m1 + AsTx(steps);
    hide Runs, ChannelInv;
    RunKeeps(c1, AsTx(steps), c');
    RunsOn(c, m1, c1, AsTx(steps), c');
  }

  lemma Returned<T>(c: Channel<T>) returns (moves: seq<Move<T>>, c': Channel<T>)
    requires ChannelInv(c)
    ensures Runs(c, moves, c') && ChannelInv(c') && !c'.rx.pc.Feeding?
      && (forall i :: 0 <= i < |moves| ==> moves[i].FeedTx?)
    ensures c'.tx.pc == c.tx.pc && c'.sent == c.sent && c'.received == c.received && c'.size == c.size
    ensures c'.rx.pc.Closed? <==> c.rx.pc.Closed?
  {
    hide Gate.GateInv, Ring;
    if c.rx.pc.Feeding? {
      CanFeed(c);
      KeepsChannel(c, FeedTx);
      RunsOne(c, FeedTx);
      moves, c' := [FeedTx], Moved(c, FeedTx);
    } else {
      moves, c' := [], c;
    }
  }

  lemma TxReturns<T>(c: Channel<T>) returns (moves: seq<Move<T>>, c': Channel<T>)
    requires ChannelInv(c) && c.tx.pc.Feeding?
    ensures Runs(c, moves, c') && c'.tx.pc.Ready? && forall i :: 0 <= i < |moves| ==> OfSend(moves[i])
    ensures c'.sent == c.sent && c'.received == c.received
  {
    hide Gate.GateInv, Ring;
    CanFeed(c);
    KeepsChannel(c, FeedRx);
    RunsOne(c, FeedRx);
    var c1 := Moved(c, FeedRx);
    var steps, e' := DrainsEnd(c1.rx);
    LiftRx(c1, steps, e');
    var c2 := c1.(rx := e');
    RunsOne(c2, TxReturn);
    c' := Moved(c2, TxReturn);
    moves := [FeedRx] + (AsRx(steps) + [TxReturn]);
    hide Runs, ChannelInv;
    RunsOn(c1, AsRx(steps), c2, [TxReturn], c');
    RunsOn(c, [FeedRx], c1, AsRx(steps) + [TxReturn], c');
  }

  /** As long as a slot is free and the receiver is there, a send that is under way or
      begins completes, and its data is the last item sent. */
  lemma SendCompletes<T(!new)>(c: Channel<T>, data: T) returns (moves: seq<Move<T>>, c': Channel<T>)
    requires Reachable(c) && Reserving(c.tx.pc) && |c.sent| - |c.received| < c.size && !c.rx.pc.Closed?
    ensures Runs(c, moves, c') && c'.tx.pc.Ready? && forall i :: 0 <= i < |moves| ==> OfSend(moves[i])
    ensures c'.sent == c.sent + [data] && c'.received == c.received
  {
    hide Runs, Ring, EndInv;
    ReachedInv(c);
    var m1, c1 := TxHolds(c);
    RingSize(c1);
    var c2 := Moved(c1, WriteSlot(data));
    KeepsChannel(c1, WriteSlot(data));
    RunsOne(c1, WriteSlot(data));
    var m3;
    m3, c' := TxReturns(c2);
    RunsOn(c1, [WriteSlot(data)], c2, m3, c');
    RunsOn(c, m1, c1, [WriteSlot(data)] + m3, c');
    moves := m1 + ([WriteSlot(data)] + m3);
  }

  /** When the sender is gone and everything has been received, a receive that is under
      way or begins comes to know it. */
  lemma LossIsTold<T(!new)>(c: Channel<T>) returns (moves: seq<Move<T>>, c': Channel<T>)
    requires Reachable(c) && Reserving(c.rx.pc) && c.tx.pc.Closed? && c.received == c.sent
    ensures Runs(c, moves, c') && c'.rx.pc.Ready? && c'.rx.lost && forall i :: 0 <= i < |moves| ==> moves[i].RxStep?
  {
    hide Runs, Ring, Gate.GateInv;
    ReachedInv(c);
    Outstanding(c);
    var steps, e' := LearnsLoss(c.rx);
    LiftRx(c, steps, e');
    moves, c' := AsRx(steps), c.(rx := e');
  }
}
