/** The bounded channel between one sender and one receiver: a ring of slots,
    one gate of permits for empty slots and one for full slots. */
module SpscChannel {
  import opened Arithmetic
  import opened Semaphore
  import opened Gate
  import opened ChannelEnd
  import opened Options

  /** `sent` and `received` record all items so far. */
  datatype Channel<T> = Channel(
    size: nat, buffer: seq<Option<T>>, tx: End, rx: End, sendIndex: nat, recvIndex: nat,
    sent: seq<T>, received: seq<T>)

  function New<T>(size: nat): Channel<T> {
    Channel(size, seq(size, _ => None), Fresh(size), Fresh(0), 0, 0, [], [])
  }

  datatype Move<T> =
    | TxStep(step: EndStep) | RxStep(step: EndStep)
    | WriteSlot(data: T) | TakeSlot
    | FeedRx | FeedTx          // the other end's gate gets its permit: release is called
    | TxReturn | RxReturn      // that release has returned
    | CloseTx | CloseRx        // drop of an end

  predicate CanMove<T>(c: Channel<T>, v: Move<T>) {
    match v
    case TxStep(x) => CanEnd(c.tx, x) && (x.TryReserve? ==> !c.tx.lost)
    case RxStep(x) => CanEnd(c.rx, x)
    case WriteSlot(_) => c.tx.pc.Holding? && c.size == |c.buffer| >= 1
    case TakeSlot => c.rx.pc.Holding? && c.size == |c.buffer| >= 1
    case FeedRx => c.tx.pc.Feeding? && Can(c.rx.gate, Feed)
    case FeedTx => c.rx.pc.Feeding? && Can(c.tx.gate, Feed)
    case TxReturn => c.tx.pc.Fed? && c.rx.gate.feeder.NoCall?
    case RxReturn => c.rx.pc.Fed? && c.tx.gate.feeder.NoCall?
    case CloseTx => c.tx.pc.Ready?
    case CloseRx => c.rx.pc.Ready?
  }

  function Moved<T>(c: Channel<T>, v: Move<T>): Channel<T>
    requires CanMove(c, v)
  {
    match v
    case TxStep(x) => c.(tx := DoEnd(c.tx, x))
    case RxStep(x) => c.(rx := DoEnd(c.rx, x))
    case WriteSlot(data) =>
      var j := c.sendIndex % c.size;
      c.(buffer := c.buffer[j := Some(data)], sendIndex := c.sendIndex + 1, sent := c.sent + [data],
         tx := c.tx.(pc := Feeding))
    case TakeSlot =>
      var j := c.recvIndex % c.size;
      c.(buffer := c.buffer[j := None], recvIndex := c.recvIndex + 1,
         received := if c.buffer[j].Some? then c.received + [c.buffer[j].value] else c.received,
         rx := c.rx.(pc := Feeding))
    case FeedRx => c.(tx := c.tx.(pc := Fed), rx := c.rx.(gate := Do(c.rx.gate, Feed)))
    case FeedTx => c.(rx := c.rx.(pc := Fed), tx := c.tx.(gate := Do(c.tx.gate, Feed)))
    case TxReturn => c.(tx := c.tx.(pc := Ready))
    case RxReturn => c.(rx := c.rx.(pc := Ready))
    case CloseTx => c.(tx := c.tx.(pc := Closed), rx := c.rx.(word := DropWord))
    case CloseRx => c.(rx := c.rx.(pc := Closed), tx := c.tx.(word := DropWord))
  }

  ghost predicate Runs<T>(c: Channel<T>, moves: seq<Move<T>>, c': Channel<T>)
    decreases |moves|
  {
    if moves == [] then c' == c
    else CanMove(c, moves[0]) && Runs(Moved(c, moves[0]), moves[1..], c')
  }

  // ---------- invariants ----------

  function Pending(e: End): nat {
    if e.pc.Feeding? then 1 else 0
  }

  /** Full slots are the receiver's permits, empty ones the sender's. */
  ghost predicate Counted<T>(c: Channel<T>) {
    && c.recvIndex <= c.sendIndex <= c.recvIndex + c.size
    && c.rx.gate.sem.total + InHand(c.rx) + Pending(c.tx) == c.sendIndex - c.recvIndex
    && c.tx.gate.sem.total + InHand(c.tx) + Pending(c.rx) == c.size - (c.sendIndex - c.recvIndex)
  }

  /** The slot that index `i` falls on holds item `i` once it is sent. */
  ghost predicate SlotOk<T>(c: Channel<T>, i: nat)
    requires 1 <= c.size == |c.buffer| && c.sendIndex == |c.sent|
  {
    c.buffer[i % c.size] == if i < c.sendIndex then Some(c.sent[i]) else None
  }

  ghost predicate Ring<T>(c: Channel<T>) {
    && 1 <= c.size == |c.buffer| && c.size <= USIZE_MAX && c.sendIndex == |c.sent| && c.recvIndex <= c.sendIndex
    && c.received == c.sent[..c.recvIndex]
    && (forall i :: c.recvIndex <= i < c.recvIndex + c.size ==> SlotOk(c, i))
  }

  /** Each end's word tells whether the other is gone, and no end leaves a release behind. */
  ghost predicate Linked<T>(c: Channel<T>) {
    && (c.rx.word.DropWord? <==> c.tx.pc.Closed?) && (c.tx.word.DropWord? <==> c.rx.pc.Closed?)
    && (!c.rx.gate.feeder.NoCall? ==> c.tx.pc.Fed?) && (!c.tx.gate.feeder.NoCall? ==> c.rx.pc.Fed?)
  }

  ghost predicate ChannelInv<T>(c: Channel<T>) {
    EndInv(c.tx) && EndInv(c.rx) && Counted(c) && Ring(c) && Linked(c)
  }

  lemma NewInv<T>(size: nat)
    requires 1 <= size <= USIZE_MAX
    ensures ChannelInv(New<T>(size))
  {
    hide GateInv;
    InitialGate(size);
    InitialGate(0);
    assert forall i :: 0 <= i < size ==> SlotOk(New<T>(size), i);
  }

  lemma Wrap(i: nat, n: nat)
    requires n >= 1
    ensures (i + n) % n == i % n
  {
    Euclid(i, n);
    Distribute(i / n, 1, 0, n);
    Quotient(i + n, i / n + 1, i % n, n);
  }

  lemma Apart(i: nat, j: nat, n: nat)
    requires i < j < i + n
    ensures i % n != j % n
  {
    var q, r := i / n, i % n;
    Euclid(i, n);
    if r + (j - i) < n {
      Quotient(j, q, r + (j - i), n);
    } else {
      Distribute(q, 1, 0, n);
      Quotient(j, q + 1, r + (j - i) - n, n);
    }
  }

  lemma WriteKeeps<T>(c: Channel<T>, data: T)
    requires Counted(c) && Ring(c) && c.tx.pc.Holding?
    ensures Ring(Moved(c, WriteSlot(data))) && Counted(Moved(c, WriteSlot(data)))
  {
    var c' := Moved(c, WriteSlot(data));
    assert SlotOk(c, c.sendIndex);
    forall i | c.recvIndex <= i < c.recvIndex + c.size
      ensures SlotOk(c', i)
    {
      assert SlotOk(c, i);
      if i < c.sendIndex {
        Apart(i, c.sendIndex, c.size);
      } else if i > c.sendIndex {
        Apart(c.sendIndex, i, c.size);
      }
    }
  }

  lemma TakeKeeps<T>(c: Channel<T>)
    requires Counted(c) && Ring(c) && c.rx.pc.Holding?
    ensures Ring(Moved(c, TakeSlot)) && Counted(Moved(c, TakeSlot))
  {
    var c' := Moved(c, TakeSlot);
    assert SlotOk(c, c.recvIndex);
    assert c'.received == c.sent[..c.recvIndex + 1];
    forall i | c'.recvIndex <= i < c'.recvIndex + c.size
      ensures SlotOk(c', i)
    {
      if i == c.recvIndex + c.size {
        Wrap(c.recvIndex, c.size);
      } else {
        assert SlotOk(c, i);
        Apart(c.recvIndex, i, c.size);
      }
    }
  }

  lemma RingKept<T>(c: Channel<T>, c': Channel<T>)
    requires Ring(c) && c' == c.(tx := c'.tx, rx := c'.rx)
    ensures Ring(c')
  {
    forall i | c.recvIndex <= i < c.recvIndex + c.size
      ensures SlotOk(c', i)
    {
      assert SlotOk(c, i);
    }
  }

  /** Moves that change only where an end stands, or who knows of a drop. */
  lemma PcKeeps<T>(c: Channel<T>, v: Move<T>)
    requires ChannelInv(c) && CanMove(c, v) && (v.TxReturn? || v.RxReturn? || v.CloseTx? || v.CloseRx?)
    ensures ChannelInv(Moved(c, v))
  {
    hide GateInv, Ring;
    RingKept(c, Moved(c, v));
  }

  lemma FeedKeeps(e: End)
    requires EndInv(e) && Can(e.gate, Feed)
    ensures EndInv(e.(gate := Do(e.gate, Feed))) && Do(e.gate, Feed).sem.total == e.gate.sem.total + 1
  {
    hide Inv, CallsOk, FutureOk;
    GateStep(e.gate, Feed);
  }

  lemma StepKeeps<T>(c: Channel<T>, v: Move<T>)
    requires ChannelInv(c) && CanMove(c, v) && (v.TxStep? || v.RxStep?)
    ensures ChannelInv(Moved(c, v))
  {
    hide EndInv, Ring, CanEnd, DoEnd, InHand;
    RingKept(c, Moved(c, v));
    match v
    case TxStep(x) => EndKeeps(c.tx, x);
    case RxStep(x) => EndKeeps(c.rx, x);
  }

  lemma KeepsChannel<T>(c: Channel<T>, v: Move<T>)
    requires ChannelInv(c) && CanMove(c, v)
    ensures ChannelInv(Moved(c, v))
  {
    hide GateInv, Ring, Can, Do;
    match v
    case TxStep(_) => StepKeeps(c, v);
    case RxStep(_) => StepKeeps(c, v);
    case WriteSlot(data) => WriteKeeps(c, data);
    case TakeSlot => TakeKeeps(c);
    case FeedRx => FeedKeeps(c.rx); RingKept(c, Moved(c, v));
    case FeedTx => FeedKeeps(c.tx); RingKept(c, Moved(c, v));
    case _ => PcKeeps(c, v);
  }

  lemma {:induction false} RunKeeps<T>(c: Channel<T>, moves: seq<Move<T>>, c': Channel<T>)
    requires ChannelInv(c) && Runs(c, moves, c')
    ensures ChannelInv(c')
    decreases |moves|
  {
    hide ChannelInv, CanMove, Moved;
    if moves != [] {
      KeepsChannel(c, moves[0]);
      RunKeeps(Moved(c, moves[0]), moves[1..], c');
    }
  }

  // ---------- what every run guarantees ----------

  ghost predicate Reachable<T(!new)>(c: Channel<T>) {
    exists size, moves :: 1 <= size <= USIZE_MAX && Runs(New<T>(size), moves, c)
  }

  lemma ReachedInv<T(!new)>(c: Channel<T>)
    requires Reachable(c)
    ensures ChannelInv(c)
  {
    hide ChannelInv, CanMove, Moved;
    var size, moves :| 1 <= size <= USIZE_MAX && Runs(New<T>(size), moves, c);
    NewInv<T>(size);
    RunKeeps(New<T>(size), moves, c);
  }

  /** The data that the sender was called with, in order, and how often the receiver
      took something: read off the moves alone. */
  function Passed<T>(moves: seq<Move<T>>): seq<T> {
    if moves == [] then []
    else (if moves[0].WriteSlot? then [moves[0].data] else []) + Passed(moves[1..])
  }

  function Taken<T>(moves: seq<Move<T>>): nat {
    if moves == [] then 0 else (if moves[0].TakeSlot? then 1 else 0) + Taken(moves[1..])
  }

  lemma {:induction false} AsCalled<T>(c: Channel<T>, moves: seq<Move<T>>, c': Channel<T>)
    requires ChannelInv(c) && Runs(c, moves, c')
    ensures c'.sent == c.sent + Passed(moves) && |c'.received| == |c.received| + Taken(moves)
    decreases |moves|
  {
    hide ChannelInv, CanMove, Moved;
    if moves != [] {
      OneCall(c, moves[0]);
      KeepsChannel(c, moves[0]);
      AsCalled(Moved(c, moves[0]), moves[1..], c');
    }
  }

  lemma OneCall<T>(c: Channel<T>, v: Move<T>)
    requires ChannelInv(c) && CanMove(c, v)
    ensures Moved(c, v).sent == c.sent + if v.WriteSlot? then [v.data] else []
    ensures |Moved(c, v).received| == |c.received| + if v.TakeSlot? then 1 else 0
  {
    hide EndInv, DoEnd, CanEnd, Can, Do;
    if v.TakeSlot? {
      assert SlotOk(c, c.recvIndex);
    }
  }

  /** Whatever is sent, received and cancelled: what the receiver takes is, in order,
      what the sender was called with, never more than `size` items are under way, a
      write always hits an empty slot and a receive the slot of the next item. */
  lemma InOrder<T(!new)>(size: nat, moves: seq<Move<T>>, c: Channel<T>)
    requires 1 <= size <= USIZE_MAX && Runs(New<T>(size), moves, c)
    ensures Taken(moves) <= |Passed(moves)| <= Taken(moves) + size && c.received == Passed(moves)[..Taken(moves)]
    ensures |c.buffer| == c.size == size
    ensures c.tx.pc.Holding? ==> c.buffer[c.sendIndex % size].None?
    ensures c.rx.pc.Holding? ==>
      Taken(moves) < |Passed(moves)| && c.buffer[c.recvIndex % size] == Some(Passed(moves)[Taken(moves)])
  {
    hide ChannelInv, CanMove, Moved, Runs, Passed, Taken;
    NewInv<T>(size);
    RunKeeps(New<T>(size), moves, c);
    AsCalled(New<T>(size), moves, c);
    SizeKept(New<T>(size), moves, c);
    RingOf(c);
  }

  lemma RingOf<T>(c: Channel<T>)
    requires ChannelInv(c)
    ensures c.received <= c.sent && |c.sent| <= |c.received| + c.size && 1 <= c.size == |c.buffer|
    ensures c.tx.pc.Holding? ==> c.buffer[c.sendIndex % c.size].None?
    ensures c.rx.pc.Holding? ==>
      |c.received| < |c.sent| && c.buffer[c.recvIndex % c.size] == Some(c.sent[|c.received|])
  {
    hide GateInv;
    assert c.tx.pc.Holding? ==> SlotOk(c, c.sendIndex);
    assert c.rx.pc.Holding? ==> SlotOk(c, c.recvIndex);
  }

  lemma {:induction false} SizeKept<T>(c: Channel<T>, moves: seq<Move<T>>, c': Channel<T>)
    requires Runs(c, moves, c')
    ensures c'.size == c.size
    decreases |moves|
  {
    hide DoEnd, CanEnd, Can, Do;
    if moves != [] {
      SizeKept(Moved(c, moves[0]), moves[1..], c');
    }
  }

  /** Whether an end has been dropped, from the moves alone. */
  function Dropped<T>(moves: seq<Move<T>>, ofSender: bool): bool {
    moves != [] && ((if ofSender then moves[0].CloseTx? else moves[0].CloseRx?) || Dropped(moves[1..], ofSender))
  }

  lemma OneClose<T>(c: Channel<T>, v: Move<T>)
    requires CanMove(c, v)
    ensures Moved(c, v).tx.pc.Closed? <==> c.tx.pc.Closed? || v.CloseTx?
    ensures Moved(c, v).rx.pc.Closed? <==> c.rx.pc.Closed? || v.CloseRx?
  {
    hide Do, Can;
  }

  /** An end is gone exactly when it has been dropped. */
  lemma {:induction false} ClosedByDrop<T>(c: Channel<T>, moves: seq<Move<T>>, c': Channel<T>)
    requires Runs(c, moves, c')
    ensures c'.tx.pc.Closed? <==> c.tx.pc.Closed? || Dropped(moves, true)
    ensures c'.rx.pc.Closed? <==> c.rx.pc.Closed? || Dropped(moves, false)
    decreases |moves|
  {
    hide CanMove, Moved;
    if moves != [] {
      OneClose(c, moves[0]);
      ClosedByDrop(Moved(c, moves[0]), moves[1..], c');
    }
  }

  lemma CanFeed<T>(c: Channel<T>)
    requires ChannelInv(c)
    ensures c.tx.pc.Feeding? ==> CanMove(c, FeedRx)
    ensures c.rx.pc.Feeding? ==> CanMove(c, FeedTx)
  {
    hide GateInv;
  }

  /** The end that has used its slot is never kept from releasing the other's permit. */
  lemma FeedNeverBlocked<T(!new)>(c: Channel<T>)
    requires Reachable(c)
    ensures c.tx.pc.Feeding? ==> CanMove(c, FeedRx)
    ensures c.rx.pc.Feeding? ==> CanMove(c, FeedTx)
  {
    hide ChannelInv;
    ReachedInv(c);
    CanFeed(c);
  }

  /** When `recv` knows that the sender is gone and finds no permit, it reports
      the sender lost: by then every item sent has been received. */
  lemma SenderLostAfterLastItem<T(!new)>(c: Channel<T>)
    requires Reachable(c) && c.rx.pc.Ready? && c.rx.lost && c.rx.gate.sem.free < 1
    ensures c.received == c.sent && c.tx.pc.Closed?
  {
    hide GateInv;
    ReachedInv(c);
    QuietGate(c.rx.gate);
  }

  /** ... and as long as one is left, the attempt succeeds. */
  lemma LostSenderStillDelivers<T(!new)>(c: Channel<T>)
    requires Reachable(c) && c.rx.pc.Ready? && c.rx.lost && c.received != c.sent
    ensures CanMove(c, RxStep(TryReserve))
  {
    hide GateInv;
    ReachedInv(c);
    QuietGate(c.rx.gate);
  }

  /** An end without a call under way can be dropped, and the other's next call is told at
      once, before it waits. */
  lemma DropIsTold<T(!new)>(c: Channel<T>)
    requires Reachable(c)
    ensures c.tx.pc.Ready? ==> CanMove(c, CloseTx)
    ensures c.rx.pc.Ready? ==> CanMove(c, CloseRx)
    ensures c.tx.pc.Ready? && c.rx.pc.Ready? ==>
      var d, e := Moved(c, CloseTx), Moved(c, CloseRx);
      && CanMove(d, RxStep(Reserve)) && Moved(d, RxStep(Reserve)).rx == d.rx.(lost := true)
      && CanMove(e, TxStep(Reserve)) && Moved(e, TxStep(Reserve)).tx == e.tx.(lost := true)
  {
    hide GateInv;
    ReachedInv(c);
  }

  /** The sender has been told that the receiver is gone, and has no send under way. */
  ghost predicate TxTold<T>(c: Channel<T>) {
    c.tx.lost && (c.tx.pc.Ready? || c.tx.pc.Closed?)
  }

  /** The receiver has been told that the sender is gone, and is not waiting. */
  ghost predicate RxTold<T>(c: Channel<T>) {
    c.rx.lost && Resting(c.rx.pc)
  }

  lemma ToldStep<T>(c: Channel<T>, v: Move<T>)
    requires CanMove(c, v)
    ensures TxTold(c) ==> TxTold(Moved(c, v)) && !v.WriteSlot?
    ensures RxTold(c) ==> RxTold(Moved(c, v))
  {
    hide Can, Do;
  }

  lemma {:induction false} ToldRun<T>(c: Channel<T>, moves: seq<Move<T>>, c': Channel<T>)
    requires Runs(c, moves, c')
    ensures TxTold(c) ==> TxTold(c') && Passed(moves) == []
    ensures RxTold(c) ==> RxTold(c')
    decreases |moves|
  {
    hide CanMove, Moved, TxTold, RxTold;
    if moves != [] {
      ToldStep(c, moves[0]);
      ToldRun(Moved(c, moves[0]), moves[1..], c');
    }
  }

  /** `try_send` can find the receiver gone exactly when it is, and from then on nothing
      is sent, whatever is called. */
  lemma TrySendTold<T(!new)>(c: Channel<T>, moves: seq<Move<T>>, c': Channel<T>)
    requires Reachable(c) && c.tx.pc.Ready?
    ensures CanMove(c, TxStep(Observe)) <==> c.rx.pc.Closed?
    ensures c.rx.pc.Closed? && Runs(Moved(c, TxStep(Observe)), moves, c') ==> Passed(moves) == [] && c'.tx.lost
  {
    hide GateInv;
    ReachedInv(c);
    if c.rx.pc.Closed? && Runs(Moved(c, TxStep(Observe)), moves, c') {
      ToldRun(Moved(c, TxStep(Observe)), moves, c');
    }
  }

  /** `try_recv` can find the sender gone exactly when it is, and from then on no receive
      waits. */
  lemma TryReceiveTold<T(!new)>(c: Channel<T>, moves: seq<Move<T>>, c': Channel<T>)
    requires Reachable(c) && c.rx.pc.Ready?
    ensures CanMove(c, RxStep(Observe)) <==> c.tx.pc.Closed?
    ensures c.tx.pc.Closed? && Runs(Moved(c, RxStep(Observe)), moves, c') ==> Resting(c'.rx.pc) && c'.rx.lost
  {
    hide GateInv;
    ReachedInv(c);
    if c.tx.pc.Closed? && Runs(Moved(c, RxStep(Observe)), moves, c') {
      ToldRun(Moved(c, RxStep(Observe)), moves, c');
    }
  }
}
