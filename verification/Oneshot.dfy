/** The one-shot channel: a sender that writes once under a mutex and then
    notifies, or is dropped unsent, and a receiver that polls. */
module Oneshot {
  import opened Options

  datatype Status = NoRecv | Recving | Received | SenderLost

  datatype Side = Neither | Tx | Rx

  datatype TxPc =
    | Open        // send not called, or not polled yet
    | Asking      // queued for the mutex
    | Inside      // has the guard
    | Wrote       // has written the item
    | Left        // has dropped the guard, still to notify
    | Sent
    | Quitting    // dropped unsent, the status still to be set
    | Quit

  datatype RxPc<T> =
    | Fresh       // not polled yet
    | Locking     // before or between polls of the mutex future
    | Looking     // has the guard
    | Parking     // found nothing; the condition variable takes the guard over
    | Enlisted    // in the condition variable's queue, guard still in hand
    | Waiting     // guard dropped
    | Relocking   // notified, wants the guard back
    | Got(item: T)
    | Failed      // reported the sender lost
    | Gone        // dropped

  datatype Notice = NoNotice | Listed | Notified

  /** `next` is the side whose future is queued for the mutex.  `polling` says that a poll of the
      receiver is under way, `checked` that it has looked at the status in this
      round, and `woken` that its task has been woken since that poll began. */
  datatype State<T> = State(
    data: Option<T>, sent: Option<T>, status: Status, holder: Side, next: Side,
    tx: TxPc, rx: RxPc<T>, notice: Notice, polling: bool, checked: bool, woken: bool)

  function Init<T>(): State<T> {
    State(None, None, NoRecv, Neither, Neither, Open, Fresh, NoNotice, false, false, true)
  }

  datatype Action<T> =
    | TxAsk | TxClaim | TxWrite(item: T) | TxUnlock | TxNotify | TxCancel | TxQuit
    | StartPoll | RxInit | RxCheck | RxLock | RxLook | RxEnlist | RxDropGuard | RxLoad | RxDrop

  predicate Between<T>(rx: RxPc<T>) {
    rx.Locking? || rx.Waiting? || rx.Relocking?
  }

  predicate Enabled<T>(s: State<T>, a: Action<T>) {
    match a
    case TxAsk => s.tx.Open?
    case TxClaim => s.tx.Asking? && s.holder == Tx
    case TxWrite(_) => s.tx.Inside?
    case TxUnlock => s.tx.Wrote?
    case TxNotify => s.tx.Left?
    case TxCancel => s.tx.Open? || s.tx.Asking?
    case TxQuit => s.tx.Quitting?
    case StartPoll => !s.polling && (s.rx.Fresh? || Between(s.rx))
    case RxInit => s.polling && s.rx.Fresh?
    case RxCheck => s.polling && !s.checked && (Between(s.rx) || s.rx.Parking?)
    case RxLock => s.polling && s.checked && (s.rx.Locking? || s.rx.Relocking?)
    case RxLook => s.polling && s.rx.Looking?
    case RxEnlist => s.polling && s.checked && s.rx.Parking?
    case RxDropGuard => s.polling && s.rx.Enlisted?
    case RxLoad => s.polling && s.checked && s.rx.Waiting?
    case RxDrop => !s.polling && !s.rx.Gone?
  }

  /** The mutex goes to the next in line, who is woken. */
  function Unlock<T>(s: State<T>): State<T> {
    s.(holder := s.next, next := Neither, woken := s.woken || s.next == Rx)
  }

  function Leave<T>(s: State<T>, x: Side): State<T> {
    if s.holder == x then Unlock(s)
    else if s.next == x then s.(next := Neither)
    else s
  }

  function Apply<T>(s: State<T>, a: Action<T>): State<T>
    requires Enabled(s, a)
  {
    match a
    case TxAsk => if s.holder.Neither? then s.(holder := Tx, tx := Inside) else s.(next := Tx, tx := Asking)
    case TxClaim => s.(tx := Inside)
    case TxWrite(item) => s.(data := Some(item), sent := Some(item), tx := Wrote)
    case TxUnlock => Unlock(s).(tx := Left)
    case TxNotify => if s.notice.Listed? then s.(notice := Notified, woken := true, tx := Sent) else s.(tx := Sent)
    case TxCancel => Leave(s, Tx).(tx := Quitting)
    case TxQuit => s.(status := SenderLost, woken := s.woken || s.status.Recving?, tx := Quit)
    case StartPoll => s.(polling := true, checked := false, woken := false)
    case RxInit =>
      if s.status.SenderLost? then s.(rx := Failed, polling := false)
      else s.(status := if s.status.NoRecv? then Recving else s.status, rx := Locking)
    case RxCheck => if s.status.SenderLost? then s.(rx := Failed, polling := false) else s.(checked := true)
    case RxLock =>
      if s.holder == Tx then s.(next := Rx, polling := false)
      else s.(holder := Rx, rx := Looking, notice := NoNotice)
    case RxLook =>
      if s.data.Some? then Unlock(s.(data := None, status := Received)).(rx := Got(s.data.value), polling := false)
      else s.(rx := Parking, checked := false)
    case RxEnlist => s.(notice := Listed, rx := Enlisted)
    case RxDropGuard => Unlock(s).(rx := Waiting)
    case RxLoad => if s.notice.Notified? then s.(rx := Relocking) else s.(polling := false)
    case RxDrop => Leave(s, Rx).(rx := Gone, notice := NoNotice)
  }

  ghost predicate Runs<T>(s: State<T>, actions: seq<Action<T>>, s': State<T>)
    decreases |actions|
  {
    if actions == [] then s' == s
    else Enabled(s, actions[0]) && Runs(Apply(s, actions[0]), actions[1..], s')
  }

  // ---------- invariants ----------

  predicate HasGuard<T>(rx: RxPc<T>) {
    rx.Looking? || rx.Parking? || rx.Enlisted?
  }

  /** Who holds the mutex, and who is in line for it. */
  ghost predicate MutexOk<T>(s: State<T>) {
    && (s.holder.Neither? ==> s.next.Neither?) && (!s.next.Neither? ==> s.holder != s.next)
    && (s.holder == Tx ==> s.tx.Inside? || s.tx.Wrote? || s.tx.Asking?)
    && (s.tx.Inside? || s.tx.Wrote? ==> s.holder == Tx)
    && (s.next == Tx ==> s.tx.Asking?) && (s.tx.Asking? ==> s.holder == Tx || s.next == Tx)
    && (HasGuard(s.rx) ==> s.holder == Rx)
    && (s.holder == Rx ==> HasGuard(s.rx) || s.rx.Locking? || s.rx.Relocking? || s.rx.Failed?)
    && (s.next == Rx ==> s.rx.Locking? || s.rx.Relocking? || s.rx.Failed?)
  }

  /** The status tells what became of the item. */
  ghost predicate StatusOk<T>(s: State<T>) {
    && (s.status.SenderLost? <==> s.tx.Quit?)
    && (s.status.NoRecv? ==> s.rx.Fresh? || s.rx.Gone?) && (s.rx.Fresh? ==> s.status.NoRecv? || s.status.SenderLost?)
    && (s.status.Received? ==> s.rx.Got? || s.rx.Gone?)
    && (s.rx.Failed? ==> s.tx.Quit?)
    && (s.sent.Some? <==> s.tx.Wrote? || s.tx.Left? || s.tx.Sent?)
    && (s.rx.Got? ==> s.status.Received?)
    && (s.data.Some? ==> s.data == s.sent) && (s.rx.Got? ==> s.sent == Some(s.rx.item) && s.data.None?)
    && (s.sent.Some? && s.data.None? ==> s.rx.Got? || s.rx.Gone?)
  }

  /** A receiver that is not being polled will be woken when there is something for it. */
  ghost predicate WakeOk<T>(s: State<T>) {
    && (s.rx.Fresh? && !s.polling ==> s.woken)
    && (s.notice.Listed? ==> s.rx.Enlisted? || s.rx.Waiting? || s.rx.Failed?)
    && (s.notice.Notified? ==> s.rx.Enlisted? || s.rx.Waiting? || s.rx.Relocking? || s.rx.Failed?)
    && (s.rx.Enlisted? || s.rx.Waiting? ==> !s.notice.NoNotice?)
    && (s.rx.Parking? || s.rx.Enlisted? ==> s.data.None?)
    && (s.notice.Listed? && s.data.Some? ==> s.tx.Wrote? || s.tx.Left?)
    && (!s.polling && s.rx.Waiting? && s.notice.Notified? ==> s.woken)
    && (!s.polling && (s.rx.Locking? || s.rx.Relocking?) ==> (s.next == Rx && s.holder == Tx) || s.woken)
    && (!s.polling && Between(s.rx) && s.status.SenderLost? ==> s.woken)
    && (s.polling && s.checked && s.status.SenderLost? ==> s.woken) && (s.polling && s.rx.Fresh? ==> !s.checked)
    && (s.polling ==> s.rx.Fresh? || Between(s.rx) || HasGuard(s.rx)) && (HasGuard(s.rx) ==> s.polling)
  }

  ghost predicate Inv<T>(s: State<T>) {
    MutexOk(s) && StatusOk(s) && WakeOk(s)
  }

  lemma MutexStep<T>(s: State<T>, a: Action<T>)
    requires MutexOk(s) && Enabled(s, a)
    ensures MutexOk(Apply(s, a))
  {
  }

  predicate OfSender<T>(a: Action<T>) {
    a.TxAsk? || a.TxClaim? || a.TxWrite? || a.TxUnlock? || a.TxNotify? || a.TxCancel? || a.TxQuit?
  }

  lemma SenderStatus<T>(s: State<T>, a: Action<T>)
    requires StatusOk(s) && Enabled(s, a) && OfSender(a)
    ensures StatusOk(Apply(s, a))
  {
  }

  lemma SenderWake<T>(s: State<T>, a: Action<T>)
    requires Inv(s) && Enabled(s, a) && OfSender(a)
    ensures WakeOk(Apply(s, a))
  {
  }

  lemma ReceiverStatus<T>(s: State<T>, a: Action<T>)
    requires Inv(s) && Enabled(s, a) && !OfSender(a)
    ensures StatusOk(Apply(s, a))
  {
  }

  lemma ReceiverWake<T>(s: State<T>, a: Action<T>)
    requires Inv(s) && Enabled(s, a) && !OfSender(a)
    ensures WakeOk(Apply(s, a))
  {
  }

  lemma InvStep<T>(s: State<T>, a: Action<T>)
    requires Inv(s) && Enabled(s, a)
    ensures Inv(Apply(s, a))
  {
    hide MutexOk, StatusOk, WakeOk, Apply, Enabled;
    MutexStep(s, a);
    if OfSender(a) {
      SenderStatus(s, a);
      SenderWake(s, a);
    } else {
      ReceiverStatus(s, a);
      ReceiverWake(s, a);
    }
  }

  lemma {:induction false} RunInv<T>(s: State<T>, actions: seq<Action<T>>, s': State<T>)
    requires Inv(s) && Runs(s, actions, s')
    ensures Inv(s')
    decreases |actions|
  {
    hide Inv, Apply, Enabled;
    if actions != [] {
      InvStep(s, actions[0]);
      RunInv(Apply(s, actions[0]), actions[1..], s');
    }
  }

  ghost predicate Reachable<T(!new)>(s: State<T>) {
    exists first: State<T>, actions :: first == Init<T>() && Runs(first, actions, s)
  }

  lemma ReachedInv<T(!new)>(s: State<T>)
    requires Reachable(s)
    ensures Inv(s)
  {
    hide Runs, Inv;
    var first: State<T>, actions :| first == Init<T>() && Runs(first, actions, s);
    InitInv<T>();
    RunInv(first, actions, s);
  }

  lemma InitInv<T>()
    ensures Inv(Init<T>())
  {
  }

  // ---------- what every run guarantees ----------

  /** What is received is what was sent, and it is out of the channel by then. */
  lemma DeliveredOnce<T(!new)>(s: State<T>)
    requires Reachable(s) && s.rx.Got?
    ensures s.sent == Some(s.rx.item) && s.data.None?
    ensures forall a :: Enabled(s, a) ==> Apply(s, a).sent == s.sent && (Apply(s, a).rx == s.rx || a.RxDrop?)
  {
    ReachedInv(s);
  }

  /** The sender is reported lost exactly when it was dropped unsent: never
      after an item was written, and always on the next poll otherwise. */
  lemma LostIsLost<T(!new)>(s: State<T>)
    requires Reachable(s)
    ensures s.rx.Failed? ==> s.tx.Quit? && s.sent.None?
    ensures s.tx.Quit? ==> s.sent.None? && s.data.None?
    ensures s.tx.Quit? && Enabled(s, RxInit) ==> Apply(s, RxInit).rx.Failed?
    ensures s.tx.Quit? && Enabled(s, RxCheck) ==> Apply(s, RxCheck).rx.Failed?
  {
    ReachedInv(s);
  }

  /** Before it waits, the receiver looks at the status again: a sender lost by then is
      reported in the same poll. */
  lemma LossSeenInPoll<T(!new)>(s: State<T>)
    requires Reachable(s) && s.tx.Quit? && s.polling && s.rx.Looking?
    ensures Enabled(s, RxLook) && Enabled(Apply(s, RxLook), RxCheck)
    ensures Apply(Apply(s, RxLook), RxCheck).rx.Failed?
  {
    ReachedInv(s);
  }

  /** Once the sender is gone unsent, a poll that begins ends in no other way than with
      that report, whatever else happens. */
  lemma PollTellsLoss<T(!new)>(s: State<T>, actions: seq<Action<T>>, s': State<T>)
    requires Reachable(s) && s.tx.Quit? && !s.polling && (s.rx.Fresh? || Between(s.rx))
    ensures Enabled(s, StartPoll)
    ensures Runs(Apply(s, StartPoll), actions, s') ==> s'.rx.Failed? || s'.rx.Gone? || (s'.polling && s'.rx == s.rx)
  {
    ReachedInv(s);
    if Runs(Apply(s, StartPoll), actions, s') {
      LossReported(Apply(s, StartPoll), actions, s');
    }
  }

  /** The poll under way has the status still to look at, and will find the sender lost. */
  predicate LossDue<T>(s: State<T>) {
    && s.tx.Quit? && s.status.SenderLost?
    && (s.rx.Failed? || s.rx.Gone? || (s.polling && !s.checked && (s.rx.Fresh? || Between(s.rx))))
  }

  lemma {:induction false} LossReported<T>(s: State<T>, actions: seq<Action<T>>, s': State<T>)
    requires LossDue(s) && Runs(s, actions, s')
    ensures LossDue(s') && (s'.rx.Failed? || s'.rx.Gone? || (s'.polling && s'.rx == s.rx))
    decreases |actions|
  {
    if actions != [] {
      assert LossDue(Apply(s, actions[0]));
      LossReported(Apply(s, actions[0]), actions[1..], s');
    }
  }

  /** A receiver between polls has a wake coming: one already made, or the one
      that the sender makes as it unlocks or notifies. */
  lemma WakeOutstanding<T(!new)>(s: State<T>)
    requires Reachable(s) && !s.polling && Between(s.rx) && (s.data.Some? || s.tx.Quit?)
    ensures s.woken || s.tx.Wrote? || s.tx.Left?
    ensures s.tx.Left? && !s.woken ==> Apply(s, TxNotify).woken
    ensures s.tx.Wrote? && !s.woken ==> Apply(Apply(s, TxUnlock), TxNotify).woken
  {
    ReachedInv(s);
  }

  /** Once `send` has completed, a poll does not end without the item. */
  lemma PollDelivers<T(!new)>(s: State<T>, a: Action<T>)
    requires Reachable(s) && s.tx.Sent? && s.data.Some? && s.polling && Enabled(s, a)
    ensures Apply(s, a).polling || (Apply(s, a).rx == Got(s.data.value) && s.data == s.sent)
  {
    ReachedInv(s);
  }

  // ---------- the item is the caller's ----------

  /** The item that the sender's write put in, from the steps alone. */
  function Written<T>(actions: seq<Action<T>>): Option<T> {
    if actions == [] then None
    else
      match actions[|actions| - 1]
      case TxWrite(item) => Some(item)
      case _ => Written(actions[..|actions| - 1])
  }

  lemma {:induction false} RunsSplit<T>(s: State<T>, actions: seq<Action<T>>, s': State<T>) returns (t: State<T>)
    requires Runs(s, actions, s') && actions != []
    ensures var n := |actions| - 1; Runs(s, actions[..n], t) && Enabled(t, actions[n]) && s' == Apply(t, actions[n])
    decreases |actions|
  {
    hide Apply, Enabled;
    var n := |actions| - 1;
    if n == 0 {
      t := s;
    } else {
      t := RunsSplit(Apply(s, actions[0]), actions[1..], s');
      assert actions[1..][..n - 1] == actions[..n][1..];
    }
  }

  lemma {:induction false} SentIsWritten<T>(first: State<T>, actions: seq<Action<T>>, s: State<T>)
    requires first == Init<T>() && Runs(first, actions, s)
    ensures s.sent == Written(actions)
    decreases |actions|
  {
    if actions == [] {
    } else {
      hide Runs;
      var t := RunsSplit(first, actions, s);
      SentIsWritten(first, actions[..|actions| - 1], t);
    }
  }

  /** Over every run: what the receiver gets is what the sender was called with. */
  lemma ReceivedIsWritten<T(!new)>(first: State<T>, actions: seq<Action<T>>, s: State<T>)
    requires first == Init<T>() && Runs(first, actions, s) && s.rx.Got?
    ensures Written(actions) == Some(s.rx.item)
  {
    hide Runs, Inv;
    SentIsWritten(first, actions, s);
    InitInv<T>();
    RunInv(first, actions, s);
    DeliveredNow(s);
  }

  lemma DeliveredNow<T>(s: State<T>)
    requires Inv(s) && s.rx.Got?
    ensures s.sent == Some(s.rx.item)
  {
  }

  // ---------- sender and receiver left to themselves ----------

  /** The receiver has neither an answer nor been dropped. */
  predicate Expecting<T>(s: State<T>) {
    !s.rx.Got? && !s.rx.Failed? && !s.rx.Gone?
  }

  predicate Leaving<T>(s: State<T>) {
    s.tx.Quitting? || s.tx.Quit?
  }

  /** The receiver's next step in a poll. */
  function PollStep<T>(s: State<T>): Action<T> {
    match s.rx
    case Fresh => RxInit
    case Looking => RxLook
    case Enlisted => RxDropGuard
    case Parking => if s.checked then RxEnlist else RxCheck
    case Waiting => if s.checked then RxLoad else RxCheck
    case _ => if s.checked then RxLock else RxCheck
  }

  /** The sender's next step. */
  function SendStep<T>(s: State<T>, item: T): Action<T> {
    match s.tx
    case Open => TxAsk
    case Asking => TxClaim
    case Inside => TxWrite(item)
    case Wrote => TxUnlock
    case Left => TxNotify
    case _ => TxQuit
  }

  /** A poll is started when it is the receiver's turn to get on: the sender has
      finished, or waits for the mutex that has been handed to the receiver. */
  function PollDue<T>(s: State<T>): bool {
    s.tx.Sent? || s.tx.Quit? || (s.tx.Asking? && s.holder == Rx)
  }

  /** A schedule: a poll runs through; the sender goes on; else the receiver is polled. */
  function Onward<T>(s: State<T>, item: T): Action<T> {
    if s.polling then PollStep(s) else if PollDue(s) then StartPoll else SendStep(s, item)
  }

  function SenderWork<T>(s: State<T>): nat {
    match s.tx
    case Open => 5
    case Asking => 4
    case Inside => 3
    case Wrote => 2
    case Left => 1
    case Quitting => 1
    case _ => 0
  }

  function PollWork<T>(s: State<T>): nat {
    match s.rx
    case Fresh => 30
    case Looking => 22
    case Parking => if s.checked then 20 else 21
    case Enlisted => if s.notice.Notified? then 28 else 19
    case Waiting => (if s.notice.Notified? then 25 else 16) + (if s.checked then 0 else 1)
    case _ => if s.checked then 23 else 24
  }

  /** How far it is to the receiver's answer. */
  function Remaining<T>(s: State<T>): nat {
    var late := s.tx.Quit? && s.rx != Fresh && (s.checked || s.rx.Looking? || s.rx.Enlisted?);
    1000 * SenderWork(s)
    + if s.polling then (if late then 200 else 0) + PollWork(s)
      else if s.holder == Rx || s.tx.Sent? || s.tx.Quit? then 100 else 0
  }

  lemma OnwardEnabled<T>(s: State<T>, item: T)
    requires Inv(s) && Expecting(s)
    ensures Enabled(s, Onward(s, item)) && (Onward(s, item).StartPoll? ==> s.woken)
  {
  }

  /** What a step of the schedule keeps, and that it gets nearer the answer. */
  ghost predicate Nearer<T>(s: State<T>, s': State<T>, item: T) {
    && (Expecting(s') ==> Remaining(s') < Remaining(s)) && !s'.rx.Gone? && (Leaving(s') <==> Leaving(s))
    && (s.sent.Some? ==> s'.sent == s.sent) && (s.sent.None? ==> s'.sent.None? || s'.sent == Some(item))
  }

  lemma PollNearer<T>(s: State<T>, item: T)
    requires Inv(s) && Expecting(s) && s.polling && Enabled(s, PollStep(s))
    ensures Nearer(s, Apply(s, PollStep(s)), item)
  {
  }

  lemma SendNearer<T>(s: State<T>, item: T)
    requires Inv(s) && Expecting(s) && !s.polling && Enabled(s, Onward(s, item))
    ensures Nearer(s, Apply(s, Onward(s, item)), item)
  {
  }

  /** A run of the schedule: only its steps, and polls only of a receiver that has
      been woken. */
  ghost predicate Scheduled<T>(s: State<T>, actions: seq<Action<T>>, item: T)
    decreases |actions|
  {
    actions != [] ==>
      && actions[0] == Onward(s, item) && Enabled(s, actions[0]) && (actions[0].StartPoll? ==> s.woken)
      && Scheduled(Apply(s, actions[0]), actions[1..], item)
  }

  lemma {:induction false} Concludes<T>(s: State<T>, item: T) returns (actions: seq<Action<T>>, s': State<T>)
    requires Inv(s) && !s.rx.Gone?
    ensures Runs(s, actions, s') && Scheduled(s, actions, item) && (s'.rx.Got? || s'.rx.Failed?) && Inv(s')
    ensures (Leaving(s') <==> Leaving(s)) && (s.sent.Some? ==> s'.sent == s.sent)
    ensures s.sent.None? ==> s'.sent.None? || s'.sent == Some(item)
    decreases if Expecting(s) then 1 + Remaining(s) else 0
  {
    hide Inv, Apply, Enabled, Onward, PollStep, Remaining;
    if !Expecting(s) {
      actions, s' := [], s;
    } else {
      var a := Onward(s, item);
      OnwardEnabled(s, item);
      OnwardNearer(s, item);
      InvStep(s, a);
      var rest;
      rest, s' := Concludes(Apply(s, a), item);
      actions := [a] + rest;
      assert actions[1..] == rest;
    }
  }

  lemma OnwardNearer<T>(s: State<T>, item: T)
    requires Inv(s) && Expecting(s) && Enabled(s, Onward(s, item))
    ensures Nearer(s, Apply(s, Onward(s, item)), item)
  {
    hide Inv, Apply, Enabled, PollStep, Nearer;
    if s.polling {
      PollNearer(s, item);
    } else {
      SendNearer(s, item);
    }
  }

  lemma Answer<T>(s: State<T>)
    requires Inv(s) && (s.rx.Got? || s.rx.Failed?)
    ensures Leaving(s) ==> s.rx.Failed?
    ensures !Leaving(s) ==> s.rx.Got? && s.sent == Some(s.rx.item)
  {
  }

  /** From every reachable state, sender and receiver left to themselves come to an end,
      the receiver being polled only when it has been woken.  If the sender has not
      been dropped, the receiver gets the item; `item` is what is sent if nothing has
      been written yet. */
  lemma SendArrives<T(!new)>(s: State<T>, item: T) returns (actions: seq<Action<T>>, s': State<T>)
    requires Reachable(s) && Expecting(s) && !Leaving(s)
    ensures Runs(s, actions, s') && Scheduled(s, actions, item)
    ensures s'.rx == Got(if s.sent.Some? then s.sent.value else item)
  {
    hide Inv, Runs, Scheduled;
    ReachedInv(s);
    actions, s' := Concludes(s, item);
    Answer(s');
  }

  /** If the sender is dropped unsent, the receiver is told. */
  lemma DropArrives<T(!new)>(s: State<T>, item: T) returns (actions: seq<Action<T>>, s': State<T>)
    requires Reachable(s) && Expecting(s) && (s.tx.Open? || s.tx.Asking?)
    ensures Enabled(s, TxCancel)
    ensures Runs(Apply(s, TxCancel), actions, s') && Scheduled(Apply(s, TxCancel), actions, item) && s'.rx.Failed?
  {
    hide Inv, Runs, Scheduled;
    ReachedInv(s);
    InvStep(s, TxCancel);
    actions, s' := Concludes(Apply(s, TxCancel), item);
    Answer(s');
  }

  /** If the receiver is dropped, the sender still completes, by its own steps. */
  lemma {:induction false} SendsAlone<T>(s: State<T>, item: T) returns (actions: seq<Action<T>>, s': State<T>)
    requires Inv(s) && s.rx.Gone? && !Leaving(s)
    ensures Runs(s, actions, s') && (forall i :: 0 <= i < |actions| ==> OfSender(actions[i])) && s'.tx.Sent?
    decreases SenderWork(s)
  {
    if s.tx.Sent? {
      actions, s' := [], s;
    } else {
      var a := SendStep(s, item);
      InvStep(s, a);
      var rest;
      rest, s' := SendsAlone(Apply(s, a), item);
      actions := [a] + rest;
      assert actions[1..] == rest;
    }
  }

  lemma ReceiverDropped<T(!new)>(s: State<T>, item: T) returns (actions: seq<Action<T>>, s': State<T>)
    requires Reachable(s) && !s.polling && !s.rx.Gone? && !Leaving(s)
    ensures Enabled(s, RxDrop)
    ensures Runs(Apply(s, RxDrop), actions, s') && s'.tx.Sent?
    ensures forall i :: 0 <= i < |actions| ==> OfSender(actions[i])
  {
    hide Inv, Runs;
    ReachedInv(s);
    InvStep(s, RxDrop);
    actions, s' := SendsAlone(Apply(s, RxDrop), item);
  }

  // ---------- what wakes the receiver ----------

  /** The step wakes the receiver's task: the mutex is handed to it, it is notified, or
      it is told that the sender is gone. */
  predicate WakesReceiver<T>(s: State<T>, a: Action<T>) {
    match a
    case TxUnlock => s.next == Rx
    case TxCancel => s.holder == Tx && s.next == Rx
    case TxNotify => s.notice.Listed?
    case TxQuit => s.status.Recving?
    case _ => false
  }

  /** Whether the receiver has been woken since its last poll began. */
  ghost function WokenSince<T>(s: State<T>, actions: seq<Action<T>>, woken: bool): bool
    decreases |actions|
  {
    if actions == [] || !Enabled(s, actions[0]) then woken
    else
      var w := !actions[0].StartPoll? && (woken || WakesReceiver(s, actions[0]));
      WokenSince(Apply(s, actions[0]), actions[1..], w)
  }

  lemma WokenStep<T>(s: State<T>, a: Action<T>)
    requires Inv(s) && Enabled(s, a)
    ensures Apply(s, a).woken <==> !a.StartPoll? && (s.woken || WakesReceiver(s, a))
  {
  }

  /** Nothing else wakes it: over every run the flag is what these steps make it. */
  lemma {:induction false} WokenByWakes<T>(s: State<T>, actions: seq<Action<T>>, s': State<T>)
    requires Inv(s) && Runs(s, actions, s')
    ensures s'.woken == WokenSince(s, actions, s.woken)
    decreases |actions|
  {
    hide Inv, Apply, Enabled, WakesReceiver;
    if actions != [] {
      WokenStep(s, actions[0]);
      InvStep(s, actions[0]);
      WokenByWakes(Apply(s, actions[0]), actions[1..], s');
    }
  }
}
