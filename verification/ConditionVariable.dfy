/** The condition variable: waiters in a queue, notifications that pop them, and
    waiters that are dropped before or after they have been notified. */
module ConditionVariable {
  import opened Sums
  import opened Options

  datatype Status = Waiting | Acquired | GivenUp

  datatype Place = InWait | Relocking | Done | Dropped

  datatype Waiter = Waiter(status: Status, place: Place)

  /** A notification under way: `all` for `wake_all`; `hand` is the popped waiter
      that it is about to select. */
  datatype Call = Call(all: bool, hand: Option<nat>)

  /** `selected` counts successful selections, `passed` the notifications that
      dropped waiters passed on, `consumed` the waiters that returned to their caller. */
  datatype State = State(
    queue: seq<nat>, waiters: seq<Waiter>, calls: map<nat, Call>, next: nat, selected: nat, passed: nat, consumed: nat)

  const INIT := State([], [], map[], 0, 0, 0, 0)

  datatype Action =
    | Join | Notice(waiter: nat) | Relock(waiter: nat) | Drop(waiter: nat)     // waiters
    | Notify(all: bool) | Pop(call: nat) | Select(call: nat) | GiveUp(call: nat) // notifications

  predicate Enabled(s: State, a: Action) {
    match a
    case Join => true
    case Notice(w) => w < |s.waiters| && s.waiters[w] == Waiter(Acquired, InWait)
    case Relock(w) => w < |s.waiters| && s.waiters[w].place.Relocking?
    case Drop(w) => w < |s.waiters| && (s.waiters[w].place.InWait? || s.waiters[w].place.Relocking?)
    case Notify(_) => true
    case Pop(k) => k in s.calls && s.calls[k].hand.None? && s.queue != []
    case Select(k) => k in s.calls && s.calls[k].hand.Some? && s.calls[k].hand.value < |s.waiters|
    case GiveUp(k) => k in s.calls && s.calls[k].hand.None? && s.queue == []
  }

  /** A notification that was meant for the waiter and has not been consumed. */
  function Held(w: Waiter): nat {
    if w.place.Relocking? || (w.place.InWait? && w.status.Acquired?) then 1 else 0
  }

  function Apply(s: State, a: Action): State
    requires Enabled(s, a)
  {
    match a
    case Join => s.(queue := s.queue + [|s.waiters|], waiters := s.waiters + [Waiter(Waiting, InWait)])
    case Notice(w) => s.(waiters := s.waiters[w := s.waiters[w].(place := Relocking)])
    case Relock(w) => s.(waiters := s.waiters[w := s.waiters[w].(place := Done)], consumed := s.consumed + 1)
    case Drop(w) =>
      var x := s.waiters[w];
      var s' := s.(waiters := s.waiters[w := Waiter(if x.place.InWait? then GivenUp else x.status, Dropped)]);
      if Held(x) == 1 then s'.(calls := s.calls[s.next := Call(false, None)], next := s.next + 1,
        passed := s.passed + 1) else s'
    case Notify(all) => s.(calls := s.calls[s.next := Call(all, None)], next := s.next + 1)
    case Pop(k) => s.(calls := s.calls[k := s.calls[k].(hand := Some(s.queue[0]))], queue := s.queue[1..])
    case Select(k) =>
      var w := s.calls[k].hand.value;
      if s.waiters[w].status.Waiting?
      then s.(waiters := s.waiters[w := s.waiters[w].(status := Acquired)], selected := s.selected + 1,
              calls := if s.calls[k].all then s.calls[k := s.calls[k].(hand := None)] else s.calls - {k})
      else s.(calls := s.calls[k := s.calls[k].(hand := None)])
    case GiveUp(k) => s.(calls := s.calls - {k})
  }

  ghost predicate Runs(s: State, actions: seq<Action>, s': State)
    decreases |actions|
  {
    if actions == [] then s' == s
    else Enabled(s, actions[0]) && Runs(Apply(s, actions[0]), actions[1..], s')
  }

  // ---------- invariants ----------

  function HeldAll(ws: seq<Waiter>): seq<nat> {
    seq(|ws|, i requires 0 <= i < |ws| => Held(ws[i]))
  }

  /** Every selection is consumed, passed on, or still with a live waiter. */
  ghost predicate Accounted(s: State) {
    s.selected == s.consumed + s.passed + Sum(HeldAll(s.waiters))
  }

  ghost predicate InHand(s: State, w: nat) {
    exists k :: k in s.calls && s.calls[k].hand == Some(w)
  }

  /** Who waits is in the queue or in the hand of a notification; who has been
      selected is in neither. */
  ghost predicate Findable(s: State) {
    && (forall w :: 0 <= w < |s.waiters| && s.waiters[w].status.Waiting? ==> w in s.queue || InHand(s, w))
    && (forall w :: 0 <= w < |s.waiters| && s.waiters[w].status.Waiting? ==> s.waiters[w].place.InWait?)
    && (forall i :: 0 <= i < |s.queue| ==> s.queue[i] < |s.waiters|)
    && (forall k :: k in s.calls && s.calls[k].hand.Some? ==> s.calls[k].hand.value < |s.waiters|)
  }

  /** No waiter is in line twice. */
  ghost predicate Once(s: State) {
    && (forall k :: k in s.calls ==> k < s.next)
    && (forall i, j :: 0 <= i < j < |s.queue| ==> s.queue[i] < s.queue[j])
    && (forall k, i :: k in s.calls && s.calls[k].hand.Some? && 0 <= i < |s.queue| ==>
      s.calls[k].hand.value < s.queue[i])
  }

  ghost predicate Inv(s: State) {
    Accounted(s) && Findable(s) && Once(s)
  }

  lemma InitInv()
    ensures Inv(INIT)
  {
    assert HeldAll([]) == [];
  }

  lemma HeldUpdate(ws: seq<Waiter>, w: nat, x: Waiter)
    requires w < |ws|
    ensures Sum(HeldAll(ws[w := x])) == Sum(HeldAll(ws)) - Held(ws[w]) + Held(x)
  {
    assert HeldAll(ws[w := x]) == HeldAll(ws)[w := Held(x)];
    SumUpdate(HeldAll(ws), w, Held(x));
  }

  lemma HeldAppend(ws: seq<Waiter>, x: Waiter)
    ensures Sum(HeldAll(ws + [x])) == Sum(HeldAll(ws)) + Held(x)
  {
    assert HeldAll(ws + [x]) == HeldAll(ws) + [Held(x)];
    SumAppend(HeldAll(ws), Held(x));
  }

  lemma AccountedStep(s: State, a: Action)
    requires Inv(s) && Enabled(s, a)
    ensures Accounted(Apply(s, a))
  {
    hide Sum, HeldAll, Once, InHand;
    match a
    case Join => HeldAppend(s.waiters, Waiter(Waiting, InWait));
    case Notice(w) => HeldUpdate(s.waiters, w, Apply(s, a).waiters[w]);
    case Relock(w) => HeldUpdate(s.waiters, w, Apply(s, a).waiters[w]);
    case Drop(w) => HeldUpdate(s.waiters, w, Apply(s, a).waiters[w]);
    case Select(k) => HeldUpdate(s.waiters, s.calls[k].hand.value,
      s.waiters[s.calls[k].hand.value].(status := Acquired));
    case _ =>
  }

  lemma FindableStep(s: State, a: Action)
    requires Inv(s) && Enabled(s, a)
    ensures Findable(Apply(s, a))
  {
    hide Accounted, Once;
    var s' := Apply(s, a);
    forall w | 0 <= w < |s'.waiters| && s'.waiters[w].status.Waiting?
      ensures w in s'.queue || InHand(s', w)
    {
      StillFound(s, a, w);
    }
    hide InHand;
  }

  lemma StillFound(s: State, a: Action, w: nat)
    requires Findable(s) && Once(s) && Enabled(s, a)
    requires w < |Apply(s, a).waiters| && Apply(s, a).waiters[w].status.Waiting?
    ensures w in Apply(s, a).queue || InHand(Apply(s, a), w)
  {
    var s' := Apply(s, a);
    if w == |s.waiters| {
      assert s'.queue[|s.queue|] == w;
    } else if w in s.queue {
      StillQueued(s, a, w);
    } else {
      assert InHand(s, w);
      var k :| k in s.calls && s.calls[k].hand == Some(w);
      StillInHand(s, a, w, k);
    }
  }

  lemma StillQueued(s: State, a: Action, w: nat)
    requires Enabled(s, a) && w in s.queue
    ensures w in Apply(s, a).queue || InHand(Apply(s, a), w)
  {
    var s' := Apply(s, a);
    var i :| 0 <= i < |s.queue| && s.queue[i] == w;
    if a.Pop? {
      assert i > 0 ==> s'.queue[i - 1] == w;
      assert s'.calls[a.call].hand == Some(s.queue[0]);
    } else {
      assert s'.queue[i] == w;
    }
  }

  lemma StillInHand(s: State, a: Action, w: nat, k: nat)
    requires Once(s) && Enabled(s, a) && k in s.calls && s.calls[k].hand == Some(w)
    requires w < |s.waiters| && Apply(s, a).waiters[w].status.Waiting?
    ensures InHand(Apply(s, a), w)
  {
    var s' := Apply(s, a);
    assert k in s'.calls && s'.calls[k].hand == Some(w);
  }

  lemma OnceStep(s: State, a: Action)
    requires Inv(s) && Enabled(s, a)
    ensures Once(Apply(s, a))
  {
    hide Accounted, InHand;
  }

  lemma InvStep(s: State, a: Action)
    requires Inv(s) && Enabled(s, a)
    ensures Inv(Apply(s, a))
  {
    hide Apply, Enabled;
    AccountedStep(s, a);
    FindableStep(s, a);
    OnceStep(s, a);
  }

  lemma {:induction false} RunInv(s: State, actions: seq<Action>, s': State)
    requires Inv(s) && Runs(s, actions, s')
    ensures Inv(s')
    decreases |actions|
  {
    hide Inv, Apply, Enabled;
    if actions != [] {
      InvStep(s, actions[0]);
      RunInv(Apply(s, actions[0]), actions[1..], s');
    }
  }

  ghost predicate Reachable(s: State) {
    exists first, actions :: first == INIT && Runs(first, actions, s)
  }

  lemma ReachedInv(s: State)
    requires Reachable(s)
    ensures Inv(s)
  {
    hide Runs, Inv;
    var first, actions :| first == INIT && Runs(first, actions, s);
    InitInv();
    RunInv(first, actions, s);
  }

  // ---------- what every run guarantees ----------

  /** A notification that selected a waiter is consumed by it, still with it, or
      passed on because it was dropped: none vanishes and none is doubled. */
  lemma NotificationsAccounted(s: State)
    requires Reachable(s)
    ensures s.selected == s.consumed + s.passed + Sum(HeldAll(s.waiters))
  {
    ReachedInv(s);
  }

  /** The first in line that still waits. */
  ghost function FirstWaiting(queue: seq<nat>, waiters: seq<Waiter>): Option<nat> {
    if queue == [] then None
    else if queue[0] < |waiters| && waiters[queue[0]].status.Waiting? then Some(queue[0])
    else FirstWaiting(queue[1..], waiters)
  }

  /** Steps of notification `k` alone. */
  ghost predicate StepsOf(k: nat, actions: seq<Action>) {
    forall i :: 0 <= i < |actions| ==> actions[i] in {Pop(k), Select(k), GiveUp(k)}
  }

  lemma RunsTwo(s: State, a: Action, b: Action, rest: seq<Action>, s': State)
    requires Enabled(s, a) && Enabled(Apply(s, a), b) && Runs(Apply(Apply(s, a), b), rest, s')
    ensures Runs(s, [a, b] + rest, s')
  {
    assert ([a, b] + rest)[1..] == [b] + rest && ([b] + rest)[1..] == rest;
  }

  /** Left to itself, a `wake_one` under way selects the first in line that still
      waits, or finds nobody, and ends. */
  lemma {:induction false} RunsToEnd(s: State, k: nat) returns (actions: seq<Action>, s': State)
    requires Inv(s) && k in s.calls && s.calls[k] == Call(false, None)
    ensures Runs(s, actions, s') && StepsOf(k, actions) && s'.calls == s.calls - {k}
    ensures var w := FirstWaiting(s.queue, s.waiters);
      if w.None? then s'.waiters == s.waiters && s'.selected == s.selected
      else w.value < |s.waiters| && s.waiters[w.value].status.Waiting? && s'.selected == s.selected + 1
           && s'.waiters == s.waiters[w.value := s.waiters[w.value].(status := Acquired)]
    decreases |s.queue|
  {
    hide Accounted, Once, InHand;
    if s.queue == [] {
      actions, s' := [GiveUp(k)], Apply(s, GiveUp(k));
      assert actions[1..] == [];
      return;
    }
    var s1 := Apply(s, Pop(k));
    var s2 := Apply(s1, Select(k));
    InvStep(s, Pop(k));
    InvStep(s1, Select(k));
    if s.waiters[s.queue[0]].status.Waiting? {
      actions, s' := [Pop(k), Select(k)] + [], s2;
      RunsTwo(s, Pop(k), Select(k), [], s2);
    } else {
      var rest;
      rest, s' := RunsToEnd(s2, k);
      RunsTwo(s, Pop(k), Select(k), rest, s');
      actions := [Pop(k), Select(k)] + rest;
      assert s2.calls == s.calls;
    }
  }

  /** Those in line that still wait. */
  ghost function WaitingIn(queue: seq<nat>, waiters: seq<Waiter>): set<nat> {
    set w | w in queue && w < |waiters| && waiters[w].status.Waiting?
  }

  /** `after` is `before` with the waiters in `chosen` selected. */
  ghost predicate Chosen(before: seq<Waiter>, after: seq<Waiter>, chosen: set<nat>) {
    && |after| == |before|
    && forall w :: 0 <= w < |before| ==> after[w] == if w in chosen then before[w].(status := Acquired) else before[w]
  }

  lemma ChosenFirst(queue: seq<nat>, waiters: seq<Waiter>, after: seq<Waiter>)
    requires queue != [] && queue[0] < |waiters| && (forall i, j :: 0 <= i < j < |queue| ==> queue[i] < queue[j])
    requires var w := queue[0];
      var waiters' := if waiters[w].status.Waiting? then waiters[w := waiters[w].(status := Acquired)] else waiters;
      Chosen(waiters', after, WaitingIn(queue[1..], waiters'))
    ensures Chosen(waiters, after, WaitingIn(queue, waiters))
    ensures var w := queue[0];
      if waiters[w].status.Waiting?
      then |WaitingIn(queue, waiters)| == 1 + |WaitingIn(queue[1..], waiters[w := waiters[w].(status := Acquired)])|
      else WaitingIn(queue, waiters) == WaitingIn(queue[1..], waiters)
  {
    var w := queue[0];
    assert queue == [w] + queue[1..];
    if waiters[w].status.Waiting? {
      var waiters' := waiters[w := waiters[w].(status := Acquired)];
      assert WaitingIn(queue, waiters) == WaitingIn(queue[1..], waiters') + {w};
    } else {
      assert WaitingIn(queue, waiters) == WaitingIn(queue[1..], waiters);
    }
  }

  /** Left to itself, a `wake_all` under way selects everyone in line that still
      waits, empties the queue, and ends. */
  lemma {:induction false} RunsToAll(s: State, k: nat) returns (actions: seq<Action>, s': State)
    requires Inv(s) && k in s.calls && s.calls[k] == Call(true, None)
    ensures Runs(s, actions, s') && StepsOf(k, actions) && s'.calls == s.calls - {k} && s'.queue == []
    ensures Chosen(s.waiters, s'.waiters, WaitingIn(s.queue, s.waiters))
    ensures s'.selected == s.selected + |WaitingIn(s.queue, s.waiters)|
    decreases |s.queue|
  {
    hide Accounted, InHand, Chosen, WaitingIn;
    if s.queue == [] {
      actions, s' := [GiveUp(k)], Apply(s, GiveUp(k));
      assert actions[1..] == [];
      NobodyChosen(s.waiters);
      return;
    }
    var s1 := Apply(s, Pop(k));
    var s2 := Apply(s1, Select(k));
    InvStep(s, Pop(k));
    InvStep(s1, Select(k));
    var rest;
    rest, s' := RunsToAll(s2, k);
    RunsTwo(s, Pop(k), Select(k), rest, s');
    actions := [Pop(k), Select(k)] + rest;
    ChosenFirst(s.queue, s.waiters, s'.waiters);
    assert s2.calls - {k} == s.calls - {k};
  }

  lemma NobodyChosen(waiters: seq<Waiter>)
    ensures WaitingIn([], waiters) == {} && Chosen(waiters, waiters, WaitingIn([], waiters))
  {
  }

  lemma RunsOn(s: State, a: Action, rest: seq<Action>, s': State)
    requires Enabled(s, a) && Runs(Apply(s, a), rest, s')
    ensures Runs(s, [a] + rest, s')
  {
    assert ([a] + rest)[1..] == rest;
  }

  /** `wake_all`, with nobody interfering: everyone who waits in line is selected, and
      nobody else. */
  lemma WakeAll(s: State) returns (actions: seq<Action>, s': State)
    requires Reachable(s)
    ensures Runs(s, [Notify(true)] + actions, s') && StepsOf(s.next, actions) && s'.calls == s.calls && s'.queue == []
    ensures Chosen(s.waiters, s'.waiters, WaitingIn(s.queue, s.waiters))
    ensures s'.selected == s.selected + |WaitingIn(s.queue, s.waiters)|
  {
    hide Runs;
    ReachedInv(s);
    InvStep(s, Notify(true));
    var t := Apply(s, Notify(true));
    actions, s' := RunsToAll(t, s.next);
    RunsOn(s, Notify(true), actions, s');
    assert t.calls - {s.next} == s.calls;
  }

  /** `wake`, with nobody interfering: the first in line that waits is selected, and
      nobody else. */
  lemma WakeOne(s: State) returns (actions: seq<Action>, s': State)
    requires Reachable(s)
    ensures Runs(s, [Notify(false)] + actions, s') && StepsOf(s.next, actions) && s'.calls == s.calls
    ensures var w := FirstWaiting(s.queue, s.waiters);
      && Chosen(s.waiters, s'.waiters, if w.Some? then {w.value} else {})
      && s'.selected == s.selected + if w.Some? then 1 else 0
  {
    hide Runs;
    ReachedInv(s);
    InvStep(s, Notify(false));
    var t := Apply(s, Notify(false));
    actions, s' := RunsToEnd(t, s.next);
    RunsOn(s, Notify(false), actions, s');
    assert t.calls - {s.next} == s.calls;
  }

  /** A waiter that has been selected returns to its caller by its own two steps. */
  lemma SelectedReturns(s: State, w: nat)
    requires w < |s.waiters| && s.waiters[w] == Waiter(Acquired, InWait)
    ensures Enabled(s, Notice(w)) && Enabled(Apply(s, Notice(w)), Relock(w))
    ensures var s' := Apply(Apply(s, Notice(w)), Relock(w));
      s' == s.(waiters := s.waiters[w := Waiter(Acquired, Done)], consumed := s.consumed + 1)
  {
  }

  /** Who waits, is woken with all others, and is not dropped, returns to its caller. */
  lemma WaitReturns(s: State) returns (actions: seq<Action>, s': State)
    requires Reachable(s)
    ensures var w := |s.waiters|;
      && Runs(s, [Join, Notify(true)] + actions + [Notice(w), Relock(w)], s')
      && StepsOf(s.next, actions) && w < |s'.waiters| && s'.waiters[w] == Waiter(Acquired, Done)
      && s'.consumed == s.consumed + 1
  {
    hide Runs, Chosen, WaitingIn;
    ReachedInv(s);
    InvStep(s, Join);
    var w, t := |s.waiters|, Apply(s, Join);
    InvStep(t, Notify(true));
    var u := Apply(t, Notify(true));
    var v;
    actions, v := RunsToAll(u, s.next);
    JoinedWaits(s, u, v);
    RunKeeps(u, s.next, actions, v);
    var v1 := Apply(v, Notice(w));
    s' := Apply(v1, Relock(w));
    RunsEnd(s', v1, v, w);
    RunsConcat(u, actions, v, [Notice(w), Relock(w)], s');
    RunsTwo(s, Join, Notify(true), actions + [Notice(w), Relock(w)], s');
    assert [Join, Notify(true)] + actions + [Notice(w), Relock(w)]
        == [Join, Notify(true)] + (actions + [Notice(w), Relock(w)]);
  }

  lemma JoinedWaits(s: State, u: State, v: State)
    requires u.queue == s.queue + [|s.waiters|] && u.waiters == s.waiters + [Waiter(Waiting, InWait)]
    requires Chosen(u.waiters, v.waiters, WaitingIn(u.queue, u.waiters))
    ensures |s.waiters| < |v.waiters| && v.waiters[|s.waiters|] == Waiter(Acquired, InWait)
  {
    assert u.queue[|s.queue|] == |s.waiters|;
  }

  lemma RunsEnd(s': State, v1: State, v: State, w: nat)
    requires Enabled(v, Notice(w)) && v1 == Apply(v, Notice(w)) && Enabled(v1, Relock(w)) && s' == Apply(v1, Relock(w))
    ensures Runs(v, [Notice(w), Relock(w)], s')
  {
    RunsTwo(v, Notice(w), Relock(w), [], s');
    assert [Notice(w), Relock(w)] + [] == [Notice(w), Relock(w)];
  }

  lemma {:induction false} RunsConcat(s: State, run: seq<Action>, s': State, more: seq<Action>, s'': State)
    requires Runs(s, run, s') && Runs(s', more, s'')
    ensures Runs(s, run + more, s'')
    decreases |run|
  {
    hide Apply, Enabled;
    if run == [] {
      assert run + more == more;
    } else {
      RunsConcat(Apply(s, run[0]), run[1..], s', more, s'');
      assert (run + more)[1..] == run[1..] + more;
    }
  }

  /** Dropping a waiter that has been notified hands the notification on: the new
      call, left to itself, selects the first in line that still waits. */
  lemma DropPassesOn(s: State, w: nat) returns (actions: seq<Action>, s': State)
    requires Reachable(s) && w < |s.waiters| && Held(s.waiters[w]) == 1
    ensures Enabled(s, Drop(w))
    ensures Runs(Apply(s, Drop(w)), actions, s') && StepsOf(s.next, actions) && s'.calls == s.calls
    ensures var v := FirstWaiting(s.queue, Apply(s, Drop(w)).waiters);
      v.Some? ==> v.value < |s'.waiters| && s'.waiters[v.value].status.Acquired? && s'.selected == s.selected + 1
    ensures s'.consumed + Sum(HeldAll(s'.waiters))
      == s.consumed + Sum(HeldAll(s.waiters)) - 1 + (s'.selected - s.selected)
  {
    ReachedInv(s);
    InvStep(s, Drop(w));
    var t := Apply(s, Drop(w));
    actions, s' := RunsToEnd(t, s.next);
    assert t.calls - {s.next} == s.calls;
    RunInv(t, actions, s');
    RunKeeps(t, s.next, actions, s');
  }

  /** Dropping a waiter that has not been notified starts no notification, and none
      ever selects it. */
  lemma DropUnnotified(s: State, w: nat, actions: seq<Action>, s': State)
    requires Reachable(s) && w < |s.waiters| && s.waiters[w] == Waiter(Waiting, InWait)
    ensures Enabled(s, Drop(w)) && Apply(s, Drop(w)).calls == s.calls
    ensures Runs(Apply(s, Drop(w)), actions, s') ==> w < |s'.waiters| && s'.waiters[w] == Waiter(GivenUp, Dropped)
  {
    if Runs(Apply(s, Drop(w)), actions, s') {
      OverForGood(Apply(s, Drop(w)), w, actions, s');
    }
  }

  /** Who has returned or has been dropped is never touched again. */
  lemma {:induction false} OverForGood(s: State, w: nat, actions: seq<Action>, s': State)
    requires w < |s.waiters| && (s.waiters[w].place.Done? || s.waiters[w].place.Dropped?)
    requires !s.waiters[w].status.Waiting? && Runs(s, actions, s')
    ensures w < |s'.waiters| && s'.waiters[w] == s.waiters[w]
    decreases |actions|
  {
    if actions != [] {
      OverForGood(Apply(s, actions[0]), w, actions[1..], s');
    }
  }

  /** A notification neither consumes nor passes on anything. */
  lemma {:induction false} RunKeeps(s: State, k: nat, actions: seq<Action>, s': State)
    requires Runs(s, actions, s') && StepsOf(k, actions)
    ensures s'.consumed == s.consumed && s'.passed == s.passed
    decreases |actions|
  {
    if actions != [] {
      assert actions[0] in {Pop(k), Select(k), GiveUp(k)};
      assert forall i :: 0 <= i < |actions[1..]| ==> actions[1..][i] == actions[i + 1];
      RunKeeps(Apply(s, actions[0]), k, actions[1..], s');
    }
  }

  /** A notification gives up only when no waiter is left for it: everyone who
      still waits has been popped by another notification, which will select it. */
  lemma GivesUpForNobody(s: State, k: nat, w: nat)
    requires Reachable(s) && Enabled(s, GiveUp(k)) && w < |s.waiters| && s.waiters[w].status.Waiting?
    ensures exists j :: j in s.calls && j != k && s.calls[j].hand == Some(w)
    ensures forall j :: j in s.calls && s.calls[j].hand == Some(w) ==>
      Enabled(s, Select(j)) && Apply(s, Select(j)).waiters[w].status.Acquired?
  {
    ReachedInv(s);
    assert InHand(s, w);
  }

  /** Waiters are popped in the order in which they came. */
  lemma PoppedInOrder(s: State, k: nat, i: nat)
    requires Reachable(s) && k in s.calls && s.calls[k].hand.Some? && i < |s.queue|
    ensures s.calls[k].hand.value < s.queue[i]
  {
    ReachedInv(s);
  }
}
