/** Atomic reference counting: two counters changed in separate atomic steps by
    any number of strong and weak handles. */
module SharedPointer {

  /** The counters, and how many calls stand at each point between two atomic
      operations.  `drops` and `frees` count what has been done to the value and
      to its memory. */
  datatype State = State(
    strong: int, weak: int,
    handles: nat,    // strong handles
    weaks: nat,      // weak handles
    rising: nat,     // have raised `strong`, not yet `weak`
    falling: nat,    // have lowered `weak`, not yet `strong`
    dropping: nat,   // saw `strong` reach zero, about to drop the value
    releasing: nat,  // dropped the value, about to drop their weak handle
    freeing: nat,    // saw `weak` reach zero, about to free the memory
    drops: nat, frees: nat)

  ghost predicate Initial(s: State) {
    s == State(1, 2, 1, 0, 0, 0, 0, 0, 0, 0, 0)
  }

  datatype Action =
    | CloneStrong | Upgrade | Raised      // inc_strong: raise `strong` unless zero, then `weak`
    | CloneWeak | Downgrade               // inc_weak
    | DropStrong | Lowered | DropValue    // dec_strong: lower `weak`, then `strong`; the last drops the value
    | DropWeak | DropImplicit | Free      // dec_weak, and the memory goes with the last

  predicate Enabled(s: State, a: Action) {
    match a
    case CloneStrong => s.handles > 0
    case Upgrade => s.weaks > 0
    case Raised => s.rising > 0
    case CloneWeak => s.weaks > 0
    case Downgrade => s.handles > 0
    case DropStrong => s.handles > 0
    case Lowered => s.falling > 0
    case DropValue => s.dropping > 0
    case DropWeak => s.weaks > 0
    case DropImplicit => s.releasing > 0
    case Free => s.freeing > 0
  }

  /** `clone` takes no notice when `strong` cannot be raised; `upgrade` does. */
  function Apply(s: State, a: Action): State
    requires Enabled(s, a)
  {
    match a
    case CloneStrong => if s.strong == 0 then s.(handles := s.handles + 1)
      else s.(strong := s.strong + 1, rising := s.rising + 1)
    case Upgrade => if s.strong == 0 then s else s.(strong := s.strong + 1, rising := s.rising + 1)
    case Raised => s.(weak := s.weak + 1, rising := s.rising - 1, handles := s.handles + 1)
    case CloneWeak => s.(weak := s.weak + 1, weaks := s.weaks + 1)
    case Downgrade => s.(weak := s.weak + 1, weaks := s.weaks + 1)
    case DropStrong => s.(weak := s.weak - 1, handles := s.handles - 1, falling := s.falling + 1)
    case Lowered =>
      s.(strong := s.strong - 1, falling := s.falling - 1,
        dropping := if s.strong == 1 then s.dropping + 1 else s.dropping)
    case DropValue => s.(drops := s.drops + 1, dropping := s.dropping - 1, releasing := s.releasing + 1)
    case DropWeak =>
      s.(weak := s.weak - 1, weaks := s.weaks - 1, freeing := if s.weak == 1 then s.freeing + 1 else s.freeing)
    case DropImplicit =>
      s.(weak := s.weak - 1, releasing := s.releasing - 1, freeing := if s.weak == 1 then s.freeing + 1 else s.freeing)
    case Free => s.(frees := s.frees + 1, freeing := s.freeing - 1)
  }

  ghost predicate Runs(s: State, actions: seq<Action>, s': State)
    decreases |actions|
  {
    if actions == [] then s' == s
    else Enabled(s, actions[0]) && Runs(Apply(s, actions[0]), actions[1..], s')
  }

  /** The one weak reference that all strong handles hold together. */
  function Implicit(s: State): int {
    (if s.strong > 0 then 1 else 0) + s.dropping + s.releasing
  }

  ghost predicate Inv(s: State) {
    && s.strong == s.handles + s.rising + s.falling
    && s.weak == s.handles + s.weaks + Implicit(s) && Implicit(s) <= 1
    && s.drops == (if s.strong > 0 || s.dropping > 0 then 0 else 1)
    && s.frees + s.freeing == (if s.weak == 0 then 1 else 0)
  }

  lemma InvStep(s: State, a: Action)
    requires Inv(s) && Enabled(s, a)
    ensures Inv(Apply(s, a))
  {
  }

  lemma {:induction false} RunInv(s: State, actions: seq<Action>, s': State)
    requires Inv(s) && Runs(s, actions, s')
    ensures Inv(s')
    decreases |actions|
  {
    if actions != [] {
      InvStep(s, actions[0]);
      RunInv(Apply(s, actions[0]), actions[1..], s');
    }
  }

  ghost predicate Reachable(s: State) {
    exists first, actions :: Initial(first) && Runs(first, actions, s)
  }

  /** Any numbers of strong and weak handles can come to be. */
  lemma {:induction false} AnyNumber(m: nat, n: nat) returns (first: State, actions: seq<Action>, s: State)
    requires m >= 1
    ensures Initial(first) && Runs(first, actions, s) && s.handles == m && s.weaks == n && s.rising == 0
    decreases m + n
  {
    hide Runs;
    if n >= 1 {
      first, actions, s := AnyNumber(m, n - 1);
      var a := if n == 1 then Downgrade else CloneWeak;
      AddedLast(first, actions, s, a);
      actions, s := actions + [a], Apply(s, a);
    } else if m >= 2 {
      first, actions, s := AnyNumber(m - 1, 0);
      RunInv(first, actions, s);
      AddedLast(first, actions, s, CloneStrong);
      AddedLast(first, actions + [CloneStrong], Apply(s, CloneStrong), Raised);
      actions, s := actions + [CloneStrong] + [Raised], Apply(Apply(s, CloneStrong), Raised);
    } else {
      first, actions := State(1, 2, 1, 0, 0, 0, 0, 0, 0, 0, 0), [];
      s := first;
      NoSteps(s);
    }
  }

  lemma NoSteps(s: State)
    ensures Runs(s, [], s)
  {
  }

  lemma {:induction false} AddedLast(s: State, actions: seq<Action>, s': State, a: Action)
    requires Runs(s, actions, s') && Enabled(s', a)
    ensures Runs(s, actions + [a], Apply(s', a))
    decreases |actions|
  {
    hide Enabled, Apply;
    if actions == [] {
      assert [a][1..] == [] && actions + [a] == [a];
    } else {
      AddedLast(Apply(s, actions[0]), actions[1..], s', a);
      assert (actions + [a])[1..] == actions[1..] + [a];
    }
  }

  lemma ReachedInv(s: State)
    requires Reachable(s)
    ensures Inv(s)
  {
    var first, actions :| Initial(first) && Runs(first, actions, s);
    RunInv(first, actions, s);
  }

  /** The value is dropped at most once, the memory is freed at most once, and
      only when the value has been dropped. */
  lemma DroppedOnceFreedOnce(s: State)
    requires Reachable(s)
    ensures s.drops <= 1 && s.frees + s.freeing <= 1 && (s.frees + s.freeing == 1 ==> s.drops == 1 && s.dropping == 0)
  {
    ReachedInv(s);
  }

  /** Whoever can still touch the counters or the value finds the memory in place,
      and after the free no call can take a step. */
  lemma NothingAfterFree(s: State, a: Action)
    requires Reachable(s) && Enabled(s, a)
    ensures s.frees == 0 && (a != Free ==> s.freeing == 0)
  {
    ReachedInv(s);
  }

  /** A strong handle, or one in the making, finds the value undropped: so an
      upgrade that succeeds gives a live value, and it succeeds exactly while
      `strong` is above zero. */
  lemma StrongSeesValue(s: State)
    requires Reachable(s)
    ensures s.handles + s.rising > 0 ==> s.strong > 0
    ensures s.strong > 0 ==> s.drops == 0 && s.dropping == 0
    ensures s.weaks > 0 ==> (Apply(s, Upgrade).rising > s.rising <==> s.drops == 0 && s.dropping == 0)
  {
    ReachedInv(s);
  }

  /** Once `strong` has reached zero it stays there. */
  lemma {:induction false} NoResurrection(s: State, actions: seq<Action>, s': State)
    requires Inv(s) && s.strong == 0 && Runs(s, actions, s')
    ensures s'.strong == 0 && s'.handles == 0 && s'.rising == 0
    decreases |actions|
  {
    if actions != [] {
      InvStep(s, actions[0]);
      NoResurrection(Apply(s, actions[0]), actions[1..], s');
    }
  }

  // ---------- handles come and go with the calls ----------

  /** What a call adds to the strong handles, those in the making included: a clone
      always one, an upgrade one while the value is there, a drop takes one away. */
  function StrongGain(s: State, a: Action): int {
    match a
    case CloneStrong => 1
    case Upgrade => if s.drops + s.dropping == 0 then 1 else 0
    case DropStrong => -1
    case _ => 0
  }

  function WeakGain(a: Action): int {
    match a
    case CloneWeak => 1
    case Downgrade => 1
    case DropWeak => -1
    case _ => 0
  }

  ghost function StrongGains(s: State, actions: seq<Action>): int
    decreases |actions|
  {
    if actions == [] || !Enabled(s, actions[0]) then 0
    else StrongGain(s, actions[0]) + StrongGains(Apply(s, actions[0]), actions[1..])
  }

  ghost function WeakGains(actions: seq<Action>): int {
    if actions == [] then 0 else WeakGain(actions[0]) + WeakGains(actions[1..])
  }

  lemma {:induction false} HandlesOver(s: State, actions: seq<Action>, s': State)
    requires Inv(s) && Runs(s, actions, s')
    ensures s'.handles + s'.rising == s.handles + s.rising + StrongGains(s, actions)
    ensures s'.weaks == s.weaks + WeakGains(actions)
    decreases |actions|
  {
    if actions != [] {
      InvStep(s, actions[0]);
      HandlesOver(Apply(s, actions[0]), actions[1..], s');
    }
  }

  /** Over every run: the strong handles are the first one, plus clones and successful
      upgrades, minus drops; the weak ones are clones and downgrades minus drops. */
  lemma HandlesCounted(first: State, actions: seq<Action>, s: State)
    requires Initial(first) && Runs(first, actions, s)
    ensures s.handles + s.rising == 1 + StrongGains(first, actions) && s.weaks == WeakGains(actions)
  {
    HandlesOver(first, actions, s);
  }

  // ---------- everything is given back in the end ----------

  /** Steps that start nothing new: calls under way go on, and handles are dropped. */
  predicate WindsDown(a: Action) {
    a.Raised? || a.DropStrong? || a.Lowered? || a.DropValue? || a.DropWeak? || a.DropImplicit? || a.Free?
  }

  /** How many such steps can still follow, at most. */
  function Left(s: State): nat {
    7 * s.rising + 6 * s.handles + 5 * s.falling + 4 * s.dropping + 3 * s.releasing + 3 * s.weaks + 2 * s.freeing
  }

  lemma LowersLeft(s: State, a: Action)
    requires Enabled(s, a) && WindsDown(a)
    ensures Left(Apply(s, a)) < Left(s)
  {
  }

  function NextDown(s: State): Action {
    if s.rising > 0 then Raised else if s.handles > 0 then DropStrong else if s.falling > 0 then Lowered
    else if s.dropping > 0 then DropValue else if s.weaks > 0 then DropWeak
    else if s.releasing > 0 then DropImplicit else Free
  }

  lemma NextDownEnabled(s: State)
    requires Left(s) > 0
    ensures Enabled(s, NextDown(s)) && WindsDown(NextDown(s))
  {
  }

  lemma NothingLeft(s: State)
    requires Inv(s) && Left(s) == 0
    ensures (forall a :: !Enabled(s, a)) && s.drops == 1 && s.frees == 1 && s.strong == 0 && s.weak == 0
  {
  }

  lemma {:induction false} GivenBack(s: State) returns (actions: seq<Action>, s': State)
    requires Inv(s)
    ensures Runs(s, actions, s') && forall i :: 0 <= i < |actions| ==> WindsDown(actions[i])
    ensures (forall a :: !Enabled(s', a)) && s'.drops == 1 && s'.frees == 1 && s'.strong == 0 && s'.weak == 0
    decreases Left(s)
  {
    hide Inv, Apply, Enabled, WindsDown, Left, NextDown;
    if Left(s) == 0 {
      NothingLeft(s);
      actions, s' := [], s;
    } else {
      var a := NextDown(s);
      NextDownEnabled(s);
      InvStep(s, a);
      LowersLeft(s, a);
      var rest;
      rest, s' := GivenBack(Apply(s, a));
      actions := [a] + rest;
      assert actions[1..] == rest;
    }
  }

  lemma {:induction false} EveryOrderEnds(s: State, actions: seq<Action>, s': State)
    requires Runs(s, actions, s') && forall i :: 0 <= i < |actions| ==> WindsDown(actions[i])
    ensures |actions| + Left(s') <= Left(s)
    decreases |actions|
  {
    hide Apply, Enabled, WindsDown, Left;
    if actions != [] {
      LowersLeft(s, actions[0]);
      assert forall i :: 0 <= i < |actions[1..]| ==> actions[1..][i] == actions[i + 1];
      EveryOrderEnds(Apply(s, actions[0]), actions[1..], s');
    }
  }

  /** From every reachable state the remaining handles can be dropped and the calls
      finished, and then the value has been dropped exactly once and the memory freed
      exactly once.  `EveryOrderEnds` says that this happens in whatever order. */
  lemma AllGivenBack(s: State) returns (actions: seq<Action>, s': State)
    requires Reachable(s)
    ensures Runs(s, actions, s') && |actions| <= Left(s) && forall i :: 0 <= i < |actions| ==> WindsDown(actions[i])
    ensures (forall a :: !Enabled(s', a)) && s'.drops == 1 && s'.frees == 1 && s'.strong == 0 && s'.weak == 0
  {
    hide Runs, Inv, Enabled, WindsDown, Left;
    ReachedInv(s);
    actions, s' := GivenBack(s);
    EveryOrderEnds(s, actions, s');
  }

  /** When all handles are gone and every call has finished, the value has been
      dropped and the memory freed: nothing leaks. */
  lemma NothingLeaks(s: State)
    requires Reachable(s) && forall a :: !Enabled(s, a)
    ensures s.drops == 1 && s.frees == 1 && s.strong == 0 && s.weak == 0
  {
    ReachedInv(s);
    assert !Enabled(s, CloneStrong) && !Enabled(s, Upgrade) && !Enabled(s, Raised) && !Enabled(s, Lowered);
    assert !Enabled(s, DropValue) && !Enabled(s, DropImplicit) && !Enabled(s, Free);
  }
}
