/** The semaphore as its callers see it: who asked for how much, who has given up,
    who holds which guard, and which release calls have been made, all read off the
    steps of a run alone. */
module SemaphoreLedger {
  import opened Semaphore
  import opened Sums

  /** A guard: what its holder asked for, and how much of it has been given back. */
  datatype Holding = Holding(asked: nat, back: nat)

  /** `asked` has the amount of every queued acquisition, by ticket.  `calls` counts
      release calls made and not yet begun. */
  datatype Ledger = Ledger(
    asked: seq<nat>, cancelled: set<nat>, claimed: set<nat>, holdings: seq<Holding>, calls: int)

  const BLANK := Ledger([], {}, {}, [], 0)

  /** What the step of a caller, or of a release call, adds to the ledger. */
  function Note(l: Ledger, a: Action): Ledger {
    match a
    case TryAcquire(n, _) => l.(holdings := l.holdings + [Holding(n, 0)])
    case Enqueue(n) => l.(asked := l.asked + [n], calls := l.calls + 1)
    case Claim(t) =>
      if t < |l.asked| then l.(claimed := l.claimed + {t}, holdings := l.holdings + [Holding(l.asked[t], 0)]) else l
    case Cancel(t) => l.(cancelled := l.cancelled + {t}, calls := l.calls + 1)
    case DropGuard(g) =>
      if g < |l.holdings| then l.(holdings := Without(l.holdings, g), calls := l.calls + 1) else l
    case ReleasePart(g, n) =>
      if g < |l.holdings|
      then l.(holdings := l.holdings[g := l.holdings[g].(back := l.holdings[g].back + n)], calls := l.calls + 1)
      else l
    case Forget(g) => if g < |l.holdings| then l.(holdings := Without(l.holdings, g)) else l
    case Explicit(_) => l.(calls := l.calls + 1)
    case Begin(_) => l.(calls := l.calls - 1)
    case _ => l
  }

  function NoteAll(l: Ledger, actions: seq<Action>): Ledger
    decreases |actions|
  {
    if actions == [] then l else NoteAll(Note(l, actions[0]), actions[1..])
  }

  function LedgerOf(actions: seq<Action>): Ledger {
    NoteAll(BLANK, actions)
  }

  /** The semaphore is as the ledger says. */
  ghost predicate Agrees(l: Ledger, s: State) {
    && |s.wakers| == |l.asked| && (forall t :: 0 <= t < |l.asked| ==> Waits(l, s, t))
    && |s.guards| == |l.holdings| && (forall g :: 0 <= g < |l.holdings| ==> Holds(l, s, g))
    && |s.owed| == l.calls
    && (forall t :: t in l.cancelled ==> t < |l.asked|) && (forall t :: t in l.claimed ==> t < |l.asked|)
  }

  ghost predicate Waits(l: Ledger, s: State, t: nat)
    requires t < |l.asked| == |s.wakers|
  {
    var w := s.wakers[t];
    w.permits == l.asked[t] && (w.status.GiveUp? <==> t in l.cancelled) && (w.claimed <==> t in l.claimed)
  }

  ghost predicate Holds(l: Ledger, s: State, g: nat)
    requires g < |l.holdings| == |s.guards|
  {
    s.guards[g] == l.holdings[g].asked - l.holdings[g].back
  }

  lemma AgreesStep(l: Ledger, s: State, a: Action)
    requires Agrees(l, s) && Enabled(s, a)
    ensures Agrees(Note(l, a), Apply(s, a))
  {
    var l', s' := Note(l, a), Apply(s, a);
    forall t | 0 <= t < |l'.asked|
      ensures |s'.wakers| == |l'.asked| && Waits(l', s', t)
    {
      assert t < |l.asked| ==> Waits(l, s, t);
    }
    forall g | 0 <= g < |l'.holdings|
      ensures |s'.guards| == |l'.holdings| && Holds(l', s', g)
    {
      assert g < |l.holdings| ==> Holds(l, s, g);
      assert g + 1 < |l.holdings| ==> Holds(l, s, g + 1);
      if a.Claim? {
        assert Waits(l, s, a.ticket);
      }
    }
  }

  lemma {:induction false} AgreesRun(l: Ledger, s: State, actions: seq<Action>, s': State)
    requires Agrees(l, s) && Runs(s, actions, s')
    ensures Agrees(NoteAll(l, actions), s')
    decreases |actions|
  {
    hide Agrees, Note, Apply, Enabled;
    if actions != [] {
      AgreesStep(l, s, actions[0]);
      AgreesRun(Note(l, actions[0]), Apply(s, actions[0]), actions[1..], s');
    }
  }

  /** Over every run: each waiter is queued for what it asked for, has given up exactly
      if it was cancelled, and each guard is for what was asked less what was given
      back; every release call made is under way exactly once. */
  lemma AsRecorded(permits: nat, actions: seq<Action>, s: State)
    requires Runs(Init(permits), actions, s)
    ensures Agrees(LedgerOf(actions), s)
  {
    hide Runs, NoteAll;
    AgreesRun(BLANK, Init(permits), actions, s);
  }
}
