/** Normalising the firmware's memory map in place: overlaps are resolved in
    favour of reserved memory, empty regions removed, touching ones merged. */
module MemoryMap {
  import opened Arithmetic

  const USABLE := 1
  const RESERVED := 2
  const U64_MAX := 0xFFFF_FFFF_FFFF_FFFF

  datatype Region = Region(base: nat, length: nat, kind: nat)

  function End(r: Region): nat {
    r.base + r.length
  }

  predicate Within(r: Region, kind: nat, x: nat) {
    r.kind == kind && r.base <= x < End(r)
  }

  /** Address `x` lies in a region of the given kind. */
  ghost predicate Covers(s: seq<Region>, kind: nat, x: nat) {
    exists i :: 0 <= i < |s| && Within(s[i], kind, x)
  }

  /** No region reaches beyond `top`, and every region is usable or reserved. */
  ghost predicate Bounded(s: seq<Region>, top: nat) {
    forall i :: 0 <= i < |s| ==> End(s[i]) <= top && (s[i].kind == USABLE || s[i].kind == RESERVED)
  }

  ghost predicate Sorted(s: seq<Region>) {
    forall i, j :: 0 <= i < j < |s| ==> s[i].base <= s[j].base
  }

  /** Each region ends before the next begins. */
  ghost predicate Apart(s: seq<Region>, n: nat)
    requires n <= |s|
  {
    forall i :: 1 <= i < n ==> End(s[i - 1]) <= s[i].base
  }

  // ---------- the room that bases still have to grow ----------

  ghost function Slack(s: seq<Region>, top: nat): int {
    if s == [] then 0 else top - s[0].base + Slack(s[1..], top)
  }

  lemma {:induction false} SlackConcat(s: seq<Region>, t: seq<Region>, top: nat)
    ensures Slack(s + t, top) == Slack(s, top) + Slack(t, top)
  {
    if s == [] {
      assert s + t == t;
    } else {
      assert (s + t)[1..] == s[1..] + t;
      SlackConcat(s[1..], t, top);
    }
  }

  lemma SlackAround(s: seq<Region>, i: nat, top: nat)
    requires i < |s|
    ensures Slack(s, top) == Slack(s[..i], top) + (top - s[i].base) + Slack(s[i + 1..], top)
  {
    assert s == s[..i] + ([s[i]] + s[i + 1..]);
    SlackConcat(s[..i], [s[i]] + s[i + 1..], top);
    SlackConcat([s[i]], s[i + 1..], top);
  }

  lemma SlackUpdate(s: seq<Region>, i: nat, r: Region, top: nat)
    requires i < |s|
    ensures Slack(s[i := r], top) == Slack(s, top) + s[i].base - r.base
  {
    SlackAround(s, i, top);
    SlackAround(s[i := r], i, top);
    assert s[i := r][..i] == s[..i] && s[i := r][i + 1..] == s[i + 1..];
  }

  lemma {:induction false} SlackPositive(s: seq<Region>, top: nat)
    requires Bounded(s, top)
    ensures Slack(s, top) >= 0
  {
    if s != [] {
      assert forall i :: 0 <= i < |s[1..]| ==> s[1..][i] == s[i + 1];
      SlackPositive(s[1..], top);
    }
  }

  // ---------- sorting ----------

  /** Put `r` into a sorted list. */
  function Inserted(s: seq<Region>, r: Region): seq<Region> {
    if s == [] || r.base <= s[0].base then [r] + s else [s[0]] + Inserted(s[1..], r)
  }

  lemma {:induction false} InsertedElements(s: seq<Region>, r: Region, top: nat)
    ensures multiset(Inserted(s, r)) == multiset(s) + multiset{r}
    ensures |Inserted(s, r)| == |s| + 1 && Slack(Inserted(s, r), top) == Slack(s, top) + top - r.base
  {
    if s == [] || r.base <= s[0].base {
      assert ([r] + s)[1..] == s;
    } else {
      InsertedElements(s[1..], r, top);
      assert s == [s[0]] + s[1..];
      assert ([s[0]] + Inserted(s[1..], r))[1..] == Inserted(s[1..], r);
    }
  }

  lemma {:induction false} InsertedSorted(s: seq<Region>, r: Region)
    requires Sorted(s)
    ensures Sorted(Inserted(s, r)) && forall i :: 0 <= i < |Inserted(s, r)| ==>
      Inserted(s, r)[i] == r || Inserted(s, r)[i] in s
  {
    if s != [] && s[0].base < r.base {
      InsertedSorted(s[1..], r);
    }
  }

  lemma SameCovers(s: seq<Region>, t: seq<Region>, kind: nat, x: nat)
    requires multiset(s) == multiset(t)
    ensures Covers(s, kind, x) <==> Covers(t, kind, x)
  {
    Moved(s, t, kind, x);
    Moved(t, s, kind, x);
  }

  lemma Moved(s: seq<Region>, t: seq<Region>, kind: nat, x: nat)
    requires multiset(s) == multiset(t)
    ensures Covers(s, kind, x) ==> Covers(t, kind, x)
  {
    if Covers(s, kind, x) {
      var i :| 0 <= i < |s| && Within(s[i], kind, x);
      assert s[i] in multiset(s);
      assert s[i] in t;
    }
  }

  lemma BoundedMoved(s: seq<Region>, t: seq<Region>, top: nat)
    requires multiset(s) == multiset(t) && Bounded(s, top)
    ensures Bounded(t, top)
  {
    forall i | 0 <= i < |t|
      ensures End(t[i]) <= top && (t[i].kind == USABLE || t[i].kind == RESERVED)
    {
      assert t[i] in multiset(t);
      assert t[i] in s;
    }
  }

  /** A sorted copy. */
  method SortedCopy(s: seq<Region>, ghost top: nat) returns (t: seq<Region>)
    ensures Sorted(t) && multiset(t) == multiset(s) && |t| == |s| && Slack(t, top) == Slack(s, top)
  {
    hide Sorted, Slack, Inserted;
    t := [];
    SlackNone(top);
    for i := 0 to |s|
      invariant |t| == i && Sorted(t) && multiset(t) == multiset(s[..i]) && Slack(t, top) == Slack(s[..i], top)
    {
      InsertedElements(t, s[i], top);
      InsertedSorted(t, s[i]);
      assert s[..i + 1] == s[..i] + [s[i]];
      SlackConcat(s[..i], [s[i]], top);
      SlackOne(s[i], top);
      t := Inserted(t, s[i]);
    }
    assert s[..|s|] == s;
  }

  lemma SlackNone(top: nat)
    ensures Slack([], top) == 0 && Sorted([])
  {
  }

  lemma SlackOne(r: Region, top: nat)
    ensures Slack([r], top) == top - r.base
  {
  }

  /** Sort the first `len` regions by base; equal bases may come in any order. */
  method SortByBase(a: array<Region>, len: nat, ghost top: nat)
    requires len <= a.Length
    modifies a
    ensures Sorted(a[..len]) && multiset(a[..len]) == multiset(old(a[..len])) && a[len..] == old(a[len..])
    ensures Slack(a[..len], top) == Slack(old(a[..len]), top)
  {
    hide Sorted, Slack;
    var t := SortedCopy(a[..len], top);
    CopyBack(a, t);
  }

  method CopyBack(a: array<Region>, t: seq<Region>)
    requires |t| <= a.Length
    modifies a
    ensures a[..|t|] == t && a[|t|..] == old(a[|t|..])
  {
    for i := 0 to |t|
      invariant forall j :: 0 <= j < i ==> a[j] == t[j]
      invariant forall j :: |t| <= j < a.Length ==> a[j] == old(a[j])
    {
      a[i] := t[i];
    }
  }

  // ---------- overlaps ----------

  /** The later region gives way to a reserved one. */
  function Shifted(prev: Region, cur: Region): Region
    requires End(prev) > cur.base
  {
    var overlap := End(prev) - cur.base;
    cur.(base := cur.base + overlap, length := SaturatingSub(cur.length, overlap))
  }

  /** A usable region gives way to the later one. */
  function Shrunk(prev: Region, cur: Region): Region
    requires End(prev) > cur.base
  {
    prev.(length := SaturatingSub(prev.length, End(prev) - cur.base))
  }

  /** The addresses that a region no longer starts at are reserved by earlier regions. */
  ghost predicate SkippedReserved(s: seq<Region>, i: nat, from: nat)
    requires i < |s|
  {
    forall x :: from <= x < s[i].base ==> Covers(s[..i], RESERVED, x)
  }

  lemma CoversWiden(s: seq<Region>, n: nat, kind: nat, x: nat)
    requires n <= |s| && Covers(s[..n], kind, x)
    ensures Covers(s, kind, x)
  {
    var i :| 0 <= i < n && Within(s[..n][i], kind, x);
    assert Within(s[i], kind, x);
  }

  lemma ShiftSkips(s: seq<Region>, i: nat, from: nat)
    requires 1 <= i < |s| && s[i - 1].kind == RESERVED && End(s[i - 1]) > s[i].base && from <= s[i].base
    requires SkippedReserved(s, i - 1, from)
    ensures SkippedReserved(s[i := Shifted(s[i - 1], s[i])], i, s[i].base)
  {
    var s' := s[i := Shifted(s[i - 1], s[i])];
    assert s'[..i] == s[..i];
    forall x | s[i].base <= x < s'[i].base
      ensures Covers(s[..i], RESERVED, x)
    {
      if x < s[i - 1].base {
        assert s[..i][..i - 1] == s[..i - 1];
        CoversWiden(s[..i], i - 1, RESERVED, x);
      } else {
        assert Within(s[..i][i - 1], RESERVED, x);
      }
    }
  }

  /** Shifting loses no reserved address and gains no usable one. */
  lemma ShiftCovers(s: seq<Region>, i: nat, kind: nat, x: nat)
    requires 1 <= i < |s| && End(s[i - 1]) > s[i].base
    requires SkippedReserved(s[i := Shifted(s[i - 1], s[i])], i, s[i].base)
    ensures var s' := s[i := Shifted(s[i - 1], s[i])];
      (Covers(s', kind, x) ==> Covers(s, kind, x)) && (kind == RESERVED && Covers(s, kind, x) ==> Covers(s', kind, x))
  {
    var s' := s[i := Shifted(s[i - 1], s[i])];
    if Covers(s', kind, x) {
      var j :| 0 <= j < |s| && Within(s'[j], kind, x);
      assert Within(s[j], kind, x);
    }
    if Covers(s, kind, x) && kind == RESERVED {
      var j :| 0 <= j < |s| && Within(s[j], kind, x);
      if j == i && x < s'[i].base {
        CoversWiden(s', i, RESERVED, x);
      } else {
        assert Within(s'[j], kind, x);
      }
    }
  }

  lemma ShrinkCovers(s: seq<Region>, i: nat, kind: nat, x: nat)
    requires 1 <= i < |s| && End(s[i - 1]) > s[i].base && s[i - 1].kind == USABLE
    ensures var s' := s[i - 1 := Shrunk(s[i - 1], s[i])];
      (Covers(s', kind, x) ==> Covers(s, kind, x)) && (kind == RESERVED && Covers(s, kind, x) ==> Covers(s', kind, x))
  {
    var s' := s[i - 1 := Shrunk(s[i - 1], s[i])];
    if Covers(s', kind, x) {
      var j :| 0 <= j < |s| && Within(s'[j], kind, x);
      assert Within(s[j], kind, x);
    }
    if Covers(s, kind, x) && kind == RESERVED {
      var j :| 0 <= j < |s| && Within(s[j], kind, x);
      assert Within(s'[j], kind, x);
    }
  }

  /** `t` reserves what `s` reserves, and makes usable nothing that `s` does not. */
  ghost predicate Tightened(s: seq<Region>, t: seq<Region>) {
    && (forall x :: Covers(t, RESERVED, x) <==> Covers(s, RESERVED, x))
    && (forall x :: Covers(t, USABLE, x) ==> Covers(s, USABLE, x))
  }

  /** The same addresses are usable, and the same are reserved. */
  ghost predicate SameCover(s: seq<Region>, t: seq<Region>) {
    && (forall x :: Covers(t, RESERVED, x) <==> Covers(s, RESERVED, x))
    && (forall x :: Covers(t, USABLE, x) <==> Covers(s, USABLE, x))
  }

  lemma SameTightens(s: seq<Region>, t: seq<Region>)
    requires SameCover(s, t)
    ensures Tightened(s, t)
  {
  }

  lemma SameCoverTrans(s: seq<Region>, t: seq<Region>, u: seq<Region>)
    requires SameCover(s, t) && SameCover(t, u)
    ensures SameCover(s, u)
  {
  }

  lemma ShiftTightens(s: seq<Region>, i: nat, from: nat)
    requires 1 <= i < |s| && s[i - 1].kind == RESERVED && End(s[i - 1]) > s[i].base && from <= s[i].base
    requires SkippedReserved(s, i - 1, from)
    ensures var s' := s[i := Shifted(s[i - 1], s[i])]; Tightened(s, s') && SkippedReserved(s', i, s[i].base)
  {
    var s' := s[i := Shifted(s[i - 1], s[i])];
    ShiftSkips(s, i, from);
    hide Covers;
    forall x
      ensures Covers(s', RESERVED, x) <==> Covers(s, RESERVED, x)
      ensures Covers(s', USABLE, x) ==> Covers(s, USABLE, x)
    {
      ShiftCovers(s, i, RESERVED, x);
      ShiftCovers(s, i, USABLE, x);
    }
  }

  lemma ShrinkTightens(s: seq<Region>, i: nat)
    requires 1 <= i < |s| && End(s[i - 1]) > s[i].base && s[i - 1].kind == USABLE
    ensures Tightened(s, s[i - 1 := Shrunk(s[i - 1], s[i])])
  {
    var s' := s[i - 1 := Shrunk(s[i - 1], s[i])];
    hide Covers;
    forall x
      ensures Covers(s', RESERVED, x) <==> Covers(s, RESERVED, x)
      ensures Covers(s', USABLE, x) ==> Covers(s, USABLE, x)
    {
      ShrinkCovers(s, i, RESERVED, x);
      ShrinkCovers(s, i, USABLE, x);
    }
  }

  /** How far a pass has come: from `s`, sorted, to `t`, done up to `n`. */
  ghost predicate Passing(s: seq<Region>, t: seq<Region>, n: nat, changed: bool, top: nat) {
    && |t| == |s| && 1 <= n && Bounded(t, top) && Tightened(s, t)
    && (forall j :: n <= j < |s| ==> t[j] == s[j])
    && (n - 1 < |s| ==> SkippedReserved(t, n - 1, s[n - 1].base))
    && (!changed ==>
      (forall j :: 0 <= j < |s| ==> t[j].base == s[j].base) && n <= |s| + 1 && Apart(t, if n <= |t| then n else |t|))
    && (if changed then Slack(t, top) < Slack(s, top) else Slack(t, top) == Slack(s, top))
  }

  /** One pass over neighbours.  `changed` when some base has moved. */
  method ResolveOverlaps(a: array<Region>, len: nat, ghost top: nat) returns (changed: bool)
    requires len <= a.Length && Sorted(a[..len]) && Bounded(a[..len], top)
    modifies a
    ensures a[len..] == old(a[len..]) && Bounded(a[..len], top) && Tightened(old(a[..len]), a[..len])
    ensures !changed ==> Sorted(a[..len]) && Apart(a[..len], len) && Slack(a[..len], top) == Slack(old(a[..len]), top)
    ensures changed ==> Slack(a[..len], top) < Slack(old(a[..len]), top)
    ensures TameOrder(old(a[..len])) ==> a[..len] == Trimmed(old(a[..len]))
    ensures Apart(old(a[..len]), len) ==> !changed && a[..len] == old(a[..len])
  {
    hide Slack, Tightened, Bounded, SkippedReserved, Apart, Sorted, TameOrder, Trimming, Trimmed, Passing;
    changed := false;
    ghost var s := a[..len];
    PassBegins(s, top);
    var i := 1;
    while i < len
      invariant 1 <= i && a[len..] == old(a[len..]) && Passing(s, a[..len], i, changed, top) && (i <= len || i == 1)
      invariant TameOrder(s) ==> Trimming(s, a[..len], i)
      invariant Apart(s, len) ==> !changed && a[..len] == s
    {
      ghost var t := a[..len];
      if TameOrder(s) {
        TrimStep(s, t, i);
      }
      if Apart(s, len) {
        ApartAt(s, i);
      }
      if End(a[i - 1]) <= a[i].base {
        PassGoesOn(s, t, i, changed, top);
      } else if a[i - 1].kind == RESERVED {
        PassShifts(s, t, i, changed, top);
        a[i] := Shifted(a[i - 1], a[i]);
        assert a[..len] == t[i := Shifted(t[i - 1], t[i])];
        changed := true;
      } else {
        PassShrinks(s, t, i, changed, top);
        a[i - 1] := Shrunk(a[i - 1], a[i]);
        assert a[..len] == t[i - 1 := Shrunk(t[i - 1], t[i])];
      }
      i := i + 1;
    }
    PassEnds(s, a[..len], i, changed, top);
    if TameOrder(s) {
      TrimEnds(s, a[..len], i);
    }
  }

  lemma ApartAt(s: seq<Region>, i: nat)
    requires Apart(s, |s|) && 1 <= i < |s|
    ensures End(s[i - 1]) <= s[i].base
  {
  }

  lemma PassBegins(s: seq<Region>, top: nat)
    requires Bounded(s, top)
    ensures Passing(s, s, 1, false, top) && Trimming(s, s, 1)
  {
  }

  lemma PassGoesOn(s: seq<Region>, t: seq<Region>, i: nat, changed: bool, top: nat)
    requires Passing(s, t, i, changed, top) && i < |s| && End(t[i - 1]) <= t[i].base
    ensures Passing(s, t, i + 1, changed, top)
  {
    hide Tightened, Slack, Covers;
  }

  lemma PassShifts(s: seq<Region>, t: seq<Region>, i: nat, changed: bool, top: nat)
    requires Passing(s, t, i, changed, top) && i < |s| && End(t[i - 1]) > t[i].base && t[i - 1].kind == RESERVED
      && Sorted(s)
    ensures Passing(s, t[i := Shifted(t[i - 1], t[i])], i + 1, true, top)
  {
    hide Slack, Covers, SkippedReserved, Apart;
    ShiftTightens(t, i, s[i - 1].base);
    SlackUpdate(t, i, Shifted(t[i - 1], t[i]), top);
  }

  lemma PassShrinks(s: seq<Region>, t: seq<Region>, i: nat, changed: bool, top: nat)
    requires Passing(s, t, i, changed, top) && i < |s| && End(t[i - 1]) > t[i].base && t[i - 1].kind != RESERVED
      && Sorted(s)
    ensures Passing(s, t[i - 1 := Shrunk(t[i - 1], t[i])], i + 1, changed, top)
  {
    hide Slack, Covers;
    ShrinkTightens(t, i);
    SlackUpdate(t, i - 1, Shrunk(t[i - 1], t[i]), top);
  }

  lemma PassEnds(s: seq<Region>, t: seq<Region>, i: nat, changed: bool, top: nat)
    requires Passing(s, t, i, changed, top) && Sorted(s) && (i == |s| || (i == 1 && |s| == 0))
    ensures |t| == |s| && Bounded(t, top) && Tightened(s, t) && (!changed ==> Sorted(t) && Apart(t, |t|))
    ensures if changed then Slack(t, top) < Slack(s, top) else Slack(t, top) == Slack(s, top)
  {
    hide Slack, Covers, Tightened;
  }

  // ---------- empty regions ----------

  function NonEmpty(s: seq<Region>): (t: seq<Region>)
    ensures |t| <= |s|
  {
    if s == [] then []
    else if s[|s| - 1].length > 0 then NonEmpty(s[..|s| - 1]) + [s[|s| - 1]]
    else NonEmpty(s[..|s| - 1])
  }

  ghost predicate AllNonEmpty(s: seq<Region>) {
    forall i :: 0 <= i < |s| ==> s[i].length > 0
  }

  lemma {:induction false} NonEmptyFrom(s: seq<Region>)
    requires Sorted(s)
    ensures Sorted(NonEmpty(s)) && forall i :: 0 <= i < |NonEmpty(s)| ==>
      NonEmpty(s)[i].length > 0 && NonEmpty(s)[i] in s
  {
    if s != [] {
      var p, r := s[..|s| - 1], s[|s| - 1];
      NonEmptyFrom(p);
      assert s == p + [r];
      forall i | 0 <= i < |NonEmpty(p)|
        ensures NonEmpty(p)[i] in s && NonEmpty(p)[i].base <= r.base
      {
        assert NonEmpty(p)[i] in p;
      }
    }
  }

  lemma {:induction false} NonEmptyAll(s: seq<Region>)
    ensures |NonEmpty(s)| == |s| ==> NonEmpty(s) == s
  {
    if s != [] {
      NonEmptyAll(s[..|s| - 1]);
      assert s == s[..|s| - 1] + [s[|s| - 1]];
    }
  }

  lemma NonEmptyBounded(s: seq<Region>, top: nat)
    requires Sorted(s) && Bounded(s, top)
    ensures Sorted(NonEmpty(s)) && Bounded(NonEmpty(s), top) && AllNonEmpty(NonEmpty(s))
  {
    hide NonEmpty;
    NonEmptyFrom(s);
  }

  lemma {:induction false} NonEmptyCovers(s: seq<Region>, kind: nat, x: nat)
    ensures Covers(NonEmpty(s), kind, x) <==> Covers(s, kind, x)
  {
    if s != [] {
      var n := |s| - 1;
      NonEmptyCovers(s[..n], kind, x);
      CoversLast(s, kind, x);
      if s[n].length > 0 {
        CoversLast(NonEmpty(s[..n]) + [s[n]], kind, x);
        assert (NonEmpty(s[..n]) + [s[n]])[..|NonEmpty(s[..n])|] == NonEmpty(s[..n]);
      }
    }
  }

  lemma CoversLast(s: seq<Region>, kind: nat, x: nat)
    requires s != []
    ensures Covers(s, kind, x) <==> Covers(s[..|s| - 1], kind, x) || Within(s[|s| - 1], kind, x)
  {
    var p := s[..|s| - 1];
    if Covers(s, kind, x) {
      var i :| 0 <= i < |s| && Within(s[i], kind, x);
      assert i < |p| ==> Within(p[i], kind, x);
    }
    if Covers(p, kind, x) {
      CoversWiden(s, |s| - 1, kind, x);
    }
  }

  lemma NonEmptySame(s: seq<Region>)
    ensures SameCover(s, NonEmpty(s)) && Tightened(s, NonEmpty(s))
  {
    hide Covers, NonEmpty;
    forall x
      ensures Covers(NonEmpty(s), RESERVED, x) <==> Covers(s, RESERVED, x)
      ensures Covers(NonEmpty(s), USABLE, x) <==> Covers(s, USABLE, x)
    {
      NonEmptyCovers(s, RESERVED, x);
      NonEmptyCovers(s, USABLE, x);
    }
  }

  /** Move the non-empty regions to the front. */
  method RemoveEmpty(a: array<Region>, count: nat) returns (len: nat)
    requires count <= a.Length
    modifies a
    ensures len <= count && a[..len] == NonEmpty(old(a[..count]))
  {
    len := 0;
    ghost var s := a[..count];
    for i := 0 to count
      invariant len <= i && len == |NonEmpty(s[..i])|
      invariant forall j :: 0 <= j < len ==> a[j] == NonEmpty(s[..i])[j]
      invariant forall j :: i <= j < count ==> a[j] == s[j]
    {
      assert s[..i + 1][..i] == s[..i];
      if a[i].length > 0 {
        a[len] := a[i];
        len := len + 1;
      }
    }
    assert s[..count] == s;
  }

  // ---------- merging ----------

  predicate Touch(p: Region, r: Region) {
    p.kind == r.kind && End(p) == r.base
  }

  ghost predicate NoneTouch(s: seq<Region>, n: nat)
    requires n <= |s|
  {
    forall i :: 1 <= i < n ==> !Touch(s[i - 1], s[i])
  }

  /** Sorted, disjoint and non-empty. */
  ghost predicate Clean(s: seq<Region>, top: nat) {
    Sorted(s) && Apart(s, |s|) && AllNonEmpty(s) && Bounded(s, top)
  }

  function Merged(s: seq<Region>, i: nat): seq<Region>
    requires 1 <= i < |s|
  {
    s[..i - 1] + [s[i - 1].(length := s[i - 1].length + s[i].length)] + s[i + 1..]
  }

  lemma MergedAt(s: seq<Region>, i: nat, j: nat)
    requires 1 <= i < |s| && j < |s| - 1
    ensures |Merged(s, i)| == |s| - 1
    ensures Merged(s, i)[j] == if j < i - 1 then s[j]
      else if j == i - 1 then s[j].(length := s[j].length + s[i].length) else s[j + 1]
  {
  }

  lemma MergedClean(s: seq<Region>, i: nat, top: nat)
    requires Clean(s, top) && 1 <= i < |s| && Touch(s[i - 1], s[i]) && NoneTouch(s, i)
    ensures Clean(Merged(s, i), top) && NoneTouch(Merged(s, i), i)
  {
    hide Merged, Clean, NoneTouch;
    var t := Merged(s, i);
    MergedAt(s, i, 0);
    forall j | 0 <= j < |t|
      ensures t[j].length > 0 && End(t[j]) <= top && (t[j].kind == USABLE || t[j].kind == RESERVED)
      ensures t[j].base == s[if j < i then j else j + 1].base
    {
      MergedAt(s, i, j);
      CleanAt(s, top, j);
      CleanAt(s, top, if j + 1 < |s| then j + 1 else j);
    }
    forall j | 1 <= j < |t|
      ensures End(t[j - 1]) <= t[j].base && (j < i ==> !Touch(t[j - 1], t[j]))
    {
      MergedAt(s, i, j - 1);
      MergedAt(s, i, j);
      CleanAt(s, top, j);
      CleanAt(s, top, j + 1);
      NoTouchAt(s, i, j);
    }
    BuildClean(s, t, i, top);
  }

  lemma CleanAt(s: seq<Region>, top: nat, j: nat)
    requires Clean(s, top) && j < |s|
    ensures s[j].length > 0 && End(s[j]) <= top && (s[j].kind == USABLE || s[j].kind == RESERVED)
    ensures j >= 1 ==> End(s[j - 1]) <= s[j].base
  {
  }

  lemma NoTouchAt(s: seq<Region>, n: nat, j: nat)
    requires n <= |s| && NoneTouch(s, n) && 1 <= j < |s|
    ensures j < n ==> !Touch(s[j - 1], s[j])
  {
  }

  lemma BuildClean(s: seq<Region>, t: seq<Region>, i: nat, top: nat)
    requires Clean(s, top) && 1 <= i < |s| && |t| == |s| - 1
    requires forall j :: 0 <= j < |t| ==>
      t[j].length > 0 && End(t[j]) <= top && (t[j].kind == USABLE || t[j].kind == RESERVED)
    requires forall j :: 0 <= j < |t| ==> t[j].base == s[if j < i then j else j + 1].base
    requires forall j :: 1 <= j < |t| ==> End(t[j - 1]) <= t[j].base && (j < i ==> !Touch(t[j - 1], t[j]))
    ensures Clean(t, top) && NoneTouch(t, i)
  {
  }

  lemma MergedCovers(s: seq<Region>, i: nat, kind: nat, x: nat)
    requires 1 <= i < |s| && Touch(s[i - 1], s[i])
    ensures Covers(Merged(s, i), kind, x) <==> Covers(s, kind, x)
  {
    var t := Merged(s, i);
    if Covers(s, kind, x) {
      var j :| 0 <= j < |s| && Within(s[j], kind, x);
      var k := if j < i then j else j - 1;
      MergedAt(s, i, k);
      assert Within(t[k], kind, x);
    }
    if Covers(t, kind, x) {
      var j :| 0 <= j < |t| && Within(t[j], kind, x);
      MergedAt(s, i, j);
      if j == i - 1 {
        assert Within(s[i - 1], kind, x) || Within(s[i], kind, x);
      } else {
        assert Within(s[if j < i then j else j + 1], kind, x);
      }
    }
  }

  lemma MergedSame(s: seq<Region>, i: nat)
    requires 1 <= i < |s| && Touch(s[i - 1], s[i])
    ensures SameCover(s, Merged(s, i))
  {
    hide Covers, Merged;
    forall x
      ensures Covers(Merged(s, i), RESERVED, x) <==> Covers(s, RESERVED, x)
      ensures Covers(Merged(s, i), USABLE, x) <==> Covers(s, USABLE, x)
    {
      MergedCovers(s, i, RESERVED, x);
      MergedCovers(s, i, USABLE, x);
    }
  }

  /** Merge region `i` into the one before it, and close the gap. */
  method MergeAt(a: array<Region>, i: nat, len: nat)
    requires 1 <= i < len <= a.Length
    modifies a
    ensures a[..len - 1] == Merged(old(a[..len]), i)
  {
    ghost var s := a[..len];
    a[i - 1] := a[i - 1].(length := a[i - 1].length + a[i].length);
    for j := i + 1 to len
      invariant forall k :: 0 <= k < i - 1 ==> a[k] == s[k]
      invariant a[i - 1] == s[i - 1].(length := s[i - 1].length + s[i].length)
      invariant forall k :: i <= k < j - 1 ==> a[k] == s[k + 1]
      invariant forall k :: j <= k < len ==> a[k] == s[k]
    {
      a[j - 1] := a[j];
    }
    hide Merged;
    MergedAt(s, i, 0);
    forall k | 0 <= k < len - 1
      ensures a[k] == Merged(s, i)[k]
    {
      MergedAt(s, i, k);
    }
  }

  lemma TightenedTrans(s: seq<Region>, t: seq<Region>, u: seq<Region>)
    requires Tightened(s, t) && Tightened(t, u)
    ensures Tightened(s, u)
  {
  }

  /** Merge touching regions of the same kind. */
  method MergeTouching(a: array<Region>, count: nat, ghost top: nat) returns (len: nat)
    requires count <= a.Length && Clean(a[..count], top)
    modifies a
    ensures len <= count && Clean(a[..len], top) && NoneTouch(a[..len], len) && SameCover(old(a[..count]), a[..len])
  {
    hide Clean, SameCover, NoneTouch;
    ghost var s := a[..count];
    len := count;
    var i := 1;
    MergeBegins(s);
    while i < len
      invariant 1 <= i && len <= count && (i <= len || i == 1) && Clean(a[..len], top) && SameCover(s, a[..len])
      invariant NoneTouch(a[..len], if i <= len then i else len)
      decreases len - i
    {
      ghost var t := a[..len];
      if a[i - 1].kind != a[i].kind {
        NoTouchHere(t, i);
        i := i + 1;
        continue;
      }
      if End(a[i - 1]) != a[i].base {
        NoTouchHere(t, i);
        i := i + 1;
        continue;
      }
      MergedClean(t, i, top);
      MergedSame(t, i);
      MergeAt(a, i, len);
      SameCoverTrans(s, t, a[..len - 1]);
      len := len - 1;
    }
  }

  lemma MergeBegins(s: seq<Region>)
    ensures SameCover(s, s) && NoneTouch(s, if 1 <= |s| then 1 else |s|)
  {
  }

  lemma NoTouchHere(s: seq<Region>, i: nat)
    requires 1 <= i < |s| && NoneTouch(s, i) && !Touch(s[i - 1], s[i])
    ensures NoneTouch(s, i + 1)
  {
  }

  // ---------- how much usable memory is left ----------

  /** Region `q` begins inside region `p`, after its start. */
  predicate Begins(q: Region, p: Region) {
    p.base < q.base < End(p)
  }

  /** No two regions begin at the same address, and a withheld region reaches at
      most into the region that begins next: it ends inside that one, and before
      any other begins. */
  ghost predicate Tame(s: seq<Region>) {
    && (forall p :: p in s ==> multiset(s)[p] == 1)
    && (forall p, q :: p in s && q in s && p.base == q.base ==> p == q)
    && (forall p, q :: p in s && q in s && p.kind != USABLE && Begins(q, p) ==> End(p) < End(q))
    && (forall p, q, r :: p in s && q in s && r in s && p.kind != USABLE && Begins(q, p) && q.base < r.base ==>
      End(p) < r.base)
  }

  /** The region that begins last among those beginning at or before `x` is usable
      and holds `x`. */
  ghost predicate LastUsable(s: seq<Region>, x: nat) {
    exists p :: p in s && LastIs(s, x, p)
  }

  ghost predicate LastIs(s: seq<Region>, x: nat, p: Region) {
    Within(p, USABLE, x) && forall q :: q in s && q.base <= x ==> q.base <= p.base
  }

  ghost predicate Strict(s: seq<Region>) {
    forall i, j :: 0 <= i < j < |s| ==> s[i].base < s[j].base
  }

  /** Region `i` begins inside the reserved one before it. */
  predicate Reaches(s: seq<Region>, i: nat)
    requires 1 <= i < |s|
  {
    s[i - 1].kind == RESERVED && End(s[i - 1]) > s[i].base
  }

  ghost predicate ReachOk(s: seq<Region>, i: nat)
    requires 1 <= i < |s|
  {
    Reaches(s, i) ==> End(s[i - 1]) < End(s[i]) && (i + 1 < |s| ==> End(s[i - 1]) < s[i + 1].base)
  }

  /** `Tame`, of regions in order. */
  ghost predicate TameOrder(s: seq<Region>) {
    Strict(s) && forall i :: 1 <= i < |s| ==> ReachOk(s, i)
  }

  /** Where region `i` begins after a pass ... */
  function Low(s: seq<Region>, i: nat): nat
    requires i < |s|
  {
    if i >= 1 && Reaches(s, i) then End(s[i - 1]) else s[i].base
  }

  /** ... and where it ends. */
  function High(s: seq<Region>, i: nat): nat
    requires i < |s|
  {
    if s[i].kind != RESERVED && i + 1 < |s| && s[i + 1].base < End(s[i]) then s[i + 1].base else End(s[i])
  }

  function Trim(s: seq<Region>, i: nat): Region
    requires i < |s|
  {
    s[i].(base := Low(s, i), length := SaturatingSub(High(s, i), Low(s, i)))
  }

  ghost function Trimmed(s: seq<Region>): seq<Region> {
    seq(|s|, i requires 0 <= i < |s| => Trim(s, i))
  }

  /** The pass over `s` has come to `n`: what is before is trimmed, and region
      `n - 1` has its new start. */
  ghost predicate Trimming(s: seq<Region>, t: seq<Region>, n: nat) {
    && |t| == |s| && 1 <= n
    && (forall j :: 0 <= j < n - 1 && j < |s| ==> t[j] == Trim(s, j))
    && (n - 1 < |s| ==>
      t[n - 1] == s[n - 1].(base := Low(s, n - 1), length := SaturatingSub(End(s[n - 1]), Low(s, n - 1))))
    && (forall j :: n <= j < |s| ==> t[j] == s[j])
  }

  /** What a pass does at region `i`. */
  function Stepped(t: seq<Region>, i: nat): seq<Region>
    requires 1 <= i < |t|
  {
    if End(t[i - 1]) <= t[i].base then t
    else if t[i - 1].kind == RESERVED then t[i := Shifted(t[i - 1], t[i])]
    else t[i - 1 := Shrunk(t[i - 1], t[i])]
  }

  lemma LowBound(s: seq<Region>, i: nat)
    requires TameOrder(s) && i < |s|
    ensures s[i].base <= Low(s, i) <= End(s[i]) && (i + 1 < |s| ==> Low(s, i) < s[i + 1].base)
  {
    if i >= 1 {
      assert ReachOk(s, i);
    }
  }

  lemma TrimStep(s: seq<Region>, t: seq<Region>, i: nat)
    requires TameOrder(s) && Trimming(s, t, i) && i < |s|
    ensures Trimming(s, Stepped(t, i), i + 1)
  {
    hide TameOrder, Trim, Low;
    TrimPair(s, t[i - 1], i);
  }

  /** What the step does to region `i - 1`, which has its new start, and to region `i`. */
  lemma TrimPair(s: seq<Region>, p: Region, i: nat)
    requires TameOrder(s) && 1 <= i < |s|
    requires p == s[i - 1].(base := Low(s, i - 1), length := SaturatingSub(End(s[i - 1]), Low(s, i - 1)))
    ensures End(p) <= s[i].base ==> p == Trim(s, i - 1) && Low(s, i) == s[i].base
    ensures End(p) > s[i].base && p.kind == RESERVED ==>
      p == Trim(s, i - 1) && Shifted(p, s[i]) == s[i].(base := Low(s, i), length := SaturatingSub(End(s[i]), Low(s, i)))
    ensures End(p) > s[i].base && p.kind != RESERVED ==> Shrunk(p, s[i]) == Trim(s, i - 1) && Low(s, i) == s[i].base
  {
    hide TameOrder;
    LowBound(s, i - 1);
    LowBound(s, i);
    assert End(p) == End(s[i - 1]);
  }

  lemma TrimEnds(s: seq<Region>, t: seq<Region>, i: nat)
    requires Trimming(s, t, i) && (i == |s| || (i == 1 && |s| == 0))
    ensures t == Trimmed(s)
  {
  }

  /** After a pass over a tame map the regions are in order and apart. */
  lemma TrimmedQuiet(s: seq<Region>)
    requires TameOrder(s)
    ensures Strict(Trimmed(s)) && Apart(Trimmed(s), |s|)
  {
    var t := Trimmed(s);
    forall i, j | 0 <= i < j < |s|
      ensures t[i].base < t[j].base
    {
      LowBound(s, i);
      LowBound(s, j);
    }
    forall i | 1 <= i < |s|
      ensures End(t[i - 1]) <= t[i].base
    {
      LowBound(s, i - 1);
      LowBound(s, i);
    }
  }

  /** A reserved region does not reach beyond the start of the second next. */
  lemma ReachesOne(s: seq<Region>, j: nat, i: nat)
    requires TameOrder(s) && j < i < |s| && s[j].kind == RESERVED && End(s[j]) > s[i].base
    ensures j == i - 1
  {
    assert ReachOk(s, j + 1);
  }

  lemma TrimmedCovers(s: seq<Region>, x: nat)
    requires TameOrder(s)
    ensures Covers(Trimmed(s), USABLE, x) <==> LastUsable(s, x) && !Covers(s, RESERVED, x)
  {
    if Covers(Trimmed(s), USABLE, x) {
      TrimmedInside(s, x);
    }
    if LastUsable(s, x) && !Covers(s, RESERVED, x) {
      var p :| p in s && LastIs(s, x, p);
      var i :| 0 <= i < |s| && s[i] == p;
      if i >= 1 && Reaches(s, i) {
        assert !Within(s[i - 1], RESERVED, x);
      }
      if i + 1 < |s| {
        assert s[i + 1] in s;
      }
      assert Within(Trimmed(s)[i], USABLE, x);
    }
  }

  lemma TrimmedInside(s: seq<Region>, x: nat)
    requires TameOrder(s) && Covers(Trimmed(s), USABLE, x)
    ensures LastUsable(s, x) && !Covers(s, RESERVED, x)
  {
    hide TameOrder, Low, High;
    var i :| 0 <= i < |s| && Within(Trimmed(s)[i], USABLE, x);
    TrimInside(s, i, x);
    forall j | 0 <= j < |s| && s[j].base <= x
      ensures j <= i && s[j].base <= s[i].base && !Within(s[j], RESERVED, x)
    {
      BegunBefore(s, i, j, x);
    }
    assert s[i] in s && LastIs(s, x, s[i]);
  }

  lemma TrimInside(s: seq<Region>, i: nat, x: nat)
    requires TameOrder(s) && i < |s| && Within(Trim(s, i), USABLE, x)
    ensures Low(s, i) <= x && s[i].base <= x < End(s[i]) && s[i].kind == USABLE && (i + 1 < |s| ==> x < s[i + 1].base)
  {
    LowBound(s, i);
  }

  lemma BegunBefore(s: seq<Region>, i: nat, j: nat, x: nat)
    requires TameOrder(s) && i < |s| && j < |s| && s[j].base <= x && s[i].kind == USABLE
    requires Low(s, i) <= x && s[i].base <= x && (i + 1 < |s| ==> x < s[i + 1].base)
    ensures j <= i && s[j].base <= s[i].base && !Within(s[j], RESERVED, x)
  {
    if Within(s[j], RESERVED, x) {
      ReachesOne(s, j, i);
    }
  }

  lemma Duplicate(t: seq<Region>, i: nat, j: nat)
    requires i < j < |t| && t[i] == t[j]
    ensures multiset(t)[t[i]] >= 2
  {
    assert t == t[..j] + [t[j]] + t[j + 1..];
    assert t[..j][i] == t[i];
    assert t[i] in multiset(t[..j]);
  }

  lemma TamePair(s: seq<Region>, p: Region, q: Region)
    requires Tame(s) && p in s && q in s
    ensures multiset(s)[p] == 1 && (p.base == q.base ==> p == q)
    ensures p.kind != USABLE && Begins(q, p) ==>
      End(p) < End(q) && forall r :: r in s && q.base < r.base ==> End(p) < r.base
  {
  }

  /** A tame map, sorted and marked, is tame in order. */
  lemma TameSorted(s: seq<Region>, t: seq<Region>, u: seq<Region>)
    requires Tame(s) && multiset(s) == multiset(t) && Sorted(t)
    requires |u| == |t| && forall i :: 0 <= i < |t| ==> u[i] == Marked(t[i])
    ensures TameOrder(u)
  {
    hide Tame;
    TameStrict(s, t);
    SameMembers(s, t);
    forall i | 1 <= i < |u|
      ensures ReachOk(u, i)
    {
      assert t[i - 1] in t && t[i] in t;
      TamePair(s, t[i - 1], t[i]);
      if i + 1 < |u| {
        assert t[i + 1] in t;
      }
    }
  }

  lemma TameStrict(s: seq<Region>, t: seq<Region>)
    requires Tame(s) && multiset(s) == multiset(t) && Sorted(t)
    ensures Strict(t)
  {
    hide Tame;
    SameMembers(s, t);
    forall i, j | 0 <= i < j < |t|
      ensures t[i].base < t[j].base
    {
      assert t[i] in t && t[j] in t;
      TamePair(s, t[i], t[j]);
      if t[i].base == t[j].base {
        Duplicate(t, i, j);
      }
    }
  }

  lemma SameMembers(s: seq<Region>, t: seq<Region>)
    requires multiset(s) == multiset(t)
    ensures forall p :: p in s <==> p in t
  {
    forall p
      ensures p in s <==> p in t
    {
      assert p in multiset(s) <==> p in multiset(t);
    }
  }

  lemma LastMarked(s: seq<Region>, t: seq<Region>, u: seq<Region>, x: nat)
    requires multiset(s) == multiset(t) && |u| == |t| && forall i :: 0 <= i < |t| ==> u[i] == Marked(t[i])
    ensures LastUsable(s, x) <==> LastUsable(u, x)
  {
    SameMembers(s, t);
    if p :| p in s && LastIs(s, x, p) {
      var i :| 0 <= i < |t| && t[i] == p;
      assert u[i] in u && LastIs(u, x, u[i]);
    }
    if p :| p in u && LastIs(u, x, p) {
      var i :| 0 <= i < |u| && u[i] == p;
      forall q | q in s && q.base <= x
        ensures q.base <= p.base
      {
        var j :| 0 <= j < |t| && t[j] == q;
        assert u[j] in u;
      }
      assert LastIs(s, x, t[i]);
    }
  }

  /** Sorting regions that are in order and apart leaves them so. */
  lemma QuietMoved(s: seq<Region>, t: seq<Region>)
    requires Strict(s) && Apart(s, |s|) && multiset(s) == multiset(t) && Sorted(t)
    ensures Strict(t) && Apart(t, |t|)
  {
    SameMembers(s, t);
    forall i, j | 0 <= i < j < |t|
      ensures t[i].base < t[j].base && (j == i + 1 ==> End(t[i]) <= t[j].base)
    {
      assert t[i] in t && t[j] in t;
      var k :| 0 <= k < |s| && s[k] == t[i];
      var m :| 0 <= m < |s| && s[m] == t[j];
      if k == m {
        Duplicate(t, i, j);
        Once(s, k);
      }
      if k < m {
        ApartOrder(s, k, m);
      }
    }
  }

  lemma Once(s: seq<Region>, k: nat)
    requires k < |s| && forall j :: 0 <= j < |s| && j != k ==> s[j] != s[k]
    ensures multiset(s)[s[k]] == 1
  {
    assert s == s[..k] + [s[k]] + s[k + 1..];
    assert s[k] !in s[..k] && s[k] !in s[k + 1..];
  }

  lemma ApartOrder(s: seq<Region>, p: nat, q: nat)
    requires Strict(s) && Apart(s, |s|) && p < q < |s|
    ensures End(s[p]) <= s[q].base
  {
    assert End(s[p + 1 - 1]) <= s[p + 1].base;
  }

  ghost predicate Before(s: seq<Region>, r: Region) {
    forall i :: 0 <= i < |s| ==> s[i].base < r.base && End(s[i]) <= r.base
  }

  lemma QuietPrefix(s: seq<Region>)
    requires s != [] && Strict(s) && Apart(s, |s|)
    ensures var n := |s| - 1; Strict(s[..n]) && Apart(s[..n], n) && Before(s[..n], s[n])
  {
    var n := |s| - 1;
    forall i | 0 <= i < n
      ensures s[..n][i].base < s[n].base && End(s[..n][i]) <= s[n].base
    {
      ApartOrder(s, i, n);
    }
  }

  lemma QuietAppended(s: seq<Region>, r: Region)
    requires Strict(s) && Apart(s, |s|) && Before(s, r)
    ensures Strict(s + [r]) && Apart(s + [r], |s| + 1)
  {
  }

  lemma {:induction false} NonEmptyQuiet(s: seq<Region>)
    requires Strict(s) && Apart(s, |s|)
    ensures Strict(NonEmpty(s)) && Apart(NonEmpty(s), |NonEmpty(s)|) && forall r :: Before(s, r) ==>
      Before(NonEmpty(s), r)
  {
    hide Strict, Apart;
    if s == [] {
      QuietNone();
    } else {
      var n := |s| - 1;
      QuietPrefix(s);
      NonEmptyQuiet(s[..n]);
      QuietAppended(NonEmpty(s[..n]), s[n]);
      forall r | Before(s, r)
        ensures Before(s[..n], r) && s[n].base < r.base && End(s[n]) <= r.base
      {
      }
    }
  }

  lemma QuietNone()
    ensures Strict([]) && Apart([], 0)
  {
  }

  /** A region begins inside a usable one, ends before it does, and no other region
      begins before that end: the rest of the usable one is cut off. */
  ghost predicate CutsOff(s: seq<Region>) {
    exists p, q :: p in s && q in s && CutOffBy(s, p, q)
  }

  ghost predicate CutOffBy(s: seq<Region>, p: Region, q: Region) {
    p.kind == USABLE && p.base < q.base && End(q) < End(p) && forall r :: r in s && q.base < r.base ==> End(q) < r.base
  }

  /** In a tame map every usable address that is not withheld stays usable, exactly
      when no usable region is cut off. */
  lemma KeepsAll(s: seq<Region>)
    requires Tame(s)
    ensures (forall x :: Covers(s, USABLE, x) && !Withheld(s, x) ==> LastUsable(s, x)) <==> !CutsOff(s)
  {
    if p, q :| p in s && q in s && CutOffBy(s, p, q) {
      CutOffLoses(s, p, q);
    }
    if !CutsOff(s) {
      forall x | Covers(s, USABLE, x) && !Withheld(s, x)
        ensures LastUsable(s, x)
      {
        NotCutOff(s, x);
      }
    }
  }

  /** A map of non-empty regions no two of which overlap keeps all of its usable memory. */
  lemma NoOverlaps(s: seq<Region>)
    requires AllNonEmpty(s) && forall i, j :: 0 <= i < |s| && 0 <= j < |s| && i != j ==> Disjoint(s[i], s[j])
    ensures Tame(s) && !CutsOff(s)
  {
    forall p, q | p in s && q in s
      ensures multiset(s)[p] == 1 && (p.base == q.base ==> p == q) && !Begins(q, p)
    {
      var i :| 0 <= i < |s| && s[i] == p;
      var j :| 0 <= j < |s| && s[j] == q;
      forall k | 0 <= k < |s| && k != i
        ensures s[k] != s[i]
      {
        assert Disjoint(s[k], s[i]);
      }
      Once(s, i);
      assert i != j ==> Disjoint(s[i], s[j]);
    }
  }

  predicate Disjoint(p: Region, q: Region) {
    End(p) <= q.base || End(q) <= p.base
  }

  lemma CutOffLoses(s: seq<Region>, p: Region, q: Region)
    requires Tame(s) && p in s && q in s && CutOffBy(s, p, q)
    ensures Covers(s, USABLE, End(q)) && !Withheld(s, End(q)) && !LastUsable(s, End(q))
  {
    var k :| 0 <= k < |s| && s[k] == p;
    assert Within(s[k], USABLE, End(q));
    if i :| 0 <= i < |s| && s[i].kind != USABLE && s[i].base <= End(q) < End(s[i]) {
      assert s[i] in s;
      assert s[i].base < q.base;
      assert Begins(q, s[i]);
      assert false;
    }
  }

  lemma NotCutOff(s: seq<Region>, x: nat)
    requires Tame(s) && !CutsOff(s) && Covers(s, USABLE, x) && !Withheld(s, x)
    ensures LastUsable(s, x)
  {
    var k :| 0 <= k < |s| && Within(s[k], USABLE, x);
    var m := LastBegun(s, x, |s|, k);
    var q := s[m];
    assert q in s && s[k] in s;
    if x < End(q) {
      assert LastIs(s, x, q);
    } else {
      assert CutOffBy(s, s[k], q);
    }
  }

  /** The region that begins last among the first `n` that begin at or before `x`. */
  lemma {:induction false} LastBegun(s: seq<Region>, x: nat, n: nat, k: nat) returns (m: nat)
    requires k < |s| && s[k].base <= x && n <= |s|
    ensures m < |s| && s[m].base <= x && s[k].base <= s[m].base
    ensures forall i :: 0 <= i < n && s[i].base <= x ==> s[i].base <= s[m].base
  {
    if n == 0 {
      m := k;
    } else {
      m := LastBegun(s, x, n - 1, k);
      if s[m].base < s[n - 1].base <= x {
        m := n - 1;
      }
    }
  }

  // ---------- the whole ----------

  /** Some region that is not usable covers `x`. */
  ghost predicate Withheld(s: seq<Region>, x: nat) {
    exists i :: 0 <= i < |s| && s[i].kind != USABLE && s[i].base <= x < End(s[i])
  }

  /** Every kind but usable becomes reserved. */
  method MarkReserved(a: array<Region>)
    modifies a
    ensures forall i :: 0 <= i < a.Length ==> a[i] == Marked(old(a[i]))
  {
    ghost var s := a[..];
    for i := 0 to a.Length
      invariant forall j :: 0 <= j < i ==> a[j] == Marked(s[j])
      invariant forall j :: i <= j < a.Length ==> a[j] == s[j]
    {
      if a[i].kind != USABLE {
        a[i] := a[i].(kind := RESERVED);
      }
    }
  }

  function Marked(r: Region): Region {
    if r.kind != USABLE then r.(kind := RESERVED) else r
  }

  lemma MarkedCovers(s: seq<Region>, t: seq<Region>)
    requires |t| == |s| && forall j :: 0 <= j < |s| ==> t[j] == Marked(s[j])
    ensures forall x :: Covers(t, RESERVED, x) <==> Withheld(s, x)
    ensures forall x :: Covers(t, USABLE, x) <==> Covers(s, USABLE, x)
  {
    forall x: nat
      ensures Covers(t, RESERVED, x) <==> Withheld(s, x)
      ensures Covers(t, USABLE, x) <==> Covers(s, USABLE, x)
    {
      if i :| 0 <= i < |t| && Within(t[i], RESERVED, x) {
        assert s[i].kind != USABLE;
      }
      if i :| 0 <= i < |s| && s[i].kind != USABLE && s[i].base <= x < End(s[i]) {
        assert Within(t[i], RESERVED, x);
      }
      if i :| 0 <= i < |t| && Within(t[i], USABLE, x) {
        assert Within(s[i], USABLE, x);
      }
      if i :| 0 <= i < |s| && Within(s[i], USABLE, x) {
        assert Within(t[i], USABLE, x);
      }
    }
  }

  lemma MovedSame(s: seq<Region>, t: seq<Region>)
    requires multiset(s) == multiset(t)
    ensures SameCover(s, t) && Tightened(s, t)
  {
    hide Covers;
    forall x
      ensures Covers(t, RESERVED, x) <==> Covers(s, RESERVED, x)
      ensures Covers(t, USABLE, x) <==> Covers(s, USABLE, x)
    {
      SameCovers(s, t, RESERVED, x);
      SameCovers(s, t, USABLE, x);
    }
  }

  lemma CleanOrder(s: seq<Region>, top: nat, p: nat, q: nat)
    requires Clean(s, top) && p < q < |s|
    ensures End(s[p]) <= s[q].base
  {
    assert End(s[p + 1 - 1]) <= s[p + 1].base;
  }

  /** In a clean map no address is both usable and reserved. */
  lemma CleanExcludes(s: seq<Region>, top: nat, x: nat)
    requires Clean(s, top)
    ensures !(Covers(s, USABLE, x) && Covers(s, RESERVED, x))
  {
    hide Clean;
    if Covers(s, USABLE, x) && Covers(s, RESERVED, x) {
      var i :| 0 <= i < |s| && Within(s[i], USABLE, x);
      var j :| 0 <= j < |s| && Within(s[j], RESERVED, x);
      if i < j {
        CleanOrder(s, top, i, j);
      } else if j < i {
        CleanOrder(s, top, j, i);
      }
    }
  }

  /** Repeat until there are neither overlaps nor empty regions. */
  method Disentangle(a: array<Region>, count: nat, ghost top: nat) returns (len: nat)
    requires count <= a.Length && Sorted(a[..count]) && Bounded(a[..count], top)
    modifies a
    ensures len <= count && Clean(a[..len], top) && Tightened(old(a[..count]), a[..len])
    ensures TameOrder(old(a[..count])) ==> SameCover(Trimmed(old(a[..count])), a[..len])
  {
    hide Covers, Slack, Sorted, Bounded, Apart, NonEmpty, Tightened, TameOrder, Trimmed, SameCover, Strict;
    ghost var s := a[..count];
    len := count;
    Same(s);
    ghost var first := true;
    while true
      invariant TameOrder(s) ==> if first then a[..len] == s else Settled(s, a[..len])
      invariant len <= count && Sorted(a[..len]) && Bounded(a[..len], top) && Tightened(s, a[..len])
      decreases len, Slack(a[..len], top)
    {
      ghost var t := a[..len];
      SlackPositive(t, top);
      var changed := ResolveOverlaps(a, len, top);
      ghost var u := a[..len];
      TightenedTrans(s, t, u);
      if TameOrder(s) {
        if first {
          SettledFirst(s);
        } else {
          assert u == t;
        }
        SettledOn(s, u);
      }
      first := false;
      if changed {
        SortByBase(a, len, top);
        BoundedMoved(u, a[..len], top);
        MovedSame(u, a[..len]);
        TightenedTrans(s, u, a[..len]);
        SlackPositive(a[..len], top);
        if TameOrder(s) {
          SettledMoved(s, u, a[..len]);
        }
        continue;
      }
      NonEmptyBounded(u, top);
      NonEmptySame(u);
      NonEmptyAll(u);
      TightenedTrans(s, u, NonEmpty(u));
      var kept := RemoveEmpty(a, len);
      if kept == len {
        assert a[..len] == u;
        break;
      }
      len := kept;
    }
  }

  /** One pass has trimmed the map, and what has happened since left it so. */
  ghost predicate Settled(s: seq<Region>, t: seq<Region>) {
    Strict(t) && Apart(t, |t|) && SameCover(Trimmed(s), t)
  }

  lemma SettledFirst(s: seq<Region>)
    requires TameOrder(s)
    ensures Settled(s, Trimmed(s))
  {
    hide Strict, Apart, Covers;
    TrimmedQuiet(s);
  }

  lemma SettledOn(s: seq<Region>, u: seq<Region>)
    requires Settled(s, u)
    ensures Settled(s, NonEmpty(u)) && SameCover(Trimmed(s), u)
  {
    hide Strict, Apart, SameCover;
    NonEmptyQuiet(u);
    NonEmptySame(u);
    SameCoverTrans(Trimmed(s), u, NonEmpty(u));
  }

  lemma SettledMoved(s: seq<Region>, u: seq<Region>, v: seq<Region>)
    requires Settled(s, u) && multiset(u) == multiset(v) && Sorted(v)
    ensures Settled(s, v)
  {
    hide Strict, Apart, SameCover, Sorted;
    QuietMoved(u, v);
    MovedSame(u, v);
    SameCoverTrans(Trimmed(s), u, v);
  }

  lemma Same(s: seq<Region>)
    ensures Tightened(s, s)
  {
  }

  /** Bring the map in order.  The first `len` regions of the result are sorted,
      disjoint and non-empty, and no two of the same kind touch; they reserve
      exactly what some input region withheld, and make usable only what was usable and
      withheld by none. */
  method Normalize(a: array<Region>) returns (len: nat)
    requires forall i :: 0 <= i < a.Length ==> End(a[i]) <= U64_MAX
    modifies a
    ensures len <= a.Length && Clean(a[..len], U64_MAX) && NoneTouch(a[..len], len)
    ensures forall x :: Covers(a[..len], RESERVED, x) <==> Withheld(old(a[..]), x)
    ensures forall x :: Covers(a[..len], USABLE, x) ==> Covers(old(a[..]), USABLE, x) && !Withheld(old(a[..]), x)
    ensures Tame(old(a[..])) ==>
      forall x :: Covers(a[..len], USABLE, x) <==> LastUsable(old(a[..]), x) && !Withheld(old(a[..]), x)
    ensures Tame(old(a[..])) && !CutsOff(old(a[..])) ==>
      forall x :: Covers(a[..len], USABLE, x) <==> Covers(old(a[..]), USABLE, x) && !Withheld(old(a[..]), x)
  {
    hide Covers, Withheld, Slack, Clean, NoneTouch, Tightened, Sorted, Bounded, Tame, TameOrder, Trimmed, LastUsable,
      SameCover, CutsOff;
    ghost var s := a[..];
    assert a[..a.Length] == a[..];
    SortByBase(a, a.Length, U64_MAX);
    assert a[..a.Length] == a[..];
    ghost var t := a[..];
    MarkReserved(a);
    ghost var u := a[..];
    Prepared(s, t, u);
    assert a[..a.Length] == a[..];
    len := Disentangle(a, a.Length, U64_MAX);
    ghost var v := a[..len];
    len := MergeTouching(a, len, U64_MAX);
    SameTightens(v, a[..len]);
    TightenedTrans(u, v, a[..len]);
    Concluded(s, u, a[..len]);
    if Tame(s) {
      TameSorted(s, t, u);
      SameCoverTrans(Trimmed(u), v, a[..len]);
      TameConcluded(s, t, u, a[..len]);
    }
  }

  lemma TameConcluded(s: seq<Region>, t: seq<Region>, u: seq<Region>, v: seq<Region>)
    requires Tame(s) && multiset(s) == multiset(t) && |u| == |t| && forall i :: 0 <= i < |t| ==> u[i] == Marked(t[i])
    requires TameOrder(u) && SameCover(Trimmed(u), v) && forall x :: Covers(u, RESERVED, x) <==> Withheld(s, x)
    requires forall x :: Covers(v, USABLE, x) ==> Covers(s, USABLE, x) && !Withheld(s, x)
    ensures forall x :: Covers(v, USABLE, x) <==> LastUsable(s, x) && !Withheld(s, x)
    ensures !CutsOff(s) ==> forall x :: Covers(v, USABLE, x) <==> Covers(s, USABLE, x) && !Withheld(s, x)
  {
    hide Covers, Withheld, LastUsable, Tame, TameOrder, Trimmed, CutsOff;
    forall x: nat
      ensures Covers(v, USABLE, x) <==> LastUsable(s, x) && !Withheld(s, x)
    {
      LastMarked(s, t, u, x);
      TrimmedCovers(u, x);
    }
    KeepsAll(s);
  }

  /** A usable region `p` with another one `q` inside it that is not usable: the part of
      `p` behind `q` is lost, though nobody withholds it. */
  method TailLost(p: Region, q: Region) returns (a: array<Region>, len: nat)
    requires p.kind == USABLE && q.kind != USABLE && p.base < q.base && End(q) < End(p) <= U64_MAX
    ensures Tame([q, p]) && CutsOff([q, p]) && len <= a.Length
    ensures forall x :: End(q) <= x < End(p) ==>
      Covers([q, p], USABLE, x) && !Withheld([q, p], x) && !Covers(a[..len], USABLE, x)
    ensures forall x :: p.base <= x < q.base ==> Covers(a[..len], USABLE, x)
  {
    hide Tame, Covers, Withheld, LastUsable, CutsOff, Clean, NoneTouch;
    a := new Region[2][q, p];
    assert a[..] == [q, p];
    Interrupted([q, p], q, p);
    len := Normalize(a);
  }

  lemma Interrupted(s: seq<Region>, q: Region, p: Region)
    requires s == [q, p] && p.kind == USABLE && q.kind != USABLE && p.base < q.base && End(q) < End(p)
    ensures Tame(s) && CutsOff(s)
    ensures forall x :: End(q) <= x < End(p) ==> Covers(s, USABLE, x) && !Withheld(s, x) && !LastUsable(s, x)
    ensures forall x :: p.base <= x < q.base ==> LastUsable(s, x) && !Withheld(s, x)
  {
    hide Tame;
    TwoTame(s, q, p);
    assert CutOffBy(s, p, q);
    forall x | p.base <= x < End(p)
      ensures Covers(s, USABLE, x) && (!(q.base <= x < End(q)) ==> !Withheld(s, x))
    {
      assert Within(s[1], USABLE, x);
    }
    forall x | p.base <= x < q.base
      ensures LastUsable(s, x)
    {
      assert LastIs(s, x, p);
    }
  }

  /** Two regions that begin at different addresses, the later inside the earlier
      only if that is usable. */
  lemma TwoTame(s: seq<Region>, q: Region, p: Region)
    requires s == [q, p] && p.base < q.base && (Begins(q, p) ==> p.kind == USABLE)
    ensures Tame(s) && p in s && q in s && forall r :: r in s ==> r == p || r == q
  {
    assert s[0] == q && s[1] == p;
    assert multiset(s) == multiset{p, q};
  }

  /** Sorting and marking keep what is usable and what is withheld. */
  lemma Prepared(s: seq<Region>, t: seq<Region>, u: seq<Region>)
    requires multiset(s) == multiset(t) && Sorted(t) && |u| == |t| && forall i :: 0 <= i < |t| ==> u[i] == Marked(t[i])
    requires forall i :: 0 <= i < |s| ==> End(s[i]) <= U64_MAX
    ensures Sorted(u) && Bounded(u, U64_MAX)
    ensures forall x :: Covers(u, RESERVED, x) <==> Withheld(s, x)
    ensures forall x :: Covers(u, USABLE, x) <==> Covers(s, USABLE, x)
  {
    forall i | 0 <= i < |t|
      ensures End(u[i]) <= U64_MAX
    {
      assert t[i] in multiset(t);
      assert t[i] in s;
    }
    MarkedCovers(t, u);
    hide Covers, Withheld;
    forall x
      ensures Covers(t, USABLE, x) <==> Covers(s, USABLE, x)
      ensures Withheld(t, x) <==> Withheld(s, x)
    {
      SameCovers(s, t, USABLE, x);
      WithheldMoved(s, t, x);
      WithheldMoved(t, s, x);
    }
  }

  lemma WithheldMoved(s: seq<Region>, t: seq<Region>, x: nat)
    requires multiset(s) == multiset(t)
    ensures Withheld(s, x) ==> Withheld(t, x)
  {
    if i :| 0 <= i < |s| && s[i].kind != USABLE && s[i].base <= x < End(s[i]) {
      assert s[i] in multiset(s);
      assert s[i] in t;
    }
  }

  lemma Concluded(s: seq<Region>, u: seq<Region>, v: seq<Region>)
    requires Tightened(u, v) && Clean(v, U64_MAX)
    requires forall x :: Covers(u, RESERVED, x) <==> Withheld(s, x)
    requires forall x :: Covers(u, USABLE, x) <==> Covers(s, USABLE, x)
    ensures forall x :: Covers(v, RESERVED, x) <==> Withheld(s, x)
    ensures forall x :: Covers(v, USABLE, x) ==> Covers(s, USABLE, x) && !Withheld(s, x)
  {
    hide Covers, Withheld, Clean;
    forall x
      ensures Covers(v, USABLE, x) ==> !Covers(v, RESERVED, x)
    {
      CleanExcludes(v, U64_MAX, x);
    }
  }
}
