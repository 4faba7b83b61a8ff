/** The slab heap's two kinds of lists in memory: the free blocks of a page, and
    the pages of a bucket, linked both ways. */
module SlabLists {

  type Addr = nat
  type Words = map<Addr, Addr>

  ghost predicate Distinct(list: seq<Addr>) {
    forall i, j :: 0 <= i < j < |list| ==> list[i] != list[j]
  }

  function After(list: seq<Addr>, i: int): Addr
    requires -1 <= i < |list|
  {
    if i + 1 < |list| then list[i + 1] else 0
  }

  function Before(list: seq<Addr>, i: nat): Addr
    requires i < |list|
  {
    if i == 0 then 0 else list[i - 1]
  }

  // ---------- free blocks ----------

  ghost predicate LinkAt(link: Words, list: seq<Addr>, i: nat)
    requires i < |list|
  {
    list[i] in link && link[list[i]] == After(list, i)
  }

  /** `list` is chained from `head` through the first word of each block. */
  ghost predicate FreeChain(link: Words, head: Addr, list: seq<Addr>) {
    && head == After(list, -1) && Distinct(list) && 0 !in list
    && (forall i :: 0 <= i < |list| ==> LinkAt(link, list, i))
  }

  lemma FreePush(link: Words, head: Addr, list: seq<Addr>, a: Addr)
    requires FreeChain(link, head, list) && a !in list && a != 0
    ensures FreeChain(link[a := head], a, [a] + list)
  {
    var link', list' := link[a := head], [a] + list;
    forall i | 0 <= i < |list'|
      ensures LinkAt(link', list', i)
    {
      if i > 0 {
        assert LinkAt(link, list, i - 1);
      }
    }
  }

  lemma FreePop(link: Words, head: Addr, list: seq<Addr>)
    requires FreeChain(link, head, list) && list != []
    ensures head == list[0] && head in link && FreeChain(link, link[head], list[1..]) && head !in list[1..]
  {
    assert LinkAt(link, list, 0);
    forall i | 0 <= i < |list[1..]|
      ensures LinkAt(link, list[1..], i)
    {
      assert LinkAt(link, list, i + 1);
    }
  }

  /** Words outside the list do not matter. */
  lemma FreeFrame(link: Words, head: Addr, list: seq<Addr>, a: Addr, w: Addr)
    requires FreeChain(link, head, list) && a !in list
    ensures FreeChain(link[a := w], head, list)
  {
    var link' := link[a := w];
    forall i | 0 <= i < |list|
      ensures LinkAt(link', list, i)
    {
      assert LinkAt(link, list, i);
    }
  }

  // ---------- pages of a bucket ----------

  ghost predicate PageAt(prev: Words, next: Words, list: seq<Addr>, i: nat)
    requires i < |list|
  {
    && list[i] in prev && list[i] in next
    && next[list[i]] == After(list, i) && prev[list[i]] == Before(list, i)
  }

  /** `list` is linked both ways from `first`. */
  ghost predicate PageList(prev: Words, next: Words, first: Addr, list: seq<Addr>) {
    && first == After(list, -1) && Distinct(list) && 0 !in list
    && (forall i :: 0 <= i < |list| ==> PageAt(prev, next, list, i))
  }

  lemma PageFrame(prev: Words, next: Words, prev': Words, next': Words, first: Addr, list: seq<Addr>)
    requires PageList(prev, next, first, list)
    requires forall p :: p in list && p in prev ==> p in prev' && prev'[p] == prev[p]
    requires forall p :: p in list && p in next ==> p in next' && next'[p] == next[p]
    ensures PageList(prev', next', first, list)
  {
    forall i | 0 <= i < |list|
      ensures PageAt(prev', next', list, i)
    {
      assert PageAt(prev, next, list, i);
    }
  }

  /** `prev` of the page at the front, if any, set to `w`. */
  function FrontPrev(prev: Words, first: Addr, w: Addr): Words {
    if first != 0 then prev[first := w] else prev
  }

  lemma PagePush(prev: Words, next: Words, first: Addr, list: seq<Addr>, p: Addr)
    requires PageList(prev, next, first, list) && p !in list && p != 0
    ensures PageList(FrontPrev(prev, first, p)[p := 0], next[p := first], p, [p] + list)
  {
    var prev', next', list' := FrontPrev(prev, first, p)[p := 0], next[p := first], [p] + list;
    forall i | 0 <= i < |list'|
      ensures PageAt(prev', next', list', i)
    {
      if i > 0 {
        assert PageAt(prev, next, list, i - 1);
      }
    }
  }

  lemma PagePop(prev: Words, next: Words, first: Addr, list: seq<Addr>)
    requires PageList(prev, next, first, list) && list != []
    ensures first == list[0] && first in next && PageList(FrontPrev(prev, next[first], 0), next, next[first], list[1..])
  {
    assert PageAt(prev, next, list, 0);
    var prev' := FrontPrev(prev, next[first], 0);
    forall i | 0 <= i < |list[1..]|
      ensures PageAt(prev', next, list[1..], i)
    {
      assert PageAt(prev, next, list, i + 1);
    }
  }

  function Dropped(list: seq<Addr>, k: nat): seq<Addr>
    requires k < |list|
  {
    list[..k] + list[k + 1..]
  }

  /** Taking a page out of the middle. */
  lemma PageUnlink(prev: Words, next: Words, first: Addr, list: seq<Addr>, k: nat)
    requires PageList(prev, next, first, list) && 0 < k < |list|
    ensures list[k] in prev && list[k] in next && prev[list[k]] != 0 && prev[list[k]] == list[k - 1]
    ensures PageList(FrontPrev(prev, next[list[k]], prev[list[k]]), next[prev[list[k]] := next[list[k]]], first,
      Dropped(list, k))
  {
    assert PageAt(prev, next, list, k) && PageAt(prev, next, list, k - 1);
    var p, list' := list[k], Dropped(list, k);
    var prev', next' := FrontPrev(prev, next[p], prev[p]), next[prev[p] := next[p]];
    forall i | 0 <= i < |list'|
      ensures PageAt(prev', next', list', i)
    {
      assert PageAt(prev, next, list, if i < k then i else i + 1);
    }
  }

  lemma PageFirst(prev: Words, next: Words, first: Addr, list: seq<Addr>, k: nat)
    requires PageList(prev, next, first, list) && k < |list|
    ensures list[k] in prev && list[k] in next && (prev[list[k]] == 0 <==> k == 0)
    ensures next[list[k]] == 0 || next[list[k]] in list
  {
    assert PageAt(prev, next, list, k);
  }

  lemma DroppedMembers(list: seq<Addr>, k: nat)
    requires k < |list| && Distinct(list)
    ensures forall p :: p in Dropped(list, k) <==> p in list && p != list[k]
  {
    forall p | p in list && p != list[k]
      ensures p in Dropped(list, k)
    {
      var i :| 0 <= i < |list| && list[i] == p;
      assert Dropped(list, k)[if i < k then i else i - 1] == p;
    }
  }
}
