/** The slab heap: allocation and deallocation over pages with a header, a free
    list, and a place in a doubly linked list while they have room. */
module SlabHeap {
  import opened Arithmetic
  import opened SlabLists
  import opened SlabGeometry
  import opened Options

  /** A page of one class: its free blocks, in list order, and the blocks handed out. */
  datatype Slab = Slab(index: nat, free: seq<Addr>, used: set<Addr>)

  type Slabs = map<Addr, Slab>
  type Lists = seq<seq<Addr>>

  /** Free and used blocks are blocks of the page, and together as many as it has. */
  ghost predicate SlabOk(p: Addr, s: Slab) {
    && p > 0 && p % PAGE == 0 && s.index < CLASSES
    && (forall j :: 0 <= j < |s.free| ==> IsBlock(p, s.index, s.free[j]) && s.free[j] !in s.used)
    && (forall a :: a in s.used ==> IsBlock(p, s.index, a))
    && |s.free| + |s.used| == Count(s.index)
  }

  /** The page's header and the words of its free blocks agree with `s`. */
  ghost predicate HeaderOk(freePtr: Words, freeCount: map<Addr, nat>, link: Words, p: Addr, s: Slab) {
    p in freePtr && p in freeCount && FreeChain(link, freePtr[p], s.free) && freeCount[p] == |s.free|
  }

  /** A page is in its bucket's list exactly while it has a free block. */
  ghost predicate ListsOk(prev: Words, next: Words, bucket: seq<Addr>, lists: Lists, slabs: Slabs) {
    && |bucket| == |lists| == CLASSES
    && (forall i :: 0 <= i < CLASSES ==> PageList(prev, next, bucket[i], lists[i]))
    && (forall i, p :: 0 <= i < CLASSES && p in lists[i] ==> p in slabs && slabs[p].index == i && slabs[p].free != [])
    && (forall p :: p in slabs && slabs[p].free != [] ==> slabs[p].index < CLASSES && p in lists[slabs[p].index])
  }

  ghost predicate Apart(a: Addr, m: nat, b: Addr, n: nat) {
    a + m <= b || b + n <= a
  }

  /** Large allocations are whole pages that nothing else uses. */
  ghost predicate LargeOk(large: map<Addr, nat>, slabs: Slabs) {
    && (forall a :: a in large ==> a > 0 && a % PAGE == 0 && large[a] >= PAGE)
    && (forall a, p :: a in large && p in slabs ==> Apart(a, large[a], p, PAGE))
    && (forall a, b :: a in large && b in large && a != b ==> Apart(a, large[a], b, large[b]))
  }

  /** Every live allocation is a large one or a used block of its class, and the other way round. */
  ghost predicate LiveOk(live: map<Addr, Layout>, large: map<Addr, nat>, slabs: Slabs) {
    && (forall a :: a in live && BucketIndex(live[a]) == CLASSES ==> a in large && large[a] == Rounded(live[a]))
    && (forall a :: a in live && BucketIndex(live[a]) < CLASSES ==>
         Base(a) in slabs && slabs[Base(a)].index == BucketIndex(live[a]) && a in slabs[Base(a)].used)
    && (forall a :: a in large ==> a in live && BucketIndex(live[a]) == CLASSES)
    && (forall p, a :: p in slabs && a in slabs[p].used ==> a in live && BucketIndex(live[a]) == slabs[p].index)
  }

  /** The start of the page that an address lies in. */
  function Base(a: Addr): Addr {
    a - a % PAGE
  }

  // ---------- what the invariants mean for live allocations ----------

  /** The bytes that an allocation may use. */
  function Room(l: Layout): nat {
    if BucketIndex(l) < CLASSES then ClassSize(BucketIndex(l)) else Rounded(l)
  }

  ghost predicate Sound(live: map<Addr, Layout>, large: map<Addr, nat>, slabs: Slabs) {
    (forall p :: p in slabs ==> SlabOk(p, slabs[p])) && LargeOk(large, slabs) && LiveOk(live, large, slabs)
  }

  lemma LiveBlock(live: map<Addr, Layout>, large: map<Addr, nat>, slabs: Slabs, a: Addr)
    requires Sound(live, large, slabs) && a in live && BucketIndex(live[a]) < CLASSES
    ensures var p, i := Base(a), BucketIndex(live[a]);
      p in slabs && slabs[p].index == i && IsBlock(p, i, a) && p % PAGE == 0 && p + HEADER <= a
        && a + Room(live[a]) <= p + PAGE
  {
    hide LargeOk, ClassSize, IsBlock;
    assert SlabOk(Base(a), slabs[Base(a)]);
    BlockInside(Base(a), BucketIndex(live[a]), a);
  }

  lemma LiveLarge(live: map<Addr, Layout>, large: map<Addr, nat>, slabs: Slabs, a: Addr)
    requires Sound(live, large, slabs) && a in live && BucketIndex(live[a]) == CLASSES
    ensures a in large && large[a] == Room(live[a]) && a % PAGE == 0
    ensures forall p :: p in slabs ==> Apart(a, Room(live[a]), p, PAGE)
  {
    hide SlabOk, ClassSize;
  }

  lemma PagesApart(p: Addr, q: Addr)
    requires p % PAGE == 0 && q % PAGE == 0 && p != q
    ensures Apart(p, PAGE, q, PAGE)
  {
  }

  /** No two live allocations overlap. */
  lemma LiveApart(live: map<Addr, Layout>, large: map<Addr, nat>, slabs: Slabs, a: Addr, b: Addr)
    requires Sound(live, large, slabs) && a in live && b in live && a < b
    ensures a + Room(live[a]) <= b
  {
    hide SlabOk, LiveOk, ClassSize, IsBlock, BucketIndex, Rounded, Room, Base;
    var i, j := BucketIndex(live[a]), BucketIndex(live[b]);
    if i < CLASSES {
      LiveBlock(live, large, slabs, a);
    } else {
      LiveLarge(live, large, slabs, a);
    }
    if j < CLASSES {
      LiveBlock(live, large, slabs, b);
    } else {
      LiveLarge(live, large, slabs, b);
    }
    if i < CLASSES && j < CLASSES {
      SmallApart(live, large, slabs, a, b);
    } else {
      RoomPositive(live[a]);
      RoomPositive(live[b]);
    }
  }

  lemma RoomPositive(l: Layout)
    ensures Room(l) > 0
  {
  }

  lemma SmallApart(live: map<Addr, Layout>, large: map<Addr, nat>, slabs: Slabs, a: Addr, b: Addr)
    requires Sound(live, large, slabs) && a in live && b in live && a < b
    requires BucketIndex(live[a]) < CLASSES && BucketIndex(live[b]) < CLASSES
    ensures a + Room(live[a]) <= b
  {
    hide Sound, ClassSize, IsBlock, BucketIndex, Base;
    LiveBlock(live, large, slabs, a);
    LiveBlock(live, large, slabs, b);
    if Base(a) == Base(b) {
      BlocksApart(Base(a), BucketIndex(live[a]), a, b);
    } else {
      PagesApart(Base(a), Base(b));
    }
  }

  /** Each is large enough, aligned as asked, clear of every page header, and the
      test for a page-aligned pointer tells which way it was allocated. */
  lemma LiveGood(live: map<Addr, Layout>, large: map<Addr, nat>, slabs: Slabs, a: Addr, e: nat)
    requires Sound(live, large, slabs) && a in live && live[a].align == Pow2(e) <= PAGE
    ensures live[a].size <= Room(live[a]) && a % live[a].align == 0
    ensures a % PAGE == 0 <==> BucketIndex(live[a]) == CLASSES
    ensures forall p :: p in slabs ==> Apart(a, Room(live[a]), p, HEADER)
  {
    hide LiveOk, LargeOk, ClassSize, IsBlock, Base, Pow2, Rounded;
    var i := BucketIndex(live[a]);
    if i < CLASSES {
      LiveBlock(live, large, slabs, a);
      BlockRouting(Base(a), i, a);
      BlockAligned(Base(a), i, a, e);
      forall p | p in slabs
        ensures Apart(a, Room(live[a]), p, HEADER)
      {
        assert SlabOk(p, slabs[p]);
        if p != Base(a) {
          PagesApart(p, Base(a));
        }
      }
    } else {
      LiveLarge(live, large, slabs, a);
      PageAligned(a, e);
    }
  }

  lemma PageAligned(a: Addr, e: nat)
    requires a % PAGE == 0 && Pow2(e) <= PAGE
    ensures a % Pow2(e) == 0
  {
    PageIsPow();
    if e > 12 {
      PowGrows(12, e);
    }
    PowAdd(12 - e, e);
    var m := a / PAGE;
    Regroup(m, Pow2(12 - e), Pow2(e));
    MultipleOf(m * Pow2(12 - e), Pow2(e));
  }

  lemma PageIsPow()
    ensures Pow2(12) == PAGE
  {
    ClassIsPow(8);
  }

  // ---------- one block changes hands ----------

  ghost predicate HeadersOk(freePtr: Words, freeCount: map<Addr, nat>, link: Words, slabs: Slabs) {
    forall p :: p in slabs ==> HeaderOk(freePtr, freeCount, link, p, slabs[p])
  }

  function Taken(s: Slab): Slab
    requires s.free != []
  {
    Slab(s.index, s.free[1..], s.used + {s.free[0]})
  }

  function Put(s: Slab, a: Addr): Slab {
    Slab(s.index, [a] + s.free, s.used - {a})
  }

  lemma TakenOk(p: Addr, s: Slab)
    requires SlabOk(p, s) && s.free != [] && Distinct(s.free)
    ensures SlabOk(p, Taken(s)) && IsBlock(p, s.index, s.free[0]) && s.free[0] !in s.used
  {
    hide IsBlock;
    assert |s.used + {s.free[0]}| == |s.used| + 1;
  }

  lemma PutOk(p: Addr, s: Slab, a: Addr)
    requires SlabOk(p, s) && a in s.used
    ensures SlabOk(p, Put(s, a)) && a !in s.free && IsBlock(p, s.index, a)
  {
    hide IsBlock;
    assert |s.used - {a}| == |s.used| - 1;
    var s' := Put(s, a);
    forall j | 0 <= j < |s'.free|
      ensures IsBlock(p, s.index, s'.free[j]) && s'.free[j] !in s'.used
    {
      if j > 0 {
        assert s'.free[j] == s.free[j - 1];
      }
    }
  }

  /** A block belongs to one page only. */
  lemma BlockOwner(slabs: Slabs, p: Addr, q: Addr, a: Addr)
    requires p in slabs && q in slabs && SlabOk(p, slabs[p]) && SlabOk(q, slabs[q]) && p != q
    requires IsBlock(p, slabs[p].index, a)
    ensures a !in slabs[q].free && a !in slabs[q].used && Base(a) == p
  {
    BlockRouting(p, slabs[p].index, a);
    if a in slabs[q].free || a in slabs[q].used {
      BlockRouting(q, slabs[q].index, a);
    }
  }

  lemma TakenHeaders(freePtr: Words, freeCount: map<Addr, nat>, link: Words, slabs: Slabs, p: Addr)
    requires HeadersOk(freePtr, freeCount, link, slabs) && p in slabs && slabs[p].free != []
    ensures p in freePtr && freePtr[p] in link && p in freeCount && freeCount[p] >= 1
      && freePtr[p] == slabs[p].free[0] && Distinct(slabs[p].free)
    ensures HeadersOk(freePtr[p := link[freePtr[p]]], freeCount[p := freeCount[p] - 1], link,
      slabs[p := Taken(slabs[p])])
  {
    hide FreeChain;
    assert HeaderOk(freePtr, freeCount, link, p, slabs[p]);
    FreePop(link, freePtr[p], slabs[p].free);
    ChainDistinct(link, freePtr[p], slabs[p].free);
    var freePtr', freeCount', slabs' := freePtr[p := link[freePtr[p]]], freeCount[p := freeCount[p] - 1],
      slabs[p := Taken(slabs[p])];
    forall q | q in slabs'
      ensures HeaderOk(freePtr', freeCount', link, q, slabs'[q])
    {
      if q != p {
        assert HeaderOk(freePtr, freeCount, link, q, slabs[q]);
      }
    }
  }

  lemma ChainDistinct(link: Words, head: Addr, list: seq<Addr>)
    requires FreeChain(link, head, list)
    ensures Distinct(list)
  {
  }

  lemma PutHeaders(freePtr: Words, freeCount: map<Addr, nat>, link: Words, slabs: Slabs, p: Addr, a: Addr)
    requires HeadersOk(freePtr, freeCount, link, slabs) && p in slabs && a in slabs[p].used && a != 0
    requires forall q :: q in slabs ==> SlabOk(q, slabs[q])
    ensures p in freePtr && p in freeCount
    ensures HeadersOk(freePtr[p := a], freeCount[p := freeCount[p] + 1], link[a := freePtr[p]],
      slabs[p := Put(slabs[p], a)])
  {
    hide FreeChain, SlabOk;
    assert HeaderOk(freePtr, freeCount, link, p, slabs[p]);
    PutOk(p, slabs[p], a);
    var freePtr', freeCount', link', slabs' := freePtr[p := a], freeCount[p := freeCount[p] + 1],
      link[a := freePtr[p]], slabs[p := Put(slabs[p], a)];
    forall q | q in slabs'
      ensures HeaderOk(freePtr', freeCount', link', q, slabs'[q])
    {
      if q == p {
        FreePush(link, freePtr[p], slabs[p].free, a);
      } else {
        assert HeaderOk(freePtr, freeCount, link, q, slabs[q]);
        BlockOwner(slabs, p, q, a);
        FreeFrame(link, freePtr[q], slabs[q].free, a, freePtr[p]);
      }
    }
  }

  lemma LargeKeys(large: map<Addr, nat>, slabs: Slabs, slabs': Slabs)
    requires LargeOk(large, slabs) && slabs'.Keys <= slabs.Keys
    ensures LargeOk(large, slabs')
  {
  }

  lemma TakenLive(live: map<Addr, Layout>, large: map<Addr, nat>, slabs: Slabs, p: Addr, a: Addr, s: Slab, l: Layout)
    requires LiveOk(live, large, slabs) && p in slabs && a !in live && a !in large && Base(a) == p
      && s.index == slabs[p].index
    requires s.used == slabs[p].used + {a} && BucketIndex(l) == s.index < CLASSES
    ensures LiveOk(live[a := l], large, slabs[p := s])
  {
    hide BucketIndex, Rounded, Base;
  }

  lemma TakenSound(live: map<Addr, Layout>, large: map<Addr, nat>, slabs: Slabs, p: Addr, l: Layout)
    requires Sound(live, large, slabs) && p in slabs && slabs[p].free != [] && Distinct(slabs[p].free)
      && BucketIndex(l) == slabs[p].index
    ensures slabs[p].free[0] !in live
    ensures Sound(live[slabs[p].free[0] := l], large, slabs[p := Taken(slabs[p])])
  {
    hide LiveOk, LargeOk, BucketIndex, Base, IsBlock;
    var s, a := slabs[p], slabs[p].free[0];
    TakenOk(p, s);
    BlockFresh(live, large, slabs, p, a);
    TakenLive(live, large, slabs, p, a, Taken(s), l);
    LargeKeys(large, slabs, slabs[p := Taken(s)]);
  }

  lemma BlockFresh(live: map<Addr, Layout>, large: map<Addr, nat>, slabs: Slabs, p: Addr, a: Addr)
    requires Sound(live, large, slabs) && p in slabs && IsBlock(p, slabs[p].index, a) && a !in slabs[p].used
    ensures a !in live && Base(a) == p && a !in large && a != 0
    ensures forall q :: q in slabs && q != p ==> a !in slabs[q].used
  {
    hide IsBlock, BucketIndex, Rounded;
    assert SlabOk(p, slabs[p]);
    BlockRouting(p, slabs[p].index, a);
    forall q | q in slabs && q != p
      ensures a !in slabs[q].used
    {
      BlockOwner(slabs, p, q, a);
    }
  }

  lemma PutLive(live: map<Addr, Layout>, large: map<Addr, nat>, slabs: Slabs, p: Addr, a: Addr, s: Slab)
    requires LiveOk(live, large, slabs) && p in slabs && a !in large && s.index == slabs[p].index && a in slabs[p].used
    requires s.used == slabs[p].used - {a} && forall q :: q in slabs && q != p ==> a !in slabs[q].used
    ensures LiveOk(live - {a}, large, slabs[p := s])
  {
    hide BucketIndex, Rounded, Base;
  }

  lemma PutSound(live: map<Addr, Layout>, large: map<Addr, nat>, slabs: Slabs, p: Addr, a: Addr)
    requires Sound(live, large, slabs) && p in slabs && a in slabs[p].used
    ensures a in live && a !in large && Sound(live - {a}, large, slabs[p := Put(slabs[p], a)])
  {
    hide LiveOk, LargeOk, BucketIndex, Base, IsBlock;
    PutOk(p, slabs[p], a);
    forall q | q in slabs && q != p
      ensures a !in slabs[q].used
    {
      BlockOwner(slabs, p, q, a);
    }
    UsedLive(live, large, slabs, p, a);
    PutLive(live, large, slabs, p, a, Put(slabs[p], a));
    LargeKeys(large, slabs, slabs[p := Put(slabs[p], a)]);
  }

  lemma UsedLive(live: map<Addr, Layout>, large: map<Addr, nat>, slabs: Slabs, p: Addr, a: Addr)
    requires Sound(live, large, slabs) && p in slabs && a in slabs[p].used
    ensures a in live && a !in large && a != 0 && Base(a) == p
  {
    hide IsBlock, BucketIndex, Rounded;
    assert SlabOk(p, slabs[p]);
    BlockHome(p, slabs[p].index, a);
  }

  lemma BlockHome(p: Addr, i: nat, a: Addr)
    requires IsBlock(p, i, a) && p % PAGE == 0
    ensures Base(a) == p && a % PAGE != 0
  {
    BlockRouting(p, i, a);
  }

  // ---------- one page changes lists ----------

  /** Bucket `i` gets a new list, in which only page `p` has come or gone. */
  lemma ListsChanged(prev: Words, next: Words, prev': Words, next': Words, bucket: seq<Addr>, first: Addr,
                     lists: Lists, i: nat, list: seq<Addr>, slabs: Slabs, slabs': Slabs, p: Addr)
    requires ListsOk(prev, next, bucket, lists, slabs) && i < CLASSES && PageList(prev', next', first, list)
    requires forall q :: q !in lists[i] && q != p && q in prev ==> q in prev' && prev'[q] == prev[q]
    requires forall q :: q !in lists[i] && q != p && q in next ==> q in next' && next'[q] == next[q]
    requires slabs' - {p} == slabs - {p} && (p in slabs ==> slabs[p].index == i)
      && (p in slabs' ==> slabs'[p].index == i)
    requires forall q :: q in list <==> (q in lists[i] && q != p) || (q == p && p in slabs' && slabs'[p].free != [])
    ensures ListsOk(prev', next', bucket[i := first], lists[i := list], slabs')
  {
    var bucket', lists' := bucket[i := first], lists[i := list];
    forall j | 0 <= j < CLASSES
      ensures PageList(prev', next', bucket'[j], lists'[j])
    {
      if j != i {
        ListFramed(prev, next, prev', next', bucket, lists, slabs, i, j, p);
      }
    }
    hide PageList;
    forall j, q | 0 <= j < CLASSES && q in lists'[j]
      ensures q in slabs' && slabs'[q].index == j && slabs'[q].free != []
    {
      if q != p {
        assert q in slabs;
        assert (slabs - {p})[q] == slabs[q] && q in slabs' - {p};
      }
    }
    forall q | q in slabs' && slabs'[q].free != []
      ensures slabs'[q].index < CLASSES && q in lists'[slabs'[q].index]
    {
      if q != p {
        assert q in slabs' - {p} && (slabs' - {p})[q] == slabs'[q];
        assert q in slabs && slabs[q] == slabs'[q];
      }
    }
  }

  lemma ListFramed(prev: Words, next: Words, prev': Words, next': Words, bucket: seq<Addr>, lists: Lists,
      slabs: Slabs, i: nat, j: nat, p: Addr)
    requires ListsOk(prev, next, bucket, lists, slabs) && i < CLASSES && j < CLASSES && i != j
      && (p in slabs ==> slabs[p].index == i)
    requires forall q :: q !in lists[i] && q != p && q in prev ==> q in prev' && prev'[q] == prev[q]
    requires forall q :: q !in lists[i] && q != p && q in next ==> q in next' && next'[q] == next[q]
    ensures PageList(prev', next', bucket[j], lists[j])
  {
    hide PageList;
    forall q | q in lists[j]
      ensures q !in lists[i] && q != p
    {
      assert slabs[q].index == j;
    }
    PageFrame(prev, next, prev', next', bucket[j], lists[j]);
  }

  lemma FirstHasRoom(prev: Words, next: Words, bucket: seq<Addr>, lists: Lists, slabs: Slabs, i: nat)
    requires ListsOk(prev, next, bucket, lists, slabs) && i < CLASSES
    ensures bucket[i] == 0 <==> lists[i] == []
    ensures lists[i] != [] ==>
      bucket[i] == lists[i][0] && bucket[i] in slabs && slabs[bucket[i]].index == i && slabs[bucket[i]].free != []
  {
    assert lists[i] != [] ==> lists[i][0] in lists[i];
  }

  /** The list stays: page `p` had, and has, a free block. */
  lemma ListsKept(prev: Words, next: Words, bucket: seq<Addr>, lists: Lists, slabs: Slabs, p: Addr, s: Slab)
    requires ListsOk(prev, next, bucket, lists, slabs) && p in slabs && slabs[p].free != [] && s.free != []
      && s.index == slabs[p].index
    ensures ListsOk(prev, next, bucket, lists, slabs[p := s])
  {
    hide PageList;
  }

  /** The page at the front leaves, having no free block any more or going altogether. */
  lemma FrontLeaves(prev: Words, next: Words, bucket: seq<Addr>, lists: Lists, slabs: Slabs, slabs': Slabs, i: nat)
    requires ListsOk(prev, next, bucket, lists, slabs) && i < CLASSES && lists[i] != []
    requires slabs' - {lists[i][0]} == slabs - {lists[i][0]}
    requires lists[i][0] in slabs' ==> slabs'[lists[i][0]].free == [] && slabs'[lists[i][0]].index == i
    ensures var p := lists[i][0];
      p in next && ListsOk(FrontPrev(prev, next[p], 0), next, bucket[i := next[p]], lists[i := lists[i][1..]], slabs')
  {
    hide ListsOk;
    ListOf(prev, next, bucket, lists, slabs, i);
    var p, list := lists[i][0], lists[i];
    PagePop(prev, next, bucket[i], list);
    PageFirst(prev, next, bucket[i], list, 0);
    RestMembers(list);
    ListsChanged(prev, next, FrontPrev(prev, next[p], 0), next, bucket, next[p], lists, i, list[1..], slabs, slabs', p);
  }

  lemma ListOf(prev: Words, next: Words, bucket: seq<Addr>, lists: Lists, slabs: Slabs, i: nat)
    requires ListsOk(prev, next, bucket, lists, slabs) && i < CLASSES
    ensures |lists| == |bucket| == CLASSES && PageList(prev, next, bucket[i], lists[i]) && Distinct(lists[i])
    ensures forall p :: p in lists[i] ==> p in slabs && slabs[p].index == i
  {
  }

  lemma RestMembers(list: seq<Addr>)
    requires list != [] && Distinct(list)
    ensures forall q :: q in list[1..] <==> q in list && q != list[0]
  {
    forall q | q in list && q != list[0]
      ensures q in list[1..]
    {
      var j :| 0 <= j < |list| && list[j] == q;
      assert list[1..][j - 1] == q;
    }
  }

  // ---------- a new page ----------

  /** `list` are the first `k` blocks of the page, the last one first. */
  ghost predicate Threaded(p: Addr, i: nat, k: nat, list: seq<Addr>) {
    i < CLASSES && |list| == k <= Count(i) && forall j :: 0 <= j < k ==> list[j] == BlockAt(p, i, k - 1 - j)
  }

  lemma ThreadOne(p: Addr, i: nat, k: nat, list: seq<Addr>)
    requires Threaded(p, i, k, list) && BlockAt(p, i, k) < p + PAGE
    ensures k < Count(i) && BlockAt(p, i, k) !in list && BlockAt(p, i, k) != 0
    ensures Threaded(p, i, k + 1, [BlockAt(p, i, k)] + list) && BlockAt(p, i, k + 1) == BlockAt(p, i, k) + ClassSize(i)
  {
    CountFills(i);
    if k >= Count(i) {
      Monotone(Count(i), k, ClassSize(i));
    }
    var a := BlockAt(p, i, k);
    hide ClassSize, Count, Start;
    forall j | 0 <= j < k
      ensures list[j] < a
    {
      Monotone(k - 1 - j + 1, k, ClassSize(i));
      Distribute(k - 1 - j, 1, 0, ClassSize(i));
    }
  }

  lemma ThreadAll(p: Addr, i: nat, k: nat, list: seq<Addr>)
    requires Threaded(p, i, k, list) && BlockAt(p, i, k) >= p + PAGE
    ensures k == Count(i)
  {
    CountFills(i);
    Distribute(k, 1, 0, ClassSize(i));
    if k < Count(i) {
      Monotone(k + 1, Count(i), ClassSize(i));
    }
  }

  lemma ThreadedBlocks(p: Addr, i: nat, list: seq<Addr>)
    requires i < CLASSES && Threaded(p, i, Count(i), list) && p > 0 && p % PAGE == 0
    ensures SlabOk(p, Slab(i, list, {}))
  {
    hide ClassSize, Start;
    forall j | 0 <= j < |list|
      ensures IsBlock(p, i, list[j])
    {
      assert list[j] == BlockAt(p, i, Count(i) - 1 - j);
    }
  }

  /** Only blocks of page `p` have changed: other pages' lists are as they were. */
  lemma NewPageHeaders(freePtr: Words, freeCount: map<Addr, nat>, link: Words, link': Words, slabs: Slabs, p: Addr,
      s: Slab, head: Addr)
    requires HeadersOk(freePtr, freeCount, link, slabs) && p !in slabs && SlabOk(p, s) && s.used == {}
    requires forall q :: q in slabs ==> SlabOk(q, slabs[q])
    requires FreeChain(link', head, s.free) && forall w :: w in link && w !in s.free ==>
      w in link' && link'[w] == link[w]
    ensures HeadersOk(freePtr[p := head], freeCount[p := |s.free|], link', slabs[p := s])
  {
    var freePtr', freeCount', slabs' := freePtr[p := head], freeCount[p := |s.free|], slabs[p := s];
    forall q | q in slabs'
      ensures HeaderOk(freePtr', freeCount', link', q, slabs'[q])
    {
      if q != p {
        assert HeaderOk(freePtr, freeCount, link, q, slabs[q]);
        OtherBlocks(p, s, q, slabs[q]);
        FreeFrames(link, link', freePtr[q], slabs[q].free, s.free);
      }
    }
  }

  lemma OtherBlocks(p: Addr, s: Slab, q: Addr, t: Slab)
    requires SlabOk(p, s) && SlabOk(q, t) && p != q
    ensures forall a :: a in t.free ==> a !in s.free
  {
    forall a | a in t.free && a in s.free
      ensures false
    {
      BlockRouting(p, s.index, a);
      BlockRouting(q, t.index, a);
    }
  }

  lemma FreeFrames(link: Words, link': Words, head: Addr, list: seq<Addr>, changed: seq<Addr>)
    requires FreeChain(link, head, list) && forall a :: a in list ==> a !in changed
    requires forall w :: w in link && w !in changed ==> w in link' && link'[w] == link[w]
    ensures FreeChain(link', head, list)
  {
    forall i | 0 <= i < |list|
      ensures LinkAt(link', list, i)
    {
      assert LinkAt(link, list, i) && list[i] in list;
    }
  }

  lemma NewPageSound(live: map<Addr, Layout>, large: map<Addr, nat>, slabs: Slabs, p: Addr, s: Slab)
    requires Sound(live, large, slabs) && p !in slabs && SlabOk(p, s) && s.used == {}
    requires forall a :: a in large ==> Apart(a, large[a], p, PAGE)
    ensures Sound(live, large, slabs[p := s])
  {
    hide SlabOk, BucketIndex, Rounded, Base;
  }

  lemma ThreadNone(p: Addr, i: nat, link: Words)
    requires i < CLASSES
    ensures Threaded(p, i, 0, []) && FreeChain(link, 0, [])
  {
  }

  lemma ThreadedCount(p: Addr, i: nat, list: seq<Addr>)
    requires i < CLASSES && Threaded(p, i, Count(i), list)
    ensures |list| == FreeCount(ClassSize(i)) && list != []
  {
    CountFills(i);
  }

  lemma NewPageLists(prev: Words, next: Words, bucket: seq<Addr>, lists: Lists, slabs: Slabs, i: nat, p: Addr, s: Slab)
    requires ListsOk(prev, next, bucket, lists, slabs) && i < CLASSES && lists[i] == [] && p !in slabs && p != 0
      && s.index == i && s.free != []
    ensures ListsOk(prev[p := 0], next[p := 0], bucket[i := p], lists[i := [p]], slabs[p := s])
  {
    hide ListsOk;
    ListOf(prev, next, bucket, lists, slabs, i);
    var slabs' := slabs[p := s];
    assert slabs' - {p} == slabs - {p};
    PagePush(prev, next, 0, [], p);
    assert [p] + [] == [p];
    ListsChanged(prev, next, prev[p := 0], next[p := 0], bucket, p, lists, i, [p], slabs, slabs', p);
  }

  lemma LargeAdded(live: map<Addr, Layout>, large: map<Addr, nat>, slabs: Slabs, a: Addr, l: Layout)
    requires Sound(live, large, slabs) && BucketIndex(l) == CLASSES && a > 0 && a % PAGE == 0
    requires forall p :: p in slabs ==> Apart(a, Rounded(l), p, PAGE)
    requires forall b :: b in large ==> Apart(a, Rounded(l), b, large[b])
    ensures a !in live && Sound(live[a := l], large[a := Rounded(l)], slabs)
  {
    hide SlabOk, LiveOk, ClassSize;
    LargeFresh(live, large, slabs, a, Rounded(l));
    LiveCame(live, large, slabs, a, l);
  }

  lemma LiveCame(live: map<Addr, Layout>, large: map<Addr, nat>, slabs: Slabs, a: Addr, l: Layout)
    requires LiveOk(live, large, slabs) && BucketIndex(l) == CLASSES && a !in live && a !in large
    requires forall p :: p in slabs ==> a !in slabs[p].used
    ensures LiveOk(live[a := l], large[a := Rounded(l)], slabs)
  {
    hide BucketIndex, Rounded, Base;
  }

  lemma LargeFresh(live: map<Addr, Layout>, large: map<Addr, nat>, slabs: Slabs, a: Addr, n: nat)
    requires Sound(live, large, slabs) && a % PAGE == 0 && n >= PAGE
    requires forall p :: p in slabs ==> Apart(a, n, p, PAGE)
    requires forall b :: b in large ==> Apart(a, n, b, large[b])
    ensures a !in live && a !in large && forall p :: p in slabs ==> a !in slabs[p].used
  {
    hide SlabOk, ClassSize, IsBlock;
    if a in live {
      if BucketIndex(live[a]) < CLASSES {
        LiveBlock(live, large, slabs, a);
        BlockHome(Base(a), BucketIndex(live[a]), a);
      }
    }
    assert a !in large;
  }

  // ---------- pages that come and go ----------

  lemma PageJoins(prev: Words, next: Words, bucket: seq<Addr>, lists: Lists, slabs: Slabs, slabs': Slabs, i: nat,
      p: Addr)
    requires ListsOk(prev, next, bucket, lists, slabs) && i < CLASSES && p in slabs && slabs[p].index == i
      && slabs[p].free == [] && p != 0
    requires slabs' - {p} == slabs - {p} && p in slabs' && slabs'[p].index == i && slabs'[p].free != []
    ensures |lists| == |bucket| == CLASSES
    ensures ListsOk(FrontPrev(prev, bucket[i], p)[p := 0], next[p := bucket[i]], bucket[i := p],
      lists[i := [p] + lists[i]], slabs')
  {
    hide PageList;
    assert p !in lists[i];
    PagePush(prev, next, bucket[i], lists[i], p);
    FirstHasRoom(prev, next, bucket, lists, slabs, i);
    ListsChanged(prev, next, FrontPrev(prev, bucket[i], p)[p := 0], next[p := bucket[i]], bucket, p, lists, i,
      [p] + lists[i], slabs, slabs', p);
  }

  lemma MiddleLeaves(prev: Words, next: Words, bucket: seq<Addr>, lists: Lists, slabs: Slabs, slabs': Slabs, i: nat,
      k: nat)
    requires ListsOk(prev, next, bucket, lists, slabs) && i < CLASSES && 0 < k < |lists[i]|
    requires slabs' == slabs - {lists[i][k]}
    ensures var p := lists[i][k];
      && p in prev && p in next
      && ListsOk(FrontPrev(prev, next[p], prev[p]), next[prev[p] := next[p]], bucket,
        lists[i := Dropped(lists[i], k)], slabs')
  {
    hide ListsOk;
    ListOf(prev, next, bucket, lists, slabs, i);
    var list := lists[i];
    var p := list[k];
    PageUnlink(prev, next, bucket[i], list, k);
    PageFirst(prev, next, bucket[i], list, k);
    DroppedMembers(list, k);
    assert list[k - 1] in list;
    assert slabs' - {p} == slabs - {p} && bucket[i := bucket[i]] == bucket;
    ListsChanged(prev, next, FrontPrev(prev, next[p], prev[p]), next[prev[p] := next[p]], bucket, bucket[i], lists,
      i, Dropped(list, k), slabs, slabs', p);
  }

  lemma ListIndex(prev: Words, next: Words, bucket: seq<Addr>, lists: Lists, slabs: Slabs, p: Addr)
    requires ListsOk(prev, next, bucket, lists, slabs) && p in slabs && slabs[p].free != []
    ensures slabs[p].index < CLASSES == |lists| && p in lists[slabs[p].index]
  {
  }

  lemma RemovedSound(live: map<Addr, Layout>, large: map<Addr, nat>, slabs: Slabs, p: Addr)
    requires Sound(live, large, slabs) && p in slabs && slabs[p].used == {}
    ensures Sound(live, large, slabs - {p})
  {
    hide SlabOk, BucketIndex, Rounded, Base;
  }

  lemma LargeRemoved(live: map<Addr, Layout>, large: map<Addr, nat>, slabs: Slabs, a: Addr)
    requires Sound(live, large, slabs) && a in live && BucketIndex(live[a]) == CLASSES
    ensures Sound(live - {a}, large - {a}, slabs)
  {
    hide BucketIndex, LiveOk;
    forall p | p in slabs
      ensures slabs[p].index < CLASSES
    {
      assert SlabOk(p, slabs[p]);
    }
    LiveGone(live, large, slabs, a);
    LargeGone(large, slabs, a);
  }

  lemma LargeGone(large: map<Addr, nat>, slabs: Slabs, a: Addr)
    requires LargeOk(large, slabs)
    ensures LargeOk(large - {a}, slabs)
  {
  }

  lemma LiveGone(live: map<Addr, Layout>, large: map<Addr, nat>, slabs: Slabs, a: Addr)
    requires LiveOk(live, large, slabs) && a in live && BucketIndex(live[a]) == CLASSES
    requires forall p :: p in slabs ==> slabs[p].index < CLASSES
    ensures LiveOk(live - {a}, large - {a}, slabs)
  {
    hide BucketIndex, Rounded, Base;
  }

  lemma SlabCount(p: Addr, s: Slab)
    requires SlabOk(p, s)
    ensures |s.free| == FreeCount(ClassSize(s.index)) <==> s.used == {}
    ensures |s.free| == FreeCount(ClassSize(s.index)) ==> s.free != []
  {
    CountFills(s.index);
  }

  /** The page at `p` is of class `i` and has a free block. */
  ghost predicate RoomIn(slabs: Slabs, i: nat, p: Addr) {
    p in slabs && slabs[p].index == i && slabs[p].free != []
  }

  ghost predicate HasRoom(slabs: Slabs, i: nat) {
    exists p :: RoomIn(slabs, i, p)
  }

  class Heap {
    var bucket: seq<Addr>
    var prev: Words
    var next: Words
    var freePtr: Words
    var freeCount: map<Addr, nat>
    var link: Words
    ghost var slabs: Slabs
    ghost var lists: Lists
    ghost var large: map<Addr, nat>
    ghost var live: map<Addr, Layout>

    /** Memory agrees with the ghost state, and that is in order. */
    ghost predicate Inv()
      reads this
    {
      HeadersOk(freePtr, freeCount, link, slabs) && ListsOk(prev, next, bucket, lists, slabs)
        && Sound(live, large, slabs)
    }

    /** Between calls, every page has a block in use. */
    ghost predicate Valid()
      reads this
    {
      Inv() && forall p :: p in slabs ==> slabs[p].used != {}
    }

    constructor ()
      ensures Valid() && live == map[] && slabs == map[] && large == map[]
    {
      bucket, prev, next, freePtr, freeCount, link := seq(CLASSES, _ => 0), map[], map[], map[], map[], map[];
      slabs, lists, large, live := map[], seq(CLASSES, _ => []), map[], map[];
    }

    /** Take the first free block of the first page of bucket `i`. */
    method TakeBlock(i: nat, l: Layout) returns (a: Addr)
      requires Inv() && i < CLASSES && BucketIndex(l) == i && |bucket| == CLASSES && bucket[i] != 0
      requires forall p :: p in slabs && p != bucket[i] ==> slabs[p].used != {}
      modifies this
      ensures Valid() && a != 0 && a !in old(live) && live == old(live)[a := l] && large == old(large)
      ensures var p := old(bucket[i]);
        && p in old(slabs) && old(slabs)[p].index == i && old(slabs)[p].free != []
        && a == old(slabs)[p].free[0] && slabs == old(slabs)[p := Taken(old(slabs)[p])]
    {
      hide HeadersOk, ListsOk, Sound, BucketIndex;
      var p := bucket[i];
      FirstHasRoom(prev, next, bucket, lists, slabs, i);
      TakenHeaders(freePtr, freeCount, link, slabs, p);
      TakenSound(live, large, slabs, p, l);
      CountOf(p);
      a := freePtr[p];
      FreeFirst(p);
      freePtr := freePtr[p := link[a]];
      freeCount := freeCount[p := freeCount[p] - 1];
      LeaveIfFull(i, p, Taken(slabs[p]));
      live := live[a := l];
    }

    /** A page with no free block left leaves its list. */
    method LeaveIfFull(i: nat, p: Addr, ghost s: Slab)
      requires ListsOk(prev, next, bucket, lists, slabs) && i < CLASSES && p == bucket[i] != 0
      requires p in slabs && s.index == slabs[p].index && p in freeCount && freeCount[p] == |s.free|
      modifies this`prev, this`bucket, this`lists, this`slabs
      ensures slabs == old(slabs)[p := s] && ListsOk(prev, next, bucket, lists, slabs)
    {
      hide ListsOk;
      FirstHasRoom(prev, next, bucket, lists, slabs, i);
      ListOf(prev, next, bucket, lists, slabs, i);
      ghost var slabs' := slabs[p := s];
      assert slabs' - {p} == slabs - {p};
      if freeCount[p] == 0 {
        FrontLeaves(prev, next, bucket, lists, slabs, slabs', i);
        bucket := bucket[i := next[p]];
        prev := FrontPrev(prev, next[p], 0);
        lists := lists[i := lists[i][1..]];
      } else {
        ListsKept(prev, next, bucket, lists, slabs, p, s);
      }
      slabs := slabs';
    }

    lemma FreeFirst(p: Addr)
      requires Inv() && p in slabs && slabs[p].free != []
      ensures p in freePtr && freePtr[p] == slabs[p].free[0] != 0
    {
      assert HeaderOk(freePtr, freeCount, link, p, slabs[p]);
      assert slabs[p].free[0] in slabs[p].free;
    }

    /** Thread the blocks of a fresh page onto its free list. */
    method ThreadBlocks(p: Addr, i: nat) returns (ghost list: seq<Addr>)
      requires i < CLASSES && p > 0
      modifies this`link, this`freePtr
      ensures Threaded(p, i, Count(i), list) && p in freePtr && FreeChain(link, freePtr[p], list)
      ensures freePtr == old(freePtr)[p := freePtr[p]]
      ensures forall w :: w in old(link) && w !in list ==> w in link && link[w] == old(link)[w]
    {
      hide ClassSize, Count, Start, FreeChain, BlockAt, Threaded;
      ghost var k := 0;
      list := [];
      freePtr := freePtr[p := 0];
      var at := BlockAt(p, i, 0);
      ThreadNone(p, i, link);
      while at < p + PAGE
        invariant at == BlockAt(p, i, k) && Threaded(p, i, k, list) && p in freePtr && FreeChain(link, freePtr[p], list)
        invariant freePtr == old(freePtr)[p := freePtr[p]]
        invariant forall w :: w in old(link) && w !in list ==> w in link && link[w] == old(link)[w]
        decreases p + PAGE - at
      {
        ThreadOne(p, i, k, list);
        FreePush(link, freePtr[p], list, at);
        link := link[at := freePtr[p]];
        freePtr := freePtr[p := at];
        list, k := [at] + list, k + 1;
        at := at + ClassSize(i);
      }
      ThreadAll(p, i, k, list);
    }

    /** Make the page at `p` the only page of bucket `i`, all its blocks free. */
    method AddPage(i: nat, p: Addr)
      requires Inv() && i < CLASSES && |bucket| == CLASSES && bucket[i] == 0
      requires p > 0 && p % PAGE == 0 && p !in slabs && forall a :: a in large ==> Apart(a, large[a], p, PAGE)
      modifies this`prev, this`next, this`bucket, this`freePtr, this`freeCount, this`link, this`slabs, this`lists
      ensures Inv() && |bucket| == CLASSES && bucket[i] == p && p in slabs && slabs == old(slabs)[p := slabs[p]]
      ensures slabs[p].index == i && slabs[p].used == {} && |slabs[p].free| == Count(i)
    {
      hide HeadersOk, ListsOk, FreeChain, SlabOk, LargeOk, LiveOk, Threaded;
      FirstHasRoom(prev, next, bucket, lists, slabs, i);
      ListOf(prev, next, bucket, lists, slabs, i);
      ghost var link0, freePtr0, slabs0 := link, freePtr, slabs;
      ghost var before := prev;
      PagePush(prev, next, 0, [], p);
      prev := prev[p := 0];
      next := next[p := bucket[i]];
      bucket := bucket[i := p];
      ghost var list := ThreadBlocks(p, i);
      freeCount := freeCount[p := FreeCount(ClassSize(i))];
      ThreadedBlocks(p, i, list);
      ThreadedCount(p, i, list);
      ghost var s := Slab(i, list, {});
      NewPageHeaders(freePtr0, old(freeCount), link0, link, slabs0, p, s, freePtr[p]);
      NewPageSound(live, large, slabs0, p, s);
      NewPageLists(before, old(next), old(bucket), lists, slabs0, i, p, s);
      slabs := slabs[p := s];
      lists := lists[i := [p]];
    }

    /** Whether the page provider's answer to a request for `size` bytes is memory
        of its own: page-aligned, and apart from everything the heap holds. */
    ghost predicate Offered(offer: Option<Addr>, size: nat)
      reads this
    {
      offer.Some? ==>
        && offer.value > 0 && offer.value % PAGE == 0
        && (forall p :: p in slabs ==> Apart(offer.value, size, p, PAGE))
        && (forall a :: a in large ==> Apart(offer.value, size, a, large[a]))
    }

    /** Allocate memory for layout `l`.  `offer` is what the page provider answers
        if it is asked; the result is 0 when it has nothing. */
    method Allocate(l: Layout, offer: Option<Addr>) returns (a: Addr)
      requires Valid() && Offered(offer, if BucketIndex(l) < CLASSES then PAGE else Rounded(l))
      modifies this
      ensures Valid()
      ensures a == 0 <==> offer.None? && (BucketIndex(l) == CLASSES || !HasRoom(old(slabs), BucketIndex(l)))
      ensures a == 0 ==> live == old(live) && slabs == old(slabs) && large == old(large)
      ensures a != 0 && BucketIndex(l) == CLASSES ==>
        offer == Some(a) && slabs == old(slabs) && large == old(large)[a := Rounded(l)]
      ensures a != 0 && BucketIndex(l) < CLASSES ==>
        && large == old(large) && Base(a) in slabs && a in slabs[Base(a)].used
        && if HasRoom(old(slabs), BucketIndex(l))
           then RoomIn(old(slabs), BucketIndex(l), Base(a)) && a == old(slabs)[Base(a)].free[0]
                && slabs == old(slabs)[Base(a) := Taken(old(slabs)[Base(a)])]
           else offer == Some(Base(a)) && Base(a) !in old(slabs) && slabs == old(slabs)[Base(a) := slabs[Base(a)]]
                && slabs[Base(a)].used == {a} && |slabs[Base(a)].free| == Count(BucketIndex(l)) - 1
      ensures a != 0 ==> a !in old(live) && live == old(live)[a := l]
      ensures a != 0 && a % PAGE == 0 ==> offer == Some(a)
      ensures a != 0 && a % PAGE != 0 ==> Base(a) in old(slabs) || offer == Some(Base(a))
    {
      hide HeadersOk, ListsOk, Sound, Rounded;
      BucketLength();
      var i := BucketIndex(l);
      if i < CLASSES {
        RoomListed(i);
      }
      if i >= CLASSES {
        if offer.None? {
          return 0;
        }
        a := offer.value;
        LargeAdded(live, large, slabs, a, l);
        large := large[a := Rounded(l)];
        live := live[a := l];
        return a;
      }
      if bucket[i] == 0 {
        if offer.None? {
          return 0;
        }
        PageFresh(offer.value);
        AddPage(i, offer.value);
      }
      ghost var p := bucket[i];
      a := TakeBlock(i, l);
      Small(a);
      InPage(p, a);
    }

    /** A bucket is empty exactly when no page of its class has a free block. */
    lemma RoomListed(i: nat)
      requires Inv() && i < CLASSES
      ensures |bucket| == CLASSES && (bucket[i] != 0 <==> HasRoom(slabs, i))
      ensures bucket[i] != 0 ==> RoomIn(slabs, i, bucket[i])
    {
      hide HeadersOk, Sound;
      FirstHasRoom(prev, next, bucket, lists, slabs, i);
      assert lists[i] != [] ==> RoomIn(slabs, i, bucket[i]);
    }

    lemma InPage(p: Addr, a: Addr)
      requires Inv() && p in slabs && a in slabs[p].used
      ensures Base(a) == p
    {
      hide HeadersOk, ListsOk;
      assert SlabOk(p, slabs[p]);
      BlockRouting(p, slabs[p].index, a);
    }

    lemma Small(a: Addr)
      requires Inv() && a in live && BucketIndex(live[a]) < CLASSES
      ensures a % PAGE != 0 && Base(a) in slabs
    {
      LiveBlock(live, large, slabs, a);
      BlockRouting(Base(a), BucketIndex(live[a]), a);
    }

    lemma BucketLength()
      requires Inv()
      ensures |bucket| == CLASSES
    {
    }

    lemma PageFresh(p: Addr)
      requires Inv() && Offered(Some(p), PAGE)
      ensures p !in slabs && forall a :: a in large ==> Apart(a, large[a], p, PAGE)
    {
    }

    /** Free block `a` of the page at `p`; a page that had no free block joins its list. */
    method PutBlock(a: Addr, p: Addr, i: nat)
      requires Inv() && p in slabs && i == slabs[p].index && a in slabs[p].used
      modifies this`link, this`freePtr, this`freeCount, this`prev, this`next, this`bucket, this`slabs, this`lists,
        this`live
      ensures Inv() && slabs == old(slabs)[p := Put(old(slabs)[p], a)] && live == old(live) - {a}
    {
      hide HeadersOk, ListsOk, LargeOk, LiveOk, SlabOk;
      UsedLive(live, large, slabs, p, a);
      PutHeaders(freePtr, freeCount, link, slabs, p, a);
      PutSound(live, large, slabs, p, a);
      CountOf(p);
      link := link[a := freePtr[p]];
      freePtr := freePtr[p := a];
      freeCount := freeCount[p := freeCount[p] + 1];
      JoinIfFirst(i, p, Put(slabs[p], a));
      live := live - {a};
    }

    /** A page with its first free block joins its list. */
    method JoinIfFirst(i: nat, p: Addr, ghost s: Slab)
      requires ListsOk(prev, next, bucket, lists, slabs) && p in slabs && i == slabs[p].index == s.index < CLASSES
        && p > 0
      requires p in freeCount && freeCount[p] == |s.free| == |slabs[p].free| + 1
      modifies this`prev, this`next, this`bucket, this`lists, this`slabs
      ensures slabs == old(slabs)[p := s] && ListsOk(prev, next, bucket, lists, slabs)
    {
      hide ListsOk;
      ListOf(prev, next, bucket, lists, slabs, i);
      ghost var slabs' := slabs[p := s];
      assert slabs' - {p} == slabs - {p};
      if freeCount[p] == 1 {
        PageJoins(prev, next, bucket, lists, slabs, slabs', i, p);
        prev := FrontPrev(prev, bucket[i], p)[p := 0];
        next := next[p := bucket[i]];
        bucket := bucket[i := p];
        lists := lists[i := [p] + lists[i]];
      } else {
        ListsKept(prev, next, bucket, lists, slabs, p, s);
      }
      slabs := slabs';
    }

    /** Take a page without used blocks out of its list. */
    method RemovePage(i: nat, p: Addr)
      requires Inv() && p in slabs && i == slabs[p].index && slabs[p].used == {} && slabs[p].free != []
      modifies this`prev, this`next, this`bucket, this`lists, this`slabs
      ensures Inv() && slabs == old(slabs) - {p}
    {
      hide ListsOk, Sound;
      RemovedSound(live, large, slabs, p);
      ListIndex(prev, next, bucket, lists, slabs, p);
      ListOf(prev, next, bucket, lists, slabs, i);
      ghost var k :| 0 <= k < |lists[i]| && lists[i][k] == p;
      PageFirst(prev, next, bucket[i], lists[i], k);
      ghost var slabs' := slabs - {p};
      assert slabs' - {p} == slabs - {p};
      if prev[p] == 0 {
        FrontLeaves(prev, next, bucket, lists, slabs, slabs', i);
        bucket := bucket[i := next[p]];
        prev := FrontPrev(prev, next[p], 0);
        lists := lists[i := lists[i][1..]];
      } else {
        MiddleLeaves(prev, next, bucket, lists, slabs, slabs', i, k);
        prev, next := FrontPrev(prev, next[p], prev[p]), next[prev[p] := next[p]];
        lists := lists[i := Dropped(lists[i], k)];
      }
      slabs := slabs';
    }

    /** Give back an allocation; `released` is the memory returned to the page
        provider, with its size. */
    method Deallocate(a: Addr, l: Layout) returns (released: Option<(Addr, nat)>)
      requires Valid() && a in live && live[a] == l
      modifies this
      ensures Valid() && live == old(live) - {a}
      ensures BucketIndex(l) == CLASSES ==>
        released == Some((a, Rounded(l))) && large == old(large) - {a} && slabs == old(slabs)
      ensures BucketIndex(l) < CLASSES ==> large == old(large) && Base(a) in old(slabs)
      ensures BucketIndex(l) < CLASSES ==>
        if old(slabs)[Base(a)].used == {a} then released == Some((Base(a), PAGE)) && slabs == old(slabs) - {Base(a)}
        else released == None && slabs.Keys == old(slabs).Keys
    {
      hide HeadersOk, ListsOk, Sound, ClassSize, Rounded, BucketIndex;
      Route(a);
      if a % PAGE == 0 {
        LargeRemoved(live, large, slabs, a);
        large := large - {a};
        live := live - {a};
        return Some((a, Rounded(l)));
      }
      var p, i := Base(a), BucketIndex(l);
      PutBlock(a, p, i);
      CountOf(p);
      SlabCount(p, slabs[p]);
      if freeCount[p] == FreeCount(ClassSize(i)) {
        RemovePage(i, p);
        return Some((p, PAGE));
      }
      return None;
    }

    /** The page-aligned test tells how an allocation was made. */
    lemma Route(a: Addr)
      requires Inv() && a in live
      ensures a % PAGE == 0 <==> BucketIndex(live[a]) == CLASSES
      ensures a % PAGE != 0 ==>
        Base(a) in slabs && slabs[Base(a)].index == BucketIndex(live[a]) && a in slabs[Base(a)].used
    {
      if BucketIndex(live[a]) < CLASSES {
        Small(a);
      } else {
        LiveLarge(live, large, slabs, a);
      }
    }

    lemma CountOf(p: Addr)
      requires Inv() && p in slabs
      ensures p in freeCount && freeCount[p] == |slabs[p].free| && SlabOk(p, slabs[p])
    {
      assert HeaderOk(freePtr, freeCount, link, p, slabs[p]);
    }
  }
}
