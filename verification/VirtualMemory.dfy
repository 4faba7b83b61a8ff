/** Allocating, freeing, reading and writing virtual memory through the page tables. */
module VirtualMemory {
  import opened Arithmetic
  import opened PhysicalMemory
  import opened PageTree
  import opened PageTables
  import opened Options

  const KERNEL_SEARCH_START := 0xFFFF_FF80_0000_0000
  const KERNEL_SEARCH_END := 0xFFFF_FFFF_C000_0000
  const USER_SEARCH_START := 0x0000_0080_0000_0000
  const USER_SEARCH_END := 0xFFFF_FF80_0000_0000

  /** The page of a virtual address: bits 12 to 47. */
  function PageOf(va: nat): (vp: nat)
    ensures vp < PAGES
  {
    va / FRAME_SIZE % PAGES
  }

  /** The page `i` pages above `va`. */
  function PageAt(va: nat, i: nat): (vp: nat)
    ensures vp < PAGES
  {
    PageOf(va + i * FRAME_SIZE)
  }

  lemma PageAtIndex(va: nat, i: nat)
    ensures PageAt(va, i) == (va / FRAME_SIZE + i) % PAGES
  {
  }

  lemma PageAtDistinct(va: nat, i: nat, j: nat)
    requires i < j < i + PAGES
    ensures PageAt(va, i) != PageAt(va, j)
  {
    PageAtIndex(va, i);
    PageAtIndex(va, j);
  }

  /** The code's shifts and masks take the page number apart. */
  lemma AddressIndices(va: nat)
    ensures IndexAt(PageOf(va), 0) == va / 0x80_0000_0000 % 512
    ensures IndexAt(PageOf(va), 1) == va / 0x4000_0000 % 512
    ensures IndexAt(PageOf(va), 2) == va / 0x20_0000 % 512
    ensures IndexAt(PageOf(va), 3) == va / 0x1000 % 512
  {
    hide PageOf;
    TopDigit(va);
    SecondDigit(va);
    ThirdDigit(va);
    LastDigit(va);
  }

  lemma TopDigit(va: nat)
    ensures PageOf(va) / 0x800_0000 % 512 == va / 0x80_0000_0000 % 512
  {
    var n := va / FRAME_SIZE;
    ModDiv(n, 0x800_0000, 512);
    DigitKept(n / 0x800_0000, 512, 512 / 512);
    DivDiv(va, FRAME_SIZE, 0x800_0000);
  }

  lemma SecondDigit(va: nat)
    ensures PageOf(va) / 0x4_0000 % 512 == va / 0x4000_0000 % 512
  {
    var n := va / FRAME_SIZE;
    ModDiv(n, 0x4_0000, 0x4_0000);
    DigitKept(n / 0x4_0000, 512, 0x4_0000 / 512);
    DivDiv(va, FRAME_SIZE, 0x4_0000);
  }

  lemma ThirdDigit(va: nat)
    ensures PageOf(va) / 0x200 % 512 == va / 0x20_0000 % 512
  {
    var n := va / FRAME_SIZE;
    ModDiv(n, 0x200, 0x800_0000);
    DigitKept(n / 0x200, 512, 0x800_0000 / 512);
    DivDiv(va, FRAME_SIZE, 0x200);
  }

  lemma LastDigit(va: nat)
    ensures PageOf(va) % 512 == va / 0x1000 % 512
  {
    DigitKept(va / FRAME_SIZE, 512, 0x800_0000);
  }

  // ---------- lookup ----------

  lemma NextOnWay(m: Memory, nodes: Nodes, vp: nat, k: nat, table: Addr)
    requires TreeOk(m, nodes) && vp < PAGES && k < 4 && Toward(vp, k) in nodes && table == nodes[Toward(vp, k)]
    ensures table in m && |m[table]| == FRAME_SIZE
    ensures var w := Word(m, table, IndexAt(vp, k));
      && (Present(w) ==> Toward(vp, k + 1) in nodes && Address(w) == nodes[Toward(vp, k + 1)])
      && (!Present(w) ==> vp !in Translations(nodes))
  {
    hide TreeOk, IndexAt, Toward, Translations, Word, Address, Present, Hangable;
    ReachedEntry(m, nodes, vp, k, table, false);
    TranslationAt(nodes, vp);
    if Path(4, vp) in nodes {
      AncestorsPresent(m, nodes, vp, k + 1);
    }
  }

  /** The physical address behind a virtual one. */
  method Lookup(k: Machine, pml4: Addr, va: nat) returns (r: Option<Addr>)
    requires k.Valid() && k.Rooted(pml4)
    ensures r == if PageOf(va) in Translations(k.nodes)
      then Some(Translations(k.nodes)[PageOf(va)] + va % FRAME_SIZE) else None
  {
    hide TreeOk, IndexAt, Toward, Translations, Word, Address, Present, NoneEmpty, Machine.AllocatorOk, Machine.Free,
      Partition, PageOf;
    ghost var vp := PageOf(va);
    AddressIndices(va);
    ChildChain(vp);
    TreeFrames(k.mem, k.nodes);
    NextOnWay(k.mem, k.nodes, vp, 0, pml4);
    var e := Word(k.mem, pml4, va / 0x80_0000_0000 % 512);
    if !Present(e) {
      return None;
    }
    NextOnWay(k.mem, k.nodes, vp, 1, Address(e));
    e := Word(k.mem, Address(e), va / 0x4000_0000 % 512);
    if !Present(e) {
      return None;
    }
    NextOnWay(k.mem, k.nodes, vp, 2, Address(e));
    e := Word(k.mem, Address(e), va / 0x20_0000 % 512);
    if !Present(e) {
      return None;
    }
    NextOnWay(k.mem, k.nodes, vp, 3, Address(e));
    e := Word(k.mem, Address(e), va / 0x1000 % 512);
    if !Present(e) {
      return None;
    }
    TranslationAt(k.nodes, vp);
    return Some(Address(e) + va % FRAME_SIZE);
  }

  // ---------- finding room ----------

  ghost predicate FreeRun(t: map<nat, Addr>, va: nat, block: nat) {
    forall i :: 0 <= i < block ==> PageAt(va, i) !in t
  }

  /** `block` unmapped pages start at `va`, all inside `lo..hi`. */
  ghost predicate Fits(t: map<nat, Addr>, lo: nat, hi: nat, block: nat, va: nat) {
    lo <= va && va % FRAME_SIZE == 0 && va + block * FRAME_SIZE <= hi && FreeRun(t, va, block)
  }

  /** ... and nowhere below it. */
  ghost predicate LowestFit(t: map<nat, Addr>, lo: nat, hi: nat, block: nat, va: nat) {
    Fits(t, lo, hi, block, va) && forall s :: lo <= s < va ==> !Fits(t, lo, hi, block, s)
  }

  method FindFreeVirtualMemory(k: Machine, lo: nat, hi: nat, pml4: Addr, block: nat) returns (r: Option<nat>)
    requires k.Valid() && k.Rooted(pml4) && block >= 1
    requires 0 < lo <= hi < WORD && lo % FRAME_SIZE == 0 && hi % FRAME_SIZE == 0
    ensures r.Some? ==> LowestFit(Translations(k.nodes), lo, hi, block, r.value)
    ensures r.None? ==> forall s :: !Fits(Translations(k.nodes), lo, hi, block, s)
  {
    hide Machine.Valid, Translations, PageOf;
    ghost var t := Translations(k.nodes);
    var start, i, remain := lo, lo, block;
    ghost var n := 0;
    while i < hi
      invariant lo <= start <= i <= hi && i == start + n * FRAME_SIZE && start % FRAME_SIZE == 0
      invariant 1 <= remain == block - n
      invariant FreeRun(t, start, n) && forall s :: lo <= s < start ==> !Fits(t, lo, hi, block, s)
    {
      var p := Lookup(k, pml4, i);
      assert PageAt(start, n) == PageOf(i);
      i := i + FRAME_SIZE;
      if p.None? {
        remain := remain - 1;
        if remain == 0 {
          return Some(start);
        }
        n := n + 1;
      } else {
        forall s | start <= s < i
          ensures !Fits(t, lo, hi, block, s)
        {
          if s % FRAME_SIZE == 0 {
            var d := (s - start) / FRAME_SIZE;
            assert PageAt(s, n - d) == PageAt(start, n);
          }
        }
        start := i;
        remain := block;
        n := 0;
      }
    }
    return None;
  }

  // ---------- freeing ----------

  /** The pages of a run. */
  ghost function RunPages(va: nat, n: nat): set<nat> {
    set i | 0 <= i < n :: PageAt(va, i)
  }

  lemma RunGrows(va: nat, n: nat)
    requires n < PAGES
    ensures RunPages(va, n + 1) == RunPages(va, n) + {PageAt(va, n)} && PageAt(va, n) !in RunPages(va, n)
  {
    hide PageAt;
    forall i | 0 <= i < n
      ensures PageAt(va, i) != PageAt(va, n)
    {
      PageAtDistinct(va, i, n);
    }
    assert forall i :: 0 <= i < n ==> PageAt(va, i) in RunPages(va, n + 1);
    assert PageAt(va, n) in RunPages(va, n + 1);
  }

  /** Part of a tree. */
  ghost predicate SubTree(n: Nodes, n': Nodes) {
    forall p :: p in n ==> p in n' && n'[p] == n[p]
  }

  ghost predicate Kept(m: Memory, m': Memory, frames: set<Addr>) {
    m.Keys == m'.Keys && forall b :: b in m && b in frames ==> m'[b] == m[b]
  }

  lemma KeptSame(m: Memory, frames: set<Addr>)
    ensures Kept(m, m, frames)
  {
  }

  lemma MappedShrinks(n: Nodes, n': Nodes)
    requires SubTree(n, n')
    ensures Mapped(n) <= Mapped(n')
  {
  }

  /** Unmap `count` pages from `va` on. */
  method FreeMappedFrame(k: Machine, pml4: Addr, va: nat, count: nat)
    requires k.Valid() && k.Rooted(pml4) && count <= PAGES && RunPages(va, count) <= Translations(k.nodes).Keys
    modifies k`mem, k`linkedFree, k`freeList, k`nodes
    ensures k.Valid() && k.Rooted(pml4) && SubTree(k.nodes, old(k.nodes))
    ensures Translations(k.nodes) == old(Translations(k.nodes)) - RunPages(va, count)
    ensures Kept(old(k.mem), k.mem, Mapped(k.nodes) + k.loaned)
    ensures View(k.mem, k.nodes) == old(View(k.mem, k.nodes)) - RunPages(va, count)
  {
    hide Machine.Valid, Translations, PageAt, RunPages, Mapped, View, TreeOk, NoneEmpty, Partition;
    RunEmpty(va);
    k.Invariants();
    ghost var m, n := k.mem, k.nodes;
    for i := 0 to count
      invariant k.Valid() && k.Rooted(pml4) && SubTree(k.nodes, old(k.nodes))
      invariant Translations(k.nodes) == old(Translations(k.nodes)) - RunPages(va, i)
      invariant Kept(old(k.mem), k.mem, Mapped(k.nodes) + k.loaned)
    {
      RunGrows(va, i);
      RunMonotone(va, i + 1, count);
      ghost var before := k.nodes;
      k.RemoveMemoryPage(pml4, PageAt(va, i));
      MappedShrinks(k.nodes, before);
    }
    k.Invariants();
    ViewUnmapped(m, n, k.mem, k.nodes, RunPages(va, count));
  }

  lemma RunEmpty(va: nat)
    ensures RunPages(va, 0) == {}
  {
  }

  lemma RunMonotone(va: nat, n: nat, n': nat)
    requires n <= n'
    ensures RunPages(va, n) <= RunPages(va, n')
  {
  }

  // ---------- allocating ----------

  datatype Allocated = Ok(start: nat) | OutOfVirtualSpace | OutOfPhysicalMemory

  /** `t'` maps in addition `n` pages from `va` on, all to frames of `free`. */
  ghost predicate RunMapped(t: map<nat, Addr>, t': map<nat, Addr>, va: nat, n: nat, free: set<Addr>) {
    && t'.Keys == t.Keys + RunPages(va, n)
    && (forall p :: p in t ==> t'[p] == t[p])
    && (forall p :: p in RunPages(va, n) ==> t'[p] in free)
  }

  lemma RunMappedNone(t: map<nat, Addr>, va: nat, free: set<Addr>)
    ensures RunMapped(t, t, va, 0, free)
  {
  }

  lemma RunMappedOne(t: map<nat, Addr>, t': map<nat, Addr>, va: nat, n: nat, free: set<Addr>, a: Addr)
    requires RunMapped(t, t', va, n, free) && n < PAGES && PageAt(va, n) !in t && a in free
    ensures PageAt(va, n) !in t' && RunMapped(t, t'[PageAt(va, n) := a], va, n + 1, free)
  {
    hide PageAt, RunPages;
    RunGrows(va, n);
  }

  /** Unmapping the run gives back the pages there were. */
  lemma RunUndone(t: map<nat, Addr>, t': map<nat, Addr>, va: nat, n: nat, block: nat, free: set<Addr>)
    requires RunMapped(t, t', va, n, free) && n <= block && FreeRun(t, va, block)
    ensures RunPages(va, n) <= t'.Keys && t' - RunPages(va, n) == t
  {
    forall p | p in RunPages(va, n)
      ensures p !in t
    {
      var i :| 0 <= i < n && PageAt(va, i) == p;
    }
  }

  lemma SameFree(free: set<Addr>, free': set<Addr>, used: set<Addr>, loaned: set<Addr>, all: set<Addr>)
    requires Partition(free, used, loaned, all) && Partition(free', used, loaned, all)
    ensures free == free'
  {
  }

  /** The next page of a run is still free. */
  lemma RunFree(t: map<nat, Addr>, t': map<nat, Addr>, va: nat, n: nat, block: nat, free: set<Addr>)
    requires RunMapped(t, t', va, n, free) && n < block <= PAGES && FreeRun(t, va, block)
    ensures PageAt(va, n) !in t && PageAt(va, n) !in t'
  {
    hide PageAt, RunPages;
    RunGrows(va, n);
  }

  /** Allocate one frame and map page `vp` to it. */
  method MapOne(k: Machine, pml4: Addr, vp: nat, writable: bool, executable: bool, user: bool)
      returns (ok: bool, ghost a: Addr)
    requires k.Valid() && k.Rooted(pml4) && vp < PAGES && vp !in Translations(k.nodes)
    modifies k`mem, k`firstAlloc, k`linkedFree, k`freeList, k`nodes, k`loaned
    ensures k.Valid() && k.Rooted(pml4) && k.loaned == old(k.loaned)
    ensures Kept(old(k.mem), k.mem, Mapped(old(k.nodes)) + k.loaned)
    ensures ok ==> a in old(k.Free()) && Translations(k.nodes) == old(Translations(k.nodes))[vp := a]
    ensures ok ==> SubTree(old(k.nodes), k.nodes) && k.Free() <= old(k.Free())
    ensures !ok ==> k.nodes == old(k.nodes) && k.Free() == old(k.Free())
    ensures ok <==> old(k.FreeCount()) >= Size(Missing(old(k.nodes), vp, 4))
    ensures ok ==> k.nodes.Keys == old(k.nodes.Keys) + Missing(old(k.nodes), vp, 4)
  {
    hide Machine.Valid, Machine.Free, Machine.FreeCount, Translations, Mapped, Missing;
    TranslationAt(k.nodes, vp);
    k.FreeApart();
    MissingCount(k.nodes, vp);
    a := 0;
    var f := k.Borrow();
    if f.None? {
      return false, a;
    }
    a := f.value;
    ok := k.WriteMemoryPage(vp, f.value, pml4, writable, executable, user);
    if !ok {
      k.GiveBack(f.value);
    }
  }

  /** Everything that the first `n` pages of the run at `va` lack to be mapped. */
  ghost function Lacking(nodes: Nodes, va: nat, n: nat): set<Path> {
    if n == 0 then {} else Lacking(nodes, va, n - 1) + Missing(nodes, PageAt(va, n - 1), 4)
  }

  lemma LackingNothing(nodes: Nodes, va: nat)
    ensures Lacking(nodes, va, 0) == {}
  {
  }

  lemma LackingUnfold(nodes: Nodes, va: nat, n: nat)
    ensures Lacking(nodes, va, n + 1) == Lacking(nodes, va, n) + Missing(nodes, PageAt(va, n), 4)
  {
  }

  /** After `n` pages are mapped the next one lacks the rest of what `n + 1` pages do. */
  lemma LackingNext(nodes: Nodes, nodes': Nodes, va: nat, n: nat)
    requires nodes'.Keys == nodes.Keys + Lacking(nodes, va, n)
    ensures Missing(nodes', PageAt(va, n), 4) !! Lacking(nodes, va, n)
    ensures Lacking(nodes, va, n + 1) == Lacking(nodes, va, n) + Missing(nodes', PageAt(va, n), 4)
  {
    hide Missing, PageAt, Lacking;
    var vp := PageAt(va, n);
    MissingLevels(nodes, vp, 4);
    MissingLevels(nodes', vp, 4);
    LackingUnfold(nodes, va, n);
  }

  lemma {:induction false} LackingGrows(nodes: Nodes, va: nat, n: nat, n': nat)
    requires n <= n'
    ensures Lacking(nodes, va, n) <= Lacking(nodes, va, n')
    decreases n' - n
  {
    hide Missing, PageAt;
    if n < n' {
      LackingGrows(nodes, va, n, n' - 1);
    }
  }

  lemma SizeOfSum<T>(s: set<T>, t: set<T>)
    requires s !! t
    ensures |s + t| == |s| + |t|
  {
  }

  lemma SizeOfPart<T>(s: set<T>, t: set<T>)
    requires s <= t
    ensures |s| <= |t|
  {
    assert t == s + (t - s);
  }

  /** No frame is in the tree twice. */
  lemma {:induction false} ValuesCount(nodes: Nodes)
    requires forall p, q :: p in nodes && q in nodes && p != q ==> nodes[p] != nodes[q]
    ensures |nodes.Values| == |nodes.Keys|
    decreases nodes.Keys
  {
    if nodes.Keys != {} {
      var p :| p in nodes.Keys;
      var rest := nodes - {p};
      ValuesCount(rest);
      assert nodes.Keys == rest.Keys + {p};
      assert nodes.Values == rest.Values + {nodes[p]} by {
        forall v | v in nodes.Values
          ensures v in rest.Values + {nodes[p]}
        {
          var q :| q in nodes && nodes[q] == v;
          assert q != p ==> q in rest && rest[q] == v;
        }
      }
    }
  }

  /** What a machine had when an allocation began. */
  datatype Snapshot = Snapshot(mem: Memory, nodes: Nodes, free: set<Addr>, loaned: set<Addr>, all: set<Addr>) {
    ghost predicate Whole() {
      TreeOk(mem, nodes) && NoneEmpty(nodes) && Partition(free, nodes.Values, loaned, all)
    }
  }

  /** The first `i` pages of the run at `va` are mapped, and nothing else changed. */
  ghost predicate Progress(k: Machine, pml4: Addr, s: Snapshot, va: nat, i: nat)
    reads k
  {
    && k.Valid() && k.Rooted(pml4) && k.loaned == s.loaned && k.all == s.all && s.Whole()
    && RunMapped(Translations(s.nodes), Translations(k.nodes), va, i, s.free) && SubTree(s.nodes, k.nodes)
      && k.Free() <= s.free
    && k.nodes.Keys == s.nodes.Keys + Lacking(s.nodes, va, i)
    && Kept(s.mem, k.mem, Mapped(s.nodes) + s.loaned)
  }

  lemma PartitionSize(free: set<Addr>, used: set<Addr>, loaned: set<Addr>, all: set<Addr>)
    requires Partition(free, used, loaned, all)
    ensures |all| == |free| + |used| + |loaned|
  {
    SizeOfSum(free, used);
    SizeOfSum(free + used, loaned);
  }

  /** The frames that left the free ones are those of the new nodes. */
  lemma TreeGrowth(m: Memory, nodes: Nodes, free: set<Addr>, m': Memory, nodes': Nodes, free': set<Addr>,
                   loaned: set<Addr>, all: set<Addr>, new_: set<Path>)
    requires TreeOk(m, nodes) && TreeOk(m', nodes') && nodes'.Keys == nodes.Keys + new_ && nodes.Keys !! new_
    requires Partition(free, nodes.Values, loaned, all) && Partition(free', nodes'.Values, loaned, all)
    ensures |free| == |free'| + |new_|
  {
    hide Partition;
    PartitionSize(free, nodes.Values, loaned, all);
    PartitionSize(free', nodes'.Values, loaned, all);
    ValuesCount(nodes);
    ValuesCount(nodes');
    SizeOfSum(nodes.Keys, new_);
  }

  lemma {:induction false} LackingOutside(nodes: Nodes, va: nat, n: nat)
    ensures Lacking(nodes, va, n) !! nodes.Keys
  {
    hide Missing, PageAt;
    if n > 0 {
      LackingOutside(nodes, va, n - 1);
      MissingLevels(nodes, PageAt(va, n - 1), 4);
    }
  }

  /** The free frames that the first `i` pages of the run have used up. */
  lemma Spent(k: Machine, pml4: Addr, s: Snapshot, va: nat, i: nat)
    requires Progress(k, pml4, s, va, i)
    ensures Size(s.free) == k.FreeCount() + Size(Lacking(s.nodes, va, i))
  {
    hide TreeOk, NoneEmpty, Partition, Machine.AllocatorOk, Machine.Free, RunMapped, Mapped, Translations, Lacking;
    LackingOutside(s.nodes, va, i);
    TreeGrowth(s.mem, s.nodes, s.free, k.mem, k.nodes, k.Free(), s.loaned, s.all, Lacking(s.nodes, va, i));
  }

  /** What is left free does not do for page `i`, so it did not do for the run. */
  lemma TooFew(k: Machine, pml4: Addr, s: Snapshot, va: nat, i: nat, block: nat)
    requires Progress(k, pml4, s, va, i) && i < block && k.FreeCount() < Size(Missing(k.nodes, PageAt(va, i), 4))
    ensures Size(s.free) < Size(Lacking(s.nodes, va, block))
  {
    hide Machine.Valid, Machine.Free, Machine.FreeCount, Translations, PageAt, RunMapped, Mapped, Missing, Lacking,
      Snapshot.Whole;
    Spent(k, pml4, s, va, i);
    LackingNext(s.nodes, k.nodes, va, i);
    SizeOfSum(Lacking(s.nodes, va, i), Missing(k.nodes, PageAt(va, i), 4));
    LackingGrows(s.nodes, va, i + 1, block);
    SizeOfPart(Lacking(s.nodes, va, i + 1), Lacking(s.nodes, va, block));
  }

  /** Everything is as it was, but for the bytes of frames not in use. */
  ghost predicate Restored(k: Machine, pml4: Addr, s: Snapshot)
    reads k
  {
    && k.Valid() && k.Rooted(pml4) && k.loaned == s.loaned && k.nodes == s.nodes && k.Free() == s.free
    && Kept(s.mem, k.mem, Mapped(s.nodes) + s.loaned)
  }

  /** Unmap the first `i` pages of the run again: then nothing has changed. */
  method Rollback(k: Machine, pml4: Addr, va: nat, i: nat, ghost block: nat, ghost s: Snapshot)
    requires Progress(k, pml4, s, va, i) && i <= block <= PAGES && FreeRun(Translations(s.nodes), va, block)
    modifies k`mem, k`linkedFree, k`freeList, k`nodes
    ensures Restored(k, pml4, s)
  {
    hide Machine.Free, Machine.AllocatorOk, TreeOk, NoneEmpty, Partition, Translations, PageAt, RunPages, Mapped,
      RunMapped, FreeRun;
    ghost var before := k.nodes;
    RunUndone(Translations(s.nodes), Translations(k.nodes), va, i, block, s.free);
    FreeMappedFrame(k, pml4, va, i);
    SameTranslationsSameTree(s.mem, s.nodes, k.mem, k.nodes, before);
    SameFree(s.free, k.Free(), s.nodes.Values, k.loaned, k.all);
  }

  /** Map page `i` of the run; on failure unmap the pages before it. */
  method MapNext(k: Machine, pml4: Addr, va: nat, i: nat, writable: bool, executable: bool, user: bool,
      ghost block: nat, ghost s: Snapshot)
    returns (ok: bool)
    requires Progress(k, pml4, s, va, i) && i < block <= PAGES && FreeRun(Translations(s.nodes), va, block)
    modifies k`mem, k`firstAlloc, k`linkedFree, k`freeList, k`nodes, k`loaned
    ensures if ok then Progress(k, pml4, s, va, i + 1)
      else Restored(k, pml4, s) && Size(s.free) < Size(Lacking(s.nodes, va, block))
  {
    hide Machine.Valid, Machine.Free, Translations, PageAt, RunPages, Mapped, RunMapped, FreeRun, Snapshot.Whole,
      Restored, Machine.Rooted,
      Missing, Lacking, Machine.FreeCount, Size;
    RunFree(Translations(s.nodes), Translations(k.nodes), va, i, block, s.free);
    ghost var before, a := k.nodes, 0;
    MappedShrinks(s.nodes, before);
    LackingNext(s.nodes, before, va, i);
    if k.FreeCount() < Size(Missing(k.nodes, PageAt(va, i), 4)) {
      TooFew(k, pml4, s, va, i, block);
    }
    ok, a := MapOne(k, pml4, PageAt(va, i), writable, executable, user);
    if !ok {
      Rollback(k, pml4, va, i, block, s);
    } else {
      RunMappedOne(Translations(s.nodes), Translations(before), va, i, s.free, a);
    }
  }

  /** Allocate `size` bytes of memory at the lowest place with room, or leave
      everything as it was. */
  method AllocMappedFrame(k: Machine, pml4: Addr, size: nat, writable: bool, executable: bool, user: bool)
      returns (r: Allocated)
    requires k.Valid() && k.Rooted(pml4) && size % FRAME_SIZE == 0 && 1 <= size / FRAME_SIZE <= PAGES
    modifies k`mem, k`firstAlloc, k`linkedFree, k`freeList, k`nodes, k`loaned
    ensures k.Valid() && k.Rooted(pml4) && k.loaned == old(k.loaned)
    ensures Kept(old(k.mem), k.mem, Mapped(old(k.nodes)) + k.loaned)
    ensures forall v :: v in old(View(k.mem, k.nodes)) ==>
      v in View(k.mem, k.nodes) && View(k.mem, k.nodes)[v] == old(View(k.mem, k.nodes))[v]
    ensures var lo := if user then USER_SEARCH_START else KERNEL_SEARCH_START;
      var hi := if user then USER_SEARCH_END else KERNEL_SEARCH_END;
      match r
      case Ok(start) =>
        && LowestFit(old(Translations(k.nodes)), lo, hi, size / FRAME_SIZE, start)
        && RunMapped(old(Translations(k.nodes)), Translations(k.nodes), start, size / FRAME_SIZE, old(k.Free()))
        && old(k.FreeCount()) >= Size(Lacking(old(k.nodes), start, size / FRAME_SIZE))
      case OutOfVirtualSpace => forall s :: !Fits(old(Translations(k.nodes)), lo, hi, size / FRAME_SIZE, s)
      case OutOfPhysicalMemory =>
        exists s :: LowestFit(old(Translations(k.nodes)), lo, hi, size / FRAME_SIZE, s)
                    && old(k.FreeCount()) < Size(Lacking(old(k.nodes), s, size / FRAME_SIZE))
    ensures !r.Ok? ==> k.nodes == old(k.nodes) && k.Free() == old(k.Free())
  {
    hide Machine.Valid, Machine.Free, Translations, Mapped, RunMapped, FreeRun, Snapshot.Whole, View, SubTree, Kept,
      Lacking, Size;
    var block := size / FRAME_SIZE;
    var lo := if user then USER_SEARCH_START else KERNEL_SEARCH_START;
    var hi := if user then USER_SEARCH_END else KERNEL_SEARCH_END;
    var start := FindFreeVirtualMemory(k, lo, hi, pml4, block);
    KeptSame(k.mem, Mapped(k.nodes) + k.loaned);
    if start.None? {
      return OutOfVirtualSpace;
    }
    var va := start.value;
    ghost var s := Snapshot(k.mem, k.nodes, k.Free(), k.loaned, k.all);
    Begin(k, s);
    RunMappedNone(Translations(k.nodes), va, s.free);
    LackingNothing(k.nodes, va);
    for i := 0 to block
      invariant Progress(k, pml4, s, va, i)
    {
      var ok := MapNext(k, pml4, va, i, writable, executable, user, block, s);
      if !ok {
        SeenAsBefore(k, s);
        return OutOfPhysicalMemory;
      }
    }
    SeenAsBefore(k, s);
    Spent(k, pml4, s, va, block);
    return Ok(va);
  }

  lemma SeenAsBefore(k: Machine, s: Snapshot)
    requires s.Whole() && k.Valid() && Kept(s.mem, k.mem, Mapped(s.nodes) + s.loaned)
      && (SubTree(s.nodes, k.nodes) || k.nodes == s.nodes)
    ensures forall v :: v in View(s.mem, s.nodes) ==>
      v in View(k.mem, k.nodes) && View(k.mem, k.nodes)[v] == View(s.mem, s.nodes)[v]
  {
    hide TreeOk, NoneEmpty, Partition, Mapped, View;
    ViewGrown(s.mem, s.nodes, k.mem, k.nodes);
  }

  lemma Begin(k: Machine, s: Snapshot)
    requires k.Valid() && s == Snapshot(k.mem, k.nodes, k.Free(), k.loaned, k.all)
    ensures s.Whole() && SubTree(s.nodes, s.nodes)
  {
  }

  /** Distinct pages lie in distinct frames. */
  lemma DistinctFrames(k: Machine, p: nat, q: nat)
    requires k.Valid() && p in Translations(k.nodes) && q in Translations(k.nodes) && p != q
    ensures Translations(k.nodes)[p] != Translations(k.nodes)[q]
  {
    TranslationAt(k.nodes, p);
    TranslationAt(k.nodes, q);
    assert Path(4, p) != Path(4, q);
  }
}
