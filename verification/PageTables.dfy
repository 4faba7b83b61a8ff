/** The frame allocator and the page-table operations over one physical memory. */
module PageTables {
  import opened Bytes
  import opened PhysicalMemory
  import opened PageTree
  import opened Options

  datatype Region = Region(base: nat, length: nat)

  ghost predicate RegionsOk(regions: seq<Region>) {
    && (forall i :: 0 <= i < |regions| ==>
         regions[i].base % FRAME_SIZE == 0 && regions[i].base + regions[i].length < MAX_PHYSICAL)
    && (forall i, j :: 0 <= i < j < |regions| ==> regions[i].base + regions[i].length <= regions[j].base)
  }

  /** How the allocator moves an unaligned start; aligned starts stay. */
  function Realigned(a: Addr): Addr {
    if a % FRAME_SIZE == 0 then a else a / FRAME_SIZE % 2 * FRAME_SIZE + FRAME_SIZE
  }

  /** That is to the next frame boundary only for aligned starts and the first two
      frames; above them it goes back. */
  lemma RealignsUp(a: nat)
    ensures Realigned(a) >= a <==> a % FRAME_SIZE == 0 || a < 2 * FRAME_SIZE
    ensures Realigned(a) >= a ==> Realigned(a) < a + FRAME_SIZE && Realigned(a) % FRAME_SIZE == 0
  {
    if a % FRAME_SIZE != 0 {
      var q, r := a / FRAME_SIZE, a % FRAME_SIZE;
      assert a == q * FRAME_SIZE + r && Realigned(a) == (q % 2 + 1) * FRAME_SIZE;
      if q >= 2 {
        assert Realigned(a) <= 2 * FRAME_SIZE < a;
      } else {
        assert q % 2 == q && (q == 0 || q == 1);
        assert (q + 1) * FRAME_SIZE % FRAME_SIZE == 0;
      }
    }
  }

  /** Some region holds the whole frame at `a`. */
  ghost predicate InRegion(r: Region, a: Addr) {
    r.base <= a && a + FRAME_SIZE <= r.base + r.length
  }

  /** The frames never handed out yet: those of the regions from `first` on. */
  ghost function Fresh(regions: seq<Region>, first: Addr): set<Addr> {
    set a | 0 < a < MAX_PHYSICAL && a % FRAME_SIZE == 0 && first != 0 && first <= a
            && exists i :: 0 <= i < |regions| && InRegion(regions[i], a)
  }

  /** The first word of the frame at position `i` names the next one. */
  ghost predicate LinkOk(m: Memory, list: seq<Addr>, i: nat)
    requires i < |list| && list[i] in m && |m[list[i]]| == FRAME_SIZE
  {
    Word(m, list[i], 0) == if i == |list| - 1 then 0 else list[i + 1]
  }

  /** Returned frames, chained through their first words from `head` to 0. */
  ghost predicate ListOk(m: Memory, head: Addr, list: seq<Addr>) {
    && head == (if list == [] then 0 else list[0])
    && (forall i :: 0 <= i < |list| ==> list[i] in m && |m[list[i]]| == FRAME_SIZE && IsFrame(list[i]))
    && (forall i :: 0 <= i < |list| ==> LinkOk(m, list, i))
    && (forall i, j :: 0 <= i < j < |list| ==> list[i] != list[j])
  }

  ghost function Elements(list: seq<Addr>): set<Addr> {
    set i | 0 <= i < |list| :: list[i]
  }

  /** Memory of the listed frames decides the chain. */
  lemma ListFrame(m: Memory, m': Memory, head: Addr, list: seq<Addr>)
    requires ListOk(m, head, list)
    requires forall a :: a in Elements(list) && a in m ==> a in m' && m'[a] == m[a]
    ensures ListOk(m', head, list)
  {
    forall i | 0 <= i < |list|
      ensures list[i] in m' && m'[list[i]] == m[list[i]] && LinkOk(m', list, i)
    {
      assert list[i] in Elements(list) && LinkOk(m, list, i);
    }
  }

  /** Three disjoint sets that make up the whole. */
  ghost predicate Partition(free: set<Addr>, used: set<Addr>, loaned: set<Addr>, all: set<Addr>) {
    free !! used && free !! loaned && used !! loaned && free + used + loaned == all
  }

  lemma LoanToUse(free: set<Addr>, used: set<Addr>, loaned: set<Addr>, all: set<Addr>, s: set<Addr>)
    requires Partition(free, used, loaned, all) && s <= loaned + used
    ensures Partition(free, used + s, loaned - s, all)
  {
  }

  lemma PopList(m: Memory, head: Addr, list: seq<Addr>)
    requires ListOk(m, head, list) && head != 0
    ensures list != [] && head in Elements(list) && head in m && |m[head]| == FRAME_SIZE && IsFrame(head)
    ensures ListOk(m, Word(m, head, 0), list[1..]) && Elements(list[1..]) == Elements(list) - {head}
  {
    var rest := list[1..];
    assert list[0] == head && LinkOk(m, list, 0);
    forall i | 0 <= i < |rest|
      ensures rest[i] == list[i + 1] && LinkOk(m, rest, i)
    {
      assert LinkOk(m, list, i + 1);
    }
    forall a | a in Elements(list) && a != head
      ensures a in Elements(rest)
    {
      var i :| 0 <= i < |list| && list[i] == a;
      assert rest[i - 1] == a;
    }
  }

  lemma PushList(m: Memory, head: Addr, list: seq<Addr>, a: Addr)
    requires ListOk(m, head, list) && a in m && |m[a]| == FRAME_SIZE && IsFrame(a) && a !in Elements(list)
    ensures 0 <= head < WORD && ListOk(WriteWord(m, a, 0, head), a, [a] + list)
      && Elements([a] + list) == Elements(list) + {a}
  {
    hide Word, WriteWord, PutWord;
    var m' := WriteWord(m, a, 0, head);
    PushHead(m, a, head);
    ListFrame(m, m', head, list);
    PushLinks(m', head, list, a);
    PushElements(list, a);
  }

  lemma PushHead(m: Memory, a: Addr, head: Addr)
    requires a in m && |m[a]| == FRAME_SIZE && 0 <= head < WORD
    ensures var m' := WriteWord(m, a, 0, head);
      a in m' && |m'[a]| == FRAME_SIZE && Word(m', a, 0) == head && forall b :: b in m && b != a ==>
        b in m' && m'[b] == m[b]
  {
    ReadBack(m, a, 0, head, 0);
  }

  lemma PushLinks(m: Memory, head: Addr, list: seq<Addr>, a: Addr)
    requires ListOk(m, head, list) && a in m && |m[a]| == FRAME_SIZE && IsFrame(a) && a !in Elements(list)
      && Word(m, a, 0) == head
    ensures ListOk(m, a, [a] + list)
  {
    hide Word;
    var list' := [a] + list;
    forall i | 0 <= i < |list'|
      ensures i > 0 ==> list'[i] == list[i - 1] && list[i - 1] in Elements(list)
      ensures LinkOk(m, list', i)
    {
      if i > 0 {
        assert LinkOk(m, list, i - 1);
      }
    }
  }

  lemma PushElements(list: seq<Addr>, a: Addr)
    ensures Elements([a] + list) == Elements(list) + {a}
  {
    var list' := [a] + list;
    assert list'[0] == a;
    forall b | b in Elements(list)
      ensures b in Elements(list')
    {
      var i :| 0 <= i < |list| && list[i] == b;
      assert list'[i + 1] == b;
    }
  }

  /** The tables on the way to a page, and whether each is still to be entered. */
  datatype Tables = Tables(pdpt: Addr, pdptNew: bool, pd: Addr, pdNew: bool, pt: Addr, ptNew: bool)

  ghost function NewTables(t: Tables): set<Addr> {
    IfNew(t.pdpt, t.pdptNew) + IfNew(t.pd, t.pdNew) + IfNew(t.pt, t.ptNew)
  }

  ghost function IfNew(a: Addr, isNew: bool): set<Addr> {
    if isNew then {a} else {}
  }

  /** The nodes of the first `n` levels on the way to page `vp` that do not
      exist; level 4 is the page itself. */
  ghost function Missing(nodes: Nodes, vp: nat, n: nat): set<Path>
    requires n <= 4
  {
    if n == 0 then {} else Missing(nodes, vp, n - 1) + ({Toward(vp, n)} - nodes.Keys)
  }

  /** Whether the node at level `k` is missing, as a number. */
  ghost function MissingAt(nodes: Nodes, vp: nat, k: nat): nat
    requires k <= 4
  {
    if Toward(vp, k) in nodes then 0 else 1
  }

  lemma {:induction false} MissingLevels(nodes: Nodes, vp: nat, n: nat)
    requires n <= 4
    ensures forall p :: p in Missing(nodes, vp, n) ==> 1 <= p.level <= n && p == Toward(vp, p.level) && p !in nodes
    ensures forall k :: 1 <= k <= n && Toward(vp, k) !in nodes ==> Toward(vp, k) in Missing(nodes, vp, n)
  {
    if n > 0 {
      MissingLevels(nodes, vp, n - 1);
    }
  }

  lemma MissingOneMore(nodes: Nodes, vp: nat, n: nat)
    requires n < 4
    ensures Size(Missing(nodes, vp, n + 1)) == Size(Missing(nodes, vp, n)) + MissingAt(nodes, vp, n + 1)
  {
    hide Missing;
    var p := Toward(vp, n + 1);
    MissingLevels(nodes, vp, n);
    MissingLevels(nodes, vp, n + 1);
    assert Missing(nodes, vp, n + 1) == if p in nodes then Missing(nodes, vp, n) else Missing(nodes, vp, n) + {p};
  }

  lemma MissingCount(nodes: Nodes, vp: nat)
    ensures Size(Missing(nodes, vp, 3)) == MissingAt(nodes, vp, 1) + MissingAt(nodes, vp, 2) + MissingAt(nodes, vp, 3)
    ensures Size(Missing(nodes, vp, 4)) == Size(Missing(nodes, vp, 3)) + MissingAt(nodes, vp, 4)
  {
    hide Missing, MissingAt;
    MissingNone(nodes, vp);
    MissingOneMore(nodes, vp, 0);
    MissingOneMore(nodes, vp, 1);
    MissingOneMore(nodes, vp, 2);
    MissingOneMore(nodes, vp, 3);
  }

  lemma MissingNone(nodes: Nodes, vp: nat)
    ensures Size(Missing(nodes, vp, 0)) == 0
  {
  }

  /** Adding the way to page `vp` adds what was missing of it. */
  lemma WayAdded(nodes: Nodes, nodes': Nodes, vp: nat)
    requires nodes'.Keys == nodes.Keys + {Toward(vp, 1), Toward(vp, 2), Toward(vp, 3), Toward(vp, 4)}
    ensures nodes'.Keys == nodes.Keys + Missing(nodes, vp, 4)
  {
    hide Missing;
    MissingLevels(nodes, vp, 4);
  }

  ghost function Size<T>(s: set<T>): nat {
    |s|
  }

  lemma EmptySize()
    ensures Size<Addr>({}) == 0
  {
  }

  lemma TakenCount(free: set<Addr>, free': set<Addr>, a: Addr)
    requires a in free && free' == free - {a}
    ensures Size(free) == Size(free') + 1
  {
  }

  ghost predicate TablesReached(m: Memory, nodes: Nodes, vp: nat, t: Tables) {
    && Reached(m, nodes, vp, 1, t.pdpt, t.pdptNew) && Reached(m, nodes, vp, 2, t.pd, t.pdNew)
      && Reached(m, nodes, vp, 3, t.pt, t.ptNew)
    && t.pdpt != t.pd && t.pdpt != t.pt && t.pd != t.pt
  }

  class Machine {
    const regions: seq<Region>
    var mem: Memory
    var firstAlloc: Addr
    var linkedFree: Addr
    ghost var freeList: seq<Addr>
    ghost var nodes: Nodes
    ghost var loaned: set<Addr>
    ghost var all: set<Addr>

    ghost predicate AllocatorOk()
      reads this`mem, this`firstAlloc, this`linkedFree, this`freeList
    {
      && RegionsOk(regions) && MemoryOk(mem)
      && (firstAlloc != 0 ==> 0 < firstAlloc < MAX_PHYSICAL && firstAlloc % FRAME_SIZE == 0)
      && ListOk(mem, linkedFree, freeList)
      && Elements(freeList) !! Fresh(regions, firstAlloc)
      && Fresh(regions, firstAlloc) <= mem.Keys
    }

    ghost function Free(): set<Addr>
      reads this`firstAlloc, this`freeList
    {
      Elements(freeList) + Fresh(regions, firstAlloc)
    }

    ghost function FreeCount(): nat
      reads this`firstAlloc, this`freeList
    {
      Size(Free())
    }

    /** Start with the tables that `nodes` describes, and every frame from `first` on free. */
    constructor (regions: seq<Region>, mem: Memory, first: Addr, ghost nodes: Nodes)
      requires RegionsOk(regions) && MemoryOk(mem) && TreeOk(mem, nodes) && NoneEmpty(nodes)
      requires 0 < first < MAX_PHYSICAL && first % FRAME_SIZE == 0 && Fresh(regions, first) <= mem.Keys
      requires nodes.Values !! Fresh(regions, first)
      ensures Valid() && Free() == Fresh(regions, first) && loaned == {}
      ensures this.mem == mem && this.regions == regions && this.nodes == nodes
    {
      hide TreeOk, NoneEmpty, MemoryOk;
      TreeFrames(mem, nodes);
      this.regions, this.mem := regions, mem;
      firstAlloc, linkedFree := first, 0;
      freeList, this.nodes, loaned := [], nodes, {};
      all := Fresh(regions, first) + nodes.Values;
    }

    /** Hand out one frame: the most recently returned one, else the lowest. */
    method AllocFrame() returns (r: Option<Addr>)
      requires AllocatorOk()
      modifies this`firstAlloc, this`linkedFree, this`freeList
      ensures AllocatorOk()
      ensures r.None? <==> old(Free()) == {}
      ensures r.Some? ==>
        r.value in old(Free()) && IsFrame(r.value) && r.value in mem && Free() == old(Free()) - {r.value}
      ensures r.None? ==> Free() == old(Free())
      ensures old(FreeCount()) == if r.None? then 0 else FreeCount() + 1
      ensures r.Some? ==>
        if old(freeList) != [] then r.value == old(freeList)[0] else forall b :: b in old(Free()) ==> r.value <= b
    {
      hide Size;
      EmptySize();
      if linkedFree != 0 {
        var a := linkedFree;
        PopList(mem, a, freeList);
        linkedFree := Word(mem, a, 0);
        freeList := freeList[1..];
        TakenCount(old(Free()), Free(), a);
        return Some(a);
      }
      r := AllocFresh();
      if r.Some? {
        TakenCount(old(Free()), Free(), r.value);
      }
    }

    /** Hand out the next frame of the memory regions. */
    method AllocFresh() returns (r: Option<Addr>)
      requires AllocatorOk()
      modifies this`firstAlloc
      ensures AllocatorOk()
      ensures r.None? <==> old(Fresh(regions, firstAlloc)) == {}
      ensures r.Some? ==>
        r.value in old(Fresh(regions, firstAlloc))
        && Fresh(regions, firstAlloc) == old(Fresh(regions, firstAlloc)) - {r.value}
      ensures r.Some? ==> forall b :: b in old(Fresh(regions, firstAlloc)) ==> r.value <= b
      ensures r.None? ==> Fresh(regions, firstAlloc) == {} && firstAlloc == 0
    {
      if firstAlloc != 0 {
        var k := 0;
        while k < |regions|
          invariant 0 <= k <= |regions| && firstAlloc == old(firstAlloc) && AllocatorOk()
          invariant forall j, a :: 0 <= j < k && a % FRAME_SIZE == 0 && firstAlloc <= a ==> !InRegion(regions[j], a)
        {
          var regionStart := regions[k].base;
          var regionEnd := regionStart + regions[k].length;
          if regionEnd <= firstAlloc {
            k := k + 1;
            continue;
          }
          var allocStart := if regionStart < firstAlloc then firstAlloc else regionStart;
          allocStart := Realigned(allocStart);
          var allocEnd := allocStart + FRAME_SIZE;
          if allocEnd > regionEnd {
            k := k + 1;
            continue;
          }
          NextFresh(regions, firstAlloc, k);
          firstAlloc := allocEnd;
          return Some(allocStart);
        }
      }
      firstAlloc := 0;
      return None;
    }

    /** Take back the frame at `a`. */
    method DellocFrame(a: Addr)
      requires AllocatorOk() && a in mem && a !in Free()
      modifies this`mem, this`linkedFree, this`freeList
      ensures AllocatorOk() && Free() == old(Free()) + {a}
      ensures mem.Keys == old(mem.Keys) && forall b :: b in mem && b != a ==> mem[b] == old(mem)[b]
    {
      PushList(mem, linkedFree, freeList, a);
      mem := WriteWord(mem, a, 0, linkedFree);
      linkedFree := a;
      freeList := [a] + freeList;
    }

    /** Every frame is free, in the tree (as a table or a mapped page), or on
        loan to an operation in progress; and memory holds the tree. */
    ghost predicate Valid()
      reads this
    {
      && AllocatorOk() && TreeOk(mem, nodes) && NoneEmpty(nodes)
      && Partition(Free(), nodes.Values, loaned, all) && all <= mem.Keys
    }

    ghost predicate Rooted(pml4: Addr)
      reads this`nodes
    {
      ROOT in nodes && nodes[ROOT] == pml4
    }

    lemma Invariants()
      requires Valid()
      ensures TreeOk(mem, nodes) && NoneEmpty(nodes) && Partition(Free(), nodes.Values, loaned, all)
    {
    }

    lemma MemoryLengths()
      requires AllocatorOk()
      ensures MemoryOk(mem)
    {
    }

    method Borrow() returns (r: Option<Addr>)
      requires Valid()
      modifies this`firstAlloc, this`linkedFree, this`freeList, this`loaned
      ensures Valid() && (r.None? <==> old(Free()) == {})
      ensures r.None? ==> Free() == old(Free()) && loaned == old(loaned)
      ensures r.Some? ==> r.value in old(Free()) && IsFrame(r.value) && r.value in mem
      ensures r.Some? ==> Free() == old(Free()) - {r.value} && loaned == old(loaned) + {r.value}
      ensures old(FreeCount()) == if r.None? then 0 else FreeCount() + 1
    {
      hide TreeOk, NoneEmpty, AllocatorOk, Free, Machine.FreeCount;
      r := AllocFrame();
      if r.Some? {
        loaned := loaned + {r.value};
      }
    }

    method GiveBack(a: Addr)
      requires Valid() && a in loaned
      modifies this`mem, this`linkedFree, this`freeList, this`loaned
      ensures Valid() && Free() == old(Free()) + {a} && loaned == old(loaned) - {a}
      ensures mem.Keys == old(mem.Keys) && forall b :: b in mem && b != a ==> mem[b] == old(mem)[b]
    {
      hide TreeOk, NoneEmpty, AllocatorOk, Free;
      ghost var m := mem;
      TreeFrames(mem, nodes);
      DellocFrame(a);
      MemoryLengths();
      forall p | p in nodes
        ensures nodes[p] in mem && |mem[nodes[p]]| == FRAME_SIZE && mem[nodes[p]] == m[nodes[p]]
      {
        assert nodes[p] in nodes.Values && a in loaned;
        assert nodes[p] != a && MemoryOk(mem);
      }
      OutsideTables(m, mem, nodes);
      loaned := loaned - {a};
    }

    /** Clear a frame on loan. */
    method ZeroFrame(a: Addr)
      requires Valid() && a in loaned
      modifies this`mem
      ensures Valid() && mem == old(mem)[a := seq(FRAME_SIZE, _ => 0 as byte)]
    {
      hide TreeOk, NoneEmpty, ListOk, Fresh, RegionsOk, Elements;
      ghost var m := mem;
      TreeFrames(mem, nodes);
      mem := mem[a := seq(FRAME_SIZE, _ => 0 as byte)];
      ListFrame(m, mem, linkedFree, freeList);
      OutsideTables(m, mem, nodes);
    }

    /** The table that entry `k` on the way to page `vp` leads to, or a blank
        frame that can become it. */
    method NextTable(vp: nat, k: nat, table: Addr, ghost tableNew: bool) returns (r: Option<(Addr, bool)>)
      requires Valid() && vp < PAGES && k < 3 && Reached(mem, nodes, vp, k, table, tableNew)
        && (tableNew ==> table in loaned)
      modifies this`mem, this`firstAlloc, this`linkedFree, this`freeList, this`loaned
      ensures Valid() && mem.Keys == old(mem.Keys)
      ensures r.None? ==> Free() == old(Free()) == {} && loaned == old(loaned) && mem == old(mem)
      ensures r.None? ==> old(FreeCount()) == 0 && MissingAt(nodes, vp, k + 1) == 1
      ensures r.Some? ==> old(FreeCount()) == FreeCount() + MissingAt(nodes, vp, k + 1)
      ensures r.Some? ==> Reached(mem, nodes, vp, k + 1, r.value.0, r.value.1) && r.value.0 != table
      ensures r.Some? && r.value.1 ==>
        && r.value.0 in old(Free()) && r.value.0 !in old(loaned) && r.value.0 !in nodes.Values
        && Free() == old(Free()) - {r.value.0} && loaned == old(loaned) + {r.value.0}
        && forall b :: b in mem && b != r.value.0 ==> mem[b] == old(mem)[b]
      ensures r.Some? && !r.value.1 ==> Free() == old(Free()) && loaned == old(loaned) && mem == old(mem) && !tableNew
    {
      hide TreeOk, NoneEmpty, Free, AllocatorOk, Partition, Machine.FreeCount;
      TowardStep(vp, k);
      ReachedEntry(mem, nodes, vp, k, table, tableNew);
      var w := Word(mem, table, IndexAt(vp, k));
      if Present(w) {
        return Some((Address(w), false));
      }
      FreeApart();
      assert table in nodes.Values || table in loaned;
      var f := Borrow();
      if f.None? {
        return None;
      }
      ZeroFrame(f.value);
      BlankFrame(mem, nodes, f.value, k + 1);
      return Some((f.value, true));
    }

    /** Write the entries for page `vp` from the bottom up. */
    method LinkPath(vp: nat, pml4: Addr, pdpt: Addr, pdptNew: bool, pd: Addr, pdNew: bool, pt: Addr, ptNew: bool,
                    a: Addr, writable: bool, executable: bool, user: bool)
      requires Valid() && vp < PAGES && Path(4, vp) !in nodes && a in loaned && Rooted(pml4)
      requires Reached(mem, nodes, vp, 1, pdpt, pdptNew) && Reached(mem, nodes, vp, 2, pd, pdNew)
        && Reached(mem, nodes, vp, 3, pt, ptNew)
      requires (pdptNew ==> pdpt in loaned) && (pdNew ==> pd in loaned) && (ptNew ==> pt in loaned)
      requires pdpt != pd && pdpt != pt && pd != pt && a != pdpt && a != pd && a != pt
      modifies this`mem, this`nodes, this`loaned
      ensures Valid() && Rooted(pml4) && mem.Keys == old(mem.Keys)
      ensures Translations(nodes) == old(Translations(nodes))[vp := a] && loaned == old(loaned) - {pdpt, pd, pt, a}
      ensures forall p :: p in old(nodes) ==> p in nodes && nodes[p] == old(nodes)[p]
      ensures nodes.Keys == old(nodes.Keys) + Missing(old(nodes), vp, 4)
      ensures forall b :: b in mem && b !in {pml4, pdpt, pd, pt} ==> mem[b] == old(mem)[b]
    {
      hide TreeOk, NoneEmpty, Free, AllocatorOk, Partition, Translations, Entry, Reached, StepsReady, Elements,
        Written, PathNodes, Missing, Toward;
      LinkFacts(vp, pdpt, pdptNew, pd, pdNew, pt, ptNew, a, writable, executable, user);
      var s1, s2 := Step(pdpt, pdptNew, Entry(pdpt, true, user, false)), Step(pd, pdNew, Entry(pd, true, user, false));
      var s3, s4 := Step(pt, ptNew, Entry(pt, true, user, false)), Step(a, true, Entry(a, writable, user, !executable));
      LinkTree(mem, nodes, vp, s1, s2, s3, s4);
      LinkNodes(mem, nodes, vp, s1, s2, s3, s4);
      LoanToUse(Free(), nodes.Values, loaned, all, {pdpt, pd, pt, a});
      WriteEntries(vp, pml4, s1, s2, s3, s4);
      nodes := PathNodes(nodes, vp, 0, [s1, s2, s3, s4]);
      WayAdded(old(nodes), nodes, vp);
      loaned := loaned - {pdpt, pd, pt, a};
    }

    /** The entries, in the order in which the code writes them. */
    method WriteEntries(vp: nat, pml4: Addr, s1: Step, s2: Step, s3: Step, s4: Step)
      requires AllocatorOk() && forall f :: f in {pml4, s1.frame, s2.frame, s3.frame} ==>
        f in mem && f !in Elements(freeList)
      modifies this`mem
      ensures AllocatorOk() && mem.Keys == old(mem.Keys)
      ensures mem == Written(old(mem), pml4, vp, s1, s2, s3, s4)
      ensures forall b :: b in mem && b !in {pml4, s1.frame, s2.frame, s3.frame} ==> mem[b] == old(mem)[b]
    {
      hide Entered, ListOk, RegionsOk, Fresh, Elements, IndexAt;
      ghost var m := mem;
      PutFrame(mem, s3.frame, vp, 3, s4);
      mem := Put(mem, s3.frame, vp, 3, s4);
      PutFrame(mem, s2.frame, vp, 2, s3);
      mem := Put(mem, s2.frame, vp, 2, s3);
      PutFrame(mem, s1.frame, vp, 1, s2);
      mem := Put(mem, s1.frame, vp, 1, s2);
      PutFrame(mem, pml4, vp, 0, s1);
      mem := Put(mem, pml4, vp, 0, s1);
      ListFrame(m, mem, linkedFree, freeList);
    }

    lemma LoanApart()
      requires Valid()
      ensures forall a :: a in loaned ==> a !in nodes.Values
    {
    }

    lemma LoanInMemory(a: Addr)
      requires Valid() && a in loaned
      ensures a in mem
    {
    }

    lemma FreeApart()
      requires Valid()
      ensures forall a :: a in Free() ==> a !in nodes.Values && a !in loaned
      ensures Mapped(nodes) <= nodes.Values
    {
      hide Free, AllocatorOk, NoneEmpty;
    }

    lemma LoanReached(a: Addr, vp: nat)
      requires Valid() && a in loaned && Path(4, vp) !in nodes
      ensures Reached(mem, nodes, vp, 4, a, true)
    {
    }

    lemma LinkFacts(vp: nat, pdpt: Addr, pdptNew: bool, pd: Addr, pdNew: bool, pt: Addr, ptNew: bool,
                    a: Addr, writable: bool, executable: bool, user: bool)
      requires Valid() && vp < PAGES && Path(4, vp) !in nodes && a in loaned
      requires Reached(mem, nodes, vp, 1, pdpt, pdptNew) && Reached(mem, nodes, vp, 2, pd, pdNew)
        && Reached(mem, nodes, vp, 3, pt, ptNew)
      requires (pdptNew ==> pdpt in loaned) && (pdNew ==> pd in loaned) && (ptNew ==> pt in loaned)
      requires pdpt != pd && pdpt != pt && pd != pt && a != pdpt && a != pd && a != pt
      ensures ROOT in nodes && IsFrame(pdpt) && IsFrame(pd) && IsFrame(pt) && IsFrame(a)
      ensures forall f :: f in {nodes[ROOT], pdpt, pd, pt} ==>
        f in mem && |mem[f]| == FRAME_SIZE && f !in Elements(freeList)
      ensures StepsReady(mem, nodes, vp, Step(pdpt, pdptNew, Entry(pdpt, true, user, false)),
        Step(pd, pdNew, Entry(pd, true, user, false)),
                Step(pt, ptNew, Entry(pt, true, user, false)), Step(a, true, Entry(a, writable, user, !executable)))
      ensures (!pdptNew ==> pdpt in nodes.Values) && (!pdNew ==> pd in nodes.Values) && (!ptNew ==> pt in nodes.Values)
    {
      hide TreeOk, NoneEmpty, ListOk, Fresh, RegionsOk, Reached, StepOk, Entry, Elements;
      LoanReached(a, vp);
      TreeFrames(mem, nodes);
      MakeStep(mem, nodes, vp, 1, pdpt, pdptNew, true, user, false);
      MakeStep(mem, nodes, vp, 2, pd, pdNew, true, user, false);
      MakeStep(mem, nodes, vp, 3, pt, ptNew, true, user, false);
      MakeStep(mem, nodes, vp, 4, a, true, writable, user, !executable);
      assert nodes[ROOT] in nodes.Values;
      InUse(nodes[ROOT]);
      InUse(pdpt);
      InUse(pd);
      InUse(pt);
    }

    lemma InUse(a: Addr)
      requires Valid() && (a in loaned || a in nodes.Values)
      ensures a !in Elements(freeList)
    {
    }

    /** Return a frame that was borrowed for a table, if it was. */
    method GiveBackNew(a: Addr, isNew: bool)
      requires Valid() && (isNew ==> a in loaned)
      modifies this`mem, this`linkedFree, this`freeList, this`loaned
      ensures Valid() && Free() == old(Free()) + IfNew(a, isNew) && loaned == old(loaned) - IfNew(a, isNew)
      ensures mem.Keys == old(mem.Keys) && forall b :: b in mem && b !in IfNew(a, isNew) ==> mem[b] == old(mem)[b]
    {
      hide Machine.Valid, Free;
      if isNew {
        GiveBack(a);
      }
    }

    /** The upper two tables on the way to page `vp`. */
    method ReachUpper(vp: nat, pml4: Addr) returns (ok: bool, pdpt: Addr, pdptNew: bool, pd: Addr, pdNew: bool)
      requires Valid() && vp < PAGES && Rooted(pml4)
      modifies this`mem, this`firstAlloc, this`linkedFree, this`freeList, this`loaned
      ensures Valid() && mem.Keys == old(mem.Keys)
      ensures !ok ==> Free() == old(Free()) && loaned == old(loaned)
      ensures !ok ==> old(FreeCount()) < MissingAt(nodes, vp, 1) + MissingAt(nodes, vp, 2)
      ensures ok ==> old(FreeCount()) == FreeCount() + MissingAt(nodes, vp, 1) + MissingAt(nodes, vp, 2)
      ensures ok ==> Reached(mem, nodes, vp, 1, pdpt, pdptNew) && Reached(mem, nodes, vp, 2, pd, pdNew) && pdpt != pd
      ensures ok ==>
        && IfNew(pdpt, pdptNew) + IfNew(pd, pdNew) <= old(Free())
        && Free() == old(Free()) - IfNew(pdpt, pdptNew) - IfNew(pd, pdNew)
        && loaned == old(loaned) + IfNew(pdpt, pdptNew) + IfNew(pd, pdNew)
        && old(loaned) + nodes.Values !! IfNew(pdpt, pdptNew) + IfNew(pd, pdNew)
      ensures forall b :: b in mem && (b in nodes.Values || b in old(loaned)) ==> mem[b] == old(mem)[b]
    {
      hide TreeOk, NoneEmpty, AllocatorOk, Free, Partition, Reached, Toward, IsFrame, MissingAt, Machine.FreeCount;
      RootReached(mem, nodes, vp);
      LoanApart();
      ok, pdpt, pdptNew, pd, pdNew := false, 0, false, 0, false;
      var r1 := NextTable(vp, 0, pml4, false);
      if r1.None? {
        return;
      }
      pdpt, pdptNew := r1.value.0, r1.value.1;
      ghost var m := mem;
      var r2 := NextTable(vp, 1, pdpt, pdptNew);
      if r2.None? {
        GiveBackNew(pdpt, pdptNew);
        return;
      }
      ok, pd, pdNew := true, r2.value.0, r2.value.1;
      ReachedFrame(m, mem, nodes, vp, 1, pdpt, pdptNew);
    }

    /** The three tables on the way to page `vp`, blank frames standing in for
        those that do not exist; when a frame is lacking, undo and fail. */
    method ReachTables(vp: nat, pml4: Addr) returns (r: Option<Tables>)
      requires Valid() && vp < PAGES && Rooted(pml4)
      modifies this`mem, this`firstAlloc, this`linkedFree, this`freeList, this`loaned
      ensures Valid() && mem.Keys == old(mem.Keys)
      ensures r.None? <==> old(FreeCount()) < Size(Missing(nodes, vp, 3))
      ensures r.None? ==> Free() == old(Free()) && loaned == old(loaned)
      ensures r.Some? ==> FreeCount() == old(FreeCount()) - Size(Missing(nodes, vp, 3))
      ensures r.Some? ==> TablesReached(mem, nodes, vp, r.value) && Free() <= old(Free())
      ensures r.Some? ==> loaned == old(loaned) + NewTables(r.value) && old(loaned) !! NewTables(r.value)
      ensures forall b :: b in mem && (b in nodes.Values || b in old(loaned)) ==> mem[b] == old(mem)[b]
    {
      hide TreeOk, NoneEmpty, AllocatorOk, Free, Partition, Reached, Toward, IsFrame, Missing, MissingAt,
        Machine.FreeCount, Size;
      MissingCount(nodes, vp);
      var ok, pdpt, pdptNew, pd, pdNew := ReachUpper(vp, pml4);
      if !ok {
        return None;
      }
      ghost var m := mem;
      var r3 := NextTable(vp, 2, pd, pdNew);
      if r3.None? {
        GiveBackNew(pdpt, pdptNew);
        GiveBackNew(pd, pdNew);
        return None;
      }
      var (pt, ptNew) := r3.value;
      ReachedFrame(m, mem, nodes, vp, 1, pdpt, pdptNew);
      ReachedFrame(m, mem, nodes, vp, 2, pd, pdNew);
      ReachedApart(mem, nodes, vp, 1, pdpt, pdptNew, 3, pt, ptNew);
      ReachedApart(mem, nodes, vp, 2, pd, pdNew, 3, pt, ptNew);
      return Some(Tables(pdpt, pdptNew, pd, pdNew, pt, ptNew));
    }

    /** Map page `vp` to the frame `a`, allocating the tables it lacks; when a
        table cannot be allocated, undo and fail. */
    method WriteMemoryPage(vp: nat, a: Addr, pml4: Addr, writable: bool, executable: bool, user: bool)
        returns (ok: bool)
      requires Valid() && vp < PAGES && Path(4, vp) !in nodes && a in loaned && Rooted(pml4)
      modifies this`mem, this`firstAlloc, this`linkedFree, this`freeList, this`nodes, this`loaned
      ensures Valid() && Rooted(pml4) && mem.Keys == old(mem.Keys)
      ensures ok <==> old(FreeCount()) >= Size(Missing(old(nodes), vp, 3))
      ensures !ok ==> nodes == old(nodes) && Free() == old(Free()) && loaned == old(loaned)
      ensures ok ==> nodes.Keys == old(nodes.Keys) + Missing(old(nodes), vp, 4)
      ensures ok ==>
        Translations(nodes) == old(Translations(nodes))[vp := a] && loaned == old(loaned) - {a} && Free() <= old(Free())
      ensures ok ==> forall p :: p in old(nodes) ==> p in nodes && nodes[p] == old(nodes)[p]
      ensures forall b :: b in mem && (b in Mapped(old(nodes)) || b in old(loaned)) ==> mem[b] == old(mem)[b]
      ensures ok ==> a in old(mem) && View(mem, nodes) == old(View(mem, nodes))[vp := old(mem)[a]]
    {
      hide TreeOk, NoneEmpty, AllocatorOk, Free, Partition, Reached, Translations, Toward, IsFrame, Mapped, View,
        Missing, Machine.FreeCount;
      LoanInMemory(a);
      NotMapped(mem, nodes, vp);
      ghost var m, before, loan := mem, nodes, loaned;
      var r := ReachTables(vp, pml4);
      if r.None? {
        return false;
      }
      LinkTables(vp, a, pml4, r.value, writable, executable, user, loan);
      ViewMapped(m, before, mem, nodes, vp, a);
      return true;
    }

    /** With all tables in reach, the new ones on loan besides `loan`. */
    method LinkTables(vp: nat, a: Addr, pml4: Addr, t: Tables, writable: bool, executable: bool, user: bool,
                      ghost loan: set<Addr>)
      requires Valid() && vp < PAGES && Path(4, vp) !in nodes && a in loan && Rooted(pml4)
      requires TablesReached(mem, nodes, vp, t) && loaned == loan + NewTables(t) && loan !! NewTables(t)
      modifies this`mem, this`nodes, this`loaned
      ensures Valid() && Rooted(pml4) && mem.Keys == old(mem.Keys)
      ensures Translations(nodes) == old(Translations(nodes))[vp := a] && loaned == loan - {a}
      ensures forall p :: p in old(nodes) ==> p in nodes && nodes[p] == old(nodes)[p]
      ensures nodes.Keys == old(nodes.Keys) + Missing(old(nodes), vp, 4)
      ensures forall b :: b in mem && (b in Mapped(old(nodes)) || b in loan) ==> mem[b] == old(mem)[b]
    {
      hide TreeOk, NoneEmpty, AllocatorOk, Free, Partition, Reached, Translations, Toward, IsFrame, Mapped, Missing;
      LoanApart();
      TreeFrames(mem, nodes);
      RootReached(mem, nodes, vp);
      NotMapped(mem, nodes, vp);
      ReachedInUse(mem, nodes, vp, t);
      LinkPath(vp, pml4, t.pdpt, t.pdptNew, t.pd, t.pdNew, t.pt, t.ptNew, a, writable, executable, user);
    }

    /** `Valid` while the table at `q` may have become empty. */
    ghost predicate ValidBut(q: Path)
      reads this
    {
      && AllocatorOk() && TreeOk(mem, nodes) && NoneEmptyBut(nodes, q)
      && Partition(Free(), nodes.Values, loaned, all) && all <= mem.Keys
    }

    lemma UnhangFacts(p: Path, i: nat)
      requires ValidBut(Child(p, i)) && p in nodes && p.level < 4 && i < ENTRIES && Child(p, i) in nodes
      ensures nodes[p] in mem && nodes[Child(p, i)] in mem && nodes[p] != nodes[Child(p, i)]
      ensures nodes[p] !in Free() && nodes[Child(p, i)] !in Free()
      ensures Partition(Free() + {nodes[Child(p, i)]}, (nodes - {Child(p, i)}).Values, loaned, all)
    {
      hide AllocatorOk, Free, NoneEmptyBut;
      assert nodes[p] in nodes.Values && nodes[Child(p, i)] in nodes.Values;
      RemoveValues(mem, nodes, Child(p, i));
    }

    method ClearEntry(table: Addr, i: nat)
      requires AllocatorOk() && table in mem && table !in Free() && i < ENTRIES
      modifies this`mem
      ensures AllocatorOk() && mem.Keys == old(mem.Keys) && |old(mem)[table]| == FRAME_SIZE
        && mem == WriteWord(old(mem), table, i, 0)
      ensures MemoryOk(mem)
    {
      hide ListOk, RegionsOk, Fresh;
      ghost var m := mem;
      mem := WriteWord(mem, table, i, 0);
      ListFrame(m, mem, linkedFree, freeList);
    }

    /** Free the frame at entry `i` of the table at `p`, and clear the entry. */
    method Unhang(ghost p: Path, i: nat, table: Addr, child: Addr)
      requires ValidBut(Child(p, i)) && p in nodes && p.level < 4 && i < ENTRIES && table == nodes[p]
      requires Child(p, i) in nodes && nodes[Child(p, i)] == child && !HasChild(nodes, Child(p, i))
      modifies this`mem, this`linkedFree, this`freeList, this`nodes
      ensures ValidBut(p) && nodes == old(nodes) - {Child(p, i)} && Free() == old(Free()) + {child}
      ensures mem.Keys == old(mem.Keys) && forall b :: b in mem && b !in {table, child} ==> mem[b] == old(mem)[b]
      ensures Translations(nodes) == if p.level == 3 then old(Translations(nodes)) - {Child(p, i).index}
        else old(Translations(nodes))
    {
      hide TreeOk, NoneEmptyBut, Free, AllocatorOk, Translations, HasChild, Partition;
      ghost var m, c := mem, Child(p, i);
      UnhangFacts(p, i);
      DellocFrame(child);
      ClearEntry(table, i);
      UnhangTree(m, mem, nodes, p, i);
      RemoveKeepsOthers(nodes, p, i);
      RemoveTranslations(nodes, c);
      nodes := nodes - {c};
    }

    /** Whether no entry of the table at `p` is present. */
    method IsAllEmpty(table: Addr, ghost p: Path) returns (empty: bool)
      requires TreeOk(mem, nodes) && p in nodes && p.level < 4 && table == nodes[p]
      ensures empty <==> !HasChild(nodes, p)
    {
      for i := 0 to ENTRIES
        invariant forall j :: 0 <= j < i ==> Child(p, j) !in nodes
      {
        assert EntryOk(mem, nodes, p, i);
        if Present(Word(mem, table, i)) {
          return false;
        }
      }
      return true;
    }

    /** Free the tables on the way to `vp` that have become empty. */
    method FreeEmptyTables(vp: nat, pml4: Addr, pdpt: Addr, pd: Addr, pt: Addr)
      requires ValidBut(Toward(vp, 3)) && OnTheWay(nodes, vp, 3) && vp < PAGES
      requires pml4 == nodes[Toward(vp, 0)] && pdpt == nodes[Toward(vp, 1)] && pd == nodes[Toward(vp, 2)]
        && pt == nodes[Toward(vp, 3)]
      modifies this`mem, this`linkedFree, this`freeList, this`nodes
      ensures Valid() && Translations(nodes) == old(Translations(nodes))
      ensures mem.Keys == old(mem.Keys) && forall b :: b in mem && b !in {pml4, pdpt, pd, pt} ==> mem[b] == old(mem)[b]
      ensures nodes.Keys <= old(nodes).Keys && forall p :: p in nodes ==> nodes[p] == old(nodes)[p]
    {
      hide TreeOk, NoneEmpty, NoneEmptyBut, Free, AllocatorOk, Translations, HasChild, Partition, Toward, Child,
        IndexAt;
      ChildChain(vp);
      var empty := IsAllEmpty(pt, Toward(vp, 3));
      if !empty {
        ButWhole(nodes, Toward(vp, 3));
        return;
      }
      Unhang(Toward(vp, 2), IndexAt(vp, 2), pd, pt);
      empty := IsAllEmpty(pd, Toward(vp, 2));
      if !empty {
        ButWhole(nodes, Toward(vp, 2));
        return;
      }
      Unhang(Toward(vp, 1), IndexAt(vp, 1), pdpt, pd);
      empty := IsAllEmpty(pdpt, Toward(vp, 1));
      if !empty {
        ButWhole(nodes, Toward(vp, 1));
        return;
      }
      Unhang(Toward(vp, 0), IndexAt(vp, 0), pml4, pdpt);
      ButWhole(nodes, Toward(vp, 0));
    }

    /** Unmap page `vp`, freeing its frame and every table that this empties. */
    method RemoveMemoryPage(pml4: Addr, vp: nat)
      requires Valid() && vp < PAGES && vp in Translations(nodes) && Rooted(pml4)
      modifies this`mem, this`linkedFree, this`freeList, this`nodes
      ensures Valid() && Rooted(pml4) && mem.Keys == old(mem.Keys)
      ensures Translations(nodes) == old(Translations(nodes)) - {vp}
      ensures nodes.Keys <= old(nodes).Keys && forall p :: p in nodes ==> nodes[p] == old(nodes)[p]
      ensures forall b :: b in mem && (b in Mapped(nodes) || b in loaned) ==> mem[b] == old(mem)[b]
      ensures View(mem, nodes) == old(View(mem, nodes)) - {vp}
    {
      hide TreeOk, NoneEmpty, NoneEmptyBut, Free, AllocatorOk, Translations, HasChild, Partition, Toward, Child,
        IndexAt, Mapped, View;
      WalkEntries(mem, nodes, vp);
      LoanApart();
      ghost var m, before := mem, nodes;
      WholeBut(nodes, Toward(vp, 4));
      ChildChain(vp);
      var pdpt := Address(Word(mem, pml4, IndexAt(vp, 0)));
      var pd := Address(Word(mem, pdpt, IndexAt(vp, 1)));
      var pt := Address(Word(mem, pd, IndexAt(vp, 2)));
      var a := Address(Word(mem, pt, IndexAt(vp, 3)));
      LeafChildless(mem, nodes, vp);
      Unhang(Toward(vp, 3), IndexAt(vp, 3), pt, a);
      FreeEmptyTables(vp, pml4, pdpt, pd, pt);
      RemovedApart(m, before, nodes, vp);
      TreeFrames(mem, nodes);
      ViewUnmapped(m, before, mem, nodes, {vp});
    }
  }

  /** Taking the first whole frame of the first region with one left takes
      exactly that frame out of the fresh ones. */
  lemma NextFresh(regions: seq<Region>, first: Addr, k: nat)
    requires RegionsOk(regions) && k < |regions| && 0 < first < MAX_PHYSICAL && first % FRAME_SIZE == 0
    requires forall j, a :: 0 <= j < k && a % FRAME_SIZE == 0 && first <= a ==> !InRegion(regions[j], a)
    ensures var a := if regions[k].base < first then first else regions[k].base;
      InRegion(regions[k], a) ==>
        && a in Fresh(regions, first) && Fresh(regions, a + FRAME_SIZE) == Fresh(regions, first) - {a}
        && forall b :: b in Fresh(regions, first) ==> a <= b
  {
    var a := if regions[k].base < first then first else regions[k].base;
    if InRegion(regions[k], a) {
      assert a in Fresh(regions, first);
      forall b | b in Fresh(regions, first) && b != a
        ensures a + FRAME_SIZE <= b
      {
        var i :| 0 <= i < |regions| && InRegion(regions[i], b);
        LaterFrame(regions, first, k, i, b);
      }
      hide InRegion, RegionsOk;
      assert Fresh(regions, a + FRAME_SIZE) == Fresh(regions, first) - {a};
    }
  }

  lemma LaterFrame(regions: seq<Region>, first: Addr, k: nat, i: nat, b: Addr)
    requires RegionsOk(regions) && k < |regions| && 0 < first && first % FRAME_SIZE == 0 && first <= b
      && b % FRAME_SIZE == 0
    requires forall j, a :: 0 <= j < k && a % FRAME_SIZE == 0 && first <= a ==> !InRegion(regions[j], a)
    requires i < |regions| && InRegion(regions[i], b)
    ensures var a := if regions[k].base < first then first else regions[k].base;
      InRegion(regions[k], a) && b != a ==> a + FRAME_SIZE <= b
  {
    var a := if regions[k].base < first then first else regions[k].base;
    assert k <= i;
    if i == k {
      assert a <= b && a % FRAME_SIZE == 0;
    }
  }

  /** Reading the entry at a table on the way, old or blank. */
  lemma ReachedEntry(m: Memory, nodes: Nodes, vp: nat, k: nat, table: Addr, isNew: bool)
    requires TreeOk(m, nodes) && vp < PAGES && k < 4 && Reached(m, nodes, vp, k, table, isNew)
    ensures table in m && |m[table]| == FRAME_SIZE
    ensures var w := Word(m, table, IndexAt(vp, k));
      && (Present(w) <==> Toward(vp, k + 1) in nodes)
      && (Present(w) ==> !isNew && Address(w) == nodes[Toward(vp, k + 1)] && nodes[Toward(vp, k + 1)] != table)
  {
    TowardStep(vp, k);
    if isNew {
      ChildParent(Toward(vp, k), IndexAt(vp, k));
      assert !Present(Word(m, table, IndexAt(vp, k)));
    } else {
      assert EntryOk(m, nodes, Toward(vp, k), IndexAt(vp, k));
    }
  }

  lemma BlankFrame(m: Memory, nodes: Nodes, a: Addr, k: nat)
    requires IsFrame(a) && a in m && m[a] == seq(FRAME_SIZE, _ => 0 as byte) && a !in nodes.Values
    ensures Hangable(m, nodes, a, k)
  {
    forall i | 0 <= i < ENTRIES
      ensures !Present(Word(m, a, i))
    {
      ZeroWords(m, a, i);
    }
  }

  lemma TreeFrames(m: Memory, nodes: Nodes)
    requires TreeOk(m, nodes)
    ensures forall p :: p in nodes ==> nodes[p] in nodes.Values && nodes[p] in m && |m[nodes[p]]| == FRAME_SIZE
    ensures ROOT in nodes
  {
  }

  lemma RootReached(m: Memory, nodes: Nodes, vp: nat)
    requires TreeOk(m, nodes) && vp < PAGES
    ensures ROOT in nodes && Reached(m, nodes, vp, 0, nodes[ROOT], false)
  {
    TowardStep(vp, 0);
  }

  lemma ReachedFrame(m: Memory, m': Memory, nodes: Nodes, vp: nat, k: nat, f: Addr, isNew: bool)
    requires k <= 4 && Reached(m, nodes, vp, k, f, isNew) && (isNew && f in m ==> f in m' && m'[f] == m[f])
    ensures Reached(m', nodes, vp, k, f, isNew)
  {
    if isNew {
      forall i | 0 <= i < ENTRIES && k < 4
        ensures !Present(Word(m', f, i))
      {
        assert !Present(Word(m, f, i));
      }
    }
  }

  /** The table entry for a frame on the way is a valid step. */
  lemma MakeStep(m: Memory, nodes: Nodes, vp: nat, k: nat, f: Addr, isNew: bool, rw: bool, user: bool, nx: bool)
    requires TreeOk(m, nodes) && 0 < k <= 4 && Reached(m, nodes, vp, k, f, isNew) && vp < PAGES
    ensures IsFrame(f) && f in m && |m[f]| == FRAME_SIZE && ROOT in nodes
      && (!isNew ==> f in nodes.Values && f != nodes[ROOT])
    ensures StepOk(m, nodes, vp, k, Step(f, isNew, Entry(f, rw, user, nx)))
  {
    EntryRoundTrip(f, rw, user, nx);
  }

  lemma ReachedApart(m: Memory, nodes: Nodes, vp: nat, k: nat, f: Addr, isNew: bool, j: nat, g: Addr, gNew: bool)
    requires TreeOk(m, nodes) && k < j <= 4 && Reached(m, nodes, vp, k, f, isNew) && Reached(m, nodes, vp, j, g, gNew)
    ensures (!isNew ==> f in nodes.Values) && (!gNew ==> g in nodes.Values) && (!isNew && !gNew ==> f != g)
  {
  }

  lemma ReachedInUse(m: Memory, nodes: Nodes, vp: nat, t: Tables)
    requires TreeOk(m, nodes) && TablesReached(m, nodes, vp, t)
    ensures (!t.pdptNew ==> t.pdpt in nodes.Values) && (!t.pdNew ==> t.pd in nodes.Values)
      && (!t.ptNew ==> t.pt in nodes.Values)
    ensures (t.pdptNew ==> t.pdpt !in nodes.Values) && (t.pdNew ==> t.pd !in nodes.Values)
      && (t.ptNew ==> t.pt !in nodes.Values)
  {
  }

  lemma PutFrame(m: Memory, table: Addr, vp: nat, k: nat, s: Step)
    requires MemoryOk(m) && table in m && k < 4
    ensures forall b :: b in m && b != table ==> Put(m, table, vp, k, s)[b] == m[b]
  {
    EnteredFrame(m, table, vp, k, s.isNew, s.word);
  }

  /** Clearing the entry takes the childless node out of the tree, whatever
      became of the freed frame's contents. */
  lemma UnhangTree(m: Memory, m': Memory, nodes: Nodes, p: Path, i: nat)
    requires TreeOk(m, nodes) && p in nodes && p.level < 4 && i < ENTRIES && Child(p, i) in nodes
      && !HasChild(nodes, Child(p, i))
    requires MemoryOk(m') && m'.Keys == m.Keys
    requires nodes[p] in m && |m[nodes[p]]| == FRAME_SIZE
    requires forall b :: b in m && b != nodes[Child(p, i)] ==> m'[b] == WriteWord(m, nodes[p], i, 0)[b]
    ensures TreeOk(m', nodes - {Child(p, i)})
  {
    hide HasChild, Word;
    RemoveChild(m, nodes, p, i);
    OutsideTables(WriteWord(m, nodes[p], i, 0), m', nodes - {Child(p, i)});
  }

  lemma WholeBut(nodes: Nodes, q: Path)
    requires NoneEmpty(nodes)
    ensures NoneEmptyBut(nodes, q)
  {
  }

  lemma ButWhole(nodes: Nodes, q: Path)
    requires NoneEmptyBut(nodes, q) && (q.level == 0 || HasChild(nodes, q))
    ensures NoneEmpty(nodes)
  {
  }

  /** Every table on the way to page `vp`, down to level `n`. */
  ghost predicate OnTheWay(nodes: Nodes, vp: nat, n: nat)
    requires n <= 4
  {
    forall k :: 0 <= k <= n ==> Toward(vp, k) in nodes
  }

  lemma ChildChain(vp: nat)
    requires vp < PAGES
    ensures Toward(vp, 0) == ROOT && Toward(vp, 4) == Path(4, vp)
    ensures forall k :: 0 <= k <= 4 ==> Toward(vp, k).level == k
    ensures forall k :: 0 <= k < 4 ==> Child(Toward(vp, k), IndexAt(vp, k)) == Toward(vp, k + 1)
  {
    forall k | 0 <= k < 4
      ensures Child(Toward(vp, k), IndexAt(vp, k)) == Toward(vp, k + 1)
    {
      TowardStep(vp, k);
    }
  }

  /** The four entries on the way to a mapped page. */
  lemma WalkEntries(m: Memory, nodes: Nodes, vp: nat)
    requires TreeOk(m, nodes) && vp < PAGES && vp in Translations(nodes)
    ensures OnTheWay(nodes, vp, 4)
    ensures forall k :: 0 <= k <= 4 ==>
      nodes[Toward(vp, k)] in nodes.Values && nodes[Toward(vp, k)] in m && |m[nodes[Toward(vp, k)]]| == FRAME_SIZE
    ensures forall k :: 0 <= k < 4 ==>
      Present(Word(m, nodes[Toward(vp, k)], IndexAt(vp, k)))
        && Address(Word(m, nodes[Toward(vp, k)], IndexAt(vp, k))) == nodes[Toward(vp, k + 1)]
  {
    TranslationAt(nodes, vp);
    forall k | 0 <= k <= 4
      ensures Toward(vp, k) in nodes
    {
      AncestorsPresent(m, nodes, vp, k);
    }
    forall k | 0 <= k < 4
      ensures Present(Word(m, nodes[Toward(vp, k)], IndexAt(vp, k)))
        && Address(Word(m, nodes[Toward(vp, k)], IndexAt(vp, k))) == nodes[Toward(vp, k + 1)]
    {
      TowardStep(vp, k);
      assert EntryOk(m, nodes, Toward(vp, k), IndexAt(vp, k));
    }
  }

  /** What is still mapped lies apart from the frames on the way to `vp`. */
  lemma RemovedApart(m: Memory, n: Nodes, n': Nodes, vp: nat)
    requires TreeOk(m, n) && vp < PAGES && OnTheWay(n, vp, 4) && vp !in Translations(n')
    requires n'.Keys <= n.Keys && forall p :: p in n' ==> n'[p] == n[p]
    ensures forall b, k :: 0 <= k <= 4 && b in Mapped(n') ==> b != n[Toward(vp, k)]
  {
    TranslationAt(n', vp);
    forall b, k | 0 <= k <= 4 && b in Mapped(n')
      ensures b != n[Toward(vp, k)]
    {
      var p :| p in n' && p.level == 4 && n'[p] == b;
      assert p in n && n[p] == b && p != Toward(vp, k);
    }
  }

  lemma NotMapped(m: Memory, nodes: Nodes, vp: nat)
    requires TreeOk(m, nodes)
    ensures Mapped(nodes) <= nodes.Values
    ensures forall k, f :: 0 <= k < 4 && Reached(m, nodes, vp, k, f, false) ==> f !in Mapped(nodes)
  {
  }

  lemma LeafChildless(m: Memory, nodes: Nodes, vp: nat)
    requires TreeOk(m, nodes)
    ensures !HasChild(nodes, Toward(vp, 4))
  {
  }
}
