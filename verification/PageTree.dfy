/** Four levels of page tables in physical memory, seen as a tree: each path
    from the root table names the frame found there. */
module PageTree {
  import opened Bytes
  import opened PhysicalMemory

  /** `Path(k, n)`: the node `k` levels below the root whose table indices, read
      as base-512 digits, are `n`.  Level 0 is the root table, level 4 a mapped page. */
  datatype Path = Path(level: nat, index: nat)

  const ROOT := Path(0, 0)

  type Nodes = map<Path, Addr>

  function Child(p: Path, i: nat): Path {
    Path(p.level + 1, 512 * p.index + i)
  }

  function Parent(p: Path): Path
    requires p.level > 0
  {
    Path(p.level - 1, p.index / 512)
  }

  lemma ChildParent(p: Path, i: nat)
    requires i < ENTRIES
    ensures Parent(Child(p, i)) == p && Child(p, i).index % 512 == i
  {
  }

  /** The node `k` levels down on the way to virtual page `vp`. */
  function Toward(vp: nat, k: nat): Path
    requires k <= 4
  {
    Path(k, vp / (if k == 0 then 0x10_0000_0000
      else if k == 1 then 0x800_0000 else if k == 2 then 0x4_0000 else if k == 3 then 0x200 else 1))
  }

  /** The index taken at level `k`, as the code shifts and masks it out of an address. */
  function IndexAt(vp: nat, k: nat): (i: nat)
    requires k < 4
    ensures i < ENTRIES
  {
    vp / (if k == 0 then 0x800_0000 else if k == 1 then 0x4_0000 else if k == 2 then 0x200 else 1) % 512
  }

  const PAGES := 0x10_0000_0000

  lemma TowardStep(vp: nat, k: nat)
    requires k < 4 && vp < PAGES
    ensures Toward(vp, 0) == ROOT && Toward(vp, k + 1) == Child(Toward(vp, k), IndexAt(vp, k))
  {
  }

  // ---------- memory holds the tree ----------

  ghost predicate EntryOk(m: Memory, nodes: Nodes, p: Path, i: nat)
    requires p in nodes && nodes[p] in m && |m[nodes[p]]| == FRAME_SIZE && i < ENTRIES
  {
    var w := Word(m, nodes[p], i);
    && (Present(w) <==> Child(p, i) in nodes)
    && (Present(w) ==> Address(w) == nodes[Child(p, i)])
  }

  ghost predicate PathsOk(m: Memory, nodes: Nodes) {
    && ROOT in nodes
    && (forall p :: p in nodes ==>
         && p.level <= 4 && nodes[p] in m && |m[nodes[p]]| == FRAME_SIZE && IsFrame(nodes[p])
         && (p.level == 0 ==> p == ROOT) && (p.level > 0 ==> Parent(p) in nodes))
    && (forall p, q :: p in nodes && q in nodes && p != q ==> nodes[p] != nodes[q])
  }

  /** An entry is present exactly when the path goes on, and then it holds the
      frame found there; no frame is used twice. */
  ghost predicate TreeOk(m: Memory, nodes: Nodes) {
    && PathsOk(m, nodes)
    && (forall p, i :: p in nodes && p.level < 4 && 0 <= i < ENTRIES ==> EntryOk(m, nodes, p, i))
  }

  ghost predicate HasChild(nodes: Nodes, p: Path) {
    exists i :: 0 <= i < ENTRIES && Child(p, i) in nodes
  }

  /** No table below the root is empty. */
  ghost predicate NoneEmpty(nodes: Nodes) {
    forall p :: p in nodes && 1 <= p.level <= 3 ==> HasChild(nodes, p)
  }

  ghost function Translations(nodes: Nodes): map<nat, Addr> {
    map p | p in nodes && p.level == 4 :: p.index := nodes[p]
  }

  lemma TranslationAt(nodes: Nodes, vp: nat)
    ensures vp in Translations(nodes) <==> Path(4, vp) in nodes
    ensures vp in Translations(nodes) ==> Translations(nodes)[vp] == nodes[Path(4, vp)]
  {
    assert Path(4, vp) in nodes ==> Path(4, vp).index == vp;
  }

  /** The frames of mapped pages. */
  ghost function Mapped(nodes: Nodes): set<Addr> {
    set p | p in nodes && p.level == 4 :: nodes[p]
  }

  /** Memory as it is seen through the tables: the bytes of each mapped page. */
  ghost function View(m: Memory, nodes: Nodes): map<nat, seq<byte>> {
    map p | p in nodes && p.level == 4 && nodes[p] in m :: p.index := m[nodes[p]]
  }

  lemma ViewAt(m: Memory, nodes: Nodes, vp: nat)
    requires TreeOk(m, nodes)
    ensures vp in View(m, nodes) <==> Path(4, vp) in nodes
    ensures vp in View(m, nodes) ==> nodes[Path(4, vp)] in m && View(m, nodes)[vp] == m[nodes[Path(4, vp)]]
  {
    assert Path(4, vp) in nodes ==> Path(4, vp).index == vp;
  }

  /** The view follows the translations when mapped frames keep their bytes. */
  lemma ViewMapped(m: Memory, nodes: Nodes, m': Memory, nodes': Nodes, vp: nat, a: Addr)
    requires TreeOk(m, nodes) && TreeOk(m', nodes') && Translations(nodes') == Translations(nodes)[vp := a]
    requires a in m && a in m' && m'[a] == m[a] && forall b :: b in Mapped(nodes) && b in m ==> b in m' && m'[b] == m[b]
    ensures View(m', nodes') == View(m, nodes)[vp := m[a]]
  {
    hide TreeOk, View, Translations;
    forall v
      ensures v in View(m', nodes') <==> v in View(m, nodes)[vp := m[a]]
      ensures v in View(m', nodes') ==> View(m', nodes')[v] == View(m, nodes)[vp := m[a]][v]
    {
      ViewAt(m, nodes, v);
      ViewAt(m', nodes', v);
      TranslationAt(nodes, v);
      TranslationAt(nodes', v);
      assert Path(4, v) in nodes ==> nodes[Path(4, v)] in Mapped(nodes);
    }
  }

  /** Pages that stay mapped, to frames that keep their bytes, look the same. */
  lemma ViewGrown(m: Memory, nodes: Nodes, m': Memory, nodes': Nodes)
    requires TreeOk(m, nodes) && TreeOk(m', nodes') && forall p :: p in nodes ==> p in nodes' && nodes'[p] == nodes[p]
    requires forall b :: b in Mapped(nodes) && b in m ==> b in m' && m'[b] == m[b]
    ensures forall v :: v in View(m, nodes) ==> v in View(m', nodes') && View(m', nodes')[v] == View(m, nodes)[v]
  {
    hide TreeOk, View;
    forall v | v in View(m, nodes)
      ensures v in View(m', nodes') && View(m', nodes')[v] == View(m, nodes)[v]
    {
      ViewAt(m, nodes, v);
      ViewAt(m', nodes', v);
      assert nodes[Path(4, v)] in Mapped(nodes);
    }
  }

  lemma ViewUnmapped(m: Memory, nodes: Nodes, m': Memory, nodes': Nodes, gone: set<nat>)
    requires TreeOk(m, nodes) && TreeOk(m', nodes') && Translations(nodes') == Translations(nodes) - gone
    requires forall b :: b in Mapped(nodes') && b in m' ==> b in m && m'[b] == m[b]
    ensures View(m', nodes') == View(m, nodes) - gone
  {
    hide TreeOk, View, Translations;
    forall v
      ensures v in View(m', nodes') <==> v in View(m, nodes) - gone
      ensures v in View(m', nodes') ==> View(m', nodes')[v] == (View(m, nodes) - gone)[v]
    {
      ViewAt(m, nodes, v);
      ViewAt(m', nodes', v);
      TranslationAt(nodes, v);
      TranslationAt(nodes', v);
      assert Path(4, v) in nodes' ==> nodes'[Path(4, v)] in Mapped(nodes');
    }
  }

  // ---------- changing memory ----------

  /** Only the contents of table frames matter. */
  lemma OutsideTables(m: Memory, m': Memory, nodes: Nodes)
    requires TreeOk(m, nodes)
    requires forall p :: p in nodes ==> nodes[p] in m' && |m'[nodes[p]]| == FRAME_SIZE
    requires forall p :: p in nodes && p.level < 4 ==> m'[nodes[p]] == m[nodes[p]]
    ensures TreeOk(m', nodes)
  {
    forall p, i | p in nodes && p.level < 4 && 0 <= i < ENTRIES
      ensures EntryOk(m', nodes, p, i)
    {
      assert EntryOk(m, nodes, p, i);
    }
  }

  /** The frame `a` can hang below a table: it is unused, and if it becomes a
      table it has no present entry. */
  ghost predicate Hangable(m: Memory, nodes: Nodes, a: Addr, level: nat) {
    && IsFrame(a) && a in m && |m[a]| == FRAME_SIZE && a !in nodes.Values
    && (level < 4 ==> forall i :: 0 <= i < ENTRIES ==> !Present(Word(m, a, i)))
  }

  lemma AddChild(m: Memory, nodes: Nodes, p: Path, i: nat, a: Addr, w: nat)
    requires TreeOk(m, nodes) && p in nodes && p.level < 4 && i < ENTRIES && Child(p, i) !in nodes
    requires Hangable(m, nodes, a, p.level + 1) && w < WORD && Present(w) && Address(w) == a
    ensures TreeOk(WriteWord(m, nodes[p], i, w), nodes[Child(p, i) := a])
  {
    var c, m', nodes' := Child(p, i), WriteWord(m, nodes[p], i, w), nodes[Child(p, i) := a];
    ChildParent(p, i);
    assert forall q :: q in nodes ==> nodes[q] in nodes.Values;
    forall q, j | q in nodes' && q.level < 4 && 0 <= j < ENTRIES
      ensures EntryOk(m', nodes', q, j)
    {
      ChildParent(q, j);
      if q == c {
        assert !Present(Word(m, a, j));
        assert Child(c, j) !in nodes;
      } else {
        assert EntryOk(m, nodes, q, j);
        if q == p {
          ReadBack(m, nodes[p], i, w, j);
        }
      }
    }
  }

  lemma RemoveChild(m: Memory, nodes: Nodes, p: Path, i: nat)
    requires TreeOk(m, nodes) && p in nodes && p.level < 4 && i < ENTRIES && Child(p, i) in nodes
    requires !HasChild(nodes, Child(p, i))
    ensures TreeOk(WriteWord(m, nodes[p], i, 0), nodes - {Child(p, i)})
  {
    var c, m', nodes' := Child(p, i), WriteWord(m, nodes[p], i, 0), nodes - {Child(p, i)};
    ChildParent(p, i);
    forall q | q in nodes' && q.level > 0
      ensures Parent(q) in nodes'
    {
      assert q == Child(Parent(q), q.index % 512);
    }
    forall q, j | q in nodes' && q.level < 4 && 0 <= j < ENTRIES
      ensures EntryOk(m', nodes', q, j)
    {
      ChildParent(q, j);
      assert EntryOk(m, nodes, q, j);
      if q == p {
        ReadBack(m, nodes[p], i, 0, j);
      }
    }
  }

  // ---------- the tables are determined by the translations ----------

  lemma {:induction false} LeafBelow(m: Memory, nodes: Nodes, p: Path) returns (vp: nat)
    requires TreeOk(m, nodes) && NoneEmpty(nodes) && p in nodes && p.level > 0
    ensures vp in Translations(nodes) && vp < PAGES && Toward(vp, p.level) == p
    decreases 4 - p.level
  {
    IndexBound(m, nodes, p);
    if p.level == 4 {
      vp := p.index;
      TranslationAt(nodes, vp);
    } else {
      var i :| 0 <= i < ENTRIES && Child(p, i) in nodes;
      vp := LeafBelow(m, nodes, Child(p, i));
      TowardStep(vp, p.level);
      ChildParent(p, i);
      ChildParent(Toward(vp, p.level), IndexAt(vp, p.level));
    }
  }

  lemma {:induction false} IndexBound(m: Memory, nodes: Nodes, p: Path)
    requires TreeOk(m, nodes) && p in nodes
    ensures p.level == 1 ==> p.index < 512
    ensures p.level == 2 ==> p.index < 0x4_0000
    ensures p.level == 3 ==> p.index < 0x800_0000
    ensures p.level == 4 ==> p.index < PAGES
    decreases p.level
  {
    if p.level > 0 {
      IndexBound(m, nodes, Parent(p));
    }
  }

  lemma {:induction false} AncestorsPresent(m: Memory, nodes: Nodes, vp: nat, k: nat)
    requires TreeOk(m, nodes) && vp < PAGES && k <= 4 && Path(4, vp) in nodes
    ensures Toward(vp, k) in nodes
    decreases 4 - k
  {
    if k < 4 {
      AncestorsPresent(m, nodes, vp, k + 1);
      TowardStep(vp, k);
      ChildParent(Toward(vp, k), IndexAt(vp, k));
    }
  }

  lemma SubTreeByTranslations(m: Memory, n: Nodes, m': Memory, n': Nodes, p: Path)
    requires TreeOk(m, n) && NoneEmpty(n) && TreeOk(m', n')
    requires Translations(n).Keys <= Translations(n').Keys && p in n
    ensures p in n'
  {
    hide TreeOk, NoneEmpty, Translations, Toward;
    TreeLevels(m, n, p);
    TreeLevels(m', n', ROOT);
    if p.level > 0 {
      var vp := LeafBelow(m, n, p);
      TranslationAt(n', vp);
      AncestorsPresent(m', n', vp, p.level);
    }
  }

  lemma TreeLevels(m: Memory, n: Nodes, p: Path)
    requires TreeOk(m, n)
    ensures ROOT in n && (p in n ==> p.level <= 4 && (p.level == 0 ==> p == ROOT))
  {
  }

  /** Two trees that agree where both are defined, and translate the same pages,
      are the same tree: there is no table that no page needs. */
  lemma SameTranslationsSameTree(m: Memory, n: Nodes, m': Memory, n': Nodes, all: Nodes)
    requires TreeOk(m, n) && NoneEmpty(n) && TreeOk(m', n') && NoneEmpty(n')
    requires (forall p :: p in n ==> p in all && all[p] == n[p])
      && (forall p :: p in n' ==> p in all && all[p] == n'[p])
    requires Translations(n).Keys == Translations(n').Keys
    ensures n == n'
  {
    hide TreeOk, NoneEmpty, Translations;
    forall p
      ensures p in n <==> p in n'
    {
      if p in n {
        SubTreeByTranslations(m, n, m', n', p);
      }
      if p in n' {
        SubTreeByTranslations(m', n', m, n, p);
      }
    }
  }

  // ---------- mapping one page ----------

  /** `f` is the table at level `k` on the way to page `vp`, or (when `isNew`) a
      blank frame that is to become it. */
  ghost predicate Reached(m: Memory, nodes: Nodes, vp: nat, k: nat, f: Addr, isNew: bool)
    requires k <= 4
  {
    if isNew then Toward(vp, k) !in nodes && Hangable(m, nodes, f, k)
    else Toward(vp, k) in nodes && nodes[Toward(vp, k)] == f
  }

  /** Memory after the entry for level `k + 1` is written, if it has to be. */
  function Entered(m: Memory, table: Addr, vp: nat, k: nat, isNew: bool, w: nat): Memory
    requires k < 4 && table in m && |m[table]| == FRAME_SIZE
  {
    if isNew then WriteWord(m, table, IndexAt(vp, k), w) else m
  }

  lemma EnterLevel(m: Memory, nodes: Nodes, vp: nat, k: nat, f: Addr, isNew: bool, w: nat)
    requires TreeOk(m, nodes) && vp < PAGES && k < 4 && Toward(vp, k) in nodes && Reached(m, nodes, vp, k + 1, f, isNew)
    requires isNew ==> w < WORD && Present(w) && Address(w) == f
    ensures nodes[Toward(vp, k)] in m && |m[nodes[Toward(vp, k)]]| == FRAME_SIZE
    ensures var m' := Entered(m, nodes[Toward(vp, k)], vp, k, isNew, w);
      && TreeOk(m', nodes[Toward(vp, k + 1) := f])
      && m'.Keys == m.Keys && (forall a :: a in m && a !in nodes.Values ==> m'[a] == m[a])
      && (forall a :: a in m && |m[a]| == FRAME_SIZE ==> |m'[a]| == FRAME_SIZE)
  {
    TowardStep(vp, k);
    if isNew {
      AddChild(m, nodes, Toward(vp, k), IndexAt(vp, k), f, w);
    } else {
      assert nodes[Toward(vp, k + 1) := f] == nodes;
    }
  }

  lemma StillReached(m: Memory, nodes: Nodes, vp: nat, j: nat, f: Addr, k: nat, g: Addr, isNew: bool, m': Memory)
    requires TreeOk(m, nodes) && j < k <= 4 && Reached(m, nodes, vp, k, g, isNew) && (isNew ==> f != g)
    requires m'.Keys == m.Keys && forall a :: a in m && a !in nodes.Values ==> m'[a] == m[a]
    ensures Reached(m', nodes[Toward(vp, j) := f], vp, k, g, isNew)
  {
    var nodes' := nodes[Toward(vp, j) := f];
    assert Toward(vp, j) != Toward(vp, k);
    assert forall v :: v in nodes'.Values ==> v in nodes.Values || v == f;
    if isNew {
      assert m'[g] == m[g];
      forall i | 0 <= i < ENTRIES && k < 4
        ensures !Present(Word(m', g, i))
      {
        assert !Present(Word(m, g, i));
      }
    }
  }

  /** What hangs at one level of the path to a page, and the entry that says so. */
  datatype Step = Step(frame: Addr, isNew: bool, word: nat)

  ghost predicate StepOk(m: Memory, nodes: Nodes, vp: nat, k: nat, s: Step)
    requires k <= 4
  {
    && Reached(m, nodes, vp, k, s.frame, s.isNew)
    && (s.isNew ==> s.word < WORD && Present(s.word) && Address(s.word) == s.frame)
  }

  lemma StepFrame(m: Memory, nodes: Nodes, vp: nat, k: nat, s: Step)
    requires k <= 4 && TreeOk(m, nodes) && StepOk(m, nodes, vp, k, s)
    ensures s.frame in m && |m[s.frame]| == FRAME_SIZE
  {
  }

  /** The nodes, and the memory, after steps `k` to 4 are entered below `table`. */
  ghost function PathNodes(nodes: Nodes, vp: nat, k: nat, steps: seq<Step>): Nodes
    requires k <= 4 && |steps| == 4
    decreases 4 - k
  {
    if k == 4 then nodes else PathNodes(nodes[Toward(vp, k + 1) := steps[k].frame], vp, k + 1, steps)
  }

  ghost function PathMemory(m: Memory, table: Addr, vp: nat, k: nat, steps: seq<Step>): Memory
    requires k <= 4 && |steps| == 4 && (k < 4 ==> table in m && |m[table]| == FRAME_SIZE)
    requires forall j :: k <= j < 3 ==> steps[j].frame in m && |m[steps[j].frame]| == FRAME_SIZE
    decreases 4 - k
  {
    if k == 4 then m
      else PathMemory(Entered(m, table, vp, k, steps[k].isNew, steps[k].word), steps[k].frame, vp, k + 1, steps)
  }

  /** Entering the steps one below the other gives the tree with the path in it. */
  lemma {:induction false} MapPath(m: Memory, nodes: Nodes, vp: nat, k: nat, steps: seq<Step>)
    requires TreeOk(m, nodes) && vp < PAGES && k <= 4 && |steps| == 4 && Toward(vp, k) in nodes
    requires forall j :: k <= j < 4 ==> StepOk(m, nodes, vp, j + 1, steps[j])
    requires forall i, j :: k <= i < j < 4 ==> steps[i].frame != steps[j].frame
    ensures k < 4 ==> nodes[Toward(vp, k)] in m && |m[nodes[Toward(vp, k)]]| == FRAME_SIZE
    ensures forall j :: k <= j < 4 ==> steps[j].frame in m && |m[steps[j].frame]| == FRAME_SIZE
    ensures TreeOk(PathMemory(m, nodes[Toward(vp, k)], vp, k, steps), PathNodes(nodes, vp, k, steps))
    decreases 4 - k
  {
    hide TreeOk, Hangable, Toward, Entered;
    forall j | k <= j < 4
      ensures steps[j].frame in m && |m[steps[j].frame]| == FRAME_SIZE
    {
      assert StepOk(m, nodes, vp, j + 1, steps[j]);
      StepFrame(m, nodes, vp, j + 1, steps[j]);
    }
    if k < 4 {
      var s, t := steps[k], nodes[Toward(vp, k)];
      assert StepOk(m, nodes, vp, k + 1, s);
      EnterLevel(m, nodes, vp, k, s.frame, s.isNew, s.word);
      var m', nodes' := Entered(m, t, vp, k, s.isNew, s.word), nodes[Toward(vp, k + 1) := s.frame];
      forall j | k + 1 <= j < 4
        ensures StepOk(m', nodes', vp, j + 1, steps[j])
      {
        assert StepOk(m, nodes, vp, j + 1, steps[j]);
        StillReached(m, nodes, vp, k + 1, s.frame, j + 1, steps[j].frame, steps[j].isNew, m');
      }
      MapPath(m', nodes', vp, k + 1, steps);
    }
  }

  lemma PathNodesUnfold(nodes: Nodes, vp: nat, steps: seq<Step>)
    requires |steps| == 4
    ensures PathNodes(nodes, vp, 0, steps)
         == nodes[Toward(vp, 1) := steps[0].frame][Toward(vp, 2) := steps[1].frame]
              [Toward(vp, 3) := steps[2].frame][Toward(vp, 4) := steps[3].frame]
  {
    var n1 := nodes[Toward(vp, 1) := steps[0].frame];
    assert PathNodes(nodes, vp, 0, steps) == PathNodes(n1, vp, 1, steps);
    var n2 := n1[Toward(vp, 2) := steps[1].frame];
    assert PathNodes(n1, vp, 1, steps) == PathNodes(n2, vp, 2, steps);
  }

  lemma {:induction false} PathNodesGrow(m: Memory, nodes: Nodes, vp: nat, k: nat, steps: seq<Step>)
    requires k <= 4 && |steps| == 4
    requires forall j :: k <= j < 4 ==> Toward(vp, j + 1) in nodes ==> nodes[Toward(vp, j + 1)] == steps[j].frame
    ensures var nodes' := PathNodes(nodes, vp, k, steps);
      && (forall p :: p in nodes ==> p in nodes' && nodes'[p] == nodes[p])
      && nodes'.Values == nodes.Values + (set j | k <= j < 4 :: steps[j].frame)
    decreases 4 - k
  {
    if k < 4 {
      var t, f := Toward(vp, k + 1), steps[k].frame;
      var n1 := nodes[t := f];
      PathNodesGrow(m, n1, vp, k + 1, steps);
      assert n1.Values == nodes.Values + {f} by {
        assert n1[t] in n1.Values;
        forall v | v in nodes.Values
          ensures v in n1.Values
        {
          var p :| p in nodes && nodes[p] == v;
          assert n1[p] == v;
        }
      }
      assert (set j | k <= j < 4 :: steps[j].frame) == {f} + (set j | k + 1 <= j < 4 :: steps[j].frame);
    }
  }

  /** What the new path adds: one translation, and no empty table. */
  lemma PathNodesFacts(m: Memory, nodes: Nodes, vp: nat, steps: seq<Step>)
    requires NoneEmpty(nodes) && vp < PAGES && |steps| == 4 && steps[3].isNew
    requires forall j :: 0 <= j < 4 ==> StepOk(m, nodes, vp, j + 1, steps[j])
    ensures var nodes' := PathNodes(nodes, vp, 0, steps);
      && NoneEmpty(nodes') && (forall p :: p in nodes ==> p in nodes' && nodes'[p] == nodes[p])
      && nodes'.Values == nodes.Values + (set j | 0 <= j < 4 :: steps[j].frame)
      && Translations(nodes') == Translations(nodes)[vp := steps[3].frame]
  {
    hide PathNodes, Translations, NoneEmpty, Hangable;
    var nodes' := PathNodes(nodes, vp, 0, steps);
    assert StepOk(m, nodes, vp, 4, steps[3]);
    forall j | 0 <= j < 4 && Toward(vp, j + 1) in nodes
      ensures nodes[Toward(vp, j + 1)] == steps[j].frame
    {
      assert StepOk(m, nodes, vp, j + 1, steps[j]);
    }
    PathNodesUnfold(nodes, vp, steps);
    PathNodesGrow(m, nodes, vp, 0, steps);
    PathTranslations(nodes, nodes', vp, steps);
    PathNoneEmpty(nodes, nodes', vp);
  }

  lemma PathNoneEmpty(nodes: Nodes, nodes': Nodes, vp: nat)
    requires NoneEmpty(nodes) && vp < PAGES
    requires nodes'.Keys == nodes.Keys + {Toward(vp, 1), Toward(vp, 2), Toward(vp, 3), Toward(vp, 4)}
    ensures NoneEmpty(nodes')
  {
    forall p | p in nodes' && 1 <= p.level <= 3
      ensures HasChild(nodes', p)
    {
      if p in nodes {
        assert HasChild(nodes, p);
        var i :| 0 <= i < ENTRIES && Child(p, i) in nodes;
        assert Child(p, i) in nodes';
      } else {
        TowardStep(vp, p.level);
        assert Child(p, IndexAt(vp, p.level)) in nodes';
      }
    }
  }

  lemma PathTranslations(nodes: Nodes, nodes': Nodes, vp: nat, steps: seq<Step>)
    requires |steps| == 4 && Toward(vp, 4) !in nodes
    requires nodes' == nodes[Toward(vp, 1) := steps[0].frame][Toward(vp, 2) := steps[1].frame]
              [Toward(vp, 3) := steps[2].frame][Toward(vp, 4) := steps[3].frame]
    ensures Translations(nodes') == Translations(nodes)[vp := steps[3].frame]
  {
    assert Toward(vp, 4) == Path(4, vp);
    forall v
      ensures v in Translations(nodes') <==> v in Translations(nodes)[vp := steps[3].frame]
      ensures v in Translations(nodes') ==> Translations(nodes')[v] == Translations(nodes)[vp := steps[3].frame][v]
    {
      TranslationAt(nodes', v);
      TranslationAt(nodes, v);
    }
  }

  lemma EnteredFrame(m: Memory, table: Addr, vp: nat, k: nat, isNew: bool, w: nat)
    requires MemoryOk(m) && k < 4 && table in m
    ensures var m' := Entered(m, table, vp, k, isNew, w);
      MemoryOk(m') && m'.Keys == m.Keys && forall b :: b in m && b != table ==> m'[b] == m[b]
  {
  }

  /** Memory after the entries are written from the page upwards, as the code does. */
  function Written(m: Memory, root: Addr, vp: nat, s1: Step, s2: Step, s3: Step, s4: Step): Memory
    requires MemoryOk(m) && root in m && s1.frame in m && s2.frame in m && s3.frame in m
  {
    Put(Put(Put(Put(m, s3.frame, vp, 3, s4), s2.frame, vp, 2, s3), s1.frame, vp, 1, s2), root, vp, 0, s1)
  }

  /** The frames of the four steps and the root are five different frames of memory. */
  ghost predicate StepsApart(m: Memory, root: Addr, s1: Step, s2: Step, s3: Step, s4: Step) {
    && MemoryOk(m) && root in m && s1.frame in m && s2.frame in m && s3.frame in m && s4.frame in m
    && root != s1.frame && root != s2.frame && root != s3.frame && root != s4.frame
    && s1.frame != s2.frame && s1.frame != s3.frame && s1.frame != s4.frame
    && s2.frame != s3.frame && s2.frame != s4.frame && s3.frame != s4.frame
  }

  /** Four steps that lead from the root to page `vp`. */
  ghost predicate StepsReady(m: Memory, nodes: Nodes, vp: nat, s1: Step, s2: Step, s3: Step, s4: Step) {
    && TreeOk(m, nodes) && NoneEmpty(nodes) && vp < PAGES && s4.isNew
    && StepOk(m, nodes, vp, 1, s1) && StepOk(m, nodes, vp, 2, s2) && StepOk(m, nodes, vp, 3, s3)
      && StepOk(m, nodes, vp, 4, s4)
    && ROOT in nodes && StepsApart(m, nodes[ROOT], s1, s2, s3, s4)
  }

  /** One write of the sequence, keeping memory well formed. */
  function Put(m: Memory, table: Addr, vp: nat, k: nat, s: Step): (m': Memory)
    requires MemoryOk(m) && table in m && k < 4
    ensures MemoryOk(m') && m'.Keys == m.Keys
  {
    EnteredFrame(m, table, vp, k, s.isNew, s.word);
    Entered(m, table, vp, k, s.isNew, s.word)
  }

  lemma Swap(m: Memory, a: Addr, j: nat, s: Step, b: Addr, k: nat, t: Step, vp: nat)
    requires MemoryOk(m) && a in m && b in m && a != b && j < 4 && k < 4
    ensures Put(Put(m, a, vp, j, s), b, vp, k, t) == Put(Put(m, b, vp, k, t), a, vp, j, s)
  {
  }

  lemma PathUnfold(m: Memory, root: Addr, vp: nat, s1: Step, s2: Step, s3: Step, s4: Step)
    requires StepsApart(m, root, s1, s2, s3, s4)
    ensures PathMemory(m, root, vp, 0, [s1, s2, s3, s4])
         == Put(Put(Put(Put(m, root, vp, 0, s1), s1.frame, vp, 1, s2), s2.frame, vp, 2, s3), s3.frame, vp, 3, s4)
  {
    hide Entered, IndexAt;
    var steps := [s1, s2, s3, s4];
    assert steps[0] == s1 && steps[1] == s2 && steps[2] == s3 && steps[3] == s4;
    var a1 := Put(m, root, vp, 0, s1);
    assert PathMemory(m, root, vp, 0, steps) == PathMemory(a1, s1.frame, vp, 1, steps);
    var a2 := Put(a1, s1.frame, vp, 1, s2);
    assert PathMemory(a1, s1.frame, vp, 1, steps) == PathMemory(a2, s2.frame, vp, 2, steps);
    var a3 := Put(a2, s2.frame, vp, 2, s3);
    assert PathMemory(a2, s2.frame, vp, 2, steps) == PathMemory(a3, s3.frame, vp, 3, steps);
    assert PathMemory(a3, s3.frame, vp, 3, steps) == PathMemory(Put(a3, s3.frame, vp, 3, s4), s4.frame, vp, 4, steps);
  }

  /** The order of the writes does not matter. */
  lemma WrittenIsPath(m: Memory, root: Addr, vp: nat, s1: Step, s2: Step, s3: Step, s4: Step)
    requires StepsApart(m, root, s1, s2, s3, s4)
    ensures Written(m, root, vp, s1, s2, s3, s4) == PathMemory(m, root, vp, 0, [s1, s2, s3, s4])
  {
    hide Entered, PathMemory, IndexAt;
    PathUnfold(m, root, vp, s1, s2, s3, s4);
    var b := Put(m, s1.frame, vp, 1, s2);
    var c := Put(m, s2.frame, vp, 2, s3);
    Swap(m, root, 0, s1, s1.frame, 1, s2, vp);
    Swap(b, root, 0, s1, s2.frame, 2, s3, vp);
    Swap(Put(b, s2.frame, vp, 2, s3), root, 0, s1, s3.frame, 3, s4, vp);
    Swap(m, s1.frame, 1, s2, s2.frame, 2, s3, vp);
    Swap(c, s1.frame, 1, s2, s3.frame, 3, s4, vp);
    Swap(m, s2.frame, 2, s3, s3.frame, 3, s4, vp);
  }

  /** Entering four steps gives the tree with the path in it. */
  lemma LinkTree(m: Memory, nodes: Nodes, vp: nat, s1: Step, s2: Step, s3: Step, s4: Step)
    requires StepsReady(m, nodes, vp, s1, s2, s3, s4)
    ensures TreeOk(Written(m, nodes[ROOT], vp, s1, s2, s3, s4), PathNodes(nodes, vp, 0, [s1, s2, s3, s4]))
  {
    var steps := [s1, s2, s3, s4];
    hide TreeOk, NoneEmpty, StepOk, Written, PathMemory, PathNodes, MemoryOk;
    assert steps[0] == s1 && steps[1] == s2 && steps[2] == s3 && steps[3] == s4;
    TowardStep(vp, 0);
    MapPath(m, nodes, vp, 0, steps);
    WrittenIsPath(m, nodes[ROOT], vp, s1, s2, s3, s4);
  }

  /** ... and exactly one more page mapped. */
  lemma LinkNodes(m: Memory, nodes: Nodes, vp: nat, s1: Step, s2: Step, s3: Step, s4: Step)
    requires StepsReady(m, nodes, vp, s1, s2, s3, s4)
    ensures var nodes' := PathNodes(nodes, vp, 0, [s1, s2, s3, s4]);
      && NoneEmpty(nodes') && (forall p :: p in nodes ==> p in nodes' && nodes'[p] == nodes[p])
      && nodes'.Values == nodes.Values + {s1.frame, s2.frame, s3.frame, s4.frame}
      && nodes'.Keys == nodes.Keys + {Toward(vp, 1), Toward(vp, 2), Toward(vp, 3), Toward(vp, 4)}
      && Translations(nodes') == Translations(nodes)[vp := s4.frame]
  {
    var steps := [s1, s2, s3, s4];
    hide TreeOk, NoneEmpty, StepOk, StepsApart, PathNodes, Translations;
    assert steps[0] == s1 && steps[1] == s2 && steps[2] == s3 && steps[3] == s4;
    PathNodesFacts(m, nodes, vp, steps);
    PathNodesUnfold(nodes, vp, steps);
    assert (set j | 0 <= j < 4 :: steps[j].frame) == {s1.frame, s2.frame, s3.frame, s4.frame};
  }

  // ---------- unmapping one page ----------

  /** No table below the root is empty, except perhaps the one at `q`. */
  ghost predicate NoneEmptyBut(nodes: Nodes, q: Path) {
    forall p :: p in nodes && p != q && 1 <= p.level <= 3 ==> HasChild(nodes, p)
  }

  lemma RemoveKeepsOthers(nodes: Nodes, p: Path, i: nat)
    requires NoneEmptyBut(nodes, Child(p, i)) && i < ENTRIES
    ensures NoneEmptyBut(nodes - {Child(p, i)}, p)
  {
    var c := Child(p, i);
    forall q | q in nodes - {c} && q != p && 1 <= q.level <= 3
      ensures HasChild(nodes - {c}, q)
    {
      assert HasChild(nodes, q);
      var j :| 0 <= j < ENTRIES && Child(q, j) in nodes;
      ChildParent(q, j);
      ChildParent(p, i);
      assert Child(q, j) in nodes - {c};
    }
  }

  lemma RemoveTranslations(nodes: Nodes, c: Path)
    requires c in nodes
    ensures Translations(nodes - {c}) == if c.level == 4 then Translations(nodes) - {c.index} else Translations(nodes)
  {
    var t := if c.level == 4 then Translations(nodes) - {c.index} else Translations(nodes);
    forall v
      ensures v in Translations(nodes - {c}) <==> v in t
      ensures v in t ==> v in Translations(nodes - {c}) && Translations(nodes - {c})[v] == t[v]
    {
      TranslationAt(nodes - {c}, v);
      TranslationAt(nodes, v);
    }
  }

  lemma RemoveValues(m: Memory, nodes: Nodes, c: Path)
    requires PathsOk(m, nodes) && c in nodes
    ensures (nodes - {c}).Values == nodes.Values - {nodes[c]}
  {
    var n := nodes - {c};
    forall v | v in nodes.Values && v != nodes[c]
      ensures v in n.Values
    {
      var p :| p in nodes && nodes[p] == v;
      assert n[p] == v;
    }
  }
}
