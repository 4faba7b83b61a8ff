/** Taking a node out of a red-black tree, on the mathematical trees: the way to
    the successor, what moving it changes, and what is left of the balance. */
module RBTreeSplice {
  import opened RBTreeShape

  // ---------- a zip on top of a zip ----------

  /** The way `w`, continued by `base` where it ends. */
  ghost function Over<K, V>(w: Zip<K, V>, base: Zip<K, V>): Zip<K, V> {
    match w
    case Top => base
    case ZL(up, c, n, e, t) => ZL(Over(up, base), c, n, e, t)
    case ZR(up, c, n, e, t) => ZR(Over(up, base), c, n, e, t)
  }

  /** Move the focus up the way `w`. */
  lemma {:induction false} Climb<K, V>(m: Memory<K, V>, root: Ptr, nil: Ptr, w: Zip<K, V>, base: Zip<K, V>,
      s: Tree<K, V>, p: Ptr, par: Ptr)
    returns (q: Ptr, above: Ptr)
    requires Focus(m, root, nil, Over(w, base), s, p, par)
    ensures Focus(m, root, nil, base, Fill(w, s), q, above)
    ensures Items(base, Fill(w, s)) == Items(Over(w, base), s)
      && Footprint(base, Fill(w, s)) == Footprint(Over(w, base), s)
    decreases w
  {
    hide Focus, Items, Footprint;
    if w.Top? {
      q, above := p, par;
    } else {
      GoUp(m, root, nil, Over(w, base), s, p, par);
      q, above := Climb(m, root, nil, w.up, base, Plug(w, s), par, m[par].parent);
    }
  }

  /** ... and down again. */
  lemma {:induction false} Dive<K, V>(m: Memory<K, V>, root: Ptr, nil: Ptr, w: Zip<K, V>, base: Zip<K, V>,
      s: Tree<K, V>, q: Ptr, above: Ptr)
    requires Focus(m, root, nil, base, Fill(w, s), q, above)
    ensures Focus(m, root, nil, Over(w, base), s, RootOf(s, nil), if w.Top? then above else w.node)
    ensures Items(base, Fill(w, s)) == Items(Over(w, base), s)
      && Footprint(base, Fill(w, s)) == Footprint(Over(w, base), s)
    decreases w
  {
    hide Focus, Items, Footprint;
    if w.Top? {
      Look(m, root, nil, base, s, q, above);
    } else {
      var t, n := Plug(w, s), w.node;
      Dive(m, root, nil, w.up, base, t, q, above);
      var par := if w.up.Top? then above else w.up.node;
      Look(m, root, nil, Over(w.up, base), t, n, par);
      if w.ZL? {
        GoLeft(m, root, nil, Over(w.up, base), t, n, par);
      } else {
        GoRight(m, root, nil, Over(w.up, base), t, n, par);
      }
    }
  }

  lemma {:induction false} DiveHeights<K, V>(w: Zip<K, V>, base: Zip<K, V>, s: Tree<K, V>, h: int) returns (k: int)
    requires RedBlack(Fill(w, s), h) && ZipRedBlack(base, ColorOf(Fill(w, s)), h)
    ensures RedBlack(s, k) && ZipRedBlack(Over(w, base), ColorOf(s), k)
    decreases w
  {
    if w.Top? {
      k := h;
    } else {
      k := DiveHeights(w.up, base, Plug(w, s), h);
      k := if w.color == Black then k - 1 else k;
    }
  }

  /** Which node is where the way ends does not matter to the colours. */
  lemma {:induction false} SameColors<K, V>(w: Zip<K, V>, z: Zip<K, V>, c: Color, n: Ptr, e: Entry<K, V>, n': Ptr,
      e': Entry<K, V>, l: Tree<K, V>, cs: Color, h: int)
    requires ZipRedBlack(Over(w, ZR(z, c, n, e, l)), cs, h)
    ensures ZipRedBlack(Over(w, ZR(z, c, n', e', l)), cs, h)
    decreases w
  {
    if !w.Top? {
      SameColors(w.up, z, c, n, e, n', e', l, w.color, if w.color == Black then h + 1 else h);
    }
  }

  // ---------- the successor ----------

  /** A way that only ever went left. */
  ghost predicate Leftward<K, V>(w: Zip<K, V>) {
    w.Top? || (w.ZL? && Leftward(w.up))
  }

  lemma {:induction false} NothingBefore<K, V>(w: Zip<K, V>)
    requires Leftward(w)
    ensures Before(w) == []
  {
    if !w.Top? {
      NothingBefore(w.up);
    }
  }

  /** The subtree at the leftmost node. */
  ghost function Least<K, V>(t: Tree<K, V>): (y: Tree<K, V>)
    requires t.T?
    ensures y.T? && y.left.Leaf?
  {
    if t.left.Leaf? then t else Least(t.left)
  }

  lemma NodeInorder<K, V>(t: Tree<K, V>)
    requires t.T?
    ensures Inorder(t) == Inorder(t.left) + [Item(t.node, t.entry)] + Inorder(t.right)
    ensures t.left.Leaf? ==> Inorder(t.left) == []
  {
  }

  /** The first item of a tree goes, the rest stays. */
  lemma LeastFirst<K, V>(w: Zip<K, V>, y: Tree<K, V>)
    requires Leftward(w) && y.T? && y.left.Leaf?
    ensures Inorder(Fill(w, y)) == [Item(y.node, y.entry)] + Inorder(Fill(w, y.right))
  {
    hide Fill, Before, After, Inorder, Leftward;
    NothingBefore(w);
    FillInorder(w, y);
    FillInorder(w, y.right);
    NodeInorder(y);
    var i, a := [Item(y.node, y.entry)], After(w);
    assert [] + ([] + i + Inorder(y.right)) + a == i + ([] + Inorder(y.right) + a);
  }

  lemma {:induction false} FillNodes<K, V>(w: Zip<K, V>, t: Tree<K, V>)
    ensures Nodes(Fill(w, t)) == ZipNodes(w) + Nodes(t)
    decreases w
  {
    if !w.Top? {
      FillNodes(w.up, Plug(w, t));
    }
  }

  lemma {:induction false} OverNodes<K, V>(w: Zip<K, V>, base: Zip<K, V>)
    ensures ZipNodes(Over(w, base)) == ZipNodes(w) + ZipNodes(base)
    decreases w
  {
    if !w.Top? {
      OverNodes(w.up, base);
    }
  }

  /** The successor's parent is `z` itself exactly when it is `z`'s right child. */
  lemma SuccessorParent<K, V>(m: Memory<K, V>, root: Ptr, nil: Ptr, w: Zip<K, V>, base: Zip<K, V>, t: Tree<K, V>,
      y: Ptr, par: Ptr)
    requires base.ZR? && Focus(m, root, nil, Over(w, base), t, y, par)
    ensures par == base.node <==> w.Top?
    ensures !w.Top? ==> par == w.node
  {
    if !w.Top? {
      OverNodes(w.up, base);
    }
  }

  /** Writing the sentinel's parent link leaves the tree alone. */
  lemma WriteSentinel<K, V>(m: Memory<K, V>, root: Ptr, nil: Ptr, z: Zip<K, V>, t: Tree<K, V>, p: Ptr, par: Ptr, q: Ptr)
    requires Focus(m, root, nil, z, t, p, par)
    ensures Focus(m[nil := m[nil].(parent := q)], root, nil, z, t, p, par)
  {
    var m' := m[nil := m[nil].(parent := q)];
    FrameTree(m, m', t, p, par, nil);
    FrameZip(m, m', z, p, par, root, nil);
  }

  lemma {:induction false} FillNonEmpty<K, V>(w: Zip<K, V>, s: Tree<K, V>)
    requires !w.Top? || s.T?
    ensures Fill(w, s).T?
    decreases w
  {
    if !w.Top? {
      FillNonEmpty(w.up, Plug(w, s));
    }
  }

  lemma InFootprint<K, V>(z: Zip<K, V>, t: Tree<K, V>)
    ensures Nodes(t) <= Footprint(z, t) && ZipNodes(z) <= Footprint(z, t)
  {
  }

  // ---------- what removal does to the map ----------

  lemma FootprintReplaced<K, V>(z: Zip<K, V>, t: Tree<K, V>, w: Zip<K, V>, y: Tree<K, V>)
    requires t.T? && y.T? && y.left.Leaf? && t.right == Fill(w, y) && Separate(t) && t.node !in ZipNodes(z)
    ensures Footprint(z, T(t.color, t.left, y.node, y.entry, Fill(w, y.right))) == Footprint(z, t) - {t.node}
  {
    FillNodes(w, y);
    FillNodes(w, y.right);
  }

  /** The items without the root of the subtree, which has at most one child ... */
  lemma ItemsWithout<K, V>(z: Zip<K, V>, t: Tree<K, V>)
    requires t.T? && (t.left.Leaf? || t.right.Leaf?)
    ensures var s := if t.left.Leaf? then t.right else t.left;
      Items(z, s) == (Before(z) + Inorder(t.left)) + (Inorder(t.right) + After(z))
  {
  }

  /** ... or is replaced by its successor. */
  lemma ItemsReplaced<K, V>(z: Zip<K, V>, t: Tree<K, V>, w: Zip<K, V>, y: Tree<K, V>)
    requires t.T? && Leftward(w) && y.T? && y.left.Leaf? && t.right == Fill(w, y)
    ensures Items(z, T(t.color, t.left, y.node, y.entry, Fill(w, y.right)))
         == (Before(z) + Inorder(t.left)) + (Inorder(t.right) + After(z))
  {
    hide Fill, Before, After, Inorder, Leftward;
    LeastFirst(w, y);
    NodeInorder(T(t.color, t.left, y.node, y.entry, Fill(w, y.right)));
    var b, l, i, r, a := Before(z), Inorder(t.left), [Item(y.node, y.entry)], Inorder(Fill(w, y.right)), After(z);
    assert b + (l + i + r) + a == (b + l) + ((i + r) + a);
  }

  /** Leaving out one item of a sorted sequence removes its key from the map. */
  lemma RemoveItem<K(!new), V>(cmp: (K, K) -> Ordering, a: seq<Item<K, V>>, it: Item<K, V>, b: seq<Item<K, V>>)
    requires TotalOrder(cmp) && Sorted(cmp, a + [it] + b)
    ensures Sorted(cmp, a + b) && ContentsOf(a + b) == ContentsOf(a + [it] + b) - {it.entry.key}
  {
    SortedSplit(cmp, a, it, b);
    var c, d, k := ContentsOf(a + b), ContentsOf(a + [it] + b), it.entry.key;
    assert a + [] + b == a + b;
    hide ContentsOf, Sorted;
    forall k' | true
      ensures k' in c <==> k' in d && k' != k
      ensures k' in c ==> c[k'] == d[k']
    {
      if k' in c {
        ContentsUpdateAt(cmp, a, [], it, b, k', c[k']);
      }
      if k' in d {
        ContentsUpdateAt(cmp, a, [], it, b, k', d[k']);
      }
    }
  }

  // ---------- trees that are out of balance ----------

  lemma {:induction false} OneHeight<K, V>(t: Tree<K, V>, h: int, k: int)
    requires RedBlack(t, h) && RedBlack(t, k)
    ensures h == k
  {
    if t.T? {
      OneHeight(t.left, if t.color == Black then h - 1 else h, if t.color == Black then k - 1 else k);
    }
  }

  ghost predicate HasHeight<K, V>(t: Tree<K, V>) {
    exists h: int :: RedBlack(t, h)
  }

  /** A subtree without a black height leaves the whole without one. */
  lemma {:induction false} FillUnbalanced<K, V>(z: Zip<K, V>, t: Tree<K, V>)
    requires !HasHeight(t)
    ensures !IsRedBlack(Fill(z, t))
    decreases z
  {
    if !z.Top? {
      var u := Plug(z, t);
      forall h: int
        ensures !RedBlack(u, h)
      {
        assert !RedBlack(t, h) && !RedBlack(t, h - 1);
      }
      FillUnbalanced(z.up, u);
    }
  }

  /** A hole filled with too low a tree, away from the top, is out of balance. */
  lemma TooLow<K, V>(z: Zip<K, V>, t: Tree<K, V>, h: int)
    requires !z.Top? && RedBlack(t, h) && ZipRedBlack(z, Black, h + 1)
    ensures !IsRedBlack(Fill(z, t))
  {
    var u := Plug(z, t);
    forall k: int
      ensures !RedBlack(u, k)
    {
      if RedBlack(u, k) {
        var j := if u.color == Black then k - 1 else k;
        OneHeight(t, h, j);
        OneHeight(z.other, h + 1, j);
      }
    }
    FillUnbalanced(z.up, u);
  }

  lemma {:induction false} RootBlack<K, V>(m: Memory<K, V>, z: Zip<K, V>, p: Ptr, par: Ptr, root: Ptr, nil: Ptr,
      c: Color, h: int)
    requires IsZip(m, z, p, par, root, nil) && !z.Top? && ZipRedBlack(z, c, h)
    ensures root in m && m[root].color == Black && m[root].value.Some?
  {
    if !z.up.Top? {
      RootBlack(m, z.up, z.node, m[z.node].parent, root, nil, z.color, if z.color == Black then h + 1 else h);
    }
  }
}
