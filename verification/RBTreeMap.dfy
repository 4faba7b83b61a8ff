/** The ordered map over linked red-black nodes: rotations, search, insertion
    with its fix-up, node replacement and the deletion fix-up. */
module RBTreeMap {
  import opened RBTreeShape
  import opened RBTreeSplice
  import opened Options

  /** The tree `t` after a left rotation at its root, and its mirror image. */
  ghost function RotatedLeft<K, V>(t: Tree<K, V>): Tree<K, V>
    requires t.T? && t.right.T?
  {
    var y := t.right;
    T(y.color, T(t.color, t.left, t.node, t.entry, y.left), y.node, y.entry, y.right)
  }

  ghost function RotatedRight<K, V>(t: Tree<K, V>): Tree<K, V>
    requires t.T? && t.left.T?
  {
    var y := t.left;
    T(y.color, y.left, y.node, y.entry, T(t.color, y.right, t.node, t.entry, t.right))
  }

  /** A rotation keeps the in-order sequence. */
  lemma RotatedLeftInorder<K, V>(t: Tree<K, V>)
    requires t.T? && t.right.T?
    ensures Inorder(RotatedLeft(t)) == Inorder(t)
  {
    var l, u := RotatedLeft(t).left, t.right;
    assert Inorder(l) == Inorder(t.left) + [Item(t.node, t.entry)] + Inorder(u.left);
    assert Inorder(u) == Inorder(u.left) + [Item(u.node, u.entry)] + Inorder(u.right);
  }

  lemma RotatedRightInorder<K, V>(t: Tree<K, V>)
    requires t.T? && t.left.T?
    ensures Inorder(RotatedRight(t)) == Inorder(t)
  {
    RotatedLeftInorder(RotatedRight(t));
  }

  /** Memory changed nowhere outside `s`. */
  ghost predicate OnlyIn<K, V>(s: set<Ptr>, m: Memory<K, V>, m': Memory<K, V>) {
    m'.Keys == m.Keys && forall p :: p in m && p !in s ==> m'[p] == m[p]
  }

  /** The five parts of a rotation are pairwise apart before and after it. */
  lemma RotatedLeftParts<K, V>(t: Tree<K, V>)
    requires t.T? && t.right.T? && Separate(t)
    ensures var x, y, a, b, c := t.node, t.right.node, t.left, t.right.left, t.right.right;
            && Separate(a) && Separate(b) && Separate(c)
            && Nodes(a) !! Nodes(b) && Nodes(a) !! Nodes(c) && Nodes(b) !! Nodes(c)
            && x != y && x !in Nodes(a) + Nodes(b) + Nodes(c) && y !in Nodes(a) + Nodes(b) + Nodes(c)
            && Nodes(t) == Nodes(a) + Nodes(b) + Nodes(c) + {x, y}
    ensures Separate(RotatedLeft(t)) && Nodes(RotatedLeft(t)) == Nodes(t)
  {
    assert Separate(t.right);
    var u := RotatedLeft(t);
    assert Nodes(u.left) == Nodes(t.left) + {t.node} + Nodes(t.right.left);
    assert Separate(u.left);
  }

  /** Memory `m'` is `m` after the pointer updates of a left rotation at `x`;
      the nodes in `above` may have changed too. */
  ghost predicate RotatedLeftLinks<K, V>(m: Memory<K, V>, m': Memory<K, V>, x: Ptr, above: set<Ptr>) {
    && x in m && m[x].right in m && m[m[x].right].left in m
    && m'.Keys == m.Keys
    && var y := m[x].right;
       var b := m[y].left;
       && m'[x] == m[x].(right := b, parent := y)
       && m'[y] == m[y].(left := x, parent := m[x].parent)
       && m'[b] == (if m[b].IsNil() then m[b] else m[b].(parent := x))
       && forall p :: p in m && p !in above && p != x && p != y && p != b ==> m'[p] == m[p]
  }

  lemma RotatedLeftLayout<K, V>(m: Memory<K, V>, m': Memory<K, V>, t: Tree<K, V>, x: Ptr, par: Ptr, nil: Ptr,
      above: set<Ptr>)
    requires t.T? && t.right.T? && IsTree(m, t, x, par, nil) && Separate(t) && Nodes(t) !! above && nil !in Nodes(t)
    requires RotatedLeftLinks(m, m', x, above)
    ensures IsTree(m', RotatedLeft(t), t.right.node, par, nil)
  {
    RotatedLeftParts(t);
    var a, y, b, c := t.left, t.right.node, t.right.left, t.right.right;
    assert IsTree(m, t.right, y, x, nil);
    assert IsTree(m, b, m[y].left, y, nil);
    FrameTree(m, m', a, m[x].left, x, nil);
    FrameTree(m, m', c, m[y].right, y, nil);
    FrameRoot(m, m', b, m[y].left, y, x, nil);
    assert IsTree(m', RotatedLeft(t).left, x, y, nil);
  }

  /** The five parts of a rotation are pairwise apart before and after it. */
  lemma RotatedRightParts<K, V>(t: Tree<K, V>)
    requires t.T? && t.left.T? && Separate(t)
    ensures var x, y, a, b, c := t.node, t.left.node, t.right, t.left.right, t.left.left;
            && Separate(a) && Separate(b) && Separate(c)
            && Nodes(a) !! Nodes(b) && Nodes(a) !! Nodes(c) && Nodes(b) !! Nodes(c)
            && x != y && x !in Nodes(a) + Nodes(b) + Nodes(c) && y !in Nodes(a) + Nodes(b) + Nodes(c)
            && Nodes(t) == Nodes(a) + Nodes(b) + Nodes(c) + {x, y}
    ensures Separate(RotatedRight(t)) && Nodes(RotatedRight(t)) == Nodes(t)
  {
    assert Separate(t.left);
    var u := RotatedRight(t);
    assert Nodes(u.right) == Nodes(t.right) + {t.node} + Nodes(t.left.right);
    assert Separate(u.right);
  }

  /** Memory `m'` is `m` after the pointer updates of a right rotation at `x`;
      the nodes in `above` may have changed too. */
  ghost predicate RotatedRightLinks<K, V>(m: Memory<K, V>, m': Memory<K, V>, x: Ptr, above: set<Ptr>) {
    && x in m && m[x].left in m && m[m[x].left].right in m
    && m'.Keys == m.Keys
    && var y := m[x].left;
       var b := m[y].right;
       && m'[x] == m[x].(left := b, parent := y)
       && m'[y] == m[y].(right := x, parent := m[x].parent)
       && m'[b] == (if m[b].IsNil() then m[b] else m[b].(parent := x))
       && forall p :: p in m && p !in above && p != x && p != y && p != b ==> m'[p] == m[p]
  }

  lemma RotatedRightLayout<K, V>(m: Memory<K, V>, m': Memory<K, V>, t: Tree<K, V>, x: Ptr, par: Ptr, nil: Ptr,
      above: set<Ptr>)
    requires t.T? && t.left.T? && IsTree(m, t, x, par, nil) && Separate(t) && Nodes(t) !! above && nil !in Nodes(t)
    requires RotatedRightLinks(m, m', x, above)
    ensures IsTree(m', RotatedRight(t), t.left.node, par, nil)
  {
    RotatedRightParts(t);
    var a, y, b, c := t.right, t.left.node, t.left.right, t.left.left;
    assert IsTree(m, t.left, y, x, nil);
    assert IsTree(m, b, m[y].right, y, nil);
    FrameTree(m, m', a, m[x].right, x, nil);
    FrameTree(m, m', c, m[y].left, y, nil);
    FrameRoot(m, m', b, m[y].right, y, x, nil);
    assert IsTree(m', RotatedRight(t).right, x, y, nil);
  }

  /** The tree `t` with its root red and both children of the root black. */
  ghost function Flipped<K, V>(t: Tree<K, V>): Tree<K, V>
    requires t.T? && t.left.T? && t.right.T?
  {
    t.(color := Red, left := t.left.(color := Black), right := t.right.(color := Black))
  }

  /** Two levels above a red node with a red parent: the grandparent is black,
      and with a red uncle flipping the colours moves the red node up. */
  lemma FlipRedBlack<K, V>(z: Zip<K, V>, t: Tree<K, V>, h: int)
    requires t.T? && t.color == Red && RedBlack(t, h) && ZipRedBlack(z, Black, h) && !z.Top? && z.color == Red
    ensures !z.up.Top? && z.up.color == Black && RedBlack(z.up.other, h) && ZipRedBlack(z.up.up, Black, h + 1)
    ensures z.up.other.T? && z.up.other.color == Red ==> RedBlack(Flipped(Plug(z.up, Plug(z, t))), h + 1)
  {
  }

  /** A hole that takes a red root takes a black one. */
  lemma BlackFits<K, V>(z: Zip<K, V>, h: int)
    requires ZipRedBlack(z, Red, h)
    ensures ZipRedBlack(z, Black, h)
  {
  }

  lemma {:induction false} HeightNonNegative<K, V>(t: Tree<K, V>, h: int)
    requires RedBlack(t, h)
    ensures h >= 0
  {
    if t.T? {
      HeightNonNegative(t.left, if t.color == Black then h - 1 else h);
    }
  }

  /** The tree that the last rotation of the deletion fix-up leaves. */
  ghost function FarNephewLeftResult<K, V>(z: Zip<K, V>, t: Tree<K, V>): Tree<K, V>
    requires z.ZL? && z.other.T? && z.other.right.T?
  {
    var y := z.other;
    T(z.color, T(Black, t, z.node, z.entry, y.left), y.node, y.entry, y.right.(color := Black))
  }

  lemma FarNephewLeftHeights<K, V>(z: Zip<K, V>, t: Tree<K, V>, h: int)
    requires z.ZL? && z.other.T? && z.other.color == Black && ColorOf(z.other.right) == Red
    requires RedBlack(t, h) && ZipRedBlack(z, Black, h + 1)
    ensures var h' := if z.color == Black then h + 2 else h + 1;
      RedBlack(FarNephewLeftResult(z, t), h') && ZipRedBlack(z.up, z.color, h')
  {
    assert RedBlack(z.other.left, h) && RedBlack(z.other.right, h);
    var u := FarNephewLeftResult(z, t);
    assert RedBlack(u.left, h + 1) && RedBlack(u.right, h + 1);
  }

  /** The tree that the last rotation of the deletion fix-up leaves. */
  ghost function FarNephewRightResult<K, V>(z: Zip<K, V>, t: Tree<K, V>): Tree<K, V>
    requires z.ZR? && z.other.T? && z.other.left.T?
  {
    var y := z.other;
    T(z.color, y.left.(color := Black), y.node, y.entry, T(Black, y.right, z.node, z.entry, t))
  }

  lemma FarNephewRightHeights<K, V>(z: Zip<K, V>, t: Tree<K, V>, h: int)
    requires z.ZR? && z.other.T? && z.other.color == Black && ColorOf(z.other.left) == Red
    requires RedBlack(t, h) && ZipRedBlack(z, Black, h + 1)
    ensures var h' := if z.color == Black then h + 2 else h + 1;
      RedBlack(FarNephewRightResult(z, t), h') && ZipRedBlack(z.up, z.color, h')
  {
    assert RedBlack(z.other.right, h) && RedBlack(z.other.left, h);
    var u := FarNephewRightResult(z, t);
    assert RedBlack(u.right, h + 1) && RedBlack(u.left, h + 1);
  }

  /** A place in a tree. */
  datatype Spot<+K, +V> = Spot(zip: Zip<K, V>, tree: Tree<K, V>)

  /** Where a search for `key` in the subtree `t` below `z` ends. */
  ghost function Locate<K(!new), V>(cmp: (K, K) -> Ordering, z: Zip<K, V>, t: Tree<K, V>, key: K): Spot<K, V>
    decreases t
  {
    if t.Leaf? then Spot(z, t)
    else
      match cmp(key, t.entry.key)
      case Equal => Spot(z, t)
      case Less => Locate(cmp, ZL(z, t.color, t.node, t.entry, t.right), t.left, key)
      case Greater => Locate(cmp, ZR(z, t.color, t.node, t.entry, t.left), t.right, key)
  }

  /** The subtree at the node that leaves its place when the root of `t` is deleted. */
  ghost function Leaving<K, V>(t: Tree<K, V>): Tree<K, V>
    requires t.T?
  {
    if t.left.Leaf? || t.right.Leaf? then t else Least(t.right)
  }

  /** The fix-up of a deletion finds its way: the node that leaves its place is red, or
      has a child to replace it, or is the root, or is the deleted node's right child,
      or the sentinel happens to name its parent. */
  ghost predicate FindsWay<K, V>(m: Memory<K, V>, nil: Ptr, zip: Zip<K, V>, t: Tree<K, V>)
    requires t.T?
  {
    var y := Leaving(t);
    || y.color == Red || y.left.T? || y.right.T?
    || (if t.left.Leaf? || t.right.Leaf? then zip.Top? else t.right.left.Leaf?)
    || (nil in m && y.node in m && m[nil].parent == m[y.node].parent)
  }

  /** A tree of three black nodes: deleting either leaf leaves it out of balance. */
  lemma ThreeBlackNodes(m: Memory<int, int>, nil: Ptr)
    requires nil == 9 && m == map[
      9 := Node(9, 9, 9, Black, None),
      1 := Node(2, 9, 9, Black, Some(Entry(1, 1))),
      2 := Node(9, 1, 3, Black, Some(Entry(2, 2))),
      3 := Node(2, 9, 9, Black, Some(Entry(3, 3)))]
    ensures var one, three := T(Black, Leaf, 1, Entry(1, 1), Leaf), T(Black, Leaf, 3, Entry(3, 3), Leaf);
      var t, zip := T(Black, one, 2, Entry(2, 2), three), ZL(Top, Black, 2, Entry(2, 2), three);
      && Focus(m, 2, nil, Top, t, 2, nil) && IsRedBlack(t) && Fill(zip, one) == t
      && !FindsWay(m, nil, zip, one) && !IsRedBlack(Fill(zip, Leaf))
  {
    var one, three := T(Black, Leaf, 1, Entry(1, 1), Leaf), T(Black, Leaf, 3, Entry(3, 3), Leaf);
    assert IsTree(m, one, 1, 2, nil) && IsTree(m, three, 3, 2, nil);
    assert RedBlack(one, 1) && RedBlack(three, 1) && RedBlack(T(Black, one, 2, Entry(2, 2), three), 2);
    TooLow(ZL(Top, Black, 2, Entry(2, 2), three), Leaf, 0);
  }

  class RBTreeMap<K(!new), V> {
    const cmp: (K, K) -> Ordering
    var mem: Memory<K, V>
    var root: Ptr
    var nil: Ptr
    ghost var tree: Tree<K, V>

    /** Parent links, search order, black root, no red-red edge, equal black heights. */
    ghost predicate Valid()
      reads this
    {
      && TotalOrder(cmp) && Focus(mem, root, nil, Top, tree, root, nil)
      && IsRedBlack(tree) && Sorted(cmp, Inorder(tree)) && DANGLING !in mem
    }

    /** `Valid`, but for the balance. */
    ghost predicate Searchable()
      reads this
    {
      TotalOrder(cmp) && Focus(mem, root, nil, Top, tree, root, nil) && Sorted(cmp, Inorder(tree)) && DANGLING !in mem
    }

    ghost function Contents(): map<K, V>
      reads this
    {
      ContentsOf(Inorder(tree))
    }

    /** A fresh tree: `at` is where the allocator placed the sentinel. */
    constructor (cmp: (K, K) -> Ordering, at: Ptr)
      requires TotalOrder(cmp) && at != DANGLING
      ensures Valid() && this.cmp == cmp && Contents() == map[] && mem.Keys == {at} && Blank()
    {
      this.cmp := cmp;
      mem := map[at := Node(at, at, at, Black, None)];
      root, nil := at, at;
      tree := Leaf;
      new;
      assert RedBlack(tree, 0);
    }

    /** The state of a search for `key` that has reached address `x`. */
    ghost predicate Searching(key: K, x: Ptr, z: Zip<K, V>, t: Tree<K, V>, par: Ptr, h: int)
      reads this
    {
      && Focus(mem, root, nil, z, t, x, par)
      && Items(z, t) == Inorder(tree) && Footprint(z, t) == Nodes(tree)
      && AllCompare(cmp, Before(z), key, Less) && AllCompare(cmp, After(z), key, Greater)
      && RedBlack(t, h) && ZipRedBlack(z, ColorOf(t), h)
    }

    lemma SearchStart(key: K) returns (h: int)
      requires Valid()
      ensures Searching(key, root, Top, tree, nil, h)
    {
      h :| RedBlack(tree, h);
    }

    lemma SearchLeft(key: K, x: Ptr, z: Zip<K, V>, t: Tree<K, V>, par: Ptr, h: int)
      requires Valid() && Searching(key, x, z, t, par, h) && t.T? && cmp(key, t.entry.key) == Less
      ensures x in mem && Searching(key, mem[x].left, ZL(z, t.color, t.node, t.entry, t.right), t.left, x,
        if t.color == Black then h - 1 else h)
    {
      Descend(cmp, z, t, key);
      GoLeft(mem, root, nil, z, t, x, par);
    }

    lemma SearchRight(key: K, x: Ptr, z: Zip<K, V>, t: Tree<K, V>, par: Ptr, h: int)
      requires Valid() && Searching(key, x, z, t, par, h) && t.T? && cmp(key, t.entry.key) == Greater
      ensures x in mem && Searching(key, mem[x].right, ZR(z, t.color, t.node, t.entry, t.left), t.right, x,
        if t.color == Black then h - 1 else h)
    {
      Descend(cmp, z, t, key);
      GoRight(mem, root, nil, z, t, x, par);
    }

    /** A search that falls off the tree has proved the key absent; one that
        stops at a node has found the only node with the key. */
    lemma SearchEnd(key: K, x: Ptr, z: Zip<K, V>, t: Tree<K, V>, par: Ptr, h: int)
      requires Valid() && Searching(key, x, z, t, par, h)
      ensures t.Leaf? ==> key !in Contents()
      ensures t.T? && t.entry.key == key ==> key in Contents() && Contents()[key] == t.entry.value
    {
      if t.T? && t.entry.key == key {
        ItemsAround(z, t);
        var i := |Before(z) + Inorder(t.left)|;
        assert Inorder(tree)[i] == Item(t.node, t.entry);
        assert Holds(Inorder(tree), key, t.entry.value);
        ContentsExact(cmp, Inorder(tree), key, t.entry.value);
      }
      if t.Leaf? {
        assert Inorder(tree) == Before(z) + After(z);
        if key in Contents() {
          var v := Contents()[key];
          ContentsExact(cmp, Inorder(tree), key, v);
          HoldsConcat(Before(z), After(z), key, v);
        }
      }
    }

    /** Search from the root; what it finds, it finds below `zip`. */
    method Find(key: K) returns (r: Option<Ptr>, ghost z: Zip<K, V>, ghost t: Tree<K, V>, ghost h: int)
      requires Valid()
      ensures r.Some? <==> key in Contents()
      ensures r.Some? ==>
        r.value in Nodes(tree) && r.value in mem && mem[r.value].value == Some(Entry(key, Contents()[key]))
      ensures r.Some? ==>
        t.T? && t.entry == Entry(key, Contents()[key]) && Searching(key, r.value, z, t, mem[r.value].parent, h)
      ensures Locate(cmp, Top, tree, key) == Spot(z, t)
    {
      var x := root;
      h := SearchStart(key);
      z, t := Top, tree;
      ghost var par: Ptr := nil;
      Look(mem, root, nil, z, t, x, par);
      while !mem[x].IsNil()
        invariant x in mem && (mem[x].IsNil() <==> t.Leaf?)
        invariant Searching(key, x, z, t, par, h) && Locate(cmp, z, t, key) == Locate(cmp, Top, tree, key)
        decreases t
      {
        Look(mem, root, nil, z, t, x, par);
        match cmp(key, mem[x].value.value.key)
        case Equal =>
          SearchEnd(key, x, z, t, par, h);
          return Some(x), z, t, h;
        case Less =>
          SearchLeft(key, x, z, t, par, h);
          h := if t.color == Black then h - 1 else h;
          x, z, t, par := mem[x].left, ZL(z, t.color, t.node, t.entry, t.right), t.left, x;
        case Greater =>
          SearchRight(key, x, z, t, par, h);
          h := if t.color == Black then h - 1 else h;
          x, z, t, par := mem[x].right, ZR(z, t.color, t.node, t.entry, t.left), t.right, x;
        Look(mem, root, nil, z, t, x, par);
      }
      SearchEnd(key, x, z, t, par, h);
      return None, z, t, h;
    }

    method Get(key: K) returns (r: Option<V>)
      requires Valid()
      ensures r == if key in Contents() then Some(Contents()[key]) else None
    {
      var x, _, _, _ := Find(key);
      match x
      case None => return None;
      case Some(p) => return Some(mem[p].value.value.value);
    }

    /** Make `y` take the place of `x` below `x`'s parent. */
    method Redirect(x: Ptr, y: Ptr, ghost z: Zip<K, V>)
      requires x in mem && y in mem && nil in mem && x != y
      requires IsZip(mem, z, x, mem[x].parent, root, nil) && ZipSeparate(z)
      requires mem[nil].IsNil() && nil !in ZipNodes(z) && x !in ZipNodes(z) && y !in ZipNodes(z) && x != nil
      modifies this`root, this`mem
      ensures mem.Keys == old(mem.Keys) && mem[y] == old(mem[y].(parent := mem[x].parent))
      ensures forall p :: p in mem && p !in ZipNodes(z) && p != y ==> mem[p] == old(mem)[p]
      ensures IsZip(mem, z, y, mem[y].parent, root, nil)
    {
      ghost var m := mem;
      mem := mem[y := mem[y].(parent := mem[x].parent)];
      var par := mem[x].parent;
      if mem[par].IsNil() {
        root := y;
      } else if x == mem[par].left {
        mem := mem[par := mem[par].(left := y)];
      } else {
        mem := mem[par := mem[par].(right := y)];
      }
      if !z.Top? {
        FrameTree(m, mem, z.other, if z.ZL? then m[z.node].right else m[z.node].left, z.node, nil);
        FrameZip(m, mem, z.up, z.node, m[z.node].parent, root, nil);
      }
    }

    /** The pointer updates of a left rotation. */
    method RotateLeftLinks(x: Ptr, ghost z: Zip<K, V>)
      requires x in mem && mem[x].right in mem && mem[mem[x].right].left in mem && nil in mem && mem[nil].IsNil()
      requires var y, b := mem[x].right, mem[mem[x].right].left;
        && x !in ZipNodes(z) && y !in ZipNodes(z) && b !in ZipNodes(z) && nil !in ZipNodes(z)
        && x != y && x != b && y != b && x != nil
      requires IsZip(mem, z, x, mem[x].parent, root, nil) && ZipSeparate(z)
      modifies this`root, this`mem
      ensures RotatedLeftLinks(old(mem), mem, x, ZipNodes(z))
      ensures IsZip(mem, z, old(mem[x].right), old(mem[x].parent), root, nil)
    {
      hide IsZip, ZipNodes, ZipSeparate;
      ghost var par := mem[x].parent;
      var y := mem[x].right;
      WriteOutsideZip(mem, x, mem[x].(right := mem[y].left), z, x, par, root, nil);
      mem := mem[x := mem[x].(right := mem[y].left)];
      var b := mem[y].left;
      if !mem[b].IsNil() {
        WriteOutsideZip(mem, b, mem[b].(parent := x), z, x, par, root, nil);
        mem := mem[b := mem[b].(parent := x)];
      }
      Redirect(x, y, z);
      WriteOutsideZip(mem, y, mem[y].(left := x), z, y, par, root, nil);
      mem := mem[y := mem[y].(left := x)];
      WriteOutsideZip(mem, x, mem[x].(parent := y), z, y, par, root, nil);
      mem := mem[x := mem[x].(parent := y)];
    }

    method RotateLeft(x: Ptr, ghost z: Zip<K, V>, ghost t: Tree<K, V>)
      requires x in mem && t.T? && t.right.T? && Focus(mem, root, nil, z, t, x, mem[x].parent)
      modifies this`root, this`mem
      ensures t.right.node in mem && mem[t.right.node].parent == old(mem[x].parent)
      ensures Focus(mem, root, nil, z, RotatedLeft(t), t.right.node, mem[t.right.node].parent)
      ensures Items(z, RotatedLeft(t)) == Items(z, t) && Footprint(z, RotatedLeft(t)) == Footprint(z, t)
      ensures OnlyIn(Footprint(z, t), old(mem), mem)
    {
      RotatedLeftInorder(t);
      RotatedLeftParts(t);
      assert IsTree(mem, t.right, mem[x].right, x, nil);
      assert IsTree(mem, t.right.left, mem[t.right.node].left, t.right.node, nil);
      RotateLeftLinks(x, z);
      RotatedLeftLayout(old(mem), mem, t, x, old(mem[x].parent), nil, ZipNodes(z));
    }

    /** The pointer updates of a right rotation. */
    method RotateRightLinks(x: Ptr, ghost z: Zip<K, V>)
      requires x in mem && mem[x].left in mem && mem[mem[x].left].right in mem && nil in mem && mem[nil].IsNil()
      requires var y, b := mem[x].left, mem[mem[x].left].right;
        && x !in ZipNodes(z) && y !in ZipNodes(z) && b !in ZipNodes(z) && nil !in ZipNodes(z)
        && x != y && x != b && y != b && x != nil
      requires IsZip(mem, z, x, mem[x].parent, root, nil) && ZipSeparate(z)
      modifies this`root, this`mem
      ensures RotatedRightLinks(old(mem), mem, x, ZipNodes(z))
      ensures IsZip(mem, z, old(mem[x].left), old(mem[x].parent), root, nil)
    {
      hide IsZip, ZipNodes, ZipSeparate;
      ghost var par := mem[x].parent;
      var y := mem[x].left;
      WriteOutsideZip(mem, x, mem[x].(left := mem[y].right), z, x, par, root, nil);
      mem := mem[x := mem[x].(left := mem[y].right)];
      var b := mem[y].right;
      if !mem[b].IsNil() {
        WriteOutsideZip(mem, b, mem[b].(parent := x), z, x, par, root, nil);
        mem := mem[b := mem[b].(parent := x)];
      }
      Redirect(x, y, z);
      WriteOutsideZip(mem, y, mem[y].(right := x), z, y, par, root, nil);
      mem := mem[y := mem[y].(right := x)];
      WriteOutsideZip(mem, x, mem[x].(parent := y), z, y, par, root, nil);
      mem := mem[x := mem[x].(parent := y)];
    }

    method RotateRight(x: Ptr, ghost z: Zip<K, V>, ghost t: Tree<K, V>)
      requires x in mem && t.T? && t.left.T? && Focus(mem, root, nil, z, t, x, mem[x].parent)
      modifies this`root, this`mem
      ensures t.left.node in mem && mem[t.left.node].parent == old(mem[x].parent)
      ensures Focus(mem, root, nil, z, RotatedRight(t), t.left.node, mem[t.left.node].parent)
      ensures Items(z, RotatedRight(t)) == Items(z, t) && Footprint(z, RotatedRight(t)) == Footprint(z, t)
      ensures OnlyIn(Footprint(z, t), old(mem), mem)
    {
      RotatedRightInorder(t);
      RotatedRightParts(t);
      assert IsTree(mem, t.left, mem[x].left, x, nil);
      assert IsTree(mem, t.left.right, mem[t.left.node].right, t.left.node, nil);
      RotateRightLinks(x, z);
      RotatedRightLayout(old(mem), mem, t, x, old(mem[x].parent), nil, ZipNodes(z));
    }

    /** The state between rounds of the insertion fix-up: a red node `z` whose
        subtree is red-black, in a tree that would be red-black were `z` black. */
    ghost predicate RedChild(z: Ptr, zip: Zip<K, V>, t: Tree<K, V>, h: int)
      reads this
    {
      && z in mem && Focus(mem, root, nil, zip, t, z, mem[z].parent)
      && t.T? && t.color == Red && RedBlack(t, h) && ZipRedBlack(zip, Black, h)
    }

    /** Paint both children of `g` black and `g` red. */
    method FlipColors(g: Ptr, p: Ptr, y: Ptr, ghost z: Zip<K, V>, ghost t: Tree<K, V>)
      requires g in mem && t.T? && t.left.T? && t.right.T? && {p, y} == {t.left.node, t.right.node}
      requires Focus(mem, root, nil, z, t, g, mem[g].parent)
      modifies this`mem
      ensures g in mem && Focus(mem, root, nil, z, Flipped(t), g, mem[g].parent)
      ensures Items(z, Flipped(t)) == Items(z, t) && Footprint(z, Flipped(t)) == Footprint(z, t)
      ensures OnlyIn(Footprint(z, t), old(mem), mem)
    {
      ghost var m, par := mem, mem[g].parent;
      ghost var l, r := t.left.node, t.right.node;
      PaintLeft(m, root, nil, z, t, g, par, Black);
      ghost var m1, t1 := m[l := m[l].(color := Black)], t.(left := t.left.(color := Black));
      PaintRight(m1, root, nil, z, t1, g, par, Black);
      ghost var m2, t2 := m1[r := m1[r].(color := Black)], t1.(right := t1.right.(color := Black));
      Paint(m2, root, nil, z, t2, g, par, Red);
      mem := mem[p := mem[p].(color := Black)];
      mem := mem[y := mem[y].(color := Black)];
      assert mem == m2;
      mem := mem[g := mem[g].(color := Red)];
    }

    /** Turn a left-right pair of red nodes into a left-left pair. */
    method StraightenLeft(z0: Ptr, ghost zip0: Zip<K, V>, ghost t0: Tree<K, V>, ghost h: int)
      returns (z: Ptr, ghost zip: Zip<K, V>, ghost t: Tree<K, V>)
      requires RedChild(z0, zip0, t0, h) && zip0.ZR? && zip0.color == Red
      modifies this`root, this`mem
      ensures RedChild(z, zip, t, h) && zip.ZL? && zip.color == Red && zip.up == zip0.up
      ensures Items(zip, t) == Items(zip0, t0) && Footprint(zip, t) == Footprint(zip0, t0)
      ensures OnlyIn(Footprint(zip0, t0), old(mem), mem)
    {
      hide Focus;
      Look(mem, root, nil, zip0, t0, z0, mem[z0].parent);
      GoUp(mem, root, nil, zip0, t0, z0, mem[z0].parent);
      ghost var pt := Plug(zip0, t0);
      z := mem[z0].parent;
      RotateLeft(z, zip0.up, pt);
      GoLeft(mem, root, nil, zip0.up, RotatedLeft(pt), z0, mem[z0].parent);
      t := RotatedLeft(pt).left;
      zip := ZL(zip0.up, Red, t0.node, t0.entry, t0.right);
      Look(mem, root, nil, zip, t, mem[z0].left, z0);
    }

    /** Paint the parent black and the grandparent red, and rotate the latter. */
    method RotateGrandRight(z: Ptr, ghost zip0: Zip<K, V>, ghost t: Tree<K, V>, ghost h: int)
      returns (ghost zip: Zip<K, V>)
      requires RedChild(z, zip0, t, h) && zip0.ZL? && zip0.color == Red && zip0.up.ZL?
        && ColorOf(zip0.up.other) == Black
      modifies this`root, this`mem
      ensures RedChild(z, zip, t, h) && zip.ZL? && zip.color == Black && zip.up == zip0.up.up
      ensures Items(zip, t) == Items(zip0, t) && Footprint(zip, t) == Footprint(zip0, t)
      ensures OnlyIn(Footprint(zip0, t), old(mem), mem)
    {
      hide Focus, Items, Footprint;
      ghost var up := zip0.up.up;
      FlipRedBlack(zip0, t, h);
      Look(mem, root, nil, zip0, t, z, mem[z].parent);
      GoUp(mem, root, nil, zip0, t, z, mem[z].parent);
      var p := mem[z].parent;
      GoUp(mem, root, nil, zip0.up, Plug(zip0, t), p, mem[p].parent);
      var g := mem[p].parent;
      ghost var gt := Plug(zip0.up, Plug(zip0, t));
      PaintLeft(mem, root, nil, up, gt, g, mem[g].parent, Black);
      mem := mem[p := mem[p].(color := Black)];
      gt := gt.(left := gt.left.(color := Black));
      Paint(mem, root, nil, up, gt, g, mem[g].parent, Red);
      mem := mem[g := mem[g].(color := Red)];
      gt := gt.(color := Red);
      RotateRight(g, up, gt);
      gt := RotatedRight(gt);
      GoLeft(mem, root, nil, up, gt, p, mem[p].parent);
      zip := ZL(up, Black, gt.node, gt.entry, gt.right);
      Look(mem, root, nil, zip, t, mem[p].left, p);
    }

    /** One round of the insertion fix-up when the parent is a left child. */
    method InsertStepLeft(z0: Ptr, ghost zip0: Zip<K, V>, ghost t0: Tree<K, V>, ghost h0: int)
      returns (z: Ptr, ghost zip: Zip<K, V>, ghost t: Tree<K, V>, ghost h: int)
      requires RedChild(z0, zip0, t0, h0) && !zip0.Top? && zip0.color == Red && zip0.up.ZL?
      modifies this`root, this`mem
      ensures RedChild(z, zip, t, h) && Depth(zip) < Depth(zip0)
      ensures Items(zip, t) == Items(zip0, t0) && Footprint(zip, t) == Footprint(zip0, t0)
      ensures OnlyIn(Footprint(zip0, t0), old(mem), mem)
    {
      hide Focus;
      z, zip, t, h := z0, zip0, t0, h0;
      FlipRedBlack(zip, t, h);
      WhichSide(mem, root, nil, zip, t, z, mem[z].parent);
      GoUp(mem, root, nil, zip, t, z, mem[z].parent);
      var p := mem[z].parent;
      GoUp(mem, root, nil, zip.up, Plug(zip, t), p, mem[p].parent);
      var g := mem[p].parent;
      var y := mem[g].right;
      ghost var gt := Plug(zip.up, Plug(zip, t));
      Look(mem, root, nil, zip.up.up, gt, g, mem[g].parent);
      if mem[y].color == Red {
        FlipColors(g, p, y, zip.up.up, gt);
        z, zip, t, h := g, zip.up.up, Flipped(gt), h + 1;
      } else {
        if z == mem[p].right {
          z, zip, t := StraightenLeft(z, zip, t, h);
        }
        zip := RotateGrandRight(z, zip, t, h);
      }
    }

    /** Turn a right-left pair of red nodes into a right-right pair. */
    method StraightenRight(z0: Ptr, ghost zip0: Zip<K, V>, ghost t0: Tree<K, V>, ghost h: int)
      returns (z: Ptr, ghost zip: Zip<K, V>, ghost t: Tree<K, V>)
      requires RedChild(z0, zip0, t0, h) && zip0.ZL? && zip0.color == Red
      modifies this`root, this`mem
      ensures RedChild(z, zip, t, h) && zip.ZR? && zip.color == Red && zip.up == zip0.up
      ensures Items(zip, t) == Items(zip0, t0) && Footprint(zip, t) == Footprint(zip0, t0)
      ensures OnlyIn(Footprint(zip0, t0), old(mem), mem)
    {
      hide Focus;
      Look(mem, root, nil, zip0, t0, z0, mem[z0].parent);
      GoUp(mem, root, nil, zip0, t0, z0, mem[z0].parent);
      ghost var pt := Plug(zip0, t0);
      z := mem[z0].parent;
      RotateRight(z, zip0.up, pt);
      GoRight(mem, root, nil, zip0.up, RotatedRight(pt), z0, mem[z0].parent);
      t := RotatedRight(pt).right;
      zip := ZR(zip0.up, Red, t0.node, t0.entry, t0.left);
      Look(mem, root, nil, zip, t, mem[z0].right, z0);
    }

    /** Paint the parent black and the grandparent red, and rotate the latter. */
    method RotateGrandLeft(z: Ptr, ghost zip0: Zip<K, V>, ghost t: Tree<K, V>, ghost h: int)
      returns (ghost zip: Zip<K, V>)
      requires RedChild(z, zip0, t, h) && zip0.ZR? && zip0.color == Red && zip0.up.ZR?
        && ColorOf(zip0.up.other) == Black
      modifies this`root, this`mem
      ensures RedChild(z, zip, t, h) && zip.ZR? && zip.color == Black && zip.up == zip0.up.up
      ensures Items(zip, t) == Items(zip0, t) && Footprint(zip, t) == Footprint(zip0, t)
      ensures OnlyIn(Footprint(zip0, t), old(mem), mem)
    {
      hide Focus, Items, Footprint;
      ghost var up := zip0.up.up;
      FlipRedBlack(zip0, t, h);
      Look(mem, root, nil, zip0, t, z, mem[z].parent);
      GoUp(mem, root, nil, zip0, t, z, mem[z].parent);
      var p := mem[z].parent;
      GoUp(mem, root, nil, zip0.up, Plug(zip0, t), p, mem[p].parent);
      var g := mem[p].parent;
      ghost var gt := Plug(zip0.up, Plug(zip0, t));
      PaintRight(mem, root, nil, up, gt, g, mem[g].parent, Black);
      mem := mem[p := mem[p].(color := Black)];
      gt := gt.(right := gt.right.(color := Black));
      Paint(mem, root, nil, up, gt, g, mem[g].parent, Red);
      mem := mem[g := mem[g].(color := Red)];
      gt := gt.(color := Red);
      RotateLeft(g, up, gt);
      gt := RotatedLeft(gt);
      GoRight(mem, root, nil, up, gt, p, mem[p].parent);
      zip := ZR(up, Black, gt.node, gt.entry, gt.left);
      Look(mem, root, nil, zip, t, mem[p].right, p);
    }

    /** One round of the insertion fix-up when the parent is a right child. */
    method InsertStepRight(z0: Ptr, ghost zip0: Zip<K, V>, ghost t0: Tree<K, V>, ghost h0: int)
      returns (z: Ptr, ghost zip: Zip<K, V>, ghost t: Tree<K, V>, ghost h: int)
      requires RedChild(z0, zip0, t0, h0) && !zip0.Top? && zip0.color == Red && zip0.up.ZR?
      modifies this`root, this`mem
      ensures RedChild(z, zip, t, h) && Depth(zip) < Depth(zip0)
      ensures Items(zip, t) == Items(zip0, t0) && Footprint(zip, t) == Footprint(zip0, t0)
      ensures OnlyIn(Footprint(zip0, t0), old(mem), mem)
    {
      hide Focus;
      z, zip, t, h := z0, zip0, t0, h0;
      FlipRedBlack(zip, t, h);
      WhichSide(mem, root, nil, zip, t, z, mem[z].parent);
      GoUp(mem, root, nil, zip, t, z, mem[z].parent);
      var p := mem[z].parent;
      GoUp(mem, root, nil, zip.up, Plug(zip, t), p, mem[p].parent);
      var g := mem[p].parent;
      var y := mem[g].left;
      ghost var gt := Plug(zip.up, Plug(zip, t));
      Look(mem, root, nil, zip.up.up, gt, g, mem[g].parent);
      if mem[y].color == Red {
        FlipColors(g, p, y, zip.up.up, gt);
        z, zip, t, h := g, zip.up.up, Flipped(gt), h + 1;
      } else {
        if z == mem[p].left {
          z, zip, t := StraightenRight(z, zip, t, h);
        }
        zip := RotateGrandLeft(z, zip, t, h);
      }
    }

    /** The last line of both fix-ups. */
    method BlackenRoot(p: Ptr, ghost z: Zip<K, V>, ghost t0: Tree<K, V>, ghost h: int) returns (ghost t': Tree<K, V>)
      requires p in mem && Focus(mem, root, nil, z, t0, p, mem[p].parent) && t0.T?
      requires if z.Top? then RedBlack(t0.(color := Black), h) else RedBlack(t0, h) && ZipRedBlack(z, t0.color, h)
      modifies this`mem
      ensures Focus(mem, root, nil, Top, t', root, nil) && IsRedBlack(t')
      ensures Inorder(t') == Items(z, t0) && Nodes(t') == Footprint(z, t0)
      ensures OnlyIn(Footprint(z, t0), old(mem), mem)
    {
      ghost var t := if z.Top? then t0.(color := Black) else t0;
      if z.Top? {
        Paint(mem, root, nil, z, t0, p, mem[p].parent, Black);
        Look(mem, root, nil, z, t0, p, mem[p].parent);
      }
      FillRedBlack(z, t, h);
      FillInorder(z, t);
      FillSeparate(z, t);
      t' := Fill(z, t);
      if !z.Top? {
        FillIsTree(mem, z, t, p, mem[p].parent, root, nil);
        assert p in Nodes(t');
        assert mem == mem[root := mem[root].(color := Black)];
      }
      mem := mem[root := mem[root].(color := Black)];
    }

    method InsertFixup(z0: Ptr, ghost zip0: Zip<K, V>, ghost t0: Tree<K, V>, ghost h0: int)
        returns (ghost t': Tree<K, V>)
      requires RedChild(z0, zip0, t0, h0)
      modifies this`root, this`mem
      ensures Focus(mem, root, nil, Top, t', root, nil) && IsRedBlack(t')
      ensures Inorder(t') == Items(zip0, t0) && Nodes(t') == Footprint(zip0, t0)
      ensures OnlyIn(Footprint(zip0, t0), old(mem), mem)
    {
      hide Focus;
      var z := z0;
      Look(mem, root, nil, zip0, t0, z0, mem[z0].parent);
      ghost var zip, t, h := zip0, t0, h0;
      while mem[mem[z].parent].color == Red
        invariant RedChild(z, zip, t, h) && mem[z].parent in mem
        invariant Items(zip, t) == Items(zip0, t0) && Footprint(zip, t) == Footprint(zip0, t0)
        invariant OnlyIn(Footprint(zip0, t0), old(mem), mem)
        decreases Depth(zip)
      {
        Look(mem, root, nil, zip, t, z, mem[z].parent);
        FlipRedBlack(zip, t, h);
        GoUp(mem, root, nil, zip, t, z, mem[z].parent);
        var p := mem[z].parent;
        WhichSide(mem, root, nil, zip.up, Plug(zip, t), p, mem[p].parent);
        if p == mem[mem[p].parent].left {
          z, zip, t, h := InsertStepLeft(z, zip, t, h);
        } else {
          z, zip, t, h := InsertStepRight(z, zip, t, h);
        }
        Look(mem, root, nil, zip, t, z, mem[z].parent);
      }
      Look(mem, root, nil, zip, t, z, mem[z].parent);
      t' := BlackenRoot(z, zip, t, if zip.Top? then h + 1 else h);
    }

    /** Hang the subtree `b` below `v` on the left. */
    method AdoptLeft(v: Ptr, child: Ptr, ghost b: Tree<K, V>, ghost par: Ptr)
      requires v in mem && nil in mem && v !in Nodes(b) && v != nil && nil !in Nodes(b) && mem[nil].IsNil()
      requires IsTree(mem, b, child, par, nil) && Separate(b)
      modifies this`mem
      ensures OnlyIn(Nodes(b) + {v}, old(mem), mem) && mem[v] == old(mem[v].(left := child))
      ensures IsTree(mem, b, child, v, nil)
    {
      ghost var m := mem;
      mem := mem[v := mem[v].(left := child)];
      var l := mem[v].left;
      if !mem[l].IsNil() {
        mem := mem[l := mem[l].(parent := v)];
      }
      FrameRoot(m, mem, b, child, par, v, nil);
    }

    /** Hang the subtree `b` below `v` on the right. */
    method AdoptRight(v: Ptr, child: Ptr, ghost b: Tree<K, V>, ghost par: Ptr)
      requires v in mem && nil in mem && v !in Nodes(b) && v != nil && nil !in Nodes(b) && mem[nil].IsNil()
      requires IsTree(mem, b, child, par, nil) && Separate(b)
      modifies this`mem
      ensures OnlyIn(Nodes(b) + {v}, old(mem), mem) && mem[v] == old(mem[v].(right := child))
      ensures IsTree(mem, b, child, v, nil)
    {
      ghost var m := mem;
      mem := mem[v := mem[v].(right := child)];
      var l := mem[v].right;
      if !mem[l].IsNil() {
        mem := mem[l := mem[l].(parent := v)];
      }
      FrameRoot(m, mem, b, child, par, v, nil);
    }

    /** Node `v` takes over the colour and the children of node `u`. */
    method TakeChildren(u: Ptr, v: Ptr, ghost t: Tree<K, V>, ghost par: Ptr)
      requires u in mem && v in mem && nil in mem && t.T? && v !in Nodes(t) && v != nil && nil !in Nodes(t)
        && mem[nil].IsNil()
      requires IsTree(mem, t, u, par, nil) && Separate(t)
      modifies this`mem
      ensures OnlyIn(Nodes(t) + {v}, old(mem), mem) && mem[u] == old(mem[u])
      ensures mem[v] == old(mem[v].(color := mem[u].color, left := mem[u].left, right := mem[u].right))
      ensures IsTree(mem, t.left, mem[v].left, v, nil) && IsTree(mem, t.right, mem[v].right, v, nil)
    {
      ghost var m := mem;
      mem := mem[v := mem[v].(color := mem[u].color)];
      FrameTree(m, mem, t.left, m[u].left, u, nil);
      AdoptLeft(v, mem[u].left, t.left, u);
      FrameTree(m, mem, t.right, m[u].right, u, nil);
      ghost var m1 := mem;
      AdoptRight(v, mem[u].right, t.right, u);
      FrameTree(m1, mem, t.left, m1[v].left, v, nil);
    }

    method TakePlace(u: Ptr, v: Ptr, ghost z: Zip<K, V>, ghost t: Tree<K, V>, ghost e: Entry<K, V>)
      requires u in mem && v in mem && t.T? && v !in Footprint(z, t) && v != nil && mem[v].value == Some(e)
      requires Focus(mem, root, nil, z, t, u, mem[u].parent)
      modifies this`mem, this`root
      ensures v in mem && Focus(mem, root, nil, z, T(t.color, t.left, v, e, t.right), v, mem[v].parent)
      ensures OnlyIn(Footprint(z, t) + {v}, old(mem), mem) && mem[u] == old(mem[u])
    {
      ghost var m := mem;
      TakeChildren(u, v, t, mem[u].parent);
      FrameZip(m, mem, z, u, mem[u].parent, root, nil);
      ghost var m0 := mem;
      Redirect(u, v, z);
      FrameTree(m0, mem, t.left, m0[v].left, v, nil);
      FrameTree(m0, mem, t.right, m0[v].right, v, nil);
    }

    /** Put the detached node `v` where `u` is; `u` leaves the tree. */
    method Replace(u: Ptr, v: Ptr, ghost z: Zip<K, V>, ghost t: Tree<K, V>, ghost e: Entry<K, V>)
      requires u in mem && v in mem && t.T? && v !in Footprint(z, t) && v != nil && mem[v].value == Some(e)
      requires Focus(mem, root, nil, z, t, u, mem[u].parent)
      modifies this`mem, this`root
      ensures v in mem && Focus(mem, root, nil, z, T(t.color, t.left, v, e, t.right), v, mem[v].parent)
      ensures OnlyIn(Footprint(z, t) + {v}, old(mem), mem)
      ensures Footprint(z, T(t.color, t.left, v, e, t.right)) == Footprint(z, t) - {u} + {v} && u in Footprint(z, t)
      ensures u in mem && mem[u] == old(mem[u]).(parent := DANGLING, left := DANGLING, right := DANGLING)
    {
      SwapFootprint(mem, root, nil, z, t, u, mem[u].parent, v, e);
      TakePlace(u, v, z, t, e);
      ghost var t' := T(t.color, t.left, v, e, t.right);
      ghost var m, gone := mem, mem[u].(parent := DANGLING, left := DANGLING, right := DANGLING);
      WriteOutside(mem, root, nil, z, t', v, mem[v].parent, u, gone);
      hide Focus;
      mem := mem[u := mem[u].(parent := DANGLING)];
      mem := mem[u := mem[u].(left := DANGLING)];
      mem := mem[u := mem[u].(right := DANGLING)];
      assert mem == m[u := gone];
    }

    /** Make `z` a child of `y`, or the root if `y` is the sentinel. */
    method HangBelow(z: Ptr, y: Ptr, e: Entry<K, V>, ghost zip: Zip<K, V>)
      requires z in mem && y in mem && z != y && (mem[y].IsNil() <==> zip.Top?)
      requires !zip.Top? ==>
        y == zip.node && mem[y].value == Some(zip.entry) && (zip.ZL? <==> cmp(e.key, zip.entry.key) == Less)
      modifies this`mem, this`root
      ensures root == if zip.Top? then z else old(root)
      ensures var m := old(mem)[z := old(mem)[z].(parent := y)];
        mem == if zip.Top? then m else m[y := if zip.ZL? then m[y].(left := z) else m[y].(right := z)]
    {
      mem := mem[z := mem[z].(parent := y)];
      if mem[y].IsNil() {
        root := z;
      } else if cmp(e.key, mem[y].value.value.key) == Less {
        mem := mem[y := mem[y].(left := z)];
      } else {
        mem := mem[y := mem[y].(right := z)];
      }
    }

    /** Link the detached node `z` below `y` as a red leaf where the search ended. */
    method AttachLeaf(z: Ptr, y: Ptr, e: Entry<K, V>, ghost zip: Zip<K, V>)
      requires z in mem && mem[z].value == Some(e) && z !in ZipNodes(zip) && z != nil
      requires Focus(mem, root, nil, zip, Leaf, nil, y)
      requires !zip.Top? ==> (zip.ZL? <==> cmp(e.key, zip.entry.key) == Less)
      modifies this`mem, this`root
      ensures z in mem && Focus(mem, root, nil, zip, T(Red, Leaf, z, e, Leaf), z, mem[z].parent)
      ensures OnlyIn(ZipNodes(zip) + {z}, old(mem), mem)
    {
      hide Focus, ZipNodes;
      LeafSpot(mem, root, nil, zip, y);
      LinkLeaf(mem, root, nil, zip, y, z, e);
      ghost var m := mem;
      HangBelow(z, y, e, zip);
      mem := mem[z := mem[z].(left := nil)];
      mem := mem[z := mem[z].(right := nil)];
      mem := mem[z := mem[z].(color := Red)];
      assert mem == Linked(m, zip, z, Node(y, nil, nil, Red, Some(e)));
    }

    /** The whole tree, seen from its root again. */
    lemma Rebuild(z: Zip<K, V>, t: Tree<K, V>, p: Ptr, par: Ptr) returns (t': Tree<K, V>)
      requires Focus(mem, root, nil, z, t, p, par)
      ensures t' == Fill(z, t) && Focus(mem, root, nil, Top, t', root, nil)
      ensures Inorder(t') == Items(z, t) && Nodes(t') == Footprint(z, t)
    {
      t' := Fill(z, t);
      FillIsTree(mem, z, t, p, par, root, nil);
      FillInorder(z, t);
      FillSeparate(z, t);
    }

    /** The key was found at `x`: node `z` takes its place. */
    method SwapNode(x: Ptr, z: Ptr, ghost zip: Zip<K, V>, ghost t: Tree<K, V>, ghost par: Ptr, ghost h: int,
        ghost e: Entry<K, V>)
      requires Valid() && z in mem && z != nil && z !in Nodes(tree) && mem[z].value == Some(e)
      requires Searching(e.key, x, zip, t, par, h) && t.T? && t.entry.key == e.key
      modifies this`mem, this`root, this`tree
      ensures Valid() && OnlyIn(old(Nodes(tree)) + {z}, old(mem), mem)
      ensures Contents() == old(Contents())[e.key := e.value]
      ensures x in mem && x in old(Nodes(tree)) && Nodes(tree) == old(Nodes(tree)) - {x} + {z}
        && e.key in old(Contents())
      ensures mem[x] == Node(DANGLING, DANGLING, DANGLING, old(mem)[x].color,
        Some(Entry(e.key, old(Contents())[e.key])))
    {
      hide Focus, Items, Footprint, Sorted;
      Look(mem, root, nil, zip, t, x, par);
      ghost var t' := T(t.color, t.left, z, e, t.right);
      SwapItem(cmp, zip, t, z, e);
      Replace(x, z, zip, t, e);
      FillRedBlack(zip, t', h);
      tree := Rebuild(zip, t', z, mem[z].parent);
    }

    /** The key was not found: node `z` goes below `y`, where the search ended. */
    method AddNode(z: Ptr, y: Ptr, e: Entry<K, V>, ghost zip: Zip<K, V>, ghost h: int)
      requires Valid() && z in mem && z != nil && z !in Nodes(tree) && mem[z].value == Some(e)
      requires Searching(e.key, nil, zip, Leaf, y, h)
        && (!zip.Top? ==> (zip.ZL? <==> cmp(e.key, zip.entry.key) == Less))
      modifies this`mem, this`root, this`tree
      ensures Valid() && OnlyIn(old(Nodes(tree)) + {z}, old(mem), mem)
      ensures Contents() == old(Contents())[e.key := e.value]
      ensures Nodes(tree) == old(Nodes(tree)) + {z} && e.key !in old(Contents())
    {
      hide Focus, Sorted;
      AddItem(cmp, zip, z, e);
      AttachLeaf(z, y, e, zip);
      ghost var t := T(Red, Leaf, z, e, Leaf);
      tree := InsertFixup(z, zip, t, h);
    }

    /** Insert node `z`; a node with an equal key is replaced and returned. */
    method Insert(z: Ptr) returns (prev: Option<Ptr>)
      requires Valid() && z in mem && z != nil && z !in Nodes(tree) && mem[z].value.Some?
      modifies this`mem, this`root, this`tree
      ensures Valid() && OnlyIn(old(Nodes(tree)) + {z}, old(mem), mem)
      ensures var e := old(mem[z].value.value); Contents() == old(Contents())[e.key := e.value]
      ensures prev.Some? <==> old(mem[z].value.value.key in Contents())
      ensures prev.None? ==> Nodes(tree) == old(Nodes(tree)) + {z}
      ensures prev.Some? ==>
        && prev.value in mem && prev.value in old(Nodes(tree)) && Nodes(tree) == old(Nodes(tree)) - {prev.value} + {z}
        && mem[prev.value] == Node(DANGLING, DANGLING, DANGLING, old(mem)[prev.value].color,
             Some(Entry(old(mem[z].value.value.key), old(Contents()[mem[z].value.value.key]))))
    {
      var y, x := nil, root;
      var e := mem[z].value.value;
      ghost var h := SearchStart(e.key);
      ghost var zip, t := Top, tree;
      hide Focus;
      Look(mem, root, nil, zip, t, x, y);
      while !mem[x].IsNil()
        invariant x in mem && (mem[x].IsNil() <==> t.Leaf?)
        invariant Valid() && mem == old(mem) && root == old(root) && tree == old(tree)
        invariant Searching(e.key, x, zip, t, y, h)
        invariant !zip.Top? ==> zip.node == y && (zip.ZL? <==> cmp(e.key, zip.entry.key) == Less)
        decreases t
      {
        Look(mem, root, nil, zip, t, x, y);
        ghost var par := y;
        y := x;
        match cmp(e.key, mem[x].value.value.key)
        case Less =>
          SearchLeft(e.key, x, zip, t, par, h);
          h := if t.color == Black then h - 1 else h;
          x, zip, t := mem[x].left, ZL(zip, t.color, t.node, t.entry, t.right), t.left;
        case Greater =>
          SearchRight(e.key, x, zip, t, par, h);
          h := if t.color == Black then h - 1 else h;
          x, zip, t := mem[x].right, ZR(zip, t.color, t.node, t.entry, t.left), t.right;
        case Equal =>
          SwapNode(x, z, zip, t, par, h, e);
          return Some(x);
        Look(mem, root, nil, zip, t, x, y);
      }
      AddNode(z, y, e, zip, h);
      return None;
    }

    /** Insert a fresh node for `key`; `at` is what the allocator returned.  The
        node that held an equal key, if any, is freed and its value returned. */
    method TryInsert(key: K, value: V, at: Option<Ptr>) returns (r: Option<Option<V>>)
      requires Valid() && (at.Some? ==> at.value !in mem && at.value != DANGLING)
      modifies this`mem, this`root, this`tree
      ensures Valid() && (r.Some? <==> at.Some?)
      ensures r.None? ==> Contents() == old(Contents()) && mem == old(mem) && tree == old(tree)
      ensures r.Some? ==> Contents() == old(Contents())[key := value]
      ensures r.Some? ==> r.value == if key in old(Contents()) then Some(old(Contents())[key]) else None
      ensures mem.Keys - Nodes(tree) == old(mem.Keys - Nodes(tree))
      ensures old(Blank()) ==> Blank()
    {
      if at.None? {
        return None;
      }
      var n := at.value;
      ghost var v := Node(DANGLING, DANGLING, DANGLING, Black, Some(Entry(key, value)));
      NodesInMemory(mem, tree, root, nil, nil);
      WriteOutside(mem, root, nil, Top, tree, root, nil, n, v);
      Look(mem, root, nil, Top, tree, root, nil);
      hide Focus;
      mem := mem[n := Node(DANGLING, DANGLING, DANGLING, Black, Some(Entry(key, value)))];
      var prev := Insert(n);
      if prev.None? {
        return Some(None);
      }
      var u := prev.value;
      var was := mem[u].value.value.value;
      FreeOutside(mem, root, nil, tree, u);
      mem := mem - {u};
      return Some(Some(was));
    }

    /** The subtree at `x` is black and one black node short of what the rest of
        the tree needs there; `x` knows its parent even when it is the sentinel. */
    ghost predicate Short(x: Ptr, zip: Zip<K, V>, t: Tree<K, V>, h: int)
      reads this
    {
      && x in mem && Focus(mem, root, nil, zip, t, x, mem[x].parent)
      && ColorOf(t) == Black && RedBlack(t, h) && ZipRedBlack(zip, Black, h + 1)
    }

    /** Nothing is missing any more. */
    ghost predicate Settled(x: Ptr, zip: Zip<K, V>, t: Tree<K, V>, par: Ptr, h: int)
      reads this
    {
      Focus(mem, root, nil, zip, t, x, par) && RedBlack(t, h) && ZipRedBlack(zip, ColorOf(t), h)
    }

    /** Case 1: a red sibling is rotated above the parent. */
    method RedSiblingLeft(x: Ptr, p: Ptr, y: Ptr, ghost zip0: Zip<K, V>, ghost t: Tree<K, V>, ghost h: int)
        returns (ghost zip: Zip<K, V>)
      requires Short(x, zip0, t, h) && zip0.ZL? && p == mem[x].parent && ColorOf(zip0.other) == Red
        && y == zip0.other.node
      modifies this`mem, this`root
      ensures Short(x, zip, t, h) && mem[x].parent == p && zip.ZL? && zip.color == Red && Depth(zip) == Depth(zip0) + 1
      ensures Items(zip, t) == Items(zip0, t) && Footprint(zip, t) == Footprint(zip0, t)
        && OnlyIn(Footprint(zip0, t), old(mem), mem)
    {
      hide Focus, Items, Footprint;
      Look(mem, root, nil, zip0, t, x, p);
      GoUp(mem, root, nil, zip0, t, x, p);
      ghost var pt, up := Plug(zip0, t), zip0.up;
      Look(mem, root, nil, up, pt, p, mem[p].parent);
      PaintRight(mem, root, nil, up, pt, p, mem[p].parent, Black);
      mem := mem[y := mem[y].(color := mem[p].color)];
      pt := pt.(right := pt.right.(color := Black));
      Paint(mem, root, nil, up, pt, p, mem[p].parent, Red);
      mem := mem[p := mem[p].(color := Red)];
      pt := pt.(color := Red);
      RotateLeft(p, up, pt);
      pt := RotatedLeft(pt);
      Look(mem, root, nil, up, pt, y, mem[y].parent);
      GoLeft(mem, root, nil, up, pt, y, mem[y].parent);
      GoLeft(mem, root, nil, ZL(up, Black, pt.node, pt.entry, pt.right), pt.left, p, y);
      zip := ZL(ZL(up, Black, pt.node, pt.entry, pt.right), Red, pt.left.node, pt.left.entry, pt.left.right);
      Look(mem, root, nil, zip, t, mem[p].left, p);
      assert ZipRedBlack(zip.up, Red, h + 1);
    }

    /** Case 3: the near nephew is red; rotate it above the sibling. */
    method RedNephewLeft(x: Ptr, p: Ptr, y: Ptr, ghost zip0: Zip<K, V>, ghost t: Tree<K, V>, ghost h: int)
        returns (ghost zip: Zip<K, V>)
      requires Short(x, zip0, t, h) && zip0.ZL? && p == mem[x].parent && zip0.other.T? && y == zip0.other.node
      requires zip0.other.color == Black && ColorOf(zip0.other.left) == Red && ColorOf(zip0.other.right) == Black
      modifies this`mem, this`root
      ensures Short(x, zip, t, h) && mem[x].parent == p && zip.ZL? && zip.other.T? && ColorOf(zip.other.right) == Red
      ensures zip.other.color == Black && Depth(zip) == Depth(zip0)
      ensures Items(zip, t) == Items(zip0, t) && Footprint(zip, t) == Footprint(zip0, t)
        && OnlyIn(Footprint(zip0, t), old(mem), mem)
    {
      hide Focus, Items, Footprint;
      assert RedBlack(zip0.other.left, h) && RedBlack(zip0.other.right, h);
      Look(mem, root, nil, zip0, t, x, p);
      GoUp(mem, root, nil, zip0, t, x, p);
      ghost var pt, up := Plug(zip0, t), zip0.up;
      Look(mem, root, nil, up, pt, p, mem[p].parent);
      GoRight(mem, root, nil, up, pt, p, mem[p].parent);
      ghost var yt, yz := pt.right, ZR(up, pt.color, pt.node, pt.entry, pt.left);
      Look(mem, root, nil, yz, yt, y, p);
      Paint(mem, root, nil, yz, yt, y, p, Red);
      mem := mem[y := mem[y].(color := Red)];
      yt := yt.(color := Red);
      PaintLeft(mem, root, nil, yz, yt, y, p, Black);
      mem := mem[mem[y].left := mem[mem[y].left].(color := Black)];
      yt := yt.(left := yt.left.(color := Black));
      RotateRight(y, yz, yt);
      yt := RotatedRight(yt);
      GoUp(mem, root, nil, yz, yt, yt.node, p);
      GoLeft(mem, root, nil, up, Plug(yz, yt), p, mem[p].parent);
      zip := ZL(up, pt.color, pt.node, pt.entry, yt);
      Look(mem, root, nil, zip, t, mem[p].left, p);
      assert RedBlack(yt.right, h) && RedBlack(yt, h + 1);
    }

    /** The painting of case 4: the sibling takes the parent's colour, the parent
        and the far nephew turn black. */
    method PaintFarLeft(p: Ptr, y: Ptr, ghost z: Zip<K, V>, ghost t0: Tree<K, V>) returns (ghost t: Tree<K, V>)
      requires p in mem && Focus(mem, root, nil, z, t0, p, mem[p].parent) && t0.T? && t0.right.T?
        && t0.right.right.T? && y == t0.right.node
      modifies this`mem
      ensures p in mem && Focus(mem, root, nil, z, t, p, mem[p].parent)
      ensures t == t0.(color := Black, right := t0.right.(color := t0.color, right := t0.right.right.(color := Black)))
      ensures Items(z, t) == Items(z, t0) && Footprint(z, t) == Footprint(z, t0)
        && OnlyIn(Footprint(z, t0), old(mem), mem)
    {
      hide Focus, Items, Footprint;
      ghost var par := mem[p].parent;
      t := t0;
      Look(mem, root, nil, z, t, p, par);
      PaintRight(mem, root, nil, z, t, p, par, t.color);
      mem := mem[y := mem[y].(color := mem[p].color)];
      t := t.(right := t.right.(color := t.color));
      Paint(mem, root, nil, z, t, p, par, Black);
      mem := mem[p := mem[p].(color := Black)];
      t := t.(color := Black);
      GoRight(mem, root, nil, z, t, p, par);
      ghost var yz := ZR(z, t.color, t.node, t.entry, t.left);
      PaintRight(mem, root, nil, yz, t.right, y, p, Black);
      mem := mem[mem[y].right := mem[mem[y].right].(color := Black)];
      GoUp(mem, root, nil, yz, t.right.(right := t.right.right.(color := Black)), y, p);
      t := t.(right := t.right.(right := t.right.right.(color := Black)));
    }

    /** Case 4: the far nephew is red; one rotation restores the missing black. */
    method FarNephewLeft(x: Ptr, p: Ptr, y: Ptr, ghost zip0: Zip<K, V>, ghost t0: Tree<K, V>, ghost h0: int)
      returns (ghost zip: Zip<K, V>, ghost t: Tree<K, V>, ghost h: int)
      requires Short(x, zip0, t0, h0) && zip0.ZL? && p == mem[x].parent && zip0.other.T? && y == zip0.other.node
      requires zip0.other.color == Black && ColorOf(zip0.other.right) == Red
      modifies this`mem, this`root
      ensures y in mem && Settled(y, zip, t, mem[y].parent, h)
      ensures Items(zip, t) == Items(zip0, t0) && Footprint(zip, t) == Footprint(zip0, t0)
        && OnlyIn(Footprint(zip0, t0), old(mem), mem)
    {
      FarNephewLeftHeights(zip0, t0, h0);
      hide Focus, Items, Footprint, RedBlack, ZipRedBlack;
      GoUp(mem, root, nil, zip0, t0, x, p);
      ghost var pt := Plug(zip0, t0);
      zip := zip0.up;
      pt := PaintFarLeft(p, y, zip, pt);
      RotateLeft(p, zip, pt);
      t, h := RotatedLeft(pt), if zip0.color == Black then h0 + 2 else h0 + 1;
      assert t == FarNephewLeftResult(zip0, t0);
    }

    /** The sentinel as it was made: its links lead nowhere but to itself. */
    ghost predicate Blank()
      reads this`mem, this`nil
    {
      nil in mem && mem[nil] == Node(nil, nil, nil, Black, None)
    }

    /** Case 2: both nephews are black; the sibling turns red and the parent is
        one black short instead, unless it was red and can turn black.  When the
        fix-up is `lost`, all three are the sentinel and nothing changes. */
    method BlackNephewsLeft(x: Ptr, p: Ptr, y: Ptr, ghost zip0: Zip<K, V>, ghost t0: Tree<K, V>, ghost h0: int,
        ghost lost: bool)
      returns (done: bool, ghost zip: Zip<K, V>, ghost t: Tree<K, V>, ghost h: int)
      requires lost ==> Blank() && x == p == y == nil
      requires !lost ==>
        Short(x, zip0, t0, h0) && zip0.ZL? && p == mem[x].parent && zip0.other.T? && y == zip0.other.node
      requires !lost ==>
        zip0.other.color == Black && ColorOf(zip0.other.left) == Black && ColorOf(zip0.other.right) == Black
      modifies this`mem
      ensures lost ==> done && mem == old(mem)
      ensures !lost && done ==> p in mem && Settled(p, zip, t, mem[p].parent, h)
      ensures !lost && !done ==> Short(p, zip, t, h) && zip == zip0.up
      ensures !lost ==> (done <==> zip0.color == Red)
      ensures !lost ==> Items(zip, t) == Items(zip0, t0) && Footprint(zip, t) == Footprint(zip0, t0)
      ensures !lost ==> OnlyIn(Footprint(zip0, t0), old(mem), mem)
    {
      hide Focus, Items, Footprint;
      t, zip, h := t0, zip0, h0;
      if !lost {
        Look(mem, root, nil, zip0, t0, x, p);
        GoUp(mem, root, nil, zip0, t0, x, p);
        t, zip, h := Plug(zip0, t0), zip0.up, h0 + 1;
        PaintRight(mem, root, nil, zip, t, p, mem[p].parent, Red);
      }
      mem := mem[y := mem[y].(color := Red)];
      if !lost {
        t := t.(right := t.right.(color := Red));
        assert RedBlack(t.right, h0);
        Look(mem, root, nil, zip, t, p, mem[p].parent);
      }
      done := mem[p].color == Red;
      if done {
        if !lost {
          BlackFits(zip, h);
          Paint(mem, root, nil, zip, t, p, mem[p].parent, Black);
          t := t.(color := Black);
        }
        mem := mem[p := mem[p].(color := Black)];
      }
    }

    /** One round of the deletion fix-up when `x` is a left child, or the sentinel
        that knows no parent. */
    method DeleteStepLeft(x0: Ptr, ghost zip0: Zip<K, V>, ghost t0: Tree<K, V>, ghost h0: int, ghost lost: bool)
      returns (x: Ptr, done: bool, ghost zip: Zip<K, V>, ghost t: Tree<K, V>, ghost h: int)
      requires if lost then Blank() && x0 == nil else Short(x0, zip0, t0, h0) && zip0.ZL?
      modifies this`mem, this`root
      ensures lost ==> done && mem == old(mem) && root == old(root)
      ensures !lost && done ==> x in mem && Settled(x, zip, t, mem[x].parent, h)
      ensures !lost && !done ==> Short(x, zip, t, h) && Depth(zip) < Depth(zip0)
      ensures !lost ==> Items(zip, t) == Items(zip0, t0) && Footprint(zip, t) == Footprint(zip0, t0)
      ensures !lost ==> OnlyIn(Footprint(zip0, t0), old(mem), mem)
    {
      hide Focus, Items, Footprint;
      x, zip, t, h := x0, zip0, t0, h0;
      var p := mem[x].parent;
      if !lost {
        HeightNonNegative(t, h);
        LookAcross(mem, root, nil, zip, t, x, p);
      }
      var y := mem[p].right;
      if mem[y].color == Red {
        zip := RedSiblingLeft(x, p, y, zip, t, h);
        LookAcross(mem, root, nil, zip, t, x, p);
        y := mem[p].right;
      }
      if mem[mem[y].left].color == Black && mem[mem[y].right].color == Black {
        done, zip, t, h := BlackNephewsLeft(x, p, y, zip, t, h, lost);
        x := p;
        return;
      }
      if mem[mem[y].left].color == Red && mem[mem[y].right].color == Black {
        zip := RedNephewLeft(x, p, y, zip, t, h);
        LookAcross(mem, root, nil, zip, t, x, p);
        y := mem[p].right;
      }
      zip, t, h := FarNephewLeft(x, p, y, zip, t, h);
      x, done := y, true;
    }

    /** Case 1: a red sibling is rotated above the parent. */
    method RedSiblingRight(x: Ptr, p: Ptr, y: Ptr, ghost zip0: Zip<K, V>, ghost t: Tree<K, V>, ghost h: int)
        returns (ghost zip: Zip<K, V>)
      requires Short(x, zip0, t, h) && zip0.ZR? && p == mem[x].parent && ColorOf(zip0.other) == Red
        && y == zip0.other.node
      modifies this`mem, this`root
      ensures Short(x, zip, t, h) && mem[x].parent == p && zip.ZR? && zip.color == Red && Depth(zip) == Depth(zip0) + 1
      ensures Items(zip, t) == Items(zip0, t) && Footprint(zip, t) == Footprint(zip0, t)
        && OnlyIn(Footprint(zip0, t), old(mem), mem)
    {
      hide Focus, Items, Footprint;
      Look(mem, root, nil, zip0, t, x, p);
      GoUp(mem, root, nil, zip0, t, x, p);
      ghost var pt, up := Plug(zip0, t), zip0.up;
      Look(mem, root, nil, up, pt, p, mem[p].parent);
      PaintLeft(mem, root, nil, up, pt, p, mem[p].parent, Black);
      mem := mem[y := mem[y].(color := mem[p].color)];
      pt := pt.(left := pt.left.(color := Black));
      Paint(mem, root, nil, up, pt, p, mem[p].parent, Red);
      mem := mem[p := mem[p].(color := Red)];
      pt := pt.(color := Red);
      RotateRight(p, up, pt);
      pt := RotatedRight(pt);
      Look(mem, root, nil, up, pt, y, mem[y].parent);
      GoRight(mem, root, nil, up, pt, y, mem[y].parent);
      GoRight(mem, root, nil, ZR(up, Black, pt.node, pt.entry, pt.left), pt.right, p, y);
      zip := ZR(ZR(up, Black, pt.node, pt.entry, pt.left), Red, pt.right.node, pt.right.entry, pt.right.left);
      Look(mem, root, nil, zip, t, mem[p].right, p);
      assert ZipRedBlack(zip.up, Red, h + 1);
    }

    /** Case 3: the near nephew is red; rotate it above the sibling. */
    method RedNephewRight(x: Ptr, p: Ptr, y: Ptr, ghost zip0: Zip<K, V>, ghost t: Tree<K, V>, ghost h: int)
        returns (ghost zip: Zip<K, V>)
      requires Short(x, zip0, t, h) && zip0.ZR? && p == mem[x].parent && zip0.other.T? && y == zip0.other.node
      requires zip0.other.color == Black && ColorOf(zip0.other.right) == Red && ColorOf(zip0.other.left) == Black
      modifies this`mem, this`root
      ensures Short(x, zip, t, h) && mem[x].parent == p && zip.ZR? && zip.other.T? && ColorOf(zip.other.left) == Red
      ensures zip.other.color == Black && Depth(zip) == Depth(zip0)
      ensures Items(zip, t) == Items(zip0, t) && Footprint(zip, t) == Footprint(zip0, t)
        && OnlyIn(Footprint(zip0, t), old(mem), mem)
    {
      hide Focus, Items, Footprint;
      assert RedBlack(zip0.other.right, h) && RedBlack(zip0.other.left, h);
      Look(mem, root, nil, zip0, t, x, p);
      GoUp(mem, root, nil, zip0, t, x, p);
      ghost var pt, up := Plug(zip0, t), zip0.up;
      Look(mem, root, nil, up, pt, p, mem[p].parent);
      GoLeft(mem, root, nil, up, pt, p, mem[p].parent);
      ghost var yt, yz := pt.left, ZL(up, pt.color, pt.node, pt.entry, pt.right);
      Look(mem, root, nil, yz, yt, y, p);
      Paint(mem, root, nil, yz, yt, y, p, Red);
      mem := mem[y := mem[y].(color := Red)];
      yt := yt.(color := Red);
      PaintRight(mem, root, nil, yz, yt, y, p, Black);
      mem := mem[mem[y].right := mem[mem[y].right].(color := Black)];
      yt := yt.(right := yt.right.(color := Black));
      RotateLeft(y, yz, yt);
      yt := RotatedLeft(yt);
      GoUp(mem, root, nil, yz, yt, yt.node, p);
      GoRight(mem, root, nil, up, Plug(yz, yt), p, mem[p].parent);
      zip := ZR(up, pt.color, pt.node, pt.entry, yt);
      Look(mem, root, nil, zip, t, mem[p].right, p);
      assert RedBlack(yt.left, h) && RedBlack(yt, h + 1);
    }

    /** The painting of case 4: the sibling takes the parent's colour, the parent
        and the far nephew turn black. */
    method PaintFarRight(p: Ptr, y: Ptr, ghost z: Zip<K, V>, ghost t0: Tree<K, V>) returns (ghost t: Tree<K, V>)
      requires p in mem && Focus(mem, root, nil, z, t0, p, mem[p].parent) && t0.T? && t0.left.T? && t0.left.left.T?
        && y == t0.left.node
      modifies this`mem
      ensures p in mem && Focus(mem, root, nil, z, t, p, mem[p].parent)
      ensures t == t0.(color := Black, left := t0.left.(color := t0.color, left := t0.left.left.(color := Black)))
      ensures Items(z, t) == Items(z, t0) && Footprint(z, t) == Footprint(z, t0)
        && OnlyIn(Footprint(z, t0), old(mem), mem)
    {
      hide Focus, Items, Footprint;
      ghost var par := mem[p].parent;
      t := t0;
      Look(mem, root, nil, z, t, p, par);
      PaintLeft(mem, root, nil, z, t, p, par, t.color);
      mem := mem[y := mem[y].(color := mem[p].color)];
      t := t.(left := t.left.(color := t.color));
      Paint(mem, root, nil, z, t, p, par, Black);
      mem := mem[p := mem[p].(color := Black)];
      t := t.(color := Black);
      GoLeft(mem, root, nil, z, t, p, par);
      ghost var yz := ZL(z, t.color, t.node, t.entry, t.right);
      PaintLeft(mem, root, nil, yz, t.left, y, p, Black);
      mem := mem[mem[y].left := mem[mem[y].left].(color := Black)];
      GoUp(mem, root, nil, yz, t.left.(left := t.left.left.(color := Black)), y, p);
      t := t.(left := t.left.(left := t.left.left.(color := Black)));
    }

    /** Case 4: the far nephew is red; one rotation restores the missing black. */
    method FarNephewRight(x: Ptr, p: Ptr, y: Ptr, ghost zip0: Zip<K, V>, ghost t0: Tree<K, V>, ghost h0: int)
      returns (ghost zip: Zip<K, V>, ghost t: Tree<K, V>, ghost h: int)
      requires Short(x, zip0, t0, h0) && zip0.ZR? && p == mem[x].parent && zip0.other.T? && y == zip0.other.node
      requires zip0.other.color == Black && ColorOf(zip0.other.left) == Red
      modifies this`mem, this`root
      ensures y in mem && Settled(y, zip, t, mem[y].parent, h)
      ensures Items(zip, t) == Items(zip0, t0) && Footprint(zip, t) == Footprint(zip0, t0)
        && OnlyIn(Footprint(zip0, t0), old(mem), mem)
    {
      FarNephewRightHeights(zip0, t0, h0);
      hide Focus, Items, Footprint, RedBlack, ZipRedBlack;
      GoUp(mem, root, nil, zip0, t0, x, p);
      ghost var pt := Plug(zip0, t0);
      zip := zip0.up;
      pt := PaintFarRight(p, y, zip, pt);
      RotateRight(p, zip, pt);
      t, h := RotatedRight(pt), if zip0.color == Black then h0 + 2 else h0 + 1;
      assert t == FarNephewRightResult(zip0, t0);
    }

    /** Case 2: both nephews are black; the sibling turns red and the parent is
        one black short instead, unless it was red and can turn black. */
    method BlackNephewsRight(x: Ptr, p: Ptr, y: Ptr, ghost zip0: Zip<K, V>, ghost t0: Tree<K, V>, ghost h0: int)
      returns (done: bool, ghost zip: Zip<K, V>, ghost t: Tree<K, V>, ghost h: int)
      requires Short(x, zip0, t0, h0) && zip0.ZR? && p == mem[x].parent && zip0.other.T? && y == zip0.other.node
      requires zip0.other.color == Black && ColorOf(zip0.other.right) == Black && ColorOf(zip0.other.left) == Black
      modifies this`mem
      ensures done ==> p in mem && Settled(p, zip, t, mem[p].parent, h)
      ensures !done ==> Short(p, zip, t, h) && zip == zip0.up
      ensures done <==> zip0.color == Red
      ensures Items(zip, t) == Items(zip0, t0) && Footprint(zip, t) == Footprint(zip0, t0)
        && OnlyIn(Footprint(zip0, t0), old(mem), mem)
    {
      hide Focus, Items, Footprint;
      Look(mem, root, nil, zip0, t0, x, p);
      GoUp(mem, root, nil, zip0, t0, x, p);
      t, zip, h := Plug(zip0, t0), zip0.up, h0 + 1;
      PaintLeft(mem, root, nil, zip, t, p, mem[p].parent, Red);
      mem := mem[y := mem[y].(color := Red)];
      t := t.(left := t.left.(color := Red));
      assert RedBlack(t.left, h0);
      Look(mem, root, nil, zip, t, p, mem[p].parent);
      done := mem[p].color == Red;
      if done {
        BlackFits(zip, h);
        Paint(mem, root, nil, zip, t, p, mem[p].parent, Black);
        mem := mem[p := mem[p].(color := Black)];
        t := t.(color := Black);
      }
    }

    /** One round of the deletion fix-up when `x` is a right child. */
    method DeleteStepRight(x0: Ptr, ghost zip0: Zip<K, V>, ghost t0: Tree<K, V>, ghost h0: int)
      returns (x: Ptr, done: bool, ghost zip: Zip<K, V>, ghost t: Tree<K, V>, ghost h: int)
      requires Short(x0, zip0, t0, h0) && zip0.ZR?
      modifies this`mem, this`root
      ensures done ==> x in mem && Settled(x, zip, t, mem[x].parent, h)
      ensures !done ==> Short(x, zip, t, h) && Depth(zip) < Depth(zip0)
      ensures Items(zip, t) == Items(zip0, t0) && Footprint(zip, t) == Footprint(zip0, t0)
        && OnlyIn(Footprint(zip0, t0), old(mem), mem)
    {
      hide Focus, Items, Footprint;
      x, zip, t, h := x0, zip0, t0, h0;
      HeightNonNegative(t, h);
      var p := mem[x].parent;
      LookAcross(mem, root, nil, zip, t, x, p);
      var y := mem[p].left;
      if mem[y].color == Red {
        zip := RedSiblingRight(x, p, y, zip, t, h);
        LookAcross(mem, root, nil, zip, t, x, p);
        y := mem[p].left;
      }
      if mem[mem[y].right].color == Black && mem[mem[y].left].color == Black {
        done, zip, t, h := BlackNephewsRight(x, p, y, zip, t, h);
        x := p;
        return;
      }
      if mem[mem[y].right].color == Red && mem[mem[y].left].color == Black {
        zip := RedNephewRight(x, p, y, zip, t, h);
        LookAcross(mem, root, nil, zip, t, x, p);
        y := mem[p].left;
      }
      zip, t, h := FarNephewRight(x, p, y, zip, t, h);
      x, done := y, true;
    }

    /** Nothing for the fix-up to do at `x`: it is the root, or it is the sentinel and
        knows no parent. */
    ghost predicate Idle(x: Ptr)
      reads this
    {
      && x == nil && nil in mem && mem[nil].IsNil() && mem[nil].color == Black
      && root in mem && mem[root].color == Black && (x == root || Blank())
    }

    /** Restore the invariants of a tree in which `x` is one black short. */
    method DeleteFixup(x0: Ptr, ghost zip0: Zip<K, V>, ghost t0: Tree<K, V>, ghost h0: int, ghost lost: bool)
        returns (ghost t': Tree<K, V>)
      requires if lost then Idle(x0) else Short(x0, zip0, t0, h0)
      modifies this`mem, this`root
      ensures lost ==> mem == old(mem) && root == old(root)
      ensures !lost ==> Focus(mem, root, nil, Top, t', root, nil) && IsRedBlack(t')
      ensures !lost ==> Inorder(t') == Items(zip0, t0) && Nodes(t') == Footprint(zip0, t0)
      ensures !lost ==> OnlyIn(Footprint(zip0, t0), old(mem), mem)
    {
      hide Focus, Items, Footprint;
      var x, done := x0, false;
      ghost var zip, t, h := zip0, t0, h0;
      if !lost {
        AtRoot(mem, root, nil, zip, t, x, mem[x].parent);
      }
      while x != root
        invariant !done
        invariant lost ==> x == x0 && Idle(x) && mem == old(mem) && root == old(root)
        invariant !lost ==> Short(x, zip, t, h) && (x == root <==> zip.Top?)
        invariant !lost ==> Items(zip, t) == Items(zip0, t0) && Footprint(zip, t) == Footprint(zip0, t0)
        invariant !lost ==> OnlyIn(Footprint(zip0, t0), old(mem), mem)
        decreases Depth(zip)
      {
        if !lost {
          HeightNonNegative(t, h);
          WhichSide(mem, root, nil, zip, t, x, mem[x].parent);
        }
        if mem[mem[x].parent].left == x {
          x, done, zip, t, h := DeleteStepLeft(x, zip, t, h, lost);
        } else {
          x, done, zip, t, h := DeleteStepRight(x, zip, t, h);
        }
        if done {
          break;
        }
        AtRoot(mem, root, nil, zip, t, x, mem[x].parent);
      }
      t' := t;
      if !lost {
        assert Settled(x, zip, t, mem[x].parent, h);
        FillRedBlack(zip, t, h);
        t' := Rebuild(zip, t, x, mem[x].parent);
        Look(mem, root, nil, Top, t', root, nil);
      }
      assert mem == mem[root := mem[root].(color := Black)];
      mem := mem[root := mem[root].(color := Black)];
    }

    // ---------- deletion ----------

    /** The link that led to `u` leads to `v`. */
    method Relink(u: Ptr, v: Ptr, ghost z: Zip<K, V>)
      requires u in mem && nil in mem && mem[nil].IsNil() && u != nil
      requires IsZip(mem, z, u, mem[u].parent, root, nil) && ZipSeparate(z) && u !in ZipNodes(z) && nil !in ZipNodes(z)
      modifies this`mem, this`root
      ensures mem.Keys == old(mem.Keys) && IsZip(mem, z, v, mem[u].parent, root, nil)
      ensures forall p :: p in mem && p !in ZipNodes(z) ==> mem[p] == old(mem)[p]
    {
      ghost var m := mem;
      var par := mem[u].parent;
      if mem[par].IsNil() {
        root := v;
      } else if u == mem[par].left {
        mem := mem[par := mem[par].(left := v)];
      } else {
        mem := mem[par := mem[par].(right := v)];
      }
      if !z.Top? {
        FrameTree(m, mem, z.other, if z.ZL? then m[z.node].right else m[z.node].left, z.node, nil);
        FrameZip(m, mem, z.up, z.node, m[z.node].parent, root, nil);
      }
    }

    /** Put the subtree at `v`, which may be the sentinel, where `u` is. */
    method Transplant(u: Ptr, v: Ptr, ghost z: Zip<K, V>, ghost s: Tree<K, V>, ghost below: Ptr)
      requires u in mem && v in mem && nil in mem && mem[nil].IsNil() && u != nil
      requires IsZip(mem, z, u, mem[u].parent, root, nil) && ZipSeparate(z) && u !in ZipNodes(z) && nil !in ZipNodes(z)
      requires IsTree(mem, s, v, below, nil) && Separate(s) && Nodes(s) !! ZipNodes(z) && u !in Nodes(s)
        && nil !in Nodes(s)
      modifies this`mem, this`root
      ensures mem.Keys == old(mem.Keys) && mem[u] == old(mem[u].(parent := nil)) && mem[nil] == old(mem[nil])
      ensures IsZip(mem, z, v, old(mem[u].parent), root, nil) && IsTree(mem, s, v, old(mem[u].parent), nil)
      ensures forall p :: p in mem && p !in ZipNodes(z) && p != u && p != v ==> mem[p] == old(mem)[p]
    {
      hide IsZip, IsTree, ZipSeparate, Separate, ZipNodes, Nodes;
      ghost var m := mem;
      var par := mem[u].parent;
      Relink(u, v, z);
      MovedRoot(m, mem, s, v, below, par);
      ghost var m1 := mem;
      if !mem[v].IsNil() {
        mem := mem[v := mem[v].(parent := mem[u].parent)];
      }
      mem := mem[u := mem[u].(parent := nil)];
      FrameRoot(m1, mem, s, v, below, par, nil);
      FrameZip(m1, mem, z, v, par, root, nil);
    }

    /** The subtree at `v` is still there, and `v` is the sentinel only if it is empty. */
    lemma MovedRoot(m: Memory<K, V>, m': Memory<K, V>, s: Tree<K, V>, v: Ptr, below: Ptr, par: Ptr)
      requires IsTree(m, s, v, below, nil) && m'.Keys == m.Keys && v in m && nil in m && m[nil].IsNil()
      requires forall n :: n in m && (n in Nodes(s) || n == nil) ==> m'[n] == m[n]
      ensures IsTree(m', s, v, below, nil) && (m'[v].IsNil() <==> s.Leaf?) && (s.T? ==> v in Nodes(s))
        && (s.Leaf? ==> v == nil)
    {
      FrameTree(m, m', s, v, below, nil);
    }

    lemma LookBelow(z: Zip<K, V>, t: Tree<K, V>, p: Ptr, par: Ptr)
      requires t.T? && Focus(mem, root, nil, z, t, p, par)
      ensures p in mem && mem[p].left in mem && mem[p].right in mem
      ensures (mem[mem[p].left].IsNil() <==> t.left.Leaf?) && (mem[mem[p].right].IsNil() <==> t.right.Leaf?)
    {
      hide Focus;
      GoLeft(mem, root, nil, z, t, p, par);
      Look(mem, root, nil, ZL(z, t.color, t.node, t.entry, t.right), t.left, mem[p].left, p);
      GoRight(mem, root, nil, z, t, p, par);
      Look(mem, root, nil, ZR(z, t.color, t.node, t.entry, t.left), t.right, mem[p].right, p);
    }

    /** The leftmost node below `x`, and the way to it. */
    method TreeMinimum(x: Ptr, ghost base: Zip<K, V>, ghost r: Tree<K, V>, ghost par0: Ptr)
      returns (y: Ptr, ghost w: Zip<K, V>, ghost t: Tree<K, V>)
      requires r.T? && Focus(mem, root, nil, base, r, x, par0)
      ensures y in mem && t == Least(r) && t.T? && t.left.Leaf? && Leftward(w) && r == Fill(w, t)
        && (w.Top? <==> r.left.Leaf?)
      ensures Focus(mem, root, nil, Over(w, base), t, y, mem[y].parent)
      ensures Items(Over(w, base), t) == Items(base, r) && Footprint(Over(w, base), t) == Footprint(base, r)
    {
      hide Focus, Items, Footprint;
      y, w, t := x, Top, r;
      Look(mem, root, nil, base, r, x, par0);
      LookBelow(base, r, x, par0);
      while !mem[mem[y].left].IsNil()
        invariant y in mem && mem[y].left in mem && t.T? && (mem[mem[y].left].IsNil() <==> t.left.Leaf?)
        invariant Least(t) == Least(r) && Leftward(w) && r == Fill(w, t) && (w.Top? ==> t == r)
          && (!w.Top? ==> r.left.T?)
        invariant Focus(mem, root, nil, Over(w, base), t, y, mem[y].parent)
        invariant Items(Over(w, base), t) == Items(base, r) && Footprint(Over(w, base), t) == Footprint(base, r)
        decreases t
      {
        GoLeft(mem, root, nil, Over(w, base), t, y, mem[y].parent);
        Look(mem, root, nil, ZL(Over(w, base), t.color, t.node, t.entry, t.right), t.left, mem[y].left, y);
        w, t, y := ZL(w, t.color, t.node, t.entry, t.right), t.left, mem[y].left;
        LookBelow(Over(w, base), t, y, mem[y].parent);
      }
    }

    /** The subtrees that a deletion moves around lie apart from each other, from the
        nodes above, from `z` and from the sentinel. */
    ghost predicate Loose(z: Ptr, y: Ptr, zip: Zip<K, V>, l: Tree<K, V>, r: Tree<K, V>, below: Ptr)
      reads this
    {
      && z in mem && y in mem && z != nil && nil in mem && mem[nil].IsNil() && mem[nil].color == Black
      && IsZip(mem, zip, z, mem[z].parent, root, nil) && ZipSeparate(zip) && z !in ZipNodes(zip)
        && nil !in ZipNodes(zip)
      && l.T? && IsTree(mem, l, mem[z].left, z, nil) && Separate(l) && z !in Nodes(l) && nil !in Nodes(l)
      && r.T? && r.left.Leaf? && IsTree(mem, r, y, below, nil) && Separate(r) && z !in Nodes(r) && nil !in Nodes(r)
      && Nodes(l) !! ZipNodes(zip) && Nodes(r) !! ZipNodes(zip) && Nodes(l) !! Nodes(r)
    }

    /** Node `y`, with what is on its right, takes the place, the left child and the
        colour of `z`. */
    method TakeOver(z: Ptr, y: Ptr, ghost zip: Zip<K, V>, ghost l: Tree<K, V>, ghost r: Tree<K, V>, ghost below: Ptr)
      requires Loose(z, y, zip, l, r, below)
      modifies this`mem, this`root
      ensures mem.Keys == old(mem.Keys) && mem[nil] == old(mem[nil]) && mem[z] == old(mem[z].(parent := nil))
      ensures Focus(mem, root, nil, zip, T(old(mem[z].color), l, y, r.entry, r.right), y, old(mem[z].parent))
      ensures OnlyIn(ZipNodes(zip) + Nodes(l) + Nodes(r) + {z}, old(mem), mem)
    {
      ghost var m := mem;
      Transplant(z, y, zip, r, below);
      FrameTree(m, mem, l, m[z].left, z, nil);
      HangLeft(z, y, zip, l, r, old(mem[z].parent));
    }

    method HangLeft(z: Ptr, y: Ptr, ghost zip: Zip<K, V>, ghost l: Tree<K, V>, ghost r: Tree<K, V>, ghost par: Ptr)
      requires z in mem && y in mem && z != nil && nil in mem && mem[nil].IsNil() && mem[nil].color == Black
      requires IsZip(mem, zip, y, par, root, nil) && ZipSeparate(zip) && z !in ZipNodes(zip) && nil !in ZipNodes(zip)
      requires l.T? && IsTree(mem, l, mem[z].left, z, nil) && Separate(l) && z !in Nodes(l) && nil !in Nodes(l)
      requires r.T? && r.left.Leaf? && IsTree(mem, r, y, par, nil) && Separate(r) && z !in Nodes(r) && nil !in Nodes(r)
      requires Nodes(l) !! ZipNodes(zip) && Nodes(r) !! ZipNodes(zip) && Nodes(l) !! Nodes(r)
      modifies this`mem
      ensures mem.Keys == old(mem.Keys) && mem[nil] == old(mem[nil])
      ensures Focus(mem, root, nil, zip, T(old(mem[z].color), l, y, r.entry, r.right), y, par)
      ensures OnlyIn(Nodes(l) + Nodes(r), old(mem), mem)
    {
      ghost var m := mem;
      mem := mem[y := mem[y].(left := mem[z].left)];
      var c := mem[y].left;
      mem := mem[c := mem[c].(parent := y)];
      mem := mem[y := mem[y].(color := mem[z].color)];
      FrameRoot(m, mem, l, c, z, y, nil);
      FrameTree(m, mem, r.right, m[y].right, y, nil);
      FrameZip(m, mem, zip, y, par, root, nil);
    }

    /** After a black node has gone, `x` is where it was. */
    method Recolor(x: Ptr, color: Color, ghost zip: Zip<K, V>, ghost s: Tree<K, V>, ghost par: Ptr, ghost h: int)
        returns (ghost t': Tree<K, V>)
      requires Focus(mem, root, nil, zip, s, x, par) && ZipRedBlack(zip, color, h)
      requires if color == Red then RedBlack(s, h)
        && ColorOf(s) == Black else RedBlack(s, h - 1) && (s.Leaf? || s.color == Red)
      requires color == Red || s.T? || zip.Top? || mem[nil].parent == par || Blank()
      modifies this`mem, this`root
      ensures Focus(mem, root, nil, Top, t', root, nil) && Inorder(t') == Items(zip, s)
        && Nodes(t') == Footprint(zip, s)
      ensures IsRedBlack(t') <==> color == Red || s.T? || zip.Top? || old(mem[nil].parent) == par
      ensures OnlyIn(Footprint(zip, s), old(mem), mem)
    {
      hide Focus, Items, Footprint;
      Look(mem, root, nil, zip, s, x, par);
      if color == Black {
        if mem[x].color == Black {
          ghost var lost := zip.Top? || mem[nil].parent != par;
          if lost {
            LostIdle(zip, par, h);
          }
          t' := DeleteFixup(x, zip, s, h - 1, lost);
          if lost {
            t' := Rebuild(zip, s, x, par);
            if zip.Top? {
              FillRedBlack(zip, s, 0);
            } else {
              TooLow(zip, s, h - 1);
            }
          }
          return;
        }
        Paint(mem, root, nil, zip, s, x, par, Black);
        mem := mem[x := mem[x].(color := Black)];
        FillRedBlack(zip, s.(color := Black), h);
        t' := Rebuild(zip, s.(color := Black), x, par);
        return;
      }
      BlackFits(zip, h);
      FillRedBlack(zip, s, h);
      t' := Rebuild(zip, s, x, par);
    }

    lemma LostIdle(zip: Zip<K, V>, par: Ptr, h: int)
      requires Focus(mem, root, nil, zip, Leaf, nil, par) && ZipRedBlack(zip, Black, h) && (zip.Top? || Blank())
      ensures Idle(nil)
    {
      if !zip.Top? {
        RootBlack(mem, zip, nil, par, root, nil, Black, h);
      }
    }

    /** Where a deletion has got to when the node has gone and `x` has moved up: what
        `Recolor` asks for. */
    ghost predicate Gap(x: Ptr, color: Color, zip: Zip<K, V>, s: Tree<K, V>, par: Ptr, h: int)
      reads this
    {
      && Focus(mem, root, nil, zip, s, x, par) && ZipRedBlack(zip, color, h)
      && (if color == Red then RedBlack(s, h)
        && ColorOf(s) == Black else RedBlack(s, h - 1) && (s.Leaf? || s.color == Red))
    }

    /** Take out a node with at most one child; that child moves up. */
    method Unhook(z: Ptr, x: Ptr, ghost zip: Zip<K, V>, ghost t: Tree<K, V>) returns (ghost s: Tree<K, V>)
      requires z in mem && t.T? && Focus(mem, root, nil, zip, t, z, mem[z].parent) && (t.left.Leaf? || t.right.Leaf?)
      requires x == if t.left.Leaf? then mem[z].right else mem[z].left
      modifies this`mem, this`root
      ensures s == (if t.left.Leaf? then t.right else t.left) && Focus(mem, root, nil, zip, s, x, old(mem[z].parent))
      ensures mem.Keys == old(mem.Keys) && mem[nil] == old(mem[nil]) && mem[z] == old(mem[z].(parent := nil))
      ensures Footprint(zip, s) == Footprint(zip, t) - {z} && OnlyIn(Footprint(zip, t), old(mem), mem)
    {
      s := if t.left.Leaf? then t.right else t.left;
      LookBelow(zip, t, z, mem[z].parent);
      Transplant(z, x, zip, s, z);
    }

    /** ... and the colours are those that `Recolor` asks for. */
    lemma OneGap(x: Ptr, zip: Zip<K, V>, t: Tree<K, V>, s: Tree<K, V>, par: Ptr, h: int)
      requires t.T? && (t.left.Leaf? || t.right.Leaf?) && s == (if t.left.Leaf? then t.right else t.left)
      requires RedBlack(t, h) && ZipRedBlack(zip, t.color, h) && Focus(mem, root, nil, zip, s, x, par)
      ensures Gap(x, t.color, zip, s, par, h)
    {
      hide Focus;
      OnlyChild(t, h);
    }

    lemma OnlyChild(t: Tree<K, V>, h: int)
      requires t.T? && (t.left.Leaf? || t.right.Leaf?) && RedBlack(t, h)
      ensures var s := if t.left.Leaf? then t.right else t.left;
        if t.color == Red then RedBlack(s, h)
          && ColorOf(s) == Black else RedBlack(s, h - 1) && (s.Leaf? || s.color == Red)
    {
      var s, k := if t.left.Leaf? then t.right else t.left, if t.color == Black then h - 1 else h;
      assert RedBlack(s, k) && k == 0;
      if s.T? && s.color == Black {
        HeightNonNegative(s.left, k - 1);
      }
    }

    /** Node `y`, which is out of the tree, takes over the right child of `z`. */
    method HangRight(z: Ptr, y: Ptr, ghost zip: Zip<K, V>, ghost u: Tree<K, V>, ghost e: Entry<K, V>)
      requires z in mem && y in mem && u.T? && u.left.T? && u.right.T?
        && Focus(mem, root, nil, zip, u, z, mem[z].parent)
      requires y !in Footprint(zip, u) && y != nil && mem[y].left == nil && mem[y].value == Some(e)
        && mem[y].parent == nil
      modifies this`mem
      ensures mem.Keys == old(mem.Keys) && mem[nil] == old(mem[nil]) && mem[z] == old(mem[z])
      ensures Loose(z, y, zip, u.left, T(mem[y].color, Leaf, y, e, u.right), nil) && mem[y].color == old(mem[y].color)
      ensures OnlyIn(Nodes(u) + {y}, old(mem), mem)
    {
      ghost var m := mem;
      LookBelow(zip, u, z, mem[z].parent);
      mem := mem[y := mem[y].(right := mem[z].right)];
      var c := mem[y].right;
      mem := mem[c := mem[c].(parent := y)];
      FrameRoot(m, mem, u.right, c, z, y, nil);
      FrameTree(m, mem, u.left, m[z].left, z, nil);
      FrameZip(m, mem, zip, z, m[z].parent, root, nil);
    }

    /** From the place the successor has left, back up to `z`. */
    lemma BackAtZ(z: Ptr, x: Ptr, zip: Zip<K, V>, t: Tree<K, V>, w: Zip<K, V>, s: Tree<K, V>, p: Ptr)
      requires t.T? && t.node == z && !w.Top?
        && Focus(mem, root, nil, Over(w, ZR(zip, t.color, z, t.entry, t.left)), s, x, p)
      ensures var u := T(t.color, t.left, z, t.entry, Fill(w, s));
        && z in mem && Focus(mem, root, nil, zip, u, z, mem[z].parent) && u.right.T?
        && Footprint(zip, u) == Footprint(Over(w, ZR(zip, t.color, z, t.entry, t.left)), s)
    {
      hide Focus, Footprint, Items;
      ghost var base := ZR(zip, t.color, z, t.entry, t.left);
      var q, above := Climb(mem, root, nil, w, base, s, x, p);
      GoUp(mem, root, nil, base, Fill(w, s), q, above);
      FillNonEmpty(w, s);
    }

    /** The successor `y` leaves its place below the right child of `z`, and takes over
        that child. */
    method CutOut(z: Ptr, y: Ptr, x: Ptr, ghost zip: Zip<K, V>, ghost t: Tree<K, V>, ghost w: Zip<K, V>,
        ghost ty: Tree<K, V>)
      requires z in mem && y in mem && t.T? && t.node == z && t.left.T? && !w.Top? && ty.T? && ty.left.Leaf?
        && x == mem[y].right
      requires Focus(mem, root, nil, Over(w, ZR(zip, t.color, z, t.entry, t.left)), ty, y, mem[y].parent)
      modifies this`mem, this`root
      ensures mem.Keys == old(mem.Keys) && mem[nil] == old(mem[nil]) && mem[z].color == t.color
        && mem[z].value == Some(t.entry)
      ensures mem[z].parent == if zip.Top? then nil else zip.node
      ensures Loose(z, y, zip, t.left, ty.(right := Fill(w, ty.right)), nil)
      ensures OnlyIn(Footprint(Over(w, ZR(zip, t.color, z, t.entry, t.left)), ty), old(mem), mem)
    {
      hide Focus, Footprint, Loose;
      ghost var base, u := ZR(zip, t.color, z, t.entry, t.left), T(t.color, t.left, z, t.entry, Fill(w, ty.right));
      Look(mem, root, nil, Over(w, base), ty, y, mem[y].parent);
      ghost var p := mem[y].parent;
      ghost var s := Unhook(y, x, Over(w, base), ty);
      BackAtZ(z, x, zip, t, w, s, p);
      Look(mem, root, nil, zip, u, z, mem[z].parent);
      InFootprint(zip, u);
      HangRight(z, y, zip, u, ty.entry);
    }

    lemma LooseHere(z: Ptr, y: Ptr, zip: Zip<K, V>, t: Tree<K, V>)
      requires z in mem && t.T? && t.left.T? && t.right.T? && t.right.left.Leaf? && y == t.right.node
      requires Focus(mem, root, nil, zip, t, z, mem[z].parent)
      ensures Loose(z, y, zip, t.left, t.right, z) && mem[z].color == t.color
      ensures mem[z].parent == if zip.Top? then nil else zip.node
    {
      assert IsTree(mem, t.right, mem[z].right, z, nil);
    }

    /** The right child `y` of `z` has no left child: its right child, which may be the
        sentinel, is told its parent. */
    method TellParent(z: Ptr, y: Ptr, x: Ptr, ghost zip: Zip<K, V>, ghost t: Tree<K, V>)
      requires z in mem && y in mem && t.T? && t.left.T? && t.right.T? && t.right.left.Leaf? && y == t.right.node
        && x == mem[y].right
      requires Focus(mem, root, nil, zip, t, z, mem[z].parent)
      modifies this`mem
      ensures mem.Keys == old(mem.Keys) && OnlyIn({nil}, old(mem), mem)
        && (t.right.right.Leaf? ==> mem[nil].parent == y)
      ensures mem[z].color == t.color && mem[z].parent == (if zip.Top? then nil else zip.node)
        && Loose(z, y, zip, t.left, t.right, z)
      ensures mem[z].value == Some(t.entry) && (t.right.right.T? ==> mem == old(mem))
    {
      hide Focus, Loose;
      Look(mem, root, nil, zip, t, z, mem[z].parent);
      GoRight(mem, root, nil, zip, t, z, mem[z].parent);
      ghost var base := ZR(zip, t.color, z, t.entry, t.left);
      Look(mem, root, nil, base, t.right, y, z);
      GoRight(mem, root, nil, base, t.right, y, z);
      Look(mem, root, nil, ZR(base, t.right.color, y, t.right.entry, t.right.left), t.right.right, x, y);
      WriteSentinel(mem, root, nil, zip, t, z, mem[z].parent, y);
      ghost var m := mem;
      mem := mem[x := mem[x].(parent := y)];
      assert t.right.right.T? ==> mem == m;
      LooseHere(z, y, zip, t);
    }

    /** The successor `y` of `z` moves to where `z` is. */
    method Promote(z: Ptr, y: Ptr, x: Ptr, ghost zip: Zip<K, V>, ghost t: Tree<K, V>, ghost w: Zip<K, V>,
        ghost ty: Tree<K, V>)
      requires z in mem && y in mem && t.T? && t.node == z && t.left.T? && t.right.T? && ty.T? && ty.left.Leaf?
        && x == mem[y].right
      requires Focus(mem, root, nil, zip, t, z, mem[z].parent) && t.right == Fill(w, ty) && (w.Top? ==> ty == t.right)
      requires Focus(mem, root, nil, Over(w, ZR(zip, t.color, z, t.entry, t.left)), ty, y, mem[y].parent)
      requires Footprint(Over(w, ZR(zip, t.color, z, t.entry, t.left)), ty) == Footprint(zip, t)
      modifies this`mem, this`root
      ensures mem.Keys == old(mem.Keys) && OnlyIn(Footprint(zip, t) + {nil}, old(mem), mem)
      ensures if w.Top? && ty.right.Leaf? then mem[nil].parent == y else mem[nil] == old(mem[nil])
      ensures mem[z].value == Some(t.entry)
      ensures Focus(mem, root, nil, zip, T(t.color, t.left, y, ty.entry, Fill(w, ty.right)), y,
        if zip.Top? then nil else zip.node)
    {
      hide Focus, Loose, Footprint;
      ghost var base := ZR(zip, t.color, z, t.entry, t.left);
      Look(mem, root, nil, Over(w, base), ty, y, mem[y].parent);
      SuccessorParent(mem, root, nil, w, base, ty, y, mem[y].parent);
      ghost var r := ty.(right := Fill(w, ty.right));
      PromotedFootprint(zip, t, w, ty);
      if mem[y].parent == z {
        TellParent(z, y, x, zip, t);
        TakeOver(z, y, zip, t.left, r, z);
      } else {
        CutOut(z, y, x, zip, t, w, ty);
        TakeOver(z, y, zip, t.left, r, nil);
      }
    }

    lemma PromotedFootprint(zip: Zip<K, V>, t: Tree<K, V>, w: Zip<K, V>, ty: Tree<K, V>)
      requires t.T? && ty.T? && t.right == Fill(w, ty)
      ensures ZipNodes(zip) + Nodes(t.left) + Nodes(ty.(right := Fill(w, ty.right))) + {t.node} <= Footprint(zip, t)
    {
      FillNodes(w, ty);
      FillNodes(w, ty.right);
    }

    /** Take out a node with two children: its successor takes its place, and what was
        below the successor moves up. */
    method SpliceTwo(z: Ptr, ghost zip: Zip<K, V>, ghost t: Tree<K, V>, ghost h: int)
      returns (x: Ptr, color: Color, ghost gap: Zip<K, V>, ghost s: Tree<K, V>, ghost par: Ptr, ghost k: int)
      requires z in mem && t.T? && t.left.T? && t.right.T? && Focus(mem, root, nil, zip, t, z, mem[z].parent)
      requires RedBlack(t, h) && ZipRedBlack(zip, t.color, h)
      modifies this`mem, this`root
      ensures Gap(x, color, gap, s, par, k) && !gap.Top? && color == Least(t.right).color && s == Least(t.right).right
      ensures Items(gap, s) == (Before(zip) + Inorder(t.left)) + (Inorder(t.right) + After(zip))
      ensures Footprint(gap, s) == Footprint(zip, t) - {z} && OnlyIn(Footprint(zip, t) + {nil}, old(mem), mem)
        && nil in mem
      ensures z in mem && mem[z].value == Some(t.entry)
      ensures t.right.left.Leaf? && s.Leaf? ==> mem[nil].parent == par
      ensures !t.right.left.Leaf? ==>
        mem[nil] == old(mem[nil]) && Least(t.right).node in old(mem) && par == old(mem)[Least(t.right).node].parent
    {
      hide Focus, Items, Footprint, RedBlack, ZipRedBlack, Fill, Over, Inorder, Before, After;
      Look(mem, root, nil, zip, t, z, mem[z].parent);
      GoRight(mem, root, nil, zip, t, z, mem[z].parent);
      ghost var base := ZR(zip, t.color, z, t.entry, t.left);
      var y;
      ghost var w, ty;
      y, w, ty := TreeMinimum(mem[z].right, base, t.right, z);
      Look(mem, root, nil, Over(w, base), ty, y, mem[y].parent);
      SuccessorParent(mem, root, nil, w, base, ty, y, mem[y].parent);
      color, x := mem[y].color, mem[y].right;
      par := if w.Top? then y else mem[y].parent;
      Apartness(zip, t, z);
      OverTop(w, base, ty);
      OverTop(w, ZR(zip, t.color, y, ty.entry, t.left), ty);
      Promote(z, y, x, zip, t, w, ty);
      ghost var base', u := ZR(zip, t.color, y, ty.entry, t.left), T(t.color, t.left, y, ty.entry, Fill(w, ty.right));
      GoRight(mem, root, nil, zip, u, y, if zip.Top? then nil else zip.node);
      Dive(mem, root, nil, w, base', ty.right, mem[y].right, y);
      gap, s := Over(w, base'), ty.right;
      k := GapHeights(zip, t, z, h, w, ty, y);
      ItemsReplaced(zip, t, w, ty);
      FootprintReplaced(zip, t, w, ty);
    }

    lemma Apartness(zip: Zip<K, V>, t: Tree<K, V>, z: Ptr)
      requires z in mem && t.T? && Focus(mem, root, nil, zip, t, z, mem[z].parent)
      ensures Separate(t) && t.node == z && t.node !in ZipNodes(zip)
    {
    }

    lemma OverTop(w: Zip<K, V>, base: Zip<K, V>, ty: Tree<K, V>)
      requires base.ZR?
      ensures !Over(w, base).Top? && (w.Top? ==> Fill(w, ty) == ty)
    {
    }

    lemma GapHeights(zip: Zip<K, V>, t: Tree<K, V>, z: Ptr, h: int, w: Zip<K, V>, ty: Tree<K, V>, y: Ptr)
        returns (k: int)
      requires t.T? && RedBlack(t, h) && ZipRedBlack(zip, t.color, h) && t.right == Fill(w, ty) && ty.T?
        && ty.left.Leaf?
      ensures ZipRedBlack(Over(w, ZR(zip, t.color, y, ty.entry, t.left)), ty.color, k)
      ensures if ty.color == Red then RedBlack(ty.right, k) && ColorOf(ty.right) == Black
              else RedBlack(ty.right, k - 1) && (ty.right.Leaf? || ty.right.color == Red)
    {
      k := DiveHeights(w, ZR(zip, t.color, z, t.entry, t.left), ty, if t.color == Black then h - 1 else h);
      SameColors(w, zip, t.color, z, t.entry, y, ty.entry, t.left, ty.color, k);
      OnlyChild(ty, k);
    }

    /** Remove node `z` from the tree.  The map loses its key; the tree stays a red-black
        tree exactly when the fix-up finds its way. */
    method Delete(z: Ptr, ghost zip: Zip<K, V>, ghost t: Tree<K, V>, ghost h: int)
      requires Valid() && z in mem && t.T? && Focus(mem, root, nil, zip, t, z, mem[z].parent)
      requires Items(zip, t) == Inorder(tree) && Footprint(zip, t) == Nodes(tree) && RedBlack(t, h)
        && ZipRedBlack(zip, t.color, h)
      requires FindsWay(mem, nil, zip, t) || Blank()
      modifies this`mem, this`root, this`tree
      ensures Searchable() && Contents() == old(Contents()) - {t.entry.key}
      ensures Nodes(tree) == old(Nodes(tree)) - {z} && OnlyIn(old(Nodes(tree)) + {nil}, old(mem), mem)
      ensures z in mem && mem[z].value == old(mem[z].value)
      ensures Valid() <==> FindsWay(old(mem), nil, zip, t)
    {
      hide Focus, Items, Footprint, RedBlack, ZipRedBlack, Inorder, Before, After, ContentsOf, RBTreeShape.Sorted;
      Look(mem, root, nil, zip, t, z, mem[z].parent);
      LookBelow(zip, t, z, mem[z].parent);
      ItemsAround(zip, t);
      RemoveItem(cmp, Before(zip) + Inorder(t.left), Item(t.node, t.entry), Inorder(t.right) + After(zip));
      var x, color := z, mem[z].color;
      ghost var gap, s, par, k := zip, t, mem[z].parent, h;
      if mem[mem[z].left].IsNil() {
        x := mem[z].right;
        s := Unhook(z, mem[z].right, zip, t);
        OneGap(x, zip, t, s, par, h);
        ItemsWithout(zip, t);
      } else if mem[mem[z].right].IsNil() {
        x := mem[z].left;
        s := Unhook(z, mem[z].left, zip, t);
        OneGap(x, zip, t, s, par, h);
        ItemsWithout(zip, t);
      } else {
        x, color, gap, s, par, k := SpliceTwo(z, zip, t, h);
      }
      tree := Recolor(x, color, gap, s, par, k);
    }

    /** Remove `key`, free its node and return its value.  The tree stays a red-black tree
        exactly when the fix-up finds its way from where the key is. */
    method Remove(key: K) returns (r: Option<V>)
      requires Valid() && (Blank() || Rebalances(key))
      modifies this`mem, this`root, this`tree
      ensures Searchable() && Contents() == old(Contents()) - {key}
      ensures r == if key in old(Contents()) then Some(old(Contents())[key]) else None
      ensures r.None? ==> mem == old(mem) && tree == old(tree)
      ensures mem.Keys - Nodes(tree) == old(mem.Keys - Nodes(tree))
      ensures Valid() <==> old(Rebalances(key))
    {
      hide Focus, Items, Footprint, RedBlack, ZipRedBlack, Inorder, ContentsOf, RBTreeShape.Sorted, FindsWay, Locate;
      var x, zip, t, h := Find(key);
      if x.None? {
        return None;
      }
      var n := x.value;
      Look(mem, root, nil, zip, t, n, mem[n].parent);
      Delete(n, zip, t, h);
      var v := mem[n].value.value.value;
      FreeOutside(mem, root, nil, tree, n);
      mem := mem - {n};
      return Some(v);
    }

    /** Removing `key` keeps the balance. */
    ghost predicate Rebalances(key: K)
      reads this
    {
      var s := Locate(cmp, Top, tree, key);
      key in Contents() && s.tree.T? ==> FindsWay(mem, nil, s.zip, s.tree)
    }
  }
}
