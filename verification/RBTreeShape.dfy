/** The node type of the red-black tree and the mathematical trees that its
    linked nodes are proved to represent.

    A `Tree` is what hangs below a pointer; a `Zip` is everything else: the tree
    with a hole in it, read from the hole up to the root.  Both name the actual
    node objects, so "the same in-order sequence" is a statement about the
    objects and not only about keys. */
module RBTreeShape {
  import opened Options

  datatype Ordering = Less | Equal | Greater

  datatype Color = Black | Red

  datatype Entry<+K, +V> = Entry(key: K, value: V)

  /** An address.  `DANGLING` is the address that never holds a node. */
  type Ptr = nat

  const DANGLING: Ptr := 0

  /** What memory holds at a node's address.  The sentinel NIL is the node whose
      `value` is `None`. */
  datatype Node<+K, +V> = Node(parent: Ptr, left: Ptr, right: Ptr, color: Color, value: Option<Entry<K, V>>) {
    predicate IsNil() {
      value.None?
    }
  }

  type Memory<+K, +V> = map<Ptr, Node<K, V>>

  datatype Tree<+K, +V> =
    | Leaf
    | T(color: Color, left: Tree<K, V>, node: Ptr, entry: Entry<K, V>, right: Tree<K, V>)

  /** `ZL`: the hole is the left child of `node`; `ZR`: it is the right child. */
  datatype Zip<+K, +V> =
    | Top
    | ZL(up: Zip<K, V>, color: Color, node: Ptr, entry: Entry<K, V>, other: Tree<K, V>)
    | ZR(up: Zip<K, V>, color: Color, node: Ptr, entry: Entry<K, V>, other: Tree<K, V>)

  // ---------- node sets and separation ----------

  ghost function Nodes<K, V>(t: Tree<K, V>): set<Ptr> {
    match t
    case Leaf => {}
    case T(_, l, n, _, r) => Nodes(l) + {n} + Nodes(r)
  }

  ghost function ZipNodes<K, V>(z: Zip<K, V>): set<Ptr> {
    match z
    case Top => {}
    case ZL(up, _, n, _, t) => ZipNodes(up) + {n} + Nodes(t)
    case ZR(up, _, n, _, t) => ZipNodes(up) + {n} + Nodes(t)
  }

  /** No node object occurs twice. */
  ghost predicate Separate<K, V>(t: Tree<K, V>) {
    match t
    case Leaf => true
    case T(_, l, n, _, r) =>
      && Separate(l) && Separate(r)
      && n !in Nodes(l) && n !in Nodes(r) && Nodes(l) !! Nodes(r)
  }

  ghost predicate ZipSeparate<K, V>(z: Zip<K, V>) {
    match z
    case Top => true
    case ZL(up, _, n, _, t) =>
      && ZipSeparate(up) && Separate(t)
      && n !in ZipNodes(up) && n !in Nodes(t) && ZipNodes(up) !! Nodes(t)
    case ZR(up, _, n, _, t) =>
      && ZipSeparate(up) && Separate(t)
      && n !in ZipNodes(up) && n !in Nodes(t) && ZipNodes(up) !! Nodes(t)
  }

  // ---------- what the linked nodes represent ----------

  /** The nodes reached from pointer `p` are laid out as `t`, below `par`. */
  ghost predicate IsTree<K, V>(m: Memory<K, V>, t: Tree<K, V>, p: Ptr, par: Ptr, nil: Ptr) {
    match t
    case Leaf => p == nil
    case T(c, l, n, e, r) =>
      && p == n && n in m && m[n].color == c && m[n].value == Some(e) && m[n].parent == par
      && IsTree(m, l, m[n].left, n, nil) && IsTree(m, r, m[n].right, n, nil)
  }

  /** The nodes above the hole that pointer `p` fills are laid out as `z`, and
      `par` is what the parent pointer at the hole has to be. */
  ghost predicate IsZip<K, V>(m: Memory<K, V>, z: Zip<K, V>, p: Ptr, par: Ptr, root: Ptr, nil: Ptr) {
    match z
    case Top => par == nil && p == root
    case ZL(up, c, n, e, t) =>
      && par == n && n in m && m[n].left == p && m[n].color == c && m[n].value == Some(e)
      && IsTree(m, t, m[n].right, n, nil) && IsZip(m, up, n, m[n].parent, root, nil)
    case ZR(up, c, n, e, t) =>
      && par == n && n in m && m[n].right == p && m[n].color == c && m[n].value == Some(e)
      && IsTree(m, t, m[n].left, n, nil) && IsZip(m, up, n, m[n].parent, root, nil)
  }

  // ---------- filling the hole, and the in-order sequence ----------

  ghost function Fill<K, V>(z: Zip<K, V>, t: Tree<K, V>): Tree<K, V>
    decreases z
  {
    match z
    case Top => t
    case ZL(up, c, n, e, r) => Fill(up, T(c, t, n, e, r))
    case ZR(up, c, n, e, l) => Fill(up, T(c, l, n, e, t))
  }

  /** A node object together with the entry it carries. */
  datatype Item<+K, +V> = Item(node: Ptr, entry: Entry<K, V>)

  ghost function Inorder<K, V>(t: Tree<K, V>): seq<Item<K, V>> {
    match t
    case Leaf => []
    case T(_, l, n, e, r) => Inorder(l) + [Item(n, e)] + Inorder(r)
  }

  /** What precedes and what follows the hole. */
  ghost function Before<K, V>(z: Zip<K, V>): seq<Item<K, V>> {
    match z
    case Top => []
    case ZL(up, _, _, _, _) => Before(up)
    case ZR(up, _, n, e, l) => Before(up) + Inorder(l) + [Item(n, e)]
  }

  ghost function After<K, V>(z: Zip<K, V>): seq<Item<K, V>> {
    match z
    case Top => []
    case ZL(up, _, n, e, r) => [Item(n, e)] + Inorder(r) + After(up)
    case ZR(up, _, _, _, _) => After(up)
  }

  ghost function Depth<K, V>(z: Zip<K, V>): nat {
    if z.Top? then 0 else 1 + Depth(z.up)
  }

  // ---------- colours and black heights ----------

  ghost function ColorOf<K, V>(t: Tree<K, V>): Color {
    if t.Leaf? then Black else t.color
  }

  /** `t` has no red node with a red child and `h` black nodes on every path. */
  ghost predicate RedBlack<K, V>(t: Tree<K, V>, h: int) {
    match t
    case Leaf => h == 0
    case T(Black, l, _, _, r) => RedBlack(l, h - 1) && RedBlack(r, h - 1)
    case T(Red, l, _, _, r) =>
      ColorOf(l) == Black && ColorOf(r) == Black && RedBlack(l, h) && RedBlack(r, h)
  }

  /** Filling the hole with a red-black tree of root colour `c` and height `h`
      gives a red-black tree with a black root. */
  ghost predicate ZipRedBlack<K, V>(z: Zip<K, V>, c: Color, h: int) {
    match z
    case Top => c == Black
    case ZL(up, cn, _, _, t) =>
      && RedBlack(t, h) && (cn == Red ==> c == Black && ColorOf(t) == Black)
      && ZipRedBlack(up, cn, if cn == Black then h + 1 else h)
    case ZR(up, cn, _, _, t) =>
      && RedBlack(t, h) && (cn == Red ==> c == Black && ColorOf(t) == Black)
      && ZipRedBlack(up, cn, if cn == Black then h + 1 else h)
  }

  /** A legal red-black tree: black root, no red-red edge, equal black heights. */
  ghost predicate IsRedBlack<K, V>(t: Tree<K, V>) {
    ColorOf(t) == Black && exists h: int :: RedBlack(t, h)
  }

  // ---------- lemmas: filling a hole preserves each layer ----------

  lemma {:induction false} FillInorder<K, V>(z: Zip<K, V>, t: Tree<K, V>)
    ensures Inorder(Fill(z, t)) == Before(z) + Inorder(t) + After(z)
    decreases z
  {
    match z
    case Top =>
    case ZL(up, c, n, e, r) => FillInorder(up, T(c, t, n, e, r));
    case ZR(up, c, n, e, l) => FillInorder(up, T(c, l, n, e, t));
  }

  lemma {:induction false} FillRedBlack<K, V>(z: Zip<K, V>, t: Tree<K, V>, h: int)
    requires RedBlack(t, h) && ZipRedBlack(z, ColorOf(t), h)
    ensures IsRedBlack(Fill(z, t))
    decreases z
  {
    match z
    case Top =>
    case ZL(up, c, n, e, r) => FillRedBlack(up, T(c, t, n, e, r), if c == Black then h + 1 else h);
    case ZR(up, c, n, e, l) => FillRedBlack(up, T(c, l, n, e, t), if c == Black then h + 1 else h);
  }

  lemma {:induction false} FillSeparate<K, V>(z: Zip<K, V>, t: Tree<K, V>)
    requires Separate(t) && ZipSeparate(z) && Nodes(t) !! ZipNodes(z)
    ensures Separate(Fill(z, t)) && Nodes(Fill(z, t)) == ZipNodes(z) + Nodes(t)
    decreases z
  {
    match z
    case Top =>
    case ZL(up, c, n, e, r) => FillSeparate(up, T(c, t, n, e, r));
    case ZR(up, c, n, e, l) => FillSeparate(up, T(c, l, n, e, t));
  }

  lemma {:induction false} FillIsTree<K, V>(m: Memory<K, V>, z: Zip<K, V>, t: Tree<K, V>, p: Ptr, par: Ptr,
                                            root: Ptr, nil: Ptr)
    requires IsTree(m, t, p, par, nil) && IsZip(m, z, p, par, root, nil)
    ensures IsTree(m, Fill(z, t), root, nil, nil)
    decreases z
  {
    match z
    case Top =>
    case ZL(up, c, n, e, r) => FillIsTree(m, up, T(c, t, n, e, r), n, m[n].parent, root, nil);
    case ZR(up, c, n, e, l) => FillIsTree(m, up, T(c, l, n, e, t), n, m[n].parent, root, nil);
  }

  // ---------- lemmas: memory outside a tree does not matter to it ----------

  lemma {:induction false} FrameTree<K, V>(m: Memory<K, V>, m': Memory<K, V>, t: Tree<K, V>, p: Ptr, par: Ptr, nil: Ptr)
    requires IsTree(m, t, p, par, nil)
    requires forall n :: n in Nodes(t) && n in m ==> n in m' && m'[n] == m[n]
    ensures IsTree(m', t, p, par, nil)
  {
    match t
    case Leaf =>
    case T(_, l, n, _, r) =>
      FrameTree(m, m', l, m[n].left, n, nil);
      FrameTree(m, m', r, m[n].right, n, nil);
  }

  /** Only the root's parent pointer may differ, and it says how. */
  lemma FrameRoot<K, V>(m: Memory<K, V>, m': Memory<K, V>, t: Tree<K, V>, p: Ptr, par: Ptr, par': Ptr, nil: Ptr)
    requires IsTree(m, t, p, par, nil) && Separate(t)
    requires t.T? ==> p in m' && p in m && m'[p] == m[p].(parent := par')
    requires forall n :: n in Nodes(t) && n != p && n in m ==> n in m' && m'[n] == m[n]
    ensures IsTree(m', t, p, par', nil)
  {
    if t.T? {
      FrameTree(m, m', t.left, m[p].left, p, nil);
      FrameTree(m, m', t.right, m[p].right, p, nil);
    }
  }

  lemma {:induction false} FrameZip<K, V>(m: Memory<K, V>, m': Memory<K, V>, z: Zip<K, V>, p: Ptr, par: Ptr,
      root: Ptr, nil: Ptr)
    requires IsZip(m, z, p, par, root, nil)
    requires forall n :: n in ZipNodes(z) && n in m ==> n in m' && m'[n] == m[n]
    ensures IsZip(m', z, p, par, root, nil)
  {
    match z
    case Top =>
    case ZL(up, _, n, _, t) =>
      FrameTree(m, m', t, m[n].right, n, nil);
      FrameZip(m, m', up, n, m[n].parent, root, nil);
    case ZR(up, _, n, _, t) =>
      FrameTree(m, m', t, m[n].left, n, nil);
      FrameZip(m, m', up, n, m[n].parent, root, nil);
  }

  /** One write outside the zip. */
  lemma WriteOutsideZip<K, V>(m: Memory<K, V>, q: Ptr, v: Node<K, V>, z: Zip<K, V>, p: Ptr, par: Ptr, root: Ptr,
      nil: Ptr)
    requires IsZip(m, z, p, par, root, nil) && q !in ZipNodes(z)
    ensures IsZip(m[q := v], z, p, par, root, nil)
  {
    FrameZip(m, m[q := v], z, p, par, root, nil);
  }

  // ---------- moving the focus ----------

  /** Memory is the tree `Fill(z, t)` with root `root`, looked at from address
      `p` whose parent is `par`: below it is `t`, around it is `z`. */
  ghost predicate Focus<K, V>(m: Memory<K, V>, root: Ptr, nil: Ptr, z: Zip<K, V>, t: Tree<K, V>, p: Ptr, par: Ptr) {
    && IsZip(m, z, p, par, root, nil) && IsTree(m, t, p, par, nil)
    && Separate(t) && ZipSeparate(z) && Nodes(t) !! ZipNodes(z)
    && nil !in Nodes(t) && nil !in ZipNodes(z)
    && nil in m && m[nil].IsNil() && m[nil].color == Black
  }

  /** All items, in order, and all addresses: what moving the focus keeps. */
  ghost function Items<K, V>(z: Zip<K, V>, t: Tree<K, V>): seq<Item<K, V>> {
    Before(z) + Inorder(t) + After(z)
  }

  ghost function Footprint<K, V>(z: Zip<K, V>, t: Tree<K, V>): set<Ptr> {
    ZipNodes(z) + Nodes(t)
  }

  /** The subtree one level above the focus. */
  ghost function Plug<K, V>(z: Zip<K, V>, t: Tree<K, V>): Tree<K, V>
    requires !z.Top?
  {
    if z.ZL? then T(z.color, t, z.node, z.entry, z.other) else T(z.color, z.other, z.node, z.entry, t)
  }

  ghost function RootOf<K, V>(t: Tree<K, V>, nil: Ptr): Ptr {
    if t.Leaf? then nil else t.node
  }

  /** What can be read off memory at the focus. */
  lemma Look<K, V>(m: Memory<K, V>, root: Ptr, nil: Ptr, z: Zip<K, V>, t: Tree<K, V>, p: Ptr, par: Ptr)
    requires Focus(m, root, nil, z, t, p, par)
    ensures nil !in Footprint(z, t) && (t.T? ==> p in Footprint(z, t))
    ensures nil in m && p in m && m[p].color == ColorOf(t) && (m[p].IsNil() <==> t.Leaf?) && (t.Leaf? <==> p == nil)
    ensures t.T? ==>
      && p == t.node && m[p].parent == par && m[p].value == Some(t.entry)
      && m[p].left in m && m[p].right in m
      && m[p].left == RootOf(t.left, nil) && m[p].right == RootOf(t.right, nil)
      && m[m[p].left].color == ColorOf(t.left) && m[m[p].right].color == ColorOf(t.right)
    ensures par in m && (z.Top? <==> par == nil)
    ensures z.Top? ==> p == root && m[par].color == Black
    ensures !z.Top? ==> par == z.node && m[par].color == z.color && p == (if z.ZL? then m[par].left else m[par].right)
  {
    if t.T? {
      assert IsTree(m, t.left, m[p].left, p, nil);
      assert IsTree(m, t.right, m[p].right, p, nil);
    }
  }

  lemma GoUp<K, V>(m: Memory<K, V>, root: Ptr, nil: Ptr, z: Zip<K, V>, t: Tree<K, V>, p: Ptr, par: Ptr)
    requires !z.Top? && Focus(m, root, nil, z, t, p, par)
    ensures par == z.node && par in m && Focus(m, root, nil, z.up, Plug(z, t), par, m[par].parent)
    ensures Items(z.up, Plug(z, t)) == Items(z, t) && Footprint(z.up, Plug(z, t)) == Footprint(z, t)
    ensures p == (if z.ZL? then m[par].left else m[par].right)
  {
    UpItems(z, t);
  }

  lemma UpItems<K, V>(z: Zip<K, V>, t: Tree<K, V>)
    requires !z.Top?
    ensures Items(z.up, Plug(z, t)) == Items(z, t)
  {
    var b, a := Before(z.up), After(z.up);
    var x, i, o := Inorder(t), [Item(z.node, z.entry)], Inorder(z.other);
    if z.ZL? {
      assert Inorder(Plug(z, t)) == x + i + o;
      assert b + (x + i + o) + a == b + x + (i + o + a);
    } else {
      assert Inorder(Plug(z, t)) == o + i + x;
      assert b + (o + i + x) + a == b + o + i + x + a;
    }
  }

  lemma GoLeft<K, V>(m: Memory<K, V>, root: Ptr, nil: Ptr, z: Zip<K, V>, t: Tree<K, V>, p: Ptr, par: Ptr)
    requires t.T? && Focus(m, root, nil, z, t, p, par)
    ensures p in m && p == t.node && par == m[p].parent
    ensures var z' := ZL(z, t.color, t.node, t.entry, t.right);
            && Focus(m, root, nil, z', t.left, m[p].left, p)
            && Items(z', t.left) == Items(z, t) && Footprint(z', t.left) == Footprint(z, t)
  {
    UpItems(ZL(z, t.color, t.node, t.entry, t.right), t.left);
  }

  lemma GoRight<K, V>(m: Memory<K, V>, root: Ptr, nil: Ptr, z: Zip<K, V>, t: Tree<K, V>, p: Ptr, par: Ptr)
    requires t.T? && Focus(m, root, nil, z, t, p, par)
    ensures p in m && p == t.node && par == m[p].parent
    ensures var z' := ZR(z, t.color, t.node, t.entry, t.left);
            && Focus(m, root, nil, z', t.right, m[p].right, p)
            && Items(z', t.right) == Items(z, t) && Footprint(z', t.right) == Footprint(z, t)
  {
    UpItems(ZR(z, t.color, t.node, t.entry, t.left), t.right);
  }

  /** Comparing the focus with its parent's left child tells the side it is on. */
  lemma WhichSide<K, V>(m: Memory<K, V>, root: Ptr, nil: Ptr, z: Zip<K, V>, t: Tree<K, V>, p: Ptr, par: Ptr)
    requires !z.Top? && Focus(m, root, nil, z, t, p, par) && (t.Leaf? ==> z.other.T?)
    ensures par in m && (z.ZL? <==> m[par].left == p) && (z.ZR? <==> m[par].right == p)
  {
    var q := if z.ZL? then m[par].right else m[par].left;
    assert IsTree(m, z.other, q, par, nil);
    assert t.T? ==> p in Nodes(t);
    assert z.other.T? ==> q in Nodes(z.other);
  }

  /** Painting the node at the focus. */
  lemma Paint<K, V>(m: Memory<K, V>, root: Ptr, nil: Ptr, z: Zip<K, V>, t: Tree<K, V>, p: Ptr, par: Ptr, c: Color)
    requires t.T? && Focus(m, root, nil, z, t, p, par)
    ensures p in m && Focus(m[p := m[p].(color := c)], root, nil, z, t.(color := c), p, par) && p in Footprint(z, t)
    ensures Items(z, t.(color := c)) == Items(z, t) && Footprint(z, t.(color := c)) == Footprint(z, t)
  {
    var m' := m[p := m[p].(color := c)];
    FrameTree(m, m', t.left, m[p].left, p, nil);
    FrameTree(m, m', t.right, m[p].right, p, nil);
    WriteOutsideZip(m, p, m[p].(color := c), z, p, par, root, nil);
  }

  lemma PaintLeft<K, V>(m: Memory<K, V>, root: Ptr, nil: Ptr, z: Zip<K, V>, t: Tree<K, V>, p: Ptr, par: Ptr, c: Color)
    requires t.T? && t.left.T? && Focus(m, root, nil, z, t, p, par)
    ensures p in m && m[p].left == t.left.node && t.left.node in m && t.left.node != p && t.left.node in Footprint(z, t)
    ensures var q := t.left.node;
            var t' := t.(left := t.left.(color := c));
            && Focus(m[q := m[q].(color := c)], root, nil, z, t', p, par)
            && Items(z, t') == Items(z, t) && Footprint(z, t') == Footprint(z, t)
  {
    var q, z' := t.left.node, ZL(z, t.color, t.node, t.entry, t.right);
    GoLeft(m, root, nil, z, t, p, par);
    Paint(m, root, nil, z', t.left, q, p, c);
    GoUp(m[q := m[q].(color := c)], root, nil, z', t.left.(color := c), q, p);
  }

  lemma PaintRight<K, V>(m: Memory<K, V>, root: Ptr, nil: Ptr, z: Zip<K, V>, t: Tree<K, V>, p: Ptr, par: Ptr, c: Color)
    requires t.T? && t.right.T? && Focus(m, root, nil, z, t, p, par)
    ensures p in m && m[p].right == t.right.node && t.right.node in m && t.right.node != p
      && t.right.node in Footprint(z, t)
    ensures var q := t.right.node;
            var t' := t.(right := t.right.(color := c));
            && Focus(m[q := m[q].(color := c)], root, nil, z, t', p, par)
            && Items(z, t') == Items(z, t) && Footprint(z, t') == Footprint(z, t)
  {
    var q, z' := t.right.node, ZR(z, t.color, t.node, t.entry, t.left);
    GoRight(m, root, nil, z, t, p, par);
    Paint(m, root, nil, z', t.right, q, p, c);
    GoUp(m[q := m[q].(color := c)], root, nil, z', t.right.(color := c), q, p);
  }

  /** What can be read off memory at the sibling of the focus. */
  lemma LookAcross<K, V>(m: Memory<K, V>, root: Ptr, nil: Ptr, z: Zip<K, V>, t: Tree<K, V>, p: Ptr, par: Ptr)
    requires !z.Top? && Focus(m, root, nil, z, t, p, par)
    ensures par in m
    ensures var y := if z.ZL? then m[par].right else m[par].left;
      && y in m && m[y].color == ColorOf(z.other)
      && (z.other.T? ==>
           && y == z.other.node && m[y].left in m && m[y].right in m
           && m[m[y].left].color == ColorOf(z.other.left) && m[m[y].right].color == ColorOf(z.other.right))
  {
    var y := if z.ZL? then m[par].right else m[par].left;
    GoUp(m, root, nil, z, t, p, par);
    var gz := m[par].parent;
    if z.ZL? {
      GoRight(m, root, nil, z.up, Plug(z, t), par, gz);
      Look(m, root, nil, ZR(z.up, z.color, z.node, z.entry, t), z.other, y, par);
    } else {
      GoLeft(m, root, nil, z.up, Plug(z, t), par, gz);
      Look(m, root, nil, ZL(z.up, z.color, z.node, z.entry, t), z.other, y, par);
    }
  }

  /** The focus is at the root address only when it is at the top. */
  lemma {:induction false} RootInZip<K, V>(m: Memory<K, V>, z: Zip<K, V>, p: Ptr, par: Ptr, root: Ptr, nil: Ptr)
    requires IsZip(m, z, p, par, root, nil) && !z.Top?
    ensures root in ZipNodes(z)
  {
    if !z.up.Top? {
      RootInZip(m, z.up, z.node, m[z.node].parent, root, nil);
    }
  }

  lemma AtRoot<K, V>(m: Memory<K, V>, root: Ptr, nil: Ptr, z: Zip<K, V>, t: Tree<K, V>, p: Ptr, par: Ptr)
    requires Focus(m, root, nil, z, t, p, par)
    ensures p == root <==> z.Top?
  {
    if !z.Top? {
      RootInZip(m, z, p, par, root, nil);
    }
    assert t.T? ==> p in Nodes(t);
  }

  /** A write to a node that is not in the tree. */
  lemma WriteOutside<K, V>(m: Memory<K, V>, root: Ptr, nil: Ptr, z: Zip<K, V>, t: Tree<K, V>, p: Ptr, par: Ptr,
      q: Ptr, v: Node<K, V>)
    requires Focus(m, root, nil, z, t, p, par) && q !in Footprint(z, t) && q != nil
    ensures Focus(m[q := v], root, nil, z, t, p, par)
  {
    FrameTree(m, m[q := v], t, p, par, nil);
    WriteOutsideZip(m, q, v, z, p, par, root, nil);
  }

  /** Freeing a node that is not in the tree. */
  lemma FreeOutside<K, V>(m: Memory<K, V>, root: Ptr, nil: Ptr, t: Tree<K, V>, q: Ptr)
    requires Focus(m, root, nil, Top, t, root, nil) && q !in Nodes(t) && q != nil
    ensures Focus(m - {q}, root, nil, Top, t, root, nil)
  {
    FrameTree(m, m - {q}, t, root, nil, nil);
  }

  lemma {:induction false} NodesInMemory<K, V>(m: Memory<K, V>, t: Tree<K, V>, p: Ptr, par: Ptr, nil: Ptr)
    requires IsTree(m, t, p, par, nil)
    ensures Nodes(t) <= m.Keys
  {
    if t.T? {
      NodesInMemory(m, t.left, m[p].left, p, nil);
      NodesInMemory(m, t.right, m[p].right, p, nil);
    }
  }

  /** Exchanging the node at the focus for a node from outside. */
  lemma SwapFootprint<K, V>(m: Memory<K, V>, root: Ptr, nil: Ptr, z: Zip<K, V>, t: Tree<K, V>, p: Ptr, par: Ptr,
      n: Ptr, e: Entry<K, V>)
    requires Focus(m, root, nil, z, t, p, par) && t.T? && n !in Footprint(z, t)
    ensures Footprint(z, T(t.color, t.left, n, e, t.right)) == Footprint(z, t) - {p} + {n} && p != nil
      && p in Footprint(z, t)
  {
  }

  /** Linking a red leaf at the hole where a search ended. */
  ghost function Linked<K, V>(m: Memory<K, V>, z: Zip<K, V>, n: Ptr, v: Node<K, V>): Memory<K, V>
    requires z.Top? || z.node in m
  {
    var m1 := m[n := v];
    match z
    case Top => m1
    case ZL(_, _, y, _, _) => m1[y := m1[y].(left := n)]
    case ZR(_, _, y, _, _) => m1[y := m1[y].(right := n)]
  }

  /** Where a search that ended at a leaf has stopped. */
  lemma LeafSpot<K, V>(m: Memory<K, V>, root: Ptr, nil: Ptr, z: Zip<K, V>, y: Ptr)
    requires Focus(m, root, nil, z, Leaf, nil, y)
    ensures y in m && (m[y].IsNil() <==> z.Top?) && (z.Top? ==> y == nil)
    ensures !z.Top? ==> y == z.node && m[y].value == Some(z.entry) && y in ZipNodes(z)
  {
  }

  lemma LinkLeaf<K, V>(m: Memory<K, V>, root: Ptr, nil: Ptr, z: Zip<K, V>, y: Ptr, n: Ptr, e: Entry<K, V>)
    requires Focus(m, root, nil, z, Leaf, nil, y) && n !in ZipNodes(z) && n != nil
    ensures z.Top? || z.node in m
    ensures Focus(Linked(m, z, n, Node(y, nil, nil, Red, Some(e))), if z.Top? then n else root, nil, z,
      T(Red, Leaf, n, e, Leaf), n, y)
  {
    var m' := Linked(m, z, n, Node(y, nil, nil, Red, Some(e)));
    if !z.Top? {
      FrameTree(m, m', z.other, if z.ZL? then m[y].right else m[y].left, y, nil);
      FrameZip(m, m', z.up, y, m[y].parent, root, nil);
    }
  }

  // ---------- keys, order and the map a tree stands for ----------

  ghost predicate TotalOrder<K(!new)>(cmp: (K, K) -> Ordering) {
    && (forall a, b :: cmp(a, b) == Equal <==> a == b)
    && (forall a, b :: cmp(a, b) == Less <==> cmp(b, a) == Greater)
    && (forall a, b, c :: cmp(a, b) == Less && cmp(b, c) == Less ==> cmp(a, c) == Less)
  }

  ghost predicate Sorted<K, V>(cmp: (K, K) -> Ordering, s: seq<Item<K, V>>) {
    forall i, j :: 0 <= i < j < |s| ==> cmp(s[i].entry.key, s[j].entry.key) == Less
  }

  /** Every key in `s` compares as `o` with `k`. */
  ghost predicate AllCompare<K, V>(cmp: (K, K) -> Ordering, s: seq<Item<K, V>>, k: K, o: Ordering) {
    forall i :: 0 <= i < |s| ==> cmp(s[i].entry.key, k) == o
  }

  ghost function ContentsOf<K, V>(s: seq<Item<K, V>>): map<K, V> {
    if s == [] then map[]
    else
      var e := s[|s| - 1].entry;
      ContentsOf(s[..|s| - 1])[e.key := e.value]
  }

  ghost predicate Holds<K, V>(s: seq<Item<K, V>>, k: K, v: V) {
    exists i :: 0 <= i < |s| && s[i].entry == Entry(k, v)
  }

  lemma HoldsConcat<K, V>(a: seq<Item<K, V>>, b: seq<Item<K, V>>, k: K, v: V)
    ensures Holds(a + b, k, v) <==> Holds(a, k, v) || Holds(b, k, v)
  {
    if i :| 0 <= i < |a| && a[i].entry == Entry(k, v) {
      assert (a + b)[i] == a[i];
    }
    if i :| 0 <= i < |b| && b[i].entry == Entry(k, v) {
      assert (a + b)[|a| + i] == b[i];
    }
  }

  /** On sorted items the contents hold exactly the items' keys and values. */
  lemma {:induction false} ContentsExact<K(!new), V>(cmp: (K, K) -> Ordering, s: seq<Item<K, V>>, k: K, v: V)
    requires TotalOrder(cmp) && Sorted(cmp, s)
    ensures (k in ContentsOf(s) && ContentsOf(s)[k] == v) <==> Holds(s, k, v)
  {
    if s != [] {
      var r, it := s[..|s| - 1], s[|s| - 1];
      ContentsExact(cmp, r, k, v);
      HoldsConcat(r, [it], k, v);
      assert s == r + [it];
      assert Holds([it], k, v) <==> it.entry == Entry(k, v) by {
        assert it.entry == Entry(k, v) ==> [it][0].entry == Entry(k, v);
      }
    }
  }

  /** The key being looked for splits the items around the hole. */
  lemma SortedSplit<K(!new), V>(cmp: (K, K) -> Ordering, a: seq<Item<K, V>>, it: Item<K, V>, b: seq<Item<K, V>>)
    requires TotalOrder(cmp)
    ensures Sorted(cmp, a + [it] + b) <==>
      Sorted(cmp, a + b) && AllCompare(cmp, a, it.entry.key, Less) && AllCompare(cmp, b, it.entry.key, Greater)
  {
    var s, u := a + [it] + b, a + b;
    if Sorted(cmp, s) {
      forall i, j | 0 <= i < j < |u| ensures cmp(u[i].entry.key, u[j].entry.key) == Less {
        var i', j' := if i < |a| then i else i + 1, if j < |a| then j else j + 1;
        assert s[i'] == u[i] && s[j'] == u[j];
      }
      forall i | 0 <= i < |a| ensures cmp(a[i].entry.key, it.entry.key) == Less {
        assert s[i] == a[i] && s[|a|] == it;
      }
      forall i | 0 <= i < |b| ensures cmp(b[i].entry.key, it.entry.key) == Greater {
        assert s[|a| + 1 + i] == b[i] && s[|a|] == it;
      }
    }
    if Sorted(cmp, u) && AllCompare(cmp, a, it.entry.key, Less) && AllCompare(cmp, b, it.entry.key, Greater) {
      forall i, j | 0 <= i < j < |s| ensures cmp(s[i].entry.key, s[j].entry.key) == Less {
        if i != |a| && j != |a| {
          var i', j' := if i < |a| then i else i - 1, if j < |a| then j else j - 1;
          assert s[i] == u[i'] && s[j] == u[j'];
        } else if i == |a| {
          assert s[j] == b[j - |a| - 1];
        } else {
          assert s[i] == a[i];
        }
      }
    }
  }

  lemma ContentsParts<K(!new), V>(cmp: (K, K) -> Ordering, a: seq<Item<K, V>>, x: seq<Item<K, V>>,
      b: seq<Item<K, V>>, k: K, v: V)
    requires TotalOrder(cmp) && Sorted(cmp, a + x + b)
    ensures (k in ContentsOf(a + x + b) && ContentsOf(a + x + b)[k] == v) <==>
      Holds(a, k, v) || Holds(x, k, v) || Holds(b, k, v)
  {
    hide ContentsOf, Holds, Sorted;
    ContentsExact(cmp, a + x + b, k, v);
    HoldsConcat(a + x, b, k, v);
    HoldsConcat(a, x, k, v);
  }

  lemma HoldsCompare<K(!new), V>(cmp: (K, K) -> Ordering, s: seq<Item<K, V>>, k: K, o: Ordering, k': K, v: V)
    requires TotalOrder(cmp) && AllCompare(cmp, s, k, o) && o != Equal && Holds(s, k', v)
    ensures k' != k
  {
  }

  lemma ContentsUpdateAt<K(!new), V>(cmp: (K, K) -> Ordering, a: seq<Item<K, V>>, was: seq<Item<K, V>>,
      it: Item<K, V>, b: seq<Item<K, V>>, k: K, v: V)
    requires TotalOrder(cmp) && Sorted(cmp, a + was + b) && Sorted(cmp, a + [it] + b) && |was| <= 1
    ensures (k in ContentsOf(a + [it] + b) && ContentsOf(a + [it] + b)[k] == v)
       <==> Holds(a, k, v) || Holds(b, k, v) || it.entry == Entry(k, v)
    ensures (k in ContentsOf(a + was + b) && ContentsOf(a + was + b)[k] == v)
       <==> Holds(a, k, v) || Holds(b, k, v) || (was != [] && was[0].entry == Entry(k, v))
    ensures Holds(a, k, v) || Holds(b, k, v) ==> k != it.entry.key
  {
    hide ContentsOf, Sorted;
    ContentsParts(cmp, a, [it], b, k, v);
    ContentsParts(cmp, a, was, b, k, v);
    assert Holds([it], k, v) <==> it.entry == Entry(k, v) by {
      assert it == [it][0];
    }
    SortedSplit(cmp, a, it, b);
    if Holds(a, k, v) {
      HoldsCompare(cmp, a, it.entry.key, Less, k, v);
    }
    if Holds(b, k, v) {
      HoldsCompare(cmp, b, it.entry.key, Greater, k, v);
    }
  }

  /** Placing an item in sorted position is a map update; what was there under
      the same key, if anything, is overwritten. */
  lemma ContentsUpdate<K(!new), V>(cmp: (K, K) -> Ordering, a: seq<Item<K, V>>, was: seq<Item<K, V>>, it: Item<K, V>,
      b: seq<Item<K, V>>)
    requires TotalOrder(cmp) && Sorted(cmp, a + was + b) && Sorted(cmp, a + [it] + b)
    requires |was| <= 1 && (was != [] ==> was[0].entry.key == it.entry.key)
    ensures ContentsOf(a + [it] + b) == ContentsOf(a + was + b)[it.entry.key := it.entry.value]
    ensures it.entry.key in ContentsOf(a + was + b) <==> was != []
    ensures was != [] ==> ContentsOf(a + was + b)[it.entry.key] == was[0].entry.value
  {
    var c, d, k := ContentsOf(a + [it] + b), ContentsOf(a + was + b), it.entry.key;
    hide ContentsOf, Holds, Sorted;
    if k in d {
      ContentsUpdateAt(cmp, a, was, it, b, k, d[k]);
    }
    if was != [] {
      ContentsUpdateAt(cmp, a, was, it, b, k, was[0].entry.value);
    }
    ContentsUpdateAt(cmp, a, was, it, b, k, it.entry.value);
    forall k' | k' != k
      ensures k' in c <==> k' in d
      ensures k' in c ==> c[k'] == d[k']
    {
      if k' in c {
        ContentsUpdateAt(cmp, a, was, it, b, k', c[k']);
      }
      if k' in d {
        ContentsUpdateAt(cmp, a, was, it, b, k', d[k']);
      }
    }
  }

  /** The items split around the root of the subtree at the focus. */
  lemma ItemsAround<K, V>(z: Zip<K, V>, t: Tree<K, V>)
    requires t.T?
    ensures Items(z, t) == (Before(z) + Inorder(t.left)) + [Item(t.node, t.entry)] + (Inorder(t.right) + After(z))
    ensures Before(ZR(z, t.color, t.node, t.entry, t.left)) == (Before(z) + Inorder(t.left)) + [Item(t.node, t.entry)]
    ensures After(ZL(z, t.color, t.node, t.entry, t.right)) == [Item(t.node, t.entry)] + (Inorder(t.right) + After(z))
  {
  }

  /** Going left past a larger key, or right past a smaller one, keeps the key
      being looked for between what is before and what is after the hole. */
  lemma Descend<K(!new), V>(cmp: (K, K) -> Ordering, z: Zip<K, V>, t: Tree<K, V>, k: K)
    requires TotalOrder(cmp) && t.T? && Sorted(cmp, Items(z, t))
    ensures cmp(k, t.entry.key) == Less ==> AllCompare(cmp, After(ZL(z, t.color, t.node, t.entry, t.right)), k, Greater)
    ensures cmp(k, t.entry.key) == Greater ==> AllCompare(cmp, Before(ZR(z, t.color, t.node, t.entry, t.left)), k, Less)
  {
    ItemsAround(z, t);
    var a, it, b := Before(z) + Inorder(t.left), Item(t.node, t.entry), Inorder(t.right) + After(z);
    SortedSplit(cmp, a, it, b);
    hide Items, Inorder, Before, After, Sorted;
    if cmp(k, it.entry.key) == Less {
      forall i | 0 <= i < |[it] + b| ensures cmp(([it] + b)[i].entry.key, k) == Greater {
        if i > 0 {
          assert ([it] + b)[i] == b[i - 1];
        }
      }
    }
    if cmp(k, it.entry.key) == Greater {
      forall i | 0 <= i < |a + [it]| ensures cmp((a + [it])[i].entry.key, k) == Less {
        if i < |a| {
          assert (a + [it])[i] == a[i];
        }
      }
    }
  }

  /** Swapping the node at the focus for one with an equal key. */
  lemma SwapItem<K(!new), V>(cmp: (K, K) -> Ordering, z: Zip<K, V>, t: Tree<K, V>, n: Ptr, e: Entry<K, V>)
    requires TotalOrder(cmp) && t.T? && Sorted(cmp, Items(z, t)) && t.entry.key == e.key
    ensures var t' := T(t.color, t.left, n, e, t.right);
      && Sorted(cmp, Items(z, t'))
      && ContentsOf(Items(z, t')) == ContentsOf(Items(z, t))[e.key := e.value]
    ensures e.key in ContentsOf(Items(z, t)) && ContentsOf(Items(z, t))[e.key] == t.entry.value
  {
    var a, b := Before(z) + Inorder(t.left), Inorder(t.right) + After(z);
    var was, it := Item(t.node, t.entry), Item(n, e);
    ItemsAround(z, t);
    ItemsAround(z, T(t.color, t.left, n, e, t.right));
    hide Items, Inorder, Before, After, Sorted, ContentsOf;
    SortedSplit(cmp, a, was, b);
    SortedSplit(cmp, a, it, b);
    assert AllCompare(cmp, a, it.entry.key, Less) && AllCompare(cmp, b, it.entry.key, Greater);
    ContentsUpdate(cmp, a, [was], it, b);
  }

  /** Adding a node where a search for its key ended. */
  lemma AddItem<K(!new), V>(cmp: (K, K) -> Ordering, z: Zip<K, V>, n: Ptr, e: Entry<K, V>)
    requires TotalOrder(cmp) && Sorted(cmp, Items(z, Leaf))
    requires AllCompare(cmp, Before(z), e.key, Less) && AllCompare(cmp, After(z), e.key, Greater)
    ensures var t' := T(Red, Leaf, n, e, Leaf);
      && Sorted(cmp, Items(z, t'))
      && ContentsOf(Items(z, t')) == ContentsOf(Items(z, Leaf))[e.key := e.value]
    ensures e.key !in ContentsOf(Items(z, Leaf))
  {
    var it: Item<K, V> := Item(n, e);
    assert Items(z, Leaf) == Before(z) + [] + After(z) == Before(z) + After(z);
    assert Items(z, T(Red, Leaf, n, e, Leaf)) == Before(z) + [it] + After(z);
    SortedSplit(cmp, Before(z), it, After(z));
    ContentsUpdate(cmp, Before(z), [], it, After(z));
  }
}
