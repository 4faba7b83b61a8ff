/** Size classes of the slab heap, and where the blocks of a page lie. */
module SlabGeometry {
  import opened Arithmetic
  import opened SlabLists

  const PAGE := 0x1000
  const HEADER := 32
  const CLASSES := 9

  datatype Layout = Layout(size: nat, align: nat)

  function Pow2(e: nat): (n: nat)
    ensures n >= 1
  {
    if e == 0 then 1 else 2 * Pow2(e - 1)
  }

  function ClassSize(i: nat): (n: nat)
    requires i < CLASSES
    ensures 8 <= n <= 2048
  {
    [8, 16, 32, 64, 128, 256, 512, 1024, 2048][i]
  }

  /** The number of blocks that a page's header counts. */
  function FreeCount(size: nat): nat
    requires size >= 1
  {
    (PAGE - HEADER) / size
  }

  function Effective(l: Layout): nat {
    Max(l.align, l.size)
  }

  /** The class of a layout: where a binary search among the sizes ends. */
  function BucketIndex(l: Layout): (i: nat)
    ensures i <= CLASSES
    ensures i < CLASSES ==> Effective(l) <= ClassSize(i) && (i > 0 ==> ClassSize(i - 1) < Effective(l))
    ensures i == CLASSES ==> ClassSize(CLASSES - 1) < Effective(l)
  {
    var n := Effective(l);
    if n <= 8 then 0 else if n <= 16 then 1 else if n <= 32 then 2 else if n <= 64 then 3 else if n <= 128 then 4
    else if n <= 256 then 5 else if n <= 512 then 6 else if n <= 1024 then 7 else if n <= 2048 then 8 else 9
  }

  /** Whole pages for a large request. */
  function Rounded(l: Layout): (n: nat)
    ensures Effective(l) <= n < Effective(l) + PAGE && n % PAGE == 0
  {
    var n := Effective(l);
    if n % PAGE != 0 then n / PAGE * PAGE + PAGE else n
  }

  // ---------- blocks of a page ----------

  function Start(i: nat): nat
    requires i < CLASSES
  {
    Max(ClassSize(i), HEADER)
  }

  function Count(i: nat): nat
    requires i < CLASSES
  {
    FreeCount(ClassSize(i))
  }

  /** Block `k` of a page of class `i`. */
  function BlockAt(p: Addr, i: nat, k: nat): Addr
    requires i < CLASSES
  {
    p + Start(i) + k * ClassSize(i)
  }

  /** The counted blocks fill the page after the header exactly: the loop that
      threads them stops after as many as the formula says. */
  lemma CountFills(i: nat)
    requires i < CLASSES
    ensures Start(i) + Count(i) * ClassSize(i) == PAGE && Count(i) >= 1 && Start(i) >= HEADER
  {
  }

  ghost predicate IsBlock(p: Addr, i: nat, a: Addr) {
    i < CLASSES && exists k :: 0 <= k < Count(i) && a == BlockAt(p, i, k)
  }

  /** A block lies in its page, after the header. */
  lemma BlockInside(p: Addr, i: nat, a: Addr)
    requires IsBlock(p, i, a)
    ensures p + HEADER <= a && a + ClassSize(i) <= p + PAGE
  {
    var k :| 0 <= k < Count(i) && a == BlockAt(p, i, k);
    CountFills(i);
    Monotone(k + 1, Count(i), ClassSize(i));
  }

  /** A block's address is never page-aligned, and leads back to its page. */
  lemma BlockRouting(p: Addr, i: nat, a: Addr)
    requires IsBlock(p, i, a) && p % PAGE == 0
    ensures a % PAGE != 0 && a - a % PAGE == p
  {
    BlockInside(p, i, a);
  }

  /** Two blocks of a page do not overlap. */
  lemma BlocksApart(p: Addr, i: nat, a: Addr, b: Addr)
    requires IsBlock(p, i, a) && IsBlock(p, i, b) && a < b
    ensures a + ClassSize(i) <= b
  {
    var k :| 0 <= k < Count(i) && a == BlockAt(p, i, k);
    var m :| 0 <= m < Count(i) && b == BlockAt(p, i, m);
    if k < m {
      Monotone(k + 1, m, ClassSize(i));
    } else {
      Monotone(m, k, ClassSize(i));
    }
  }

  lemma {:induction false} PowAdd(d: nat, e: nat)
    ensures Pow2(d + e) == Pow2(d) * Pow2(e)
  {
    if d > 0 {
      PowAdd(d - 1, e);
    }
  }

  lemma ClassIsPow(i: nat)
    requires i < CLASSES
    ensures ClassSize(i) == Pow2(i + 3)
  {
    assert Pow2(3) == 8;
    assert Pow2(5) == 2 * Pow2(4) && Pow2(6) == 2 * Pow2(5) && Pow2(7) == 2 * Pow2(6);
    assert Pow2(8) == 2 * Pow2(7) && Pow2(9) == 2 * Pow2(8) && Pow2(10) == 2 * Pow2(9) && Pow2(11) == 2 * Pow2(10);
  }

  lemma {:induction false} PowGrows(d: nat, e: nat)
    requires d < e
    ensures Pow2(d) < Pow2(e)
  {
    if d + 1 < e {
      PowGrows(d, e - 1);
    }
  }

  lemma ClassDivides(i: nat) returns (q: nat, s: nat)
    requires i < CLASSES
    ensures PAGE == q * ClassSize(i) && Start(i) == s * ClassSize(i)
  {
    q, s := PAGE / ClassSize(i), Start(i) / ClassSize(i);
  }

  lemma BlockMultiple(p: Addr, i: nat, a: Addr) returns (m: nat)
    requires IsBlock(p, i, a) && p % PAGE == 0
    ensures a == m * ClassSize(i)
  {
    hide ClassSize, Count, Start;
    var k :| 0 <= k < Count(i) && a == BlockAt(p, i, k);
    var q, s := ClassDivides(i);
    var n, t := ClassSize(i), p / PAGE;
    Regroup(t, q, n);
    m := t * q + s + k;
    Distribute(t * q, s, k, n);
  }

  /** A block is aligned to every power of two that its class can serve. */
  lemma BlockAligned(p: Addr, i: nat, a: Addr, e: nat)
    requires i < CLASSES && IsBlock(p, i, a) && p % PAGE == 0 && Pow2(e) <= ClassSize(i)
    ensures a % Pow2(e) == 0
  {
    hide Pow2, ClassSize, IsBlock;
    var m := BlockMultiple(p, i, a);
    ClassIsPow(i);
    if e > i + 3 {
      PowGrows(i + 3, e);
    }
    var d, n := Pow2(i + 3 - e), Pow2(e);
    PowAdd(i + 3 - e, e);
    Regroup(m, d, n);
    MultipleOf(m * d, n);
  }
}
