/** Copying bytes to and from virtual memory, page by page, against a
    byte-by-byte specification. */
module VirtualBytes {
  import opened Bytes
  import opened PhysicalMemory
  import opened PageTree
  import opened PageTables
  import opened VirtualMemory
  import opened Pieces
  import opened Options

  type Pages = map<nat, seq<byte>>

  ghost predicate PagesOk(v: Pages) {
    forall p :: p in v ==> |v[p]| == FRAME_SIZE
  }

  // ---------- one byte at a time ----------

  function ReadByte(v: Pages, va: nat): Option<byte> {
    if PageOf(va) in v && |v[PageOf(va)]| == FRAME_SIZE then Some(v[PageOf(va)][va % FRAME_SIZE]) else None
  }

  function ByteAt(v: Pages, va: nat, i: nat): Option<byte> {
    ReadByte(v, va + i)
  }

  function WriteByte(v: Pages, va: nat, b: byte): Pages {
    if PageOf(va) in v && |v[PageOf(va)]| == FRAME_SIZE then v[PageOf(va) := v[PageOf(va)][va % FRAME_SIZE := b]] else v
  }

  /** Write `s` at `va`, one byte after the other. */
  function WriteBytes(v: Pages, va: nat, s: seq<byte>): Pages {
    if s == [] then v else WriteByte(WriteBytes(v, va, s[..|s| - 1]), va + |s| - 1, s[|s| - 1])
  }

  lemma {:induction false} WriteBytesPages(v: Pages, va: nat, s: seq<byte>)
    requires PagesOk(v)
    ensures PagesOk(WriteBytes(v, va, s)) && WriteBytes(v, va, s).Keys == v.Keys
  {
    if s != [] {
      WriteBytesPages(v, va, s[..|s| - 1]);
    }
  }

  lemma {:induction false} WriteBytesConcat(v: Pages, va: nat, s: seq<byte>, t: seq<byte>)
    ensures WriteBytes(v, va, s + t) == WriteBytes(WriteBytes(v, va, s), va + |s|, t)
  {
    if t == [] {
      assert s + t == s;
    } else {
      WriteBytesConcat(v, va, s, t[..|t| - 1]);
      assert (s + t)[..|s + t| - 1] == s + t[..|t| - 1];
    }
  }

  lemma {:induction false} WriteBytesInPage(v: Pages, va: nat, s: seq<byte>)
    requires PagesOk(v) && PageOf(va) in v && va % FRAME_SIZE + |s| <= FRAME_SIZE
    ensures WriteBytes(v, va, s) == v[PageOf(va) := Splice(v[PageOf(va)], va % FRAME_SIZE, s)]
  {
    var vp, o := PageOf(va), va % FRAME_SIZE;
    if s == [] {
      assert Splice(v[vp], o, s) == v[vp];
    } else {
      var n := |s| - 1;
      SamePage(va, n);
      WriteBytesInPage(v, va, s[..n]);
      hide PageOf;
      assert Splice(v[vp], o, s[..n])[o + n := s[n]] == Splice(v[vp], o, s);
    }
  }

  lemma SamePage(va: nat, n: nat)
    requires va % FRAME_SIZE + n < FRAME_SIZE
    ensures PageOf(va + n) == PageOf(va) && (va + n) % FRAME_SIZE == va % FRAME_SIZE + n
  {
  }

  /** Two addresses name the same byte: they agree in their low 48 bits. */
  predicate SameByte(x: nat, y: nat) {
    PageOf(x) == PageOf(y) && x % FRAME_SIZE == y % FRAME_SIZE
  }

  lemma SameByteDistance(x: nat, y: nat)
    requires x < y < x + PAGES * FRAME_SIZE
    ensures !SameByte(x, y)
  {
    if x % FRAME_SIZE == y % FRAME_SIZE {
      var d := y / FRAME_SIZE - x / FRAME_SIZE;
      assert y == x + d * FRAME_SIZE;
      PageAtDistinct(x, 0, d);
    }
  }

  predicate ByteOf(x: nat, va: nat, i: nat) {
    SameByte(x, va + i)
  }

  ghost predicate Outside(x: nat, va: nat, n: nat) {
    forall i :: 0 <= i < n ==> !ByteOf(x, va, i)
  }

  /** What was written is what is read. */
  lemma {:induction false} WrittenBytesRead(v: Pages, va: nat, s: seq<byte>, i: nat)
    requires PagesOk(v) && i < |s| <= PAGES * FRAME_SIZE && PageOf(va + i) in v
    ensures ReadByte(WriteBytes(v, va, s), va + i) == Some(s[i])
  {
    var n := |s| - 1;
    WriteBytesPages(v, va, s[..n]);
    if i < n {
      WrittenBytesRead(v, va, s[..n], i);
      SameByteDistance(va + i, va + n);
      hide PageOf;
      assert ReadByte(WriteBytes(v, va, s), va + i) == ReadByte(WriteBytes(v, va, s[..n]), va + i);
    }
  }

  /** Every other byte reads as before. */
  lemma {:induction false} OtherBytesRead(v: Pages, va: nat, s: seq<byte>, x: nat)
    requires PagesOk(v) && Outside(x, va, |s|)
    ensures ReadByte(WriteBytes(v, va, s), x) == ReadByte(v, x)
  {
    if s != [] {
      var n := |s| - 1;
      WriteBytesPages(v, va, s[..n]);
      OtherBytesRead(v, va, s[..n], x);
      assert !ByteOf(x, va, n);
    }
  }

  // ---------- page by page ----------

  predicate MappedAt(t: map<nat, Addr>, va: nat, i: nat) {
    PageOf(va + i) in t
  }

  ghost predicate AllMapped(t: map<nat, Addr>, va: nat, n: nat) {
    forall i :: 0 <= i < n ==> MappedAt(t, va, i)
  }

  lemma ViewPages(m: Memory, nodes: Nodes)
    requires TreeOk(m, nodes)
    ensures PagesOk(View(m, nodes)) && View(m, nodes).Keys == Translations(nodes).Keys
  {
    forall p
      ensures p in View(m, nodes) <==> p in Translations(nodes)
      ensures p in View(m, nodes) ==> |View(m, nodes)[p]| == FRAME_SIZE
    {
      ViewAt(m, nodes, p);
      TranslationAt(nodes, p);
    }
  }

  lemma LookedUp(m: Memory, nodes: Nodes, va: nat, pa: Addr)
    requires TreeOk(m, nodes) && PageOf(va) in Translations(nodes)
      && pa == Translations(nodes)[PageOf(va)] + va % FRAME_SIZE
    ensures var f := pa - pa % FRAME_SIZE;
      && f == Translations(nodes)[PageOf(va)] && pa % FRAME_SIZE == va % FRAME_SIZE && f in m && |m[f]| == FRAME_SIZE
      && PageOf(va) in View(m, nodes) && View(m, nodes)[PageOf(va)] == m[f]
  {
    hide EntryOk, PageOf, View, Translations, Parent;
    TranslationAt(nodes, PageOf(va));
    ViewAt(m, nodes, PageOf(va));
  }

  /** Changing the bytes of a mapped frame changes that page of the view only. */
  lemma PageWritten(m: Memory, nodes: Nodes, vp: nat, page: seq<byte>)
    requires TreeOk(m, nodes) && vp in Translations(nodes) && |page| == FRAME_SIZE
    ensures var m' := m[Translations(nodes)[vp] := page];
      TreeOk(m', nodes) && View(m', nodes) == View(m, nodes)[vp := page]
  {
    hide EntryOk, View, Translations, Parent;
    TranslationAt(nodes, vp);
    var f := nodes[Path(4, vp)];
    var m' := m[f := page];
    OutsideTables(m, m', nodes);
    forall p
      ensures p in View(m', nodes) <==> p in View(m, nodes)[vp := page]
      ensures p in View(m', nodes) ==> View(m', nodes)[p] == View(m, nodes)[vp := page][p]
    {
      ViewAt(m, nodes, p);
      ViewAt(m', nodes, p);
    }
  }

  /** Copy `s` into the page of `va`, through its frame. */
  method WriteChunk(k: Machine, va: nat, pa: Addr, s: seq<byte>)
    requires k.Valid() && PageOf(va) in Translations(k.nodes)
      && pa == Translations(k.nodes)[PageOf(va)] + va % FRAME_SIZE
    requires va % FRAME_SIZE + |s| <= FRAME_SIZE
    modifies k`mem
    ensures k.Valid() && View(k.mem, k.nodes) == WriteBytes(old(View(k.mem, k.nodes)), va, s)
    ensures forall b :: b in old(k.mem) && b !in Mapped(k.nodes) ==> b in k.mem && k.mem[b] == old(k.mem)[b]
  {
    hide TreeOk, NoneEmpty, View, Translations, PageOf, ListOk, RegionsOk, Fresh, WriteBytes, Elements;
    LookedUp(k.mem, k.nodes, va, pa);
    ViewPages(k.mem, k.nodes);
    var f, o := pa - pa % FRAME_SIZE, pa % FRAME_SIZE;
    var page := Splice(k.mem[f], o, s);
    WriteBytesInPage(View(k.mem, k.nodes), va, s);
    PageWritten(k.mem, k.nodes, PageOf(va), page);
    TranslationAt(k.nodes, PageOf(va));
    TreeFrames(k.mem, k.nodes);
    k.InUse(f);
    ListFrame(k.mem, k.mem[f := page], k.linkedFree, k.freeList);
    k.mem := k.mem[f := page];
  }

  /** Copy `src` to virtual address `va`; stop with a page fault at the first
      page that is not mapped. */
  method WritePageTableMemory(k: Machine, pml4: Addr, va: nat, src: seq<byte>) returns (ok: bool, ghost n: nat)
    requires k.Valid() && k.Rooted(pml4) && va + |src| < WORD
    modifies k`mem
    ensures k.Valid() && n <= |src| && View(k.mem, k.nodes) == WriteBytes(old(View(k.mem, k.nodes)), va, src[..n])
    ensures ok <==> AllMapped(Translations(k.nodes), va, |src|)
    ensures ok ==> n == |src|
    ensures !ok ==> n < |src| && AllMapped(Translations(k.nodes), va, n) && !MappedAt(Translations(k.nodes), va, n)
    ensures forall b :: b in old(k.mem) && b !in Mapped(k.nodes) ==> b in k.mem && k.mem[b] == old(k.mem)[b]
  {
    hide Machine.Valid, View, Translations, PageOf, WriteBytes, Mapped, Machine.Rooted;
    ghost var v := View(k.mem, k.nodes);
    var i := 0;
    assert src[..0] == [];
    NothingWritten(v, va);
    while i < |src|
      invariant 0 <= i <= |src| && k.Valid() && View(k.mem, k.nodes) == WriteBytes(v, va, src[..i])
      invariant AllMapped(Translations(k.nodes), va, i)
      invariant forall b :: b in old(k.mem) && b !in Mapped(k.nodes) ==> b in k.mem && k.mem[b] == old(k.mem)[b]
    {
      var pa := Lookup(k, pml4, va + i);
      if pa.None? {
        assert !MappedAt(Translations(k.nodes), va, i);
        return false, i;
      }
      var len := FRAME_SIZE - (va + i) % FRAME_SIZE;
      if len > |src| - i {
        len := |src| - i;
      }
      WriteChunk(k, va + i, pa.value, src[i..i + len]);
      WriteBytesConcat(v, va, src[..i], src[i..i + len]);
      assert src[..i] + src[i..i + len] == src[..i + len];
      ChunkMapped(Translations(k.nodes), va, i, len);
      i := i + len;
    }
    assert src[..|src|] == src;
    return true, i;
  }

  lemma NothingWritten(v: Pages, va: nat)
    ensures WriteBytes(v, va, []) == v
  {
  }

  lemma ChunkMapped(t: map<nat, Addr>, va: nat, i: nat, len: nat)
    requires AllMapped(t, va, i) && PageOf(va + i) in t && (va + i) % FRAME_SIZE + len <= FRAME_SIZE
    ensures AllMapped(t, va, i + len)
  {
    hide PageOf;
    forall j | 0 <= j < i + len
      ensures MappedAt(t, va, j)
    {
      if j >= i {
        SamePage(va + i, j - i);
        assert va + i + (j - i) == va + j;
      }
    }
  }

  /** Copy `n` bytes of the page of `va + i`, through its frame. */
  method ReadChunk(k: Machine, va: nat, i: nat, pa: Addr, n: nat) returns (chunk: seq<byte>)
    requires k.Valid() && PageOf(va + i) in Translations(k.nodes)
      && pa == Translations(k.nodes)[PageOf(va + i)] + (va + i) % FRAME_SIZE
    requires (va + i) % FRAME_SIZE + n <= FRAME_SIZE
    ensures |chunk| == n && forall j :: 0 <= j < n ==> ByteAt(View(k.mem, k.nodes), va, i + j) == Some(chunk[j])
  {
    hide Machine.Valid, View, Translations, PageOf, ByteAt, TreeOk, NoneEmpty, Partition;
    k.Invariants();
    LookedUp(k.mem, k.nodes, va + i, pa);
    var f, o := pa - pa % FRAME_SIZE, pa % FRAME_SIZE;
    chunk := k.mem[f][o..o + n];
    forall j | 0 <= j < n
      ensures ByteAt(View(k.mem, k.nodes), va, i + j) == Some(chunk[j])
    {
      ChunkRead(View(k.mem, k.nodes), va, i, j);
    }
  }

  /** Copy `len` bytes from virtual address `va`. */
  method ReadPageTableMemory(k: Machine, pml4: Addr, va: nat, len: nat) returns (r: Option<seq<byte>>)
    requires k.Valid() && k.Rooted(pml4) && va + len < WORD
    ensures r.Some? <==> AllMapped(Translations(k.nodes), va, len)
    ensures r.Some? ==>
      |r.value| == len && forall i :: 0 <= i < len ==> ByteAt(View(k.mem, k.nodes), va, i) == Some(r.value[i])
  {
    hide Machine.Valid, View, Translations, PageOf, ByteAt, Machine.Rooted;
    var data: seq<byte> := [];
    while |data| < len
      invariant |data| <= len && AllMapped(Translations(k.nodes), va, |data|)
      invariant forall i :: 0 <= i < |data| ==> ByteAt(View(k.mem, k.nodes), va, i) == Some(data[i])
    {
      var i := |data|;
      var pa := Lookup(k, pml4, va + i);
      if pa.None? {
        assert !MappedAt(Translations(k.nodes), va, i);
        return None;
      }
      var n := FRAME_SIZE - (va + i) % FRAME_SIZE;
      if n > len - i {
        n := len - i;
      }
      var chunk := ReadChunk(k, va, i, pa.value, n);
      ChunkMapped(Translations(k.nodes), va, i, n);
      data := data + chunk;
    }
    return Some(data);
  }

  lemma ChunkRead(v: Pages, va: nat, i: nat, j: nat)
    requires PageOf(va + i) in v && |v[PageOf(va + i)]| == FRAME_SIZE && (va + i) % FRAME_SIZE + j < FRAME_SIZE
    ensures ByteAt(v, va, i + j) == Some(v[PageOf(va + i)][(va + i) % FRAME_SIZE + j])
  {
    SamePage(va + i, j);
    assert va + i + j == va + (i + j);
  }
}
