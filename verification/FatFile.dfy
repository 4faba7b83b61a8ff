/** Reading and writing a file of a FAT32 volume through its cluster chain, against the
    file as a sequence of bytes with a cursor. */
module FatFile {
  import opened Arithmetic
  import opened Bytes
  import opened Pieces
  import opened FatVolume
  import opened Options

  const U32_MAX := 0xFFFF_FFFF

  // ---------- the sectors of one cluster ----------

  lemma VisibleUniform(g: Geometry, buf: seq<Block>)
    requires GeometryOk(g) && BufferOk(g, buf)
    ensures Uniform(Visible(g, buf), g.bps) && |Flatten(Visible(g, buf))| == At(g.bps, g.spc)
  {
    FlattenLength(Visible(g, buf), g.bps);
  }

  /** Where piece `i` stands among pieces of `n` bytes. */
  ghost function At(n: nat, i: nat): nat {
    i * n
  }

  function BytesPerCluster(g: Geometry): (n: nat)
    ensures n == At(g.bps, g.spc)
  {
    g.bps * g.spc
  }

  lemma AtNext(n: nat, i: nat, count: nat)
    ensures At(n, 0) == 0 && At(n, i + 1) == At(n, i) + n && (i < count ==> At(n, i + 1) <= At(n, count))
  {
    if i < count {
      Monotone(i + 1, count, n);
    }
  }

  lemma SectorSlice(g: Geometry, buf: seq<Block>, i: nat, a: nat, b: nat)
    requires GeometryOk(g) && BufferOk(g, buf) && i < g.spc && a <= b <= g.bps
    ensures At(g.bps, i) + g.bps <= |Flatten(Visible(g, buf))|
      && Cut(Flatten(Visible(g, buf)), At(g.bps, i) + a, At(g.bps, i) + b) == buf[i][a..b]
  {
    hide Flatten, GeometryOk;
    VisibleUniform(g, buf);
    FlattenSlice(Visible(g, buf), g.bps, i, a, b);
    AtNext(g.bps, i, g.spc);
    assert Visible(g, buf)[i][a..b] == buf[i][a..b];
  }

  ghost function Cut(v: seq<byte>, a: nat, b: nat): seq<byte>
    requires a <= b <= |v|
  {
    v[a..b]
  }

  lemma CutPrefix(v: seq<byte>, n: nat, a: nat, b: nat)
    requires a <= b <= n <= |v|
    ensures v[..n][a..b] == Cut(v, a, b)
  {
  }

  lemma Joined(v: seq<byte>, a: nat, b: nat, c: nat)
    requires a <= b <= c <= |v|
    ensures Cut(v, a, b) + Cut(v, b, c) == Cut(v, a, c) && Cut(v, a, a) == []
  {
  }

  /** Copy out what is wanted of a cluster, sector by sector: `offset` is the place of
      the cluster in the file and `pointer` the cursor. */
  method TakeSectors(g: Geometry, buf: seq<Block>, offset0: nat, pointer0: nat, remain0: nat, ghost whole: nat)
    returns (out: seq<byte>, offset: nat, pointer: nat, remain: nat)
    requires GeometryOk(g) && BufferOk(g, buf) && whole == At(g.bps, g.spc) && offset0 <= pointer0 <= offset0 + whole
      && remain0 > 0
    ensures |out| == Min(offset0 + whole - pointer0, remain0) && pointer == pointer0 + |out|
      && remain == remain0 - |out|
    ensures |Flatten(Visible(g, buf))| == whole
      && out == Cut(Flatten(Visible(g, buf)), pointer0 - offset0, pointer0 - offset0 + |out|)
    ensures remain > 0 ==> offset == offset0 + whole == pointer
  {
    hide Flatten, Visible, GeometryOk, At, Cut;
    ghost var v := Flatten(Visible(g, buf));
    VisibleUniform(g, buf);
    Joined(v, pointer0 - offset0, pointer0 - offset0, pointer0 - offset0);
    out, offset, pointer, remain := [], offset0, pointer0, remain0;
    AtNext(g.bps, 0, g.spc);
    for i := 0 to g.spc
      invariant offset == offset0 + At(g.bps, i) && remain > 0 && offset <= pointer <= offset0 + whole
      invariant pointer == pointer0 + |out| && remain == remain0 - |out| && (out == [] || pointer == offset)
      invariant out == Cut(v, pointer0 - offset0, pointer - offset0)
    {
      AtNext(g.bps, i, g.spc);
      if offset + g.bps < pointer {
        offset := offset + g.bps;
        continue;
      }
      var start := pointer - offset;
      var length := Min(g.bps - start, remain);
      SectorSlice(g, buf, i, start, start + length);
      Joined(v, pointer0 - offset0, pointer - offset0, pointer - offset0 + length);
      out := out + buf[i][start..start + length];
      offset := offset + g.bps;
      pointer := pointer + length;
      remain := remain - length;
      if remain == 0 {
        break;
      }
    }
  }

  lemma SectorSplice(g: Geometry, buf: seq<Block>, i: nat, a: nat, t: seq<byte>)
    requires GeometryOk(g) && BufferOk(g, buf) && i < g.spc && a + |t| <= g.bps
    ensures At(g.bps, i) + g.bps <= |Flatten(Visible(g, buf))|
    ensures var buf' := buf[i := Splice(buf[i], a, t)];
      BufferOk(g, buf') && Flatten(Visible(g, buf')) == Splice(Flatten(Visible(g, buf)), At(g.bps, i) + a, t)
  {
    hide Flatten, GeometryOk;
    VisibleUniform(g, buf);
    FlattenSplice(Visible(g, buf), g.bps, i, a, t);
    AtNext(g.bps, i, g.spc);
    var buf' := buf[i := Splice(buf[i], a, t)];
    assert buf'[i][..g.bps] == Splice(buf[i][..g.bps], a, t);
    assert Visible(g, buf') == Visible(g, buf)[i := Splice(Visible(g, buf)[i], a, t)];
  }

  /** Copy `src` into a cluster, as much as fits from the cursor on. */
  method PutSectors(g: Geometry, buf0: seq<Block>, offset0: nat, pointer0: nat, src: seq<byte>, ghost whole: nat)
    returns (buf: seq<Block>, done: nat, offset: nat, pointer: nat)
    requires GeometryOk(g) && BufferOk(g, buf0) && whole == At(g.bps, g.spc)
      && offset0 <= pointer0 <= offset0 + whole && src != []
    ensures BufferOk(g, buf) && done == Min(offset0 + whole - pointer0, |src|) && pointer == pointer0 + done
    ensures |Flatten(Visible(g, buf0))| == whole
    ensures Flatten(Visible(g, buf)) == Splice(Flatten(Visible(g, buf0)), pointer0 - offset0, src[..done])
    ensures done < |src| ==> offset == offset0 + whole == pointer
  {
    hide Flatten, Visible, GeometryOk, Splice, At;
    ghost var v := Flatten(Visible(g, buf0));
    VisibleUniform(g, buf0);
    buf, done, offset, pointer := buf0, 0, offset0, pointer0;
    AtNext(g.bps, 0, g.spc);
    NoSplice(v, pointer0 - offset0);
    assert src[..0] == [];
    for i := 0 to g.spc
      invariant offset == offset0 + At(g.bps, i) && done < |src| && offset <= pointer <= offset0 + whole
      invariant pointer == pointer0 + done && (done == 0 || pointer == offset) && BufferOk(g, buf)
      invariant Flatten(Visible(g, buf)) == Splice(v, pointer0 - offset0, src[..done])
    {
      AtNext(g.bps, i, g.spc);
      if offset + g.bps < pointer {
        offset := offset + g.bps;
        continue;
      }
      var start := pointer - offset;
      var length := Min(g.bps - start, |src| - done);
      SectorSplice(g, buf, i, start, src[done..done + length]);
      SpliceTwice(v, pointer0 - offset0, src[..done], src[done..done + length]);
      assert src[..done] + src[done..done + length] == src[..done + length];
      buf := buf[i := Splice(buf[i], start, src[done..done + length])];
      offset := offset + g.bps;
      pointer := pointer + length;
      done := done + length;
      if done == |src| {
        break;
      }
    }
  }

  lemma NoSplice(v: seq<byte>, p: nat)
    requires p <= |v|
    ensures Splice(v, p, []) == v
  {
  }

  // ---------- chains and files ----------

  /** `chain` is linked through the table and ends there, and visits no cluster twice. */
  ghost predicate IsChain(g: Geometry, fat: seq<nat>, chain: seq<nat>) {
    && |fat| == g.maxCluster + 2 && chain != []
    && (forall i :: 0 <= i < |chain| ==> IsCluster(g, chain[i]))
    && (forall i, j :: 0 <= i < j < |chain| ==> chain[i] != chain[j])
    && (forall i :: 0 <= i < |chain| ==> Links(fat, chain, i))
  }

  ghost predicate Links(fat: seq<nat>, chain: seq<nat>, i: nat)
    requires i < |chain| && chain[i] < |fat|
  {
    if i + 1 < |chain| then fat[chain[i]] == chain[i + 1] else EOC_START <= fat[chain[i]] < U32
  }

  /** The bytes of each cluster of the chain. */
  ghost function PerCluster(data: seq<seq<Block>>, chain: seq<nat>): seq<seq<byte>>
    requires forall i :: 0 <= i < |chain| ==> chain[i] < |data|
  {
    seq(|chain|, i requires 0 <= i < |chain| => Flatten(data[chain[i]]))
  }

  ghost function ChainBytes(data: seq<seq<Block>>, chain: seq<nat>): seq<byte>
    requires forall i :: 0 <= i < |chain| ==> chain[i] < |data|
  {
    Flatten(PerCluster(data, chain))
  }

  /** Every cluster of `data` has its sectors, whole. */
  ghost predicate Wellsized(g: Geometry, data: seq<seq<Block>>) {
    |data| == g.maxCluster + 2 && forall c: nat :: IsCluster(g, c) ==> |data[c]| == g.spc && Uniform(data[c], g.bps)
  }

  lemma HoldsWellsized(v: Volume)
    requires v.Holds()
    ensures Wellsized(v.g, v.data) && |v.fat| == v.g.maxCluster + 2 && GeometryOk(v.g)
  {
    forall c: nat | IsCluster(v.g, c)
      ensures |v.data[c]| == v.g.spc && Uniform(v.data[c], v.g.bps)
    {
      ClusterPlace(v.g, c);
      assert ClusterIs(v.g, v.disk, c, v.data[c]);
    }
  }

  lemma ChainUniform(g: Geometry, fat: seq<nat>, data: seq<seq<Block>>, chain: seq<nat>)
    requires IsChain(g, fat, chain) && Wellsized(g, data)
    ensures chain != [] && forall i :: 0 <= i < |chain| ==> chain[i] < |data| == |fat|
    ensures Uniform(PerCluster(data, chain), At(g.bps, g.spc)) && |PerCluster(data, chain)| == |chain|
    ensures |ChainBytes(data, chain)| == At(At(g.bps, g.spc), |chain|)
  {
    hide Flatten;
    forall i | 0 <= i < |chain|
      ensures |PerCluster(data, chain)[i]| == At(g.bps, g.spc)
    {
      assert IsCluster(g, chain[i]);
      FlattenLength(data[chain[i]], g.bps);
    }
    FlattenLength(PerCluster(data, chain), At(g.bps, g.spc));
  }

  /** Part of cluster `k` of a chain, in the whole. */
  lemma ChainCut(g: Geometry, fat: seq<nat>, data: seq<seq<Block>>, chain: seq<nat>, k: nat, a: nat, b: nat)
    requires IsChain(g, fat, chain) && Wellsized(g, data) && k < |chain| && a <= b <= At(g.bps, g.spc)
    ensures var w := At(g.bps, g.spc);
      && At(w, k) + b <= |ChainBytes(data, chain)| && |Flatten(data[chain[k]])| == w
      && Cut(ChainBytes(data, chain), At(w, k) + a, At(w, k) + b) == Cut(Flatten(data[chain[k]]), a, b)
  {
    hide Flatten, IsChain, Wellsized;
    ChainUniform(g, fat, data, chain);
    FlattenSlice(PerCluster(data, chain), At(g.bps, g.spc), k, a, b);
  }

  /** The next value read from the table on the way along a chain. */
  ghost function Upcoming(fat: seq<nat>, chain: seq<nat>, k: nat): nat
    requires chain != [] && k <= |chain| && chain[|chain| - 1] < |fat|
  {
    if k < |chain| then chain[k] else fat[chain[|chain| - 1]]
  }

  lemma UpcomingIs(g: Geometry, fat: seq<nat>, chain: seq<nat>, k: nat)
    requires IsChain(g, fat, chain) && k <= |chain|
    ensures k < |chain| ==> IsCluster(g, chain[k]) && fat[chain[k]] == Upcoming(fat, chain, k + 1)
    ensures var c := Upcoming(fat, chain, k);
      c != FREE && (c < EOC_START <==> k < |chain|) && (k < |chain| ==> c == chain[k])
    requires g.maxCluster + 2 <= RESERVED_START
  {
    assert Links(fat, chain, |chain| - 1);
    if k < |chain| {
      assert Links(fat, chain, k);
    }
  }

  datatype Status = Done | FileClosed | FileTooLarge | DiskFull

  /** An open file. */
  class Handle {
    const vol: Volume
    const start: nat
    var size: nat
    var pointer: nat
    var closed: bool
    ghost var chain: seq<nat>

    constructor (vol: Volume, start: nat, size: nat, ghost chain: seq<nat>)
      requires vol.Valid() && IsChain(vol.g, vol.fat, chain) && chain[0] == start && Wellsized(vol.g, vol.data)
      requires size <= U32_MAX && size <= |ChainBytes(vol.data, chain)|
      ensures Valid() && this.vol == vol && this.chain == chain && this.size == size && pointer == 0 && !closed
    {
      this.vol, this.start, this.size, this.pointer, this.closed := vol, start, size, 0, false;
      this.chain := chain;
    }

    ghost predicate Valid()
      reads this, vol
    {
      && vol.Valid() && IsChain(vol.g, vol.fat, chain) && chain[0] == start && Wellsized(vol.g, vol.data)
      && pointer <= size <= U32_MAX && size <= |ChainBytes(vol.data, chain)|
    }

    /** What the file holds. */
    ghost function Content(): seq<byte>
      requires Valid()
      reads this, vol
    {
      ChainBytes(vol.data, chain)[..size]
    }

    /** Set the cursor, but not beyond the end. */
    method MovePointer(position: nat) returns (ok: bool)
      requires Valid()
      modifies this`pointer
      ensures Valid() && Content() == old(Content()) && ok == !closed
      ensures pointer == if closed then old(pointer) else Min(position, size)
    {
      if closed {
        return false;
      }
      pointer := Min(position, size);
      return true;
    }

    lemma ReadReady()
      requires Valid()
      ensures vol.Holds()
    {
    }

    /** Read up to `len` bytes from the cursor on. */
    method Read(len: nat) returns (r: Option<seq<byte>>)
      requires Valid()
      modifies this`pointer
      ensures Valid() && Content() == old(Content()) && (r.None? <==> closed)
      ensures r.None? ==> pointer == old(pointer)
      ensures r.Some? ==> |r.value| == Min(len, size - old(pointer)) && pointer == old(pointer) + |r.value|
      ensures r.Some? ==> r.value == Content()[old(pointer)..pointer]
    {
      hide Volume.Valid, IsChain, ChainBytes, Wellsized;
      if closed {
        return None;
      }
      ChainUniform(vol.g, vol.fat, vol.data, chain);
      ReadReady();
      var out, p := ReadChain(vol, start, pointer, Min(len, size - pointer), chain, size);
      CutPrefix(ChainBytes(vol.data, chain), size, pointer, p);
      pointer := p;
      return Some(out);
    }
  }

  /** Follow the chain from `start` and collect `length` bytes from `pointer0` on. */
  method ReadChain(vol: Volume, start: nat, pointer0: nat, length: nat, ghost chain: seq<nat>, ghost size: nat)
    returns (out: seq<byte>, pointer: nat)
    requires vol.Holds() && Wellsized(vol.g, vol.data) && IsChain(vol.g, vol.fat, chain) && chain[0] == start
    requires pointer0 + length <= size <= |ChainBytes(vol.data, chain)|
    ensures |out| == length && pointer == pointer0 + length
      && out == Cut(ChainBytes(vol.data, chain), pointer0, pointer)
  {
    hide Volume.Holds, IsChain, ChainBytes, Wellsized, At, Cut, Upcoming, Flatten, Visible, BytesPerCluster,
      GeometryOk, BufferOk;
    HoldsWellsized(vol);
    ChainUniform(vol.g, vol.fat, vol.data, chain);
    ghost var fb, whole, k := ChainBytes(vol.data, chain), At(vol.g.bps, vol.g.spc), 0;
    var bytesPerCluster := BytesPerCluster(vol.g);
    var cluster, offset, remain := start, 0, length;
    out, pointer := [], pointer0;
    Joined(fb, pointer0, pointer0, pointer0);
    AtNext(whole, 0, |chain|);
    UpcomingIs(vol.g, vol.fat, chain, 0);
    while cluster != FREE && cluster < EOC_START && remain > 0
      invariant 0 <= k <= |chain| && cluster == Upcoming(vol.fat, chain, k) && offset == At(whole, k)
      invariant pointer == pointer0 + |out| && remain == length - |out| && out == Cut(fb, pointer0, pointer)
      invariant remain > 0 ==> offset <= pointer
      decreases |chain| - k
    {
      UpcomingIs(vol.g, vol.fat, chain, k);
      AtNext(whole, k, |chain|);
      if offset + bytesPerCluster < pointer {
        offset := offset + bytesPerCluster;
        cluster := vol.GetNextCluster(cluster);
        k := k + 1;
        continue;
      }
      var buf := vol.ReadCluster(cluster);
      var piece;
      ghost var p := pointer;
      piece, offset, pointer, remain := TakeSectors(vol.g, buf, offset, pointer, remain, whole);
      ChainCut(vol.g, vol.fat, vol.data, chain, k, p - At(whole, k), p - At(whole, k) + |piece|);
      Joined(fb, pointer0, p, pointer);
      out := out + piece;
      if remain == 0 {
        break;
      }
      cluster := vol.GetNextCluster(cluster);
      k := k + 1;
    }
    UpcomingIs(vol.g, vol.fat, chain, k);
  }
}
