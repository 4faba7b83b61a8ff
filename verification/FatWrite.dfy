/** Writing a file of a FAT32 volume: bytes in place, then new clusters at the
    end of the chain. */
module FatWrite {
  import opened Arithmetic
  import opened Bytes
  import opened Pieces
  import opened FatVolume
  import opened FatFile
  import opened Options

  /** `n` is `was` with the first `w` bytes of `src` written at `p`, perhaps longer. */
  ghost predicate Wrote(n: seq<byte>, was: seq<byte>, p: nat, src: seq<byte>, w: nat) {
    && p <= |was| <= |n| && p + w <= |n| && w <= |src|
    && n[..p] == was[..p] && n[p..p + w] == src[..w] && (p + w <= |was| ==> n[p + w..|was|] == was[p + w..])
  }

  lemma WroteNothing(s: seq<byte>, p: nat, src: seq<byte>)
    requires p <= |s|
    ensures Wrote(s, s, p, src, 0)
  {
  }

  lemma WroteMore(n: seq<byte>, s: seq<byte>, p: nat, src: seq<byte>, w: nat, l: nat)
    requires Wrote(n, s, p, src, w) && w + l <= |src| && p + w + l <= |n|
    ensures Wrote(Splice(n, p + w, src[w..w + l]), s, p, src, w + l)
  {
    var n' := Splice(n, p + w, src[w..w + l]);
    assert n'[..p] == n[..p];
    assert n'[p..p + w + l] == n[p..p + w] + src[w..w + l];
    assert src[..w] + src[w..w + l] == src[..w + l];
    if p + w + l <= |s| {
      assert n'[p + w + l..|s|] == n[p + w + l..|s|] == s[p + w + l..];
    }
  }

  lemma WroteAppended(n: seq<byte>, s: seq<byte>, p: nat, src: seq<byte>, w: nat, z: seq<byte>, l: nat)
    requires Wrote(n, s, p, src, w) && p + w == |n| && w + l <= |src| && l <= |z|
    ensures Wrote(n + Splice(z, 0, src[w..w + l]), s, p, src, w + l)
  {
    var n' := n + Splice(z, 0, src[w..w + l]);
    assert n'[..p] == n[..p];
    assert n'[p..p + w + l] == n[p..] + src[w..w + l];
    assert n[p..p + w] == n[p..];
    assert src[..w] + src[w..w + l] == src[..w + l];
    assert |s| == |n| ==> n'[p + w..|s|] == [];
  }

  /** The bytes at `p` replaced by `t`, and more at the end if need be. */
  function Overwritten(s: seq<byte>, p: nat, t: seq<byte>): seq<byte>
    requires p <= |s|
  {
    s[..p] + t + if p + |t| < |s| then s[p + |t|..] else []
  }

  /** What was written is what is read there, and the bytes around it are as they were. */
  lemma OverwrittenReads(s: seq<byte>, p: nat, t: seq<byte>)
    requires p <= |s|
    ensures var r := Overwritten(s, p, t);
      && |r| == (if p + |t| > |s| then p + |t| else |s|) && r[p..p + |t|] == t && r[..p] == s[..p]
      && (p + |t| <= |s| ==> r[p + |t|..] == s[p + |t|..])
  {
  }

  lemma WroteAll(n: seq<byte>, s: seq<byte>, p: nat, src: seq<byte>, size: nat)
    requires Wrote(n, s, p, src, |src|) && p <= size <= |s|
    ensures var size' := if p + |src| > size then p + |src| else size;
      size' <= |n| && n[..size'] == Overwritten(s[..size], p, src)
  {
    assert src[..|src|] == src;
    if p + |src| <= size {
      var q := p + |src|;
      assert n[..size] == n[..p] + n[p..q] + n[q..size];
      assert n[q..|s|][..size - q] == n[q..size];
      assert s[q..][..size - q] == s[..size][q..];
    } else {
      assert n[..p + |src|] == n[..p] + n[p..p + |src|];
    }
  }

  // ---------- chains while clusters change ----------

  lemma OtherBytes(data: seq<seq<Block>>, c: nat, sectors: seq<Block>, chain: seq<nat>)
    requires c < |data| && c !in chain && forall i :: 0 <= i < |chain| ==> chain[i] < |data|
    ensures ChainBytes(data[c := sectors], chain) == ChainBytes(data, chain)
  {
    assert PerCluster(data[c := sectors], chain) == PerCluster(data, chain);
  }

  lemma ChainSpliced(g: Geometry, fat: seq<nat>, data: seq<seq<Block>>, chain: seq<nat>, k: nat, sectors: seq<Block>,
      a: nat, t: seq<byte>)
    requires IsChain(g, fat, chain) && Wellsized(g, data) && k < |chain| && a + |t| <= At(g.bps, g.spc)
    requires |Flatten(data[chain[k]])| == At(g.bps, g.spc) && Flatten(sectors) == Splice(Flatten(data[chain[k]]), a, t)
    ensures At(At(g.bps, g.spc), k) + a + |t| <= |ChainBytes(data, chain)|
    ensures ChainBytes(data[chain[k] := sectors], chain)
      == Splice(ChainBytes(data, chain), At(At(g.bps, g.spc), k) + a, t)
  {
    hide Flatten;
    ChainUniform(g, fat, data, chain);
    FlattenSplice(PerCluster(data, chain), At(g.bps, g.spc), k, a, t);
    var data' := data[chain[k] := sectors];
    var ps, ps' := PerCluster(data, chain), PerCluster(data', chain);
    forall i | 0 <= i < |chain|
      ensures ps'[i] == ps[k := Splice(ps[k], a, t)][i]
    {
      assert i != k ==> chain[i] != chain[k];
    }
    assert ps' == ps[k := Splice(ps[k], a, t)];
  }

  lemma NotInChain(g: Geometry, fat: seq<nat>, chain: seq<nat>, c: nat)
    requires IsChain(g, fat, chain) && c < |fat| && fat[c] == FREE
    ensures c !in chain
  {
    forall i | 0 <= i < |chain|
      ensures chain[i] != c
    {
      assert Links(fat, chain, i);
    }
  }

  /** Hanging a free cluster at the end gives a longer chain ... */
  lemma ChainExtended(g: Geometry, fat: seq<nat>, chain: seq<nat>, c: nat)
    requires IsChain(g, fat, chain) && IsCluster(g, c) && c < |fat| && fat[c] == FREE
    ensures c !in chain && chain[|chain| - 1] < |fat|
      && IsChain(g, fat[c := EOC_START][chain[|chain| - 1] := c], chain + [c])
  {
    NotInChain(g, fat, chain, c);
    var last, chain' := chain[|chain| - 1], chain + [c];
    assert IsCluster(g, last);
    var fat' := fat[c := EOC_START][last := c];
    forall i | 0 <= i < |chain'|
      ensures IsCluster(g, chain'[i]) && Links(fat', chain', i)
    {
      if i < |chain| {
        assert Links(fat, chain, i);
      }
    }
  }

  ghost predicate Disjoint(a: seq<nat>, b: seq<nat>) {
    forall i, j :: 0 <= i < |a| && 0 <= j < |b| ==> a[i] != b[j]
  }

  /** ... and leaves every other chain alone. */
  lemma OtherChain(g: Geometry, fat: seq<nat>, chain: seq<nat>, c: nat, o: seq<nat>)
    requires IsChain(g, fat, chain) && IsChain(g, fat, o) && Disjoint(o, chain) && IsCluster(g, c) && c < |fat|
      && fat[c] == FREE
    ensures c !in o && chain[|chain| - 1] < |fat|
    ensures IsChain(g, fat[c := EOC_START][chain[|chain| - 1] := c], o) && Disjoint(o, chain + [c])
  {
    NotInChain(g, fat, o, c);
    var fat' := fat[c := EOC_START][chain[|chain| - 1] := c];
    forall i | 0 <= i < |o|
      ensures Links(fat', o, i)
    {
      assert Links(fat, o, i);
      assert o[i] != chain[|chain| - 1] && o[i] != c;
    }
  }

  lemma BytesExtended(data: seq<seq<Block>>, chain: seq<nat>, c: nat, sectors: seq<Block>)
    requires c < |data| && c !in chain && forall i :: 0 <= i < |chain| ==> chain[i] < |data|
    ensures ChainBytes(data[c := sectors], chain + [c]) == ChainBytes(data, chain) + Flatten(sectors)
  {
    hide Flatten;
    var data' := data[c := sectors];
    assert PerCluster(data', chain + [c]) == PerCluster(data, chain) + [Flatten(sectors)];
    FlattenConcat(PerCluster(data, chain), [Flatten(sectors)]);
    FlattenSingle(Flatten(sectors));
  }

  lemma FlattenSingle(s: seq<byte>)
    ensures Flatten([s]) == s
  {
  }

  // ---------- the two phases of a write ----------

  /** Every other file, by its chain, with the bytes it holds. */
  type Files = map<seq<nat>, seq<byte>>

  ghost predicate FilesKept(g: Geometry, fat: seq<nat>, data: seq<seq<Block>>, chain: seq<nat>, files: Files) {
    forall o :: o in files ==>
      IsChain(g, fat, o) && |data| == |fat| && ChainBytes(data, o) == files[o] && Disjoint(o, chain)
  }

  /** The volume is in order and `w` bytes of `src` have been written at `p` to the
      file with this chain, whose bytes were `was`. */
  ghost predicate Writing(v: Volume, chain: seq<nat>, was: seq<byte>, p: nat, src: seq<byte>, w: nat, files: Files)
    reads v
  {
    && v.Valid() && Wellsized(v.g, v.data) && IsChain(v.g, v.fat, chain)
    && Wrote(ChainBytes(v.data, chain), was, p, src, w) && FilesKept(v.g, v.fat, v.data, chain, files)
  }

  lemma FilesKeptData(g: Geometry, fat: seq<nat>, data: seq<seq<Block>>, chain: seq<nat>, files: Files, k: nat,
      sectors: seq<Block>)
    requires FilesKept(g, fat, data, chain, files) && k < |chain| && chain[k] < |data|
    ensures FilesKept(g, fat, data[chain[k] := sectors], chain, files)
  {
    forall o | o in files
      ensures ChainBytes(data, o) == files[o] && ChainBytes(data[chain[k] := sectors], o) == files[o]
    {
      assert IsChain(g, fat, o);
      OtherBytes(data, chain[k], sectors, o);
    }
  }

  lemma FilesKeptFat(g: Geometry, fat: seq<nat>, data: seq<seq<Block>>, chain: seq<nat>, files: Files, c: nat,
      sectors: seq<Block>)
    requires FilesKept(g, fat, data, chain, files) && IsChain(g, fat, chain) && IsCluster(g, c)
      && c < |fat| == |data| && fat[c] == FREE
    ensures chain[|chain| - 1] < |fat|
    ensures FilesKept(g, fat[c := EOC_START][chain[|chain| - 1] := c], data[c := sectors], chain + [c], files)
  {
    assert IsCluster(g, chain[|chain| - 1]);
    forall o | o in files
      ensures IsChain(g, fat[c := EOC_START][chain[|chain| - 1] := c], o) && Disjoint(o, chain + [c])
      ensures ChainBytes(data[c := sectors], o) == files[o]
    {
      OtherChain(g, fat, chain, c, o);
      OtherBytes(data, c, sectors, o);
    }
  }

  /** Write into cluster `k` of the chain. */
  method OverwriteCluster(v: Volume, cluster: nat, offset0: nat, pointer0: nat, src: seq<byte>, done: nat,
                          ghost chain: seq<nat>, ghost k: nat, ghost was: seq<byte>, ghost p: nat,
                            ghost files: Files, ghost whole: nat)
    returns (more: nat, offset: nat, pointer: nat)
    requires Writing(v, chain, was, p, src, done, files) && done < |src| && k < |chain| && cluster == chain[k]
    requires whole == At(v.g.bps, v.g.spc) && offset0 == At(whole, k) && offset0 <= pointer0 <= offset0 + whole
      && pointer0 == p + done
    modifies v`disk, v`data
    ensures v.fat == old(v.fat) && more == Min(offset0 + whole - pointer0, |src| - done) && pointer == pointer0 + more
    ensures Writing(v, chain, was, p, src, done + more, files)
    ensures done + more < |src| ==> offset == offset0 + whole == pointer
  {
    hide IsChain, ChainBytes, At, Flatten, Visible, Splice, Wrote, FilesKept, Volume.Marked, GeometryOk;
    HoldsWellsized(v);
    ChainUniform(v.g, v.fat, v.data, chain);
    ClusterOf(v.g, v.fat, chain, k);
    var buf := v.ReadCluster(cluster);
    ghost var data := v.data;
    var buf';
    buf', more, offset, pointer := PutSectors(v.g, buf, offset0, pointer0, src[done..], whole);
    assert src[done..][..more] == src[done..done + more];
    ChainSpliced(v.g, v.fat, data, chain, k, Visible(v.g, buf'), pointer0 - offset0, src[done..done + more]);
    WroteMore(ChainBytes(data, chain), was, p, src, done, more);
    FilesKeptData(v.g, v.fat, data, chain, files, k, Visible(v.g, buf'));
    v.WriteCluster(cluster, buf');
    HoldsWellsized(v);
  }

  lemma ClusterOf(g: Geometry, fat: seq<nat>, chain: seq<nat>, k: nat)
    requires IsChain(g, fat, chain) && k < |chain|
    ensures IsCluster(g, chain[k]) && chain[k] < |fat|
  {
  }

  lemma ZeroBuffer(g: Geometry, buf: seq<Block>)
    requires GeometryOk(g) && buf == seq(g.spc, _ => seq(g.blockSize, _ => 0 as byte))
    ensures BufferOk(g, buf)
  {
  }

  /** The free cluster `c` hung at the end of the chain, and `sectors` written to it. */
  lemma Appended(v: Volume, fat: seq<nat>, data: seq<seq<Block>>, chain: seq<nat>, c: nat, sectors: seq<Block>,
                 was: seq<byte>, p: nat, src: seq<byte>, w: nat, files: Files, z: seq<byte>, l: nat)
    requires IsChain(v.g, fat, chain) && Wellsized(v.g, data) && IsCluster(v.g, c) && c < |fat| == |data|
      && fat[c] == FREE
    requires Wrote(ChainBytes(data, chain), was, p, src, w) && p + w == |ChainBytes(data, chain)|
      && FilesKept(v.g, fat, data, chain, files)
    requires w + l <= |src| && l <= |z| && Flatten(sectors) == Splice(z, 0, src[w..w + l])
    requires v.Valid() && Wellsized(v.g, v.data) && v.data == data[c := sectors]
      && v.fat == fat[c := EOC_START][chain[|chain| - 1] := c]
    ensures Writing(v, chain + [c], was, p, src, w + l, files)
  {
    hide Flatten, Wrote, FilesKept, Volume.Valid, Wellsized;
    ChainExtended(v.g, fat, chain, c);
    BytesExtended(data, chain, c, sectors);
    WroteAppended(ChainBytes(data, chain), was, p, src, w, z, l);
    FilesKeptFat(v.g, fat, data, chain, files, c, sectors);
  }

  /** Hanging the found cluster `c` behind `last` costs one free cluster. */
  lemma TakenAndLinked(g: Geometry, fat: seq<nat>, info: Option<FsInfo>, c: nat, last: nat, info': Option<FsInfo>)
    requires c < |fat| && IsCluster(g, c) && fat[c] == FREE && last < |fat| && last != c && fat[last] != FREE
    requires info.None? ==> info'.None?
    requires info.Some? ==> info.value.free > 0 && info' == Some(info.value.(free := info.value.free - 1))
    ensures var fat' := fat[c := EOC_START][last := c];
      && FreeCount(g, fat') == FreeCount(g, fat) - 1
      && Available(g, fat', info') == Available(g, fat, info) - 1
      && (Overstated(g, fat', info') <==> Overstated(g, fat, info))
  {
    hide FreeClusters;
    FreeTaken(g, fat, c, EOC_START);
    FreeKept(g, fat[c := EOC_START], last, c);
  }

  /** Take a free cluster, hang it at the end, and write into it. */
  method AppendCluster(v: Volume, last: nat, offset0: nat, pointer0: nat, src: seq<byte>, done: nat,
                       ghost chain: seq<nat>, ghost was: seq<byte>, ghost p: nat, ghost files: Files, ghost whole: nat)
    returns (r: Option<nat>, more: nat, offset: nat, pointer: nat)
    requires Writing(v, chain, was, p, src, done, files) && done < |src| && last == chain[|chain| - 1]
    requires whole == At(v.g.bps, v.g.spc) && offset0 == pointer0 == p + done == At(whole, |chain|)
    requires v.fsInfo.None? || v.fsInfo.value.free == 0 || FreeCount(v.g, v.fat) > 0
    modifies v`disk, v`data, v`fat, v`fsInfo
    ensures r.None? <==> old(Available(v.g, v.fat, v.fsInfo)) == 0
    ensures r.None? ==> v.fat == old(v.fat) && v.fsInfo == old(v.fsInfo)
    ensures r.Some? ==> FreeCount(v.g, v.fat) == old(FreeCount(v.g, v.fat)) - 1
    ensures r.Some? ==> Available(v.g, v.fat, v.fsInfo) == old(Available(v.g, v.fat, v.fsInfo)) - 1
    ensures Overstated(v.g, v.fat, v.fsInfo) <==> old(Overstated(v.g, v.fat, v.fsInfo))
    ensures r.None? ==> Writing(v, chain, was, p, src, done, files) && more == 0
    ensures r.Some? ==> Writing(v, chain + [r.value], was, p, src, done + more, files)
    ensures r.Some? ==> more == Min(whole, |src| - done) > 0 && pointer == pointer0 + more
    ensures r.Some? && done + more < |src| ==> offset == offset0 + whole == pointer
  {
    hide IsChain, ChainBytes, At, Flatten, Visible, Splice, Wrote, FilesKept, Volume.Holds, FreeClusters;
    HoldsWellsized(v);
    ChainUniform(v.g, v.fat, v.data, chain);
    ghost var fat, data := v.fat, v.data;
    ClusterOf(v.g, fat, chain, |chain| - 1);
    more, offset, pointer := 0, offset0, pointer0;
    ghost var info := v.fsInfo;
    NoneFree(v.g, fat);
    r := v.FindAvailableCluster();
    if r.None? {
      return;
    }
    ChainEnd(v.g, fat, chain, r.value);
    v.UpdateCluster(last, r.value);
    TakenAndLinked(v.g, fat, info, r.value, last, v.fsInfo);
    var buf := seq(v.g.spc, _ => seq(v.g.blockSize, _ => 0 as byte));
    ZeroBuffer(v.g, buf);
    var buf';
    AtNext(v.g.bps, 0, v.g.spc);
    buf', more, offset, pointer := PutSectors(v.g, buf, offset0, pointer0, src[done..], whole);
    assert src[done..][..more] == src[done..done + more];
    v.WriteCluster(r.value, buf');
    HoldsWellsized(v);
    Appended(v, fat, data, chain, r.value, Visible(v.g, buf'), was, p, src, done, files, Flatten(Visible(v.g, buf)),
      more);
  }

  lemma ChainEnd(g: Geometry, fat: seq<nat>, chain: seq<nat>, c: nat)
    requires IsChain(g, fat, chain) && c < |fat| && fat[c] == FREE
    ensures var last := chain[|chain| - 1]; IsCluster(g, last) && last != c && last < |fat| && fat[last] != FREE
  {
    assert Links(fat, chain, |chain| - 1);
  }

  /** Write over the clusters there are. */
  method OverwriteChain(v: Volume, start: nat, pointer0: nat, src: seq<byte>, ghost chain: seq<nat>,
      ghost was: seq<byte>, ghost files: Files)
    returns (done: nat, offset: nat, pointer: nat, last: nat)
    requires Writing(v, chain, was, pointer0, src, 0, files) && chain[0] == start
      && pointer0 <= |was| == |ChainBytes(v.data, chain)|
    modifies v`disk, v`data
    ensures v.fat == old(v.fat) && pointer == pointer0 + done && Writing(v, chain, was, pointer0, src, done, files)
    ensures done < |src| ==> pointer == offset == At(At(v.g.bps, v.g.spc), |chain|) && last == chain[|chain| - 1]
    ensures done <= |src|
  {
    hide IsChain, ChainBytes, At, Upcoming, Wrote, FilesKept, Volume.Marked, BytesPerCluster, GeometryOk;
    HoldsWellsized(v);
    Reserved(v.g);
    ChainUniform(v.g, v.fat, v.data, chain);
    ghost var whole, k := At(v.g.bps, v.g.spc), 0;
    var bytesPerCluster := BytesPerCluster(v.g);
    var cluster := start;
    done, offset, pointer, last := 0, 0, pointer0, 0;
    AtNext(whole, 0, |chain|);
    UpcomingIs(v.g, v.fat, chain, 0);
    while cluster != FREE && cluster < EOC_START && done < |src|
      invariant 0 <= k <= |chain| && cluster == Upcoming(v.fat, chain, k) && v.fat == old(v.fat)
      invariant done <= |src| && pointer == pointer0 + done && Writing(v, chain, was, pointer0, src, done, files)
      invariant done < |src| ==>
        offset == At(whole, k) <= pointer && (k > 0 ==> last == chain[k - 1]) && (done > 0 ==> pointer == offset)
      decreases |chain| - k
    {
      UpcomingIs(v.g, v.fat, chain, k);
      AtNext(whole, k, |chain|);
      last := cluster;
      if offset + bytesPerCluster < pointer {
        offset := offset + bytesPerCluster;
        cluster := v.GetNextCluster(cluster);
        k := k + 1;
        continue;
      }
      var more;
      more, offset, pointer := OverwriteCluster(v, cluster, offset, pointer, src, done, chain, k, was, pointer0,
        files, whole);
      done := done + more;
      cluster := v.GetNextCluster(cluster);
      k := k + 1;
    }
    UpcomingIs(v.g, v.fat, chain, k);
  }

  lemma Reserved(g: Geometry)
    requires GeometryOk(g)
    ensures g.maxCluster + 2 <= RESERVED_START
  {
  }

  /** The search ends while the count is not too high, or a cluster is free. */
  lemma StillEnds(g: Geometry, fat: seq<nat>, info: Option<FsInfo>)
    ensures Overstated(g, fat, info) || info.None? || info.value.free == 0 || FreeCount(g, fat) > 0
  {
  }

  /** Append clusters until all of `src` is written. */
  method ExtendChain(v: Volume, last0: nat, offset0: nat, pointer0: nat, src: seq<byte>, done0: nat,
                     ghost chain0: seq<nat>, ghost was: seq<byte>, ghost p: nat, ghost files: Files)
    returns (ok: bool, pointer: nat, ghost chain: seq<nat>, ghost done: nat)
    requires Writing(v, chain0, was, p, src, done0, files) && done0 <= |src| && pointer0 == p + done0
    requires done0 < |src| ==>
      pointer0 == offset0 == At(At(v.g.bps, v.g.spc), |chain0|) && last0 == chain0[|chain0| - 1]
    requires !Overstated(v.g, v.fat, v.fsInfo)
      || p + |src| <= At(At(v.g.bps, v.g.spc), |chain0| + FreeCount(v.g, v.fat))
    modifies v`disk, v`data, v`fat, v`fsInfo
    ensures Writing(v, chain, was, p, src, done, files) && pointer == p + done && (ok <==> done == |src|)
      && done <= |src|
    ensures chain0 <= chain && |chain| + Available(v.g, v.fat, v.fsInfo)
      == |chain0| + old(Available(v.g, v.fat, v.fsInfo))
    ensures !ok ==> Available(v.g, v.fat, v.fsInfo) == 0 && pointer == At(At(v.g.bps, v.g.spc), |chain|)
  {
    hide IsChain, ChainBytes, At, Wrote, FilesKept, Volume.Valid, Wellsized, Overstated, FreeCount, Available;
    ChainUniform(v.g, v.fat, v.data, chain0);
    var last, offset, count := last0, offset0, done0;
    pointer, chain, done := pointer0, chain0, done0;
    while count < |src|
      invariant count == done <= |src| && pointer == p + done && Writing(v, chain, was, p, src, done, files)
        && chain0 <= chain
      invariant done < |src| ==>
        pointer == offset == At(At(v.g.bps, v.g.spc), |chain|) && chain != [] && last == chain[|chain| - 1]
      invariant |chain| + FreeCount(v.g, v.fat) == |chain0| + old(FreeCount(v.g, v.fat))
      invariant |chain| + Available(v.g, v.fat, v.fsInfo) == |chain0| + old(Available(v.g, v.fat, v.fsInfo))
      invariant Overstated(v.g, v.fat, v.fsInfo) <==> old(Overstated(v.g, v.fat, v.fsInfo))
      decreases |src| - count
    {
      ghost var whole := At(v.g.bps, v.g.spc);
      StillEnds(v.g, v.fat, v.fsInfo);
      AtNext(whole, |chain|, |chain| + 1);
      var c, more, o, q := AppendCluster(v, last, offset, pointer, src, count, chain, was, p, files, whole);
      if c.None? {
        return false, pointer, chain, done;
      }
      chain := chain + [c.value];
      last, count, done, offset, pointer := c.value, count + more, done + more, o, q;
    }
    return true, pointer, chain, done;
  }

  /** Bytes that the file could hold if every available cluster were hung on. */
  ghost function Capacity(g: Geometry, chain: seq<nat>, more: nat): nat {
    At(At(g.bps, g.spc), |chain| + more)
  }

  lemma CapacityGrows(g: Geometry, chain: seq<nat>, chain': seq<nat>, more: nat, more': nat)
    requires |chain| + more <= |chain'| + more'
    ensures Capacity(g, chain, more) <= Capacity(g, chain', more')
  {
    Monotone(|chain| + more, |chain'| + more', At(g.bps, g.spc));
  }

  /** A file with all of the volume behind it ends at its old end only if there was nothing left. */
  lemma CapacityIsSize(g: Geometry, chain: seq<nat>, more: nat, size: nat)
    requires GeometryOk(g) && size <= Capacity(g, chain, 0)
    ensures Capacity(g, chain, more) <= size <==> more == 0 && size == Capacity(g, chain, 0)
  {
    var whole := At(g.bps, g.spc);
    assert whole > 0 by {
      Monotone(1, g.spc, g.bps);
    }
    if more > 0 {
      Monotone(|chain| + 1, |chain| + more, whole);
      Distribute(|chain|, 1, 0, whole);
    }
  }

  lemma WroteToEnd(n: seq<byte>, was: seq<byte>, p: nat, src: seq<byte>, w: nat)
    requires Wrote(n, was, p, src, w) && p + w == |n|
    ensures n == was[..p] + src[..w]
  {
    assert n == n[..p] + n[p..p + w];
  }

  /** Write `src` at the cursor, extending the file if need be.  `files` are all the
      other files of the volume: whatever the outcome, they keep their chains and
      their bytes.  The write ends if the summary does not promise too much, or if
      there is room; it fails exactly when the clusters run out, and then the cursor
      stands behind the last byte of the last cluster while the size is as before. */
  method Write(h: Handle, src: seq<byte>, ghost files: Files) returns (r: Status)
    requires h.Valid() && FilesKept(h.vol.g, h.vol.fat, h.vol.data, h.chain, files)
    requires
      || h.closed || h.pointer + |src| > U32_MAX || !Overstated(h.vol.g, h.vol.fat, h.vol.fsInfo)
      || h.pointer + |src| <= Capacity(h.vol.g, h.chain, FreeCount(h.vol.g, h.vol.fat))
    modifies h`pointer, h`size, h`chain, h.vol
    ensures h.vol.Valid() && IsChain(h.vol.g, h.vol.fat, h.chain)
      && FilesKept(h.vol.g, h.vol.fat, h.vol.data, h.chain, files)
    ensures r.FileClosed? <==> h.closed
    ensures r.FileTooLarge? <==> !h.closed && old(h.pointer) + |src| > U32_MAX
    ensures var capacity := old(Capacity(h.vol.g, h.chain, Available(h.vol.g, h.vol.fat, h.vol.fsInfo)));
      && (r.DiskFull? <==> !h.closed && capacity < old(h.pointer) + |src| <= U32_MAX)
      && (r.DiskFull? ==>
            && h.size == old(h.size) && h.pointer == capacity && Wellsized(h.vol.g, h.vol.data)
            && old(h.pointer) <= h.pointer < old(h.pointer) + |src|
            && ChainBytes(h.vol.data, h.chain)
            == old(ChainBytes(h.vol.data, h.chain))[..old(h.pointer)] + src[..h.pointer - old(h.pointer)])
    ensures r.DiskFull? ==>
      (h.Valid() <==>
        old(Available(h.vol.g, h.vol.fat, h.vol.fsInfo)) == 0 && old(h.size) == old(Capacity(h.vol.g, h.chain, 0)))
    ensures r.Done? ==> h.Valid() && h.Content() == Overwritten(old(h.Content()), old(h.pointer), src)
    ensures r.Done? ==> h.pointer == old(h.pointer) + |src|
    ensures r.FileClosed? || r.FileTooLarge? ==>
      h.Valid() && h.pointer == old(h.pointer) && h.Content() == old(h.Content())
  {
    hide IsChain, ChainBytes, At, Wrote, FilesKept, Volume.Valid, Wellsized, Overstated, FreeCount, Available;
    if h.closed {
      return FileClosed;
    }
    if h.pointer + |src| > U32_MAX {
      return FileTooLarge;
    }
    ChainUniform(h.vol.g, h.vol.fat, h.vol.data, h.chain);
    ghost var was, p, chain0, available := ChainBytes(h.vol.data, h.chain), h.pointer, h.chain,
      Available(h.vol.g, h.vol.fat, h.vol.fsInfo);
    WroteNothing(was, p, src);
    var done, offset, pointer, last := OverwriteChain(h.vol, h.start, h.pointer, src, h.chain, was, files);
    ghost var chain;
    ghost var total;
    var ok;
    ok, pointer, chain, total := ExtendChain(h.vol, last, offset, pointer, src, done, h.chain, was, p, files);
    h.pointer := pointer;
    h.chain := chain;
    WriteEnds(h, was, p, src, total, chain0, available, ok, files);
    if !ok {
      return DiskFull;
    }
    ChainUniform(h.vol.g, h.vol.fat, h.vol.data, chain);
    WroteAll(ChainBytes(h.vol.data, chain), was, p, src, h.size);
    if h.pointer > h.size {
      h.size := h.pointer;
    }
    return Done;
  }

  /** What the two phases leave. */
  lemma WriteEnds(h: Handle, was: seq<byte>, p: nat, src: seq<byte>, total: nat, chain0: seq<nat>, available: nat,
      ok: bool, files: Files)
    requires Writing(h.vol, h.chain, was, p, src, total, files) && (ok <==> total == |src|) && h.pointer == p + total
    requires chain0 != [] && chain0 <= h.chain && chain0[0] == h.start
      && p <= h.size <= |was| == Capacity(h.vol.g, chain0, 0) && h.size <= U32_MAX
    requires |h.chain| + Available(h.vol.g, h.vol.fat, h.vol.fsInfo) == |chain0| + available
    requires !ok ==>
      Available(h.vol.g, h.vol.fat, h.vol.fsInfo) == 0 && h.pointer == At(At(h.vol.g.bps, h.vol.g.spc), |h.chain|)
    ensures ok <==> p + |src| <= Capacity(h.vol.g, chain0, available)
    ensures !ok ==> h.pointer == Capacity(h.vol.g, chain0, available)
    ensures !ok ==> ChainBytes(h.vol.data, h.chain) == was[..p] + src[..total]
    ensures !ok ==> (h.Valid() <==> available == 0 && h.size == Capacity(h.vol.g, chain0, 0))
    ensures h.size <= |ChainBytes(h.vol.data, h.chain)| && h.chain[0] == h.start
  {
    hide IsChain, ChainBytes, At, FilesKept, Volume.Holds, Wellsized, Available;
    ChainUniform(h.vol.g, h.vol.fat, h.vol.data, h.chain);
    HoldsWellsized(h.vol);
    CapacityGrows(h.vol.g, h.chain, chain0, 0, available);
    CapacityIsSize(h.vol.g, chain0, available, h.size);
    if !ok {
      WroteToEnd(ChainBytes(h.vol.data, h.chain), was, p, src, total);
    }
  }

  /** Write, go back, and read what was written. */
  method WriteThenRead(h: Handle, src: seq<byte>, ghost files: Files) returns (r: Status, back: Option<seq<byte>>)
    requires h.Valid() && FilesKept(h.vol.g, h.vol.fat, h.vol.data, h.chain, files)
    requires
      || h.closed || h.pointer + |src| > U32_MAX || !Overstated(h.vol.g, h.vol.fat, h.vol.fsInfo)
      || h.pointer + |src| <= Capacity(h.vol.g, h.chain, FreeCount(h.vol.g, h.vol.fat))
    modifies h`pointer, h`size, h`chain, h.vol
    ensures r.Done? ==> h.Valid() && back == Some(src) && h.pointer == old(h.pointer) + |src|
    ensures r.Done? <==>
      !h.closed && old(h.pointer) + |src| <= U32_MAX
      && old(h.pointer) + |src| <= old(Capacity(h.vol.g, h.chain, Available(h.vol.g, h.vol.fat, h.vol.fsInfo)))
  {
    hide IsChain, ChainBytes, FilesKept, Volume.Valid, Wellsized, Overstated, FreeCount, Available, Capacity,
      Overwritten;
    var p := h.pointer;
    ghost var was := h.Content();
    back := None;
    r := Write(h, src, files);
    if r.Done? {
      OverwrittenReads(was, p, src);
      var ok := h.MovePointer(p);
      back := h.Read(|src|);
    }
  }

  // ---------- a full volume ----------

  const TINY := Geometry(1, 1, 1, 512, 1, 512, 1)

  /** A table block whose first three entries end a chain. */
  function TakenBlock(): (b: Block)
    ensures |b| == 512 && GetEntry(b, 0) == GetEntry(b, 1) == GetEntry(b, 2) == EOC_START
  {
    var z: Block := seq(512, _ => 0 as byte);
    var b1 := PutEntry(z, 0, EOC_START);
    var b2 := PutEntry(b1, 1, EOC_START);
    EntryReadBack(z, 0, EOC_START, 0);
    EntryReadBack(b1, 1, EOC_START, 0);
    EntryReadBack(b1, 1, EOC_START, 1);
    EntryReadBack(b2, 2, EOC_START, 0);
    EntryReadBack(b2, 2, EOC_START, 1);
    EntryReadBack(b2, 2, EOC_START, 2);
    PutEntry(b2, 2, EOC_START)
  }

  lemma TinyHolds(d: seq<Block>)
    requires |d| == 4 && d[1] == TakenBlock() && forall i :: 0 <= i < 4 ==> |d[i]| == 512
    ensures GeometryOk(TINY) && DiskOk(TINY, d) && HoldsFat(TINY, d, [EOC_START, EOC_START, EOC_START])
    ensures HoldsData(TINY, d, [[], [], [d[3]]])
  {
    forall c | 0 <= c < 3
      ensures EntryIs(TINY, d, c, EOC_START)
    {
      assert FatSector(TINY, c) == 0 && FatSlot(TINY, c) == c;
    }
    assert SectorOf(TINY, 2) == 3 && d[3][..512] == d[3];
  }

  lemma TinyFile(z: Block)
    requires |z| == 512
    ensures IsChain(TINY, [EOC_START, EOC_START, EOC_START], [2]) && Wellsized(TINY, [[], [], [z]])
    ensures |ChainBytes([[], [], [z]], [2])| == 512 && FreeCount(TINY, [EOC_START, EOC_START, EOC_START]) == 0
    ensures Capacity(TINY, [2], 0) == 512
  {
    hide Flatten;
    assert Links([EOC_START, EOC_START, EOC_START], [2], 0);
    ChainUniform(TINY, [EOC_START, EOC_START, EOC_START], [[], [], [z]], [2]);
    assert FreeClusters(TINY, [EOC_START, EOC_START, EOC_START]) == {};
  }

  /** A file of 100 bytes on a volume of one cluster: writing 500 bytes at its end
      fails and leaves the cursor at 512, beyond the size. */
  method DiskFullStrands() returns (h: Handle, r: Status)
    ensures r.DiskFull? && h.size == 100 && h.pointer == 512 && !h.Valid()
  {
    var z: Block := seq(512, _ => 0 as byte);
    var d := [z, TakenBlock(), z, z];
    TinyHolds(d);
    TinyFile(z);
    var vol := new Volume(TINY, d, None, [EOC_START, EOC_START, EOC_START], [[], [], [z]]);
    h := new Handle(vol, 2, 100, [2]);
    var ok := h.MovePointer(100);
    r := Write(h, seq(500, _ => 1 as byte), map[]);
  }
}
