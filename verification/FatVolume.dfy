/** A FAT32 volume on a block device: the allocation tables and the clusters, as
    the blocks hold them and as the file code sees them. */
module FatVolume {
  import opened Arithmetic
  import opened Bytes
  import opened Options

  const FREE := 0
  const RESERVED_START := 0x0FFF_FFF0
  const EOC_START := 0x0FFF_FFF8
  const U32 := 0x1_0000_0000

  type Block = seq<byte>

  /** `bps` bytes of each block are a sector; `spc` sectors make a cluster; a table
      takes `fatSize` sectors.  Clusters are numbered from 2. */
  datatype Geometry = Geometry(
    reserved: nat, fatSize: nat, fats: nat, bps: nat, spc: nat, blockSize: nat, maxCluster: nat)

  /** Table entries in one sector. */
  function PerSector(g: Geometry): nat {
    g.bps / 4
  }

  /** Where in a table the entry of cluster `c` is. */
  function FatSector(g: Geometry, c: nat): nat
    requires g.bps >= 4
  {
    c / PerSector(g)
  }

  function FatSlot(g: Geometry, c: nat): nat
    requires g.bps >= 4
  {
    c % PerSector(g)
  }

  predicate GeometryOk(g: Geometry) {
    && 512 <= g.bps <= g.blockSize && g.spc >= 1 && 1 <= g.fats <= 2
    && g.maxCluster + 2 <= g.fatSize * PerSector(g) && g.maxCluster + 2 <= RESERVED_START
  }

  predicate IsCluster(g: Geometry, c: nat) {
    2 <= c < g.maxCluster + 2
  }

  function SectorOf(g: Geometry, c: nat): nat
    requires IsCluster(g, c)
  {
    g.reserved + g.fatSize * 2 + (c - 2) * g.spc
  }

  // ---------- table entries in a block ----------

  function GetEntry(b: Block, o: nat): nat
    requires 4 * o + 4 <= |b|
  {
    Decode(b[4 * o..4 * o + 4])
  }

  function PutEntry(b: Block, o: nat, e: nat): (r: Block)
    requires 4 * o + 4 <= |b|
    ensures |r| == |b|
  {
    b[..4 * o] + Encode(4, e) + b[4 * o + 4..]
  }

  lemma EntryReadBack(b: Block, o: nat, e: nat, p: nat)
    requires 4 * o + 4 <= |b| && 4 * p + 4 <= |b| && e < U32
    ensures GetEntry(PutEntry(b, o, e), p) == if p == o then e else GetEntry(b, p)
  {
    var r := PutEntry(b, o, e);
    if p == o {
      assert r[4 * o..4 * o + 4] == Encode(4, e);
      assert Pow256(4) == U32;
      DecodeEncode(4, e);
    } else {
      assert r[4 * p..4 * p + 4] == b[4 * p..4 * p + 4];
    }
  }

  // ---------- what the blocks hold ----------

  ghost predicate DiskOk(g: Geometry, d: seq<Block>) {
    && g.reserved + g.fatSize * 2 + g.maxCluster * g.spc <= |d|
    && (forall i :: 0 <= i < |d| ==> |d[i]| == g.blockSize)
  }

  lemma EntryPlace(g: Geometry, c: nat)
    requires GeometryOk(g) && c < g.maxCluster + 2
    ensures FatSector(g, c) < g.fatSize && 4 * FatSlot(g, c) + 4 <= g.blockSize
  {
    DivBelow(c, PerSector(g), g.fatSize);
  }

  lemma ClusterPlace(g: Geometry, c: nat)
    requires IsCluster(g, c) && GeometryOk(g)
    ensures g.reserved + g.fatSize * 2 <= SectorOf(g, c)
      && SectorOf(g, c) + g.spc <= g.reserved + g.fatSize * 2 + g.maxCluster * g.spc
  {
    Monotone(0, c - 2, g.spc);
    Monotone(c - 1, g.maxCluster, g.spc);
    assert (c - 2) * g.spc + g.spc == (c - 1) * g.spc;
  }

  /** Clusters do not share blocks. */
  lemma ClustersApart(g: Geometry, c: nat, e: nat)
    requires IsCluster(g, c) && IsCluster(g, e) && c < e
    ensures SectorOf(g, c) + g.spc <= SectorOf(g, e)
  {
    Monotone(c - 1, e - 2, g.spc);
    assert (c - 2) * g.spc + g.spc == (c - 1) * g.spc;
  }

  /** The first table holds `fat`, and the second, if any, is a copy of it. */
  ghost predicate HoldsFat(g: Geometry, d: seq<Block>, fat: seq<nat>)
    requires GeometryOk(g) && DiskOk(g, d)
  {
    && |fat| == g.maxCluster + 2
    && (forall c :: 0 <= c < |fat| ==> EntryIs(g, d, c, fat[c]))
    && (g.fats == 2 ==> forall k :: 0 <= k < g.fatSize ==> Mirrored(g, d, k))
  }

  ghost predicate Mirrored(g: Geometry, d: seq<Block>, k: nat)
    requires DiskOk(g, d) && k < g.fatSize
  {
    d[g.reserved + k] == d[g.reserved + g.fatSize + k]
  }

  ghost predicate EntryIs(g: Geometry, d: seq<Block>, c: nat, e: nat)
    requires GeometryOk(g) && DiskOk(g, d) && c < g.maxCluster + 2
  {
    EntryPlace(g, c);
    GetEntry(d[g.reserved + FatSector(g, c)], FatSlot(g, c)) == e
  }

  /** The sectors of cluster `c`. */
  ghost predicate ClusterIs(g: Geometry, d: seq<Block>, c: nat, sectors: seq<Block>)
    requires GeometryOk(g) && DiskOk(g, d) && IsCluster(g, c)
  {
    ClusterPlace(g, c);
    |sectors| == g.spc && forall i :: 0 <= i < g.spc ==> sectors[i] == d[SectorOf(g, c) + i][..g.bps]
  }

  ghost predicate HoldsData(g: Geometry, d: seq<Block>, data: seq<seq<Block>>)
    requires GeometryOk(g) && DiskOk(g, d)
  {
    |data| == g.maxCluster + 2 && forall c: nat :: IsCluster(g, c) ==> ClusterIs(g, d, c, data[c])
  }

  // ---------- changing the tables ----------

  /** The block written to every table. */
  ghost function Updated(g: Geometry, d: seq<Block>, k: nat, b: Block): seq<Block>
    requires DiskOk(g, d) && k < g.fatSize
  {
    if g.fats == 2 then d[g.reserved + k := b][g.reserved + g.fatSize + k := b] else d[g.reserved + k := b]
  }

  lemma UpdatedAt(g: Geometry, d: seq<Block>, k: nat, b: Block, i: nat)
    requires DiskOk(g, d) && k < g.fatSize && i < |d|
    ensures |Updated(g, d, k, b)| == |d|
    ensures Updated(g, d, k, b)[i] == if i == g.reserved + k || (g.fats == 2 && i == g.reserved + g.fatSize + k)
      then b else d[i]
  {
  }

  lemma UpdatedDisk(g: Geometry, d: seq<Block>, k: nat, b: Block)
    requires DiskOk(g, d) && k < g.fatSize && |b| == g.blockSize
    ensures DiskOk(g, Updated(g, d, k, b))
  {
  }

  lemma SamePlace(g: Geometry, x: nat, c: nat)
    requires GeometryOk(g) && FatSector(g, x) == FatSector(g, c) && FatSlot(g, x) == FatSlot(g, c)
    ensures x == c
  {
    var n := PerSector(g);
    Euclid(x, n);
    Euclid(c, n);
  }

  lemma UpdatedEntry(g: Geometry, d: seq<Block>, c: nat, k: nat, o: nat, e: nat, x: nat, f: nat)
    requires GeometryOk(g) && DiskOk(g, d) && k == FatSector(g, c) < g.fatSize && o == FatSlot(g, c)
      && 4 * o + 4 <= g.blockSize
    requires e < U32 && x < g.maxCluster + 2 && EntryIs(g, d, x, f)
    ensures var d' := Updated(g, d, k, PutEntry(d[g.reserved + k], o, e));
      DiskOk(g, d') && EntryIs(g, d', x, if x == c then e else f)
  {
    hide PutEntry, GetEntry, Updated, FatSector, FatSlot, PerSector;
    EntryPlace(g, x);
    var b := PutEntry(d[g.reserved + k], o, e);
    UpdatedDisk(g, d, k, b);
    UpdatedAt(g, d, k, b, g.reserved + FatSector(g, x));
    EntryReadBack(d[g.reserved + k], o, e, FatSlot(g, x));
    if FatSector(g, x) == k && FatSlot(g, x) == o {
      SamePlace(g, x, c);
    }
  }

  lemma UpdatedFat(g: Geometry, d: seq<Block>, fat: seq<nat>, c: nat, k: nat, o: nat, e: nat)
    requires GeometryOk(g) && DiskOk(g, d) && HoldsFat(g, d, fat) && c < g.maxCluster + 2 && e < U32
    requires k == FatSector(g, c) < g.fatSize && o == FatSlot(g, c) && 4 * o + 4 <= g.blockSize
    ensures var d' := Updated(g, d, k, PutEntry(d[g.reserved + k], o, e));
      DiskOk(g, d') && HoldsFat(g, d', fat[c := e])
  {
    hide PutEntry, EntryIs, Updated, FatSector, FatSlot, PerSector;
    var b := PutEntry(d[g.reserved + k], o, e);
    var d', fat' := Updated(g, d, k, b), fat[c := e];
    UpdatedDisk(g, d, k, b);
    forall x | 0 <= x < |fat'|
      ensures EntryIs(g, d', x, fat'[x])
    {
      UpdatedEntry(g, d, c, k, o, e, x, fat[x]);
    }
    forall j | 0 <= j < g.fatSize && g.fats == 2
      ensures Mirrored(g, d', j)
    {
      UpdatedMirror(g, d, k, b, j);
    }
  }

  lemma UpdatedMirror(g: Geometry, d: seq<Block>, k: nat, b: Block, j: nat)
    requires DiskOk(g, d) && k < g.fatSize && |b| == g.blockSize && j < g.fatSize && g.fats == 2 && Mirrored(g, d, j)
    ensures DiskOk(g, Updated(g, d, k, b)) && Mirrored(g, Updated(g, d, k, b), j)
  {
    hide Updated;
    UpdatedDisk(g, d, k, b);
    UpdatedAt(g, d, k, b, g.reserved + j);
    UpdatedAt(g, d, k, b, g.reserved + g.fatSize + j);
  }

  lemma UpdatedData(g: Geometry, d: seq<Block>, data: seq<seq<Block>>, k: nat, b: Block)
    requires GeometryOk(g) && DiskOk(g, d) && HoldsData(g, d, data) && k < g.fatSize && |b| == g.blockSize
    ensures DiskOk(g, Updated(g, d, k, b)) && HoldsData(g, Updated(g, d, k, b), data)
  {
    hide Updated;
    var d' := Updated(g, d, k, b);
    UpdatedDisk(g, d, k, b);
    forall c: nat | IsCluster(g, c)
      ensures ClusterIs(g, d', c, data[c])
    {
      ClusterPlace(g, c);
      assert ClusterIs(g, d, c, data[c]);
      forall i | 0 <= i < g.spc
        ensures data[c][i] == d'[SectorOf(g, c) + i][..g.bps]
      {
        UpdatedAt(g, d, k, b, SectorOf(g, c) + i);
      }
    }
  }

  // ---------- changing a cluster ----------

  ghost function Visible(g: Geometry, buf: seq<Block>): (s: seq<Block>)
    requires forall i :: 0 <= i < |buf| ==> g.bps <= |buf[i]|
    ensures |s| == |buf|
  {
    seq(|buf|, i requires 0 <= i < |buf| => buf[i][..g.bps])
  }

  ghost predicate BufferOk(g: Geometry, buf: seq<Block>) {
    g.bps <= g.blockSize && |buf| == g.spc && forall i :: 0 <= i < |buf| ==> |buf[i]| == g.blockSize
  }

  /** `buf` stored in the blocks of cluster `c`. */
  ghost function Stored(g: Geometry, d: seq<Block>, c: nat, buf: seq<Block>): seq<Block>
    requires GeometryOk(g) && DiskOk(g, d) && IsCluster(g, c) && |buf| == g.spc
  {
    ClusterPlace(g, c);
    d[..SectorOf(g, c)] + buf + d[SectorOf(g, c) + g.spc..]
  }

  lemma StoredAt(g: Geometry, d: seq<Block>, c: nat, buf: seq<Block>, i: nat)
    requires GeometryOk(g) && DiskOk(g, d) && IsCluster(g, c) && |buf| == g.spc && i < |d|
    ensures |Stored(g, d, c, buf)| == |d|
    ensures Stored(g, d, c, buf)[i] == if SectorOf(g, c) <= i < SectorOf(g, c) + g.spc then buf[i - SectorOf(g, c)]
      else d[i]
  {
    ClusterPlace(g, c);
  }

  lemma StoredDisk(g: Geometry, d: seq<Block>, c: nat, buf: seq<Block>)
    requires GeometryOk(g) && DiskOk(g, d) && IsCluster(g, c) && BufferOk(g, buf)
    ensures DiskOk(g, Stored(g, d, c, buf))
  {
    hide Stored;
    StoredAt(g, d, c, buf, 0);
    forall i | 0 <= i < |d|
      ensures |Stored(g, d, c, buf)[i]| == g.blockSize
    {
      StoredAt(g, d, c, buf, i);
    }
  }

  lemma StoredFat(g: Geometry, d: seq<Block>, fat: seq<nat>, c: nat, buf: seq<Block>)
    requires GeometryOk(g) && DiskOk(g, d) && HoldsFat(g, d, fat) && IsCluster(g, c) && BufferOk(g, buf)
    ensures DiskOk(g, Stored(g, d, c, buf)) && HoldsFat(g, Stored(g, d, c, buf), fat)
  {
    hide Stored, GetEntry, FatSector, FatSlot, PerSector;
    var d' := Stored(g, d, c, buf);
    StoredDisk(g, d, c, buf);
    ClusterPlace(g, c);
    StoredAt(g, d, c, buf, 0);
    forall x | 0 <= x < |fat|
      ensures EntryIs(g, d', x, fat[x])
    {
      EntryPlace(g, x);
      assert EntryIs(g, d, x, fat[x]);
      StoredAt(g, d, c, buf, g.reserved + FatSector(g, x));
    }
    forall j | 0 <= j < g.fatSize && g.fats == 2
      ensures Mirrored(g, d', j)
    {
      assert Mirrored(g, d, j);
      StoredAt(g, d, c, buf, g.reserved + j);
      StoredAt(g, d, c, buf, g.reserved + g.fatSize + j);
    }
  }

  lemma StoredData(g: Geometry, d: seq<Block>, data: seq<seq<Block>>, c: nat, buf: seq<Block>)
    requires GeometryOk(g) && DiskOk(g, d) && HoldsData(g, d, data) && IsCluster(g, c) && BufferOk(g, buf)
    ensures DiskOk(g, Stored(g, d, c, buf)) && HoldsData(g, Stored(g, d, c, buf), data[c := Visible(g, buf)])
  {
    hide Stored;
    var d', data' := Stored(g, d, c, buf), data[c := Visible(g, buf)];
    StoredDisk(g, d, c, buf);
    StoredAt(g, d, c, buf, 0);
    forall x: nat | IsCluster(g, x)
      ensures ClusterIs(g, d', x, data'[x])
    {
      ClusterPlace(g, x);
      assert ClusterIs(g, d, x, data[x]);
      if x < c {
        ClustersApart(g, x, c);
      } else if c < x {
        ClustersApart(g, c, x);
      }
      forall i | 0 <= i < g.spc
        ensures data'[x][i] == d'[SectorOf(g, x) + i][..g.bps]
      {
        StoredAt(g, d, c, buf, SectorOf(g, x) + i);
      }
    }
  }

  // ---------- the volume ----------

  /** The free-space summary: how many clusters are said to be free, and where to
      start looking.  A volume may come with any count, 0xFFFF_FFFF for "unknown". */
  datatype FsInfo = FsInfo(free: nat, hint: nat)

  ghost function FreeClusters(g: Geometry, fat: seq<nat>): set<nat> {
    set c | 0 <= c < |fat| && IsCluster(g, c) && fat[c] == FREE
  }

  ghost function FreeCount(g: Geometry, fat: seq<nat>): nat {
    |FreeClusters(g, fat)|
  }

  ghost predicate Accurate(g: Geometry, fat: seq<nat>, info: Option<FsInfo>) {
    info.Some? ==> info.value.free == FreeCount(g, fat)
  }

  /** The summary promises more clusters than there are. */
  ghost predicate Overstated(g: Geometry, fat: seq<nat>, info: Option<FsInfo>) {
    info.Some? && info.value.free > FreeCount(g, fat)
  }

  /** How many clusters the volume will hand out. */
  ghost function Available(g: Geometry, fat: seq<nat>, info: Option<FsInfo>): nat {
    if info.None? then FreeCount(g, fat) else Min(info.value.free, FreeCount(g, fat))
  }

  // ---------- the search for a free cluster ----------

  /** The search looks at `current` next and turns back at `end`. */
  datatype Scan = Scan(current: nat, end: nat)

  ghost function FirstScan(g: Geometry, info: Option<FsInfo>): Scan {
    Scan(if info.Some? then info.value.hint else 2, g.maxCluster + 2)
  }

  /** One round of the search on a volume with a summary; None when it has found
      a free entry.  Entries beyond the table are not known. */
  ghost function ScanStep(fat: seq<nat>, hint: nat, s: Scan): Option<Scan> {
    if s.current >= s.end then Some(Scan(2, hint))
    else if s.current < |fat| && fat[s.current] != FREE then Some(s.(current := s.current + 1))
    else None
  }

  ghost function Scanned(fat: seq<nat>, hint: nat, s: Scan, n: nat): Option<Scan> {
    if n == 0 then Some(s)
    else
      match Scanned(fat, hint, s, n - 1)
      case None => None
      case Some(t) => ScanStep(fat, hint, t)
  }

  /** `c` is the first free entry that the search comes to. */
  ghost predicate FoundFirst(fat: seq<nat>, first: Scan, c: nat) {
    exists n: nat, end: nat :: Scanned(fat, first.current, first, n) == Some(Scan(c, end))
                               && c < end && ScanStep(fat, first.current, Scan(c, end)).None?
  }

  ghost predicate Finds(fat: seq<nat>, hint: nat, s: Scan) {
    exists n: nat :: Scanned(fat, hint, s, n).None?
  }

  /** Without a free entry the search goes round for ever. */
  lemma {:induction false} NeverFinds(fat: seq<nat>, hint: nat, s: Scan, n: nat)
    requires hint <= |fat| && s.end <= |fat| && forall c :: 0 <= c < |fat| ==> fat[c] != FREE
    ensures Scanned(fat, hint, s, n).Some? && Scanned(fat, hint, s, n).value.end <= |fat|
  {
    if n > 0 {
      NeverFinds(fat, hint, s, n - 1);
    }
  }

  /** With a free entry it is found, on the way up or after turning back. */
  lemma {:induction false} FindsAhead(fat: seq<nat>, hint: nat, s: Scan, f: nat, s0: Scan, n: nat)
    requires f < |fat| && 2 <= f && fat[f] == FREE && Scanned(fat, hint, s0, n) == Some(s)
    requires s.current <= f < s.end || (f < hint <= s.current && s.end == |fat|)
    ensures Finds(fat, hint, s0)
    decreases if f < s.current then 1 else 0, if f < s.current then s.end - s.current else f - s.current
  {
    var t := ScanStep(fat, hint, s);
    assert Scanned(fat, hint, s0, n + 1) == t;
    if t.Some? {
      FindsAhead(fat, hint, t.value, f, s0, n + 1);
    }
  }

  /** On a volume with a summary whose hint is a place in the table or its end, the
      search ends exactly when some cluster is free. */
  lemma SearchEnds(g: Geometry, fat: seq<nat>, hint: nat)
    requires |fat| == g.maxCluster + 2 && hint <= |fat| && fat[0] != FREE && fat[1] != FREE
    ensures Finds(fat, hint, Scan(hint, |fat|)) <==> FreeClusters(g, fat) != {}
  {
    var s := Scan(hint, |fat|);
    if FreeClusters(g, fat) != {} {
      var f := SomeFree(g, fat);
      assert Scanned(fat, hint, s, 0) == Some(s);
      FindsAhead(fat, hint, s, f, s, 0);
    } else {
      NoneFree(g, fat);
      forall n: nat
        ensures Scanned(fat, hint, s, n).Some?
      {
        NeverFinds(fat, hint, s, n);
      }
    }
  }

  class Volume {
    const g: Geometry
    var disk: seq<Block>
    var fsInfo: Option<FsInfo>
    ghost var fat: seq<nat>
    ghost var data: seq<seq<Block>>

    constructor (g: Geometry, disk: seq<Block>, fsInfo: Option<FsInfo>, ghost fat: seq<nat>,
        ghost data: seq<seq<Block>>)
      requires GeometryOk(g) && DiskOk(g, disk) && HoldsFat(g, disk, fat) && HoldsData(g, disk, data)
      requires fsInfo.Some? ==> fsInfo.value.free < U32
      requires fat[0] != FREE && fat[1] != FREE
      ensures Valid() && this.fsInfo == fsInfo && this.g == g && this.disk == disk && this.fat == fat
        && this.data == data
    {
      this.g, this.disk, this.fsInfo := g, disk, fsInfo;
      this.fat, this.data := fat, data;
    }

    /** The blocks hold these tables and these clusters. */
    ghost predicate Holds()
      reads this`disk, this`fat, this`data
    {
      GeometryOk(g) && DiskOk(g, disk) && HoldsFat(g, disk, fat) && HoldsData(g, disk, data)
    }

    /** The two reserved entries are not marked free, and the count is 32 bits wide. */
    ghost predicate Marked()
      reads this`fat, this`fsInfo
    {
      |fat| >= 2 && fat[0] != FREE && fat[1] != FREE && (fsInfo.Some? ==> fsInfo.value.free < U32)
    }

    ghost predicate Valid()
      reads this
    {
      Holds() && Marked()
    }

    method GetNextCluster(c: nat) returns (e: nat)
      requires Holds() && c < g.maxCluster + 2
      ensures |fat| == g.maxCluster + 2 && e == fat[c]
    {
      EntryPlace(g, c);
      assert EntryIs(g, disk, c, fat[c]);
      e := GetEntry(disk[g.reserved + FatSector(g, c)], FatSlot(g, c));
    }

    /** Write block `k` of every table. */
    method WriteTables(k: nat, b: Block)
      requires DiskOk(g, disk) && k < g.fatSize && 1 <= g.fats <= 2
      modifies this`disk
      ensures disk == Updated(g, old(disk), k, b)
    {
      for i := 0 to g.fats
        invariant |disk| == |old(disk)|
        invariant i == 0 ==> disk == old(disk)
        invariant i == 1 ==> disk == old(disk)[g.reserved + k := b]
        invariant i == 2 ==> disk == old(disk)[g.reserved + k := b][g.reserved + g.fatSize + k := b]
      {
        disk := disk[g.reserved + k + g.fatSize * i := b];
      }
    }

    /** Change one entry, in every table. */
    method UpdateCluster(c: nat, e: nat)
      requires Holds() && c < g.maxCluster + 2 && e < U32
      modifies this`disk, this`fat
      ensures Holds() && |old(fat)| == g.maxCluster + 2 && fat == old(fat)[c := e]
    {
      hide HoldsFat, HoldsData, PutEntry, FatSector, FatSlot, PerSector, Updated;
      EntryPlace(g, c);
      var k, o := FatSector(g, c), FatSlot(g, c);
      UpdatedFat(g, disk, fat, c, k, o, e);
      var buffer := PutEntry(disk[g.reserved + k], o, e);
      UpdatedData(g, disk, data, k, buffer);
      FatLength(g, disk, fat);
      WriteTables(k, buffer);
      fat := fat[c := e];
    }

    /** Give a cluster back.  The count wraps around as a 32-bit number does. */
    method FreeCluster(c: nat)
      requires Valid() && IsCluster(g, c) && fat[c] != FREE
      modifies this`disk, this`fat, this`fsInfo
      ensures Valid() && |old(fat)| == g.maxCluster + 2 && fat == old(fat)[c := FREE]
      ensures fsInfo == if old(fsInfo).None? then None
        else Some(old(fsInfo).value.(free := (old(fsInfo).value.free + 1) % U32))
      ensures Accurate(g, old(fat), old(fsInfo)) ==> Accurate(g, fat, fsInfo)
    {
      hide Holds, FreeClusters;
      ghost var was := fat;
      UpdateCluster(c, FREE);
      FreeAdded(g, was, c);
      FreeBound(g, fat);
      InRange();
      if fsInfo.Some? {
        fsInfo := Some(fsInfo.value.(free := (fsInfo.value.free + 1) % U32));
      }
    }

    lemma InRange()
      requires Holds()
      ensures |fat| == g.maxCluster + 2 <= RESERVED_START
    {
    }

    /** Find a free cluster, from the hint upwards and then from the bottom, and
        mark it as the end of a chain.  Without a summary, with a count of zero or
        with a free cluster the search ends. */
    method FindAvailableCluster() returns (r: Option<nat>)
      requires Valid() && (fsInfo.None? || fsInfo.value.free == 0 || FreeClusters(g, fat) != {})
      modifies this`disk, this`fat, this`fsInfo
      ensures Valid() && |old(fat)| == |fat| == g.maxCluster + 2
      ensures r.None? <==> (old(fsInfo).Some? && old(fsInfo).value.free == 0) || FreeClusters(g, old(fat)) == {}
      ensures r.None? ==> fat == old(fat) && fsInfo == old(fsInfo)
      ensures r.Some? ==> IsCluster(g, r.value) && old(fat)[r.value] == FREE && fat == old(fat)[r.value := EOC_START]
      ensures r.Some? ==> FoundFirst(old(fat), FirstScan(g, old(fsInfo)), r.value)
      ensures r.Some? ==>
        fsInfo == if old(fsInfo).None? then None else Some(old(fsInfo).value.(free := old(fsInfo).value.free - 1))
    {
      hide Holds, FreeClusters, FatSector, FatSlot;
      NoneFree(g, fat);
      FatIs();
      if fsInfo.Some? && fsInfo.value.free == 0 {
        return None;
      }
      ghost var f := if fsInfo.Some? then SomeFree(g, fat) else 0;
      var current: nat := if fsInfo.Some? then fsInfo.value.hint else 2;
      var end := g.maxCluster + 2;
      var cacheIndex: Option<nat>, cache: Block := None, [];
      ghost var first, n := FirstScan(g, fsInfo), 0;
      while true
        invariant disk == old(disk) && fat == old(fat) && fsInfo == old(fsInfo)
        invariant cacheIndex.Some? ==> cacheIndex.value < |disk| && cache == disk[cacheIndex.value]
        invariant fsInfo.None? ==>
          end == g.maxCluster + 2 && 2 <= current <= end && forall c :: 2 <= c < current ==> fat[c] != FREE
        invariant fsInfo.Some? ==> current <= f < end || (f < fsInfo.value.hint <= current && end == g.maxCluster + 2)
        invariant Scanned(fat, first.current, first, n) == Some(Scan(current, end))
        decreases if fsInfo.Some? && f < current then 1 else 0,
          if fsInfo.None? || f < current then end - current else f - current
      {
        if current >= end {
          if fsInfo.Some? {
            end := fsInfo.value.hint;
            current := 2;
            n := n + 1;
            continue;
          }
          return None;
        }
        EntryAt(current);
        var k, o := FatSector(g, current), FatSlot(g, current);
        if cacheIndex != Some(g.reserved + k) {
          cacheIndex := Some(g.reserved + k);
          cache := disk[g.reserved + k];
        }
        if GetEntry(cache, o) != FREE {
          current := current + 1;
          n := n + 1;
          continue;
        }
        TakeEntry(current, k, PutEntry(cache, o, EOC_START));
        return Some(current);
      }
    }

    lemma FatIs()
      requires Holds()
      ensures |fat| == g.maxCluster + 2
    {
    }

    lemma EntryAt(c: nat)
      requires Holds() && c < g.maxCluster + 2
      ensures |fat| == g.maxCluster + 2 && g.bps >= 4 && FatSector(g, c) < g.fatSize
      ensures g.reserved + g.fatSize <= |disk| && 4 * FatSlot(g, c) + 4 <= |disk[g.reserved + FatSector(g, c)]|
      ensures GetEntry(disk[g.reserved + FatSector(g, c)], FatSlot(g, c)) == fat[c]
    {
      hide FatSector, FatSlot, PerSector;
      EntryPlace(g, c);
      assert EntryIs(g, disk, c, fat[c]);
    }

    /** Write the block that marks cluster `c` as taken, and count it. */
    method TakeEntry(c: nat, k: nat, b: Block)
      requires Valid() && c < |fat| == g.maxCluster + 2 && fat[c] == FREE && g.bps >= 4
        && k == FatSector(g, c) < g.fatSize
      requires g.reserved + k < |disk| && 4 * FatSlot(g, c) + 4 <= |disk[g.reserved + k]|
      requires b == PutEntry(disk[g.reserved + k], FatSlot(g, c), EOC_START) && (fsInfo.Some? ==> fsInfo.value.free > 0)
      modifies this`disk, this`fat, this`fsInfo
      ensures Valid() && IsCluster(g, c) && fat == old(fat)[c := EOC_START]
      ensures fsInfo == if old(fsInfo).None? then None else Some(old(fsInfo).value.(free := old(fsInfo).value.free - 1))
    {
      hide HoldsFat, HoldsData, PutEntry, FatSector, FatSlot, PerSector, Updated;
      EntryPlace(g, c);
      UpdatedFat(g, disk, fat, c, k, FatSlot(g, c), EOC_START);
      UpdatedData(g, disk, data, k, b);
      WriteTables(k, b);
      fat := fat[c := EOC_START];
      if fsInfo.Some? {
        fsInfo := Some(fsInfo.value.(free := fsInfo.value.free - 1));
      }
    }

    method ReadCluster(c: nat) returns (buf: seq<Block>)
      requires Holds() && IsCluster(g, c)
      ensures BufferOk(g, buf) && |data| == g.maxCluster + 2 && g.bps <= g.blockSize && Visible(g, buf) == data[c]
    {
      ClusterPlace(g, c);
      assert ClusterIs(g, disk, c, data[c]);
      buf := disk[SectorOf(g, c)..SectorOf(g, c) + g.spc];
    }

    method WriteCluster(c: nat, buf: seq<Block>)
      requires Holds() && IsCluster(g, c) && BufferOk(g, buf)
      modifies this`disk, this`data
      ensures Holds() && |old(data)| == g.maxCluster + 2 && g.bps <= g.blockSize
        && data == old(data)[c := Visible(g, buf)]
    {
      hide HoldsFat, Stored;
      StoredFat(g, disk, fat, c, buf);
      StoredData(g, disk, data, c, buf);
      disk := StoreBlocks(g, disk, c, buf);
      data := data[c := Visible(g, buf)];
    }
  }

  /** Write the blocks of a cluster one after the other. */
  method StoreBlocks(g: Geometry, d: seq<Block>, c: nat, buf: seq<Block>) returns (d': seq<Block>)
    requires GeometryOk(g) && DiskOk(g, d) && IsCluster(g, c) && |buf| == g.spc
    ensures d' == Stored(g, d, c, buf)
  {
    ClusterPlace(g, c);
    d' := d;
    var s := SectorOf(g, c);
    for i := 0 to g.spc
      invariant |d'| == |d| && forall j :: 0 <= j < |d| ==> d'[j] == if s <= j < s + i then buf[j - s] else d[j]
    {
      d' := d'[s + i := buf[i]];
    }
  }

  lemma NoneFree(g: Geometry, fat: seq<nat>)
    ensures FreeCount(g, fat) == 0 <==> FreeClusters(g, fat) == {}
    ensures FreeClusters(g, fat) == {} <==> forall c :: 0 <= c < |fat| && IsCluster(g, c) ==> fat[c] != FREE
  {
    assert forall c :: 0 <= c < |fat| && IsCluster(g, c) && fat[c] == FREE ==> c in FreeClusters(g, fat);
  }

  ghost function SomeFree(g: Geometry, fat: seq<nat>): (c: nat)
    requires FreeClusters(g, fat) != {}
    ensures c < |fat| && IsCluster(g, c) && fat[c] == FREE
  {
    var c :| c in FreeClusters(g, fat);
    c
  }

  lemma FatLength(g: Geometry, d: seq<Block>, fat: seq<nat>)
    requires GeometryOk(g) && DiskOk(g, d) && HoldsFat(g, d, fat)
    ensures |fat| == g.maxCluster + 2
  {
  }

  lemma FreeAdded(g: Geometry, fat: seq<nat>, c: nat)
    requires c < |fat| && IsCluster(g, c) && fat[c] != FREE
    ensures FreeCount(g, fat[c := FREE]) == FreeCount(g, fat) + 1
  {
    assert FreeClusters(g, fat[c := FREE]) == FreeClusters(g, fat) + {c};
  }

  /** The `n` lowest cluster numbers. */
  ghost function Lowest(n: nat): (s: set<nat>)
    ensures |s| == n && forall c :: c in s <==> 2 <= c < n + 2
  {
    if n == 0 then {} else Lowest(n - 1) + {n + 1}
  }

  lemma FreeBound(g: Geometry, fat: seq<nat>)
    ensures FreeCount(g, fat) <= g.maxCluster
  {
    var all := Lowest(g.maxCluster);
    assert all == FreeClusters(g, fat) + (all - FreeClusters(g, fat));
  }

  lemma FreeTaken(g: Geometry, fat: seq<nat>, c: nat, e: nat)
    requires c < |fat| && IsCluster(g, c) && fat[c] == FREE && e != FREE
    ensures FreeCount(g, fat[c := e]) == FreeCount(g, fat) - 1
  {
    assert FreeClusters(g, fat) == FreeClusters(g, fat[c := e]) + {c};
  }

  lemma FreeKept(g: Geometry, fat: seq<nat>, c: nat, e: nat)
    requires c < |fat| && fat[c] != FREE && e != FREE
    ensures FreeClusters(g, fat[c := e]) == FreeClusters(g, fat)
  {
  }
}
