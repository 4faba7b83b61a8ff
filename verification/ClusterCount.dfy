/** How many clusters a FAT32 volume can hold, given that the two allocation
    tables have to grow with their number. */
module ClusterCount {
  import opened Arithmetic

  const ENTRY_SIZE := 4

  /** The number of clusters, and the sectors left over. */
  function CalcClusterCount(reserved: nat, bytesPerSector: nat, sectorsPerCluster: nat, blocks: nat): (nat, nat)
    requires bytesPerSector >= ENTRY_SIZE && sectorsPerCluster >= 1 && reserved <= blocks
  {
    var perFat := bytesPerSector / ENTRY_SIZE;
    var group := 2 + perFat * sectorsPerCluster;
    var virtualBlocks := blocks - reserved + sectorsPerCluster * 2;
    var groups := virtualBlocks / group;
    var remain := virtualBlocks - group * groups;
    Euclid(virtualBlocks, group);
    if remain > 2 then
      var more := (remain - 2) / sectorsPerCluster;
      Euclid(remain - 2, sectorsPerCluster);
      (SaturatingSub(groups * perFat + more, 2), remain - 2 - more * sectorsPerCluster)
    else
      (SaturatingSub(groups * perFat, 2), remain)
  }

  /** Sectors of one table with `entries` entries. */
  function FatSectors(entries: nat, perFat: nat): nat
    requires perFat >= 1
  {
    (entries + perFat - 1) / perFat
  }

  lemma FatSectorsAre(q: nat, r: nat, perFat: nat)
    requires perFat >= 1 && r < perFat
    ensures FatSectors(q * perFat + r, perFat) == if r == 0 then q else q + 1
  {
    var n := q * perFat + r + perFat - 1;
    if r == 0 {
      Quotient(n, q, perFat - 1, perFat);
    } else {
      assert n == (q + 1) * perFat + (r - 1);
      Quotient(n, q + 1, r - 1, perFat);
    }
  }

  /** What the two branches of the computation have in common: with `q` full table
      sectors, `r` entries in one more, and `left` sectors over. */
  ghost predicate Parts(reserved: nat, perFat: nat, spc: nat, blocks: nat, q: nat, r: nat, left: nat, unused: nat) {
    && r < perFat
    && blocks + 2 * spc == reserved + 2 * q + q * (perFat * spc) + (if r == 0 then 0 else 2) + r * spc + left + unused
    && (unused == 0 || (unused == 2 && r == 0))
    && left + unused < spc + (if r == 0 then 2 else 0)
  }

  /** A volume with at least one cluster: `total` clusters, two tables for
      `total + 2` entries, the reserved sectors and the reported rest make up the
      device but for none or two sectors, and one more cluster would not fit. */
  ghost predicate Best(reserved: nat, perFat: nat, spc: nat, blocks: nat, total: nat, left: nat)
    requires perFat >= 1
  {
    var used := reserved + 2 * FatSectors(total + 2, perFat) + total * spc + left;
    && (used == blocks || used + 2 == blocks)
    && reserved + 2 * FatSectors(total + 3, perFat) + (total + 1) * spc > blocks
  }

  lemma PartsBest(reserved: nat, perFat: nat, spc: nat, blocks: nat, q: nat, r: nat, left: nat, unused: nat)
    requires spc >= 1 && Parts(reserved, perFat, spc, blocks, q, r, left, unused) && q * perFat + r >= 3
    ensures Best(reserved, perFat, spc, blocks, q * perFat + r - 2, left)
  {
    FatSectorsAre(q, r, perFat);
    NextFatSectors(q, r, perFat);
    Spread(q, perFat, r, spc);
    hide FatSectors;
    assert q * perFat + r - 2 + 2 == q * perFat + r && q * perFat + r - 2 + 3 == q * perFat + r + 1;
  }

  lemma NextFatSectors(q: nat, r: nat, perFat: nat)
    requires r < perFat
    ensures FatSectors(q * perFat + r + 1, perFat) == q + 1
  {
    if r + 1 < perFat {
      FatSectorsAre(q, r + 1, perFat);
    } else {
      FatSectorsAre(q + 1, 0, perFat);
      assert q * perFat + r + 1 == (q + 1) * perFat;
    }
  }

  lemma Spread(q: nat, perFat: nat, r: nat, spc: nat)
    requires q * perFat + r >= 2
    ensures (q * perFat + r - 2) * spc == q * (perFat * spc) + r * spc - 2 * spc
    ensures (q * perFat + r - 2 + 1) * spc == q * (perFat * spc) + r * spc - spc
  {
    assert q * perFat * spc == q * (perFat * spc);
  }

  /** The parts hold as many entries as fit, were the two unused ones clusters too. */
  lemma PartsMost(reserved: nat, perFat: nat, spc: nat, blocks: nat, q: nat, r: nat, left: nat, unused: nat)
    requires spc >= 1 && Parts(reserved, perFat, spc, blocks, q, r, left, unused)
    ensures Most(reserved, perFat, spc, blocks, q * perFat + r)
  {
    FatSectorsAre(q, r, perFat);
    NextFatSectors(q, r, perFat);
    hide FatSectors;
    assert (q * perFat + r) * spc == q * (perFat * spc) + r * spc by {
      assert q * perFat * spc == q * (perFat * spc);
    }
  }

  ghost predicate Most(reserved: nat, perFat: nat, spc: nat, blocks: nat, entries: nat)
    requires perFat >= 1
  {
    && reserved + 2 * FatSectors(entries, perFat) + entries * spc <= blocks + 2 * spc
    && reserved + 2 * FatSectors(entries + 1, perFat) + (entries + 1) * spc > blocks + 2 * spc
  }

  lemma FatSectorsGrow(m: nat, n: nat, perFat: nat)
    requires perFat >= 1 && m <= n
    ensures FatSectors(m, perFat) <= FatSectors(n, perFat)
  {
    Euclid(m + perFat - 1, perFat);
    Euclid(n + perFat - 1, perFat);
    if FatSectors(n, perFat) + 1 <= FatSectors(m, perFat) {
      Monotone(FatSectors(n, perFat) + 1, FatSectors(m, perFat), perFat);
      assert false;
    }
  }

  /** There is room for one cluster exactly when three entries fit. */
  lemma OneFits(reserved: nat, perFat: nat, spc: nat, blocks: nat, entries: nat)
    requires perFat >= 1 && Most(reserved, perFat, spc, blocks, entries)
    ensures entries >= 3 <==> reserved + 2 * FatSectors(3, perFat) + spc <= blocks
  {
    hide FatSectors;
    if entries >= 3 {
      FatSectorsGrow(3, entries, perFat);
      Monotone(3, entries, spc);
    } else {
      FatSectorsGrow(entries + 1, 3, perFat);
      Monotone(entries + 1, 3, spc);
    }
  }

  lemma PartsCount(reserved: nat, perFat: nat, spc: nat, blocks: nat, q: nat, r: nat, left: nat, unused: nat)
    requires spc >= 1 && Parts(reserved, perFat, spc, blocks, q, r, left, unused)
    ensures var total := SaturatingSub(q * perFat + r, 2);
      && (total >= 1 <==> reserved + 2 * FatSectors(3, perFat) + spc <= blocks)
      && (total >= 1 ==> Best(reserved, perFat, spc, blocks, total, left))
  {
    hide Most, Best;
    PartsMost(reserved, perFat, spc, blocks, q, r, left, unused);
    OneFits(reserved, perFat, spc, blocks, q * perFat + r);
    if q * perFat + r >= 3 {
      PartsBest(reserved, perFat, spc, blocks, q, r, left, unused);
    }
  }

  /** There are clusters exactly when one fits, and then as many as fit. */
  lemma CountIsBest(reserved: nat, bytesPerSector: nat, sectorsPerCluster: nat, blocks: nat)
    requires bytesPerSector >= ENTRY_SIZE && sectorsPerCluster >= 1 && reserved <= blocks
    ensures var (total, left) := CalcClusterCount(reserved, bytesPerSector, sectorsPerCluster, blocks);
      var perFat := bytesPerSector / ENTRY_SIZE;
      && (total >= 1 <==> reserved + 2 * FatSectors(3, perFat) + sectorsPerCluster <= blocks)
      && (total >= 1 ==> Best(reserved, perFat, sectorsPerCluster, blocks, total, left))
  {
    hide FatSectors, Best;
    var perFat := bytesPerSector / ENTRY_SIZE;
    var group := 2 + perFat * sectorsPerCluster;
    var virtualBlocks := blocks - reserved + sectorsPerCluster * 2;
    var groups := virtualBlocks / group;
    var remain := virtualBlocks - group * groups;
    Euclid(virtualBlocks, group);
    assert group * groups == 2 * groups + groups * (perFat * sectorsPerCluster);
    if remain > 2 {
      var more := (remain - 2) / sectorsPerCluster;
      Euclid(remain - 2, sectorsPerCluster);
      var left := remain - 2 - more * sectorsPerCluster;
      FewerThan(more, perFat, sectorsPerCluster);
      PartsCount(reserved, perFat, sectorsPerCluster, blocks, groups, more, left, if more == 0 then 2 else 0);
    } else {
      PartsCount(reserved, perFat, sectorsPerCluster, blocks, groups, 0, remain, 0);
    }
  }

  const WORD := 0x1_0000_0000_0000_0000

  /** Every product and sum of the computation fits a 64-bit word. */
  predicate FitsWord(reserved: nat, bytesPerSector: nat, sectorsPerCluster: nat, blocks: nat)
    requires bytesPerSector >= ENTRY_SIZE && sectorsPerCluster >= 1 && reserved <= blocks
  {
    var perFat := bytesPerSector / ENTRY_SIZE;
    var group := 2 + perFat * sectorsPerCluster;
    var virtualBlocks := blocks - reserved + sectorsPerCluster * 2;
    var groups := virtualBlocks / group;
    var remain := virtualBlocks - group * groups;
    var more := if remain > 2 then (remain - 2) / sectorsPerCluster else 0;
    && group < WORD && sectorsPerCluster * 2 < WORD && virtualBlocks < WORD
    && group * groups < WORD && more * sectorsPerCluster < WORD && groups * perFat + more < WORD
  }

  /** The computation overflows exactly when one of its first two sums does. */
  lemma OverflowsEarly(reserved: nat, bytesPerSector: nat, sectorsPerCluster: nat, blocks: nat)
    requires bytesPerSector >= ENTRY_SIZE && sectorsPerCluster >= 1 && reserved <= blocks
    ensures FitsWord(reserved, bytesPerSector, sectorsPerCluster, blocks) <==>
      && 2 + bytesPerSector / ENTRY_SIZE * sectorsPerCluster < WORD
      && blocks - reserved + sectorsPerCluster * 2 < WORD
  {
    var perFat := bytesPerSector / ENTRY_SIZE;
    var group := 2 + perFat * sectorsPerCluster;
    var virtualBlocks := blocks - reserved + sectorsPerCluster * 2;
    var groups := virtualBlocks / group;
    var remain := virtualBlocks - group * groups;
    Euclid(virtualBlocks, group);
    Monotone(1, sectorsPerCluster, perFat);
    Monotone(perFat, group, groups);
    if remain > 2 {
      var more := (remain - 2) / sectorsPerCluster;
      Euclid(remain - 2, sectorsPerCluster);
      Monotone(1, sectorsPerCluster, more);
    }
  }
}
