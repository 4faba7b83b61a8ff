/** Physical memory as 4 KiB frames of bytes, and the 64-bit words, page-table
    entries and free-list links that are stored in it. */
module PhysicalMemory {
  import opened Bytes

  const FRAME_SIZE := 0x1000
  const ENTRIES := 512
  const MAX_PHYSICAL := 0x10_0000_0000_0000
  const WORD := 0x1_0000_0000_0000_0000

  /** A frame is named by the physical address of its first byte. */
  type Addr = int

  type Memory = map<Addr, seq<byte>>

  predicate IsFrame(a: Addr) {
    0 < a < MAX_PHYSICAL && a % FRAME_SIZE == 0
  }

  ghost predicate MemoryOk(m: Memory) {
    forall a :: a in m ==> IsFrame(a) && |m[a]| == FRAME_SIZE
  }

  // ---------- words ----------

  /** The word at index `i` of frame `a`, as the code reads it byte by byte. */
  function Word(m: Memory, a: Addr, i: nat): nat
    requires a in m && |m[a]| == FRAME_SIZE && i < ENTRIES
  {
    Decode(m[a][8 * i..8 * i + 8])
  }

  function PutWord(s: seq<byte>, i: nat, w: nat): (r: seq<byte>)
    requires |s| == FRAME_SIZE && i < ENTRIES
    ensures |r| == FRAME_SIZE
  {
    s[..8 * i] + Encode(8, w) + s[8 * i + 8..]
  }

  function WriteWord(m: Memory, a: Addr, i: nat, w: nat): Memory
    requires a in m && |m[a]| == FRAME_SIZE && i < ENTRIES
  {
    m[a := PutWord(m[a], i, w)]
  }

  /** A word written is the word read back, and every other word is untouched. */
  lemma ReadBack(m: Memory, a: Addr, i: nat, w: nat, j: nat)
    requires a in m && |m[a]| == FRAME_SIZE && i < ENTRIES && j < ENTRIES && w < WORD
    ensures Word(WriteWord(m, a, i, w), a, j) == if i == j then w else Word(m, a, j)
  {
    var s, r := m[a], PutWord(m[a], i, w);
    if i == j {
      assert r[8 * i..8 * i + 8] == Encode(8, w);
      assert Pow256(8) == WORD by {
        assert Pow256(4) == 0x1_0000_0000;
        assert Pow256(8) == 256 * 256 * 256 * 256 * Pow256(4);
      }
      DecodeEncode(8, w);
    } else {
      assert r[8 * j..8 * j + 8] == s[8 * j..8 * j + 8];
    }
  }

  // ---------- page-table entries ----------

  const P_PRESENT := 1
  const P_RW := 2
  const P_US := 4
  const P_NX := 0x4000_0000_0000_0000

  predicate Present(w: nat) {
    w % 2 == P_PRESENT
  }

  function Address(w: nat): Addr {
    w / FRAME_SIZE % 0x100_0000_0000 * FRAME_SIZE
  }

  function Entry(a: Addr, rw: bool, user: bool, nx: bool): nat
    requires IsFrame(a)
  {
    a + P_PRESENT + (if rw then P_RW else 0) + (if user then P_US else 0) + (if nx then P_NX else 0)
  }

  /** The flag bits never reach the address field, and back. */
  lemma EntryRoundTrip(a: Addr, rw: bool, user: bool, nx: bool)
    requires IsFrame(a)
    ensures Entry(a, rw, user, nx) < WORD
    ensures Present(Entry(a, rw, user, nx)) && Address(Entry(a, rw, user, nx)) == a
  {
    var f, low := a / FRAME_SIZE, P_PRESENT + (if rw then P_RW else 0) + (if user then P_US else 0);
    var top := if nx then 0x4_0000_0000_0000 else 0;
    assert a == f * FRAME_SIZE;
    assert Entry(a, rw, user, nx) == (f + top) * FRAME_SIZE + low;
  }

  lemma ZeroWords(m: Memory, a: Addr, i: nat)
    requires a in m && |m[a]| == FRAME_SIZE && i < ENTRIES
    requires forall k :: 0 <= k < FRAME_SIZE ==> m[a][k] == 0
    ensures Word(m, a, i) == 0
  {
    DecodeZero(m[a][8 * i..8 * i + 8]);
  }
}
