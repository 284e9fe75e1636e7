/** Reading an ext2 revision 0 image of one block group: how its bytes, fields, bitmaps and
    directory records decode, and when the image is consistent. */
module Ext2Image {
  import opened LittleEndian

  const BSIZE: nat := 1024
  const BITS: nat := 8192
  const INOSIZE: nat := 128
  const FIRSTINO: nat := 11

  // ---- bits ----

  /** byte >> k & 1 */
  predicate Bit(byte: int, k: nat)
    decreases k
  {
    if k == 0 then byte % 2 == 1 else Bit(byte / 2, k - 1)
  }

  /** Bit `k` of a bitmap block. */
  predicate BitAt(buf: Block, k: nat)
    requires k < 8 * |buf|
  {
    Bit(buf[k / 8], k % 8)
  }

  /** The clear bits among the first `n`. */
  function ClearBits(buf: Block, n: nat): nat
    requires n <= 8 * |buf|
  {
    if n == 0 then 0 else ClearBits(buf, n - 1) + if BitAt(buf, n - 1) then 0 else 1
  }

  lemma {:induction false} ClearBetween(buf: Block, n: nat, lo: nat, hi: nat)
    requires n <= 8 * |buf| && lo <= hi && forall k: nat | k < n :: BitAt(buf, k) <==> k < lo || k >= hi
    ensures ClearBits(buf, n) == if n <= lo then 0 else if n <= hi then n - lo else hi - lo
  {
    if n > 0 {
      ClearBetween(buf, n - 1, lo, hi);
    }
  }

  // ---- directory records ----

  datatype Entry = Entry(inode: int, name: seq<int>)

  datatype Listing = Torn | Whole(entries: seq<Entry>)

  /** The records of a directory block from `off` on; Torn unless they tile it. */
  function Records(buf: Block, off: nat): Listing
    requires |buf| == BSIZE && off <= BSIZE
    decreases BSIZE - off
  {
    if off == BSIZE then Whole([])
    else if off + 8 > BSIZE then Torn
    else
      var len, name := Get(buf, off + 4, 2), Get(buf, off + 6, 2);
      if name < 0 || len < 8 + name || len % 4 != 0 || off + len > BSIZE then Torn
      else
        match Records(buf, off + len)
        case Torn => Torn
        case Whole(es) => Whole([Entry(Get(buf, off, 4), buf[off + 8..off + 8 + name])] + es)
  }

  // ---- a consistent image ----

  type Disk = map<nat, Block>

  ghost predicate Sized(d: Disk) {
    forall b | b in d :: |d[b]| == BSIZE
  }

  /** The blocks in use by the file system, by what its own superblock and group descriptor say,
      are pairwise distinct, in range and present. */
  ghost predicate LayoutOk(d: Disk)
    requires Sized(d) && 1 in d && 2 in d
  {
    var blocks, inodes := Get(d[1], 4, 4), Get(d[1], 0, 4);
    var bb, ib, it := Get(d[2], 0, 4), Get(d[2], 4, 4), Get(d[2], 8, 4);
    && inodes * INOSIZE % BSIZE == 0 && it > 0
    && 2 < bb < blocks && 2 < ib < blocks && bb != ib && 2 < it && it + inodes / 8 <= blocks
    && !(it <= bb < it + inodes / 8) && !(it <= ib < it + inodes / 8)
    && bb in d && ib in d && forall k | it <= k < it + inodes / 8 :: k in d
  }

  /** The block of the root directory, by inode 2. */
  function Root(d: Disk): int
    requires 2 in d && |d[2]| == BSIZE && Get(d[2], 8, 4) in d && |d[Get(d[2], 8, 4)]| == BSIZE
  {
    Get(d[Get(d[2], 8, 4)], INOSIZE + 40, 4)
  }

  /** Block `b` belongs to the file system. */
  ghost predicate InUse(d: Disk, b: int)
    requires Sized(d) && 1 in d && 2 in d && Get(d[2], 8, 4) in d
  {
    var it := Get(d[2], 8, 4);
    b == 1 || b == 2 || b == Get(d[2], 0, 4) || b == Get(d[2], 4, 4) || it <= b < it + Get(d[1], 0, 4) / 8
        || b == Root(d)
  }

  /** The block bitmap marks what is in use and what is past the end, and both free counts are
      its clear bits. */
  ghost predicate BlocksCounted(d: Disk)
    requires Sized(d) && 1 in d && 2 in d && LayoutOk(d) && Get(d[2], 8, 4) in d
  {
    var bits, blocks := d[Get(d[2], 0, 4)], Get(d[1], 4, 4);
    && (forall k: nat | k < BITS :: BitAt(bits, k) <==> InUse(d, k + 1) || k + 1 >= blocks)
    && Get(d[1], 12, 4) == ClearBits(bits, BITS) && Get(d[2], 12, 2) == ClearBits(bits, BITS)
  }

  ghost predicate InodesCounted(d: Disk)
    requires Sized(d) && 1 in d && 2 in d && LayoutOk(d)
  {
    var bits, inodes := d[Get(d[2], 4, 4)], Get(d[1], 0, 4);
    && (forall k: nat | k < BITS :: BitAt(bits, k) <==> k + 1 < FIRSTINO || k + 1 > inodes)
    && Get(d[1], 16, 4) == ClearBits(bits, BITS) && Get(d[2], 14, 2) == ClearBits(bits, BITS)
  }

  ghost predicate SuperOk(d: Disk)
    requires Sized(d) && 1 in d
  {
    var s := d[1];
    && Get(s, 56, 2) == 0xEF53 && Get(s, 76, 4) == 0 && Get(s, 58, 2) == 1
    && Get(s, 20, 4) == 1 && Get(s, 24, 4) == 0 && Get(s, 28, 4) == 0
    && Get(s, 32, 4) == BITS && Get(s, 36, 4) == BITS && Get(s, 40, 4) == Get(s, 0, 4)
    && Get(s, 8, 4) == 0 && Get(s, 54, 2) == 0xFFFF && Get(s, 60, 2) == 1 && Get(s, 72, 4) == 0
  }

  /** Inode 2 is a directory of one block that belongs to user and group 0, its block is outside
      the metadata and in range and lists the inode twice; every other inode is empty, and the
      group counts one directory. */
  ghost predicate RootOk(d: Disk)
    requires Sized(d) && 1 in d && 2 in d && LayoutOk(d)
  {
    var it, inodes := Get(d[2], 8, 4), Get(d[1], 0, 4);
    && inodes > 0 && it in d
    && var i := d[it];
       && Get(i, INOSIZE, 2) == 0x41ED && Get(i, INOSIZE + 4, 4) == BSIZE && Get(i, INOSIZE + 26, 2) == 2
           && Get(i, INOSIZE + 28, 4) == 2 && Get(i, INOSIZE + 2, 2) == 0 && Get(i, INOSIZE + 24, 2) == 0
       && Get(d[2], 16, 2) == 1 && (forall k | INOSIZE + 44 <= k < 2 * INOSIZE :: i[k] == 0)
       && it + inodes / 8 <= Root(d) < Get(d[1], 4, 4) && Root(d) in d && Root(d) != Get(d[2], 0, 4)
           && Root(d) != Get(d[2], 4, 4)
       && Records(d[Root(d)], 0) == Whole([Entry(2, [46]), Entry(2, [46, 46])])
       && (forall k | 0 <= k < BSIZE && !(INOSIZE <= k < 2 * INOSIZE) :: i[k] == 0)
       && (forall b, k | it < b < it + inodes / 8 && b in d && 0 <= k < BSIZE :: d[b][k] == 0)
  }

  /** An empty, consistent file system. */
  ghost predicate Consistent(d: Disk) {
    Sized(d) && 1 in d && 2 in d && SuperOk(d) && LayoutOk(d) && InodesCounted(d) && RootOk(d) && BlocksCounted(d)
  }
}
