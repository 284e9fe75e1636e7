/** cmd_mkfs: an ext2 file system written block by block from one buffer. */
module Mkfs {
  import opened LittleEndian
  import opened Ext2Image

  // ---- geometry ----

  /** One inode to four blocks, at least 16, rounded up to whole blocks of the inode table. */
  function Inodes(blocks: nat): nat {
    ((if blocks / 4 < 16 then 16 else blocks / 4) + 7) / 8 * 8
  }

  const W: nat := 0x1_0000_0000

  /** The product is 32 bits wide. */
  function TableBlocks(blocks: nat): nat { (Inodes(blocks) * INOSIZE + BSIZE - 1) % W / BSIZE }

  function RootBlock(blocks: nat): nat { 5 + TableBlocks(blocks) }

  lemma Geometry(blocks: nat)
    requires blocks < W
    ensures var n := Inodes(blocks);
            n % 8 == 0 && n >= 16 && n < W && (blocks < 0x400_0000 ==> TableBlocks(blocks) == n / 8)
    ensures 16 <= blocks ==> RootBlock(blocks) + 1 < blocks && Inodes(blocks) < blocks + 1
    ensures blocks <= 8193 ==> 7 <= RootBlock(blocks) <= 8192 && Inodes(blocks) <= 8192
  {
    TableBound(Inodes(blocks));
  }

  lemma TableBound(n: nat)
    requires n % 8 == 0 && n < W
    ensures (n * INOSIZE + BSIZE - 1) % W / BSIZE <= n / 8
    ensures n * INOSIZE + BSIZE - 1 < W ==> (n * INOSIZE + BSIZE - 1) % W / BSIZE == n / 8
  {
    var x := n * INOSIZE + BSIZE - 1;
    assert x % W <= x;
    assert n == 8 * (n / 8);
    assert x / BSIZE == n / 8;
  }

  /** The metadata ends within the first 8192 blocks, where the bitmap loop stays inside its
      buffer, if and only if the device has at most 261987 blocks, unless it is so large that
      the product above wraps. */
  lemma InsideIff(blocks: nat)
    requires blocks < 0x400_0000
    ensures RootBlock(blocks) <= BITS <==> blocks <= 261987
  {
    Geometry(blocks);
  }

  // ---- the fields of a block ----

  datatype Field = Field(off: nat, width: nat, val: int)

  predicate Apart(f: Field, g: Field) {
    f.off + f.width <= g.off || g.off + g.width <= f.off
  }

  predicate Covers(f: Field, i: int) {
    f.off <= i < f.off + f.width
  }

  /** The block holds the fields and is zero elsewhere. */
  ghost predicate Encodes(buf: Block, fs: seq<Field>) {
    && |buf| == BSIZE
    && (forall f | f in fs :: f.off + f.width <= BSIZE && Get(buf, f.off, f.width) == f.val)
    && (forall i | 0 <= i < BSIZE && (forall f | f in fs :: !Covers(f, i)) :: buf[i] == 0)
  }

  /** A field written apart from the others joins them. */
  lemma EncodesMore(buf: Block, fs: seq<Field>, buf': Block, f: Field)
    requires Encodes(buf, fs) && |buf'| == BSIZE && f.off + f.width <= BSIZE && Get(buf', f.off, f.width) == f.val
    requires forall i | 0 <= i < BSIZE && !Covers(f, i) :: buf'[i] == buf[i]
    requires forall g | g in fs :: Apart(f, g)
    ensures Encodes(buf', fs + [f])
  {
    forall g | g in fs + [f]
      ensures g.off + g.width <= BSIZE && Get(buf', g.off, g.width) == g.val
    {
      if g in fs {
        GetSame(buf', buf, g.off, g.width);
      }
    }
    forall i | 0 <= i < BSIZE && (forall g | g in fs + [f] :: !Covers(g, i))
      ensures buf'[i] == 0
    {
      assert f in fs + [f];
      assert forall g | g in fs :: g in fs + [f];
    }
  }

  /** All fields so far end before `top`. */
  ghost predicate Filled(buf: Block, fs: seq<Field>, top: nat) {
    Encodes(buf, fs) && forall f | f in fs :: f.off + f.width <= top
  }

  lemma FilledMore(buf: Block, fs: seq<Field>, top: nat, buf': Block, f: Field)
    requires Filled(buf, fs, top) && top <= f.off && |buf'| == BSIZE && f.off + f.width <= BSIZE
              && Get(buf', f.off, f.width) == f.val
    requires forall i | 0 <= i < BSIZE && !Covers(f, i) :: buf'[i] == buf[i]
    ensures Filled(buf', fs + [f], f.off + f.width)
  {
    EncodesMore(buf, fs, buf', f);
  }

  // ---- bits ----

  /** byte | 1 << k */
  function SetBit(byte: int, k: nat): int
    decreases k
  {
    if k == 0 then byte / 2 * 2 + 1 else byte % 2 + 2 * SetBit(byte / 2, k - 1)
  }

  lemma {:induction false} SetBitFacts(byte: int, k: nat, j: nat)
    ensures Bit(SetBit(byte, k), j) <==> j == k || Bit(byte, j)
    decreases k
  {
    if k == 0 {
      if j > 0 {
        assert SetBit(byte, 0) / 2 == byte / 2;
      }
    } else {
      assert SetBit(byte, k) / 2 == SetBit(byte / 2, k - 1) && SetBit(byte, k) % 2 == byte % 2;
      if j > 0 {
        SetBitFacts(byte / 2, k - 1, j - 1);
      }
    }
  }

  /** Bit `k` of the block set. */
  function SetBitAt(buf: Block, k: nat): Block
    requires k < 8 * |buf|
  {
    buf[k / 8 := SetBit(buf[k / 8], k % 8)]
  }

  lemma SetBitAtFacts(buf: Block, k: nat, j: nat)
    requires k < 8 * |buf| && j < 8 * |buf|
    ensures BitAt(SetBitAt(buf, k), j) <==> j == k || BitAt(buf, j)
  {
    SetBitFacts(buf[k / 8], k % 8, j % 8);
  }

  // ---- what each block holds ----

  function FreeBlocks(blocks: nat): int { blocks - RootBlock(blocks) - 1 }
  function FreeInodes(blocks: nat): int { Inodes(blocks) - FIRSTINO + 1 }

  function CountFields(blocks: nat): seq<Field> {
    [Field(0, 4, Inodes(blocks)), Field(4, 4, blocks), Field(8, 4, 0), Field(12, 4, FreeBlocks(blocks)),
        Field(16, 4, FreeInodes(blocks)),
     Field(20, 4, 1), Field(24, 4, 0), Field(28, 4, 0), Field(32, 4, BITS), Field(36, 4, BITS),
         Field(40, 4, Inodes(blocks))]
  }

  const STATE_FIELDS: seq<Field> :=
    [Field(56, 2, 0xEF53), Field(58, 2, 1), Field(60, 2, 1), Field(72, 4, 0), Field(76, 4, 0)]

  function SuperFields(blocks: nat): seq<Field> {
    CountFields(blocks) + STATE_FIELDS + [Field(54, 2, 0xffff)]
  }

  lemma SuperGap(blocks: nat)
    ensures forall g | g in CountFields(blocks) + STATE_FIELDS :: Apart(Field(54, 2, 0xffff), g)
  {
    hide Inodes, FreeBlocks, FreeInodes;
  }

  function GroupFields(blocks: nat): seq<Field> {
    [Field(0, 4, 3), Field(4, 4, 4), Field(8, 4, 5), Field(12, 2, FreeBlocks(blocks) % 0x1_0000),
     Field(14, 2, FreeInodes(blocks) % 0x1_0000), Field(16, 2, 1)]
  }

  function InodeFields(blocks: nat): seq<Field> {
    [Field(128, 2, 0x41ED), Field(130, 2, 0), Field(132, 4, BSIZE), Field(152, 2, 0), Field(154, 2, 2),
        Field(156, 4, 2),
     Field(168, 4, RootBlock(blocks))]
  }

  const ROOT_FIELDS: seq<Field> :=
    [Field(0, 4, 2), Field(4, 2, 12), Field(6, 1, 1), Field(8, 1, 46), Field(12, 4, 2), Field(16, 2, BSIZE - 12),
        Field(18, 1, 2),
     Field(20, 1, 46), Field(21, 1, 46)]

  // ---- the formatter ----

  class Formatter {
    const fsbuf: array<int>
    var disk: Disk
    ghost var fields: seq<Field>
    ghost var top: nat

    constructor ()
      ensures fsbuf.Length == BSIZE && fresh(fsbuf) && disk == map[]
    {
      fsbuf := new int[BSIZE];
      disk, fields, top := map[], [], 0;
    }

    /** fs_zero */
    method Zero()
      requires fsbuf.Length == BSIZE
      modifies fsbuf, this`fields, this`top
      ensures Filled(fsbuf[..], [], 0) && fields == [] && top == 0
      ensures forall k: nat | k < BITS :: !BitAt(fsbuf[..], k)
    {
      for i := 0 to BSIZE
        invariant forall j | 0 <= j < i :: fsbuf[j] == 0
      {
        fsbuf[i] := 0;
      }
      fields, top := [], 0;
      forall k: nat | k < BITS
        ensures !BitAt(fsbuf[..], k)
      {
        ZeroBit(k % 8);
      }
    }

    /** put16 */
    method Put16(off: nat, v: nat)
      requires fsbuf.Length == BSIZE && off + 2 <= BSIZE && top <= off && Filled(fsbuf[..], fields, top)
      modifies fsbuf, this`fields, this`top
      ensures fields == old(fields) + [Field(off, 2, v % 0x1_0000)] && top == off + 2 && Filled(fsbuf[..], fields, top)
    {
      ghost var was := fsbuf[..];
      fsbuf[off] := v % 256;
      fsbuf[off + 1] := v / 256 % 256;
      Bytes2(fsbuf[..], off, v);
      FilledMore(was, fields, top, fsbuf[..], Field(off, 2, v % 0x1_0000));
      fields, top := fields + [Field(off, 2, v % 0x1_0000)], off + 2;
    }

    /** put32 */
    method Put32(off: nat, v: nat)
      requires fsbuf.Length == BSIZE && off + 4 <= BSIZE && v < 0x1_0000_0000 && top <= off
                && Filled(fsbuf[..], fields, top)
      modifies fsbuf, this`fields, this`top
      ensures fields == old(fields) + [Field(off, 4, v)] && top == off + 4 && Filled(fsbuf[..], fields, top)
    {
      ghost var was := fsbuf[..];
      fsbuf[off] := v % 256;
      fsbuf[off + 1] := v / 256 % 256;
      fsbuf[off + 2] := v / 0x1_0000 % 256;
      fsbuf[off + 3] := v / 0x100_0000 % 256;
      Bytes4(fsbuf[..], off, v);
      FilledMore(was, fields, top, fsbuf[..], Field(off, 4, v));
      fields, top := fields + [Field(off, 4, v)], off + 4;
    }

    /** One byte of a name or a length. */
    method Put8(off: nat, v: nat)
      requires fsbuf.Length == BSIZE && off < BSIZE && top <= off && Filled(fsbuf[..], fields, top)
      modifies fsbuf, this`fields, this`top
      ensures fields == old(fields) + [Field(off, 1, v)] && top == off + 1 && Filled(fsbuf[..], fields, top)
    {
      ghost var was := fsbuf[..];
      fsbuf[off] := v;
      assert Get(fsbuf[..], off, 1) == v;
      FilledMore(was, fields, top, fsbuf[..], Field(off, 1, v));
      fields, top := fields + [Field(off, 1, v)], off + 1;
    }

    /** A loop that marks numbers `a` up to `b` in a bitmap, number 1 being bit 0. It leaves the
        buffer if and only if it comes to a number above 8192. */
    method Mark(a: nat, b: nat) returns (outside: bool)
      requires fsbuf.Length == BSIZE && a >= 1
      modifies fsbuf
      ensures outside <==> a < b && b > BITS + 1
      ensures !outside ==>
                forall k: nat | k < BITS :: BitAt(fsbuf[..], k) <==> old(BitAt(fsbuf[..], k)) || a <= k + 1 < b
    {
      var i := a;
      while i < b
        invariant a <= i && (i <= b || i == a) && (i <= BITS + 1 || i == a)
        invariant forall k: nat | k < BITS :: BitAt(fsbuf[..], k) <==> old(BitAt(fsbuf[..], k)) || a <= k + 1 < i
      {
        if (i - 1) / 8 >= BSIZE {
          return true;
        }
        MarkOne(i - 1);
        i := i + 1;
      }
      return false;
    }

    method MarkOne(n: nat)
      requires fsbuf.Length == BSIZE && n < BITS
      modifies fsbuf
      ensures forall k: nat | k < BITS :: BitAt(fsbuf[..], k) <==> old(BitAt(fsbuf[..], k)) || k == n
    {
      ghost var was := fsbuf[..];
      fsbuf[n / 8] := SetBit(fsbuf[n / 8], n % 8);
      assert fsbuf[..] == SetBitAt(was, n);
      forall k: nat | k < BITS
        ensures BitAt(fsbuf[..], k) <==> BitAt(was, k) || k == n
      {
        SetBitAtFacts(was, n, k);
      }
    }

    /** fs_put */
    method Write(b: nat)
      requires fsbuf.Length == BSIZE
      modifies this`disk
      ensures disk == old(disk)[b := fsbuf[..]]
    {
      disk := disk[b := fsbuf[..]];
    }
  
    /** put16 between fields that are there already. */
    method PutBetween16(off: nat, v: nat)
      requires fsbuf.Length == BSIZE && off + 2 <= BSIZE && Encodes(fsbuf[..], fields)
      requires forall g | g in fields :: Apart(Field(off, 2, v % 0x1_0000), g)
      modifies fsbuf, this`fields
      ensures fields == old(fields) + [Field(off, 2, v % 0x1_0000)] && Encodes(fsbuf[..], fields)
    {
      ghost var was := fsbuf[..];
      fsbuf[off] := v % 256;
      fsbuf[off + 1] := v / 256 % 256;
      Bytes2(fsbuf[..], off, v);
      EncodesMore(was, fields, fsbuf[..], Field(off, 2, v % 0x1_0000));
      fields := fields + [Field(off, 2, v % 0x1_0000)];
    }

    method SuperCounts(blocks: nat)
      requires fsbuf.Length == BSIZE && 16 <= blocks < W
      modifies this`fields, this`top, fsbuf
      ensures fields == CountFields(blocks) && top == 44 && Filled(fsbuf[..], fields, top)
    {
      hide Encodes, Filled, Inodes, RootBlock;
      SizesFit(blocks);
      Zero();
      Put32(0, Inodes(blocks));
      Put32(4, blocks);
      Put32(8, 0);
      Put32(12, FreeBlocks(blocks));
      Put32(16, FreeInodes(blocks));
      Put32(20, 1);
      Put32(24, 0);
      Put32(28, 0);
      Put32(32, BITS);
      Put32(36, BITS);
      Put32(40, Inodes(blocks));
    }

    method WriteSuper(blocks: nat)
      requires fsbuf.Length == BSIZE && 16 <= blocks < W
      modifies this, fsbuf
      ensures 1 in disk && disk == old(disk)[1 := disk[1]] && Encodes(disk[1], SuperFields(blocks))
    {
      hide Encodes, CountFields;
      SuperCounts(blocks);
      ghost var counts := fields;
      Put16(56, 0xEF53);
      Put16(58, 1);
      Put16(60, 1);
      Put32(72, 0);
      Put32(76, 0);
      assert fields == counts + STATE_FIELDS;
      SuperGap(blocks);
      PutBetween16(54, 0xffff);
      assert counts + STATE_FIELDS + [Field(54, 2, 0xffff)] == SuperFields(blocks);
      Write(1);
    }

    method WriteGroup(blocks: nat)
      requires fsbuf.Length == BSIZE && 16 <= blocks < W
      modifies this, fsbuf
      ensures 2 in disk && disk == old(disk)[2 := disk[2]] && Encodes(disk[2], GroupFields(blocks))
    {
      hide Encodes, Filled, Inodes, RootBlock;
      SizesFit(blocks);
      Zero();
      Put32(0, 3);
      Put32(4, 4);
      Put32(8, 5);
      Put16(12, FreeBlocks(blocks));
      Put16(14, FreeInodes(blocks));
      Put16(16, 1);
      assert fields == GroupFields(blocks);
      Write(2);
    }

    method WriteRoot(root: nat)
      requires fsbuf.Length == BSIZE
      modifies this, fsbuf
      ensures root in disk && disk == old(disk)[root := disk[root]] && Encodes(disk[root], ROOT_FIELDS)
    {
      hide Encodes, Filled;
      Zero();
      Put32(0, 2);
      Put16(4, 12);
      Put8(6, 1);
      Put8(8, 46);
      Put32(12, 2);
      Put16(16, BSIZE - 12);
      Put8(18, 2);
      Put8(20, 46);
      Put8(21, 46);
      assert fields == ROOT_FIELDS;
      Write(root);
    }
  
    /** The block bitmap: the blocks before the first free one, and the padding. */
    method WriteBlockMap(blocks: nat) returns (outside: bool)
      requires fsbuf.Length == BSIZE && blocks >= 1
      modifies this, fsbuf
      ensures outside <==> RootBlock(blocks) > BITS
      ensures outside ==> disk == old(disk)
      ensures !outside ==>
                && 3 in disk && disk == old(disk)[3 := disk[3]] && |disk[3]| == BSIZE
                && forall k: nat | k < BITS :: BitAt(disk[3], k) <==> k + 1 <= RootBlock(blocks) || k + 1 >= blocks
    {
      hide RootBlock, BitAt, Filled;
      Zero();
      outside := Mark(1, RootBlock(blocks) + 1);
      if outside {
        return;
      }
      outside := Mark(blocks, BITS + 1);
      Write(3);
    }

    /** The inode bitmap: the reserved inodes, and the padding. */
    method WriteInodeMap(blocks: nat)
      requires fsbuf.Length == BSIZE
      modifies this, fsbuf
      ensures 4 in disk && disk == old(disk)[4 := disk[4]] && |disk[4]| == BSIZE
      ensures forall k: nat | k < BITS :: BitAt(disk[4], k) <==> k + 1 < FIRSTINO || k + 1 > Inodes(blocks)
    {
      hide Inodes, BitAt, Filled;
      Zero();
      var outside := Mark(1, FIRSTINO);
      outside := Mark(Inodes(blocks) + 1, BITS + 1);
      Write(4);
    }

    method RootInode(blocks: nat)
      requires fsbuf.Length == BSIZE && RootBlock(blocks) <= BITS && Filled(fsbuf[..], [], 0) && fields == []
                && top == 0
      modifies this`fields, this`top, fsbuf
      ensures Encodes(fsbuf[..], InodeFields(blocks))
    {
      hide Encodes, RootBlock;
      Put16(128, 0x41ED);
      Put16(130, 0);
      Put32(132, BSIZE);
      Put16(152, 0);
      Put16(154, 2);
      Put32(156, BSIZE / 512);
      Put32(168, RootBlock(blocks));
      assert fields == InodeFields(blocks);
    }

    /** The inode table: inode 2 in its first block, nothing else. */
    method WriteTable(blocks: nat)
      requires fsbuf.Length == BSIZE && RootBlock(blocks) <= BITS
      modifies this, fsbuf
      ensures forall b :: b in disk <==> b in old(disk) || 5 <= b < RootBlock(blocks)
      ensures forall b | b in old(disk) && !(5 <= b < RootBlock(blocks)) :: disk[b] == old(disk)[b]
      ensures forall b: nat | 5 <= b < RootBlock(blocks) :: Encodes(disk[b], if b == 5 then InodeFields(blocks) else [])
    {
      hide Encodes, TableBlocks, InodeFields;
      for i := 0 to TableBlocks(blocks)
        invariant forall b :: b in disk <==> b in old(disk) || 5 <= b < 5 + i
        invariant forall b | b in old(disk) && !(5 <= b < 5 + i) :: disk[b] == old(disk)[b]
        invariant forall b: nat | 5 <= b < 5 + i :: Encodes(disk[b], if b == 5 then InodeFields(blocks) else [])
      {
        Zero();
        if i == 0 {
          RootInode(blocks);
        }
        Write(5 + i);
      }
    }

    /** cmd_mkfs on a device of `blocks` blocks. */
    method Format(blocks: nat) returns (r: Outcome)
      requires fsbuf.Length == BSIZE && disk == map[] && blocks < W
      modifies this, fsbuf
      ensures r == (if blocks < 16 then TooSmall else if RootBlock(blocks) > BITS then LeavesBuffer else Formatted)
      ensures r == TooSmall ==> disk == map[]
      ensures r == Formatted ==> Written(disk, blocks)
    {
      hide Encodes, BitAt, RootBlock, SuperFields, GroupFields, InodeFields;
      Geometry(blocks);
      if blocks < 16 {
        return TooSmall;
      }
      if RootBlock(blocks) + 1 >= blocks {
        return TooSmall;
      }
      WriteSuper(blocks);
      WriteGroup(blocks);
      var outside := WriteBlockMap(blocks);
      if outside {
        return LeavesBuffer;
      }
      WriteInodeMap(blocks);
      RootBeyond(blocks);
      WriteTable(blocks);
      WriteRoot(RootBlock(blocks));
      return Formatted;
    }
  }

  lemma RootBeyond(blocks: nat)
    ensures RootBlock(blocks) >= 5
  {}

  /** How a format ends; the bitmap loop of the source does not look where its buffer ends. */
  datatype Outcome = TooSmall | LeavesBuffer | Formatted

  /** What the blocks written hold. Block 0 is not among them. */
  ghost predicate Written(d: Disk, blocks: nat) {
    && (forall b :: b in d <==> 1 <= b <= RootBlock(blocks)) && RootBlock(blocks) >= 5
    && Encodes(d[1], SuperFields(blocks)) && Encodes(d[2], GroupFields(blocks)) && |d[3]| == |d[4]| == BSIZE
    && (forall k: nat | k < BITS :: BitAt(d[3], k) <==> k + 1 <= RootBlock(blocks) || k + 1 >= blocks)
    && (forall k: nat | k < BITS :: BitAt(d[4], k) <==> k + 1 < FIRSTINO || k + 1 > Inodes(blocks))
    && (forall b: nat | 5 <= b < RootBlock(blocks) :: Encodes(d[b], if b == 5 then InodeFields(blocks) else []))
    && Encodes(d[RootBlock(blocks)], ROOT_FIELDS)
  }

  lemma SizesFit(blocks: nat)
    requires 16 <= blocks < W
    ensures 0 <= FreeBlocks(blocks) < 0x1_0000_0000 && 0 <= FreeInodes(blocks) < W
              && Inodes(blocks) < 0x1_0000_0000
  {
    Geometry(blocks);
  }

  lemma {:induction false} ZeroBit(k: nat)
    ensures !Bit(0, k)
  {
    if k > 0 {
      ZeroBit(k - 1);
    }
  }

  // ---- the image is consistent ----

  lemma Holds(buf: Block, fs: seq<Field>, k: nat)
    requires Encodes(buf, fs) && k < |fs|
    ensures fs[k].off + fs[k].width <= BSIZE && |buf| == BSIZE && Get(buf, fs[k].off, fs[k].width) == fs[k].val
  {
    assert fs[k] in fs;
  }

  lemma SuperDecodes(buf: Block, blocks: nat)
    requires Encodes(buf, SuperFields(blocks))
    ensures |buf| == BSIZE && Get(buf, 0, 4) == Inodes(blocks) && Get(buf, 4, 4) == blocks
    ensures Get(buf, 12, 4) == FreeBlocks(blocks) && Get(buf, 16, 4) == FreeInodes(blocks) && Get(buf, 20, 4) == 1
    ensures Get(buf, 24, 4) == 0 && Get(buf, 28, 4) == 0 && Get(buf, 32, 4) == BITS && Get(buf, 36, 4) == BITS
              && Get(buf, 40, 4) == Inodes(blocks)
    ensures Get(buf, 56, 2) == 0xEF53 && Get(buf, 58, 2) == 1 && Get(buf, 76, 4) == 0
    ensures Get(buf, 8, 4) == 0 && Get(buf, 54, 2) == 0xFFFF && Get(buf, 60, 2) == 1 && Get(buf, 72, 4) == 0
  {
    hide Encodes, Get, Inodes, FreeBlocks, FreeInodes;
    var fs := SuperFields(blocks);
    Holds(buf, fs, 0);
    Holds(buf, fs, 1);
    Holds(buf, fs, 3);
    Holds(buf, fs, 4);
    Holds(buf, fs, 5);
    Holds(buf, fs, 6);
    Holds(buf, fs, 7);
    Holds(buf, fs, 8);
    Holds(buf, fs, 9);
    Holds(buf, fs, 10);
    Holds(buf, fs, 11);
    Holds(buf, fs, 12);
    Holds(buf, fs, 15);
    Holds(buf, fs, 2);
    Holds(buf, fs, 13);
    Holds(buf, fs, 14);
    Holds(buf, fs, 16);
  }

  lemma GroupDecodes(buf: Block, blocks: nat)
    requires Encodes(buf, GroupFields(blocks))
    ensures |buf| == BSIZE && Get(buf, 0, 4) == 3 && Get(buf, 4, 4) == 4 && Get(buf, 8, 4) == 5
    ensures Get(buf, 12, 2) == FreeBlocks(blocks) % 0x1_0000 && Get(buf, 14, 2) == FreeInodes(blocks) % 0x1_0000
    ensures Get(buf, 16, 2) == 1
  {
    hide Encodes, Get, Inodes, FreeBlocks, FreeInodes;
    var fs := GroupFields(blocks);
    Holds(buf, fs, 5);
    Holds(buf, fs, 0);
    Holds(buf, fs, 1);
    Holds(buf, fs, 2);
    Holds(buf, fs, 3);
    Holds(buf, fs, 4);
  }

  lemma InodeDecodes(buf: Block, blocks: nat)
    requires Encodes(buf, InodeFields(blocks))
    ensures |buf| == BSIZE && Get(buf, INOSIZE, 2) == 0x41ED && Get(buf, INOSIZE + 4, 4) == BSIZE
              && Get(buf, INOSIZE + 26, 2) == 2
    ensures Get(buf, INOSIZE + 28, 4) == 2 && Get(buf, INOSIZE + 40, 4) == RootBlock(blocks)
    ensures Get(buf, INOSIZE + 2, 2) == 0 && Get(buf, INOSIZE + 24, 2) == 0
    ensures forall k | 0 <= k < BSIZE && !(INOSIZE <= k < INOSIZE + 44) :: buf[k] == 0
  {
    hide Get, RootBlock;
    var fs := InodeFields(blocks);
    Holds(buf, fs, 1);
    Holds(buf, fs, 3);
    Holds(buf, fs, 0);
    Holds(buf, fs, 2);
    Holds(buf, fs, 4);
    Holds(buf, fs, 5);
    Holds(buf, fs, 6);
  }

  lemma ByteIs(buf: Block, off: nat)
    requires off < |buf|
    ensures Get(buf, off, 1) == buf[off]
  {
    assert Get(buf, off + 1, 0) == 0;
  }

  lemma PairIs(buf: Block, off: nat)
    requires off + 2 <= |buf|
    ensures Get(buf, off, 2) == buf[off] + 256 * buf[off + 1]
  {
    ByteIs(buf, off + 1);
  }

  lemma RootDecodes(buf: Block)
    requires Encodes(buf, ROOT_FIELDS)
    ensures |buf| == BSIZE && Records(buf, 0) == Whole([Entry(2, [46]), Entry(2, [46, 46])])
  {
    hide Encodes, Get, Records;
    RootBytes(buf);
    assert buf[8..9] == [46] && buf[20..22] == [46, 46];
    RecordAt(buf, 12);
    assert Records(buf, BSIZE) == Whole([]) by { RecordsEnd(buf); }
    assert Records(buf, 12) == Whole([Entry(2, [46, 46])]);
    RecordAt(buf, 0);
  }

  lemma RecordsEnd(buf: Block)
    requires |buf| == BSIZE
    ensures Records(buf, BSIZE) == Whole([])
  {}

  /** A record that fits, and the records behind it. */
  lemma RecordAt(buf: Block, off: nat)
    requires |buf| == BSIZE && off + 8 <= BSIZE
    requires 0 <= Get(buf, off + 6, 2) && 8 + Get(buf, off + 6, 2) <= Get(buf, off + 4, 2) <= BSIZE - off
              && Get(buf, off + 4, 2) % 4 == 0
    ensures var len, name := Get(buf, off + 4, 2), Get(buf, off + 6, 2);
            Records(buf, off + len).Whole? ==>
            Records(buf, off) == Whole([Entry(Get(buf, off, 4), buf[off + 8..off + 8 + name])] + Records(buf,
                off + len).entries)
  {
    hide Get;
  }

  /** A byte that no field covers. */
  lemma ZeroAt(buf: Block, i: nat)
    requires Encodes(buf, ROOT_FIELDS) && (i == 7 || i == 19)
    ensures |buf| == BSIZE && buf[i] == 0
  {
    hide Get;
  }

  lemma RootBytes(buf: Block)
    requires Encodes(buf, ROOT_FIELDS)
    ensures |buf| == BSIZE && Get(buf, 0, 4) == 2 && Get(buf, 4, 2) == 12 && Get(buf, 6, 2) == 1 && buf[8] == 46
    ensures Get(buf, 12, 4) == 2 && Get(buf, 16, 2) == BSIZE - 12 && Get(buf, 18, 2) == 2 && buf[20] == 46
              && buf[21] == 46
  {
    hide Encodes, Get;
    var fs := ROOT_FIELDS;
    ZeroAt(buf, 7);
    ZeroAt(buf, 19);
    Holds(buf, fs, 0);
    Holds(buf, fs, 1);
    Holds(buf, fs, 2);
    Holds(buf, fs, 3);
    Holds(buf, fs, 4);
    Holds(buf, fs, 5);
    Holds(buf, fs, 6);
    Holds(buf, fs, 7);
    Holds(buf, fs, 8);
    ByteIs(buf, 6);
    PairIs(buf, 6);
    ByteIs(buf, 8);
    ByteIs(buf, 18);
    PairIs(buf, 18);
    ByteIs(buf, 20);
    ByteIs(buf, 21);
  }

  /** What the image says, read back. */
  ghost predicate Decoded(d: Disk, blocks: nat) {
    && Sized(d) && 1 in d && 2 in d && 5 in d && RootBlock(blocks) in d
    && SuperOk(d) && Get(d[1], 0, 4) == Inodes(blocks) && Get(d[1], 4, 4) == blocks
    && Get(d[1], 12, 4) == FreeBlocks(blocks) && Get(d[1], 16, 4) == FreeInodes(blocks)
    && Get(d[2], 0, 4) == 3 && Get(d[2], 4, 4) == 4 && Get(d[2], 8, 4) == 5
    && Get(d[2], 12, 2) == FreeBlocks(blocks) % 0x1_0000 && Get(d[2], 14, 2) == FreeInodes(blocks) % 0x1_0000
    && Get(d[2], 16, 2) == 1 && Root(d) == RootBlock(blocks)
  }

  lemma Decodes(d: Disk, blocks: nat)
    requires Written(d, blocks) && RootBlock(blocks) > 5
    ensures Decoded(d, blocks)
  {
    hide Get, RootBlock, Encodes, Inodes, FreeBlocks, FreeInodes, SuperFields, GroupFields, InodeFields;
    SuperDecodes(d[1], blocks);
    GroupDecodes(d[2], blocks);
    assert Encodes(d[5], InodeFields(blocks));
    InodeDecodes(d[5], blocks);
    forall b | b in d
      ensures |d[b]| == BSIZE
    {
      if 5 <= b < RootBlock(blocks) {
        SizeOf(d[b], if b == 5 then InodeFields(blocks) else []);
      } else if b == RootBlock(blocks) {
        SizeOf(d[b], ROOT_FIELDS);
      }
    }
  }

  lemma SizeOf(buf: Block, fs: seq<Field>)
    requires Encodes(buf, fs)
    ensures |buf| == BSIZE
  {}

  lemma EmptyBlock(buf: Block)
    requires Encodes(buf, [])
    ensures |buf| == BSIZE && forall k | 0 <= k < BSIZE :: buf[k] == 0
  {}

  lemma LayoutHolds(d: Disk, blocks: nat)
    requires Written(d, blocks) && Decoded(d, blocks) && 16 <= blocks <= BITS + 1
    ensures LayoutOk(d) && RootOk(d)
  {
    hide Get, Encodes, FreeBlocks, FreeInodes, Inodes, TableBlocks;
    Geometry(blocks);
    assert Encodes(d[5], InodeFields(blocks));
    InodeDecodes(d[5], blocks);
    RootDecodes(d[RootBlock(blocks)]);
    forall b, k | 5 < b < RootBlock(blocks) && b in d && 0 <= k < BSIZE
      ensures d[b][k] == 0
    {
      EmptyBlock(d[b]);
    }
  }

  lemma InodesHold(d: Disk, blocks: nat)
    requires Written(d, blocks) && Decoded(d, blocks) && LayoutOk(d) && 16 <= blocks <= BITS + 1
    ensures InodesCounted(d)
  {
    hide Get, Encodes, FreeBlocks, RootBlock, Inodes, BitAt, ClearBits, LayoutOk, SuperOk;
    Geometry(blocks);
    ClearBetween(d[4], BITS, FIRSTINO - 1, Inodes(blocks));
  }

  /** The clear bits of the block bitmap are the free blocks that it can speak of. */
  lemma BlocksClear(d: Disk, blocks: nat)
    requires Written(d, blocks) && 16 <= blocks < W && RootBlock(blocks) <= BITS
    ensures ClearBits(d[3], BITS) == (if blocks <= BITS + 1 then blocks else BITS + 1) - RootBlock(blocks) - 1
  {
    hide Get, Encodes, RootBlock, Inodes, BitAt, ClearBits;
    Geometry(blocks);
    ClearBetween(d[3], BITS, RootBlock(blocks), if blocks <= BITS + 1 then blocks - 1 else BITS);
  }

  /** mkfs writes a consistent, empty file system exactly when the device fits one block group:
      beyond 8193 blocks the free count is more than the bitmap has clear bits. */
  lemma ConsistentIff(d: Disk, blocks: nat)
    requires Written(d, blocks) && 16 <= blocks < W && RootBlock(blocks) <= BITS
    ensures Consistent(d) <==> blocks <= BITS + 1
    ensures 0 !in d
  {
    hide Get, Encodes, RootBlock, Inodes, BitAt, ClearBits, SuperOk, InodesCounted, RootOk, SuperFields, GroupFields,
        InodeFields, Records;
    Geometry(blocks);
    BlocksClear(d, blocks);
    if blocks <= BITS + 1 {
      Decodes(d, blocks);
      LayoutHolds(d, blocks);
      InodesHold(d, blocks);
      InUseHolds(d, blocks);
      assert BlocksCounted(d);
    } else {
      SuperDecodes(d[1], blocks);
      GroupDecodes(d[2], blocks);
    }
  }

  lemma InUseHolds(d: Disk, blocks: nat)
    requires Decoded(d, blocks) && blocks <= BITS + 1
    ensures forall b :: InUse(d, b) <==> 1 <= b <= RootBlock(blocks)
  {
    hide Get, Inodes, SuperOk;
    Geometry(blocks);
  }
}