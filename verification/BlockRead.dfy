/** block_read: a read from a block device through a ring of 64 buffers with read-ahead. */
module BlockRead {
  import opened Lists

  const NBUF: nat := 64
  const INT_MAX: nat := 0x7fff_ffff
  const EIO: int := -5

  // ---- positions ----

  /** The first byte of block `k`. */
  function Start(k: nat, bs: nat): nat { k * bs }

  /** The block of a byte, and the byte's place in it. */
  function BlockOf(pos: nat, bs: nat): nat
    requires bs > 0
  {
    pos / bs
  }

  function OffsetOf(pos: nat, bs: nat): nat
    requires bs > 0
  {
    pos % bs
  }

  /** The blocks that `n` bytes from the start of a block touch. */
  function Touched(n: nat, bs: nat): nat
    requires bs > 0
  {
    (n + bs - 1) / bs
  }

  lemma StartNext(k: nat, bs: nat)
    ensures Start(k + 1, bs) == Start(k, bs) + bs
  {}

  lemma StartMono(j: nat, k: nat, bs: nat)
    requires j <= k
    ensures Start(j, bs) <= Start(k, bs)
  {
    assert Start(k, bs) == Start(j, bs) + (k - j) * bs;
  }

  lemma StartSplit(pos: nat, bs: nat)
    requires bs > 0
    ensures Start(BlockOf(pos, bs), bs) + OffsetOf(pos, bs) == pos && OffsetOf(pos, bs) < bs
  {}

  lemma BlockMono(a: nat, b: nat, bs: nat)
    requires bs > 0 && a <= b
    ensures BlockOf(a, bs) <= BlockOf(b, bs)
  {
    StartSplit(a, bs);
    StartSplit(b, bs);
    if BlockOf(b, bs) < BlockOf(a, bs) {
      StartMono(BlockOf(b, bs) + 1, BlockOf(a, bs), bs);
      StartNext(BlockOf(b, bs), bs);
    }
  }

  /** Enough blocks for `left` bytes from `offset` in the first. */
  lemma StartCovers(first: nat, offset: nat, left: nat, bs: nat)
    requires bs > 0
    ensures Start(first + Touched(left + offset, bs), bs) >= Start(first, bs) + offset + left
  {
    var n := Touched(left + offset, bs);
    assert n * bs + (left + offset + bs - 1) % bs == left + offset + bs - 1;
    assert Start(first + n, bs) == Start(first, bs) + n * bs;
  }

  // ---- what a read should deliver ----

  /** What happens to a buffer: `up`, it holds its block when asked for; `bad`, reading it fails. */
  predicate Readable(up: nat -> bool, bad: nat -> bool, b: nat) {
    up(b) || !bad(b)
  }

  /** The first block from `a` on that cannot be read, or `e`. */
  function GoodEnd(up: nat -> bool, bad: nat -> bool, a: nat, e: nat): (r: nat)
    requires a <= e
    ensures a <= r <= e && (r < e ==> !Readable(up, bad, r))
    ensures forall b: nat | a <= b < r :: Readable(up, bad, b)
    decreases e - a
  {
    if a == e || !Readable(up, bad, a) then a else GoodEnd(up, bad, a + 1, e)
  }

  /** The bytes asked for that the device has. */
  function InRange(size: nat, pos: nat, count: nat): nat {
    if pos > size then 0 else Min(Min(size - pos, INT_MAX), count)
  }

  /** The bytes a read delivers: those in range before the first unreadable block, and before the
      incomplete block at the end of the device if there is one. */
  function Delivered(up: nat -> bool, bad: nat -> bool, size: nat, bs: nat, pos: nat, count: nat): nat
    requires bs > 0
  {
    if BlockOf(pos, bs) >= BlockOf(size, bs) then 0
    else
      var e := Start(GoodEnd(up, bad, BlockOf(pos, bs), BlockOf(size, bs)), bs);
      if e <= pos then 0 else Min(InRange(size, pos, count), e - pos)
  }

  /** Where every block is readable, a read delivers all the bytes in range exactly when none of
      them lies in an incomplete last block; there is none if the device is whole blocks. */
  lemma ReadsAllIff(up: nat -> bool, bad: nat -> bool, size: nat, bs: nat, pos: nat, count: nat)
    requires bs > 0 && forall b: nat :: Readable(up, bad, b)
    ensures var n := InRange(size, pos, count);
            && (Delivered(up, bad, size, bs, pos, count) == n <==> n == 0 || pos + n <= Start(BlockOf(size, bs), bs))
            && (size % bs == 0 ==> Delivered(up, bad, size, bs, pos, count) == n)
  {
    hide Start, BlockOf, OffsetOf, Readable;
    var n, last := InRange(size, pos, count), BlockOf(size, bs);
    StartSplit(size, bs);
    StartSplit(pos, bs);
    assert size % bs == 0 ==> Start(last, bs) == size by { OffsetIsMod(size, bs); }
    if BlockOf(pos, bs) >= last {
      StartMono(last, BlockOf(pos, bs), bs);
    } else {
      assert GoodEnd(up, bad, BlockOf(pos, bs), last) == last;
      StartMono(BlockOf(pos, bs) + 1, last, bs);
      StartNext(BlockOf(pos, bs), bs);
    }
  }

  /** On a device of 3072 bytes with blocks of 2048, a read of 1000 bytes from 2000 gets 48. */
  lemma ShortReadExample()
    ensures InRange(3072, 2000, 1000) == 1000
    ensures Delivered(_ => true, _ => false, 3072, 2048, 2000, 1000) == 48
  {
    assert BlockOf(2000, 2048) == 0 && BlockOf(3072, 2048) == 1;
    assert GoodEnd(_ => true, _ => false, 0, 1) == 1;
  }

  lemma OffsetIsMod(pos: nat, bs: nat)
    requires bs > 0
    ensures OffsetOf(pos, bs) == pos % bs
  {}

  // ---- the ring ----

  function Wrap(n: nat): nat { if n < NBUF then n else n - NBUF }

  /** The slot `i` places behind slot `bhe`. */
  function At(r: seq<nat>, bhe: nat, i: nat): nat
    requires |r| == NBUF && bhe < NBUF && i < NBUF
  {
    r[Wrap(bhe + i)]
  }

  /** The `n` slots from `bhe` on hold the blocks from `b` on. */
  ghost predicate Holds(r: seq<nat>, bhe: nat, b: nat, n: nat) {
    |r| == NBUF && bhe < NBUF && n <= NBUF && forall i: nat | i < n :: At(r, bhe, i) == b + i
  }

  lemma HoldsPush(r: seq<nat>, bhe: nat, b: nat, n: nat)
    requires Holds(r, bhe, b, n) && n < NBUF
    ensures Holds(r[Wrap(bhe + n) := b + n], bhe, b, n + 1)
  {
    var r' := r[Wrap(bhe + n) := b + n];
    forall i: nat | i < n + 1
      ensures At(r', bhe, i) == b + i
    {
      if i < n {
        assert At(r, bhe, i) == b + i;
      }
    }
  }

  lemma HoldsPop(r: seq<nat>, bhe: nat, b: nat, n: nat)
    requires Holds(r, bhe, b, n) && n > 0
    ensures r[bhe] == b && Holds(r, Wrap(bhe + 1), b + 1, n - 1)
  {
    assert At(r, bhe, 0) == b;
    var next := Wrap(bhe + 1);
    forall i: nat | i < n - 1
      ensures At(r, next, i) == b + 1 + i
    {
      assert At(r, bhe, i + 1) == b + i + 1;
    }
  }

  /** The blocks from `a` up to `b`. */
  ghost function Range(a: nat, b: nat): (s: seq<nat>)
    ensures |s| == if a <= b then b - a else 0
  {
    if a >= b then [] else Range(a, b - 1) + [b - 1]
  }

  lemma RangeEmpty(a: nat)
    ensures Range(a, a) == []
  {}

  /** The blocks asked for reach the end of the bytes asked for. */
  lemma Cover(pos: nat, left: nat, bs: nat, blocks: nat)
    requires bs > 0 && blocks >= Touched(left + OffsetOf(pos, bs), bs)
    ensures Start(BlockOf(pos, bs) + blocks, bs) >= pos + left
  {
    StartSplit(pos, bs);
    StartCovers(BlockOf(pos, bs), OffsetOf(pos, bs), left, bs);
    StartMono(BlockOf(pos, bs) + Touched(left + OffsetOf(pos, bs), bs), BlockOf(pos, bs) + blocks, bs);
  }

  class Reader {
    const data: seq<int>
    const bs: nat
    const up: nat -> bool
    const bad: nat -> bool
    const locked: nat -> bool
    const ring: array<nat>

    ghost const pos0: nat
    ghost const left0: nat
    ghost const first: nat
    ghost const end: nat

    var bhb: nat
    var bhe: nat
    var block: nat
    var blocks: nat
    var left: nat
    var offset: nat
    var pos: nat
    var buf: seq<int>
    ghost var next: nat
    ghost var failed: bool
    ghost var gets: seq<nat>
    ghost var rels: seq<nat>

    /** The ring holds the blocks asked for and not yet done, oldest at bhe, and every buffer
        taken was released or is in the ring. */
    ghost predicate RingOk()
      reads this, ring
    {
      && ring.Length == NBUF && bhb < NBUF && bhe < NBUF && first <= next <= block && block - next <= NBUF
      && bhb == Wrap(bhe + (block - next)) && Holds(ring[..], bhe, next, block - next)
      && gets == Range(first, block) && rels == Range(first, next)
    }

    /** What was copied out is the device's, up to where the read stands. */
    ghost predicate DataOk()
      reads this
    {
      && bs > 0 && block + blocks == end && Start(end, bs) <= |data|
      && pos == pos0 + |buf| <= |data| && buf == data[pos0..pos] && pos0 < Start(first, bs) + bs
      && (forall b: nat | first <= b < next - (if failed then 1 else 0) :: Readable(up, bad, b))
      && (if failed then
            left == 0 && |buf| <= left0 && first < next <= end && !Readable(up, bad, next - 1)
                && (if next - 1 == first then buf == [] else pos == Start(next - 1, bs))
          else
            left + |buf| == left0 && pos <= Start(next, bs) + (if next == first then bs else 0) && next <= end
            && (next > first <==> buf != [])
            && (left > 0 ==>
                  pos == Start(next, bs) + offset && offset < bs && (next > first ==> offset == 0)))
    }

    /** The end of the read: what it delivered. */
    ghost predicate Finished()
      reads this
    {
      left == 0 || (next == block && blocks == 0)
    }

    constructor (data: seq<int>, bs: nat, up: nat -> bool, bad: nat -> bool, locked: nat -> bool, pos: nat, left: nat,
        blocks: nat)
      requires bs > 0 && Start(BlockOf(pos, bs) + blocks, bs) <= |data| && left > 0 && pos <= |data|
      ensures RingOk() && DataOk() && fresh(ring) && !failed && next == block == first && this.left == left
      ensures this.data == data && this.bs == bs && this.up == up && this.bad == bad && this.pos0 == pos
                && this.left0 == left
      ensures first == BlockOf(pos, bs) && end == BlockOf(pos, bs) + blocks && this.blocks == blocks
    {
      this.data, this.bs, this.up, this.bad, this.locked := data, bs, up, bad, locked;
      ring := new nat[NBUF];
      pos0, left0, first, end := pos, left, BlockOf(pos, bs), BlockOf(pos, bs) + blocks;
      bhb, bhe, block, this.blocks := 0, 0, BlockOf(pos, bs), blocks;
      this.left, offset, this.pos, buf := left, OffsetOf(pos, bs), pos, [];
      next, failed, gets, rels := BlockOf(pos, bs), false, [], [];
      new;
      StartSplit(pos, bs);
    }

    /** The first loop of a round: ask for blocks until one that is there comes first, the ring
        is full, or all have been asked for. */
    method Request()
      requires RingOk() && DataOk() && !failed && left > 0 && block - next < NBUF && (blocks > 0 || next < block)
      modifies this`bhb, this`block, this`blocks, this`gets, ring
      ensures RingOk() && DataOk() && next < block
    {
      hide Start, Range;
      var uptodate, full := true, false;
      while blocks > 0 && !full
        invariant RingOk() && DataOk() && (full || block - next < NBUF) && (blocks > 0 || next < block)
        invariant full ==> next < block
        decreases blocks
      {
        blocks := blocks - 1;
        HoldsPush(ring[..], bhe, next, block - next);
        Push();
        if !up(block - 1) {
          uptodate := false;
        }
        full := uptodate || bhb == bhe;
      }
    }

    /** getblk of the next block into the ring. */
    method Push()
      requires ring.Length == NBUF && bhb < NBUF && bhe < NBUF && first <= next <= block && block - next < NBUF
      requires bhb == Wrap(bhe + (block - next)) && Holds(ring[..], bhe, next, block - next)
      requires gets == Range(first, block) && rels == Range(first, next)
      modifies this`bhb, this`block, this`gets, ring
      ensures RingOk() && block == old(block) + 1 && (bhb == bhe <==> block - next == NBUF)
    {
      HoldsPush(ring[..], bhe, next, block - next);
      ring[bhb] := block;
      gets := gets + [block];
      block := block + 1;
      bhb := if bhb + 1 == NBUF then 0 else bhb + 1;
    }

    /** brelse of the oldest buffer in the ring. */
    method Pop()
      requires RingOk() && next < block
      modifies this`bhe, this`next, this`rels
      ensures RingOk() && next == old(next) + 1
    {
      HoldsPop(ring[..], bhe, next, block - next);
      rels := rels + [ring[bhe]];
      bhe := if bhe + 1 == NBUF then 0 else bhe + 1;
      next := next + 1;
    }

    /** copy_to_user of the part of the oldest buffer that is wanted. */
    method Copy()
      requires RingOk() && DataOk() && !failed && left > 0 && next < block
      modifies this`left, this`pos, this`buf
      ensures RingOk() && pos == pos0 + |buf| <= |data| && buf == data[pos0..pos] && left + |buf| == left0 && buf != []
      ensures pos <= Start(next + 1, bs) && (left > 0 ==> pos == Start(next + 1, bs))
    {
      hide Start, Holds, Range;
      StartNext(next, bs);
      var chars := if left < bs - offset then left else bs - offset;
      StartMono(next + 1, end, bs);
      buf := buf + data[pos..pos + chars];
      assert data[pos0..pos] + data[pos..pos + chars] == data[pos0..pos + chars];
      pos := pos + chars;
      left := left - chars;
    }

    /** One turn of the second loop: the oldest buffer is waited for and copied, or has failed. */
    method CompleteOne()
      requires RingOk() && DataOk() && !failed && left > 0 && next < block
      modifies this`bhe, this`next, this`rels, this`left, this`offset, this`pos, this`buf, this`failed
      ensures RingOk() && DataOk() && next == old(next) + 1 && (failed ==> left == 0)
    {
      hide Start, Holds, Range;
      var b := ring[bhe];
      assert b == next by { HoldsPop(ring[..], bhe, next, block - next); }
      StartNext(next, bs);
      if !Readable(up, bad, b) {
        Pop();
        left := 0;
        failed := true;
        return;
      }
      Copy();
      Pop();
      offset := 0;
    }

    /** The second loop of a round. */
    method Complete()
      requires RingOk() && DataOk() && !failed && left > 0 && next < block
      modifies this`bhe, this`next, this`rels, this`left, this`offset, this`pos, this`buf, this`failed
      ensures RingOk() && DataOk() && next > old(next) && (failed ==> left == 0)
    {
      hide DataOk, Holds, Range;
      CompleteOne();
      while left > 0 && bhe != bhb && !locked(ring[bhe])
        invariant RingOk() && DataOk() && next > old(next) && (failed ==> left == 0)
        invariant block - next < NBUF && next <= block
        decreases block - next
      {
        CompleteOne();
      }
    }

    /** The rounds. */
    method Rounds()
      requires RingOk() && DataOk() && !failed && left > 0 && next == block && blocks > 0
      modifies this, ring
      ensures RingOk() && DataOk() && Finished() && next > first && (block - next < NBUF)
    {
      hide DataOk, Holds, Range;
      Request();
      Complete();
      NextInRange();
      while left > 0 && !(bhe == bhb && blocks == 0)
        invariant RingOk() && DataOk() && next > first && block - next < NBUF && (failed ==> left == 0) && next <= end
        decreases end - next
      {
        Request();
        Complete();
        NextInRange();
      }
    }

    lemma NextInRange()
      requires DataOk() && RingOk()
      ensures next <= end
    {}

    /** The read-ahead buffers left in the ring are released. */
    method Release()
      requires RingOk() && block - next < NBUF
      modifies this`bhe, this`next, this`rels
      ensures RingOk() && next == block
    {
      hide Holds, Range;
      while bhe != bhb
        invariant RingOk() && block - next < NBUF
        decreases block - next
      {
        Pop();
      }
    }

    /** The rounds delivered what a read should. */
    lemma Amount(count: nat)
      requires RingOk() && DataOk() && Finished() && next > first && first == BlockOf(pos0, bs)
      requires left0 == InRange(|data|, pos0, count) && end <= BlockOf(|data|, bs)
                && (end == BlockOf(|data|, bs) || Start(end, bs) >= pos0 + left0)
      ensures |buf| == Delivered(up, bad, |data|, bs, pos0, count)
    {
      hide Start, Holds, Range, RingOk, InRange, BlockOf;
      var last := BlockOf(|data|, bs);
      var g := GoodEnd(up, bad, first, last);
      StartSplit(pos0, bs);
      assert first <= next <= end && (left > 0 ==> next == end) by { Bounds(); }
      if failed {
        assert g == next - 1;
        if next - 1 > first {
          StartMono(first + 1, next - 1, bs);
          StartNext(first, bs);
        }
      } else {
        assert g >= next;
        StartMono(next, g, bs);
        StartMono(first + 1, next, bs);
        StartNext(first, bs);
      }
    }

    lemma Bounds()
      requires RingOk() && DataOk() && Finished()
      ensures first <= next <= end && (left > 0 ==> next == end)
    {}
  }

  /** block_read. `ahead` is the device's read-ahead in blocks and `reada` whether the file reads
      ahead. `gets` and `rels` list the buffers taken and released. */
  method Read(data: seq<int>, bs: nat, up: nat -> bool, bad: nat -> bool, locked: nat -> bool,
              pos: nat, count: nat, reada: bool, ahead: nat)
    returns (result: int, buf: seq<int>, newPos: nat, ghost gets: seq<nat>, ghost rels: seq<nat>)
    requires bs > 0
    ensures var n := Delivered(up, bad, |data|, bs, pos, count);
            && |buf| == n && newPos == pos + n && newPos <= Max(pos, |data|) && (n > 0 ==> buf == data[pos..pos + n])
            && result == (if InRange(|data|, pos, count) == 0 || BlockOf(pos, bs) >= BlockOf(|data|, bs) then 0
                else if n == 0 then EIO else n)
    ensures gets == rels == Range(BlockOf(pos, bs), BlockOf(pos, bs) + |gets|)
  {
    hide Start, GoodEnd, Range, BlockOf, OffsetOf, Touched;
    newPos, buf, gets, rels := pos, [], [], [];
    assert Range(BlockOf(pos, bs), BlockOf(pos, bs)) == [] by { RangeEmpty(BlockOf(pos, bs)); }
    var left := if pos > |data| then 0 else if |data| - pos > INT_MAX then INT_MAX else |data| - pos;
    if left > count {
      left := count;
    }
    if left <= 0 {
      return 0, buf, newPos, gets, rels;
    }
    var block := BlockOf(pos, bs);
    var rblocks := Touched(left + OffsetOf(pos, bs), bs);
    var blocks := rblocks;
    if reada && blocks < ahead {
      blocks := ahead;
    }
    ghost var wanted := blocks;
    BlockMono(pos, |data|, bs);
    if block + blocks > BlockOf(|data|, bs) {
      blocks := BlockOf(|data|, bs) - block;
      if blocks == 0 {
        return 0, buf, newPos, gets, rels;
      }
    }
    Cover(pos, left, bs, wanted);
    StartSplit(|data|, bs);
    StartMono(block + blocks, BlockOf(|data|, bs), bs);
    var r := new Reader(data, bs, up, bad, locked, pos, left, blocks);
    r.Rounds();
    r.Amount(count);
    r.Release();
    buf, newPos, gets, rels := r.buf, r.pos, r.gets, r.rels;
    result := if |buf| == 0 then EIO else |buf|;
  }
}