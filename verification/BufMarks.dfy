/** What each step of the buffer cache does to a buffer's count and bits, that marking makes a
    buffer dirty until it is cleaned or forgotten, and where forgotten and new buffers go. */
module BufMarks {
  import opened Lists
  import opened BufCache
  import opened BufOps
  import opened BufSystem

  // ---- counts and bits ----

  datatype Bits = Bits(count: int, dirty: bool, locked: bool, prot: bool)

  function BitsOf(u: Buf): Bits {
    Bits(u.count, u.dirty, u.locked, u.prot)
  }

  const IDLE: Bits := Bits(0, false, false, false)

  /** The last reference of a buffer without input or output under way. */
  predicate Last(u: Buf) {
    u.count == 1 && !u.locked
  }

  /** The count and bits of buffer `x` after a step; a buffer that is not there is idle. */
  ghost function BitsAfter(h: HashFn, c: Cache, e: Event, x: nat): Bits
    requires Inv(h, c) && Enabled(c, e)
  {
    var was := if x in c.bufs then BitsOf(c.bufs[x]) else IDLE;
    match e
    case GetBlock(dev, block, size) =>
      if Getblk(h, c, dev, block, size).1 == Found(x) then was.(count := was.count + 1) else was
    case Hold(b) => if b == x then was.(count := was.count + 1) else was
    case Release(b) => if b == x then was.(count := was.count - 1) else was
    case Forget(b) => if b != x then was else if Last(c.bufs[x]) then IDLE else was.(count := was.count - 1)
    case SetDirty(b) => if b == x then was.(dirty := true) else was
    case SetClean(b) => if b == x then was.(dirty := false) else was
    case SetLock(b, on) => if b == x then was.(locked := on) else was
    case Protect(b) => if b == x then was.(prot := true) else was
    case _ => was
  }

  ghost predicate BitsRight(h: HashFn, c: Cache, e: Event, c': Cache, x: nat)
    requires Inv(h, c) && Enabled(c, e)
  {
    BitsAfter(h, c, e, x) == if x in c'.bufs then BitsOf(c'.bufs[x]) else IDLE
  }

  lemma FreeIdle(h: HashFn, c: Cache, x: nat)
    requires Inv(h, c) && x in c.bufs && c.bufs[x].dev == B_FREE
    ensures BitsOf(c.bufs[x]) == IDLE
  {
    hide LruOk, ChainOk, FreeOk;
    assert BufOk(c, x);
  }

  lemma GetBits(h: HashFn, c: Cache, dev: int, block: int, size: nat, x: nat)
    requires Inv(h, c) && Enabled(c, GetBlock(dev, block, size))
    ensures BitsRight(h, c, GetBlock(dev, block, size), Getblk(h, c, dev, block, size).0, x)
  {
    hide LruOk, ChainOk, BufOk, FreeOk, Absent, Inv, Getblk;
    Shape(h, c);
    IndexRounds(size);
    var i := SizeIndex(size);
    if Absent(h, c, dev, block, size) {
      GetblkMiss(h, c, dev, block, size);
      if c.free[i] != [] {
        InsertHead(h, c, i, dev);
        FreeIdle(h, c, c.free[i][0]);
      }
    } else {
      GetblkHit(h, c, dev, block, size);
    }
  }

  lemma ForgetBits(h: HashFn, c: Cache, b: nat, x: nat)
    requires Inv(h, c) && Enabled(c, Forget(b))
    ensures BitsRight(h, c, Forget(b), Step(h, c, Forget(b)), x)
  {
    hide LruOk, ChainOk, FreeOk, BufOk, Unlist, ValidSize;
    Fields(h, c, b);
    UnlistFrame(h, SetBuf(c, b, c.bufs[b].(count := c.bufs[b].count - 1)), b);
  }

  lemma GrowBits(c: Cache, size: nat, ids: seq<nat>, x: nat)
    requires SizeIndex(size) >= 0 && |c.free| == 7 && forall x | x in ids :: x !in c.bufs
    ensures var c' := Grow(c, size, ids);
            (if x in c'.bufs then BitsOf(c'.bufs[x]) else IDLE) == if x in c.bufs then BitsOf(c.bufs[x]) else IDLE
  {
  }

  lemma FreeBits(h: HashFn, c: Cache, page: seq<nat>, x: nat)
    requires Inv(h, c) && Enabled(c, FreePage(page))
    ensures BitsRight(h, c, FreePage(page), TryToFree(h, c, page).0, x)
  {
    hide Inv;
  }

  lemma FlushBits(h: HashFn, c: Cache, x: nat)
    requires Inv(h, c)
    ensures BitsRight(h, c, FlushScan, Step(h, c, FlushScan), x)
  {
    hide LruOk, FreeOk, ChainOk, BufOk, Pass;
    DirtyInUse(h, c);
    assert LruOk(c, DIRTY);
    StartPassing(c);
    PassFacts(h, c, c.lru[DIRTY]);
  }

  lemma StartPassing(c: Cache)
    requires |c.lru| == |c.nr| == |c.bytes| == 4 && LruOk(c, DIRTY)
    ensures Passing(c, c.lru[DIRTY])
  {
  }

  /** Every step does to every buffer's count and bits what it should, and no more: marking sets
      the dirty bit, cleaning clears it, refiling and scanning change none, and only a forget of
      the last reference or the end of its page makes a buffer idle. */
  lemma StepBits(h: HashFn, c: Cache, e: Event, x: nat)
    requires Inv(h, c) && Enabled(c, e)
    ensures BitsRight(h, c, e, Step(h, c, e), x)
  {
    hide Inv, Getblk, Refile, Grow, TryToFree, Pass, Bforget;
    match e
    case GetBlock(dev, block, size) => GetBits(h, c, dev, block, size, x);
    case Forget(b) => ForgetBits(h, c, b, x);
    case FileDirty(b) => Fields(h, c, b); Shape(h, c); RefileFrame(c, b);
    case File(b) => Fields(h, c, b); Shape(h, c); RefileFrame(c, b);
    case NewPage(size, ids) => Shape(h, c); GrowBits(c, size, ids, x);
    case FreePage(page) => FreeBits(h, c, page, x);
    case FlushScan => FlushBits(h, c, x);
    case _ =>
  }

  lemma Shape(h: HashFn, c: Cache)
    requires Inv(h, c)
    ensures |c.lru| == |c.nr| == |c.bytes| == 4 && |c.free| == 7
  {
  }

  // ---- marking ----

  /** mark_buffer_dirty by one task leaves the buffer dirty and, when it is not protected and no
      other marking is under way, on the DIRTY list; no other buffer changes. */
  lemma MarkMeans(h: HashFn, c: Cache, b: nat)
    requires Inv(h, c) && Held(c, b) && c.bufs[b].list < 4
    ensures var c' := if c.bufs[b].dirty then c else MarkEnd(MarkBegin(c, b), b);
            && Inv(h, c') && b in c'.bufs && c'.bufs[b].dirty && BitsOf(c'.bufs[b]) == BitsOf(c.bufs[b]).(dirty := true)
            && c'.bufs[b].marking == c.bufs[b].marking
            && (!c'.bufs[b].prot && c'.bufs[b].marking == 0 ==> b in c'.lru[DIRTY])
            && (forall x | x != b :: (x in c'.bufs <==> x in c.bufs) && (x in c.bufs ==> c'.bufs[x] == c.bufs[x]))
  {
    hide Inv, Refile;
    Shape(h, c);
    if !c.bufs[b].dirty {
      var c1 := MarkBegin(c, b);
      MarkBeginKeeps(h, c, b);
      MarkEndKeeps(h, c1, b);
      RefileFrame(c1, b);
      DirtyListed(h, MarkEnd(c1, b), b);
    } else {
      DirtyListed(h, c, b);
    }
  }

  lemma DirtyListed(h: HashFn, c: Cache, b: nat)
    requires Inv(h, c) && InUse(c, b) && c.bufs[b].dirty && |c.lru| == 4
    ensures !c.bufs[b].prot && c.bufs[b].marking == 0 ==> b in c.lru[DIRTY]
  {
    hide LruOk, ChainOk, FreeOk;
    assert BufOk(c, b);
  }

  /** `b` was marked in the run and since then neither cleaned nor forgotten to the end. */
  ghost predicate Marked(h: HashFn, n: nat, es: seq<Event>, b: nat)
    requires forall d, b :: h(d, b) < n
    decreases |es|
  {
    es != [] && (
      var c, e := Exec(h, n, es[..|es| - 1]), es[|es| - 1];
      var was := Marked(h, n, es[..|es| - 1], b);
      if !Enabled(c, e) then was
      else if e == SetDirty(b) then true
      else if e == SetClean(b) then false
      else if e == Forget(b) then was && !Last(c.bufs[b])
      else was)
  }

  /** Over every run a buffer is dirty exactly when it is marked. A marked one is in use, so its
      page is never freed, and when a scan finds nothing to write it is locked, protected or
      still being marked. */
  lemma {:induction false} RunMarked(h: HashFn, n: nat, es: seq<Event>, b: nat)
    requires forall d, b :: h(d, b) < n
    ensures var c := Exec(h, n, es);
            && (Marked(h, n, es, b) <==> b in c.bufs && c.bufs[b].dirty)
            && (Marked(h, n, es, b) ==> c.bufs[b].dev != B_FREE)
    decreases |es|
  {
    hide Inv, Enabled, BufSystem.Step;
    var c' := Exec(h, n, es);
    if es != [] {
      var c, e := Exec(h, n, es[..|es| - 1]), es[|es| - 1];
      RunMarked(h, n, es[..|es| - 1], b);
      if Enabled(c, e) {
        StepBits(h, c, e, b);
        EventOf(c, e);
      }
    }
    if b in c'.bufs && c'.bufs[b].dev == B_FREE {
      FreeIdle(h, c', b);
    }
  }

  /** The buffer that a step names is there. */
  lemma EventOf(c: Cache, e: Event)
    requires Enabled(c, e)
    ensures e.SetDirty? || e.SetClean? || e.Forget? ==> e.b in c.bufs
  {
  }

  /** So over every run, when a scan of the DIRTY list finds nothing to write, whatever was marked
      and not cleaned or forgotten since is locked, protected or still being marked. */
  lemma RunFlush(h: HashFn, n: nat, es: seq<Event>, b: nat)
    requires forall d, b :: h(d, b) < n
    requires Marked(h, n, es, b)
    ensures var c := Exec(h, n, es);
            && |c.lru| == 4 && (forall x | x in c.lru[DIRTY] :: x in c.bufs && c.bufs[x].dev != B_FREE) && b in c.bufs
            && (Pass(h, c, c.lru[DIRTY]).1.None? ==>
                  c.bufs[b].locked || c.bufs[b].prot || c.bufs[b].marking > 0)
  {
    hide Inv, Exec, Marked, Pass;
    var c := Exec(h, n, es);
    Shape(h, c);
    RunMarked(h, n, es, b);
    DirtyInUse(h, c);
    FlushMissesNone(h, c);
  }

  // ---- where buffers go ----

  /** Refiling puts the buffer on the list of its bits: protected before dirty before locked. */
  lemma FileMeans(h: HashFn, c: Cache, b: nat)
    requires Inv(h, c) && InUse(c, b)
    ensures var c' := Step(h, c, File(b));
            && b in c'.bufs && |c'.lru| == 4
            && (c'.bufs[b].list == PROTECTED <==> c.bufs[b].prot)
            && (c'.bufs[b].list == DIRTY <==> c.bufs[b].dirty && !c.bufs[b].prot)
            && (c'.bufs[b].list == LOCKED <==> c.bufs[b].locked && !c.bufs[b].dirty && !c.bufs[b].prot)
            && (c'.bufs[b].list != CLEAN ==> b in c'.lru[c'.bufs[b].list])
  {
    hide LruOk, ChainOk, FreeOk, Refile;
    RefileKeeps(h, c, b);
    assert BufOk(Refile(c, b), b);
  }

  /** A forget of the last reference to an unlocked buffer uncaches its key and puts it at the end
      of the free list of its size; any other forget takes a reference and no more. */
  lemma ForgetMeans(h: HashFn, c: Cache, b: nat)
    requires Inv(h, c) && Held(c, b)
    ensures var c', u := Step(h, c, Forget(b)), c.bufs[b];
            if u.count == 1 && !u.locked then
              && 0 <= SizeIndex(u.size) < |c.free| && |c'.free| == |c.free|
              && c'.free[SizeIndex(u.size)] == c.free[SizeIndex(u.size)] + [b]
              && (forall i | 0 <= i < |c.free| && i != SizeIndex(u.size) :: c'.free[i] == c.free[i])
              && (forall d, k, s: nat, x: nat :: Cached(h, c', d, k, s, x) <==> Cached(h, c, d, k, s, x) && x != b)
            else c' == c.(bufs := c.bufs[b := u.(count := u.count - 1)])
  {
    hide LruOk, ChainOk, FreeOk, BufOk, Unlist, Cached;
    Fields(h, c, b);
    var u := c.bufs[b];
    if Last(u) {
      var c1 := SetBuf(c, b, u.(count := 0));
      LastKeeps(h, c, b);
      UnlistFrame(h, c1, b);
      forall d, k, s: nat, x: nat
        ensures Cached(h, Step(h, c, Forget(b)), d, k, s, x) <==> Cached(h, c, d, k, s, x) && x != b
      {
        ForgetMaps(h, c, b, d, k, s, x);
      }
    }
  }

  lemma LastKeeps(h: HashFn, c: Cache, b: nat)
    requires Inv(h, c) && Held(c, b) && Last(c.bufs[b])
    ensures Inv(h, SetBuf(c, b, c.bufs[b].(count := 0)))
  {
    hide LruOk, ChainOk, FreeOk, ValidSize;
    assert BufOk(c, b);
    SetBufKeeps(h, c, b, c.bufs[b].(count := 0));
  }

  lemma ForgetMaps(h: HashFn, c: Cache, b: nat, d: int, k: int, s: nat, x: nat)
    requires Inv(h, c) && Held(c, b) && Last(c.bufs[b])
    ensures Cached(h, Step(h, c, Forget(b)), d, k, s, x) <==> Cached(h, c, d, k, s, x) && x != b
  {
    hide LruOk, FreeOk, BufOk, Unlist, ValidSize, ChainOk;
    Fields(h, c, b);
    var c1 := SetBuf(c, b, c.bufs[b].(count := 0));
    LastKeeps(h, c, b);
    UnlistFrame(h, c1, b);
    if h(d, k) < |c.chains| {
      UnlistChain(h, c1, b, h(d, k));
    }
  }

  /** A new page of buffers, of a size that fits, all join the free list of their size in front of
      those that were there; a size that does not fit adds nothing. */
  lemma GrowMeans(h: HashFn, c: Cache, size: nat, ids: seq<nat>)
    requires Inv(h, c) && Enabled(c, NewPage(size, ids)) && ids != []
    ensures var c', i := Step(h, c, NewPage(size, ids)), SizeIndex(size);
            if size % 512 == 0 && size <= PAGE_SIZE then
              && i < |c.free| == |c'.free| && ids <= c'.free[i] && |c'.free[i]| == |ids| + |c.free[i]|
              && (forall x :: x in c'.free[i] <==> x in ids || x in c.free[i])
              && (forall j | 0 <= j < |c.free| && j != i :: c'.free[j] == c.free[j])
              && (forall x | x in ids :: x in c'.bufs && c'.bufs[x].size == size)
            else c' == c
  {
    hide LruOk, ChainOk, FreeOk, BufOk, ValidSize;
    IndexRounds(size);
    var was := c.free[SizeIndex(size)];
    if was != [] {
      assert was == [was[0]] + was[1..];
    }
  }
}
