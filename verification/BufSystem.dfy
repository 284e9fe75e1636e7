/** Runs of the buffer cache: any interleaving of the steps of any number of tasks. */
module BufSystem {
  import opened Lists
  import opened BufCache
  import opened BufOps

  datatype Event =
    | GetBlock(dev: int, block: int, size: nat)
    | Hold(b: nat)
    | Release(b: nat)
    | Forget(b: nat)
    | SetDirty(b: nat)
    | FileDirty(b: nat)
    | SetClean(b: nat)
    | File(b: nat)
    | SetLock(b: nat, on: bool)
    | Protect(b: nat)
    | NewPage(size: nat, ids: seq<nat>)
    | NewPageBuffer(b: nat, dev: int, block: int, size: nat)
    | FreePage(page: seq<nat>)
    | FlushScan

  /** A task may work on `b`: it is in use, and the task has a reference that is not one of the
      marking tasks'. */
  predicate Held(c: Cache, b: nat) {
    b in c.bufs && c.bufs[b].dev != B_FREE && c.bufs[b].count > c.bufs[b].marking
  }

  predicate InUse(c: Cache, b: nat) {
    b in c.bufs && c.bufs[b].dev != B_FREE
  }

  /** What a caller of the step has to respect. */
  ghost predicate Enabled(c: Cache, e: Event) {
    match e
    case GetBlock(dev, block, size) => dev != B_FREE && ValidSize(size)
    case Hold(b) => InUse(c, b)
    case Release(b) => Held(c, b)
    case Forget(b) => Held(c, b)
    case SetDirty(b) => Held(c, b)
    case FileDirty(b) => InUse(c, b) && c.bufs[b].marking > 0
    case SetClean(b) => InUse(c, b)
    case File(b) => InUse(c, b)
    case SetLock(b, on) => InUse(c, b)
    case Protect(b) => Held(c, b)
    case NewPage(size, ids) => SizeIndex(size) >= 0 && Distinct(ids) && forall x | x in ids :: x !in c.bufs
    case NewPageBuffer(b, dev, block, size) => b !in c.bufs && dev != B_FREE && ValidSize(size)
    case FreePage(page) => Distinct(page) && forall x | x in page :: x in c.bufs
    case FlushScan => true
  }

  lemma DirtyInUse(h: HashFn, c: Cache)
    requires Inv(h, c)
    ensures forall x | x in c.lru[DIRTY] :: x in c.bufs && c.bufs[x].dev != B_FREE
  {
    assert LruOk(c, DIRTY);
  }

  lemma Fields(h: HashFn, c: Cache, b: nat)
    requires Inv(h, c) && b in c.bufs
    ensures c.bufs[b].list < 4 && ValidSize(c.bufs[b].size)
  {
    assert BufOk(c, b);
  }

  ghost function Step(h: HashFn, c: Cache, e: Event): Cache
    requires Inv(h, c) && Enabled(c, e)
  {
    match e
    case GetBlock(dev, block, size) => Getblk(h, c, dev, block, size).0
    case Hold(b) => SetBuf(c, b, c.bufs[b].(count := c.bufs[b].count + 1))
    case Release(b) => SetBuf(c, b, c.bufs[b].(count := c.bufs[b].count - 1))
    case Forget(b) => Fields(h, c, b); Bforget(h, c, b)
    case SetDirty(b) => MarkBegin(c, b)
    case FileDirty(b) => Fields(h, c, b); MarkEnd(c, b)
    case SetClean(b) => SetBuf(c, b, c.bufs[b].(dirty := false))
    case File(b) => Fields(h, c, b); Refile(c, b)
    case SetLock(b, on) => SetBuf(c, b, c.bufs[b].(locked := on))
    case Protect(b) => SetBuf(c, b, c.bufs[b].(prot := true))
    case NewPage(size, ids) => Grow(c, size, ids)
    case NewPageBuffer(b, dev, block, size) => PageBuffer(c, b, dev, block, size)
    case FreePage(page) => TryToFree(h, c, page).0
    case FlushScan => DirtyInUse(h, c); Pass(h, c, c.lru[DIRTY]).0
  }

  lemma BitsKeep(h: HashFn, c: Cache, e: Event)
    requires Inv(h, c) && Enabled(c, e) && (e.Hold? || e.Release? || e.SetClean? || e.SetLock? || e.Protect?)
    ensures Inv(h, Step(h, c, e))
  {
    hide LruOk, ChainOk, FreeOk, ValidSize;
    assert BufOk(c, e.b);
    SetBufKeeps(h, c, e.b, Step(h, c, e).bufs[e.b]);
  }

  lemma StepKeeps(h: HashFn, c: Cache, e: Event)
    requires Inv(h, c) && Enabled(c, e)
    ensures Inv(h, Step(h, c, e))
  {
    hide LruOk, ChainOk, FreeOk, BufOk, Getblk, Bforget, MarkBegin, MarkEnd, Refile, Grow, PageBuffer, TryToFree, Pass;
    match e
    case GetBlock(dev, block, size) => GetblkRefines(h, c, dev, block, size);
    case Forget(b) => BforgetKeeps(h, c, b);
    case SetDirty(b) => MarkBeginKeeps(h, c, b);
    case FileDirty(b) => Fields(h, c, b); MarkEndKeeps(h, c, b);
    case File(b) => RefileKeeps(h, c, b);
    case NewPage(size, ids) => GrowKeeps(h, c, size, ids);
    case NewPageBuffer(b, dev, block, size) => PageBufferKeeps(h, c, b, dev, block, size);
    case FreePage(page) => TryToFreeRefines(h, c, page);
    case FlushScan => DirtyInUse(h, c); FlushMissesNone(h, c);
    case _ => BitsKeep(h, c, e);
  }

  /** buffer_init */
  function Start(n: nat): Cache {
    Cache(map[], seq(n, _ => []), [[], [], [], []], [0, 0, 0, 0], [0, 0, 0, 0], [[], [], [], [], [], [], []])
  }

  /** The cache after the steps `es` with a table of `n` chains; a step its caller may not take
      does not happen. */
  ghost function Exec(h: HashFn, n: nat, es: seq<Event>): (c: Cache)
    requires forall d, b :: h(d, b) < n
    ensures Inv(h, c)
    decreases |es|
  {
    if es == [] then Start(n)
    else
      var b, e := Exec(h, n, es[..|es| - 1]), es[|es| - 1];
      if Enabled(b, e) then StepKeeps(h, b, e); Step(h, b, e) else b
  }

  /** After any run: one buffer to a key, in its chain and on an LRU list; lists disjoint; exact
      counters; and every dirty, unprotected buffer whose marking is over on the DIRTY list. */
  lemma RunSafe(h: HashFn, n: nat, es: seq<Event>)
    requires forall d, b :: h(d, b) < n
    ensures var c := Exec(h, n, es);
            && |c.lru| == |c.nr| == |c.bytes| == 4 && |c.chains| == n
            && (forall d, k, s: nat, x: nat, y: nat | Cached(h, c, d, k, s, x) && Cached(h, c, d, k, s, y) :: x == y)
            && (forall i: nat, x | i < n && x in c.chains[i] ::
                  && x in c.bufs && Cached(h, c, c.bufs[x].dev, c.bufs[x].block, c.bufs[x].size, x)
                  && c.bufs[x].list < 4 && x in c.lru[c.bufs[x].list])
            && (forall l: nat | l < 4 :: c.nr[l] == |c.lru[l]| && c.bytes[l] == Sum(c.bufs, c.lru[l]))
            && (forall l: nat, m: nat, x | l < 4 && m < 4 && x in c.lru[l] && x in c.lru[m] :: l == m)
            && (forall x | x in c.bufs && c.bufs[x].dirty && !c.bufs[x].prot && c.bufs[x].marking == 0 ::
                x in c.lru[DIRTY])
  {
    hide FreeOk, Exec, Distinct;
    var c := Exec(h, n, es);
    ChainCount(h, n, es);
    forall d, k, s: nat, x: nat, y: nat | Cached(h, c, d, k, s, x) && Cached(h, c, d, k, s, y) ensures x == y {
      CachedUnique(h, c, d, k, s, x, y);
    }
    forall l: nat | l < 4
      ensures c.nr[l] == |c.lru[l]| && c.bytes[l] == Sum(c.bufs, c.lru[l])
      ensures forall x | x in c.lru[l] :: x in c.bufs && c.bufs[x].list == l
    {
      assert LruOk(c, l);
    }
    forall i: nat, x | i < n && x in c.chains[i]
      ensures x in c.bufs && Cached(h, c, c.bufs[x].dev, c.bufs[x].block, c.bufs[x].size, x)
      ensures c.bufs[x].list < 4 && x in c.lru[c.bufs[x].list]
    {
      assert ChainOk(h, c, i);
    }
    forall x | x in c.bufs && c.bufs[x].dirty && !c.bufs[x].prot && c.bufs[x].marking == 0
      ensures x in c.lru[DIRTY]
    {
      assert BufOk(c, x);
    }
  }

  lemma {:induction false} ChainCount(h: HashFn, n: nat, es: seq<Event>)
    requires forall d, b :: h(d, b) < n
    ensures |Exec(h, n, es).chains| == n
    decreases |es|
  {
    if es != [] {
      ChainCount(h, n, es[..|es| - 1]);
      var b, e := Exec(h, n, es[..|es| - 1]), es[|es| - 1];
      if Enabled(b, e) {
        StepChains(h, b, e);
      }
    }
  }

  lemma {:induction false} DropAllChains(h: HashFn, c: Cache, page: seq<nat>)
    requires Inv(h, c) && Distinct(page) && forall x | x in page :: x in c.bufs
    ensures |DropAll(h, c, page).chains| == |c.chains|
    decreases page
  {
    hide LruOk, ChainOk, FreeOk, BufOk;
    if page != [] {
      DropKeeps(h, c, page[0]);
      UnlistFrame(h, c, page[0]);
      assert page == [page[0]] + page[1..];
      DropAllChains(h, Drop(h, c, page[0]), page[1..]);
    }
  }

  lemma {:induction false} PassChains(h: HashFn, c: Cache, todo: seq<nat>)
    requires Inv(h, c) && forall x | x in todo :: x in c.bufs && c.bufs[x].dev != B_FREE
    ensures |Pass(h, c, todo).0.chains| == |c.chains|
    decreases todo
  {
    hide LruOk, ChainOk, FreeOk, Refile;
    if todo != [] {
      assert BufOk(c, todo[0]);
      if !c.bufs[todo[0]].dirty {
        RefileKeeps(h, c, todo[0]);
        RefileFrame(c, todo[0]);
        PassChains(h, Refile(c, todo[0]), todo[1..]);
      } else if c.bufs[todo[0]].locked {
        PassChains(h, c, todo[1..]);
      }
    }
  }

  lemma StepChains(h: HashFn, c: Cache, e: Event)
    requires Inv(h, c) && Enabled(c, e)
    ensures |Step(h, c, e).chains| == |c.chains|
  {
    hide LruOk, ChainOk, FreeOk, BufOk, Refile, Unlist, DropAll, Pass;
    match e
    case Forget(b) => Fields(h, c, b); UnlistFrame(h, SetBuf(c, b, c.bufs[b].(count := c.bufs[b].count - 1)), b);
    case FileDirty(b) => Fields(h, c, b); RefileFrame(c, b);
    case File(b) => Fields(h, c, b); RefileFrame(c, b);
    case FreePage(page) => DropAllChains(h, c, page);
    case FlushScan => DirtyInUse(h, c); PassChains(h, c, c.lru[DIRTY]);
    case _ =>
  }
}
