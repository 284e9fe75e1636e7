/** The buffer cache: hash chains, LRU lists with running counters, and free lists. Each
    critical section under the list locks is one step. Circular lists are sequences that start
    at the list head. */
module BufCache {
  import opened Lists

  const CLEAN: nat := 0
  const LOCKED: nat := 1
  const DIRTY: nat := 2
  const PROTECTED: nat := 3
  const B_FREE: int := 0xffff
  const PAGE_SIZE: nat := 4096

  /** A struct buffer_head. `marking` counts the tasks that have set the dirty bit and not yet
      refiled the buffer. */
  datatype Buf = Buf(dev: int, block: int, size: nat, count: int, dirty: bool, locked: bool, prot: bool,
                     list: nat, marking: nat)

  datatype Cache = Cache(bufs: map<nat, Buf>, chains: seq<seq<nat>>, lru: seq<seq<nat>>, nr: seq<int>, bytes: seq<int>,
                         free: seq<seq<nat>>)

  /** The hash of (device, block); the results hold for every hash function. */
  type HashFn = (int, int) -> nat

  // ---- sizes ----

  /** BUFSIZE_INDEX; -1 for an index the table does not give. */
  function SizeIndex(size: nat): int {
    match size / 512
    case 1 => 0
    case 2 => 1
    case 4 => 2
    case 8 => 3
    case 16 => 4
    case 32 => 5
    case 64 => 6
    case _ => -1
  }

  /** The size of the buffers on free list `i`. */
  function SizeOf(i: nat): nat
    requires i < 7
  {
    [512, 1024, 2048, 4096, 8192, 16384, 32768][i]
  }

  predicate ValidSize(size: nat) {
    SizeIndex(size) >= 0 && size == SizeOf(SizeIndex(size))
  }

  /** The index rounds a size down. */
  lemma IndexRounds(size: nat)
    requires SizeIndex(size) >= 0
    ensures SizeIndex(size) < 7 && SizeOf(SizeIndex(size)) <= size < SizeOf(SizeIndex(size)) + 512
    ensures ValidSize(size) <==> size % 512 == 0
    ensures ValidSize(SizeOf(SizeIndex(size))) && SizeIndex(SizeOf(SizeIndex(size))) == SizeIndex(size)
  {}

  // ---- lists ----

  /** The bytes of the buffers on a list. */
  function Sum(bufs: map<nat, Buf>, s: seq<nat>): int {
    if s == [] then 0 else (if s[0] in bufs then bufs[s[0]].size else 0) + Sum(bufs, s[1..])
  }

  lemma {:induction false} SumSame(bufs: map<nat, Buf>, bufs': map<nat, Buf>, s: seq<nat>)
    requires forall x | x in s :: x in bufs && x in bufs' && bufs'[x].size == bufs[x].size
    ensures Sum(bufs', s) == Sum(bufs, s)
  {
    if s != [] {
      SumSame(bufs, bufs', s[1..]);
      assert s[0] in s;
    }
  }

  lemma {:induction false} SumAppend(bufs: map<nat, Buf>, s: seq<nat>, b: nat)
    requires b in bufs
    ensures Sum(bufs, s + [b]) == Sum(bufs, s) + bufs[b].size
  {
    if s == [] {
      assert ([] + [b])[1..] == [];
    } else {
      SumAppend(bufs, s[1..], b);
      assert (s + [b])[1..] == s[1..] + [b];
    }
  }

  lemma {:induction false} SumErase(bufs: map<nat, Buf>, s: seq<nat>, b: nat)
    requires b in s && b in bufs
    ensures Sum(bufs, Erase(s, b)) == Sum(bufs, s) - bufs[b].size
  {
    if s[0] != b {
      SumErase(bufs, s[1..], b);
      assert ([s[0]] + Erase(s[1..], b))[1..] == Erase(s[1..], b);
    }
  }

  // ---- the invariant ----

  ghost predicate ShapeOk(h: HashFn, c: Cache) {
    && |c.lru| == 4 && |c.nr| == 4 && |c.bytes| == 4 && |c.free| == 7
    && (forall d, b :: h(d, b) < |c.chains|)
  }

  /** What is on an LRU list is in use and says so, and the counters are exact. */
  ghost predicate LruOk(c: Cache, l: nat)
    requires l < |c.lru| == |c.nr| == |c.bytes|
  {
    && Distinct(c.lru[l]) && c.nr[l] == |c.lru[l]| && c.bytes[l] == Sum(c.bufs, c.lru[l])
    && (forall b | b in c.lru[l] :: b in c.bufs && c.bufs[b].dev != B_FREE && c.bufs[b].list == l)
  }

  /** What is on a free list is free, idle and of the list's size. */
  ghost predicate FreeOk(c: Cache, i: nat)
    requires i < |c.free| == 7
  {
    && Distinct(c.free[i])
    && (forall b | b in c.free[i] :: b in c.bufs && c.bufs[b].dev == B_FREE && c.bufs[b].size == SizeOf(i))
  }

  predicate SameKey(x: Buf, y: Buf) {
    x.dev == y.dev && x.block == y.block && x.size == y.size
  }

  /** What is on a hash chain hashes there and is on an LRU list, one buffer to a key. */
  ghost predicate ChainOk(h: HashFn, c: Cache, i: nat)
    requires i < |c.chains| && |c.lru| == 4
  {
    && Distinct(c.chains[i])
    && (forall b | b in c.chains[i] ::
          && b in c.bufs && c.bufs[b].dev != B_FREE && h(c.bufs[b].dev, c.bufs[b].block) == i
          && c.bufs[b].list < 4 && b in c.lru[c.bufs[b].list])
    && (forall x, y | x in c.chains[i] && y in c.chains[i] && SameKey(c.bufs[x], c.bufs[y]) :: x == y)
  }

  /** A free buffer is idle and on the list of its size; a buffer in use is on the list it
      names, if not CLEAN; and once marking is over a dirty one is on the DIRTY list. */
  ghost predicate BufOk(c: Cache, b: nat)
    requires b in c.bufs && |c.lru| == 4 && |c.free| == 7
  {
    var u := c.bufs[b];
    && u.list < 4 && ValidSize(u.size) && u.marking <= u.count
    && (u.dev == B_FREE ==> b in c.free[SizeIndex(u.size)] && u.count == 0 && !u.dirty && !u.locked && !u.prot)
    && (u.dev != B_FREE && u.list != CLEAN ==> b in c.lru[u.list])
    && (u.dev != B_FREE && u.dirty && !u.prot && u.marking == 0 ==> u.list == DIRTY)
  }

  ghost predicate Inv(h: HashFn, c: Cache) {
    && ShapeOk(h, c)
    && (forall l: nat | l < 4 :: LruOk(c, l))
    && (forall i: nat | i < 7 :: FreeOk(c, i))
    && (forall i: nat | i < |c.chains| :: ChainOk(h, c, i))
    && (forall b | b in c.bufs :: BufOk(c, b))
  }

  // ---- primitive list operations ----

  function LruInsert(c: Cache, b: nat, l: nat): Cache
    requires b in c.bufs && l < |c.lru| == |c.nr| == |c.bytes|
  {
    c.(lru := c.lru[l := c.lru[l] + [b]], nr := c.nr[l := c.nr[l] + 1],
        bytes := c.bytes[l := c.bytes[l] + c.bufs[b].size])
  }

  function LruRemove(c: Cache, b: nat, l: nat): Cache
    requires b in c.bufs && l < |c.lru| == |c.nr| == |c.bytes|
  {
    if b !in c.lru[l] then c
    else c.(lru := c.lru[l := Erase(c.lru[l], b)], nr := c.nr[l := c.nr[l] - 1],
        bytes := c.bytes[l := c.bytes[l] - c.bufs[b].size])
  }

  function HashUnlink(h: HashFn, c: Cache, b: nat): Cache
    requires b in c.bufs && h(c.bufs[b].dev, c.bufs[b].block) < |c.chains|
  {
    var i := h(c.bufs[b].dev, c.bufs[b].block);
    c.(chains := c.chains[i := Erase(c.chains[i], b)])
  }

  // ---- lookup ----

  datatype Option = None | Some(b: nat)

  function FindIn(bufs: map<nat, Buf>, chain: seq<nat>, dev: int, block: int, size: nat): Option {
    if chain == [] then None
    else if chain[0] in bufs && bufs[chain[0]].block == block && bufs[chain[0]].size == size
        && bufs[chain[0]].dev == dev then Some(chain[0])
    else FindIn(bufs, chain[1..], dev, block, size)
  }

  /** Buffer `b` caches (dev, block, size). */
  ghost predicate Cached(h: HashFn, c: Cache, dev: int, block: int, size: nat, b: nat) {
    && h(dev, block) < |c.chains| && b in c.chains[h(dev, block)] && b in c.bufs
    && c.bufs[b].dev == dev && c.bufs[b].block == block && c.bufs[b].size == size
  }

  lemma {:induction false} FindInFacts(bufs: map<nat, Buf>, chain: seq<nat>, dev: int, block: int, size: nat)
    ensures match FindIn(bufs, chain, dev, block, size)
            case Some(b) => b in chain && b in bufs && bufs[b].dev == dev && bufs[b].block == block
                && bufs[b].size == size
            case None => forall b | b in chain && b in bufs ::
                !(bufs[b].dev == dev && bufs[b].block == block && bufs[b].size == size)
  {
    if chain != [] {
      FindInFacts(bufs, chain[1..], dev, block, size);
      assert chain == [chain[0]] + chain[1..];
    }
  }

  /** The cache is a map: a key has at most one buffer. */
  lemma CachedUnique(h: HashFn, c: Cache, dev: int, block: int, size: nat, x: nat, y: nat)
    requires Inv(h, c) && Cached(h, c, dev, block, size, x) && Cached(h, c, dev, block, size, y)
    ensures x == y
  {
    assert ChainOk(h, c, h(dev, block));
  }
}
