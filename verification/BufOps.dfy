/** What the operations of the buffer cache do to its lists, and that they keep them right. */
module BufOps {
  import opened Lists
  import opened BufCache

  // ---- a change of bits and counts ----

  function SetBuf(c: Cache, b: nat, u: Buf): Cache {
    c.(bufs := c.bufs[b := u])
  }

  predicate SamePlace(u: Buf, v: Buf) {
    u.dev == v.dev && u.block == v.block && u.size == v.size && u.list == v.list
  }

  lemma SetBufKeeps(h: HashFn, c: Cache, b: nat, u: Buf)
    requires Inv(h, c) && b in c.bufs && SamePlace(u, c.bufs[b])
    requires BufOk(SetBuf(c, b, u), b)
    ensures Inv(h, SetBuf(c, b, u))
  {
    var c' := SetBuf(c, b, u);
    forall l: nat | l < 4
      ensures LruOk(c', l)
    {
      assert LruOk(c, l);
      SumSame(c.bufs, c'.bufs, c.lru[l]);
    }
    forall i: nat | i < 7
      ensures FreeOk(c', i)
    {
      assert FreeOk(c, i);
    }
    forall i: nat | i < |c.chains|
      ensures ChainOk(h, c', i)
    {
      assert ChainOk(h, c, i);
    }
    forall x | x in c'.bufs
      ensures BufOk(c', x)
    {
      assert x in c.bufs && BufOk(c, x);
    }
  }

  // ---- refiling ----

  /** The list a buffer's bits call for. */
  function Dispose(u: Buf): (l: nat)
    ensures l < 4
  {
    if u.prot then PROTECTED else if u.dirty then DIRTY else if u.locked then LOCKED else CLEAN
  }

  /** __refile_buffer */
  function Refile(c: Cache, b: nat): Cache
    requires b in c.bufs && c.bufs[b].list < 4 && |c.lru| == |c.nr| == |c.bytes| == 4
  {
    var u := c.bufs[b];
    if Dispose(u) == u.list then c
    else
      var c1 := SetBuf(LruRemove(c, b, u.list), b, u.(list := Dispose(u)));
      LruInsert(c1, b, Dispose(u))
  }

  lemma RemoveOk(c: Cache, b: nat, l: nat, k: nat)
    requires b in c.bufs && l < 4 && k < 4 && |c.lru| == |c.nr| == |c.bytes| == 4 && LruOk(c, k)
    ensures var c' := LruRemove(c, b, l);
            LruOk(c', k) && forall x :: x in c'.lru[k] <==> x in c.lru[k] && !(k == l && x == b)
  {
    EraseFacts(c.lru[k], b);
    if b in c.lru[k] {
      SumErase(c.bufs, c.lru[k], b);
    }
  }

  lemma RelistOk(c: Cache, b: nat, l: nat, k: nat)
    requires b in c.bufs && k < 4 && |c.lru| == |c.nr| == |c.bytes| == 4 && LruOk(c, k) && b !in c.lru[k]
    ensures LruOk(SetBuf(c, b, c.bufs[b].(list := l)), k)
  {
    SumSame(c.bufs, SetBuf(c, b, c.bufs[b].(list := l)).bufs, c.lru[k]);
  }

  lemma AppendOk(c: Cache, b: nat, l: nat, k: nat)
    requires b in c.bufs && l < 4 && k < 4 && |c.lru| == |c.nr| == |c.bytes| == 4 && LruOk(c, k)
    requires c.bufs[b].dev != B_FREE && c.bufs[b].list == l && b !in c.lru[l]
    ensures var c' := LruInsert(c, b, l);
            LruOk(c', k) && forall x :: x in c'.lru[k] <==> x in c.lru[k] || (k == l && x == b)
  {
    SumAppend(c.bufs, c.lru[k], b);
  }

  lemma RefileLru(h: HashFn, c: Cache, b: nat, l: nat)
    requires Inv(h, c) && b in c.bufs && c.bufs[b].dev != B_FREE && l < 4 && BufOk(c, b)
    ensures LruOk(Refile(c, b), l)
    ensures forall x :: x in Refile(c, b).lru[l]
              <==> (if x == b && Dispose(c.bufs[b]) != c.bufs[b].list then l == Dispose(c.bufs[b]) else x in c.lru[l])
  {
    hide LruOk, ChainOk, FreeOk, BufOk, LruRemove, LruInsert;
    assert c.bufs[b].list < 4 by { Listed(c, b); }
    var u := c.bufs[b];
    var d := Dispose(u);
    assert LruOk(c, l) && LruOk(c, d);
    if d != u.list {
      var c1 := LruRemove(c, b, u.list);
      var c2 := SetBuf(c1, b, u.(list := d));
      LruRemoveFrame(c, b, u.list);
      if l != u.list {
        NotListed(c, b, l);
      }
      NotListed(c, b, d);
      RemoveOk(c, b, u.list, l);
      RemoveOk(c, b, u.list, d);
      RelistOk(c1, b, d, l);
      AppendOk(c2, b, d, l);
    }
  }

  lemma Listed(c: Cache, b: nat)
    requires b in c.bufs && |c.lru| == 4 && |c.free| == 7 && BufOk(c, b)
    ensures c.bufs[b].list < 4
  {}

  lemma NotListed(c: Cache, b: nat, l: nat)
    requires b in c.bufs && l < |c.lru| == |c.nr| == |c.bytes| && LruOk(c, l) && c.bufs[b].list != l
    ensures b !in c.lru[l]
  {}

  lemma RefileKeeps(h: HashFn, c: Cache, b: nat)
    requires Inv(h, c) && b in c.bufs && c.bufs[b].dev != B_FREE
    ensures Inv(h, Refile(c, b))
    ensures Refile(c, b).bufs == c.bufs[b := c.bufs[b].(list := Dispose(c.bufs[b]))]
  {
    hide LruOk, Distinct, Sum, ValidSize, FreeOk, Refile;
    assert BufOk(c, b);
    var u, c' := c.bufs[b], Refile(c, b);
    RefileFrame(c, b);
    forall l: nat | l < 4
      ensures LruOk(c', l)
      ensures forall x :: x in c'.lru[l] <==> (if x == b && Dispose(u) != u.list then l == Dispose(u)
                else x in c.lru[l])
    {
      RefileLru(h, c, b, l);
    }
    forall i: nat | i < 7
      ensures FreeOk(c', i)
    {
      RefileFree(h, c, b, i);
    }
    forall i: nat | i < |c.chains|
      ensures ChainOk(h, c', i)
    {
      assert ChainOk(h, c, i);
    }
    forall x | x in c'.bufs
      ensures BufOk(c', x)
    {
      assert BufOk(c, x);
    }
  }

  lemma RefileFrame(c: Cache, b: nat)
    requires b in c.bufs && c.bufs[b].list < 4 && |c.lru| == |c.nr| == |c.bytes| == 4
    ensures var c' := Refile(c, b);
            && c'.bufs == c.bufs[b := c.bufs[b].(list := Dispose(c.bufs[b]))] && c'.chains == c.chains
                && c'.free == c.free
            && |c'.lru| == |c'.nr| == |c'.bytes| == 4
  {
    assert c.bufs[b := c.bufs[b]] == c.bufs;
  }

  lemma RefileFree(h: HashFn, c: Cache, b: nat, i: nat)
    requires Inv(h, c) && b in c.bufs && c.bufs[b].list < 4 && c.bufs[b].dev != B_FREE && i < 7
    ensures FreeOk(Refile(c, b), i)
  {
    hide LruOk, ChainOk, BufOk, Refile;
    RefileFrame(c, b);
    assert FreeOk(c, i);
  }

  // ---- marking ----

  /** atomic_set_buffer_dirty: the task that finds the bit clear goes on to refile. */
  function MarkBegin(c: Cache, b: nat): Cache
    requires b in c.bufs
  {
    var u := c.bufs[b];
    SetBuf(c, b, if u.dirty then u else u.(dirty := true, marking := u.marking + 1))
  }

  /** The refile that ends a marking. */
  function MarkEnd(c: Cache, b: nat): Cache
    requires b in c.bufs && c.bufs[b].list < 4 && c.bufs[b].marking > 0 && |c.lru| == |c.nr| == |c.bytes| == 4
  {
    var c1 := Refile(c, b);
    SetBuf(c1, b, c1.bufs[b].(marking := c1.bufs[b].marking - 1))
  }

  lemma MarkBeginKeeps(h: HashFn, c: Cache, b: nat)
    requires Inv(h, c) && b in c.bufs && c.bufs[b].dev != B_FREE && c.bufs[b].count > c.bufs[b].marking
    ensures Inv(h, MarkBegin(c, b))
  {
    hide LruOk, ChainOk, FreeOk, ValidSize;
    assert BufOk(c, b);
    SetBufKeeps(h, c, b, MarkBegin(c, b).bufs[b]);
  }

  lemma MarkEndKeeps(h: HashFn, c: Cache, b: nat)
    requires Inv(h, c) && b in c.bufs && c.bufs[b].dev != B_FREE && c.bufs[b].list < 4 && c.bufs[b].marking > 0
    ensures Inv(h, MarkEnd(c, b))
  {
    hide LruOk, ChainOk, FreeOk, ValidSize, Refile;
    RefileKeeps(h, c, b);
    var c1 := Refile(c, b);
    assert BufOk(c1, b);
    SetBufKeeps(h, c1, b, c1.bufs[b].(marking := c1.bufs[b].marking - 1));
  }

  // ---- getblk ----

  datatype Got = Found(b: nat) | Refill

  /** The head of free list `i`, put to use for (dev, block). */
  function Insert(h: HashFn, c: Cache, i: nat, dev: int, block: int): Cache
    requires i < |c.free| && c.free[i] != [] && c.free[i][0] in c.bufs && h(dev, block) < |c.chains|
    requires |c.lru| == |c.nr| == |c.bytes| == 4
  {
    var b, slot := c.free[i][0], h(dev, block);
    var c1 := c.(free := c.free[i := c.free[i][1..]], chains := c.chains[slot := [b] + c.chains[slot]]);
    LruInsert(SetBuf(c1, b, Buf(dev, block, c.bufs[b].size, 1, false, false, false, CLEAN, 0)), b, CLEAN)
  }

  /** One round of getblk under its locks. `Refill` means that the free list is empty; the
      caller refills it and comes back. */
  function Getblk(h: HashFn, c: Cache, dev: int, block: int, size: nat): (Cache, Got)
    requires Inv(h, c) && SizeIndex(size) >= 0
  {
    match FindIn(c.bufs, c.chains[h(dev, block)], dev, block, size)
    case Some(b) => FindInFacts(c.bufs, c.chains[h(dev, block)], dev, block, size);
                    (SetBuf(c, b, c.bufs[b].(count := c.bufs[b].count + 1)), Found(b))
    case None =>
      var i := SizeIndex(size);
      if c.free[i] == [] then (c, Refill)
      else
        assert FreeOk(c, i) && c.free[i][0] in c.free[i];
        (Insert(h, c, i, dev, block), Found(c.free[i][0]))
  }

  /** No buffer caches the key. */
  ghost predicate Absent(h: HashFn, c: Cache, dev: int, block: int, size: nat) {
    forall b :: !Cached(h, c, dev, block, size, b)
  }

  ghost predicate CanInsert(h: HashFn, c: Cache, i: nat, dev: int) {
    Inv(h, c) && i < 7 && c.free[i] != [] && dev != B_FREE
  }

  lemma InsertHead(h: HashFn, c: Cache, i: nat, dev: int)
    requires CanInsert(h, c, i, dev)
    ensures var b := c.free[i][0];
            && b in c.bufs && c.bufs[b].dev == B_FREE && c.bufs[b].size == SizeOf(i) && c.bufs[b].count == 0
                && b !in c.free[i][1..]
            && (forall l: nat | l < 4 :: b !in c.lru[l]) && (forall j: nat | j < |c.chains| :: b !in c.chains[j])
            && (forall j: nat | j < 7 && j != i :: b !in c.free[j])
  {
    hide Sum, ValidSize;
    var b := c.free[i][0];
    assert FreeOk(c, i) && b in c.free[i];
    assert BufOk(c, b);
    forall l: nat | l < 4 ensures b !in c.lru[l] { assert LruOk(c, l); }
    forall j: nat | j < |c.chains| ensures b !in c.chains[j] { assert ChainOk(h, c, j); }
    forall j: nat | j < 7 && j != i ensures b !in c.free[j] { assert FreeOk(c, j); }
  }

  lemma InsertLru(h: HashFn, c: Cache, i: nat, dev: int, block: int, l: nat)
    requires CanInsert(h, c, i, dev) && c.free[i][0] in c.bufs && l < 4
    ensures LruOk(Insert(h, c, i, dev, block), l)
  {
    hide BufOk, FreeOk, ChainOk;
    InsertHead(h, c, i, dev);
    var b, c' := c.free[i][0], Insert(h, c, i, dev, block);
    assert LruOk(c, l);
    SumSame(c.bufs, c'.bufs, c.lru[l]);
    if l == CLEAN {
      SumAppend(c'.bufs, c.lru[l], b);
    }
  }

  lemma InsertChain(h: HashFn, c: Cache, i: nat, dev: int, block: int, j: nat)
    requires CanInsert(h, c, i, dev) && c.free[i][0] in c.bufs && j < |c.chains| && Absent(h, c, dev, block, SizeOf(i))
    ensures ChainOk(h, Insert(h, c, i, dev, block), j)
  {
    hide BufOk, FreeOk, LruOk, Sum;
    InsertHead(h, c, i, dev);
    var b, c' := c.free[i][0], Insert(h, c, i, dev, block);
    assert ChainOk(h, c, j);
    assert forall x | x in c.chains[j] :: c'.bufs[x] == c.bufs[x];
    forall x | x in c.chains[j]
      ensures !SameKey(c'.bufs[x], c'.bufs[b])
    {
      assert !Cached(h, c, dev, block, SizeOf(i), x);
    }
  }

  lemma InsertKeeps(h: HashFn, c: Cache, i: nat, dev: int, block: int)
    requires CanInsert(h, c, i, dev) && c.free[i][0] in c.bufs && Absent(h, c, dev, block, SizeOf(i))
    ensures Inv(h, Insert(h, c, i, dev, block))
  {
    hide LruOk, ChainOk, Sum, Absent;
    InsertHead(h, c, i, dev);
    var b, c' := c.free[i][0], Insert(h, c, i, dev, block);
    forall l: nat | l < 4 ensures LruOk(c', l) { InsertLru(h, c, i, dev, block, l); }
    forall j: nat | j < |c'.chains| ensures ChainOk(h, c', j) { InsertChain(h, c, i, dev, block, j); }
    forall j: nat | j < 7 ensures FreeOk(c', j) { assert FreeOk(c, j); }
    forall x | x in c'.bufs
      ensures BufOk(c', x)
    {
      assert BufOk(c, x);
      if x != b && c.bufs[x].dev == B_FREE && SizeIndex(c.bufs[x].size) == i {
        assert x in c.free[i] && c.free[i] == [b] + c.free[i][1..];
      }
    }
  }

  /** getblk is lookup or insert: an absent key gets a buffer, every other key keeps its own. */
  lemma InsertMaps(h: HashFn, c: Cache, i: nat, dev: int, block: int, d: int, k: int, size: nat, x: nat)
    requires CanInsert(h, c, i, dev) && c.free[i][0] in c.bufs
    ensures Cached(h, Insert(h, c, i, dev, block), d, k, size, x) <==>
            Cached(h, c, d, k, size, x) || (d == dev && k == block && size == SizeOf(i) && x == c.free[i][0])
  {
    hide BufOk, FreeOk, LruOk, Sum, ChainOk;
    InsertHead(h, c, i, dev);
  }

  lemma FindInIff(h: HashFn, c: Cache, dev: int, block: int, size: nat)
    requires Inv(h, c)
    ensures var r := FindIn(c.bufs, c.chains[h(dev, block)], dev, block, size);
            && (r.None? <==> Absent(h, c, dev, block, size))
            && (r.Some? ==> Cached(h, c, dev, block, size, r.b))
  {
    FindInFacts(c.bufs, c.chains[h(dev, block)], dev, block, size);
    var r := FindIn(c.bufs, c.chains[h(dev, block)], dev, block, size);
    assert r.Some? ==> Cached(h, c, dev, block, size, r.b);
  }

  lemma GetblkHit(h: HashFn, c: Cache, dev: int, block: int, size: nat)
    requires Inv(h, c) && dev != B_FREE && SizeIndex(size) >= 0 && !Absent(h, c, dev, block, size)
    ensures var (c', r) := Getblk(h, c, dev, block, size);
            && r.Found? && Cached(h, c, dev, block, size, r.b) && Inv(h, c')
            && c' == SetBuf(c, r.b, c.bufs[r.b].(count := c.bufs[r.b].count + 1))
  {
    hide LruOk, FreeOk, ChainOk, Absent;
    FindInIff(h, c, dev, block, size);
    var b := FindIn(c.bufs, c.chains[h(dev, block)], dev, block, size).b;
    assert BufOk(c, b);
    SetBufKeeps(h, c, b, c.bufs[b].(count := c.bufs[b].count + 1));
  }

  lemma GetblkMiss(h: HashFn, c: Cache, dev: int, block: int, size: nat)
    requires Inv(h, c) && dev != B_FREE && SizeIndex(size) >= 0 && Absent(h, c, dev, block, size)
    ensures var (c', r) := Getblk(h, c, dev, block, size);
            var i := SizeIndex(size);
            if c.free[i] == [] then r == Refill && c' == c
            else c.free[i][0] in c.bufs && r == Found(c.free[i][0]) && c' == Insert(h, c, i, dev, block)
  {
    hide LruOk, ChainOk, BufOk, Absent, Insert;
    FindInIff(h, c, dev, block, size);
    if c.free[SizeIndex(size)] != [] {
      InsertHead(h, c, SizeIndex(size), dev);
    }
  }

  /** getblk is lookup or insert: it answers with a buffer of the asked key, the one the key had
      if there was one, and no other key gains or loses a buffer. */
  lemma GetblkRefines(h: HashFn, c: Cache, dev: int, block: int, size: nat)
    requires Inv(h, c) && dev != B_FREE && ValidSize(size)
    ensures var (c', r) := Getblk(h, c, dev, block, size);
            && Inv(h, c')
            && (r.Refill? <==> Absent(h, c, dev, block, size) && c.free[SizeIndex(size)] == [])
            && (r.Refill? ==> c' == c)
            && (r.Found? && !Absent(h, c, dev, block, size) ==> Cached(h, c, dev, block, size, r.b))
            && (r.Found? ==> r.b in c'.bufs && c'.bufs[r.b].count == 1 + if r.b in c.bufs then c.bufs[r.b].count else 0)
            && (r.Found? ==> forall d, k, s: nat, x: nat :: Cached(h, c', d, k, s, x) <==>
                 Cached(h, c, d, k, s, x) || (d == dev && k == block && s == size && x == r.b))
  {
    hide BufOk, Absent, FreeOk, LruOk, ChainOk, Getblk;
    var (c', r) := Getblk(h, c, dev, block, size);
    var i := SizeIndex(size);
    if Absent(h, c, dev, block, size) {
      GetblkMiss(h, c, dev, block, size);
      if c.free[i] != [] {
        InsertHead(h, c, i, dev);
        InsertKeeps(h, c, i, dev, block);
        forall d, k, s: nat, x: nat
          ensures Cached(h, c', d, k, s, x) <==>
                    Cached(h, c, d, k, s, x) || (d == dev && k == block && s == size && x == r.b)
        {
          InsertMaps(h, c, i, dev, block, d, k, s, x);
        }
      }
    } else {
      GetblkHit(h, c, dev, block, size);
    }
  }

  /** With a size that is no multiple of 512 getblk hands out a smaller buffer than it was asked
      for, and the cache stays a map exactly when that smaller key was absent. */
  lemma GetblkIff(h: HashFn, c: Cache, dev: int, block: int, size: nat)
    requires Inv(h, c) && dev != B_FREE && SizeIndex(size) >= 0 && Getblk(h, c, dev, block, size).1.Found?
    ensures var (c', r) := Getblk(h, c, dev, block, size);
            var i := SizeIndex(size);
            && r.b in c'.bufs && (c'.bufs[r.b].size == size <==> size % 512 == 0)
            && (Inv(h, c') <==> size % 512 == 0 || Absent(h, c, dev, block, SizeOf(i)))
  {
    hide BufOk, Absent, FreeOk, LruOk, ChainOk, Getblk, Insert, SizeIndex;
    var (c', r) := Getblk(h, c, dev, block, size);
    var i := SizeIndex(size);
    IndexRounds(size);
    if size % 512 == 0 {
      GetblkRefines(h, c, dev, block, size);
      assert Cached(h, c', dev, block, size, r.b);
    } else {
      OddSizeAbsent(h, c, dev, block, size);
      GetblkMiss(h, c, dev, block, size);
      InsertHead(h, c, i, dev);
      InsertSize(h, c, i, dev, block);
      if Absent(h, c, dev, block, SizeOf(i)) {
        InsertKeeps(h, c, i, dev, block);
      } else {
        InsertBreaks(h, c, i, dev, block);
      }
    }
  }

  /** Asked twice for 700 bytes of a block, getblk puts two 512-byte buffers in the cache for it. */
  lemma OddSizeDuplicates(h: HashFn, c: Cache, dev: int, block: int)
    requires Inv(h, c) && dev != B_FREE && |c.free[0]| >= 2 && Absent(h, c, dev, block, 512)
    ensures var (c1, r1) := Getblk(h, c, dev, block, 700);
            && Inv(h, c1) && r1.Found?
            && var (c2, r2) := Getblk(h, c1, dev, block, 700);
               && r2.Found? && r1.b != r2.b && !Inv(h, c2)
               && Cached(h, c2, dev, block, 512, r1.b) && Cached(h, c2, dev, block, 512, r2.b)
  {
    hide BufOk, Absent, FreeOk, LruOk, ChainOk, Getblk;
    OddSizeAbsent(h, c, dev, block, 700);
    GetblkMiss(h, c, dev, block, 700);
    GetblkIff(h, c, dev, block, 700);
    var (c1, r1) := Getblk(h, c, dev, block, 700);
    InsertHead(h, c, 0, dev);
    InsertMaps(h, c, 0, dev, block, dev, block, 512, r1.b);
    assert !Absent(h, c1, dev, block, 512) by { PresentNotAbsent(h, c1, dev, block, 512, r1.b); }
    assert c1.free[0] == c.free[0][1..];
    OddSizeAbsent(h, c1, dev, block, 700);
    GetblkMiss(h, c1, dev, block, 700);
    GetblkIff(h, c1, dev, block, 700);
    InsertHead(h, c1, 0, dev);
    InsertMaps(h, c1, 0, dev, block, dev, block, 512, r1.b);
    InsertMaps(h, c1, 0, dev, block, dev, block, 512, c1.free[0][0]);
  }

  lemma PresentNotAbsent(h: HashFn, c: Cache, dev: int, block: int, size: nat, b: nat)
    requires Cached(h, c, dev, block, size, b)
    ensures !Absent(h, c, dev, block, size)
  {}

  lemma InsertSize(h: HashFn, c: Cache, i: nat, dev: int, block: int)
    requires CanInsert(h, c, i, dev) && c.free[i][0] in c.bufs
    ensures var b, c' := c.free[i][0], Insert(h, c, i, dev, block);
            b in c'.bufs && c'.bufs[b].size == c.bufs[b].size
  {}

  lemma OddSizeAbsent(h: HashFn, c: Cache, dev: int, block: int, size: nat)
    requires Inv(h, c) && !ValidSize(size)
    ensures Absent(h, c, dev, block, size)
  {
    assert forall b | b in c.bufs :: BufOk(c, b);
  }

  /** A second buffer with the same key. */
  lemma InsertBreaks(h: HashFn, c: Cache, i: nat, dev: int, block: int)
    requires CanInsert(h, c, i, dev) && c.free[i][0] in c.bufs && !Absent(h, c, dev, block, SizeOf(i))
    ensures !Inv(h, Insert(h, c, i, dev, block))
  {
    hide LruOk, FreeOk, BufOk, ChainOk, Insert;
    var c', b := Insert(h, c, i, dev, block), c.free[i][0];
    var x :| Cached(h, c, dev, block, SizeOf(i), x);
    InsertHead(h, c, i, dev);
    InsertMaps(h, c, i, dev, block, dev, block, SizeOf(i), x);
    InsertMaps(h, c, i, dev, block, dev, block, SizeOf(i), b);
    if Inv(h, c') {
      CachedUnique(h, c', dev, block, SizeOf(i), x, b);
    }
  }

  // ---- taking a buffer off its lists ----

  /** Everything is right but for buffer `b`, which is on no list. */
  ghost predicate InvBut(h: HashFn, c: Cache, b: nat) {
    && ShapeOk(h, c) && b in c.bufs
    && (forall l: nat | l < 4 :: LruOk(c, l) && b !in c.lru[l])
    && (forall i: nat | i < 7 :: FreeOk(c, i) && b !in c.free[i])
    && (forall i: nat | i < |c.chains| :: ChainOk(h, c, i) && b !in c.chains[i])
    && (forall x | x in c.bufs && x != b :: BufOk(c, x))
  }

  /** __remove_from_queues */
  function Unlist(h: HashFn, c: Cache, b: nat): Cache
    requires b in c.bufs && h(c.bufs[b].dev, c.bufs[b].block) < |c.chains|
    requires c.bufs[b].list < |c.lru| == |c.nr| == |c.bytes|
  {
    LruRemove(HashUnlink(h, c, b), b, c.bufs[b].list)
  }

  lemma UnlistLru(h: HashFn, c: Cache, b: nat, l: nat)
    requires Inv(h, c) && b in c.bufs && l < 4 && c.bufs[b].list < 4
    ensures var c' := Unlist(h, c, b);
            LruOk(c', l) && forall x :: x in c'.lru[l] <==> x in c.lru[l] && x != b
  {
    hide ChainOk, FreeOk, BufOk;
    assert LruOk(c, l);
    EraseFacts(c.lru[l], b);
    if b in c.lru[l] {
      SumErase(c.bufs, c.lru[l], b);
    }
  }

  lemma UnlistChain(h: HashFn, c: Cache, b: nat, i: nat)
    requires Inv(h, c) && b in c.bufs && i < |c.chains| && c.bufs[b].list < 4
    ensures var c' := Unlist(h, c, b);
            Distinct(c'.chains[i]) && forall x :: x in c'.chains[i] <==> x in c.chains[i] && x != b
  {
    hide LruOk, FreeOk, BufOk, LruRemove;
    assert ChainOk(h, c, i);
    EraseFacts(c.chains[i], b);
    assert Unlist(h, c, b).chains == HashUnlink(h, c, b).chains by {
      LruRemoveFrame(HashUnlink(h, c, b), b, c.bufs[b].list);
    }
  }

  lemma LruRemoveFrame(c: Cache, b: nat, l: nat)
    requires b in c.bufs && l < |c.lru| == |c.nr| == |c.bytes|
    ensures var c' := LruRemove(c, b, l);
            c'.chains == c.chains && c'.bufs == c.bufs && c'.free == c.free
                && |c'.lru| == |c'.nr| == |c'.bytes| == |c.lru|
  {}

  lemma UnlistBut(h: HashFn, c: Cache, b: nat)
    requires Inv(h, c) && b in c.bufs && c.bufs[b].dev != B_FREE
    ensures c.bufs[b].list < 4 && InvBut(h, Unlist(h, c, b), b)
    ensures Unlist(h, c, b).bufs == c.bufs && Unlist(h, c, b).free == c.free
  {
    hide LruOk, Distinct, LruRemove, Unlist;
    assert BufOk(c, b);
    var c' := Unlist(h, c, b);
    assert c'.bufs == c.bufs && c'.free == c.free && |c'.chains| == |c.chains|
        && |c'.lru| == |c'.nr| == |c'.bytes| == 4 by {
      UnlistFrame(h, c, b);
    }
    forall l: nat | l < 4
      ensures LruOk(c', l) && forall x :: x in c'.lru[l] <==> x in c.lru[l] && x != b
    {
      UnlistLru(h, c, b, l);
    }
    forall i: nat | i < |c.chains|
      ensures ChainOk(h, c', i) && b !in c'.chains[i]
    {
      UnlistChain(h, c, b, i);
      assert ChainOk(h, c, i);
    }
    forall i: nat | i < 7
      ensures FreeOk(c', i) && b !in c'.free[i]
    {
      assert FreeOk(c, i);
    }
    forall x | x in c'.bufs && x != b
      ensures BufOk(c', x)
    {
      assert BufOk(c, x);
    }
  }

  lemma UnlistFrame(h: HashFn, c: Cache, b: nat)
    requires b in c.bufs && h(c.bufs[b].dev, c.bufs[b].block) < |c.chains|
    requires c.bufs[b].list < |c.lru| == |c.nr| == |c.bytes|
    ensures var c' := Unlist(h, c, b);
            c'.bufs == c.bufs && c'.free == c.free && |c'.chains| == |c.chains|
                && |c'.lru| == |c'.nr| == |c'.bytes| == |c.lru|
  {}

  /** put_last_free */
  function PutFree(c: Cache, b: nat): Cache
    requires b in c.bufs && 0 <= SizeIndex(c.bufs[b].size) < |c.free|
  {
    var i := SizeIndex(c.bufs[b].size);
    SetBuf(c.(free := c.free[i := c.free[i] + [b]]), b,
        c.bufs[b].(dev := B_FREE, dirty := false, locked := false, prot := false))
  }

  lemma PutFreeKeeps(h: HashFn, c: Cache, b: nat)
    requires InvBut(h, c, b) && ValidSize(c.bufs[b].size) && c.bufs[b].count == 0 && c.bufs[b].marking == 0
              && c.bufs[b].list < 4
    ensures Inv(h, PutFree(c, b))
  {
    var c' := PutFree(c, b);
    forall l: nat | l < 4 ensures LruOk(c', l) { assert LruOk(c, l); SumSame(c.bufs, c'.bufs, c.lru[l]); }
    forall i: nat | i < 7 ensures FreeOk(c', i) { assert FreeOk(c, i); }
    forall i: nat | i < |c.chains| ensures ChainOk(h, c', i) { assert ChainOk(h, c, i); }
    forall x | x in c'.bufs ensures BufOk(c', x) { if x != b { assert BufOk(c, x); } }
  }

  /** __bforget, by a task that holds a reference */
  function Bforget(h: HashFn, c: Cache, b: nat): Cache
    requires b in c.bufs && h(c.bufs[b].dev, c.bufs[b].block) < |c.chains| && ValidSize(c.bufs[b].size) && |c.free| == 7
    requires c.bufs[b].list < |c.lru| == |c.nr| == |c.bytes|
  {
    var c1 := SetBuf(c, b, c.bufs[b].(count := c.bufs[b].count - 1));
    if c1.bufs[b].count != 0 || c1.bufs[b].locked then c1
    else UnlistFrame(h, c1, b); PutFree(Unlist(h, c1, b), b)
  }

  lemma BforgetKeeps(h: HashFn, c: Cache, b: nat)
    requires Inv(h, c) && b in c.bufs && c.bufs[b].dev != B_FREE && c.bufs[b].count > c.bufs[b].marking
    ensures c.bufs[b].list < 4 && ValidSize(c.bufs[b].size) && Inv(h, Bforget(h, c, b))
  {
    hide LruOk, ChainOk, FreeOk, Unlist, PutFree, ValidSize;
    assert BufOk(c, b);
    var u := c.bufs[b].(count := c.bufs[b].count - 1);
    SetBufKeeps(h, c, b, u);
    var c1 := SetBuf(c, b, u);
    if u.count == 0 && !u.locked {
      UnlistBut(h, c1, b);
      PutFreeKeeps(h, Unlist(h, c1, b), b);
    }
  }

  // ---- freeing a page ----

  predicate Busy(u: Buf) {
    u.count != 0 || u.dirty || u.locked || u.prot
  }

  /** One buffer of a page that goes: off its lists and back to the pool of heads. */
  function Drop(h: HashFn, c: Cache, b: nat): Cache
    requires b in c.bufs && h(c.bufs[b].dev, c.bufs[b].block) < |c.chains| && ValidSize(c.bufs[b].size) && |c.free| == 7
    requires c.bufs[b].list < |c.lru| == |c.nr| == |c.bytes|
  {
    var i := SizeIndex(c.bufs[b].size);
    var c1 := if c.bufs[b].dev != B_FREE then Unlist(h, c, b) else c.(free := c.free[i := Erase(c.free[i], b)]);
    c1.(bufs := c1.bufs - {b})
  }

  lemma UnfreeBut(h: HashFn, c: Cache, b: nat)
    requires Inv(h, c) && b in c.bufs && c.bufs[b].dev == B_FREE && ValidSize(c.bufs[b].size)
    ensures var i := SizeIndex(c.bufs[b].size); InvBut(h, c.(free := c.free[i := Erase(c.free[i], b)]), b)
  {
    var i := SizeIndex(c.bufs[b].size);
    var c' := c.(free := c.free[i := Erase(c.free[i], b)]);
    assert FreeOk(c, i);
    EraseFacts(c.free[i], b);
    forall l: nat | l < 4 ensures LruOk(c', l) && b !in c'.lru[l] { assert LruOk(c, l); }
    forall j: nat | j < 7 ensures FreeOk(c', j) && b !in c'.free[j] { assert FreeOk(c, j); }
    forall j: nat | j < |c.chains| ensures ChainOk(h, c', j) && b !in c'.chains[j] { assert ChainOk(h, c, j); }
    forall x | x in c'.bufs && x != b ensures BufOk(c', x) { assert BufOk(c, x); }
  }

  lemma LoseKeeps(h: HashFn, c: Cache, b: nat)
    requires InvBut(h, c, b)
    ensures Inv(h, c.(bufs := c.bufs - {b}))
  {
    var c' := c.(bufs := c.bufs - {b});
    forall l: nat | l < 4 ensures LruOk(c', l) { assert LruOk(c, l); SumSame(c.bufs, c'.bufs, c.lru[l]); }
    forall j: nat | j < 7 ensures FreeOk(c', j) { assert FreeOk(c, j); }
    forall j: nat | j < |c.chains| ensures ChainOk(h, c', j) { assert ChainOk(h, c, j); }
    forall x | x in c'.bufs ensures BufOk(c', x) { assert BufOk(c, x); }
  }

  lemma DropKeeps(h: HashFn, c: Cache, b: nat)
    requires Inv(h, c) && b in c.bufs
    ensures c.bufs[b].list < 4 && ValidSize(c.bufs[b].size) && Inv(h, Drop(h, c, b))
              && Drop(h, c, b).bufs == c.bufs - {b}
  {
    hide LruOk, ChainOk, FreeOk, Unlist;
    assert BufOk(c, b);
    if c.bufs[b].dev != B_FREE {
      UnlistBut(h, c, b);
      LoseKeeps(h, Unlist(h, c, b), b);
    } else {
      UnfreeBut(h, c, b);
      var i := SizeIndex(c.bufs[b].size);
      LoseKeeps(h, c.(free := c.free[i := Erase(c.free[i], b)]), b);
    }
  }

  lemma {:induction false} DropMaps(h: HashFn, c: Cache, b: nat, d: int, k: int, size: nat, x: nat)
    requires Inv(h, c) && b in c.bufs && c.bufs[b].list < 4 && ValidSize(c.bufs[b].size)
    ensures Cached(h, Drop(h, c, b), d, k, size, x) <==> Cached(h, c, d, k, size, x) && x != b
  {
    hide LruOk, FreeOk, BufOk, Unlist, ValidSize;
    UnlistFrame(h, c, b);
    if h(d, k) < |c.chains| {
      UnlistChain(h, c, b, h(d, k));
      assert ChainOk(h, c, h(d, k));
    }
  }

  /** The buffers of a page, all gone. */
  ghost function DropAll(h: HashFn, c: Cache, page: seq<nat>): (c': Cache)
    requires Inv(h, c) && Distinct(page) && forall x | x in page :: x in c.bufs
    ensures Inv(h, c') && forall x :: x in c'.bufs <==> x in c.bufs && x !in page
    ensures forall x | x in c'.bufs :: c'.bufs[x] == c.bufs[x]
    decreases page
  {
    if page == [] then c
    else
      DropKeeps(h, c, page[0]);
      assert page == [page[0]] + page[1..];
      DropAll(h, Drop(h, c, page[0]), page[1..])
  }

  lemma DropAllStep(h: HashFn, c: Cache, page: seq<nat>)
    requires Inv(h, c) && Distinct(page) && (forall x | x in page :: x in c.bufs) && page != []
    ensures c.bufs[page[0]].list < 4 && ValidSize(c.bufs[page[0]].size)
    ensures Inv(h, Drop(h, c, page[0])) && Distinct(page[1..]) && forall x | x in page[1..] ::
              x in Drop(h, c, page[0]).bufs
    ensures DropAll(h, Drop(h, c, page[0]), page[1..]) == DropAll(h, c, page)
  {
    hide LruOk, ChainOk, FreeOk, BufOk, Drop;
    DropKeeps(h, c, page[0]);
    assert page == [page[0]] + page[1..];
  }

  lemma DropNone(h: HashFn, c: Cache)
    requires Inv(h, c)
    ensures DropAll(h, c, []) == c
  {}

  /** try_to_free_buffers, one attempt. */
  ghost function TryToFree(h: HashFn, c: Cache, page: seq<nat>): (Cache, bool)
    requires Inv(h, c) && Distinct(page) && forall x | x in page :: x in c.bufs
  {
    if exists x | x in page :: Busy(c.bufs[x]) then (c, false) else (DropAll(h, c, page), true)
  }

  lemma {:induction false} DropAllMaps(h: HashFn, c: Cache, page: seq<nat>, d: int, k: int, size: nat, x: nat)
    requires Inv(h, c) && Distinct(page) && forall x | x in page :: x in c.bufs
    ensures Cached(h, DropAll(h, c, page), d, k, size, x) <==> Cached(h, c, d, k, size, x) && x !in page
    decreases page
  {
    hide LruOk, ChainOk, FreeOk, BufOk, Drop, Cached;
    if page != [] {
      DropKeeps(h, c, page[0]);
      DropMaps(h, c, page[0], d, k, size, x);
      assert page == [page[0]] + page[1..];
      DropAllMaps(h, Drop(h, c, page[0]), page[1..], d, k, size, x);
    }
  }

  /** Freeing a page is all or nothing: it happens when none of its buffers is busy, and then
      exactly the keys those buffers cached are forgotten. */
  lemma TryToFreeRefines(h: HashFn, c: Cache, page: seq<nat>)
    requires Inv(h, c) && Distinct(page) && forall x | x in page :: x in c.bufs
    ensures var (c', ok) := TryToFree(h, c, page);
            && Inv(h, c') && (ok <==> forall x | x in page :: !Busy(c.bufs[x])) && (!ok ==> c' == c)
            && (ok ==> forall d, k, size: nat, x: nat ::
                         Cached(h, c', d, k, size, x) <==> Cached(h, c, d, k, size, x) && x !in page)
  {
    hide Inv, Cached;
    if forall x | x in page :: !Busy(c.bufs[x]) {
      forall d, k, size: nat, x: nat
        ensures Cached(h, DropAll(h, c, page), d, k, size, x) <==> Cached(h, c, d, k, size, x) && x !in page
      {
        DropAllMaps(h, c, page, d, k, size, x);
      }
    }
  }

  // ---- new buffers ----

  function NewBufs(bufs: map<nat, Buf>, ids: seq<nat>, size: nat): map<nat, Buf> {
    bufs + map x | x in ids :: Buf(B_FREE, 0, size, 0, false, false, false, CLEAN, 0)
  }

  /** grow_buffers: the new heads go behind the head of the list, and the first of them leads. */
  function Grow(c: Cache, size: nat, ids: seq<nat>): Cache
    requires SizeIndex(size) >= 0 && |c.free| == 7
  {
    if size % 512 != 0 || size > PAGE_SIZE || ids == [] then c
    else
      var i := SizeIndex(size);
      var was := c.free[i];
      c.(bufs := NewBufs(c.bufs, ids, size), free := c.free[i := ids + if was == [] then [] else was[1..] + [was[0]]])
  }

  lemma GrowKeeps(h: HashFn, c: Cache, size: nat, ids: seq<nat>)
    requires Inv(h, c) && SizeIndex(size) >= 0 && Distinct(ids) && forall x | x in ids :: x !in c.bufs
    ensures Inv(h, Grow(c, size, ids))
  {
    var c' := Grow(c, size, ids);
    if c' != c {
      IndexRounds(size);
      forall l: nat | l < 4 ensures LruOk(c', l) { assert LruOk(c, l); SumSame(c.bufs, c'.bufs, c.lru[l]); }
      forall i: nat | i < 7 ensures FreeOk(c', i) { GrowFree(c, size, ids, i); }
      forall i: nat | i < |c.chains| ensures ChainOk(h, c', i) { assert ChainOk(h, c, i); }
      forall x | x in c'.bufs ensures BufOk(c', x) { GrowBuf(c, size, ids, x); }
    }
  }

  lemma GrowFree(c: Cache, size: nat, ids: seq<nat>, i: nat)
    requires |c.free| == 7 && i < 7 && FreeOk(c, i) && ValidSize(size) && Distinct(ids) && forall x | x in ids ::
              x !in c.bufs
    ensures FreeOk(Grow(c, size, ids), i)
  {
    var c', was := Grow(c, size, ids), c.free[i];
    forall j, k | 0 <= j < k < |c'.free[i]|
      ensures c'.free[i][j] != c'.free[i][k]
    {
      assert c'.free[i][j] in ids || c'.free[i][j] in was;
      assert c'.free[i][k] in ids || c'.free[i][k] in was;
    }
  }

  lemma GrowBuf(c: Cache, size: nat, ids: seq<nat>, x: nat)
    requires |c.free| == 7 && |c.lru| == 4 && ValidSize(size) && size <= PAGE_SIZE && size % 512 == 0
    requires x in Grow(c, size, ids).bufs && (x in c.bufs ==> BufOk(c, x)) && forall x | x in ids :: x !in c.bufs
    ensures BufOk(Grow(c, size, ids), x)
  {
    var i := SizeIndex(size);
    var was := c.free[i];
    if was != [] {
      assert was == [was[0]] + was[1..];
    }
  }

  /** A head that the page cache makes for itself: in use, on no list. */
  function PageBuffer(c: Cache, b: nat, dev: int, block: int, size: nat): Cache {
    SetBuf(c, b, Buf(dev, block, size, 0, false, false, false, CLEAN, 0))
  }

  lemma PageBufferKeeps(h: HashFn, c: Cache, b: nat, dev: int, block: int, size: nat)
    requires Inv(h, c) && b !in c.bufs && dev != B_FREE && ValidSize(size)
    ensures Inv(h, PageBuffer(c, b, dev, block, size))
  {
    var c' := PageBuffer(c, b, dev, block, size);
    forall l: nat | l < 4 ensures LruOk(c', l) { assert LruOk(c, l); SumSame(c.bufs, c'.bufs, c.lru[l]); }
    forall i: nat | i < 7 ensures FreeOk(c', i) { assert FreeOk(c, i); }
    forall i: nat | i < |c.chains| ensures ChainOk(h, c', i) { assert ChainOk(h, c, i); }
    forall x | x in c'.bufs ensures BufOk(c', x) { if x != b { assert BufOk(c, x); } }
  }

  // ---- flushing ----

  /** One pass of flush_dirty_buffers over the DIRTY list: clean buffers are refiled, locked ones
      passed over, and the first other one is chosen for writing. */
  ghost function Pass(h: HashFn, c: Cache, todo: seq<nat>): (Cache, Option)
    requires Inv(h, c) && forall x | x in todo :: x in c.bufs && c.bufs[x].dev != B_FREE
    decreases todo
  {
    if todo == [] then (c, None)
    else
      assert BufOk(c, todo[0]);
      if !c.bufs[todo[0]].dirty then
        RefileKeeps(h, c, todo[0]);
        Pass(h, Refile(c, todo[0]), todo[1..])
      else if c.bufs[todo[0]].locked then Pass(h, c, todo[1..])
      else (c, Some(todo[0]))
  }

  /** Where the pass stands: the DIRTY list holds what is still to come, and locked buffers. */
  ghost predicate Passing(c: Cache, todo: seq<nat>) {
    && |c.lru| == 4 && Distinct(todo)
    && (forall x | x in todo :: x in c.lru[DIRTY])
    && (forall x | x in c.lru[DIRTY] && x !in todo :: x in c.bufs && c.bufs[x].dirty && c.bufs[x].locked)
  }

  lemma PassStep(h: HashFn, c: Cache, todo: seq<nat>)
    requires Inv(h, c) && Passing(c, todo) && todo != [] && todo[0] in c.bufs && !c.bufs[todo[0]].dirty
              && c.bufs[todo[0]].list == DIRTY && c.bufs[todo[0]].dev != B_FREE
    ensures Passing(Refile(c, todo[0]), todo[1..])
  {
    hide LruOk, FreeOk, ChainOk, BufOk, Refile;
    var b := todo[0];
    assert BufOk(c, b);
    RefileLru(h, c, b, DIRTY);
    RefileKeeps(h, c, b);
    assert todo == [b] + todo[1..];
    assert b !in todo[1..];
  }

  lemma {:induction false} PassFacts(h: HashFn, c: Cache, todo: seq<nat>)
    requires Inv(h, c) && Passing(c, todo) && forall x | x in todo :: x in c.bufs && c.bufs[x].dev != B_FREE
    ensures var (c', r) := Pass(h, c, todo);
            && Inv(h, c') && c'.bufs.Keys == c.bufs.Keys
            && (forall x | x in c'.bufs :: c'.bufs[x] == c.bufs[x].(list := c'.bufs[x].list))
            && (r.Some? ==> r.b in c.bufs && c.bufs[r.b].dirty && !c.bufs[r.b].locked && r.b in todo)
            && (r.None? ==> forall x | x in c'.lru[DIRTY] :: x in c'.bufs && c'.bufs[x].dirty && c'.bufs[x].locked)
    decreases todo
  {
    hide LruOk, FreeOk, ChainOk, BufOk, Refile;
    if todo != [] {
      var b := todo[0];
      assert todo == [b] + todo[1..];
      assert BufOk(c, b) && LruOk(c, DIRTY);
      assert b in c.lru[DIRTY] && c.bufs[b].list == DIRTY by { LruList(c, b, DIRTY); }
      if !c.bufs[b].dirty {
        RefileKeeps(h, c, b);
        PassStep(h, c, todo);
        PassFacts(h, Refile(c, b), todo[1..]);
      } else if c.bufs[b].locked {
        PassFacts(h, c, todo[1..]);
      }
    }
  }

  lemma LruList(c: Cache, b: nat, l: nat)
    requires l < |c.lru| == |c.nr| == |c.bytes| && LruOk(c, l) && b in c.lru[l]
    ensures b in c.bufs && c.bufs[b].list == l && c.bufs[b].dev != B_FREE
  {}

  /** Scanning the DIRTY list alone misses none: when a pass finds nothing to write, every dirty
      buffer anywhere in the cache is locked, protected, or still being marked. */
  lemma FlushMissesNone(h: HashFn, c: Cache)
    requires Inv(h, c) && forall x | x in c.lru[DIRTY] :: x in c.bufs && c.bufs[x].dev != B_FREE
    ensures var (c', r) := Pass(h, c, c.lru[DIRTY]);
            && Inv(h, c')
            && (r.Some? ==> r.b in c.bufs && c.bufs[r.b].dirty && !c.bufs[r.b].locked)
            && (r.None? ==> forall x | x in c.bufs && c.bufs[x].dirty ::
                              c.bufs[x].locked || c.bufs[x].prot || c.bufs[x].marking > 0)
  {
    hide FreeOk, ChainOk, Pass, Sum;
    assert LruOk(c, DIRTY);
    PassFacts(h, c, c.lru[DIRTY]);
    var (c', r) := Pass(h, c, c.lru[DIRTY]);
    if r.None? {
      forall x | x in c.bufs && c.bufs[x].dirty
        ensures c.bufs[x].locked || c.bufs[x].prot || c.bufs[x].marking > 0
      {
        assert x in c'.bufs && BufOk(c', x);
      }
    }
  }
}