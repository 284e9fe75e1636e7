/** The buffer cache as the kernel keeps it: one object whose lists change in place. */
module BufTable {
  import opened Lists
  import opened BufCache
  import opened BufOps

  class Table {
    const h: HashFn
    var bufs: map<nat, Buf>
    var chains: seq<seq<nat>>
    var lru: seq<seq<nat>>
    var nr: seq<int>
    var bytes: seq<int>
    var free: seq<seq<nat>>

    function State(): Cache
      reads this
    {
      Cache(bufs, chains, lru, nr, bytes, free)
    }

    constructor (h: HashFn, c: Cache)
      ensures this.h == h && State() == c
    {
      this.h, bufs, chains, lru, nr, bytes, free := h, c.bufs, c.chains, c.lru, c.nr, c.bytes, c.free;
    }

    /** __get_hash_table, without the reference it takes */
    method Find(dev: int, block: int, size: nat) returns (r: Option)
      requires h(dev, block) < |chains|
      ensures r == FindIn(bufs, chains[h(dev, block)], dev, block, size)
    {
      var chain := chains[h(dev, block)];
      var i := 0;
      assert chain[0..] == chain;
      while i < |chain|
        invariant i <= |chain|
        invariant FindIn(bufs, chain[i..], dev, block, size) == FindIn(bufs, chain, dev, block, size)
      {
        var b := chain[i];
        assert chain[i..][1..] == chain[i + 1..];
        if b in bufs && bufs[b].block == block && bufs[b].size == size && bufs[b].dev == dev {
          return Some(b);
        }
        i := i + 1;
      }
      return None;
    }

    /** __insert_into_lru_list */
    method LruAdd(b: nat, l: nat)
      requires b in bufs && l < |lru| == |nr| == |bytes|
      modifies this`lru, this`nr, this`bytes
      ensures State() == LruInsert(old(State()), b, l)
    {
      lru := lru[l := lru[l] + [b]];
      nr := nr[l := nr[l] + 1];
      bytes := bytes[l := bytes[l] + bufs[b].size];
    }

    /** __remove_from_lru_list */
    method LruDel(b: nat, l: nat)
      requires b in bufs && l < |lru| == |nr| == |bytes|
      modifies this`lru, this`nr, this`bytes
      ensures State() == LruRemove(old(State()), b, l)
    {
      if b in lru[l] {
        lru := lru[l := Erase(lru[l], b)];
        nr := nr[l := nr[l] - 1];
        bytes := bytes[l := bytes[l] - bufs[b].size];
      }
    }

    /** getblk under its locks */
    method GetBlock(dev: int, block: int, size: nat) returns (r: Got)
      requires Inv(h, State()) && SizeIndex(size) >= 0
      modifies this
      ensures (State(), r) == Getblk(h, old(State()), dev, block, size)
    {
      hide LruOk, ChainOk, BufOk;
      var found := Find(dev, block, size);
      FindInFacts(bufs, chains[h(dev, block)], dev, block, size);
      if found.Some? {
        bufs := bufs[found.b := bufs[found.b].(count := bufs[found.b].count + 1)];
        return Found(found.b);
      }
      var i := SizeIndex(size);
      if free[i] == [] {
        return Refill;
      }
      var b := free[i][0];
      assert FreeOk(State(), i) && b in free[i];
      free := free[i := free[i][1..]];
      bufs := bufs[b := bufs[b].(count := 1, list := CLEAN, dev := dev, block := block, dirty := false,
          locked := false, prot := false, marking := 0)];
      var slot := h(dev, block);
      chains := chains[slot := [b] + chains[slot]];
      LruAdd(b, CLEAN);
      return Found(b);
    }

    /** __refile_buffer */
    method RefileBuffer(b: nat)
      requires b in bufs && bufs[b].list < 4 && |lru| == |nr| == |bytes| == 4
      modifies this
      ensures State() == Refile(old(State()), b)
    {
      var dispose := CLEAN;
      if bufs[b].locked { dispose := LOCKED; }
      if bufs[b].dirty { dispose := DIRTY; }
      if bufs[b].prot { dispose := PROTECTED; }
      if dispose != bufs[b].list {
        LruDel(b, bufs[b].list);
        bufs := bufs[b := bufs[b].(list := dispose)];
        LruAdd(b, dispose);
      }
    }

    /** mark_buffer_dirty by one task, uninterrupted */
    method MarkDirty(b: nat)
      requires b in bufs && bufs[b].list < 4 && |lru| == |nr| == |bytes| == 4
      modifies this
      ensures State() == if old(bufs[b].dirty) then old(State()) else MarkEnd(MarkBegin(old(State()), b), b)
    {
      if !bufs[b].dirty {
        bufs := bufs[b := bufs[b].(dirty := true, marking := bufs[b].marking + 1)];
        RefileBuffer(b);
        bufs := bufs[b := bufs[b].(marking := bufs[b].marking - 1)];
      }
    }

    /** __remove_from_queues */
    method RemoveFromQueues(b: nat)
      requires b in bufs && h(bufs[b].dev, bufs[b].block) < |chains| && bufs[b].list < |lru| == |nr| == |bytes|
      modifies this`chains, this`lru, this`nr, this`bytes
      ensures State() == Unlist(h, old(State()), b)
    {
      var slot := h(bufs[b].dev, bufs[b].block);
      chains := chains[slot := Erase(chains[slot], b)];
      LruDel(b, bufs[b].list);
    }

    /** __bforget */
    method ForgetBuffer(b: nat)
      requires b in bufs && h(bufs[b].dev, bufs[b].block) < |chains| && ValidSize(bufs[b].size) && |free| == 7
      requires bufs[b].list < |lru| == |nr| == |bytes|
      modifies this
      ensures State() == Bforget(h, old(State()), b)
    {
      bufs := bufs[b := bufs[b].(count := bufs[b].count - 1)];
      if bufs[b].count != 0 || bufs[b].locked {
        return;
      }
      UnlistFrame(h, State(), b);
      RemoveFromQueues(b);
      var i := SizeIndex(bufs[b].size);
      free := free[i := free[i] + [b]];
      bufs := bufs[b := bufs[b].(dev := B_FREE, dirty := false, locked := false, prot := false)];
    }

    /** The first loop of try_to_free_buffers: is some buffer of the page busy? */
    method AnyBusy(page: seq<nat>) returns (busy: bool)
      requires forall x | x in page :: x in bufs
      ensures busy <==> exists x | x in page :: Busy(bufs[x])
    {
      for i := 0 to |page|
        invariant forall j | 0 <= j < i :: !Busy(bufs[page[j]])
      {
        assert page[i] in page;
        if bufs[page[i]].count != 0 || bufs[page[i]].dirty || bufs[page[i]].locked || bufs[page[i]].prot {
          return true;
        }
      }
      return false;
    }

    /** One turn of its second loop. */
    method DropBuffer(b: nat)
      requires Inv(h, State()) && b in bufs && bufs[b].list < 4 && ValidSize(bufs[b].size)
      modifies this
      ensures State() == Drop(h, old(State()), b)
    {
      hide LruOk, ChainOk, FreeOk, BufOk;
      if bufs[b].dev != B_FREE {
        RemoveFromQueues(b);
      } else {
        var i := SizeIndex(bufs[b].size);
        free := free[i := Erase(free[i], b)];
      }
      bufs := bufs - {b};
    }

    /** Its second loop. */
    method DropPage(page: seq<nat>)
      requires Inv(h, State()) && Distinct(page) && forall x | x in page :: x in bufs
      modifies this
      ensures State() == DropAll(h, old(State()), page)
    {
      hide Inv, Drop, DropAll, Distinct;
      var todo := page;
      ghost var c := State();
      while todo != []
        invariant Inv(h, State()) && Distinct(todo) && forall x | x in todo :: x in bufs
        invariant DropAll(h, State(), todo) == DropAll(h, c, page)
        decreases |todo|
      {
        DropAllStep(h, State(), todo);
        DropBuffer(todo[0]);
        todo := todo[1..];
      }
      DropNone(h, State());
    }

    /** try_to_free_buffers, one attempt */
    method TryToFreeBuffers(page: seq<nat>) returns (ok: bool)
      requires Inv(h, State()) && Distinct(page) && forall x | x in page :: x in bufs
      modifies this
      ensures (State(), ok) == TryToFree(h, old(State()), page)
    {
      hide Inv, DropAll;
      var busy := AnyBusy(page);
      if busy {
        return false;
      }
      DropPage(page);
      return true;
    }

    /** The scan of flush_dirty_buffers, up to the buffer it would write. */
    method ScanDirty() returns (r: Option)
      requires Inv(h, State()) && forall x | x in lru[DIRTY] :: x in bufs && bufs[x].dev != B_FREE
      modifies this
      ensures (State(), r) == Pass(h, old(State()), old(lru[DIRTY]))
    {
      hide LruOk, ChainOk, FreeOk, Refile;
      var todo := lru[DIRTY];
      ghost var c, all := State(), todo;
      while todo != []
        invariant Inv(h, State()) && forall x | x in todo :: x in bufs && bufs[x].dev != B_FREE
        invariant Pass(h, State(), todo) == Pass(h, c, all)
        decreases |todo|
      {
        var b := todo[0];
        assert BufOk(State(), b);
        if !bufs[b].dirty {
          RefileKeeps(h, State(), b);
          RefileBuffer(b);
        } else if !bufs[b].locked {
          return Some(b);
        }
        todo := todo[1..];
      }
      return None;
    }
  }
}
