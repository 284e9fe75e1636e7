/** dput, prune_dcache and d_lookup as they run: loops that update the cache in place. */
module DcacheTable {
  import opened Lists
  import opened DentryTree
  import opened Dcache
  import opened DcacheOps

  class Table {
    var all: map<nat, Dentry>
    var chain: seq<nat>
    var unused: seq<nat>
    var nrUnused: int

    ghost function Abs(): Cache
      reads this
    {
      Cache(all, chain, unused, nrUnused)
    }

    constructor ()
      ensures Abs() == Empty.c && Inv(Abs(), map[])
    {
      all, chain, unused, nrUnused := map[], [], [], 0;
      EmptyOk();
    }

    /** Take a dentry out of a list. */
    static method Unlink(s: seq<nat>, x: nat) returns (r: seq<nat>)
      ensures r == Erase(s, x)
    {
      var i := 0;
      assert s[..0] + Erase(s[0..], x) == Erase(s, x) by {
        assert s[0..] == s;
      }
      while i < |s| && s[i] != x
        invariant i <= |s| && s[..i] + Erase(s[i..], x) == Erase(s, x)
      {
        assert s[i..][1..] == s[i + 1..];
        assert s[..i] + ([s[i]] + Erase(s[i + 1..], x)) == s[..i + 1] + Erase(s[i + 1..], x);
        i := i + 1;
      }
      r := if i < |s| then s[..i] + s[i + 1..] else s;
      assert i < |s| ==> s[i..][1..] == s[i + 1..];
      assert i == |s| ==> s[i..] == [] && s[..i] + [] == s;
    }

    /** dput. The check that the dentry is not on the unused list never fires. */
    method Put(x: nat, del: set<nat>, ghost refs: map<nat, int>)
      requires Inv(Abs(), refs) && x in all && x in refs && refs[x] > 0
      modifies this
      ensures Abs() == Dput(old(Abs()), x, del)
      ensures Inv(Abs(), Dropped(refs, x, all.Keys))
    {
      hide Inv, Kill;
      DputKeeps(Abs(), refs, x, del);
      ghost var goal := Dput(Abs(), x, del);
      var d := x;
      ghost var held := refs;
      while true
        invariant d in all && d in held && Inv(Abs(), held) && held[d] > 0
        invariant Dput(Abs(), d, del) == goal
        decreases all.Keys
      {
        ghost var c := Abs();
        InvKeys(c, held);
        all := all[d := all[d].(count := all[d].count - 1)];
        if all[d].count != 0 {
          return;
        }
        HeldNotUnused(c, held, d);
        if d !in del && d in chain {
          unused := [d] + unused;
          nrUnused := nrUnused + 1;
          return;
        }
        KillNext(c, held, d);
        ghost var c1 := Counted(c, d, -1);
        held := KillRefs(c1, held[d := held[d] - 1], d);
        var parent := all[d].parent;
        var rest := Unlink(chain, d);
        all, chain := all - {d}, rest;
        KillIs(c1, d);
        if d == parent {
          return;
        }
        d := parent;
      }
    }

    /** prune_dcache. The check that an unused dentry has no count never fires. */
    method PruneCache(count0: int, del: set<nat>, ghost refs: map<nat, int>)
      requires Inv(Abs(), refs)
      modifies this
      ensures Abs() == Prune(old(Abs()), count0, del)
      ensures Inv(Abs(), Restrict(refs, all.Keys))
    {
      hide Inv, PruneOne, Spare;
      PruneKeeps(Abs(), refs, count0, del);
      ghost var goal := Prune(Abs(), count0, del);
      var count := count0;
      ghost var held := refs;
      while unused != []
        invariant Inv(Abs(), held) && Prune(Abs(), count, del) == goal
        decreases all.Keys, Referenced(all)
      {
        ghost var c := Abs();
        TailIn(c, held);
        var x := unused[|unused| - 1];
        if all[x].referenced {
          SpareReferenced(c);
          SpareKeeps(c, held);
          SpareIs(c);
          all := all[x := all[x].(referenced := false)];
          unused := [x] + unused[..|unused| - 1];
          count := count - 1;
        } else {
          PruneOneKeeps(c, held, del);
          TailKill(c, held);
          PruneOneIs(c, del);
          PruneTail(del, held);
          held := Restrict(held, all.Keys);
          count := count - 1;
          if count == 0 {
            return;
          }
        }
      }
    }

    /** prune_one_dentry on the last unused dentry. */
    method PruneTail(del: set<nat>, ghost refs: map<nat, int>)
      requires Inv(Abs(), refs) && unused != [] && unused[|unused| - 1] in all
      modifies this
      ensures Abs() == PruneOne(old(Abs()), del)
    {
      hide Inv;
      InvKeys(Abs(), refs);
      TailKill(Abs(), refs);
      var k := |unused| - 1;
      var x := unused[k];
      ghost var c0 := Abs().(unused := unused[..k], nrUnused := nrUnused - 1);
      unused := unused[..k];
      nrUnused := nrUnused - 1;
      var parent := all[x].parent;
      var rest := Unlink(chain, x);
      all, chain := all - {x}, rest;
      if parent != x {
        Put(parent, del, KillRefs(c0, refs, x));
      }
    }

    /** d_lookup */
    method Lookup(parent: nat, name: nat, ghost refs: map<nat, int>) returns (found: bool, x: nat)
      requires Inv(Abs(), refs)
      modifies this
      ensures chain == old(chain) && (found <==> Find(old(Abs()), parent, name, 0) < |chain|)
      ensures found ==> x == chain[Find(old(Abs()), parent, name, 0)]
      ensures Abs() == Looked(World(old(Abs()), refs), parent, name).c
    {
      hide Inv;
      ghost var c := Abs();
      var k := 0;
      while k < |chain| && !Matches(all, chain[k], parent, name)
        invariant k <= |chain| && Find(c, parent, name, k) == Find(c, parent, name, 0)
      {
        k := k + 1;
      }
      if k == |chain| {
        return false, 0;
      }
      x := chain[k];
      LookupKeeps(c, refs, x);
      all := all[x := all[x].(count := all[x].count + 1)];
      if all[x].count == 1 {
        nrUnused := nrUnused - 1;
        unused := Unlink(unused, x);
      }
      all := all[x := all[x].(referenced := true)];
      found := true;
    }

    /** Put `d` behind `t` in a list and take `t` out. */
    static method PutFor(s: seq<nat>, t: nat, d: nat) returns (r: seq<nat>)
      ensures r == Replace(s, t, d)
    {
      var i := 0;
      assert s[..0] + Replace(s[0..], t, d) == Replace(s, t, d) by {
        assert s[0..] == s;
      }
      while i < |s| && s[i] != t
        invariant i <= |s| && s[..i] + Replace(s[i..], t, d) == Replace(s, t, d)
      {
        assert s[i..][1..] == s[i + 1..];
        assert s[..i] + ([s[i]] + Replace(s[i + 1..], t, d)) == s[..i + 1] + Replace(s[i + 1..], t, d);
        i := i + 1;
      }
      r := if i < |s| then s[..i] + ([d] + s[i + 1..]) else s;
      assert i < |s| ==> s[i..][1..] == s[i + 1..];
      assert i == |s| ==> s[i..] == [] && s[..i] + [] == s;
    }

    /** d_move; `junk` is what is left of the target's name. */
    method Move(d: nat, t: nat, junk: nat, ghost refs: map<nat, int>)
      requires Inv(Abs(), refs) && Movable(all, d, t)
      modifies this
      ensures Abs() == DcacheOps.Move(old(Abs()), d, t, junk) && Inv(Abs(), refs)
    {
      hide Inv, Ancestor;
      MoveKeeps(Abs(), refs, d, t, junk);
      chain := Unlink(chain, d);
      chain := PutFor(chain, t, d);
      var parent := all[d].parent;
      all := all[d := all[d].(parent := all[t].parent, name := all[t].name)];
      all := all[t := all[t].(parent := parent, name := junk)];
    }
  }

  lemma HeldNotUnused(c: Cache, refs: map<nat, int>, x: nat)
    requires Inv(c, refs) && x in c.all && x in refs && refs[x] > 0
    ensures x !in c.unused && c.all[x].count > 0
  {
    InvFacts(c, refs, x);
  }

  /** A dentry whose last reference goes dies, and its parent has one reference to drop. */
  lemma KillNext(c: Cache, refs: map<nat, int>, x: nat)
    requires Inv(c, refs) && x in c.all && x in refs && refs[x] > 0 && c.all[x].count == 1
    ensures var c1, p := Counted(c, x, -1), c.all[x].parent;
            && p in refs && p in c.all
            && Inv(Kill(c1, x), KillRefs(c1, refs[x := refs[x] - 1], x))
            && (p != x ==> KillRefs(c1, refs[x := refs[x] - 1], x)[p] > 0)
  {
    hide TreeOk, CountsOk;
    InvFacts(c, refs, x);
    InvFacts(c, refs, c.all[x].parent);
    ReleasedCounts(c, refs, x);
    KillKeeps(Counted(c, x, -1), refs[x := refs[x] - 1], x);
  }

  lemma KillIs(c: Cache, x: nat)
    ensures Kill(c, x) == c.(all := c.all - {x}, chain := Erase(c.chain, x))
  {
  }

  lemma SpareIs(c: Cache)
    requires c.unused != [] && c.unused[|c.unused| - 1] in c.all
    ensures var k := |c.unused| - 1;
            var x := c.unused[k];
            Spare(c) == c.(all := c.all[x := c.all[x].(referenced := false)], unused := [x] + c.unused[..k])
  {
  }

  lemma PruneOneIs(c: Cache, del: set<nat>)
    requires c.unused != [] && c.unused[|c.unused| - 1] in c.all
    ensures PruneOne(c, del).all.Keys <= c.all.Keys - {c.unused[|c.unused| - 1]}
  {
  }
}
