/** Reference counts, the unused list and the hash of the dentry cache, as values. */
module Dcache {
  import opened Lists
  import opened DentryTree

  /** A struct dentry: `referenced` is the DCACHE_REFERENCED bit. */
  datatype Dentry = Dentry(count: int, parent: nat, name: nat, referenced: bool)

  /** `chain` holds the hashed dentries in hash order, newest first; `unused` is the LRU list
      from its most recent end. */
  datatype Cache = Cache(all: map<nat, Dentry>, chain: seq<nat>, unused: seq<nat>, nrUnused: int)

  ghost function Parents(all: map<nat, Dentry>): map<nat, nat> {
    map x | x in all :: all[x].parent
  }

  function Kids(all: map<nat, Dentry>, x: nat): set<nat> {
    set y | y in all && y != x && all[y].parent == x
  }

  /** `refs` are the references held from outside the cache. */
  ghost predicate CountsOk(all: map<nat, Dentry>, refs: map<nat, int>) {
    && refs.Keys == all.Keys
    && (forall x | x in all :: refs[x] >= 0 && all[x].count == refs[x] + |Kids(all, x)|)
  }

  /** A dentry is on the unused list if and only if nothing counts on it. */
  ghost predicate UnusedOk(c: Cache) {
    && Distinct(c.unused) && c.nrUnused == |c.unused|
    && (forall x :: x in c.unused <==> x in c.all && c.all[x].count == 0)
  }

  ghost predicate HashOk(c: Cache) {
    Distinct(c.chain) && forall x | x in c.chain :: x in c.all
  }

  ghost predicate TreeOk(all: map<nat, Dentry>) {
    Closed(Parents(all)) && Forest(Parents(all))
  }

  ghost predicate Inv(c: Cache, refs: map<nat, int>) {
    CountsOk(c.all, refs) && UnusedOk(c) && HashOk(c) && TreeOk(c.all)
  }

  function Counted(c: Cache, x: nat, n: int): Cache
    requires x in c.all
  {
    c.(all := c.all[x := c.all[x].(count := c.all[x].count + n)])
  }

  /** A dentry that nothing counts on leaves the hash, its parent's children and the cache. */
  function Kill(c: Cache, x: nat): Cache {
    c.(all := c.all - {x}, chain := Erase(c.chain, x))
  }

  /** dput: drop one reference. `del` are the dentries whose d_delete operation wants them gone. */
  function Dput(c: Cache, x: nat, del: set<nat>): (r: Cache)
    ensures r.all.Keys <= c.all.Keys
    decreases c.all.Keys
  {
    if x !in c.all then c
    else
      var c1, parent := Counted(c, x, -1), c.all[x].parent;
      if c1.all[x].count != 0 then c1
      else if x in del || x !in c.chain then
        if parent == x then Kill(c1, x) else Dput(Kill(c1, x), parent, del)
      else c1.(unused := [x] + c.unused, nrUnused := c.nrUnused + 1)
  }

  ghost function Restrict(refs: map<nat, int>, keys: set<nat>): map<nat, int> {
    map x | x in refs && x in keys :: refs[x]
  }

  // ---- one step at a time ----

  lemma CountedParents(c: Cache, x: nat, n: int)
    requires x in c.all
    ensures Parents(Counted(c, x, n).all) == Parents(c.all)
    ensures forall y :: Kids(Counted(c, x, n).all, y) == Kids(c.all, y)
  {
    var c1 := Counted(c, x, n);
    forall y
      ensures Kids(c1.all, y) == Kids(c.all, y)
    {
      assert forall z :: z in Kids(c1.all, y) <==> z in Kids(c.all, y);
    }
  }

  lemma CountedTree(c: Cache, x: nat, n: int)
    requires x in c.all && TreeOk(c.all)
    ensures TreeOk(Counted(c, x, n).all)
  {
    CountedParents(c, x, n);
  }

  lemma {:induction false} RootedWithout(p: map<nat, nat>, q: map<nat, nat>, x: nat, y: nat, n: nat)
    requires x !in q && (forall z | z != x :: Parent(q, z) == Parent(p, z)) && RootedIn(p, y, n)
    ensures RootedIn(q, y, n)
    decreases n
  {
    if y != x && Parent(p, y) != y {
      RootedWithout(p, q, x, Parent(p, y), n - 1);
    }
  }

  lemma KillTree(all: map<nat, Dentry>, x: nat)
    requires TreeOk(all) && Kids(all, x) == {}
    ensures TreeOk(all - {x})
  {
    var p, q := Parents(all), Parents(all - {x});
    forall y
      ensures Rooted(q, y)
    {
      assert Rooted(p, y);
      var n: nat :| RootedIn(p, y, n);
      RootedWithout(p, q, x, y, n);
    }
    forall y | y in q
      ensures q[y] in q
    {
      assert p[y] in p;
      assert y !in Kids(all, x);
    }
  }

  lemma KillKids(all: map<nat, Dentry>, x: nat, y: nat)
    requires x in all && y in all && x != y
    ensures Kids(all - {x}, y) == Kids(all, y) - {x}
    ensures |Kids(all - {x}, y)| == |Kids(all, y)| - if all[x].parent == y then 1 else 0
  {
    assert Kids(all - {x}, y) == Kids(all, y) - {x};
    if all[x].parent == y {
      assert x in Kids(all, y);
    } else {
      assert Kids(all, y) - {x} == Kids(all, y);
    }
  }

  lemma ParentIn(all: map<nat, Dentry>, x: nat)
    requires TreeOk(all) && x in all
    ensures all[x].parent in all
  {
    assert Parents(all)[x] == all[x].parent;
  }

  /** Killing a dentry leaves its parent with one reference too many, which the caller drops. */
  ghost function KillRefs(c: Cache, refs: map<nat, int>, x: nat): map<nat, int>
    requires x in c.all && c.all[x].parent in refs
  {
    var p := c.all[x].parent;
    if p == x then refs - {x} else (refs - {x})[p := refs[p] + 1]
  }

  lemma KillCounts(c: Cache, refs: map<nat, int>, x: nat)
    requires x in c.all && c.all[x].parent in c.all && CountsOk(c.all, refs) && c.all[x].count == 0
    ensures CountsOk(c.all - {x}, KillRefs(c, refs, x))
    ensures Kids(c.all, x) == {} && (c.all[x].parent != x ==> c.all[c.all[x].parent].count > 0)
  {
    var p, all', refs' := c.all[x].parent, c.all - {x}, KillRefs(c, refs, x);
    forall y | y in all'
      ensures refs'[y] >= 0 && all'[y].count == refs'[y] + |Kids(all', y)|
    {
      KillKids(c.all, x, y);
    }
    if p != x {
      assert x in Kids(c.all, p);
    }
  }

  lemma KillKeeps(c: Cache, refs: map<nat, int>, x: nat)
    requires x in c.all && c.all[x].parent in c.all
    requires CountsOk(c.all, refs) && HashOk(c) && TreeOk(c.all) && c.all[x].count == 0
    requires Distinct(c.unused) && c.nrUnused == |c.unused|
    requires forall y :: y in c.unused <==> y in c.all && y != x && c.all[y].count == 0
    ensures Inv(Kill(c, x), KillRefs(c, refs, x))
  {
    hide TreeOk, CountsOk;
    KillCounts(c, refs, x);
    KillTree(c.all, x);
    EraseFacts(c.chain, x);
  }

  /** The references left after one of `x` is dropped and the dentries outside `keys` are gone. */
  ghost function Dropped(refs: map<nat, int>, x: nat, keys: set<nat>): map<nat, int>
    requires x in refs
  {
    Restrict(refs[x := refs[x] - 1], keys)
  }

  lemma ReleasedCounts(c: Cache, refs: map<nat, int>, x: nat)
    requires CountsOk(c.all, refs) && x in c.all && refs[x] > 0
    ensures CountsOk(Counted(c, x, -1).all, refs[x := refs[x] - 1])
    ensures TreeOk(c.all) ==> TreeOk(Counted(c, x, -1).all)
  {
    CountedParents(c, x, -1);
  }

  /** The reference that a dead dentry had to its parent is dropped in turn. */
  lemma DroppedOn(c: Cache, refs: map<nat, int>, x: nat, keys: set<nat>)
    requires x in refs && x in c.all && c.all[x].parent in refs && c.all[x].parent != x && x !in keys
    ensures Dropped(KillRefs(c, refs[x := refs[x] - 1], x), c.all[x].parent, keys) == Dropped(refs, x, keys)
  {}

  /** dput with an outside reference to drop keeps the cache in order: every count is the
      outside references plus the children, and the unused list is right. No dentry that is
      still referenced from outside goes away. */
  lemma {:induction false} DputKeeps(c: Cache, refs: map<nat, int>, x: nat, del: set<nat>)
    requires Inv(c, refs) && x in c.all && refs[x] > 0
    ensures Inv(Dput(c, x, del), Dropped(refs, x, Dput(c, x, del).all.Keys))
    ensures forall y | y in refs && refs[x := refs[x] - 1][y] > 0 :: y in Dput(c, x, del).all
    decreases c.all.Keys
  {
    hide TreeOk, CountsOk;
    InvFacts(c, refs, x);
    var c1, refs1, parent := Counted(c, x, -1), refs[x := refs[x] - 1], c.all[x].parent;
    ReleasedCounts(c, refs, x);
    RestrictAll(refs1, c1.all.Keys);
    if c1.all[x].count == 0 && (x in del || x !in c.chain) {
      ReleasedZero(c1, refs1, x);
      KillKeeps(c1, refs1, x);
      var c2, refs2 := Kill(c1, x), KillRefs(c1, refs1, x);
      if parent != x {
        InvFacts(c, refs, parent);
        DputKeeps(c2, refs2, parent, del);
        DroppedOn(c1, refs, x, Dput(c2, parent, del).all.Keys);
      } else {
        assert Dropped(refs, x, c2.all.Keys) == refs2;
      }
    }
  }

  lemma RestrictAll(refs: map<nat, int>, keys: set<nat>)
    requires refs.Keys == keys
    ensures Restrict(refs, keys) == refs
  {
  }

  lemma InvFacts(c: Cache, refs: map<nat, int>, x: nat)
    requires Inv(c, refs) && x in c.all
    ensures refs.Keys == c.all.Keys && c.all[x].parent in c.all && c.all[x].count >= refs[x] >= 0
  {
    ParentIn(c.all, x);
  }

  lemma ReleasedZero(c: Cache, refs: map<nat, int>, x: nat)
    requires CountsOk(c.all, refs) && x in c.all && c.all[x].count == 0
    ensures refs.Keys == c.all.Keys && refs[x] == 0
  {
  }

  // ---- prune_dcache ----

  ghost function Referenced(all: map<nat, Dentry>): set<nat> {
    set x | x in all && all[x].referenced
  }

  /** Clear the referenced bit of the last unused dentry and move it to the recent end. */
  function Spare(c: Cache): Cache
    requires c.unused != [] && c.unused[|c.unused| - 1] in c.all
  {
    var k := |c.unused| - 1;
    var x := c.unused[k];
    c.(all := c.all[x := c.all[x].(referenced := false)], unused := [x] + c.unused[..k])
  }

  /** prune_one_dentry on the last unused dentry */
  function PruneOne(c: Cache, del: set<nat>): (r: Cache)
    requires c.unused != [] && c.unused[|c.unused| - 1] in c.all
    ensures r.all.Keys <= c.all.Keys - {c.unused[|c.unused| - 1]}
  {
    var k := |c.unused| - 1;
    var x := c.unused[k];
    var c1 := Kill(c.(unused := c.unused[..k], nrUnused := c.nrUnused - 1), x);
    if c.all[x].parent == x then c1 else Dput(c1, c.all[x].parent, del)
  }

  /** prune_dcache. It stops when the unused list is empty, or when freeing a dentry brings
      the counter to exactly zero. */
  ghost function Prune(c: Cache, count: int, del: set<nat>): (r: Cache)
    ensures r.all.Keys <= c.all.Keys
    decreases c.all.Keys, Referenced(c.all)
  {
    if c.unused == [] || c.unused[|c.unused| - 1] !in c.all then c
    else
      var x := c.unused[|c.unused| - 1];
      if c.all[x].referenced then
        SpareReferenced(c);
        Prune(Spare(c), count - 1, del)
      else
        var c1 := PruneOne(c, del);
        if count - 1 == 0 then c1 else Prune(c1, count - 1, del)
  }

  lemma SpareReferenced(c: Cache)
    requires c.unused != [] && c.unused[|c.unused| - 1] in c.all && c.all[c.unused[|c.unused| - 1]].referenced
    ensures Spare(c).all.Keys == c.all.Keys && Referenced(Spare(c).all) < Referenced(c.all)
  {
    var x := c.unused[|c.unused| - 1];
    assert x in Referenced(c.all) && x !in Referenced(Spare(c).all);
  }

  /** Counts and tree do not see the referenced bits. */
  lemma SameShape(all: map<nat, Dentry>, all': map<nat, Dentry>, refs: map<nat, int>)
    requires all'.Keys == all.Keys
    requires forall x | x in all :: all'[x].count == all[x].count && all'[x].parent == all[x].parent
    ensures CountsOk(all, refs) ==> CountsOk(all', refs)
    ensures TreeOk(all) ==> TreeOk(all')
  {
    assert Parents(all') == Parents(all);
    forall x
      ensures Kids(all', x) == Kids(all, x)
    {
      assert forall y :: y in Kids(all', x) <==> y in Kids(all, x);
    }
  }

  lemma Rotated(s: seq<nat>)
    requires Distinct(s) && s != []
    ensures var k := |s| - 1;
            Distinct([s[k]] + s[..k]) && forall y :: y in [s[k]] + s[..k] <==> y in s
  {
    var k := |s| - 1;
    assert s == s[..k] + [s[k]];
  }

  lemma SpareKeeps(c: Cache, refs: map<nat, int>)
    requires Inv(c, refs) && c.unused != [] && c.unused[|c.unused| - 1] in c.all
    ensures Inv(Spare(c), refs)
  {
    hide TreeOk, CountsOk, Distinct;
    SameShape(c.all, Spare(c).all, refs);
    Rotated(c.unused);
  }

  lemma TailKill(c: Cache, refs: map<nat, int>)
    requires Inv(c, refs) && c.unused != [] && c.unused[|c.unused| - 1] in c.all
    ensures var k := |c.unused| - 1;
            var x, c0 := c.unused[k], c.(unused := c.unused[..k], nrUnused := c.nrUnused - 1);
            && x in refs && c.all[x].parent in refs
            && Inv(Kill(c0, x), KillRefs(c0, refs, x))
            && (c.all[x].parent != x ==> refs[c.all[x].parent] >= 0)
  {
    hide TreeOk, CountsOk;
    var k := |c.unused| - 1;
    var x := c.unused[k];
    var c0 := c.(unused := c.unused[..k], nrUnused := c.nrUnused - 1);
    assert c.unused == c.unused[..k] + [x];
    assert x in c.unused;
    InvFacts(c, refs, x);
    InvFacts(c, refs, c.all[x].parent);
    assert forall y :: y in c0.unused <==> y in c.unused && y != x;
    KillKeeps(c0, refs, x);
  }

  lemma PruneOneKeeps(c: Cache, refs: map<nat, int>, del: set<nat>)
    requires Inv(c, refs) && c.unused != [] && c.unused[|c.unused| - 1] in c.all
    ensures Inv(PruneOne(c, del), Restrict(refs, PruneOne(c, del).all.Keys))
  {
    hide Inv;
    InvKeys(c, refs);
    TailKill(c, refs);
    var k := |c.unused| - 1;
    var x := c.unused[k];
    var c0 := c.(unused := c.unused[..k], nrUnused := c.nrUnused - 1);
    var p, c1, refs1 := c.all[x].parent, Kill(c0, x), KillRefs(c0, refs, x);
    if p == x {
      assert Restrict(refs, c1.all.Keys) == refs1;
    } else {
      DputKeeps(c1, refs1, p, del);
      assert Dropped(refs1, p, Dput(c1, p, del).all.Keys) == Restrict(refs, Dput(c1, p, del).all.Keys);
    }
  }

  lemma RestrictTwice(refs: map<nat, int>, a: set<nat>, b: set<nat>)
    requires b <= a
    ensures Restrict(Restrict(refs, a), b) == Restrict(refs, b)
  {
  }

  lemma TailIn(c: Cache, refs: map<nat, int>)
    requires Inv(c, refs) && c.unused != []
    ensures c.unused[|c.unused| - 1] in c.all && c.all[c.unused[|c.unused| - 1]].count == 0
  {
    assert c.unused[|c.unused| - 1] in c.unused;
  }

  /** prune_dcache keeps the cache in order and drops no outside reference. */
  lemma {:induction false} PruneKeeps(c: Cache, refs: map<nat, int>, count: int, del: set<nat>)
    requires Inv(c, refs)
    ensures Inv(Prune(c, count, del), Restrict(refs, Prune(c, count, del).all.Keys))
    decreases c.all.Keys, Referenced(c.all)
  {
    hide Inv, Spare, PruneOne;
    InvKeys(c, refs);
    RestrictAll(refs, c.all.Keys);
    if c.unused != [] {
      TailIn(c, refs);
      var x := c.unused[|c.unused| - 1];
      if c.all[x].referenced {
        SpareReferenced(c);
        SpareKeeps(c, refs);
        PruneKeeps(Spare(c), refs, count - 1, del);
      } else {
        PruneOneKeeps(c, refs, del);
        var c1 := PruneOne(c, del);
        if count - 1 != 0 {
          PruneKeeps(c1, Restrict(refs, c1.all.Keys), count - 1, del);
          RestrictTwice(refs, c1.all.Keys, Prune(c1, count - 1, del).all.Keys);
        }
      }
    }
  }

  lemma InvKeys(c: Cache, refs: map<nat, int>)
    requires Inv(c, refs)
    ensures refs.Keys == c.all.Keys
  {
  }

  /** A counter that is not above zero never comes to zero: everything unused goes. */
  lemma {:induction false} PruneAll(c: Cache, refs: map<nat, int>, count: int, del: set<nat>)
    requires Inv(c, refs) && count <= 0
    ensures Prune(c, count, del).unused == []
    decreases c.all.Keys, Referenced(c.all)
  {
    hide Inv, Spare, PruneOne;
    if c.unused != [] {
      TailIn(c, refs);
      if c.all[c.unused[|c.unused| - 1]].referenced {
        SpareReferenced(c);
        SpareKeeps(c, refs);
        PruneAll(Spare(c), refs, count - 1, del);
      } else {
        PruneOneKeeps(c, refs, del);
        var c1 := PruneOne(c, del);
        PruneAll(c1, Restrict(refs, c1.all.Keys), count - 1, del);
      }
    }
  }

  /** One recently referenced dentry at the old end makes a request to free one dentry free them all. */
  lemma OneReferencedPrunesAll(c: Cache, refs: map<nat, int>, del: set<nat>)
    requires Inv(c, refs) && c.unused != [] && c.unused[|c.unused| - 1] in c.all
              && c.all[c.unused[|c.unused| - 1]].referenced
    ensures Prune(c, 1, del).unused == []
  {
    SpareKeeps(c, refs);
    PruneAll(Spare(c), refs, 0, del);
  }

  /** The cache after `n` dentries from the old end were looked at: a recently referenced one is
      spared, another one freed. */
  ghost function Looks(c: Cache, n: nat, del: set<nat>): Cache
    decreases n
  {
    if n == 0 || c.unused == [] || c.unused[|c.unused| - 1] !in c.all then c
    else if c.all[c.unused[|c.unused| - 1]].referenced then Looks(Spare(c), n - 1, del)
    else Looks(PruneOne(c, del), n - 1, del)
  }

  /** The dentry a prune would look at next can be freed. */
  predicate TailFree(c: Cache) {
    c.unused != [] && c.unused[|c.unused| - 1] in c.all && !c.all[c.unused[|c.unused| - 1]].referenced
  }

  /** prune_dcache stops after looking at `count` dentries if it frees the last of them, and
      otherwise goes through the whole list. */
  lemma {:induction false} PruneLooks(c: Cache, refs: map<nat, int>, count: nat, del: set<nat>)
    requires Inv(c, refs) && count > 0
    ensures var c' := Looks(c, count - 1, del);
            if TailFree(c') then Prune(c, count, del) == PruneOne(c', del) else Prune(c, count, del).unused == []
    decreases count
  {
    hide Inv, Spare, PruneOne;
    if c.unused != [] {
      TailIn(c, refs);
      if c.all[c.unused[|c.unused| - 1]].referenced {
        SpareReferenced(c);
        SpareKeeps(c, refs);
        if count == 1 {
          PruneAll(Spare(c), refs, 0, del);
        } else {
          PruneLooks(Spare(c), refs, count - 1, del);
        }
      } else if count > 1 {
        PruneOneKeeps(c, refs, del);
        var c1 := PruneOne(c, del);
        PruneLooks(c1, Restrict(refs, c1.all.Keys), count - 1, del);
      }
    }
  }

  /** dput adds to the recent end alone and leaves the referenced bits. */
  lemma {:induction false} DputEnd(c: Cache, x: nat, del: set<nat>)
    ensures var r := Dput(c, x, del);
            && |c.unused| <= |r.unused| && r.unused[|r.unused| - |c.unused|..] == c.unused
            && forall y | y in r.all :: y in c.all && r.all[y].referenced == c.all[y].referenced
    decreases c.all.Keys
  {
    if x in c.all {
      var c1, parent := Counted(c, x, -1), c.all[x].parent;
      if c1.all[x].count == 0 && (x in del || x !in c.chain) && parent != x {
        DputEnd(Kill(c1, x), parent, del);
      }
    }
  }

  /** One look takes the old end off and adds to the recent one. */
  lemma LookOnce(c: Cache, refs: map<nat, int>, del: set<nat>)
    requires Inv(c, refs) && c.unused != [] && c.unused[|c.unused| - 1] in c.all
    ensures var x := c.unused[|c.unused| - 1];
            var r := if c.all[x].referenced then Spare(c) else PruneOne(c, del);
            var k := |c.unused| - 1;
            && k <= |r.unused| && r.unused[|r.unused| - k..] == c.unused[..k]
            && forall y | y in r.all && y != x :: y in c.all && r.all[y].referenced == c.all[y].referenced
  {
    hide Inv;
    var k := |c.unused| - 1;
    var x := c.unused[k];
    if !c.all[x].referenced && c.all[x].parent != x {
      DputEnd(Kill(c.(unused := c.unused[..k], nrUnused := c.nrUnused - 1), x), c.all[x].parent, del);
    }
  }

  /** So the dentry looked at after `n` others is the one that was `n` before the old end. */
  lemma {:induction false} LookTail(c: Cache, refs: map<nat, int>, n: nat, del: set<nat>)
    requires Inv(c, refs) && n < |c.unused|
    ensures var c', y := Looks(c, n, del), c.unused[|c.unused| - 1 - n];
            && c'.unused != [] && c'.unused[|c'.unused| - 1] == y && y in c.all && y in c'.all
            && c'.all[y].referenced == c.all[y].referenced
    decreases n
  {
    hide Inv, Spare, PruneOne;
    TailIn(c, refs);
    var y, x, k := c.unused[|c.unused| - 1 - n], c.unused[|c.unused| - 1], |c.unused| - 1;
    OnUnused(c, refs, |c.unused| - 1 - n);
    if n > 0 {
      LookOnce(c, refs, del);
      OnUnused(c, refs, k);
      var c1 := if c.all[x].referenced then Spare(c) else PruneOne(c, del);
      if c.all[x].referenced {
        SpareKeeps(c, refs);
        LookTail(c1, refs, n - 1, del);
      } else {
        PruneOneKeeps(c, refs, del);
        LookTail(c1, Restrict(refs, c1.all.Keys), n - 1, del);
      }
      var i := |c1.unused| - n;
      assert c1.unused[i] == c1.unused[|c1.unused| - k..][k - n] == y;
    }
  }

  lemma OnUnused(c: Cache, refs: map<nat, int>, i: nat)
    requires Inv(c, refs) && i < |c.unused|
    ensures c.unused[i] in c.all && (i < |c.unused| - 1 ==> c.unused[i] != c.unused[|c.unused| - 1])
  {
    assert c.unused[i] in c.unused;
  }

  lemma {:induction false} LooksNext(c: Cache, n: nat, del: set<nat>)
    ensures Looks(c, n + 1, del) == Looks(Looks(c, n, del), 1, del)
    decreases n
  {
    hide Spare, PruneOne;
    if n > 0 && c.unused != [] && c.unused[|c.unused| - 1] in c.all {
      LooksNext(if c.all[c.unused[|c.unused| - 1]].referenced then Spare(c) else PruneOne(c, del), n - 1, del);
    }
  }

  /** A request for no more dentries than the unused list has stops after looking at that many if
      and only if the last of them, counted from the old end, is not marked as referenced; if it
      is, the whole list goes. */
  lemma PruneIff(c: Cache, refs: map<nat, int>, count: nat, del: set<nat>)
    requires Inv(c, refs) && 0 < count <= |c.unused|
    ensures var x := c.unused[|c.unused| - count];
            && x in c.all && (Prune(c, count, del) == Looks(c, count, del) <==> !c.all[x].referenced)
            && (c.all[x].referenced ==> Prune(c, count, del).unused == [])
  {
    hide Inv, Looks, Prune, PruneOne;
    var x := c.unused[|c.unused| - count];
    LookTail(c, refs, count - 1, del);
    PruneLooks(c, refs, count, del);
    LooksNext(c, count - 1, del);
    LooksOne(Looks(c, count - 1, del), del);
  }

  lemma LooksOne(c: Cache, del: set<nat>)
    requires c.unused != [] && c.unused[|c.unused| - 1] in c.all
    ensures Looks(c, 1, del) == if c.all[c.unused[|c.unused| - 1]].referenced then Spare(c) else PruneOne(c, del)
    ensures c.all[c.unused[|c.unused| - 1]].referenced ==> Looks(c, 1, del).unused != []
  {
    hide PruneOne;
  }
}
