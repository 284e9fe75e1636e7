/** Allocation, lookup, hashing and moves of dentries, and whole runs of the cache. */
module DcacheOps {
  import opened Lists
  import opened DentryTree
  import opened Dcache

  // ---- __dget_locked and d_lookup ----

  /** __dget_locked */
  function Get(c: Cache, x: nat): Cache
    requires x in c.all
  {
    var c1 := Counted(c, x, 1);
    if c1.all[x].count == 1 then c1.(unused := Erase(c.unused, x), nrUnused := c.nrUnused - 1) else c1
  }

  lemma CountedCounts(c: Cache, refs: map<nat, int>, x: nat, n: int)
    requires CountsOk(c.all, refs) && x in c.all && refs[x] + n >= 0
    ensures CountsOk(Counted(c, x, n).all, refs[x := refs[x] + n])
  {
    CountedParents(c, x, n);
  }

  lemma GetKeeps(c: Cache, refs: map<nat, int>, x: nat)
    requires Inv(c, refs) && x in c.all
    ensures x in refs && Inv(Get(c, x), refs[x := refs[x] + 1])
  {
    hide TreeOk, CountsOk;
    InvFacts(c, refs, x);
    CountedCounts(c, refs, x, 1);
    CountedTree(c, x, 1);
    EraseFacts(c.unused, x);
  }

  function Mark(c: Cache, x: nat): Cache
    requires x in c.all
  {
    c.(all := c.all[x := c.all[x].(referenced := true)])
  }

  lemma MarkKeeps(c: Cache, refs: map<nat, int>, x: nat)
    requires Inv(c, refs) && x in c.all
    ensures Inv(Mark(c, x), refs)
  {
    hide TreeOk, CountsOk;
    SameShape(c.all, Mark(c, x).all, refs);
  }

  /** Is `x` the child of `parent` called `name`? */
  predicate Matches(all: map<nat, Dentry>, x: nat, parent: nat, name: nat) {
    x in all && all[x].parent == parent && all[x].name == name
  }

  /** The position of the first match in the hash chain, or the length of the chain. */
  function Find(c: Cache, parent: nat, name: nat, k: nat): (r: nat)
    requires k <= |c.chain|
    ensures k <= r <= |c.chain|
    ensures forall i | k <= i < r :: !Matches(c.all, c.chain[i], parent, name)
    ensures r < |c.chain| ==> Matches(c.all, c.chain[r], parent, name)
    decreases |c.chain| - k
  {
    if k == |c.chain| || Matches(c.all, c.chain[k], parent, name) then k else Find(c, parent, name, k + 1)
  }

  // ---- d_alloc ----

  function Alloc(c: Cache, y: nat, parent: nat, name: nat): Cache
    requires parent in c.all
  {
    c.(all := Counted(c, parent, 1).all[y := Dentry(1, parent, name, false)])
  }

  predicate ParentsKnown(all: map<nat, Dentry>) {
    forall z {:trigger all[z]} | z in all :: all[z].parent in all
  }

  lemma AllocKids(all: map<nat, Dentry>, y: nat, d: Dentry, x: nat)
    requires y !in all && (x in all || x == y) && ParentsKnown(all)
    ensures |Kids(all[y := d], x)| == (if x == y then 0 else |Kids(all, x)| + if d.parent == x then 1 else 0)
  {
    if x == y {
      assert Kids(all[y := d], y) == {};
    } else if d.parent == x {
      assert Kids(all[y := d], x) == Kids(all, x) + {y};
    } else {
      assert Kids(all[y := d], x) == Kids(all, x);
    }
  }

  lemma ParentsIn(all: map<nat, Dentry>)
    requires TreeOk(all)
    ensures ParentsKnown(all)
  {
    forall z | z in all
      ensures all[z].parent in all
    {
      ParentIn(all, z);
    }
  }

  lemma CountedKnown(c: Cache, x: nat, n: int)
    requires x in c.all && ParentsKnown(c.all)
    ensures ParentsKnown(Counted(c, x, n).all)
  {
  }

  lemma AllocCounts(c: Cache, refs: map<nat, int>, y: nat, parent: nat, name: nat)
    requires CountsOk(c.all, refs) && parent in c.all && y !in c.all && ParentsKnown(c.all)
    ensures CountsOk(Alloc(c, y, parent, name).all, refs[y := 1])
  {
    hide ParentsKnown, Kids;
    CountedParents(c, parent, 1);
    CountedKnown(c, parent, 1);
    var all1, d := Counted(c, parent, 1).all, Dentry(1, parent, name, false);
    var all' := Alloc(c, y, parent, name).all;
    forall x | x in all'
      ensures refs[y := 1][x] >= 0 && all'[x].count == refs[y := 1][x] + |Kids(all', x)|
    {
      AllocKids(all1, y, d, x);
    }
  }

  lemma {:induction false} AllocRooted(p: map<nat, nat>, y: nat, parent: nat, x: nat, n: nat)
    requires Closed(p) && y !in p && x in p && RootedIn(p, x, n)
    ensures RootedIn(p[y := parent], x, n)
    decreases n
  {
    assert p[x] in p;
    if p[x] != x {
      AllocRooted(p, y, parent, p[x], n - 1);
    }
  }

  lemma AllocForest(p: map<nat, nat>, y: nat, parent: nat)
    requires Closed(p) && Forest(p) && y !in p && (parent in p || parent == y)
    ensures Closed(p[y := parent]) && Forest(p[y := parent])
  {
    var q := p[y := parent];
    forall x
      ensures Rooted(q, x)
    {
      if x in p {
        assert Rooted(p, x);
        var n: nat :| RootedIn(p, x, n);
        AllocRooted(p, y, parent, x, n);
      } else if x == y && parent != y {
        assert Rooted(p, parent);
        var n: nat :| RootedIn(p, parent, n);
        AllocRooted(p, y, parent, parent, n);
        assert RootedIn(q, y, n + 1);
      } else {
        assert RootedIn(q, x, 0);
      }
    }
  }

  lemma AllocTree(c: Cache, y: nat, parent: nat, name: nat)
    requires TreeOk(c.all) && parent in c.all && y !in c.all
    ensures TreeOk(Alloc(c, y, parent, name).all)
  {
    AllocForest(Parents(c.all), y, parent);
    assert Parents(Alloc(c, y, parent, name).all) == Parents(c.all)[y := parent];
  }

  lemma AllocKeeps(c: Cache, refs: map<nat, int>, y: nat, parent: nat, name: nat)
    requires Inv(c, refs) && parent in c.all && c.all[parent].count > 0 && y !in c.all
    ensures Inv(Alloc(c, y, parent, name), refs[y := 1])
  {
    hide TreeOk, CountsOk, ParentsKnown, UnusedOk, HashOk;
    ParentsIn(c.all);
    AllocCounts(c, refs, y, parent, name);
    AllocTree(c, y, parent, name);
    AllocLists(c, y, parent, name);
  }

  lemma AllocLists(c: Cache, y: nat, parent: nat, name: nat)
    requires parent in c.all && c.all[parent].count > 0 && y !in c.all
    ensures UnusedOk(c) ==> UnusedOk(Alloc(c, y, parent, name))
    ensures HashOk(c) ==> HashOk(Alloc(c, y, parent, name))
  {
    hide Distinct;
    var all' := Alloc(c, y, parent, name).all;
    assert forall x :: x in all' && all'[x].count == 0 <==> x in c.all && c.all[x].count == 0;
  }

  /** d_alloc_root */
  function AllocRoot(c: Cache, y: nat): Cache {
    c.(all := c.all[y := Dentry(1, y, 0, false)])
  }

  lemma AllocRootKeeps(c: Cache, refs: map<nat, int>, y: nat)
    requires Inv(c, refs) && y !in c.all
    ensures Inv(AllocRoot(c, y), refs[y := 1])
  {
    hide TreeOk, CountsOk, ParentsKnown;
    ParentsIn(c.all);
    AllocRootCounts(c, refs, y);
    AllocRootTree(c, y);
  }

  lemma AllocRootTree(c: Cache, y: nat)
    requires TreeOk(c.all) && y !in c.all
    ensures TreeOk(AllocRoot(c, y).all)
  {
    AllocForest(Parents(c.all), y, y);
    assert Parents(AllocRoot(c, y).all) == Parents(c.all)[y := y];
  }

  lemma AllocRootCounts(c: Cache, refs: map<nat, int>, y: nat)
    requires CountsOk(c.all, refs) && ParentsKnown(c.all) && y !in c.all
    ensures CountsOk(AllocRoot(c, y).all, refs[y := 1])
  {
    hide ParentsKnown, Kids;
    var all' := AllocRoot(c, y).all;
    forall x | x in all'
      ensures refs[y := 1][x] >= 0 && all'[x].count == refs[y := 1][x] + |Kids(all', x)|
    {
      AllocKids(c.all, y, Dentry(1, y, 0, false), x);
    }
  }

  // ---- hashing ----

  /** d_rehash of a dentry that is not hashed */
  function Rehash(c: Cache, x: nat): Cache {
    c.(chain := [x] + c.chain)
  }

  /** d_drop */
  function Unhash(c: Cache, x: nat): Cache {
    c.(chain := Erase(c.chain, x))
  }

  lemma HashKeeps(c: Cache, refs: map<nat, int>, x: nat)
    requires Inv(c, refs) && x in c.all
    ensures x !in c.chain ==> Inv(Rehash(c, x), refs)
    ensures Inv(Unhash(c, x), refs)
  {
    hide TreeOk, CountsOk;
    EraseFacts(c.chain, x);
  }

  // ---- d_move ----

  function Replace(s: seq<nat>, t: nat, d: nat): seq<nat> {
    if s == [] then [] else if s[0] == t then [d] + s[1..] else [s[0]] + Replace(s[1..], t, d)
  }

  lemma {:induction false} ReplaceIs(s: seq<nat>, t: nat, d: nat)
    requires Distinct(s) && d !in s
    ensures Distinct(Replace(s, t, d))
    ensures forall y :: y in Replace(s, t, d) <==> (y in s && y != t) || (y == d && t in s)
  {
    if s != [] {
      assert s == [s[0]] + s[1..];
      assert s[0] !in s[1..];
      if s[0] != t {
        ReplaceIs(s[1..], t, d);
      }
    }
  }

  /** d_move: the dentry takes the target's place in the hash, the target is unhashed, parents
      change places and the dentry takes the target's name. What the target is called then is
      `junk`: switch_names does not preserve a short name in it. */
  function Move(c: Cache, d: nat, t: nat, junk: nat): Cache
    requires d in c.all && t in c.all
  {
    var a, b := c.all[d], c.all[t];
    c.(all := c.all[d := a.(parent := b.parent, name := b.name)][t := b.(parent := a.parent, name := junk)],
       chain := Replace(Erase(c.chain, d), t, d))
  }

  lemma MoveKid(c: Cache, d: nat, t: nat, junk: nat, x: nat, z: nat)
    requires d in c.all && t in c.all && d != t
    requires c.all[d].parent != t && c.all[t].parent != d && c.all[d].parent != d && c.all[t].parent != t
    ensures z in Kids(Move(c, d, t, junk).all, x)
            <==> if z == d then c.all[t].parent == x else if z == t then c.all[d].parent == x else z in Kids(c.all, x)
    ensures d in Kids(c.all, x) <==> c.all[d].parent == x
    ensures t in Kids(c.all, x) <==> c.all[t].parent == x
  {
  }

  lemma MoveKids(c: Cache, d: nat, t: nat, junk: nat, x: nat)
    requires d in c.all && t in c.all && d != t
    requires c.all[d].parent != t && c.all[t].parent != d && c.all[d].parent != d && c.all[t].parent != t
    ensures |Kids(Move(c, d, t, junk).all, x)| == |Kids(c.all, x)|
  {
    hide Kids, Move;
    var kids, kids' := Kids(c.all, x), Kids(Move(c, d, t, junk).all, x);
    MoveKid(c, d, t, junk, x, d);
    MoveKid(c, d, t, junk, x, t);
    forall z | z != d && z != t
      ensures z in kids' <==> z in kids
    {
      MoveKid(c, d, t, junk, x, z);
    }
    SwapSize(kids, kids', d, t);
  }

  lemma AddOne(r: set<nat>, x: nat)
    requires x !in r
    ensures |r + {x}| == |r| + 1
  {}

  /** Exchanging one member for another does not change the size of a set. */
  lemma Exchange(s: set<nat>, s': set<nat>, d: nat, t: nat)
    requires d in s && t !in s && t in s' && d !in s' && forall z | z != d && z != t :: z in s' <==> z in s
    ensures |s'| == |s|
  {
    var r := s - {d};
    assert s == r + {d};
    assert s' == r + {t};
    AddOne(r, d);
    AddOne(r, t);
  }

  /** Two members that change roles do not change the size of a set. */
  lemma SwapSize(s: set<nat>, s': set<nat>, d: nat, t: nat)
    requires d != t && (d in s' <==> t in s) && (t in s' <==> d in s)
    requires forall z | z != d && z != t :: z in s' <==> z in s
    ensures |s'| == |s|
  {
    if d in s && t !in s {
      Exchange(s, s', d, t);
    } else if d !in s && t in s {
      Exchange(s, s', t, d);
    } else {
      assert s' == s;
    }
  }

  lemma MoveCounts(c: Cache, refs: map<nat, int>, d: nat, t: nat, junk: nat)
    requires CountsOk(c.all, refs) && d in c.all && t in c.all && d != t
    requires c.all[d].parent != t && c.all[t].parent != d && c.all[d].parent != d && c.all[t].parent != t
    ensures CountsOk(Move(c, d, t, junk).all, refs)
  {
    hide Kids;
    var all' := Move(c, d, t, junk).all;
    forall x | x in all'
      ensures refs[x] >= 0 && all'[x].count == refs[x] + |Kids(all', x)|
    {
      MoveKids(c, d, t, junk, x);
    }
  }

  /** The move is safe for the tree: two dentries that are no roots, neither above the other. */
  ghost predicate Movable(all: map<nat, Dentry>, d: nat, t: nat) {
    && d in all && t in all && d != t && all[d].parent != d && all[t].parent != t
    && !Ancestor(Parents(all), d, t) && !Ancestor(Parents(all), t, d)
  }

  lemma MoveTree(c: Cache, d: nat, t: nat, junk: nat)
    requires TreeOk(c.all) && d in c.all && t in c.all && Movable(c.all, d, t)
    ensures TreeOk(Move(c, d, t, junk).all) && c.all[d].parent != t && c.all[t].parent != d
  {
    hide Forest, Closed, SameRoots;
    var p := Parents(c.all);
    SwapIff(p, d, t);
    SwapClosed(p, d, t);
    assert Parents(Move(c, d, t, junk).all) == Swapped(p, d, t);
    assert Up(p, t, 0) == t && Up(p, d, 0) == d;
    assert Up(p, t, 1) == c.all[t].parent && Up(p, d, 1) == c.all[d].parent;
  }

  /** d_move touches no count: every count still is references plus children. */
  lemma MoveKeeps(c: Cache, refs: map<nat, int>, d: nat, t: nat, junk: nat)
    requires Inv(c, refs) && d in c.all && t in c.all && Movable(c.all, d, t)
    ensures Inv(Move(c, d, t, junk), refs)
  {
    hide TreeOk, CountsOk, Ancestor;
    MoveTree(c, d, t, junk);
    MoveCounts(c, refs, d, t, junk);
    EraseFacts(c.chain, d);
    ReplaceIs(Erase(c.chain, d), t, d);
  }

  // ---- whole runs ----

  /** What happens to the cache. The lock is dropped whenever a dentry is freed, so a Put is one
      turn of dput, for a dentry that d_delete wants gone or not, and a Shrink one turn of
      prune_dcache. The task that frees a child then holds, and later puts, its reference to the
      parent. */
  datatype Event =
    | NewRoot(y: nat)
    | New(y: nat, parent: nat, name: nat)
    | Take(x: nat)
    | Look(parent: nat, name: nat)
    | Put(x: nat, wanted: bool)
    | Shrink
    | Hash(x: nat)
    | Unlink(x: nat)
    | Rename(d: nat, t: nat, junk: nat)

  /** The cache and the references that its users hold. */
  datatype World = World(c: Cache, refs: map<nat, int>)

  ghost predicate Ok(w: World) {
    Inv(w.c, w.refs)
  }

  /** What the callers of dcache.c promise: they put what they hold, and allocate under and
      move dentries they hold. */
  ghost predicate Allowed(w: World, e: Event) {
    match e
    case NewRoot(y) => y !in w.c.all
    case New(y, parent, _) => y !in w.c.all && parent in w.c.all && w.c.all[parent].count > 0
    case Take(x) => x in w.c.all
    case Look(_, _) => true
    case Put(x, _) => x in w.c.all && x in w.refs && w.refs[x] > 0
    case Shrink => true
    case Hash(x) => x in w.c.all && x !in w.c.chain
    case Unlink(x) => x in w.c.all
    case Rename(d, t, _) => Movable(w.c.all, d, t)
  }

  /** d_lookup, with the reference that its caller gets. */
  ghost function Looked(w: World, parent: nat, name: nat): (w': World)
    requires Ok(w)
    ensures Ok(w')
  {
    var k := Find(w.c, parent, name, 0);
    if k == |w.c.chain| then w
    else
      ChainKnown(w, k);
      Hit(w, w.c.chain[k])
  }

  /** The reference that a lookup hands out. */
  ghost function Hit(w: World, x: nat): (w': World)
    requires Ok(w) && x in w.c.all
    ensures Ok(w')
  {
    LookupKeeps(w.c, w.refs, x);
    World(Mark(Get(w.c, x), x), w.refs[x := w.refs[x] + 1])
  }

  lemma ChainKnown(w: World, k: nat)
    requires Ok(w) && k < |w.c.chain|
    ensures w.c.chain[k] in w.c.all
  {
    assert w.c.chain[k] in w.c.chain;
  }

  lemma LookupKeeps(c: Cache, refs: map<nat, int>, x: nat)
    requires Inv(c, refs) && x in c.all
    ensures x in refs && Inv(Mark(Get(c, x), x), refs[x := refs[x] + 1])
  {
    hide Inv;
    GetKeeps(c, refs, x);
    MarkKeeps(Get(c, x), refs[x := refs[x] + 1], x);
  }

  /** One turn of dput by a holder of a reference. */
  ghost function DoPut(w: World, x: nat, wanted: bool): (w': World)
    requires Ok(w) && x in w.c.all && x in w.refs && w.refs[x] > 0
    ensures Ok(w')
  {
    PutKeeps(w.c, w.refs, x);
    var c1, refs1 := Counted(w.c, x, -1), w.refs[x := w.refs[x] - 1];
    if c1.all[x].count != 0 then World(c1, refs1)
    else if wanted || x !in w.c.chain then World(Kill(c1, x), KillRefs(c1, refs1, x))
    else World(c1.(unused := [x] + c1.unused, nrUnused := c1.nrUnused + 1), refs1)
  }

  lemma PutKeeps(c: Cache, refs: map<nat, int>, x: nat)
    requires Inv(c, refs) && x in c.all && x in refs && refs[x] > 0
    ensures var c1, refs1 := Counted(c, x, -1), refs[x := refs[x] - 1];
            if c1.all[x].count != 0 then Inv(c1, refs1)
            else
              && c1.all[x].parent in refs1 && Inv(Kill(c1, x), KillRefs(c1, refs1, x))
              && Inv(c1.(unused := [x] + c1.unused, nrUnused := c1.nrUnused + 1), refs1)
  {
    hide TreeOk, CountsOk;
    InvFacts(c, refs, x);
    var c1, refs1 := Counted(c, x, -1), refs[x := refs[x] - 1];
    ReleasedCounts(c, refs, x);
    if c1.all[x].count == 0 {
      KillKeeps(c1, refs1, x);
    }
  }

  /** An undisturbed dput is such turns, one after the other, up the tree. */
  lemma DputTurns(c: Cache, refs: map<nat, int>, x: nat, del: set<nat>)
    requires Inv(c, refs) && x in c.all && x in refs && refs[x] > 0
    ensures var c1 := DoPut(World(c, refs), x, x in del).c;
            Dput(c, x, del) == if x in c1.all || c.all[x].parent == x then c1 else Dput(c1, c.all[x].parent, del)
  {
    hide Inv;
  }

  ghost function DoNew(w: World, y: nat, parent: nat, name: nat): (w': World)
    requires Ok(w) && y !in w.c.all && parent in w.c.all && w.c.all[parent].count > 0
    ensures Ok(w')
  {
    AllocKeeps(w.c, w.refs, y, parent, name);
    World(Alloc(w.c, y, parent, name), w.refs[y := 1])
  }

  ghost function DoNewRoot(w: World, y: nat): (w': World)
    requires Ok(w) && y !in w.c.all
    ensures Ok(w')
  {
    AllocRootKeeps(w.c, w.refs, y);
    World(AllocRoot(w.c, y), w.refs[y := 1])
  }

  ghost function DoTake(w: World, x: nat): (w': World)
    requires Ok(w) && x in w.c.all
    ensures Ok(w')
  {
    GetKeeps(w.c, w.refs, x);
    World(Get(w.c, x), w.refs[x := w.refs[x] + 1])
  }

  ghost function DoHash(w: World, x: nat): (w': World)
    requires Ok(w) && x in w.c.all && x !in w.c.chain
    ensures Ok(w')
  {
    HashKeeps(w.c, w.refs, x);
    World(Rehash(w.c, x), w.refs)
  }

  ghost function DoUnlink(w: World, x: nat): (w': World)
    requires Ok(w) && x in w.c.all
    ensures Ok(w')
  {
    HashKeeps(w.c, w.refs, x);
    World(Unhash(w.c, x), w.refs)
  }

  ghost function DoRename(w: World, d: nat, t: nat, junk: nat): (w': World)
    requires Ok(w) && Movable(w.c.all, d, t)
    ensures Ok(w')
  {
    MoveKeeps(w.c, w.refs, d, t, junk);
    World(Move(w.c, d, t, junk), w.refs)
  }

  /** One turn of prune_dcache. */
  ghost function DoShrink(w: World): (w': World)
    requires Ok(w)
    ensures Ok(w')
  {
    if w.c.unused == [] then w
    else
      TailIn(w.c, w.refs);
      var k := |w.c.unused| - 1;
      var x := w.c.unused[k];
      if w.c.all[x].referenced then SpareKeeps(w.c, w.refs); World(Spare(w.c), w.refs)
      else
        TailKill(w.c, w.refs);
        var c0 := w.c.(unused := w.c.unused[..k], nrUnused := w.c.nrUnused - 1);
        World(Kill(c0, x), KillRefs(c0, w.refs, x))
  }

  ghost function Do(w: World, e: Event): (w': World)
    requires Ok(w) && Allowed(w, e)
    ensures Ok(w')
  {
    match e
    case NewRoot(y) => DoNewRoot(w, y)
    case New(y, parent, name) => DoNew(w, y, parent, name)
    case Take(x) => DoTake(w, x)
    case Look(parent, name) => Looked(w, parent, name)
    case Put(x, wanted) => DoPut(w, x, wanted)
    case Shrink => DoShrink(w)
    case Hash(x) => DoHash(w, x)
    case Unlink(x) => DoUnlink(w, x)
    case Rename(d, t, junk) => DoRename(w, d, t, junk)
  }

  const Empty: World := World(Cache(map[], [], [], 0), map[])

  lemma EmptyOk()
    ensures Ok(Empty)
  {
    forall x
      ensures Rooted(map[], x)
    {
      assert RootedIn(map[], x, 0);
    }
    assert Parents(Empty.c.all) == map[];
  }

  ghost function Exec(w: World, events: seq<Event>): (w': World)
    requires Ok(w)
    ensures Ok(w')
    decreases |events|
  {
    if events == [] then w
    else if Allowed(w, events[0]) then Exec(Do(w, events[0]), events[1..])
    else Exec(w, events[1..])
  }

  /** In every state of every run each count is the outside references plus the children, a
      dentry is on the unused list if and only if its count is 0, the counter of unused
      dentries is the length of that list, and the parents form a forest. */
  lemma RunCounts(events: seq<Event>, x: nat)
    ensures Ok(Empty)
    ensures var w := Exec(Empty, events);
            && (x in w.c.all ==> x in w.refs && w.c.all[x].count == w.refs[x] + |Kids(w.c.all, x)|)
            && (x in w.c.unused <==> x in w.c.all && w.c.all[x].count == 0)
            && w.c.nrUnused == |w.c.unused|
            && Rooted(Parents(w.c.all), x)
  {
    EmptyOk();
    var w := Exec(Empty, events);
    assert Inv(w.c, w.refs) && Forest(Parents(w.c.all));
  }
}
