/** What a lookup answers, and what each step of the cache does to the answers and to the one
    dentry it is about. */
module DcacheNames {
  import opened Lists
  import opened DentryTree
  import opened Dcache
  import opened DcacheOps

  // ---- names ----

  /** `x` is hashed as the child of `parent` called `name`. */
  predicate Named(c: Cache, x: nat, parent: nat, name: nat) {
    x in c.chain && Matches(c.all, x, parent, name)
  }

  /** No two hashed dentries have one parent and one name. */
  ghost predicate UniqueNames(c: Cache) {
    forall x, y, parent, name | Named(c, x, parent, name) && Named(c, y, parent, name) :: x == y
  }

  datatype Found = Nobody | Is(x: nat)

  /** What d_lookup answers. */
  function Answer(c: Cache, parent: nat, name: nat): Found {
    var k := Find(c, parent, name, 0);
    if k < |c.chain| then Is(c.chain[k]) else Nobody
  }

  lemma AnswerIff(c: Cache, parent: nat, name: nat, x: nat)
    requires UniqueNames(c)
    ensures Answer(c, parent, name) == Is(x) <==> Named(c, x, parent, name)
  {
    hide Matches;
    var k := Find(c, parent, name, 0);
    if Named(c, x, parent, name) {
      var i :| 0 <= i < |c.chain| && c.chain[i] == x;
      assert k <= i;
      assert Named(c, c.chain[k], parent, name);
    }
  }

  /** Whom a step leaves hashed under a name. */
  ghost predicate NamedAfter(w: World, e: Event, c': Cache, x: nat, parent: nat, name: nat)
    requires Allowed(w, e)
  {
    match e
    case Hash(y) => Named(w.c, x, parent, name) || (x == y && Matches(w.c.all, y, parent, name))
    case Unlink(y) => Named(w.c, x, parent, name) && x != y
    case Rename(d, t, _) =>
      if x == d then t in w.c.chain && Matches(w.c.all, t, parent, name) else Named(w.c, x, parent, name) && x != t
    case _ => Named(w.c, x, parent, name) && x in c'.all
  }

  /** A dentry loses or gains its name only as the step says. */
  lemma NamedStep(w: World, e: Event, x: nat, parent: nat, name: nat)
    requires Ok(w) && Allowed(w, e)
    ensures Named(Do(w, e).c, x, parent, name) <==> NamedAfter(w, e, Do(w, e).c, x, parent, name)
  {
    hide Inv, Ancestor, Find;
    ChainFacts(w);
    match e
    case NewRoot(_) =>
    case New(_, _, _) =>
    case Take(_) =>
    case Look(p, n) =>
      if Find(w.c, p, n, 0) < |w.c.chain| {
        ChainKnown(w, Find(w.c, p, n, 0));
      }
    case Put(y, _) => EraseFacts(w.c.chain, y);
    case Shrink =>
      if w.c.unused != [] {
        TailIn(w.c, w.refs);
        EraseFacts(w.c.chain, w.c.unused[|w.c.unused| - 1]);
      }
    case Hash(_) =>
    case Unlink(y) => EraseFacts(w.c.chain, y);
    case Rename(d, t, junk) => RenameNamed(w.c, d, t, junk, x, parent, name);
  }

  lemma ChainFacts(w: World)
    requires Ok(w)
    ensures HashOk(w.c)
  {
  }

  lemma RenameNamed(c: Cache, d: nat, t: nat, junk: nat, x: nat, parent: nat, name: nat)
    requires HashOk(c) && d in c.all && t in c.all && d != t
    ensures Named(Move(c, d, t, junk), x, parent, name)
            <==> if x == d then t in c.chain && Matches(c.all, t, parent, name)
                 else Named(c, x, parent, name) && x != t
  {
    EraseFacts(c.chain, d);
    ReplaceIs(Erase(c.chain, d), t, d);
  }

  /** A dentry is hashed only under a name that no other hashed one has. */
  ghost predicate FreeName(w: World, e: Event) {
    e.Hash? && e.x in w.c.all ==>
      forall y :: !Named(w.c, y, w.c.all[e.x].parent, w.c.all[e.x].name)
  }

  lemma StepUnique(w: World, e: Event)
    requires Ok(w) && Allowed(w, e) && FreeName(w, e) && UniqueNames(w.c)
    ensures UniqueNames(Do(w, e).c)
  {
    hide Ok, Do;
    var c' := Do(w, e).c;
    forall x, y, parent, name | Named(c', x, parent, name) && Named(c', y, parent, name)
      ensures x == y
    {
      NamedStep(w, e, x, parent, name);
      NamedStep(w, e, y, parent, name);
      if e.Rename? {
        TwoRenamed(w, e, c', x, y, parent, name);
      }
    }
  }

  lemma TwoRenamed(w: World, e: Event, c': Cache, x: nat, y: nat, parent: nat, name: nat)
    requires e.Rename? && Allowed(w, e) && UniqueNames(w.c)
    requires NamedAfter(w, e, c', x, parent, name) && NamedAfter(w, e, c', y, parent, name)
    ensures x == y
  {
    hide Movable;
    assert e.t in w.c.chain && Matches(w.c.all, e.t, parent, name) ==> Named(w.c, e.t, parent, name);
  }

  /** The answers after a step, from those before it. */
  ghost function AnswerAfter(w: World, e: Event, c': Cache, parent: nat, name: nat): Found
    requires Allowed(w, e)
  {
    var was := Answer(w.c, parent, name);
    match e
    case Hash(y) => if Matches(w.c.all, y, parent, name) then Is(y) else was
    case Unlink(y) => if was == Is(y) then Nobody else was
    case Rename(d, t, _) => if was == Is(t) then Is(d) else if was == Is(d) then Nobody else was
    case _ => if was.Is? && was.x !in c'.all then Nobody else was
  }

  /** What every step does to lookups: a dentry that is hashed is found under its name, one that
      is dropped or freed is not, a moved dentry is found under the target's parent and name and
      no longer under its own, the target not at all, and every other lookup answers as before. */
  lemma LookupStep(w: World, e: Event, parent: nat, name: nat)
    requires Ok(w) && Allowed(w, e) && FreeName(w, e) && UniqueNames(w.c)
    ensures Answer(Do(w, e).c, parent, name) == AnswerAfter(w, e, Do(w, e).c, parent, name)
  {
    hide Ok, Do, Answer, UniqueNames;
    var c', r := Do(w, e).c, AnswerAfter(w, e, Do(w, e).c, parent, name);
    StepUnique(w, e);
    forall x
      ensures r == Is(x) <==> Answer(c', parent, name) == Is(x)
    {
      AnswerIff(w.c, parent, name, x);
      AnswerIff(c', parent, name, x);
      NamedStep(w, e, x, parent, name);
      AfterIff(w, e, c', parent, name, x);
    }
    assert r.Is? ==> Answer(c', parent, name) == Is(r.x);
    assert Answer(c', parent, name).Is? ==> r == Is(Answer(c', parent, name).x);
  }

  lemma AfterIff(w: World, e: Event, c': Cache, parent: nat, name: nat, x: nat)
    requires Allowed(w, e) && FreeName(w, e) && UniqueNames(w.c)
    ensures AnswerAfter(w, e, c', parent, name) == Is(x) <==> NamedAfter(w, e, c', x, parent, name)
  {
    hide Answer, Movable;
    forall z
      ensures Answer(w.c, parent, name) == Is(z) <==> Named(w.c, z, parent, name)
    {
      AnswerIff(w.c, parent, name, z);
    }
  }

  /** d_move alone, for every cache in which names are unique. */
  lemma MoveNames(w: World, d: nat, t: nat, junk: nat, parent: nat, name: nat)
    requires Ok(w) && Movable(w.c.all, d, t) && UniqueNames(w.c) && d in w.c.chain && t in w.c.chain
    ensures var c, c' := w.c, Move(w.c, d, t, junk);
            && t !in c'.chain && c'.all[t].parent == c.all[d].parent
            && Answer(c', parent, name)
               == if parent == c.all[t].parent && name == c.all[t].name then Is(d)
                  else if parent == c.all[d].parent && name == c.all[d].name then Nobody
                  else Answer(c, parent, name)
  {
    hide Ok, Answer, Ancestor;
    LookupStep(w, Rename(d, t, junk), parent, name);
    AnswerIff(w.c, parent, name, d);
    AnswerIff(w.c, parent, name, t);
    MoveDrops(w, d, t, junk);
  }

  lemma MoveDrops(w: World, d: nat, t: nat, junk: nat)
    requires Ok(w) && Movable(w.c.all, d, t)
    ensures t !in Move(w.c, d, t, junk).chain
    ensures Do(w, Rename(d, t, junk)).c == Move(w.c, d, t, junk)
  {
    hide Inv, Ancestor;
    ChainFacts(w);
    EraseFacts(w.c.chain, d);
    ReplaceIs(Erase(w.c.chain, d), t, d);
  }

  /** Only free names are hashed in the run. */
  ghost predicate FreeNames(w: World, events: seq<Event>)
    requires Ok(w)
    decreases |events|
  {
    events == [] || (
      if Allowed(w, events[0]) then FreeName(w, events[0]) && FreeNames(Do(w, events[0]), events[1..])
      else FreeNames(w, events[1..]))
  }

  /** In every state of every such run a lookup finds a dentry if and only if it is hashed under
      that parent and name. */
  lemma {:induction false} RunNames(w: World, events: seq<Event>, parent: nat, name: nat, x: nat)
    requires Ok(w) && UniqueNames(w.c) && FreeNames(w, events)
    ensures var c := Exec(w, events).c;
            UniqueNames(c) && (Answer(c, parent, name) == Is(x) <==> Named(c, x, parent, name))
    decreases |events|
  {
    hide Ok, Do, Answer, UniqueNames, Named, Allowed, FreeName;
    if events == [] {
      AnswerIff(w.c, parent, name, x);
    } else if Allowed(w, events[0]) {
      StepUnique(w, events[0]);
      RunNames(Do(w, events[0]), events[1..], parent, name, x);
    } else {
      RunNames(w, events[1..], parent, name, x);
    }
  }

  // ---- the dentry that a step is about ----

  /** Every other dentry is as it was. */
  ghost predicate OthersSame(c: Cache, c': Cache, x: nat) {
    forall y | y != x :: (y in c'.all <==> y in c.all) && (y in c.all ==> c'.all[y] == c.all[y])
  }

  /** d_alloc makes an unhashed dentry of that parent and name with one reference, and counts it
      for its parent. */
  lemma NewMeans(w: World, y: nat, parent: nat, name: nat)
    requires Ok(w) && Allowed(w, New(y, parent, name))
    ensures var c' := Do(w, New(y, parent, name)).c;
            && Matches(c'.all, y, parent, name) && y !in c'.chain && c'.all[y].count == 1
            && parent in c'.all && c'.all[parent].count == w.c.all[parent].count + 1
            && (forall z | z != y && z != parent && z in w.c.all :: z in c'.all && c'.all[z] == w.c.all[z])
  {
    hide Inv;
    ChainFacts(w);
  }

  lemma UnusedFacts(w: World)
    requires Ok(w)
    ensures UnusedOk(w.c) && w.refs.Keys == w.c.all.Keys
  {
  }

  /** A lookup that hits takes one reference, off the unused list if it was the first, and sets
      the bit that earns a second chance; one that misses changes nothing. */
  lemma LookMeans(w: World, parent: nat, name: nat)
    requires Ok(w)
    ensures var w', r := Do(w, Look(parent, name)), Answer(w.c, parent, name);
            if r.Nobody? then w' == w
            else
              && r.x in w.c.all && r.x in w.refs && OthersSame(w.c, w'.c, r.x)
              && w'.refs == w.refs[r.x := w.refs[r.x] + 1] && w'.c.chain == w.c.chain
              && w'.c.all.Keys == w.c.all.Keys && w'.c.all[r.x].referenced && r.x !in w'.c.unused
              && w'.c.all[r.x].count == w.c.all[r.x].count + 1
  {
    hide Inv, Find, Distinct;
    UnusedFacts(w);
    var k := Find(w.c, parent, name, 0);
    if k < |w.c.chain| {
      ChainKnown(w, k);
      HitMeans(w, w.c.chain[k]);
    }
  }

  lemma HitMeans(w: World, x: nat)
    requires Ok(w) && x in w.c.all
    ensures var w' := Hit(w, x);
            && x in w.refs && OthersSame(w.c, w'.c, x)
            && w'.refs == w.refs[x := w.refs[x] + 1] && w'.c.chain == w.c.chain
            && w'.c.all.Keys == w.c.all.Keys && w'.c.all[x].referenced && x !in w'.c.unused
            && w'.c.all[x].count == w.c.all[x].count + 1
  {
    hide Inv;
    UnusedFacts(w);
    InvFacts(w.c, w.refs, x);
    EraseFacts(w.c.unused, x);
  }

  /** A turn of dput takes one reference. At the last one the dentry goes if its file system wants
      that or it is not hashed, leaving its parent with a reference to put, and else becomes the
      most recent unused one. */
  lemma PutMeans(w: World, x: nat, wanted: bool)
    requires Ok(w) && Allowed(w, Put(x, wanted))
    ensures var w', last := Do(w, Put(x, wanted)), w.c.all[x].count == 1;
            && OthersSame(w.c, w'.c, x)
            && (x !in w'.c.all <==> last && (wanted || x !in w.c.chain))
            && (!last ==> w'.c.all[x].count == w.c.all[x].count - 1 && w'.c.unused == w.c.unused)
            && (last && x in w'.c.all ==> w'.c.unused == [x] + w.c.unused && w'.c.chain == w.c.chain)
            && (x !in w'.c.all ==> Left(w, w', w.c.all[x].parent, x))
  {
    hide Inv;
    InvFacts(w.c, w.refs, x);
  }

  /** With `x` gone its parent `p`, if it is another, has one more reference from outside. */
  ghost predicate Left(w: World, w': World, p: nat, x: nat) {
    p != x ==> p in w.refs && p in w'.refs && w'.refs[p] == w.refs[p] + 1
  }

  /** A turn of the prune loop looks at the oldest unused dentry: if it was used since, it loses
      the bit and becomes the most recent one, and else it goes and its parent is left with a
      reference to put. */
  lemma ShrinkMeans(w: World)
    requires Ok(w) && w.c.unused != []
    ensures var w', k := Do(w, Shrink), |w.c.unused| - 1;
            var x := w.c.unused[k];
            && x in w.c.all && OthersSame(w.c, w'.c, x)
            && (x in w'.c.all <==> w.c.all[x].referenced)
            && (x in w'.c.all ==>
                  w'.c.all[x] == w.c.all[x].(referenced := false) && w'.c.unused == [x] + w.c.unused[..k])
            && (x !in w'.c.all ==> w'.c.unused == w.c.unused[..k] && Left(w, w', w.c.all[x].parent, x))
  {
    hide Inv;
    TailIn(w.c, w.refs);
    InvFacts(w.c, w.refs, w.c.unused[|w.c.unused| - 1]);
  }
}
