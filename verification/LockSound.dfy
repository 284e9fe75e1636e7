/** What a granted request does to ANY list of records, in normal form or not: it
    grants no byte that was neither held nor requested, grants the whole request,
    touches no other owner, and narrows or drops only records it wakes. */
module LockSound {
  import opened Lists
  import opened LockTypes
  import opened LockWalk

  /** Byte `b` in mode `k` was held by `o`, or is asked for by the request. */
  ghost predicate Granted(orig: seq<Lock>, req: Lock, o: Owner, k: Kind, b: int) {
    Holds(orig, o, k, b) || (o == req.owner && k == req.kind && Covers(req, b))
  }

  ghost predicate SoundLock(orig: seq<Lock>, req: Lock, r: Lock) {
    forall b | Covers(r, b) :: Granted(orig, req, r.owner, r.kind, b)
  }

  /** `r` is the record `r0`, possibly widened. */
  predicate Widens(r: Lock, r0: Lock) {
    r.id == r0.id && r.owner == r0.owner && r.kind == r0.kind && r.start <= r0.start && r0.end <= r.end
  }

  ghost predicate Survives(list: seq<Lock>, r0: Lock) {
    exists j | 0 <= j < |list| :: Widens(list[j], r0)
  }

  /** Every record whose waiters were not woken is still there, as wide as before. */
  ghost predicate Kept(orig: seq<Lock>, list: seq<Lock>, woken: set<nat>) {
    forall i | 0 <= i < |orig| && orig[i].id !in woken :: Survives(list, orig[i])
  }

  ghost predicate SameOthers(orig: seq<Lock>, list: seq<Lock>, o: Owner) {
    forall r: Lock | r.owner != o :: r in orig <==> r in list
  }

  function Ids(list: seq<Lock>): set<nat> {
    set i | 0 <= i < |list| :: list[i].id
  }

  ghost predicate Sound(orig: seq<Lock>, req: Lock, w: Walk)
    requires Shape(w)
  {
    && (forall j | 0 <= j < |w.list| :: SoundLock(orig, req, w.list[j]))
    && SoundLock(orig, req, w.caller)
    && w.caller.owner == req.owner && w.caller.kind == req.kind
    && w.caller.start <= req.start && req.end <= w.caller.end
    && Kept(orig, w.list, w.woken)
    && UniqueIds(w.list)
    && Ids(w.list) <= Ids(orig)
    && SameOthers(orig, w.list, req.owner)
    && (w.left != NONE ==>
          w.list[w.left].owner == req.owner && w.list[w.left].end >= w.caller.start)
    && (w.right != NONE ==>
          w.list[w.right].owner == req.owner && w.list[w.right].start <= w.caller.end < w.list[w.right].end)
  }

  /** The hull of two touching ranges of one kind covers nothing else. */
  lemma HullSound(orig: seq<Lock>, req: Lock, a: Lock, c: Lock, m: Lock)
    requires SoundLock(orig, req, a) && SoundLock(orig, req, c)
    requires a.owner == c.owner == m.owner && a.kind == c.kind == m.kind
    requires a.end >= c.start - 1 && a.start <= c.end + 1
    requires m.start == Min(a.start, c.start) && m.end == Max(a.end, c.end)
    ensures SoundLock(orig, req, m)
  {
    forall b | Covers(m, b)
      ensures Granted(orig, req, m.owner, m.kind, b)
    {
      assert Covers(a, b) || Covers(c, b);
    }
  }

  lemma NarrowSound(orig: seq<Lock>, req: Lock, a: Lock, m: Lock)
    requires SoundLock(orig, req, a)
    requires a.owner == m.owner && a.kind == m.kind && a.start <= m.start && m.end <= a.end
    ensures SoundLock(orig, req, m)
  {
    forall b | Covers(m, b)
      ensures Granted(orig, req, m.owner, m.kind, b)
    {
      assert Covers(a, b);
    }
  }

  /** Replacing the record at `k` by `m`, either a widening of it or one whose waiters are woken. */
  lemma UpdateKeeps(orig: seq<Lock>, list: seq<Lock>, k: nat, m: Lock, o: Owner, woken: set<nat>, woken': set<nat>)
    requires Kept(orig, list, woken) && UniqueIds(list) && SameOthers(orig, list, o) && Ids(list) <= Ids(orig)
    requires k < |list| && m.id == list[k].id && list[k].owner == o == m.owner
    requires Widens(m, list[k]) || m.id in woken'
    requires woken <= woken'
    ensures Kept(orig, list[k := m], woken') && UniqueIds(list[k := m]) && SameOthers(orig, list[k := m], o)
    ensures Ids(list[k := m]) <= Ids(orig)
  {
    var list' := list[k := m];
    forall i | 0 <= i < |orig| && orig[i].id !in woken'
      ensures Survives(list', orig[i])
    {
      var j :| 0 <= j < |list| && Widens(list[j], orig[i]);
      assert Widens(list'[j], orig[i]);
    }
    forall r: Lock | r.owner != o
      ensures r in orig <==> r in list'
    {
      if r in list {
        var j :| 0 <= j < |list| && list[j] == r;
        assert list'[j] == r;
      }
    }
    forall x | x in Ids(list')
      ensures x in Ids(list)
    {
      var j :| 0 <= j < |list'| && list'[j].id == x;
      assert list[j].id == x;
    }
  }

  /** Deleting a record of `o` whose waiters are woken. */
  lemma RemoveKeeps(orig: seq<Lock>, list: seq<Lock>, k: nat, o: Owner, woken: set<nat>)
    requires Kept(orig, list, woken) && UniqueIds(list) && SameOthers(orig, list, o) && Ids(list) <= Ids(orig)
    requires k < |list| && list[k].owner == o
    ensures Kept(orig, Remove(list, k), woken + {list[k].id})
    ensures UniqueIds(Remove(list, k)) && SameOthers(orig, Remove(list, k), o)
    ensures Ids(Remove(list, k)) <= Ids(orig)
  {
    var list' := Remove(list, k);
    forall i | 0 <= i < |orig| && orig[i].id !in woken + {list[k].id}
      ensures Survives(list', orig[i])
    {
      var j :| 0 <= j < |list| && Widens(list[j], orig[i]);
      assert list'[if j < k then j else j - 1] == list[j];
    }
    forall r: Lock | r.owner != o
      ensures r in orig <==> r in list'
    {
      if r in list {
        var j :| 0 <= j < |list| && list[j] == r;
        assert list'[if j < k then j else j - 1] == r;
      }
    }
    forall x | x in Ids(list')
      ensures x in Ids(list)
    {
      var j :| 0 <= j < |list'| && list'[j].id == x;
      assert list[if j < k then j else j + 1].id == x;
    }
  }

  lemma StepSound(orig: seq<Lock>, req: Lock, w: Walk)
    requires Shape(w) && w.right == NONE && Classify(w) != Break
    requires Sound(orig, req, w)
    ensures Shape(Step(w)) && Sound(orig, req, Step(w))
  {
    StepShape(w);
    var fl, c, w' := w.list[w.i], w.caller, Step(w);
    match Classify(w)
    case Skip =>
    case KeepLeft =>
    case CutRight =>
    case Take =>
      HullSound(orig, req, fl, c, w'.caller);
      UpdateKeeps(orig, w.list, w.i, w'.caller, req.owner, w.woken, w.woken);
    case Merge =>
      HullSound(orig, req, fl, c, w'.caller);
      UpdateKeeps(orig, w.list, w.at, w'.caller, req.owner, w.woken, w.woken);
      RemoveKeeps(orig, w.list[w.at := w'.caller], w.i, req.owner, w.woken);
    case Delete =>
      RemoveKeeps(orig, w.list, w.i, req.owner, w.woken);
    case Replace =>
      NarrowSound(orig, req, c, w'.caller);
      UpdateKeeps(orig, w.list, w.i, w'.caller, req.owner, w.woken, w'.woken);
  }

  lemma {:induction false} RunSound(orig: seq<Lock>, req: Lock, w: Walk)
    requires Shape(w) && w.right == NONE
    requires Sound(orig, req, w)
    ensures Sound(orig, req, Run(w))
    decreases |w.list| - w.i
  {
    if Classify(w) != Break {
      StepSound(orig, req, w);
      StepShape(w);
      if Classify(w) != CutRight {
        RunSound(orig, req, Step(w));
      }
    }
  }

  ghost predicate Fresh(list: seq<Lock>, id1: nat, id2: nat) {
    id1 != id2 && id1 !in Ids(list) && id2 !in Ids(list)
  }

  /** The promises kept by every intermediate list of Finish. */
  ghost predicate GoodList(orig: seq<Lock>, req: Lock, list: seq<Lock>, woken: set<nat>, ids: set<nat>) {
    && Locking(list)
    && (forall j | 0 <= j < |list| :: SoundLock(orig, req, list[j]))
    && Kept(orig, list, woken)
    && UniqueIds(list)
    && Ids(list) <= ids
    && SameOthers(orig, list, req.owner)
  }

  lemma InsertGood(orig: seq<Lock>, req: Lock, list: seq<Lock>, woken: set<nat>, ids: set<nat>, k: nat, x: Lock)
    requires GoodList(orig, req, list, woken, ids)
    requires k <= |list| && x.owner == req.owner && x.kind != Unlock && SoundLock(orig, req, x) && x.id !in Ids(list)
    ensures GoodList(orig, req, Insert(list, k, x), woken, ids + {x.id})
  {
    var list' := Insert(list, k, x);
    forall i | 0 <= i < |orig| && orig[i].id !in woken
      ensures Survives(list', orig[i])
    {
      var j :| 0 <= j < |list| && Widens(list[j], orig[i]);
      assert list'[if j < k then j else j + 1] == list[j];
    }
    forall r: Lock | r.owner != req.owner
      ensures r in orig <==> r in list'
    {
      if r in list {
        var j :| 0 <= j < |list| && list[j] == r;
        assert list'[if j < k then j else j + 1] == r;
      }
    }
    forall j | 0 <= j < |list'|
      ensures list'[j].id in Ids(list) + {x.id} && SoundLock(orig, req, list'[j]) && list'[j].kind != Unlock
    {
      if j != k {
        assert list'[j] == list[if j < k then j else j - 1];
      }
    }
    assert forall j | 0 <= j < |list| :: list[j].id in Ids(list);
  }

  lemma CutGood(orig: seq<Lock>, req: Lock, list: seq<Lock>, woken: set<nat>, ids: set<nat>, k: nat, m: Lock)
    requires GoodList(orig, req, list, woken, ids)
    requires k < |list| && list[k].owner == req.owner == m.owner && m.id == list[k].id && m.kind == list[k].kind
    requires list[k].start <= m.start && m.end <= list[k].end
    ensures GoodList(orig, req, list[k := m], woken + {m.id}, ids)
  {
    var list' := list[k := m];
    NarrowSound(orig, req, list[k], m);
    forall i | 0 <= i < |orig| && orig[i].id !in woken + {m.id}
      ensures Survives(list', orig[i])
    {
      var j :| 0 <= j < |list| && Widens(list[j], orig[i]);
      assert Widens(list'[j], orig[i]);
    }
    forall r: Lock | r.owner != req.owner
      ensures r in orig <==> r in list'
    {
      if r in list {
        var j :| 0 <= j < |list| && list[j] == r;
        assert list'[j] == r;
      }
    }
    forall x | x in Ids(list')
      ensures x in Ids(list)
    {
      var j :| 0 <= j < |list'| && list'[j].id == x;
      assert list[j].id == x;
    }
  }

  /** A record that holds the whole request. */
  predicate Serves(r: Lock, req: Lock) {
    r.owner == req.owner && r.kind == req.kind && r.start <= req.start && req.end <= r.end
  }

  lemma PlacedSound(orig: seq<Lock>, req: Lock, w: Walk, id1: nat, id2: nat)
    requires Shape(w) && Sound(orig, req, w) && Fresh(orig, id1, id2) && (w.added || req.kind != Unlock)
    ensures GoodList(orig, req, Placed(w, id1), w.woken, Ids(orig) + {id1})
    ensures w.right != NONE ==> Placed(w, id1)[w.i + (if w.added then 0 else 1)] == w.list[w.right]
    ensures w.left != NONE && !Splits(w) ==> Placed(w, id1)[w.left] == w.list[w.left]
    ensures req.kind != Unlock ==> Serves(Placed(w, id1)[if w.added then w.at else w.i], req)
  {
    assert GoodList(orig, req, w.list, w.woken, Ids(orig));
    var x := w.caller.(id := id1);
    if !w.added {
      NarrowSound(orig, req, w.caller, x);
      InsertGood(orig, req, w.list, w.woken, Ids(orig), w.i, x);
    }
  }

  /** Where the record that serves the request sits after the insertions. */
  function ServerAt(w: Walk): int {
    (if w.added then w.at else w.i) + (if Splits(w) && !w.added then 1 else 0)
  }

  lemma SplitSound(orig: seq<Lock>, req: Lock, w: Walk, id1: nat, id2: nat)
    requires Shape(w) && Sound(orig, req, w) && Fresh(orig, id1, id2) && (w.added || req.kind != Unlock)
    ensures GoodList(orig, req, Split(w, id1, id2), w.woken, Ids(orig) + {id1, id2})
    ensures w.right != NONE ==> RightAt(w) < |Split(w, id1, id2)| && Split(w, id1, id2)[RightAt(w)] == w.list[w.right]
    ensures w.left != NONE ==> w.left < |Split(w, id1, id2)|
                               && Split(w, id1, id2)[w.left] == w.list[w.left].(id := if Splits(w) then id2
                                   else w.list[w.left].id)
    ensures req.kind != Unlock ==>
              0 <= ServerAt(w) < |Split(w, id1, id2)| && Serves(Split(w, id1, id2)[ServerAt(w)], req)
  {
    PlacedSound(orig, req, w, id1, id2);
    if Splits(w) {
      var fl := w.list[w.right];
      NarrowSound(orig, req, fl, fl.(id := id2));
      InsertGood(orig, req, Placed(w, id1), w.woken, Ids(orig) + {id1}, w.i, fl.(id := id2));
    }
    assert Ids(orig) + {id1} + {id2} == Ids(orig) + {id1, id2};
  }

  lemma FinishSound(orig: seq<Lock>, req: Lock, w: Walk, id1: nat, id2: nat)
    requires Shape(w) && Sound(orig, req, w) && Fresh(orig, id1, id2)
    ensures GoodList(orig, req, Finish(w, id1, id2).list, Finish(w, id1, id2).woken, Ids(orig) + {id1, id2})
    ensures req.kind != Unlock ==>
              0 <= ServerAt(w) < |Finish(w, id1, id2).list| && Serves(Finish(w, id1, id2).list[ServerAt(w)], req)
  {
    if w.added || req.kind != Unlock {
      SplitSound(orig, req, w, id1, id2);
      var ids := Ids(orig) + {id1, id2};
      var r2 := Result(Split(w, id1, id2), w.woken);
      var r3 := CutAtRight(w, r2);
      if w.right != NONE {
        CutGood(orig, req, r2.list, r2.woken, ids, RightAt(w), r3.list[RightAt(w)]);
      }
      var r4 := CutAtLeft(w, r3);
      if w.left != NONE {
        CutGood(orig, req, r3.list, r3.woken, ids, w.left, r4.list[w.left]);
      }
    }
  }

  lemma StartSound(list: seq<Lock>, req: Lock)
    requires Locking(list) && UniqueIds(list)
    ensures Sound(list, req, Start(list, req))
  {
    forall i | 0 <= i < |list|
      ensures Survives(list, list[i]) && SoundLock(list, req, list[i])
    {
      assert Widens(list[i], list[i]);
    }
  }

  /** The promises of a granted request on an arbitrary list. */
  lemma ApplySound(list: seq<Lock>, req: Lock, id1: nat, id2: nat)
    requires Locking(list) && UniqueIds(list) && Fresh(list, id1, id2)
    ensures GoodList(list, req, Apply(list, req, id1, id2).list, Apply(list, req, id1, id2).woken,
              Ids(list) + {id1, id2})
    ensures req.kind != Unlock ==>
              forall b | Covers(req, b) :: Holds(Apply(list, req, id1, id2).list, req.owner, req.kind, b)
  {
    var w := Start(list, req);
    StartSound(list, req);
    RunSound(list, req, w);
    FinishSound(list, req, Run(w), id1, id2);
    if req.kind != Unlock {
      var out := Apply(list, req, id1, id2).list;
      assert Serves(out[ServerAt(Run(w))], req);
    }
  }

  // ---- who is woken ----

  /** Nobody who waits for another owner than `o` is woken. */
  ghost predicate Spares(list: seq<Lock>, woken: set<nat>, o: Owner) {
    forall r | r in list && r.owner != o :: r.id !in woken
  }

  lemma StepSpares(orig: seq<Lock>, req: Lock, w: Walk)
    requires Shape(w) && w.right == NONE && Classify(w) != Break
    requires Sound(orig, req, w) && Spares(w.list, w.woken, req.owner)
    ensures Spares(Step(w).list, Step(w).woken, req.owner)
  {
    hide SoundLock, Kept, SameOthers, Ids;
    var w' := Step(w);
    forall r | r in w'.list && r.owner != req.owner
      ensures r in w.list && r.id != w.list[w.i].id
    {
      var j :| 0 <= j < |w.list| && w.list[j] == r;
    }
  }

  lemma {:induction false} RunSpares(orig: seq<Lock>, req: Lock, w: Walk)
    requires Shape(w) && w.right == NONE
    requires Sound(orig, req, w) && Spares(w.list, w.woken, req.owner)
    ensures Spares(Run(w).list, Run(w).woken, req.owner)
    decreases |w.list| - w.i
  {
    if Classify(w) != Break {
      StepSound(orig, req, w);
      StepSpares(orig, req, w);
      StepShape(w);
      hide Sound, Spares, Step;
      if Classify(w) != CutRight {
        RunSpares(orig, req, Step(w));
      }
    }
  }

  lemma CutSpares(list: seq<Lock>, woken: set<nat>, o: Owner, k: nat, m: Lock)
    requires Spares(list, woken, o) && UniqueIds(list) && k < |list| && list[k].owner == o == m.owner
    ensures Spares(list[k := m], woken + {list[k].id}, o)
  {
    forall r | r in list[k := m] && r.owner != o
      ensures r in list && r.id != list[k].id
    {
      var j :| 0 <= j < |list| && list[k := m][j] == r;
      assert list[j] == r;
    }
  }

  lemma FinishSpares(orig: seq<Lock>, req: Lock, w: Walk, id1: nat, id2: nat)
    requires Shape(w) && Sound(orig, req, w) && Fresh(orig, id1, id2) && Spares(w.list, w.woken, req.owner)
    ensures Spares(Finish(w, id1, id2).list, Finish(w, id1, id2).woken, req.owner)
  {
    if w.added || req.kind != Unlock {
      SplitSound(orig, req, w, id1, id2);
      var r2 := Result(Split(w, id1, id2), w.woken);
      assert Spares(r2.list, w.woken, req.owner);
      var r3 := CutAtRight(w, r2);
      if w.right != NONE {
        CutSpares(r2.list, r2.woken, req.owner, RightAt(w), r3.list[RightAt(w)]);
      }
      if w.left != NONE {
        CutSpares(r3.list, r3.woken, req.owner, w.left, CutAtLeft(w, r3).list[w.left]);
      }
    }
  }

  /** A granted request wakes only tasks that wait for a record of the caller. */
  lemma ApplySpares(list: seq<Lock>, req: Lock, id1: nat, id2: nat)
    requires Locking(list) && UniqueIds(list) && Fresh(list, id1, id2)
    ensures Spares(list, Apply(list, req, id1, id2).woken, req.owner)
  {
    var w := Start(list, req);
    StartSound(list, req);
    RunSound(list, req, w);
    RunSpares(list, req, w);
    FinishSpares(list, req, Run(w), id1, id2);
    ApplySound(list, req, id1, id2);
    hide Apply, Finish, Run, Start, Sound, Kept, SoundLock, UniqueIds;
    assert SameOthers(list, Apply(list, req, id1, id2).list, req.owner);
  }
}
