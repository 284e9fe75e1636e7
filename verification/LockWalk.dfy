/** The single loop of posix_lock_file that merges, splits, replaces and unlocks
    the records of one owner. */
module LockWalk {
  import opened Lists
  import opened LockTypes

  const NONE: int := -1

  /** The local state of the loop. `i` is the position of `*before`. `at` is the list
      position that `caller` aliases once it points into the list, `left` and `right`
      are the records cut at the end. `woken` collects the records whose block lists
      were emptied. */
  datatype Walk = Walk(list: seq<Lock>, i: nat, caller: Lock, at: int, added: bool,
                       left: int, right: int, woken: set<nat>)

  /** No record on an inode's list is an unlock request. */
  predicate Locking(list: seq<Lock>) {
    forall j | 0 <= j < |list| :: list[j].kind != Unlock
  }

  predicate Shape(w: Walk) {
    && Locking(w.list)
    && w.i <= |w.list|
    && NONE <= w.at < w.i
    && (w.at != NONE ==> w.list[w.at] == w.caller)
    && NONE <= w.left <= w.i
    && (w.left == w.i ==> w.right == w.i)
    && (w.right == NONE || w.right == w.i < |w.list|)
    && (w.added && w.caller.kind != Unlock ==> w.at != NONE)
    && (w.caller.kind == Unlock ==> w.at == NONE)
    && (w.at != NONE ==> w.added)
    && (w.left != w.at || w.left == NONE)
  }

  /** What one turn of the loop decides about the record at position `i`. */
  datatype Branch = Break | Skip | Take | Merge | CutRight | KeepLeft | Delete | Replace

  function Classify(w: Walk): Branch
    requires w.i <= |w.list|
  {
    if w.i == |w.list| || w.list[w.i].owner != w.caller.owner then Break
    else
      var fl, c := w.list[w.i], w.caller;
      if c.kind == fl.kind then
        if fl.end < c.start - 1 then Skip
        else if fl.start > Succ(c.end) then Break
        else if w.added then Merge else Take
      else if fl.end < c.start then Skip
      else if fl.start > c.end then Break
      else if fl.end > c.end then CutRight
      else if fl.start < c.start then KeepLeft
      else if w.added || c.kind == Unlock then Delete
      else Replace
  }

  /** One turn of the loop. */
  function Step(w: Walk): (w': Walk)
    requires Shape(w) && w.right == NONE && Classify(w) != Break
  {
    var fl, c := w.list[w.i], w.caller;
    match Classify(w)
    case Skip => w.(i := w.i + 1)
    case Take =>
      var m := fl.(start := Min(fl.start, c.start), end := Max(fl.end, c.end));
      w.(list := w.list[w.i := m], caller := m, at := w.i, added := true, i := w.i + 1)
    case Merge =>
      var m := c.(start := Min(fl.start, c.start), end := Max(fl.end, c.end));
      w.(list := Remove(w.list[w.at := m], w.i), caller := m, woken := w.woken + {fl.id})
    case CutRight =>
      w.(left := if fl.start < c.start then w.i else w.left, right := w.i, added := w.added || c.kind == Unlock)
    case KeepLeft => w.(left := w.i, added := w.added || c.kind == Unlock, i := w.i + 1)
    case Delete => w.(list := Remove(w.list, w.i), added := true, woken := w.woken + {fl.id})
    case Replace =>
      var m := fl.(kind := c.kind, start := c.start, end := c.end);
      w.(list := w.list[w.i := m], caller := m, at := w.i, added := true, i := w.i + 1, woken := w.woken + {fl.id})
    case Break => w
  }

  lemma StepShape(w: Walk)
    requires Shape(w) && w.right == NONE && Classify(w) != Break
    ensures Shape(Step(w))
    ensures |Step(w).list| - Step(w).i <= |w.list| - w.i
    ensures Classify(w) != CutRight ==> Step(w).right == NONE && |Step(w).list| - Step(w).i < |w.list| - w.i
  {
    forall j | 0 <= j < |Step(w).list|
      ensures Step(w).list[j].kind != Unlock
    {
      if Classify(w) == Merge || Classify(w) == Delete {
        assert w.list[if j < w.i then j else j + 1].kind != Unlock;
      }
    }
  }

  /** The loop, run to its end. */
  function Run(w: Walk): (w': Walk)
    requires Shape(w) && w.right == NONE
    ensures Shape(w')
    decreases |w.list| - w.i
  {
    if Classify(w) == Break then w
    else
      StepShape(w);
      if Classify(w) == CutRight then Step(w) else Run(Step(w))
  }

  /** The first record of owner `o` from position `k` on, or the end of the list. */
  function SkipOthers(list: seq<Lock>, o: Owner, k: nat): (r: nat)
    requires k <= |list|
    ensures k <= r <= |list|
    ensures forall j | k <= j < r :: list[j].owner != o
    ensures r < |list| ==> list[r].owner == o
    decreases |list| - k
  {
    if k == |list| || list[k].owner == o then k else SkipOthers(list, o, k + 1)
  }

  function Start(list: seq<Lock>, req: Lock): (w: Walk)
    requires Locking(list)
    ensures Shape(w) && w.right == NONE
  {
    Walk(list, SkipOthers(list, req.owner, 0), req, NONE, false, NONE, NONE, {})
  }

  datatype Result = Result(list: seq<Lock>, woken: set<nat>)

  /** After the loop, no error is possible: insert the request if no record took it. */
  function Placed(w: Walk, id1: nat): (list: seq<Lock>)
    requires Shape(w)
  {
    if w.added then w.list else Insert(w.list, w.i, w.caller.(id := id1))
  }

  predicate Splits(w: Walk) {
    w.right != NONE && w.left == w.right
  }

  /** A record that sticks out on both sides is copied in front of the request. */
  function Split(w: Walk, id1: nat, id2: nat): (list: seq<Lock>)
    requires Shape(w)
  {
    var list := Placed(w, id1);
    if Splits(w) then Insert(list, w.i, w.list[w.right].(id := id2)) else list
  }

  /** Where the record `right` sits after the insertions. */
  function RightAt(w: Walk): (r: int) {
    w.i + (if w.added then 0 else 1) + (if Splits(w) then 1 else 0)
  }

  function CutAtRight(w: Walk, r: Result): (r': Result)
    requires w.right != NONE ==> 0 <= RightAt(w) < |r.list|
  {
    if w.right == NONE then r
    else
      var p := RightAt(w);
      Result(r.list[p := r.list[p].(start := w.caller.end + 1)], r.woken + {r.list[p].id})
  }

  function CutAtLeft(w: Walk, r: Result): (r': Result)
    requires w.left != NONE ==> 0 <= w.left < |r.list|
  {
    if w.left == NONE then r
    else Result(r.list[w.left := r.list[w.left].(end := w.caller.start - 1)], r.woken + {r.list[w.left].id})
  }

  function Finish(w: Walk, id1: nat, id2: nat): (r: Result)
    requires Shape(w)
  {
    if !w.added && w.caller.kind == Unlock then Result(w.list, w.woken)
    else CutAtLeft(w, CutAtRight(w, Result(Split(w, id1, id2), w.woken)))
  }

  /** The effect of a granted request on the inode's list; `id1` and `id2` are the
      two records allocated in advance. */
  function Apply(list: seq<Lock>, req: Lock, id1: nat, id2: nat): (r: Result)
    requires Locking(list)
  {
    Finish(Run(Start(list, req)), id1, id2)
  }
}
