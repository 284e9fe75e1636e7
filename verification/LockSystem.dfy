/** All inodes, the list of blocked requests and the deadlock test: the transition
    system of POSIX record locking, and what holds in every reachable state. */
module LockSystem {
  import opened Lists
  import opened LockTypes
  import opened LockWalk
  import opened LockSound
  import opened LockNormal

  datatype Option<T> = None | Some(value: T)

  /** A request asleep on the block list of the record `blocker` of inode `ino`. */
  datatype Waiter = Waiter(ino: nat, req: Lock, blocker: nat)

  /** `nextId` bounds the records allocated so far. */
  datatype State = State(files: map<nat, seq<Lock>>, blocked: seq<Waiter>, nextId: nat)

  function ListOf(files: map<nat, seq<Lock>>, ino: nat): seq<Lock> {
    if ino in files then files[ino] else []
  }

  /** The first record that blocks the request, or the length of the list. */
  function FirstConflict(list: seq<Lock>, req: Lock, k: nat): (r: nat)
    requires k <= |list|
    ensures k <= r <= |list|
    ensures forall j | k <= j < r :: !Conflict(req, list[j])
    ensures r < |list| ==> Conflict(req, list[r])
    decreases |list| - k
  {
    if k == |list| || Conflict(req, list[k]) then k else FirstConflict(list, req, k + 1)
  }

  /** The waiters that stay asleep when the block lists of `woken` are emptied. */
  function DropWoken(blocked: seq<Waiter>, ino: nat, woken: set<nat>): (r: seq<Waiter>) {
    if blocked == [] then []
    else
      var rest := DropWoken(blocked[1..], ino, woken);
      if blocked[0].ino == ino && blocked[0].blocker in woken then rest else [blocked[0]] + rest
  }

  lemma {:induction false} DropWokenIn(blocked: seq<Waiter>, ino: nat, woken: set<nat>, w: Waiter)
    ensures w in DropWoken(blocked, ino, woken) <==> w in blocked && !(w.ino == ino && w.blocker in woken)
  {
    if blocked != [] {
      assert blocked == [blocked[0]] + blocked[1..];
      DropWokenIn(blocked[1..], ino, woken, w);
    }
  }

  /** The blocked request of owner `o`, or the number of blocked requests. */
  function FindWaiter(blocked: seq<Waiter>, o: Owner, k: nat): (r: nat)
    requires k <= |blocked|
    ensures k <= r <= |blocked|
    ensures forall j | k <= j < r :: blocked[j].req.owner != o
    ensures r < |blocked| ==> blocked[r].req.owner == o
    decreases |blocked| - k
  {
    if k == |blocked| || blocked[k].req.owner == o then k else FindWaiter(blocked, o, k + 1)
  }

  function FindId(list: seq<Lock>, id: nat, k: nat): (r: nat)
    requires k <= |list|
    ensures k <= r <= |list|
    ensures forall j | k <= j < r :: list[j].id != id
    ensures r < |list| ==> list[r].id == id
    decreases |list| - k
  {
    if k == |list| || list[k].id == id then k else FindId(list, id, k + 1)
  }

  /** The owner that `o` waits for, if `o` is asleep. */
  function WaitsFor(s: State, o: Owner): Option<Owner> {
    var k := FindWaiter(s.blocked, o, 0);
    if k == |s.blocked| then None
    else
      var list := ListOf(s.files, s.blocked[k].ino);
      var j := FindId(list, s.blocked[k].blocker, 0);
      if j == |list| then None else Some(list[j].owner)
  }

  /** The chain of waits from `o` ends within `n` steps. */
  predicate EndsIn(s: State, o: Owner, n: nat)
    decreases n
  {
    match WaitsFor(s, o)
    case None => true
    case Some(p) => n > 0 && EndsIn(s, p, n - 1)
  }

  /** `target` is met within `n` steps of the chain of waits from `o`. */
  predicate Meets(s: State, o: Owner, target: Owner, n: nat)
    decreases n
  {
    o == target || (n > 0 && WaitsFor(s, o).Some? && Meets(s, WaitsFor(s, o).value, target, n - 1))
  }

  /** posix_locks_deadlock: would `caller` waiting for `o` close a cycle? */
  ghost predicate Deadlock(s: State, caller: Owner, o: Owner) {
    exists n :: Meets(s, o, caller, n)
  }

  datatype Verdict = Granted | Again | Deadlocked | Asleep

  /** The locks of one close: every record of the file table `files`. */
  function DropFiles(list: seq<Lock>, files: nat): (r: seq<Lock>) {
    if list == [] then []
    else
      var rest := DropFiles(list[1..], files);
      if list[0].owner.files == files then rest else [list[0]] + rest
  }

  lemma {:induction false} DropFilesIn(list: seq<Lock>, files: nat, l: Lock)
    ensures l in DropFiles(list, files) <==> l in list && l.owner.files != files
  {
    if list != [] {
      assert list == [list[0]] + list[1..];
      DropFilesIn(list[1..], files, l);
    }
  }

  function FilesIds(list: seq<Lock>, files: nat): set<nat> {
    set i | 0 <= i < |list| && list[i].owner.files == files :: list[i].id
  }

  /** One pass through posix_lock_file, from its entry or a wake-up to its return or
      its next sleep. `wait` is the F_SETLKW flag. */
  ghost function SetLock(s: State, ino: nat, req: Lock, wait: bool): (r: (State, Verdict))
    requires Locking(ListOf(s.files, ino))
  {
    var list := ListOf(s.files, ino);
    var c := FirstConflict(list, req, 0);
    if req.kind != Unlock && c < |list| then
      if !wait then (s, Again)
      else if Deadlock(s, req.owner, list[c].owner) then (s, Deadlocked)
      else (s.(blocked := [Waiter(ino, req, list[c].id)] + s.blocked), Asleep)
    else
      var r := Apply(list, req, s.nextId, s.nextId + 1);
      (State(s.files[ino := r.list], DropWoken(s.blocked, ino, r.woken), s.nextId + 2), Granted)
  }

  /** A signal ends the sleep of `o`. */
  function Signal(s: State, o: Owner): State {
    var k := FindWaiter(s.blocked, o, 0);
    if k == |s.blocked| then s else s.(blocked := Remove(s.blocked, k))
  }

  /** locks_remove_posix */
  function Close(s: State, ino: nat, files: nat): State {
    var list := ListOf(s.files, ino);
    s.(files := s.files[ino := DropFiles(list, files)],
       blocked := DropWoken(s.blocked, ino, FilesIds(list, files)))
  }

  datatype Event = Set(ino: nat, req: Lock, wait: bool) | Interrupt(o: Owner) | CloseFile(ino: nat, files: nat)

  predicate IsBlocked(s: State, o: Owner) {
    exists w | w in s.blocked :: w.req.owner == o
  }

  /** A request is valid and comes from a task that is awake. */
  predicate Enabled(s: State, e: Event) {
    e.Set? ==> ValidRange(e.req) && !IsBlocked(s, e.req.owner)
  }

  ghost predicate FileOk(list: seq<Lock>, nextId: nat) {
    Locking(list) && UniqueIds(list) && (forall i | 0 <= i < |list| :: list[i].id < nextId) && Exclusive(list)
  }

  /** The waiter sleeps on a record of the list that blocks it. */
  ghost predicate Stuck(list: seq<Lock>, w: Waiter) {
    exists j | 0 <= j < |list| :: list[j].id == w.blocker && Conflict(w.req, list[j])
  }

  /** A task sleeps in one place at a time. */
  ghost predicate OneSleepEach(blocked: seq<Waiter>) {
    forall i, j | 0 <= i < j < |blocked| :: blocked[i].req.owner != blocked[j].req.owner
  }

  ghost predicate FilesOk(s: State) {
    forall ino :: FileOk(ListOf(s.files, ino), s.nextId)
  }

  ghost predicate WaitersOk(s: State) {
    forall w | w in s.blocked :: Stuck(ListOf(s.files, w.ino), w)
  }

  ghost predicate Ends(s: State, o: Owner) {
    exists n :: EndsIn(s, o, n)
  }

  /** Every chain of waits ends at a task that is awake. */
  ghost predicate ChainsEnd(s: State) {
    forall o :: Ends(s, o)
  }

  ghost predicate Inv(s: State) {
    FilesOk(s) && WaitersOk(s) && OneSleepEach(s.blocked) && ChainsEnd(s)
  }

  ghost function Do(s: State, e: Event): (s': State)
    requires FilesOk(s)
  {
    match e
    case Set(ino, req, wait) => SetLock(s, ino, req, wait).0
    case Interrupt(o) => Signal(s, o)
    case CloseFile(ino, files) => Close(s, ino, files)
  }

  // ---- exclusion ----

  lemma GrantExclusive(list: seq<Lock>, req: Lock, out: seq<Lock>)
    requires Exclusive(list) && (req.kind == Unlock || forall j | 0 <= j < |list| :: !Conflict(req, list[j]))
    requires Locking(out) && forall j | 0 <= j < |out| :: SoundLock(list, req, out[j])
    ensures Exclusive(out)
  {
    forall o, o', k, b | o != o' && Holds(out, o, Write, b)
      ensures !Holds(out, o', k, b)
    {
      if Holds(out, o', k, b) {
        HoldsGranted(list, req, out, o, Write, b);
        HoldsGranted(list, req, out, o', k, b);
      }
    }
  }

  lemma HoldsGranted(list: seq<Lock>, req: Lock, out: seq<Lock>, o: Owner, k: Kind, b: int)
    requires Locking(out) && (forall j | 0 <= j < |out| :: SoundLock(list, req, out[j])) && Holds(out, o, k, b)
    ensures LockSound.Granted(list, req, o, k, b) && k != Unlock
  {
    var j :| 0 <= j < |out| && out[j].owner == o && out[j].kind == k && Covers(out[j], b);
    assert SoundLock(list, req, out[j]);
  }

  // ---- chains of waits ----

  /** Taking waits away keeps every chain finite. */
  lemma {:induction false} FewerWaits(s: State, s': State, o: Owner, n: nat)
    requires forall p :: WaitsFor(s', p) == None || WaitsFor(s', p) == WaitsFor(s, p)
    requires EndsIn(s, o, n)
    ensures EndsIn(s', o, n)
    decreases n
  {
    if WaitsFor(s', o).Some? {
      FewerWaits(s, s', WaitsFor(s, o).value, n - 1);
    }
  }

  lemma FewerWaitsEnd(s: State, s': State)
    requires ChainsEnd(s)
    requires forall p :: WaitsFor(s', p) == None || WaitsFor(s', p) == WaitsFor(s, p)
    ensures ChainsEnd(s')
  {
    forall o
      ensures Ends(s', o)
    {
      assert Ends(s, o);
      var n: nat :| EndsIn(s, o, n);
      FewerWaits(s, s', o, n);
    }
  }

  /** A chain that does not meet the new sleeper is the same with and without its wait. */
  lemma {:induction false} AvoidsCaller(s: State, s': State, c: Owner, o: Owner, n: nat)
    requires forall p | p != c :: WaitsFor(s', p) == WaitsFor(s, p)
    requires EndsIn(s, o, n) && !Meets(s, o, c, n)
    ensures EndsIn(s', o, n)
    decreases n
  {
    if WaitsFor(s, o).Some? {
      AvoidsCaller(s, s', c, WaitsFor(s, o).value, n - 1);
    }
  }

  lemma {:induction false} MoreSteps(s: State, o: Owner, n: nat, n': nat)
    requires EndsIn(s, o, n) && n <= n'
    ensures EndsIn(s, o, n')
    decreases n
  {
    if WaitsFor(s, o).Some? {
      MoreSteps(s, WaitsFor(s, o).value, n - 1, n' - 1);
    }
  }

  /** Every old chain still ends, within the `m` steps that the new sleeper's chain takes. */
  lemma {:induction false} MoreWaits(s: State, s': State, c: Owner, o: Owner, n: nat, m: nat)
    requires forall p | p != c :: WaitsFor(s', p) == WaitsFor(s, p)
    requires EndsIn(s', c, m) && EndsIn(s, o, n)
    ensures EndsIn(s', o, n + m)
    decreases n
  {
    if o == c {
      MoreSteps(s', c, m, n + m);
    } else if WaitsFor(s, o).Some? {
      MoreWaits(s, s', c, WaitsFor(s, o).value, n - 1, m);
    }
  }

  /** One new wait, passed by the deadlock test, keeps every chain finite. */
  lemma NewWaitEnds(s: State, s': State, c: Owner, p: Owner)
    requires ChainsEnd(s) && !Deadlock(s, c, p)
    requires WaitsFor(s', c) == Some(p) && forall q | q != c :: WaitsFor(s', q) == WaitsFor(s, q)
    ensures ChainsEnd(s')
  {
    assert Ends(s, p);
    var m: nat :| EndsIn(s, p, m);
    AvoidsCaller(s, s', c, p, m);
    assert EndsIn(s', c, m + 1);
    forall o
      ensures Ends(s', o)
    {
      assert Ends(s, o);
      var n: nat :| EndsIn(s, o, n);
      MoreWaits(s, s', c, o, n, m + 1);
    }
  }

  /** No owner waits for itself through any chain of waits: the wait-for graph has no cycle. */
  lemma {:induction false} NoCycle(s: State, o: Owner, k: nat)
    requires ChainsEnd(s) && WaitsFor(s, o).Some?
    ensures !Meets(s, WaitsFor(s, o).value, o, k)
  {
    assert Ends(s, o);
    var n: nat :| EndsIn(s, o, n);
    if Meets(s, WaitsFor(s, o).value, o, k) {
      CycleNeverEnds(s, o, k, o, 0, n);
    }
  }

  lemma {:induction false} CycleNeverEnds(s: State, o: Owner, k: nat, x: Owner, j: nat, n: nat)
    requires WaitsFor(s, o).Some? && Meets(s, WaitsFor(s, o).value, o, k)
    requires Meets(s, x, o, j)
    ensures !EndsIn(s, x, n)
    decreases n
  {
    if n > 0 {
      CycleNeverEnds(s, o, k, WaitsFor(s, x).value, if x == o then k else j - 1, n - 1);
    }
  }

  // ---- what every step keeps ----

  /** `id` names records of one owner in both lists. */
  ghost predicate SameOwnerOf(list: seq<Lock>, list': seq<Lock>, id: nat) {
    exists j, j' | 0 <= j < |list| && 0 <= j' < |list'| ::
      list[j].id == id == list'[j'].id && list[j].owner == list'[j'].owner
  }

  lemma {:induction false} FindIdIs(list: seq<Lock>, j: nat)
    requires j < |list| && UniqueIds(list)
    ensures FindId(list, list[j].id, 0) == j
  {
  }

  /** Waiters may go, but those that stay wait for the same owner as before. */
  ghost predicate WaitsKept(s: State, s': State) {
    && OneSleepEach(s.blocked)
    && (forall ino :: UniqueIds(ListOf(s.files, ino)) && UniqueIds(ListOf(s'.files, ino)))
    && (forall w | w in s'.blocked ::
          w in s.blocked && SameOwnerOf(ListOf(s.files, w.ino), ListOf(s'.files, w.ino), w.blocker))
  }

  lemma WaitsKeptFor(s: State, s': State, p: Owner)
    requires WaitsKept(s, s')
    ensures WaitsFor(s', p) == None || WaitsFor(s', p) == WaitsFor(s, p)
  {
    var k' := FindWaiter(s'.blocked, p, 0);
    if k' < |s'.blocked| {
      var w := s'.blocked[k'];
      var k := FindWaiter(s.blocked, p, 0);
      assert s.blocked[k] == w;
      var list, list' := ListOf(s.files, w.ino), ListOf(s'.files, w.ino);
      assert w in s'.blocked;
      var j, j' :| 0 <= j < |list| && 0 <= j' < |list'| && list[j].id == w.blocker == list'[j'].id
          && list[j].owner == list'[j'].owner;
      FindIdIs(list, j);
      FindIdIs(list', j');
    }
  }

  lemma WaitsKeptEnd(s: State, s': State)
    requires ChainsEnd(s) && WaitsKept(s, s')
    ensures ChainsEnd(s')
  {
    forall p
      ensures WaitsFor(s', p) == None || WaitsFor(s', p) == WaitsFor(s, p)
    {
      WaitsKeptFor(s, s', p);
    }
    FewerWaitsEnd(s, s');
  }

  lemma {:induction false} DropOneSleep(blocked: seq<Waiter>, ino: nat, woken: set<nat>)
    requires OneSleepEach(blocked)
    ensures OneSleepEach(DropWoken(blocked, ino, woken))
  {
    if blocked != [] {
      DropOneSleep(blocked[1..], ino, woken);
      forall w | w in DropWoken(blocked[1..], ino, woken)
        ensures w.req.owner != blocked[0].req.owner
      {
        DropWokenIn(blocked[1..], ino, woken, w);
        var j :| 0 <= j < |blocked[1..]| && blocked[1..][j] == w;
      }
    }
  }

  /** A sleeping request outlives any change that keeps its record as wide as before. */
  lemma StuckSurvives(list: seq<Lock>, list': seq<Lock>, woken: set<nat>, w: Waiter)
    requires Stuck(list, w) && Kept(list, list', woken) && w.blocker !in woken
    ensures Stuck(list', w) && SameOwnerOf(list, list', w.blocker)
  {
    var j :| 0 <= j < |list| && list[j].id == w.blocker && Conflict(w.req, list[j]);
    assert Survives(list', list[j]);
    var j' :| 0 <= j' < |list'| && Widens(list'[j'], list[j]);
    assert Conflict(w.req, list'[j']);
  }

  lemma StuckSelf(list: seq<Lock>, w: Waiter)
    requires Stuck(list, w)
    ensures SameOwnerOf(list, list, w.blocker)
  {
    var j :| 0 <= j < |list| && list[j].id == w.blocker && Conflict(w.req, list[j]);
    assert list[j].id == w.blocker == list[j].id;
  }

  /** Changing one list, and waking every waiter of a record that was narrowed or dropped. */
  lemma ChangeList(s: State, s': State, ino: nat, out: seq<Lock>, woken: set<nat>)
    requires Inv(s) && s'.nextId >= s.nextId
    requires s'.files == s.files[ino := out] && s'.blocked == DropWoken(s.blocked, ino, woken)
    requires FileOk(out, s'.nextId) && Kept(ListOf(s.files, ino), out, woken)
    ensures Inv(s')
  {
    forall i
      ensures FileOk(ListOf(s'.files, i), s'.nextId)
    {
      assert FileOk(ListOf(s.files, i), s.nextId);
    }
    forall w | w in s'.blocked
      ensures Stuck(ListOf(s'.files, w.ino), w)
                && SameOwnerOf(ListOf(s.files, w.ino), ListOf(s'.files, w.ino), w.blocker)
    {
      DropWokenIn(s.blocked, ino, woken, w);
      if w.ino == ino {
        StuckSurvives(ListOf(s.files, ino), out, woken, w);
      } else {
        StuckSelf(ListOf(s.files, w.ino), w);
      }
    }
    DropOneSleep(s.blocked, ino, woken);
    forall w | w in s'.blocked
      ensures w in s.blocked
    {
      DropWokenIn(s.blocked, ino, woken, w);
    }
    forall i
      ensures UniqueIds(ListOf(s.files, i)) && UniqueIds(ListOf(s'.files, i))
    {
      assert FileOk(ListOf(s.files, i), s.nextId) && FileOk(ListOf(s'.files, i), s'.nextId);
    }
    WaitsKeptEnd(s, s');
  }

  ghost predicate Free(list: seq<Lock>, req: Lock) {
    req.kind == Unlock || forall j | 0 <= j < |list| :: !Conflict(req, list[j])
  }

  lemma GrantFileOk(list: seq<Lock>, req: Lock, nextId: nat)
    requires FileOk(list, nextId) && Free(list, req)
    ensures FileOk(Apply(list, req, nextId, nextId + 1).list, nextId + 2)
    ensures Kept(list, Apply(list, req, nextId, nextId + 1).list, Apply(list, req, nextId, nextId + 1).woken)
  {
    var r := Apply(list, req, nextId, nextId + 1);
    ApplySound(list, req, nextId, nextId + 1);
    hide Apply;
    GrantExclusive(list, req, r.list);
    forall i | 0 <= i < |r.list|
      ensures r.list[i].id < nextId + 2
    {
      assert r.list[i].id in Ids(r.list);
    }
  }

  lemma GrantKeeps(s: State, ino: nat, req: Lock)
    requires Inv(s) && Free(ListOf(s.files, ino), req) && Locking(ListOf(s.files, ino))
    ensures var r := Apply(ListOf(s.files, ino), req, s.nextId, s.nextId + 1);
            Inv(State(s.files[ino := r.list], DropWoken(s.blocked, ino, r.woken), s.nextId + 2))
  {
    hide Apply, Free, Kept, UniqueIds;
    var list := ListOf(s.files, ino);
    assert FileOk(list, s.nextId);
    var r := Apply(list, req, s.nextId, s.nextId + 1);
    GrantFileOk(list, req, s.nextId);
    ChangeList(s, State(s.files[ino := r.list], DropWoken(s.blocked, ino, r.woken), s.nextId + 2), ino, r.list,
        r.woken);
  }

  lemma SleepKeeps(s: State, ino: nat, req: Lock, c: nat)
    requires Inv(s) && !IsBlocked(s, req.owner)
    requires c < |ListOf(s.files, ino)| && Conflict(req, ListOf(s.files, ino)[c])
    requires !Deadlock(s, req.owner, ListOf(s.files, ino)[c].owner)
    ensures Inv(s.(blocked := [Waiter(ino, req, ListOf(s.files, ino)[c].id)] + s.blocked))
  {
    var list := ListOf(s.files, ino);
    assert FileOk(list, s.nextId);
    var w := Waiter(ino, req, list[c].id);
    var s' := s.(blocked := [w] + s.blocked);
    forall i
      ensures FileOk(ListOf(s'.files, i), s'.nextId)
    {
      assert FileOk(ListOf(s.files, i), s.nextId);
    }
    assert Stuck(list, w);
    FindIdIs(list, c);
    assert s'.blocked[0] == w;
    assert FindWaiter(s'.blocked, req.owner, 0) == 0;
    forall q | q != req.owner
      ensures WaitsFor(s', q) == WaitsFor(s, q)
    {
      FindLater(s.blocked, w, q, 0);
    }
    NoWaiter(s, req.owner);
    NewWaitEnds(s, s', req.owner, list[c].owner);
  }

  lemma NoWaiter(s: State, o: Owner)
    requires !IsBlocked(s, o)
    ensures forall j | 0 <= j < |s.blocked| :: s.blocked[j].req.owner != o
  {
    forall j | 0 <= j < |s.blocked|
      ensures s.blocked[j].req.owner != o
    {
      assert s.blocked[j] in s.blocked;
    }
  }

  lemma {:induction false} FindLater(blocked: seq<Waiter>, w: Waiter, q: Owner, k: nat)
    requires w.req.owner != q && k <= |blocked|
    ensures FindWaiter([w] + blocked, q, k + 1) == FindWaiter(blocked, q, k) + 1
    ensures k == 0 ==> FindWaiter([w] + blocked, q, 0) == FindWaiter(blocked, q, 0) + 1
    decreases |blocked| - k
  {
    if k < |blocked| && blocked[k].req.owner != q {
      FindLater(blocked, w, q, k + 1);
    }
  }

  lemma SetKeeps(s: State, ino: nat, req: Lock, wait: bool)
    requires Inv(s) && !IsBlocked(s, req.owner)
    ensures FileOk(ListOf(s.files, ino), s.nextId) && Inv(SetLock(s, ino, req, wait).0)
  {
    hide Apply;
    var list := ListOf(s.files, ino);
    assert FileOk(list, s.nextId);
    var c := FirstConflict(list, req, 0);
    if req.kind != Unlock && c < |list| {
      if wait && !Deadlock(s, req.owner, list[c].owner) {
        SleepKeeps(s, ino, req, c);
      }
    } else {
      GrantKeeps(s, ino, req);
    }
  }

  lemma SignalKeeps(s: State, o: Owner)
    requires Inv(s)
    ensures Inv(Signal(s, o))
  {
    var k := FindWaiter(s.blocked, o, 0);
    var s' := Signal(s, o);
    if k < |s.blocked| {
      forall i
        ensures FileOk(ListOf(s'.files, i), s'.nextId)
      {
        assert FileOk(ListOf(s.files, i), s.nextId);
      }
      forall w | w in s'.blocked
        ensures w in s.blocked && Stuck(ListOf(s.files, w.ino), w)
                  && SameOwnerOf(ListOf(s.files, w.ino), ListOf(s.files, w.ino), w.blocker)
      {
        assert w in s.blocked;
        StuckSelf(ListOf(s.files, w.ino), w);
      }
      WaitsKeptEnd(s, s');
    }
  }

  /** `f` embeds `sub` in `list` in order. */
  ghost predicate Embeds(sub: seq<Lock>, list: seq<Lock>, f: seq<nat>) {
    && |f| == |sub|
    && (forall i | 0 <= i < |f| :: f[i] < |list| && list[f[i]] == sub[i])
    && (forall i, j | 0 <= i < j < |f| :: f[i] < f[j])
  }

  lemma {:induction false} DropFilesEmbeds(list: seq<Lock>, files: nat) returns (f: seq<nat>)
    ensures Embeds(DropFiles(list, files), list, f)
  {
    f := [];
    if list != [] {
      var g := DropFilesEmbeds(list[1..], files);
      var rest := DropFiles(list[1..], files);
      var up := seq(|g|, i requires 0 <= i < |g| => g[i] + 1);
      assert Embeds(rest, list, up) by {
        assert forall i | 0 <= i < |g| :: list[1..][g[i]] == list[g[i] + 1];
      }
      if list[0].owner.files == files {
        f := up;
      } else {
        f := [0] + up;
        assert DropFiles(list, files) == [list[0]] + rest;
      }
    }
  }

  lemma DropFilesOk(list: seq<Lock>, files: nat, nextId: nat)
    requires FileOk(list, nextId)
    ensures FileOk(DropFiles(list, files), nextId)
  {
    var out := DropFiles(list, files);
    var f := DropFilesEmbeds(list, files);
    forall i, j | 0 <= i < j < |out|
      ensures out[i].id != out[j].id
    {
      assert list[f[i]].id != list[f[j]].id;
    }
    forall o, k, b | Holds(out, o, k, b)
      ensures Holds(list, o, k, b)
    {
      var j :| 0 <= j < |out| && out[j].owner == o && out[j].kind == k && Covers(out[j], b);
      assert list[f[j]] == out[j];
    }
  }

  lemma DropFilesNormal(list: seq<Lock>, files: nat)
    requires Normal(list)
    ensures Normal(DropFiles(list, files))
  {
    var out := DropFiles(list, files);
    var f := DropFilesEmbeds(list, files);
    forall i, j | 0 <= i < j < |out| && out[i].owner == out[j].owner
      ensures Before(out[i], out[j])
    {
      assert Before(list[f[i]], list[f[j]]);
    }
    forall i, j, k | 0 <= i < j < k < |out| && out[i].owner == out[k].owner
      ensures out[j].owner == out[i].owner
    {
      assert f[i] < f[j] < f[k];
      assert list[f[j]].owner == list[f[i]].owner;
    }
  }

  lemma DropFilesKept(list: seq<Lock>, files: nat)
    ensures Kept(list, DropFiles(list, files), FilesIds(list, files))
  {
    var out := DropFiles(list, files);
    forall i | 0 <= i < |list| && list[i].id !in FilesIds(list, files)
      ensures Survives(out, list[i])
    {
      DropFilesIn(list, files, list[i]);
      var j :| 0 <= j < |out| && out[j] == list[i];
      assert Widens(out[j], list[i]);
    }
  }

  lemma CloseKeeps(s: State, ino: nat, files: nat)
    requires Inv(s)
    ensures Inv(Close(s, ino, files))
  {
    var list := ListOf(s.files, ino);
    assert FileOk(list, s.nextId);
    DropFilesOk(list, files, s.nextId);
    DropFilesKept(list, files);
    ChangeList(s, Close(s, ino, files), ino, DropFiles(list, files), FilesIds(list, files));
  }

  /** Every step keeps the invariant. */
  lemma StepKeeps(s: State, e: Event)
    requires Inv(s) && Enabled(s, e)
    ensures Inv(Do(s, e))
  {
    match e
    case Set(ino, req, wait) => SetKeeps(s, ino, req, wait);
    case Interrupt(o) => SignalKeeps(s, o);
    case CloseFile(ino, files) => CloseKeeps(s, ino, files);
  }

  // ---- whole runs ----

  const Boot: State := State(map[], [], 0)

  lemma BootInv()
    ensures Inv(Boot)
  {
    forall o
      ensures Ends(Boot, o)
    {
      assert EndsIn(Boot, o, 0);
    }
    forall ino
      ensures FileOk(ListOf(Boot.files, ino), 0)
    {
    }
  }

  /** The state after a run. A task that is asleep makes no call, so a disabled event does
      nothing. In every state of every run no byte is shared against a write lock, every
      sleeping request sleeps on a listed record of another owner that overlaps and
      conflicts with it, and every chain of waits ends. */
  ghost function Exec(s: State, events: seq<Event>): (s': State)
    requires Inv(s)
    ensures Inv(s')
    decreases |events|
  {
    if events == [] then s
    else if Enabled(s, events[0]) then
      StepKeeps(s, events[0]);
      Exec(Do(s, events[0]), events[1..])
    else Exec(s, events[1..])
  }

  /** The safety of every run from boot, spelled out. */
  lemma RunSafe(events: seq<Event>, ino: nat, o: Owner, o': Owner, k: Kind, b: int, w: Waiter, n: nat)
    ensures Inv(Boot)
    ensures var s := Exec(Boot, events);
            && (o != o' && Holds(ListOf(s.files, ino), o, Write, b) ==> !Holds(ListOf(s.files, ino), o', k, b))
            && (w in s.blocked ==> exists j | 0 <= j < |ListOf(s.files, w.ino)| ::
                  ListOf(s.files, w.ino)[j].id == w.blocker && Conflict(w.req, ListOf(s.files, w.ino)[j]))
            && (WaitsFor(s, o).Some? ==> !Meets(s, WaitsFor(s, o).value, o, n))
  {
    BootInv();
    var s := Exec(Boot, events);
    assert FileOk(ListOf(s.files, ino), s.nextId);
    if w in s.blocked {
      assert Stuck(ListOf(s.files, w.ino), w);
    }
    if WaitsFor(s, o).Some? {
      NoCycle(s, o, n);
    }
  }

  // ---- refinement of the byte map ----

  /** Byte `b` of inode `ino` is locked by `owner` in mode `kind`. */
  datatype Byte = Byte(ino: nat, owner: Owner, kind: Kind, b: int)

  ghost function Bytes(s: State): iset<Byte> {
    iset x: Byte | Holds(ListOf(s.files, x.ino), x.owner, x.kind, x.b)
  }

  /** The simple specification of record locking: a request is granted when no other owner
      has a conflicting lock on a byte of it, and then sets exactly its bytes. */
  ghost predicate Refused(bytes: iset<Byte>, ino: nat, req: Lock) {
    req.kind != Unlock
    && exists x: Byte | x in bytes :: x.ino == ino && x.owner != req.owner && Covers(req, x.b)
        && (req.kind == Write || x.kind == Write)
  }

  ghost function SpecDo(bytes: iset<Byte>, e: Event): iset<Byte> {
    match e
    case Set(ino, req, _) =>
      if Refused(bytes, ino, req) then bytes
      else iset x: Byte |
             if x.ino == ino && x.owner == req.owner && Covers(req, x.b) then x.kind == req.kind != Unlock
                 else x in bytes
    case Interrupt(_) => bytes
    case CloseFile(ino, files) => iset x: Byte | x in bytes && !(x.ino == ino && x.owner.files == files)
  }

  ghost predicate AllNormal(s: State) {
    forall ino :: Normal(ListOf(s.files, ino))
  }

  /** The event does not meet the wrap at OFFSET_MAX. */
  ghost predicate NoWrapEvent(s: State, e: Event) {
    e.Set? ==> !WrapHit(ListOf(s.files, e.ino), e.req)
  }

  lemma FreeIff(s: State, ino: nat, req: Lock)
    requires AllValid(ListOf(s.files, ino)) && ValidRange(req)
    ensures Free(ListOf(s.files, ino), req) <==> !Refused(Bytes(s), ino, req)
  {
    var list := ListOf(s.files, ino);
    if !Free(list, req) {
      var j :| 0 <= j < |list| && Conflict(req, list[j]);
      var r := list[j];
      var x := Byte(ino, r.owner, r.kind, Max(req.start, r.start));
      assert Covers(r, x.b) && Holds(list, r.owner, r.kind, x.b);
      assert x in Bytes(s);
    }
    if Refused(Bytes(s), ino, req) {
      var x: Byte :| x in Bytes(s) && x.ino == ino && x.owner != req.owner && Covers(req, x.b)
          && (req.kind == Write || x.kind == Write);
      var j :| 0 <= j < |list| && list[j].owner == x.owner && list[j].kind == x.kind && Covers(list[j], x.b);
      assert Conflict(req, list[j]);
    }
  }

  /** A granted request on one list, seen byte by byte. */
  lemma GrantByte(s: State, s': State, ino: nat, req: Lock, wait: bool, x: Byte)
    requires !Refused(Bytes(s), ino, req) && s'.files == s.files[ino := ListOf(s'.files, ino)]
    requires Holds(ListOf(s'.files, ino), x.owner, x.kind, x.b) <==>
               Wanted(ListOf(s.files, ino), req, x.owner, x.kind, x.b)
    ensures x in Bytes(s') <==> x in SpecDo(Bytes(s), Set(ino, req, wait))
  {
    hide Holds, Refused;
  }

  lemma NextIdsFresh(list: seq<Lock>, nextId: nat)
    requires FileOk(list, nextId)
    ensures Locking(list) && UniqueIds(list) && Fresh(list, nextId, nextId + 1)
  {
  }

  lemma GrantBytes(s: State, s': State, ino: nat, req: Lock, wait: bool)
    requires FileOk(ListOf(s.files, ino), s.nextId) && Normal(ListOf(s.files, ino))
    requires ValidRange(req) && !WrapHit(ListOf(s.files, ino), req) && !Refused(Bytes(s), ino, req)
    requires s'.files == s.files[ino := Apply(ListOf(s.files, ino), req, s.nextId, s.nextId + 1).list]
    ensures Bytes(s') == SpecDo(Bytes(s), Set(ino, req, wait))
  {
    var list := ListOf(s.files, ino);
    NextIdsFresh(list, s.nextId);
    StaleIsWrap(list, req);
    hide Apply, WrapHit, Stale, Normal, FileOk, Holds, Wanted, Bytes, SpecDo, Refused, UniqueIds, Fresh;
    EffectIff(list, req, s.nextId, s.nextId + 1);
    forall x: Byte
      ensures x in Bytes(s') <==> x in SpecDo(Bytes(s), Set(ino, req, wait))
    {
      GrantByte(s, s', ino, req, wait, x);
    }
  }

  lemma SetFiles(s: State, ino: nat, req: Lock, wait: bool)
    requires Locking(ListOf(s.files, ino))
    ensures SetLock(s, ino, req, wait).0.files
            == if Free(ListOf(s.files, ino), req) then s.files[ino := Apply(ListOf(s.files, ino), req, s.nextId,
                s.nextId + 1).list]
               else s.files
  {
    hide Apply, Deadlock, DropWoken;
  }

  lemma SetRefines(s: State, ino: nat, req: Lock, wait: bool)
    requires Inv(s) && AllNormal(s) && ValidRange(req) && !WrapHit(ListOf(s.files, ino), req)
    ensures FileOk(ListOf(s.files, ino), s.nextId)
    ensures AllNormal(SetLock(s, ino, req, wait).0)
    ensures Bytes(SetLock(s, ino, req, wait).0) == SpecDo(Bytes(s), Set(ino, req, wait))
  {
    var list := ListOf(s.files, ino);
    assert FileOk(list, s.nextId) && Normal(list);
    FreeIff(s, ino, req);
    SetFiles(s, ino, req, wait);
    hide Apply, WrapHit, Normal, SetLock, Free, Bytes, SpecDo, Refused, Inv, FileOk;
    var s' := SetLock(s, ino, req, wait).0;
    if Free(list, req) {
      NormalAgain(list, req, s.nextId, s.nextId + 1);
      GrantBytes(s, s', ino, req, wait);
      forall i
        ensures Normal(ListOf(s'.files, i))
      {
        assert Normal(ListOf(s.files, i));
      }
    } else {
      RefusedSpec(s, ino, req, wait);
    }
  }

  lemma RefusedSpec(s: State, ino: nat, req: Lock, wait: bool)
    requires Refused(Bytes(s), ino, req)
    ensures SpecDo(Bytes(s), Set(ino, req, wait)) == Bytes(s)
    ensures forall s': State | s'.files == s.files :: Bytes(s') == Bytes(s)
  {
  }

  lemma StaleIsWrap(list: seq<Lock>, req: Lock)
    ensures Stale(list, req) ==> WrapHit(list, req)
  {
  }

  lemma CloseRefines(s: State, ino: nat, files: nat)
    requires AllNormal(s)
    ensures AllNormal(Close(s, ino, files))
    ensures Bytes(Close(s, ino, files)) == SpecDo(Bytes(s), CloseFile(ino, files))
  {
    var list, s' := ListOf(s.files, ino), Close(s, ino, files);
    forall i
      ensures Normal(ListOf(s'.files, i))
    {
      assert Normal(ListOf(s.files, i));
      if i == ino {
        DropFilesNormal(list, files);
      }
    }
    var out := DropFiles(list, files);
    forall x: Byte
      ensures x in Bytes(s') <==> x in SpecDo(Bytes(s), CloseFile(ino, files))
    {
      if x.ino == ino {
        if Holds(out, x.owner, x.kind, x.b) {
          var j :| 0 <= j < |out| && out[j].owner == x.owner && out[j].kind == x.kind && Covers(out[j], x.b);
          DropFilesIn(list, files, out[j]);
        }
        if Holds(list, x.owner, x.kind, x.b) && x.owner.files != files {
          var j :| 0 <= j < |list| && list[j].owner == x.owner && list[j].kind == x.kind && Covers(list[j], x.b);
          DropFilesIn(list, files, list[j]);
        }
      }
    }
  }

  lemma StepRefines(s: State, e: Event)
    requires Inv(s) && AllNormal(s) && Enabled(s, e) && NoWrapEvent(s, e)
    ensures AllNormal(Do(s, e)) && Bytes(Do(s, e)) == SpecDo(Bytes(s), e)
  {
    match e
    case Set(ino, req, wait) => SetRefines(s, ino, req, wait);
    case Interrupt(o) =>
      assert Do(s, e).files == s.files;
      assert forall ino :: Normal(ListOf(s.files, ino)) ==> Normal(ListOf(Do(s, e).files, ino));
    case CloseFile(ino, files) => CloseRefines(s, ino, files);
  }

  /** No request of the run meets the wrap, and every call comes from a task that is awake. */
  ghost predicate CleanRun(s: State, events: seq<Event>)
    requires Inv(s)
    decreases |events|
  {
    events == [] || (
      && Enabled(s, events[0]) && NoWrapEvent(s, events[0])
      && (StepKeeps(s, events[0]); CleanRun(Do(s, events[0]), events[1..])))
  }

  ghost function SpecExec(bytes: iset<Byte>, events: seq<Event>): iset<Byte>
    decreases |events|
  {
    if events == [] then bytes else SpecExec(SpecDo(bytes, events[0]), events[1..])
  }

  /** Over every run that does not meet the wrap, the lists behave as the byte map and stay
      in normal form. */
  lemma {:induction false} RunRefines(s: State, events: seq<Event>)
    requires Inv(s) && AllNormal(s) && CleanRun(s, events)
    ensures AllNormal(Exec(s, events)) && Bytes(Exec(s, events)) == SpecExec(Bytes(s), events)
    decreases |events|
  {
    if events != [] {
      StepKeeps(s, events[0]);
      StepRefines(s, events[0]);
      hide Inv, AllNormal, Do, SpecDo, Bytes, Enabled, NoWrapEvent;
      RunRefines(Do(s, events[0]), events[1..]);
    }
  }

  // ---- the verdict of a request ----

  /** The state in which the request sleeps on the record at `c` of its list. */
  function Sleeping(s: State, ino: nat, req: Lock, c: nat): State
    requires c < |ListOf(s.files, ino)|
  {
    s.(blocked := [Waiter(ino, req, ListOf(s.files, ino)[c].id)] + s.blocked)
  }

  /** A sleep on the first conflicting record would make the caller wait for itself, through
      any number of others. */
  ghost predicate ClosesCycle(s: State, ino: nat, req: Lock) {
    exists c: nat, n: nat | c < |ListOf(s.files, ino)| ::
      && Conflict(req, ListOf(s.files, ino)[c])
      && (forall j | 0 <= j < c :: !Conflict(req, ListOf(s.files, ino)[j]))
      && Meets(Sleeping(s, ino, req, c), ListOf(s.files, ino)[c].owner, req.owner, n)
  }

  /** Up to the caller a chain is the same with and without the caller's new wait. */
  lemma {:induction false} SameChain(s: State, w: Waiter, o: Owner, n: nat)
    ensures Meets(s.(blocked := [w] + s.blocked), o, w.req.owner, n) <==> Meets(s, o, w.req.owner, n)
    decreases n
  {
    if o != w.req.owner && n > 0 {
      FindLater(s.blocked, w, o, 0);
      if WaitsFor(s, o).Some? {
        SameChain(s, w, WaitsFor(s, o).value, n - 1);
      }
    }
  }

  /** The search for deadlocks refuses exactly the sleeps that would close a cycle of waits. */
  lemma DeadlockIff(s: State, ino: nat, req: Lock)
    requires FirstConflict(ListOf(s.files, ino), req, 0) < |ListOf(s.files, ino)|
    ensures Deadlock(s, req.owner, ListOf(s.files, ino)[FirstConflict(ListOf(s.files, ino), req, 0)].owner)
            <==> ClosesCycle(s, ino, req)
  {
    hide Meets;
    var list := ListOf(s.files, ino);
    var c := FirstConflict(list, req, 0);
    var w := Waiter(ino, req, list[c].id);
    forall n: nat
      ensures Meets(Sleeping(s, ino, req, c), list[c].owner, req.owner, n) <==> Meets(s, list[c].owner, req.owner, n)
    {
      SameChain(s, w, list[c].owner, n);
    }
  }

  lemma SetVerdict(s: State, ino: nat, req: Lock, wait: bool)
    requires Inv(s) && Enabled(s, Set(ino, req, wait)) && Locking(ListOf(s.files, ino))
    ensures var v := SetLock(s, ino, req, wait).1;
            var free := Free(ListOf(s.files, ino), req);
            && (v == Granted <==> free)
            && (v == Again <==> !free && !wait)
            && (v == Deadlocked <==> !free && wait && ClosesCycle(s, ino, req))
            && (v == Asleep <==> !free && wait && !ClosesCycle(s, ino, req))
            && (v == Asleep <==> IsBlocked(SetLock(s, ino, req, wait).0, req.owner))
            && (v == Again || v == Deadlocked ==> SetLock(s, ino, req, wait).0 == s)
  {
    hide Apply, Deadlock, ClosesCycle, Inv;
    var list := ListOf(s.files, ino);
    var c := FirstConflict(list, req, 0);
    var (s', v) := SetLock(s, ino, req, wait);
    if req.kind != Unlock && c < |list| {
      DeadlockIff(s, ino, req);
      assert v == Asleep ==> s'.blocked[0].req.owner == req.owner;
    } else if IsBlocked(s', req.owner) {
      var w :| w in s'.blocked && w.req.owner == req.owner;
      DropWokenIn(s.blocked, ino, Apply(list, req, s.nextId, s.nextId + 1).woken, w);
    }
  }

  /** What posix_lock_file answers, in terms of the byte map and the waits: it grants exactly
      the requests that no other owner's byte stands against, and then the caller holds every
      byte it asked for, even where the wrap at OFFSET_MAX spoils the rest; it refuses the
      others with the one answer that fits, and only a sleep changes anything then. */
  lemma VerdictIff(s: State, ino: nat, req: Lock, wait: bool)
    requires Inv(s) && Enabled(s, Set(ino, req, wait)) && AllValid(ListOf(s.files, ino))
    ensures Locking(ListOf(s.files, ino))
    ensures var (s', v) := SetLock(s, ino, req, wait);
            var refused := Refused(Bytes(s), ino, req);
            && (v == Granted <==> !refused)
            && (v == Again <==> refused && !wait)
            && (v == Deadlocked <==> refused && wait && ClosesCycle(s, ino, req))
            && (v == Asleep <==> refused && wait && !ClosesCycle(s, ino, req))
            && (v == Asleep <==> IsBlocked(s', req.owner))
            && (v == Again || v == Deadlocked ==> s' == s)
            && (v != Granted ==> Bytes(s') == Bytes(s))
            && (v == Granted && req.kind != Unlock ==>
                  forall b | Covers(req, b) :: Byte(ino, req.owner, req.kind, b) in Bytes(s'))
  {
    var list := ListOf(s.files, ino);
    assert FileOk(list, s.nextId);
    NextIdsFresh(list, s.nextId);
    FreeIff(s, ino, req);
    SetVerdict(s, ino, req, wait);
    SetFiles(s, ino, req, wait);
    if req.kind != Unlock {
      GrantCovers(s, ino, req);
    }
    hide SetLock, Apply, Free, ClosesCycle, Inv, Refused, Enabled, FileOk, UniqueIds;
  }

  lemma GrantCovers(s: State, ino: nat, req: Lock)
    requires FileOk(ListOf(s.files, ino), s.nextId) && req.kind != Unlock
    ensures forall b | Covers(req, b) ::
              Holds(Apply(ListOf(s.files, ino), req, s.nextId, s.nextId + 1).list, req.owner, req.kind, b)
  {
    ApplySound(ListOf(s.files, ino), req, s.nextId, s.nextId + 1);
  }

  /** After any run that does not meet the wrap, a request is granted exactly when the byte map
      of that run has nothing against it. */
  lemma RunVerdict(events: seq<Event>, ino: nat, req: Lock, wait: bool)
    requires Inv(Boot) && CleanRun(Boot, events) && Enabled(Exec(Boot, events), Set(ino, req, wait))
    ensures Locking(ListOf(Exec(Boot, events).files, ino))
    ensures SetLock(Exec(Boot, events), ino, req, wait).1 == Granted
            <==> !Refused(SpecExec(iset{}, events), ino, req)
  {
    assert Bytes(Boot) == iset{};
    RunRefines(Boot, events);
    assert Normal(ListOf(Exec(Boot, events).files, ino));
    VerdictIff(Exec(Boot, events), ino, req, wait);
  }

  // ---- who sleeps on ----

  /** `w` sleeps on a record that some owner with `p` has in its list. */
  ghost predicate SleepsOn(s: State, w: Waiter, p: Owner -> bool) {
    exists r | r in ListOf(s.files, w.ino) :: r.id == w.blocker && p(r.owner)
  }

  /** A signal ends exactly the sleep of its task. */
  lemma SignalWakes(s: State, o: Owner, w: Waiter)
    requires OneSleepEach(s.blocked)
    ensures w in Signal(s, o).blocked <==> w in s.blocked && w.req.owner != o
    ensures Signal(s, o).files == s.files
  {
    var k := FindWaiter(s.blocked, o, 0);
    if k < |s.blocked| {
      if w in s.blocked && w.req.owner != o {
        var j :| 0 <= j < |s.blocked| && s.blocked[j] == w;
        assert Remove(s.blocked, k)[if j < k then j else j - 1] == w;
      }
    }
  }

  /** A close wakes exactly the requests asleep on a record that it drops. */
  lemma CloseWakes(s: State, ino: nat, files: nat, w: Waiter)
    ensures w in Close(s, ino, files).blocked <==>
              w in s.blocked && !(w.ino == ino && SleepsOn(s, w, (o: Owner) => o.files == files))
  {
    DropWokenIn(s.blocked, ino, FilesIds(ListOf(s.files, ino), files), w);
  }

  /** A request, granted or not, leaves everybody asleep who waits for another owner than the
      caller, and puts nobody but the caller to sleep. */
  lemma SetWakes(s: State, ino: nat, req: Lock, wait: bool, w: Waiter)
    requires Inv(s) && FileOk(ListOf(s.files, ino), s.nextId)
    ensures var s' := SetLock(s, ino, req, wait).0;
            && (w in s.blocked && SleepsOn(s, w, o => o != req.owner) ==> w in s'.blocked)
            && (w in s'.blocked ==> w in s.blocked || w.req == req)
  {
    var list := ListOf(s.files, ino);
    NextIdsFresh(list, s.nextId);
    ApplySpares(list, req, s.nextId, s.nextId + 1);
    DropWokenIn(s.blocked, ino, Apply(list, req, s.nextId, s.nextId + 1).woken, w);
    hide Apply, Inv, FileOk, Deadlock;
  }
}
