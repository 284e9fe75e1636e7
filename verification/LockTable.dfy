/** posix_lock_file, posix_locks_deadlock and locks_remove_posix as they run: loops over
    lists that are updated in place. */
module LockTable {
  import opened Lists
  import opened LockTypes
  import opened LockWalk
  import opened LockSystem

  /** Emptying two sets of block lists in turn empties their union. */
  lemma {:induction false} DropTwice(blocked: seq<Waiter>, ino: nat, a: set<nat>, b: set<nat>)
    ensures DropWoken(DropWoken(blocked, ino, a), ino, b) == DropWoken(blocked, ino, a + b)
  {
    if blocked != [] {
      DropTwice(blocked[1..], ino, a, b);
    }
  }

  lemma {:induction false} DropNone(blocked: seq<Waiter>, ino: nat)
    ensures DropWoken(blocked, ino, {}) == blocked
  {
    if blocked != [] {
      DropNone(blocked[1..], ino);
    }
  }

  lemma DropUnfolds(blocked: seq<Waiter>, ino: nat, woken: set<nat>)
    requires blocked != []
    ensures DropWoken(blocked, ino, woken)
            == if blocked[0].ino == ino && blocked[0].blocker in woken then DropWoken(blocked[1..], ino, woken)
               else [blocked[0]] + DropWoken(blocked[1..], ino, woken)
  {
  }

  /** The search may go on from the owner that `o` waits for. */
  lemma DeadlockUnfolds(s: State, caller: Owner, o: Owner)
    ensures Deadlock(s, caller, o)
            <==> o == caller || (WaitsFor(s, o).Some? && Deadlock(s, caller, WaitsFor(s, o).value))
  {
    if Deadlock(s, caller, o) {
      var n: nat :| Meets(s, o, caller, n);
      assert o != caller ==> Meets(s, WaitsFor(s, o).value, caller, n - 1);
    }
    if o == caller {
      assert Meets(s, o, caller, 0);
    } else if WaitsFor(s, o).Some? && Deadlock(s, caller, WaitsFor(s, o).value) {
      var n: nat :| Meets(s, WaitsFor(s, o).value, caller, n);
      assert Meets(s, o, caller, n + 1);
    }
  }

  lemma RunUnfolds(w: Walk)
    requires Shape(w) && w.right == NONE
    ensures Classify(w) == Merge ==> w.at != NONE
    ensures Classify(w) == Break ==> Run(w) == w
    ensures Classify(w) == CutRight ==> Run(w) == Step(w)
    ensures Classify(w) != Break && Classify(w) != CutRight ==>
              Shape(Step(w)) && Step(w).right == NONE && |Step(w).list| - Step(w).i < |w.list| - w.i
                  && Run(w) == Run(Step(w))
  {
    if Classify(w) != Break {
      StepShape(w);
    }
  }

  /** The lists in memory: the records of each inode, and the global list of blocked requests. */
  class Locks {
    var files: map<nat, seq<Lock>>
    var blocked: seq<Waiter>
    var nextId: nat

    ghost function Abs(): State
      reads this
    {
      State(files, blocked, nextId)
    }

    constructor ()
      ensures Abs() == Boot && Inv(Abs())
    {
      files, blocked, nextId := map[], [], 0;
      BootInv();
    }

    /** The scan for a record that blocks the request. */
    static method FindConflict(list: seq<Lock>, req: Lock) returns (k: nat)
      ensures k == FirstConflict(list, req, 0)
    {
      k := 0;
      while k < |list| && !Conflict(req, list[k])
        invariant k <= |list| && FirstConflict(list, req, k) == FirstConflict(list, req, 0)
      {
        k := k + 1;
      }
    }

    /** posix_locks_deadlock. The search ends because every chain of waits does. */
    method DeadlockTest(caller: Owner, owner: Owner) returns (found: bool)
      requires Inv(Abs())
      ensures found <==> Deadlock(Abs(), caller, owner)
    {
      var o := owner;
      assert Ends(Abs(), o);
      ghost var n: nat :| EndsIn(Abs(), o, n);
      while true
        invariant EndsIn(Abs(), o, n)
        invariant Deadlock(Abs(), caller, owner) <==> Deadlock(Abs(), caller, o)
        decreases n
      {
        DeadlockUnfolds(Abs(), caller, o);
        if caller == o {
          return true;
        }
        var k := 0;
        while k < |blocked| && blocked[k].req.owner != o
          invariant k <= |blocked| && FindWaiter(blocked, o, k) == FindWaiter(blocked, o, 0)
        {
          k := k + 1;
        }
        if k == |blocked| {
          return false;
        }
        var list := ListOf(files, blocked[k].ino);
        var j := 0;
        while j < |list| && list[j].id != blocked[k].blocker
          invariant j <= |list| && FindId(list, blocked[k].blocker, j) == FindId(list, blocked[k].blocker, 0)
        {
          j := j + 1;
        }
        assert j < |list| by {
          assert blocked[k] in Abs().blocked && Stuck(list, blocked[k]);
        }
        assert WaitsFor(Abs(), o) == Some(list[j].owner);
        o := list[j].owner;
        n := n - 1;
      }
    }

    /** locks_wake_up_blocks: empty the block list of record `id`. */
    method WakeBlocks(ino: nat, id: nat)
      modifies this`blocked
      ensures blocked == DropWoken(old(blocked), ino, {id})
    {
      var kept, k := [], 0;
      assert blocked[0..] == blocked;
      while k < |blocked|
        invariant k <= |blocked| && blocked == old(blocked)
        invariant kept + DropWoken(blocked[k..], ino, {id}) == DropWoken(blocked, ino, {id})
      {
        hide DropWoken;
        DropUnfolds(blocked[k..], ino, {id});
        assert blocked[k..][1..] == blocked[k + 1..];
        if !(blocked[k].ino == ino && blocked[k].blocker == id) {
          assert kept + ([blocked[k]] + DropWoken(blocked[k + 1..], ino, {id}))
              == (kept + [blocked[k]]) + DropWoken(blocked[k + 1..], ino, {id});
          kept := kept + [blocked[k]];
        }
        k := k + 1;
      }
      assert blocked[k..] == [];
      blocked := kept;
    }

    /** The loop that skips the records of other owners. */
    static method SkipRecords(list: seq<Lock>, owner: Owner) returns (i: nat)
      ensures i == SkipOthers(list, owner, 0)
    {
      i := 0;
      while i < |list| && list[i].owner != owner
        invariant i <= |list| && SkipOthers(list, owner, i) == SkipOthers(list, owner, 0)
      {
        i := i + 1;
      }
    }

    /** The two loops of posix_lock_file: skip the other owners, then walk the caller's records. */
    method WalkRecords(ino: nat, list0: seq<Lock>, req: Lock)
      returns (list: seq<Lock>, i: nat, caller: Lock, at: int, added: bool, left: int, right: int,
          ghost woken: set<nat>)
      requires Locking(list0)
      modifies this`blocked
      ensures Walk(list, i, caller, at, added, left, right, woken) == Run(Start(list0, req))
      ensures blocked == DropWoken(old(blocked), ino, woken)
    {
      hide Run, DropWoken, Locking, SkipOthers;
      list := list0;
      i := SkipRecords(list, req.owner);
      caller, at, added, left, right := req, NONE, false, NONE, NONE;
      woken := {};
      DropNone(blocked, ino);
      ghost var w := Start(list0, req);
      while i < |list| && list[i].owner == caller.owner
        invariant w == Walk(list, i, caller, at, added, left, right, woken)
        invariant Shape(w) && right == NONE && Run(w) == Run(Start(list0, req))
        invariant blocked == DropWoken(old(blocked), ino, woken)
        decreases |list| - i
      {
        RunUnfolds(w);
        var fl := list[i];
        if caller.kind == fl.kind {
          if fl.end < caller.start - 1 {
            w := Step(w);
            i := i + 1;
            continue;
          }
          if fl.start > Succ(caller.end) {
            break;
          }
          w := Step(w);
          var start, end := Min(fl.start, caller.start), Max(fl.end, caller.end);
          if added {
            caller := caller.(start := start, end := end);
            list := Remove(list[at := caller], i);
            WakeBlocks(ino, fl.id);
            DropTwice(old(blocked), ino, woken, {fl.id});
            woken := woken + {fl.id};
            continue;
          }
          caller := fl.(start := start, end := end);
          list, at, added := list[i := caller], i, true;
        } else {
          if fl.end < caller.start {
            w := Step(w);
            i := i + 1;
            continue;
          }
          if fl.start > caller.end {
            break;
          }
          w := Step(w);
          if caller.kind == Unlock {
            added := true;
          }
          if fl.start < caller.start {
            left := i;
          }
          if fl.end > caller.end {
            right := i;
            break;
          }
          if fl.start >= caller.start {
            WakeBlocks(ino, fl.id);
            DropTwice(old(blocked), ino, woken, {fl.id});
            woken := woken + {fl.id};
            if added {
              list := Remove(list, i);
              continue;
            }
            caller := fl.(kind := caller.kind, start := caller.start, end := caller.end);
            list, at, added := list[i := caller], i, true;
          }
        }
        i := i + 1;
      }
      if right == NONE {
        RunUnfolds(w);
      }
    }

    /** The rest of posix_lock_file for a request that nothing blocks. */
    method ApplyRequest(ino: nat, req: Lock)
      requires Locking(ListOf(files, ino))
      modifies this
      ensures var r := Apply(old(ListOf(files, ino)), req, old(nextId), old(nextId) + 1);
              files == old(files)[ino := r.list]
              && blocked == DropWoken(old(blocked), ino, r.woken) && nextId == old(nextId) + 2
    {
      hide Run, DropWoken, Locking, SkipOthers;
      var id1, id2 := nextId, nextId + 1;
      nextId := nextId + 2;
      var list, i, caller, at, added, left, right, woken := WalkRecords(ino, ListOf(files, ino), req);
      ghost var w := Walk(list, i, caller, at, added, left, right, woken);
      ghost var goal := Apply(old(ListOf(files, ino)), req, id1, id2);
      assert goal == Finish(w, id1, id2);
      if !added && caller.kind == Unlock {
        files := files[ino := list];
        return;
      }
      var p := i;
      if !added {
        list := Insert(list, i, caller.(id := id1));
        p := p + 1;
      }
      assert list == Placed(w, id1);
      if right != NONE {
        if left == right {
          list := Insert(list, i, list[p].(id := id2));
          p := p + 1;
        }
        assert list == Split(w, id1, id2);
        WakeBlocks(ino, list[p].id);
        DropTwice(old(blocked), ino, woken, {list[p].id});
        woken := woken + {list[p].id};
        list := list[p := list[p].(start := caller.end + 1)];
      }
      assert Result(list, woken) == CutAtRight(w, Result(Split(w, id1, id2), w.woken));
      if left != NONE {
        WakeBlocks(ino, list[left].id);
        DropTwice(old(blocked), ino, woken, {list[left].id});
        woken := woken + {list[left].id};
        list := list[left := list[left].(end := caller.start - 1)];
      }
      files := files[ino := list];
    }
  
    /** posix_lock_file up to its return or its next sleep. */
    method LockFile(ino: nat, req: Lock, wait: bool) returns (v: Verdict)
      requires Inv(Abs()) && Enabled(Abs(), Set(ino, req, wait))
      modifies this
      ensures FileOk(old(ListOf(files, ino)), old(nextId)) && (Abs(), v) == SetLock(old(Abs()), ino, req, wait)
      ensures Inv(Abs())
    {
      hide Apply, DropWoken, Inv, Deadlock, FileOk, Locking;
      SetKeeps(Abs(), ino, req, wait);
      SetIsLocking(Abs(), ino);
      var list := ListOf(files, ino);
      if req.kind != Unlock {
        var c := FindConflict(list, req);
        if c < |list| {
          if !wait {
            return Again;
          }
          var found := DeadlockTest(req.owner, list[c].owner);
          if found {
            return Deadlocked;
          }
          blocked := [Waiter(ino, req, list[c].id)] + blocked;
          return Asleep;
        }
      }
      ApplyRequest(ino, req);
      v := Granted;
    }

    /** A signal takes a sleeping request off its block list. */
    method Interrupted(o: Owner)
      requires Inv(Abs())
      modifies this
      ensures Abs() == Signal(old(Abs()), o) && Inv(Abs())
    {
      SignalKeeps(Abs(), o);
      var k := 0;
      while k < |blocked| && blocked[k].req.owner != o
        invariant k <= |blocked| && FindWaiter(blocked, o, k) == FindWaiter(blocked, o, 0)
      {
        k := k + 1;
      }
      if k < |blocked| {
        blocked := Remove(blocked, k);
      }
    }

    /** The loop of locks_remove_posix. */
    method RemoveRecords(ino: nat, list0: seq<Lock>, owner: nat) returns (list: seq<Lock>)
      modifies this`blocked
      ensures list == DropFiles(list0, owner) && blocked == DropWoken(old(blocked), ino, FilesIds(list0, owner))
    {
      hide *;
      var i := 0;
      list := list0;
      ghost var woken: set<nat> := {};
      DropNone(blocked, ino);
      assert list[..0] + DropFiles(list[0..], owner) == DropFiles(list0, owner) by {
        assert list[0..] == list0;
      }
      while i < |list|
        invariant i <= |list| && list[..i] + DropFiles(list[i..], owner) == DropFiles(list0, owner)
        invariant woken + FilesIds(list[i..], owner) == FilesIds(list0, owner)
        invariant blocked == DropWoken(old(blocked), ino, woken)
        decreases |list| - i
      {
        var fl, rest := list[i], list[i + 1..];
        FilesIdsUnfold(list[i..], owner);
        DropFilesUnfold(list[i..], owner);
        assert list[i..][1..] == rest;
        if fl.owner.files == owner {
          WakeBlocks(ino, fl.id);
          DropTwice(old(blocked), ino, woken, {fl.id});
          woken := woken + {fl.id};
          RemoveSlices(list, i);
          list := Remove(list, i);
        } else {
          assert list[..i] + ([fl] + DropFiles(rest, owner)) == list[..i + 1] + DropFiles(rest, owner);
          i := i + 1;
        }
      }
      NothingLeft(list, owner);
    }

    /** locks_remove_posix */
    method RemovePosix(ino: nat, owner: nat)
      requires Inv(Abs())
      modifies this
      ensures Abs() == Close(old(Abs()), ino, owner) && Inv(Abs())
    {
      hide DropFiles, FilesIds, DropWoken, Inv;
      CloseKeeps(Abs(), ino, owner);
      var list := RemoveRecords(ino, ListOf(files, ino), owner);
      files := files[ino := list];
    }
  }

  lemma RemoveSlices(list: seq<Lock>, i: nat)
    requires i < |list|
    ensures |Remove(list, i)| == |list| - 1
    ensures Remove(list, i)[..i] == list[..i] && Remove(list, i)[i..] == list[i + 1..]
  {
  }

  lemma NothingLeft(list: seq<Lock>, files: nat)
    ensures DropFiles(list[|list|..], files) == [] && FilesIds(list[|list|..], files) == {}
              && list[..|list|] + [] == list
  {
  }

  lemma DropFilesUnfold(list: seq<Lock>, files: nat)
    requires list != []
    ensures DropFiles(list, files)
            == if list[0].owner.files == files then DropFiles(list[1..], files)
                else [list[0]] + DropFiles(list[1..], files)
  {
  }

  lemma FilesIdsUnfold(list: seq<Lock>, files: nat)
    requires list != []
    ensures FilesIds(list, files)
            == FilesIds(list[1..], files) + (if list[0].owner.files == files then {list[0].id} else {})
  {
    forall x | x in FilesIds(list, files)
      ensures x in FilesIds(list[1..], files) || (list[0].owner.files == files && x == list[0].id)
    {
      var i :| 0 <= i < |list| && list[i].owner.files == files && list[i].id == x;
      assert i > 0 ==> list[1..][i - 1] == list[i];
    }
    forall x | x in FilesIds(list[1..], files)
      ensures x in FilesIds(list, files)
    {
      var i :| 0 <= i < |list[1..]| && list[1..][i].owner.files == files && list[1..][i].id == x;
      assert list[i + 1].id == x;
    }
  }

  lemma SetIsLocking(s: State, ino: nat)
    requires Inv(s)
    ensures Locking(ListOf(s.files, ino))
  {
    assert FileOk(ListOf(s.files, ino), s.nextId);
  }
}
