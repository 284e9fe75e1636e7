/** sys_semop, update_queue, SETVAL, SETALL and sem_exit as they run on one semaphore set. */
module SemSet {
  import opened Lists
  import opened SemOps
  import Sys = SemSystem
  import opened SemSystem
  import opened SemRemoval

  /** A struct sem_undo with its array of adjustments. */
  class UndoRec {
    const pid: nat
    const adj: array<int>

    constructor (pid: nat, n: nat)
      ensures this.pid == pid && fresh(adj) && adj[..] == Zeros(n)
    {
      this.pid := pid;
      adj := new int[n](i => 0);
      new;
      assert adj[..] == Zeros(n);
    }
  }

  class Set {
    const semval: array<int>
    /** Stands for the null undo pointer of a call that asks for no undo. */
    const noUndo: array<int>
    var undos: seq<UndoRec>
    var pending: seq<Sleeper>
    var finished: map<nat, int>
    var returned: map<nat, int>
    var calls: nat
    ghost var vals: Vals
    ghost var log: seq<Entry>
    ghost var asked: seq<Request>

    ghost function Repr(): set<object>
      reads this
    {
      {this, semval, noUndo} + set u | u in undos :: u.adj
    }

    ghost function Abs(): State
      reads this
    {
      State(vals, pending, finished, returned, log, calls, asked)
    }

    ghost predicate Linked()
      reads this, Repr()
    {
      LinkedTo(vals)
    }

    /** The arrays hold `v`, and are apart from each other. */
    ghost predicate LinkedTo(v: Vals)
      reads this, Repr()
    {
      && semval != noUndo && noUndo.Length == semval.Length && AllShort(noUndo[..])
      && v.sem == semval[..] && |v.undos| == |undos|
      && (forall i | 0 <= i < |undos| ::
            undos[i].adj.Length == semval.Length && undos[i].adj != semval && undos[i].adj != noUndo)
      && (forall i | 0 <= i < |undos| :: v.undos[i] == Undo(undos[i].pid, undos[i].adj[..]))
      && (forall i, j | 0 <= i < j < |undos| :: undos[i].adj != undos[j].adj)
    }

    ghost predicate Valid()
      reads this, Repr()
    {
      Linked() && Inv(semval.Length, Abs())
    }

    constructor (n: nat)
      ensures Valid() && fresh(Repr()) && semval.Length == n && Abs() == Fresh(n)
    {
      semval := new int[n](i => 0);
      noUndo := new int[n](i => 0);
      undos, pending, finished, returned, calls := [], [], map[], map[], 0;
      vals, log, asked := Vals(Zeros(n), []), [], [];
      new;
      assert semval[..] == Zeros(n);
      FreshInv(n);
    }

    /** The undo structure of a process, or the length of the list. */
    method FindUndoRec(pid: nat) returns (k: nat)
      requires Linked()
      ensures k == FindUndo(vals.undos, pid)
    {
      k := 0;
      assert vals.undos[0..] == vals.undos;
      while k < |undos| && undos[k].pid != pid
        invariant k <= |undos| && FindUndo(vals.undos, pid) == k + FindUndo(vals.undos[k..], pid)
      {
        assert vals.undos[k..][1..] == vals.undos[k + 1..];
        k := k + 1;
      }
    }

    /** try_atomic_semop on behalf of `pid`. */
    method Attempt(pid: nat, ops: seq<SemOp>, trial: bool) returns (a: int)
      requires Linked() && Fit(vals, semval.Length) && InRange(ops, semval.Length)
      modifies this`vals, semval, noUndo, set u | u in undos :: u.adj
      ensures Linked() && a == Answer(old(vals).sem, ops)
      ensures vals == if a == 0 && !trial then Operate(old(vals), pid, ops) else old(vals)
    {
      hide Answer, Values, Adjust, AllShort, InRange;
      var k := FindUndoRec(pid);
      var adj := if k < |undos| then undos[k].adj else noUndo;
      a := TryAtomicSemop(semval, adj, ops, trial);
      if a == 0 && !trial {
        vals := Operate(vals, pid, ops);
      }
      forall i | 0 <= i < |undos| && i != k
        ensures undos[i].adj[..] == old(undos[i].adj[..])
      {
        assert undos[i].adj != adj;
      }
    }

    /** One pending call of update_queue: is it the last one looked at, is it gone? */
    method Consider(k: nat) returns (stop: bool, gone: bool)
      requires Valid() && k < |pending|
      modifies Repr()
      ensures Valid() && undos == old(undos) && |pending| == |old(pending)| - (if gone then 1 else 0)
      ensures Sys.UpdateQueue(semval.Length, old(Abs()), k)
              == if stop then Abs() else Sys.UpdateQueue(semval.Length, Abs(), if gone then k else k + 1)
    {
      hide Inv, Operate, Answer, Alters, Decreases, InRange, Fit, AllShort;
      ghost var n, s := semval.Length, Abs();
      var q := pending[k];
      if q.status == Retry {
        return false, false;
      }
      QueueFits(n, s, k);
      var a := Attempt(q.pid, q.ops, Decreases(q.ops));
      if a == 1 {
        return false, false;
      }
      if a == 0 && Decreases(q.ops) {
        MarkKeeps(n, s, k, Retry);
        pending := pending[k := q.(status := Retry)];
        assert Abs() == Mark(s, k, Retry);
        return true, false;
      }
      FinishKeeps(n, s, k, a);
      pending := Without(pending, k);
      finished := finished[q.call := a];
      if a == 0 {
        log := log + [Done(q.call, q.pid, q.ops)];
      }
      assert Abs() == Finish(s, k, a);
      return false, true;
    }

    /** update_queue */
    method UpdateQueue()
      requires Valid()
      modifies Repr()
      ensures Valid() && undos == old(undos) && Abs() == Sys.UpdateQueue(semval.Length, old(Abs()), 0)
    {
      hide Inv;
      ghost var n, goal := semval.Length, Sys.UpdateQueue(semval.Length, Abs(), 0);
      var k := 0;
      while k < |pending|
        invariant Valid() && undos == old(undos) && k <= |pending|
        invariant Sys.UpdateQueue(n, Abs(), k) == goal
        decreases |pending| - k
      {
        var stop, gone := Consider(k);
        if stop {
          return;
        }
        if !gone {
          k := k + 1;
        }
      }
    }

    /** alloc_undo */
    method OpenUndo(pid: nat)
      requires Valid() && FindUndo(vals.undos, pid) == |vals.undos|
      modifies this
      ensures Valid() && fresh(Repr() - old(Repr())) && Abs() == Record(old(Abs()), Opened(pid))
    {
      hide Inv, AllShort, Fit;
      ValsFit(semval.Length, Abs());
      OtherKeeps(semval.Length, Abs(), Opened(pid));
      var u := new UndoRec(pid, semval.Length);
      undos := [u] + undos;
      vals, log := Open(vals, pid), log + [Opened(pid)];
    }

    /** sys_semop up to its return or its sleep. */
    method Semop(pid: nat, ops: seq<SemOp>)
      requires Valid()
      modifies Repr()
      ensures Valid() && fresh(Repr() - old(Repr())) && Abs() == Sys.Semop(semval.Length, old(Abs()), pid, ops)
    {
      hide Inv, Fit, AllShort;
      ghost var n := semval.Length;
      if ops == [] || !InRange(ops, semval.Length) {
        var a := if ops == [] then EINVAL else EFBIG;
        ValsFit(n, Abs());
        AnsweredKeeps(n, Abs(), pid, ops, a);
        returned, calls, asked := returned[calls := a], calls + 1, asked + [Request(pid, ops)];
        return;
      }
      var k := FindUndoRec(pid);
      if NeedsUndo(ops) && k == |undos| {
        OpenUndo(pid);
      }
      TryOrSleep(pid, ops);
    }

    /** The first attempt of sys_semop. */
    method TryOrSleep(pid: nat, ops: seq<SemOp>)
      requires Valid() && InRange(ops, semval.Length)
      modifies Repr()
      ensures Valid() && undos == old(undos) && Abs() == FirstAttempt(semval.Length, old(Abs()), pid, ops)
    {
      hide Inv, Operate, Answer, Alters, Decreases, InRange, Fit, AllShort;
      ghost var n, s := semval.Length, Abs();
      ValsFit(n, s);
      var a := Attempt(pid, ops, false);
      if a == 1 {
        SleptKeeps(n, s, pid, ops);
        var q := Sleeper(calls, pid, ops, Asleep);
        pending := if Alters(ops) then pending + [q] else [q] + pending;
        calls, asked := calls + 1, asked + [Request(pid, ops)];
      } else {
        AnsweredKeeps(n, s, pid, ops, a);
        if a == 0 {
          log := log + [Done(calls, pid, ops)];
        }
        returned, calls, asked := returned[calls := a], calls + 1, asked + [Request(pid, ops)];
        assert Abs() == Answered(s, pid, ops, a);
        if Alters(ops) {
          UpdateQueue();
        }
      }
    }

    /** The sleep loop of sys_semop after its task has been woken, for a call still on the list. */
    method Wake(k: nat)
      requires Valid() && k < |pending|
      modifies Repr()
      ensures Valid() && undos == old(undos) && Abs() == Sys.Wake(semval.Length, old(Abs()), k)
    {
      hide Inv, Operate, Answer, Alters, Decreases, InRange, Fit, AllShort;
      ghost var n, s := semval.Length, Abs();
      var q := pending[k];
      var a := EINTR;
      QueueFits(n, s, k);
      if q.status == Retry {
        a := Attempt(q.pid, q.ops, false);
      }
      if a == 1 {
        MarkKeeps(n, s, k, Asleep);
        pending := pending[k := q.(status := Asleep)];
        assert Abs() == Mark(s, k, Asleep);
      } else {
        ReturnKeeps(n, s, k, a);
        if a == 0 {
          log := log + [Done(q.call, q.pid, q.ops)];
        }
        pending := Without(pending, k);
        returned := returned[q.call := a];
        assert Abs() == Return(s, k, a);
        if Alters(q.ops) {
          UpdateQueue();
        }
      }
    }

    /** The task of a call that another task has finished returns. */
    method ReturnFinished(call: nat)
      requires Valid() && call in finished
      modifies this
      ensures Valid() && undos == old(undos) && Abs() == Collect(old(Abs()), call)
    {
      hide Inv, AllShort;
      CollectKeeps(semval.Length, Abs(), call);
      returned, finished := returned[call := finished[call]], finished - {call};
    }

    /** The loop of SETVAL over the undo structures. */
    method ClearAdjustments(num: nat)
      requires Linked() && num < semval.Length
      modifies set u | u in undos :: u.adj
      ensures forall i | 0 <= i < |undos| :: undos[i].adj[..] == vals.undos[i].adj[num := 0]
    {
      hide AllShort;
      var k := 0;
      while k < |undos|
        invariant k <= |undos|
        invariant forall i | 0 <= i < k :: undos[i].adj[..] == vals.undos[i].adj[num := 0]
        invariant forall i | k <= i < |undos| :: undos[i].adj[..] == vals.undos[i].adj
      {
        undos[k].adj[num] := 0;
        k := k + 1;
      }
    }

    /** SETVAL */
    method SetVal(num: nat, val: int)
      requires Valid()
      modifies Repr()
      ensures Valid() && undos == old(undos) && Abs() == Sys.SetVal(semval.Length, old(Abs()), num, val)
    {
      hide Inv, Fit, AllShort;
      ghost var n, s := semval.Length, Abs();
      if num >= semval.Length || val > SEMVMX || val < 0 {
        return;
      }
      ValsFit(n, s);
      OtherKeeps(n, s, SetOne(num, val));
      ClearAdjustments(num);
      semval[num] := val;
      vals, log := Vals(vals.sem[num := val], ClearOne(vals.undos, num)), log + [SetOne(num, val)];
      UpdateQueue();
    }

    /** The nested loops of SETALL over the undo structures. */
    method ClearEveryAdjustment()
      requires Linked()
      modifies set u | u in undos :: u.adj
      ensures forall i | 0 <= i < |undos| :: undos[i].adj[..] == Zeros(semval.Length)
    {
      hide AllShort;
      var k := 0;
      while k < |undos|
        invariant k <= |undos|
        invariant forall i | 0 <= i < k :: undos[i].adj[..] == Zeros(semval.Length)
      {
        var j := 0;
        while j < semval.Length
          invariant j <= semval.Length
          invariant forall i | 0 <= i < k :: undos[i].adj[..] == Zeros(semval.Length)
          invariant forall i | 0 <= i < j :: undos[k].adj[i] == 0
        {
          undos[k].adj[j] := 0;
          j := j + 1;
        }
        k := k + 1;
      }
    }

    /** The loop of SETALL over the semaphores. */
    method Store(values: seq<int>)
      requires |values| == semval.Length
      modifies semval
      ensures semval[..] == values
    {
      for i := 0 to semval.Length
        invariant forall j | 0 <= j < i :: semval[j] == values[j]
      {
        semval[i] := values[i];
      }
    }

    /** SETALL */
    method SetAll(values: seq<int>)
      requires Valid()
      modifies Repr()
      ensures Valid() && undos == old(undos) && Abs() == Sys.SetAll(semval.Length, old(Abs()), values)
    {
      hide Inv, Fit, AllShort;
      ghost var n, s := semval.Length, Abs();
      if |values| != semval.Length {
        return;
      }
      for i := 0 to |values|
        invariant forall j | 0 <= j < i :: 0 <= values[j] <= SEMVMX
      {
        if values[i] > SEMVMX || values[i] < 0 {
          return;
        }
      }
      ValsFit(n, s);
      OtherKeeps(n, s, SetEvery(values));
      ClearEveryAdjustment();
      Store(values);
      vals, log := Vals(values, ClearAll(vals.undos)), log + [SetEvery(values)];
      UpdateQueue();
    }

    /** freeary: every call on the pending list is to fail with EIDRM. */
    method FreeAry()
      requires Valid()
      modifies this
      ensures Linked() && undos == old(undos) && Abs() == Removed(old(Abs())) && Kept(semval.Length, Abs())
    {
      hide Inv, Kept;
      RemovedKept(semval.Length, Abs());
      var i := 0;
      assert pending[0..] == pending;
      while i < |pending|
        invariant i <= |pending| && pending == old(pending) && undos == old(undos) && vals == old(vals)
        invariant returned == old(returned) && log == old(log) && calls == old(calls) && asked == old(asked)
        invariant Expelled(finished, pending[i..]) == Expelled(old(finished), old(pending))
      {
        assert pending[i..][1..] == pending[i + 1..];
        finished := finished[pending[i].call := EIDRM];
        i := i + 1;
      }
      pending := [];
    }

    /** sem_exit */
    method Exit(pid: nat)
      requires Valid()
      modifies Repr()
      ensures Valid() && Abs() == Sys.Exit(semval.Length, old(Abs()), pid)
    {
      hide Inv, Fit, AllShort, InRange;
      var k := 0;
      assert pending[0..] == pending;
      while k < |pending| && pending[k].pid != pid
        invariant k <= |pending| && FindSleeper(pending, pid) == k + FindSleeper(pending[k..], pid)
      {
        assert pending[k..][1..] == pending[k + 1..];
        k := k + 1;
      }
      if k < |pending| {
        QueueFits(semval.Length, Abs(), k);
        ReturnKeeps(semval.Length, Abs(), k, GONE);
        returned := returned[pending[k].call := GONE];
        pending := Without(pending, k);
      }
      Pay(pid);
    }

    /** The adjustments of sem_exit. */
    method Pay(pid: nat)
      requires Valid()
      modifies Repr()
      ensures Valid()
      ensures if FindUndo(old(vals).undos, pid) == |old(vals).undos| then Abs() == old(Abs())
              else
                && Fit(old(vals), semval.Length)
                && Inv(semval.Length, Record(old(Abs()), Exited(pid)))
                && Abs() == Sys.UpdateQueue(semval.Length, Record(old(Abs()), Exited(pid)), 0)
    {
      hide Inv, Fit, AllShort;
      ghost var n, s := semval.Length, Abs();
      var k := FindUndoRec(pid);
      if k == |undos| {
        return;
      }
      ValsFit(n, s);
      OtherKeeps(n, s, Exited(pid));
      AddAdjustments(undos[k].adj);
      ghost var sem := semval[..];
      assert forall j | 0 <= j < |undos| :: s.vals.undos[j] == Undo(undos[j].pid, undos[j].adj[..]);
      DropUndo(k, sem);
      assert vals.sem == Leave(s.vals, pid).sem;
      log := log + [Exited(pid)];
      UpdateQueue();
    }

    /** sem_exit unlinks the undo structure. */
    method DropUndo(k: nat, ghost sem: seq<int>)
      requires k < |undos| && sem == semval[..] && |sem| == |vals.sem|
      requires LinkedTo(Vals(sem, vals.undos))
      modifies this`undos, this`vals
      ensures Linked() && undos == Without(old(undos), k)
      ensures vals == Vals(sem, Without(old(vals).undos, k))
    {
      hide AllShort;
      undos := Without(undos, k);
      vals := Vals(sem, Without(vals.undos, k));
      forall j | 0 <= j < |undos|
        ensures undos[j] == old(undos)[if j < k then j else j + 1]
                  && vals.undos[j] == old(vals).undos[if j < k then j else j + 1]
      {
      }
    }

    /** The loop of sem_exit over the semaphores. */
    method AddAdjustments(adj: array<int>)
      requires adj.Length == semval.Length && adj != semval
      modifies semval
      ensures forall j | 0 <= j < semval.Length :: semval[j] == ExitValue(old(semval[j]), adj[j])
    {
      var i := 0;
      while i < semval.Length
        invariant i <= semval.Length
        invariant forall j | 0 <= j < i :: semval[j] == ExitValue(old(semval[j]), adj[j])
        invariant forall j | i <= j < semval.Length :: semval[j] == old(semval[j])
      {
        semval[i] := semval[i] + adj[i];
        if semval[i] < 0 {
          semval[i] := 0;
        }
        i := i + 1;
      }
    }
  }

  lemma ValsFit(n: nat, s: State)
    requires Inv(n, s)
    ensures Fit(s.vals, n)
  {
  }

  lemma QueueFits(n: nat, s: State, k: nat)
    requires Inv(n, s) && k < |s.queue|
    ensures Fit(s.vals, n) && InRange(s.queue[k].ops, n)
  {
  }
}