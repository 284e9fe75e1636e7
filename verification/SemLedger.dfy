/** The values of a set and what its processes owe to it, read off the log like a ledger. */
module SemLedger {
  import opened Lists
  import opened SemOps
  import opened SemSystem
  import opened SemCalls

  /** The value of each semaphore, and what each process will give back to it. */
  datatype Table = Table(val: nat -> int, debt: (nat, nat) -> int)

  /** One entry of the log: a list adds its operations and books those with SEM_UNDO as owed, a
      set value cancels what is owed to it, and an exit pays, but not below zero. */
  function Book(t: Table, e: Entry): Table {
    match e
    case Done(_, pid, ops) =>
      Table((i: nat) => t.val(i) + Delta(ops, |ops|, i),
            (p: nat, i: nat) => if p == pid then Short(t.debt(p, i) - UndoDelta(ops, |ops|, i)) else t.debt(p, i))
    case Opened(_) => t
    case SetOne(num, val) =>
      Table((i: nat) => if i == num then val else t.val(i), (p: nat, i: nat) => if i == num then 0 else t.debt(p, i))
    case SetEvery(vals) => Table((i: nat) => if i < |vals| then vals[i] else 0, (p: nat, i: nat) => 0)
    case Exited(pid) =>
      Table((i: nat) => Max(0, t.val(i) + t.debt(pid, i)), (p: nat, i: nat) => if p == pid then 0 else t.debt(p, i))
  }

  function Replay(log: seq<Entry>): Table {
    if log == [] then Table((i: nat) => 0, (p: nat, i: nat) => 0)
    else Book(Replay(log[..|log| - 1]), log[|log| - 1])
  }

  ghost predicate Agrees(n: nat, t: Table, v: Vals) {
    && |v.sem| == n && Fit(v, n) && OneUndoEach(v.undos)
    && (forall i: nat | i < n :: v.sem[i] == t.val(i))
    && (forall p: nat, i: nat | i < n :: Owes(v, p, i) == t.debt(p, i))
  }

  predicate HasUndo(v: Vals, pid: nat) {
    exists u | u in v.undos :: u.pid == pid
  }

  /** Operations with SEM_UNDO have where to book them. */
  predicate Backed(v: Vals, pid: nat, ops: seq<SemOp>) {
    NeedsUndo(ops) ==> HasUndo(v, pid)
  }

  ghost predicate Ledger(n: nat, s: State) {
    && Agrees(n, Replay(s.log), s.vals)
    && (forall q | q in s.queue :: Backed(s.vals, q.pid, q.ops))
    && (forall i, j | 0 <= i < j < |s.queue| :: s.queue[i].pid != s.queue[j].pid)
  }

  // ---- an entry ----

  lemma BookAgrees(n: nat, t: Table, v: Vals, e: Entry)
    requires Agrees(n, t, v) && NonNegative(v.sem) && Possible(v, e) && (e.Done? ==> Backed(v, e.pid, e.ops))
    ensures Agrees(n, Book(t, e), Change(v, e))
  {
    hide Change, Owes, OneUndoEach, Possible, NeedsUndo, Short, Delta, UndoDelta, AllShort;
    var v', t' := Change(v, e), Book(t, e);
    forall i: nat | i < n
      ensures v'.sem[i] == t'.val(i)
    {
      ChangeRefines(v, e, 0, i);
      BookIs(t, v, e, 0, i);
    }
    forall p: nat, i: nat | i < n
      ensures Owes(v', p, i) == t'.debt(p, i)
    {
      ChangeRefines(v, e, p, i);
      BookIs(t, v, e, p, i);
    }
    if n == 0 {
      NoneSame(v, e);
    } else {
      ChangeRefines(v, e, 0, 0);
    }
  }

  /** The ledger books an entry as the tables of ChangeRefines do. */
  lemma BookIs(t: Table, v: Vals, e: Entry, p: nat, i: nat)
    requires Fit(v, |v.sem|) && Possible(v, e) && i < |v.sem|
    requires v.sem[i] == t.val(i) && forall q: nat :: Owes(v, q, i) == t.debt(q, i)
    ensures NewValue(v, e, i) == Book(t, e).val(i) && NewDebt(v, e, p, i) == Book(t, e).debt(p, i)
  {
    hide Owes, Short, Delta, UndoDelta, AllShort, AllLegal, InRange;
  }

  /** A set without semaphores. */
  lemma NoneSame(v: Vals, e: Entry)
    requires |v.sem| == 0 && Fit(v, 0) && OneUndoEach(v.undos) && Possible(v, e)
    ensures OneUndoEach(Change(v, e).undos)
  {
    hide AllShort, Values, Adjust;
  }

  /** No entry but an exit takes an undo structure away. */
  lemma ChangeUndo(v: Vals, e: Entry, pid: nat)
    requires Fit(v, |v.sem|) && Possible(v, e) && HasUndo(v, pid) && e != Exited(pid)
    ensures HasUndo(Change(v, e), pid)
  {
    hide AllShort, Values, Adjust, AllLegal;
    var i :| 0 <= i < |v.undos| && v.undos[i].pid == pid;
    var v' := Change(v, e);
    match e
    case Done(_, _, _) => assert v'.undos[i].pid == pid;
    case Opened(p) =>
      var j := if FindUndo(v.undos, p) < |v.undos| then i else i + 1;
      assert v'.undos[j].pid == pid;
    case SetOne(_, _) => assert v'.undos[i].pid == pid;
    case SetEvery(_) => assert v'.undos[i].pid == pid;
    case Exited(p) =>
      var k := FindUndo(v.undos, p);
      var j := if i < k then i else i - 1;
      if k < |v.undos| {
        assert v'.undos[j] == v.undos[i];
      }
  }

  lemma ReplayNext(log: seq<Entry>, e: Entry)
    ensures Replay(log + [e]) == Book(Replay(log), e)
  {
    assert (log + [e])[..|log|] == log;
  }

  /** An entry for a call, or any entry but the exit of somebody on the list. */
  lemma RecordLedger(n: nat, s: State, e: Entry)
    requires Ledger(n, s) && NonNegative(s.vals.sem) && Possible(s.vals, e)
    requires e.Done? ==> Backed(s.vals, e.pid, e.ops)
    requires e.Exited? ==> forall q | q in s.queue :: q.pid != e.pid
    ensures Ledger(n, Record(s, e))
  {
    hide Agrees, Replay, Change, HasUndo, NeedsUndo, Possible;
    AgreesFit(n, Replay(s.log), s.vals);
    BookAgrees(n, Replay(s.log), s.vals, e);
    ReplayNext(s.log, e);
    forall q | q in s.queue
      ensures Backed(Record(s, e).vals, q.pid, q.ops)
    {
      if HasUndo(s.vals, q.pid) {
        ChangeUndo(s.vals, e, q.pid);
      }
    }
  }

  lemma AgreesFit(n: nat, t: Table, v: Vals)
    requires Agrees(n, t, v)
    ensures |v.sem| == n && Fit(v, n)
  {
  }

  // ---- the steps ----

  /** The list loses or keeps sleepers, of which only the status changes. */
  lemma QueueLedger(n: nat, s: State, s': State, k: nat)
    requires Ledger(n, s) && s'.log == s.log && s'.vals == s.vals && k < |s.queue|
    requires s'.queue == Without(s.queue, k)
             || (|s'.queue| == |s.queue| && forall i | 0 <= i < |s.queue| ::
                   s'.queue[i].pid == s.queue[i].pid && s'.queue[i].ops == s.queue[i].ops)
    ensures Ledger(n, s')
  {
    hide Agrees, Replay, HasUndo, NeedsUndo;
    if s'.queue == Without(s.queue, k) {
      assert forall i | 0 <= i < |s'.queue| :: s'.queue[i] == s.queue[if i < k then i else i + 1];
    }
    forall q | q in s'.queue
      ensures Backed(s'.vals, q.pid, q.ops)
    {
      var i :| 0 <= i < |s'.queue| && s'.queue[i] == q;
      assert s.queue[if s'.queue == Without(s.queue, k) && i >= k then i + 1 else i] in s.queue;
    }
  }

  lemma InvValues(n: nat, s: State)
    requires Inv(n, s)
    ensures Fit(s.vals, n) && |s.vals.sem| == n && NonNegative(s.vals.sem)
    ensures forall i | 0 <= i < |s.queue| :: InRange(s.queue[i].ops, n)
  {
  }

  /** A call is taken off the list with its effect, or with none. */
  lemma TakeLedger(n: nat, s: State, k: nat, a: int, s1: State)
    requires Inv(n, s) && Ledger(n, s) && k < |s.queue| && (a == 0 ==> AllLegal(s.vals.sem, s.queue[k].ops))
    requires Fit(s.vals, |s.vals.sem|) && InRange(s.queue[k].ops, |s.vals.sem|)
    requires s1.queue == Without(s.queue, k)
    requires var e := Effect(s, s.queue[k].call, s.queue[k].pid, s.queue[k].ops, a);
             s1.log == e.log && s1.vals == e.vals
    ensures Ledger(n, s1)
  {
    hide Inv, Ledger, AllLegal, Change;
    InvValues(n, s);
    var q := s.queue[k];
    var e := Effect(s, q.call, q.pid, q.ops, a);
    if a == 0 {
      QueueBacked(n, s, k);
      RecordLedger(n, s, Done(q.call, q.pid, q.ops));
    }
    QueueLedger(n, e, s1, k);
  }

  lemma QueueBacked(n: nat, s: State, k: nat)
    requires Ledger(n, s) && k < |s.queue|
    ensures Backed(s.vals, s.queue[k].pid, s.queue[k].ops)
  {
  }

  lemma {:induction false} PassLedger(n: nat, s: State, k: nat)
    requires Inv(n, s) && Ledger(n, s) && k <= |s.queue|
    ensures Ledger(n, UpdateQueue(n, s, k))
    decreases |s.queue| - k
  {
    hide Inv, Ledger, Answer, Decreases, Change, AllLegal;
    if k < |s.queue| {
      InvValues(n, s);
      var q := s.queue[k];
      var a := Answer(s.vals.sem, q.ops);
      if q.status == Retry || a == 1 {
        PassLedger(n, s, k + 1);
      } else if a == 0 && Decreases(q.ops) {
        QueueLedger(n, s, Mark(s, k, Retry), k);
      } else {
        ZeroLegal(s.vals.sem, q.ops);
        FinishKeeps(n, s, k, a);
        TakeLedger(n, s, k, a, Finish(s, k, a));
        PassLedger(n, Finish(s, k, a), k);
      }
    }
  }

  lemma ZeroLegal(sem: seq<int>, ops: seq<SemOp>)
    requires InRange(ops, |sem|)
    ensures Answer(sem, ops) == 0 <==> AllLegal(sem, ops)
    ensures Answer(sem, ops) != EIDRM
  {
  }

  /** A process that is not on the list opens its undo structure, if it needs one, and tries. */
  lemma AttemptLedger(n: nat, s: State, pid: nat, ops: seq<SemOp>)
    requires Inv(n, s) && Ledger(n, s) && InRange(ops, n) && Backed(s.vals, pid, ops)
    requires forall q | q in s.queue :: q.pid != pid
    ensures Ledger(n, FirstAttempt(n, s, pid, ops))
  {
    hide Inv, Ledger, Answer, Alters, Change, AllLegal, UpdateQueue, Backed;
    InvValues(n, s);
    ZeroLegal(s.vals.sem, ops);
    var a := Answer(s.vals.sem, ops);
    if a == 1 {
      SleptLedger(n, s, pid, ops);
    } else {
      AnsweredKeeps(n, s, pid, ops, a);
      var s1 := Answered(s, pid, ops, a);
      if a == 0 {
        RecordLedger(n, s, Done(s.calls, pid, ops));
        SameLedger(n, Record(s, Done(s.calls, pid, ops)), s1);
      } else {
        SameLedger(n, s, s1);
      }
      PassLedger(n, s1, 0);
    }
  }

  lemma SameLedger(n: nat, s: State, s': State)
    requires Ledger(n, s) && s'.log == s.log && s'.vals == s.vals && s'.queue == s.queue
    ensures Ledger(n, s')
  {
    hide Agrees, Replay;
  }

  lemma SleptLedger(n: nat, s: State, pid: nat, ops: seq<SemOp>)
    requires Ledger(n, s) && Backed(s.vals, pid, ops) && forall q | q in s.queue :: q.pid != pid
    ensures Ledger(n, Slept(s, pid, ops))
  {
    hide Agrees, Replay, Backed, Alters;
  }

  lemma SemopLedger(n: nat, s: State, pid: nat, ops: seq<SemOp>)
    requires Inv(n, s) && Ledger(n, s) && forall q | q in s.queue :: q.pid != pid
    ensures Ledger(n, Semop(n, s, pid, ops))
  {
    hide Inv, Ledger, FirstAttempt, Change, UpdateQueue, NeedsUndo;
    InvValues(n, s);
    if ops == [] || !InRange(ops, n) {
      SameLedger(n, s, Semop(n, s, pid, ops));
    } else {
      var opens := NeedsUndo(ops) && FindUndo(s.vals.undos, pid) == |s.vals.undos|;
      if opens {
        OtherKeeps(n, s, Opened(pid));
        RecordLedger(n, s, Opened(pid));
      }
      OpenBacks(s.vals, pid, ops);
      AttemptLedger(n, if opens then Record(s, Opened(pid)) else s, pid, ops);
    }
  }

  lemma OpenBacks(v: Vals, pid: nat, ops: seq<SemOp>)
    requires Fit(v, |v.sem|)
    ensures FindUndo(v.undos, pid) == |v.undos| ==> HasUndo(Change(v, Opened(pid)), pid)
    ensures FindUndo(v.undos, pid) < |v.undos| ==> HasUndo(v, pid)
  {
    hide AllShort;
    if FindUndo(v.undos, pid) == |v.undos| {
      assert Change(v, Opened(pid)).undos[0].pid == pid;
    } else {
      assert v.undos[FindUndo(v.undos, pid)] in v.undos;
    }
  }

  lemma WakeLedger(n: nat, s: State, k: nat)
    requires Inv(n, s) && Ledger(n, s) && k < |s.queue|
    ensures Ledger(n, Wake(n, s, k))
  {
    hide Inv, Ledger, Answer, Alters, Change, AllLegal, UpdateQueue;
    InvValues(n, s);
    var q := s.queue[k];
    ZeroLegal(s.vals.sem, q.ops);
    var a := if q.status == Retry then Answer(s.vals.sem, q.ops) else EINTR;
    if a == 1 {
      QueueLedger(n, s, Mark(s, k, Asleep), k);
    } else {
      ReturnKeeps(n, s, k, a);
      TakeLedger(n, s, k, a, Return(s, k, a));
      PassLedger(n, Return(s, k, a), 0);
    }
  }

  lemma ExitLedger(n: nat, s: State, pid: nat)
    requires Inv(n, s) && Ledger(n, s)
    ensures Ledger(n, Exit(n, s, pid))
  {
    hide Inv, Ledger, Change, AllLegal, UpdateQueue;
    InvValues(n, s);
    var k := FindSleeper(s.queue, pid);
    if k < |s.queue| {
      ReturnKeeps(n, s, k, GONE);
      TakeLedger(n, s, k, GONE, Return(s, k, GONE));
    }
    var s0 := if k < |s.queue| then Return(s, k, GONE) else s;
    if FindUndo(s0.vals.undos, pid) < |s0.vals.undos| {
      InvValues(n, s0);
      OtherKeeps(n, s0, Exited(pid));
      NoSleeper(n, s, pid);
      RecordLedger(n, s0, Exited(pid));
      PassLedger(n, Record(s0, Exited(pid)), 0);
    }
  }

  lemma NoSleeper(n: nat, s: State, pid: nat)
    requires Ledger(n, s)
    ensures var k := FindSleeper(s.queue, pid);
            forall q | q in (if k < |s.queue| then Without(s.queue, k) else s.queue) :: q.pid != pid
  {
    hide Agrees, Backed;
    var k := FindSleeper(s.queue, pid);
    if k < |s.queue| {
      forall i | 0 <= i < |Without(s.queue, k)|
        ensures Without(s.queue, k)[i].pid != pid
      {
        assert Without(s.queue, k)[i] == s.queue[if i < k then i else i + 1];
      }
    }
  }

  lemma SetLedger(n: nat, s: State, e: Entry)
    requires Inv(n, s) && Ledger(n, s) && Fit(s.vals, |s.vals.sem|) && Possible(s.vals, e) && (e.SetOne? || e.SetEvery?)
    ensures Inv(n, Record(s, e)) && Ledger(n, UpdateQueue(n, Record(s, e), 0))
  {
    hide Inv, Ledger, Change, UpdateQueue, Possible;
    InvValues(n, s);
    OtherKeeps(n, s, e);
    RecordLedger(n, s, e);
    PassLedger(n, Record(s, e), 0);
  }

  /** A process makes a call only while it is not asleep in another. */
  ghost predicate Awake(s: State, e: Event) {
    e.CallSemop? ==> forall q | q in s.queue :: q.pid != e.pid
  }

  lemma StepLedger(n: nat, s: State, e: Event)
    requires Inv(n, s) && Ledger(n, s) && Awake(s, e)
    ensures Ledger(n, Do(n, s, e))
  {
    hide Inv, Ledger, Change, UpdateQueue, Semop, Wake, Exit;
    InvValues(n, s);
    match e
    case CallSemop(pid, ops) => SemopLedger(n, s, pid, ops);
    case Runs(k) => if k < |s.queue| { WakeLedger(n, s, k); }
    case Collects(call) => if call in s.finished { SameLedger(n, s, Collect(s, call)); }
    case CallSetVal(num, val) => if num < n && 0 <= val <= SEMVMX { SetLedger(n, s, SetOne(num, val)); }
    case CallSetAll(vals) =>
      if |vals| == n && (forall i | 0 <= i < n :: 0 <= vals[i] <= SEMVMX) { SetLedger(n, s, SetEvery(vals)); }
    case Exits(pid) => ExitLedger(n, s, pid);
  }

  // ---- runs ----

  ghost predicate OneCallEach(n: nat, s: State, events: seq<Event>)
    requires Inv(n, s)
    decreases |events|
  {
    events == [] || (Awake(s, events[0]) && OneCallEach(n, Do(n, s, events[0]), events[1..]))
  }

  lemma {:induction false} ExecLedger(n: nat, s: State, events: seq<Event>)
    requires Inv(n, s) && Ledger(n, s) && OneCallEach(n, s, events)
    ensures Ledger(n, Exec(n, s, events))
    decreases |events|
  {
    hide Inv, Ledger, Do, Awake;
    if events != [] {
      StepLedger(n, s, events[0]);
      ExecLedger(n, Do(n, s, events[0]), events[1..]);
    }
  }

  /** Over every run in which a process makes one call at a time, each value and what each process
      owes to it are what the log says, read as a ledger. */
  lemma RunLedger(n: nat, events: seq<Event>, p: nat, i: nat)
    requires Inv(n, Fresh(n)) && OneCallEach(n, Fresh(n), events) && i < n
    ensures var s := Exec(n, Fresh(n), events);
            && |s.vals.sem| == n && Fit(s.vals, n)
            && s.vals.sem[i] == Replay(s.log).val(i) && Owes(s.vals, p, i) == Replay(s.log).debt(p, i)
  {
    hide Inv, Exec, OneCallEach;
    assert Ledger(n, Fresh(n));
    ExecLedger(n, Fresh(n), events);
  }
}
