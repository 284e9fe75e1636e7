/** A semaphore set shared by many tasks: pending operations, the hand-off of update_queue,
    SETVAL and SETALL, and the undo at exit. The lock of the set makes each step atomic. */
module SemSystem {
  import opened Lists
  import opened SemOps

  const EINTR: int := -4
  const EFBIG: int := -27
  const EINVAL: int := -22
  const EIDRM: int := -36
  /** Not a return value: the task died in its sleep. */
  const GONE: int := -4096

  /** A struct sem_undo: what a process must give back to the set when it exits. */
  datatype Undo = Undo(pid: nat, adj: seq<int>)

  /** The values of the set and its list of undo structures. */
  datatype Vals = Vals(sem: seq<int>, undos: seq<Undo>)

  datatype Status = Asleep | Retry

  /** A struct sem_queue on the pending list. `call` numbers the calls of sys_semop. */
  datatype Sleeper = Sleeper(call: nat, pid: nat, ops: seq<SemOp>, status: Status)

  /** What has happened to the values, in order. */
  datatype Entry =
    | Done(call: nat, pid: nat, ops: seq<SemOp>)
    | Opened(pid: nat)
    | SetOne(num: nat, val: int)
    | SetEvery(vals: seq<int>)
    | Exited(pid: nat)

  /** What a call of sys_semop asked for. */
  datatype Request = Request(pid: nat, ops: seq<SemOp>)

  /** `finished` holds the calls taken off the pending list by others, with the status they
      will return, and `returned` the calls that are over. `asked` are the requests of all calls,
      by their number. */
  datatype State = State(vals: Vals, queue: seq<Sleeper>, finished: map<nat, int>, returned: map<nat, int>,
                         log: seq<Entry>, calls: nat, asked: seq<Request>)

  // ---- changes of the values ----

  predicate NeedsUndo(ops: seq<SemOp>) {
    exists i | 0 <= i < |ops| :: ops[i].undo
  }

  predicate Decreases(ops: seq<SemOp>) {
    exists i | 0 <= i < |ops| :: ops[i].op < 0
  }

  predicate Alters(ops: seq<SemOp>) {
    exists i | 0 <= i < |ops| :: ops[i].op != 0
  }

  function FindUndo(undos: seq<Undo>, pid: nat): (r: nat)
    ensures r <= |undos|
    ensures forall i | 0 <= i < r :: undos[i].pid != pid
    ensures r < |undos| ==> undos[r].pid == pid
  {
    if undos == [] || undos[0].pid == pid then 0
    else FindUndo(undos[1..], pid) + 1
  }

  function Zeros(n: nat): (r: seq<int>)
    ensures |r| == n && forall i | 0 <= i < n :: r[i] == 0
  {
    seq(n, i => 0)
  }

  /** The set has `n` semaphores and every undo structure fits it. */
  ghost predicate Fit(v: Vals, n: nat) {
    |v.sem| == n && forall i | 0 <= i < |v.undos| :: |v.undos[i].adj| == n && AllShort(v.undos[i].adj)
  }

  /** alloc_undo, when the process has no undo structure yet */
  function Open(v: Vals, pid: nat): Vals {
    if FindUndo(v.undos, pid) < |v.undos| then v
    else v.(undos := [Undo(pid, Zeros(|v.sem|))] + v.undos)
  }

  /** A list of operations takes effect. */
  function Operate(v: Vals, pid: nat, ops: seq<SemOp>): Vals
    requires Fit(v, |v.sem|) && InRange(ops, |v.sem|)
  {
    var k := FindUndo(v.undos, pid);
    Vals(Values(v.sem, ops, |ops|),
         if k < |v.undos| then v.undos[k := Undo(pid, Adjust(v.undos[k].adj, ops, |ops|))] else v.undos)
  }

  function ClearOne(undos: seq<Undo>, num: nat): seq<Undo>
    requires forall i | 0 <= i < |undos| :: num < |undos[i].adj|
  {
    seq(|undos|, i requires 0 <= i < |undos| => undos[i].(adj := undos[i].adj[num := 0]))
  }

  function ClearAll(undos: seq<Undo>): seq<Undo> {
    seq(|undos|, i requires 0 <= i < |undos| => undos[i].(adj := Zeros(|undos[i].adj|)))
  }

  function ExitValue(x: int, adj: int): int {
    if x + adj < 0 then 0 else x + adj
  }

  /** sem_exit */
  function Leave(v: Vals, pid: nat): Vals
    requires Fit(v, |v.sem|)
  {
    var k := FindUndo(v.undos, pid);
    if k == |v.undos| then v
    else Vals(seq(|v.sem|, i requires 0 <= i < |v.sem| => ExitValue(v.sem[i], v.undos[k].adj[i])),
        v.undos[..k] + v.undos[k + 1..])
  }

  /** An entry that can happen on these values. An operation must be legal to the last prefix. */
  ghost predicate Possible(v: Vals, e: Entry)
    requires Fit(v, |v.sem|)
  {
    match e
    case Done(_, _, ops) => InRange(ops, |v.sem|) && AllLegal(v.sem, ops)
    case Opened(_) => true
    case SetOne(num, val) => num < |v.sem| && 0 <= val <= SEMVMX
    case SetEvery(vals) => |vals| == |v.sem| && forall i | 0 <= i < |vals| :: 0 <= vals[i] <= SEMVMX
    case Exited(_) => true
  }

  ghost function Change(v: Vals, e: Entry): (v': Vals)
    requires Fit(v, |v.sem|) && Possible(v, e)
    ensures Fit(v', |v.sem|)
  {
    match e
    case Done(_, pid, ops) => Operate(v, pid, ops)
    case Opened(pid) => Open(v, pid)
    case SetOne(num, val) => Vals(v.sem[num := val], ClearOne(v.undos, num))
    case SetEvery(vals) => Vals(vals, ClearAll(v.undos))
    case Exited(pid) => Leave(v, pid)
  }

  /** `v` is what applying the log one entry after another makes of `n` fresh semaphores. */
  ghost predicate Serial(n: nat, log: seq<Entry>, v: Vals)
    decreases |log|
  {
    if log == [] then v == Vals(Zeros(n), [])
    else
      exists u :: Serial(n, log[..|log| - 1], u) && Fit(u, |u.sem|) && |u.sem| == n
                  && Possible(u, log[|log| - 1]) && v == Change(u, log[|log| - 1])
  }

  // ---- the invariant ----

  function Count(log: seq<Entry>, call: nat): nat {
    if log == [] then 0
    else Count(log[..|log| - 1], call) + (if log[|log| - 1].Done? && log[|log| - 1].call == call then 1 else 0)
  }

  predicate Queued(queue: seq<Sleeper>, call: nat) {
    exists i | 0 <= i < |queue| :: queue[i].call == call
  }

  /** The call went through, whether or not its task has run since. */
  predicate Succeeded(s: State, call: nat) {
    (call in s.finished && s.finished[call] == 0) || (call in s.returned && s.returned[call] == 0)
  }

  ghost predicate NonNegative(sem: seq<int>) {
    forall i | 0 <= i < |sem| :: sem[i] >= 0
  }

  ghost predicate ValuesOk(n: nat, s: State) {
    && Fit(s.vals, n)
    && Serial(n, s.log, s.vals)
    && NonNegative(s.vals.sem)
    && (forall i | 0 <= i < |s.queue| :: InRange(s.queue[i].ops, n))
  }

  /** Every call is asleep, finished by another task, or over, and in one of these places only. */
  ghost predicate CallsOk(s: State) {
    && (forall i, j | 0 <= i < j < |s.queue| :: s.queue[i].call != s.queue[j].call)
    && (forall c: nat :: c < s.calls <==> Queued(s.queue, c) || c in s.finished || c in s.returned)
    && (forall c :: !(c in s.finished && c in s.returned))
    && (forall i | 0 <= i < |s.queue| :: s.queue[i].call !in s.finished && s.queue[i].call !in s.returned)
  }

  /** A call that went through is in the log once, any other call is not in it. */
  ghost predicate OnceOk(s: State) {
    forall c: nat :: Count(s.log, c) == if Succeeded(s, c) then 1 else 0
  }

  /** What is on the pending list and in the log is what the calls asked for. */
  ghost predicate AskedOk(s: State) {
    && |s.asked| == s.calls
    && (forall i | 0 <= i < |s.queue| :: s.queue[i].call < s.calls
          && s.asked[s.queue[i].call] == Request(s.queue[i].pid, s.queue[i].ops))
    && (forall i | 0 <= i < |s.log| && s.log[i].Done? :: s.log[i].call < s.calls
          && s.asked[s.log[i].call] == Request(s.log[i].pid, s.log[i].ops))
  }

  /** freeary has not been here. */
  ghost predicate NotRemoved(s: State) {
    forall c | c in s.finished :: s.finished[c] != EIDRM
  }

  /** What holds of a set even after it is removed. */
  ghost predicate Kept(n: nat, s: State) {
    ValuesOk(n, s) && CallsOk(s) && OnceOk(s) && AskedOk(s)
  }

  ghost predicate Inv(n: nat, s: State) {
    Kept(n, s) && NotRemoved(s)
  }

  // ---- steps ----

  /** The values change and the log says so. */
  ghost function Record(s: State, e: Entry): State
    requires Fit(s.vals, |s.vals.sem|) && Possible(s.vals, e)
  {
    s.(vals := Change(s.vals, e), log := s.log + [e])
  }

  /** The operations of call `c` take effect when `answer` is 0. */
  ghost function Effect(s: State, c: nat, pid: nat, ops: seq<SemOp>, answer: int): State
    requires Fit(s.vals, |s.vals.sem|) && InRange(ops, |s.vals.sem|) && (answer == 0 ==> AllLegal(s.vals.sem, ops))
  {
    if answer == 0 then Record(s, Done(c, pid, ops)) else s
  }

  /** The pending call at `k` is finished by another task. */
  ghost function Finish(s: State, k: nat, answer: int): State
    requires k < |s.queue| && Fit(s.vals, |s.vals.sem|) && InRange(s.queue[k].ops, |s.vals.sem|)
    requires answer == 0 ==> AllLegal(s.vals.sem, s.queue[k].ops)
  {
    var q := s.queue[k];
    Effect(s, q.call, q.pid, q.ops, answer).(queue := Without(s.queue, k), finished := s.finished[q.call := answer])
  }

  /** The pending call at `k` returns by itself. */
  ghost function Return(s: State, k: nat, answer: int): State
    requires k < |s.queue| && Fit(s.vals, |s.vals.sem|) && InRange(s.queue[k].ops, |s.vals.sem|)
    requires answer == 0 ==> AllLegal(s.vals.sem, s.queue[k].ops)
  {
    var q := s.queue[k];
    Effect(s, q.call, q.pid, q.ops, answer).(queue := Without(s.queue, k), returned := s.returned[q.call := answer])
  }

  function Mark(s: State, k: nat, status: Status): State
    requires k < |s.queue|
  {
    s.(queue := s.queue[k := s.queue[k].(status := status)])
  }

  /** update_queue from position `k` on. A sleeper that decreases a semaphore is only tried
      and left to run itself, any other one is completed here. */
  ghost function UpdateQueue(n: nat, s: State, k: nat): (s': State)
    requires Inv(n, s) && k <= |s.queue|
    ensures Inv(n, s')
    decreases |s.queue| - k
  {
    if k == |s.queue| then s
    else
      var q := s.queue[k];
      if q.status == Retry then UpdateQueue(n, s, k + 1)
      else
        var a := Answer(s.vals.sem, q.ops);
        if a == 1 then UpdateQueue(n, s, k + 1)
        else if a == 0 && Decreases(q.ops) then
          MarkKeeps(n, s, k, Retry);
          Mark(s, k, Retry)
        else
          FinishKeeps(n, s, k, a);
          UpdateQueue(n, Finish(s, k, a), k)
  }

  // ---- what the steps keep ----

  lemma SerialMore(n: nat, log: seq<Entry>, v: Vals, e: Entry)
    requires Serial(n, log, v) && Fit(v, n) && Possible(v, e)
    ensures Serial(n, log + [e], Change(v, e))
  {
    assert (log + [e])[..|log|] == log;
  }

  lemma ChangeNonNegative(v: Vals, e: Entry)
    requires Fit(v, |v.sem|) && Possible(v, e) && NonNegative(v.sem)
    ensures NonNegative(Change(v, e).sem)
  {
    if e.Done? {
      forall i | 0 <= i < |v.sem|
        ensures Values(v.sem, e.ops, |e.ops|)[i] >= 0
      {
        ValuesBounded(v.sem, e.ops, |e.ops|, i);
      }
    }
  }

  lemma RecordKeeps(n: nat, s: State, e: Entry)
    requires ValuesOk(n, s) && Possible(s.vals, e)
    ensures ValuesOk(n, Record(s, e))
    ensures forall c: nat :: Count(Record(s, e).log, c) == Count(s.log, c) + if e.Done? && e.call == c then 1 else 0
  {
    SerialMore(n, s.log, s.vals, e);
    ChangeNonNegative(s.vals, e);
    assert (s.log + [e])[..|s.log|] == s.log;
  }

  /** A change of the values that is no call of sys_semop. */
  lemma OtherKeeps(n: nat, s: State, e: Entry)
    requires Inv(n, s) && Possible(s.vals, e) && !e.Done?
    ensures Inv(n, Record(s, e))
  {
    hide CallsOk, Serial, Count;
    RecordKeeps(n, s, e);
    SameCallsOk(s, Record(s, e));
  }

  lemma SameCallsOk(s: State, s': State)
    requires CallsOk(s) && s'.queue == s.queue && s'.finished == s.finished
    requires s'.returned == s.returned && s'.calls == s.calls
    ensures CallsOk(s')
  {}

  lemma MarkKeeps(n: nat, s: State, k: nat, status: Status)
    requires Inv(n, s) && k < |s.queue|
    ensures Inv(n, Mark(s, k, status))
  {
    hide Serial, Count;
    var s' := Mark(s, k, status);
    forall c
      ensures Queued(s'.queue, c) <==> Queued(s.queue, c)
    {
      SameCalls(s.queue, s'.queue, c);
      SameCalls(s'.queue, s.queue, c);
    }
  }

  lemma SameCalls(a: seq<Sleeper>, b: seq<Sleeper>, c: nat)
    requires |a| == |b| && forall i | 0 <= i < |a| :: a[i].call == b[i].call
    ensures Queued(a, c) ==> Queued(b, c)
  {
    if Queued(a, c) {
      var i :| 0 <= i < |a| && a[i].call == c;
      assert b[i].call == c;
    }
  }

  lemma WithoutCalls(q: seq<Sleeper>, k: nat, c: nat)
    requires k < |q| && forall i, j | 0 <= i < j < |q| :: q[i].call != q[j].call
    ensures Queued(Without(q, k), c) <==> Queued(q, c) && c != q[k].call
  {
    var q' := Without(q, k);
    if Queued(q, c) && c != q[k].call {
      var i :| 0 <= i < |q| && q[i].call == c;
      assert q'[if i < k then i else i - 1].call == c;
    }
    if Queued(q', c) {
      var i :| 0 <= i < |q'| && q'[i].call == c;
      assert q[if i < k then i else i + 1].call == c;
    }
  }

  /** Its operations go to the log as they were asked for. */
  lemma TakeAsked(n: nat, s: State, k: nat, answer: int)
    requires Inv(n, s) && k < |s.queue| && (answer == 0 ==> AllLegal(s.vals.sem, s.queue[k].ops))
    ensures Fit(s.vals, |s.vals.sem|) && InRange(s.queue[k].ops, |s.vals.sem|)
    ensures AskedOk(Effect(s, s.queue[k].call, s.queue[k].pid, s.queue[k].ops, answer).(queue := Without(s.queue, k)))
  {
    hide Serial, OnceOk, CallsOk, Change, AllLegal;
    assert ValuesOk(n, s);
    var q, q' := s.queue, Without(s.queue, k);
    forall i | 0 <= i < |q'|
      ensures q'[i] == q[if i < k then i else i + 1]
    {}
  }

  /** The call is at `finished` or `returned` then, and nowhere else. */
  lemma TakeCalls(s: State, k: nat, answer: int, s': State)
    requires CallsOk(s) && k < |s.queue| && s'.calls == s.calls && s'.queue == Without(s.queue, k)
    requires (s'.finished == s.finished[s.queue[k].call := answer] && s'.returned == s.returned)
             || (s'.finished == s.finished && s'.returned == s.returned[s.queue[k].call := answer])
    ensures CallsOk(s')
  {
    var q := s.queue[k];
    assert Queued(s.queue, q.call);
    forall c: nat
      ensures Queued(s'.queue, c) <==> Queued(s.queue, c) && c != q.call
    {
      WithoutCalls(s.queue, k, c);
    }
    forall i | 0 <= i < |s'.queue|
      ensures s'.queue[i] == s.queue[if i < k then i else i + 1]
    {}
  }

  /** Taking a call off the pending list with its effect, or with none. */
  lemma TakeKeeps(n: nat, s: State, k: nat, answer: int, finished: map<nat, int>, returned: map<nat, int>)
    requires Inv(n, s) && k < |s.queue| && (answer == 0 ==> AllLegal(s.vals.sem, s.queue[k].ops))
    requires answer != EIDRM
    requires (finished == s.finished[s.queue[k].call := answer] && returned == s.returned)
             || (finished == s.finished && returned == s.returned[s.queue[k].call := answer])
    ensures Inv(n, Effect(s, s.queue[k].call, s.queue[k].pid, s.queue[k].ops, answer)
                .(queue := Without(s.queue, k), finished := finished, returned := returned))
  {
    hide AskedOk, CallsOk, Serial, AllLegal;
    var q := s.queue[k];
    TakeAsked(n, s, k, answer);
    if answer == 0 {
      RecordKeeps(n, s, Done(q.call, q.pid, q.ops));
    }
    var s1 := Effect(s, q.call, q.pid, q.ops, answer);
    var s' := s1.(queue := Without(s.queue, k), finished := finished, returned := returned);
    SameAsked(s1.(queue := Without(s.queue, k)), s');
    TakeCalls(s, k, answer, s');
    NotThere(s, k);
  }

  lemma NotThere(s: State, k: nat)
    requires CallsOk(s) && k < |s.queue|
    ensures s.queue[k].call !in s.finished && s.queue[k].call !in s.returned
  {}

  lemma SameAsked(s: State, s': State)
    requires AskedOk(s) && s'.queue == s.queue && s'.log == s.log && s'.asked == s.asked && s'.calls == s.calls
    ensures AskedOk(s')
  {}

  lemma FinishKeeps(n: nat, s: State, k: nat, answer: int)
    requires Inv(n, s) && k < |s.queue| && answer != EIDRM && (answer == 0 ==> AllLegal(s.vals.sem, s.queue[k].ops))
    ensures Inv(n, Finish(s, k, answer))
  {
    TakeKeeps(n, s, k, answer, s.finished[s.queue[k].call := answer], s.returned);
  }

  lemma ReturnKeeps(n: nat, s: State, k: nat, answer: int)
    requires Inv(n, s) && k < |s.queue| && answer != EIDRM && (answer == 0 ==> AllLegal(s.vals.sem, s.queue[k].ops))
    ensures Inv(n, Return(s, k, answer))
  {
    TakeKeeps(n, s, k, answer, s.finished, s.returned[s.queue[k].call := answer]);
  }

  // ---- system calls ----

  /** A call that does not sleep. */
  ghost function Answered(s: State, pid: nat, ops: seq<SemOp>, answer: int): State
    requires Fit(s.vals, |s.vals.sem|) && (answer == 0 ==> InRange(ops, |s.vals.sem|) && AllLegal(s.vals.sem, ops))
  {
    var s1 := if answer == 0 then Record(s, Done(s.calls, pid, ops)) else s;
    s1.(returned := s.returned[s.calls := answer], calls := s.calls + 1, asked := s.asked + [Request(pid, ops)])
  }

  lemma AnsweredAsked(s: State, pid: nat, ops: seq<SemOp>, answer: int)
    requires Fit(s.vals, |s.vals.sem|) && (answer == 0 ==> InRange(ops, |s.vals.sem|) && AllLegal(s.vals.sem, ops))
    requires AskedOk(s)
    ensures AskedOk(Answered(s, pid, ops, answer))
  {
    hide AllLegal, Change, Fit;
  }

  lemma AnsweredKeeps(n: nat, s: State, pid: nat, ops: seq<SemOp>, answer: int)
    requires Inv(n, s) && (answer == 0 ==> InRange(ops, n) && AllLegal(s.vals.sem, ops))
    ensures Inv(n, Answered(s, pid, ops, answer))
  {
    hide AllLegal, AskedOk, Serial;
    AnsweredAsked(s, pid, ops, answer);
    if answer == 0 {
      RecordKeeps(n, s, Done(s.calls, pid, ops));
    }
    assert Count(s.log, s.calls) == 0;
    assert !Queued(s.queue, s.calls);
  }

  /** A call that goes to sleep: at the end of the pending list, or in front when it only tests for zero. */
  function Slept(s: State, pid: nat, ops: seq<SemOp>): State {
    var q := Sleeper(s.calls, pid, ops, Asleep);
    s.(queue := if Alters(ops) then s.queue + [q] else [q] + s.queue, calls := s.calls + 1,
       asked := s.asked + [Request(pid, ops)])
  }

  lemma SleptAsked(s: State, pid: nat, ops: seq<SemOp>)
    requires AskedOk(s)
    ensures AskedOk(Slept(s, pid, ops))
  {
    hide Alters;
    var s' := Slept(s, pid, ops);
    forall i | 0 <= i < |s'.queue|
      ensures s'.queue[i].call < s'.calls
      ensures s'.asked[s'.queue[i].call] == Request(s'.queue[i].pid, s'.queue[i].ops)
    {
      if Alters(ops) {
        assert i < |s.queue| ==> s'.queue[i] == s.queue[i];
      } else {
        assert i > 0 ==> s'.queue[i] == s.queue[i - 1];
      }
    }
  }

  lemma SleptQueued(s: State, pid: nat, ops: seq<SemOp>, c: nat)
    ensures Queued(Slept(s, pid, ops).queue, c) <==> Queued(s.queue, c) || c == s.calls
  {
    hide Alters;
    var s' := Slept(s, pid, ops);
    if Queued(s.queue, c) {
      var i :| 0 <= i < |s.queue| && s.queue[i].call == c;
      assert s'.queue[if Alters(ops) then i else i + 1].call == c;
    }
    assert s'.queue[if Alters(ops) then |s.queue| else 0].call == s.calls;
    if Queued(s'.queue, c) && c != s.calls {
      var i :| 0 <= i < |s'.queue| && s'.queue[i].call == c;
      assert s.queue[if Alters(ops) then i else i - 1].call == c;
    }
  }

  lemma SleptCalls(s: State, pid: nat, ops: seq<SemOp>)
    requires CallsOk(s)
    ensures CallsOk(Slept(s, pid, ops))
  {
    hide Alters;
    var s' := Slept(s, pid, ops);
    assert !Queued(s.queue, s.calls);
    forall i | 0 <= i < |s.queue|
      ensures s.queue[i].call < s.calls
    {
      assert Queued(s.queue, s.queue[i].call);
    }
    forall c: nat
      ensures Queued(s'.queue, c) <==> Queued(s.queue, c) || c == s.calls
    {
      SleptQueued(s, pid, ops, c);
    }
  }

  lemma SleptKeeps(n: nat, s: State, pid: nat, ops: seq<SemOp>)
    requires Inv(n, s) && InRange(ops, n)
    ensures Inv(n, Slept(s, pid, ops))
  {
    hide Serial, CallsOk, AskedOk, Alters, Count;
    SleptAsked(s, pid, ops);
    SleptCalls(s, pid, ops);
  }

  /** The first attempt of sys_semop: return its answer or go to sleep. */
  ghost function FirstAttempt(n: nat, s: State, pid: nat, ops: seq<SemOp>): (s': State)
    requires Inv(n, s) && InRange(ops, n)
    ensures Inv(n, s')
  {
    var a := Answer(s.vals.sem, ops);
    if a == 1 then
      SleptKeeps(n, s, pid, ops);
      Slept(s, pid, ops)
    else
      AnsweredKeeps(n, s, pid, ops, a);
      var s1 := Answered(s, pid, ops, a);
      if Alters(ops) then UpdateQueue(n, s1, 0) else s1
  }

  /** sys_semop up to its return or its sleep */
  ghost function Semop(n: nat, s: State, pid: nat, ops: seq<SemOp>): (s': State)
    requires Inv(n, s)
    ensures Inv(n, s')
  {
    if ops == [] || !InRange(ops, n) then
      var answer := if ops == [] then EINVAL else EFBIG;
      AnsweredKeeps(n, s, pid, ops, answer);
      Answered(s, pid, ops, answer)
    else
      var opens := NeedsUndo(ops) && FindUndo(s.vals.undos, pid) == |s.vals.undos|;
      var s0 := if opens then OtherKeeps(n, s, Opened(pid)); Record(s, Opened(pid)) else s;
      FirstAttempt(n, s0, pid, ops)
  }

  /** The task of the pending call at `k` runs: to try again, or because of a signal. */
  ghost function Wake(n: nat, s: State, k: nat): (s': State)
    requires Inv(n, s) && k < |s.queue|
    ensures Inv(n, s')
  {
    var q := s.queue[k];
    var a := if q.status == Retry then Answer(s.vals.sem, q.ops) else EINTR;
    if a == 1 then
      MarkKeeps(n, s, k, Asleep);
      Mark(s, k, Asleep)
    else
      ReturnKeeps(n, s, k, a);
      var s1 := Return(s, k, a);
      if Alters(q.ops) then UpdateQueue(n, s1, 0) else s1
  }

  /** The task of a call finished by another task runs and returns its status. */
  function Collect(s: State, call: nat): State
    requires call in s.finished
  {
    s.(finished := s.finished - {call}, returned := s.returned[call := s.finished[call]])
  }

  lemma CollectKeeps(n: nat, s: State, call: nat)
    requires Inv(n, s) && call in s.finished
    ensures Inv(n, Collect(s, call))
  {
    var s' := Collect(s, call);
    forall c: nat
      ensures Succeeded(s', c) <==> Succeeded(s, c)
    {
    }
  }

  ghost function SetVal(n: nat, s: State, num: nat, val: int): (s': State)
    requires Inv(n, s)
    ensures Inv(n, s')
  {
    if num >= n || val > SEMVMX || val < 0 then s
    else
      OtherKeeps(n, s, SetOne(num, val));
      UpdateQueue(n, Record(s, SetOne(num, val)), 0)
  }

  ghost function SetAll(n: nat, s: State, vals: seq<int>): (s': State)
    requires Inv(n, s)
    ensures Inv(n, s')
  {
    if |vals| != n || exists i | 0 <= i < n :: vals[i] > SEMVMX || vals[i] < 0 then s
    else
      OtherKeeps(n, s, SetEvery(vals));
      UpdateQueue(n, Record(s, SetEvery(vals)), 0)
  }

  function FindSleeper(queue: seq<Sleeper>, pid: nat): (r: nat)
    ensures r <= |queue| && (r < |queue| ==> queue[r].pid == pid)
    ensures forall i | 0 <= i < r :: queue[i].pid != pid
  {
    if queue == [] || queue[0].pid == pid then 0 else FindSleeper(queue[1..], pid) + 1
  }

  /** sem_exit: a sleeping call goes without effect, then the adjustments are applied. */
  ghost function Exit(n: nat, s: State, pid: nat): (s': State)
    requires Inv(n, s)
    ensures Inv(n, s')
  {
    var k := FindSleeper(s.queue, pid);
    var s0 := if k < |s.queue| then ReturnKeeps(n, s, k, GONE); Return(s, k, GONE) else s;
    if FindUndo(s0.vals.undos, pid) == |s0.vals.undos| then s0
    else
      OtherKeeps(n, s0, Exited(pid));
      UpdateQueue(n, Record(s0, Exited(pid)), 0)
  }

  datatype Event =
    | CallSemop(pid: nat, ops: seq<SemOp>)
    | Runs(k: nat)
    | Collects(call: nat)
    | CallSetVal(num: nat, val: int)
    | CallSetAll(vals: seq<int>)
    | Exits(pid: nat)

  ghost function Do(n: nat, s: State, e: Event): (s': State)
    requires Inv(n, s)
    ensures Inv(n, s')
  {
    match e
    case CallSemop(pid, ops) => Semop(n, s, pid, ops)
    case Runs(k) => if k < |s.queue| then Wake(n, s, k) else s
    case Collects(call) => if call in s.finished then CollectKeeps(n, s, call); Collect(s, call) else s
    case CallSetVal(num, val) => SetVal(n, s, num, val)
    case CallSetAll(vals) => SetAll(n, s, vals)
    case Exits(pid) => Exit(n, s, pid)
  }

  function Fresh(n: nat): State {
    State(Vals(Zeros(n), []), [], map[], map[], [], 0, [])
  }

  lemma FreshInv(n: nat)
    ensures Inv(n, Fresh(n))
  {
  }

  ghost function Exec(n: nat, s: State, events: seq<Event>): (s': State)
    requires Inv(n, s)
    ensures Inv(n, s')
    decreases |events|
  {
    if events == [] then s else Exec(n, Do(n, s, events[0]), events[1..])
  }

  /** Over every run of a set of `n` semaphores: the values are a serial application of the
      logged operation lists, each legal when its turn came; no value is below zero; a call
      that returned 0 is in the log exactly once and one that returned anything else never. */
  lemma RunSerial(n: nat, events: seq<Event>, call: nat, i: nat)
    ensures Inv(n, Fresh(n))
    ensures var s := Exec(n, Fresh(n), events);
            && Serial(n, s.log, s.vals)
            && (i < n ==> |s.vals.sem| == n && s.vals.sem[i] >= 0)
            && (call in s.returned ==> Count(s.log, call) == if s.returned[call] == 0 then 1 else 0)
            && (call < s.calls && call !in s.returned ==> Queued(s.queue, call) || call in s.finished)
            && (Queued(s.queue, call) ==> Count(s.log, call) == 0)
            && (forall k | 0 <= k < |s.log| && s.log[k].Done? ::
                  s.log[k].call < |s.asked| && s.asked[s.log[k].call] == Request(s.log[k].pid, s.log[k].ops))
  {
    FreshInv(n);
    var s := Exec(n, Fresh(n), events);
    assert ValuesOk(n, s) && CallsOk(s);
    assert Count(s.log, call) == if Succeeded(s, call) then 1 else 0;
  }

  // ---- conservation ----

  /** What the processes owe to semaphore `i` when they exit. */
  function Owed(undos: seq<Undo>, i: nat): int
    requires forall k | 0 <= k < |undos| :: i < |undos[k].adj|
  {
    if undos == [] then 0 else undos[0].adj[i] + Owed(undos[1..], i)
  }

  lemma {:induction false} OwedUpdate(undos: seq<Undo>, k: nat, u: Undo, i: nat)
    requires k < |undos| && i < |u.adj| && forall j | 0 <= j < |undos| :: i < |undos[j].adj|
    ensures Owed(undos[k := u], i) == Owed(undos, i) - undos[k].adj[i] + u.adj[i]
  {
    if k > 0 {
      OwedUpdate(undos[1..], k - 1, u, i);
      assert undos[k := u][1..] == undos[1..][k - 1 := u];
    }
  }

  lemma {:induction false} OwedWithout(undos: seq<Undo>, k: nat, i: nat)
    requires k < |undos| && forall j | 0 <= j < |undos| :: i < |undos[j].adj|
    ensures Owed(undos[..k] + undos[k + 1..], i) == Owed(undos, i) - undos[k].adj[i]
  {
    if k == 0 {
      assert undos[..0] + undos[1..] == undos[1..];
    } else {
      OwedWithout(undos[1..], k - 1, i);
      assert (undos[..k] + undos[k + 1..])[1..] == undos[1..][..k - 1] + undos[1..][k..];
    }
  }

  /** A semaphore together with what is owed to it. */
  function Balance(v: Vals, i: nat): int
    requires i < |v.sem| && forall k | 0 <= k < |v.undos| :: i < |v.undos[k].adj|
  {
    v.sem[i] + Owed(v.undos, i)
  }

  lemma {:induction false} NoUndoDelta(ops: seq<SemOp>, k: nat, i: nat)
    requires k <= |ops| && !NeedsUndo(ops)
    ensures UndoDelta(ops, k, i) == 0
  {
    if k > 0 {
      NoUndoDelta(ops, k - 1, i);
    }
  }

  lemma ShortCongruent(x: int)
    ensures exists q :: Short(x) == x + 65536 * q
  {
    var q := -((x + 32768) / 65536);
    assert Short(x) == x + 65536 * q;
  }

  /** An operation with SEM_UNDO moves value between a semaphore and what is owed to it; only
      operations without it change the balance. Adjustments are 16 bits wide. */
  lemma {:induction false} OperateBalance(v: Vals, pid: nat, ops: seq<SemOp>, i: nat)
    requires Fit(v, |v.sem|) && InRange(ops, |v.sem|) && i < |v.sem|
    requires NeedsUndo(ops) ==> FindUndo(v.undos, pid) < |v.undos|
    ensures exists q :: Balance(Operate(v, pid, ops), i)
                        == Balance(v, i) + Delta(ops, |ops|, i) - UndoDelta(ops, |ops|, i) + 65536 * q
  {
    var k := FindUndo(v.undos, pid);
    ValuesAreSums(v.sem, ops, |ops|, i);
    if k < |v.undos| {
      var adj := v.undos[k].adj;
      AdjustsAreSums(adj, ops, |ops|, i);
      var u := Undo(pid, Adjust(adj, ops, |ops|));
      OwedUpdate(v.undos, k, u, i);
      ShortCongruent(adj[i] - UndoDelta(ops, |ops|, i));
      var q :| Short(adj[i] - UndoDelta(ops, |ops|, i)) == adj[i] - UndoDelta(ops, |ops|, i) + 65536 * q;
      assert Balance(Operate(v, pid, ops), i)
          == Balance(v, i) + Delta(ops, |ops|, i) - UndoDelta(ops, |ops|, i) + 65536 * q;
    } else {
      NoUndoDelta(ops, |ops|, i);
      assert Balance(Operate(v, pid, ops), i)
          == Balance(v, i) + Delta(ops, |ops|, i) - UndoDelta(ops, |ops|, i) + 65536 * 0;
    }
  }

  /** An exit pays what is owed: it keeps the balance unless the semaphore would go below zero. */
  lemma LeaveBalance(v: Vals, pid: nat, i: nat)
    requires Fit(v, |v.sem|) && i < |v.sem|
    ensures var k := FindUndo(v.undos, pid);
            Balance(Leave(v, pid), i) == Balance(v, i) <==> k == |v.undos| || v.sem[i] + v.undos[k].adj[i] >= 0
  {
    var k := FindUndo(v.undos, pid);
    if k < |v.undos| {
      OwedWithout(v.undos, k, i);
    }
  }
}
