/** What each call on a semaphore set answers, whom update_queue lets go, and what an entry of
    the log does to values and adjustments, in terms that do not name the code. */
module SemCalls {
  import opened Lists
  import opened SemOps
  import opened SemSystem

  // ---- right answers ----

  /** `a` answers the operations on the values that the first `at` entries of the log make. */
  ghost predicate Turn(n: nat, log: seq<Entry>, at: nat, ops: seq<SemOp>, a: int) {
    at <= |log| && InRange(ops, n) && exists v :: Serial(n, log[..at], v) && |v.sem| == n && Answer(v.sem, ops) == a
  }

  lemma TurnNow(n: nat, s: State, log: seq<Entry>, ops: seq<SemOp>)
    requires ValuesOk(n, s) && InRange(ops, n) && s.log <= log
    ensures Turn(n, log, |s.log|, ops, Answer(s.vals.sem, ops))
  {
    hide Serial, Answer;
    assert log[..|s.log|] == s.log;
  }

  lemma TurnLater(n: nat, log: seq<Entry>, log': seq<Entry>, at: nat, ops: seq<SemOp>, a: int)
    requires Turn(n, log, at, ops, a) && log <= log'
    ensures Turn(n, log', at, ops, a)
  {
    hide Serial, Answer;
    assert log'[..at] == log[..at];
  }

  /** `a` is what a call with these operations may return: EINVAL for none, EFBIG for one out of
      range, else the answer at some moment of the log that is not to sleep, or the word that the
      sleep was broken off. */
  ghost predicate Reason(n: nat, log: seq<Entry>, ops: seq<SemOp>, a: int) {
    && (a == EINVAL <==> ops == [])
    && (a == EFBIG <==> ops != [] && !InRange(ops, n))
    && (ops != [] && InRange(ops, n) && a != EINTR && a != GONE ==> a != 1 && exists at :: Turn(n, log, at, ops, a))
  }

  ghost predicate Just(n: nat, s: State) {
    && (forall c | c in s.finished :: c < |s.asked| && Reason(n, s.log, s.asked[c].ops, s.finished[c]))
    && (forall c | c in s.returned :: c < |s.asked| && Reason(n, s.log, s.asked[c].ops, s.returned[c]))
    && (forall i | 0 <= i < |s.queue| :: s.queue[i].ops != [])
  }

  lemma ReasonLater(n: nat, log: seq<Entry>, log': seq<Entry>, ops: seq<SemOp>, a: int)
    requires Reason(n, log, ops, a) && log <= log'
    ensures Reason(n, log', ops, a)
  {
    hide Turn;
    if ops != [] && InRange(ops, n) && a != EINTR && a != GONE {
      var at: nat :| Turn(n, log, at, ops, a);
      TurnLater(n, log, log', at, ops, a);
    }
  }

  /** An answer given now. */
  lemma ReasonNow(n: nat, s: State, log: seq<Entry>, ops: seq<SemOp>)
    requires ValuesOk(n, s) && InRange(ops, n) && ops != [] && s.log <= log && Answer(s.vals.sem, ops) != 1
    ensures Reason(n, log, ops, Answer(s.vals.sem, ops))
  {
    hide Turn, ValuesOk, InRange;
    TurnNow(n, s, log, ops);
  }

  /** Log and requests grow, and what is new at `finished` or `returned` has its reason. */
  lemma JustMore(n: nat, s: State, s': State)
    requires Just(n, s) && s.log <= s'.log && s.asked <= s'.asked
    requires forall c | c in s'.finished ::
               (c in s.finished && s'.finished[c] == s.finished[c])
               || (c < |s'.asked| && Reason(n, s'.log, s'.asked[c].ops, s'.finished[c]))
    requires forall c | c in s'.returned ::
               (c in s.returned && s'.returned[c] == s.returned[c])
               || (c in s.finished && s'.returned[c] == s.finished[c])
               || (c < |s'.asked| && Reason(n, s'.log, s'.asked[c].ops, s'.returned[c]))
    requires forall i | 0 <= i < |s'.queue| :: s'.queue[i].ops != []
    ensures Just(n, s')
  {
    hide Reason;
    forall c | c in s'.finished
      ensures c < |s'.asked| && Reason(n, s'.log, s'.asked[c].ops, s'.finished[c])
    {
      if c in s.finished && s'.finished[c] == s.finished[c] {
        ReasonLater(n, s.log, s'.log, s.asked[c].ops, s.finished[c]);
      }
    }
    forall c | c in s'.returned
      ensures c < |s'.asked| && Reason(n, s'.log, s'.asked[c].ops, s'.returned[c])
    {
      if c in s.returned && s'.returned[c] == s.returned[c] {
        ReasonLater(n, s.log, s'.log, s.asked[c].ops, s.returned[c]);
      } else if c in s.finished && s'.returned[c] == s.finished[c] {
        ReasonLater(n, s.log, s'.log, s.asked[c].ops, s.finished[c]);
      }
    }
  }

  // ---- one pass of update_queue ----

  /** What the pass does with the sleeper at `k`. */
  ghost predicate Passes(n: nat, s: State, k: nat)
    requires k < |s.queue| && |s.vals.sem| == n && InRange(s.queue[k].ops, n)
  {
    s.queue[k].status == Retry || Answer(s.vals.sem, s.queue[k].ops) == 1
  }

  ghost predicate Sends(n: nat, s: State, k: nat)
    requires k < |s.queue| && |s.vals.sem| == n && InRange(s.queue[k].ops, n)
  {
    !Passes(n, s, k) && Answer(s.vals.sem, s.queue[k].ops) == 0 && Decreases(s.queue[k].ops)
  }

  /** `s1` is `s` with the call at `k` finished with the answer of now. */
  ghost predicate Finished(n: nat, s: State, k: nat, s1: State)
    requires k < |s.queue| && |s.vals.sem| == n && InRange(s.queue[k].ops, n)
  {
    var a := Answer(s.vals.sem, s.queue[k].ops);
    && Inv(n, s1) && a != 1 && (a == 0 ==> !Decreases(s.queue[k].ops))
    && s.log <= s1.log && s1.returned == s.returned && s1.calls == s.calls && s1.asked == s.asked
    && s1.queue == Without(s.queue, k) && s.queue[k].call !in s.finished
    && s1.finished == s.finished[s.queue[k].call := a]
  }

  lemma PassEnd(n: nat, s: State)
    requires Inv(n, s)
    ensures UpdateQueue(n, s, |s.queue|) == s
  {
  }

  lemma PassStep(n: nat, s: State, k: nat)
    requires Inv(n, s) && k < |s.queue|
    ensures ValuesOk(n, s) && |s.vals.sem| == n && InRange(s.queue[k].ops, n)
    ensures if Passes(n, s, k) then UpdateQueue(n, s, k) == UpdateQueue(n, s, k + 1)
            else if Sends(n, s, k) then UpdateQueue(n, s, k) == Mark(s, k, Retry)
            else exists s1 :: Finished(n, s, k, s1) && UpdateQueue(n, s, k) == UpdateQueue(n, s1, k)
  {
    hide Answer, Decreases, Change, Serial, Count;
    if !Passes(n, s, k) && !Sends(n, s, k) {
      var a := Answer(s.vals.sem, s.queue[k].ops);
      FinishKeeps(n, s, k, a);
      NotThere(s, k);
      assert Finished(n, s, k, Finish(s, k, a));
    }
  }

  /** The pass leaves the head of the list, requests and returned calls alone, and only adds to
      the log and to the finished calls. */
  lemma {:induction false} PassFrame(n: nat, s: State, k: nat)
    requires Inv(n, s) && k <= |s.queue|
    ensures var s' := UpdateQueue(n, s, k);
            && s.log <= s'.log && s'.returned == s.returned && s'.calls == s.calls && s'.asked == s.asked
            && k <= |s'.queue| <= |s.queue| && s'.queue[..k] == s.queue[..k]
            && (forall c | c in s.finished :: c in s'.finished && s'.finished[c] == s.finished[c])
    decreases |s.queue| - k
  {
    hide UpdateQueue, Inv, ValuesOk, Passes, Sends, Answer, Decreases, InRange;
    if k == |s.queue| {
      PassEnd(n, s);
    } else {
      PassStep(n, s, k);
      var s' := UpdateQueue(n, s, k);
      if Passes(n, s, k) {
        PassFrame(n, s, k + 1);
        assert s'.queue[..k] == s'.queue[..k + 1][..k];
        assert s.queue[..k] == s.queue[..k + 1][..k];
      } else if !Sends(n, s, k) {
        var s1 :| Finished(n, s, k, s1) && s' == UpdateQueue(n, s1, k);
        PassFrame(n, s1, k);
        assert Without(s.queue, k)[..k] == s.queue[..k];
      }
    }
  }

  /** A call that the pass finishes was asleep on the list and returns the answer of its turn:
      it succeeds there only if it takes nothing away. */
  lemma {:induction false} PassFinishes(n: nat, s: State, k: nat, c: nat) returns (i: nat, at: nat)
    requires Inv(n, s) && k <= |s.queue|
    requires c in UpdateQueue(n, s, k).finished && c !in s.finished
    ensures var s' := UpdateQueue(n, s, k);
            && k <= i < |s.queue| && s.queue[i].call == c && s.queue[i].status == Asleep
            && |s.log| <= at && Turn(n, s'.log, at, s.queue[i].ops, s'.finished[c]) && s'.finished[c] != 1
            && (s'.finished[c] == 0 ==> forall j | 0 <= j < |s.queue[i].ops| :: s.queue[i].ops[j].op >= 0)
    decreases |s.queue| - k
  {
    hide Inv, ValuesOk, Answer, Turn, InRange;
    i, at := 0, 0;
    PassStep(n, s, k);
    var q, s' := s.queue[k], UpdateQueue(n, s, k);
    if Passes(n, s, k) {
      i, at := PassFinishes(n, s, k + 1, c);
    } else if !Sends(n, s, k) {
      var s1 :| Finished(n, s, k, s1) && s' == UpdateQueue(n, s1, k);
      PassFrame(n, s1, k);
      if c == q.call {
        i, at := k, |s.log|;
        TurnNow(n, s, s'.log, q.ops);
      } else {
        i, at := PassFinishes(n, s1, k, c);
        i := i + 1;
      }
    }
  }

  /** Nobody left asleep among these could go ahead when its turn came. */
  ghost predicate Stay(n: nat, from: nat, log: seq<Entry>, q: Sleeper) {
    q.status == Asleep ==> exists at | from <= at <= |log| :: Turn(n, log, at, q.ops, 1)
  }

  /** The pass ended at `stop`: with a sleeper that may go ahead on the values as they are, and
      was told so, and the rest of the list as it was. */
  ghost predicate Ended(n: nat, queue: seq<Sleeper>, s': State, stop: nat)
    requires stop <= |s'.queue| <= |queue|
  {
    stop == |s'.queue| || (
      var q := s'.queue[stop];
      && q.status == Retry && q.(status := Asleep) in queue
      && (exists j | 0 <= j < |q.ops| :: q.ops[j].op < 0)
      && Turn(n, s'.log, |s'.log|, q.ops, 0)
      && s'.queue[stop + 1..] == queue[|queue| - (|s'.queue| - stop - 1)..])
  }

  /** Where the pass ends: at `stop` is a sleeper that may go ahead now and is sent to try, and
      the rest of the list is as it was; or the list is done. Whoever is left asleep ahead of it
      could not go ahead when its turn came. */
  lemma {:induction false} PassLeaves(n: nat, s: State, k: nat) returns (stop: nat)
    requires Inv(n, s) && k <= |s.queue|
    ensures var s' := UpdateQueue(n, s, k);
            && k <= stop <= |s'.queue| <= |s.queue| && Ended(n, s.queue, s', stop)
            && (forall j | k <= j < stop :: s'.queue[j] in s.queue && Stay(n, |s.log|, s'.log, s'.queue[j]))
    decreases |s.queue| - k
  {
    hide UpdateQueue, Inv, ValuesOk, Answer, Decreases, Turn, InRange, Ended;
    PassFrame(n, s, k);
    stop := k;
    if k == |s.queue| {
      PassEnd(n, s);
      EndedDone(n, s);
    } else {
      PassStep(n, s, k);
      var q, s' := s.queue[k], UpdateQueue(n, s, k);
      TurnNow(n, s, s'.log, q.ops);
      if Passes(n, s, k) {
        stop := PassLeaves(n, s, k + 1);
        PassFrame(n, s, k + 1);
        assert s'.queue[k] == s'.queue[..k + 1][k] == s.queue[..k + 1][k] == q;
      } else if Sends(n, s, k) {
        EndedHere(n, s, k);
      } else {
        var s1 :| Finished(n, s, k, s1) && s' == UpdateQueue(n, s1, k);
        stop := PassLeaves(n, s1, k);
        PassBack(n, s, k, s1, s', stop);
      }
    }
  }

  lemma EndedDone(n: nat, s: State)
    ensures Ended(n, s.queue, s, |s.queue|)
  {
  }

  lemma EndedHere(n: nat, s: State, k: nat)
    requires k < |s.queue| && s.queue[k].status == Asleep && Decreases(s.queue[k].ops)
    requires Turn(n, s.log, |s.log|, s.queue[k].ops, 0)
    ensures Ended(n, s.queue, Mark(s, k, Retry), k)
  {
    hide Turn;
    var s' := Mark(s, k, Retry);
    assert s'.queue[k].(status := Asleep) == s.queue[k];
    assert s'.queue[k + 1..] == s.queue[k + 1..];
  }

  /** With the call at `k` back on the list. */
  lemma PassBack(n: nat, s: State, k: nat, s1: State, s': State, stop: nat)
    requires k < |s.queue| && s1.queue == Without(s.queue, k) && s.log <= s1.log
    requires k <= stop <= |s'.queue| <= |s1.queue| && Ended(n, s1.queue, s', stop)
    requires forall j | k <= j < stop :: s'.queue[j] in s1.queue && Stay(n, |s1.log|, s'.log, s'.queue[j])
    ensures Ended(n, s.queue, s', stop)
    ensures forall j | k <= j < stop :: s'.queue[j] in s.queue && Stay(n, |s.log|, s'.log, s'.queue[j])
  {
    hide Turn, Decreases;
    assert forall x | x in s1.queue :: x in s.queue;
    if stop < |s'.queue| {
      assert s1.queue[|s1.queue| - (|s'.queue| - stop - 1)..] == s.queue[|s.queue| - (|s'.queue| - stop - 1)..];
    }
  }

  /** The pending list `queue` has been looked through on the values after `from` entries of the
      log: up to where it stopped, whoever sleeps on could not go ahead in its turn. */
  ghost predicate Settled(n: nat, queue: seq<Sleeper>, from: nat, s': State) {
    && |s'.queue| <= |queue|
    && exists stop: nat | stop <= |s'.queue| ::
         Ended(n, queue, s', stop)
         && forall j | 0 <= j < stop :: s'.queue[j] in queue && Stay(n, from, s'.log, s'.queue[j])
  }

  lemma PassSettles(n: nat, s: State)
    requires Inv(n, s)
    ensures Settled(n, s.queue, |s.log|, UpdateQueue(n, s, 0))
  {
    hide UpdateQueue, Inv, Ended, Stay;
    var stop := PassLeaves(n, s, 0);
  }

  // ---- the calls ----

  /** Entry `at` of the log is `e`, and then the list `queue` was looked through. */
  ghost predicate DoneAt(n: nat, queue: seq<Sleeper>, s': State, at: nat, e: Entry) {
    at < |s'.log| && s'.log[at] == e && Settled(n, queue, at + 1, s')
  }

  lemma DoneThen(n: nat, s: State, s1: State, e: Entry)
    requires Inv(n, s1) && s1.log == s.log + [e]
    ensures DoneAt(n, s1.queue, UpdateQueue(n, s1, 0), |s.log|, e)
  {
    hide UpdateQueue, Inv, Settled;
    PassFrame(n, s1, 0);
    PassSettles(n, s1);
    var s' := UpdateQueue(n, s1, 0);
    assert s'.log[..|s1.log|][|s.log|] == e;
  }

  /** sys_semop: an empty list is EINVAL and an index out of range EFBIG. Otherwise the call goes
      to sleep exactly when the answer on the values as they are is 1, behind the others if it
      changes something and in front of them if it only tests; else it returns that answer, and
      after a change the sleepers have been looked through. */
  lemma SemopMeans(n: nat, s: State, pid: nat, ops: seq<SemOp>)
    requires Inv(n, s)
    ensures var s', c := Semop(n, s, pid, ops), s.calls;
            && s'.calls == c + 1 && s'.asked == s.asked + [Request(pid, ops)]
            && (ops == [] ==> s'.returned == s.returned[c := EINVAL])
            && (ops != [] && !InRange(ops, n) ==> s'.returned == s.returned[c := EFBIG])
            && (ops != [] && InRange(ops, n) ==> |s.vals.sem| == n && Tried(n, s, s', pid, ops))
  {
    hide UpdateQueue, Answer, Alters, Tried;
    if ops != [] && InRange(ops, n) {
      var opens := NeedsUndo(ops) && FindUndo(s.vals.undos, pid) == |s.vals.undos|;
      if opens {
        OtherKeeps(n, s, Opened(pid));
      }
      var s0 := if opens then Record(s, Opened(pid)) else s;
      AttemptMeans(n, s0, pid, ops);
      SameTried(n, s, s0, Semop(n, s, pid, ops), pid, ops);
    }
  }

  /** The call went to sleep or returned, as its operations say on the values of `s`. */
  ghost predicate Tried(n: nat, s: State, s': State, pid: nat, ops: seq<SemOp>)
    requires |s.vals.sem| == n && InRange(ops, n)
  {
    var a, c, q := Answer(s.vals.sem, ops), s.calls, Sleeper(s.calls, pid, ops, Asleep);
    && (a == 1 <==> Queued(s'.queue, c))
    && (a != 1 ==> s'.returned == s.returned[c := a])
    && (a == 1 ==>
          && s'.returned == s.returned && s'.finished == s.finished
          && s'.queue == if exists i | 0 <= i < |ops| :: ops[i].op != 0 then s.queue + [q] else [q] + s.queue)
    && (a == 0 && (exists i | 0 <= i < |ops| :: ops[i].op != 0) ==>
          exists at | |s.log| <= at :: DoneAt(n, s.queue, s', at, Done(c, pid, ops)))
  }

  lemma SameTried(n: nat, s: State, s0: State, s': State, pid: nat, ops: seq<SemOp>)
    requires |s.vals.sem| == n && InRange(ops, n) && s0.vals.sem == s.vals.sem && |s.log| <= |s0.log|
    requires s0.calls == s.calls && s0.queue == s.queue && s0.returned == s.returned && s0.finished == s.finished
    requires Tried(n, s0, s', pid, ops)
    ensures Tried(n, s, s', pid, ops)
  {
    hide DoneAt, Answer, Queued;
  }

  lemma AttemptMeans(n: nat, s: State, pid: nat, ops: seq<SemOp>)
    requires Inv(n, s) && InRange(ops, n)
    ensures var s' := FirstAttempt(n, s, pid, ops);
            && |s.vals.sem| == n && s'.calls == s.calls + 1 && s'.asked == s.asked + [Request(pid, ops)]
            && Tried(n, s, s', pid, ops)
  {
    hide UpdateQueue, Answer, Serial, Count, Change, DoneAt;
    var a := Answer(s.vals.sem, ops);
    if a == 1 {
      SleptQueued(s, pid, ops, s.calls);
    } else {
      AnsweredKeeps(n, s, pid, ops, a);
      var s1 := Answered(s, pid, ops, a);
      PassFrame(n, s1, 0);
      if a == 0 {
        DoneThen(n, s, s1, Done(s.calls, pid, ops));
      }
      NotQueued(FirstAttempt(n, s, pid, ops), s.calls);
    }
  }

  lemma NotQueued(s: State, c: nat)
    requires CallsOk(s) && c in s.returned
    ensures !Queued(s.queue, c)
  {
  }

  /** A sleeper that runs tries again if it was told to and else ends with EINTR. It sleeps on
      exactly when it was told to try and the answer is 1, and else returns, without effect on
      an error. */
  lemma WakeMeans(n: nat, s: State, k: nat)
    requires Inv(n, s) && k < |s.queue|
    ensures var s', q := Wake(n, s, k), s.queue[k];
            && |s.vals.sem| == n && InRange(q.ops, n)
            && (q.status == Asleep ==> s'.returned == s.returned[q.call := EINTR])
            && (q.status == Retry && Answer(s.vals.sem, q.ops) == 1 ==>
                  s' == s.(queue := s.queue[k := q.(status := Asleep)]))
            && (q.status == Retry && Answer(s.vals.sem, q.ops) != 1 ==>
                  s'.returned == s.returned[q.call := Answer(s.vals.sem, q.ops)])
            && (q.status == Retry && Answer(s.vals.sem, q.ops) == 0 ==>
                  (exists i | 0 <= i < |q.ops| :: q.ops[i].op != 0) ==>
                    DoneAt(n, Without(s.queue, k), s', |s.log|, Done(q.call, q.pid, q.ops)))
  {
    hide UpdateQueue, Answer, Serial, Count, Change, DoneAt;
    var q := s.queue[k];
    var a := if q.status == Retry then Answer(s.vals.sem, q.ops) else EINTR;
    if a != 1 {
      ReturnKeeps(n, s, k, a);
      var s1 := Return(s, k, a);
      PassFrame(n, s1, 0);
      if a == 0 {
        DoneThen(n, s, s1, Done(q.call, q.pid, q.ops));
      }
    }
  }

  /** SETVAL and SETALL change nothing when a value or an index is out of range, and else are
      the next entry of the log, after which the sleepers have been looked through. */
  lemma SetMeans(n: nat, s: State, num: nat, val: int, vals: seq<int>)
    requires Inv(n, s)
    ensures if num < n && 0 <= val <= SEMVMX then DoneAt(n, s.queue, SetVal(n, s, num, val), |s.log|, SetOne(num, val))
            else SetVal(n, s, num, val) == s
    ensures if |vals| == n && (forall i | 0 <= i < n :: 0 <= vals[i] <= SEMVMX)
            then DoneAt(n, s.queue, SetAll(n, s, vals), |s.log|, SetEvery(vals))
            else SetAll(n, s, vals) == s
  {
    hide UpdateQueue, Serial, Count, Change, DoneAt;
    if num < n && 0 <= val <= SEMVMX {
      OtherKeeps(n, s, SetOne(num, val));
      DoneThen(n, s, Record(s, SetOne(num, val)), SetOne(num, val));
    }
    if |vals| == n && (forall i | 0 <= i < n :: 0 <= vals[i] <= SEMVMX) {
      OtherKeeps(n, s, SetEvery(vals));
      DoneThen(n, s, Record(s, SetEvery(vals)), SetEvery(vals));
    }
  }

  /** An exit drops the sleeping call of its process, the first there is, without effect. If the
      process owes anything, its exit is the next entry of the log and the others have been
      looked through. */
  lemma ExitMeans(n: nat, s: State, pid: nat)
    requires Inv(n, s)
    ensures var s', k := Exit(n, s, pid), FindSleeper(s.queue, pid);
            var queue := if k < |s.queue| then Without(s.queue, k) else s.queue;
            && s'.returned == (if k < |s.queue| then s.returned[s.queue[k].call := GONE] else s.returned)
            && (if exists u | u in s.vals.undos :: u.pid == pid then DoneAt(n, queue, s', |s.log|, Exited(pid))
                else s'.log == s.log && s'.queue == queue)
  {
    hide UpdateQueue, Serial, Count, Change, DoneAt;
    var k := FindSleeper(s.queue, pid);
    if k < |s.queue| {
      ReturnKeeps(n, s, k, GONE);
    }
    var s0 := if k < |s.queue| then Return(s, k, GONE) else s;
    if FindUndo(s0.vals.undos, pid) < |s0.vals.undos| {
      OtherKeeps(n, s0, Exited(pid));
      PassFrame(n, Record(s0, Exited(pid)), 0);
      DoneThen(n, s0, Record(s0, Exited(pid)), Exited(pid));
      assert s.vals.undos[FindUndo(s0.vals.undos, pid)].pid == pid;
    }
  }

  // ---- every answer of every run ----

  lemma PassJust(n: nat, s: State)
    requires Inv(n, s) && Just(n, s)
    ensures Just(n, UpdateQueue(n, s, 0))
  {
    hide UpdateQueue, Inv, Reason, Turn, Stay, Decreases;
    var s' := UpdateQueue(n, s, 0);
    PassFrame(n, s, 0);
    forall c | c in s'.finished && c !in s.finished
      ensures c < |s'.asked| && Reason(n, s'.log, s'.asked[c].ops, s'.finished[c])
    {
      var i, at := PassFinishes(n, s, 0, c);
      QueueAsked(n, s, i);
      TurnIsReason(n, s'.log, at, s.queue[i].ops, s'.finished[c]);
    }
    var stop := PassLeaves(n, s, 0);
    forall j | 0 <= j < |s'.queue|
      ensures s'.queue[j].ops != []
    {
      if j >= stop {
        EndedOps(n, s.queue, s', stop, j);
      }
    }
    JustMore(n, s, s');
  }

  lemma QueueAsked(n: nat, s: State, i: nat)
    requires Inv(n, s) && i < |s.queue|
    ensures s.queue[i].call < |s.asked| && s.asked[s.queue[i].call].ops == s.queue[i].ops && InRange(s.queue[i].ops, n)
  {
  }

  lemma TurnIsReason(n: nat, log: seq<Entry>, at: nat, ops: seq<SemOp>, a: int)
    requires Turn(n, log, at, ops, a) && ops != [] && a != 1
    ensures Reason(n, log, ops, a)
  {
    hide Serial;
  }

  lemma EndedOps(n: nat, queue: seq<Sleeper>, s': State, stop: nat, j: nat)
    requires stop <= j < |s'.queue| <= |queue| && Ended(n, queue, s', stop)
    requires forall i | 0 <= i < |queue| :: queue[i].ops != []
    ensures s'.queue[j].ops != []
  {
    hide Turn, Decreases;
    if j > stop {
      assert s'.queue[j] == s'.queue[stop + 1..][j - stop - 1];
    } else {
      var i :| 0 <= i < |queue| && queue[i] == s'.queue[stop].(status := Asleep);
    }
  }

  lemma SemopJust(n: nat, s: State, pid: nat, ops: seq<SemOp>)
    requires Inv(n, s) && Just(n, s)
    ensures Just(n, Semop(n, s, pid, ops))
  {
    hide Reason, UpdateQueue, Answer, Alters, Serial, Count, Change;
    if ops == [] || !InRange(ops, n) {
      PlainReason(n, s.log, ops);
      JustMore(n, s, Semop(n, s, pid, ops));
    } else {
      var opens := NeedsUndo(ops) && FindUndo(s.vals.undos, pid) == |s.vals.undos|;
      if opens {
        OtherKeeps(n, s, Opened(pid));
      }
      var s0 := if opens then Record(s, Opened(pid)) else s;
      JustMore(n, s, s0);
      AttemptJust(n, s0, pid, ops);
    }
  }

  lemma PlainReason(n: nat, log: seq<Entry>, ops: seq<SemOp>)
    requires ops == [] || !InRange(ops, n)
    ensures Reason(n, log, ops, if ops == [] then EINVAL else EFBIG)
  {
  }

  lemma AttemptJust(n: nat, s: State, pid: nat, ops: seq<SemOp>)
    requires Inv(n, s) && Just(n, s) && InRange(ops, n) && ops != []
    ensures Just(n, FirstAttempt(n, s, pid, ops))
  {
    hide Reason, UpdateQueue, Answer, Alters, Serial, Count, Change;
    var a := Answer(s.vals.sem, ops);
    if a == 1 {
      JustMore(n, s, Slept(s, pid, ops));
    } else {
      AnsweredKeeps(n, s, pid, ops, a);
      var s1 := Answered(s, pid, ops, a);
      ReasonNow(n, s, s1.log, ops);
      JustMore(n, s, s1);
      PassJust(n, s1);
    }
  }

  lemma BrokenReason(n: nat, log: seq<Entry>, ops: seq<SemOp>)
    requires ops != [] && InRange(ops, n)
    ensures Reason(n, log, ops, EINTR) && Reason(n, log, ops, GONE)
  {
  }

  lemma ReturnJust(n: nat, s: State, k: nat, a: int)
    requires Inv(n, s) && Just(n, s) && k < |s.queue| && a != 1 && a != EIDRM
    requires |s.vals.sem| == n && InRange(s.queue[k].ops, n)
    requires a == EINTR || a == GONE || a == Answer(s.vals.sem, s.queue[k].ops)
    ensures Inv(n, Return(s, k, a)) && Just(n, Return(s, k, a))
  {
    hide Reason, Answer, Serial, Count, Change;
    ReturnKeeps(n, s, k, a);
    var s1 := Return(s, k, a);
    QueueAsked(n, s, k);
    BrokenReason(n, s1.log, s.queue[k].ops);
    if a == Answer(s.vals.sem, s.queue[k].ops) {
      ReasonNow(n, s, s1.log, s.queue[k].ops);
    }
    JustMore(n, s, s1);
  }

  lemma WakeJust(n: nat, s: State, k: nat)
    requires Inv(n, s) && Just(n, s) && k < |s.queue|
    ensures Just(n, Wake(n, s, k))
  {
    hide Reason, UpdateQueue, Answer, Alters, Serial, Count, Change, AskedOk, CallsOk;
    var q := s.queue[k];
    var a := if q.status == Retry then Answer(s.vals.sem, q.ops) else EINTR;
    if a == 1 {
      JustMore(n, s, Mark(s, k, Asleep));
    } else {
      ReturnJust(n, s, k, a);
      PassJust(n, Return(s, k, a));
    }
  }

  lemma RecordJust(n: nat, s: State, e: Entry)
    requires Inv(n, s) && Just(n, s) && Possible(s.vals, e) && !e.Done?
    ensures Inv(n, Record(s, e)) && Just(n, UpdateQueue(n, Record(s, e), 0))
  {
    hide Reason, UpdateQueue, Serial, Count, Change, AskedOk, CallsOk;
    OtherKeeps(n, s, e);
    JustMore(n, s, Record(s, e));
    PassJust(n, Record(s, e));
  }

  lemma ExitJust(n: nat, s: State, pid: nat)
    requires Inv(n, s) && Just(n, s)
    ensures Just(n, Exit(n, s, pid))
  {
    hide Just, UpdateQueue, Serial, Count, Change, AskedOk, CallsOk, Answer;
    var k := FindSleeper(s.queue, pid);
    if k < |s.queue| {
      ReturnJust(n, s, k, GONE);
    }
    var s0 := if k < |s.queue| then Return(s, k, GONE) else s;
    if FindUndo(s0.vals.undos, pid) < |s0.vals.undos| {
      RecordJust(n, s0, Exited(pid));
    }
  }

  lemma StepJust(n: nat, s: State, e: Event)
    requires Inv(n, s) && Just(n, s)
    ensures Just(n, Do(n, s, e))
  {
    hide Just, Inv, UpdateQueue, Semop, Wake, Exit, Change;
    match e
    case CallSemop(pid, ops) => SemopJust(n, s, pid, ops);
    case Runs(k) =>
      if k < |s.queue| {
        WakeJust(n, s, k);
      }
    case Collects(call) =>
      if call in s.finished {
        CollectJust(n, s, call);
      }
    case CallSetVal(num, val) =>
      if num < n && 0 <= val <= SEMVMX {
        InvFits(n, s);
        RecordJust(n, s, SetOne(num, val));
      }
    case CallSetAll(vals) =>
      if |vals| == n && (forall i | 0 <= i < n :: 0 <= vals[i] <= SEMVMX) {
        InvFits(n, s);
        RecordJust(n, s, SetEvery(vals));
      }
    case Exits(pid) => ExitJust(n, s, pid);
  }

  lemma InvFits(n: nat, s: State)
    requires Inv(n, s)
    ensures Fit(s.vals, n)
  {
  }

  lemma CollectJust(n: nat, s: State, call: nat)
    requires Just(n, s) && call in s.finished
    ensures Just(n, Collect(s, call))
  {
    hide Reason;
    JustMore(n, s, Collect(s, call));
  }

  lemma {:induction false} ExecJust(n: nat, s: State, events: seq<Event>)
    requires Inv(n, s) && Just(n, s)
    ensures Just(n, Exec(n, s, events))
    decreases |events|
  {
    hide Inv, Just, Do;
    if events != [] {
      StepJust(n, s, events[0]);
      ExecJust(n, Do(n, s, events[0]), events[1..]);
    }
  }

  /** Over every run, what a call returned is right: EINVAL and EFBIG in exactly their cases; 0,
      EAGAIN or ERANGE only as the answer on the values at some moment, so that EAGAIN needs an
      operation with IPC_NOWAIT and ERANGE one that changes something; or EINTR, or the end of
      its task. */
  lemma RunAnswers(n: nat, events: seq<Event>, call: nat)
    requires Inv(n, Fresh(n)) && call in Exec(n, Fresh(n), events).returned
    ensures var s := Exec(n, Fresh(n), events);
            && call < |s.asked|
            && var ops, a := s.asked[call].ops, s.returned[call];
            && (a == EINVAL <==> ops == [])
            && (a == EFBIG <==> ops != [] && !InRange(ops, n))
            && (a == 0 || a == EAGAIN || a == ERANGE || a == EINVAL || a == EFBIG || a == EINTR || a == GONE)
            && (a == 0 || a == EAGAIN || a == ERANGE ==> exists at :: Turn(n, s.log, at, ops, a))
            && (a == EAGAIN ==> exists i | 0 <= i < |ops| :: ops[i].nowait)
            && (a == ERANGE ==> exists i | 0 <= i < |ops| :: ops[i].op != 0)
  {
    hide Inv, Exec, Turn, InRange;
    var s := Exec(n, Fresh(n), events);
    ExecJust(n, Fresh(n), events);
    var ops, a := s.asked[call].ops, s.returned[call];
    assert Reason(n, s.log, ops, a);
    if ops != [] && InRange(ops, n) && a != EINTR && a != GONE {
      var at: nat :| Turn(n, s.log, at, ops, a);
      TurnMeans(n, s.log, at, ops, a);
    }
  }

  lemma TurnMeans(n: nat, log: seq<Entry>, at: nat, ops: seq<SemOp>, a: int)
    requires Turn(n, log, at, ops, a)
    ensures a == 0 || a == 1 || a == EAGAIN || a == ERANGE
    ensures a == EAGAIN ==> exists i | 0 <= i < |ops| :: ops[i].nowait
    ensures a == ERANGE ==> exists i | 0 <= i < |ops| :: ops[i].op != 0
  {
    hide Serial, Answer, Stops, Blocks;
    var v :| Serial(n, log[..at], v) && |v.sem| == n && Answer(v.sem, ops) == a;
    AnswerIff(v.sem, ops);
  }

  // ---- the log on values and adjustments ----

  /** What process `pid` gives back to semaphore `i` when it exits. */
  function Owes(v: Vals, pid: nat, i: nat): int
    requires Fit(v, |v.sem|) && i < |v.sem|
  {
    var k := FindUndo(v.undos, pid);
    if k < |v.undos| then v.undos[k].adj[i] else 0
  }

  ghost predicate OneUndoEach(undos: seq<Undo>) {
    forall i, j | 0 <= i < j < |undos| :: undos[i].pid != undos[j].pid
  }

  /** What an entry of the log does to the value of semaphore `i`. */
  ghost function NewValue(v: Vals, e: Entry, i: nat): int
    requires Fit(v, |v.sem|) && i < |v.sem| && Possible(v, e)
  {
    match e
    case Done(_, _, ops) => v.sem[i] + Delta(ops, |ops|, i)
    case Opened(_) => v.sem[i]
    case SetOne(num, val) => if i == num then val else v.sem[i]
    case SetEvery(vals) => vals[i]
    case Exited(pid) => Max(0, v.sem[i] + Owes(v, pid, i))
  }

  /** What an entry of the log does to what `p` owes to semaphore `i`. */
  ghost function NewDebt(v: Vals, e: Entry, p: nat, i: nat): int
    requires Fit(v, |v.sem|) && i < |v.sem| && Possible(v, e)
  {
    match e
    case Done(_, pid, ops) => if p == pid then Short(Owes(v, p, i) - UndoDelta(ops, |ops|, i)) else Owes(v, p, i)
    case Opened(_) => Owes(v, p, i)
    case SetOne(num, _) => if i == num then 0 else Owes(v, p, i)
    case SetEvery(_) => 0
    case Exited(pid) => if p == pid then 0 else Owes(v, p, i)
  }

  lemma FindUndoIs(undos: seq<Undo>, pid: nat, k: nat)
    requires OneUndoEach(undos) && k <= |undos|
    requires if k < |undos| then undos[k].pid == pid else forall j | 0 <= j < |undos| :: undos[j].pid != pid
    ensures FindUndo(undos, pid) == k
  {
  }

  /** Each entry of the log changes values and debts, seen as tables, as it should, and no
      process has two undo structures. */
  lemma ChangeRefines(v: Vals, e: Entry, p: nat, i: nat)
    requires Fit(v, |v.sem|) && NonNegative(v.sem) && OneUndoEach(v.undos) && Possible(v, e) && i < |v.sem|
    requires e.Done? && NeedsUndo(e.ops) ==> exists u | u in v.undos :: u.pid == e.pid
    ensures OneUndoEach(Change(v, e).undos)
    ensures Change(v, e).sem[i] == NewValue(v, e, i) && Owes(Change(v, e), p, i) == NewDebt(v, e, p, i)
  {
    hide AllLegal, AllShort, Short, InRange, FindUndo, Operate, Leave, Delta, UndoDelta;
    var k, v' := FindUndo(v.undos, p), Change(v, e);
    match e
    case Done(_, pid, ops) => DoneRefines(v, pid, ops, p, i);
    case Opened(pid) =>
      if pid == p {
        FindUndoIs(v'.undos, p, if k < |v.undos| then k else 0);
      } else {
        FindUndoIs(v'.undos, p, if FindUndo(v.undos, pid) < |v.undos| then k else k + 1);
      }
    case SetOne(_, _) => FindUndoIs(v'.undos, p, k);
    case SetEvery(_) => FindUndoIs(v'.undos, p, k);
    case Exited(pid) => ExitRefines(v, pid, p, i);
  }

  /** Undo structures that are those of `v`, changed in their adjustments only. */
  lemma SameUndos(v: Vals, v': Vals, p: nat)
    requires OneUndoEach(v.undos) && |v'.undos| == |v.undos|
    requires forall j | 0 <= j < |v.undos| :: v'.undos[j].pid == v.undos[j].pid
    ensures OneUndoEach(v'.undos) && FindUndo(v'.undos, p) == FindUndo(v.undos, p)
  {
    hide FindUndo;
    FindUndoIs(v'.undos, p, FindUndo(v.undos, p));
  }

  /** The undo structures after an operation. */
  lemma OperateUndos(v: Vals, pid: nat, ops: seq<SemOp>)
    requires Fit(v, |v.sem|) && InRange(ops, |v.sem|)
    ensures var v', k := Operate(v, pid, ops), FindUndo(v.undos, pid);
            && Fit(v', |v.sem|) && |v'.undos| == |v.undos|
            && (forall j | 0 <= j < |v.undos| && j != k :: v'.undos[j] == v.undos[j])
            && (k < |v.undos| ==> v'.undos[k] == Undo(pid, Adjust(v.undos[k].adj, ops, |ops|)))
  {
    hide Values, Adjust, AllShort, InRange, FindUndo;
  }

  /** The adjustment of the process that operates. */
  lemma OwnDebt(v: Vals, pid: nat, ops: seq<SemOp>, i: nat)
    requires Fit(v, |v.sem|) && OneUndoEach(v.undos) && InRange(ops, |v.sem|) && i < |v.sem|
    requires NeedsUndo(ops) ==> FindUndo(v.undos, pid) < |v.undos|
    ensures Fit(Operate(v, pid, ops), |v.sem|)
    ensures Owes(Operate(v, pid, ops), pid, i) == Short(Owes(v, pid, i) - UndoDelta(ops, |ops|, i))
  {
    hide Operate, Values, Adjust, UndoDelta, Short, AllShort, InRange, FindUndo, NeedsUndo, OneUndoEach;
    var v', k := Operate(v, pid, ops), FindUndo(v.undos, pid);
    OperateUndos(v, pid, ops);
    SameUndos(v, v', pid);
    if k < |v.undos| {
      AdjustsAreSums(v.undos[k].adj, ops, |ops|, i);
    } else {
      NoUndoDelta(ops, |ops|, i);
      ShortZero();
    }
  }

  lemma DoneRefines(v: Vals, pid: nat, ops: seq<SemOp>, p: nat, i: nat)
    requires Fit(v, |v.sem|) && OneUndoEach(v.undos) && InRange(ops, |v.sem|) && i < |v.sem|
    requires NeedsUndo(ops) ==> exists u | u in v.undos :: u.pid == pid
    ensures var v' := Operate(v, pid, ops);
            && Fit(v', |v.sem|) && OneUndoEach(v'.undos) && v'.sem[i] == v.sem[i] + Delta(ops, |ops|, i)
            && Owes(v', p, i) == if p == pid then Short(Owes(v, p, i) - UndoDelta(ops, |ops|, i)) else Owes(v, p, i)
  {
    hide Values, Delta, UndoDelta, Adjust, Short, AllShort, InRange, FindUndo, NeedsUndo, OneUndoEach;
    ValuesAreSums(v.sem, ops, |ops|, i);
    OperateUndos(v, pid, ops);
    SameUndos(v, Operate(v, pid, ops), p);
    if p == pid {
      OwnDebt(v, pid, ops, i);
    }
  }

  lemma ShortZero()
    ensures Short(0) == 0
  {
  }

  lemma ExitRefines(v: Vals, pid: nat, p: nat, i: nat)
    requires Fit(v, |v.sem|) && NonNegative(v.sem) && OneUndoEach(v.undos) && i < |v.sem|
    ensures var v' := Leave(v, pid);
            && Fit(v', |v.sem|) && OneUndoEach(v'.undos) && v'.sem[i] == Max(0, v.sem[i] + Owes(v, pid, i))
            && Owes(v', p, i) == if p == pid then 0 else Owes(v, p, i)
  {
    hide FindUndo, AllShort;
    var v', d, k := Leave(v, pid), FindUndo(v.undos, pid), FindUndo(v.undos, p);
    if d < |v.undos| {
      forall j | 0 <= j < |v'.undos|
        ensures v'.undos[j] == v.undos[if j < d then j else j + 1]
      {
      }
      FindUndoIs(v'.undos, p, if p == pid then |v'.undos| else if k < d then k else k - 1);
    }
  }
}
