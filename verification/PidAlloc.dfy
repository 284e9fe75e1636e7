/** get_pid of kernel/fork.c and the point where a forked task becomes visible. */
module PidAlloc {
  import opened Lists

  const PID_MAX: int := 0x8000
  /** Where the search starts again after the last number. */
  const RESERVED: int := 300

  datatype Task = Task(pid: int, pgrp: int, session: int)

  function IdsOf(t: Task): set<int> {
    {t.pid, t.pgrp, t.session}
  }

  /** Every number in use as a pid, a process group or a session. */
  function Used(tasks: seq<Task>): (r: set<int>) {
    if tasks == [] then {} else IdsOf(tasks[0]) + Used(tasks[1..])
  }

  lemma {:induction false} UsedIn(tasks: seq<Task>, x: int)
    ensures x in Used(tasks) <==> exists i | 0 <= i < |tasks| :: x in IdsOf(tasks[i])
  {
    if tasks != [] {
      UsedIn(tasks[1..], x);
      if x in Used(tasks[1..]) {
        var i :| 0 <= i < |tasks[1..]| && x in IdsOf(tasks[1..][i]);
        assert x in IdsOf(tasks[i + 1]);
      }
      if exists i | 0 <= i < |tasks| :: x in IdsOf(tasks[i]) {
        var i :| 0 <= i < |tasks| && x in IdsOf(tasks[i]);
        assert i > 0 ==> tasks[1..][i - 1] == tasks[i];
      }
    }
  }

  /** `r` is the first free number after `last`, going up to the last number and then on
      from RESERVED. */
  ghost predicate CyclicFirst(used: set<int>, last: int, r: int) {
    && r !in used
    && if last < r < PID_MAX then forall x | last < x < r :: x in used
       else
         && RESERVED <= r <= last
         && (forall x | last < x < PID_MAX :: x in used)
         && (forall x | RESERVED <= x < r :: x in used)
  }

  /** A number that the search can reach. */
  ghost predicate HasFree(used: set<int>, last: int) {
    exists f | f !in used :: f < PID_MAX && (f > last || f >= RESERVED)
  }

  /** No number in use lies strictly between the last number given out and `next`. */
  ghost predicate SafeGap(used: set<int>, last: int, next: int) {
    forall x | x in used :: !(last < x < next)
  }

  /** `next` is the least number in use above `last`, or PID_MAX. */
  ghost predicate NextUsed(used: set<int>, last: int, next: int) {
    SafeGap(used, last, next) && last < next <= PID_MAX && (next == PID_MAX || next in used)
  }

  /** The specification determines the result. */
  lemma CyclicFirstUnique(used: set<int>, last: int, r: int, r': int)
    requires CyclicFirst(used, last, r) && CyclicFirst(used, last, r')
    ensures r == r'
  {
  }

  /** Numbers to look at from `c` before the search comes to `f`. */
  function Distance(c: int, f: int): int {
    if c <= f then f - c else PID_MAX - c + f - RESERVED
  }

  /** Every number that the search from `last` to `c` has left behind is in use. */
  ghost predicate Passed(used: set<int>, last: int, c: int) {
    if last < c then forall x | last < x < c :: x in used
    else
      && RESERVED <= c
      && (forall x | last < x < PID_MAX :: x in used)
      && (forall x | RESERVED <= x < c :: x in used)
  }

  /** A free number the search will come to, the nearest kind first. */
  ghost function FreeTarget(used: set<int>, last: int): (f: int)
    requires HasFree(used, last)
    ensures f !in used && f < PID_MAX && (f > last || f >= RESERVED)
    ensures f > last || forall x | last < x < PID_MAX :: x in used
  {
    if exists x :: last < x < PID_MAX && x !in used then
      var x :| last < x < PID_MAX && x !in used;
      x
    else
      var x :| x !in used && x < PID_MAX && x >= RESERVED;
      x
  }

  /** The test at the head of get_pid that skips the search. */
  predicate FastPath(last: int, next: int) {
    last + 1 < PID_MAX && last + 1 < next
  }

  /** What get_pid makes of its two variables. */
  ghost predicate Outcome(used: set<int>, last: int, next: int, r: int, next': int) {
    if FastPath(last, next) then r == last + 1 && next' == next
    else CyclicFirst(used, last, r) && NextUsed(used, r, next')
  }

  /** Moving `next` down to the ids of one task, as the three tests of the scan do. */
  function Lower(next: int, last: int, x: int): int {
    if x > last && next > x then x else next
  }

  class Allocator {
    var lastPid: int
    var nextSafe: int
    var tasks: seq<Task>

    ghost predicate Valid()
      reads this
    {
      0 <= lastPid < PID_MAX && nextSafe <= PID_MAX && SafeGap(Used(tasks), lastPid, nextSafe)
    }

    constructor (boot: Task)
      requires IdsOf(boot) == {0}
      ensures Valid() && tasks == [boot]
    {
      lastPid, nextSafe, tasks := 0, PID_MAX, [boot];
    }

    /** The candidate is taken: the next one, round the end if need be. */
    method Advance(ghost used: set<int>, ghost last: int, ghost f: int)
      requires 0 <= last < PID_MAX && 0 <= lastPid < nextSafe <= PID_MAX && Passed(used, last, lastPid)
                && lastPid in used
      requires f !in used && f < PID_MAX && (f > last ==> lastPid <= f && last < lastPid) && (f > last || f >= RESERVED)
      requires f > last || forall x | last < x < PID_MAX :: x in used
      modifies this`lastPid, this`nextSafe
      ensures 0 <= lastPid < nextSafe <= PID_MAX && Passed(used, last, lastPid) && (f > last ==> last < lastPid <= f)
      ensures nextSafe == PID_MAX || nextSafe == old(nextSafe)
      ensures 0 <= Distance(lastPid, f) < Distance(old(lastPid), f)
    {
      lastPid := lastPid + 1;
      if lastPid >= nextSafe {
        if lastPid >= PID_MAX {
          lastPid := RESERVED;
        }
        nextSafe := PID_MAX;
      }
    }

    /** The scan of get_pid from the label `inside` on. It comes to an end because there is a
        free number that it can reach. */
    method Scan(ghost last: int)
      requires 0 <= last < PID_MAX && HasFree(Used(tasks), last)
      requires lastPid == if last + 1 >= PID_MAX then RESERVED else last + 1
      modifies this`lastPid, this`nextSafe
      ensures CyclicFirst(Used(tasks), last, lastPid) && NextUsed(Used(tasks), lastPid, nextSafe)
    {
      hide Distance, FreeTarget, Used;
      ghost var used := Used(tasks);
      nextSafe := PID_MAX;
      ghost var f := FreeTarget(used, last);
      var i := 0;
      while i < |tasks|
        invariant 0 <= i <= |tasks| && 0 <= lastPid < nextSafe <= PID_MAX
        invariant Passed(used, last, lastPid) && (f > last ==> last < lastPid <= f)
        invariant nextSafe == PID_MAX || nextSafe in used
        invariant forall j, x | 0 <= j < i && x in IdsOf(tasks[j]) :: x != lastPid && !(lastPid < x < nextSafe)
        decreases Distance(lastPid, f), |tasks| - i
      {
        var p := tasks[i];
        UsedIn(tasks, p.pid);
        UsedIn(tasks, p.pgrp);
        UsedIn(tasks, p.session);
        assert p.pid in IdsOf(p) && p.pgrp in IdsOf(p) && p.session in IdsOf(p);
        if p.pid == lastPid || p.pgrp == lastPid || p.session == lastPid {
          Advance(used, last, f);
          i := 0;
        } else {
          nextSafe := Lower(nextSafe, lastPid, p.pid);
          nextSafe := Lower(nextSafe, lastPid, p.pgrp);
          nextSafe := Lower(nextSafe, lastPid, p.session);
          i := i + 1;
        }
      }
      forall x | x in used
        ensures x != lastPid && !(lastPid < x < nextSafe)
      {
        UsedIn(tasks, x);
      }
    }

    /** get_pid without CLONE_PID */
    method GetPid() returns (pid: int)
      requires Valid() && HasFree(Used(tasks), lastPid)
      modifies this`lastPid, this`nextSafe
      ensures Valid() && pid == lastPid
      ensures CyclicFirst(Used(tasks), old(lastPid), pid)
      ensures Outcome(Used(tasks), old(lastPid), old(nextSafe), lastPid, nextSafe)
    {
      lastPid := lastPid + 1;
      if lastPid >= PID_MAX {
        lastPid := RESERVED;
      } else if lastPid < nextSafe {
        return lastPid;
      }
      Scan(old(lastPid));
      pid := lastPid;
    }
  }

  /** A free number can be reached if and only if there is a right answer: without one the
      scan would go round for ever. */
  lemma FreeIff(used: set<int>, last: int)
    requires 0 <= last < PID_MAX
    ensures HasFree(used, last) <==> exists r :: CyclicFirst(used, last, r)
  {
    if HasFree(used, last) {
      var f := FreeTarget(used, last);
      if f > last {
        var r := Lowest(used, last + 1, f);
        assert CyclicFirst(used, last, r);
      } else {
        var r := Lowest(used, RESERVED, f);
        assert CyclicFirst(used, last, r);
      }
    }
  }

  lemma {:induction false} Lowest(used: set<int>, c: int, f: int) returns (r: int)
    requires c <= f && f !in used
    ensures c <= r <= f && r !in used && forall x | c <= x < r :: x in used
    decreases f - c
  {
    r := c;
    if c in used {
      r := Lowest(used, c + 1, f);
    }
  }

  // ---- forks that overlap ----

  /** A fork whose task is not yet linked into the task list: do_fork copies group and session
      from the parent and calls get_pid long before SET_LINKS. `lap` counts how often the
      numbers had started again at RESERVED when it was given its own. */
  datatype Child = Child(task: Task, lap: nat)

  datatype State = State(last: int, next: int, tasks: seq<Task>, pending: seq<Child>, lap: nat)

  datatype Event =
    | Fork(parent: nat)
    | Publish(k: nat)
    | Abandon(k: nat)
    | Exit(i: nat)
    | Regroup(i: nat, pgrp: int, session: int)

  /** Without a free number the scan does not end; the fast path makes no scan. */
  ghost predicate CanFork(s: State) {
    FastPath(s.last, s.next) || HasFree(Used(s.tasks), s.last)
  }

  ghost predicate Step(s: State, e: Event, s': State) {
    match e
    case Fork(i) =>
      && i < |s.tasks| && CanFork(s) && Outcome(Used(s.tasks), s.last, s.next, s'.last, s'.next)
      && s'.tasks == s.tasks && s'.lap == (if s'.last <= s.last then s.lap + 1 else s.lap)
      && s'.pending == s.pending + [Child(Task(s'.last, s.tasks[i].pgrp, s.tasks[i].session), s'.lap)]
    case Publish(k) =>
      k < |s.pending| && s' == s.(tasks := s.tasks + [s.pending[k].task], pending := Without(s.pending, k))
    case Abandon(k) =>
      // do_fork fails after get_pid
      k < |s.pending| && s' == s.(pending := Without(s.pending, k))
    case Exit(i) =>
      i < |s.tasks| && s' == s.(tasks := Without(s.tasks, i))
    case Regroup(i, pgrp, session) =>
      // setpgid and setsid only use numbers of existing tasks
      && i < |s.tasks| && pgrp in Used(s.tasks) && session in Used(s.tasks)
      && s' == s.(tasks := s.tasks[i := Task(s.tasks[i].pid, pgrp, session)])
  }

  ghost predicate IsRun(run: seq<State>, events: seq<Event>) {
    |run| == |events| + 1 && forall i | 0 <= i < |events| :: Step(run[i], events[i], run[i + 1])
  }

  ghost predicate InBounds(s: State) {
    0 <= s.last < PID_MAX && s.next <= PID_MAX
  }

  ghost predicate Ok(s: State) {
    InBounds(s) && SafeGap(Used(s.tasks), s.last, s.next)
  }

  lemma FewerUsed(a: seq<Task>, b: seq<Task>, extra: set<int>, last: int, next: int)
    requires SafeGap(Used(a), last, next) && SafeGap(extra, last, next)
    requires forall i | 0 <= i < |b| :: b[i] in a || IdsOf(b[i]) <= Used(a) + extra
    ensures SafeGap(Used(b), last, next)
  {
    forall x | x in Used(b)
      ensures !(last < x < next)
    {
      UsedIn(b, x);
      var i :| 0 <= i < |b| && x in IdsOf(b[i]);
      if b[i] in a {
        var j :| 0 <= j < |a| && a[j] == b[i];
        assert x in IdsOf(a[j]);
        UsedIn(a, x);
      }
    }
  }

  lemma TaskIdsUsed(tasks: seq<Task>, i: nat)
    requires i < |tasks|
    ensures IdsOf(tasks[i]) <= Used(tasks)
  {
    forall x | x in IdsOf(tasks[i])
      ensures x in Used(tasks)
    {
      UsedIn(tasks, x);
    }
  }

  // ---- when the cached gap is right ----

  /** A fork gives out a number in use if and only if it does not look and the next number is
      one. */
  lemma ForkIff(s: State, i: nat, s': State)
    requires InBounds(s) && Step(s, Fork(i), s')
    ensures s'.last in Used(s.tasks) <==> FastPath(s.last, s.next) && s.last + 1 in Used(s.tasks)
  {}

  /** `n` forks on the fast path hand out `n` numbers without looking at the tasks. */
  lemma {:induction false} ForkMany(s: State, n: nat) returns (run: seq<State>, events: seq<Event>)
    requires 0 <= s.last && s.last + n < s.next <= PID_MAX && s.tasks != []
    ensures IsRun(run, events) && run[0] == s && |events| == n && forall i | 0 <= i < n :: events[i] == Fork(0)
    ensures forall i | 0 <= i <= n ::
              run[i].tasks == s.tasks && run[i].next == s.next && run[i].lap == s.lap && run[i].last == s.last + i
    ensures |run[n].pending| == |s.pending| + n && run[n].pending[..|s.pending|] == s.pending
    ensures n > 0 ==> run[n].pending[|s.pending| + n - 1]
                      == Child(Task(s.last + n, s.tasks[0].pgrp, s.tasks[0].session), s.lap)
    decreases n
  {
    if n == 0 {
      run, events := [s], [];
    } else {
      run, events := ForkMany(s, n - 1);
      var t := run[n - 1];
      var c := Child(Task(t.last + 1, s.tasks[0].pgrp, s.tasks[0].session), s.lap);
      var t' := t.(last := t.last + 1, pending := t.pending + [c]);
      assert Step(t, Fork(0), t');
      assert IsRun([t'], []);
      run, events := JoinRuns(run, events, Fork(0), [t'], []);
    }
  }

  /** Two runs with one step between them. */
  lemma JoinRuns(run1: seq<State>, events1: seq<Event>, e: Event, run2: seq<State>, events2: seq<Event>)
    returns (run: seq<State>, events: seq<Event>)
    requires IsRun(run1, events1) && IsRun(run2, events2) && Step(run1[|events1|], e, run2[0])
    ensures IsRun(run, events) && run == run1 + run2 && events == events1 + [e] + events2
  {
    hide Step;
    run, events := run1 + run2, events1 + [e] + events2;
    var n := |events1|;
    forall i | 0 <= i < |events|
      ensures Step(run[i], events[i], run[i + 1])
    {
      if i < n {
        assert run[i] == run1[i] && run[i + 1] == run1[i + 1] && events[i] == events1[i];
      } else if i > n {
        assert run[i] == run2[i - n - 1] && run[i + 1] == run2[i - n - 1 + 1] && events[i] == events2[i - n - 1];
      }
    }
  }

  /** A run of forks alone. */
  ghost predicate ForksFrom(s: State, run: seq<State>, events: seq<Event>) {
    IsRun(run, events) && run[0] == s && forall i | 0 <= i < |events| :: events[i].Fork?
  }

  /** Every fork of the run gets the number it should. */
  ghost predicate RightForks(run: seq<State>, events: seq<Event>)
    requires IsRun(run, events)
  {
    forall i | 0 <= i < |events| && events[i].Fork? :: CyclicFirst(Used(run[i].tasks), run[i].last, run[i + 1].last)
  }

  lemma ForkOk(s: State, i: nat, s': State)
    requires Ok(s) && Step(s, Fork(i), s')
    ensures Ok(s') && CyclicFirst(Used(s.tasks), s.last, s'.last)
  {}

  lemma {:induction false} ForksOk(run: seq<State>, events: seq<Event>, n: nat)
    requires IsRun(run, events) && (forall i | 0 <= i < |events| :: events[i].Fork?) && n <= |events| && Ok(run[0])
    ensures Ok(run[n])
  {
    hide Step, Ok, CyclicFirst;
    if n > 0 {
      ForksOk(run, events, n - 1);
      ForkOk(run[n - 1], events[n - 1].parent, run[n - 1 + 1]);
    }
  }

  /** The gap is free of used numbers if and only if any number of forks in a row is answered
      right: a used number in the gap is given out again, by one of the next forks. */
  lemma GapIff(s: State)
    requires InBounds(s) && s.tasks != []
    ensures Ok(s) <==>
              forall run: seq<State>, events: seq<Event> | ForksFrom(s, run, events) :: RightForks(run, events)
  {
    hide Step, CyclicFirst;
    if Ok(s) {
      forall run: seq<State>, events: seq<Event> | ForksFrom(s, run, events)
        ensures RightForks(run, events)
      {
        forall i | 0 <= i < |events|
          ensures CyclicFirst(Used(run[i].tasks), run[i].last, run[i + 1].last)
        {
          ForksOk(run, events, i);
          ForkOk(run[i], events[i].parent, run[i + 1]);
        }
      }
    } else {
      var x :| x in Used(s.tasks) && s.last < x < s.next;
      var n: nat := x - s.last;
      var run, events := ForkMany(s, n);
      assert run[n - 1 + 1].last == x && x in Used(run[n - 1].tasks);
      UsedNotFirst(Used(s.tasks), s.last + n - 1, x);
      assert events[n - 1].Fork? && ForksFrom(s, run, events) && !RightForks(run, events);
    }
  }

  lemma UsedNotFirst(used: set<int>, last: int, x: int)
    requires x in used
    ensures !CyclicFirst(used, last, x)
  {}

  lemma PublishGap(s: State, k: nat, s': State)
    requires Ok(s) && Step(s, Publish(k), s')
    ensures Ok(s') <==> SafeGap(IdsOf(s.pending[k].task), s.last, s.next)
  {
    var t := s.pending[k].task;
    if SafeGap(IdsOf(t), s.last, s.next) {
      FewerUsed(s.tasks, s'.tasks, IdsOf(t), s.last, s.next);
    } else {
      assert s'.tasks[|s.tasks|] == t;
      TaskIdsUsed(s'.tasks, |s.tasks|);
    }
  }

  /** After a child is published the forks to come are answered right if and only if none of its
      number, its group and its session lies strictly between last_pid and next_safe. */
  lemma PublishIff(s: State, k: nat, s': State)
    requires Ok(s) && Step(s, Publish(k), s')
    ensures (forall run: seq<State>, events: seq<Event> | ForksFrom(s', run, events) :: RightForks(run, events))
            <==> forall x | x in IdsOf(s.pending[k].task) :: !(s.last < x < s.next)
  {
    hide Ok;
    PublishGap(s, k, s');
    assert InBounds(s') by { PublishBounds(s, k, s'); }
    GapIff(s');
  }

  lemma PublishBounds(s: State, k: nat, s': State)
    requires Ok(s) && Step(s, Publish(k), s')
    ensures InBounds(s')
  {}

  // ---- publications in time ----

  /** The child is published before the numbers start again, and while its group and its session
      are still those of some visible task. */
  predicate InTime(s: State, e: Event) {
    e.Publish? && e.k < |s.pending| ==>
      && s.pending[e.k].lap == s.lap
      && s.pending[e.k].task.pgrp in Used(s.tasks) && s.pending[e.k].task.session in Used(s.tasks)
  }

  /** The children of the present lap. */
  predicate Present(s: State, k: nat) {
    k < |s.pending| && s.pending[k].lap == s.lap
  }

  /** They have numbers up to the last one, all different, that no visible task has as its pid;
      and no two visible tasks have the same pid. */
  ghost predicate Numbered(s: State) {
    && (forall k | 0 <= k < |s.pending| :: s.pending[k].lap <= s.lap)
    && (forall k: nat | Present(s, k) :: s.pending[k].task.pid <= s.last)
    && (forall j: nat, k: nat | j < k && Present(s, j) && Present(s, k) ::
          s.pending[j].task.pid != s.pending[k].task.pid)
    && (forall k: nat, i | Present(s, k) && 0 <= i < |s.tasks| :: s.tasks[i].pid != s.pending[k].task.pid)
    && (forall i, j | 0 <= i < j < |s.tasks| :: s.tasks[i].pid != s.tasks[j].pid)
  }

  lemma StepOk(s: State, e: Event, s': State)
    requires Ok(s) && Numbered(s) && Step(s, e, s') && InTime(s, e)
    ensures Ok(s')
    ensures e.Fork? ==> CyclicFirst(Used(s.tasks), s.last, s'.last)
  {
    match e
    case Fork(_) =>
    case Publish(k) =>
      assert Present(s, k);
      FewerUsed(s.tasks, s'.tasks, {s.pending[k].task.pid}, s.last, s.next);
    case Abandon(_) =>
    case Exit(i) =>
      FewerUsed(s.tasks, s'.tasks, {}, s.last, s.next);
    case Regroup(i, pgrp, session) =>
      TaskIdsUsed(s.tasks, i);
      FewerUsed(s.tasks, s'.tasks, {}, s.last, s.next);
  }

  lemma ForkNumbered(s: State, i: nat, s': State)
    requires Ok(s) && Numbered(s) && Step(s, Fork(i), s')
    ensures Numbered(s')
  {
    hide Used;
    ForkOk(s, i, s');
    forall j | 0 <= j < |s.tasks|
      ensures s.tasks[j].pid != s'.last
    {
      TaskIdsUsed(s.tasks, j);
    }
  }

  lemma WithoutChild(s: State, k: nat)
    requires Numbered(s) && k < |s.pending|
    ensures Numbered(s.(pending := Without(s.pending, k)))
  {
    var s' := s.(pending := Without(s.pending, k));
    forall j: nat | j < |s'.pending|
      ensures s'.pending[j] == s.pending[if j < k then j else j + 1]
      ensures Present(s', j) ==> Present(s, if j < k then j else j + 1)
    {}
  }

  lemma PublishNumbered(s: State, k: nat, s': State)
    requires Numbered(s) && Step(s, Publish(k), s') && Present(s, k)
    ensures Numbered(s')
  {
    forall j: nat | j < |s'.pending|
      ensures s'.pending[j] == s.pending[if j < k then j else j + 1]
      ensures Present(s', j) ==> Present(s, if j < k then j else j + 1)
    {}
  }

  lemma StepNumbered(s: State, e: Event, s': State)
    requires Ok(s) && Numbered(s) && Step(s, e, s') && InTime(s, e)
    ensures Numbered(s')
  {
    match e
    case Fork(i) => ForkNumbered(s, i, s');
    case Publish(k) => PublishNumbered(s, k, s');
    case Abandon(k) => WithoutChild(s, k);
    case Exit(i) =>
      assert forall k: nat :: Present(s', k) <==> Present(s, k);
    case Regroup(i, pgrp, session) =>
      assert forall k: nat :: Present(s', k) <==> Present(s, k);
  }

  /** Over every run whose children are published in time, each fork gets the cyclically first
      number that no visible task uses, and no two visible tasks ever share a number. */
  lemma {:induction false} RunFirst(run: seq<State>, events: seq<Event>, n: nat)
    requires IsRun(run, events) && Ok(run[0]) && Numbered(run[0]) && n <= |events|
    requires forall i | 0 <= i < |events| :: InTime(run[i], events[i])
    ensures Ok(run[n]) && Numbered(run[n])
    ensures forall i, j | 0 <= i < j < |run[n].tasks| :: run[n].tasks[i].pid != run[n].tasks[j].pid
    ensures n < |events| && events[n].Fork? ==> CyclicFirst(Used(run[n].tasks), run[n].last, run[n + 1].last)
  {
    hide Step, Ok, CyclicFirst;
    if n > 0 {
      RunFirst(run, events, n - 1);
      StepOk(run[n - 1], events[n - 1], run[n - 1 + 1]);
      StepNumbered(run[n - 1], events[n - 1], run[n - 1 + 1]);
    }
    if n < |events| {
      StepOk(run[n], events[n], run[n + 1]);
    }
  }

  const Boot: Task := Task(0, 0, 0)
  const BootState: State := State(0, PID_MAX, [Boot], [], 0)

  /** Runs begin at boot. */
  lemma BootOk()
    ensures Ok(BootState) && Numbered(BootState)
  {
    assert [Boot][1..] == [];
  }

  // ---- publications out of time ----

  /** The task list after the late publication. */
  lemma LateUsed()
    ensures Used([Boot]) == {0} && Used([Boot] + [Task(32767, 0, 0)]) == {0, 32767}
    ensures HasFree({0}, 32767)
  {
    var t := Task(32767, 0, 0);
    assert [t][1..] == [] && Used([t]) == {0, 32767};
    assert [Boot][1..] == [];
    assert ([Boot] + [t])[1..] == [t];
    var a: set<int> := {0};
    assert 300 !in a;
    assert HasFree(a, 32767);
  }

  /** A run from boot to two tasks of one number: a fork is given 32767 and sleeps, the next one
      starts again at 300, the first one is published a lap late, its number comes round on the
      fast path, and that child is published as well. */
  lemma SleepingForkDuplicates() returns (run: seq<State>, events: seq<Event>)
    ensures IsRun(run, events) && run[0] == BootState && |events| > 0
    ensures var end := run[|events|].tasks;
            exists i, j | 0 <= i < j < |end| :: end[i].pid == end[j].pid
  {
    LateUsed();
    var late := Task(32767, 0, 0);
    var run1, forks1 := ForkMany(BootState, 32767);
    var s1 := run1[32767];
    var s2 := s1.(last := 300, pending := s1.pending + [Child(Task(300, 0, 0), 1)], lap := 1);
    var e := Publish(32766);
    var s3 := s2.(tasks := [Boot] + [late], pending := Without(s2.pending, 32766));
    assert Step(s1, Fork(0), s2);
    assert Step(s2, e, s3);
    assert IsRun([s2], []);
    var run2, events2 := JoinRuns(run1, forks1, Fork(0), [s2], []);
    var run3, forks3 := ForkMany(s3, 32467);
    run, events := JoinRuns(run2, events2, e, run3, forks3);
    var s4 := run3[32467];
    var k: nat := |s4.pending| - 1;
    assert s4.pending[k].task == late;
    var s5 := s4.(tasks := s4.tasks + [late], pending := Without(s4.pending, k));
    assert Step(s4, Publish(k), s5);
    assert run[|events|] == s4;
    assert IsRun([s5], []);
    run, events := JoinRuns(run, events, Publish(k), [s5], []);
    assert s5.tasks[1].pid == s5.tasks[2].pid;
  }

  /** A group that is no longer in use does the same within one lap: task 10 of group 500 forks,
      is moved out of that group, and another fork looks at the tasks before the child is
      published; 49 forks later 500 is given out although the child is of group 500. */
  lemma StaleGroupReused() returns (run: seq<State>, events: seq<Event>)
    ensures IsRun(run, events) && Ok(run[0]) && Numbered(run[0]) && |events| > 0
    ensures forall i | 0 <= i < |events| && events[i].Publish? && events[i].k < |run[i].pending| ::
              run[i].pending[events[i].k].lap == run[i].lap
    ensures events[|events| - 1].Fork? && run[|events|].last in Used(run[|events| - 1].tasks)
  {
    var s0 := State(448, 450, [Boot, Task(10, 500, 0), Task(450, 450, 0)], [], 0);
    var child := Task(449, 500, 0);
    var s1 := s0.(last := 449, pending := [Child(child, 0)]);
    var s2 := s1.(tasks := [Boot, Task(10, 10, 0), Task(450, 450, 0)]);
    var s3 := s2.(last := 451, next := PID_MAX, pending := s2.pending + [Child(Task(451, 0, 0), 0)]);
    var s4 := s3.(tasks := s3.tasks + [child], pending := Without(s3.pending, 0));
    StaleUsed();
    assert Step(s0, Fork(1), s1);
    assert Step(s1, Regroup(1, 10, 0), s2);
    assert 451 !in Used(s2.tasks) && HasFree(Used(s2.tasks), 449);
    assert Step(s2, Fork(0), s3);
    assert Step(s3, Publish(0), s4);
    assert s4.pending[0].lap == 0;
    var es := [Fork(1), Regroup(1, 10, 0), Fork(0)];
    assert IsRun([s0, s1, s2, s3], es);
    var run1, forks := ForkMany(s4, 49);
    run, events := JoinRuns([s0, s1, s2, s3], es, Publish(0), run1, forks);
    assert run[|events| - 1].tasks == s4.tasks && run[|events|].last == 500;
  }

  lemma StaleUsed()
    ensures Used([Boot, Task(10, 500, 0), Task(450, 450, 0)]) == {0, 10, 450, 500}
    ensures Used([Boot, Task(10, 10, 0), Task(450, 450, 0)]) == {0, 10, 450}
    ensures 500 in Used([Boot, Task(10, 10, 0), Task(450, 450, 0)] + [Task(449, 500, 0)])
  {
    var t := Task(450, 450, 0);
    assert [t][1..] == [] && Used([t]) == {0, 450};
    assert [Task(10, 500, 0), t][1..] == [t] && [Task(10, 10, 0), t][1..] == [t];
    assert [Boot, Task(10, 500, 0), t][1..] == [Task(10, 500, 0), t];
    assert [Boot, Task(10, 10, 0), t][1..] == [Task(10, 10, 0), t];
    TaskIdsUsed([Boot, Task(10, 10, 0), t] + [Task(449, 500, 0)], 3);
  }
}
