/** IPC_RMID, a new set in the freed slot of the id table, and the calls of the removed set that
    wake afterwards. sem_lock finds a set by its slot alone. */
module SemRemoval {
  import opened SemOps
  import opened SemSystem

  /** A set that occupies the slot, or did. `left` are the calls that other tasks had finished and
      that had not run when the set was removed, `stopped` those that stopped at BUG(), each with
      its status. */
  datatype Gen = Gen(n: nat, s: State, alive: bool, left: map<nat, int>, stopped: map<nat, int>)

  /** The sets of the slot, one after the other. */
  datatype Slot = Slot(gens: seq<Gen>)

  predicate Occupied(w: Slot) {
    w.gens != [] && w.gens[|w.gens| - 1].alive
  }

  /** The loop of freeary over the pending list. */
  function Expelled(finished: map<nat, int>, queue: seq<Sleeper>): map<nat, int>
    decreases queue
  {
    if queue == [] then finished else Expelled(finished[queue[0].call := EIDRM], queue[1..])
  }

  function Removed(s: State): State {
    s.(queue := [], finished := Expelled(s.finished, s.queue))
  }

  datatype Step =
    | Create(n: nat)
    | InSet(e: Event)
    | Rmid
    | WakeOld(g: nat, call: nat)

  /** sem_lock of a removed set's call finds nothing, and its status is not EIDRM. */
  predicate AtBug(w: Slot, g: nat, call: nat) {
    && g < |w.gens| && !w.gens[g].alive && call in w.gens[g].s.finished && !Occupied(w)
    && w.gens[g].s.finished[call] != EIDRM
  }

  function Stop(x: Gen, call: nat): Gen
    requires call in x.s.finished
  {
    x.(s := x.s.(finished := x.s.finished - {call}), stopped := x.stopped[call := x.s.finished[call]])
  }

  ghost function Take(w: Slot, e: Step): Slot
    requires Ok(w)
  {
    var k := |w.gens| - 1;
    match e
    case Create(n) => if Occupied(w) then w else Slot(w.gens + [Gen(n, Fresh(n), true, map[], map[])])
    case InSet(e) =>
      if Occupied(w) then Slot(w.gens[k := w.gens[k].(s := Do(w.gens[k].n, w.gens[k].s, e))]) else w
    case Rmid =>
      if Occupied(w) then
        Slot(w.gens[k := w.gens[k].(s := Removed(w.gens[k].s), alive := false, left := w.gens[k].s.finished)])
      else w
    case WakeOld(g, call) =>
      if g < |w.gens| && !w.gens[g].alive && call in w.gens[g].s.finished then
        Slot(w.gens[g := if AtBug(w, g, call) then Stop(w.gens[g], call)
                         else w.gens[g].(s := Collect(w.gens[g].s, call))])
      else w
  }

  // ---- the invariant ----

  /** The set with the stopped calls put back among the finished ones. */
  function Whole(x: Gen): State {
    x.s.(finished := x.s.finished + x.stopped)
  }

  ghost predicate DeadOk(x: Gen) {
    && Kept(x.n, Whole(x)) && x.s.queue == []
    && (forall c | c in x.stopped :: c !in x.s.finished && c in x.left)
    && (forall c | c in x.s.finished :: x.s.finished[c] != EIDRM <==> c in x.left)
  }

  ghost predicate GenOk(x: Gen) {
    if x.alive then Inv(x.n, x.s) && x.left == map[] && x.stopped == map[] else DeadOk(x)
  }

  ghost predicate Ok(w: Slot) {
    && (forall g | 0 <= g < |w.gens| :: GenOk(w.gens[g]))
    && (forall g | 0 <= g < |w.gens| - 1 :: !w.gens[g].alive)
  }

  lemma {:induction false} ExpelledIs(finished: map<nat, int>, queue: seq<Sleeper>, c: nat)
    ensures c in Expelled(finished, queue) <==> c in finished || Queued(queue, c)
    ensures c in Expelled(finished, queue) ==>
              Expelled(finished, queue)[c] == if Queued(queue, c) then EIDRM else finished[c]
    decreases queue
  {
    if queue != [] {
      ExpelledIs(finished[queue[0].call := EIDRM], queue[1..], c);
      if Queued(queue[1..], c) {
        var i :| 0 <= i < |queue[1..]| && queue[1..][i].call == c;
        assert queue[i + 1].call == c;
      }
      if Queued(queue, c) && c != queue[0].call {
        var i :| 0 <= i < |queue| && queue[i].call == c;
        assert queue[1..][i - 1].call == c;
      }
      assert queue[0].call == c ==> Queued(queue, c);
    }
  }

  lemma RemovedKept(n: nat, s: State)
    requires Inv(n, s)
    ensures Kept(n, Removed(s))
    ensures forall c | c in Removed(s).finished :: Removed(s).finished[c] != EIDRM <==> c in s.finished
  {
    hide Serial, Count, Expelled;
    var s' := Removed(s);
    forall c: nat
      ensures c in s'.finished <==> c in s.finished || Queued(s.queue, c)
      ensures c in s'.finished ==> s'.finished[c] == if Queued(s.queue, c) then EIDRM else s.finished[c]
      ensures !(Queued(s.queue, c) && c in s.finished) && !Queued(s'.queue, c)
    {
      ExpelledIs(s.finished, s.queue, c);
    }
    forall c: nat
      ensures Succeeded(s', c) <==> Succeeded(s, c)
    {}
  }

  /** A call moved from the finished to the returned ones, or kept among the stopped. */
  lemma CollectKept(n: nat, s: State, call: nat)
    requires Kept(n, s) && call in s.finished
    ensures Kept(n, Collect(s, call))
  {
    hide Serial, Count;
    var s' := Collect(s, call);
    forall c: nat
      ensures Succeeded(s', c) <==> Succeeded(s, c)
    {}
  }

  lemma WakeOldOk(w: Slot, g: nat, call: nat)
    requires Ok(w) && g < |w.gens| && !w.gens[g].alive && call in w.gens[g].s.finished
    ensures GenOk(Take(w, WakeOld(g, call)).gens[g])
  {
    hide Kept, Inv;
    var x := w.gens[g];
    assert DeadOk(x) && call !in x.stopped;
    if AtBug(w, g, call) {
      assert Whole(Stop(x, call)) == Whole(x);
    } else {
      CollectKept(x.n, Whole(x), call);
      assert Whole(x.(s := Collect(x.s, call))) == Collect(Whole(x), call);
    }
  }

  lemma TakeOk(w: Slot, e: Step)
    requires Ok(w)
    ensures Ok(Take(w, e))
  {
    hide Kept, Do;
    var k := |w.gens| - 1;
    match e
    case Create(n) => FreshInv(n);
    case InSet(e) =>
    case Rmid =>
      if Occupied(w) {
        RemovedKept(w.gens[k].n, w.gens[k].s);
        assert Whole(Take(w, Rmid).gens[k]) == Removed(w.gens[k].s);
      }
    case WakeOld(g, call) =>
      if g < |w.gens| && !w.gens[g].alive && call in w.gens[g].s.finished {
        WakeOldOk(w, g, call);
      }
  }

  ghost function Exec(es: seq<Step>): (w: Slot)
    ensures Ok(w)
    decreases |es|
  {
    if es == [] then Slot([])
    else
      var v := Exec(es[..|es| - 1]);
      TakeOk(v, es[|es| - 1]);
      Take(v, es[|es| - 1])
  }

  // ---- who reaches BUG() ----

  /** What one step does to a set: it stays removed, keeps what was left behind, and only the
      wake-up at BUG() stops a call. */
  lemma TakeGen(w: Slot, e: Step, g: nat)
    requires Ok(w) && g < |w.gens|
    ensures var w' := Take(w, e);
            && g < |w'.gens|
            && (!w.gens[g].alive ==> !w'.gens[g].alive && w'.gens[g].left == w.gens[g].left)
            && (w.gens[g].alive && e == Rmid ==> !w'.gens[g].alive && w'.gens[g].left == w.gens[g].s.finished)
            && (w.gens[g].alive && e != Rmid ==> w'.gens[g].alive)
            && w'.gens[g].stopped.Keys == w.gens[g].stopped.Keys +
                 if e.WakeOld? && e.g == g && AtBug(w, g, e.call) then {e.call} else {}
  {
    hide GenOk, Do, Removed;
  }

  /** The state after the first `k` steps. */
  ghost function After(es: seq<Step>, k: nat): (w: Slot)
    requires k <= |es|
    ensures Ok(w)
  {
    Exec(es[..k])
  }

  lemma AfterNext(es: seq<Step>, k: nat)
    requires k < |es|
    ensures After(es, k + 1) == Take(After(es, k), es[k])
  {
    assert es[..k + 1][..k] == es[..k];
  }

  lemma AfterNone(es: seq<Step>)
    ensures After(es, 0) == Slot([])
  {
    assert es[..0] == [];
  }

  /** A set that a step puts into the slot is alive. */
  lemma TakeNew(w: Slot, e: Step, g: nat)
    requires Ok(w) && |w.gens| <= g < |Take(w, e).gens|
    ensures Take(w, e).gens[g].alive && Take(w, e).gens[g].stopped == map[]
  {
    hide GenOk, Do, Removed;
  }

  predicate Live(w: Slot, g: nat) {
    g < |w.gens| && w.gens[g].alive
  }

  /** Once its set is removed at step `r`, what was left behind stays as it was. */
  lemma {:induction false} LeftFrom(es: seq<Step>, g: nat, r: nat, m: nat)
    requires r < m <= |es| && es[r] == Rmid && Live(After(es, r), g)
    ensures var w := After(es, m);
            g < |w.gens| && !w.gens[g].alive && w.gens[g].left == After(es, r).gens[g].s.finished
    decreases m
  {
    hide After, Take, Ok;
    AfterNext(es, m - 1);
    if m > r + 1 {
      LeftFrom(es, g, r, m - 1);
    }
    TakeGen(After(es, m - 1), es[m - 1], g);
  }

  /** A removed set was removed at some step. */
  lemma {:induction false} LeftSince(es: seq<Step>, g: nat, m: nat) returns (r: nat)
    requires m <= |es| && g < |After(es, m).gens| && !After(es, m).gens[g].alive
    ensures r < m && es[r] == Rmid && Live(After(es, r), g)
    ensures After(es, m).gens[g].left == After(es, r).gens[g].s.finished
    decreases m
  {
    hide After, Take, Ok;
    AfterNone(es);
    AfterNext(es, m - 1);
    var v := After(es, m - 1);
    if g >= |v.gens| {
      TakeNew(v, es[m - 1], g);
    } else {
      TakeGen(v, es[m - 1], g);
      if v.gens[g].alive {
        r := m - 1;
      } else {
        r := LeftSince(es, g, m - 1);
      }
    }
  }

  lemma {:induction false} StoppedStays(es: seq<Step>, g: nat, c: nat, k: nat, m: nat)
    requires k <= m <= |es| && g < |After(es, k).gens| && c in After(es, k).gens[g].stopped
    ensures g < |After(es, m).gens| && c in After(es, m).gens[g].stopped
    decreases m
  {
    hide After, Take, Ok, AtBug;
    if k < m {
      StoppedStays(es, g, c, k, m - 1);
      AfterNext(es, m - 1);
      TakeGen(After(es, m - 1), es[m - 1], g);
    }
  }

  /** A removed set's call is at BUG() exactly if it was left behind and the slot is empty. */
  lemma AtBugIff(w: Slot, g: nat, c: nat)
    requires Ok(w)
    ensures AtBug(w, g, c) <==>
              g < |w.gens| && !w.gens[g].alive && c in w.gens[g].s.finished && c in w.gens[g].left && !Occupied(w)
  {
    hide Kept, Inv;
    if g < |w.gens| && !w.gens[g].alive {
      assert GenOk(w.gens[g]);
    }
  }

  /** At step `r` the set is removed while call `c`, finished by another task, has not run; at
      step `i` its task wakes for the first time since, and no set is in the slot. */
  ghost predicate Reaches(es: seq<Step>, g: nat, c: nat, r: nat, i: nat) {
    && r < i < |es|
    && es[r] == Rmid && Live(After(es, r), g) && c in After(es, r).gens[g].s.finished
    && es[i] == WakeOld(g, c) && g < |After(es, i).gens| && c in After(es, i).gens[g].s.finished
    && !Occupied(After(es, i))
  }

  lemma ReachesStops(es: seq<Step>, g: nat, c: nat, r: nat, i: nat)
    requires Reaches(es, g, c, r, i)
    ensures g < |After(es, |es|).gens| && c in After(es, |es|).gens[g].stopped
  {
    hide After, Take, Ok, AtBug;
    LeftFrom(es, g, r, i);
    AtBugIff(After(es, i), g, c);
    AfterNext(es, i);
    TakeGen(After(es, i), es[i], g);
    StoppedStays(es, g, c, i + 1, |es|);
  }

  lemma {:induction false} StopsReached(es: seq<Step>, g: nat, c: nat, m: nat) returns (r: nat, i: nat)
    requires m <= |es| && g < |After(es, m).gens| && c in After(es, m).gens[g].stopped
    ensures i < m && Reaches(es, g, c, r, i)
    decreases m
  {
    hide After, Take, Ok, AtBug;
    AfterNone(es);
    AfterNext(es, m - 1);
    var v := After(es, m - 1);
    if g >= |v.gens| {
      TakeNew(v, es[m - 1], g);
    } else {
      TakeGen(v, es[m - 1], g);
      if c in v.gens[g].stopped {
        r, i := StopsReached(es, g, c, m - 1);
      } else {
        i := m - 1;
        AtBugIff(v, g, c);
        r := LeftSince(es, g, i);
      }
    }
  }

  /** Over every run: a call stops at BUG() if and only if another task had finished it, the set
      was removed before it ran, and the slot was empty when it woke. */
  lemma BugIff(es: seq<Step>, g: nat, c: nat)
    requires g < |Exec(es).gens|
    ensures c in Exec(es).gens[g].stopped <==> exists r: nat, i: nat :: Reaches(es, g, c, r, i)
  {
    hide Exec, Reaches, Ok;
    assert After(es, |es|) == Exec(es) by { assert es[..|es|] == es; }
    if c in Exec(es).gens[g].stopped {
      var r, i := StopsReached(es, g, c, |es|);
    }
    if exists r: nat, i: nat :: Reaches(es, g, c, r, i) {
      var r: nat, i: nat :| Reaches(es, g, c, r, i);
      ReachesStops(es, g, c, r, i);
    }
  }

  /** Over every run, for every set that was ever in the slot: its values are a serial application
      of the lists that its calls asked for; a call is in the log once if it returned 0 and never
      if it returned an error, EIDRM among them; one stopped at BUG() with status 0 is in the log
      although it never returns. */
  lemma RunSerialAll(es: seq<Step>, g: nat, call: nat)
    requires g < |Exec(es).gens|
    ensures var x := Exec(es).gens[g];
            && Serial(x.n, x.s.log, x.s.vals)
            && (call in x.s.returned ==> Count(x.s.log, call) == if x.s.returned[call] == 0 then 1 else 0)
            && (call in x.stopped ==> Count(x.s.log, call) == if x.stopped[call] == 0 then 1 else 0)
            && (Queued(x.s.queue, call) ==> Count(x.s.log, call) == 0)
            && (forall k | 0 <= k < |x.s.log| && x.s.log[k].Done? ::
                  && x.s.log[k].call < |x.s.asked|
                  && x.s.asked[x.s.log[k].call] == Request(x.s.log[k].pid, x.s.log[k].ops))
  {
    hide Exec, Serial, Count;
    var x := Exec(es).gens[g];
    assert GenOk(x);
    var s := if x.alive then x.s else Whole(x);
    assert Kept(x.n, s);
    assert Count(s.log, call) == if Succeeded(s, call) then 1 else 0;
  }

  // ---- a run to BUG() ----

  const WaitForZero: seq<SemOp> := [SemOp(0, 0, false, false)]

  lemma ZeroWaits()
    ensures InRange(WaitForZero, 1) && !NeedsUndo(WaitForZero) && !Alters(WaitForZero) && !Decreases(WaitForZero)
    ensures Answer([1], WaitForZero) == 1 && Answer([0], WaitForZero) == 0
  {
    assert !Legal([1], WaitForZero, 0) && Legal([0], WaitForZero, 0);
  }

  /** The wait sleeps while the semaphore is 1. */
  lemma WaitSleeps(s: State)
    requires Inv(1, s) && s.vals.sem == [1] && s.queue == [] && s.calls == 0 && s.finished == map[]
    ensures var s' := Semop(1, s, 7, WaitForZero);
            s'.queue == [Sleeper(0, 7, WaitForZero, Asleep)] && s'.vals.sem == [1] && s'.finished == map[]
  {
    ZeroWaits();
    hide Inv, Answer, InRange, NeedsUndo, Alters;
  }

  /** Setting the semaphore to 0 finishes the wait. */
  lemma SetFinishes(s: State)
    requires Inv(1, s) && s.queue == [Sleeper(0, 7, WaitForZero, Asleep)] && s.finished == map[]
    ensures SetVal(1, s, 0, 0).finished == map[0 := 0]
  {
    ZeroWaits();
    OtherKeeps(1, s, SetOne(0, 0));
    var s1 := Record(s, SetOne(0, 0));
    assert s1.vals.sem == [0];
    FinishKeeps(1, s1, 0, 0);
    hide Inv, Answer, InRange, Decreases, Change;
    var s2 := Finish(s1, 0, 0);
    assert s2.queue == [] && s2.finished == map[0 := 0];
    assert UpdateQueue(1, s2, 0) == s2;
  }

  /** One task waits for a semaphore to become zero, another sets it to zero and removes the set,
      and the first one wakes. With a new set in the slot it returns instead. */
  lemma BugReached()
    ensures var es := [Create(1), InSet(CallSetVal(0, 1)), InSet(CallSemop(7, WaitForZero)),
                       InSet(CallSetVal(0, 0)), Rmid];
            && |Exec(es + [WakeOld(0, 0)]).gens| == 1 && 0 in Exec(es + [WakeOld(0, 0)]).gens[0].stopped
            && |Exec(es + [Create(1)] + [WakeOld(0, 0)]).gens| == 2
            && 0 in Exec(es + [Create(1)] + [WakeOld(0, 0)]).gens[0].s.returned
  {
    var e1, e2, e3, e4 := InSet(CallSetVal(0, 1)), InSet(CallSemop(7, WaitForZero)), InSet(CallSetVal(0, 0)), Rmid;
    var es := [Create(1), e1, e2, e3, e4];
    FreshInv(1);
    var s1 := SetVal(1, Fresh(1), 0, 1);
    assert s1.vals.sem == [1] && s1.queue == [] && s1.calls == 0 && s1.finished == map[];
    WaitSleeps(s1);
    var s2 := Semop(1, s1, 7, WaitForZero);
    SetFinishes(s2);
    var s3 := SetVal(1, s2, 0, 0);
    BuiltUp(es, s1, s2, s3);
  }

  lemma Append(es: seq<Step>, e: Step)
    ensures Exec(es + [e]) == Take(Exec(es), e)
  {
    assert (es + [e])[..|es|] == es;
  }

  lemma BuiltUp(es: seq<Step>, s1: State, s2: State, s3: State)
    requires es == [Create(1), InSet(CallSetVal(0, 1)), InSet(CallSemop(7, WaitForZero)), InSet(CallSetVal(0, 0)), Rmid]
    requires Inv(1, Fresh(1)) && s1 == SetVal(1, Fresh(1), 0, 1)
    requires s2 == Semop(1, s1, 7, WaitForZero) && s3 == SetVal(1, s2, 0, 0)
    requires s3.finished == map[0 := 0]
    ensures |Exec(es + [WakeOld(0, 0)]).gens| == 1 && 0 in Exec(es + [WakeOld(0, 0)]).gens[0].stopped
    ensures |Exec(es + [Create(1)] + [WakeOld(0, 0)]).gens| == 2
    ensures 0 in Exec(es + [Create(1)] + [WakeOld(0, 0)]).gens[0].s.returned
  {
    hide Exec, SetVal, Semop, Inv, Ok, Expelled;
    var g := Gen(1, Fresh(1), true, map[], map[]);
    assert Exec([]) == Slot([]) by { ExecNone(); }
    Append([], es[0]);
    assert [] + [es[0]] == es[..1] && Exec(es[..1]) == Slot([g]);
    Append(es[..1], es[1]);
    assert es[..1] + [es[1]] == es[..2] && Exec(es[..2]) == Slot([g.(s := s1)]);
    Append(es[..2], es[2]);
    assert es[..2] + [es[2]] == es[..3] && Exec(es[..3]) == Slot([g.(s := s2)]);
    Append(es[..3], es[3]);
    assert es[..3] + [es[3]] == es[..4] && Exec(es[..4]) == Slot([g.(s := s3)]);
    Append(es[..4], es[4]);
    var x := g.(s := Removed(s3), alive := false, left := s3.finished);
    assert es[..4] + [es[4]] == es && Exec(es) == Slot([x]);
    ExpelledIs(s3.finished, s3.queue, 0);
    ZeroFinished(s3);
    Append(es, WakeOld(0, 0));
    Append(es, Create(1));
    Append(es + [Create(1)], WakeOld(0, 0));
  }

  lemma ExecNone()
    ensures Exec([]) == Slot([])
  {}

  /** A finished call is not on the pending list. */
  lemma ZeroFinished(s: State)
    requires Inv(1, s) && s.finished == map[0 := 0]
    ensures !Queued(s.queue, 0)
  {}
}
