/** try_atomic_semop of ipc/sem.c: one list of semaphore operations, applied all at once
    or not at all. */
module SemOps {

  const SEMVMX: int := 32767
  const EAGAIN: int := -11
  const ERANGE: int := -34

  /** A struct sembuf, with the two flags that matter. */
  datatype SemOp = SemOp(num: nat, op: int, undo: bool, nowait: bool)

  /** A value stored in a C `short`. */
  function Short(x: int): int {
    (x + 32768) % 65536 - 32768
  }

  predicate IsShort(x: int) {
    -32768 <= x <= 32767
  }

  /** All operations name a semaphore of the set. */
  predicate InRange(ops: seq<SemOp>, nsems: nat) {
    forall i | 0 <= i < |ops| :: ops[i].num < nsems
  }

  predicate AllShort(adj: seq<int>) {
    forall i | 0 <= i < |adj| :: IsShort(adj[i])
  }

  /** The semaphore values after the first `k` operations. */
  function Values(sem: seq<int>, ops: seq<SemOp>, k: nat): (r: seq<int>)
    requires k <= |ops| && InRange(ops, |sem|)
    ensures |r| == |sem|
  {
    if k == 0 then sem
    else
      var v, o := Values(sem, ops, k - 1), ops[k - 1];
      v[o.num := v[o.num] + o.op]
  }

  /** The undo adjustments after the first `k` operations. */
  function Adjust(adj: seq<int>, ops: seq<SemOp>, k: nat): (r: seq<int>)
    requires k <= |ops| && InRange(ops, |adj|)
    ensures |r| == |adj|
    ensures AllShort(adj) ==> AllShort(r)
  {
    if k == 0 then adj
    else
      var a, o := Adjust(adj, ops, k - 1), ops[k - 1];
      if o.undo then a[o.num := Short(a[o.num] - o.op)] else a
  }

  /** Operation `k` may go ahead after the ones before it: a test for zero sees zero, and a
      change keeps the value within 0..SEMVMX. */
  predicate Legal(sem: seq<int>, ops: seq<SemOp>, k: nat)
    requires k < |ops| && InRange(ops, |sem|)
  {
    var v, o := Values(sem, ops, k)[ops[k].num], ops[k];
    if o.op == 0 then v == 0 else 0 <= v + o.op <= SEMVMX
  }

  predicate AllLegal(sem: seq<int>, ops: seq<SemOp>)
    requires InRange(ops, |sem|)
  {
    forall k | 0 <= k < |ops| :: Legal(sem, ops, k)
  }

  /** The first illegal operation from `k` on, or the number of operations. */
  function FirstIllegal(sem: seq<int>, ops: seq<SemOp>, k: nat): (r: nat)
    requires k <= |ops| && InRange(ops, |sem|)
    ensures k <= r <= |ops|
    ensures forall i | k <= i < r :: Legal(sem, ops, i)
    ensures r < |ops| ==> !Legal(sem, ops, r)
    decreases |ops| - k
  {
    if k == |ops| || !Legal(sem, ops, k) then k else FirstIllegal(sem, ops, k + 1)
  }

  /** What try_atomic_semop answers: 0 to go ahead, 1 to sleep, or an error. */
  function Answer(sem: seq<int>, ops: seq<SemOp>): (r: int)
    requires InRange(ops, |sem|)
    ensures r == 0 <==> AllLegal(sem, ops)
    ensures r == 0 || r == 1 || r == EAGAIN || r == ERANGE
  {
    var k := FirstIllegal(sem, ops, 0);
    if k == |ops| then 0
    else
      var o := ops[k];
      if o.op != 0 && Values(sem, ops, k)[o.num] + o.op > SEMVMX then ERANGE
      else if o.nowait then EAGAIN
      else 1
  }

  // ---- the operation is undone exactly ----

  lemma ShortBack(a: int, d: int)
    requires IsShort(a)
    ensures Short(Short(a - d) + d) == a
  {
  }

  /** Values go from 0 to 0 and above: no legal list takes a semaphore below zero. */
  lemma {:induction false} ValuesBounded(sem: seq<int>, ops: seq<SemOp>, k: nat, i: nat)
    requires InRange(ops, |sem|) && AllLegal(sem, ops) && k <= |ops| && i < |sem|
    requires sem[i] >= 0
    ensures Values(sem, ops, k)[i] >= 0
    ensures Values(sem, ops, k)[i] > SEMVMX ==> Values(sem, ops, k)[i] == sem[i]
  {
    if k > 0 {
      ValuesBounded(sem, ops, k - 1, i);
      assert Legal(sem, ops, k - 1);
    }
  }

  /** The total change of semaphore `i` by the first `k` operations. */
  function Delta(ops: seq<SemOp>, k: nat, i: nat): int
    requires k <= |ops|
  {
    if k == 0 then 0 else Delta(ops, k - 1, i) + (if ops[k - 1].num == i then ops[k - 1].op else 0)
  }

  function UndoDelta(ops: seq<SemOp>, k: nat, i: nat): int
    requires k <= |ops|
  {
    if k == 0 then 0
    else UndoDelta(ops, k - 1, i) + (if ops[k - 1].num == i && ops[k - 1].undo then ops[k - 1].op else 0)
  }

  lemma {:induction false} ValuesAreSums(sem: seq<int>, ops: seq<SemOp>, k: nat, i: nat)
    requires InRange(ops, |sem|) && k <= |ops| && i < |sem|
    ensures Values(sem, ops, k)[i] == sem[i] + Delta(ops, k, i)
  {
    if k > 0 {
      ValuesAreSums(sem, ops, k - 1, i);
    }
  }

  lemma {:induction false} AdjustsAreSums(adj: seq<int>, ops: seq<SemOp>, k: nat, i: nat)
    requires InRange(ops, |adj|) && k <= |ops| && i < |adj| && AllShort(adj)
    ensures Adjust(adj, ops, k)[i] == Short(adj[i] - UndoDelta(ops, k, i))
  {
    if k > 0 {
      AdjustsAreSums(adj, ops, k - 1, i);
    }
  }

  // ---- what the answer means ----

  /** The value that operation `k` meets: what the set holds and the operations before add. */
  function Met(sem: seq<int>, ops: seq<SemOp>, k: nat): int
    requires k < |ops| && InRange(ops, |sem|)
  {
    sem[ops[k].num] + Delta(ops, k, ops[k].num)
  }

  /** Operation `k` has to wait: for zero, or for as much as it takes away. */
  predicate Blocks(sem: seq<int>, ops: seq<SemOp>, k: nat)
    requires k < |ops| && InRange(ops, |sem|)
  {
    if ops[k].op == 0 then Met(sem, ops, k) != 0 else Met(sem, ops, k) + ops[k].op < 0
  }

  predicate Overflows(sem: seq<int>, ops: seq<SemOp>, k: nat)
    requires k < |ops| && InRange(ops, |sem|)
  {
    ops[k].op != 0 && Met(sem, ops, k) + ops[k].op > SEMVMX
  }

  /** `k` is the first operation that cannot go ahead. */
  predicate Stops(sem: seq<int>, ops: seq<SemOp>, k: nat)
    requires k < |ops| && InRange(ops, |sem|)
  {
    && (Blocks(sem, ops, k) || Overflows(sem, ops, k))
    && (forall i | 0 <= i < k :: !Blocks(sem, ops, i) && !Overflows(sem, ops, i))
  }

  lemma LegalIff(sem: seq<int>, ops: seq<SemOp>, k: nat)
    requires k < |ops| && InRange(ops, |sem|)
    ensures Values(sem, ops, k)[ops[k].num] == Met(sem, ops, k)
    ensures Legal(sem, ops, k) <==> !Blocks(sem, ops, k) && !Overflows(sem, ops, k)
  {
    ValuesAreSums(sem, ops, k, ops[k].num);
  }

  /** The list goes ahead exactly when no operation has to wait or goes over SEMVMX. Otherwise
      the first that does decides: an overflow is an error, a wait is one exactly when that
      operation has IPC_NOWAIT, and else the call is to sleep. */
  lemma AnswerIff(sem: seq<int>, ops: seq<SemOp>)
    requires InRange(ops, |sem|)
    ensures Answer(sem, ops) == 0 <==>
              forall k | 0 <= k < |ops| :: !Blocks(sem, ops, k) && !Overflows(sem, ops, k)
    ensures Answer(sem, ops) == 1 <==>
              exists k | 0 <= k < |ops| :: Stops(sem, ops, k) && Blocks(sem, ops, k) && !ops[k].nowait
    ensures Answer(sem, ops) == EAGAIN <==>
              exists k | 0 <= k < |ops| :: Stops(sem, ops, k) && Blocks(sem, ops, k) && ops[k].nowait
    ensures Answer(sem, ops) == ERANGE <==> exists k | 0 <= k < |ops| :: Stops(sem, ops, k) && Overflows(sem, ops, k)
  {
    hide Legal, Values, Met;
    var f := FirstIllegal(sem, ops, 0);
    forall k | 0 <= k < |ops|
      ensures Legal(sem, ops, k) <==> !Blocks(sem, ops, k) && !Overflows(sem, ops, k)
      ensures Values(sem, ops, k)[ops[k].num] == Met(sem, ops, k)
    {
      LegalIff(sem, ops, k);
    }
    assert forall k | 0 <= k < |ops| && Stops(sem, ops, k) :: k == f;
    assert f < |ops| ==> Stops(sem, ops, f);
  }

  // ---- the method ----

  /** The `undo` label of try_atomic_semop: take back the first `n` operations. */
  method Rollback(semval: array<int>, semadj: array<int>, sops: seq<SemOp>, n: nat, ghost sem: seq<int>,
      ghost adj: seq<int>)
    requires semval != semadj && semval.Length == semadj.Length == |sem| == |adj| && n <= |sops|
    requires InRange(sops, |sem|) && AllShort(adj)
    requires semval[..] == Values(sem, sops, n) && semadj[..] == Adjust(adj, sops, n)
    modifies semval, semadj
    ensures semval[..] == sem && semadj[..] == adj
  {
    var i := n;
    while i > 0
      invariant 0 <= i <= |sops|
      invariant semval[..] == Values(sem, sops, i) && semadj[..] == Adjust(adj, sops, i)
    {
      i := i - 1;
      var sop := sops[i];
      semval[sop.num] := semval[sop.num] - sop.op;
      assert semval[..] == Values(sem, sops, i);
      if sop.undo {
        ShortBack(Adjust(adj, sops, i)[sop.num], sop.op);
        semadj[sop.num] := Short(semadj[sop.num] + sop.op);
      }
      assert semadj[..] == Adjust(adj, sops, i);
    }
  }

  /** One operation of the list, done to the value and to the adjustment. */
  method Perform(semval: array<int>, semadj: array<int>, sops: seq<SemOp>, i: nat, ghost sem: seq<int>,
      ghost adj: seq<int>)
    requires semval != semadj && semval.Length == semadj.Length == |sem| == |adj| && InRange(sops, semval.Length)
              && i < |sops|
    requires semval[..] == Values(sem, sops, i) && semadj[..] == Adjust(adj, sops, i)
    modifies semval, semadj
    ensures semval[..] == Values(sem, sops, i + 1) && semadj[..] == Adjust(adj, sops, i + 1)
  {
    var sop := sops[i];
    semval[sop.num] := semval[sop.num] + sop.op;
    assert semval[..] == Values(sem, sops, i + 1);
    if sop.undo {
      semadj[sop.num] := Short(semadj[sop.num] - sop.op);
    }
  }

  /** try_atomic_semop. `semadj` is not touched when no operation asks for SEM_UNDO.
      `trial` is the do_undo flag. */
  method TryAtomicSemop(semval: array<int>, semadj: array<int>, sops: seq<SemOp>, trial: bool) returns (result: int)
    requires semval != semadj && semval.Length == semadj.Length && InRange(sops, semval.Length) && AllShort(semadj[..])
    modifies semval, semadj
    ensures result == Answer(old(semval[..]), sops)
    ensures if result == 0 && !trial
            then semval[..] == Values(old(semval[..]), sops, |sops|)
                && semadj[..] == Adjust(old(semadj[..]), sops, |sops|)
            else semval[..] == old(semval[..]) && semadj[..] == old(semadj[..])
  {
    ghost var sem, adj := semval[..], semadj[..];
    var i := 0;
    result := 0;
    while i < |sops|
      invariant 0 <= i <= |sops|
      invariant semval[..] == Values(sem, sops, i) && semadj[..] == Adjust(adj, sops, i)
      invariant FirstIllegal(sem, sops, 0) == FirstIllegal(sem, sops, i)
    {
      var sop := sops[i];
      if sop.op == 0 && semval[sop.num] != 0 {
        result := if sop.nowait then EAGAIN else 1;
        break;
      }
      Perform(semval, semadj, sops, i, sem, adj);
      i := i + 1;
      if semval[sop.num] < 0 {
        result := if sop.nowait then EAGAIN else 1;
        break;
      }
      if semval[sop.num] > SEMVMX {
        result := ERANGE;
        break;
      }
    }
    if result == 0 && !trial {
      return;
    }
    Rollback(semval, semadj, sops, i, sem, adj);
  }
}
