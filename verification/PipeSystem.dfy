/** Readers and writers of one pipe. A step runs from taking the pipe semaphore to dropping it,
    so it ends where a call sleeps or returns. */
module PipeSystem {
  import opened Lists
  import opened PipeRing

  const PIPE_BUF: nat := 4096
  const EAGAIN: int := -11
  const EPIPE: int := -32
  const ERESTARTSYS: int := -512

  /** Bytes that one call copied without letting go of the pipe. */
  datatype Chunk = Chunk(call: nat, bytes: seq<int>)

  /** A call that sleeps. */
  datatype Call =
    | Reading(want: nat, got: seq<int>)
    | Writing(data: seq<int>, done: nat)

  /** A call that has returned: the bytes it was given or asked to write, and its result. */
  datatype Outcome = Read(got: seq<int>, ret: int) | Wrote(data: seq<int>, ret: int)

  /** `contents` is what the page holds; `ins` and `outs` record every copy in and out. */
  datatype World = World(contents: seq<int>, readers: nat, writers: nat, calls: map<nat, Call>, done: map<nat, Outcome>,
                         ins: seq<Chunk>, outs: seq<Chunk>)

  // ---- the record ----

  function Flat(cs: seq<Chunk>): seq<int> {
    if cs == [] then [] else cs[0].bytes + Flat(cs[1..])
  }

  /** What one call copied, in order. */
  function Of(cs: seq<Chunk>, call: nat): seq<int> {
    if cs == [] then [] else (if cs[0].call == call then cs[0].bytes else []) + Of(cs[1..], call)
  }

  lemma {:induction false} FlatAppend(cs: seq<Chunk>, c: Chunk)
    ensures Flat(cs + [c]) == Flat(cs) + c.bytes
  {
    if cs == [] {
      assert ([] + [c])[1..] == [];
    } else {
      FlatAppend(cs[1..], c);
      assert (cs + [c])[1..] == cs[1..] + [c];
    }
  }

  lemma {:induction false} OfAppend(cs: seq<Chunk>, c: Chunk, call: nat)
    ensures Of(cs + [c], call) == if c.call == call then Of(cs, call) + c.bytes else Of(cs, call)
  {
    if cs == [] {
      assert ([] + [c])[1..] == [];
    } else {
      OfAppend(cs[1..], c, call);
      assert (cs + [c])[1..] == cs[1..] + [c];
    }
  }

  // ---- pipe_read ----

  function Finish(w: World, id: nat, r: Outcome): World {
    w.(calls := w.calls - {id}, done := w.done[id := r])
  }

  /** A read's result: the bytes it has, or else the error. */
  function ReadResult(got: seq<int>, error: int): Outcome {
    Read(got, if got != [] then |got| else error)
  }

  /** Some writer sleeps. */
  ghost predicate WaitingWriters(w: World) {
    exists id :: id in w.calls && w.calls[id].Writing?
  }

  /** do_more_read: the pipe is empty. */
  function MoreRead(w: World, id: nat, want: nat, got: seq<int>, nonblock: bool): World {
    if w.writers == 0 then Finish(w, id, ReadResult(got, 0))
    else if nonblock then Finish(w, id, ReadResult(got, EAGAIN))
    else w.(calls := w.calls[id := Reading(want, got)])
  }

  /** The copy of what is there. */
  function TakeOut(w: World, id: nat, n: nat): World
    requires n <= |w.contents|
  {
    w.(contents := w.contents[n..], outs := w.outs + [Chunk(id, w.contents[..n])])
  }

  /** From the copy loop to a return or a sleep. */
  ghost function ReadOn(w: World, id: nat, want: nat, got: seq<int>, nonblock: bool): World {
    var n := Min(want, |w.contents|);
    var w1, got1 := TakeOut(w, id, n), got + w.contents[..n];
    if want - n > 0 && WaitingWriters(w) && !nonblock then MoreRead(w1, id, want - n, got1, nonblock)
    else Finish(w1, id, ReadResult(got1, 0))
  }

  ghost function StartRead(w: World, id: nat, want: nat, nonblock: bool): World {
    if want == 0 then Finish(w, id, Read([], 0))
    else if w.contents == [] then MoreRead(w, id, want, [], nonblock)
    else ReadOn(w, id, want, [], nonblock)
  }

  ghost function WakeRead(w: World, id: nat, signalled: bool): World
    requires id in w.calls && w.calls[id].Reading?
  {
    var c := w.calls[id];
    if signalled then Finish(w, id, ReadResult(c.got, ERESTARTSYS))
    else if w.contents != [] then ReadOn(w.(calls := w.calls - {id}), id, c.want, c.got, false)
    else if w.writers == 0 then Finish(w, id, ReadResult(c.got, 0))
    else w
  }

  // ---- pipe_write ----

  function Free(w: World): int {
    PIPE_SIZE - |w.contents|
  }

  /** The room a write asks for before its first byte. */
  function Need(data: seq<int>): nat {
    if |data| <= PIPE_BUF then |data| else 1
  }

  function WriteResult(data: seq<int>, done: nat, error: int): Outcome {
    Wrote(data, if done != 0 then done else error)
  }

  /** From the copy loop to a return or a sleep. */
  function WriteOn(w: World, id: nat, data: seq<int>, done: nat, nonblock: bool): World
    requires done <= |data| && |w.contents| <= PIPE_SIZE
  {
    var n := Min(|data| - done, PIPE_SIZE - |w.contents|);
    var part := data[done..done + n];
    var w1 := w.(contents := w.contents + part, ins := w.ins + [Chunk(id, part)]);
    if done + n == |data| || nonblock then Finish(w1, id, Wrote(data, done + n))
    else w1.(calls := w1.calls[id := Writing(data, done + n)])
  }

  function StartWrite(w: World, id: nat, data: seq<int>, nonblock: bool): World
    requires |w.contents| <= PIPE_SIZE
  {
    if data == [] then Finish(w, id, Wrote(data, 0))
    else if w.readers == 0 then Finish(w, id, Wrote(data, EPIPE))
    else if Free(w) >= Need(data) then WriteOn(w, id, data, 0, nonblock)
    else if nonblock then Finish(w, id, Wrote(data, EAGAIN))
    else w.(calls := w.calls[id := Writing(data, 0)])
  }

  function WakeWrite(w: World, id: nat, signalled: bool): World
    requires id in w.calls && w.calls[id].Writing? && w.calls[id].done <= |w.calls[id].data|
              && |w.contents| <= PIPE_SIZE
  {
    var c := w.calls[id];
    if signalled then Finish(w, id, WriteResult(c.data, c.done, ERESTARTSYS))
    else if w.readers == 0 then Finish(w, id, WriteResult(c.data, c.done, EPIPE))
    else if Free(w) < (if c.done == 0 then Need(c.data) else 1) then w
    else WriteOn(w.(calls := w.calls - {id}), id, c.data, c.done, false)
  }

  // ---- the invariant ----

  /** What went in has come out or is still there, in order. */
  ghost predicate Fifo(w: World) {
    |w.contents| <= PIPE_SIZE && Flat(w.outs) + w.contents == Flat(w.ins)
  }

  /** A write of at most PIPE_BUF bytes is one chunk or nothing. */
  ghost predicate Whole(ins: seq<Chunk>, id: nat, data: seq<int>) {
    exists i | 0 <= i < |ins| :: ins[i] == Chunk(id, data)
  }

  ghost predicate CallOk(w: World, id: nat, c: Call) {
    match c
    case Reading(want, got) => Of(w.outs, id) == got && Of(w.ins, id) == [] && want > 0
    case Writing(data, done) =>
      && done < |data| && Of(w.ins, id) == data[..done] && Of(w.outs, id) == []
      && (|data| <= PIPE_BUF ==> done == 0)
  }

  ghost predicate DoneOk(w: World, id: nat, r: Outcome) {
    match r
    case Read(got, ret) => Of(w.outs, id) == got && (if got != [] then ret == |got| else ret <= 0)
    case Wrote(data, ret) =>
      && ret <= |data| && Of(w.ins, id) == data[..if ret < 0 then 0 else ret]
      && (0 < |data| <= PIPE_BUF ==> if ret < 0 then Of(w.ins, id) == [] else ret == |data| && Whole(w.ins, id, data))
  }

  ghost predicate Inv(w: World) {
    && Fifo(w)
    && (forall id | id in w.calls :: id !in w.done && CallOk(w, id, w.calls[id]))
    && (forall id | id in w.done :: DoneOk(w, id, w.done[id]))
    && (forall i | 0 <= i < |w.ins| :: w.ins[i].call in w.calls || w.ins[i].call in w.done)
    && (forall i | 0 <= i < |w.outs| :: w.outs[i].call in w.calls || w.outs[i].call in w.done)
  }

  // ---- the steps keep it ----

  /** At most one chunk, of call `id`. */
  ghost predicate OneOf(cs: seq<Chunk>, id: nat) {
    |cs| <= 1 && forall c | c in cs :: c.call == id
  }

  /** What the record says of a call after `ds` was added to it. */
  lemma OfAdd(cs: seq<Chunk>, ds: seq<Chunk>, id: nat, x: nat)
    requires OneOf(ds, id)
    ensures Of(cs + ds, x) == Of(cs, x) + if x == id && ds != [] then ds[0].bytes else []
  {
    if ds == [] {
      assert cs + ds == cs;
    } else {
      assert ds == [ds[0]];
      assert ds[0] in ds;
      OfAppend(cs, ds[0], x);
    }
  }

  lemma {:induction false} OfNone(cs: seq<Chunk>, x: nat)
    requires forall i | 0 <= i < |cs| :: cs[i].call != x
    ensures Of(cs, x) == []
  {
    if cs != [] {
      OfNone(cs[1..], x);
    }
  }

  /** `w'` differs from `w` in call `id` alone, which added `a` to the copies in and `b` to the
      copies out. */
  ghost predicate Moves(w: World, w': World, id: nat, a: seq<Chunk>, b: seq<Chunk>) {
    && OneOf(a, id) && OneOf(b, id) && w'.ins == w.ins + a && w'.outs == w.outs + b
    && w'.calls - {id} == w.calls - {id} && w'.done - {id} == w.done - {id}
    && (id in w'.calls) != (id in w'.done)
  }

  lemma OtherKept(w: World, w': World, id: nat, a: seq<Chunk>, b: seq<Chunk>, x: nat)
    requires Moves(w, w', id, a, b) && x != id
    ensures forall c | CallOk(w, x, c) :: CallOk(w', x, c)
    ensures forall r | DoneOk(w, x, r) :: DoneOk(w', x, r)
  {
    hide Of, Whole;
    OfAdd(w.ins, a, id, x);
    OfAdd(w.outs, b, id, x);
    forall r | DoneOk(w, x, r)
      ensures DoneOk(w', x, r)
    {
      if r.Wrote? && Whole(w.ins, x, r.data) {
        WholeKept(w.ins, a, x, r.data);
      }
    }
  }

  lemma WholeKept(cs: seq<Chunk>, ds: seq<Chunk>, id: nat, data: seq<int>)
    requires Whole(cs, id, data)
    ensures Whole(cs + ds, id, data)
  {
    var i :| 0 <= i < |cs| && cs[i] == Chunk(id, data);
    assert (cs + ds)[i] == Chunk(id, data);
  }

  lemma MapLess<V>(m: map<nat, V>, n: map<nat, V>, id: nat, x: nat)
    requires m - {id} == n - {id} && x != id
    ensures x in m <==> x in n
    ensures x in m ==> m[x] == n[x]
  {
    assert x in m <==> x in m - {id};
    assert x in n <==> x in n - {id};
    assert x in m ==> (m - {id})[x] == m[x];
  }

  /** It is enough to look at the pipe and at the call that moved. */
  lemma Frame(w: World, w': World, id: nat, a: seq<Chunk>, b: seq<Chunk>)
    requires Inv(w) && Moves(w, w', id, a, b) && Fifo(w')
    requires id in w'.calls ==> CallOk(w', id, w'.calls[id])
    requires id in w'.done ==> DoneOk(w', id, w'.done[id])
    ensures Inv(w')
  {
    hide Fifo, CallOk, DoneOk;
    forall x | x in w'.calls
      ensures x !in w'.done && CallOk(w', x, w'.calls[x])
    {
      if x != id {
        MapLess(w'.calls, w.calls, id, x);
        MapLess(w'.done, w.done, id, x);
        OtherKept(w, w', id, a, b, x);
      }
    }
    forall x | x in w'.done
      ensures DoneOk(w', x, w'.done[x])
    {
      if x != id {
        MapLess(w'.done, w.done, id, x);
        OtherKept(w, w', id, a, b, x);
      }
    }
    FrameCalls(w, w', id, w.ins, a);
    FrameCalls(w, w', id, w.outs, b);
  }

  lemma FrameCalls(w: World, w': World, id: nat, cs: seq<Chunk>, ds: seq<Chunk>)
    requires w'.calls - {id} == w.calls - {id} && w'.done - {id} == w.done - {id} && (id in w'.calls || id in w'.done)
    requires OneOf(ds, id) && forall i | 0 <= i < |cs| :: cs[i].call in w.calls || cs[i].call in w.done
    ensures forall i | 0 <= i < |cs + ds| :: (cs + ds)[i].call in w'.calls || (cs + ds)[i].call in w'.done
  {
    forall i | 0 <= i < |cs + ds|
      ensures (cs + ds)[i].call in w'.calls || (cs + ds)[i].call in w'.done
    {
      if i < |cs| {
        var x := cs[i].call;
        if x != id {
          MapLess(w'.calls, w.calls, id, x);
          MapLess(w'.done, w.done, id, x);
        }
      } else {
        assert ds[i - |cs|] in ds;
      }
    }
  }

  /** A call that has not begun has copied nothing. */
  lemma NewCall(w: World, id: nat)
    requires Inv(w) && id !in w.calls && id !in w.done
    ensures Of(w.ins, id) == [] && Of(w.outs, id) == []
  {
    hide Fifo, CallOk, DoneOk, Of;
    OfNone(w.ins, id);
    OfNone(w.outs, id);
  }

  /** Call `id` can go on: it is not over, and it has taken `got`. */
  ghost predicate CanRead(w: World, id: nat, want: nat, got: seq<int>) {
    Inv(w) && id !in w.done && Of(w.outs, id) == got && Of(w.ins, id) == [] && want > 0
  }

  lemma FinishReadKeeps(w: World, id: nat, got: seq<int>, error: int)
    requires Inv(w) && id !in w.done && Of(w.outs, id) == got && error <= 0
    ensures Inv(Finish(w, id, ReadResult(got, error)))
  {
    hide Of, CallOk, Flat;
    var w' := Finish(w, id, ReadResult(got, error));
    assert w.ins + [] == w.ins && w.outs + [] == w.outs;
    Frame(w, w', id, [], []);
  }

  lemma MoreReadKeeps(w: World, id: nat, want: nat, got: seq<int>, nonblock: bool)
    requires CanRead(w, id, want, got)
    ensures Inv(MoreRead(w, id, want, got, nonblock))
  {
    hide Of, DoneOk, Flat;
    if w.writers == 0 {
      FinishReadKeeps(w, id, got, 0);
    } else if nonblock {
      FinishReadKeeps(w, id, got, EAGAIN);
    } else {
      var w' := w.(calls := w.calls[id := Reading(want, got)]);
      assert w.ins + [] == w.ins && w.outs + [] == w.outs;
      Frame(w, w', id, [], []);
    }
  }

  /** The copy of `n` bytes, and the call asleep with them. */
  lemma TakeOutKeeps(w: World, id: nat, want: nat, got: seq<int>, n: nat)
    requires CanRead(w, id, want, got) && n <= |w.contents|
    ensures var w' := TakeOut(w, id, n).(calls := w.calls[id := Reading(want, got + w.contents[..n])]);
            Inv(w') && CanRead(w', id, want, got + w.contents[..n])
  {
    hide Of, DoneOk, Flat;
    var part := w.contents[..n];
    var b := [Chunk(id, part)];
    var w' := TakeOut(w, id, n).(calls := w.calls[id := Reading(want, got + part)]);
    OfAppend(w.outs, b[0], id);
    FlatAppend(w.outs, b[0]);
    assert part + w.contents[n..] == w.contents;
    assert Flat(w.outs) + part + w.contents[n..] == Flat(w.outs) + (part + w.contents[n..]);
    assert w.ins + [] == w.ins;
    Frame(w, w', id, [], b);
  }

  lemma ReadOnKeeps(w: World, id: nat, want: nat, got: seq<int>, nonblock: bool)
    requires CanRead(w, id, want, got)
    ensures Inv(ReadOn(w, id, want, got, nonblock))
  {
    hide Of, CallOk, DoneOk, Flat, Inv, WaitingWriters;
    var n := Min(want, |w.contents|);
    var got1 := got + w.contents[..n];
    TakeOutKeeps(w, id, want, got, n);
    var w1 := TakeOut(w, id, n);
    var w2 := w1.(calls := w.calls[id := Reading(want, got1)]);
    if want - n > 0 && WaitingWriters(w) && !nonblock {
      assert CanRead(w2, id, want - n, got1);
      MoreReadKeeps(w2, id, want - n, got1, nonblock);
      assert w2.calls[id := Reading(want - n, got1)] == w1.calls[id := Reading(want - n, got1)];
      assert w2.calls - {id} == w1.calls - {id};
    } else {
      FinishReadKeeps(w2, id, got1, 0);
      assert w2.calls - {id} == w1.calls - {id};
    }
  }

  /** BUG() in pipe_read: a read that wants more has emptied the pipe. */
  lemma DrainedEmpty(w: World, id: nat, want: nat)
    ensures var n := Min(want, |w.contents|);
            want - n > 0 ==> TakeOut(w, id, n).contents == []
  {}

  lemma StartReadKeeps(w: World, id: nat, want: nat, nonblock: bool)
    requires Inv(w) && id !in w.calls && id !in w.done
    ensures Inv(StartRead(w, id, want, nonblock))
  {
    hide Of, CallOk, DoneOk, Fifo, MoreRead, ReadOn;
    NewCall(w, id);
    if want == 0 {
      FinishReadKeeps(w, id, [], 0);
    } else if w.contents == [] {
      MoreReadKeeps(w, id, want, [], nonblock);
    } else {
      ReadOnKeeps(w, id, want, [], nonblock);
    }
  }

  lemma WakeReadKeeps(w: World, id: nat, signalled: bool)
    requires Inv(w) && id in w.calls && w.calls[id].Reading?
    ensures Inv(WakeRead(w, id, signalled))
  {
    hide Of, DoneOk, Fifo, Finish, ReadOn;
    var c := w.calls[id];
    assert CallOk(w, id, c);
    if signalled {
      FinishReadKeeps(w, id, c.got, ERESTARTSYS);
    } else if w.contents != [] {
      ReadOnKeeps(w, id, c.want, c.got, false);
      ReadOnSame(w, id, c.want, c.got, false);
    } else if w.writers == 0 {
      FinishReadKeeps(w, id, c.got, 0);
    }
  }

  /** A reader that runs does not count itself among the waiting. */
  lemma ReadOnSame(w: World, id: nat, want: nat, got: seq<int>, nonblock: bool)
    requires id in w.calls && w.calls[id].Reading?
    ensures ReadOn(w.(calls := w.calls - {id}), id, want, got, nonblock) == ReadOn(w, id, want, got, nonblock)
  {
    var v := w.(calls := w.calls - {id});
    assert WaitingWriters(v) <==> WaitingWriters(w) by {
      if WaitingWriters(w) {
        var x :| x in w.calls && w.calls[x].Writing?;
        assert x in v.calls && v.calls[x].Writing?;
      }
    }
    assert v.calls - {id} == w.calls - {id};
    var n := Min(want, |w.contents|);
    var r := Reading(want - n, got + w.contents[..n]);
    assert v.calls[id := r] == w.calls[id := r];
  }

  /** How a read of a positive count begins: it sleeps only if it may, on an empty pipe with a
      writer, or with bytes in hand and a writer asleep; it reports the end of the file exactly
      when the pipe is empty and has no writer. */
  lemma ReadMeans(w: World, id: nat, want: nat, nonblock: bool)
    requires id !in w.calls && id !in w.done && want > 0
    ensures var w' := StartRead(w, id, want, nonblock);
            && (id in w'.calls <==> id !in w'.done)
            && (id in w'.calls <==>
                  !nonblock && w.writers > 0 && (w.contents == [] || (|w.contents| < want && WaitingWriters(w))))
            && w'.contents == w.contents[Min(want, |w.contents|)..] && w'.ins == w.ins
            && (id in w'.calls ==> w'.calls[id] == Reading(want - |w.contents|, w.contents))
            && (id in w'.done ==>
                  && w'.done[id].Read? && w'.done[id].got == w.contents[..Min(want, |w.contents|)]
                  && (w'.done[id].ret == 0 <==> w.contents == [] && w.writers == 0)
                  && (w'.done[id].ret == EAGAIN <==> w.contents == [] && w.writers > 0))
  {
    assert w.contents[..|w.contents|] == w.contents && [] + w.contents == w.contents;
  }

  /** A read or write of nothing returns 0 at once and leaves the pipe alone. */
  lemma NullMeans(w: World, id: nat, nonblock: bool)
    requires |w.contents| <= PIPE_SIZE
    ensures var w' := StartRead(w, id, 0, nonblock);
            w' == w.(calls := w'.calls, done := w.done[id := Read([], 0)]) && id !in w'.calls
    ensures var w' := StartWrite(w, id, [], nonblock);
            w' == w.(calls := w'.calls, done := w.done[id := Wrote([], 0)]) && id !in w'.calls
  {
  }

  /** How a sleeping read goes on. A signal ends it with the bytes it has, or ERESTARTSYS with
      none, and takes nothing. Otherwise it takes what is there up to what it wants, and sleeps on
      exactly when there is still a writer and either nothing was there, or too little and a
      writer sleeps; it reports the end of the file exactly when it has nothing at all. */
  lemma WakeReadMeans(w: World, id: nat, signalled: bool)
    requires id in w.calls && w.calls[id].Reading? && id !in w.done && w.calls[id].want > 0
    ensures var w', c := WakeRead(w, id, signalled), w.calls[id];
            var n := if signalled then 0 else Min(c.want, |w.contents|);
            var got := c.got + w.contents[..n];
            && w'.contents == w.contents[n..] && w'.ins == w.ins
            && (id in w'.calls <==> id !in w'.done)
            && (id in w'.calls <==>
                  !signalled && w.writers > 0 && (w.contents == [] || (|w.contents| < c.want && WaitingWriters(w))))
            && (id in w'.calls ==> w'.calls[id] == Reading(c.want - n, got))
            && (id in w'.done ==>
                  w'.done[id] == Read(got, if got != [] then |got| else if signalled then ERESTARTSYS else 0))
  {
    hide WaitingWriters;
    var c := w.calls[id];
    assert c.got + w.contents[..0] == c.got && w.contents[0..] == w.contents;
    if !signalled {
      assert w.contents == [] ==> w.contents[..Min(c.want, |w.contents|)] == [];
      ReadOnSame(w, id, c.want, c.got, false);
    }
  }

  // ---- writes ----

  /** How a sleeping write goes on. A signal or the end of the last reader ends it with what it
      has put in, or with the error if that is nothing. Otherwise it sleeps on as it is when there
      is no room for what it needs, and else puts in what fits and returns exactly when that was
      the rest. */
  lemma WakeWriteMeans(w: World, id: nat, signalled: bool)
    requires id in w.calls && w.calls[id].Writing? && id !in w.done && |w.contents| <= PIPE_SIZE
    requires w.calls[id].done < |w.calls[id].data|
    ensures var w', c := WakeWrite(w, id, signalled), w.calls[id];
            var need := if c.done == 0 then Need(c.data) else 1;
            var n := if signalled || w.readers == 0 || Free(w) < need then 0 else Min(|c.data| - c.done, Free(w));
            && w'.contents == w.contents + c.data[c.done..c.done + n] && w'.outs == w.outs
            && (id in w'.calls <==> id !in w'.done)
            && (id in w'.calls <==> !signalled && w.readers > 0 && c.done + n < |c.data|)
            && (id in w'.calls ==> w'.calls[id] == Writing(c.data, c.done + n))
            && (id in w'.done ==>
                  w'.done[id] == Wrote(c.data, if c.done + n > 0 then c.done + n
                                               else if signalled then ERESTARTSYS else EPIPE))
  {
    var c := w.calls[id];
    assert c.data[c.done..c.done] == [] && w.contents + [] == w.contents;
  }

  /** How a write begins: it sleeps only if it may and there is no room for what it needs, it
      fails with a broken pipe exactly when nobody reads, and what fits goes in. */
  lemma WriteMeans(w: World, id: nat, data: seq<int>, nonblock: bool)
    requires |w.contents| <= PIPE_SIZE && id !in w.calls && id !in w.done && data != []
    ensures var w' := StartWrite(w, id, data, nonblock);
            && (id in w'.calls <==> id !in w'.done)
            && (id in w'.calls <==> !nonblock && w.readers > 0 && Free(w) < |data|)
            && (w'.ins != w.ins <==> w.readers > 0 && Free(w) >= Need(data))
            && (w'.ins != w.ins ==> w'.ins == w.ins + [Chunk(id, data[..Min(|data|, PIPE_SIZE - |w.contents|)])])
            && (id in w'.calls ==>
                  w'.calls[id] == Writing(data, if Free(w) >= Need(data) then PIPE_SIZE - |w.contents| else 0))
            && (id in w'.done ==>
                  && w'.done[id].Wrote? && w'.done[id].data == data
                  && (w'.ins != w.ins ==> w'.done[id].ret == Min(|data|, PIPE_SIZE - |w.contents|))
                  && (w'.done[id].ret == EPIPE <==> w.readers == 0)
                  && (w'.done[id].ret == EAGAIN <==> w.readers > 0 && Free(w) < Need(data)))
  {}

  ghost predicate CanWrite(w: World, id: nat, data: seq<int>, done: nat) {
    && Inv(w) && id !in w.done && done < |data| && Of(w.ins, id) == data[..done] && Of(w.outs, id) == []
    && (|data| <= PIPE_BUF ==> done == 0)
  }

  lemma FinishWriteKeeps(w: World, id: nat, data: seq<int>, done: nat, error: int)
    requires CanWrite(w, id, data, done) && error < 0
    ensures Inv(Finish(w, id, WriteResult(data, done, error)))
  {
    hide Of, CallOk, Flat;
    var w' := Finish(w, id, WriteResult(data, done, error));
    assert w.ins + [] == w.ins && w.outs + [] == w.outs;
    Frame(w, w', id, [], []);
  }

  /** The bytes added by a write. */
  lemma PutInFacts(w: World, id: nat, data: seq<int>, done: nat, n: nat)
    requires CanWrite(w, id, data, done) && done + n <= |data| && |w.contents| + n <= PIPE_SIZE
    ensures var part := data[done..done + n];
            && Of(w.ins + [Chunk(id, part)], id) == data[..done + n]
            && Flat(w.outs) + (w.contents + part) == Flat(w.ins + [Chunk(id, part)])
  {
    hide Of, Flat, CallOk, DoneOk;
    var part := data[done..done + n];
    OfAppend(w.ins, Chunk(id, part), id);
    FlatAppend(w.ins, Chunk(id, part));
    assert data[..done] + part == data[..done + n];
    assert Flat(w.outs) + (w.contents + part) == Flat(w.outs) + w.contents + part;
  }

  lemma WriteOnKeeps(w: World, id: nat, data: seq<int>, done: nat, nonblock: bool)
    requires CanWrite(w, id, data, done) && (if done == 0 then Free(w) >= Need(data) else Free(w) >= 1)
    ensures Inv(WriteOn(w, id, data, done, nonblock))
  {
    hide Of, Flat;
    var n := Min(|data| - done, PIPE_SIZE - |w.contents|);
    var part := data[done..done + n];
    var a := [Chunk(id, part)];
    var w' := WriteOn(w, id, data, done, nonblock);
    PutInFacts(w, id, data, done, n);
    assert w.outs + [] == w.outs;
    if 0 < |data| <= PIPE_BUF {
      assert part == data;
      assert (w.ins + a)[|w.ins|] == Chunk(id, data);
    }
    Frame(w, w', id, a, []);
  }

  lemma StartWriteKeeps(w: World, id: nat, data: seq<int>, nonblock: bool)
    requires Inv(w) && id !in w.calls && id !in w.done
    ensures Inv(StartWrite(w, id, data, nonblock))
  {
    hide Of, Flat, WriteOn;
    NewCall(w, id);
    var w' := StartWrite(w, id, data, nonblock);
    assert w.ins + [] == w.ins && w.outs + [] == w.outs;
    if data == [] {
      Frame(w, w', id, [], []);
    } else if w.readers == 0 {
      FinishWriteKeeps(w, id, data, 0, EPIPE);
    } else if Free(w) >= Need(data) {
      WriteOnKeeps(w, id, data, 0, nonblock);
    } else if nonblock {
      FinishWriteKeeps(w, id, data, 0, EAGAIN);
    } else {
      Frame(w, w', id, [], []);
    }
  }

  lemma WakeWriteKeeps(w: World, id: nat, signalled: bool)
    requires Inv(w) && id in w.calls && w.calls[id].Writing?
    ensures CallOk(w, id, w.calls[id]) && Inv(WakeWrite(w, id, signalled))
  {
    hide Of, Flat, WriteOn, Finish;
    var c := w.calls[id];
    assert CallOk(w, id, c);
    if signalled {
      FinishWriteKeeps(w, id, c.data, c.done, ERESTARTSYS);
    } else if w.readers == 0 {
      FinishWriteKeeps(w, id, c.data, c.done, EPIPE);
    } else if Free(w) >= (if c.done == 0 then Need(c.data) else 1) {
      WriteOnKeeps(w, id, c.data, c.done, false);
      WriteOnSame(w, id, c.data, c.done, false);
    }
  }

  lemma WriteOnSame(w: World, id: nat, data: seq<int>, done: nat, nonblock: bool)
    requires done <= |data| && |w.contents| <= PIPE_SIZE
    ensures WriteOn(w.(calls := w.calls - {id}), id, data, done, nonblock) == WriteOn(w, id, data, done, nonblock)
  {
    assert w.calls - {id} - {id} == w.calls - {id};
    var r := Writing(data, done + Min(|data| - done, PIPE_SIZE - |w.contents|));
    assert (w.calls - {id})[id := r] == w.calls[id := r];
  }

  // ---- runs ----

  datatype Event =
    | BeginRead(id: nat, want: nat, nonblock: bool)
    | ReaderWakes(id: nat, signalled: bool)
    | BeginWrite(id: nat, data: seq<int>, nonblock: bool)
    | WriterWakes(id: nat, signalled: bool)
    | Opened(readers: nat, writers: nat)

  /** A step that names a call in the wrong state does not happen. `Opened` sets how many
      readers and writers the pipe has. */
  ghost function Step(w: World, e: Event): World
    requires Inv(w)
  {
    match e
    case BeginRead(id, want, nb) => if id in w.calls || id in w.done then w else StartRead(w, id, want, nb)
    case ReaderWakes(id, s) => if id in w.calls && w.calls[id].Reading? then WakeRead(w, id, s) else w
    case BeginWrite(id, data, nb) => if id in w.calls || id in w.done then w else StartWrite(w, id, data, nb)
    case WriterWakes(id, s) => if id in w.calls
        && w.calls[id].Writing? then WakeWriteKeeps(w, id, s); WakeWrite(w, id, s) else w
    case Opened(r, n) => w.(readers := r, writers := n)
  }

  lemma StepKeeps(w: World, e: Event)
    requires Inv(w)
    ensures Inv(Step(w, e))
  {
    hide Of, Flat, StartRead, WakeRead, StartWrite, WakeWrite;
    match e
    case BeginRead(id, want, nb) => if id !in w.calls && id !in w.done { StartReadKeeps(w, id, want, nb); }
    case ReaderWakes(id, s) => if id in w.calls && w.calls[id].Reading? { WakeReadKeeps(w, id, s); }
    case BeginWrite(id, data, nb) => if id !in w.calls && id !in w.done { StartWriteKeeps(w, id, data, nb); }
    case WriterWakes(id, s) => if id in w.calls && w.calls[id].Writing? { WakeWriteKeeps(w, id, s); }
    case Opened(r, n) => OpenedKeeps(w, r, n);
  }

  lemma OpenedKeeps(w: World, r: nat, n: nat)
    requires Inv(w)
    ensures Inv(w.(readers := r, writers := n))
  {
    hide Of, Flat;
    var w' := w.(readers := r, writers := n);
    forall x | x in w'.calls ensures x !in w'.done && CallOk(w', x, w'.calls[x]) { assert CallOk(w, x, w.calls[x]); }
    forall x | x in w'.done ensures DoneOk(w', x, w'.done[x]) { assert DoneOk(w, x, w.done[x]); }
  }

  ghost function Exec(es: seq<Event>): (w: World)
    ensures Inv(w)
    decreases |es|
  {
    if es == [] then World([], 0, 0, map[], map[], [], [])
    else
      var v := Exec(es[..|es| - 1]);
      StepKeeps(v, es[|es| - 1]);
      Step(v, es[|es| - 1])
  }

  /** After any run of readers and writers, the bytes read so far are a prefix of the bytes
      written so far, and at most one page behind. */
  lemma RunFifo(es: seq<Event>)
    ensures var w := Exec(es);
            && Flat(w.outs) <= Flat(w.ins) && |Flat(w.ins)| - |Flat(w.outs)| <= PIPE_SIZE
            && Flat(w.ins)[|Flat(w.outs)|..] == w.contents
  {
    var w := Exec(es);
    assert Flat(w.outs) + w.contents == Flat(w.ins);
  }

  /** A write of at most PIPE_BUF bytes that has returned put all its bytes into the pipe, side by
      side and once, or none of them. */
  lemma RunAtomic(es: seq<Event>, id: nat)
    requires id in Exec(es).done && Exec(es).done[id].Wrote? && 0 < |Exec(es).done[id].data| <= PIPE_BUF
    ensures var w := Exec(es);
            var data := w.done[id].data;
            if w.done[id].ret < 0 then Of(w.ins, id) == []
            else
              && w.done[id].ret == |data| && Of(w.ins, id) == data
              && exists i | 0 <= i < |w.ins| :: w.ins[i] == Chunk(id, data)
                  && Flat(w.ins) == Flat(w.ins[..i]) + data + Flat(w.ins[i + 1..])
  {
    hide Exec, Of, Flat;
    var w := Exec(es);
    assert DoneOk(w, id, w.done[id]);
    if w.done[id].ret >= 0 {
      var i :| 0 <= i < |w.ins| && w.ins[i] == Chunk(id, w.done[id].data);
      FlatAround(w.ins, i);
    }
  }

  lemma {:induction false} FlatAround(cs: seq<Chunk>, i: nat)
    requires i < |cs|
    ensures Flat(cs) == Flat(cs[..i]) + cs[i].bytes + Flat(cs[i + 1..])
  {
    if i == 0 {
      assert cs[..0] == [];
    } else {
      FlatAround(cs[1..], i - 1);
      assert cs[1..][..i - 1] == cs[..i][1..];
      assert cs[0] == cs[..i][0];
      assert cs[1..][i..] == cs[i + 1..];
    }
  }

  /** What a returned call reports is what it moved: a read the bytes it was given, in the order
      they left, a write a prefix of its data. */
  lemma RunResults(es: seq<Event>, id: nat)
    requires id in Exec(es).done
    ensures var w := Exec(es);
            match w.done[id]
            case Read(got, ret) => Of(w.outs, id) == got && (ret > 0 ==> ret == |got|) && (ret <= 0 ==> got == [])
            case Wrote(data, ret) => ret <= |data| && Of(w.ins, id) == data[..if ret < 0 then 0 else ret]
  {
    hide Exec, Of, Flat;
    assert DoneOk(Exec(es), id, Exec(es).done[id]);
  }
}
