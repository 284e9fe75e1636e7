/** All message queues of the system: sending, receiving, waiting and removal. The lock of a
    queue makes each step atomic. */
module MsgSystem {
  import opened Lists
  import opened MsgQueue

  const MSGMAX: nat := 8192
  const EIDRM: int := -36

  /** A struct msg_queue. */
  datatype Queue = Queue(alive: bool, messages: seq<Msg>, receivers: seq<Recv>, qnum: int, cbytes: int, qbytes: int)

  /** `hdrs` and `bytes` are the totals msg_hdrs and msg_bytes. `woken` are receivers taken off
      a queue whose task has not run yet, `received` the messages that reached their caller,
      `freed` those that went with a removed queue, and `sent` are the messages accepted, by number.
      `takers` are the calls that got the messages of `received`. */
  datatype World = World(queues: seq<Queue>, hdrs: int, bytes: int, woken: seq<Woken>, received: seq<Msg>,
                         freed: seq<Msg>, sent: seq<Msg>, takers: seq<Recv>)

  function Bytes(ms: seq<Msg>): nat {
    if ms == [] then 0 else |ms[0].text| + Bytes(ms[1..])
  }

  /** How often message `c` occurs. */
  function Count(ms: seq<Msg>, c: nat): nat {
    if ms == [] then 0 else (if ms[0].id == c then 1 else 0) + Count(ms[1..], c)
  }

  function Holds(u: Woken, c: nat): bool {
    u.outcome.Got? && u.outcome.msg.id == c
  }

  function WokenCount(ws: seq<Woken>, c: nat): nat {
    if ws == [] then 0 else (if Holds(ws[0], c) then 1 else 0) + WokenCount(ws[1..], c)
  }

  function TotalNum(qs: seq<Queue>): nat {
    if qs == [] then 0 else |qs[0].messages| + TotalNum(qs[1..])
  }

  function TotalBytes(qs: seq<Queue>): nat {
    if qs == [] then 0 else Bytes(qs[0].messages) + TotalBytes(qs[1..])
  }

  function QueuedCount(qs: seq<Queue>, c: nat): nat {
    if qs == [] then 0 else Count(qs[0].messages, c) + QueuedCount(qs[1..], c)
  }

  /** The number of places in the system that hold message `c`. */
  function Places(w: World, c: nat): nat {
    QueuedCount(w.queues, c) + WokenCount(w.woken, c) + Count(w.received, c) + Count(w.freed, c)
  }

  // ---- the invariant ----

  /** No waiting receiver matches a message that sits in the queue. */
  ghost predicate NoMatch(ms: seq<Msg>, rs: seq<Recv>) {
    forall i, j | 0 <= i < |ms| && 0 <= j < |rs| :: !TestMsg(ms[i], rs[j].mtype, rs[j].mode)
  }

  ghost predicate QueueOk(q: Queue) {
    && PositiveTypes(q.messages) && q.qnum == |q.messages| && q.cbytes == Bytes(q.messages)
    && NoMatch(q.messages, q.receivers)
    && (!q.alive ==> q.messages == [] && q.receivers == [])
  }

  ghost predicate QueuesOk(qs: seq<Queue>) {
    forall i | 0 <= i < |qs| :: QueueOk(qs[i])
  }

  ghost predicate TotalsOk(w: World) {
    w.hdrs == TotalNum(w.queues) && w.bytes == TotalBytes(w.queues)
  }

  /** Every accepted message is in one place: queued, handed to a receiver, received or freed. */
  ghost predicate Conserved(w: World) {
    forall c: nat :: Places(w, c) == if c < |w.sent| then 1 else 0
  }

  /** Every queue holds its messages in the order they were accepted. */
  ghost predicate Ordered(ms: seq<Msg>, sent: nat) {
    && (forall i | 0 <= i < |ms| :: ms[i].id < sent)
    && (forall i, j | 0 <= i < j < |ms| :: ms[i].id < ms[j].id)
  }

  ghost predicate AllOrdered(w: World) {
    forall i | 0 <= i < |w.queues| :: Ordered(w.queues[i].messages, |w.sent|)
  }

  ghost predicate Inv(w: World) {
    QueuesOk(w.queues) && TotalsOk(w) && Conserved(w) && AllOrdered(w)
  }

  // ---- sums ----

  lemma {:induction false} SumsUpdate(qs: seq<Queue>, k: nat, q: Queue)
    requires k < |qs|
    ensures TotalNum(qs[k := q]) == TotalNum(qs) - |qs[k].messages| + |q.messages|
    ensures TotalBytes(qs[k := q]) == TotalBytes(qs) - Bytes(qs[k].messages) + Bytes(q.messages)
  {
    if k > 0 {
      SumsUpdate(qs[1..], k - 1, q);
      assert qs[k := q][1..] == qs[1..][k - 1 := q];
    } else {
      assert qs[k := q][1..] == qs[1..];
    }
  }

  lemma {:induction false} QueuedUpdate(qs: seq<Queue>, k: nat, q: Queue, c: nat)
    requires k < |qs|
    ensures QueuedCount(qs[k := q], c) == QueuedCount(qs, c) - Count(qs[k].messages, c) + Count(q.messages, c)
  {
    if k > 0 {
      QueuedUpdate(qs[1..], k - 1, q, c);
      assert qs[k := q][1..] == qs[1..][k - 1 := q];
    } else {
      assert qs[k := q][1..] == qs[1..];
    }
  }

  lemma {:induction false} BytesAppend(ms: seq<Msg>, m: Msg)
    ensures Bytes(ms + [m]) == Bytes(ms) + |m.text|
  {
    if ms == [] {
      assert ([] + [m])[1..] == [];
    } else {
      BytesAppend(ms[1..], m);
      assert (ms + [m])[1..] == ms[1..] + [m];
    }
  }

  lemma {:induction false} CountConcat(a: seq<Msg>, b: seq<Msg>, c: nat)
    ensures Count(a + b, c) == Count(a, c) + Count(b, c)
  {
    if a == [] {
      assert a + b == b;
    } else {
      CountConcat(a[1..], b, c);
      assert (a + b)[1..] == a[1..] + b;
    }
  }

  lemma CountOne(m: Msg, c: nat)
    ensures Count([m], c) == if m.id == c then 1 else 0
  {
    assert [m][1..] == [];
  }

  lemma {:induction false} BytesWithout(ms: seq<Msg>, k: nat)
    requires k < |ms|
    ensures Bytes(Without(ms, k)) == Bytes(ms) - |ms[k].text|
  {
    if k == 0 {
      assert Without(ms, 0) == ms[1..];
    } else {
      BytesWithout(ms[1..], k - 1);
      assert Without(ms, k)[1..] == Without(ms[1..], k - 1);
    }
  }

  lemma {:induction false} CountWithout(ms: seq<Msg>, k: nat, c: nat)
    requires k < |ms|
    ensures Count(Without(ms, k), c) == Count(ms, c) - if ms[k].id == c then 1 else 0
  {
    if k == 0 {
      assert Without(ms, 0) == ms[1..];
    } else {
      CountWithout(ms[1..], k - 1, c);
      assert Without(ms, k)[1..] == Without(ms[1..], k - 1);
    }
  }

  lemma {:induction false} WokenConcat(a: seq<Woken>, b: seq<Woken>, c: nat)
    ensures WokenCount(a + b, c) == WokenCount(a, c) + WokenCount(b, c)
  {
    if a == [] {
      assert a + b == b;
    } else {
      WokenConcat(a[1..], b, c);
      assert (a + b)[1..] == a[1..] + b;
    }
  }

  lemma {:induction false} WokenWithout(ws: seq<Woken>, k: nat, c: nat)
    requires k < |ws|
    ensures WokenCount(Without(ws, k), c) == WokenCount(ws, c) - if Holds(ws[k], c) then 1 else 0
  {
    if k == 0 {
      assert Without(ws, 0) == ws[1..];
    } else {
      WokenWithout(ws[1..], k - 1, c);
      assert Without(ws, k)[1..] == Without(ws[1..], k - 1);
    }
  }

  // ---- sending ----

  /** What pipelined_send leaves: nobody left waiting matches an undelivered message, and the
      receivers that stay waited before. */
  lemma {:induction false} PipelinedFacts(rs: seq<Recv>, m: Msg)
    ensures var r := Pipelined(rs, m);
            && (!r.delivered ==> forall j | 0 <= j < |r.receivers| ::
                !TestMsg(m, r.receivers[j].mtype, r.receivers[j].mode))
            && (forall x | x in r.receivers :: x in rs)
  {
    if rs != [] {
      PipelinedFacts(rs[1..], m);
      assert rs == [rs[0]] + rs[1..];
    }
  }

  /** Only a delivered message is handed over, and once. */
  lemma {:induction false} PipelinedCount(rs: seq<Recv>, m: Msg, c: nat)
    ensures WokenCount(Pipelined(rs, m).woken, c) == if Pipelined(rs, m).delivered && m.id == c then 1 else 0
  {
    if rs != [] {
      PipelinedCount(rs[1..], m, c);
      var r := Pipelined(rs[1..], m);
      assert [Woken(rs[0], Got(m))][1..] == [];
      assert ([Woken(rs[0], Err(E2BIG))] + r.woken)[1..] == r.woken;
    }
  }

  /** A message can be accepted now. */
  predicate Fits(q: Queue, size: nat) {
    size + q.cbytes <= q.qbytes && 1 + q.qnum <= q.qbytes
  }

  /** sys_msgsnd. Anything but acceptance leaves the queues alone: an error, or a sleep. */
  function Send(w: World, k: nat, mtype: int, text: seq<int>): World
    requires k < |w.queues|
  {
    var q := w.queues[k];
    if |text| > MSGMAX || mtype < 1 || !q.alive || !Fits(q, |text|) then w
    else
      var m := Msg(|w.sent|, mtype, text);
      var r := Pipelined(q.receivers, m);
      if r.delivered then
        w.(queues := w.queues[k := q.(receivers := r.receivers)], woken := w.woken + r.woken, sent := w.sent + [m])
      else
        World(w.queues[k := q.(receivers := r.receivers, messages := q.messages + [m], qnum := q.qnum + 1,
            cbytes := q.cbytes + |text|)],
              w.hdrs + 1, w.bytes + |text|, w.woken + r.woken, w.received, w.freed, w.sent + [m],
              w.takers)
  }

  lemma SendQueueOk(q: Queue, m: Msg)
    requires QueueOk(q) && q.alive && m.mtype >= 1
    ensures var r := Pipelined(q.receivers, m);
            && QueueOk(q.(receivers := r.receivers))
            && (!r.delivered ==> QueueOk(q.(receivers := r.receivers, messages := q.messages + [m], qnum := q.qnum + 1,
                cbytes := q.cbytes + |m.text|)))
  {
    hide Pipelined;
    var r := Pipelined(q.receivers, m);
    PipelinedFacts(q.receivers, m);
    BytesAppend(q.messages, m);
    assert NoMatch(q.messages, r.receivers) by {
      forall i, j | 0 <= i < |q.messages| && 0 <= j < |r.receivers|
        ensures !TestMsg(q.messages[i], r.receivers[j].mtype, r.receivers[j].mode)
      {
        assert r.receivers[j] in q.receivers;
      }
    }
  }

  lemma SendTotals(w: World, k: nat, mtype: int, text: seq<int>)
    requires TotalsOk(w) && k < |w.queues|
    ensures TotalsOk(Send(w, k, mtype, text))
  {
    hide Pipelined;
    var w' := Send(w, k, mtype, text);
    SumsUpdate(w.queues, k, w'.queues[k]);
    BytesAppend(w.queues[k].messages, Msg(|w.sent|, mtype, text));
    assert w.queues[k := w.queues[k]] == w.queues;
  }

  lemma SendOrdered(w: World, k: nat, mtype: int, text: seq<int>, i: nat)
    requires AllOrdered(w) && k < |w.queues| && i < |w.queues|
    ensures Ordered(Send(w, k, mtype, text).queues[i].messages, |Send(w, k, mtype, text).sent|)
  {
    hide Pipelined;
    assert Ordered(w.queues[i].messages, |w.sent|);
  }

  lemma SendKeeps(w: World, k: nat, mtype: int, text: seq<int>)
    requires Inv(w) && k < |w.queues|
    ensures Inv(Send(w, k, mtype, text))
  {
    hide Pipelined, QueueOk, Places, TotalsOk, Ordered;
    var q, w' := w.queues[k], Send(w, k, mtype, text);
    SendTotals(w, k, mtype, text);
    forall i: nat | i < |w'.queues|
      ensures Ordered(w'.queues[i].messages, |w'.sent|)
    {
      SendOrdered(w, k, mtype, text, i);
    }
    if |text| <= MSGMAX && mtype >= 1 && q.alive && Fits(q, |text|) {
      SendQueueOk(q, Msg(|w.sent|, mtype, text));
      forall c: nat
        ensures Places(w', c) == if c < |w'.sent| then 1 else 0
      {
        SendPlaces(w, k, mtype, text, c);
      }
    }
  }

  lemma SendPlaces(w: World, k: nat, mtype: int, text: seq<int>, c: nat)
    requires k < |w.queues|
    ensures var w' := Send(w, k, mtype, text);
            Places(w', c) == Places(w, c) + if |w'.sent| > |w.sent| && c == |w.sent| then 1 else 0
  {
    hide Pipelined;
    var q, w' := w.queues[k], Send(w, k, mtype, text);
    if |w'.sent| > |w.sent| {
      var m := Msg(|w.sent|, mtype, text);
      QueuedUpdate(w.queues, k, w'.queues[k], c);
      CountConcat(q.messages, [m], c);
      CountOne(m, c);
      WokenConcat(w.woken, Pipelined(q.receivers, m).woken, c);
      PipelinedCount(q.receivers, m, c);
    }
  }

  // ---- receiving ----

  /** sys_msgrcv from its label `retry` on: take the message searched for, fail, or wait. */
  function Receive(w: World, k: nat, r: Recv, nowait: bool): World
    requires k < |w.queues|
  {
    var q := w.queues[k];
    var f := Search(q.messages, r.mtype, r.mode, 0, -1);
    if !q.alive then w
    else if 0 <= f < |q.messages| then
      var m := q.messages[f];
      if TooBig(r, m) then w
      else
        World(w.queues[k := q.(messages := Without(q.messages, f), qnum := q.qnum - 1, cbytes := q.cbytes - |m.text|)],
              w.hdrs - 1, w.bytes - |m.text|, w.woken, w.received + [m], w.freed, w.sent, w.takers + [r])
    else if nowait then w
    else w.(queues := w.queues[k := q.(receivers := q.receivers + [r])])
  }

  /** The queue a receive leaves. */
  lemma ReceiveQueueOk(w: World, k: nat, r: Recv, nowait: bool)
    requires k < |w.queues| && QueueOk(w.queues[k])
    ensures QueueOk(Receive(w, k, r, nowait).queues[k])
  {
    hide Search;
    var q := w.queues[k];
    var f := Search(q.messages, r.mtype, r.mode, 0, -1);
    SearchRight(q.messages, r.mtype, r.mode);
    if q.alive && 0 <= f < |q.messages| {
      BytesWithout(q.messages, f);
    }
  }

  lemma ReceivePlaces(w: World, k: nat, r: Recv, nowait: bool, c: nat)
    requires k < |w.queues|
    ensures Places(Receive(w, k, r, nowait), c) == Places(w, c)
  {
    hide Search, TestMsg;
    var q, w' := w.queues[k], Receive(w, k, r, nowait);
    var f := Search(q.messages, r.mtype, r.mode, 0, -1);
    QueuedUpdate(w.queues, k, w'.queues[k], c);
    assert w.queues[k := q] == w.queues;
    if 0 <= f < |q.messages| {
      CountWithout(q.messages, f, c);
      CountConcat(w.received, [q.messages[f]], c);
      CountOne(q.messages[f], c);
    }
  }

  lemma ReceiveTotals(w: World, k: nat, r: Recv, nowait: bool)
    requires TotalsOk(w) && k < |w.queues|
    ensures TotalsOk(Receive(w, k, r, nowait))
  {
    hide Search, TestMsg;
    var q, w' := w.queues[k], Receive(w, k, r, nowait);
    var f := Search(q.messages, r.mtype, r.mode, 0, -1);
    SumsUpdate(w.queues, k, w'.queues[k]);
    assert w.queues[k := q] == w.queues;
    if 0 <= f < |q.messages| {
      BytesWithout(q.messages, f);
    }
  }

  lemma ReceiveOrdered(w: World, k: nat, r: Recv, nowait: bool)
    requires k < |w.queues| && Ordered(w.queues[k].messages, |w.sent|)
    ensures Ordered(Receive(w, k, r, nowait).queues[k].messages, |w.sent|)
  {
    hide Search, TestMsg;
  }

  lemma ReceiveKeeps(w: World, k: nat, r: Recv, nowait: bool)
    requires Inv(w) && k < |w.queues|
    ensures Inv(Receive(w, k, r, nowait))
  {
    hide Search, TestMsg, QueueOk, Places, Ordered;
    var w' := Receive(w, k, r, nowait);
    ReceiveQueueOk(w, k, r, nowait);
    ReceiveTotals(w, k, r, nowait);
    ReceiveOrdered(w, k, r, nowait);
    forall c: nat
      ensures Places(w', c) == if c < |w'.sent| then 1 else 0
    {
      ReceivePlaces(w, k, r, nowait, c);
    }
  }

  /** What a receive that returns a message takes: the right choice of its search, and no older
      message of that type is left behind. */
  lemma ReceiveTakesOldest(w: World, k: nat, r: Recv, nowait: bool)
    requires Inv(w) && k < |w.queues|
    ensures var w' := Receive(w, k, r, nowait);
            w'.received == w.received ||
            exists f | 0 <= f < |w.queues[k].messages| ::
              && w'.received == w.received + [w.queues[k].messages[f]]
              && w'.queues[k].messages == Without(w.queues[k].messages, f)
              && RightChoice(w.queues[k].messages, r.mtype, r.mode, f)
              && forall m | m in w'.queues[k].messages && m.mtype == w.queues[k].messages[f].mtype ::
                   m.id > w.queues[k].messages[f].id
  {
    hide Search, Conserved, TotalsOk;
    var q := w.queues[k];
    var f := Search(q.messages, r.mtype, r.mode, 0, -1);
    assert QueueOk(q) && Ordered(q.messages, |w.sent|);
    SearchRight(q.messages, r.mtype, r.mode);
    if q.alive && 0 <= f < |q.messages| && !TooBig(r, q.messages[f]) {
      FirstOfType(q.messages, r.mtype, r.mode, f, |w.sent|);
      assert RightChoice(q.messages, r.mtype, r.mode, f);
    }
  }

  lemma FirstOfType(ms: seq<Msg>, mtype: int, mode: Mode, f: nat, sent: nat)
    requires RightChoice(ms, mtype, mode, f) && Ordered(ms, sent)
    ensures forall m | m in Without(ms, f) && m.mtype == ms[f].mtype :: m.id > ms[f].id
  {
    forall m | m in Without(ms, f) && m.mtype == ms[f].mtype
      ensures m.id > ms[f].id
    {
      var i :| 0 <= i < |ms| && i != f && ms[i] == m;
      assert TestMsg(ms[i], mtype, mode);
    }
  }

  /** A message handed straight to a waiting receiver overtakes no queued message of its type. */
  lemma HandoverOvertakesNone(w: World, k: nat, m: Msg)
    requires Inv(w) && k < |w.queues| && Pipelined(w.queues[k].receivers, m).delivered
    ensures forall x | x in w.queues[k].messages :: x.mtype != m.mtype
  {
    hide Pipelined, Conserved, TotalsOk, AllOrdered;
    var q := w.queues[k];
    assert QueueOk(q);
    var j := DeliveredMatches(q.receivers, m);
    forall x | x in q.messages
      ensures x.mtype != m.mtype
    {
      var i :| 0 <= i < |q.messages| && q.messages[i] == x;
      assert !TestMsg(q.messages[i], q.receivers[j].mtype, q.receivers[j].mode);
    }
  }

  lemma {:induction false} DeliveredMatches(rs: seq<Recv>, m: Msg) returns (j: nat)
    requires Pipelined(rs, m).delivered
    ensures j < |rs| && TestMsg(m, rs[j].mtype, rs[j].mode)
  {
    if TestMsg(m, rs[0].mtype, rs[0].mode) {
      j := 0;
    } else {
      j := DeliveredMatches(rs[1..], m);
      j := j + 1;
    }
  }

  // ---- waiting, waking and removal ----

  /** A waiting receiver runs: a signal ends its call, otherwise it tries again. */
  function Wake(w: World, k: nat, j: nat, signalled: bool): World
    requires k < |w.queues| && j < |w.queues[k].receivers|
  {
    var q := w.queues[k];
    var w1 := w.(queues := w.queues[k := q.(receivers := Without(q.receivers, j))]);
    if signalled then w1 else Receive(w1, k, q.receivers[j], false)
  }

  lemma DropReceiver(w: World, k: nat, j: nat)
    requires Inv(w) && k < |w.queues| && j < |w.queues[k].receivers|
    ensures Inv(w.(queues := w.queues[k := w.queues[k].(receivers := Without(w.queues[k].receivers, j))]))
  {
    hide Places, TestMsg;
    var q := w.queues[k];
    var q' := q.(receivers := Without(q.receivers, j));
    var w' := w.(queues := w.queues[k := q']);
    SumsUpdate(w.queues, k, q');
    assert QueueOk(q);
    forall a, b | 0 <= a < |q'.messages| && 0 <= b < |q'.receivers|
      ensures !TestMsg(q'.messages[a], q'.receivers[b].mtype, q'.receivers[b].mode)
    {
      assert q'.receivers[b] == q.receivers[if b < j then b else b + 1];
    }
    forall c: nat
      ensures Places(w', c) == Places(w, c)
    {
      SamePlaces(w, w', c) by { QueuedUpdate(w.queues, k, q', c); }
    }
  }

  lemma SamePlaces(w: World, w': World, c: nat)
    requires QueuedCount(w'.queues, c) == QueuedCount(w.queues, c)
    requires w'.woken == w.woken && w'.received == w.received && w'.freed == w.freed
    ensures Places(w', c) == Places(w, c)
  {}

  lemma WakeKeeps(w: World, k: nat, j: nat, signalled: bool)
    requires Inv(w) && k < |w.queues| && j < |w.queues[k].receivers|
    ensures Inv(Wake(w, k, j, signalled))
  {
    hide Inv, Receive;
    var q := w.queues[k];
    var w1 := w.(queues := w.queues[k := q.(receivers := Without(q.receivers, j))]);
    DropReceiver(w, k, j);
    ReceiveKeeps(w1, k, q.receivers[j], false);
  }

  /** A receiver that retries after a wake-up that brought nothing waits again, last in line. */
  lemma RetryWaitsAgain(w: World, k: nat, j: nat)
    requires Inv(w) && k < |w.queues| && j < |w.queues[k].receivers|
    ensures var q := w.queues[k];
            Wake(w, k, j, false) ==
            w.(queues := w.queues[k := q.(receivers := Without(q.receivers, j) + [q.receivers[j]])])
  {
    hide Search, Conserved, TotalsOk, AllOrdered;
    var q := w.queues[k];
    assert QueueOk(q);
    SearchRight(q.messages, q.receivers[j].mtype, q.receivers[j].mode);
    var q1 := q.(receivers := Without(q.receivers, j));
    assert w.queues[k := q1][k := q1.(receivers := q1.receivers + [q.receivers[j]])]
        == w.queues[k := q.(receivers := Without(q.receivers, j) + [q.receivers[j]])];
  }

  /** A receiver that another task took off the queue runs and returns. */
  function Run(w: World, i: nat): World
    requires i < |w.woken|
  {
    var u := w.woken[i];
    var w1 := w.(woken := Without(w.woken, i));
    if u.outcome.Got? then w1.(received := w.received + [u.outcome.msg], takers := w.takers + [u.recv]) else w1
  }

  lemma RunKeeps(w: World, i: nat)
    requires Inv(w) && i < |w.woken|
    ensures Inv(Run(w, i))
  {
    hide QueuesOk, AllOrdered;
    var w', u := Run(w, i), w.woken[i];
    assert QueuesOk(w'.queues) && AllOrdered(w') by { AllOrderedSame(w, w'); }
    forall c: nat
      ensures Places(w', c) == Places(w, c)
    {
      WokenWithout(w.woken, i, c);
      if u.outcome.Got? {
        CountConcat(w.received, [u.outcome.msg], c);
        CountOne(u.outcome.msg, c);
      }
    }
  }

  lemma AllOrderedSame(w: World, w': World)
    requires AllOrdered(w) && w'.queues == w.queues && w'.sent == w.sent
    ensures AllOrdered(w')
  {}

  /** expunge_all with EIDRM. */
  function Expunged(rs: seq<Recv>): seq<Woken> {
    if rs == [] then [] else [Woken(rs[0], Err(EIDRM))] + Expunged(rs[1..])
  }

  lemma {:induction false} ExpungedCount(rs: seq<Recv>, c: nat)
    ensures WokenCount(Expunged(rs), c) == 0
  {
    if rs != [] {
      ExpungedCount(rs[1..], c);
      assert Expunged(rs)[1..] == Expunged(rs[1..]);
    }
  }

  /** freeque */
  function Remove(w: World, k: nat): World
    requires k < |w.queues|
  {
    var q := w.queues[k];
    if !q.alive then w
    else World(w.queues[k := Queue(false, [], [], 0, 0, q.qbytes)], w.hdrs - |q.messages|, w.bytes - q.cbytes,
               w.woken + Expunged(q.receivers), w.received, w.freed + q.messages, w.sent, w.takers)
  }

  lemma RemoveKeeps(w: World, k: nat)
    requires Inv(w) && k < |w.queues|
    ensures Inv(Remove(w, k))
  {
    hide Places, TestMsg;
    var q, w' := w.queues[k], Remove(w, k);
    if q.alive {
      assert QueueOk(q);
      SumsUpdate(w.queues, k, w'.queues[k]);
      forall c: nat
        ensures Places(w', c) == Places(w, c)
      {
        RemovePlaces(w, k, c);
      }
    }
  }

  lemma RemovePlaces(w: World, k: nat, c: nat)
    requires k < |w.queues|
    ensures Places(Remove(w, k), c) == Places(w, c)
  {
    var q, w' := w.queues[k], Remove(w, k);
    if q.alive {
      QueuedUpdate(w.queues, k, w'.queues[k], c);
      CountConcat(w.freed, q.messages, c);
      WokenConcat(w.woken, Expunged(q.receivers), c);
      ExpungedCount(q.receivers, c);
    }
  }

  /** IPC_SET: the new limit; receivers woken for it find no message and wait again. */
  function Limit(w: World, k: nat, qbytes: int): World
    requires k < |w.queues|
  {
    w.(queues := w.queues[k := w.queues[k].(qbytes := qbytes)])
  }

  lemma LimitKeeps(w: World, k: nat, qbytes: int)
    requires Inv(w) && k < |w.queues|
    ensures Inv(Limit(w, k, qbytes))
  {
    hide Places, TestMsg;
    var w' := Limit(w, k, qbytes);
    assert QueueOk(w.queues[k]);
    SumsUpdate(w.queues, k, w'.queues[k]);
    forall c: nat
      ensures Places(w', c) == Places(w, c)
    {
      SamePlaces(w, w', c) by { QueuedUpdate(w.queues, k, w'.queues[k], c); }
    }
  }

  /** newque */
  function Create(w: World, qbytes: int): World {
    w.(queues := [Queue(true, [], [], 0, 0, qbytes)] + w.queues)
  }

  lemma CreateKeeps(w: World, qbytes: int)
    requires Inv(w)
    ensures Inv(Create(w, qbytes))
  {
    hide Places, TestMsg;
    var w' := Create(w, qbytes);
    assert w'.queues[1..] == w.queues;
    forall c: nat
      ensures Places(w', c) == Places(w, c)
    {
      SamePlaces(w, w', c);
    }
  }

  // ---- runs ----

  datatype Event =
    | NewQueue(qbytes: int)
    | Msgsnd(k: nat, mtype: int, text: seq<int>)
    | Msgrcv(k: nat, call: nat, msgtyp: int, size: nat, noerror: bool, except: bool, nowait: bool)
    | WaiterWakes(k: nat, j: nat, signalled: bool)
    | WokenRuns(i: nat)
    | SetLimit(k: nat, qbytes: int)
    | RemoveQueue(k: nat)

  /** A step with an index that names nothing changes nothing. */
  function Step(w: World, e: Event): World {
    match e
    case NewQueue(n) => Create(w, n)
    case Msgsnd(k, t, text) => if k < |w.queues| then Send(w, k, t, text) else w
    case Msgrcv(k, call, t, size, noerror, except, nowait) =>
      if k < |w.queues| then Receive(w, k, Caller(call, t, except, size, noerror), nowait) else w
    case WaiterWakes(k, j, s) => if k < |w.queues| && j < |w.queues[k].receivers| then Wake(w, k, j, s) else w
    case WokenRuns(i) => if i < |w.woken| then Run(w, i) else w
    case SetLimit(k, n) => if k < |w.queues| then Limit(w, k, n) else w
    case RemoveQueue(k) => if k < |w.queues| then Remove(w, k) else w
  }

  lemma StepKeeps(w: World, e: Event)
    requires Inv(w)
    ensures Inv(Step(w, e))
  {
    hide Inv, Create, Send, Receive, Wake, Run, Limit, Remove;
    match e
    case NewQueue(n) => CreateKeeps(w, n);
    case Msgsnd(k, t, text) => if k < |w.queues| { SendKeeps(w, k, t, text); }
    case Msgrcv(k, call, t, size, noerror, except, nowait) =>
      if k < |w.queues| { ReceiveKeeps(w, k, Caller(call, t, except, size, noerror), nowait); }
    case WaiterWakes(k, j, s) => if k < |w.queues| && j < |w.queues[k].receivers| { WakeKeeps(w, k, j, s); }
    case WokenRuns(i) => if i < |w.woken| { RunKeeps(w, i); }
    case SetLimit(k, n) => if k < |w.queues| { LimitKeeps(w, k, n); }
    case RemoveQueue(k) => if k < |w.queues| { RemoveKeeps(w, k); }
  }

  function Exec(es: seq<Event>): World {
    if es == [] then World([], 0, 0, [], [], [], [], []) else Step(Exec(es[..|es| - 1]), es[|es| - 1])
  }

  lemma {:induction false} ExecInv(es: seq<Event>)
    ensures Inv(Exec(es))
  {
    if es != [] {
      ExecInv(es[..|es| - 1]);
      StepKeeps(Exec(es[..|es| - 1]), es[|es| - 1]);
    }
  }

  // ---- what is received is what was sent ----

  ghost predicate AllSent(ms: seq<Msg>, sent: seq<Msg>) {
    forall m | m in ms :: m.id < |sent| && sent[m.id] == m
  }

  /** Every message anywhere has the type and text that were sent under its number. */
  ghost predicate Genuine(w: World) {
    && (forall k | 0 <= k < |w.queues| :: AllSent(w.queues[k].messages, w.sent))
    && (forall u | u in w.woken && u.outcome.Got? :: AllSent([u.outcome.msg], w.sent))
    && AllSent(w.received, w.sent) && AllSent(w.freed, w.sent)
  }

  lemma {:induction false} PipelinedGot(rs: seq<Recv>, m: Msg)
    ensures forall u | u in Pipelined(rs, m).woken && u.outcome.Got? :: u.outcome.msg == m
  {
    if rs != [] {
      PipelinedGot(rs[1..], m);
    }
  }

  lemma {:induction false} ExpungedNone(rs: seq<Recv>)
    ensures forall u | u in Expunged(rs) :: u.outcome.Err?
  {
    if rs != [] {
      ExpungedNone(rs[1..]);
    }
  }

  lemma SendGenuine(w: World, k: nat, mtype: int, text: seq<int>)
    requires Genuine(w) && k < |w.queues|
    ensures Genuine(Send(w, k, mtype, text))
  {
    hide Pipelined, Fits;
    var w', m := Send(w, k, mtype, text), Msg(|w.sent|, mtype, text);
    PipelinedGot(w.queues[k].receivers, m);
    forall i | 0 <= i < |w'.queues|
      ensures AllSent(w'.queues[i].messages, w'.sent)
    {
      assert AllSent(w.queues[i].messages, w.sent);
    }
  }

  lemma ReceiveGenuine(w: World, k: nat, r: Recv, nowait: bool)
    requires Genuine(w) && k < |w.queues|
    ensures Genuine(Receive(w, k, r, nowait))
  {
    hide Search;
    var w' := Receive(w, k, r, nowait);
    assert AllSent(w.queues[k].messages, w.sent);
    forall i | 0 <= i < |w'.queues|
      ensures AllSent(w'.queues[i].messages, w'.sent)
    {
      assert AllSent(w.queues[i].messages, w.sent);
    }
  }

  lemma WakeGenuine(w: World, k: nat, j: nat, signalled: bool)
    requires Genuine(w) && k < |w.queues| && j < |w.queues[k].receivers|
    ensures Genuine(Wake(w, k, j, signalled))
  {
    hide Receive;
    var q := w.queues[k];
    var w1 := w.(queues := w.queues[k := q.(receivers := Without(q.receivers, j))]);
    forall i | 0 <= i < |w1.queues|
      ensures AllSent(w1.queues[i].messages, w1.sent)
    {
      assert AllSent(w.queues[i].messages, w.sent);
    }
    ReceiveGenuine(w1, k, q.receivers[j], false);
  }

  lemma RemoveGenuine(w: World, k: nat)
    requires Genuine(w) && k < |w.queues|
    ensures Genuine(Remove(w, k))
  {
    hide Expunged;
    ExpungedNone(w.queues[k].receivers);
    assert AllSent(w.queues[k].messages, w.sent);
    forall i | 0 <= i < |w.queues|
      ensures AllSent(Remove(w, k).queues[i].messages, w.sent)
    {
      assert AllSent(w.queues[i].messages, w.sent);
    }
  }

  lemma OtherGenuine(w: World, e: Event)
    requires Genuine(w) && (e.NewQueue? || e.WokenRuns? || e.SetLimit?)
    ensures Genuine(Step(w, e))
  {
    var w' := Step(w, e);
    forall i | 0 <= i < |w'.queues|
      ensures AllSent(w'.queues[i].messages, w'.sent)
    {
      var j := if e.NewQueue? then i - 1 else i;
      assert j >= 0 ==> AllSent(w.queues[j].messages, w.sent);
    }
    if e.WokenRuns? && e.i < |w.woken| && w.woken[e.i].outcome.Got? {
      assert AllSent([w.woken[e.i].outcome.msg], w.sent);
    }
  }

  lemma StepGenuine(w: World, e: Event)
    requires Genuine(w)
    ensures Genuine(Step(w, e))
  {
    hide Genuine, Create, Send, Receive, Wake, Run, Limit, Remove;
    match e
    case Msgsnd(k, t, text) => if k < |w.queues| { SendGenuine(w, k, t, text); }
    case Msgrcv(k, call, t, size, noerror, except, nowait) =>
      if k < |w.queues| { ReceiveGenuine(w, k, Caller(call, t, except, size, noerror), nowait); }
    case WaiterWakes(k, j, s) => if k < |w.queues| && j < |w.queues[k].receivers| { WakeGenuine(w, k, j, s); }
    case RemoveQueue(k) => if k < |w.queues| { RemoveGenuine(w, k); }
    case _ => OtherGenuine(w, e);
  }

  lemma {:induction false} ExecGenuine(es: seq<Event>)
    ensures Genuine(Exec(es))
  {
    if es != [] {
      ExecGenuine(es[..|es| - 1]);
      StepGenuine(Exec(es[..|es| - 1]), es[|es| - 1]);
    }
  }

  /** After any run: nobody waits for a message that is there, every accepted message is in
      exactly one place, what was received has the type and text sent under its number, the
      counters are exact, and a removed queue keeps nothing. */
  lemma RunSafe(es: seq<Event>)
    ensures var w := Exec(es);
            && (forall k | 0 <= k < |w.queues| :: NoMatch(w.queues[k].messages, w.queues[k].receivers))
            && (forall c: nat :: Places(w, c) == if c < |w.sent| then 1 else 0)
            && (forall m | m in w.received :: m.id < |w.sent| && w.sent[m.id] == m)
            && w.hdrs == TotalNum(w.queues) && w.bytes == TotalBytes(w.queues)
            && (forall k | 0 <= k < |w.queues| ::
                  w.queues[k].qnum == |w.queues[k].messages| && w.queues[k].cbytes == Bytes(w.queues[k].messages))
            && (forall k | 0 <= k < |w.queues| && !w.queues[k].alive ::
                  w.queues[k].messages == [] && w.queues[k].receivers == [])
  {
    hide Exec, Places, NoMatch;
    ExecInv(es);
    ExecGenuine(es);
    var w := Exec(es);
    assert forall k | 0 <= k < |w.queues| :: QueueOk(w.queues[k]);
  }
}
