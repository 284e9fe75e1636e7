/** What each call on the message queues does, in terms of what its caller asked for, and that
    over every run nobody gets anything else. */
module MsgCalls {
  import opened Lists
  import opened MsgQueue
  import opened MsgSystem

  /** A message is accepted exactly when it is short enough, of positive type, for a queue that is
      there and has room; a call that is not accepted changes nothing. An accepted message goes
      to the first waiting receiver that matches and has room, and if there is none to the end of
      the queue. */
  lemma SendMeans(w: World, k: nat, mtype: int, text: seq<int>) returns (first: nat)
    requires k < |w.queues|
    ensures var q, w', m := w.queues[k], Send(w, k, mtype, text), Msg(|w.sent|, mtype, text);
            if |text| <= MSGMAX && mtype >= 1 && q.alive && |text| + q.cbytes <= q.qbytes && q.qnum < q.qbytes then
              && first <= |q.receivers|
              && (forall i | 0 <= i < first && TestMsg(m, q.receivers[i].mtype, q.receivers[i].mode) ::
                    TooBig(q.receivers[i], m))
              && (first < |q.receivers| ==>
                    && TestMsg(m, q.receivers[first].mtype, q.receivers[first].mode)
                    && !TooBig(q.receivers[first], m)
                    && w'.queues[k].messages == q.messages)
              && (first == |q.receivers| ==> w'.queues[k].messages == q.messages + [m])
              && w'.sent == w.sent + [m] && w'.received == w.received && w'.freed == w.freed
              && |w'.woken| >= |w.woken| && w'.woken[..|w.woken|] == w.woken
              && HandedTo(q.receivers, m, first,
                          Sent(w'.queues[k].receivers, w'.woken[|w.woken|..], first < |q.receivers|))
            else w' == w
  {
    hide HandedTo, TestMsg, TooBig;
    var q, m := w.queues[k], Msg(|w.sent|, mtype, text);
    first := PipelinedMeans(q.receivers, m);
    var r := Pipelined(q.receivers, m);
    HandedDelivered(q.receivers, m, first, r);
    hide Pipelined;
    assert r == Sent(r.receivers, r.woken, r.delivered);
    assert (w.woken + r.woken)[|w.woken|..] == r.woken;
    assert (w.woken + r.woken)[..|w.woken|] == w.woken;
  }

  lemma HandedDelivered(rs: seq<Recv>, m: Msg, first: nat, r: Sent)
    requires first <= |rs| && HandedTo(rs, m, first, r)
    ensures r.delivered <==> first < |rs|
  {
  }

  /** A receive from a queue that is there takes the message that was asked for, if there is room
      for it, and fails without effect if there is not; with none there it waits at the end of the
      line, or fails without effect if it may not. */
  lemma ReceiveMeans(w: World, k: nat, call: nat, msgtyp: int, size: nat, noerror: bool, except: bool, nowait: bool,
                     f: int)
    requires Inv(w) && k < |w.queues|
    ensures var q, r := w.queues[k], Caller(call, msgtyp, except, size, noerror);
            var w' := Step(w, Msgrcv(k, call, msgtyp, size, noerror, except, nowait));
            && (!q.alive ==> w' == w)
            && (q.alive && Promised(q.messages, msgtyp, except, f) ==>
                  if !noerror && size < |q.messages[f].text| then w' == w
                  else
                    && w'.received == w.received + [q.messages[f]] && w'.takers == w.takers + [r]
                    && w'.queues[k].messages == Without(q.messages, f) && w'.queues[k].receivers == q.receivers
                    && w'.woken == w.woken && w'.freed == w.freed)
            && (q.alive && (forall i | 0 <= i < |q.messages| :: !Wanted(q.messages[i], msgtyp, except)) ==>
                  w' == if nowait then w else w.(queues := w.queues[k := q.(receivers := q.receivers + [r])]))
  {
    hide Search, Promised, Wanted, QueuesOk, TotalsOk, Conserved, AllOrdered, ConvertMode;
    var q := w.queues[k];
    Types(w, k);
    SearchPromised(q.messages, msgtyp, except, f);
    if Promised(q.messages, msgtyp, except, f) {
      Inside(q.messages, msgtyp, except, f);
    }
  }

  lemma Types(w: World, k: nat)
    requires Inv(w) && k < |w.queues|
    ensures PositiveTypes(w.queues[k].messages)
  {
    assert QueueOk(w.queues[k]);
  }

  lemma Inside(ms: seq<Msg>, msgtyp: int, except: bool, f: int)
    requires Promised(ms, msgtyp, except, f)
    ensures 0 <= f < |ms|
  {
  }

  /** A receiver that another task took off the queue returns with what it was left: the message,
      or nothing. One that a signal ends leaves the queue and nothing else. */
  lemma LeaveMeans(w: World, i: nat, k: nat, j: nat)
    requires i < |w.woken| && k < |w.queues| && j < |w.queues[k].receivers|
    ensures var w' := Step(w, WokenRuns(i));
            && w'.woken == Without(w.woken, i) && w'.queues == w.queues && w'.freed == w.freed
            && (w.woken[i].outcome.Got? ==> w'.received == w.received + [w.woken[i].outcome.msg]
                                            && w'.takers == w.takers + [w.woken[i].recv])
            && (w.woken[i].outcome.Err? ==> w'.received == w.received && w'.takers == w.takers)
    ensures var q := w.queues[k];
            Step(w, WaiterWakes(k, j, true)) == w.(queues := w.queues[k := q.(receivers := Without(q.receivers, j))])
  {
  }

  lemma {:induction false} ExpungedAll(rs: seq<Recv>)
    ensures |Expunged(rs)| == |rs| && forall i | 0 <= i < |rs| :: Expunged(rs)[i] == Woken(rs[i], Err(EIDRM))
  {
    if rs != [] {
      ExpungedAll(rs[1..]);
    }
  }

  /** A removed queue is gone: its messages are freed and every one of its receivers is woken with
      EIDRM, in order; a queue that is not there is left alone. */
  lemma RemoveMeans(w: World, k: nat)
    requires k < |w.queues|
    ensures var q, w' := w.queues[k], Step(w, RemoveQueue(k));
            if q.alive then
              && !w'.queues[k].alive && w'.queues[k].messages == [] && w'.queues[k].receivers == []
              && w'.freed == w.freed + q.messages && w'.received == w.received && w'.sent == w.sent
              && |w'.woken| == |w.woken| + |q.receivers| && w'.woken[..|w.woken|] == w.woken
              && (forall i | 0 <= i < |q.receivers| :: w'.woken[|w.woken| + i] == Woken(q.receivers[i], Err(EIDRM)))
              && (forall i | 0 <= i < |w.queues| && i != k :: w'.queues[i] == w.queues[i])
            else w' == w
  {
    ExpungedAll(w.queues[k].receivers);
  }

  /** msgget adds an empty queue with its limit, and IPC_SET changes the limit of one. */
  lemma LimitMeans(w: World, k: nat, qbytes: int)
    ensures Step(w, NewQueue(qbytes)) == w.(queues := [Queue(true, [], [], 0, 0, qbytes)] + w.queues)
    ensures k < |w.queues| ==>
              var w' := Step(w, SetLimit(k, qbytes));
              && |w'.queues| == |w.queues| && w'.queues[k].qbytes == qbytes
              && w'.queues[k].messages == w.queues[k].messages && w'.queues[k].receivers == w.queues[k].receivers
  {
  }

  // ---- everybody gets what they asked for ----

  /** The message is one that the call asked for, and fits its buffer. */
  predicate Due(r: Recv, m: Msg) {
    Wanted(m, r.msgtyp, r.except) && (r.noerror || |m.text| <= r.size)
  }

  ghost predicate AllConverted(rs: seq<Recv>) {
    forall r | r in rs :: Converted(r)
  }

  ghost predicate AllDue(w: World) {
    && (forall k | 0 <= k < |w.queues| :: AllConverted(w.queues[k].receivers))
    && (forall u | u in w.woken && u.outcome.Got? :: Due(u.recv, u.outcome.msg))
    && |w.takers| == |w.received| && (forall i | 0 <= i < |w.takers| :: Due(w.takers[i], w.received[i]))
  }

  lemma TestedIsDue(r: Recv, m: Msg)
    requires Converted(r) && TestMsg(m, r.mtype, r.mode) && !TooBig(r, m)
    ensures Due(r, m)
  {
    ModeIff(m, r.msgtyp, r.except);
  }

  lemma {:induction false} PipelinedDue(rs: seq<Recv>, m: Msg)
    requires AllConverted(rs)
    ensures AllConverted(Pipelined(rs, m).receivers)
    ensures forall u | u in Pipelined(rs, m).woken && u.outcome.Got? :: Due(u.recv, u.outcome.msg)
  {
    hide TestMsg, TooBig, Due, Converted;
    if rs != [] {
      assert rs[0] in rs;
      assert forall r | r in rs[1..] :: r in rs;
      PipelinedDue(rs[1..], m);
      if TestMsg(m, rs[0].mtype, rs[0].mode) && !TooBig(rs[0], m) {
        TestedIsDue(rs[0], m);
      }
    }
  }

  lemma SendDue(w: World, k: nat, mtype: int, text: seq<int>)
    requires AllDue(w) && k < |w.queues|
    ensures AllDue(Send(w, k, mtype, text))
  {
    hide Pipelined, Fits, Due, AllConverted;
    PipelinedDue(w.queues[k].receivers, Msg(|w.sent|, mtype, text));
  }

  lemma ReceiveDue(w: World, k: nat, r: Recv, nowait: bool)
    requires AllDue(w) && k < |w.queues| && PositiveTypes(w.queues[k].messages) && Converted(r)
    ensures AllDue(Receive(w, k, r, nowait))
  {
    hide Search, Due, Converted;
    var q := w.queues[k];
    var f := Search(q.messages, r.mtype, r.mode, 0, -1);
    SearchRight(q.messages, r.mtype, r.mode);
    if 0 <= f < |q.messages| && !TooBig(r, q.messages[f]) {
      TestedIsDue(r, q.messages[f]);
    }
    assert AllConverted(q.receivers);
  }

  lemma WakeDue(w: World, k: nat, j: nat, signalled: bool)
    requires Inv(w) && AllDue(w) && k < |w.queues| && j < |w.queues[k].receivers|
    ensures AllDue(Wake(w, k, j, signalled))
  {
    hide Receive, Due, Converted, PositiveTypes, Inv;
    Types(w, k);
    var q := w.queues[k];
    assert AllConverted(q.receivers);
    assert q.receivers[j] in q.receivers;
    assert forall r | r in Without(q.receivers, j) :: r in q.receivers;
    var w1 := w.(queues := w.queues[k := q.(receivers := Without(q.receivers, j))]);
    ReceiveDue(w1, k, q.receivers[j], false);
  }

  lemma StepDue(w: World, e: Event)
    requires Inv(w) && AllDue(w)
    ensures AllDue(Step(w, e))
  {
    hide Inv, Send, Receive, Wake, Due, AllConverted;
    match e
    case NewQueue(_) => assert AllConverted([]) by { EmptyConverted(); }
    case Msgsnd(k, t, text) => if k < |w.queues| { SendDue(w, k, t, text); }
    case Msgrcv(k, call, t, size, noerror, except, nowait) =>
      if k < |w.queues| {
        Types(w, k);
        ReceiveDue(w, k, Caller(call, t, except, size, noerror), nowait);
      }
    case WaiterWakes(k, j, s) => if k < |w.queues| && j < |w.queues[k].receivers| { WakeDue(w, k, j, s); }
    case WokenRuns(i) => if i < |w.woken| { assert w.woken[i] in w.woken; }
    case SetLimit(_, _) =>
    case RemoveQueue(k) =>
      EmptyConverted();
      if k < |w.queues| { ExpungedNone(w.queues[k].receivers); }
  }

  lemma EmptyConverted()
    ensures AllConverted([])
  {
  }

  lemma {:induction false} ExecDue(es: seq<Event>)
    ensures AllDue(Exec(es))
  {
    if es != [] {
      ExecInv(es[..|es| - 1]);
      ExecDue(es[..|es| - 1]);
      StepDue(Exec(es[..|es| - 1]), es[|es| - 1]);
    }
  }

  /** Over every run, each message that a call received is of a type that it asked for, and no
      longer than its buffer unless it asked to have it cut. */
  lemma RunDue(es: seq<Event>, i: nat)
    requires i < |Exec(es).received|
    ensures var w := Exec(es);
            && |w.takers| == |w.received|
            && var r, m := w.takers[i], w.received[i];
            && (r.noerror || |m.text| <= r.size)
            && (r.msgtyp > 0 ==> if r.except then m.mtype != r.msgtyp else m.mtype == r.msgtyp)
            && (r.msgtyp < 0 ==> m.mtype <= -r.msgtyp)
  {
    hide Exec;
    ExecDue(es);
    assert Due(Exec(es).takers[i], Exec(es).received[i]);
  }
}
