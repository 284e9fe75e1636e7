/** The calls of the message queues, on state that is changed in place. */
module MsgTable {
  import opened MsgQueue
  import opened MsgSystem

  const EINVAL: int := -22
  const EAGAIN: int := -11
  const ENOMSG: int := -35

  /** A call that has to sleep reports `Waits`. */
  datatype Result = Done | Taken(msg: Msg) | Failed(error: int) | Waits

  lemma Positive(w: World, k: nat)
    requires Inv(w) && k < |w.queues|
    ensures PositiveTypes(w.queues[k].messages)
  {
    assert QueueOk(w.queues[k]);
  }

  /** What sys_msgrcv returns from these messages: the one it was asked for if there is room for
      it, E2BIG if not, and with none there ENOMSG or a wait. */
  ghost predicate RightResult(ms: seq<Msg>, r: Recv, nowait: bool, res: Result) {
    if forall i | 0 <= i < |ms| :: !Wanted(ms[i], r.msgtyp, r.except) then
      res == if nowait then Failed(ENOMSG) else Waits
    else
      forall f | Promised(ms, r.msgtyp, r.except, f) :: res == if TooBig(r, ms[f]) then Failed(E2BIG) else Taken(ms[f])
  }

  /** What the search of the call finds decides. */
  lemma FoundDecides(ms: seq<Msg>, r: Recv, nowait: bool, res: Result)
    requires PositiveTypes(ms) && Converted(r)
    ensures var f := Search(ms, r.mtype, r.mode, 0, -1);
            && -1 <= f < |ms|
            && (RightResult(ms, r, nowait, res) <==>
                  res == if f == -1 then (if nowait then Failed(ENOMSG) else Waits)
                         else if TooBig(r, ms[f]) then Failed(E2BIG) else Taken(ms[f]))
  {
    hide Search, Wanted;
    var f := Search(ms, r.mtype, r.mode, 0, -1);
    forall g
      ensures (Promised(ms, r.msgtyp, r.except, g) <==> g == f != -1)
              && (f == -1 <==> forall i | 0 <= i < |ms| :: !Wanted(ms[i], r.msgtyp, r.except))
    {
      SearchPromised(ms, r.msgtyp, r.except, g);
    }
    assert f != -1 ==> Promised(ms, r.msgtyp, r.except, f);
  }

  class Ipc {
    var queues: seq<Queue>
    var hdrs: int
    var bytes: int
    var woken: seq<Woken>
    var received: seq<Msg>
    var freed: seq<Msg>
    var sent: seq<Msg>
    var takers: seq<Recv>

    function State(): World
      reads this
    {
      World(queues, hdrs, bytes, woken, received, freed, sent, takers)
    }

    constructor ()
      ensures State() == Exec([]) && Inv(State())
    {
      queues, hdrs, bytes, woken, received, freed, sent, takers := [], 0, 0, [], [], [], [], [];
      new;
      ExecInv([]);
    }

    /** sys_msgsnd up to its acceptance or its sleep; `resumed` when it comes back from a sleep. */
    method Msgsnd(k: nat, mtype: int, text: seq<int>, nowait: bool, resumed: bool) returns (r: Result)
      requires Inv(State())
      modifies this
      ensures Inv(State())
      ensures k < |old(queues)| ==> State() == Send(old(State()), k, mtype, text)
      ensures k >= |old(queues)| ==> State() == old(State())
      ensures r.Done? <==> sent == old(sent) + [Msg(|old(sent)|, mtype, text)]
      ensures r == if |text| > MSGMAX || mtype < 1 || k >= |old(queues)| then Failed(EINVAL)
                   else if !old(queues)[k].alive then Failed(if resumed then EIDRM else EINVAL)
                   else if Fits(old(queues)[k], |text|) then Done
                   else if nowait then Failed(EAGAIN)
                   else Waits
    {
      hide Inv;
      if k < |queues| {
        SendKeeps(State(), k, mtype, text);
      }
      if |text| > MSGMAX || mtype < 1 || k >= |queues| {
        return Failed(EINVAL);
      }
      if !queues[k].alive {
        return Failed(if resumed then EIDRM else EINVAL);
      }
      if |text| + queues[k].cbytes > queues[k].qbytes || 1 + queues[k].qnum > queues[k].qbytes {
        return if nowait then Failed(EAGAIN) else Waits;
      }
      var m := Msg(|sent|, mtype, text);
      var receivers, waked, delivered := PipelinedSend(queues[k].receivers, m);
      assert Sent(receivers, waked, delivered) == Pipelined(queues[k].receivers, m);
      var q := queues[k].(receivers := receivers);
      if !delivered {
        q := q.(messages := q.messages + [m], cbytes := q.cbytes + |text|, qnum := q.qnum + 1);
        bytes := bytes + |text|;
        hdrs := hdrs + 1;
      }
      queues := queues[k := q];
      woken := woken + waked;
      sent := sent + [m];
      return Done;
    }

    /** sys_msgrcv from its label `retry` to its return or its sleep. */
    method Retry(k: nat, r: Recv, nowait: bool) returns (res: Result)
      requires Inv(State()) && k < |queues| && queues[k].alive && Converted(r)
      modifies this
      ensures Inv(State()) && State() == Receive(old(State()), k, r, nowait)
      ensures RightResult(old(queues)[k].messages, r, nowait, res) && res != Failed(EINVAL)
      ensures received == old(received) + if res.Taken? then [res.msg] else []
      ensures res.Waits? ==> queues[k].receivers == old(queues)[k].receivers + [r]
    {
      hide Inv, Search, RightResult, Converted;
      ReceiveKeeps(State(), k, r, nowait);
      Positive(State(), k);
      var q := queues[k];
      var found := SearchMessages(q.messages, r.mtype, r.mode);
      FoundDecides(q.messages, r, nowait, if nowait then Failed(ENOMSG) else Waits);
      if found != -1 {
        var m := q.messages[found];
        FoundDecides(q.messages, r, nowait, if TooBig(r, m) then Failed(E2BIG) else Taken(m));
        if r.size < |m.text| && !r.noerror {
          return Failed(E2BIG);
        }
        queues := queues[k := q.(messages := q.messages[..found] + q.messages[found + 1..], qnum := q.qnum - 1,
            cbytes := q.cbytes - |m.text|)];
        bytes := bytes - |m.text|;
        hdrs := hdrs - 1;
        received := received + [m];
        takers := takers + [r];
        return Taken(m);
      }
      if nowait {
        return Failed(ENOMSG);
      }
      queues := queues[k := q.(receivers := q.receivers + [r])];
      return Waits;
    }

    /** sys_msgrcv up to its return or its sleep, for `msgtyp` as the caller gave it. */
    method Msgrcv(k: nat, call: nat, msgtyp: int, size: nat, noerror: bool, except: bool, nowait: bool)
      returns (res: Result)
      requires Inv(State())
      modifies this
      ensures Inv(State())
      ensures State() == Step(old(State()), MsgSystem.Msgrcv(k, call, msgtyp, size, noerror, except, nowait))
      ensures res == Failed(EINVAL) <==> k >= |old(queues)| || !old(queues)[k].alive
      ensures res != Failed(EINVAL) ==>
                RightResult(old(queues)[k].messages, Caller(call, msgtyp, except, size, noerror), nowait, res)
      ensures received == old(received) + if res.Taken? then [res.msg] else []
      ensures res.Waits? ==>
                queues[k].receivers == old(queues)[k].receivers + [Caller(call, msgtyp, except, size, noerror)]
    {
      hide Inv, Search, RightResult, ConvertMode;
      var r := Caller(call, msgtyp, except, size, noerror);
      if k >= |queues| || !queues[k].alive {
        return Failed(EINVAL);
      }
      res := Retry(k, r, nowait);
    }

    /** expunge_all */
    method ExpungeAll(rs: seq<Recv>)
      modifies this`woken
      ensures woken == old(woken) + Expunged(rs)
    {
      var i := 0;
      assert rs[0..] == rs;
      while i < |rs|
        invariant i <= |rs|
        invariant woken + Expunged(rs[i..]) == old(woken) + Expunged(rs)
      {
        assert rs[i..][1..] == rs[i + 1..];
        woken := woken + [Woken(rs[i], Err(EIDRM))];
        i := i + 1;
      }
    }

    /** freeque */
    method Freeque(k: nat) returns (r: Result)
      requires Inv(State())
      modifies this
      ensures Inv(State())
      ensures k < |old(queues)| ==> State() == Remove(old(State()), k)
      ensures k >= |old(queues)| ==> State() == old(State())
      ensures r.Done? <==> k < |old(queues)| && old(queues)[k].alive
    {
      hide Inv;
      if k >= |queues| || !queues[k].alive {
        return Failed(EINVAL);
      }
      RemoveKeeps(State(), k);
      var q := queues[k];
      queues := queues[k := Queue(false, [], [], 0, 0, q.qbytes)];
      ExpungeAll(q.receivers);
      var i := 0;
      while i < |q.messages|
        invariant i <= |q.messages|
        invariant hdrs == old(hdrs) - i && freed == old(freed) + q.messages[..i]
        invariant queues == old(queues)[k := Queue(false, [], [], 0, 0, q.qbytes)]
        invariant woken == old(woken) + Expunged(q.receivers)
        invariant bytes == old(bytes) && received == old(received) && sent == old(sent) && takers == old(takers)
      {
        hdrs := hdrs - 1;
        freed := freed + [q.messages[i]];
        i := i + 1;
      }
      assert q.messages[..i] == q.messages;
      bytes := bytes - q.cbytes;
      return Done;
    }
  }
}
