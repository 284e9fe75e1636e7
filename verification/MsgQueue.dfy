/** Messages of ipc/msg.c: segments, type matching, hand-over to a waiting receiver, and the
    search of sys_msgrcv. */
module MsgQueue {
  import opened Lists

  /** Bytes of text in the first page of a message and in each further segment. */
  const DATALEN_MSG: nat := 4096 - 20
  const DATALEN_SEG: nat := 4096 - 4

  const E2BIG: int := -7

  datatype Mode = SearchAny | SearchEqual | SearchNotEqual | SearchLessEqual

  /** A struct msg_msg. `text` is what load_msg copied in; its length is m_ts. */
  datatype Msg = Msg(id: nat, mtype: int, text: seq<int>)

  // ---- load_msg and store_msg ----

  /** The text of a chain of segments. */
  function Flatten(segs: seq<seq<int>>): seq<int> {
    if segs == [] then [] else segs[0] + Flatten(segs[1..])
  }

  /** The text of `n` bytes cut into a first page and full segments with a last partial one. */
  ghost predicate Segmented(segs: seq<seq<int>>, n: nat) {
    && segs != [] && |segs[0]| == Min(n, DATALEN_MSG)
    && (forall i | 0 < i < |segs| :: 0 < |segs[i]| <= DATALEN_SEG)
    && (forall i | 0 < i < |segs| - 1 :: |segs[i]| == DATALEN_SEG)
    && (|segs| > 1 ==> |segs[0]| == DATALEN_MSG)
  }

  lemma {:induction false} FlattenAppend(segs: seq<seq<int>>, s: seq<int>)
    ensures Flatten(segs + [s]) == Flatten(segs) + s
  {
    if segs == [] {
      assert ([] + [s])[1..] == [];
    } else {
      FlattenAppend(segs[1..], s);
      assert (segs + [s])[1..] == segs[1..] + [s];
    }
  }

  /** load_msg */
  method LoadMsg(src: seq<int>) returns (segs: seq<seq<int>>)
    ensures Segmented(segs, |src|) && Flatten(segs) == src
  {
    var alen := Min(|src|, DATALEN_MSG);
    segs := [src[..alen]];
    var at := alen;
    assert Flatten(segs) == src[..at] by {
      assert segs[1..] == [];
    }
    while at < |src|
      invariant alen <= at <= |src| && Segmented(segs, |src|) && Flatten(segs) == src[..at]
      invariant at < |src| ==> alen == DATALEN_MSG && forall i | 0 < i < |segs| :: |segs[i]| == DATALEN_SEG
    {
      alen := Min(|src| - at, DATALEN_SEG);
      FlattenAppend(segs, src[at..at + alen]);
      assert src[..at] + src[at..at + alen] == src[..at + alen];
      segs := segs + [src[at..at + alen]];
      at := at + alen;
      alen := Min(|src|, DATALEN_MSG);
    }
    assert src[..at] == src;
  }

  lemma {:induction false} FlattenTake(segs: seq<seq<int>>, k: nat)
    requires k < |segs|
    ensures Flatten(segs[..k + 1]) == Flatten(segs[..k]) + segs[k]
    ensures Flatten(segs[..k + 1]) <= Flatten(segs)
    decreases |segs| - k
  {
    FlattenAppend(segs[..k], segs[k]);
    assert segs[..k + 1] == segs[..k] + [segs[k]];
    if k + 1 < |segs| {
      FlattenTake(segs, k + 1);
    } else {
      assert segs[..k + 1] == segs;
    }
  }

  /** store_msg: the first `len` bytes of the text, from as many segments as that takes. */
  method StoreMsg(segs: seq<seq<int>>, len: nat) returns (dest: seq<int>)
    requires Segmented(segs, |Flatten(segs)|) && len <= |Flatten(segs)|
    ensures dest == Flatten(segs)[..len]
  {
    ghost var text := Flatten(segs);
    var alen := Min(len, DATALEN_MSG);
    dest := segs[0][..alen];
    var left, k := len - alen, 1;
    FlattenTake(segs, 0);
    assert segs[..1] == [segs[0]] && segs[..0] == [];
    assert text[..alen] == segs[0][..alen];
    while left > 0
      invariant 1 <= k <= |segs| && 0 <= left <= len && dest == text[..len - left]
      invariant left > 0 ==> Flatten(segs[..k]) == text[..len - left]
      decreases left
    {
      assert k < |segs| by {
        assert segs[..|segs|] == segs;
      }
      FlattenTake(segs, k);
      alen := Min(left, DATALEN_SEG);
      assert |Flatten(segs[..k + 1])| == len - left + |segs[k]|;
      assert alen <= |segs[k]| by {
        if k == |segs| - 1 {
          assert segs[..k + 1] == segs;
        }
      }
      assert text[..len - left + alen] == text[..len - left] + segs[k][..alen];
      dest := dest + segs[k][..alen];
      left := left - alen;
      if left > 0 {
        assert segs[k][..alen] == segs[k];
      }
      k := k + 1;
    }
  }

  /** Loading then storing gives back exactly the sent prefix, for every length. */
  method RoundTrip(src: seq<int>, len: nat) returns (dest: seq<int>)
    requires len <= |src|
    ensures dest == src[..len]
  {
    var segs := LoadMsg(src);
    dest := StoreMsg(segs, len);
  }

  // ---- testmsg, pipelined_send and the search of sys_msgrcv ----

  /** testmsg */
  predicate TestMsg(m: Msg, mtype: int, mode: Mode) {
    match mode
    case SearchAny => true
    case SearchLessEqual => m.mtype <= mtype
    case SearchEqual => m.mtype == mtype
    case SearchNotEqual => m.mtype != mtype
  }

  /** convert_mode */
  function ConvertMode(mtype: int, except: bool): (int, Mode) {
    if mtype == 0 then (0, SearchAny)
    else if mtype < 0 then (-mtype, SearchLessEqual)
    else if except then (mtype, SearchNotEqual)
    else (mtype, SearchEqual)
  }

  /** What POSIX promises for `msgtyp` and MSG_EXCEPT: any message for 0, the given type, or with
      MSG_EXCEPT any other, for a positive one, and the types up to its negation for a negative. */
  predicate Wanted(m: Msg, msgtyp: int, except: bool) {
    msgtyp == 0 || (msgtyp > 0 && (m.mtype == msgtyp) != except) || (msgtyp < 0 && m.mtype <= -msgtyp)
  }

  /** The converted type and mode test for exactly that. */
  lemma ModeIff(m: Msg, msgtyp: int, except: bool)
    ensures TestMsg(m, ConvertMode(msgtyp, except).0, ConvertMode(msgtyp, except).1) <==> Wanted(m, msgtyp, except)
  {
  }

  /** A struct msg_receiver: `msgtyp` and `except` are what the call asked for, `mtype` and `mode`
      what convert_mode made of it, and `size` is its buffer. */
  datatype Recv = Recv(call: nat, msgtyp: int, except: bool, mtype: int, mode: Mode, size: nat, noerror: bool)

  /** The receiver of a call. */
  function Caller(call: nat, msgtyp: int, except: bool, size: nat, noerror: bool): Recv {
    var (mtype, mode) := ConvertMode(msgtyp, except);
    Recv(call, msgtyp, except, mtype, mode, size, noerror)
  }

  predicate Converted(r: Recv) {
    (r.mtype, r.mode) == ConvertMode(r.msgtyp, r.except)
  }

  /** r_maxsize */
  predicate TooBig(r: Recv, m: Msg) {
    !r.noerror && r.size < |m.text|
  }

  /** What a receiver taken off the queue by another task will find. */
  datatype Outcome = Got(msg: Msg) | Err(error: int)

  datatype Woken = Woken(recv: Recv, outcome: Outcome)

  datatype Sent = Sent(receivers: seq<Recv>, woken: seq<Woken>, delivered: bool)

  /** pipelined_send: hand the message to the first waiting receiver that matches and has room;
      a matching one without room is woken with an error. */
  function Pipelined(rs: seq<Recv>, m: Msg): (r: Sent) {
    if rs == [] then Sent([], [], false)
    else if !TestMsg(m, rs[0].mtype, rs[0].mode) then
      var r := Pipelined(rs[1..], m);
      r.(receivers := [rs[0]] + r.receivers)
    else if TooBig(rs[0], m) then
      var r := Pipelined(rs[1..], m);
      r.(woken := [Woken(rs[0], Err(E2BIG))] + r.woken)
    else Sent(rs[1..], [Woken(rs[0], Got(m))], true)
  }

  /** The loop of pipelined_send. */
  method PipelinedSend(rs: seq<Recv>, m: Msg) returns (receivers: seq<Recv>, woken: seq<Woken>, delivered: bool)
    ensures Sent(receivers, woken, delivered) == Pipelined(rs, m)
  {
    receivers, woken, delivered := [], [], false;
    var i := 0;
    assert rs[0..] == rs;
    while i < |rs|
      invariant i <= |rs| && !delivered
      invariant var r := Pipelined(rs[i..], m);
                Pipelined(rs, m) == Sent(receivers + r.receivers, woken + r.woken, r.delivered)
    {
      var msr := rs[i];
      assert rs[i..][1..] == rs[i + 1..];
      if TestMsg(m, msr.mtype, msr.mode) {
        if TooBig(msr, m) {
          woken := woken + [Woken(msr, Err(E2BIG))];
        } else {
          woken := woken + [Woken(msr, Got(m))];
          receivers := receivers + rs[i + 1..];
          delivered := true;
          return;
        }
      } else {
        receivers := receivers + [msr];
      }
      i := i + 1;
    }
    assert rs[i..] == [];
  }

  /** The search of sys_msgrcv from position `k`: `found` is the best match so far, and in the
      mode for negative types a match lowers the bound for the rest. */
  function Search(ms: seq<Msg>, mtype: int, mode: Mode, k: nat, found: int): (r: int)
    requires k <= |ms|
    decreases |ms| - k
  {
    if k == |ms| then found
    else if TestMsg(ms[k], mtype, mode) then
      if mode == SearchLessEqual && ms[k].mtype != 1 then Search(ms, ms[k].mtype - 1, mode, k + 1, k)
      else k
    else Search(ms, mtype, mode, k + 1, found)
  }

  /** The loop of sys_msgrcv over the messages. */
  method SearchMessages(ms: seq<Msg>, mtype: int, mode: Mode) returns (found: int)
    ensures found == Search(ms, mtype, mode, 0, -1)
  {
    found := -1;
    var k, bound := 0, mtype;
    while k < |ms|
      invariant k <= |ms| && Search(ms, bound, mode, k, found) == Search(ms, mtype, mode, 0, -1)
    {
      if TestMsg(ms[k], bound, mode) {
        found := k;
        if mode == SearchLessEqual && ms[k].mtype != 1 {
          bound := ms[k].mtype - 1;
        } else {
          return;
        }
      }
      k := k + 1;
    }
  }

  /** The message that POSIX promises: the first match, or for a negative type the first
      message of the least eligible type. */
  ghost predicate RightChoice(ms: seq<Msg>, mtype: int, mode: Mode, r: int) {
    && 0 <= r < |ms| && TestMsg(ms[r], mtype, mode)
    && (forall i | 0 <= i < r && TestMsg(ms[i], mtype, mode) :: mode == SearchLessEqual && ms[i].mtype > ms[r].mtype)
    && (mode == SearchLessEqual ==> forall i | 0 <= i < |ms| && TestMsg(ms[i], mtype, mode) ::
        ms[r].mtype <= ms[i].mtype)
  }

  ghost predicate PositiveTypes(ms: seq<Msg>) {
    forall i | 0 <= i < |ms| :: ms[i].mtype >= 1
  }

  /** Nothing before `k` is better than `found`. */
  ghost predicate BestSoFar(ms: seq<Msg>, mtype: int, mode: Mode, bound: int, k: nat, found: int)
    requires k <= |ms|
  {
    if found == -1 then bound == mtype && forall i | 0 <= i < k :: !TestMsg(ms[i], mtype, mode)
    else
      && 0 <= found < k && mode == SearchLessEqual && TestMsg(ms[found], mtype, mode) && bound == ms[found].mtype - 1
      && (forall i | 0 <= i < k && TestMsg(ms[i], mtype, mode) ::
            ms[found].mtype <= ms[i].mtype && (i < found ==> ms[found].mtype < ms[i].mtype))
  }

  lemma {:induction false} SearchFrom(ms: seq<Msg>, mtype: int, mode: Mode, bound: int, k: nat, found: int)
    requires PositiveTypes(ms) && k <= |ms| && BestSoFar(ms, mtype, mode, bound, k, found)
    ensures var r := Search(ms, bound, mode, k, found);
            if r == -1 then forall i | 0 <= i < |ms| :: !TestMsg(ms[i], mtype, mode)
                else RightChoice(ms, mtype, mode, r)
    decreases |ms| - k
  {
    if k < |ms| {
      if TestMsg(ms[k], bound, mode) {
        if mode == SearchLessEqual && ms[k].mtype != 1 {
          SearchFrom(ms, mtype, mode, ms[k].mtype - 1, k + 1, k);
        }
      } else {
        SearchFrom(ms, mtype, mode, bound, k + 1, found);
      }
    }
  }

  /** The search finds the promised message, and nothing only when no message matches. */
  lemma SearchRight(ms: seq<Msg>, mtype: int, mode: Mode)
    requires PositiveTypes(ms)
    ensures var r := Search(ms, mtype, mode, 0, -1);
            if r == -1 then forall i | 0 <= i < |ms| :: !TestMsg(ms[i], mtype, mode)
                else RightChoice(ms, mtype, mode, r)
  {
    SearchFrom(ms, mtype, mode, mtype, 0, -1);
  }

  /** There is only one right choice. */
  lemma RightChoiceUnique(ms: seq<Msg>, mtype: int, mode: Mode, r: int, r': int)
    requires RightChoice(ms, mtype, mode, r) && RightChoice(ms, mtype, mode, r')
    ensures r == r'
  {
  }

  // ---- in terms of what the call asked for ----

  /** The first message that is asked for, or for a negative type the first of the least type. */
  ghost predicate Promised(ms: seq<Msg>, msgtyp: int, except: bool, f: int) {
    && 0 <= f < |ms| && Wanted(ms[f], msgtyp, except)
    && (forall i | 0 <= i < |ms| && Wanted(ms[i], msgtyp, except) ::
          if msgtyp < 0 then ms[f].mtype < ms[i].mtype || (ms[f].mtype == ms[i].mtype && f <= i) else f <= i)
  }

  /** The search with converted type and mode finds exactly the promised message, and none only
      when no message is asked for. */
  lemma SearchPromised(ms: seq<Msg>, msgtyp: int, except: bool, f: int)
    requires PositiveTypes(ms)
    ensures var r := Search(ms, ConvertMode(msgtyp, except).0, ConvertMode(msgtyp, except).1, 0, -1);
            && (Promised(ms, msgtyp, except, f) <==> f == r != -1)
            && (r == -1 <==> forall i | 0 <= i < |ms| :: !Wanted(ms[i], msgtyp, except))
  {
    hide Search, TestMsg;
    var (mtype, mode) := ConvertMode(msgtyp, except);
    var r := Search(ms, mtype, mode, 0, -1);
    SearchRight(ms, mtype, mode);
    forall i | 0 <= i < |ms|
      ensures TestMsg(ms[i], mtype, mode) <==> Wanted(ms[i], msgtyp, except)
    {
      ModeIff(ms[i], msgtyp, except);
    }
  }

  /** The receivers whose test the message passes, or those whose test it fails, in order. */
  function Select(rs: seq<Recv>, m: Msg, pass: bool): seq<Recv> {
    if rs == [] then []
    else (if TestMsg(m, rs[0].mtype, rs[0].mode) == pass then [rs[0]] else []) + Select(rs[1..], m, pass)
  }

  /** Each of them woken with E2BIG. */
  function Errors(rs: seq<Recv>): seq<Woken> {
    if rs == [] then [] else [Woken(rs[0], Err(E2BIG))] + Errors(rs[1..])
  }

  /** The message goes to the receiver at `first`, if that is one: those ahead of it that match,
      having no room, are woken with E2BIG, and all others wait on in their order. */
  ghost predicate HandedTo(rs: seq<Recv>, m: Msg, first: nat, r: Sent)
    requires first <= |rs|
  {
    var ahead := rs[..first];
    && (r.delivered <==> first < |rs|)
    && r.receivers == Select(ahead, m, false) + (if first < |rs| then rs[first + 1..] else [])
    && r.woken == Errors(Select(ahead, m, true)) + (if first < |rs| then [Woken(rs[first], Got(m))] else [])
  }

  lemma HandedNext(rs: seq<Recv>, m: Msg, first: nat, r: Sent)
    requires rs != [] && first < |rs| && HandedTo(rs[1..], m, first, r)
    ensures HandedTo(rs, m, first + 1,
              if TestMsg(m, rs[0].mtype, rs[0].mode) then r.(woken := [Woken(rs[0], Err(E2BIG))] + r.woken)
              else r.(receivers := [rs[0]] + r.receivers))
  {
    hide TestMsg;
    var ahead, rest := rs[..first + 1], rs[1..][..first];
    assert ahead[0] == rs[0] && ahead[1..] == rest;
    var wait, fail, x := Select(rest, m, false), Select(rest, m, true), Woken(rs[0], Err(E2BIG));
    assert ([rs[0]] + fail)[1..] == fail;
    assert Errors([rs[0]] + fail) == [x] + Errors(fail);
    assert Select(ahead, m, true) == if TestMsg(m, rs[0].mtype, rs[0].mode) then [rs[0]] + fail else fail;
    assert Select(ahead, m, false) == if TestMsg(m, rs[0].mtype, rs[0].mode) then wait else [rs[0]] + wait;
    var tail := if first + 1 < |rs| then rs[1..][first + 1..] else [];
    var got := if first + 1 < |rs| then [Woken(rs[1..][first], Got(m))] else [];
    assert tail == if first + 1 < |rs| then rs[first + 1 + 1..] else [];
    assert [rs[0]] + (wait + tail) == ([rs[0]] + wait) + tail;
    assert [x] + (Errors(fail) + got) == ([x] + Errors(fail)) + got;
  }

  /** pipelined_send hands the message to the first receiver that it passes the test of and that
      has room for it. */
  lemma {:induction false} PipelinedMeans(rs: seq<Recv>, m: Msg) returns (first: nat)
    ensures first <= |rs| && HandedTo(rs, m, first, Pipelined(rs, m))
    ensures forall i | 0 <= i < first && TestMsg(m, rs[i].mtype, rs[i].mode) :: TooBig(rs[i], m)
    ensures first < |rs| ==> TestMsg(m, rs[first].mtype, rs[first].mode) && !TooBig(rs[first], m)
  {
    hide TestMsg, TooBig, HandedTo;
    first := 0;
    if rs == [] {
      HandedFirst(rs, m);
    } else if TestMsg(m, rs[0].mtype, rs[0].mode) && !TooBig(rs[0], m) {
      HandedFirst(rs, m);
    } else {
      first := PipelinedMeans(rs[1..], m);
      HandedNext(rs, m, first, Pipelined(rs[1..], m));
      first := first + 1;
    }
  }

  lemma HandedFirst(rs: seq<Recv>, m: Msg)
    ensures HandedTo(rs, m, 0, if rs == [] then Sent([], [], false) else Sent(rs[1..], [Woken(rs[0], Got(m))], true))
  {
    assert rs[..0] == [];
    assert Select(rs[..0], m, false) == Select(rs[..0], m, true) == [];
    assert Errors(Select(rs[..0], m, true)) == [];
  }
}
