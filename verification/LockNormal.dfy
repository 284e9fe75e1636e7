/** On a list in normal form a granted request sets the caller's bytes exactly, and
    the normal form comes back, unless the increment of an end at OFFSET_MAX wraps. */
module LockNormal {
  import opened LockTypes
  import opened LockWalk
  import opened LockSound

  /** The wrap at OFFSET_MAX misfires: the request runs to the end of the file and its
      owner already has a record of the same kind that the request should absorb. */
  predicate WrapHit(list: seq<Lock>, req: Lock) {
    req.end == OFFSET_MAX
    && exists r | r in list :: r.owner == req.owner && r.kind == req.kind && r.end >= req.start - 1
  }

  /** How many records of the original list the walk has deleted. */
  function Deleted(orig: seq<Lock>, w: Walk): int {
    |orig| - |w.list|
  }

  /** The prefix of the list that the walk has left alone. */
  function Prefix(w: Walk): int {
    if w.at == NONE then w.i else w.at
  }

  /** Where things are in the list while the walk goes over it. */
  ghost predicate TidyAt(orig: seq<Lock>, w: Walk)
    requires Shape(w)
  {
    var d := Deleted(orig, w);
    && 0 <= d && w.i + d <= |orig|
    && w.list[w.i..] == orig[w.i + d..]
    && w.list[..Prefix(w)] == orig[..Prefix(w)]
    && (w.at != NONE ==> w.at == w.i - 1)
    && (!w.added ==> d == 0)
    && (Splits(w) ==> w.at == NONE && d == 0)
    && (w.left == NONE || w.left == Prefix(w) - 1 || w.left == w.right)
  }

  /** How the records met so far lie to the caller's range. */
  ghost predicate TidyRange(orig: seq<Lock>, req: Lock, w: Walk)
    requires Shape(w) && TidyAt(orig, w)
  {
    var d, c := Deleted(orig, w), w.caller;
    && c.owner == req.owner && c.kind == req.kind
    && c.start <= req.start && req.end <= c.end <= OFFSET_MAX && 0 <= c.start
    && (w.at == NONE ==> c == req)
    // records left behind lie below the caller, save `left`
    && (forall j | 0 <= j < Prefix(w) && orig[j].owner == req.owner && j != w.left :: Before(orig[j], c))
    // once the walk has met the caller's range, everything further on starts above its start
    && (w.at != NONE || d > 0 || (w.left != NONE && w.left < w.i) ==>
          w.i + d > 0 && orig[w.i + d - 1].owner == req.owner && c.start <= orig[w.i + d - 1].end)
    // deleted and absorbed records lie inside the caller
    && (forall j | Prefix(w) <= j < w.i + d ::
          orig[j].owner == req.owner && c.start <= orig[j].start && orig[j].end <= c.end)
    && (w.left != NONE ==>
          w.list[w.left].owner == req.owner && w.list[w.left].kind != req.kind
          && w.list[w.left].start < c.start == req.start <= w.list[w.left].end
          && (w.left < w.i ==> w.list[w.left].end <= req.end))
    && (w.right != NONE ==>
          w.list[w.right].owner == req.owner && w.list[w.right].kind != req.kind
          && w.list[w.right].start <= c.end < w.list[w.right].end
          && (w.list[w.right].start < c.start ==> w.left == w.right))
    && (c.start < req.start ==>
          exists j | 0 <= j < |orig| ::
            orig[j].owner == req.owner && orig[j].kind == req.kind && orig[j].end >= req.start - 1)
    && (c.end > req.end ==> w.i + d > 0 && orig[w.i + d - 1].owner == req.owner && orig[w.i + d - 1].end == c.end)
  }

  /** The invariant of the walk over a list in normal form. */
  ghost predicate Tidy(orig: seq<Lock>, req: Lock, w: Walk)
    requires Shape(w)
  {
    TidyAt(orig, w) && TidyRange(orig, req, w)
  }

  /** What the walk knows of the record it is about to judge. */
  ghost predicate Ahead(orig: seq<Lock>, req: Lock, w: Walk)
    requires w.i < |w.list|
  {
    var d, fl := Deleted(orig, w), w.list[w.i];
    && 0 <= w.i + d < |orig|
    && fl == orig[w.i + d] && ValidRecord(fl) && fl.owner == req.owner
    && w.list[w.i + 1..] == orig[w.i + d + 1..]
    && (w.at != NONE || d > 0 || w.left != NONE ==> w.caller.start < fl.start)
    && (w.caller.end > req.end ==> w.caller.end < fl.start)
    && (forall j | 0 <= j < w.i + d && orig[j].owner == req.owner :: Before(orig[j], fl))
  }

  lemma LookAhead(orig: seq<Lock>, req: Lock, w: Walk)
    requires AllValid(orig) && Ordered(orig) && ValidRange(req)
    requires Shape(w) && w.right == NONE && Classify(w) != Break
    requires Tidy(orig, req, w)
    ensures Ahead(orig, req, w)
  {
    var d := Deleted(orig, w);
    assert w.list[w.i] == w.list[w.i..][0] == orig[w.i + d..][0];
    assert w.list[w.i + 1..] == w.list[w.i..][1..] == orig[w.i + d..][1..] == orig[w.i + d + 1..];
    assert w.i + d > 0 && orig[w.i + d - 1].owner == req.owner ==> Before(orig[w.i + d - 1], orig[w.i + d]);
  }

  /** Unless the wrap misfires, no end is incremented at OFFSET_MAX. */
  lemma NoWrap(orig: seq<Lock>, req: Lock, w: Walk)
    requires ValidRange(req) && !WrapHit(orig, req)
    requires Shape(w) && w.right == NONE && (Classify(w) == Take || Classify(w) == Merge)
    requires Tidy(orig, req, w) && Ahead(orig, req, w)
    ensures w.caller.end < OFFSET_MAX
  {
    assert orig[w.i + Deleted(orig, w)] in orig;
  }

  lemma KeepingAt(orig: seq<Lock>, req: Lock, w: Walk)
    requires Shape(w) && w.right == NONE && (Classify(w) == Skip || Classify(w) == KeepLeft || Classify(w) == CutRight)
    requires Tidy(orig, req, w) && Ahead(orig, req, w)
    ensures Shape(Step(w)) && TidyAt(orig, Step(w))
  {
    hide TidyRange, Locking;
    StepShape(w);
    assert w.at != NONE || Deleted(orig, w) > 0 || w.left != NONE ==> w.caller.start < w.list[w.i].start;
    assert w.list[..w.i + 1] == w.list[..w.i] + [w.list[w.i]];
  }

  lemma TakingAt(orig: seq<Lock>, req: Lock, w: Walk)
    requires Shape(w) && w.right == NONE && (Classify(w) == Take || Classify(w) == Replace)
    requires Tidy(orig, req, w) && Ahead(orig, req, w)
    ensures Shape(Step(w)) && TidyAt(orig, Step(w))
  {
    hide TidyRange, Locking;
    StepShape(w);
    assert w.at != NONE || Deleted(orig, w) > 0 || w.left != NONE ==> w.caller.start < w.list[w.i].start;
  }

  lemma RemovingAt(orig: seq<Lock>, req: Lock, w: Walk)
    requires Shape(w) && w.right == NONE && (Classify(w) == Merge || Classify(w) == Delete)
    requires Tidy(orig, req, w) && Ahead(orig, req, w)
    ensures Shape(Step(w)) && TidyAt(orig, Step(w))
  {
    hide TidyRange, Locking;
    StepShape(w);
    assert w.at != NONE || Deleted(orig, w) > 0 || w.left != NONE ==> w.caller.start < w.list[w.i].start;
    var w' := Step(w);
    assert w'.list[w'.i..] == w.list[w.i + 1..];
    assert w'.list[..Prefix(w)] == w.list[..Prefix(w)];
  }

  lemma SkipRange(orig: seq<Lock>, req: Lock, w: Walk)
    requires ValidRange(req)
    requires Shape(w) && w.right == NONE && Classify(w) == Skip
    requires Tidy(orig, req, w) && Ahead(orig, req, w) && Shape(Step(w)) && TidyAt(orig, Step(w))
    ensures TidyRange(orig, req, Step(w))
  {
  }

  lemma TakeRange(orig: seq<Lock>, req: Lock, w: Walk)
    requires ValidRange(req) && w.caller.end < OFFSET_MAX
    requires Shape(w) && w.right == NONE && Classify(w) == Take
    requires Tidy(orig, req, w) && Ahead(orig, req, w) && Shape(Step(w)) && TidyAt(orig, Step(w))
    ensures TidyRange(orig, req, Step(w))
  {
    assert orig[w.i].owner == req.owner && orig[w.i].kind == req.kind && orig[w.i].end >= req.start - 1;
  }

  lemma MergeRange(orig: seq<Lock>, req: Lock, w: Walk)
    requires ValidRange(req) && w.caller.end < OFFSET_MAX
    requires Shape(w) && w.right == NONE && Classify(w) == Merge
    requires Tidy(orig, req, w) && Ahead(orig, req, w) && Shape(Step(w)) && TidyAt(orig, Step(w))
    ensures TidyRange(orig, req, Step(w))
  {
  }

  lemma CutRightRange(orig: seq<Lock>, req: Lock, w: Walk)
    requires ValidRange(req)
    requires Shape(w) && w.right == NONE && Classify(w) == CutRight
    requires Tidy(orig, req, w) && Ahead(orig, req, w) && Shape(Step(w)) && TidyAt(orig, Step(w))
    ensures TidyRange(orig, req, Step(w))
  {
  }

  lemma KeepLeftRange(orig: seq<Lock>, req: Lock, w: Walk)
    requires ValidRange(req)
    requires Shape(w) && w.right == NONE && Classify(w) == KeepLeft
    requires Tidy(orig, req, w) && Ahead(orig, req, w) && Shape(Step(w)) && TidyAt(orig, Step(w))
    ensures TidyRange(orig, req, Step(w))
  {
  }

  lemma DeleteRange(orig: seq<Lock>, req: Lock, w: Walk)
    requires ValidRange(req)
    requires Shape(w) && w.right == NONE && Classify(w) == Delete
    requires Tidy(orig, req, w) && Ahead(orig, req, w) && Shape(Step(w)) && TidyAt(orig, Step(w))
    ensures TidyRange(orig, req, Step(w))
  {
  }

  lemma ReplaceRange(orig: seq<Lock>, req: Lock, w: Walk)
    requires ValidRange(req)
    requires Shape(w) && w.right == NONE && Classify(w) == Replace
    requires Tidy(orig, req, w) && Ahead(orig, req, w) && Shape(Step(w)) && TidyAt(orig, Step(w))
    ensures TidyRange(orig, req, Step(w))
  {
  }

  /** The walk stands at the start of the owner's group or right after a record of it. */
  ghost predicate Anchored(orig: seq<Lock>, o: Owner, p: int) {
    p == SkipOthers(orig, o, 0) || (0 < p <= |orig| && orig[p - 1].owner == o)
  }

  lemma StepAnchored(orig: seq<Lock>, req: Lock, w: Walk)
    requires Shape(w) && w.right == NONE && Classify(w) != Break
    requires Ahead(orig, req, w) && Anchored(orig, req.owner, w.i + Deleted(orig, w))
    ensures Anchored(orig, req.owner, Step(w).i + Deleted(orig, Step(w)))
  {
    StepShape(w);
  }

  lemma StepTidy(orig: seq<Lock>, req: Lock, w: Walk)
    requires AllValid(orig) && Ordered(orig) && ValidRange(req)
    requires Shape(w) && w.right == NONE && Classify(w) != Break
    requires Classify(w) == Take || Classify(w) == Merge ==> !WrapHit(orig, req)
    requires Tidy(orig, req, w) && Anchored(orig, req.owner, w.i + Deleted(orig, w))
    ensures Shape(Step(w)) && Tidy(orig, req, Step(w))
    ensures Anchored(orig, req.owner, Step(w).i + Deleted(orig, Step(w)))
  {
    hide TidyAt, TidyRange, Ahead, Ordered, AllValid, WrapHit, Anchored, Deleted;
    LookAhead(orig, req, w);
    StepAnchored(orig, req, w);
    match Classify(w)
    case Skip => KeepingAt(orig, req, w); SkipRange(orig, req, w);
    case Take => NoWrap(orig, req, w); TakingAt(orig, req, w); TakeRange(orig, req, w);
    case Merge => NoWrap(orig, req, w); RemovingAt(orig, req, w); MergeRange(orig, req, w);
    case CutRight => KeepingAt(orig, req, w); CutRightRange(orig, req, w);
    case KeepLeft => KeepingAt(orig, req, w); KeepLeftRange(orig, req, w);
    case Delete => RemovingAt(orig, req, w); DeleteRange(orig, req, w);
    case Replace => TakingAt(orig, req, w); ReplaceRange(orig, req, w);
  }

  lemma {:induction false} RunTidy(orig: seq<Lock>, req: Lock, w: Walk)
    requires AllValid(orig) && Ordered(orig) && ValidRange(req) && !WrapHit(orig, req)
    requires Shape(w) && w.right == NONE && Tidy(orig, req, w) && Anchored(orig, req.owner, w.i + Deleted(orig, w))
    ensures Tidy(orig, req, Run(w)) && Anchored(orig, req.owner, Run(w).i + Deleted(orig, Run(w)))
    decreases |w.list| - w.i
  {
    hide TidyAt, TidyRange, WrapHit, Ordered, AllValid, Anchored;
    if Classify(w) != Break {
      StepTidy(orig, req, w);
      StepShape(w);
      if Classify(w) != CutRight {
        RunTidy(orig, req, Step(w));
      }
    }
  }

  /** How the loop ends, and that an unlock which cuts something counts as added. */
  lemma {:induction false} RunEnds(w: Walk)
    requires Shape(w) && w.right == NONE && (w.caller.kind == Unlock && !w.added ==> w.left == NONE)
    ensures Run(w).right == NONE ==> Classify(Run(w)) == Break
    ensures Run(w).caller.kind == Unlock && !Run(w).added ==> Run(w).left == NONE == Run(w).right
    decreases |w.list| - w.i
  {
    if Classify(w) != Break {
      StepShape(w);
      if Classify(w) != CutRight {
        RunEnds(Step(w));
      }
    }
  }

  /** Where the untouched prefix ends, and where the untouched suffix begins. */
  function Below(w: Walk): int {
    if w.left != NONE && w.left < w.i then w.left else Prefix(w)
  }

  function Above(orig: seq<Lock>, w: Walk): int {
    w.i + Deleted(orig, w) + (if w.right != NONE then 1 else 0)
  }

  function LeftPiece(w: Walk, id2: nat): seq<Lock>
    requires Shape(w)
  {
    if w.left == NONE then []
    else [w.list[w.left].(end := w.caller.start - 1, id := if Splits(w) then id2 else w.list[w.left].id)]
  }

  function OwnPiece(w: Walk, id1: nat): seq<Lock> {
    if w.caller.kind == Unlock then [] else [w.caller.(id := if w.added then w.caller.id else id1)]
  }

  function RightPiece(w: Walk): seq<Lock>
    requires Shape(w)
  {
    if w.right == NONE then [] else [w.list[w.right].(start := w.caller.end + 1)]
  }

  /** The finished list: an untouched prefix, at most three pieces, an untouched suffix. */
  function Pieces(orig: seq<Lock>, w: Walk, id1: nat, id2: nat): seq<Lock>
    requires Shape(w) && 0 <= Below(w) <= |orig| && 0 <= Above(orig, w) <= |orig|
  {
    orig[..Below(w)] + (LeftPiece(w, id2) + (OwnPiece(w, id1) + (RightPiece(w) + orig[Above(orig, w)..])))
  }

  /** The plain facts about positions that the walk ends with. */
  ghost predicate Laid(orig: seq<Lock>, w: Walk, id1: nat)
    requires Shape(w)
  {
    var p, k := Prefix(w), w.i + Deleted(orig, w);
    && 0 <= p <= k <= |orig|
    && Placed(w, id1) == orig[..p] + (OwnPiece(w, id1) + orig[k..])
    && (w.right != NONE ==> k < |orig| && w.list[w.right] == orig[k])
    && (w.left != NONE && !Splits(w) ==> 0 <= w.left == p - 1 && w.list[w.left] == orig[w.left])
    && (Splits(w) ==> w.i == p)
    && RightAt(w) == p + |OwnPiece(w, id1)| + (if Splits(w) then 1 else 0)
  }

  lemma JoinTaken<T>(list: seq<T>, at: nat, pre: seq<T>, own: seq<T>, rest: seq<T>)
    requires at < |list| && list[..at] == pre && list[at + 1..] == rest && own == [list[at]]
    ensures list == pre + (own + rest)
  {
  }

  lemma JoinAround<T>(list: seq<T>, i: nat, pre: seq<T>, own: seq<T>, rest: seq<T>)
    requires i <= |list| && list[..i] == pre && list[i..] == rest
    ensures own == [] ==> list == pre + (own + rest)
    ensures |own| == 1 ==> Insert(list, i, own[0]) == pre + (own + rest)
  {
  }

  lemma TidyPlaced(orig: seq<Lock>, req: Lock, w: Walk, id1: nat)
    requires Shape(w) && Tidy(orig, req, w)
    requires w.caller.kind == Unlock ==> w.added
    ensures Placed(w, id1) == orig[..Prefix(w)] + (OwnPiece(w, id1) + orig[w.i + Deleted(orig, w)..])
  {
    hide TidyRange, Locking;
    var pre, own, rest := orig[..Prefix(w)], OwnPiece(w, id1), orig[w.i + Deleted(orig, w)..];
    if w.at != NONE {
      JoinTaken(w.list, w.at, pre, own, rest);
    } else {
      JoinAround(w.list, w.i, pre, own, rest);
    }
  }

  lemma TidyEnds(orig: seq<Lock>, req: Lock, w: Walk)
    requires Shape(w) && Tidy(orig, req, w)
    ensures 0 <= Prefix(w) <= w.i + Deleted(orig, w) <= |orig|
    ensures w.right != NONE ==> w.i + Deleted(orig, w) < |orig| && w.list[w.right] == orig[w.i + Deleted(orig, w)]
    ensures w.left != NONE && !Splits(w) ==> 0 <= w.left == Prefix(w) - 1 && w.list[w.left] == orig[w.left]
    ensures Splits(w) ==> w.i == Prefix(w)
  {
    hide TidyRange, Locking;
    assert w.right != NONE ==> w.list[w.right] == w.list[w.i..][0];
    assert w.left != NONE && !Splits(w) ==> w.list[w.left] == w.list[..Prefix(w)][w.left];
  }

  lemma TidyLaid(orig: seq<Lock>, req: Lock, w: Walk, id1: nat)
    requires Shape(w) && Tidy(orig, req, w)
    requires w.caller.kind == Unlock ==> w.added
    ensures Laid(orig, w, id1)
  {
    TidyPlaced(orig, req, w, id1);
    TidyEnds(orig, req, w);
    hide TidyRange, TidyAt, Locking, Placed;
  }

  lemma SplitSeq<T>(list: seq<T>, pre: seq<T>, own: seq<T>, fl: T, rest: seq<T>, cp: T, fl': T, p: int)
    requires list == pre + (own + ([fl] + rest)) && p == |pre| + |own| + 1
    ensures p < |Insert(list, |pre|, cp)| && Insert(list, |pre|, cp)[p] == fl
    ensures Insert(list, |pre|, cp)[p := fl'] == pre + ([cp] + (own + ([fl'] + rest)))
  {
  }

  lemma SplitRightPieces(orig: seq<Lock>, w: Walk, id1: nat, id2: nat)
    requires Shape(w) && Splits(w) && (w.caller.kind == Unlock ==> w.added)
    requires Laid(orig, w, id1)
    ensures CutAtRight(w, Result(Split(w, id1, id2), w.woken)).list
            == orig[..w.i] + ([w.list[w.i].(id := id2)] + (OwnPiece(w, id1) + (RightPiece(w) + orig[Above(orig, w)..])))
  {
    hide Locking, Placed, Insert;
    var pre, own, k, fl := orig[..w.i], OwnPiece(w, id1), w.i + Deleted(orig, w), w.list[w.i];
    var rest, cp, fl' := orig[k + 1..], fl.(id := id2), fl.(start := w.caller.end + 1);
    assert orig[k..] == [fl] + rest;
    SplitSeq(Placed(w, id1), pre, own, fl, rest, cp, fl', RightAt(w));
  }

  lemma CutSeq<T>(list: seq<T>, pre: seq<T>, own: seq<T>, fl: T, rest: seq<T>, fl': T, p: int)
    requires list == pre + (own + ([fl] + rest)) && p == |pre| + |own|
    ensures p < |list| && list[p] == fl && list[p := fl'] == pre + (own + ([fl'] + rest))
  {
  }

  lemma SplitPieces(orig: seq<Lock>, w: Walk, id1: nat, id2: nat)
    requires Shape(w) && Splits(w) && (w.caller.kind == Unlock ==> w.added)
    requires Laid(orig, w, id1)
    ensures Below(w) <= Above(orig, w) <= |orig|
    ensures Finish(w, id1, id2).list == Pieces(orig, w, id1, id2)
  {
    SplitRightPieces(orig, w, id1, id2);
    var r := CutAtRight(w, Result(Split(w, id1, id2), w.woken));
    var cp, right := w.list[w.i].(id := id2), OwnPiece(w, id1) + (RightPiece(w) + orig[Above(orig, w)..]);
    assert r.list == orig[..w.i] + ([cp] + right);
    hide Locking, Placed, OwnPiece, RightPiece, Split, CutAtRight, Laid;
    assert [] + ([cp] + right) == [cp] + right;
    CutSeq(r.list, orig[..w.i], [], cp, right, cp.(end := w.caller.start - 1), w.left);
    assert LeftPiece(w, id2) == [cp.(end := w.caller.start - 1)];
    assert [] + (LeftPiece(w, id2) + right) == LeftPiece(w, id2) + right;
  }

  lemma CutRightPieces(orig: seq<Lock>, w: Walk, id1: nat, id2: nat)
    requires Shape(w) && !Splits(w) && (w.caller.kind == Unlock ==> w.added)
    requires Laid(orig, w, id1)
    ensures Prefix(w) <= Above(orig, w) <= |orig|
    ensures CutAtRight(w, Result(Split(w, id1, id2), w.woken)).list
            == orig[..Prefix(w)] + (OwnPiece(w, id1) + (RightPiece(w) + orig[Above(orig, w)..]))
  {
    hide Locking, OwnPiece, Placed;
    var pre, own, k := orig[..Prefix(w)], OwnPiece(w, id1), w.i + Deleted(orig, w);
    if w.right == NONE {
      assert [] + orig[k..] == orig[k..];
    } else {
      var fl, rest := orig[k], orig[k + 1..];
      var fl' := fl.(start := w.caller.end + 1);
      assert orig[k..] == [fl] + rest;
      CutSeq(Placed(w, id1), pre, own, fl, rest, fl', RightAt(w));
      assert RightPiece(w) == [fl'] && orig[Above(orig, w)..] == rest;
    }
  }

  lemma LeftSeq<T>(list: seq<T>, pre: seq<T>, right: seq<T>, p: nat, fl': T)
    requires list == pre + right && p == |pre| - 1
    ensures list[p] == pre[p] && list[p := fl'] == pre[..p] + ([fl'] + right)
  {
  }

  lemma CutPieces(orig: seq<Lock>, w: Walk, id1: nat, id2: nat)
    requires Shape(w) && !Splits(w) && (w.caller.kind == Unlock ==> w.added)
    requires Laid(orig, w, id1)
    ensures 0 <= Below(w) <= Above(orig, w) <= |orig|
    ensures Finish(w, id1, id2).list == Pieces(orig, w, id1, id2)
  {
    CutRightPieces(orig, w, id1, id2);
    var right := OwnPiece(w, id1) + (RightPiece(w) + orig[Above(orig, w)..]);
    var list := CutAtRight(w, Result(Split(w, id1, id2), w.woken)).list;
    assert list == orig[..Prefix(w)] + right;
    hide Locking, OwnPiece, RightPiece, CutAtRight, Split, Placed;
    if w.left == NONE {
      assert [] + right == right;
    } else {
      var fl' := orig[w.left].(end := w.caller.start - 1);
      LeftSeq(list, orig[..Prefix(w)], right, w.left, fl');
      assert orig[..Prefix(w)][..w.left] == orig[..w.left];
      assert LeftPiece(w, id2) == [fl'];
    }
  }

  lemma FinishPieces(orig: seq<Lock>, req: Lock, w: Walk, id1: nat, id2: nat)
    requires Shape(w) && Tidy(orig, req, w)
    requires w.caller.kind == Unlock && !w.added ==> w.left == NONE == w.right
    ensures 0 <= Below(w) <= Above(orig, w) <= |orig|
    ensures Finish(w, id1, id2).list == Pieces(orig, w, id1, id2)
  {
    if !w.added && w.caller.kind == Unlock {
      assert w.list == w.list[..w.i] + w.list[w.i..];
      assert [] + ([] + ([] + orig[w.i..])) == orig[w.i..];
    } else {
      TidyLaid(orig, req, w, id1);
      if Splits(w) {
        SplitPieces(orig, w, id1, id2);
      } else {
        CutPieces(orig, w, id1, id2);
      }
    }
  }

  function Middle(w: Walk, id1: nat, id2: nat): seq<Lock>
    requires Shape(w)
  {
    LeftPiece(w, id2) + OwnPiece(w, id1) + RightPiece(w)
  }

  /** `mid`, all of one owner, takes the place of that owner's records `m..k`. */
  ghost predicate Fits(orig: seq<Lock>, mid: seq<Lock>, m: nat, k: nat, o: Owner)
    requires m <= k <= |orig|
  {
    && (forall j | m <= j < k :: orig[j].owner == o)
    && (forall j | 0 <= j < |mid| :: mid[j].owner == o && ValidRecord(mid[j]))
    && Ordered(mid)
    && (forall i, j | 0 <= i < m && 0 <= j < |mid| && orig[i].owner == o :: Before(orig[i], mid[j]))
    && (forall i, j | k <= i < |orig| && 0 <= j < |mid| && orig[i].owner == o :: Before(mid[j], orig[i]))
    && (m < k || (m > 0 && orig[m - 1].owner == o) || (k < |orig| && orig[k].owner == o)
        || (k == |orig| && forall j | 0 <= j < |orig| :: orig[j].owner != o))
  }

  function Join<T>(orig: seq<T>, mid: seq<T>, m: nat, k: nat): seq<T>
    requires m <= k <= |orig|
  {
    orig[..m] + mid + orig[k..]
  }

  lemma JoinOrdered(orig: seq<Lock>, mid: seq<Lock>, m: nat, k: nat, o: Owner)
    requires m <= k <= |orig| && AllValid(orig) && Ordered(orig) && Fits(orig, mid, m, k, o)
    ensures AllValid(Join(orig, mid, m, k)) && Ordered(Join(orig, mid, m, k))
  {
    var out, n := Join(orig, mid, m, k), m + |mid|;
    forall i, j | 0 <= i < j < |out| && out[i].owner == out[j].owner
      ensures Before(out[i], out[j])
    {
      assert out[i] == if i < m then orig[i] else if i < n then mid[i - m] else orig[i - n + k];
      assert out[j] == if j < m then orig[j] else if j < n then mid[j - m] else orig[j - n + k];
    }
  }

  lemma JoinGrouped(orig: seq<Lock>, mid: seq<Lock>, m: nat, k: nat, o: Owner)
    requires m <= k <= |orig| && Grouped(orig) && Fits(orig, mid, m, k, o)
    ensures Grouped(Join(orig, mid, m, k))
  {
    var out, n := Join(orig, mid, m, k), m + |mid|;
    var a := if m < k then m else if m > 0 && orig[m - 1].owner == o then m - 1 else k;
    assert a < |orig| ==> orig[a].owner == o;
    forall i, j, l | 0 <= i < j < l < |out| && out[i].owner == out[l].owner
      ensures out[j].owner == out[i].owner
    {
      var i' := if i < m then i else if i < n then a else i - n + k;
      var j' := if j < m then j else if j < n then a else j - n + k;
      var l' := if l < m then l else if l < n then a else l - n + k;
      assert out[i] == if i < m || i >= n then orig[i'] else mid[i - m];
      assert out[j] == if j < m || j >= n then orig[j'] else mid[j - m];
      assert out[l] == if l < m || l >= n then orig[l'] else mid[l - m];
      assert i' < j' < l' < |orig| ==> orig[i'].owner == orig[l'].owner ==> orig[j'].owner == orig[i'].owner;
    }
  }

  lemma GroupGoesOn(orig: seq<Lock>, o: Owner, k: int, j: nat)
    requires Grouped(orig) && Anchored(orig, o, k) && k <= j < |orig| && orig[j].owner == o
    ensures 0 <= k && orig[k].owner == o
  {
  }

  /** When the walk stops, everything further on lies above the caller. */
  lemma RestAbove(orig: seq<Lock>, req: Lock, w: Walk, j: nat)
    requires AllValid(orig) && Ordered(orig) && ValidRange(req) && !WrapHit(orig, req)
    requires Shape(w) && Tidy(orig, req, w)
    requires w.right == NONE ==> Classify(w) == Break
    requires Above(orig, w) <= j < |orig| && orig[j].owner == req.owner
    requires orig[w.i + Deleted(orig, w)].owner == req.owner
    ensures Before(w.caller, orig[j])
    ensures w.right != NONE ==> Before(w.list[w.right], orig[j])
  {
    var k := w.i + Deleted(orig, w);
    assert w.list[w.i] == w.list[w.i..][0] == orig[k];
    assert j > k ==> Before(orig[k], orig[j]);
    assert k > 0 && orig[k - 1].owner == req.owner ==> Before(orig[k - 1], orig[k]);
    assert orig[k] in orig;
  }

  lemma MiddleOrdered(orig: seq<Lock>, req: Lock, w: Walk, id1: nat, id2: nat)
    requires AllValid(orig) && ValidRange(req) && Shape(w) && Tidy(orig, req, w)
    ensures forall j | 0 <= j < |Middle(w, id1, id2)| ::
              Middle(w, id1, id2)[j].owner == req.owner && ValidRecord(Middle(w, id1, id2)[j])
    ensures Ordered(Middle(w, id1, id2))
  {
    TidyEnds(orig, req, w);
    assert w.left != NONE ==> ValidRecord(w.list[w.left]);
    assert w.right != NONE ==> ValidRecord(w.list[w.right]);
    hide AllValid, TidyAt, Locking;
  }

  lemma MiddleAboveBelow(orig: seq<Lock>, req: Lock, w: Walk, id1: nat, id2: nat, i: nat)
    requires AllValid(orig) && Ordered(orig) && ValidRange(req) && Shape(w) && Tidy(orig, req, w)
    requires i < Below(w) <= |orig| && orig[i].owner == req.owner
    ensures forall j | 0 <= j < |Middle(w, id1, id2)| :: Before(orig[i], Middle(w, id1, id2)[j])
  {
    assert w.right != NONE ==> w.list[w.right] == w.list[w.i..][0] == orig[w.i + Deleted(orig, w)];
    assert w.left != NONE && w.left < w.i ==> w.list[w.left] == w.list[..Prefix(w)][w.left] == orig[w.left];
    assert Before(orig[i], w.caller);
    assert w.left != NONE ==> Before(orig[i], w.list[w.left]);
  }

  lemma MiddleBelowAbove(orig: seq<Lock>, req: Lock, w: Walk, id1: nat, id2: nat, i: nat)
    requires AllValid(orig) && Ordered(orig) && ValidRange(req) && !WrapHit(orig, req)
    requires Shape(w) && Tidy(orig, req, w)
    requires w.right == NONE ==> Classify(w) == Break
    requires Above(orig, w) <= i < |orig| && orig[i].owner == req.owner
    requires orig[w.i + Deleted(orig, w)].owner == req.owner
    ensures forall j | 0 <= j < |Middle(w, id1, id2)| :: Before(Middle(w, id1, id2)[j], orig[i])
  {
    hide WrapHit, Ordered, AllValid;
    RestAbove(orig, req, w, i);
    assert w.left != NONE ==> w.list[w.left].start < w.caller.start;
  }

  lemma MiddleAnchored(orig: seq<Lock>, req: Lock, w: Walk)
    requires Shape(w) && Tidy(orig, req, w) && Anchored(orig, req.owner, w.i + Deleted(orig, w))
    requires 0 <= Below(w) <= Above(orig, w) <= |orig|
    ensures forall j | Below(w) <= j < Above(orig, w) :: orig[j].owner == req.owner
    ensures var m, k := Below(w), Above(orig, w);
            m < k || (m > 0 && orig[m - 1].owner == req.owner) || (k < |orig| && orig[k].owner == req.owner)
            || (k == |orig| && forall j | 0 <= j < |orig| :: orig[j].owner != req.owner)
  {
    assert w.right != NONE ==> w.list[w.right] == w.list[w.i..][0] == orig[w.i + Deleted(orig, w)];
    assert w.left != NONE && w.left < w.i ==> w.list[w.left] == w.list[..Prefix(w)][w.left] == orig[w.left];
  }

  /** The pieces fit where the walk stopped. */
  lemma Settle(orig: seq<Lock>, req: Lock, w: Walk, id1: nat, id2: nat)
    requires Normal(orig) && ValidRange(req) && !WrapHit(orig, req)
    requires Shape(w) && Tidy(orig, req, w) && Anchored(orig, req.owner, w.i + Deleted(orig, w))
    requires w.right == NONE ==> Classify(w) == Break
    requires 0 <= Below(w) <= Above(orig, w) <= |orig|
    ensures Fits(orig, Middle(w, id1, id2), Below(w), Above(orig, w), req.owner)
  {
    hide TidyAt, TidyRange, WrapHit, Ordered, AllValid, Grouped, Anchored, Middle;
    var mid, k := Middle(w, id1, id2), w.i + Deleted(orig, w);
    MiddleOrdered(orig, req, w, id1, id2);
    MiddleAnchored(orig, req, w);
    forall i, j | 0 <= i < Below(w) && 0 <= j < |mid| && orig[i].owner == req.owner
      ensures Before(orig[i], mid[j])
    {
      MiddleAboveBelow(orig, req, w, id1, id2, i);
    }
    forall i, j | Above(orig, w) <= i < |orig| && 0 <= j < |mid| && orig[i].owner == req.owner
      ensures Before(mid[j], orig[i])
    {
      GroupGoesOn(orig, req.owner, k, i);
      MiddleBelowAbove(orig, req, w, id1, id2, i);
    }
  }

  lemma StartTidy(list: seq<Lock>, req: Lock)
    requires Locking(list) && ValidRange(req)
    ensures Tidy(list, req, Start(list, req)) && Anchored(list, req.owner, Start(list, req).i)
  {
  }

  lemma FourJoin<T>(a: seq<T>, b: seq<T>, c: seq<T>, d: seq<T>, e: seq<T>)
    ensures a + (b + (c + (d + e))) == a + (b + c + d) + e
  {
  }

  /** What the walk over a list in normal form ends with. */
  lemma Outcome(list: seq<Lock>, req: Lock, id1: nat, id2: nat) returns (w: Walk)
    requires Normal(list) && ValidRange(req) && !WrapHit(list, req)
    ensures Shape(w) && Tidy(list, req, w) && w == Run(Start(list, req))
    ensures Anchored(list, req.owner, w.i + Deleted(list, w)) && (w.right == NONE ==> Classify(w) == Break)
    ensures 0 <= Below(w) <= Above(list, w) <= |list|
    ensures Fits(list, Middle(w, id1, id2), Below(w), Above(list, w), req.owner)
    ensures Apply(list, req, id1, id2).list == Join(list, Middle(w, id1, id2), Below(w), Above(list, w))
  {
    hide TidyAt, TidyRange, WrapHit, Ordered, Grouped, Anchored, Fits, LeftPiece, OwnPiece, RightPiece;
    var w0 := Start(list, req);
    w := Run(w0);
    StartTidy(list, req);
    RunTidy(list, req, w0);
    RunEnds(w0);
    FinishPieces(list, req, w, id1, id2);
    Settle(list, req, w, id1, id2);
    FourJoin(list[..Below(w)], LeftPiece(w, id2), OwnPiece(w, id1), RightPiece(w), list[Above(list, w)..]);
  }

  /** The normal form comes back. */
  lemma NormalAgain(list: seq<Lock>, req: Lock, id1: nat, id2: nat)
    requires Normal(list) && ValidRange(req) && !WrapHit(list, req)
    ensures Normal(Apply(list, req, id1, id2).list)
  {
    hide TidyAt, TidyRange, WrapHit, Ordered, Grouped, Fits, Middle;
    var w := Outcome(list, req, id1, id2);
    JoinOrdered(list, Middle(w, id1, id2), Below(w), Above(list, w), req.owner);
    JoinGrouped(list, Middle(w, id1, id2), Below(w), Above(list, w), req.owner);
  }

  /** A byte of the finished walk: inside the request it has the requested kind, outside
      it was held before. */
  lemma PieceSound(list: seq<Lock>, req: Lock, w: Walk, id1: nat, id2: nat, r: Lock, b: int)
    requires Shape(w) && Tidy(list, req, w) && SoundLock(list, req, w.caller)
    requires r in Middle(w, id1, id2) && Covers(r, b)
    ensures if Covers(req, b) then r.kind == req.kind else Holds(list, req.owner, r.kind, b)
  {
    var k := w.i + Deleted(list, w);
    if r in LeftPiece(w, id2) {
      var x := if w.left == w.i then k else w.left;
      assert w.list[w.left] == list[x] by {
        assert w.left < w.i ==> w.list[w.left] == w.list[..Prefix(w)][w.left];
        assert w.left == w.i ==> w.list[w.left] == w.list[w.i..][0];
      }
      assert Covers(list[x], b);
    } else if r in OwnPiece(w, id1) {
      assert Covers(w.caller, b);
      assert Granted(list, req, req.owner, req.kind, b);
    } else {
      assert w.list[w.right] == w.list[w.i..][0] == list[k];
      assert Covers(list[k], b);
    }
  }

  /** A byte of another kind inside the caller's range is inside the request. */
  lemma OtherKindInside(list: seq<Lock>, req: Lock, c: Lock, j: nat, b: int)
    requires Ordered(list) && SoundLock(list, req, c) && c.owner == req.owner && c.kind == req.kind
    requires j < |list| && list[j].owner == req.owner && list[j].kind != req.kind && Covers(list[j], b) && Covers(c, b)
    ensures Covers(req, b)
  {
    assert Granted(list, req, req.owner, req.kind, b);
  }

  /** A byte held before and outside the request is still held by one of the pieces. */
  lemma PieceComplete(list: seq<Lock>, req: Lock, w: Walk, id1: nat, id2: nat, j: nat, b: int)
    requires AllValid(list) && Ordered(list)
    requires Shape(w) && Tidy(list, req, w) && SoundLock(list, req, w.caller)
    requires Below(w) <= j < Above(list, w) <= |list| && list[j].owner == req.owner
    requires Covers(list[j], b) && !Covers(req, b)
    ensures exists r | r in Middle(w, id1, id2) :: r.owner == req.owner && r.kind == list[j].kind && Covers(r, b)
  {
    var k, c, mid := w.i + Deleted(list, w), w.caller, Middle(w, id1, id2);
    if list[j].kind != req.kind && Covers(c, b) {
      OtherKindInside(list, req, c, j, b);
    } else if w.left == j && w.left < w.i {
      assert w.list[w.left] == w.list[..Prefix(w)][w.left] == list[j];
      assert LeftPiece(w, id2)[0] in mid;
    } else if j == k {
      assert w.list[w.right] == w.list[w.i..][0] == list[k];
      if b > c.end {
        assert RightPiece(w)[0] in mid;
      } else {
        assert LeftPiece(w, id2)[0] in mid;
      }
    } else {
      assert OwnPiece(w, id1)[0] in mid;
    }
  }

  /** The mode the caller's byte `b` has after the request. */
  ghost predicate After(list: seq<Lock>, req: Lock, k: Kind, b: int) {
    if Covers(req, b) then k == req.kind && k != Unlock else Holds(list, req.owner, k, b)
  }

  lemma JoinHeld(list: seq<Lock>, mid: seq<Lock>, m: nat, a: nat, o: Owner, k: Kind, b: int) returns (r: Lock, x: int)
    requires m <= a <= |list| && Holds(Join(list, mid, m, a), o, k, b)
    ensures r.owner == o && r.kind == k && Covers(r, b)
    ensures r in mid || ((0 <= x < m || a <= x < |list|) && r == list[x])
  {
    var out := Join(list, mid, m, a);
    var j :| 0 <= j < |out| && out[j].owner == o && out[j].kind == k && Covers(out[j], b);
    r := out[j];
    x := if j < m then j else j - m - |mid| + a;
    assert m <= j < m + |mid| ==> r == mid[j - m];
  }

  lemma BelowClear(list: seq<Lock>, req: Lock, w: Walk, x: nat)
    requires Shape(w) && Tidy(list, req, w) && x < Below(w) <= |list| && list[x].owner == req.owner
    ensures list[x].end < req.start
  {
  }

  /** The untouched records above the pieces lie above the caller or have its kind. */
  ghost predicate RestFits(list: seq<Lock>, req: Lock, w: Walk) {
    forall j | 0 <= Above(list, w) <= j < |list| && list[j].owner == req.owner :: list[j].kind == req.kind
        || list[j].start > req.end
  }

  lemma AfterOnlyIf(list: seq<Lock>, req: Lock, w: Walk, id1: nat, id2: nat, k: Kind, b: int)
    requires Shape(w) && Tidy(list, req, w) && SoundLock(list, req, w.caller) && RestFits(list, req, w)
    requires 0 <= Below(w) <= Above(list, w) <= |list| && Locking(list)
    requires Holds(Join(list, Middle(w, id1, id2), Below(w), Above(list, w)), req.owner, k, b)
    ensures After(list, req, k, b)
  {
    hide TidyAt, TidyRange, Middle, SoundLock, Join, Below, Above;
    var mid := Middle(w, id1, id2);
    var r, x := JoinHeld(list, mid, Below(w), Above(list, w), req.owner, k, b);
    if r in mid {
      MiddleLocks(w, id1, id2, r);
      PieceSound(list, req, w, id1, id2, r, b);
    } else if x < Below(w) {
      BelowClear(list, req, w, x);
      assert Holds(list, req.owner, k, b);
    } else {
      assert Holds(list, req.owner, k, b);
    }
  }

  lemma MiddleLocks(w: Walk, id1: nat, id2: nat, r: Lock)
    requires Shape(w) && r in Middle(w, id1, id2)
    ensures r.kind != Unlock
  {
  }

  lemma JoinHolds(list: seq<Lock>, mid: seq<Lock>, m: nat, a: nat, r: Lock, b: int)
    requires m <= a <= |list| && Covers(r, b)
    requires r in mid || r in list[..m] || r in list[a..]
    ensures Holds(Join(list, mid, m, a), r.owner, r.kind, b)
  {
    assert r in Join(list, mid, m, a);
  }

  lemma AfterIf(list: seq<Lock>, req: Lock, w: Walk, id1: nat, id2: nat, k: Kind, b: int)
    requires Shape(w) && Tidy(list, req, w) && SoundLock(list, req, w.caller)
    requires 0 <= Below(w) <= Above(list, w) <= |list|
    requires AllValid(list) && Ordered(list) && After(list, req, k, b)
    ensures Holds(Join(list, Middle(w, id1, id2), Below(w), Above(list, w)), req.owner, k, b)
  {
    var mid, m, a := Middle(w, id1, id2), Below(w), Above(list, w);
    assert w.caller.owner == req.owner && w.caller.kind == req.kind && w.caller.start <= req.start
        && req.end <= w.caller.end;
    hide TidyAt, TidyRange, Ordered, SoundLock, Below, Above;
    if Covers(req, b) {
      assert OwnPiece(w, id1)[0] in mid;
      JoinHolds(list, mid, m, a, OwnPiece(w, id1)[0], b);
    } else {
      var j :| 0 <= j < |list| && list[j].owner == req.owner && list[j].kind == k && Covers(list[j], b);
      if m <= j < a {
        PieceComplete(list, req, w, id1, id2, j, b);
        var r :| r in mid && r.owner == req.owner && r.kind == list[j].kind && Covers(r, b);
        JoinHolds(list, mid, m, a, r, b);
      } else {
        assert list[j] in if j < m then list[..m] else list[a..];
        JoinHolds(list, mid, m, a, list[j], b);
      }
    }
  }

  lemma OthersHold(list: seq<Lock>, out: seq<Lock>, caller: Owner, o: Owner, k: Kind, b: int)
    requires SameOthers(list, out, caller) && o != caller
    ensures Holds(list, o, k, b) <==> Holds(out, o, k, b)
  {
    if Holds(list, o, k, b) {
      var j :| 0 <= j < |list| && list[j].owner == o && list[j].kind == k && Covers(list[j], b);
      assert list[j] in out;
    }
    if Holds(out, o, k, b) {
      var j :| 0 <= j < |out| && out[j].owner == o && out[j].kind == k && Covers(out[j], b);
      assert out[j] in list;
    }
  }

  lemma CallerSound(list: seq<Lock>, req: Lock)
    requires Locking(list) && UniqueIds(list)
    ensures SoundLock(list, req, Run(Start(list, req)).caller)
  {
    StartSound(list, req);
    RunSound(list, req, Start(list, req));
  }

  lemma RestFitsAbove(list: seq<Lock>, req: Lock, w: Walk)
    requires Normal(list) && ValidRange(req) && !WrapHit(list, req)
    requires Shape(w) && Tidy(list, req, w) && Anchored(list, req.owner, w.i + Deleted(list, w))
    requires w.right == NONE ==> Classify(w) == Break
    ensures RestFits(list, req, w)
  {
    forall j | 0 <= Above(list, w) <= j < |list| && list[j].owner == req.owner
      ensures list[j].start > req.end
    {
      GroupGoesOn(list, req.owner, w.i + Deleted(list, w), j);
      RestAbove(list, req, w, j);
      assert w.caller.end >= req.end;
    }
  }

  lemma SetsOwn(list: seq<Lock>, req: Lock, id1: nat, id2: nat, k: Kind, b: int)
    requires Normal(list) && UniqueIds(list) && ValidRange(req) && !WrapHit(list, req)
    ensures Holds(Apply(list, req, id1, id2).list, req.owner, k, b) <==> After(list, req, k, b)
  {
    NormalIsLocking(list);
    hide TidyAt, TidyRange, WrapHit, AllValid, Ordered, Grouped, Fits, Middle, Join, Holds, After, SoundLock, UniqueIds,
      RestFits, Anchored, Locking, Finish, Run, Start, ValidRange;
    CallerSound(list, req);
    var w := Outcome(list, req, id1, id2);
    RestFitsAbove(list, req, w);
    if Holds(Apply(list, req, id1, id2).list, req.owner, k, b) {
      AfterOnlyIf(list, req, w, id1, id2, k, b);
    }
    if After(list, req, k, b) {
      AfterIf(list, req, w, id1, id2, k, b);
    }
  }

  /** A walk about to meet the record at `m` that the wrapped test mistakes for one beyond the request. */
  ghost predicate Doomed(req: Lock, w: Walk, m: nat) {
    && w.i <= m < |w.list| && req.kind != Unlock
    && w.caller.owner == req.owner && w.caller.kind == req.kind
    && w.caller.start == req.start && w.caller.end == OFFSET_MAX
    && (forall j | w.i <= j <= m :: w.list[j].owner == req.owner && ValidRecord(w.list[j]))
    && w.list[m].kind == req.kind && w.list[m].end >= req.start - 1
  }

  /** Until it meets that record, the walk neither merges nor cuts on the right. */
  lemma DoomedStep(req: Lock, w: Walk, m: nat) returns (m': nat)
    requires Shape(w) && w.right == NONE && Doomed(req, w, m) && Classify(w) != Break
    ensures Classify(w) != Take && Classify(w) != Merge && Classify(w) != CutRight
    ensures Shape(Step(w)) && Doomed(req, Step(w), m') && Step(w).list[m'..] == w.list[m..]
  {
    StepShape(w);
    m' := if Classify(w) == Delete then m - 1 else m;
  }

  lemma {:induction false} DoomedRun(req: Lock, w: Walk, m: nat) returns (m': nat)
    requires Shape(w) && w.right == NONE && Doomed(req, w, m)
    ensures Run(w).right == NONE && Doomed(req, Run(w), m') && Run(w).list[m'..] == w.list[m..]
    decreases |w.list| - w.i
  {
    m' := m;
    if Classify(w) != Break {
      StepShape(w);
      m' := DoomedStep(req, w, m);
      m' := DoomedRun(req, Step(w), m');
    }
  }

  lemma {:induction false} DoomedTidy(orig: seq<Lock>, req: Lock, w: Walk, m: nat)
    requires AllValid(orig) && Ordered(orig) && ValidRange(req)
    requires Shape(w) && w.right == NONE && Tidy(orig, req, w) && Anchored(orig, req.owner, w.i + Deleted(orig, w))
    requires Doomed(req, w, m)
    ensures Tidy(orig, req, Run(w))
    decreases |w.list| - w.i
  {
    hide TidyAt, TidyRange, Doomed, Ordered, AllValid, Anchored;
    if Classify(w) != Break {
      StepShape(w);
      var m' := DoomedStep(req, w, m);
      StepTidy(orig, req, w);
      DoomedTidy(orig, req, Step(w), m');
    }
  }

  lemma DoomedStart(list: seq<Lock>, req: Lock) returns (m: nat)
    requires Normal(list) && ValidRange(req) && WrapHit(list, req)
    ensures Doomed(req, Start(list, req), m)
  {
    var r :| r in list && r.owner == req.owner && r.kind == req.kind && r.end >= req.start - 1;
    m :| 0 <= m < |list| && list[m] == r;
    DoomedFrom(list, req, m);
  }

  lemma DoomedFinish(req: Lock, w: Walk, m: nat, id1: nat, id2: nat)
    requires Shape(w) && w.right == NONE && Doomed(req, w, m)
    ensures !Ordered(Finish(w, id1, id2).list)
  {
    var out := Finish(w, id1, id2).list;
    var x := if w.added then w.at else w.i;
    var y := if w.added then w.i else w.i + 1;
    assert out[x].owner == out[y].owner && out[x].end == OFFSET_MAX && out[y] == w.list[w.i];
    assert !Before(out[x], out[y]);
  }

  /** When the wrap misfires, the finished list is not in normal form. */
  lemma WrapBreaksNormal(list: seq<Lock>, req: Lock, id1: nat, id2: nat)
    requires Normal(list) && ValidRange(req) && WrapHit(list, req)
    ensures !Normal(Apply(list, req, id1, id2).list)
  {
    hide Normal, WrapHit, Doomed, Ordered, Finish;
    var m := DoomedStart(list, req);
    var m' := DoomedRun(req, Start(list, req), m);
    DoomedFinish(req, Run(Start(list, req)), m', id1, id2);
    NormalIsOrdered(Apply(list, req, id1, id2).list);
  }

  lemma NormalIsOrdered(list: seq<Lock>)
    ensures Normal(list) ==> Ordered(list)
  {
  }

  /** A granted request brings the normal form back if and only if the wrap does not misfire. */
  lemma NormalIff(list: seq<Lock>, req: Lock, id1: nat, id2: nat)
    requires Normal(list) && ValidRange(req)
    ensures Normal(Apply(list, req, id1, id2).list) <==> !WrapHit(list, req)
  {
    if WrapHit(list, req) {
      WrapBreaksNormal(list, req, id1, id2);
    } else {
      NormalAgain(list, req, id1, id2);
    }
  }

  /** The wrap at work: a process holds a read lock on 10..20 and a write lock on 30..40, then
      asks for a read lock on the whole file. It ends with two overlapping read records, and
      with the write lock on 30..40 still in place. */
  lemma WrapExample(o: Owner)
    ensures var list := [Lock(1, o, Read, 10, 20), Lock(2, o, Write, 30, 40)];
            var req := Lock(0, o, Read, 0, OFFSET_MAX);
            Normal(list) && ValidRange(req) && WrapHit(list, req)
            && Apply(list, req, 3, 4).list == [Lock(3, o, Read, 0, OFFSET_MAX), Lock(1, o, Read, 10, 20),
                Lock(2, o, Write, 30, 40)]
            && Holds(Apply(list, req, 3, 4).list, o, Write, 35)
  {
    var list := [Lock(1, o, Read, 10, 20), Lock(2, o, Write, 30, 40)];
    var req := Lock(0, o, Read, 0, OFFSET_MAX);
    assert list[0] in list;
    assert Classify(Start(list, req)) == Break;
    var out := Apply(list, req, 3, 4).list;
    assert out[2] == list[1];
  }

  /** The wrap leaves a record of another kind in place: it misfires on a record below it. */
  predicate Stale(list: seq<Lock>, req: Lock) {
    req.end == OFFSET_MAX
    && exists i, j | 0 <= i < j < |list| ::
         list[i].owner == list[j].owner == req.owner && list[i].kind == req.kind != list[j].kind
             && list[i].end >= req.start - 1
  }

  lemma DoomedOutcome(list: seq<Lock>, req: Lock) returns (w: Walk, m: nat)
    requires Normal(list) && UniqueIds(list) && ValidRange(req) && WrapHit(list, req)
    ensures w == Run(Start(list, req)) && Shape(w) && w.right == NONE && Classify(w) == Break
    ensures Tidy(list, req, w) && Doomed(req, w, m)
  {
    hide TidyAt, TidyRange, Ordered, Grouped, SoundLock, Anchored, Doomed, WrapHit;
    var w0 := Start(list, req);
    m := DoomedStart(list, req);
    StartTidy(list, req);
    DoomedTidy(list, req, w0, m);
    m := DoomedRun(req, w0, m);
    RunEnds(w0);
    w := Run(w0);
  }

  /** When the wrap misfires but leaves nothing stale, the caller's bytes still come out right. */
  lemma DoomedSets(list: seq<Lock>, req: Lock, id1: nat, id2: nat, k: Kind, b: int)
    requires Normal(list) && UniqueIds(list) && ValidRange(req) && WrapHit(list, req) && !Stale(list, req)
    ensures Holds(Apply(list, req, id1, id2).list, req.owner, k, b) <==> After(list, req, k, b)
  {
    assert req.end == OFFSET_MAX;
    NormalIsLocking(list);
    hide TidyAt, TidyRange, WrapHit, AllValid, Ordered, Grouped, Fits, Middle, Join, Holds, After, SoundLock, UniqueIds,
      RestFits, Doomed, Stale, Locking, Finish, Run, Start, ValidRange;
    CallerSound(list, req);
    var w, m := DoomedOutcome(list, req);
    DoomedJoin(list, req, w, m, id1, id2);
    DoomedRest(list, req, w, m);
    if Holds(Apply(list, req, id1, id2).list, req.owner, k, b) {
      AfterOnlyIf(list, req, w, id1, id2, k, b);
    }
    if After(list, req, k, b) {
      AfterIf(list, req, w, id1, id2, k, b);
    }
  }

  lemma DoomedKeepsTail(w: Walk, m: nat, id1: nat, id2: nat, x: Lock)
    requires Shape(w) && w.right == NONE && w.i <= m <= |w.list| && x in w.list[m..]
    ensures x in Finish(w, id1, id2).list
  {
    var j :| m <= j < |w.list| && w.list[j] == x;
    var placed := Placed(w, id1);
    if !w.added && w.caller.kind != Unlock {
      assert placed[j + 1] == x;
      assert Finish(w, id1, id2).list[j + 1] == x;
    } else {
      assert Finish(w, id1, id2).list[j] == x;
    }
  }

  /** A record that the wrap mistakes, met from the start of the owner's group, dooms the walk. */
  lemma DoomedFrom(list: seq<Lock>, req: Lock, i: nat)
    requires AllValid(list) && Grouped(list) && req.end == OFFSET_MAX && Locking(list)
    requires i < |list| && list[i].owner == req.owner && list[i].kind == req.kind && list[i].end >= req.start - 1
    ensures Doomed(req, Start(list, req), i)
  {
    hide Grouped;
    var k := Start(list, req).i;
    assert k <= i;
    GroupSpan(list, k, i);
  }

  lemma StaleDoomed(list: seq<Lock>, req: Lock) returns (i: nat, x: Lock)
    requires Normal(list) && ValidRange(req) && Stale(list, req)
    ensures i < |list| && x in list[i..] && Doomed(req, Start(list, req), i)
    ensures x.owner == req.owner && x.kind != req.kind && Covers(x, x.start) && Covers(req, x.start)
  {
    hide Grouped, Doomed;
    NormalIsLocking(list);
    var j;
    i, j :| 0 <= i < j < |list| && list[i].owner == list[j].owner == req.owner
            && list[i].kind == req.kind != list[j].kind && list[i].end >= req.start - 1;
    DoomedFrom(list, req, i);
    x := list[j];
    assert x == list[i..][j - i];
    assert Before(list[i], x) && ValidRecord(x);
  }

  lemma GroupSpan(list: seq<Lock>, k: nat, i: nat)
    requires Grouped(list) && k <= i < |list| && list[k].owner == list[i].owner
    ensures forall l | k <= l <= i :: list[l].owner == list[i].owner
  {
  }

  /** A stale record keeps its old mode on a requested byte. */
  lemma StaleFails(list: seq<Lock>, req: Lock, id1: nat, id2: nat)
    requires Normal(list) && ValidRange(req) && Stale(list, req)
    ensures exists k, b :: Holds(Apply(list, req, id1, id2).list, req.owner, k, b) && !After(list, req, k, b)
  {
    hide Normal, Finish, Stale, Doomed;
    NormalIsLocking(list);
    var w0 := Start(list, req);
    var i, x := StaleDoomed(list, req);
    var m := DoomedRun(req, w0, i);
    DoomedBounds(req, Run(w0), m);
    DoomedKeepsTail(Run(w0), m, id1, id2, x);
    var out := Apply(list, req, id1, id2).list;
    assert x in out;
    assert Holds(out, req.owner, x.kind, x.start) && !After(list, req, x.kind, x.start);
  }

  lemma DoomedBounds(req: Lock, w: Walk, m: nat)
    requires Doomed(req, w, m)
    ensures w.i <= m < |w.list|
  {
  }

  lemma DoomedJoin(list: seq<Lock>, req: Lock, w: Walk, m: nat, id1: nat, id2: nat)
    requires Shape(w) && w.right == NONE && Tidy(list, req, w) && Doomed(req, w, m)
    ensures 0 <= Below(w) <= Above(list, w) <= |list|
    ensures Finish(w, id1, id2).list == Join(list, Middle(w, id1, id2), Below(w), Above(list, w))
  {
    hide TidyAt, TidyRange;
    FinishPieces(list, req, w, id1, id2);
    FourJoin(list[..Below(w)], LeftPiece(w, id2), OwnPiece(w, id1), RightPiece(w), list[Above(list, w)..]);
  }

  lemma DoomedRest(list: seq<Lock>, req: Lock, w: Walk, m: nat)
    requires AllValid(list) && ValidRange(req) && req.end == OFFSET_MAX && !Stale(list, req)
    requires Shape(w) && w.right == NONE && Classify(w) == Break && Tidy(list, req, w) && Doomed(req, w, m)
    ensures RestFits(list, req, w)
  {
    var k := w.i + Deleted(list, w);
    assert w.list[w.i] == w.list[w.i..][0] == list[k];
  }

  /** The mode of byte `b` of any owner after the request. */
  ghost predicate Wanted(list: seq<Lock>, req: Lock, o: Owner, k: Kind, b: int) {
    if o == req.owner then After(list, req, k, b) else Holds(list, o, k, b)
  }

  /** The bytes come out right for every owner if and only if the wrap leaves nothing stale. */
  lemma EffectIff(list: seq<Lock>, req: Lock, id1: nat, id2: nat)
    requires Normal(list) && UniqueIds(list) && Fresh(list, id1, id2) && ValidRange(req)
    ensures (forall o, k, b :: Holds(Apply(list, req, id1, id2).list, o, k, b) <==> Wanted(list, req, o, k, b))
            <==> !Stale(list, req)
  {
    hide Stale, Normal, WrapHit;
    NormalIsLocking(list);
    var out := Apply(list, req, id1, id2).list;
    if Stale(list, req) {
      StaleFails(list, req, id1, id2);
      var k, b :| Holds(out, req.owner, k, b) && !After(list, req, k, b);
      assert !Wanted(list, req, req.owner, k, b);
    } else {
      forall o, k, b
        ensures Holds(out, o, k, b) <==> Wanted(list, req, o, k, b)
      {
        if o != req.owner {
          NormalIsLocking(list);
          ApplySound(list, req, id1, id2);
          OthersHold(list, out, req.owner, o, k, b);
        } else if WrapHit(list, req) {
          DoomedSets(list, req, id1, id2, k, b);
        } else {
          SetsOwn(list, req, id1, id2, k, b);
        }
      }
    }
  }

  lemma NormalIsLocking(list: seq<Lock>)
    ensures Normal(list) ==> Locking(list)
  {
  }
}
