/** The page of a pipe: a ring given by a start and a length. */
module PipeRing {
  import opened Lists

  const PIPE_SIZE: nat := 4096

  /** n & (PIPE_SIZE - 1), for the sums of two positions that occur. */
  function Wrap(n: nat): nat
    requires n < 2 * PIPE_SIZE
  {
    if n < PIPE_SIZE then n else n - PIPE_SIZE
  }

  /** The bytes of the ring in `page` that begin at `start`. */
  ghost function Ring(page: seq<int>, start: nat, len: nat): (s: seq<int>)
    requires |page| == PIPE_SIZE && start < PIPE_SIZE && len <= PIPE_SIZE
    ensures |s| == len && forall i: nat | i < len :: s[i] == page[Wrap(start + i)]
  {
    seq(len, i requires 0 <= i < len => page[Wrap(start + i)])
  }

  /** The first bytes of a ring, up to the end of the page, and the ring that is left. */
  lemma RingTake(page: seq<int>, start: nat, len: nat, chars: nat)
    requires |page| == PIPE_SIZE && start < PIPE_SIZE && len <= PIPE_SIZE && chars <= len && chars <= PIPE_SIZE - start
    ensures page[start..start + chars] + Ring(page, Wrap(start + chars), len - chars) == Ring(page, start, len)
  {}

  /** Bytes put behind a ring, up to the end of the page, extend it. */
  lemma RingPut(page: seq<int>, start: nat, len: nat, add: seq<int>)
    requires |page| == PIPE_SIZE && start < PIPE_SIZE && len + |add| <= PIPE_SIZE
              && Wrap(start + len) + |add| <= PIPE_SIZE
    ensures var end := Wrap(start + len);
            Ring(page[..end] + add + page[end + |add|..], start, len + |add|) == Ring(page, start, len) + add
  {
    var end := Wrap(start + len);
    var page' := page[..end] + add + page[end + |add|..];
    var s := Ring(page', start, len + |add|);
    forall i: nat | i < len + |add|
      ensures s[i] == (Ring(page, start, len) + add)[i]
    {
      assert s[i] == page'[Wrap(start + i)];
      if i < len {
        assert Wrap(start + i) < end || Wrap(start + i) >= end + |add|;
      } else {
        assert Wrap(start + i) == end + (i - len);
      }
    }
  }

  class Pipe {
    const base: array<int>
    var start: nat
    var len: nat

    ghost predicate Valid()
      reads this
    {
      base.Length == PIPE_SIZE && start < PIPE_SIZE && len <= PIPE_SIZE
    }

    ghost function Contents(): seq<int>
      requires Valid()
      reads this, base
    {
      Ring(base[..], start, len)
    }

    constructor ()
      ensures Valid() && Contents() == [] && fresh(base)
    {
      base := new int[PIPE_SIZE];
      start, len := 0, 0;
    }

    /** One turn of the copy loop of pipe_read: bytes up to the end of the page. */
    method TakeChunk(count: nat) returns (part: seq<int>)
      requires Valid() && count > 0 && len > 0
      modifies this
      ensures Valid() && 0 < |part| <= count && |part| == old(len) - len
      ensures part + Contents() == old(Contents())
    {
      hide Ring;
      var chars := PIPE_SIZE - start;
      if chars > count { chars := count; }
      if chars > len { chars := len; }
      RingTake(base[..], start, len, chars);
      part := base[start..start + chars];
      assert part == base[..][start..start + chars];
      start := Wrap(start + chars);
      len := len - chars;
    }

    /** The copy loop of pipe_read: the oldest bytes, up to `count`, leave the pipe in order.
        `stuck` is the condition of the BUG() that follows it. */
    method Drain(count: nat) returns (buf: seq<int>, stuck: bool)
      requires Valid()
      modifies this
      ensures Valid() && |buf| == Min(count, old(len)) && buf + Contents() == old(Contents())
      ensures !stuck
    {
      hide Ring;
      buf := [];
      var left := count;
      while left > 0 && len > 0
        invariant Valid() && 0 <= left <= count && |buf| == count - left == old(len) - len
        invariant buf + Contents() == old(Contents())
        decreases left
      {
        ghost var rest := Contents();
        var part := TakeChunk(left);
        assert buf + rest == (buf + part) + Contents();
        buf := buf + part;
        left := left - |part|;
      }
      stuck := left > 0 && len != 0;
      if len == 0 {
        assert Contents() == [];
        start := 0;
        assert Contents() == [];
      }
    }

    /** One turn of the copy loop of pipe_write. */
    method PutChunk(data: seq<int>) returns (chars: nat)
      requires Valid() && data != [] && len < PIPE_SIZE
      modifies this, base
      ensures Valid() && 0 < chars <= |data| && len == old(len) + chars
      ensures Contents() == old(Contents()) + data[..chars]
    {
      hide Ring;
      var end := Wrap(start + len);
      chars := PIPE_SIZE - end;
      if chars > |data| { chars := |data|; }
      if chars > PIPE_SIZE - len { chars := PIPE_SIZE - len; }
      RingPut(base[..], start, len, data[..chars]);
      Copy(end, data[..chars]);
      len := len + chars;
    }

    /** The copy loop of pipe_write until the page is full: as much of `data` as fits goes in
        behind what is there. */
    method Fill(data: seq<int>) returns (written: nat)
      requires Valid()
      modifies this, base
      ensures Valid() && written == Min(|data|, PIPE_SIZE - old(len))
      ensures Contents() == old(Contents()) + data[..written]
    {
      hide Ring;
      written := 0;
      assert old(Contents()) + data[..0] == Contents();
      while written < |data| && PIPE_SIZE - len != 0
        invariant Valid() && written <= |data| && len == old(len) + written
        invariant Contents() == old(Contents()) + data[..written]
        decreases |data| - written
      {
        var chars := PutChunk(data[written..]);
        assert data[..written] + data[written..][..chars] == data[..written + chars];
        assert old(Contents()) + data[..written] + data[written..][..chars]
            == old(Contents()) + data[..written + chars];
        written := written + chars;
      }
    }

    /** copy_from_user */
    method Copy(at: nat, add: seq<int>)
      requires at + |add| <= base.Length
      modifies base
      ensures base[..] == old(base[..at]) + add + old(base[at + |add|..])
    {
      forall i | 0 <= i < |add| {
        base[at + i] := add[i];
      }
    }
  }
}
