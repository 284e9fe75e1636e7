/** Little-endian fields in a block of bytes. */
module LittleEndian {
  type Block = seq<int>

  function Get(buf: Block, off: nat, width: nat): int
    requires off + width <= |buf|
    decreases width
  {
    if width == 0 then 0 else buf[off] + 256 * Get(buf, off + 1, width - 1)
  }

  lemma {:induction false} GetSame(a: Block, b: Block, off: nat, width: nat)
    requires |a| == |b| && off + width <= |a| && forall i | off <= i < off + width :: a[i] == b[i]
    ensures Get(a, off, width) == Get(b, off, width)
    decreases width
  {
    if width > 0 {
      GetSame(a, b, off + 1, width - 1);
    }
  }

  lemma Bytes2(buf: Block, off: nat, v: nat)
    requires off + 2 <= |buf| && buf[off] == v % 256 && buf[off + 1] == v / 256 % 256
    ensures Get(buf, off, 2) == v % 0x1_0000
  {
    assert Get(buf, off + 2, 0) == 0;
    assert Get(buf, off + 1, 1) == buf[off + 1];
  }

  lemma Bytes4(buf: Block, off: nat, v: nat)
    requires off + 4 <= |buf| && buf[off] == v % 256 && buf[off + 1] == v / 256 % 256
    requires buf[off + 2] == v / 0x1_0000 % 256 && buf[off + 3] == v / 0x100_0000 % 256 && v < 0x1_0000_0000
    ensures Get(buf, off, 4) == v
  {
    assert Get(buf, off + 3, 1) == buf[off + 3] + 256 * Get(buf, off + 4, 0);
    assert Get(buf, off + 2, 2) == buf[off + 2] + 256 * Get(buf, off + 3, 1);
    assert Get(buf, off + 1, 3) == buf[off + 1] + 256 * Get(buf, off + 2, 2);
    assert v == v % 256 + 256 * (v / 256 % 256) + 0x1_0000 * (v / 0x1_0000 % 256) + 0x100_0000 * (v / 0x100_0000);
  }
}
