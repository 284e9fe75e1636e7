/** From an ELF kernel to a PS-EXE image, and from that to an image with an initrd behind it. */
module PsExe {
  import opened LittleEndian

  const W: nat := 0x1_0000_0000
  const KSEG0: nat := 0x8000_0000
  const HEADER: nat := 2048
  const PAGE: nat := 4096
  const INRD: nat := 0x494E_5244

  /** A program header with its bytes in the file; `load` is PT_LOAD. */
  datatype Segment = Segment(load: bool, vaddr: nat, bytes: seq<int>)

  datatype Option = None | Some(value: nat)

  /** `ReadsPast` is a file shorter than the tool takes it to be. */
  datatype Result = NotPsExe | ReadsPast | Built(file: seq<int>)

  /** TO_KSEG0 */
  function ToKseg0(a: nat): nat { if a < KSEG0 then a + KSEG0 else a }

  // ---- what should be in memory ----

  predicate Covers(s: Segment, a: nat) { s.load && s.vaddr <= a < s.vaddr + |s.bytes| }

  /** The byte the ELF file puts at address `a`: that of the last segment there, or zero. */
  function ByteAt(segs: seq<Segment>, a: nat): int {
    if segs == [] then 0
    else
      var s := segs[|segs| - 1];
      if Covers(s, a) then s.bytes[a - s.vaddr] else ByteAt(segs[..|segs| - 1], a)
  }

  /** Addresses are 32 bits wide and no segment wraps around. */
  ghost predicate Fits(segs: seq<Segment>) {
    forall s | s in segs && s.load :: s.vaddr + |s.bytes| < W
  }

  function Lowest(segs: seq<Segment>): (r: nat)
    ensures r <= W - 1
  {
    if segs == [] then W - 1
    else
      var r, s := Lowest(segs[..|segs| - 1]), segs[|segs| - 1];
      if s.load && s.vaddr < r then s.vaddr else r
  }

  function Highest(segs: seq<Segment>): nat {
    if segs == [] then 0
    else
      var r, s := Highest(segs[..|segs| - 1]), segs[|segs| - 1];
      if s.load && s.vaddr + |s.bytes| > r then s.vaddr + |s.bytes| else r
  }

  lemma {:induction false} Spans(segs: seq<Segment>)
    ensures forall s | s in segs && s.load && s.vaddr < W :: Lowest(segs) <= s.vaddr
              && s.vaddr + |s.bytes| <= Highest(segs)
    ensures Fits(segs) ==>
              Highest(segs) < W && (Lowest(segs) <= Highest(segs) || (Highest(segs) == 0 && Lowest(segs) == W - 1))
    decreases |segs|
  {
    if segs != [] {
      var init, s := segs[..|segs| - 1], segs[|segs| - 1];
      Spans(init);
      assert segs == init + [s];
      assert s in segs;
    }
  }

  /** The bytes of memory that an ELF file fills, its gaps included. */
  function ImageSize(segs: seq<Segment>): nat { (Highest(segs) - Lowest(segs)) % W }

  function RoundUp(n: nat, m: nat): nat
    requires m > 0
  {
    (n + m - 1) / m * m
  }

  // ---- the header ----

  function Byte4(v: nat): (s: seq<int>)
    ensures |s| == 4
  {
    [v % 256, v / 256 % 256, v / 0x1_0000 % 256, v / 0x100_0000 % 256]
  }

  const MAGIC: seq<int> := [80, 83, 45, 88, 32, 69, 88, 69]

  function TAddr(file: seq<int>): int
    requires |file| >= HEADER
  {
    Get(file, 24, 4)
  }

  function TSize(file: seq<int>): int
    requires |file| >= HEADER
  {
    Get(file, 28, 4)
  }

  /** The first fields of the header; `rest` holds the others. */
  function Header(pc0: nat, tAddr: nat, tSize: nat, rest: seq<int>): seq<int> {
    MAGIC + [0, 0, 0, 0, 0, 0, 0, 0] + Byte4(pc0) + Byte4(0) + Byte4(tAddr) + Byte4(tSize) + rest
  }

  lemma HeaderDecodes(pc0: nat, tAddr: nat, tSize: nat, rest: seq<int>, image: seq<int>)
    requires tAddr < W && tSize < W && pc0 < W && |rest| == HEADER - 32
    ensures var f := Header(pc0, tAddr, tSize, rest) + image;
            |f| == HEADER + |image| && TAddr(f) == tAddr && TSize(f) == tSize && Get(f, 16, 4) == pc0 && f[..8] == MAGIC
            && f[HEADER..] == image
  {
    hide Get;
    var f := Header(pc0, tAddr, tSize, rest) + image;
    Bytes4(f, 16, pc0);
    Bytes4(f, 24, tAddr);
    Bytes4(f, 28, tSize);
  }

  /** A PS-EXE file that has all the bytes its size field announces. */
  ghost predicate Valid(f: seq<int>) {
    && |f| >= HEADER && f[..8] == MAGIC && 0 <= TAddr(f) && 0 <= TSize(f) && |f| >= HEADER + TSize(f)
  }

  /** Byte `k` behind the header. */
  function Data(f: seq<int>, k: nat): int
    requires HEADER + k < |f|
  {
    f[HEADER + k]
  }

  /** The byte at address `a` after the BIOS has loaded the file. */
  function Loaded(f: seq<int>, a: int): int
    requires Valid(f) && TAddr(f) <= a < TAddr(f) + TSize(f)
  {
    Data(f, a - TAddr(f))
  }

  // ---- elf2psexe ----

  /** The scan for the range of the loaded segments. */
  method Scan(segs: seq<Segment>) returns (load: nat, end: nat)
    ensures load == Lowest(segs) && end == Highest(segs)
  {
    load, end := W - 1, 0;
    for i := 0 to |segs|
      invariant load == Lowest(segs[..i]) && end == Highest(segs[..i])
    {
      assert segs[..i + 1][..i] == segs[..i];
      if segs[i].load {
        if segs[i].vaddr < load { load := segs[i].vaddr; }
        if segs[i].vaddr + |segs[i].bytes| > end { end := segs[i].vaddr + |segs[i].bytes|; }
      }
    }
    assert segs[..|segs|] == segs;
  }

  /** memcpy into a buffer */
  method Copy(buf: array<int>, at: nat, src: seq<int>)
    requires at + |src| <= buf.Length
    modifies buf
    ensures forall k | 0 <= k < buf.Length :: buf[k] == if at <= k < at + |src| then src[k - at] else old(buf[k])
  {
    forall i | 0 <= i < |src| {
      buf[at + i] := src[i];
    }
  }

  /** The image: the segments one after the other over zeros. */
  method Assemble(segs: seq<Segment>, load: nat, size: nat) returns (image: array<int>)
    requires forall s | s in segs && s.load :: load <= s.vaddr && s.vaddr + |s.bytes| <= load + size
    ensures fresh(image) && image.Length == size
    ensures forall k: nat | k < size :: image[k] == ByteAt(segs, load + k)
  {
    image := new int[size](_ => 0);
    for i := 0 to |segs|
      invariant image.Length == size && fresh(image)
      invariant forall k: nat | k < size :: image[k] == ByteAt(segs[..i], load + k)
    {
      assert segs[..i + 1][..i] == segs[..i];
      if segs[i].load && |segs[i].bytes| > 0 {
        Copy(image, segs[i].vaddr - load, segs[i].bytes);
      }
    }
    assert segs[..|segs|] == segs;
  }

  /** What elf2psexe writes: the image at the KSEG0 address of the lowest segment, with zeros up
      to a multiple of 2048. */
  ghost predicate IsImageOf(file: seq<int>, entry: nat, segs: seq<Segment>) {
    && Valid(file) && Get(file, 16, 4) == ToKseg0(entry) && TAddr(file) == ToKseg0(Lowest(segs))
    && TSize(file) % 2048 == 0 && ImageSize(segs) <= TSize(file) < ImageSize(segs) + 2048
    && forall k: nat | k < TSize(file) :: Data(file, k) == if k < ImageSize(segs) then ByteAt(segs,
        Lowest(segs) + k) else 0
  }

  lemma RoundFacts(n: nat)
    ensures n <= RoundUp(n, 2048) < n + 2048 && RoundUp(n, 2048) % 2048 == 0
    ensures n <= RoundUp(n, 4096) < n + 4096 && RoundUp(n, 4096) % 4096 == 0
  {}

  /** elf2psexe, from the program headers on. */
  method ElfToPsExe(entry: nat, segs: seq<Segment>, rest: seq<int>) returns (file: seq<int>)
    requires entry < W && Fits(segs) && ImageSize(segs) + 2047 < W && |rest| == HEADER - 32
    ensures IsImageOf(file, entry, segs)
  {
    hide Get, RoundUp, Header;
    Spans(segs);
    var load, end := Scan(segs);
    var size := (end - load) % W;
    InImage(segs);
    var image := Assemble(segs, load, size);
    RoundFacts(size);
    var padded := RoundUp(size, 2048);
    var data := image[..] + seq(padded - size, _ => 0);
    file := Header(ToKseg0(entry), ToKseg0(load), padded, rest) + data;
    HeaderDecodes(ToKseg0(entry), ToKseg0(load), padded, rest, data);
    forall k: nat | k < padded
      ensures Data(file, k) == if k < size then ByteAt(segs, load + k) else 0
    {
      assert file[HEADER..][k] == data[k];
    }
  }

  lemma InImage(segs: seq<Segment>)
    requires Fits(segs)
    ensures forall s | s in segs && s.load :: Lowest(segs) <= s.vaddr
              && s.vaddr + |s.bytes| <= Lowest(segs) + ImageSize(segs)
  {
    Spans(segs);
  }

  /** The byte of the file that the ELF file places at `a` is loaded at the KSEG0 address of `a` if
      and only if `a` and the lowest segment are on the same side of 0x80000000. */
  lemma PlacedIff(file: seq<int>, entry: nat, segs: seq<Segment>, a: nat)
    requires IsImageOf(file, entry, segs) && Fits(segs) && Lowest(segs) <= a < Lowest(segs) + ImageSize(segs)
    ensures Data(file, a - Lowest(segs)) == ByteAt(segs, a)
    ensures TAddr(file) + (a - Lowest(segs)) == ToKseg0(a) <==> (a < KSEG0 <==> Lowest(segs) < KSEG0)
  {
    hide Get, ByteAt, Lowest, Highest;
    Spans(segs);
    var k: nat := a - Lowest(segs);
    assert Data(file, k) == ByteAt(segs, Lowest(segs) + k);
  }

  /** A kernel of one byte below 0x80000000 and one at it: the second one is loaded past the end of
      the address space. */
  lemma TwoSidesExample(file: seq<int>, entry: nat)
    requires IsImageOf(file, entry, [Segment(true, 0x7fff_ffff, [5]), Segment(true, KSEG0, [7])])
    ensures HEADER + 1 < |file| && Data(file, 1) == 7 && ToKseg0(KSEG0) == KSEG0 && TAddr(file) + 1 == W
  {
    hide Get;
    var low, high := Segment(true, 0x7fff_ffff, [5]), Segment(true, KSEG0, [7]);
    var segs := [low, high];
    assert segs[..1] == [low] && [low][..0] == [];
    assert Lowest([low]) == 0x7fff_ffff && Highest([low]) == KSEG0;
    assert Lowest(segs) == 0x7fff_ffff && Highest(segs) == KSEG0 + 1;
    PlacedIff(file, entry, segs, KSEG0);
  }

  /** After loading, every byte of a segment is at its KSEG0 address, unless a later segment also
      has a byte there, and what no segment covers is zero. */
  lemma ImageLoads(file: seq<int>, entry: nat, segs: seq<Segment>, a: nat)
    requires IsImageOf(file, entry, segs) && Fits(segs)
    requires Lowest(segs) <= a < Lowest(segs) + ImageSize(segs) && (a < KSEG0 <==> Lowest(segs) < KSEG0)
    ensures TAddr(file) <= ToKseg0(a) < TAddr(file) + TSize(file) && Loaded(file, ToKseg0(a)) == ByteAt(segs, a)
  {
    hide Get, ByteAt, Lowest, Highest;
    Spans(segs);
    PlacedIff(file, entry, segs, a);
  }

  // ---- addpsexe_initrd ----

  /** Where the kernel ends: after its image, or at the _end symbol if that is later. */
  function KernelEnd(exe: seq<int>, symEnd: Option): int
    requires |exe| >= HEADER
  {
    var end := TAddr(exe) + TSize(exe);
    if symEnd.Some? && ToKseg0(symEnd.value) > end then ToKseg0(symEnd.value) else end
  }

  /** Where the tool puts the bytes of the initrd. */
  function InitrdStart(end: nat): int {
    var off := RoundUp(end, PAGE) - 8;
    if off < end then off + PAGE + 8 else off + 8
  }

  /** That is the first page boundary that leaves room for the 8 bytes of the initrd's header
      behind the kernel. */
  lemma FirstPage(end: nat)
    ensures var d := InitrdStart(end);
            d % PAGE == 0 && d - 8 >= end && forall p: nat | p % PAGE == 0 && p >= end + 8 :: p >= d
  {
    RoundFacts(end);
    var d := InitrdStart(end);
    forall p: nat | p % PAGE == 0 && p >= end + 8
      ensures p >= d
    {
      NextPage(p, d, end);
    }
  }

  lemma NextPage(p: nat, d: int, end: nat)
    requires p % PAGE == 0 && d % PAGE == 0 && p >= end + 8 && d - PAGE < end + 8
    ensures p >= d
  {}

  /** All the tool's sums stay below 2^32. */
  ghost predicate Small(exe: seq<int>, initrd: seq<int>, symEnd: Option)
    requires Valid(exe)
  {
    0 < KernelEnd(exe, symEnd) && InitrdStart(KernelEnd(exe, symEnd)) + |initrd| + 2047 < W && TAddr(exe) < W
        && |initrd| < W
  }

  /** What the tool writes: the kernel where it was, zeros, the initrd with its header, zeros. */
  ghost predicate WithInitrd(f: seq<int>, exe: seq<int>, initrd: seq<int>, symEnd: Option)
    requires Valid(exe)
  {
    var end := KernelEnd(exe, symEnd);
    && end >= 0 && Valid(f) && TAddr(f) == TAddr(exe) && f[..28] == exe[..28] && f[32..HEADER] == exe[32..HEADER]
    && TSize(f) % 2048 == 0 && InitrdStart(end) + |initrd| <= TAddr(f) + TSize(f) < InitrdStart(end) + |initrd| + 2048
    && TAddr(exe) + TSize(exe) <= InitrdStart(end) - 8
    && var at := InitrdStart(end) - TAddr(exe);
       && Get(f, HEADER + at - 8, 4) == INRD && Get(f, HEADER + at - 4, 4) == |initrd|
       && (forall k: nat | k < TSize(f) && !(at - 8 <= k < at) ::
             Data(f, k) == if k < TSize(exe) then Data(exe, k) else if at <= k < at + |initrd| then initrd[k - at]
                 else 0)
  }

  /** addpsexe_initrd, once its files are read. */
  method AddInitrd(exe: seq<int>, initrd: seq<int>, symEnd: Option) returns (r: Result)
    requires Valid(exe) ==> Small(exe, initrd, symEnd)
    requires |exe| >= HEADER ==> 0 <= TAddr(exe) && 0 <= TSize(exe)
    ensures r.NotPsExe? <==> |exe| >= 8 && exe[..8] != MAGIC
    ensures r.Built? <==> Valid(exe)
    ensures r.Built? ==> WithInitrd(r.file, exe, initrd, symEnd)
  {
    hide Get, RoundUp;
    if |exe| < 8 {
      return ReadsPast;
    }
    if exe[..8] != MAGIC {
      return NotPsExe;
    }
    if |exe| < HEADER || |exe| < HEADER + TSize(exe) {
      return ReadsPast;
    }
    var tAddr, tSize := TAddr(exe), TSize(exe);
    var kernelEnd := tAddr + tSize;
    if symEnd.Some? && ToKseg0(symEnd.value) > kernelEnd {
      kernelEnd := ToKseg0(symEnd.value);
    }
    RoundFacts(kernelEnd);
    var offset := RoundUp(kernelEnd, PAGE) - 8;
    if offset < kernelEnd {
      offset := offset + PAGE;
    }
    var padding := offset - (tAddr + tSize);
    RoundFacts(tSize + padding + 8 + |initrd|);
    var newSize := RoundUp(tSize + padding + 8 + |initrd|, 2048);
    var file := Fill(exe, tSize, offset - tAddr, newSize, initrd);
    r := Built(file);
    Finished(file, exe, initrd, symEnd, offset, newSize);
  }

  /** The output buffer: header with the new size, kernel, and the initrd at `at`. */
  method Fill(exe: seq<int>, tSize: nat, at: nat, newSize: nat, initrd: seq<int>) returns (f: seq<int>)
    requires |exe| >= HEADER + tSize && tSize <= at && at + 8 + |initrd| <= newSize
    ensures |f| == HEADER + newSize && f[..28] == exe[..28] && f[28..32] == Byte4(newSize)
              && f[32..HEADER] == exe[32..HEADER]
    ensures f[HEADER..HEADER + tSize] == exe[HEADER..HEADER + tSize]
    ensures f[HEADER + at..HEADER + at + 8] == Byte4(INRD) + Byte4(|initrd|)
              && f[HEADER + at + 8..HEADER + at + 8 + |initrd|] == initrd
    ensures forall k | HEADER + tSize <= k < HEADER + at :: f[k] == 0
    ensures forall k | HEADER + at + 8 + |initrd| <= k < |f| :: f[k] == 0
  {
    hide Byte4;
    var out := new int[HEADER + newSize](_ => 0);
    Copy(out, 0, exe[..HEADER]);
    Copy(out, 28, Byte4(newSize));
    Copy(out, HEADER, exe[HEADER..HEADER + tSize]);
    Copy(out, HEADER + at, Byte4(INRD) + Byte4(|initrd|));
    Copy(out, HEADER + at + 8, initrd);
    f := out[..];
  }

  /** The buffer after the copies, read back. */
  lemma Finished(f: seq<int>, exe: seq<int>, initrd: seq<int>, symEnd: Option, offset: nat, newSize: nat)
    requires Valid(exe) && Small(exe, initrd, symEnd) && exe[..8] == MAGIC
              && offset == InitrdStart(KernelEnd(exe, symEnd)) - 8
    requires TAddr(exe) + TSize(exe) <= offset && newSize % 2048 == 0
    requires offset + 8 + |initrd| <= TAddr(exe) + newSize < offset + 8 + |initrd| + 2048
    requires |f| == HEADER + newSize && f[..28] == exe[..28] && f[28..32] == Byte4(newSize)
              && f[32..HEADER] == exe[32..HEADER]
    requires f[HEADER..HEADER + TSize(exe)] == exe[HEADER..HEADER + TSize(exe)]
    requires f[HEADER + offset - TAddr(exe)..HEADER + offset - TAddr(exe) + 8] == Byte4(INRD) + Byte4(|initrd|)
    requires f[HEADER + offset - TAddr(exe) + 8..HEADER + offset - TAddr(exe) + 8 + |initrd|] == initrd
    requires forall k | HEADER + TSize(exe) <= k < HEADER + offset - TAddr(exe) :: f[k] == 0
    requires forall k | HEADER + offset - TAddr(exe) + 8 + |initrd| <= k < |f| :: f[k] == 0
    ensures WithInitrd(f, exe, initrd, symEnd)
  {
    hide Get, RoundUp, KernelEnd, InitrdStart;
    assert f[28] == f[28..32][0] && f[29] == f[28..32][1] && f[30] == f[28..32][2] && f[31] == f[28..32][3];
    Bytes4(f, 28, newSize);
    assert TAddr(f) == TAddr(exe) by { SameTAddr(f, exe); }
    assert f[..8] == f[..28][..8] == exe[..28][..8] == exe[..8];
    var h := HEADER + offset - TAddr(exe);
    var b := f[h..h + 8];
    assert f[h] == b[0] && f[h + 1] == b[1] && f[h + 2] == b[2] && f[h + 3] == b[3];
    assert f[h + 4] == b[4] && f[h + 5] == b[5] && f[h + 6] == b[6] && f[h + 7] == b[7];
    Bytes4(f, h, INRD);
    Bytes4(f, h + 4, |initrd|);
    forall k: nat | k < newSize && !(offset - TAddr(exe) <= k < offset - TAddr(exe) + 8)
      ensures Data(f, k) == if k < TSize(exe) then Data(exe, k)
                else if offset - TAddr(exe) + 8 <= k < offset - TAddr(exe) + 8 + |initrd|
                then initrd[k - (offset - TAddr(exe) + 8)] else 0
    {
      if k < TSize(exe) {
        assert f[HEADER..HEADER + TSize(exe)][k] == exe[HEADER..HEADER + TSize(exe)][k];
      } else if offset - TAddr(exe) + 8 <= k < offset - TAddr(exe) + 8 + |initrd| {
        assert f[h + 8..h + 8 + |initrd|][k - (h + 8 - HEADER)] == f[HEADER + k];
      }
    }
  }

  lemma SameTAddr(f: seq<int>, exe: seq<int>)
    requires |f| >= HEADER && |exe| >= HEADER && f[..28] == exe[..28]
    ensures TAddr(f) == TAddr(exe)
  {
    GetPrefix(f, exe, 24, 4);
  }

  lemma {:induction false} GetPrefix(a: seq<int>, b: seq<int>, off: nat, width: nat)
    requires off + width <= |a| && off + width <= |b| && a[..off + width] == b[..off + width]
    ensures Get(a, off, width) == Get(b, off, width)
    decreases width
  {
    if width > 0 {
      assert a[off] == a[..off + width][off] && b[off] == b[..off + width][off];
      GetPrefix(a, b, off + 1, width - 1);
    }
  }

  // ---- the two tools together ----

  /** All of the image is on one side of 0x80000000. */
  predicate OneSided(segs: seq<Segment>) {
    Lowest(segs) >= KSEG0 || Lowest(segs) + ImageSize(segs) <= KSEG0
  }

  /** The initrd is loaded on the first page boundary that leaves room for its header behind the
      kernel's image and behind its _end symbol, all of it inside the size that the header
      announces. */
  lemma InitrdLoads(exe: seq<int>, f: seq<int>, initrd: seq<int>, symEnd: Option)
    requires Valid(exe) && WithInitrd(f, exe, initrd, symEnd)
    ensures var end := KernelEnd(exe, symEnd);
            var d := InitrdStart(end);
            && Valid(f) && TSize(f) % 2048 == 0 && d % PAGE == 0
            && d - 8 >= TAddr(exe) + TSize(exe) && (symEnd.Some? ==> d - 8 >= ToKseg0(symEnd.value))
            && (forall p: nat | p % PAGE == 0 && p - 8 >= TAddr(exe) + TSize(exe)
                                && (symEnd.Some? ==> p - 8 >= ToKseg0(symEnd.value)) :: p >= d)
            && TAddr(f) <= d - 8 && d + |initrd| <= TAddr(f) + TSize(f)
            && (forall j: nat | j < |initrd| :: Loaded(f, d + j) == initrd[j])
  {
    hide Get, InitrdStart, ToKseg0;
    var end := KernelEnd(exe, symEnd);
    var d := InitrdStart(end);
    FirstPage(end);
    forall j: nat | j < |initrd|
      ensures Loaded(f, d + j) == initrd[j]
    {
      var k: nat := d + j - TAddr(f);
      assert Data(f, k) == initrd[j];
    }
  }

  /** With the initrd in place every byte of the ELF file is still loaded at its KSEG0 address. */
  lemma KernelLoads(entry: nat, segs: seq<Segment>, exe: seq<int>, f: seq<int>, initrd: seq<int>, symEnd: Option,
      a: nat)
    requires Fits(segs) && OneSided(segs) && IsImageOf(exe, entry, segs) && WithInitrd(f, exe, initrd, symEnd)
    requires Lowest(segs) <= a < Lowest(segs) + ImageSize(segs)
    ensures TAddr(f) <= ToKseg0(a) < TAddr(f) + TSize(f) && Loaded(f, ToKseg0(a)) == ByteAt(segs, a)
  {
    hide Get, InitrdStart, ByteAt, Lowest, ImageSize, ToKseg0, Fits;
    ImageLoads(exe, entry, segs, a);
    var k: nat := ToKseg0(a) - TAddr(exe);
    assert Data(f, k) == Data(exe, k);
  }
}
