/** The relocations of a MIPS flat binary. Words and addresses are numbers below 2^32. */
module Reloc {
  const W: nat := 0x1_0000_0000
  const HALF: nat := 0x1_0000
  const JUMP: nat := 0x400_0000

  /** Where the program was loaded: start_code, start_data and end_data. */
  datatype Bases = Bases(text: nat, data: nat, bss: nat)

  type Mem = map<nat, nat>

  /** What do_reloc keeps between calls. */
  datatype Static = Static(hiFlag: bool, prev: nat, prevAddr: nat, res: nat)

  // ---- the fields of an entry ----

  function In(r: nat): nat { r / 0x4000_0000 % 4 }
  function Rel(r: nat): nat { r / 0x1000_0000 % 4 }
  function Kind(r: nat): nat { r / 0x100_0000 % 16 }
  function Offset(r: nat): int { if r / 0x80_0000 % 2 == 1 then -(r % 0x80_0000) else r % 0x80_0000 }

  const R_32: nat := 0
  const R_HI16: nat := 1
  const R_LO16: nat := 2
  const R_26: nat := 3

  function Section(b: Bases, k: nat): nat { if k == 0 then b.text else if k == 1 then b.data else b.bss }

  /** The word an entry patches, and the amount that is added. */
  function Addr(b: Bases, r: nat): nat { (Section(b, In(r)) + Offset(r)) % W }
  function Base(b: Bases, r: nat): nat { Section(b, Rel(r)) % W }

  /** do_reloc knows the sections of the entry. */
  predicate Known(r: nat) { Rel(r) != 3 && In(r) != 3 }

  /** The entry for the word `offset` bytes from the start of section `within`, to which the base of
      section `of` is added. */
  function Entry(within: nat, of: nat, kind: nat, offset: int): nat
    requires -0x80_0000 < offset < 0x80_0000
  {
    within * 0x4000_0000 + of * 0x1000_0000 + kind * 0x100_0000 + if offset < 0 then 0x80_0000 - offset else offset
  }

  lemma EntryFields(within: nat, of: nat, kind: nat, offset: int)
    requires within < 3 && of < 3 && kind < 16 && -0x80_0000 < offset < 0x80_0000
    ensures var r := Entry(within, of, kind, offset);
            In(r) == within && Rel(r) == of && Kind(r) == kind && Offset(r) == offset
  {
    var r, low := Entry(within, of, kind, offset), if offset < 0 then 0x80_0000 - offset else offset;
    assert r / 0x100_0000 == within * 64 + of * 16 + kind;
    assert r / 0x1000_0000 == within * 4 + of;
    assert r / 0x4000_0000 == within;
    assert r / 0x80_0000 == within * 128 + of * 32 + kind * 2 + low / 0x80_0000;
  }

  /** do_reloc reads back what an entry was made of. */
  lemma EntryDecodes(b: Bases, within: nat, of: nat, kind: nat, offset: int)
    requires within < 3 && of < 3 && kind < 16 && -0x80_0000 < offset < 0x80_0000
    ensures var r, sections := Entry(within, of, kind, offset), [b.text, b.data, b.bss];
            && Known(r) && Kind(r) == kind && Rel(r) == of && In(r) == within
            && Addr(b, r) == (sections[within] + offset) % W && Base(b, r) == sections[of] % W
  {
    hide Entry, In, Rel, Kind, Offset;
    EntryFields(within, of, kind, offset);
  }

  // ---- do_reloc ----

  /** (short)x */
  function Short(x: nat): int {
    var l := x % HALF;
    if l >= 0x8000 then l - HALF else l
  }

  /** `w` with its low half replaced. */
  function WithLow(w: nat, l: nat): nat { w - w % HALF + l }

  /** `w` with the target field of a jump replaced. */
  function WithTarget(w: nat, f: nat): nat { w - w % JUMP + f }

  /** The target of a jump instruction moved by `base`, before it is cut to 28 bits. */
  function JumpRes(w: nat, base: nat): nat { (w % JUMP * 4 + base) % W }

  function Step(b: Bases, m: Mem, st: Static, r: nat): (Mem, Static)
    requires (Known(r) ==> Addr(b, r) in m) && (st.hiFlag ==> st.prevAddr in m)
  {
    var a, base := Addr(b, r), Base(b, r);
    if !Known(r) then (m, st)
    else if Kind(r) == R_32 then (m[a := (m[a] + base) % W], st)
    else if Kind(r) == R_HI16 then (m, Static(true, r, a, m[a] % HALF * HALF))
    else if Kind(r) == R_LO16 then
      if !st.hiFlag || Rel(r) != Rel(st.prev) || In(r) != In(st.prev) then (m, st)
      else
        var res := (st.res + Short(m[a]) + base) % W;
        var m1 := m[st.prevAddr := WithLow(m[st.prevAddr], (res - Short(res)) % W / HALF)];
        (m1[a := WithLow(m1[a], res % HALF)], st.(hiFlag := false, res := res))
    else if Kind(r) == R_26 then
      var res := JumpRes(m[a], base);
      (m[a := WithTarget(m[a], res / 4 % JUMP)], st.(res := res))
    else (m, st)
  }

  // ---- what a reference means ----

  /** A reference in the program: a word, a jump, or a value split over two instructions. */
  datatype Ref = Word(addr: nat, base: nat) | Jump(addr: nat, base: nat) | Pair(hi: nat, lo: nat, base: nat)

  predicate InMem(ref: Ref, m: Mem) {
    match ref
    case Word(a, _) => a in m
    case Jump(a, _) => a in m
    case Pair(h, l, _) => h in m && l in m
  }

  /** The address it stands for: 32 bits of a word or a pair with signed low half, 28 bits of a
      jump. */
  function Value(ref: Ref, m: Mem): int
    requires InMem(ref, m)
  {
    match ref
    case Word(a, _) => m[a] % W
    case Jump(a, _) => m[a] % JUMP * 4
    case Pair(h, l, _) => (m[h] % HALF * HALF + Short(m[l])) % W
  }

  function Modulus(ref: Ref): nat { if ref.Jump? then 4 * JUMP else W }

  /** The bits of the instructions beside the reference. */
  predicate OpcodeKept(ref: Ref, m: Mem, m': Mem)
    requires InMem(ref, m) && InMem(ref, m')
  {
    match ref
    case Word(_, _) => true
    case Jump(a, _) => m'[a] / JUMP == m[a] / JUMP
    case Pair(h, l, _) => m'[h] / HALF == m[h] / HALF && m'[l] / HALF == m[l] / HALF
  }

  /** The reference moved by its base. */
  ghost predicate Moved(ref: Ref, m: Mem, m': Mem) {
    && InMem(ref, m) && InMem(ref, m')
    && Value(ref, m') == (Value(ref, m) + ref.base) % Modulus(ref) && OpcodeKept(ref, m, m')
  }

  // ---- arithmetic ----

  lemma ModAdd(x: int, y: int)
    ensures (x + y) % W == (x % W + y) % W
  {}

  lemma LowHalf(w: nat, l: nat)
    requires w < W && l < HALF
    ensures WithLow(w, l) % HALF == l && WithLow(w, l) / HALF == w / HALF && WithLow(w, l) < W
  {}

  /** The high half with the carry of the low one gives the value back. */
  lemma Carry(res: nat)
    requires res < W
    ensures var h := (res - Short(res)) % W / HALF;
            h < HALF && (h * HALF + Short(res)) % W == res
  {
    var l := res % HALF;
    var q := res / HALF;
    assert res == q * HALF + l;
    if l < 0x8000 {
      assert res - Short(res) == q * HALF;
    } else {
      assert res - Short(res) == (q + 1) * HALF;
      if q + 1 == HALF {
        assert (res - Short(res)) % W == 0;
      }
    }
  }

  /** A jump moves by its base exactly when the base is a word address. */
  lemma JumpArith(w: nat, base: nat)
    requires w < W
    ensures var w' := WithTarget(w, JumpRes(w, base) / 4 % JUMP);
            && (w' % JUMP * 4 == (w % JUMP * 4 + base) % (4 * JUMP) <==> base % 4 == 0)
            && w' / JUMP == w / JUMP && w' < W
  {
    hide WithTarget, JumpRes;
    var res, t := JumpRes(w, base), w % JUMP * 4;
    JumpField(w, res / 4 % JUMP);
    ResFacts(w, base);
    Quarter(res);
  }

  lemma ResFacts(w: nat, base: nat)
    ensures JumpRes(w, base) % (4 * JUMP) == (w % JUMP * 4 + base) % (4 * JUMP) && JumpRes(w, base) % 4 == base % 4
  {
    ModDown(w % JUMP * 4 + base);
    ModFour(w % JUMP * 4 + base);
    FourTimes(w % JUMP, base);
  }

  lemma FourTimes(x: nat, y: nat)
    ensures (x * 4 + y) % 4 == y % 4
  {}

  lemma ModDown(x: nat)
    ensures x % W % (4 * JUMP) == x % (4 * JUMP)
  {}

  lemma ModFour(x: nat)
    ensures x % W % 4 == x % 4
  {}

  lemma Quarter(x: nat)
    ensures x / 4 % JUMP * 4 == x % (4 * JUMP) - x % 4
  {}

  lemma JumpField(w: nat, f: nat)
    requires w < W && f < JUMP
    ensures var w' := WithTarget(w, f); w' % JUMP == f && w' / JUMP == w / JUMP && w' < W
  {}

  // ---- a table ----

  datatype Option = None | Some(r: nat)

  predicate Acts(r: nat) { Known(r) && Kind(r) <= 3 }

  /** Entry `r` is the LO16 that the waiting HI16 `p` is for. */
  predicate Completes(p: Option, r: nat) {
    p.Some? && Rel(r) == Rel(p.r) && In(r) == In(p.r)
  }

  /** The value kept for a HI16: as it was put there, or what a 26-bit entry put in its place. */
  datatype Kept = AsIs | Over(v: nat)

  /** A reference that a table carries out, for a pair with the value kept at its LO16. */
  datatype Found = Found(ref: Ref, kept: Kept)

  ghost predicate Mapped(b: Bases, m: Mem, table: seq<nat>) {
    && (forall a | a in m :: m[a] < W)
    && (forall r | r in table && Known(r) :: Addr(b, r) in m)
  }

  /** The references that a table carries out. `p` is a HI16 that waits for its LO16, and a LO16
      that completes nothing is passed over. */
  ghost function Refs(b: Bases, m: Mem, table: seq<nat>, p: Option, kept: Kept): seq<Found>
    requires Mapped(b, m, table)
    decreases table
  {
    if table == [] then []
    else
      var r, rest := table[0], table[1..];
      assert r in table;
      if !Acts(r) then Refs(b, m, rest, p, kept)
      else if Kind(r) == R_32 then [Found(Word(Addr(b, r), Base(b, r)), AsIs)] + Refs(b, m, rest, p, kept)
      else if Kind(r) == R_HI16 then Refs(b, m, rest, Some(r), AsIs)
      else if Kind(r) == R_LO16 then
        if Completes(p, r) then
          [Found(Pair(Addr(b, p.r), Addr(b, r), Base(b, r)), kept)] + Refs(b, m, rest, None, AsIs)
        else Refs(b, m, rest, p, kept)
      else
        [Found(Jump(Addr(b, r), Base(b, r)), AsIs)]
        + Refs(b, m, rest, p, if p.Some? then Over(JumpRes(m[Addr(b, r)], Base(b, r))) else AsIs)
  }

  function Words(ref: Ref): set<nat> {
    match ref
    case Word(a, _) => {a}
    case Jump(a, _) => {a}
    case Pair(h, l, _) => {h, l}
  }

  ghost function AllWords(xs: seq<Found>): set<nat> {
    if xs == [] then {} else Words(xs[0].ref) + AllWords(xs[1..])
  }

  function Targets(b: Bases, table: seq<nat>): set<nat> {
    if table == [] then {} else (if Acts(table[0]) then {Addr(b, table[0])} else {}) + Targets(b, table[1..])
  }

  function Waiting(b: Bases, p: Option): set<nat> { if p.Some? then {Addr(b, p.r)} else {} }

  /** No two entries patch the same word. */
  predicate Distinct(b: Bases, table: seq<nat>) {
    table == []
    || ((Acts(table[0]) ==> Addr(b, table[0]) !in Targets(b, table[1..])) && Distinct(b, table[1..]))
  }

  /** do_reloc over a table. */
  function Run(b: Bases, m: Mem, st: Static, table: seq<nat>): (Mem, Static)
    requires (forall r | r in table && Known(r) :: Addr(b, r) in m) && (st.hiFlag ==> st.prevAddr in m)
    decreases table
  {
    if table == [] then (m, st)
    else
      assert table[0] in table;
      var (m1, st1) := Step(b, m, st, table[0]);
      Run(b, m1, st1, table[1..])
  }

  // ---- one entry ----

  lemma StepWord(b: Bases, m: Mem, st: Static, r: nat)
    requires Acts(r) && Kind(r) == R_32 && Addr(b, r) in m && (forall a | a in m :: m[a] < W)
    requires st.hiFlag ==> st.prevAddr in m
    ensures var (m1, st1) := Step(b, m, st, r);
            && st1 == st && m1.Keys == m.Keys && (forall a | a in m :: m1[a] < W && (a != Addr(b, r) ==> m1[a] == m[a]))
            && Moved(Word(Addr(b, r), Base(b, r)), m, m1)
  {
    hide Addr, Base, Kind, Known;
  }

  /** A jump moves by its base if and only if that is a word address; its opcode stays anyway. */
  lemma StepJump(b: Bases, m: Mem, st: Static, r: nat)
    requires Acts(r) && Kind(r) == R_26 && Addr(b, r) in m && (forall a | a in m :: m[a] < W)
    requires st.hiFlag ==> st.prevAddr in m
    ensures var (m1, st1) := Step(b, m, st, r);
            && st1 == st.(res := JumpRes(m[Addr(b, r)], Base(b, r))) && m1.Keys == m.Keys
            && (forall a | a in m :: m1[a] < W && (a != Addr(b, r) ==> m1[a] == m[a]))
            && OpcodeKept(Jump(Addr(b, r), Base(b, r)), m, m1)
            && (Moved(Jump(Addr(b, r), Base(b, r)), m, m1) <==> Base(b, r) % 4 == 0)
  {
    hide Addr, Base, Kind, Known, WithTarget, JumpRes;
    JumpArith(m[Addr(b, r)], Base(b, r));
  }

  lemma StepHigh(b: Bases, m: Mem, st: Static, r: nat)
    requires Acts(r) && Kind(r) == R_HI16 && Addr(b, r) in m && (st.hiFlag ==> st.prevAddr in m)
    ensures Step(b, m, st, r) == (m, Static(true, r, Addr(b, r), m[Addr(b, r)] % HALF * HALF))
  {}

  /** What a LO16 leaves, whatever value was kept: the pair moves by its base if and only if that
      value was the high half. */
  lemma StepPair(b: Bases, m: Mem, st: Static, lo: nat)
    requires Acts(lo) && Kind(lo) == R_LO16 && Addr(b, lo) in m && (forall a | a in m :: m[a] < W)
    requires st.hiFlag && st.prevAddr == Addr(b, st.prev) && st.prevAddr in m && st.res < W
    requires Rel(lo) == Rel(st.prev) && In(lo) == In(st.prev) && Addr(b, lo) != st.prevAddr
    ensures var (m1, st1) := Step(b, m, st, lo);
            var ref := Pair(st.prevAddr, Addr(b, lo), Base(b, lo));
            && !st1.hiFlag && m1.Keys == m.Keys
            && (forall a | a in m :: m1[a] < W && (a != Addr(b, lo) && a != st.prevAddr ==> m1[a] == m[a]))
            && OpcodeKept(ref, m, m1) && (Moved(ref, m, m1) <==> st.res == m[st.prevAddr] % HALF * HALF)
  {
    hide Addr, Base, Kind, Known, Rel, In, Short, WithLow;
    PairIff(m[st.prevAddr], m[Addr(b, lo)], Base(b, lo), st.res);
  }

  lemma PairIff(hi: nat, lo: nat, base: nat, kept: nat)
    requires hi < W && lo < W && kept < W
    ensures var res := (kept + Short(lo) + base) % W;
            var hi', lo' := WithLow(hi, (res - Short(res)) % W / HALF), WithLow(lo, res % HALF);
            && hi' / HALF == hi / HALF && lo' / HALF == lo / HALF && hi' < W && lo' < W
            && ((hi' % HALF * HALF + Short(lo')) % W == ((hi % HALF * HALF + Short(lo)) % W + base) % W
                <==> kept == hi % HALF * HALF)
  {
    hide WithLow;
    var res := (kept + Short(lo) + base) % W;
    Carry(res);
    LowHalf(hi, (res - Short(res)) % W / HALF);
    LowHalf(lo, res % HALF);
    KeptIff(kept, hi % HALF * HALF, Short(lo), base);
  }

  lemma KeptIff(x: nat, y: nat, s: int, base: nat)
    requires x < W && y < W
    ensures (x + s + base) % W == ((y + s) % W + base) % W <==> x == y
  {
    ModAdd(y + s, base);
    SameMod(x, y, s + base);
  }

  lemma SameMod(x: nat, y: nat, z: int)
    requires x < W && y < W
    ensures (x + z) % W == (y + z) % W <==> x == y
  {}

  lemma StepIdle(b: Bases, m: Mem, st: Static, r: nat)
    requires (Known(r) ==> Addr(b, r) in m) && (st.hiFlag ==> st.prevAddr in m)
    requires !Acts(r) || (Kind(r) == R_LO16 && !(st.hiFlag && Rel(r) == Rel(st.prev) && In(r) == In(st.prev)))
    ensures Step(b, m, st, r) == (m, st)
  {}

  // ---- every table ----

  /** The reference comes out right: a jump with a word-aligned base, a pair whose kept value is
      still its high half. */
  ghost predicate Right(m: Mem, x: Found)
    requires InMem(x.ref, m)
  {
    match x.ref
    case Word(_, _) => true
    case Jump(_, base) => base % 4 == 0
    case Pair(h, _, _) => x.kept.AsIs? || x.kept.v == m[h] % HALF * HALF
  }

  /** In the middle of a table: the words still to be patched are as in `m0`, and the kept state is
      that of the waiting HI16. */
  ghost predicate Midway(b: Bases, m0: Mem, m: Mem, st: Static, table: seq<nat>, p: Option, kept: Kept) {
    && Mapped(b, m, table) && Mapped(b, m0, table) && m.Keys == m0.Keys && Distinct(b, table)
    && Waiting(b, p) !! Targets(b, table)
    && (forall a | a in m && a in Targets(b, table) + Waiting(b, p) :: m[a] == m0[a])
    && st.hiFlag == p.Some? && st.res < W
    && (p.Some? ==> st.prev == p.r && st.prevAddr == Addr(b, p.r) && st.prevAddr in m
                    && st.res == if kept.AsIs? then m0[st.prevAddr] % HALF * HALF else kept.v)
    && (p.None? ==> kept.AsIs?)
  }

  /** What a table does to memory: every reference it carries out moves if it is right and keeps
      its opcodes, and no other word changes. */
  ghost predicate Does(m0: Mem, m: Mem, m': Mem, xs: seq<Found>) {
    && m'.Keys == m0.Keys && (forall a | a in m && a !in AllWords(xs) :: a in m' && m'[a] == m[a])
    && (forall x | x in xs :: InMem(x.ref, m0) && InMem(x.ref, m') && OpcodeKept(x.ref, m0, m')
                              && (Moved(x.ref, m0, m') <==> Right(m0, x)))
  }

  /** Words that a later part of the table leaves alone keep their reference. */
  lemma SameAfter(ref: Ref, m: Mem, m1: Mem, m': Mem)
    requires m'.Keys == m1.Keys && (forall a | a in Words(ref) && a in m1 :: m'[a] == m1[a])
    requires InMem(ref, m) && InMem(ref, m1)
    ensures InMem(ref, m') && (Moved(ref, m, m') <==> Moved(ref, m, m1))
    ensures OpcodeKept(ref, m, m') <==> OpcodeKept(ref, m, m1)
  {
    hide Short;
    assert forall a | a in Words(ref) :: a in m1;
  }

  lemma SameBefore(ref: Ref, m0: Mem, m: Mem, m1: Mem)
    requires m.Keys == m0.Keys && (forall a | a in Words(ref) && a in m :: m[a] == m0[a])
    requires InMem(ref, m) && InMem(ref, m1)
    ensures InMem(ref, m0) && (Moved(ref, m0, m1) <==> Moved(ref, m, m1))
    ensures OpcodeKept(ref, m0, m1) <==> OpcodeKept(ref, m, m1)
  {
    hide Short;
    assert forall a | a in Words(ref) :: a in m;
  }

  lemma {:induction false} RefWords(b: Bases, m: Mem, table: seq<nat>, p: Option, kept: Kept)
    requires Mapped(b, m, table)
    ensures AllWords(Refs(b, m, table, p, kept)) <= Targets(b, table) + Waiting(b, p)
    decreases table
  {
    hide Addr, Base, Kind, Rel, In, Known, JumpRes;
    if table != [] {
      var r, rest := table[0], table[1..];
      assert r in table;
      if !Acts(r) {
        RefWords(b, m, rest, p, kept);
      } else if Kind(r) == R_32 {
        RefWords(b, m, rest, p, kept);
        Cons(Found(Word(Addr(b, r), Base(b, r)), AsIs), Refs(b, m, rest, p, kept));
      } else if Kind(r) == R_HI16 {
        RefWords(b, m, rest, Some(r), AsIs);
      } else if Kind(r) == R_LO16 {
        RefWords(b, m, rest, None, AsIs);
        RefWords(b, m, rest, p, kept);
        if Completes(p, r) {
          Cons(Found(Pair(Addr(b, p.r), Addr(b, r), Base(b, r)), kept), Refs(b, m, rest, None, AsIs));
        }
      } else {
        var k := if p.Some? then Over(JumpRes(m[Addr(b, r)], Base(b, r))) else AsIs;
        RefWords(b, m, rest, p, k);
        Cons(Found(Jump(Addr(b, r), Base(b, r)), AsIs), Refs(b, m, rest, p, k));
      }
    }
  }

  lemma Cons(x: Found, xs: seq<Found>)
    ensures AllWords([x] + xs) == Words(x.ref) + AllWords(xs)
  {
    assert ([x] + xs)[1..] == xs;
  }

  /** One reference, patched by the step from `m` to `m1`, then the rest of the table. */
  lemma Then(m0: Mem, m: Mem, m1: Mem, m': Mem, x: Found, xs: seq<Found>)
    requires m.Keys == m0.Keys && m1.Keys == m0.Keys && Does(m0, m1, m', xs) && Words(x.ref) !! AllWords(xs)
    requires InMem(x.ref, m) && InMem(x.ref, m1) && (forall a | a in Words(x.ref) && a in m :: m[a] == m0[a])
    requires forall a | a in m && a !in Words(x.ref) :: m1[a] == m[a]
    requires InMem(x.ref, m0) && OpcodeKept(x.ref, m, m1) && (Moved(x.ref, m, m1) <==> Right(m0, x))
    ensures Does(m0, m, m', [x] + xs)
  {
    hide Moved, OpcodeKept, Right;
    Cons(x, xs);
    SameBefore(x.ref, m0, m, m1);
    SameAfter(x.ref, m0, m1, m');
  }

  /** For every table of distinct words: each reference it carries out moves by its base if and
      only if it is right, opcode bits are kept, and every word of no such reference, that of a
      HI16 or LO16 without its other half among them, is as before. */
  lemma {:induction false} RelocatedIff(b: Bases, m0: Mem, m: Mem, st: Static, table: seq<nat>, p: Option, kept: Kept)
    requires Midway(b, m0, m, st, table, p, kept)
    ensures Does(m0, m, Run(b, m, st, table).0, Refs(b, m0, table, p, kept))
    decreases table
  {
    hide Addr, Base, Kind, Rel, In, Known, Moved, Step, Right, OpcodeKept, JumpRes;
    if table != [] {
      var r, rest := table[0], table[1..];
      assert table == [r] + rest;
      var (m1, st1) := Step(b, m, st, r);
      var m' := Run(b, m, st, table).0;
      if !Acts(r) || (Kind(r) == R_LO16 && !Completes(p, r)) {
        StepIdle(b, m, st, r);
        RelocatedIff(b, m0, m1, st1, rest, p, kept);
      } else if Kind(r) == R_HI16 {
        StepHigh(b, m, st, r);
        RelocatedIff(b, m0, m1, st1, rest, Some(r), AsIs);
      } else if Kind(r) == R_32 {
        AfterWord(b, m0, m, st, table, p, kept);
      } else if Kind(r) == R_26 {
        AfterJump(b, m0, m, st, table, p, kept);
      } else {
        AfterPair(b, m0, m, st, table, p, kept);
      }
    }
  }

  lemma {:induction false} AfterWord(b: Bases, m0: Mem, m: Mem, st: Static, table: seq<nat>, p: Option, kept: Kept)
    requires Midway(b, m0, m, st, table, p, kept) && table != [] && Acts(table[0]) && Kind(table[0]) == R_32
    ensures Does(m0, m, Run(b, m, st, table).0, Refs(b, m0, table, p, kept))
    decreases table, 0
  {
    hide Addr, Base, Kind, Rel, In, Known, Moved, Step, OpcodeKept, JumpRes;
    var r, rest := table[0], table[1..];
    assert table == [r] + rest;
    StepWord(b, m, st, r);
    var (m1, st1) := Step(b, m, st, r);
    RelocatedIff(b, m0, m1, st1, rest, p, kept);
    RefWords(b, m0, rest, p, kept);
    var x := Found(Word(Addr(b, r), Base(b, r)), AsIs);
    assert OpcodeKept(x.ref, m, m1) by { WordOpcode(x.ref, m, m1); }
    Then(m0, m, m1, Run(b, m, st, table).0, x, Refs(b, m0, rest, p, kept));
  }

  lemma WordOpcode(ref: Ref, m: Mem, m': Mem)
    requires ref.Word? && InMem(ref, m) && InMem(ref, m')
    ensures OpcodeKept(ref, m, m')
  {}

  lemma {:induction false} AfterJump(b: Bases, m0: Mem, m: Mem, st: Static, table: seq<nat>, p: Option, kept: Kept)
    requires Midway(b, m0, m, st, table, p, kept) && table != [] && Acts(table[0]) && Kind(table[0]) == R_26
    ensures Does(m0, m, Run(b, m, st, table).0, Refs(b, m0, table, p, kept))
    decreases table, 0
  {
    hide Addr, Base, Kind, Rel, In, Known, Moved, Step, OpcodeKept, JumpRes;
    var r, rest := table[0], table[1..];
    assert table == [r] + rest;
    StepJump(b, m, st, r);
    var (m1, st1) := Step(b, m, st, r);
    ResBound(m[Addr(b, r)], Base(b, r));
    var k := if p.Some? then Over(JumpRes(m0[Addr(b, r)], Base(b, r))) else AsIs;
    RelocatedIff(b, m0, m1, st1, rest, p, k);
    RefWords(b, m0, rest, p, k);
    var x := Found(Jump(Addr(b, r), Base(b, r)), AsIs);
    Then(m0, m, m1, Run(b, m, st, table).0, x, Refs(b, m0, rest, p, k));
  }

  lemma ResBound(w: nat, base: nat)
    ensures JumpRes(w, base) < W
  {}

  lemma {:induction false} AfterPair(b: Bases, m0: Mem, m: Mem, st: Static, table: seq<nat>, p: Option, kept: Kept)
    requires Midway(b, m0, m, st, table, p, kept) && table != [] && Acts(table[0]) && Kind(table[0]) == R_LO16
    requires Completes(p, table[0])
    ensures Does(m0, m, Run(b, m, st, table).0, Refs(b, m0, table, p, kept))
    decreases table, 0
  {
    hide Addr, Base, Kind, Rel, In, Known, Moved, Step, OpcodeKept, JumpRes;
    var r, rest := table[0], table[1..];
    assert table == [r] + rest;
    StepPair(b, m, st, r);
    var (m1, st1) := Step(b, m, st, r);
    assert st1.res < W by { StepRes(b, m, st, r); }
    RelocatedIff(b, m0, m1, st1, rest, None, AsIs);
    RefWords(b, m0, rest, None, AsIs);
    var x := Found(Pair(Addr(b, p.r), Addr(b, r), Base(b, r)), kept);
    Then(m0, m, m1, Run(b, m, st, table).0, x, Refs(b, m0, rest, None, AsIs));
  }

  lemma StepRes(b: Bases, m: Mem, st: Static, r: nat)
    requires (Known(r) ==> Addr(b, r) in m) && (st.hiFlag ==> st.prevAddr in m) && st.res < W
    ensures Step(b, m, st, r).1.res < W
  {
    hide Addr, Base, Rel, In, Short;
  }

  // ---- tables that carry out every entry ----

  /** Every HI16 is followed by the LO16 of its sections, with no other HI16 or LO16 between. */
  predicate Complete(table: seq<nat>, p: Option) {
    if table == [] then p.None?
    else
      var r, rest := table[0], table[1..];
      if Acts(r) && Kind(r) == R_HI16 then p.None? && Complete(rest, Some(r))
      else if Acts(r) && Kind(r) == R_LO16 then Completes(p, r) && Complete(rest, None)
      else Complete(rest, p)
  }

  /** A table carries out every entry if and only if it is complete: otherwise some HI16 or LO16
      belongs to no reference, and by RelocatedIff its word stays as it was. */
  lemma {:induction false} CompleteIff(b: Bases, m: Mem, table: seq<nat>, p: Option, kept: Kept)
    requires Mapped(b, m, table) && Distinct(b, table) && Waiting(b, p) !! Targets(b, table)
    ensures AllWords(Refs(b, m, table, p, kept)) == Targets(b, table) + Waiting(b, p) <==> Complete(table, p)
    decreases table
  {
    hide Addr, Base, Kind, Rel, In, Known, JumpRes;
    if table != [] {
      var r, rest := table[0], table[1..];
      assert r in table;
      if !Acts(r) {
        CompleteIff(b, m, rest, p, kept);
      } else if Kind(r) == R_32 {
        CompleteIff(b, m, rest, p, kept);
        RefWords(b, m, rest, p, kept);
        Cons(Found(Word(Addr(b, r), Base(b, r)), AsIs), Refs(b, m, rest, p, kept));
      } else if Kind(r) == R_HI16 {
        CompleteIff(b, m, rest, Some(r), AsIs);
        RefWords(b, m, rest, Some(r), AsIs);
        if p.Some? {
          assert Addr(b, p.r) in Waiting(b, p) && Addr(b, p.r) !in AllWords(Refs(b, m, rest, Some(r), AsIs));
        }
      } else if Kind(r) == R_LO16 {
        CompleteLow(b, m, table, p, kept);
      } else {
        var k := if p.Some? then Over(JumpRes(m[Addr(b, r)], Base(b, r))) else AsIs;
        CompleteIff(b, m, rest, p, k);
        RefWords(b, m, rest, p, k);
        Cons(Found(Jump(Addr(b, r), Base(b, r)), AsIs), Refs(b, m, rest, p, k));
      }
    }
  }

  lemma {:induction false} CompleteLow(b: Bases, m: Mem, table: seq<nat>, p: Option, kept: Kept)
    requires Mapped(b, m, table) && Distinct(b, table) && Waiting(b, p) !! Targets(b, table)
    requires table != [] && Acts(table[0]) && Kind(table[0]) == R_LO16
    ensures AllWords(Refs(b, m, table, p, kept)) == Targets(b, table) + Waiting(b, p) <==> Complete(table, p)
    decreases table, 0
  {
    hide Addr, Base, Kind, Rel, In, Known, JumpRes;
    var r, rest := table[0], table[1..];
    assert r in table;
    if Completes(p, r) {
      CompleteIff(b, m, rest, None, AsIs);
      RefWords(b, m, rest, None, AsIs);
      Cons(Found(Pair(Addr(b, p.r), Addr(b, r), Base(b, r)), kept), Refs(b, m, rest, None, AsIs));
      if Complete(table, p) {
        assert AllWords(Refs(b, m, table, p, kept)) == {Addr(b, p.r), Addr(b, r)} + Targets(b, rest);
      } else {
        var a :| a in Targets(b, rest) && a !in AllWords(Refs(b, m, rest, None, AsIs));
        assert a in Targets(b, table) && a !in AllWords(Refs(b, m, table, p, kept));
      }
    } else {
      RefWords(b, m, rest, p, kept);
      assert Addr(b, r) in Targets(b, table) && Addr(b, r) !in AllWords(Refs(b, m, rest, p, kept));
    }
  }

  /** Complete, with at most 32-bit entries between the halves of a pair, and word-aligned bases
      for jumps. */
  predicate Paired(b: Bases, table: seq<nat>, p: Option) {
    if table == [] then p.None?
    else
      var r, rest := table[0], table[1..];
      if !Acts(r) || Kind(r) == R_32 then Paired(b, rest, p)
      else if Kind(r) == R_HI16 then p.None? && Paired(b, rest, Some(r))
      else if Kind(r) == R_LO16 then Completes(p, r) && Paired(b, rest, None)
      else p.None? && Base(b, r) % 4 == 0 && Paired(b, rest, None)
  }

  lemma {:induction false} PairedRight(b: Bases, m: Mem, table: seq<nat>, p: Option)
    requires Mapped(b, m, table) && Paired(b, table, p)
    ensures Complete(table, p)
    ensures forall x | x in Refs(b, m, table, p, AsIs) :: x.kept.AsIs? && (x.ref.Jump? ==> x.ref.base % 4 == 0)
    decreases table
  {
    hide Addr, Base, Kind, Rel, In, Known, JumpRes;
    if table != [] {
      var r, rest := table[0], table[1..];
      assert r in table;
      PairedRight(b, m, rest, if !Acts(r) || Kind(r) == R_32 then p else if Kind(r) == R_HI16 then Some(r) else None);
    }
  }

  /** After a well-paired table of distinct words the reference of every entry has moved by its
      base, the other bits of the instructions are as before, and no other word has changed. */
  lemma Relocated(b: Bases, m: Mem, st: Static, table: seq<nat>)
    requires Mapped(b, m, table) && Distinct(b, table) && Paired(b, table, None) && !st.hiFlag && st.res < W
    ensures var m' := Run(b, m, st, table).0;
            var xs := Refs(b, m, table, None, AsIs);
            && AllWords(xs) == Targets(b, table) && (forall x | x in xs :: Moved(x.ref, m, m'))
            && m'.Keys == m.Keys && (forall a | a in m && a !in Targets(b, table) :: m'[a] == m[a])
  {
    hide Addr, Base, Kind, Rel, In, Known, Moved, Run, Refs, OpcodeKept;
    RelocatedIff(b, m, m, st, table, None, AsIs);
    PairedRight(b, m, table, None);
    CompleteIff(b, m, table, None, AsIs);
  }

  /** And no HI16 is left waiting for the next program. */
  lemma {:induction false} NoneWaits(b: Bases, m: Mem, st: Static, table: seq<nat>, p: Option)
    requires Complete(table, p) && (forall r | r in table && Known(r) :: Addr(b, r) in m)
    requires st.hiFlag == p.Some? && (p.Some? ==> st.prev == p.r && st.prevAddr in m)
    ensures !Run(b, m, st, table).1.hiFlag
    decreases table
  {
    hide Addr, Base, Kind, Rel, In, Known, Step;
    if table != [] {
      var r, rest := table[0], table[1..];
      assert r in table;
      StepFlag(b, m, st, r);
      var (m1, st1) := Step(b, m, st, r);
      NoneWaits(b, m1, st1, rest,
        if Acts(r) && Kind(r) == R_HI16 then Some(r) else if Acts(r) && Kind(r) == R_LO16 then None else p);
    }
  }

  lemma StepFlag(b: Bases, m: Mem, st: Static, r: nat)
    requires (Known(r) ==> Addr(b, r) in m) && (st.hiFlag ==> st.prevAddr in m)
    ensures var (m1, st1) := Step(b, m, st, r);
            && m1.Keys == m.Keys && (st1.hiFlag ==> st1.prevAddr in m1)
            && (Acts(r) && Kind(r) == R_HI16 ==> st1.hiFlag && st1.prev == r)
            && (Acts(r) && Kind(r) == R_LO16 && st.hiFlag && Rel(r) == Rel(st.prev) && In(r) == In(st.prev) ==>
                  !st1.hiFlag)
            && (!(Acts(r) && (Kind(r) == R_HI16 || Kind(r) == R_LO16)) ==>
                  st1.hiFlag == st.hiFlag && st1.prev == st.prev)
  {
    hide Addr, Base, Rel, In, Known, Short, WithLow, WithTarget, JumpRes;
  }

  // ---- tables that go wrong ----

  /** HI16 at 0, a jump at 4, LO16 at 8, loaded at 0: the jump takes the place of the kept value. */
  lemma JumpBetweenFails()
    ensures var b, m := Bases(0, 0, 0), map[0 := 1, 4 := 0, 8 := 0];
            var table := [0x100_0000, 0x300_0004, 0x200_0008];
            var m' := Run(b, m, Static(false, 0, 0, 0), table).0;
            Complete(table, None) && !Moved(Pair(0, 8, 0), m, m')
  {
    hide Run, Moved, Step, Does, Right;
    var b, m := Bases(0, 0, 0), map[0 := 1, 4 := 0, 8 := 0];
    var table := [0x100_0000, 0x300_0004, 0x200_0008];
    ExampleFields(b);
    assert table[1..] == [0x300_0004, 0x200_0008] && table[1..][1..] == [0x200_0008] && table[1..][1..][1..] == [];
    assert forall r | r in table :: Addr(b, r) in m;
    RelocatedIff(b, m, m, Static(false, 0, 0, 0), table, None, AsIs);
    ExampleRefs(b, m, table);
    var x := Found(Pair(0, 8, 0), Over(0));
    assert x in Refs(b, m, table, None, AsIs);
    assert !Right(m, x) by { NotRight(m, x); }
    WrongStays(m, m, Run(b, m, Static(false, 0, 0, 0), table).0, Refs(b, m, table, None, AsIs), x);
  }

  lemma NotRight(m: Mem, x: Found)
    requires m == map[0 := 1, 4 := 0, 8 := 0] && x == Found(Pair(0, 8, 0), Over(0))
    ensures InMem(x.ref, m) && !Right(m, x)
  {}

  lemma WrongStays(m0: Mem, m: Mem, m': Mem, xs: seq<Found>, x: Found)
    requires Does(m0, m, m', xs) && x in xs && InMem(x.ref, m0) && !Right(m0, x)
    ensures !Moved(x.ref, m0, m')
  {}

  lemma ExampleRefs(b: Bases, m: Mem, table: seq<nat>)
    requires b == Bases(0, 0, 0) && m == map[0 := 1, 4 := 0, 8 := 0] && table == [0x100_0000, 0x300_0004, 0x200_0008]
    requires Mapped(b, m, table)
    ensures Refs(b, m, table, None, AsIs) == [Found(Jump(4, 0), AsIs), Found(Pair(0, 8, 0), Over(0))]
  {
    hide Acts, Addr, Base, Kind, Rel, In, Known;
    ExampleFields(b);
    var hi, jump, lo := 0x100_0000, 0x300_0004, 0x200_0008;
    assert table[1..] == [jump, lo] && [jump, lo][1..] == [lo] && [lo][1..] == [];
    assert Refs(b, m, [], None, AsIs) == [];
    assert Refs(b, m, [lo], Some(hi), Over(0)) == [Found(Pair(0, 8, 0), Over(0))];
    assert JumpRes(m[4], 0) == 0;
    assert Refs(b, m, [jump, lo], Some(hi), AsIs) == [Found(Jump(4, 0), AsIs), Found(Pair(0, 8, 0), Over(0))];
  }

  lemma ExampleFields(b: Bases)
    requires b == Bases(0, 0, 0)
    ensures Acts(0x100_0000) && Acts(0x300_0004) && Acts(0x200_0008)
    ensures Kind(0x100_0000) == R_HI16 && Kind(0x300_0004) == R_26 && Kind(0x200_0008) == R_LO16
    ensures Rel(0x200_0008) == Rel(0x100_0000) && In(0x200_0008) == In(0x100_0000)
    ensures Addr(b, 0x100_0000) == 0 && Addr(b, 0x300_0004) == 4 && Addr(b, 0x200_0008) == 8
    ensures Base(b, 0x300_0004) == 0 && Base(b, 0x200_0008) == 0
  {}

  /** A jump to 0 in a text loaded at 2 still goes to 0. */
  lemma OddBaseFails()
    ensures var b, m := Bases(2, 0, 0), map[2 := 0];
            !Moved(Jump(2, 2), m, Run(b, m, Static(false, 0, 0, 0), [0x300_0000]).0)
  {
    var b, m, st, r := Bases(2, 0, 0), map[2 := 0], Static(false, 0, 0, 0), 0x300_0000;
    assert Acts(r) && Kind(r) == R_26 && Addr(b, r) == 2 && Base(b, r) == 2;
    StepJump(b, m, st, r);
    assert [r][1..] == [];
  }

  // ---- in place ----

  class Loader {
    const bases: Bases
    var mem: Mem
    var hiFlag: bool
    var prev: nat
    var prevAddr: nat
    var res: nat

    constructor (bases: Bases, mem: Mem)
      ensures this.bases == bases && this.mem == mem && !hiFlag
    {
      this.bases, this.mem, hiFlag, prev, prevAddr, res := bases, mem, false, 0, 0, 0;
    }

    function Kept(): Static
      reads this
    {
      Static(hiFlag, prev, prevAddr, res)
    }

    /** do_reloc */
    method DoReloc(r: nat)
      requires (Known(r) ==> Addr(bases, r) in mem) && (hiFlag ==> prevAddr in mem)
      modifies this
      ensures (mem, Kept()) == Step(bases, old(mem), old(Kept()), r)
    {
      hide Addr, Kind, Rel, In, Short, Base;
      if !Known(r) {
        return;
      }
      var a, base, kind := Addr(bases, r), Base(bases, r), Kind(r);
      if kind == R_32 {
        mem := mem[a := (mem[a] + base) % W];
      } else if kind == R_HI16 {
        prev, prevAddr, res, hiFlag := r, a, mem[a] % HALF * HALF, true;
      } else if kind == R_LO16 {
        if !hiFlag || Rel(r) != Rel(prev) || In(r) != In(prev) {
          return;
        }
        res := (res + Short(mem[a]) + base) % W;
        mem := mem[prevAddr := WithLow(mem[prevAddr], (res - Short(res)) % W / HALF)];
        mem := mem[a := WithLow(mem[a], res % HALF)];
        hiFlag := false;
      } else if kind == R_26 {
        res := JumpRes(mem[a], base);
        mem := mem[a := WithTarget(mem[a], res / 4 % JUMP)];
      }
    }

    /** The relocation loop of load_flat_binary. */
    method Relocate(table: seq<nat>)
      requires (forall r | r in table && Known(r) :: Addr(bases, r) in mem) && (hiFlag ==> prevAddr in mem)
      modifies this
      ensures (mem, Kept()) == Run(bases, old(mem), old(Kept()), table)
    {
      hide Addr, Known, Step;
      var i := 0;
      assert table[0..] == table;
      while i < |table|
        invariant i <= |table| && (hiFlag ==> prevAddr in mem)
        invariant forall r | r in table[i..] && Known(r) :: Addr(bases, r) in mem
        invariant Run(bases, mem, Kept(), table[i..]) == Run(bases, old(mem), old(Kept()), table)
      {
        assert table[i] in table[i..] && table[i..][1..] == table[i + 1..] && table[i..][0] == table[i];
        StepKeys(bases, mem, Kept(), table[i]);
        DoReloc(table[i]);
        i := i + 1;
      }
    }
  }

  lemma StepKeys(b: Bases, m: Mem, st: Static, r: nat)
    requires (Known(r) ==> Addr(b, r) in m) && (st.hiFlag ==> st.prevAddr in m)
    ensures var (m1, st1) := Step(b, m, st, r); m1.Keys == m.Keys && (st1.hiFlag ==> st1.prevAddr in m1)
  {
    hide Addr, Base, Kind, Rel, In, Known, Short, WithLow, WithTarget, JumpRes;
  }
}