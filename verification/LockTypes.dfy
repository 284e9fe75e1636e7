/** POSIX byte-range lock records and the pure tests of fs/locks.c. */
module LockTypes {

  /** OFFSET_MAX: the largest loff_t, a signed 64-bit file offset. */
  const OFFSET_MAX: int := 0x7FFF_FFFF_FFFF_FFFF

  datatype Kind = Read | Write | Unlock

  /** A lock owner: the file table and the process id, compared together. */
  datatype Owner = Owner(files: nat, pid: nat)

  /** A struct file_lock. `id` stands for the address of the record. */
  datatype Lock = Lock(id: nat, owner: Owner, kind: Kind, start: int, end: int)

  /** `x + 1` on a 64-bit signed offset: it wraps at OFFSET_MAX. */
  function Succ(x: int): int {
    if x == OFFSET_MAX then -OFFSET_MAX - 1 else x + 1
  }

  predicate Covers(l: Lock, b: int) {
    l.start <= b <= l.end
  }

  /** locks_overlap */
  predicate Overlap(a: Lock, b: Lock) {
    a.end >= b.start && b.end >= a.start
  }

  /** posix_locks_conflict: does the record `sys` block the request `caller`? */
  predicate Conflict(caller: Lock, sys: Lock) {
    && caller.owner != sys.owner
    && Overlap(caller, sys)
    && (match caller.kind
        case Read => sys.kind == Write
        case Write => true
        case Unlock => false)
  }

  /** What flock_to_posix_lock lets through: a non-empty range of valid offsets. */
  predicate ValidRange(l: Lock) {
    0 <= l.start <= l.end <= OFFSET_MAX
  }

  /** A record that may sit on an inode's list. */
  predicate ValidRecord(l: Lock) {
    ValidRange(l) && l.kind != Unlock
  }

  /** `a` lies wholly below `b`, with a gap when both are of one kind. */
  predicate Before(a: Lock, b: Lock) {
    a.end < b.start && (a.kind == b.kind ==> a.end + 1 < b.start)
  }

  ghost predicate AllValid(list: seq<Lock>) {
    forall i | 0 <= i < |list| :: ValidRecord(list[i])
  }

  /** Each owner's records are sorted, disjoint and coalesced. */
  ghost predicate Ordered(list: seq<Lock>) {
    forall i, j | 0 <= i < j < |list| && list[i].owner == list[j].owner :: Before(list[i], list[j])
  }

  /** Each owner's records are contiguous in the list. */
  ghost predicate Grouped(list: seq<Lock>) {
    forall i, j, k | 0 <= i < j < k < |list| && list[i].owner == list[k].owner :: list[j].owner == list[i].owner
  }

  /** The normal form of an inode's list. */
  ghost predicate Normal(list: seq<Lock>) {
    AllValid(list) && Ordered(list) && Grouped(list)
  }

  ghost predicate UniqueIds(list: seq<Lock>) {
    forall i, j | 0 <= i < j < |list| :: list[i].id != list[j].id
  }

  /** Owner `o` holds byte `b` in mode `k`: the simple specification of a list. */
  ghost predicate Holds(list: seq<Lock>, o: Owner, k: Kind, b: int) {
    exists i | 0 <= i < |list| :: list[i].owner == o && list[i].kind == k && Covers(list[i], b)
  }

  /** No byte is write-locked by one owner while another holds any lock on it. */
  ghost predicate Exclusive(list: seq<Lock>) {
    forall o, o', k, b | o != o' && Holds(list, o, Write, b) :: !Holds(list, o', k, b)
  }

  function Insert<T>(s: seq<T>, k: nat, x: T): (r: seq<T>)
    requires k <= |s|
  {
    s[..k] + [x] + s[k..]
  }

  function Remove<T>(s: seq<T>, k: nat): (r: seq<T>)
    requires k < |s|
  {
    s[..k] + s[k + 1..]
  }
}
