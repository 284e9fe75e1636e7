/** The parent pointers of the dentry cache: is_subdir, and the swap that d_move makes. */
module DentryTree {

  /** The parent of a dentry. A dentry whose parent is itself is a root. */
  function Parent(p: map<nat, nat>, x: nat): nat {
    if x in p then p[x] else x
  }

  /** A root is met within `n` steps up from `x`. */
  predicate RootedIn(p: map<nat, nat>, x: nat, n: nat)
    decreases n
  {
    Parent(p, x) == x || (n > 0 && RootedIn(p, Parent(p, x), n - 1))
  }

  ghost predicate Rooted(p: map<nat, nat>, x: nat) {
    exists n :: RootedIn(p, x, n)
  }

  /** Every dentry has a root above it. */
  ghost predicate Forest(p: map<nat, nat>) {
    forall x :: Rooted(p, x)
  }

  /** Parents are themselves in the cache. */
  predicate Closed(p: map<nat, nat>) {
    forall x {:trigger p[x]} | x in p :: p[x] in p
  }

  /** The dentry `n` steps up from `x`. */
  function Up(p: map<nat, nat>, x: nat, n: nat): (r: nat)
    decreases n
  {
    if n == 0 then x else Up(p, Parent(p, x), n - 1)
  }

  /** `a` is `x` or an ancestor of it. */
  ghost predicate Ancestor(p: map<nat, nat>, a: nat, x: nat) {
    exists n :: Up(p, x, n) == a
  }

  lemma {:induction false} UpRoot(p: map<nat, nat>, x: nat, n: nat)
    requires Parent(p, x) == x
    ensures Up(p, x, n) == x
    decreases n
  {
    if n > 0 {
      UpRoot(p, x, n - 1);
    }
  }

  lemma {:induction false} UpSplit(p: map<nat, nat>, x: nat, n: nat, m: nat)
    ensures Up(p, x, n + m) == Up(p, Up(p, x, n), m)
    decreases n
  {
    if n > 0 {
      UpSplit(p, Parent(p, x), n - 1, m);
    }
  }

  /** is_subdir. The walk up ends because every dentry has a root above it. */
  method IsSubdir(p: map<nat, nat>, newDentry: nat, oldDentry: nat) returns (result: bool)
    requires Forest(p)
    ensures result <==> Ancestor(p, oldDentry, newDentry)
  {
    var x := newDentry;
    assert Rooted(p, x);
    ghost var n: nat :| RootedIn(p, x, n);
    ghost var steps: nat := 0;
    while x != oldDentry
      invariant RootedIn(p, x, n) && x == Up(p, newDentry, steps)
      invariant forall k: nat | k < steps :: Up(p, newDentry, k) != oldDentry
      decreases n
    {
      var parent := Parent(p, x);
      if parent == x {
        forall k: nat
          ensures Up(p, newDentry, k) != oldDentry
        {
          if k >= steps {
            UpSplit(p, newDentry, steps, k - steps);
            UpRoot(p, x, k - steps);
          }
        }
        return false;
      }
      UpSplit(p, newDentry, steps, 1);
      x := parent;
      n, steps := n - 1, steps + 1;
    }
    return true;
  }

  /** Up from a dentry that is not a root one never comes back to it. */
  lemma NoWayBack(p: map<nat, nat>, x: nat, n: nat)
    requires Forest(p) && Parent(p, x) != x
    ensures Up(p, Parent(p, x), n) != x
  {
    if Up(p, Parent(p, x), n) == x {
      assert Rooted(p, x);
      var m: nat :| RootedIn(p, x, m);
      NeverRooted(p, x, n, x, 0, m);
    }
  }

  /** On a cycle through `d` there is no root. */
  lemma {:induction false} NeverRooted(p: map<nat, nat>, d: nat, k: nat, x: nat, j: nat, n: nat)
    requires Parent(p, d) != d && Up(p, Parent(p, d), k) == d && Up(p, x, j) == d
    ensures !RootedIn(p, x, n)
    decreases n
  {
    if Parent(p, x) == x {
      UpRoot(p, x, j);
    } else if n > 0 {
      NeverRooted(p, d, k, Parent(p, x), if j == 0 then k else j - 1, n - 1);
    }
  }

  // ---- d_move ----

  function Swapped(p: map<nat, nat>, d: nat, t: nat): map<nat, nat>
    requires d in p && t in p
  {
    p[d := p[t]][t := p[d]]
  }

  ghost predicate SameRoots(p: map<nat, nat>, q: map<nat, nat>) {
    p.Keys == q.Keys && forall x | x in p :: p[x] == x <==> q[x] == x
  }

  /** A chain that meets neither `d` nor `t` is the same after the swap. */
  lemma {:induction false} ChainKept(p: map<nat, nat>, q: map<nat, nat>, d: nat, t: nat, x: nat, n: nat)
    requires forall y | y != d && y != t :: Parent(q, y) == Parent(p, y)
    requires RootedIn(p, x, n) && forall k: nat :: Up(p, x, k) != d && Up(p, x, k) != t
    ensures RootedIn(q, x, n)
    decreases n
  {
    assert Up(p, x, 0) == x;
    if Parent(p, x) != x {
      forall k: nat
        ensures Up(p, Parent(p, x), k) != d && Up(p, Parent(p, x), k) != t
      {
        assert Up(p, x, k + 1) == Up(p, Parent(p, x), k);
      }
      ChainKept(p, q, d, t, Parent(p, x), n - 1);
    }
  }

  /** After the swap the moved dentry has a root above it. */
  lemma MovedRooted(p: map<nat, nat>, d: nat, t: nat)
    requires Forest(p) && d in p && t in p && p[d] != d && p[t] != t
    requires !Ancestor(p, d, t)
    ensures Rooted(Swapped(p, d, t), d)
  {
    var q := Swapped(p, d, t);
    assert Rooted(p, p[t]);
    var n: nat :| RootedIn(p, p[t], n);
    forall k: nat
      ensures Up(p, p[t], k) != d && Up(p, p[t], k) != t
    {
      assert Up(p, t, k + 1) == Up(p, p[t], k);
      NoWayBack(p, t, k);
    }
    assert d != t by {
      assert Up(p, t, 0) == t;
    }
    ChainKept(p, q, d, t, p[t], n);
    assert RootedIn(q, d, n + 1);
  }

  lemma {:induction false} OthersRooted(p: map<nat, nat>, q: map<nat, nat>, d: nat, t: nat, x: nat, n: nat)
    requires forall y | y != d && y != t :: Parent(q, y) == Parent(p, y)
    requires RootedIn(p, x, n) && Rooted(q, d) && Rooted(q, t)
    ensures Rooted(q, x)
    decreases n
  {
    if x != d && x != t {
      if Parent(p, x) == x {
        assert RootedIn(q, x, 0);
      } else {
        OthersRooted(p, q, d, t, Parent(p, x), n - 1);
        var m: nat :| RootedIn(q, Parent(q, x), m);
        assert RootedIn(q, x, m + 1);
      }
    }
  }

  lemma SwapSymmetric(p: map<nat, nat>, d: nat, t: nat)
    requires d in p && t in p
    ensures Swapped(p, d, t) == Swapped(p, t, d)
  {
  }

  lemma SwapKeepsForest(p: map<nat, nat>, d: nat, t: nat)
    requires Forest(p) && d in p && t in p && p[d] != d && p[t] != t
    requires !Ancestor(p, d, t) && !Ancestor(p, t, d)
    ensures Forest(Swapped(p, d, t)) && SameRoots(p, Swapped(p, d, t))
  {
    var q := Swapped(p, d, t);
    MovedRooted(p, d, t);
    MovedRooted(p, t, d);
    SwapSymmetric(p, d, t);
    forall x
      ensures Rooted(q, x)
    {
      assert Rooted(p, x);
      var n: nat :| RootedIn(p, x, n);
      OthersRooted(p, q, d, t, x, n);
    }
    assert p[t] != d by {
      assert Up(p, t, 1) == p[t];
    }
    assert p[d] != t by {
      assert Up(p, d, 1) == p[d];
    }
  }

  /** The path between two dentries stays in place when the lower one is cut off above. */
  lemma {:induction false} PathKept(p: map<nat, nat>, q: map<nat, nat>, d: nat, t: nat, x: nat, n: nat)
    requires forall y | y != d && y != t :: Parent(q, y) == Parent(p, y)
    requires Up(p, x, n) == d && (forall k: nat | k < n :: Up(p, x, k) != d) && forall k: nat :: Up(p, x, k) != t
    ensures Up(q, x, n) == d
    decreases n
  {
    if n > 0 {
      assert Up(p, x, 0) == x;
      forall k: nat
        ensures Up(p, Parent(p, x), k) != t && (k < n - 1 ==> Up(p, Parent(p, x), k) != d)
      {
        assert Up(p, x, k + 1) == Up(p, Parent(p, x), k);
      }
      PathKept(p, q, d, t, Parent(p, x), n - 1);
    }
  }

  lemma {:induction false} FirstMeeting(p: map<nat, nat>, x: nat, a: nat, n: nat) returns (m: nat)
    requires Up(p, x, n) == a
    ensures m <= n && Up(p, x, m) == a && forall k: nat | k < m :: Up(p, x, k) != a
    decreases n
  {
    if x == a {
      m := 0;
    } else {
      m := FirstMeeting(p, Parent(p, x), a, n - 1);
      m := m + 1;
      forall k: nat | k < m
        ensures Up(p, x, k) != a
      {
        if k > 0 {
          assert Up(p, x, k) == Up(p, Parent(p, x), k - 1);
        }
      }
    }
  }

  /** Moving a dentry below itself makes a cycle or a new root. */
  lemma SwapBelowBreaks(p: map<nat, nat>, d: nat, t: nat)
    requires Forest(p) && d in p && t in p && d != t && p[d] != d && p[t] != t && Ancestor(p, d, t)
    ensures !(Forest(Swapped(p, d, t)) && SameRoots(p, Swapped(p, d, t)))
  {
    var q := Swapped(p, d, t);
    if p[t] == d {
      assert q[d] == d;
    } else {
      var n: nat :| Up(p, t, n) == d;
      assert n > 0 by {
        assert Up(p, t, 0) == t;
      }
      var m := FirstMeeting(p, p[t], d, n - 1);
      forall k: nat
        ensures Up(p, p[t], k) != t
      {
        NoWayBack(p, t, k);
      }
      PathKept(p, q, d, t, p[t], m);
      if Forest(q) {
        assert Rooted(q, d);
        var r: nat :| RootedIn(q, d, r);
        NeverRooted(q, d, m, d, 0, r);
      }
    }
  }

  /** d_move keeps the parent pointers a forest with the same roots if and only if neither
      dentry is an ancestor of the other. */
  lemma SwapIff(p: map<nat, nat>, d: nat, t: nat)
    requires Forest(p) && d in p && t in p && d != t && p[d] != d && p[t] != t
    ensures Forest(Swapped(p, d, t)) && SameRoots(p, Swapped(p, d, t)) <==> !Ancestor(p, d, t) && !Ancestor(p, t, d)
  {
    if Ancestor(p, d, t) {
      SwapBelowBreaks(p, d, t);
    } else if Ancestor(p, t, d) {
      SwapSymmetric(p, d, t);
      SwapBelowBreaks(p, t, d);
    } else {
      SwapKeepsForest(p, d, t);
    }
  }

  /** A target with nothing below it is nobody's ancestor. */
  lemma ChildlessNotAncestor(p: map<nat, nat>, t: nat, d: nat)
    requires d != t && forall c | c in p && c != t :: p[c] != t
    ensures !Ancestor(p, t, d)
  {
    forall n: nat
      ensures Up(p, d, n) != t
    {
      ChildlessUp(p, t, d, n);
    }
  }

  lemma {:induction false} ChildlessUp(p: map<nat, nat>, t: nat, d: nat, n: nat)
    requires d != t && forall c | c in p && c != t :: p[c] != t
    ensures Up(p, d, n) != t
    decreases n
  {
    if n > 0 {
      ChildlessUp(p, t, Parent(p, d), n - 1);
    }
  }

  lemma SwapClosed(p: map<nat, nat>, d: nat, t: nat)
    requires Closed(p) && d in p && t in p
    ensures Closed(Swapped(p, d, t))
  {
  }

  /** vfs_rename_dir: the check and the move. `busy` stands for every other reason to fail,
      from the zombie locks to the file system's own rename, which refuses a target that is
      not empty. */
  method RenameDir(p: map<nat, nat>, oldDentry: nat, newDentry: nat, busy: bool) returns (q: map<nat, nat>, ok: bool)
    requires Forest(p) && Closed(p) && oldDentry in p && newDentry in p && oldDentry != newDentry
    requires p[oldDentry] != oldDentry && p[newDentry] != newDentry
    requires !busy ==> !Ancestor(p, newDentry, oldDentry)
    ensures Forest(q) && Closed(q) && SameRoots(p, q)
    ensures ok <==> !busy && !Ancestor(p, oldDentry, newDentry)
    ensures q == if ok then Swapped(p, oldDentry, newDentry) else p
  {
    hide Forest, Closed, Ancestor;
    var below := IsSubdir(p, newDentry, oldDentry);
    if below || busy {
      return p, false;
    }
    SwapIff(p, oldDentry, newDentry);
    SwapClosed(p, oldDentry, newDentry);
    q, ok := p[oldDentry := p[newDentry]][newDentry := p[oldDentry]], true;
  }
}
