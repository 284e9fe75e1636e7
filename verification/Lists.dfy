/** Sequences and numbers, as the other modules use them. */
module Lists {
  function Min(a: int, b: int): int { if a < b then a else b }

  function Max(a: int, b: int): int { if a < b then b else a }

  /** The list without its element at `k`. */
  function Without<T>(s: seq<T>, k: nat): seq<T>
    requires k < |s|
  {
    s[..k] + s[k + 1..]
  }

  ghost predicate Distinct(s: seq<nat>) {
    forall i, j | 0 <= i < j < |s| :: s[i] != s[j]
  }

  /** The list without the first `x`. */
  function Erase(s: seq<nat>, x: nat): seq<nat> {
    if s == [] then [] else if s[0] == x then s[1..] else [s[0]] + Erase(s[1..], x)
  }

  lemma {:induction false} EraseFacts(s: seq<nat>, x: nat)
    requires Distinct(s)
    ensures forall y :: y in Erase(s, x) <==> y in s && y != x
    ensures Distinct(Erase(s, x)) && |Erase(s, x)| == |s| - if x in s then 1 else 0
  {
    if s != [] {
      assert Distinct(s[1..]);
      EraseFacts(s[1..], x);
      assert s == [s[0]] + s[1..];
      assert s[0] !in s[1..];
    }
  }
}
