/** What several components share: optional values, lists of numbers linked by 0-terminated chains, and counting. */
module Basics {

  datatype Option<T> = None | Some(value: T)

  // ---- Sequences that stand for linked lists

  ghost predicate NoDuplicates(s: seq<nat>) {
    forall i, j :: 0 <= i < j < |s| ==> s[i] != s[j]
  }

  /** Element j of a list, or the null link off its ends. */
  function Elem(s: seq<nat>, j: int): nat { if 0 <= j < |s| then s[j] else 0 }

  function Without(s: seq<nat>, k: nat): seq<nat>
    requires k < |s|
  {
    s[..k] + s[k + 1..]
  }

  lemma ElemWithout(s: seq<nat>, k: nat, j: int)
    requires k < |s|
    ensures |Without(s, k)| == |s| - 1
    ensures Elem(Without(s, k), j) == Elem(s, if j < k then j else j + 1)
  {
  }

  lemma WithoutMembers(s: seq<nat>, k: nat)
    requires k < |s| && NoDuplicates(s)
    ensures NoDuplicates(Without(s, k))
    ensures forall p :: p in Without(s, k) <==> p in s && p != s[k]
  {
    assert s == s[..k] + [s[k]] + s[k + 1..];
  }

  // ---- Counting

  lemma SubsetSize<T>(x: set<T>, y: set<T>)
    requires x <= y
    ensures |x| <= |y| && (|x| == |y| ==> x == y)
  {
    assert y == x + (y - x);
  }

  lemma Multiples(q: int, k: int, d: nat)
    ensures q < k ==> q * d + d <= k * d
  {
    if q < k {
      var m: nat := k - q - 1;
      assert (q + 1 + m) * d == q * d + d + m * d;
    }
  }

  // ---- Sums

  /** f(0) + ... + f(n - 1). */
  function SumTo(f: nat -> int, n: nat): int {
    if n == 0 then 0 else SumTo(f, n - 1) + f(n - 1)
  }

  lemma {:induction false} SumNonNegative(f: nat -> int, n: nat)
    requires forall j: nat :: j < n ==> f(j) >= 0
    ensures SumTo(f, n) >= 0
  {
    if n > 0 {
      SumNonNegative(f, n - 1);
    }
  }

  /** If every other term grows by at most c, the sum grows by no more than that, less what term i loses. */
  lemma {:induction false} SumBound(f: nat -> int, g: nat -> int, n: nat, i: nat, c: nat)
    requires forall j: nat :: j < n && j != i ==> g(j) <= f(j) + c
    ensures i < n ==> SumTo(g, n) <= SumTo(f, n) + c * n + g(i) - f(i)
    ensures i >= n ==> SumTo(g, n) <= SumTo(f, n) + c * n
  {
    if n > 0 {
      SumBound(f, g, n - 1, i, c);
      assert c * n == c * (n - 1) + c;
    }
  }

  /** Only term i changes for the worse, or none does. */
  lemma SumUpdate(f: nat -> int, g: nat -> int, n: nat, i: nat)
    requires i < n && forall j: nat :: j < n && j != i ==> g(j) <= f(j)
    ensures SumTo(g, n) <= SumTo(f, n) + g(i) - f(i)
  {
    SumBound(f, g, n, i, 0);
  }

  /** Finitely many numbers have an upper bound. */
  lemma {:induction false} AllBelow(ids: set<nat>) returns (n: nat)
    ensures forall id :: id in ids ==> id < n
    decreases ids
  {
    n := 0;
    if id :| id in ids {
      var m := AllBelow(ids - {id});
      n := if id < m then m else id + 1;
      assert forall j :: j in ids ==> j == id || j in ids - {id};
    }
  }
}
