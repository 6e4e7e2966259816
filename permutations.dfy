/** Facts about duplicate-free sequences used to reason about permutations of the nine tiles. */
module Permutations {

  /** No element of `s` occurs twice. */
  ghost predicate Distinct<T>(s: seq<T>) {
    forall i, j :: 0 <= i < j < |s| ==> s[i] != s[j]
  }

  /** In a duplicate-free sequence every value occurs at most once. */
  lemma {:induction false} DistinctOccursOnce<T>(s: seq<T>)
    requires Distinct(s)
    ensures forall x :: multiset(s)[x] <= 1
  {
    if s != [] {
      assert Distinct(s[1..]);
      DistinctOccursOnce(s[1..]);
      assert s == [s[0]] + s[1..];
      assert s[0] !in s[1..];
    }
  }

  /** A value found at two different positions occurs at least twice. */
  lemma TwoPositions<T>(s: seq<T>, i: int, j: int)
    requires 0 <= i < j < |s|
    ensures s[i] == s[j] ==> multiset(s)[s[i]] >= 2
  {
    assert s == s[..j] + s[j..];
    assert s[i] == s[..j][i];
    assert s[j] == s[j..][0];
  }

  /** A sub-multiset of the same size is the whole multiset. */
  lemma SubMultisetOfSameSize<T>(a: multiset<T>, b: multiset<T>)
    requires a <= b && |a| == |b|
    ensures a == b
  {
    var d := b - a;
    assert b == a + d;
    assert |d| == 0;
  }

  /** Pigeonhole: if every element of the duplicate-free `t` occurs in `s`,
      and `s` is no longer than `t`, then `s` is a duplicate-free
      rearrangement of `t`. */
  lemma Pigeonhole<T>(s: seq<T>, t: seq<T>)
    requires |s| == |t| && Distinct(t)
    requires forall x :: x in t ==> x in s
    ensures multiset(s) == multiset(t)
    ensures Distinct(s)
    ensures forall x :: x in s ==> x in t
  {
    DistinctOccursOnce(t);
    forall x
      ensures multiset(t)[x] <= multiset(s)[x]
    {
      if x in t {
        assert x in s;
      }
    }
    SubMultisetOfSameSize(multiset(t), multiset(s));
    forall i, j | 0 <= i < j < |s|
      ensures s[i] != s[j]
    {
      TwoPositions(s, i, j);
    }
    forall x | x in s
      ensures x in t
    {
      assert x in multiset(s);
    }
  }
}
