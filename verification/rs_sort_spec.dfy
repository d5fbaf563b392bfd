/**
 * What every sort of the naux-rs runtime promises: its output is
 * ascending and a permutation of its input. Numbers are modelled as
 * reals (no NaN, no infinities), so a sorted permutation is unique and
 * all the algorithms agree.
 */
module RsSortSpec {

  predicate Sorted(s: seq<real>)
  {
    forall i, j :: 0 <= i < j < |s| ==> s[i] <= s[j]
  }

  /** A sorted permutation of `s`: the contract every sort below meets. */
  predicate SortOf(r: seq<real>, s: seq<real>)
  {
    Sorted(r) && multiset(r) == multiset(s)
  }

  /** `slice::swap`. */
  function Swap(s: seq<real>, i: nat, j: nat): (r: seq<real>)
    requires i < |s| && j < |s|
    ensures |r| == |s| && r[i] == s[j] && r[j] == s[i]
    ensures forall k :: 0 <= k < |s| && k != i && k != j ==> r[k] == s[k]
    ensures multiset(r) == multiset(s)
  {
    s[i := s[j]][j := s[i]]
  }

  /** Every element of a permutation of `s` is an element of `s`. */
  lemma PermMember(r: seq<real>, s: seq<real>, k: nat)
    requires multiset(r) == multiset(s) && k < |r|
    ensures exists m :: 0 <= m < |s| && s[m] == r[k]
  {
    assert r[k] in multiset(r);
    assert r[k] in s;
  }

  /** A bound on every element carries over to any permutation. */
  lemma PermBounds(r: seq<real>, s: seq<real>, lo: real, hi: real)
    requires multiset(r) == multiset(s)
    requires forall k :: 0 <= k < |s| ==> lo <= s[k] <= hi
    ensures forall k :: 0 <= k < |r| ==> lo <= r[k] <= hi
  {
    forall k | 0 <= k < |r|
      ensures lo <= r[k] <= hi
    {
      PermMember(r, s, k);
    }
  }

  /** There is only one ascending arrangement of a multiset of numbers. */
  lemma {:induction false} SortedPermUnique(a: seq<real>, b: seq<real>)
    requires SortOf(a, b) && Sorted(b)
    ensures a == b
    decreases |a|
  {
    assert |a| == |multiset(a)| == |multiset(b)| == |b|;
    if |a| > 0 {
      HeadsEqual(a, b);
      TailMultiset(a);
      TailMultiset(b);
      SortedTail(a);
      SortedTail(b);
      SortedPermUnique(a[1..], b[1..]);
      assert a == [a[0]] + a[1..] && b == [b[0]] + b[1..];
    }
  }

  /** Both arrangements start with the least element. */
  lemma HeadsEqual(a: seq<real>, b: seq<real>)
    requires SortOf(a, b) && Sorted(b) && |a| > 0 && |b| > 0
    ensures a[0] == b[0]
  {
    PermMember(a, b, 0);
    PermMember(b, a, 0);
  }

  lemma SortedTail(a: seq<real>)
    requires Sorted(a) && |a| > 0
    ensures Sorted(a[1..])
  {
  }

  lemma TailMultiset(a: seq<real>)
    requires |a| > 0
    ensures multiset(a[1..]) == multiset(a) - multiset{a[0]}
  {
    assert a == [a[0]] + a[1..];
  }

  /** Any two sorts of the same input give the same output. */
  lemma AlgorithmsAgree(a: seq<real>, b: seq<real>, s: seq<real>)
    requires SortOf(a, s) && SortOf(b, s)
    ensures a == b
  {
    SortedPermUnique(a, b);
  }

  /** The library test: sorting [5, 3, 1, 4, 2] with any algorithm gives [1, 2, 3, 4, 5]. */
  lemma SortExample(r: seq<real>)
    requires SortOf(r, [5.0, 3.0, 1.0, 4.0, 2.0])
    ensures r == [1.0, 2.0, 3.0, 4.0, 5.0]
  {
    assert multiset([1.0, 2.0, 3.0, 4.0, 5.0]) == multiset([5.0, 3.0, 1.0, 4.0, 2.0]);
    SortedPermUnique(r, [1.0, 2.0, 3.0, 4.0, 5.0]);
  }
}
