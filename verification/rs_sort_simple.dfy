/**
 * The three quadratic sorts of the naux-rs runtime (bubble, selection,
 * insertion), written as the source writes them, on a sequence value
 * instead of a mutable slice.
 */
module RsSortSimple {
  import opened RsSortSpec

  /** `bubble_sort`: pass i bubbles the largest of the first n - i elements to position n - i - 1. */
  method BubbleSort(s: seq<real>) returns (a: seq<real>)
    ensures SortOf(a, s)
  {
    a := s;
    var n := |s|;
    var i := 0;
    while i < n
      invariant 0 <= i <= n && |a| == n
      invariant multiset(a) == multiset(s)
      invariant forall p, q :: n - i <= p < q < n ==> a[p] <= a[q]
      invariant forall p, q :: 0 <= p < n - i <= q < n ==> a[p] <= a[q]
    {
      a := BubblePass(a, n - i);
      i := i + 1;
    }
  }

  /**
   * One pass of the outer loop over the first k slots: afterwards slot k - 1
   * holds their largest value, so the sorted tail grows by one.
   */
  method BubblePass(a0: seq<real>, k: nat) returns (a: seq<real>)
    requires 0 < k <= |a0|
    requires forall p, q :: k <= p < q < |a0| ==> a0[p] <= a0[q]
    requires forall p, q :: 0 <= p < k <= q < |a0| ==> a0[p] <= a0[q]
    ensures |a| == |a0| && multiset(a) == multiset(a0)
    ensures forall p, q :: k - 1 <= p < q < |a| ==> a[p] <= a[q]
    ensures forall p, q :: 0 <= p < k - 1 <= q < |a| ==> a[p] <= a[q]
  {
    a := a0;
    var j := 0;
    while j < k - 1
      invariant 0 <= j <= k - 1 && |a| == |a0|
      invariant multiset(a) == multiset(a0)
      invariant forall p, q :: k <= p < q < |a| ==> a[p] <= a[q]
      invariant forall p, q :: 0 <= p < k <= q < |a| ==> a[p] <= a[q]
      invariant forall p :: 0 <= p < j ==> a[p] <= a[j]
    {
      if a[j] > a[j + 1] {
        a := Swap(a, j, j + 1);
      }
      j := j + 1;
    }
  }

  /** `selection_sort`: position i receives the first minimum of the unsorted rest. */
  method SelectionSort(s: seq<real>) returns (a: seq<real>)
    ensures SortOf(a, s)
  {
    a := s;
    var n := |s|;
    var i := 0;
    while i < n
      invariant 0 <= i <= n && |a| == n
      invariant multiset(a) == multiset(s)
      invariant forall p, q :: 0 <= p < q < i ==> a[p] <= a[q]
      invariant forall p, q :: 0 <= p < i <= q < n ==> a[p] <= a[q]
    {
      var m := i;
      var j := i + 1;
      while j < n
        invariant i <= m < n && i + 1 <= j <= n
        invariant forall k :: i <= k < j ==> a[m] <= a[k]
      {
        if a[j] < a[m] {
          m := j;
        }
        j := j + 1;
      }
      a := Swap(a, i, m);
      i := i + 1;
    }
  }

  /**
   * `insertion_sort`: each element in turn is inserted into the ascending
   * prefix before it.
   */
  method InsertionSort(s: seq<real>) returns (a: seq<real>)
    ensures SortOf(a, s)
  {
    a := s;
    var n := |s|;
    var i := 1;
    while i < n
      invariant 1 <= i && (n == 0 || i <= n) && |a| == n
      invariant multiset(a) == multiset(s)
      invariant forall p, q :: 0 <= p < q < i && q < n ==> a[p] <= a[q]
    {
      a := Insert(a, i);
      i := i + 1;
    }
  }

  /**
   * One pass of `insertion_sort`: the key a[i] is lifted out and larger
   * elements shift one place right until its slot is found. While
   * shifting, position j + 1 is a hole: with the key written into it the
   * sequence is a permutation of the input, and without it the first
   * i + 1 elements are ascending.
   */
  method Insert(s: seq<real>, i: nat) returns (a: seq<real>)
    requires i < |s|
    requires forall p, q :: 0 <= p < q < i ==> s[p] <= s[q]
    ensures |a| == |s| && multiset(a) == multiset(s)
    ensures forall p, q :: 0 <= p < q <= i ==> a[p] <= a[q]
  {
    a := s;
    var key := a[i];
    var j := i - 1;
    assert a[j + 1 := key] == a;
    while j >= 0 && a[j] > key
      invariant -1 <= j < i && |a| == |s|
      invariant multiset(a[j + 1 := key]) == multiset(s)
      invariant forall p, q :: 0 <= p < q <= i && p != j + 1 && q != j + 1 ==> a[p] <= a[q]
      invariant forall k :: j + 1 < k <= i ==> a[k] > key
    {
      ShiftRight(a, a[j + 1 := a[j]], i, j, key);
      a := a[j + 1 := a[j]];
      j := j - 1;
    }
    PlaceKey(a, a[j + 1 := key], i, j, key);
    a := a[j + 1 := key];
  }

  /** Moving a[j] into the hole at j + 1 moves the hole to j and keeps both views of the sequence intact. */
  lemma ShiftRight(a: seq<real>, b: seq<real>, i: nat, j: nat, key: real)
    requires j < i < |a| && b == a[j + 1 := a[j]] && a[j] > key
    requires forall p, q :: 0 <= p < q <= i && p != j + 1 && q != j + 1 ==> a[p] <= a[q]
    requires forall k :: j + 1 < k <= i ==> a[k] > key
    ensures multiset(b[j := key]) == multiset(a[j + 1 := key])
    ensures forall p, q :: 0 <= p < q <= i && p != j && q != j ==> b[p] <= b[q]
    ensures forall k :: j < k <= i ==> b[k] > key
  {
    assert b[j := key] == Swap(a[j + 1 := key], j, j + 1);
  }

  /** Writing the key into the hole keeps the prefix ascending once the element before the hole is no larger. */
  lemma PlaceKey(a: seq<real>, b: seq<real>, i: nat, j: int, key: real)
    requires -1 <= j < i < |a| && b == a[j + 1 := key]
    requires forall p, q :: 0 <= p < q <= i && p != j + 1 && q != j + 1 ==> a[p] <= a[q]
    requires forall k :: j + 1 < k <= i ==> a[k] > key
    requires j >= 0 ==> a[j] <= key
    ensures forall p, q :: 0 <= p < q <= i ==> b[p] <= b[q]
  {
  }
}
