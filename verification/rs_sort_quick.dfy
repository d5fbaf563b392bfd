/**
 * `quick_sort` of the naux-rs runtime: Hoare partition around the middle
 * element, with an unsigned right cursor that stops at zero instead of
 * wrapping, then recursion on both sides.
 */
module RsSortQuick {
  import opened RsSortSpec

  /** `quick_sort`. */
  method QuickSort(s: seq<real>) returns (a: seq<real>)
    ensures SortOf(a, s)
    decreases |s|
  {
    if |s| <= 1 {
      return s;
    }
    var pivot := s[|s| / 2];
    var b, left, right := Partition(s);
    var low := QuickSort(b[..right + 1]);
    var high := QuickSort(b[left..]);
    a := low + b[right + 1..left] + high;
    Assemble(b, low, high, left, right, pivot);
  }

  /**
   * The partition loop of `quick_sort`. On return everything before
   * `left` is at most the pivot, everything after `right` at least the
   * pivot, `right < left`, and both sides are shorter than the input.
   */
  method Partition(s: seq<real>) returns (a: seq<real>, left: nat, right: nat)
    requires |s| >= 2
    ensures |a| == |s| && multiset(a) == multiset(s)
    ensures 1 <= left <= |s| && right < left && right <= |s| - 2
    ensures forall k :: 0 <= k < left ==> a[k] <= s[|s| / 2]
    ensures forall k :: right < k < |s| ==> a[k] >= s[|s| / 2]
  {
    var n := |s|;
    var pivot := s[n / 2];
    a := s;
    left, right := 0, n - 1;
    // sL and sR are positions the two scans cannot pass: a[sL] >= pivot and a[sR] <= pivot.
    ghost var sL: nat, sR: nat := n / 2, n / 2;
    while left <= right
      invariant left <= n && right < n && |a| == n
      invariant multiset(a) == multiset(s)
      invariant forall k :: 0 <= k < left ==> a[k] <= pivot
      invariant forall k :: right < k < n ==> a[k] >= pivot
      invariant (left == 0 && right == n - 1 && sL == sR) || (1 <= left && right <= n - 2)
      invariant left <= right ==> left <= sL < n && a[sL] >= pivot && sR <= right && a[sR] <= pivot
      decreases right - left + 1
    {
      left := ScanLeft(a, left, pivot, sL);
      right := ScanRight(a, right, pivot, sR);
      if left <= right {
        SwapKeepsSides(a, left, right, pivot);
        a := Swap(a, left, right);
        sL, sR := right, left;
        left := left + 1;
        if right == 0 {
          break;
        }
        right := right - 1;
      }
    }
  }

  /** The first inner loop: move `left` past elements below the pivot; it cannot pass sL. */
  method ScanLeft(a: seq<real>, from: nat, pivot: real, ghost sL: nat) returns (left: nat)
    requires from <= sL < |a| && a[sL] >= pivot
    requires forall k :: 0 <= k < from ==> a[k] <= pivot
    ensures from <= left <= sL && a[left] >= pivot
    ensures forall k :: 0 <= k < left ==> a[k] <= pivot
  {
    left := from;
    while a[left] < pivot
      invariant from <= left <= sL
      invariant forall k :: 0 <= k < left ==> a[k] <= pivot
      decreases sL - left
    {
      left := left + 1;
    }
  }

  /**
   * The second inner loop: move `right` down past elements above the
   * pivot, stopping at zero rather than wrapping; it cannot pass sR, so
   * the stop at zero never cuts a scan short.
   */
  method ScanRight(a: seq<real>, from: nat, pivot: real, ghost sR: nat) returns (right: nat)
    requires sR <= from < |a| && a[sR] <= pivot
    requires forall k :: from < k < |a| ==> a[k] >= pivot
    ensures sR <= right <= from && a[right] <= pivot
    ensures forall k :: right < k < |a| ==> a[k] >= pivot
  {
    right := from;
    while a[right] > pivot
      invariant sR <= right <= from
      invariant forall k :: right < k < |a| ==> a[k] >= pivot
      decreases right
    {
      if right == 0 {
        break;
      }
      right := right - 1;
    }
  }

  /** Swapping the two stuck elements puts each on its proper side. */
  lemma SwapKeepsSides(a: seq<real>, left: nat, right: nat, pivot: real)
    requires left <= right < |a| && a[left] >= pivot && a[right] <= pivot
    requires forall k :: 0 <= k < left ==> a[k] <= pivot
    requires forall k :: right < k < |a| ==> a[k] >= pivot
    ensures forall k :: 0 <= k <= left ==> Swap(a, left, right)[k] <= pivot
    ensures forall k :: right <= k < |a| ==> Swap(a, left, right)[k] >= pivot
  {
  }

  /** The sorted left part, the run of pivots between the cursors, and the sorted right part form a sorted permutation. */
  lemma Assemble(b: seq<real>, low: seq<real>, high: seq<real>, left: nat, right: nat, pivot: real)
    requires right < left <= |b|
    requires forall k :: 0 <= k < left ==> b[k] <= pivot
    requires forall k :: right < k < |b| ==> b[k] >= pivot
    requires SortOf(low, b[..right + 1]) && SortOf(high, b[left..])
    ensures SortOf(low + b[right + 1..left] + high, b)
  {
    var mid := b[right + 1..left];
    forall k | 0 <= k < |low|
      ensures low[k] <= pivot
    {
      PermMember(low, b[..right + 1], k);
    }
    forall k | 0 <= k < |high|
      ensures high[k] >= pivot
    {
      PermMember(high, b[left..], k);
    }
    assert forall k :: 0 <= k < |mid| ==> mid[k] == pivot;
    assert b == b[..right + 1] + mid + b[left..];
  }
}
