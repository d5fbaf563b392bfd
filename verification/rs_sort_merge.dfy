/**
 * `merge_sort` and `merge` of the naux-rs runtime: split at n / 2, sort
 * both halves, and merge them taking from the left half on ties.
 */
module RsSortMerge {
  import opened RsSortSpec

  /** `merge_sort`. */
  method MergeSort(s: seq<real>) returns (a: seq<real>)
    ensures SortOf(a, s)
    decreases |s|
  {
    var n := |s|;
    if n <= 1 {
      return s;
    }
    var mid := n / 2;
    var left := MergeSort(s[..mid]);
    var right := MergeSort(s[mid..]);
    a := Merge(left, right);
    assert s == s[..mid] + s[mid..];
  }

  /** `merge`: interleave two ascending runs into one. */
  method Merge(l: seq<real>, r: seq<real>) returns (out: seq<real>)
    requires Sorted(l) && Sorted(r)
    ensures Sorted(out) && multiset(out) == multiset(l) + multiset(r)
  {
    var front, i, j := MergeFront(l, r);
    if i < |l| {
      out := CopyRest(front, l, i);
      assert r[..j] == r;
      RestCounts(l, i, front, r, out);
    } else {
      out := CopyRest(front, r, j);
      assert l[..i] == l;
      RestCounts(r, j, front, l, out);
    }
  }

  /** Copying the rest of one run after a front that holds its first k and all of the other run gives both runs' elements. */
  lemma RestCounts(a: seq<real>, k: nat, front: seq<real>, other: seq<real>, out: seq<real>)
    requires k <= |a| && multiset(front) == multiset(a[..k]) + multiset(other) && out == front + a[k..]
    ensures multiset(out) == multiset(a) + multiset(other)
  {
    assert a == a[..k] + a[k..];
  }

  /** The first loop of `merge`: take the smaller head, the left one on ties, until one run is used up. */
  method MergeFront(l: seq<real>, r: seq<real>) returns (out: seq<real>, i: nat, j: nat)
    requires Sorted(l) && Sorted(r)
    ensures i <= |l| && j <= |r| && (i == |l| || j == |r|)
    ensures Sorted(out) && multiset(out) == multiset(l[..i]) + multiset(r[..j])
    ensures forall k :: 0 <= k < |out| && i < |l| ==> out[k] <= l[i]
    ensures forall k :: 0 <= k < |out| && j < |r| ==> out[k] <= r[j]
  {
    i, j := 0, 0;
    out := [];
    while i < |l| && j < |r|
      invariant Front(l, r, i, j, out)
      decreases |l| + |r| - i - j
    {
      i, j, out := Take(l, r, i, j, out);
    }
  }

  /**
   * The first loop so far: out holds the first i of l and the first j of r,
   * ascending, and nothing in it exceeds either remaining head.
   */
  predicate Front(l: seq<real>, r: seq<real>, i: nat, j: nat, out: seq<real>)
  {
    && i <= |l| && j <= |r|
    && multiset(out) == multiset(l[..i]) + multiset(r[..j])
    && Sorted(out)
    && (forall k :: 0 <= k < |out| && i < |l| ==> out[k] <= l[i])
    && (forall k :: 0 <= k < |out| && j < |r| ==> out[k] <= r[j])
  }

  /** One pass of the first loop: the smaller head moves to the output, the left one on ties. */
  method Take(l: seq<real>, r: seq<real>, i: nat, j: nat, out: seq<real>) returns (i': nat, j': nat, out': seq<real>)
    requires Sorted(l) && Sorted(r) && Front(l, r, i, j, out) && i < |l| && j < |r|
    ensures Front(l, r, i', j', out') && i' + j' == i + j + 1
  {
    if l[i] <= r[j] {
      AppendSorted(out, l[i]);
      out' := out + [l[i]];
      assert l[..i + 1] == l[..i] + [l[i]];
      i', j' := i + 1, j;
    } else {
      AppendSorted(out, r[j]);
      out' := out + [r[j]];
      assert r[..j + 1] == r[..j] + [r[j]];
      i', j' := i, j + 1;
    }
  }

  /** The two draining loops of `merge`: copy what is left of one run. */
  method CopyRest(front: seq<real>, src: seq<real>, i: nat) returns (out: seq<real>)
    requires Sorted(front) && Sorted(src) && i <= |src|
    requires forall k :: 0 <= k < |front| && i < |src| ==> front[k] <= src[i]
    ensures Sorted(out) && out == front + src[i..]
  {
    out := front;
    var m := i;
    while m < |src|
      invariant i <= m <= |src| && out == front + src[i..m]
      invariant Sorted(out)
      invariant forall k :: 0 <= k < |out| && m < |src| ==> out[k] <= src[m]
    {
      AppendSorted(out, src[m]);
      out := out + [src[m]];
      assert src[i..m + 1] == src[i..m] + [src[m]];
      m := m + 1;
    }
  }

  /** An element no smaller than everything before it extends an ascending run. */
  lemma AppendSorted(out: seq<real>, x: real)
    requires Sorted(out) && forall k :: 0 <= k < |out| ==> out[k] <= x
    ensures Sorted(out + [x])
  {
  }
}
