/**
 * `heap_sort` and `heapify` of the naux-rs runtime: build a max-heap in
 * place, then repeatedly swap the root behind the heap and sift the new
 * root down.
 */
module RsSortHeap {
  import opened RsSortSpec

  /** Every parent at index i or later in the first n slots is at least its children. */
  predicate HeapFrom(a: seq<real>, n: nat, i: nat)
    requires n <= |a|
  {
    forall p, c :: i <= p < c < n && (c == 2 * p + 1 || c == 2 * p + 2) ==> a[p] >= a[c]
  }

  /** k lies in the subtree rooted at `root` (children of k are 2k + 1 and 2k + 2). */
  predicate InSubtree(k: nat, root: nat)
    decreases k
  {
    k == root || (k > root && InSubtree((k - 1) / 2, root))
  }

  /** The largest of a[i] and its children inside the first n slots: the value heapify puts at i. */
  function Top(a: seq<real>, n: nat, i: nat): (t: real)
    requires i < n <= |a|
    ensures t >= a[i] && (2 * i + 1 < n ==> t >= a[2 * i + 1]) && (2 * i + 2 < n ==> t >= a[2 * i + 2])
    ensures t == a[i] || (2 * i + 1 < n && t == a[2 * i + 1]) || (2 * i + 2 < n && t == a[2 * i + 2])
  {
    var l := if 2 * i + 1 < n && a[2 * i + 1] > a[i] then a[2 * i + 1] else a[i];
    if 2 * i + 2 < n && a[2 * i + 2] > l then a[2 * i + 2] else l
  }

  /**
   * `heapify`: sift a[i] down until the subtree at i is a heap. Only the
   * subtree at i changes, and a[i] ends up as the largest of its old value
   * and its children.
   */
  method Heapify(s: seq<real>, n: nat, i: nat) returns (a: seq<real>)
    requires i < n <= |s| && HeapFrom(s, n, i + 1)
    ensures |a| == |s| && multiset(a) == multiset(s)
    ensures HeapFrom(a, n, i) && a[i] == Top(s, n, i)
    ensures forall k :: 0 <= k < |s| && !InSubtree(k, i) ==> a[k] == s[k]
    ensures forall k :: n <= k < |s| ==> a[k] == s[k]
    decreases n - i
  {
    var largest := i;
    var l := 2 * i + 1;
    var r := 2 * i + 2;
    if l < n && s[l] > s[largest] {
      largest := l;
    }
    if r < n && s[r] > s[largest] {
      largest := r;
    }
    assert s[largest] == Top(s, n, i);
    if largest != i {
      var b := Swap(s, i, largest);
      assert HeapFrom(b, n, largest + 1) by {
        ChildPairsUnchanged(s, b, n, i, largest);
      }
      a := Heapify(b, n, largest);
      SiftStep(s, b, a, n, i, largest);
    } else {
      HeapAtTop(s, n, i);
      a := s;
    }
  }

  /** A node no smaller than its children extends the heap below it by one level. */
  lemma HeapAtTop(s: seq<real>, n: nat, i: nat)
    requires i < n <= |s| && HeapFrom(s, n, i + 1) && s[i] == Top(s, n, i)
    ensures HeapFrom(s, n, i)
  {
  }

  /** Pairs below `largest` are untouched by swapping positions i and largest. */
  lemma ChildPairsUnchanged(s: seq<real>, b: seq<real>, n: nat, i: nat, largest: nat)
    requires i < largest < n <= |s| && |b| == |s| && HeapFrom(s, n, i + 1)
    requires forall k :: 0 <= k < |s| && k != i && k != largest ==> b[k] == s[k]
    ensures HeapFrom(b, n, largest + 1)
  {
    forall p, c | largest + 1 <= p < c < n && (c == 2 * p + 1 || c == 2 * p + 2)
      ensures b[p] >= b[c]
    {
      assert s[p] >= s[c];
    }
  }

  lemma SubtreeAbove(k: nat, root: nat)
    requires InSubtree(k, root)
    ensures k >= root
  {
  }

  lemma NotBelow(k: nat, root: nat)
    requires k < root
    ensures !InSubtree(k, root)
  {
  }

  /** The subtree of a child lies inside the subtree of its parent. */
  lemma {:induction false} SubtreeTrans(k: nat, c: nat, p: nat)
    requires InSubtree(k, c) && c > p && (c - 1) / 2 == p
    ensures InSubtree(k, p)
    decreases k
  {
    if k != c {
      SubtreeTrans((k - 1) / 2, c, p);
    }
  }

  /**
   * After swapping a[i] with its larger child and sifting that child's
   * subtree, the subtree at i is a heap and nothing outside it moved.
   */
  lemma SiftStep(s: seq<real>, b: seq<real>, a: seq<real>, n: nat, i: nat, largest: nat)
    requires i < largest < n <= |s| && HeapFrom(s, n, i + 1)
    requires largest == 2 * i + 1 || largest == 2 * i + 2
    requires s[largest] == Top(s, n, i)
    requires b == Swap(s, i, largest)
    requires |a| == |s| && HeapFrom(a, n, largest) && a[largest] == Top(b, n, largest)
    requires forall k :: 0 <= k < |s| && !InSubtree(k, largest) ==> a[k] == b[k]
    ensures HeapFrom(a, n, i) && a[i] == Top(s, n, i)
    ensures forall k :: 0 <= k < |s| && !InSubtree(k, i) ==> a[k] == s[k]
  {
    SiftFrame(s, b, a, n, i, largest);
    SiftHeap(s, b, a, n, i, largest);
  }

  /** Outside the subtree at i, only the two swapped slots could differ, and they did not move back. */
  lemma SiftFrame(s: seq<real>, b: seq<real>, a: seq<real>, n: nat, i: nat, largest: nat)
    requires i < largest < n <= |s| && HeapFrom(s, n, i + 1)
    requires largest == 2 * i + 1 || largest == 2 * i + 2
    requires s[largest] == Top(s, n, i)
    requires b == Swap(s, i, largest)
    requires |a| == |s| && HeapFrom(a, n, largest) && a[largest] == Top(b, n, largest)
    requires forall k :: 0 <= k < |s| && !InSubtree(k, largest) ==> a[k] == b[k]
    ensures a[i] == s[largest]
    ensures forall k :: 0 <= k < |s| && !InSubtree(k, i) ==> a[k] == s[k]
  {
    if InSubtree(i, largest) {
      SubtreeAbove(i, largest);
    }
    forall k | 0 <= k < |s| && !InSubtree(k, i)
      ensures a[k] == s[k]
    {
      if InSubtree(k, largest) {
        SubtreeTrans(k, largest, i);
      }
      assert k != largest;
    }
  }

  /** The subtree at i is a heap once the larger child has moved up and its own subtree is sifted. */
  lemma SiftHeap(s: seq<real>, b: seq<real>, a: seq<real>, n: nat, i: nat, largest: nat)
    requires i < largest < n <= |s| && HeapFrom(s, n, i + 1)
    requires largest == 2 * i + 1 || largest == 2 * i + 2
    requires s[largest] == Top(s, n, i)
    requires b == Swap(s, i, largest)
    requires |a| == |s| && HeapFrom(a, n, largest) && a[largest] == Top(b, n, largest)
    requires forall k :: 0 <= k < |s| && !InSubtree(k, largest) ==> a[k] == b[k]
    requires a[i] == s[largest]
    ensures HeapFrom(a, n, i)
  {
    var t := Top(b, n, largest);
    assert t <= s[largest] by {
      if 2 * largest + 1 < n {
        assert s[largest] >= s[2 * largest + 1];
      }
      if 2 * largest + 2 < n {
        assert s[largest] >= s[2 * largest + 2];
      }
    }
    forall p, c | i <= p < c < n && (c == 2 * p + 1 || c == 2 * p + 2)
      ensures a[p] >= a[c]
    {
      assert (c - 1) / 2 == p;
      if p < largest {
        NotBelow(p, largest);
        if p != i {
          assert s[p] >= s[c];
        }
      }
    }
  }

  /** In a heap the root is the largest element. */
  lemma {:induction false} RootMax(a: seq<real>, n: nat, k: nat)
    requires n <= |a| && HeapFrom(a, n, 0) && k < n
    ensures a[k] <= a[0]
    decreases k
  {
    if k > 0 {
      var p := (k - 1) / 2;
      assert k == 2 * p + 1 || k == 2 * p + 2;
      assert a[p] >= a[k];
      RootMax(a, n, p);
    }
  }

  /** With nothing at index n / 2 or later having children, the heap condition from there on is empty. */
  lemma LeavesAreHeaps(a: seq<real>, n: nat)
    requires n <= |a|
    ensures HeapFrom(a, n, n / 2)
  {
  }

  /** `heap_sort`. */
  method HeapSort(s: seq<real>) returns (a: seq<real>)
    ensures SortOf(a, s)
  {
    a := s;
    var n := |s|;
    var i := n / 2;
    LeavesAreHeaps(a, n);
    while i > 0
      invariant 0 <= i <= n / 2 && |a| == n
      invariant multiset(a) == multiset(s)
      invariant HeapFrom(a, n, i)
    {
      i := i - 1;
      a := Heapify(a, n, i);
    }
    var e := n;
    while e > 1
      invariant 0 <= e <= n && |a| == n
      invariant multiset(a) == multiset(s)
      invariant HeapFrom(a, e, 0)
      invariant forall p, q :: e <= p < q < n ==> a[p] <= a[q]
      invariant forall p, q :: 0 <= p < e <= q < n ==> a[p] <= a[q]
    {
      e := e - 1;
      a := PopMax(a, e, n);
    }
  }

  /**
   * One round of the second loop of `heap_sort`: the root of the heap in
   * the first e + 1 slots moves to slot e, and the heap shrinks to e slots.
   */
  method PopMax(s: seq<real>, e: nat, n: nat) returns (a: seq<real>)
    requires 0 < e < n == |s| && HeapFrom(s, e + 1, 0)
    requires forall p, q :: e + 1 <= p < q < n ==> s[p] <= s[q]
    requires forall p, q :: 0 <= p < e + 1 <= q < n ==> s[p] <= s[q]
    ensures |a| == n && multiset(a) == multiset(s) && HeapFrom(a, e, 0)
    ensures forall p, q :: e <= p < q < n ==> a[p] <= a[q]
    ensures forall p, q :: 0 <= p < e <= q < n ==> a[p] <= a[q]
  {
    forall k | 0 <= k < e + 1
      ensures s[k] <= s[0]
    {
      RootMax(s, e + 1, k);
    }
    var b := Swap(s, 0, e);
    SwapKeepsLower(s, b, e);
    a := Heapify(b, e, 0);
    PrefixPerm(a, b, e);
    PopMaxOrdered(s, b, a, e, n);
  }

  /** Moving the root to slot e leaves the heap condition below the root among the first e slots. */
  lemma SwapKeepsLower(s: seq<real>, b: seq<real>, e: nat)
    requires 0 < e < |s| && HeapFrom(s, e + 1, 0) && b == Swap(s, 0, e)
    ensures HeapFrom(b, e, 1)
  {
    forall p, c | 1 <= p < c < e && (c == 2 * p + 1 || c == 2 * p + 2)
      ensures b[p] >= b[c]
    {
      assert s[p] >= s[c];
    }
  }

  /** The slots from e on stay sorted and above everything left in the heap. */
  lemma PopMaxOrdered(s: seq<real>, b: seq<real>, a: seq<real>, e: nat, n: nat)
    requires 0 < e < n == |s| == |b| == |a| && b == Swap(s, 0, e)
    requires forall k :: 0 <= k < e + 1 ==> s[k] <= s[0]
    requires forall p, q :: e + 1 <= p < q < n ==> s[p] <= s[q]
    requires forall p, q :: 0 <= p < e + 1 <= q < n ==> s[p] <= s[q]
    requires forall k :: e <= k < n ==> a[k] == b[k]
    requires multiset(a[..e]) == multiset(b[..e])
    ensures forall p, q :: e <= p < q < n ==> a[p] <= a[q]
    ensures forall p, q :: 0 <= p < e <= q < n ==> a[p] <= a[q]
  {
    forall p, q | 0 <= p < e <= q < n
      ensures a[p] <= a[q]
    {
      PermMember(a[..e], b[..e], p);
    }
  }

  /** Heapify over the first e slots permutes just those slots. */
  lemma PrefixPerm(a: seq<real>, b: seq<real>, e: nat)
    requires e <= |a| == |b| && multiset(a) == multiset(b)
    requires forall k :: e <= k < |b| ==> a[k] == b[k]
    ensures multiset(a[..e]) == multiset(b[..e])
  {
    assert a == a[..e] + a[e..] && b == b[..e] + b[e..];
    assert a[e..] == b[e..];
    assert multiset(a[..e]) == multiset(a) - multiset(a[e..]);
    assert multiset(b[..e]) == multiset(b) - multiset(b[e..]);
  }
}
