/**
 * The sequence algorithms of stdlib/algo.rs: lower and upper bound by
 * binary search, the length of the longest strictly increasing
 * subsequence by patience sorting, and the 0/1 knapsack by dynamic
 * programming. Lists arrive as flat script values and are turned into
 * number sequences first.
 */
module StdAlgo {
  import opened Wrappers
  import SV = ScriptValue
  import M = StdMath

  /** `to_num_list`: a list all of whose items are numbers, as the numbers. */
  function ToNumList(v: SV.Value): (r: Result<seq<real>, string>)
    ensures r.Ok? <==> v.List? && forall i :: 0 <= i < |v.items| ==> v.items[i].Number?
    ensures r.Ok? ==> |r.value| == |v.items| && forall i :: 0 <= i < |r.value| ==> v.items[i] == SV.Number(r.value[i])
    ensures !v.List? ==> r == Err("expected list")
    ensures v.List? && r.Err? ==> r == Err("expected list of numbers")
  {
    match v
    case List(items) =>
      if forall i :: 0 <= i < |items| ==> items[i].Number? then
        Ok(seq(|items|, i requires 0 <= i < |items| => items[i].n))
      else Err("expected list of numbers")
    case _ => Err("expected list")
  }

  ghost predicate Sorted(a: seq<real>)
  {
    forall i, j :: 0 <= i < j < |a| ==> a[i] <= a[j]
  }

  ghost predicate StrictlyIncreasing(a: seq<real>)
  {
    forall i, j :: 0 <= i < j < |a| ==> a[i] < a[j]
  }

  // ---------------------------------------------------------------------
  // lower_bound / upper_bound

  /** `p` splits `a` into the elements below `x` and those at least `x`. */
  ghost predicate LowerSplit(a: seq<real>, x: real, p: int)
  {
    0 <= p <= |a| && (forall i :: 0 <= i < p ==> a[i] < x) && (forall i :: p <= i < |a| ==> a[i] >= x)
  }

  /** `p` splits `a` into the elements at most `x` and those above `x`. */
  ghost predicate UpperSplit(a: seq<real>, x: real, p: int)
  {
    0 <= p <= |a| && (forall i :: 0 <= i < p ==> a[i] <= x) && (forall i :: p <= i < |a| ==> a[i] > x)
  }

  /** The `lower_bound` loop on `[l, r)`: move `l` past a middle below `x`, else pull `r` to it. */
  function LowerSearch(a: seq<real>, x: real, l: int, r: int): (p: int)
    requires 0 <= l <= r <= |a|
    ensures l <= p <= r
    ensures Sorted(a) && (forall i :: 0 <= i < l ==> a[i] < x) && (forall i :: r <= i < |a| ==> a[i] >= x)
      ==> LowerSplit(a, x, p)
    decreases r - l
  {
    if l < r then
      var m := (l + r) / 2;
      if a[m] < x then LowerSearch(a, x, m + 1, r) else LowerSearch(a, x, l, m)
    else l
  }

  /** The `upper_bound` loop on `[l, r)`: pull `r` to a middle above `x`, else move `l` past it. */
  function UpperSearch(a: seq<real>, x: real, l: int, r: int): (p: int)
    requires 0 <= l <= r <= |a|
    ensures l <= p <= r
    ensures Sorted(a) && (forall i :: 0 <= i < l ==> a[i] <= x) && (forall i :: r <= i < |a| ==> a[i] > x)
      ==> UpperSplit(a, x, p)
    decreases r - l
  {
    if l < r then
      var m := (l + r) / 2;
      if a[m] > x then UpperSearch(a, x, l, m) else UpperSearch(a, x, m + 1, r)
    else l
  }

  function LowerBound(a: seq<real>, x: real): (p: int)
    ensures 0 <= p <= |a|
    ensures Sorted(a) ==> LowerSplit(a, x, p)
  {
    LowerSearch(a, x, 0, |a|)
  }

  function UpperBound(a: seq<real>, x: real): (p: int)
    ensures 0 <= p <= |a|
    ensures Sorted(a) ==> UpperSplit(a, x, p)
  {
    UpperSearch(a, x, 0, |a|)
  }

  /** Where an element falls relative to each split point. */
  lemma SplitAt(a: seq<real>, x: real, p: int, k: int)
    requires 0 <= k < |a|
    ensures LowerSplit(a, x, p) ==> (a[k] < x <==> k < p)
    ensures UpperSplit(a, x, p) ==> (a[k] <= x <==> k < p)
  {
  }

  /** Each split point is unique. */
  lemma SplitUnique(a: seq<real>, x: real, p: int, q: int)
    ensures LowerSplit(a, x, p) && LowerSplit(a, x, q) ==> p == q
    ensures UpperSplit(a, x, p) && UpperSplit(a, x, q) ==> p == q
  {
    if 0 <= p < q <= |a| {
      SplitAt(a, x, p, p);
      SplitAt(a, x, q, p);
    } else if 0 <= q < p <= |a| {
      SplitAt(a, x, p, q);
      SplitAt(a, x, q, q);
    }
  }

  /**
   * On a sorted list the lower bound never exceeds the upper bound, and
   * the elements between them are exactly the copies of `x`.
   */
  lemma BoundsBracketEqual(a: seq<real>, x: real)
    requires Sorted(a)
    ensures LowerBound(a, x) <= UpperBound(a, x)
    ensures forall i :: 0 <= i < |a| ==> (a[i] == x <==> LowerBound(a, x) <= i < UpperBound(a, x))
  {
    var lo, hi := LowerBound(a, x), UpperBound(a, x);
    if hi < lo {
      SplitAt(a, x, lo, hi);
      SplitAt(a, x, hi, hi);
      assert false;
    }
  }

  /** `lower_bound([1, 2, 4, 4, 5], 4)` is 2 and `upper_bound` of the same is 4. */
  lemma BoundsExample()
    ensures LowerBound([1.0, 2.0, 4.0, 4.0, 5.0], 4.0) == 2
    ensures UpperBound([1.0, 2.0, 4.0, 4.0, 5.0], 4.0) == 4
  {
    var a := [1.0, 2.0, 4.0, 4.0, 5.0];
    assert Sorted(a);
    SplitUnique(a, 4.0, LowerBound(a, 4.0), 2);
    SplitUnique(a, 4.0, UpperBound(a, 4.0), 4);
  }

  /** The shared shape of the `lower_bound` and `upper_bound` builtins. */
  function BoundBuiltin(args: seq<SV.Value>, usage: string, upper: bool): (r: Result<SV.Value, string>)
    ensures |args| != 2 ==> r == Err(usage)
    ensures |args| == 2 && ToNumList(args[0]).Err? ==> r == Err(ToNumList(args[0]).error)
    ensures |args| == 2 && ToNumList(args[0]).Ok? && !args[1].Number? ==> r == Err("x must be number")
    ensures |args| == 2 && ToNumList(args[0]).Ok? && args[1].Number? ==>
      var a := ToNumList(args[0]).value;
      var p := if upper then UpperBound(a, args[1].n) else LowerBound(a, args[1].n);
      && r == Ok(SV.Number(p as real))
      && (Sorted(a) && !upper ==> LowerSplit(a, args[1].n, p))
      && (Sorted(a) && upper ==> UpperSplit(a, args[1].n, p))
  {
    if |args| != 2 then Err(usage)
    else
      match ToNumList(args[0])
      case Err(e) => Err(e)
      case Ok(a) =>
        if !args[1].Number? then Err("x must be number")
        else
          var p := if upper then UpperBound(a, args[1].n) else LowerBound(a, args[1].n);
          Ok(SV.Number(p as real))
  }

  function LowerBoundBuiltin(args: seq<SV.Value>): (r: Result<SV.Value, string>)
  {
    BoundBuiltin(args, "lower_bound(list, x)", false)
  }

  function UpperBoundBuiltin(args: seq<SV.Value>): (r: Result<SV.Value, string>)
  {
    BoundBuiltin(args, "upper_bound(list, x)", true)
  }

  // ---------------------------------------------------------------------
  // lis_length

  /** `idx` picks a strictly increasing subsequence of `a`: ascending indices, ascending values. */
  ghost predicate IncSub(a: seq<real>, idx: seq<int>)
  {
    && (forall k :: 0 <= k < |idx| ==> 0 <= idx[k] < |a|)
    && (forall k :: 0 < k < |idx| ==> idx[k - 1] < idx[k] && a[idx[k - 1]] < a[idx[k]])
  }

  /** `w[k]` is an increasing subsequence of `a[..n]` of length `k + 1` ending in `tails[k]`. */
  ghost predicate Witnessed(a: seq<real>, n: int, tails: seq<real>, w: seq<seq<int>>)
  {
    && |w| == |tails|
    && forall k :: 0 <= k < |w| ==>
         IncSub(a, w[k]) && |w[k]| == k + 1 && w[k][k] < n && a[w[k][k]] == tails[k]
  }

  /** Every increasing subsequence of `a[..n]` is no longer than `tails` and ends no lower than the entry for its length. */
  ghost predicate Covered(a: seq<real>, n: int, tails: seq<real>)
  {
    forall idx :: IncSub(a, idx) && 0 < |idx| && idx[|idx| - 1] < n ==>
      |idx| <= |tails| && a[idx[|idx| - 1]] >= tails[|idx| - 1]
  }

  /** What `tails` knows after the prefix `a[..n]`. */
  ghost predicate TailsInv(a: seq<real>, n: int, tails: seq<real>, w: seq<seq<int>>)
  {
    && 0 <= n <= |a|
    && StrictlyIncreasing(tails)
    && Witnessed(a, n, tails, w)
    && Covered(a, n, tails)
  }

  /** One step of `lis_length`: the new element replaces the first tail not below it, or extends `tails`. */
  function TailsStep(tails: seq<real>, x: real): (t: seq<real>)
  {
    var pos := LowerBound(tails, x);
    if pos == |tails| then tails + [x] else tails[pos := x]
  }

  /** The `tails` array after the whole of `a`. */
  function Tails(a: seq<real>): seq<real>
  {
    if |a| == 0 then [] else TailsStep(Tails(a[..|a| - 1]), a[|a| - 1])
  }

  lemma StrictSorted(a: seq<real>)
    requires StrictlyIncreasing(a)
    ensures Sorted(a)
  {
  }

  /** The part of an increasing subsequence before its last index. */
  lemma IncSubPrefix(a: seq<real>, idx: seq<int>)
    requires IncSub(a, idx) && |idx| >= 2
    ensures IncSub(a, idx[..|idx| - 1])
    ensures idx[|idx| - 2] < idx[|idx| - 1] && a[idx[|idx| - 2]] < a[idx[|idx| - 1]]
  {
  }

  /** Extending a witness by the new index keeps it an increasing subsequence. */
  lemma IncSubExtend(a: seq<real>, idx: seq<int>, n: int)
    requires IncSub(a, idx) && 0 <= n < |a| && |idx| > 0
    requires idx[|idx| - 1] < n && a[idx[|idx| - 1]] < a[n]
    ensures IncSub(a, idx + [n])
  {
    var e := idx + [n];
    forall k | 0 < k < |e| ensures e[k - 1] < e[k] && a[e[k - 1]] < a[e[k]] {
      if k < |idx| { assert e[k - 1] == idx[k - 1] && e[k] == idx[k]; }
    }
  }

  /** The step keeps `tails` strictly increasing and lowers no entry it keeps. */
  lemma StepShape(tails: seq<real>, x: real)
    requires StrictlyIncreasing(tails)
    ensures var t := TailsStep(tails, x);
      && StrictlyIncreasing(t)
      && |tails| <= |t| <= |tails| + 1
      && (forall i :: 0 <= i < |tails| ==> t[i] <= tails[i])
  {
    StrictSorted(tails);
    var pos := LowerBound(tails, x);
    var t := TailsStep(tails, x);
    forall i, j | 0 <= i < j < |t| ensures t[i] < t[j] {
      if j == pos {
        SplitAt(tails, x, pos, i);
      } else if i == pos {
        SplitAt(tails, x, pos, pos);
      }
    }
    if pos < |tails| { SplitAt(tails, x, pos, pos); }
  }

  /** The new witnesses: the entry at the insertion point ends at `n`. */
  lemma StepWitnessed(a: seq<real>, n: int, tails: seq<real>, w: seq<seq<int>>) returns (w': seq<seq<int>>)
    requires 0 <= n < |a| && StrictlyIncreasing(tails) && Witnessed(a, n, tails, w)
    ensures Witnessed(a, n + 1, TailsStep(tails, a[n]), w')
  {
    var x := a[n];
    StrictSorted(tails);
    var pos := LowerBound(tails, x);
    var t := TailsStep(tails, x);
    var wit: seq<int>;
    if pos == 0 {
      wit := [n];
    } else {
      SplitAt(tails, x, pos, pos - 1);
      wit := w[pos - 1] + [n];
      IncSubExtend(a, w[pos - 1], n);
    }
    w' := if pos == |tails| then w + [wit] else w[pos := wit];
    forall k | 0 <= k < |w'|
      ensures IncSub(a, w'[k]) && |w'[k]| == k + 1 && w'[k][k] < n + 1 && a[w'[k][k]] == t[k]
    {
      if k != pos { assert w'[k] == w[k] && t[k] == tails[k]; }
    }
  }

  /** A subsequence ending at the new element `a[n]` fits the new tails. */
  lemma CoverNew(a: seq<real>, n: int, tails: seq<real>, idx: seq<int>)
    requires 0 <= n < |a| && StrictlyIncreasing(tails) && Covered(a, n, tails)
    requires IncSub(a, idx) && 0 < |idx| && idx[|idx| - 1] == n
    ensures |idx| <= |TailsStep(tails, a[n])| && a[n] >= TailsStep(tails, a[n])[|idx| - 1]
  {
    StrictSorted(tails);
    var x, L := a[n], |idx|;
    var pos := LowerBound(tails, x);
    var t := TailsStep(tails, x);
    if L == 1 {
      if pos > 0 { SplitAt(tails, x, pos, 0); }
    } else {
      IncSubPrefix(a, idx);
      var pre := idx[..L - 1];
      assert pre[|pre| - 1] == idx[L - 2];
      assert L - 1 <= |tails| && a[idx[L - 2]] >= tails[L - 2];
      SplitAt(tails, x, pos, L - 2);
      if L - 1 < pos { SplitAt(tails, x, pos, L - 1); }
    }
  }

  /** One step of `lis_length` keeps the invariant. */
  lemma TailsStepInv(a: seq<real>, n: int, tails: seq<real>, w: seq<seq<int>>) returns (w': seq<seq<int>>)
    requires 0 <= n < |a| && TailsInv(a, n, tails, w)
    ensures TailsInv(a, n + 1, TailsStep(tails, a[n]), w')
  {
    var t := TailsStep(tails, a[n]);
    StepShape(tails, a[n]);
    w' := StepWitnessed(a, n, tails, w);
    forall idx | IncSub(a, idx) && 0 < |idx| && idx[|idx| - 1] < n + 1
      ensures |idx| <= |t| && a[idx[|idx| - 1]] >= t[|idx| - 1]
    {
      if idx[|idx| - 1] == n {
        CoverNew(a, n, tails, idx);
      }
    }
  }

  lemma {:induction false} TailsInvHolds(a: seq<real>, n: int) returns (w: seq<seq<int>>)
    requires 0 <= n <= |a|
    ensures TailsInv(a, n, Tails(a[..n]), w)
    decreases n
  {
    if n == 0 {
      w := [];
      assert a[..0] == [];
    } else {
      var w0 := TailsInvHolds(a, n - 1);
      var p := a[..n];
      assert p[..|p| - 1] == a[..n - 1] && p[|p| - 1] == a[n - 1];
      assert Tails(p) == TailsStep(Tails(a[..n - 1]), a[n - 1]);
      w := TailsStepInv(a, n - 1, Tails(a[..n - 1]), w0);
    }
  }

  /**
   * `lis_length` is the length of a longest strictly increasing
   * subsequence: one of that length exists, and none is longer.
   */
  lemma LisIsLongest(a: seq<real>)
    ensures exists idx :: IncSub(a, idx) && |idx| == |Tails(a)|
    ensures forall idx :: IncSub(a, idx) ==> |idx| <= |Tails(a)|
  {
    var w := TailsInvHolds(a, |a|);
    assert a[..|a|] == a;
    var t := Tails(a);
    assert Witnessed(a, |a|, t, w) && Covered(a, |a|, t);
    if |t| == 0 {
      assert IncSub(a, []);
    } else {
      assert IncSub(a, w[|t| - 1]) && |w[|t| - 1]| == |t|;
    }
    forall idx | IncSub(a, idx) ensures |idx| <= |t| {
      if |idx| > 0 { assert idx[|idx| - 1] < |a|; }
    }
  }

  /** The `lis_length` builtin. */
  function LisLengthBuiltin(args: seq<SV.Value>): (r: Result<SV.Value, string>)
    ensures |args| != 1 ==> r == Err("lis_length(list)")
    ensures |args| == 1 && ToNumList(args[0]).Err? ==> r == Err(ToNumList(args[0]).error)
    ensures |args| == 1 && ToNumList(args[0]).Ok? ==>
      var a := ToNumList(args[0]).value;
      && r.Ok? && r.value.Number?
      && (exists idx :: IncSub(a, idx) && |idx| as real == r.value.n)
      && (forall idx :: IncSub(a, idx) ==> |idx| as real <= r.value.n)
  {
    if |args| != 1 then Err("lis_length(list)")
    else
      match ToNumList(args[0])
      case Err(e) => Err(e)
      case Ok(a) =>
        LisIsLongest(a);
        Ok(SV.Number(|Tails(a)| as real))
  }

  // ---------------------------------------------------------------------
  // knapsack_01

  /** Total weight and value of the items `choice` picks among the first `|choice|`. */
  function Picked(xs: seq<int>, choice: seq<bool>): int
    requires |choice| <= |xs|
  {
    if |choice| == 0 then 0
    else Picked(xs, choice[..|choice| - 1]) + (if choice[|choice| - 1] then xs[|choice| - 1] else 0)
  }

  function PickedValue(vs: seq<real>, choice: seq<bool>): real
    requires |choice| <= |vs|
  {
    if |choice| == 0 then 0.0
    else PickedValue(vs, choice[..|choice| - 1]) + (if choice[|choice| - 1] then vs[|choice| - 1] else 0.0)
  }

  function Max(a: real, b: real): real { if a >= b then a else b }

  /** The reference optimum: the best value from the first `i` items within capacity `c`. */
  function Best(w: seq<int>, v: seq<real>, i: nat, c: int): real
    requires |w| == |v| && i <= |w|
  {
    if i == 0 then 0.0
    else if 0 <= w[i - 1] <= c then Max(Best(w, v, i - 1, c), v[i - 1] + Best(w, v, i - 1, c - w[i - 1]))
    else Best(w, v, i - 1, c)
  }

  /** No choice of the first `i` items that fits in `c` is worth more than `Best`. */
  lemma {:induction false} BestIsUpperBound(w: seq<int>, v: seq<real>, choice: seq<bool>, c: int)
    requires |w| == |v| && |choice| <= |w|
    requires forall k :: 0 <= k < |w| ==> w[k] >= 0
    requires Picked(w, choice) <= c
    ensures PickedValue(v, choice) <= Best(w, v, |choice|, c)
    decreases |choice|
  {
    if |choice| > 0 {
      var i := |choice|;
      var pre := choice[..i - 1];
      PickedNonNegative(w, pre);
      if choice[i - 1] {
        BestIsUpperBound(w, v, pre, c - w[i - 1]);
      } else {
        BestIsUpperBound(w, v, pre, c);
      }
    }
  }

  lemma {:induction false} PickedNonNegative(w: seq<int>, choice: seq<bool>)
    requires |choice| <= |w| && forall k :: 0 <= k < |w| ==> w[k] >= 0
    ensures Picked(w, choice) >= 0
    decreases |choice|
  {
    if |choice| > 0 { PickedNonNegative(w, choice[..|choice| - 1]); }
  }

  /** Some choice of the first `i` items within capacity `c` attains `Best`. */
  lemma {:induction false} BestIsAttained(w: seq<int>, v: seq<real>, i: nat, c: int) returns (choice: seq<bool>)
    requires |w| == |v| && i <= |w| && c >= 0
    ensures |choice| == i && Picked(w, choice) <= c && PickedValue(v, choice) == Best(w, v, i, c)
    decreases i
  {
    if i == 0 {
      choice := [];
    } else if 0 <= w[i - 1] <= c && v[i - 1] + Best(w, v, i - 1, c - w[i - 1]) > Best(w, v, i - 1, c) {
      var pre := BestIsAttained(w, v, i - 1, c - w[i - 1]);
      choice := pre + [true];
      assert choice[..i - 1] == pre;
    } else {
      var pre := BestIsAttained(w, v, i - 1, c);
      choice := pre + [false];
      assert choice[..i - 1] == pre;
    }
  }

  /**
   * The dynamic programme of `knapsack_01` on truncated integer weights:
   * `dp[c]` is the best value within capacity `c`, and each item is folded
   * in from the largest capacity down so that it is used at most once.
   */
  method Knapsack(w: seq<int>, v: seq<real>, cap: int) returns (best: real)
    requires |w| == |v| && cap >= 0
    requires forall k :: 0 <= k < |w| ==> w[k] >= 0
    ensures best == Best(w, v, |w|, cap)
  {
    var dp := seq(cap + 1, _ => 0.0);
    var i := 0;
    while i < |w|
      invariant 0 <= i <= |w| && |dp| == cap + 1
      invariant forall c :: 0 <= c <= cap ==> dp[c] == Best(w, v, i, c)
    {
      var weight, value := w[i], v[i];
      var c := cap;
      while c >= weight
        invariant c <= cap && |dp| == cap + 1
        invariant forall c' :: c < c' <= cap ==> dp[c'] == Best(w, v, i + 1, c')
        invariant forall c' :: 0 <= c' <= c ==> dp[c'] == Best(w, v, i, c')
      {
        var cand := value + dp[c - weight];
        if cand > dp[c] {
          dp := dp[c := cand];
        }
        c := c - 1;
      }
      i := i + 1;
    }
    best := dp[cap];
  }

  /** The weights as `knapsack_01` uses them: each truncated to an integer. */
  function Weights(ws: seq<real>): (wi: seq<int>)
    ensures |wi| == |ws| && forall k :: 0 <= k < |ws| ==> wi[k] == M.AsI64(ws[k])
  {
    seq(|ws|, k requires 0 <= k < |ws| => M.AsI64(ws[k]))
  }

  /** `best` is the largest total value of a choice of items whose total weight fits in `cap`. */
  ghost predicate Optimal(w: seq<int>, v: seq<real>, cap: int, best: real)
    requires |w| == |v|
  {
    && (forall choice: seq<bool> :: |choice| == |w| && Picked(w, choice) <= cap ==> PickedValue(v, choice) <= best)
    && (exists choice: seq<bool> :: |choice| == |w| && Picked(w, choice) <= cap && PickedValue(v, choice) == best)
  }

  /** The `knapsack_01` builtin. */
  method KnapsackBuiltin(args: seq<SV.Value>) returns (r: Result<SV.Value, string>)
    requires |args| == 3 && args[2].Number? ==> M.AsI64(args[2].n) >= 0
    requires |args| == 3 && ToNumList(args[0]).Ok? ==>
      forall k :: 0 <= k < |ToNumList(args[0]).value| ==> M.AsI64(ToNumList(args[0]).value[k]) >= 0
    ensures |args| != 3 ==> r == Err("knapsack_01(weights, values, cap)")
    ensures |args| == 3 && ToNumList(args[0]).Err? ==> r == Err(ToNumList(args[0]).error)
    ensures |args| == 3 && ToNumList(args[0]).Ok? && ToNumList(args[1]).Err? ==> r == Err(ToNumList(args[1]).error)
    ensures |args| == 3 && ToNumList(args[0]).Ok? && ToNumList(args[1]).Ok? && !args[2].Number? ==>
      r == Err("cap must be number")
    ensures |args| == 3 && ToNumList(args[0]).Ok? && ToNumList(args[1]).Ok? && args[2].Number? ==>
      var (ws, vs) := (ToNumList(args[0]).value, ToNumList(args[1]).value);
      && (|ws| != |vs| ==> r == Err("weights and values len mismatch"))
      && (|ws| == |vs| ==>
            r.Ok? && r.value.Number? && Optimal(Weights(ws), vs, M.AsI64(args[2].n), r.value.n))
  {
    if |args| != 3 {
      return Err("knapsack_01(weights, values, cap)");
    }
    var ws := ToNumList(args[0]);
    if ws.Err? { return Err(ws.error); }
    var vs := ToNumList(args[1]);
    if vs.Err? { return Err(vs.error); }
    if !args[2].Number? {
      return Err("cap must be number");
    }
    var cap := M.AsI64(args[2].n);
    if |ws.value| != |vs.value| {
      return Err("weights and values len mismatch");
    }
    var wi := Weights(ws.value);
    var best := Knapsack(wi, vs.value, cap);
    forall choice: seq<bool> | |choice| == |wi| && Picked(wi, choice) <= cap
      ensures PickedValue(vs.value, choice) <= best
    {
      BestIsUpperBound(wi, vs.value, choice, cap);
    }
    var chosen := BestIsAttained(wi, vs.value, |wi|, cap);
    r := Ok(SV.Number(best));
  }
}
