/**
 * `!search` of the naux-rs runtime: linear search by value equality, or
 * binary search over a list of numbers. Numbers match when they differ by
 * less than f64::EPSILON; a miss is reported as usize::MAX.
 */
module RsSearch {
  import opened Wrappers
  import opened RsValue
  import opened RsSortSpec
  import RsSort

  /** f64::EPSILON, 2^-52. */
  const Epsilon: real := 1.0 / 4503599627370496.0
  /** usize::MAX on a 64-bit target. */
  const UsizeMax: nat := 0xFFFF_FFFF_FFFF_FFFF
  /** `usize::MAX as f64` rounds up to 2^64. */
  const NotFoundNumber: real := 18446744073709551616.0

  function Abs(x: real): real
  {
    if x < 0.0 then -x else x
  }

  predicate Close(x: real, y: real)
  {
    Abs(x - y) < Epsilon
  }

  /** `values_equal`: numbers within epsilon, strings and booleans by equality, anything else unequal. */
  function ValuesEqual(a: Value, b: Value): (r: bool)
    ensures r ==> (a.Number? && b.Number?) || (a.String? && b.String?) || (a.Boolean? && b.Boolean?)
    ensures a.Number? && b.Number? ==> (r <==> Close(a.n, b.n))
    ensures (a.String? && b.String?) || (a.Boolean? && b.Boolean?) ==> (r <==> a == b)
  {
    match (a, b)
    case (Number(x), Number(y)) => Abs(x - y) < Epsilon
    case (String(x), String(y)) => x == y
    case (Boolean(x), Boolean(y)) => x == y
    case _ => false
  }

  /** Null, lists and objects never match anything, not even themselves. */
  lemma ContainersNeverMatch(v: Value, w: Value)
    requires v.Null? || v.List? || v.Object?
    ensures !ValuesEqual(v, w) && !ValuesEqual(w, v)
  {
  }

  predicate NoMatch(items: seq<Value>, target: Value)
  {
    forall k :: 0 <= k < |items| ==> !ValuesEqual(items[k], target)
  }

  /** Index i holds the first element matching the target. */
  predicate FirstMatch(items: seq<Value>, target: Value, i: nat)
  {
    i < |items| && ValuesEqual(items[i], target) && NoMatch(items[..i], target)
  }

  /** `linear_search_value`: the first index whose element matches, else usize::MAX. */
  method LinearSearch(haystack: Value, target: Value) returns (r: Result<nat, string>)
    ensures !haystack.List? <==> r == Err("!search expects list as first arg")
    ensures haystack.List? ==> r.Ok?
    ensures r.Ok? ==> FirstMatch(haystack.items, target, r.value) || (r.value == UsizeMax && NoMatch(haystack.items, target))
  {
    if !haystack.List? {
      return Err("!search expects list as first arg");
    }
    var items := haystack.items;
    var i := 0;
    while i < |items|
      invariant 0 <= i <= |items|
      invariant forall k :: 0 <= k < i ==> !ValuesEqual(items[k], target)
    {
      if ValuesEqual(items[i], target) {
        assert forall k :: 0 <= k < i ==> items[..i][k] == items[k];
        return Ok(i);
      }
      i := i + 1;
    }
    return Ok(UsizeMax);
  }

  /**
   * `binary_search_value`. A returned index always holds a number close
   * to the target; on an ascending list, usize::MAX means no element is
   * close to it.
   */
  method BinarySearch(haystack: Value, target: Value) returns (r: Result<nat, string>)
    ensures RsSort.ValueListAsNumbers(haystack).Err? ==> r == Err(RsSort.ValueListAsNumbers(haystack).error)
    ensures RsSort.ValueListAsNumbers(haystack).Ok? && !target.Number? ==> r == Err("!search binary expects numeric target")
    ensures RsSort.ValueListAsNumbers(haystack).Ok? && target.Number? ==> r.Ok?
    ensures r.Ok? ==>
      var nums := RsSort.ValueListAsNumbers(haystack).value;
      || (r.value < |nums| && Close(nums[r.value], target.n))
      || (r.value == UsizeMax && (Sorted(nums) ==> forall k :: 0 <= k < |nums| ==> !Close(nums[k], target.n)))
  {
    var parsed := RsSort.ValueListAsNumbers(haystack);
    if parsed.Err? {
      return Err(parsed.error);
    }
    if !target.Number? {
      return Err("!search binary expects numeric target");
    }
    var nums := parsed.value;
    var t := target.n;
    var lo: int := 0;
    var hi: int := |nums| - 1;
    while lo <= hi
      invariant 0 <= lo && hi < |nums| && lo <= hi + 1
      invariant Sorted(nums) ==> forall k :: 0 <= k < |nums| && (k < lo || k > hi) ==> !Close(nums[k], t)
      decreases hi - lo
    {
      var mid := (lo + hi) / 2;
      var val := nums[mid];
      if Abs(val - t) < Epsilon {
        return Ok(mid);
      } else if val < t {
        lo := mid + 1;
      } else {
        hi := mid - 1;
      }
    }
    return Ok(UsizeMax);
  }

  /** `search_value`: "binary" or "bin" selects binary search, anything else linear; the index comes back as a number. */
  method SearchValue(haystack: Value, target: Value, algo: string) returns (r: Result<Value, string>)
    ensures algo == "binary" || algo == "bin" ==> (r.Ok? <==> RsSort.ValueListAsNumbers(haystack).Ok? && target.Number?)
    ensures !(algo == "binary" || algo == "bin") ==> (r.Ok? <==> haystack.List?)
    ensures r.Ok? ==> r.value.Number? && (r.value.n == NotFoundNumber || r.value.n.Floor < |haystack.items|)
  {
    var found: Result<nat, string>;
    if algo == "binary" || algo == "bin" {
      found := BinarySearch(haystack, target);
    } else {
      found := LinearSearch(haystack, target);
    }
    if found.Err? {
      return Err(found.error);
    }
    var v := if found.value == UsizeMax then NotFoundNumber else found.value as real;
    return Ok(Number(v));
  }

  /**
   * The library test: in the sorted list [1, 2, 3, 4, 5] the only outcome
   * binary search's contract allows for target 4 is index 3.
   */
  lemma SearchExample(nums: seq<real>, i: nat)
    requires nums == [1.0, 2.0, 3.0, 4.0, 5.0]
    requires || (i < |nums| && Close(nums[i], 4.0))
             || (i == UsizeMax && (Sorted(nums) ==> forall k :: 0 <= k < |nums| ==> !Close(nums[k], 4.0)))
    ensures i == 3
  {
    assert Close(nums[3], 4.0);
  }
}
