/**
 * `counting_sort` of the naux-rs runtime: every value must be a whole
 * number, the span from the least to the greatest value may hold at most
 * 100000 slots, and the output lists each whole number of that span as
 * often as it occurs in the input.
 */
module RsSortCounting {
  import opened Wrappers
  import opened RsSortSpec

  const MaxRange: int := 100000
  const I64Min: int := -0x8000_0000_0000_0000
  const I64Max: int := 0x7FFF_FFFF_FFFF_FFFF

  /** `f64::fract() == 0.0`. */
  predicate IsWhole(x: real)
  {
    x == x.Floor as real
  }

  predicate HasFraction(xs: seq<real>)
  {
    exists k :: 0 <= k < |xs| && !IsWhole(xs[k])
  }

  function MinOf(xs: seq<real>): (m: real)
    requires |xs| > 0
    ensures (forall k :: 0 <= k < |xs| ==> m <= xs[k]) && m in xs
  {
    if |xs| == 1 then xs[0]
    else
      var rest := MinOf(xs[1..]);
      assert rest in xs[1..];
      if xs[0] <= rest then xs[0] else rest
  }

  function MaxOf(xs: seq<real>): (m: real)
    requires |xs| > 0
    ensures (forall k :: 0 <= k < |xs| ==> xs[k] <= m) && m in xs
  {
    if |xs| == 1 then xs[0]
    else
      var rest := MaxOf(xs[1..]);
      assert rest in xs[1..];
      if xs[0] >= rest then xs[0] else rest
  }

  function Repeat(x: real, c: nat): (r: seq<real>)
    ensures |r| == c && forall k :: 0 <= k < c ==> r[k] == x
  {
    if c == 0 then [] else [x] + Repeat(x, c - 1)
  }

  /** The rewrite loop: slot i of the count table stands for the number lo + i and is written out count times. */
  function Emit(lo: int, hi: int, m: multiset<real>): seq<real>
    decreases hi - lo
  {
    if lo > hi then [] else Repeat(lo as real, m[lo as real]) + Emit(lo + 1, hi, m)
  }

  /**
   * `counting_sort`. The requires is the i64 range the source converts
   * every value into and the i64 subtraction max - min + 1 it performs.
   */
  function CountingSort(xs: seq<real>): (r: Result<seq<real>, string>)
    requires forall k :: 0 <= k < |xs| ==> I64Min as real <= xs[k] <= I64Max as real
    requires forall i, j :: 0 <= i < |xs| && 0 <= j < |xs| ==> xs[i] - xs[j] < I64Max as real
    ensures r.Err? <==> HasFraction(xs) || (|xs| > 0 && MaxOf(xs) - MinOf(xs) + 1.0 > MaxRange as real)
    ensures r.Err? ==> r.error == if HasFraction(xs) then "Counting sort requires integer values" else "Counting sort range too large"
    ensures r.Ok? ==> SortOf(r.value, xs)
  {
    if HasFraction(xs) then Err("Counting sort requires integer values")
    else if |xs| == 0 then Ok([])
    else
      var lo := MinOf(xs).Floor;
      var hi := MaxOf(xs).Floor;
      if hi - lo + 1 > MaxRange then Err("Counting sort range too large")
      else
        EmitSorted(lo, hi, multiset(xs));
        WholeInSpan(xs, lo, hi);
        Ok(Emit(lo, hi, multiset(xs)))
  }

  /** The output is ascending and lies within [lo, hi]. */
  lemma {:induction false} EmitSorted(lo: int, hi: int, m: multiset<real>)
    ensures Sorted(Emit(lo, hi, m))
    ensures forall k :: 0 <= k < |Emit(lo, hi, m)| ==> lo as real <= Emit(lo, hi, m)[k] <= hi as real
    decreases hi - lo
  {
    if lo <= hi {
      EmitSorted(lo + 1, hi, m);
    }
  }

  /** A whole number y in [lo, hi] is written out exactly as often as it occurs; anything else never. */
  lemma {:induction false} EmitCount(lo: int, hi: int, m: multiset<real>, y: real)
    ensures multiset(Emit(lo, hi, m))[y] == if IsWhole(y) && lo as real <= y <= hi as real then m[y] else 0
    decreases hi - lo
  {
    if lo <= hi {
      EmitCount(lo + 1, hi, m, y);
      RepeatCount(lo as real, m[lo as real], y);
      assert multiset(Emit(lo, hi, m)) == multiset(Repeat(lo as real, m[lo as real])) + multiset(Emit(lo + 1, hi, m));
      if IsWhole(y) && lo as real < y {
        WholeStep(lo, y);
      }
    }
  }

  /** No whole number lies strictly between lo and lo + 1. */
  lemma WholeStep(lo: int, y: real)
    requires IsWhole(y) && lo as real < y
    ensures (lo + 1) as real <= y
  {
    var f := y.Floor;
    assert lo as real < f as real;
    assert lo < f;
  }

  lemma {:induction false} RepeatCount(x: real, c: nat, y: real)
    ensures multiset(Repeat(x, c))[y] == if y == x then c else 0
  {
    if c > 0 {
      RepeatCount(x, c - 1, y);
    }
  }

  /** When every value is whole and within [lo, hi], the emitted sequence is a permutation of the input. */
  lemma WholeInSpan(xs: seq<real>, lo: int, hi: int)
    requires |xs| > 0 && forall k :: 0 <= k < |xs| ==> IsWhole(xs[k])
    requires lo == MinOf(xs).Floor && hi == MaxOf(xs).Floor
    ensures multiset(Emit(lo, hi, multiset(xs))) == multiset(xs)
  {
    forall y
      ensures multiset(Emit(lo, hi, multiset(xs)))[y] == multiset(xs)[y]
    {
      EmitCount(lo, hi, multiset(xs), y);
      if y in xs {
        var k :| 0 <= k < |xs| && xs[k] == y;
        assert IsWhole(y);
      }
    }
  }

  /** The library's two error cases, on concrete inputs. */
  lemma CountingSortErrors()
    ensures CountingSort([1.5, 2.0]) == Err("Counting sort requires integer values")
    ensures CountingSort([0.0, 100000.0]) == Err("Counting sort range too large")
    ensures CountingSort([0.0, 99999.0]).Ok?
  {
    assert !IsWhole([1.5, 2.0][0]);
  }
}
