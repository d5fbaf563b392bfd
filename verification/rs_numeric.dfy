/**
 * The number routines of the naux-rs runtime: `gcd` on i64 with Rust's
 * truncating remainder, `fib` on u64, and `sieve`.
 */
module RsNumeric {
  import M = StdMath

  const I64Min: int := -0x8000_0000_0000_0000
  const I64Max: int := 0x7FFF_FFFF_FFFF_FFFF

  newtype U64 = x: int | 0 <= x < 0x1_0000_0000_0000_0000

  /** Rust's `%` on integers: the remainder takes the sign of the dividend. */
  function TruncRem(a: int, b: int): (r: int)
    requires b != 0
    ensures M.Abs(r) == M.Abs(a) % M.Abs(b)
    ensures (a >= 0 ==> r >= 0) && (a < 0 ==> r <= 0)
  {
    var m := M.Abs(a) % M.Abs(b);
    if a < 0 then -m else m
  }

  /**
   * `gcd`: Euclid's loop on signed values, then the absolute value. The
   * requires excludes i64::MIN, whose absolute value overflows (and for
   * which `i64::MIN % -1` overflows too).
   */
  method Gcd(a0: int, b0: int) returns (g: int)
    requires I64Min < a0 <= I64Max && I64Min < b0 <= I64Max
    ensures g == M.Gcd(a0, b0) && g >= 0
  {
    var a, b := a0, b0;
    while b != 0
      invariant I64Min < a <= I64Max && I64Min < b <= I64Max
      invariant M.Euclid(M.Abs(a), M.Abs(b)) == M.Euclid(M.Abs(a0), M.Abs(b0))
      decreases M.Abs(b)
    {
      var t := b;
      b := TruncRem(a, b);
      a := t;
    }
    g := M.Abs(a);
  }

  /** The library test: gcd(48, 18) = 6. */
  lemma GcdExample()
    ensures M.Gcd(48, 18) == 6 && M.Gcd(-48, 18) == 6
  {
  }

  function FibSpec(n: nat): nat
  {
    if n < 2 then n else FibSpec(n - 1) + FibSpec(n - 2)
  }

  /** The Fibonacci numbers never decrease. */
  lemma {:induction false} FibMonotone(i: nat, j: nat)
    requires i <= j
    ensures FibSpec(i) <= FibSpec(j)
    decreases j - i
  {
    if i < j {
      FibMonotone(i, j - 1);
      assert FibSpec(j - 1) <= FibSpec(j);
    }
  }

  // Literal evaluation of FibSpec reaches about 25 levels, so F(93) is established in stages.
  lemma FibStage10()
    ensures FibSpec(10) == 55 && FibSpec(11) == 89
  {
  }

  lemma FibStage20()
    ensures FibSpec(20) == 6765 && FibSpec(21) == 10946
  {
    FibStage10();
  }

  lemma FibStage30()
    ensures FibSpec(30) == 832040 && FibSpec(31) == 1346269
  {
    FibStage20();
  }

  lemma FibStage40()
    ensures FibSpec(40) == 102334155 && FibSpec(41) == 165580141
  {
    FibStage30();
  }

  lemma FibStage50()
    ensures FibSpec(50) == 12586269025 && FibSpec(51) == 20365011074
  {
    FibStage40();
  }

  lemma FibStage60()
    ensures FibSpec(60) == 1548008755920 && FibSpec(61) == 2504730781961
  {
    FibStage50();
  }

  lemma FibStage70()
    ensures FibSpec(70) == 190392490709135 && FibSpec(71) == 308061521170129
  {
    FibStage60();
  }

  lemma FibStage80()
    ensures FibSpec(80) == 23416728348467685 && FibSpec(81) == 37889062373143906
  {
    FibStage70();
  }

  lemma FibStage90()
    ensures FibSpec(90) == 2880067194370816120 && FibSpec(91) == 4660046610375530309
  {
    FibStage80();
  }

  /** The largest Fibonacci number that fits in u64 is F(93). */
  lemma Fib93()
    ensures FibSpec(93) == 12200160415121876738
    ensures FibSpec(94) >= 0x1_0000_0000_0000_0000
  {
    FibStage90();
  }

  /** Up to F(93) each step of the pair loop fits in a u64. */
  lemma FibFits(k: nat)
    requires 2 <= k <= 93
    ensures FibSpec(k) == FibSpec(k - 1) + FibSpec(k - 2) < 0x1_0000_0000_0000_0000
  {
    FibUnder(k);
    FibRecurrence(k);
  }

  lemma FibRecurrence(k: nat)
    requires 2 <= k
    ensures FibSpec(k) == FibSpec(k - 1) + FibSpec(k - 2)
  {
  }

  lemma FibUnder(k: nat)
    requires k <= 93
    ensures FibSpec(k) < 0x1_0000_0000_0000_0000
  {
    assert FibSpec(93) < 0x1_0000_0000_0000_0000 by {
      Fib93();
    }
    FibBelow(k, 93, 0x1_0000_0000_0000_0000);
  }

  lemma FibBelow(k: nat, top: nat, bound: nat)
    requires k <= top && FibSpec(top) < bound
    ensures FibSpec(k) < bound
  {
    FibMonotone(k, top);
  }

  /**
   * `fib`: the u64 pair loop. The requires is where the u64 addition
   * stops fitting: F(94) overflows.
   */
  method Fib(n: nat) returns (r: U64)
    requires n <= 93
    ensures r as int == FibSpec(n)
  {
    if n == 0 {
      return 0;
    }
    if n == 1 {
      return 1;
    }
    var a: U64 := 0;
    var b: U64 := 1;
    var k := 2;
    while k <= n
      invariant 2 <= k <= n + 1
      invariant a as int == FibSpec(k - 2) && b as int == FibSpec(k - 1)
    {
      FibFits(k);
      var c := a + b;
      a := b;
      b := c;
      k := k + 1;
    }
    r := b;
  }

  /** The library test: fib(10) = 55. */
  lemma FibExample()
    ensures FibSpec(10) == 55
  {
  }

  /**
   * `sieve`: the same marking loop as the naux-lang `sieve` builtin (a
   * round for every p with p * p <= n crossing off p * p, p * p + p, …),
   * on usize.
   */
  method Sieve(n: nat) returns (primes: seq<int>)
    ensures forall i, j :: 0 <= i < j < |primes| ==> primes[i] < primes[j]
    ensures forall x :: x in primes <==> x <= n && M.Prime(x)
    ensures n < 2 ==> primes == []
  {
    primes := M.Sieve(n);
  }
}
