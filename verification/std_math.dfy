/**
 * The number-theory builtins of stdlib/math.rs: gcd, lcm, pow_mod,
 * is_prime and sieve. Each builtin takes the flat script values of the
 * tree-walking evaluator, converts its numeric arguments with Rust's
 * saturating `f64 as i64`, and reports a wrong argument count or a
 * non-number argument as an error message.
 */
module StdMath {
  import opened Wrappers
  import SV = ScriptValue

  const I64Min: int := -0x8000_0000_0000_0000
  const I64Max: int := 0x7fff_ffff_ffff_ffff

  function Abs(x: int): (r: nat)
    ensures r == x || r == -x
  {
    if x < 0 then -x else x
  }

  /** Rust's `f64 as i64`: truncation toward zero, saturating at the ends of the i64 range. */
  function AsI64(x: real): (r: int)
    ensures I64Min <= r <= I64Max
    ensures I64Min <= SV.Trunc(x) <= I64Max ==> r == SV.Trunc(x)
    ensures SV.Trunc(x) > I64Max ==> r == I64Max
    ensures SV.Trunc(x) < I64Min ==> r == I64Min
  {
    var t := SV.Trunc(x);
    if t > I64Max then I64Max else if t < I64Min then I64Min else t
  }

  /** `to_i64`: a number converts, anything else is "expected number". */
  function ToI64(v: SV.Value): (r: Result<int, string>)
    ensures r.Ok? <==> v.Number?
    ensures r.Err? ==> r.error == "expected number"
    ensures r.Ok? ==> I64Min <= r.value <= I64Max && r.value == AsI64(v.n)
  {
    match v
    case Number(n) => Ok(AsI64(n))
    case _ => Err("expected number")
  }

  // ---------------------------------------------------------------------
  // Divisibility

  /** `d` divides `x`; zero divides only zero. Used with `d >= 0`. */
  predicate Divides(d: int, x: int)
  {
    if d == 0 then x == 0 else x % d == 0
  }

  /**
   * `g` is the non-negative greatest common divisor of `a` and `b` in the
   * divisibility order: a common divisor that every positive common
   * divisor divides.
   */
  ghost predicate IsGcd(a: int, b: int, g: int)
  {
    && g >= 0
    && Divides(g, a) && Divides(g, b)
    && forall d :: d > 0 && Divides(d, a) && Divides(d, b) ==> Divides(d, g)
  }

  lemma MulLe(d: int, x: int, y: int)
    requires d >= 0 && x <= y
    ensures d * x <= d * y
  {
    assert d * y - d * x == d * (y - x);
  }

  /** Squares are strictly monotone on the naturals. */
  lemma SquareLt(x: int, y: int)
    requires x >= 0 && y >= 0 && x * x < y * y
    ensures x < y
  {
    if y <= x {
      MulLe(y, y, x);
      MulLe(x, y, x);
      assert false;
    }
  }

  lemma MultipleMod(d: int, k: int)
    requires d > 0
    ensures (d * k) % d == 0
  {
    var q := (d * k) / d;
    var r := (d * k) % d;
    assert d * k == d * q + r;
    assert d * (k - q) == r by { assert d * (k - q) == d * k - d * q; }
    if k - q >= 1 {
      MulLe(d, 1, k - q);
      assert false;
    } else if k - q <= -1 {
      MulLe(d, k - q, -1);
      assert false;
    }
  }

  /** `m * k` shifts nothing modulo `m`. */
  lemma ModAddMultiple(a: int, k: int, m: int)
    requires m > 0
    ensures (a + m * k) % m == a % m
  {
    var q1, r1 := a / m, a % m;
    var q2, r2 := (a + m * k) / m, (a + m * k) % m;
    assert a == m * q1 + r1;
    assert a + m * k == m * q2 + r2;
    assert r2 - r1 == m * (q1 + k - q2) by {
      assert m * (q1 + k - q2) == m * q1 + m * k - m * q2;
    }
    if q1 + k - q2 >= 1 {
      MulLe(m, 1, q1 + k - q2);
      assert false;
    } else if q1 + k - q2 <= -1 {
      MulLe(m, q1 + k - q2, -1);
      assert false;
    }
  }

  /** A common divisor of `x` and `y` divides every `x + q*y`. */
  lemma DividesLinear(d: int, x: int, y: int, q: int)
    requires d >= 0 && Divides(d, x) && Divides(d, y)
    ensures Divides(d, x + q * y)
  {
    if d != 0 {
      var kx, ky := x / d, y / d;
      assert x == d * kx;
      assert y == d * ky;
      assert q * y == d * (q * ky);
      assert x + q * y == d * (kx + q * ky);
      MultipleMod(d, kx + q * ky);
    }
  }

  /** Every number divides itself. */
  lemma DividesSelf(d: int)
    requires d >= 0
    ensures Divides(d, d)
  {
    if d > 0 { MultipleMod(d, 1); }
  }

  /** Divisibility ignores the sign of the dividend. */
  lemma DividesAbs(d: int, x: int)
    requires d >= 0
    ensures Divides(d, x) <==> Divides(d, Abs(x))
  {
    if Divides(d, x) { DividesLinear(d, 0, x, if x < 0 then -1 else 1); }
    if Divides(d, Abs(x)) { DividesLinear(d, 0, Abs(x), if x < 0 then -1 else 1); }
  }

  /** One Euclid step keeps the common divisors. */
  lemma EuclidStep(a: nat, b: nat, d: int)
    requires b > 0 && d >= 0
    ensures Divides(d, a) && Divides(d, b) <==> Divides(d, b) && Divides(d, a % b)
  {
    assert a == a % b + (a / b) * b;
    assert a % b == a + (-(a / b)) * b;
    if Divides(d, a) && Divides(d, b) { DividesLinear(d, a, b, -(a / b)); }
    if Divides(d, b) && Divides(d, a % b) { DividesLinear(d, a % b, b, a / b); }
  }

  /** The loop of `gcd` on the absolute values: `(a, b) := (b, a % b)` until `b` is zero. */
  function Euclid(a: nat, b: nat): (g: nat)
    ensures IsGcd(a, b, g)
    decreases b
  {
    if b == 0 then
      DividesSelf(a);
      a
    else
      var g := Euclid(b, a % b);
      assert forall d :: d > 0 ==> (Divides(d, a) && Divides(d, b) <==> Divides(d, b) && Divides(d, a % b)) by {
        forall d | d > 0 ensures Divides(d, a) && Divides(d, b) <==> Divides(d, b) && Divides(d, a % b) {
          EuclidStep(a, b, d);
        }
      }
      assert Divides(g, a) by { EuclidStep(a, b, g); }
      g
  }

  /** `gcd(a, b)` on two integers: the loop runs on `|a|` and `|b|`. */
  function Gcd(a: int, b: int): (g: nat)
    ensures IsGcd(a, b, g)
    ensures b == 0 ==> g == Abs(a)
  {
    var g := Euclid(Abs(a), Abs(b));
    assert Divides(g, a) && Divides(g, b) by { DividesAbs(g, a); DividesAbs(g, b); }
    assert forall d :: d > 0 && Divides(d, a) && Divides(d, b) ==> Divides(d, g) by {
      forall d | d > 0 && Divides(d, a) && Divides(d, b) ensures Divides(d, g) {
        DividesAbs(d, a); DividesAbs(d, b);
      }
    }
    g
  }

  /** Two numbers dividing each other are equal. */
  lemma DividesAntisymmetric(g: nat, h: nat)
    requires Divides(g, h) && Divides(h, g)
    ensures g == h
  {
    if g > 0 && h > 0 {
      assert h == g * (h / g);
      assert g == h * (g / h);
      assert h / g >= 1 && g / h >= 1;
      MulLe(g, 1, h / g);
      MulLe(h, 1, g / h);
    }
  }

  /** The greatest common divisor is unique. */
  lemma GcdUnique(a: int, b: int, g: int, h: int)
    requires IsGcd(a, b, g) && IsGcd(a, b, h)
    ensures g == h
  {
    if g > 0 && h > 0 {
      assert Divides(g, h) && Divides(h, g);
      DividesAntisymmetric(g, h);
    } else if g == 0 {
      ZeroGcd(a, b, h);
    } else {
      ZeroGcd(a, b, g);
    }
  }

  /** The only greatest common divisor of two zeros is zero. */
  lemma ZeroGcd(a: int, b: int, h: int)
    requires a == 0 && b == 0 && IsGcd(a, b, h)
    ensures h == 0
  {
    assert Divides(h + 1, a) && Divides(h + 1, b);
    assert Divides(h + 1, h);
    SmallMod(h, h + 1);
  }

  /** The `gcd` builtin. */
  function GcdBuiltin(args: seq<SV.Value>): (r: Result<SV.Value, string>)
    ensures |args| != 2 ==> r == Err("gcd(a,b)")
    ensures |args| == 2 && !(args[0].Number? && args[1].Number?) ==> r == Err("expected number")
    ensures |args| == 2 && args[0].Number? && args[1].Number? ==>
      r.Ok? && r.value.Number? && r.value.n == (r.value.n.Floor) as real
      && IsGcd(AsI64(args[0].n), AsI64(args[1].n), r.value.n.Floor)
  {
    if |args| != 2 then Err("gcd(a,b)")
    else
      match ToI64(args[0])
      case Err(e) => Err(e)
      case Ok(a) =>
        match ToI64(args[1])
        case Err(e) => Err(e)
        case Ok(b) => Ok(SV.Number(Gcd(a, b) as real))
  }

  // ---------------------------------------------------------------------
  // lcm

  /** Rust's `/` on integers: the quotient truncated toward zero. */
  function TDiv(a: int, b: int): (q: int)
    requires b > 0
  {
    if a >= 0 then a / b else -((-a) / b)
  }

  /** Exact division: when `b` divides `a`, truncation loses nothing. */
  lemma TDivExact(a: int, b: int)
    requires b > 0 && Divides(b, a)
    ensures TDiv(a, b) * b == a
  {
    if a < 0 {
      DividesAbs(b, a);
      assert -a == b * ((-a) / b);
    } else {
      assert a == b * (a / b);
    }
  }

  /** `lcm`: zero when either argument is zero, else `|(a / gcd) * b|`. */
  function Lcm(a: int, b: int): (r: nat)
  {
    if a == 0 || b == 0 then 0
    else Abs(TDiv(a, Gcd(a, b)) * b)
  }

  /** `|x|` divides every multiple of `x`. */
  lemma DividesMultiple(x: int, k: int)
    ensures Divides(Abs(x), k * x)
  {
    DividesSelf(Abs(x));
    DividesAbs(Abs(x), x);
    DividesLinear(Abs(x), 0, x, k);
  }

  lemma LcmAlgebra(a: int, b: int, g: int, k: int, j: int)
    requires k * g == a && b == g * j
    ensures k * b == a * j && (k * b) * g == a * b
  {
    calc {
      k * b;
      k * (g * j);
      (k * g) * j;
      a * j;
    }
    calc {
      (k * b) * g;
      (k * g) * b;
      a * b;
    }
  }

  /**
   * The least common multiple is zero exactly when an argument is, is a
   * multiple of both arguments, and times their gcd gives `|a * b|`.
   */
  lemma LcmSpec(a: int, b: int)
    ensures Lcm(a, b) == 0 <==> a == 0 || b == 0
    ensures Divides(Abs(a), Lcm(a, b)) && Divides(Abs(b), Lcm(a, b))
    ensures Lcm(a, b) * Gcd(a, b) == Abs(a * b)
  {
    if a != 0 && b != 0 {
      var g := Gcd(a, b);
      assert g > 0;
      var k := TDiv(a, g);
      TDivExact(a, g);
      var j := b / g;
      assert b == g * j;
      LcmAlgebra(a, b, g, k, j);
      var m := k * b;
      DividesMultiple(b, k);
      DividesMultiple(a, j);
      DividesAbs(Abs(a), m);
      DividesAbs(Abs(b), m);
      assert Lcm(a, b) == Abs(m);
      AbsScale(m, g);
      NonZeroProduct(a, b);
    }
  }

  lemma AbsScale(m: int, g: int)
    requires g > 0
    ensures Abs(m) * g == Abs(m * g)
  {
    if m < 0 { assert Abs(m) * g == -(m * g); } else { MulLe(g, 0, m); }
  }

  lemma NonZeroProduct(a: int, b: int)
    requires a != 0 && b != 0
    ensures a * b != 0
  {
  }

  /** The `lcm` builtin. */
  function LcmBuiltin(args: seq<SV.Value>): (r: Result<SV.Value, string>)
    ensures |args| != 2 ==> r == Err("lcm(a,b)")
    ensures |args| == 2 && !(args[0].Number? && args[1].Number?) ==> r == Err("expected number")
    ensures |args| == 2 && args[0].Number? && args[1].Number? ==>
      r == Ok(SV.Number(Lcm(AsI64(args[0].n), AsI64(args[1].n)) as real))
  {
    if |args| != 2 then Err("lcm(a,b)")
    else
      match ToI64(args[0])
      case Err(e) => Err(e)
      case Ok(a) =>
        match ToI64(args[1])
        case Err(e) => Err(e)
        case Ok(b) => Ok(SV.Number(Lcm(a, b) as real))
  }

  // ---------------------------------------------------------------------
  // pow_mod

  function Pow(b: int, e: nat): int
  {
    if e == 0 then 1 else b * Pow(b, e - 1)
  }

  /** Rust's `%` on integers: the remainder of truncating division, with the sign of the dividend. */
  function TRem(a: int, m: int): (r: int)
    requires m != 0
    ensures Abs(r) < Abs(m)
    ensures a >= 0 ==> r == a % m
    ensures a >= 0 ==> r >= 0
  {
    if a >= 0 then a % m else -((-a) % m)
  }

  /**
   * The square-and-multiply loop of `pow_mod`: while `exp > 0`, multiply
   * `res` by `base` when the low bit is set, square `base`, halve `exp`.
   */
  function PowLoop(res: int, base: int, exp: int, m: int): (r: int)
    requires m != 0
    decreases if exp > 0 then exp else 0
  {
    if exp <= 0 then res
    else
      var res' := if exp % 2 == 1 then TRem(res * base, m) else res;
      PowLoop(res', TRem(base * base, m), exp / 2, m)
  }

  /** `pow_mod` as written: the accumulator starts at 1. */
  function PowModAsWritten(base: int, exp: int, m: int): (r: Result<int, string>)
  {
    if m == 0 then Err("mod must be non-zero")
    else Ok(PowLoop(1, TRem(base, m), exp, m))
  }

  /** `pow_mod` with the accumulator started at `1 % m`, so that a zero exponent is reduced too. */
  function PowMod(base: int, exp: int, m: int): (r: Result<int, string>)
  {
    if m == 0 then Err("mod must be non-zero")
    else Ok(PowLoop(TRem(1, m), TRem(base, m), exp, m))
  }

  /** Reducing the left factor first does not change a product modulo `m`. */
  lemma MulModLeft(x: int, y: int, m: int)
    requires m > 0
    ensures (x * y) % m == ((x % m) * y) % m
  {
    var q := x / m;
    assert x == m * q + x % m;
    assert x * y == (x % m) * y + m * (q * y) by {
      assert x * y == (m * q + x % m) * y;
    }
    ModAddMultiple((x % m) * y, q * y, m);
  }

  /** Reducing both factors first does not change a product modulo `m`. */
  lemma MulMod(x: int, y: int, m: int)
    requires m > 0
    ensures (x * y) % m == ((x % m) * (y % m)) % m
  {
    MulModLeft(x, y, m);
    MulModLeft(y, x % m, m);
    assert (x % m) * y == y * (x % m);
    assert (y % m) * (x % m) == (x % m) * (y % m);
  }

  lemma PowSquare(b: int, e: nat)
    ensures Pow(b * b, e / 2) * (if e % 2 == 1 then b else 1) == Pow(b, e)
    decreases e
  {
    if e >= 2 {
      PowSquare(b, e - 2);
      assert (e - 2) / 2 == e / 2 - 1 && (e - 2) % 2 == e % 2;
      assert Pow(b, e) == b * (b * Pow(b, e - 2));
      assert Pow(b * b, e / 2) == (b * b) * Pow(b * b, e / 2 - 1);
    } else if e == 1 {
      assert Pow(b, 1) == b * Pow(b, 0);
    }
  }

  /** Reducing the base first does not change a power modulo `m`. */
  lemma {:induction false} PowModBase(b: int, e: nat, m: int)
    requires m > 0
    ensures Pow(b % m, e) % m == Pow(b, e) % m
    decreases e
  {
    if e > 0 {
      PowModBase(b, e - 1, m);
      var x, y := Pow(b % m, e - 1), Pow(b, e - 1);
      assert Pow(b % m, e) == (b % m) * x;
      assert Pow(b, e) == b * y;
      MulModStep(b, x, y, m);
    }
  }

  lemma MulModStep(b: int, x: int, y: int, m: int)
    requires m > 0 && x % m == y % m
    ensures ((b % m) * x) % m == (b * y) % m
  {
    var c := b % m;
    SmallMod(c, m);
    MulMod(c, x, m);
    assert (c * x) % m == (c * (x % m)) % m;
    assert (c * x) % m == (c * (y % m)) % m;
    MulMod(b, y, m);
    assert (b * y) % m == (c * (y % m)) % m;
  }

  /** The loop keeps `res * base^exp` fixed modulo `m`, and reduces the accumulator once it multiplies. */
  lemma {:induction false} PowLoopSpec(res: int, base: int, exp: nat, m: int)
    requires m > 0 && res >= 0 && base >= 0
    ensures PowLoop(res, base, exp, m) % m == (res * Pow(base, exp)) % m
    ensures exp > 0 ==> 0 <= PowLoop(res, base, exp, m) < m
    ensures exp == 0 ==> PowLoop(res, base, exp, m) == res
    decreases exp
  {
    if exp > 0 {
      var res' := if exp % 2 == 1 then TRem(res * base, m) else res;
      var base' := TRem(base * base, m);
      PowLoopSpec(res', base', exp / 2, m);
      var h := Pow(base * base, exp / 2);
      var f := if exp % 2 == 1 then base else 1;
      PowSquare(base, exp);
      calc {
        PowLoop(res, base, exp, m) % m;
        (res' * Pow(base', exp / 2)) % m;
        { MulMod(res', Pow(base', exp / 2), m); }
        ((res' % m) * (Pow(base', exp / 2) % m)) % m;
        { PowModBase(base * base, exp / 2, m); }
        ((res' % m) * (h % m)) % m;
        { MulMod(res', h, m); }
        (res' * h) % m;
        { ResStep(res, base, f, h, exp, m); }
        (res * (h * f)) % m;
      }
      if exp / 2 == 0 {
        assert exp == 1;
        assert PowLoop(res, base, exp, m) == res';
        assert res' == TRem(res * base, m);
      }
    }
  }

  lemma ResStep(res: int, base: int, f: int, h: int, exp: nat, m: int)
    requires m > 0 && res >= 0 && base >= 0
    requires f == if exp % 2 == 1 then base else 1
    ensures ((if exp % 2 == 1 then TRem(res * base, m) else res) * h) % m == (res * (h * f)) % m
  {
    if exp % 2 == 1 {
      MulModLeft(res * base, h, m);
      assert (res * base) * h == res * (h * base);
    } else {
      assert res * (h * 1) == res * h;
    }
  }

  /** With a non-negative base and exponent and a positive modulus, `pow_mod` is `base^exp mod m`. */
  lemma PowModSpec(base: int, exp: int, m: int)
    requires base >= 0 && exp >= 0 && m > 0
    ensures PowMod(base, exp, m) == Ok(Pow(base, exp) % m)
  {
    var one, b := TRem(1, m), TRem(base, m);
    assert one == 1 % m && b == base % m;
    var r := PowLoop(one, b, exp, m);
    assert PowMod(base, exp, m) == Ok(r);
    PowLoopSpec(one, b, exp, m);
    if exp > 0 {
      PowModBase(base, exp, m);
      MulModLeft(1, Pow(b, exp), m);
      assert r % m == Pow(base, exp) % m;
      SmallMod(r, m);
    }
  }

  lemma SmallMod(r: int, m: int)
    requires 0 <= r < m
    ensures r % m == r
  {
  }

  /**
   * The accumulator fix changes nothing unless the modulus is 1 or -1 and
   * the exponent is not positive: for |m| > 1 the accumulator starts at 1
   * either way, and modulo 1 any positive exponent ends on a reduced product.
   */
  lemma PowModAgrees(base: int, exp: int, m: int)
    requires m > 1 || m < -1 || (m == 1 && exp > 0)
    ensures PowModAsWritten(base, exp, m) == PowMod(base, exp, m)
  {
    if m == 1 {
      ModOneLoop(1, TRem(base, 1), exp);
      ModOneLoop(TRem(1, 1), TRem(base, 1), exp);
    } else {
      assert TRem(1, m) == 1;
    }
  }

  /** Modulo 1 the loop ends on 0 once it has multiplied at all. */
  lemma {:induction false} ModOneLoop(res: int, base: int, exp: int)
    requires exp > 0
    ensures PowLoop(res, base, exp, 1) == 0
    decreases exp
  {
    var res' := if exp % 2 == 1 then TRem(res * base, 1) else res;
    if exp / 2 > 0 {
      ModOneLoop(res', TRem(base * base, 1), exp / 2);
    } else {
      assert exp == 1 && res' == TRem(res * base, 1) == 0;
    }
  }

  /** As written, a zero exponent modulo one gives 1 although `b^0 mod 1` is 0. */
  lemma PowModZeroExpModOne(base: int)
    ensures PowModAsWritten(base, 0, 1) == Ok(1)
    ensures Pow(base, 0) % 1 == 0
    ensures PowMod(base, 0, 1) == Ok(0)
  {
  }

  /**
   * `pow_mod` as written, on a non-negative base and exponent and a positive
   * modulus: `base^exp mod m`, except 1 for a zero exponent modulo 1.
   */
  lemma PowModAsWrittenSpec(base: int, exp: int, m: int)
    requires base >= 0 && exp >= 0 && m > 0
    ensures PowModAsWritten(base, exp, m) == Ok(if exp == 0 && m == 1 then 1 else Pow(base, exp) % m)
  {
    if !(exp == 0 && m == 1) {
      PowModAgrees(base, exp, m);
      PowModSpec(base, exp, m);
    }
  }

  /** The `pow_mod` builtin, on the loop as written. */
  function PowModBuiltin(args: seq<SV.Value>): (r: Result<SV.Value, string>)
    ensures |args| != 3 ==> r == Err("pow_mod(base, exp, mod)")
    ensures |args| == 3 && !(args[0].Number? && args[1].Number? && args[2].Number?) ==> r == Err("expected number")
    ensures |args| == 3 && args[0].Number? && args[1].Number? && args[2].Number? ==>
      var (b, e, m) := (AsI64(args[0].n), AsI64(args[1].n), AsI64(args[2].n));
      && (m == 0 <==> r == Err("mod must be non-zero"))
      && (m != 0 && e <= 0 ==> r == Ok(SV.Number(1.0)))
      && (b >= 0 && e >= 0 && m > 0 ==> r == Ok(SV.Number((if e == 0 && m == 1 then 1 else Pow(b, e) % m) as real)))
  {
    if |args| != 3 then Err("pow_mod(base, exp, mod)")
    else
      match ToI64(args[0])
      case Err(e) => Err(e)
      case Ok(b) =>
        match ToI64(args[1])
        case Err(e) => Err(e)
        case Ok(e) =>
          match ToI64(args[2])
          case Err(err) => Err(err)
          case Ok(m) =>
            if b >= 0 && e >= 0 && m > 0 then
              PowModAsWrittenSpec(b, e, m);
              Ok(SV.Number(PowModAsWritten(b, e, m).value as real))
            else
              match PowModAsWritten(b, e, m)
              case Err(err) => Err(err)
              case Ok(v) => Ok(SV.Number(v as real))
  }

  // ---------------------------------------------------------------------
  // is_prime

  ghost predicate Prime(n: int)
  {
    n >= 2 && forall d :: 2 <= d < n ==> n % d != 0
  }

  /** An even divisor makes the number even. */
  lemma EvenDivisor(n: int, d: int)
    requires d > 0 && d % 2 == 0 && n % d == 0
    ensures n % 2 == 0
  {
    assert n == d * (n / d);
    assert Divides(2, d);
    DividesLinear(2, 0, d, n / d);
    assert (n / d) * d == n;
  }

  lemma MulLt(d: int, x: int, y: int)
    requires d > 0 && d * x < d * y
    ensures x < y
  {
    if y <= x {
      MulLe(d, y, x);
      assert false;
    }
  }

  /** A proper divisor `d` of `n` comes with a divisor at most `d` whose square is at most `n`. */
  lemma SmallFactor(n: int, d: int) returns (e: int)
    requires 2 <= d < n && n % d == 0
    ensures 2 <= e <= d && e * e <= n && n % e == 0
  {
    var q := n / d;
    assert n == d * q;
    assert d * 1 < d * q;
    MulLt(d, 1, q);
    if d <= q {
      MulLe(d, d, q);
      e := d;
    } else {
      MulLe(q, q, d);
      assert q * d == n;
      MultipleMod(q, d);
      e := q;
    }
  }

  /** A number with no divisor in `[2, i)` and `i * i > n` is prime. */
  lemma NoSmallDivisor(n: int, i: int)
    requires n >= 2 && i >= 2 && i * i > n
    requires forall d :: 2 <= d < i ==> n % d != 0
    ensures Prime(n)
  {
    forall d | 2 <= d < n ensures n % d != 0 {
      if n % d == 0 {
        var e := SmallFactor(n, d);
        SquareLt(e, i);
        assert false;
      }
    }
  }

  /** The odd trial-division loop of `is_prime`, from `i` while `i * i <= n`. */
  function TrialDivision(n: int, i: int): (p: bool)
    requires n >= 3 && n % 2 != 0 && i >= 3 && i % 2 == 1
    requires forall d :: 2 <= d < i ==> n % d != 0
    ensures p <==> Prime(n)
    decreases n - i
  {
    if i * i > n then
      NoSmallDivisor(n, i);
      true
    else if n % i == 0 then
      MulLe(i, 3, i);
      false
    else
      MulLe(i, 3, i);
      NextOdd(n, i);
      TrialDivision(n, i + 2)
  }

  /** An odd n not divisible by the odd i has no divisor below i + 2 either: i + 1 is even. */
  lemma NextOdd(n: int, i: int)
    requires n % 2 != 0 && i >= 3 && i % 2 == 1 && n % i != 0
    requires forall d :: 2 <= d < i ==> n % d != 0
    ensures (i + 2) % 2 == 1 && forall d :: 2 <= d < i + 2 ==> n % d != 0
  {
    forall d | 2 <= d < i + 2 ensures n % d != 0 {
      if d == i + 1 && n % d == 0 { EvenDivisor(n, d); }
    }
  }

  /** `is_prime` on an integer: below 2 false, 2 and 3 true, even false, else odd trial division. */
  function IsPrime(n: int): (p: bool)
    ensures p <==> Prime(n)
  {
    if n < 2 then false
    else if n == 2 || n == 3 then true
    else if n % 2 == 0 then false
    else TrialDivision(n, 3)
  }

  /** The `is_prime` builtin. */
  function IsPrimeBuiltin(args: seq<SV.Value>): (r: Result<SV.Value, string>)
    ensures |args| != 1 ==> r == Err("is_prime(n)")
    ensures |args| == 1 && !args[0].Number? ==> r == Err("expected number")
    ensures |args| == 1 && args[0].Number? ==> r == Ok(SV.Bool(Prime(AsI64(args[0].n))))
  {
    if |args| != 1 then Err("is_prime(n)")
    else
      match ToI64(args[0])
      case Err(e) => Err(e)
      case Ok(n) => Ok(SV.Bool(IsPrime(n)))
  }

  // ---------------------------------------------------------------------
  // sieve

  /** No divisor in `[2, p)` whose square is at most `k`: the sieve's mark after the rounds below `p`. */
  ghost predicate Unmarked(k: int, p: int)
  {
    k >= 2 && forall d :: 2 <= d < p && d * d <= k ==> k % d != 0
  }

  /** Once `p * p` exceeds `k`, the mark of `k` is its primality. */
  lemma UnmarkedPrime(k: int, p: int)
    requires p >= 2 && p * p > k
    ensures Unmarked(k, p) <==> Prime(k)
  {
    if Unmarked(k, p) {
      var i := 2;
      while i * i <= k
        invariant 2 <= i && forall d :: 2 <= d < i ==> k % d != 0
        decreases k - i
      {
        SquareLt(i, p);
        MulLe(i, 2, i);
        i := i + 1;
      }
      NoSmallDivisor(k, i);
    }
  }

  /** A factor `d` of `p` with `d * d <= p` also divides every multiple `k >= p * p` of `p`, with `d * d <= k`. */
  lemma FactorOfMultiple(k: int, p: int, d: int)
    requires 2 <= d < p && d * d <= p && p % d == 0 && k % p == 0 && p * p <= k
    ensures k % d == 0 && d * d <= k
  {
    MulLe(d, d, p);
    MulLe(p, d, p);
    DividesLinear(d, 0, p, k / p);
    assert (k / p) * p == k;
  }

  /** Crossing off the multiples of a composite `p` changes nothing: a smaller factor already did. */
  lemma CompositeRound(k: int, p: int)
    requires p >= 2 && !Unmarked(p, p) && Unmarked(k, p) && p * p <= k
    ensures k % p != 0
  {
    var d :| 2 <= d < p && d * d <= p && p % d == 0;
    if k % p == 0 {
      FactorOfMultiple(k, p, d);
      assert false;
    }
  }

  /** Round `p` of the sieve: the multiples of `p` from `p * p` are the numbers it newly marks. */
  lemma NextRound(k: int, p: int)
    requires p >= 2
    ensures Unmarked(k, p + 1) <==> Unmarked(k, p) && !(k % p == 0 && p * p <= k)
  {
  }

  /** Crossing off `[p*p, p*p + p, ...]` up to `n` from `mark`, a sieve round for a prime-marked `p`. */
  method CrossOff(mark: seq<bool>, p: int, n: int) returns (mark': seq<bool>)
    requires |mark| == n + 1 && p >= 2 && p * p <= n
    ensures |mark'| == n + 1
    ensures forall j :: 0 <= j <= n ==> (mark'[j] <==> mark[j] && !(j % p == 0 && p * p <= j))
  {
    mark' := mark;
    var k := p * p;
    MultipleMod(p, p);
    while k <= n
      invariant |mark'| == n + 1 && p * p <= k && k % p == 0
      invariant forall j :: 0 <= j <= n ==> (mark'[j] <==> mark[j] && !(j % p == 0 && p * p <= j < k))
      decreases n - k
    {
      mark' := mark'[k := false];
      ModAddMultiple(k, 1, p);
      NextMultiple(k, p, n, mark, mark');
      k := k + p;
    }
  }

  /** No multiple of `p` lies strictly between `k` and `k + p`. */
  lemma NextMultiple(k: int, p: int, n: int, mark: seq<bool>, mark': seq<bool>)
    requires p > 0 && k % p == 0
    ensures forall j :: k < j < k + p ==> j % p != 0
  {
    forall j | k < j < k + p ensures j % p != 0 {
      if j % p == 0 {
        var a, b := k / p, j / p;
        assert k == p * a && j == p * b;
        MulLt(p, a, b);
        MulLe(p, a + 1, b);
        assert false;
      }
    }
  }

  /** `sieve(n)`: the primes up to `n` in ascending order. */
  method Sieve(n: int) returns (primes: seq<int>)
    ensures forall i, j :: 0 <= i < j < |primes| ==> primes[i] < primes[j]
    ensures forall x :: x in primes <==> x <= n && Prime(x)
    ensures n < 2 ==> primes == []
  {
    if n < 2 {
      return [];
    }
    var mark := seq(n + 1, k => k >= 2);
    var p := 2;
    while p * p <= n
      invariant |mark| == n + 1 && 2 <= p
      invariant forall k :: 0 <= k <= n ==> (mark[k] <==> Unmarked(k, p))
      decreases n - p
    {
      MulLe(p, 2, p);
      var before := mark;
      if mark[p] {
        mark := CrossOff(mark, p, n);
      } else {
        forall k | 0 <= k <= n && Unmarked(k, p) && p * p <= k ensures k % p != 0 {
          CompositeRound(k, p);
        }
      }
      forall k | 0 <= k <= n ensures mark[k] <==> Unmarked(k, p + 1) {
        NextRound(k, p);
      }
      p := p + 1;
    }
    forall k | 0 <= k <= n ensures mark[k] <==> Prime(k) {
      UnmarkedPrime(k, p);
    }
    primes := [];
    var i := 2;
    while i <= n
      invariant 2 <= i <= n + 1
      invariant forall a, b :: 0 <= a < b < |primes| ==> primes[a] < primes[b]
      invariant forall a :: 0 <= a < |primes| ==> primes[a] < i
      invariant forall x :: x in primes <==> 2 <= x < i && Prime(x)
    {
      if mark[i] {
        primes := primes + [i];
      }
      i := i + 1;
    }
  }

  /** `items` lists, as ascending numbers, exactly the primes up to `n`. */
  ghost predicate PrimeList(items: seq<SV.Value>, n: int)
  {
    && (forall i :: 0 <= i < |items| ==> items[i].Number?)
    && (forall i, j :: 0 <= i < j < |items| ==> items[i].n < items[j].n)
    && (forall x: int :: SV.Number(x as real) in items <==> x <= n && Prime(x))
  }

  /** The `sieve` builtin: the primes as a list of numbers. */
  method SieveBuiltin(args: seq<SV.Value>) returns (r: Result<SV.Value, string>)
    ensures |args| != 1 ==> r == Err("sieve(n)")
    ensures |args| == 1 && !args[0].Number? ==> r == Err("expected number")
    ensures |args| == 1 && args[0].Number? ==>
      r.Ok? && r.value.List? && PrimeList(r.value.items, AsI64(args[0].n))
  {
    if |args| != 1 {
      return Err("sieve(n)");
    }
    var n := ToI64(args[0]);
    if n.Err? {
      return Err(n.error);
    }
    var primes := Sieve(n.value);
    var items := seq(|primes|, i requires 0 <= i < |primes| => SV.Number(primes[i] as real));
    assert forall i, j :: 0 <= i < j < |items| ==> items[i].n < items[j].n by {
      forall i, j | 0 <= i < j < |items| ensures items[i].n < items[j].n {
        assert primes[i] < primes[j];
      }
    }
    assert n.value == AsI64(args[0].n);
    forall x: int ensures SV.Number(x as real) in items <==> x <= n.value && Prime(x) {
      assert x in primes <==> x <= n.value && Prime(x);
      if SV.Number(x as real) in items {
        var i :| 0 <= i < |items| && items[i] == SV.Number(x as real);
        assert primes[i] == x;
      }
      if x in primes {
        var i :| 0 <= i < |primes| && primes[i] == x;
        assert items[i] == SV.Number(x as real);
      }
    }
    assert PrimeList(items, n.value);
    r := Ok(SV.List(items));
  }
}
