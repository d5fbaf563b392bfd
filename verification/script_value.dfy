/**
 * The flat value type the tree-walking evaluator (runtime/eval.rs) works
 * on: numbers, text, lists, maps, booleans and null, with truthiness and
 * equality carried over from runtime/value.rs, and the binary operators of
 * `eval_binary`. Numbers are modelled as exact reals.
 */
module ScriptValue {
  import A = ScriptAst

  /** `f64::EPSILON`, 2^-52. */
  const Epsilon: real := 1.0 / 4503599627370496.0

  datatype Value =
    | Number(n: real)
    | Text(s: string)
    | List(items: seq<Value>)
    | Map(entries: map<string, Value>)
    | Bool(b: bool)
    | Null

  /** Truthiness: booleans are themselves, numbers are true when non-zero, containers when non-empty. */
  predicate Truthy(v: Value)
  {
    match v
    case Bool(b) => b
    case Number(n) => n != 0.0
    case Text(s) => |s| > 0
    case List(items) => |items| > 0
    case Map(m) => |m| > 0
    case Null => false
  }

  function Abs(x: real): (r: real)
    ensures r >= 0.0 && (r == x || r == -x)
  {
    if x < 0.0 then -x else x
  }

  /** Value equality: numbers within `f64::EPSILON`, containers element-wise, different kinds unequal. */
  predicate Equal(a: Value, b: Value)
  {
    match (a, b)
    case (Number(x), Number(y)) => Abs(x - y) < Epsilon
    case (Text(x), Text(y)) => x == y
    case (List(x), List(y)) => |x| == |y| && forall i :: 0 <= i < |x| ==> Equal(x[i], y[i])
    case (Map(x), Map(y)) => x.Keys == y.Keys && forall k :: k in x ==> Equal(x[k], y[k])
    case (Bool(x), Bool(y)) => x == y
    case (Null, Null) => true
    case _ => false
  }

  /** Equality is reflexive. */
  lemma {:induction false} EqualReflexive(a: Value)
    ensures Equal(a, a)
  {
    match a
    case List(x) =>
      forall i | 0 <= i < |x| ensures Equal(x[i], x[i]) { EqualReflexive(x[i]); }
    case Map(x) =>
      forall k | k in x ensures Equal(x[k], x[k]) { EqualReflexive(x[k]); }
    case _ =>
  }

  /** Equality is symmetric. */
  lemma {:induction false} EqualSymmetric(a: Value, b: Value)
    requires Equal(a, b)
    ensures Equal(b, a)
  {
    match (a, b)
    case (List(x), List(y)) =>
      forall i | 0 <= i < |y| ensures Equal(y[i], x[i]) { EqualSymmetric(x[i], y[i]); }
    case (Map(x), Map(y)) =>
      forall k | k in y ensures Equal(y[k], x[k]) { EqualSymmetric(x[k], y[k]); }
    case _ =>
  }

  /** Rust's `as i64` on a float: truncation toward zero. */
  function Trunc(x: real): (t: int)
    ensures Abs(t as real) <= Abs(x) < Abs(t as real) + 1.0
    ensures x >= 0.0 ==> t >= 0
    ensures x <= 0.0 ==> t <= 0
  {
    if x >= 0.0 then x.Floor else -((-x).Floor)
  }

  /** The `%` of `f64`: the remainder of a truncating division, with the sign of the dividend. */
  function FMod(a: real, b: real): (r: real)
    requires b != 0.0
  {
    a - (Trunc(a / b) as real) * b
  }

  /** The remainder is smaller than the divisor in magnitude and never has the opposite sign to the dividend. */
  lemma FModSpec(a: real, b: real)
    requires b != 0.0
    ensures Abs(FMod(a, b)) < Abs(b)
    ensures a >= 0.0 ==> FMod(a, b) >= 0.0
    ensures a <= 0.0 ==> FMod(a, b) <= 0.0
  {
    var q := a / b;
    var f := q - Trunc(q) as real;
    assert FMod(a, b) == f * b;
    ScaleBelowOne(f, b);
    SignOfProduct(q, b);
    SignOfProduct(f, b);
  }

  lemma ScaleBelowOne(f: real, b: real)
    requires -1.0 < f < 1.0 && b != 0.0
    ensures Abs(f * b) < Abs(b)
  {
    if b > 0.0 {
      assert -b < f * b < b;
    } else {
      assert b < f * b < -b;
    }
  }

  lemma SignOfProduct(x: real, b: real)
    requires b != 0.0
    ensures (x * b >= 0.0) <==> (x == 0.0 || (x > 0.0) == (b > 0.0))
    ensures (x * b <= 0.0) <==> (x == 0.0 || (x > 0.0) != (b > 0.0))
  {
  }

  /** The arithmetic and ordering operators, which need two numbers. */
  predicate IsNumeric(op: A.BinaryOp)
  {
    op in {A.Sub, A.Mul, A.Div, A.Mod, A.Gt, A.Ge, A.Lt, A.Le}
  }

  /**
   * `eval_binary`. `show` is the host's debug rendering of a value, used
   * when `+` meets anything but two numbers or two texts. Division and
   * remainder by zero, which produce an infinity or NaN on the host, give
   * Null here.
   */
  function EvalBinary(op: A.BinaryOp, l: Value, r: Value, show: Value -> string): (v: Value)
    ensures op in {A.Eq, A.Ne, A.And, A.Or} ==> v.Bool?
    ensures op in {A.Gt, A.Ge, A.Lt, A.Le} ==> (v.Bool? || v.Null?)
  {
    match op
    case Add =>
      if l.Number? && r.Number? then Number(l.n + r.n)
      else if l.Text? && r.Text? then Text(l.s + r.s)
      else Text(show(l) + show(r))
    case Sub => if l.Number? && r.Number? then Number(l.n - r.n) else Null
    case Mul => if l.Number? && r.Number? then Number(l.n * r.n) else Null
    case Div => if l.Number? && r.Number? && r.n != 0.0 then Number(l.n / r.n) else Null
    case Mod => if l.Number? && r.Number? && r.n != 0.0 then Number(FMod(l.n, r.n)) else Null
    case Eq => Bool(Equal(l, r))
    case Ne => Bool(!Equal(l, r))
    case Gt => if l.Number? && r.Number? then Bool(l.n > r.n) else Null
    case Ge => if l.Number? && r.Number? then Bool(l.n >= r.n) else Null
    case Lt => if l.Number? && r.Number? then Bool(l.n < r.n) else Null
    case Le => if l.Number? && r.Number? then Bool(l.n <= r.n) else Null
    case And => Bool(Truthy(l) && Truthy(r))
    case Or => Bool(Truthy(l) || Truthy(r))
  }

  /**
   * An arithmetic or ordering operator yields Null exactly when an operand
   * is not a number (or a divisor is zero); every other operator never
   * yields Null.
   */
  lemma BinaryNullIff(op: A.BinaryOp, l: Value, r: Value, show: Value -> string)
    ensures op in {A.Sub, A.Mul, A.Gt, A.Ge, A.Lt, A.Le} ==>
      (EvalBinary(op, l, r, show).Null? <==> !(l.Number? && r.Number?))
    ensures op in {A.Div, A.Mod} ==>
      (EvalBinary(op, l, r, show).Null? <==> !(l.Number? && r.Number? && r.n != 0.0))
    ensures !IsNumeric(op) ==> !EvalBinary(op, l, r, show).Null?
  {
  }

  /** `+` adds numbers, concatenates texts, and otherwise joins the two renderings. */
  lemma AddCases(l: Value, r: Value, show: Value -> string)
    ensures l.Number? && r.Number? ==> EvalBinary(A.Add, l, r, show) == Number(l.n + r.n)
    ensures l.Text? && r.Text? ==> EvalBinary(A.Add, l, r, show) == Text(l.s + r.s)
    ensures !(l.Number? && r.Number?) && !(l.Text? && r.Text?) ==>
      EvalBinary(A.Add, l, r, show) == Text(show(l) + show(r))
  {
  }

  /** `!=` is the negation of `==`, both are symmetric, and `&&`/`||` follow truthiness. */
  lemma LogicalOps(l: Value, r: Value, show: Value -> string)
    ensures Truthy(EvalBinary(A.Ne, l, r, show)) <==> !Truthy(EvalBinary(A.Eq, l, r, show))
    ensures EvalBinary(A.Eq, l, r, show) == EvalBinary(A.Eq, r, l, show)
    ensures Truthy(EvalBinary(A.And, l, r, show)) <==> Truthy(l) && Truthy(r)
    ensures Truthy(EvalBinary(A.Or, l, r, show)) <==> Truthy(l) || Truthy(r)
  {
    if Equal(l, r) { EqualSymmetric(l, r); }
    if Equal(r, l) { EqualSymmetric(r, l); }
  }
}
