/**
 * The runtime value of the bytecode VM and the standard library
 * (runtime/value.rs): small integers, floats, booleans, null, and
 * reference-counted heap objects. A heap object is modelled by its contents
 * together with an identity `id`, which stands for the Rc pointer:
 * two values with the same id are the same object.
 */
module VmValue {
  import opened Wrappers
  import Ast

  /** `f64::EPSILON`, 2^-52. */
  const Epsilon: real := 1.0 / 4503599627370496.0

  datatype Graph = Graph(directed: bool, adj: map<string, seq<(string, real)>>)

  datatype Obj =
    | Text(s: string)
    | List(items: seq<Value>)
    | Map(entries: map<string, Value>)
    | GraphObj(g: Graph)
    | Set(elems: seq<Value>)
    | PriorityQueue(heap: seq<Value>)
    | Function(params: seq<string>, body: seq<Ast.Stmt>)

  datatype Value =
    | SmallInt(i: int)
    | Float(f: real)
    | Bool(b: bool)
    | RcObj(id: nat, obj: Obj)
    | Null

  datatype Ordering = Less | Equal | Greater

  /** `truthy`: numbers when non-zero, containers when non-empty; graphs and functions always. */
  predicate Truthy(v: Value)
  {
    match v
    case Bool(b) => b
    case SmallInt(n) => n != 0
    case Float(x) => x != 0.0
    case RcObj(_, o) => ObjTruthy(o)
    case Null => false
  }

  predicate ObjTruthy(o: Obj)
  {
    match o
    case Text(s) => |s| > 0
    case List(items) => |items| > 0
    case Map(m) => |m| > 0
    case GraphObj(_) => true
    case Set(elems) => |elems| > 0
    case PriorityQueue(h) => |h| > 0
    case Function(_, _) => true
  }

  predicate IsNumber(v: Value) { v.SmallInt? || v.Float? }

  /** `as_f64`: the numeric value of an integer or a float, and nothing else. */
  function AsF64(v: Value): (r: Option<real>)
    ensures r.Some? <==> IsNumber(v)
    ensures v.SmallInt? ==> r == Some(v.i as real)
    ensures v.Float? ==> r == Some(v.f)
  {
    match v
    case SmallInt(i) => Some(i as real)
    case Float(f) => Some(f)
    case _ => None
  }

  /** `as_i64`: only an integer, never a float. */
  function AsI64(v: Value): (r: Option<int>)
    ensures r.Some? <==> v.SmallInt?
    ensures v.SmallInt? ==> r.value == v.i
  {
    if v.SmallInt? then Some(v.i) else None
  }

  /** `as_text`: the characters of a text object. */
  function AsText(v: Value): (r: Option<string>)
    ensures r.Some? <==> v.RcObj? && v.obj.Text?
    ensures r.Some? ==> r.value == v.obj.s
  {
    if v.RcObj? && v.obj.Text? then Some(v.obj.s) else None
  }

  /** `Value::add`: integer, mixed and float sums, text concatenation, Null otherwise. */
  function Add(a: Value, b: Value, id: nat): (r: Value)
    ensures a.SmallInt? && b.SmallInt? ==> r == SmallInt(a.i + b.i)
    ensures IsNumber(a) && IsNumber(b) && !(a.SmallInt? && b.SmallInt?) ==>
      r == Float(AsF64(a).value + AsF64(b).value)
    ensures r.Null? <==> !(IsNumber(a) && IsNumber(b)) && (AsText(a).None? || AsText(b).None?)
    ensures AsText(a).Some? && AsText(b).Some? ==> AsText(r) == Some(AsText(a).value + AsText(b).value)
  {
    match (a, b)
    case (SmallInt(x), SmallInt(y)) => SmallInt(x + y)
    case (SmallInt(x), Float(y)) => Float(x as real + y)
    case (Float(x), SmallInt(y)) => Float(x + y as real)
    case (Float(x), Float(y)) => Float(x + y)
    case (RcObj(_, x), RcObj(_, y)) =>
      if x.Text? && y.Text? then RcObj(id, Text(x.s + y.s)) else Null
    case _ => Null
  }

  function Abs(x: real): real { if x < 0.0 then -x else x }

  /**
   * `PartialEq`: numbers (also an integer against a float) within
   * `f64::EPSILON`, the same object always, containers element by element,
   * graphs and functions only by identity, different kinds never.
   */
  predicate Equals(a: Value, b: Value)
  {
    match (a, b)
    case (SmallInt(x), SmallInt(y)) => x == y
    case (SmallInt(x), Float(y)) => Abs(x as real - y) < Epsilon
    case (Float(x), SmallInt(y)) => Abs(y as real - x) < Epsilon
    case (Float(x), Float(y)) => Abs(x - y) < Epsilon
    case (Bool(x), Bool(y)) => x == y
    case (RcObj(ia, oa), RcObj(ib, ob)) => ia == ib || ObjEquals(oa, ob)
    case (Null, Null) => true
    case _ => false
  }

  predicate ObjEquals(a: Obj, b: Obj)
  {
    match (a, b)
    case (Text(x), Text(y)) => x == y
    case (List(x), List(y)) => |x| == |y| && forall i :: 0 <= i < |x| ==> Equals(x[i], y[i])
    case (Map(x), Map(y)) => x.Keys == y.Keys && forall k :: k in x ==> Equals(x[k], y[k])
    case (Set(x), Set(y)) => |x| == |y| && forall i :: 0 <= i < |x| ==> Equals(x[i], y[i])
    case (PriorityQueue(x), PriorityQueue(y)) => |x| == |y| && forall i :: 0 <= i < |x| ==> Equals(x[i], y[i])
    case _ => false
  }

  /** Every value equals itself: floats trivially, graphs and functions by identity. */
  lemma {:induction false} EqualsReflexive(a: Value)
    ensures Equals(a, a)
  {
  }

  /** Equality is symmetric, including the integer/float cross cases. */
  lemma {:induction false} EqualsSymmetric(a: Value, b: Value)
    requires Equals(a, b)
    ensures Equals(b, a)
  {
    match (a, b)
    case (RcObj(ia, oa), RcObj(ib, ob)) =>
      if ia != ib {
        ObjEqualsSymmetric(oa, ob);
      }
    case _ =>
  }

  lemma {:induction false} ObjEqualsSymmetric(a: Obj, b: Obj)
    requires ObjEquals(a, b)
    ensures ObjEquals(b, a)
  {
    match (a, b)
    case (List(x), List(y)) =>
      forall i | 0 <= i < |y| ensures Equals(y[i], x[i]) { EqualsSymmetric(x[i], y[i]); }
    case (Map(x), Map(y)) =>
      forall k | k in y ensures Equals(y[k], x[k]) { EqualsSymmetric(x[k], y[k]); }
    case (Set(x), Set(y)) =>
      forall i | 0 <= i < |y| ensures Equals(y[i], x[i]) { EqualsSymmetric(x[i], y[i]); }
    case (PriorityQueue(x), PriorityQueue(y)) =>
      forall i | 0 <= i < |y| ensures Equals(y[i], x[i]) { EqualsSymmetric(x[i], y[i]); }
    case _ =>
  }

  /** Graphs and functions are equal only when they are the same object. */
  lemma IdentityOnly(a: Value, b: Value)
    requires a.RcObj? && b.RcObj?
    requires (a.obj.GraphObj? || a.obj.Function?) && (b.obj.GraphObj? || b.obj.Function?)
    ensures Equals(a, b) <==> a.id == b.id
  {
  }

  /** The lexicographic order of Rust's `String` on character sequences. */
  function StrCmp(a: string, b: string): (r: Ordering)
    ensures r == Equal <==> a == b
  {
    if |a| == 0 && |b| == 0 then Equal
    else if |a| == 0 then Less
    else if |b| == 0 then Greater
    else if a[0] < b[0] then Less
    else if a[0] > b[0] then Greater
    else StrCmp(a[1..], b[1..])
  }

  function Flip(o: Ordering): Ordering
  {
    match o
    case Less => Greater
    case Equal => Equal
    case Greater => Less
  }

  lemma {:induction false} StrCmpFlip(a: string, b: string)
    ensures StrCmp(b, a) == Flip(StrCmp(a, b))
  {
    if |a| > 0 && |b| > 0 && a[0] == b[0] {
      StrCmpFlip(a[1..], b[1..]);
    }
  }

  function RealCmp(x: real, y: real): (r: Ordering)
  {
    if x < y then Less else if x > y then Greater else Equal
  }

  /**
   * `Ord::cmp`: numerically when both are numbers, otherwise by the debug
   * renderings `show` of the two values.
   */
  function Cmp(a: Value, b: Value, show: Value -> string): Ordering
  {
    match (AsF64(a), AsF64(b))
    case (Some(x), Some(y)) => RealCmp(x, y)
    case _ => StrCmp(show(a), show(b))
  }

  /** Two numbers are ordered by their numeric values. */
  lemma NumericOrder(a: Value, b: Value, show: Value -> string)
    requires IsNumber(a) && IsNumber(b)
    ensures Cmp(a, b, show) == Less <==> AsF64(a).value < AsF64(b).value
    ensures Cmp(a, b, show) == Equal <==> AsF64(a).value == AsF64(b).value
    ensures Cmp(a, b, show) == Greater <==> AsF64(a).value > AsF64(b).value
  {
  }

  /** Swapping the operands flips the ordering. */
  lemma CmpFlip(a: Value, b: Value, show: Value -> string)
    ensures Cmp(b, a, show) == Flip(Cmp(a, b, show))
  {
    if !(IsNumber(a) && IsNumber(b)) {
      StrCmpFlip(show(a), show(b));
    }
  }
}
