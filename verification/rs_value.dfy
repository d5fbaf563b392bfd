/**
 * The runtime values and variable context of naux-rs (src/runtime.rs):
 * numbers, booleans, strings, lists, objects and null; a context maps
 * variable names to values, records events, and supports assignment
 * through a dotted path (`$user.address.city = …`) that creates or
 * replaces the objects along the way.
 */
module RsValue {
  import opened Wrappers
  import P = RsParser

  datatype Value =
    | Number(n: real)
    | Boolean(b: bool)
    | String(s: string)
    | List(items: seq<Value>)
    | Object(entries: map<string, Value>)
    | Null

  /** `as_bool`: booleans are themselves, numbers are true unless zero, null is false, everything else is true. */
  function AsBool(v: Value): (r: bool)
    ensures v.Boolean? ==> r == v.b
    ensures v.Number? ==> (r <==> v.n != 0.0)
    ensures v.Null? ==> !r
    ensures (v.String? || v.List? || v.Object?) ==> r
  {
    match v
    case Boolean(b) => b
    case Number(n) => n != 0.0
    case Null => false
    case _ => true
  }

  /** Even empty text, an empty list and an empty object count as true. */
  lemma EmptyIsTruthy()
    ensures AsBool(String("")) && AsBool(List([])) && AsBool(Object(map[]))
    ensures !AsBool(Number(0.0)) && !AsBool(Null) && !AsBool(Boolean(false))
  {
  }

  datatype Event =
    | Say(text: string)
    | SetVar(name: string, value: Value)
    | UiStart(title: string)
    | UiEnd
    | UiText(text: string)
    | UiButton(caption: string)
    | OracleRequest(prompt: string)
    | OracleResponse(answer: string)

  datatype RuntimeError = UnknownAction(name: string) | InvalidArgument(msg: string)

  datatype Context = Context(vars: map<string, Value>, events: seq<Event>, errors: seq<RuntimeError>)

  /** `Context::new`. */
  function NewContext(): (c: Context)
    ensures c.vars == map[] && c.events == [] && c.errors == []
  {
    Context(map[], [], [])
  }

  // ----------------------------------------------------------- paths

  /**
   * `set_nested`: store `v` at `path` below `root`. Objects along the way
   * are kept, missing keys get fresh objects, and anything that is not an
   * object is replaced by a chain of fresh objects.
   */
  function SetNested(root: Value, path: seq<string>, v: Value): (r: Value)
    ensures |path| > 0 ==> r.Object? && path[0] in r.entries
    ensures |path| > 0 ==> r.entries.Keys == (if root.Object? then root.entries.Keys else {}) + {path[0]}
    ensures |path| > 0 && root.Object? ==> forall k :: k in root.entries && k != path[0] ==> r.entries[k] == root.entries[k]
    decreases |path|, if root.Object? then 0 else 1
  {
    if |path| == 0 then v
    else match root
      case Object(m) =>
        if |path| == 1 then Object(m[path[0] := v])
        else
          var child := if path[0] in m then m[path[0]] else Object(map[]);
          Object(m[path[0] := SetNested(child, path[1..], v)])
      case _ => SetNested(Object(map[]), path, v)
  }

  /** The lookup loop of `get_var_ref`: a missing key reads as null, and so does any step through a non-object. */
  function GetPath(cur: Value, path: seq<string>): (r: Value)
    ensures |path| > 0 && !cur.Object? ==> r == Null
    decreases |path|
  {
    if |path| == 0 then cur
    else match cur
      case Object(m) => GetPath(if path[0] in m then m[path[0]] else Null, path[1..])
      case _ => Null
  }

  /** What was stored at a path reads back from it. */
  lemma {:induction false} GetSetNested(root: Value, path: seq<string>, v: Value)
    ensures GetPath(SetNested(root, path, v), path) == v
    decreases |path|, if root.Object? then 0 else 1
  {
    if |path| > 0 {
      match root
      case Object(m) =>
        if |path| > 1 {
          var child := if path[0] in m then m[path[0]] else Object(map[]);
          GetSetNested(child, path[1..], v);
        }
      case _ =>
        GetSetNested(Object(map[]), path, v);
    }
  }

  /** Two paths part ways: neither is a prefix of the other. */
  predicate Diverge(p: seq<string>, q: seq<string>)
  {
    exists i :: 0 <= i < |p| && i < |q| && p[..i] == q[..i] && p[i] != q[i]
  }

  lemma DivergeTail(p: seq<string>, q: seq<string>)
    requires Diverge(p, q) && p[0] == q[0]
    ensures Diverge(p[1..], q[1..])
  {
    var i :| 0 <= i < |p| && i < |q| && p[..i] == q[..i] && p[i] != q[i];
    assert i > 0;
    assert p[1..][..i - 1] == p[1..i] == q[1..i] == q[1..][..i - 1];
    assert p[1..][i - 1] != q[1..][i - 1];
  }

  /** Any path that parts ways with `p` reads the same before and after storing at `p`. */
  lemma {:induction false} SetNestedFrame(root: Value, p: seq<string>, q: seq<string>, v: Value)
    requires Diverge(p, q)
    ensures GetPath(SetNested(root, p, v), q) == GetPath(root, q)
    decreases |p|, if root.Object? then 0 else 1
  {
    var r := SetNested(root, p, v);
    if !root.Object? {
      SetNestedFrame(Object(map[]), p, q, v);
      EmptyChainReadsNull(q);
    } else if p[0] != q[0] {
      if q[0] in root.entries {
        assert r.entries[q[0]] == root.entries[q[0]];
      }
    } else if |p| > 1 {
      DivergeTail(p, q);
      var m := root.entries;
      var child := if p[0] in m then m[p[0]] else Object(map[]);
      SetNestedFrame(child, p[1..], q[1..], v);
      if p[0] !in m {
        EmptyChainReadsNull(q[1..]);
      }
    }
  }

  /** Reading a non-empty path below an empty object gives null. */
  lemma EmptyChainReadsNull(q: seq<string>)
    requires |q| > 0
    ensures GetPath(Object(map[]), q) == Null
  {
    assert GetPath(Object(map[]), q) == GetPath(Null, q[1..]);
  }

  // --------------------------------------------------------- variables

  /** `set_var_ref`: assign through the reference's path and record one SetVar event for its base. */
  function SetVarRef(ctx: Context, ref: P.VarRef, v: Value): (c: Context)
    ensures c.events == ctx.events + [SetVar(ref.base, v)] && c.errors == ctx.errors
    ensures c.vars.Keys == ctx.vars.Keys + {ref.base}
    ensures forall name :: name in ctx.vars && name != ref.base ==> c.vars[name] == ctx.vars[name]
  {
    if |ref.path| == 0 then
      Context(ctx.vars[ref.base := v], ctx.events + [SetVar(ref.base, v)], ctx.errors)
    else
      var current := if ref.base in ctx.vars then ctx.vars[ref.base] else Object(map[]);
      Context(ctx.vars[ref.base := SetNested(current, ref.path, v)], ctx.events + [SetVar(ref.base, v)], ctx.errors)
  }

  /** `get_var_ref`: null for an unknown base, else the value along the path. */
  function GetVarRef(ctx: Context, ref: P.VarRef): (r: Value)
    ensures ref.base !in ctx.vars ==> r == Null
  {
    if ref.base !in ctx.vars then Null else GetPath(ctx.vars[ref.base], ref.path)
  }

  /** `set_var`: a plain assignment, also recorded as a SetVar event. */
  function SetVarNamed(ctx: Context, name: string, v: Value): (c: Context)
    ensures c.events == ctx.events + [SetVar(name, v)] && c.errors == ctx.errors
    ensures GetVar(c, name) == Some(v)
    ensures forall other :: other != name ==> GetVar(c, other) == GetVar(ctx, other)
  {
    Context(ctx.vars[name := v], ctx.events + [SetVar(name, v)], ctx.errors)
  }

  function GetVar(ctx: Context, name: string): (r: Option<Value>)
    ensures r.Some? <==> name in ctx.vars
  {
    if name in ctx.vars then Some(ctx.vars[name]) else None
  }

  /** After assigning through a reference, reading the same reference gives the assigned value. */
  lemma GetAfterSet(ctx: Context, ref: P.VarRef, v: Value)
    ensures GetVarRef(SetVarRef(ctx, ref, v), ref) == v
  {
    if |ref.path| > 0 {
      var current := if ref.base in ctx.vars then ctx.vars[ref.base] else Object(map[]);
      GetSetNested(current, ref.path, v);
    }
  }

  /**
   * Assigning through a reference leaves every other reference alone:
   * one with another base, and one with the same base whose path parts
   * ways with the assigned one.
   */
  lemma SetVarRefFrame(ctx: Context, ref: P.VarRef, other: P.VarRef, v: Value)
    requires other.base != ref.base || (|ref.path| > 0 && ref.base in ctx.vars && Diverge(ref.path, other.path))
    ensures GetVarRef(SetVarRef(ctx, ref, v), other) == GetVarRef(ctx, other)
  {
    if other.base == ref.base {
      SetNestedFrame(ctx.vars[ref.base], ref.path, other.path, v);
    }
  }

  /** Assigning below a base that is not an object replaces it with a chain of objects ending in the value. */
  lemma OverwriteWithChain(ctx: Context, ref: P.VarRef, v: Value)
    requires |ref.path| > 0 && ref.base in ctx.vars && !ctx.vars[ref.base].Object?
    ensures var c := SetVarRef(ctx, ref, v);
      c.vars[ref.base] == SetNested(Object(map[]), ref.path, v)
  {
  }
}
