/**
 * The scope-stack environment of the naux-lang evaluator (runtime/env.rs).
 * The stack is a sequence of scopes, the innermost last; it is generic in
 * the value type.
 */
module Env {
  import opened Wrappers

  datatype Env<V> = Env(scopes: seq<map<string, V>>)

  /** `Env::new`: one empty scope. */
  function New<V>(): (e: Env<V>)
    ensures |e.scopes| == 1 && e.scopes[0] == map[]
  {
    Env([map[]])
  }

  /** `push_scope`: a new empty innermost scope. */
  function Push<V>(e: Env<V>): (r: Env<V>)
    ensures |r.scopes| == |e.scopes| + 1
    ensures r.scopes[..|e.scopes|] == e.scopes && r.scopes[|e.scopes|] == map[]
  {
    Env(e.scopes + [map[]])
  }

  /** `pop_scope`: drops the innermost scope, but never the outermost one. */
  function Pop<V>(e: Env<V>): (r: Env<V>)
    ensures |e.scopes| > 1 ==> r.scopes == e.scopes[..|e.scopes| - 1]
    ensures |e.scopes| <= 1 ==> r == e
  {
    if |e.scopes| > 1 then Env(e.scopes[..|e.scopes| - 1]) else e
  }

  /** `set`: binds `name` in the innermost scope only. */
  function Set<V>(e: Env<V>, name: string, v: V): (r: Env<V>)
    ensures |r.scopes| == |e.scopes|
    ensures |e.scopes| > 0 ==> r.scopes[|e.scopes| - 1] == e.scopes[|e.scopes| - 1][name := v]
    ensures forall i :: 0 <= i < |e.scopes| - 1 ==> r.scopes[i] == e.scopes[i]
  {
    if |e.scopes| == 0 then e
    else Env(e.scopes[|e.scopes| - 1 := e.scopes[|e.scopes| - 1][name := v]])
  }

  /** The scope index `get` answers from: the innermost scope below `n` binding `name`. */
  predicate InnermostBinding<V>(scopes: seq<map<string, V>>, name: string, i: int)
  {
    0 <= i < |scopes| && name in scopes[i] && forall j :: i < j < |scopes| ==> name !in scopes[j]
  }

  /** `get`, searching the first `n` scopes from the innermost outwards. */
  function GetIn<V>(scopes: seq<map<string, V>>, n: nat, name: string): (r: Option<V>)
    requires n <= |scopes|
    ensures r.None? <==> forall i :: 0 <= i < n ==> name !in scopes[i]
    ensures r.Some? ==> exists i :: 0 <= i < n && name in scopes[i] && r.value == scopes[i][name]
  {
    if n == 0 then None
    else if name in scopes[n - 1] then Some(scopes[n - 1][name])
    else GetIn(scopes, n - 1, name)
  }

  /** `get`: the binding from the innermost scope that has the name, or None. */
  function Get<V>(e: Env<V>, name: string): Option<V>
  {
    GetIn(e.scopes, |e.scopes|, name)
  }

  /** `get` answers with the innermost binding, and with None exactly when no scope binds the name. */
  lemma GetSpec<V>(e: Env<V>, name: string)
    ensures Get(e, name).None? <==> forall i :: 0 <= i < |e.scopes| ==> name !in e.scopes[i]
    ensures forall i :: InnermostBinding(e.scopes, name, i) ==> Get(e, name) == Some(e.scopes[i][name])
  {
    forall i | InnermostBinding(e.scopes, name, i)
      ensures Get(e, name) == Some(e.scopes[i][name])
    {
      GetInInnermost(e.scopes, |e.scopes|, name, i);
    }
  }

  lemma {:induction false} GetInInnermost<V>(scopes: seq<map<string, V>>, n: nat, name: string, i: int)
    requires n <= |scopes| && 0 <= i < n && name in scopes[i]
    requires forall j :: i < j < n ==> name !in scopes[j]
    ensures GetIn(scopes, n, name) == Some(scopes[i][name])
  {
    if i < n - 1 {
      GetInInnermost(scopes, n - 1, name, i);
    }
  }

  /** `set(n, v)` followed by `get(n)` returns `v`. */
  lemma SetThenGet<V>(e: Env<V>, name: string, v: V)
    requires |e.scopes| > 0
    ensures Get(Set(e, name, v), name) == Some(v)
  {
  }

  /** `set` leaves every other name's binding as it was. */
  lemma SetKeepsOthers<V>(e: Env<V>, name: string, v: V, other: string)
    requires other != name
    ensures Get(Set(e, name, v), other) == Get(e, other)
  {
    var r := Set(e, name, v);
    if |e.scopes| > 0 {
      GetInOthers(e.scopes, r.scopes, |e.scopes|, other);
    }
  }

  /** Scope i binds name in a exactly when it does in b, and to the same value. */
  ghost predicate SameAt<V>(a: seq<map<string, V>>, b: seq<map<string, V>>, i: nat, name: string)
    requires i < |a| && i < |b|
  {
    (name in a[i] <==> name in b[i]) && (name in a[i] ==> a[i][name] == b[i][name])
  }

  lemma {:induction false} GetInOthers<V>(a: seq<map<string, V>>, b: seq<map<string, V>>, n: nat, name: string)
    requires n <= |a| == |b|
    requires forall i :: 0 <= i < n ==> SameAt(a, b, i, name)
    ensures GetIn(a, n, name) == GetIn(b, n, name)
  {
    if n > 0 {
      assert SameAt(a, b, n - 1, name);
      if name !in a[n - 1] {
        GetInOthers(a, b, n - 1, name);
      }
    }
  }

  /**
   * `pop_scope` undoes `push_scope` on any environment that has its global
   * scope; on a scopeless one the pushed scope becomes the outermost and stays.
   */
  lemma PushThenPop<V>(e: Env<V>)
    requires |e.scopes| >= 1
    ensures Pop(Push(e)) == e
    ensures |Pop(Push(e)).scopes| == |e.scopes|
  {
    assert Push(e).scopes[..|e.scopes|] == e.scopes;
  }

  /** A fresh scope adds no bindings: lookups see through it. */
  lemma PushKeepsGet<V>(e: Env<V>, name: string)
    ensures Get(Push(e), name) == Get(e, name)
  {
    var p := Push(e);
    assert p.scopes[..|e.scopes|] == e.scopes;
    GetInPrefix(p.scopes, e.scopes, |e.scopes|, name);
  }

  lemma {:induction false} GetInPrefix<V>(a: seq<map<string, V>>, b: seq<map<string, V>>, n: nat, name: string)
    requires n <= |a| && n <= |b|
    requires a[..n] == b[..n]
    ensures GetIn(a, n, name) == GetIn(b, n, name)
  {
    if n > 0 {
      assert a[n - 1] == a[..n][n - 1] == b[..n][n - 1] == b[n - 1];
      assert a[..n - 1] == a[..n][..n - 1];
      assert b[..n - 1] == b[..n][..n - 1];
      GetInPrefix(a, b, n - 1, name);
    }
  }

  /** `pop_scope` never removes the outermost scope. */
  lemma PopKeepsOutermost<V>(e: Env<V>)
    requires |e.scopes| > 0
    ensures |Pop(e).scopes| >= 1 && Pop(e).scopes[0] == e.scopes[0]
  {
  }
}
