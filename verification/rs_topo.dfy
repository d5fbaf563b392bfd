/**
 * `topo_sort` of the naux-rs runtime: Kahn's algorithm. In-degrees are
 * counted with multiplicity (two parallel edges count twice), every node
 * of in-degree zero starts in the queue, and a node joins the queue when
 * its last remaining incoming edge is removed. The order in which a hash
 * map lists the starting nodes is not fixed, so it is a parameter here.
 */
module RsTopo {
  import opened Wrappers

  /** An edge of the graph; `topo_sort` ignores the weight. */
  datatype Edge = Edge(u: string, v: string, w: real)

  const CycleMessage: string := "Graph has cycle; topo sort failed"

  /** Every endpoint of an edge. */
  function Nodes(es: seq<Edge>): set<string>
  {
    if |es| == 0 then {} else Nodes(es[..|es| - 1]) + {es[|es| - 1].u, es[|es| - 1].v}
  }

  /** The targets of the edges leaving x, in edge order: what `adj[x]` holds. */
  function Succ(es: seq<Edge>, x: string): seq<string>
  {
    if |es| == 0 then []
    else Succ(es[..|es| - 1], x) + (if es[|es| - 1].u == x then [es[|es| - 1].v] else [])
  }

  /** The number of edges into x whose source is not yet done. */
  function RemIn(es: seq<Edge>, done: set<string>, x: string): nat
  {
    if |es| == 0 then 0
    else RemIn(es[..|es| - 1], done, x) + (if es[|es| - 1].v == x && es[|es| - 1].u !in done then 1 else 0)
  }

  /** The in-degree `topo_sort` counts for x. */
  function InDeg(es: seq<Edge>, x: string): nat
  {
    RemIn(es, {}, x)
  }

  predicate Distinct(s: seq<string>)
  {
    forall i, j :: 0 <= i < j < |s| ==> s[i] != s[j]
  }

  /** o lists every node once, and the source of every edge comes before its target. */
  predicate TopoOrder(es: seq<Edge>, o: seq<string>)
  {
    && Distinct(o)
    && (forall x :: x in o ==> x in Nodes(es))
    && (forall x :: x in Nodes(es) ==> x in o)
    && (forall k, e :: 0 <= k < |o| && e in es && e.v == o[k] ==> e.u in o[..k])
  }

  lemma {:induction false} NodesMember(es: seq<Edge>, x: string)
    ensures x in Nodes(es) <==> exists e :: e in es && (e.u == x || e.v == x)
  {
    if |es| > 0 {
      var init := es[..|es| - 1];
      NodesMember(init, x);
      assert es == init + [es[|es| - 1]];
    }
  }

  /** RemIn is zero exactly when every edge into x starts at a done node. */
  lemma {:induction false} RemInZero(es: seq<Edge>, done: set<string>, x: string)
    ensures RemIn(es, done, x) == 0 <==> forall e :: e in es && e.v == x ==> e.u in done
  {
    if |es| > 0 {
      var init := es[..|es| - 1];
      RemInZero(init, done, x);
      assert es == init + [es[|es| - 1]];
    }
  }

  /** Finishing u removes exactly the edges out of u from every count. */
  lemma {:induction false} RemStep(es: seq<Edge>, done: set<string>, u: string, x: string)
    requires u !in done
    ensures RemIn(es, done + {u}, x) + multiset(Succ(es, u))[x] == RemIn(es, done, x)
  {
    if |es| > 0 {
      RemStep(es[..|es| - 1], done, u, x);
    }
  }

  /** A node with no edge out of it has an empty adjacency list. */
  lemma {:induction false} SuccEmpty(es: seq<Edge>, x: string)
    requires forall e :: e in es ==> e.u != x
    ensures Succ(es, x) == []
  {
    if |es| > 0 {
      SuccEmpty(es[..|es| - 1], x);
    }
  }

  /**
   * The first loop of `topo_sort`: `adj` collects the targets of every
   * edge under its source, `indeg` counts incoming edges and also enters
   * every source with count zero.
   */
  method Build(edges: seq<Edge>) returns (adj: map<string, seq<string>>, indeg: map<string, nat>)
    ensures indeg.Keys == Nodes(edges)
    ensures forall x :: x in indeg ==> indeg[x] == InDeg(edges, x)
    ensures forall x :: Succ(edges, x) == if x in adj then adj[x] else []
  {
    adj, indeg := map[], map[];
    var k := 0;
    while k < |edges|
      invariant k <= |edges|
      invariant indeg.Keys == Nodes(edges[..k])
      invariant forall x :: x in indeg ==> indeg[x] == InDeg(edges[..k], x)
      invariant forall x :: Succ(edges[..k], x) == if x in adj then adj[x] else []
    {
      adj, indeg := AddEdge(edges, k, adj, indeg);
      k := k + 1;
    }
    assert edges[..|edges|] == edges;
  }

  /** One round of the first loop: edge k enters `adj` and `indeg`. */
  method AddEdge(edges: seq<Edge>, k: nat, adj0: map<string, seq<string>>, indeg0: map<string, nat>)
    returns (adj: map<string, seq<string>>, indeg: map<string, nat>)
    requires k < |edges|
    requires indeg0.Keys == Nodes(edges[..k])
    requires forall x :: x in indeg0 ==> indeg0[x] == InDeg(edges[..k], x)
    requires forall x :: Succ(edges[..k], x) == if x in adj0 then adj0[x] else []
    ensures indeg.Keys == Nodes(edges[..k + 1])
    ensures forall x :: x in indeg ==> indeg[x] == InDeg(edges[..k + 1], x)
    ensures forall x :: Succ(edges[..k + 1], x) == if x in adj then adj[x] else []
  {
    var e := edges[k];
    ExtendPrefix(edges, k);
    if e.v !in indeg0 {
      NotNodeNoIn(edges[..k], e.v);
    }
    if e.u !in indeg0 {
      NotNodeNoIn(edges[..k], e.u);
    }
    adj := adj0[e.u := (if e.u in adj0 then adj0[e.u] else []) + [e.v]];
    indeg := indeg0[e.v := if e.v in indeg0 then indeg0[e.v] + 1 else 1];
    if e.u !in indeg {
      indeg := indeg[e.u := 0];
    }
    assert indeg.Keys == indeg0.Keys + {e.u, e.v};
    assert forall x :: x in indeg ==> indeg[x] == (if x in indeg0 then indeg0[x] else 0) + (if x == e.v then 1 else 0);
  }

  /** What one more edge adds to the node set, the adjacency lists and the in-degrees. */
  lemma ExtendPrefix(es: seq<Edge>, k: nat)
    requires k < |es|
    ensures Nodes(es[..k + 1]) == Nodes(es[..k]) + {es[k].u, es[k].v}
    ensures forall x :: Succ(es[..k + 1], x) == Succ(es[..k], x) + (if x == es[k].u then [es[k].v] else [])
    ensures forall x :: InDeg(es[..k + 1], x) == InDeg(es[..k], x) + (if x == es[k].v then 1 else 0)
  {
    assert es[..k + 1][..k] == es[..k];
  }

  /** Nothing points into a node that is not an endpoint of any edge. */
  lemma {:induction false} NotNodeNoIn(es: seq<Edge>, x: string)
    requires x !in Nodes(es)
    ensures InDeg(es, x) == 0
  {
    if |es| > 0 {
      NotNodeNoIn(es[..|es| - 1], x);
    }
  }

  /**
   * `topo_sort`. `start` is the initial queue: the nodes of in-degree zero,
   * each once, in whatever order the hash map yields them. The result is a
   * topological order when one exists and the cycle error when none does.
   */
  method TopoSort(edges: seq<Edge>, start: seq<string>) returns (r: Result<seq<string>, string>)
    requires Distinct(start)
    requires forall x :: x in start <==> x in Nodes(edges) && InDeg(edges, x) == 0
    ensures r.Ok? ==> TopoOrder(edges, r.value)
    ensures r.Err? ==> r.error == CycleMessage && forall o :: !TopoOrder(edges, o)
  {
    var adj, indeg0 := Build(edges);
    var order, indeg, done := Drain(edges, adj, indeg0, start);
    ghost var nodes := Nodes(edges);
    DistinctCard(order, done);
    if |order| != |indeg| {
      assert |indeg| == |nodes|;
      if nodes <= done {
        SubsetSmaller(nodes, done);
        SubsetSmaller(done, nodes);
        assert false;
      }
      NoOrder(edges, done);
      return Err(CycleMessage);
    }
    SubsetCard(done, nodes);
    return Ok(order);
  }

  /**
   * The main loop of `topo_sort`: pop the front of the queue, append it to
   * the order and remove its outgoing edges. When the queue is empty, every
   * node left over still has an incoming edge from another leftover node.
   */
  method Drain(edges: seq<Edge>, adj: map<string, seq<string>>, indeg0: map<string, nat>, start: seq<string>)
    returns (order: seq<string>, indeg: map<string, nat>, ghost done: set<string>)
    requires indeg0.Keys == Nodes(edges)
    requires forall x :: x in indeg0 ==> indeg0[x] == InDeg(edges, x)
    requires forall x :: Succ(edges, x) == if x in adj then adj[x] else []
    requires Distinct(start)
    requires forall x :: x in start <==> x in Nodes(edges) && InDeg(edges, x) == 0
    ensures indeg.Keys == Nodes(edges)
    ensures forall x :: x in order <==> x in done
    ensures done <= Nodes(edges) && Distinct(order)
    ensures forall k, e :: 0 <= k < |order| && e in edges && e.v == order[k] ==> e.u in order[..k]
    ensures forall x :: x in Nodes(edges) && x !in done ==> exists e :: e in edges && e.v == x && e.u !in done
  {
    indeg := indeg0;
    var q := start;
    order := [];
    done := {};
    while |q| > 0
      invariant Kahn(edges, order, indeg, q, done)
      decreases |Nodes(edges) - done|
    {
      ghost var done0 := done;
      order, indeg, q, done := Visit(edges, adj, order, indeg, q, done);
      assert Nodes(edges) - done < Nodes(edges) - done0;
    }
    forall x | x in Nodes(edges) && x !in done
      ensures exists e :: e in edges && e.v == x && e.u !in done
    {
      RemInZero(edges, done, x);
    }
  }

  /** The state the main loop of `topo_sort` keeps: done is the set of nodes already in the order. */
  ghost predicate Kahn(edges: seq<Edge>, order: seq<string>, indeg: map<string, nat>, q: seq<string>, done: set<string>)
  {
    var nodes := Nodes(edges);
    && indeg.Keys == nodes
    && (forall x :: x in order <==> x in done)
    && done <= nodes
    && Distinct(order) && Distinct(q)
    && (forall x :: x in q ==> x in nodes && x !in done && indeg[x] == 0)
    && (forall x :: x in nodes ==> indeg[x] == RemIn(edges, done, x))
    && (forall x :: x in nodes && x !in done && indeg[x] == 0 ==> x in q)
    && (forall x :: x in done ==> RemIn(edges, done, x) == 0)
    && (forall k, e :: 0 <= k < |order| && e in edges && e.v == order[k] ==> e.u in order[..k])
  }

  /** One round of the main loop: the front of the queue moves to the order and its edges are removed. */
  method Visit(edges: seq<Edge>, adj: map<string, seq<string>>, order0: seq<string>, indeg0: map<string, nat>, q0: seq<string>, ghost done0: set<string>)
    returns (order: seq<string>, indeg: map<string, nat>, q: seq<string>, ghost done: set<string>)
    requires forall x :: Succ(edges, x) == if x in adj then adj[x] else []
    requires |q0| > 0 && Kahn(edges, order0, indeg0, q0, done0)
    ensures Kahn(edges, order, indeg, q, done)
    ensures q0[0] !in done0 && q0[0] in Nodes(edges) && done == done0 + {q0[0]}
  {
    var u := q0[0];
    assert Distinct(q0[1..]) && forall x :: x in q0[1..] ==> x in q0 && x != u;
    q := q0[1..];
    RemInZero(edges, done0, u);
    PrecedesAppend(edges, order0, u);
    order := AppendFresh(order0, u);
    var nei: seq<string> := [];
    if u in adj {
      nei := adj[u];
    }
    indeg, q := Relax(edges, done0, u, nei, indeg0, q);
    forall x | x in done0 + {u}
      ensures RemIn(edges, done0 + {u}, x) == 0
    {
      RemStep(edges, done0, u, x);
    }
    done := done0 + {u};
  }

  /**
   * The inner loop of `topo_sort`: every edge out of u lowers its target's
   * count by one, and a target whose count reaches zero joins the queue.
   * The usize count never goes below zero: an edge out of u still counts
   * toward its target when it is removed.
   */
  method Relax(edges: seq<Edge>, ghost done: set<string>, u: string, nei: seq<string>, indeg0: map<string, nat>, q0: seq<string>)
    returns (indeg: map<string, nat>, q: seq<string>)
    requires u in Nodes(edges) && u !in done && nei == Succ(edges, u)
    requires indeg0.Keys == Nodes(edges)
    requires forall x :: x in Nodes(edges) ==> indeg0[x] == RemIn(edges, done, x)
    requires RemIn(edges, done, u) == 0
    requires forall x :: x in done ==> RemIn(edges, done, x) == 0
    requires Distinct(q0)
    requires forall x :: x in q0 ==> x in Nodes(edges) && x !in done && x != u && indeg0[x] == 0
    requires forall x :: x in Nodes(edges) && x !in done && x != u && indeg0[x] == 0 ==> x in q0
    ensures indeg.Keys == Nodes(edges)
    ensures forall x :: x in Nodes(edges) ==> indeg[x] == RemIn(edges, done + {u}, x)
    ensures Distinct(q)
    ensures forall x :: x in q ==> x in Nodes(edges) && x !in done && x != u && indeg[x] == 0
    ensures forall x :: x in Nodes(edges) && x !in done && x != u && indeg[x] == 0 ==> x in q
  {
    ghost var nodes := Nodes(edges);
    indeg, q := indeg0, q0;
    var k := 0;
    while k < |nei|
      invariant k <= |nei|
      invariant Counted(edges, done, nei, k, indeg)
      invariant Queued(edges, done, u, indeg, q)
    {
      indeg, q := RelaxOne(edges, done, u, nei, k, indeg, q);
      k := k + 1;
    }
    assert nei[..k] == nei;
    forall x | x in nodes
      ensures indeg[x] == RemIn(edges, done + {u}, x)
    {
      RemStep(edges, done, u, x);
    }
  }

  /** The counts so far: each node's count plus the edges out of u already removed toward it is its in-degree from unvisited nodes. */
  ghost predicate Counted(edges: seq<Edge>, done: set<string>, nei: seq<string>, k: nat, indeg: map<string, nat>)
    requires k <= |nei|
  {
    && indeg.Keys == Nodes(edges)
    && forall x :: x in Nodes(edges) ==> indeg[x] + multiset(nei[..k])[x] == RemIn(edges, done, x)
  }

  /** The queue holds, once each, exactly the unvisited nodes other than u whose count is zero. */
  ghost predicate Queued(edges: seq<Edge>, done: set<string>, u: string, indeg: map<string, nat>, q: seq<string>)
  {
    && indeg.Keys == Nodes(edges)
    && Distinct(q)
    && (forall x :: x in q ==> x in Nodes(edges) && x !in done && x != u && indeg[x] == 0)
    && (forall x :: x in Nodes(edges) && x !in done && x != u && indeg[x] == 0 ==> x in q)
  }

  /** Taking one more element of a sequence adds one to its count in the prefix, which stays within its count in the whole. */
  lemma PrefixCount(nei: seq<string>, k: nat)
    requires k < |nei|
    ensures forall x :: multiset(nei[..k + 1])[x] == multiset(nei[..k])[x] + (if x == nei[k] then 1 else 0)
    ensures multiset(nei[..k + 1])[nei[k]] <= multiset(nei)[nei[k]]
  {
    assert nei[..k + 1] == nei[..k] + [nei[k]];
    assert nei == nei[..k + 1] + nei[k + 1..];
  }

  /** One pass of the inner loop: the edge from u to nei[k] is removed. */
  method RelaxOne(edges: seq<Edge>, ghost done: set<string>, u: string, nei: seq<string>, k: nat, indeg0: map<string, nat>, q0: seq<string>)
    returns (indeg: map<string, nat>, q: seq<string>)
    requires u !in done && nei == Succ(edges, u) && k < |nei|
    requires RemIn(edges, done, u) == 0
    requires forall x :: x in done ==> RemIn(edges, done, x) == 0
    requires Counted(edges, done, nei, k, indeg0) && Queued(edges, done, u, indeg0, q0)
    ensures Counted(edges, done, nei, k + 1, indeg) && Queued(edges, done, u, indeg, q)
  {
    ghost var nodes := Nodes(edges);
    indeg, q := indeg0, q0;
    var v := nei[k];
    assert v in nodes by {
      SuccNode(edges, u, k);
    }
    PrefixCount(nei, k);
    RemStep(edges, done, u, v);
    assert indeg[v] >= 1 && RemIn(edges, done, v) >= 1;
    assert v !in done && v != u && v !in q;
    if v in indeg {
      indeg := indeg[v := indeg[v] - 1];
      if indeg[v] == 0 {
        q := AppendFresh(q, v);
      }
    }
    assert forall x :: x in nodes && x != v ==> indeg[x] == indeg0[x];
  }

  /** Appending a node whose predecessors are all listed keeps every edge's source before its target. */
  lemma PrecedesAppend(es: seq<Edge>, o: seq<string>, u: string)
    requires forall k, e :: 0 <= k < |o| && e in es && e.v == o[k] ==> e.u in o[..k]
    requires forall e :: e in es && e.v == u ==> e.u in o
    ensures forall k, e :: 0 <= k < |o| + 1 && e in es && e.v == (o + [u])[k] ==> e.u in (o + [u])[..k]
  {
    assert (o + [u])[..|o|] == o;
    forall k | 0 <= k < |o|
      ensures (o + [u])[..k] == o[..k] && (o + [u])[k] == o[k]
    {
    }
  }

  /** Pushing a value not yet in a distinct queue keeps it distinct. */
  function AppendFresh(q: seq<string>, v: string): (r: seq<string>)
    requires Distinct(q) && v !in q
    ensures Distinct(r) && forall x :: x in r <==> x in q || x == v
  {
    q + [v]
  }

  /** The target of an edge is a node. */
  lemma {:induction false} SuccNode(es: seq<Edge>, u: string, k: nat)
    requires k < |Succ(es, u)|
    ensures Succ(es, u)[k] in Nodes(es)
  {
    var init := es[..|es| - 1];
    if k < |Succ(init, u)| {
      SuccNode(init, u, k);
    }
  }

  /** A sequence without repeats is as long as the set of its elements. */
  lemma {:induction false} DistinctCard(s: seq<string>, xs: set<string>)
    requires Distinct(s) && forall x :: x in s <==> x in xs
    ensures |s| == |xs|
  {
    if |s| > 0 {
      var init := s[..|s| - 1];
      assert forall x :: x in init <==> x in xs - {s[|s| - 1]};
      DistinctCard(init, xs - {s[|s| - 1]});
    }
  }

  lemma {:induction false} SubsetCard(a: set<string>, b: set<string>)
    requires a <= b && |a| == |b|
    ensures a == b
  {
    if !(b <= a) {
      var y :| y in b && y !in a;
      assert a <= b - {y};
      SubsetSmaller(a, b - {y});
    }
  }

  lemma {:induction false} SubsetSmaller(a: set<string>, b: set<string>)
    requires a <= b
    ensures |a| <= |b|
  {
    assert b == a + (b - a);
  }

  /**
   * When the queue runs dry with some nodes left, each of them still has an
   * edge from another leftover node, so no topological order exists: the
   * first leftover node in any candidate order would have a leftover
   * predecessor before it.
   */
  lemma NoOrder(es: seq<Edge>, done: set<string>)
    requires !(Nodes(es) <= done)
    requires forall x :: x in Nodes(es) && x !in done ==> exists e :: e in es && e.v == x && e.u !in done
    ensures forall o :: !TopoOrder(es, o)
  {
    forall o | TopoOrder(es, o)
      ensures false
    {
      FirstLeftoverFree(es, o, done);
    }
  }

  /** In any topological order, the first node outside done has all its predecessors in done. */
  lemma FirstLeftoverFree(es: seq<Edge>, o: seq<string>, done: set<string>)
    requires TopoOrder(es, o) && !(Nodes(es) <= done)
    ensures exists x :: x in Nodes(es) && x !in done && forall e :: e in es && e.v == x ==> e.u in done
  {
    var y :| y in Nodes(es) && y !in done;
    var k := FirstOutside(o, done, y);
    forall e | e in es && e.v == o[k]
      ensures e.u in done
    {
      assert e.u in o[..k];
    }
  }

  /** The first position of o holding something outside done. */
  lemma FirstOutside(o: seq<string>, done: set<string>, y: string) returns (k: nat)
    requires y in o && y !in done
    ensures k < |o| && o[k] !in done && forall j :: 0 <= j < k ==> o[j] in done
  {
    k := 0;
    while o[k] in done
      invariant k < |o| && y in o[k..]
      decreases |o| - k
      invariant forall j :: 0 <= j < k ==> o[j] in done
    {
      k := k + 1;
    }
  }
}
