/**
 * The graph builtins of naux-lang (stdlib/graph.rs): an adjacency-list
 * graph shared by reference, edge insertion, neighbour lists, breadth-first
 * search and Dijkstra's shortest path with path reconstruction.
 *
 * These builtins work on the flat value type of the evaluator, extended by
 * a graph handle; an argument is therefore either a plain value or a graph.
 * `graph_add_edge` mutates the graph behind the handle and returns Null;
 * the model returns the updated graph instead.
 */
module StdGraph {
  import opened Wrappers
  import SV = ScriptValue

  /** Adjacency lists: for every node, its outgoing (neighbour, weight) pairs in insertion order. */
  datatype Graph = Graph(directed: bool, adj: map<string, seq<(string, real)>>)

  /** A builtin argument: a value of the evaluator, or a graph handle. */
  datatype Arg = Plain(v: SV.Value) | GraphRef(g: Graph)

  predicate IsText(a: Arg) { a.Plain? && a.v.Text? }

  /** `graph_new`: directed exactly when the first argument is `true`; no nodes yet. */
  function GraphNew(args: seq<Arg>): (g: Graph)
    ensures g.directed <==> |args| > 0 && args[0] == Plain(SV.Bool(true))
    ensures g.adj == map[]
  {
    Graph(|args| > 0 && args[0] == Plain(SV.Bool(true)), map[])
  }

  /** The adjacency list of `u`, empty for a node without one. */
  function Out(g: Graph, u: string): seq<(string, real)>
  {
    if u in g.adj then g.adj[u] else []
  }

  /** `adj.entry(u).or_insert_with(Vec::new).push((v, w))`. */
  function AddArc(g: Graph, u: string, v: string, w: real): (r: Graph)
    ensures r.directed == g.directed && r.adj.Keys == g.adj.Keys + {u}
    ensures Out(r, u) == Out(g, u) + [(v, w)]
    ensures forall x :: x != u ==> Out(r, x) == Out(g, x)
  {
    g.(adj := g.adj[u := Out(g, u) + [(v, w)]])
  }

  /**
   * `graph_add_edge(graph, from, to, [weight])`: the weight defaults to 1;
   * an undirected graph also gets the reverse edge.
   */
  function GraphAddEdge(args: seq<Arg>): (r: Result<Graph, string>)
    ensures |args| < 3 ==> r == Err("graph_add_edge requires at least 3 args: (graph, from, to, [weight])")
    ensures |args| >= 3 && !args[0].GraphRef? ==> r == Err("graph_add_edge: first argument must be a Graph")
    ensures |args| >= 3 && args[0].GraphRef? && !IsText(args[1]) ==> r == Err("graph_add_edge: from must be text")
    ensures |args| >= 3 && args[0].GraphRef? && IsText(args[1]) && !IsText(args[2]) ==>
      r == Err("graph_add_edge: to must be text")
    ensures |args| >= 4 && args[0].GraphRef? && IsText(args[1]) && IsText(args[2]) && !(args[3].Plain? && args[3].v.Number?) ==>
      r == Err("graph_add_edge: weight must be number")
    ensures r.Ok? ==>
      var g := args[0].g;
      var u := args[1].v.s;
      var v := args[2].v.s;
      var w := if |args| >= 4 then args[3].v.n else 1.0;
      r.value.directed == g.directed
      && (g.directed || u != v ==> Out(r.value, u) == Out(g, u) + [(v, w)])
      && (!g.directed && u != v ==> Out(r.value, v) == Out(g, v) + [(u, w)])
      && (!g.directed && u == v ==> Out(r.value, u) == Out(g, u) + [(v, w), (u, w)])
      && (forall x :: x != u && x != v ==> Out(r.value, x) == Out(g, x))
      && (g.directed ==> forall x :: x != u ==> Out(r.value, x) == Out(g, x))
  {
    if |args| < 3 then Err("graph_add_edge requires at least 3 args: (graph, from, to, [weight])")
    else if !args[0].GraphRef? then Err("graph_add_edge: first argument must be a Graph")
    else if !IsText(args[1]) then Err("graph_add_edge: from must be text")
    else if !IsText(args[2]) then Err("graph_add_edge: to must be text")
    else if |args| >= 4 && !(args[3].Plain? && args[3].v.Number?) then Err("graph_add_edge: weight must be number")
    else
      Ok(AddEdge(args[0].g, args[1].v.s, args[2].v.s, if |args| >= 4 then args[3].v.n else 1.0))
  }

  /** The arc from u to v, and on an undirected graph the one back. */
  function AddEdge(g: Graph, u: string, v: string, w: real): (r: Graph)
    ensures r.directed == g.directed
    ensures g.directed || u != v ==> Out(r, u) == Out(g, u) + [(v, w)]
    ensures !g.directed && u != v ==> Out(r, v) == Out(g, v) + [(u, w)]
    ensures !g.directed && u == v ==> Out(r, u) == Out(g, u) + [(v, w), (u, w)]
    ensures forall x :: x != u && x != v ==> Out(r, x) == Out(g, x)
    ensures g.directed ==> forall x :: x != u ==> Out(r, x) == Out(g, x)
  {
    var g1 := AddArc(g, u, v, w);
    if g.directed then g1 else AddArc(g1, v, u, w)
  }

  function Texts(names: seq<string>): (r: seq<SV.Value>)
    ensures |r| == |names| && forall i :: 0 <= i < |names| ==> r[i] == SV.Text(names[i])
  {
    if |names| == 0 then [] else [SV.Text(names[0])] + Texts(names[1..])
  }

  function Targets(out: seq<(string, real)>): (r: seq<string>)
    ensures |r| == |out| && forall i :: 0 <= i < |out| ==> r[i] == out[i].0
  {
    if |out| == 0 then [] else [out[0].0] + Targets(out[1..])
  }

  /** `graph_neighbors(graph, node)`: the neighbours in insertion order, none for an unknown node. */
  function GraphNeighbors(args: seq<Arg>): (r: Result<SV.Value, string>)
    ensures |args| != 2 ==> r == Err("graph_neighbors(graph, node) requires 2 args")
    ensures |args| == 2 && !args[0].GraphRef? ==> r == Err("graph_neighbors: first arg must be Graph")
    ensures |args| == 2 && args[0].GraphRef? && !IsText(args[1]) ==> r == Err("graph_neighbors: node must be text")
    ensures |args| == 2 && args[0].GraphRef? && IsText(args[1]) ==> r.Ok? && r.value.List?
    ensures r.Ok? ==> var out := Out(args[0].g, args[1].v.s);
      |r.value.items| == |out| && forall i :: 0 <= i < |out| ==> r.value.items[i] == SV.Text(out[i].0)
  {
    if |args| != 2 then Err("graph_neighbors(graph, node) requires 2 args")
    else if !args[0].GraphRef? then Err("graph_neighbors: first arg must be Graph")
    else if !IsText(args[1]) then Err("graph_neighbors: node must be text")
    else Ok(SV.List(Texts(Targets(Out(args[0].g, args[1].v.s)))))
  }

  /** Adding an edge makes its target a neighbour of its source, after the old ones. */
  lemma AddEdgeThenNeighbors(g: Graph, u: string, v: string)
    ensures var g2 := GraphAddEdge([GraphRef(g), Plain(SV.Text(u)), Plain(SV.Text(v))]).value;
      var before := GraphNeighbors([GraphRef(g), Plain(SV.Text(u))]).value.items;
      var after := GraphNeighbors([GraphRef(g2), Plain(SV.Text(u))]).value.items;
      |after| > |before| && after[..|before|] == before && after[|before|] == SV.Text(v)
  {
  }

  // ------------------------------------------------------------- walks

  /** `g` has an edge from `u` to `v` of weight `w`. */
  predicate Arc(g: Graph, u: string, v: string, w: real)
  {
    (v, w) in Out(g, u)
  }

  /** `nodes` is a walk along edges of `g` whose edge weights are `ws`. */
  ghost predicate IsWalk(g: Graph, nodes: seq<string>, ws: seq<real>)
  {
    |nodes| == |ws| + 1 && forall i :: 0 <= i < |ws| ==> Arc(g, nodes[i], nodes[i + 1], ws[i])
  }

  ghost predicate WalkFrom(g: Graph, nodes: seq<string>, ws: seq<real>, s: string, t: string)
  {
    IsWalk(g, nodes, ws) && nodes[0] == s && nodes[|nodes| - 1] == t
  }

  ghost predicate Reachable(g: Graph, s: string, t: string)
  {
    exists nodes, ws :: WalkFrom(g, nodes, ws, s, t)
  }

  /** Extending a walk by one edge. */
  lemma WalkSnoc(g: Graph, nodes: seq<string>, ws: seq<real>, s: string, t: string, v: string, w: real)
    requires WalkFrom(g, nodes, ws, s, t) && Arc(g, t, v, w)
    ensures WalkFrom(g, nodes + [v], ws + [w], s, v)
  {
    var n2, w2 := nodes + [v], ws + [w];
    forall i | 0 <= i < |w2|
      ensures Arc(g, n2[i], n2[i + 1], w2[i])
    {
      if i < |ws| {
        assert n2[i] == nodes[i] && n2[i + 1] == nodes[i + 1] && w2[i] == ws[i];
      }
    }
  }

  lemma ReachStep(g: Graph, s: string, t: string, v: string, w: real)
    requires Reachable(g, s, t) && Arc(g, t, v, w)
    ensures Reachable(g, s, v)
  {
    var nodes, ws :| WalkFrom(g, nodes, ws, s, t);
    WalkSnoc(g, nodes, ws, s, t, v, w);
  }

  lemma ReachSelf(g: Graph, s: string)
    ensures Reachable(g, s, s)
  {
    assert WalkFrom(g, [s], [], s, s);
  }

  /** Dropping the last edge of a walk leaves a walk to the node before it. */
  lemma WalkInit(g: Graph, nodes: seq<string>, ws: seq<real>, s: string, t: string)
    requires WalkFrom(g, nodes, ws, s, t) && |ws| > 0
    ensures WalkFrom(g, nodes[..|ws|], ws[..|ws| - 1], s, nodes[|ws| - 1])
    ensures Arc(g, nodes[|ws| - 1], t, ws[|ws| - 1])
    ensures ws == ws[..|ws| - 1] + [ws[|ws| - 1]]
  {
    var n := |ws|;
    forall i | 0 <= i < n - 1
      ensures Arc(g, nodes[..n][i], nodes[..n][i + 1], ws[..n - 1][i])
    {
      assert Arc(g, nodes[i], nodes[i + 1], ws[i]);
    }
  }

  /** Putting an edge in front of a walk. */
  lemma WalkCons(g: Graph, nodes: seq<string>, ws: seq<real>, s: string, t: string, p: string, w: real)
    requires WalkFrom(g, nodes, ws, s, t) && Arc(g, p, s, w)
    ensures WalkFrom(g, [p] + nodes, [w] + ws, p, t)
  {
    var n2, w2 := [p] + nodes, [w] + ws;
    forall i | 0 <= i < |w2|
      ensures Arc(g, n2[i], n2[i + 1], w2[i])
    {
      if i > 0 {
        assert n2[i] == nodes[i - 1] && n2[i + 1] == nodes[i] && w2[i] == ws[i - 1];
      }
    }
  }

  /** Every name that occurs in the graph, as a node with a list or as a neighbour. */
  function Names(g: Graph): set<string>
  {
    g.adj.Keys + set u, k | u in g.adj && 0 <= k < |g.adj[u]| :: g.adj[u][k].0
  }

  lemma ArcInNames(g: Graph, u: string, k: int)
    requires 0 <= k < |Out(g, u)|
    ensures Out(g, u)[k].0 in Names(g)
  {
    assert u in g.adj;
  }

  /** Every neighbour of a member of `S` is in `S`. */
  ghost predicate ArcClosed(g: Graph, S: set<string>)
  {
    forall u, k :: u in S && 0 <= k < |Out(g, u)| ==> Out(g, u)[k].0 in S
  }

  /** A set that holds `s` and is closed under edges holds every node reachable from `s`. */
  lemma {:induction false} ClosedHoldsWalk(g: Graph, S: set<string>, nodes: seq<string>, ws: seq<real>, s: string, t: string)
    requires s in S && ArcClosed(g, S)
    requires WalkFrom(g, nodes, ws, s, t)
    ensures t in S
    decreases |ws|
  {
    if |ws| > 0 {
      var n := |ws|;
      WalkInit(g, nodes, ws, s, t);
      ClosedHoldsWalk(g, S, nodes[..n], ws[..n - 1], s, nodes[n - 1]);
      assert Arc(g, nodes[n - 1], t, ws[n - 1]);
      var k :| 0 <= k < |Out(g, nodes[n - 1])| && Out(g, nodes[n - 1])[k] == (t, ws[n - 1]);
    }
  }

  // --------------------------------------------------------------- bfs

  ghost predicate Distinct(s: seq<string>)
  {
    forall i, j :: 0 <= i < j < |s| ==> s[i] != s[j]
  }

  /** `found[i]` is a neighbour of a node found before it among the first `expanded`. */
  ghost predicate DiscoveredBy(g: Graph, found: seq<string>, expanded: nat, i: nat)
    requires i < |found|
  {
    exists j, w :: 0 <= j < i && j < expanded && Arc(g, found[j], found[i], w)
  }

  /** `order[i]` is a neighbour of a node listed before it. */
  ghost predicate ReachedFromEarlier(g: Graph, order: seq<string>, i: nat)
    requires i < |order|
  {
    exists j, w :: 0 <= j < i && Arc(g, order[j], order[i], w)
  }

  ghost predicate AllReachable(g: Graph, start: string, S: set<string>)
  {
    forall x :: x in S ==> Reachable(g, start, x)
  }

  /**
   * Discovery so far: `found` lists every discovered node once, in the
   * order of discovery, starting with `start`; each later node was
   * discovered along an edge from a node before it that was already
   * expanded; all of them are reachable from `start`.
   */
  ghost predicate Discovered(g: Graph, start: string, found: seq<string>, expanded: nat, visited: set<string>)
  {
    && 0 < |found| && found[0] == start && expanded <= |found|
    && Distinct(found)
    && (forall x :: x in visited <==> x in found)
    && visited <= Names(g) + {start}
    && (forall i: nat :: 0 < i < |found| ==> DiscoveredBy(g, found, expanded, i))
    && AllReachable(g, start, visited)
  }

  /** `g` has an edge from `u` to `v`, of any weight. */
  predicate HasArc(g: Graph, u: string, v: string)
  {
    v in Targets(Out(g, u))
  }

  /**
   * `par[i]` is the first discoverer of `found[i]`: the earliest found node
   * with an edge to it. Discoverers never go down along `found`, which is
   * what makes the order breadth-first.
   */
  ghost predicate FirstDiscoverers(g: Graph, found: seq<string>, expanded: nat, par: seq<nat>)
  {
    && |par| == |found|
    && ParentsArcs(g, found, expanded, par)
    && NoEarlierArc(g, found, par)
    && (forall i, i' :: 0 < i < i' < |found| ==> par[i] <= par[i'])
  }

  /** Every node but the first hangs under an earlier, already expanded node that has an arc to it. */
  ghost predicate ParentsArcs(g: Graph, found: seq<string>, expanded: nat, par: seq<nat>)
    requires |par| == |found|
  {
    forall i :: 0 < i < |found| ==> par[i] < expanded && par[i] < i && HasArc(g, found[par[i]], found[i])
  }

  /** No node found before a node's parent has an arc to it. */
  ghost predicate NoEarlierArc(g: Graph, found: seq<string>, par: seq<nat>)
    requires |par| == |found|
  {
    forall i, j :: 0 < i < |found| && 0 <= j < par[i] && j < |found| ==> !HasArc(g, found[j], found[i])
  }

  /** Some node among the first `j' + 1` of `order` has an edge to `order[i]`. */
  ghost predicate ArcFromUpTo(g: Graph, order: seq<string>, j': nat, i: nat)
    requires j' < |order| && i < |order|
  {
    exists j :: 0 <= j <= j' && HasArc(g, order[j], order[i])
  }

  /**
   * Breadth-first order: if `order[i]` is listed before `order[i']`, then
   * whichever node reaches `order[i']` first, some node no later than it
   * already reaches `order[i]`.
   */
  ghost predicate BreadthFirst(g: Graph, order: seq<string>)
  {
    forall i: nat, i': nat, j': nat :: 0 < i < i' < |order| && j' < |order| && HasArc(g, order[j'], order[i']) ==>
      ArcFromUpTo(g, order, j', i)
  }

  lemma FirstDiscoverersBreadthFirst(g: Graph, order: seq<string>, par: seq<nat>)
    requires FirstDiscoverers(g, order, |order|, par)
    ensures BreadthFirst(g, order)
  {
    forall i: nat, i': nat, j': nat | 0 < i < i' < |order| && j' < |order| && HasArc(g, order[j'], order[i'])
      ensures ArcFromUpTo(g, order, j', i)
    {
      assert par[i] <= par[i'] <= j';
      assert HasArc(g, order[par[i]], order[i]);
    }
  }

  /** The new node `nbr`, found while expanding `found[expanded - 1]`, has that node as first discoverer. */
  lemma FirstStep(g: Graph, found0: seq<string>, found: seq<string>, expanded: nat, visited0: set<string>, visited: set<string>, par: seq<nat>, nbr: string)
    requires 0 < expanded <= |found0| <= |found| && found[..|found0|] == found0
    requires FirstDiscoverers(g, found, expanded, par)
    requires ExpandedClosed(g, found0, expanded - 1, visited0) && visited0 <= visited && nbr !in visited
    requires HasArc(g, found[expanded - 1], nbr)
    ensures FirstDiscoverers(g, found + [nbr], expanded, par + [expanded - 1])
  {
    var f2, p2 := found + [nbr], par + [expanded - 1];
    FirstStepArcs(g, found, expanded, par, nbr);
    FirstStepNoEarlier(g, found0, found, expanded, visited0, visited, par, nbr);
    forall i, i' | 0 < i < i' < |f2|
      ensures p2[i] <= p2[i']
    {
      assert p2[i] == par[i];
      if i' < |found| {
        assert p2[i'] == par[i'];
      }
    }
  }

  lemma FirstStepArcs(g: Graph, found: seq<string>, expanded: nat, par: seq<nat>, nbr: string)
    requires 0 < expanded <= |found| && |par| == |found| && ParentsArcs(g, found, expanded, par)
    requires HasArc(g, found[expanded - 1], nbr)
    ensures ParentsArcs(g, found + [nbr], expanded, par + [expanded - 1])
  {
    var f2, p2 := found + [nbr], par + [expanded - 1];
    forall i | 0 < i < |f2|
      ensures p2[i] < expanded && p2[i] < i && HasArc(g, f2[p2[i]], f2[i])
    {
      if i == |found| {
        assert f2[p2[i]] == found[expanded - 1];
      } else {
        assert p2[i] == par[i] && f2[i] == found[i] && f2[par[i]] == found[par[i]];
      }
    }
  }

  lemma FirstStepNoEarlier(g: Graph, found0: seq<string>, found: seq<string>, expanded: nat, visited0: set<string>, visited: set<string>, par: seq<nat>, nbr: string)
    requires 0 < expanded <= |found0| <= |found| && found[..|found0|] == found0 && |par| == |found|
    requires NoEarlierArc(g, found, par) && ParentsArcs(g, found, expanded, par)
    requires ExpandedClosed(g, found0, expanded - 1, visited0) && visited0 <= visited && nbr !in visited
    ensures NoEarlierArc(g, found + [nbr], par + [expanded - 1])
  {
    var f2, p2 := found + [nbr], par + [expanded - 1];
    forall i, j | 0 < i < |f2| && 0 <= j < p2[i] && j < |f2|
      ensures !HasArc(g, f2[j], f2[i])
    {
      if i == |found| {
        assert p2[i] == expanded - 1 && f2[i] == nbr && f2[j] == found[j];
        assert found[..|found0|][j] == found[j];
        NoArcToUnvisited(g, found0, expanded - 1, visited0, nbr, j);
      } else {
        assert p2[i] == par[i] < i;
        assert f2[j] == found[j] && f2[i] == found[i];
      }
    }
  }

  /** An expanded node has no arc to a node outside the visited set. */
  lemma NoArcToUnvisited(g: Graph, found: seq<string>, expanded: nat, visited: set<string>, nbr: string, j: nat)
    requires expanded <= |found| && ExpandedClosed(g, found, expanded, visited) && nbr !in visited && j < expanded
    ensures !HasArc(g, found[j], nbr)
  {
    var out := Out(g, found[j]);
    forall k | 0 <= k < |out|
      ensures Targets(out)[k] != nbr
    {
      assert out[k].0 in visited;
    }
  }

  /** Finding an unvisited neighbour `nbr` of the node being expanded. */
  lemma DiscoverStep(g: Graph, start: string, found: seq<string>, expanded: nat, visited: set<string>, nbr: string, w: real)
    requires Discovered(g, start, found, expanded, visited)
    requires 0 < expanded && Arc(g, found[expanded - 1], nbr, w) && nbr !in visited && nbr in Names(g)
    ensures Discovered(g, start, found + [nbr], expanded, visited + {nbr})
  {
    var node := found[expanded - 1];
    var f2 := found + [nbr];
    assert node in found;
    ReachStep(g, start, node, nbr, w);
    forall x
      ensures x in visited + {nbr} <==> x in f2
    {
      if x in found {
        var i :| 0 <= i < |found| && found[i] == x;
        assert f2[i] == x;
      }
      if x in f2 {
        var i :| 0 <= i < |f2| && f2[i] == x;
        if i < |found| {
          assert found[i] == x;
        }
      }
    }
    forall i: nat | 0 < i < |f2|
      ensures DiscoveredBy(g, f2, expanded, i)
    {
      if i < |found| {
        assert DiscoveredBy(g, found, expanded, i);
        var j, w' :| 0 <= j < i && j < expanded && Arc(g, found[j], found[i], w');
        assert Arc(g, f2[j], f2[i], w');
      } else {
        assert Arc(g, f2[expanded - 1], f2[i], w);
      }
    }
    assert Distinct(f2) by {
      forall i, j | 0 <= i < j < |f2|
        ensures f2[i] != f2[j]
      {
        if j == |found| {
          assert found[i] in found;
        }
      }
    }
  }

  lemma ExpandOneMore(g: Graph, start: string, found: seq<string>, expanded: nat, visited: set<string>)
    requires Discovered(g, start, found, expanded, visited) && expanded < |found|
    ensures Discovered(g, start, found, expanded + 1, visited)
  {
    var e := expanded + 1;
    forall i: nat | 0 < i < |found|
      ensures DiscoveredBy(g, found, e, i)
    {
      assert DiscoveredBy(g, found, expanded, i);
    }
  }

  /** The inner loop over the neighbours of `node`: unvisited ones are marked and queued. */
  method Expand(g: Graph, start: string, node: string, found: seq<string>, expanded: nat, visited: set<string>, ghost par: seq<nat>)
    returns (found': seq<string>, visited': set<string>, ghost par': seq<nat>)
    requires Discovered(g, start, found, expanded, visited)
    requires 0 < expanded && found[expanded - 1] == node
    requires FirstDiscoverers(g, found, expanded, par) && ExpandedClosed(g, found, expanded - 1, visited)
    ensures Discovered(g, start, found', expanded, visited')
    ensures FirstDiscoverers(g, found', expanded, par')
    ensures |found'| >= |found| && found'[..|found|] == found && visited' >= visited
    ensures forall k :: 0 <= k < |Out(g, node)| ==> Out(g, node)[k].0 in visited'
  {
    var out := Out(g, node);
    found', visited', par' := found, visited, par;
    var k := 0;
    while k < |out|
      invariant 0 <= k <= |out|
      invariant Discovered(g, start, found', expanded, visited')
      invariant FirstDiscoverers(g, found', expanded, par')
      invariant |found'| >= |found| && found'[..|found|] == found && visited' >= visited
      invariant Covered(out, k, visited')
    {
      var nbr := out[k].0;
      if nbr !in visited' {
        ExpandStep(g, start, node, found, expanded, visited, found', visited', par', k);
        CoveredStep(out, k, visited', visited' + {nbr});
        found' := found' + [nbr];
        visited' := visited' + {nbr};
        par' := par' + [expanded - 1];
      } else {
        CoveredStep(out, k, visited', visited');
      }
      k := k + 1;
    }
  }

  /** The targets of the first `k` entries of `out` are all in `S`. */
  ghost predicate Covered(out: seq<(string, real)>, k: nat, S: set<string>)
    requires k <= |out|
  {
    forall k' :: 0 <= k' < k ==> out[k'].0 in S
  }

  lemma CoveredStep(out: seq<(string, real)>, k: nat, S: set<string>, S': set<string>)
    requires k < |out| && Covered(out, k, S) && S <= S' && out[k].0 in S'
    ensures Covered(out, k + 1, S')
  {
  }

  /** One new node in the inner loop of `Expand`. */
  lemma ExpandStep(g: Graph, start: string, node: string, found: seq<string>, expanded: nat, visited: set<string>,
                   found': seq<string>, visited': set<string>, par': seq<nat>, k: nat)
    requires 0 < expanded && expanded <= |found| && found[expanded - 1] == node
    requires ExpandedClosed(g, found, expanded - 1, visited)
    requires Discovered(g, start, found', expanded, visited') && FirstDiscoverers(g, found', expanded, par')
    requires |found'| >= |found| && found'[..|found|] == found && visited' >= visited
    requires k < |Out(g, node)| && Out(g, node)[k].0 !in visited'
    ensures var nbr := Out(g, node)[k].0;
      && Discovered(g, start, found' + [nbr], expanded, visited' + {nbr})
      && FirstDiscoverers(g, found' + [nbr], expanded, par' + [expanded - 1])
      && (found' + [nbr])[..|found|] == found
  {
    var out := Out(g, node);
    var nbr := out[k].0;
    assert found'[expanded - 1] == found'[..|found|][expanded - 1] == node;
    assert Arc(g, node, nbr, out[k].1);
    ArcInNames(g, node, k);
    DiscoverStep(g, start, found', expanded, visited', nbr, out[k].1);
    assert Targets(out)[k] == nbr;
    FirstStep(g, found, found', expanded, visited, visited', par', nbr);
    assert (found' + [nbr])[..|found|] == found'[..|found|];
  }

  /** The neighbours of the first `expanded` found nodes have all been found. */
  ghost predicate ExpandedClosed(g: Graph, found: seq<string>, expanded: nat, visited: set<string>)
    requires expanded <= |found|
  {
    forall j, k :: 0 <= j < expanded && 0 <= k < |Out(g, found[j])| ==> Out(g, found[j])[k].0 in visited
  }

  /** Discovery that reaches a fixpoint, with every expanded node's neighbours found, found everything reachable. */
  lemma BfsComplete(g: Graph, start: string, found: seq<string>, visited: set<string>)
    requires Discovered(g, start, found, |found|, visited)
    requires ExpandedClosed(g, found, |found|, visited)
    ensures forall x :: x in found <==> Reachable(g, start, x)
    ensures forall i :: 0 < i < |found| ==> ReachedFromEarlier(g, found, i)
  {
    forall i | 0 < i < |found|
      ensures ReachedFromEarlier(g, found, i)
    {
      assert DiscoveredBy(g, found, |found|, i);
      var j, w :| 0 <= j < i && j < |found| && Arc(g, found[j], found[i], w);
      assert ReachedFromEarlier(g, found, i);
    }
    assert found[0] in found;
    assert ArcClosed(g, visited) by {
      forall u, k | u in visited && 0 <= k < |Out(g, u)|
        ensures Out(g, u)[k].0 in visited
      {
        var j :| 0 <= j < |found| && found[j] == u;
      }
    }
    forall x | Reachable(g, start, x)
      ensures x in found
    {
      var nodes, ws :| WalkFrom(g, nodes, ws, start, x);
      ClosedHoldsWalk(g, visited, nodes, ws, start, x);
    }
  }

  /** Expanding one more node keeps the expanded prefix closed. */
  lemma ClosedStep(g: Graph, node: string, found: seq<string>, found': seq<string>, expanded: nat, visited: set<string>, visited': set<string>)
    requires 0 < expanded <= |found| <= |found'| && found'[..|found|] == found && visited <= visited'
    requires found[expanded - 1] == node
    requires ExpandedClosed(g, found, expanded - 1, visited)
    requires forall k :: 0 <= k < |Out(g, node)| ==> Out(g, node)[k].0 in visited'
    ensures ExpandedClosed(g, found', expanded, visited')
  {
    forall j, k | 0 <= j < expanded && 0 <= k < |Out(g, found'[j])|
      ensures Out(g, found'[j])[k].0 in visited'
    {
      assert found'[j] == found[j];
    }
  }

  lemma Shrinks(U: set<string>, a: set<string>, b: set<string>, x: string)
    requires a <= b <= U && x in b && x !in a
    ensures |U - b| < |U - a|
  {
    var d := (U - a) - (U - b);
    assert x in d;
    assert U - a == (U - b) + d;
    assert (U - b) * d == {};
  }

  /**
   * The loop of `graph_bfs`: the queue is always the undiscovered suffix
   * `found[expanded..]`, so popping its front and appending it to the
   * output just advances `expanded`, and the output is `found[..expanded]`.
   */
  method Bfs(g: Graph, start: string) returns (order: seq<string>)
    ensures |order| > 0 && order[0] == start
    ensures Distinct(order)
    ensures forall i :: 0 < i < |order| ==> ReachedFromEarlier(g, order, i)
    ensures forall x :: x in order <==> Reachable(g, start, x)
    ensures BreadthFirst(g, order)
  {
    var found := [start];
    var visited := {start};
    var expanded := 0;
    ghost var par: seq<nat> := [0];
    ReachSelf(g, start);
    while expanded < |found|
      invariant Discovered(g, start, found, expanded, visited)
      invariant ExpandedClosed(g, found, expanded, visited)
      invariant FirstDiscoverers(g, found, expanded, par)
      decreases |Names(g) + {start} - visited|, |found| - expanded
    {
      var node := found[expanded];
      ExpandOneMore(g, start, found, expanded, visited);
      expanded := expanded + 1;
      var found', visited', par' := Expand(g, start, node, found, expanded, visited, par);
      ClosedStep(g, node, found, found', expanded, visited, visited');
      if |found'| > |found| {
        assert found'[|found|] in found';
        Shrinks(Names(g) + {start}, visited, visited', found'[|found|]);
      } else {
        assert found' == found'[..|found|] == found;
        assert visited' == visited;
      }
      found, visited, par := found', visited', par';
    }
    BfsComplete(g, start, found, visited);
    FirstDiscoverersBreadthFirst(g, found, par);
    order := found;
  }

  /** `graph_bfs(graph, start)`: the nodes reachable from `start`, in breadth-first order. */
  method GraphBfs(args: seq<Arg>) returns (r: Result<SV.Value, string>)
    ensures |args| != 2 ==> r == Err("graph_bfs(graph, start) requires 2 args")
    ensures |args| == 2 && !args[0].GraphRef? ==> r == Err("graph_bfs: first arg must be Graph")
    ensures |args| == 2 && args[0].GraphRef? && !IsText(args[1]) ==> r == Err("graph_bfs: start must be text")
    ensures |args| == 2 && args[0].GraphRef? && IsText(args[1]) ==> r.Ok?
    ensures r.Ok? ==> r.value.List? && |r.value.items| > 0 && r.value.items[0] == SV.Text(args[1].v.s)
    ensures r.Ok? ==> forall x :: SV.Text(x) in r.value.items <==> Reachable(args[0].g, args[1].v.s, x)
    ensures r.Ok? ==> forall i, j :: 0 <= i < j < |r.value.items| ==> r.value.items[i] != r.value.items[j]
  {
    if |args| != 2 {
      return Err("graph_bfs(graph, start) requires 2 args");
    }
    if !args[0].GraphRef? {
      return Err("graph_bfs: first arg must be Graph");
    }
    if !IsText(args[1]) {
      return Err("graph_bfs: start must be text");
    }
    var order := Bfs(args[0].g, args[1].v.s);
    var items := Texts(order);
    forall x
      ensures SV.Text(x) in items <==> x in order
    {
      if SV.Text(x) in items {
        var i :| 0 <= i < |items| && items[i] == SV.Text(x);
      }
      if x in order {
        var i :| 0 <= i < |order| && order[i] == x;
        assert items[i] == SV.Text(x);
      }
    }
    return Ok(SV.List(items));
  }

  // ---------------------------------------------------------- dijkstra

  /** All edge weights are non-negative. */
  ghost predicate NonNegative(g: Graph)
  {
    forall u, k :: 0 <= k < |Out(g, u)| ==> Out(g, u)[k].1 >= 0.0
  }

  /** The total weight of a walk. */
  function Sum(ws: seq<real>): real
  {
    if |ws| == 0 then 0.0 else ws[0] + Sum(ws[1..])
  }

  lemma {:induction false} SumSnoc(ws: seq<real>, w: real)
    ensures Sum(ws + [w]) == Sum(ws) + w
  {
    if |ws| > 0 {
      assert (ws + [w])[1..] == ws[1..] + [w];
      SumSnoc(ws[1..], w);
    }
  }

  /** `path` is a walk from `s` to `t` no heavier than any other walk from `s` to `t`. */
  ghost predicate ShortestWalk(g: Graph, s: string, t: string, path: seq<string>)
  {
    exists ws :: WalkFrom(g, path, ws, s, t) && forall nodes, ws' :: WalkFrom(g, nodes, ws', s, t) ==> Sum(ws) <= Sum(ws')
  }

  /** The first `k` edges out of `v` are relaxed: their targets have a distance no worse than through `v`. */
  ghost predicate RelaxedUpTo(g: Graph, dist: map<string, real>, v: string, k: nat)
    requires v in dist
  {
    forall k' :: 0 <= k' < k && k' < |Out(g, v)| ==>
      Out(g, v)[k'].0 in dist && dist[Out(g, v)[k'].0] <= dist[v] + Out(g, v)[k'].1
  }

  ghost predicate Relaxed(g: Graph, dist: map<string, real>, done: set<string>)
    requires done <= dist.Keys
  {
    forall v :: v in done ==> RelaxedUpTo(g, dist, v, |Out(g, v)|)
  }

  ghost predicate NonNegDist(dist: map<string, real>)
  {
    forall v :: v in dist ==> dist[v] >= 0.0
  }

  /** Every settled node is at least as close as every unsettled reached node. */
  ghost predicate SettledFirst(dist: map<string, real>, done: set<string>)
    requires done <= dist.Keys
  {
    forall v, x :: v in done && x in dist && x !in done ==> dist[v] <= dist[x]
  }

  /** Each recorded predecessor is settled, and its edge accounts exactly for the distance. */
  ghost predicate PrevOk(g: Graph, dist: map<string, real>, prev: map<string, string>, done: set<string>, pw: map<string, real>)
  {
    forall v :: v in prev ==>
      v in dist && v in pw && prev[v] in done && prev[v] in dist && Arc(g, prev[v], v, pw[v]) && dist[v] == dist[prev[v]] + pw[v]
  }

  /** Every reached node other than the source has a predecessor. */
  ghost predicate PrevTotal(source: string, dist: map<string, real>, prev: map<string, string>)
  {
    forall v :: v in dist && v != source ==> v in prev
  }

  /** `ord` numbers the settled nodes in settling order; a settled node's predecessor was settled before it. */
  ghost predicate SettleOrder(prev: map<string, string>, done: set<string>, ord: map<string, nat>)
  {
    && ord.Keys == done
    && (forall v :: v in ord ==> ord[v] < |done|)
    && (forall v :: v in prev && v in done && prev[v] in ord ==> ord[prev[v]] < ord[v])
  }

  /**
   * The bookkeeping of the settle loop. `dist` holds the tentative
   * distances of the nodes reached so far (a missing node stands for the
   * source's infinity), `done` the settled ones, and `prev` the last
   * improving predecessor; `pw` (the weight of that edge) and `ord` (the
   * settling order) exist only for the proof.
   */
  ghost predicate Core(g: Graph, source: string, dist: map<string, real>, prev: map<string, string>, done: set<string>,
                       pw: map<string, real>, ord: map<string, nat>)
  {
    && source in dist && dist[source] == 0.0 && source !in prev
    && done <= dist.Keys && dist.Keys <= Names(g) + {source}
    && NonNegDist(dist)
    && SettledFirst(dist, done)
    && PrevOk(g, dist, prev, done, pw)
    && PrevTotal(source, dist, prev)
    && SettleOrder(prev, done, ord)
  }

  /** A finite non-empty set of nodes with distances has one of least distance. */
  lemma {:induction false} LeastExists(S: set<string>, dist: map<string, real>)
    requires S != {} && S <= dist.Keys
    ensures exists u :: u in S && forall x :: x in S ==> dist[u] <= dist[x]
    decreases |S|
  {
    var y :| y in S;
    if S != {y} {
      LeastExists(S - {y}, dist);
      var u :| u in S - {y} && forall x :: x in S - {y} ==> dist[u] <= dist[x];
      if dist[y] < dist[u] {
        assert forall x :: x in S ==> dist[y] <= dist[x];
      } else {
        assert forall x :: x in S ==> dist[u] <= dist[x];
      }
    } else {
      assert forall x :: x in S ==> dist[y] <= dist[x];
    }
  }

  lemma SettleFirst(dist: map<string, real>, done: set<string>, u: string)
    requires done <= dist.Keys && SettledFirst(dist, done)
    requires u in dist && u !in done && forall x :: x in dist && x !in done ==> dist[u] <= dist[x]
    ensures SettledFirst(dist, done + {u})
    ensures forall v :: v in done + {u} ==> dist[v] <= dist[u]
  {
  }

  lemma SettleOrdered(g: Graph, dist: map<string, real>, prev: map<string, string>, done: set<string>,
                      pw: map<string, real>, ord: map<string, nat>, u: string)
    requires PrevOk(g, dist, prev, done, pw) && SettleOrder(prev, done, ord) && u !in done
    ensures SettleOrder(prev, done + {u}, ord[u := |done|])
  {
    assert |done + {u}| == |done| + 1;
  }

  /** Settling `u`, an unsettled node of least tentative distance. */
  lemma Settle(g: Graph, source: string, dist: map<string, real>, prev: map<string, string>, done: set<string>,
               pw: map<string, real>, ord: map<string, nat>, u: string)
    requires Core(g, source, dist, prev, done, pw, ord) && Relaxed(g, dist, done)
    requires u in dist && u !in done && forall x :: x in dist && x !in done ==> dist[u] <= dist[x]
    ensures Core(g, source, dist, prev, done + {u}, pw, ord[u := |done|])
    ensures Relaxed(g, dist, done + {u} - {u}) && RelaxedUpTo(g, dist, u, 0)
    ensures forall v :: v in done + {u} ==> dist[v] <= dist[u]
  {
    SettleFirst(dist, done, u);
    SettleOrdered(g, dist, prev, done, pw, ord, u);
    assert done + {u} - {u} == done;
  }

  /** `dist'` reaches every node `dist` reaches, never farther. */
  ghost predicate Improved(dist: map<string, real>, dist': map<string, real>)
  {
    dist.Keys <= dist'.Keys && forall x :: x in dist ==> dist'[x] <= dist[x]
  }

  lemma RelaxedLower(g: Graph, dist: map<string, real>, dist': map<string, real>, v: string, k: nat)
    requires v in dist && v in dist' && dist'[v] == dist[v] && Improved(dist, dist') && RelaxedUpTo(g, dist, v, k)
    ensures RelaxedUpTo(g, dist', v, k)
  {
  }

  /** Improving the distance of `nbr` through the arc from the settled `u` keeps the bookkeeping. */
  lemma RelaxCore(g: Graph, source: string, dist: map<string, real>, prev: map<string, string>, done: set<string>,
                  pw: map<string, real>, ord: map<string, nat>, u: string, nbr: string, w: real)
    requires Core(g, source, dist, prev, done, pw, ord)
    requires u in done && Arc(g, u, nbr, w) && w >= 0.0 && nbr in Names(g)
    requires forall v :: v in done ==> dist[v] <= dist[u]
    requires nbr !in dist || dist[u] + w < dist[nbr]
    ensures nbr !in done && nbr != u && nbr != source
    ensures Core(g, source, dist[nbr := dist[u] + w], prev[nbr := u], done, pw[nbr := w], ord)
    ensures Improved(dist, dist[nbr := dist[u] + w])
    ensures forall v :: v in done ==> dist[nbr := dist[u] + w][v] <= dist[nbr := dist[u] + w][u]
  {
    var next := dist[u] + w;
    var dist' := dist[nbr := next];
    assert nbr !in done && nbr != u && nbr != source;
    assert NonNegDist(dist');
    RelaxSettledFirst(dist, done, u, nbr, next);
    RelaxPrevOk(g, dist, prev, done, pw, u, nbr, w);
  }

  /** ... and keeps the settled nodes relaxed, now including the first `k + 1` edges out of `u`. */
  lemma RelaxImprovesRelaxed(g: Graph, dist: map<string, real>, dist': map<string, real>, done: set<string>, u: string, k: nat)
    requires done <= dist.Keys && u in done && k < |Out(g, u)|
    requires Relaxed(g, dist, done - {u}) && RelaxedUpTo(g, dist, u, k)
    requires Improved(dist, dist') && forall v :: v in done ==> dist'[v] == dist[v]
    requires Out(g, u)[k].0 in dist' && dist'[Out(g, u)[k].0] <= dist'[u] + Out(g, u)[k].1
    ensures done <= dist'.Keys && Relaxed(g, dist', done - {u}) && RelaxedUpTo(g, dist', u, k + 1)
  {
    forall v | v in done - {u}
      ensures RelaxedUpTo(g, dist', v, |Out(g, v)|)
    {
      RelaxedLower(g, dist, dist', v, |Out(g, v)|);
    }
    RelaxedLower(g, dist, dist', u, k);
  }

  lemma RelaxSettledFirst(dist: map<string, real>, done: set<string>, u: string, nbr: string, next: real)
    requires done <= dist.Keys && SettledFirst(dist, done) && u in done && nbr !in done
    requires forall v :: v in done ==> dist[v] <= dist[u]
    requires dist[u] <= next
    ensures SettledFirst(dist[nbr := next], done)
  {
  }

  lemma RelaxPrevOk(g: Graph, dist: map<string, real>, prev: map<string, string>, done: set<string>, pw: map<string, real>,
                    u: string, nbr: string, w: real)
    requires PrevOk(g, dist, prev, done, pw) && u in done && u in dist && nbr !in done && Arc(g, u, nbr, w)
    ensures PrevOk(g, dist[nbr := dist[u] + w], prev[nbr := u], done, pw[nbr := w])
  {
  }

  /** Relaxing the `k`-th edge out of `u` when it does not improve its target. */
  lemma RelaxKeeps(g: Graph, dist: map<string, real>, u: string, k: nat)
    requires u in dist && k < |Out(g, u)| && RelaxedUpTo(g, dist, u, k)
    requires Out(g, u)[k].0 in dist && dist[Out(g, u)[k].0] <= dist[u] + Out(g, u)[k].1
    ensures RelaxedUpTo(g, dist, u, k + 1)
  {
  }

  /** The inner loop of `graph_dijkstra` over the edges out of the settled node `u`. */
  method RelaxAll(g: Graph, ghost source: string, u: string, dist: map<string, real>, prev: map<string, string>, ghost done: set<string>,
                  ghost pw: map<string, real>, ghost ord: map<string, nat>)
    returns (dist': map<string, real>, prev': map<string, string>, ghost pw': map<string, real>)
    requires RelaxInv(g, source, u, 0, dist, prev, done, pw, ord)
    ensures RelaxInv(g, source, u, |Out(g, u)|, dist', prev', done, pw', ord)
  {
    dist', prev', pw' := dist, prev, pw;
    var k := 0;
    while k < |Out(g, u)|
      invariant k <= |Out(g, u)| && RelaxInv(g, source, u, k, dist', prev', done, pw', ord)
    {
      dist', prev', pw' := RelaxEdge(g, source, u, k, dist', prev', done, pw', ord);
      k := k + 1;
    }
  }

  /** After the last edge out of `u`, every settled node is relaxed. */
  lemma RelaxFinish(g: Graph, source: string, u: string, dist: map<string, real>, prev: map<string, string>,
                    done: set<string>, pw: map<string, real>, ord: map<string, nat>)
    requires RelaxInv(g, source, u, |Out(g, u)|, dist, prev, done, pw, ord)
    ensures Core(g, source, dist, prev, done, pw, ord) && Relaxed(g, dist, done)
  {
    assert done <= dist.Keys by {
      assert Core(g, source, dist, prev, done, pw, ord);
    }
    RelaxedAll(g, dist, done, u);
  }

  /** The bookkeeping of the inner loop after the first `k` edges out of `u`. */
  ghost predicate RelaxInv(g: Graph, source: string, u: string, k: nat, dist: map<string, real>, prev: map<string, string>,
                           done: set<string>, pw: map<string, real>, ord: map<string, nat>)
  {
    && NonNegative(g) && u in done
    && Core(g, source, dist, prev, done, pw, ord) && Relaxed(g, dist, done - {u})
    && RelaxedUpTo(g, dist, u, k)
    && (forall v :: v in done ==> dist[v] <= dist[u])
  }

  /** One pass of the inner loop: relax the `k`-th edge out of `u`. */
  method RelaxEdge(g: Graph, ghost source: string, u: string, k: nat, dist: map<string, real>, prev: map<string, string>,
                   ghost done: set<string>, ghost pw: map<string, real>, ghost ord: map<string, nat>)
    returns (dist': map<string, real>, prev': map<string, string>, ghost pw': map<string, real>)
    requires k < |Out(g, u)| && RelaxInv(g, source, u, k, dist, prev, done, pw, ord)
    ensures RelaxInv(g, source, u, k + 1, dist', prev', done, pw', ord)
    ensures Improved(dist, dist')
  {
    var nbr := Out(g, u)[k].0;
    var next := dist[u] + Out(g, u)[k].1;
    if nbr !in dist || next < dist[nbr] {
      ArcInNames(g, u, k);
      assert Arc(g, u, nbr, Out(g, u)[k].1);
      RelaxCore(g, source, dist, prev, done, pw, ord, u, nbr, Out(g, u)[k].1);
      RelaxImprovesRelaxed(g, dist, dist[nbr := next], done, u, k);
      dist' := dist[nbr := next];
      prev' := prev[nbr := u];
      pw' := pw[nbr := Out(g, u)[k].1];
    } else {
      RelaxKeeps(g, dist, u, k);
      dist', prev', pw' := dist, prev, pw;
    }
  }

  lemma RelaxedAll(g: Graph, dist: map<string, real>, done: set<string>, u: string)
    requires done <= dist.Keys && u in done && Relaxed(g, dist, done - {u}) && RelaxedUpTo(g, dist, u, |Out(g, u)|)
    ensures Relaxed(g, dist, done)
  {
    forall v | v in done
      ensures RelaxedUpTo(g, dist, v, |Out(g, v)|)
    {
      if v != u {
        assert v in done - {u};
      }
    }
  }

  /** With every reached node settled and relaxed, a distance is no more than the weight of any walk. */
  lemma {:induction false} DistIsLowerBound(g: Graph, source: string, dist: map<string, real>, done: set<string>,
                                           nodes: seq<string>, ws: seq<real>, t: string)
    requires source in dist && dist[source] == 0.0 && dist.Keys == done && Relaxed(g, dist, done)
    requires WalkFrom(g, nodes, ws, source, t)
    ensures t in dist && dist[t] <= Sum(ws)
    decreases |ws|
  {
    if |ws| > 0 {
      var n := |ws|;
      var x := nodes[n - 1];
      WalkInit(g, nodes, ws, source, t);
      DistIsLowerBound(g, source, dist, done, nodes[..n], ws[..n - 1], x);
      SumSnoc(ws[..n - 1], ws[n - 1]);
      var k :| 0 <= k < |Out(g, x)| && Out(g, x)[k] == (t, ws[n - 1]);
      assert RelaxedUpTo(g, dist, x, |Out(g, x)|);
    }
  }

  /**
   * The settle loop of `graph_dijkstra`: the binary heap with lazy
   * deletion pops the unsettled node of least tentative distance, and
   * relaxation replaces a distance only by a strictly smaller one. An
   * unreached target gives None, a reached one its path.
   */
  method Dijkstra(g: Graph, source: string, target: string) returns (r: Option<seq<string>>)
    requires NonNegative(g)
    ensures r.None? <==> !Reachable(g, source, target)
    ensures r.Some? ==> ShortestWalk(g, source, target, r.value)
  {
    var dist: map<string, real> := map[source := 0.0];
    var prev: map<string, string> := map[];
    var done: set<string> := {};
    ghost var pw: map<string, real> := map[];
    ghost var ord: map<string, nat> := map[];
    while dist.Keys - done != {}
      invariant Core(g, source, dist, prev, done, pw, ord) && Relaxed(g, dist, done)
      decreases |Names(g) + {source} - done|
    {
      LeastExists(dist.Keys - done, dist);
      var u :| u in dist.Keys - done && forall x :: x in dist.Keys - done ==> dist[u] <= dist[x];
      Settle(g, source, dist, prev, done, pw, ord, u);
      Shrinks(Names(g) + {source}, done, done + {u}, u);
      ord := ord[u := |done|];
      done := done + {u};
      dist, prev, pw := RelaxAll(g, source, u, dist, prev, done, pw, ord);
      RelaxFinish(g, source, u, dist, prev, done, pw, ord);
    }
    if target !in dist {
      if Reachable(g, source, target) {
        var nodes, ws :| WalkFrom(g, nodes, ws, source, target);
        DistIsLowerBound(g, source, dist, done, nodes, ws, target);
      }
      return None;
    }
    ghost var ws;
    var path;
    path, ws := ReadPath(g, source, target, dist, prev, done, pw, ord);
    ReachFrom(g, path, ws, source, target);
    forall nodes, ws' | WalkFrom(g, nodes, ws', source, target)
      ensures Sum(ws) <= Sum(ws')
    {
      DistIsLowerBound(g, source, dist, done, nodes, ws', target);
    }
    return Some(path);
  }

  /**
   * Reading the path back from `target` through `prev` until the source;
   * the source pushes the nodes from the target backwards and reverses the
   * list, which is the prepending done here.
   */
  method ReadPath(g: Graph, source: string, target: string, dist: map<string, real>, prev: map<string, string>, ghost done: set<string>,
                  ghost pw: map<string, real>, ghost ord: map<string, nat>)
    returns (path: seq<string>, ghost ws: seq<real>)
    requires Core(g, source, dist, prev, done, pw, ord) && dist.Keys == done && target in dist
    ensures WalkFrom(g, path, ws, source, target) && Sum(ws) == dist[target]
  {
    var cur := target;
    path, ws := [target], [];
    while cur in prev
      invariant cur in dist && WalkFrom(g, path, ws, cur, target)
      invariant dist[target] == dist[cur] + Sum(ws)
      decreases ord[cur]
    {
      var p := prev[cur];
      WalkCons(g, path, ws, cur, target, p, pw[cur]);
      path, ws := [p] + path, [pw[cur]] + ws;
      cur := p;
      if cur == source {
        break;
      }
    }
  }

  lemma ReachFrom(g: Graph, nodes: seq<string>, ws: seq<real>, s: string, t: string)
    requires WalkFrom(g, nodes, ws, s, t)
    ensures Reachable(g, s, t)
  {
  }

  /**
   * `graph_dijkstra(graph, source, target)`: Null when the target is not
   * reached, otherwise the node names of a lightest path.
   */
  method GraphDijkstra(args: seq<Arg>) returns (r: Result<SV.Value, string>)
    requires |args| >= 3 && args[0].GraphRef? ==> NonNegative(args[0].g)
    ensures |args| < 3 ==> r == Err("graph_dijkstra(graph, source, target)")
    ensures |args| >= 3 && !args[0].GraphRef? ==> r == Err("graph_dijkstra: first arg must be Graph")
    ensures |args| >= 3 && args[0].GraphRef? && !IsText(args[1]) ==> r == Err("graph_dijkstra: source must be text")
    ensures |args| >= 3 && args[0].GraphRef? && IsText(args[1]) && !IsText(args[2]) ==>
      r == Err("graph_dijkstra: target must be text")
    ensures |args| >= 3 && args[0].GraphRef? && IsText(args[1]) && IsText(args[2]) ==>
      var (g, s, t) := (args[0].g, args[1].v.s, args[2].v.s);
      && r.Ok?
      && (r.value == SV.Null <==> !Reachable(g, s, t))
      && (r.value != SV.Null ==> r.value.List? && exists path :: r.value.items == Texts(path) && ShortestWalk(g, s, t, path))
  {
    if |args| < 3 {
      return Err("graph_dijkstra(graph, source, target)");
    }
    if !args[0].GraphRef? {
      return Err("graph_dijkstra: first arg must be Graph");
    }
    if !IsText(args[1]) {
      return Err("graph_dijkstra: source must be text");
    }
    if !IsText(args[2]) {
      return Err("graph_dijkstra: target must be text");
    }
    var found := Dijkstra(args[0].g, args[1].v.s, args[2].v.s);
    if found.None? {
      return Ok(SV.Null);
    }
    return Ok(SV.List(Texts(found.value)));
  }
}
