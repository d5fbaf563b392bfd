/**
 * The union-find builtins of naux-lang (stdlib/collections.rs): a disjoint
 * set forest stored as a map {"p": parents, "r": ranks} of lists of values,
 * `dsu_find` with path compression and `dsu_union` by rank. Indices are
 * Rust `usize` values: a negative integer converts by wrapping modulo 2^64,
 * a float by saturating truncation, and an index outside the parent list
 * is its own root.
 *
 * The source recurses along parent links and never checks for cycles, so a
 * cyclic parent list overflows the host stack. The model therefore asks for
 * an acyclic forest: one that admits a height for every node that strictly
 * drops from a node to its parent.
 */
module StdDsu {
  import opened Wrappers
  import opened VmValue
  import opened StdCollections

  const UsizeModulus: nat := 0x1_0000_0000_0000_0000
  const UsizeMax: nat := 0xffff_ffff_ffff_ffff
  const I64Max: nat := 0x7fff_ffff_ffff_ffff

  /** `n as usize` for an i64 `n`: two's complement wrap-around. */
  function UsizeOf(n: int): (u: nat)
    ensures u < UsizeModulus
    ensures 0 <= n < UsizeModulus ==> u == n
  {
    n % UsizeModulus
  }

  /** `f as usize` for an f64 `f`: truncation, saturating at both ends. */
  function FloatUsize(f: real): (u: nat)
    ensures u < UsizeModulus
  {
    if f <= 0.0 then 0 else if f >= UsizeModulus as real then UsizeMax else f.Floor
  }

  /** `u as i64` for a usize `u`: the upper half wraps to negative numbers. */
  function I64Of(u: nat): int
  {
    if u >= 0x8000_0000_0000_0000 then u - UsizeModulus else u
  }

  lemma UsizeRoundTrip(u: nat)
    requires u < UsizeModulus
    ensures UsizeOf(I64Of(u)) == u
  {
    if u >= 0x8000_0000_0000_0000 {
      assert I64Of(u) + UsizeModulus == u;
    }
  }

  /**
   * The parent of `x` as `find_internal` reads it: an integer or a float
   * entry converted to usize, and `x` itself for any other entry or an
   * index past the end of the list.
   */
  function Parent(p: seq<Value>, x: nat): (px: nat)
    ensures x >= |p| ==> px == x
    ensures px != x ==> px < UsizeModulus
  {
    if x < |p| then
      match p[x]
      case SmallInt(n) => UsizeOf(n)
      case Float(f) => FloatUsize(f)
      case _ => x
    else x
  }

  /** The height of a node: its entry in `h`, and 0 beyond the list. */
  function Height(h: seq<nat>, x: nat): nat
  {
    if x < |h| then h[x] else 0
  }

  /** `h` ranks the forest: every step to a parent goes strictly down. */
  ghost predicate Ranked(p: seq<Value>, h: seq<nat>)
  {
    |h| == |p| && forall x: nat :: x < |p| && Parent(p, x) != x ==> Height(h, Parent(p, x)) < h[x]
  }

  ghost predicate Acyclic(p: seq<Value>)
  {
    exists h :: Ranked(p, h)
  }

  ghost function Heights(p: seq<Value>): (h: seq<nat>)
    requires Acyclic(p)
    ensures Ranked(p, h)
  {
    var h :| Ranked(p, h); h
  }

  ghost function Measure(p: seq<Value>, x: nat): nat
    requires Acyclic(p)
  {
    Height(Heights(p), x)
  }

  lemma MeasureDrops(p: seq<Value>, x: nat)
    requires Acyclic(p) && Parent(p, x) != x
    ensures Measure(p, Parent(p, x)) < Measure(p, x)
  {
  }

  /** The root of `x`: parent links followed to a node that is its own parent. */
  ghost function RootOf(p: seq<Value>, x: nat): (r: nat)
    requires Acyclic(p)
    ensures Parent(p, r) == r
    decreases Measure(p, x)
  {
    if Parent(p, x) == x then x
    else
      MeasureDrops(p, x);
      RootOf(p, Parent(p, x))
  }

  /** Roots never sit higher than the nodes below them, under any ranking. */
  lemma {:induction false} RootHeight(p: seq<Value>, h: seq<nat>, x: nat)
    requires Ranked(p, h)
    ensures Height(h, RootOf(p, x)) <= Height(h, x)
    ensures Parent(p, x) != x ==> Height(h, RootOf(p, x)) < Height(h, x)
    decreases Height(h, x)
  {
    if Parent(p, x) != x {
      RootHeight(p, h, Parent(p, x));
    }
  }

  /** Every node below the end of the list has a root in `[0, 2^64)` or is its own root. */
  lemma {:induction false} RootBound(p: seq<Value>, x: nat)
    requires Acyclic(p) && x < UsizeModulus
    ensures RootOf(p, x) < UsizeModulus
    decreases Measure(p, x)
  {
    if Parent(p, x) != x {
      MeasureDrops(p, x);
      RootBound(p, Parent(p, x));
    }
  }

  /** Pointing a non-root `x` straight at its root keeps the forest acyclic and every root. */
  lemma CompressStep(p: seq<Value>, x: nat, r: nat)
    requires Acyclic(p) && x < |p| && r == RootOf(p, x) && r != x && r < UsizeModulus
    ensures Acyclic(p[x := SmallInt(I64Of(r))])
    ensures Parent(p[x := SmallInt(I64Of(r))], x) == r
    ensures forall y: nat :: RootOf(p[x := SmallInt(I64Of(r))], y) == RootOf(p, y)
  {
    var p2 := p[x := SmallInt(I64Of(r))];
    UsizeRoundTrip(r);
    assert Parent(p2, x) == r;
    var h := Heights(p);
    RootHeight(p, h, x);
    assert Ranked(p2, h) by {
      forall y: nat | y < |p2| && Parent(p2, y) != y
        ensures Height(h, Parent(p2, y)) < h[y]
      {
        if y != x {
          assert Parent(p2, y) == Parent(p, y);
        }
      }
    }
    forall y: nat
      ensures RootOf(p2, y) == RootOf(p, y)
    {
      CompressRoots(p, p2, x, r, y);
    }
  }

  lemma {:induction false} CompressRoots(p: seq<Value>, p2: seq<Value>, x: nat, r: nat, y: nat)
    requires Acyclic(p) && Acyclic(p2) && |p2| == |p| && x < |p|
    requires r == RootOf(p, x) && r != x && Parent(p2, x) == r
    requires forall z: nat :: z != x ==> Parent(p2, z) == Parent(p, z)
    ensures RootOf(p2, y) == RootOf(p, y)
    decreases Measure(p, y)
  {
    if y == x {
      assert Parent(p2, r) == Parent(p, r) == r;
    } else if Parent(p, y) != y {
      MeasureDrops(p, y);
      CompressRoots(p, p2, x, r, Parent(p, y));
    }
  }

  /**
   * `find_internal`: the root of `x`, and the parent list in which `x` and
   * every node on its path point straight at that root.
   */
  function Find(p: seq<Value>, x: nat): (res: (nat, seq<Value>))
    requires Acyclic(p) && x < UsizeModulus
    ensures |res.1| == |p|
    ensures res.0 == RootOf(p, x) && res.0 < UsizeModulus
    ensures Acyclic(res.1)
    ensures Parent(res.1, res.0) == res.0
    ensures Parent(res.1, x) == res.0
    ensures forall y: nat :: RootOf(res.1, y) == RootOf(p, y)
    decreases Measure(p, x)
  {
    var px := Parent(p, x);
    if px == x then (x, p)
    else
      MeasureDrops(p, x);
      var (r, p1) := Find(p, px);
      assert r == RootOf(p1, x);
      CompressStep(p1, x, r);
      (r, p1[x := SmallInt(I64Of(r))])
  }

  /** A parent list whose links all stay inside the list. */
  predicate Closed(p: seq<Value>)
  {
    forall x: nat :: x < |p| ==> Parent(p, x) < |p|
  }

  lemma {:induction false} RootInside(p: seq<Value>, x: nat)
    requires Acyclic(p) && Closed(p) && x < |p|
    ensures RootOf(p, x) < |p|
    decreases Measure(p, x)
  {
    if Parent(p, x) != x {
      MeasureDrops(p, x);
      RootInside(p, Parent(p, x));
    }
  }

  lemma {:induction false} FindKeepsClosed(p: seq<Value>, x: nat)
    requires Acyclic(p) && Closed(p) && x < |p| && x < UsizeModulus
    ensures Closed(Find(p, x).1)
    decreases Measure(p, x)
  {
    var px := Parent(p, x);
    if px != x {
      MeasureDrops(p, x);
      FindKeepsClosed(p, px);
      var (r, p1) := Find(p, px);
      RootInside(p, x);
      UsizeRoundTrip(r);
      var p2 := p1[x := SmallInt(I64Of(r))];
      assert p2 == Find(p, x).1;
      forall y: nat | y < |p2|
        ensures Parent(p2, y) < |p2|
      {
        if y != x {
          assert Parent(p2, y) == Parent(p1, y);
        }
      }
    }
  }

  /** `rank.get(i).and_then(as_i64).unwrap_or(0)`. */
  function RankAt(rank: seq<Value>, i: nat): int
  {
    if i < |rank| && rank[i].SmallInt? then rank[i].i else 0
  }

  /** Points the root `child` at `root` when the parent list has that slot. */
  function Link(p: seq<Value>, child: nat, root: nat): seq<Value>
  {
    if child < |p| then p[child := SmallInt(I64Of(root))] else p
  }

  /**
   * The heights after hanging `child` under `root`: the nodes of the child's
   * tree move up by one more than the height of `root`.
   */
  ghost function Lifted(p: seq<Value>, child: nat, c: nat): (h3: seq<nat>)
    requires Acyclic(p)
    ensures |h3| == |p|
    ensures forall y :: 0 <= y < |p| ==> h3[y] == (if RootOf(p, y) == child then Heights(p)[y] + c else Heights(p)[y])
  {
    seq(|p|, (y: int) requires 0 <= y < |p| => if RootOf(p, y) == child then Heights(p)[y] + c else Heights(p)[y])
  }

  lemma LiftedStep(p: seq<Value>, p3: seq<Value>, child: nat, root: nat, y: nat)
    requires Acyclic(p) && |p3| == |p| && y < |p| && y != child
    requires Parent(p, root) == root && Parent(p3, y) == Parent(p, y) && Parent(p, y) != y
    ensures Height(Lifted(p, child, Height(Heights(p), root) + 1), Parent(p, y))
      < Lifted(p, child, Height(Heights(p), root) + 1)[y]
  {
    var z := Parent(p, y);
    assert RootOf(p, z) == RootOf(p, y);
    if z >= |p| {
      assert RootOf(p, z) == z;
    }
  }

  lemma LinkAcyclic(p: seq<Value>, child: nat, root: nat)
    requires Acyclic(p) && child < |p| && root < UsizeModulus
    requires Parent(p, child) == child && Parent(p, root) == root && child != root
    ensures Ranked(Link(p, child, root), Lifted(p, child, Height(Heights(p), root) + 1))
  {
    var p3 := Link(p, child, root);
    UsizeRoundTrip(root);
    assert Parent(p3, child) == root;
    var h3 := Lifted(p, child, Height(Heights(p), root) + 1);
    forall y: nat | y < |p3| && Parent(p3, y) != y
      ensures Height(h3, Parent(p3, y)) < h3[y]
    {
      if y != child {
        assert Parent(p3, y) == Parent(p, y);
        LiftedStep(p, p3, child, root, y);
      }
    }
  }

  /** Hanging one root under another merges exactly those two trees. */
  lemma LinkRoots(p: seq<Value>, child: nat, root: nat)
    requires Acyclic(p) && child < |p| && root < UsizeModulus
    requires Parent(p, child) == child && Parent(p, root) == root && child != root
    ensures Acyclic(Link(p, child, root))
    ensures forall y: nat :: RootOf(Link(p, child, root), y) == (if RootOf(p, y) == child then root else RootOf(p, y))
  {
    var p3 := Link(p, child, root);
    LinkAcyclic(p, child, root);
    LinkFrame(p, child, root);
    forall y: nat
      ensures RootOf(p3, y) == (if RootOf(p, y) == child then root else RootOf(p, y))
    {
      LinkRoot(p, p3, child, root, y);
    }
  }

  /** Linking re-points the child at the root and leaves every other parent alone. */
  lemma LinkFrame(p: seq<Value>, child: nat, root: nat)
    requires child < |p| && root < UsizeModulus
    ensures |Link(p, child, root)| == |p| && Parent(Link(p, child, root), child) == root
    ensures forall z: nat :: z != child ==> Parent(Link(p, child, root), z) == Parent(p, z)
  {
    UsizeRoundTrip(root);
  }

  lemma {:induction false} LinkRoot(p: seq<Value>, p3: seq<Value>, child: nat, root: nat, y: nat)
    requires Acyclic(p) && Acyclic(p3) && |p3| == |p| && child < |p|
    requires Parent(p, child) == child && Parent(p, root) == root && child != root
    requires Parent(p3, child) == root
    requires forall z: nat :: z != child ==> Parent(p3, z) == Parent(p, z)
    ensures RootOf(p3, y) == (if RootOf(p, y) == child then root else RootOf(p, y))
    decreases Measure(p, y)
  {
    if y == child {
      assert Parent(p3, root) == root;
    } else if Parent(p, y) != y {
      MeasureDrops(p, y);
      LinkRoot(p, p3, child, root, Parent(p, y));
    }
  }

  /** The rank list after a tie: the winning root's integer rank goes up by one. */
  function BumpRank(rank: seq<Value>, i: nat): (r: seq<Value>)
    ensures |r| == |rank|
    ensures forall j :: 0 <= j < |rank| && j != i ==> r[j] == rank[j]
    ensures RankAt(r, i) == (if i < |rank| && rank[i].SmallInt? then RankAt(rank, i) + 1 else RankAt(rank, i))
  {
    if i < |rank| && rank[i].SmallInt? then rank[i := SmallInt(rank[i].i + 1)] else rank
  }

  /**
   * `union_internal`: find both roots (compressing both paths), then hang
   * the root of lower rank under the other; on a tie the root of `b` goes
   * under the root of `a`, whose rank grows by one.
   */
  function Union(p: seq<Value>, rank: seq<Value>, a: nat, b: nat): (res: (seq<Value>, seq<Value>))
    requires Acyclic(p) && a < UsizeModulus && b < UsizeModulus
    ensures |res.0| == |p| && |res.1| == |rank|
    ensures Acyclic(res.0)
  {
    var (ra, p1) := Find(p, a);
    var (rb, p2) := Find(p1, b);
    if ra == rb then (p2, rank)
    else
      var rankA := RankAt(rank, ra);
      var rankB := RankAt(rank, rb);
      assert Parent(p2, ra) == ra && Parent(p2, rb) == rb;
      if rankA < rankB then
        if ra < |p2| then LinkRoots(p2, ra, rb); (Link(p2, ra, rb), rank)
        else (Link(p2, ra, rb), rank)
      else if rankA > rankB then
        if rb < |p2| then LinkRoots(p2, rb, ra); (Link(p2, rb, ra), rank)
        else (Link(p2, rb, ra), rank)
      else
        if rb < |p2| then LinkRoots(p2, rb, ra); (Link(p2, rb, ra), BumpRank(rank, ra))
        else (Link(p2, rb, ra), BumpRank(rank, ra))
  }

  /**
   * `p2` is `p` with the trees of `a` and `b` merged: the two share a root,
   * every node of either tree has that root, every other node keeps its
   * root, and the links still stay inside the list.
   */
  ghost predicate Merged(p: seq<Value>, a: nat, b: nat, p2: seq<Value>)
    requires Acyclic(p) && Acyclic(p2)
  {
    && Closed(p2)
    && RootOf(p2, a) == RootOf(p2, b)
    && (forall y: nat :: RootOf(p, y) == RootOf(p, a) || RootOf(p, y) == RootOf(p, b) ==>
          RootOf(p2, y) == RootOf(p2, a))
    && (forall y: nat :: RootOf(p, y) != RootOf(p, a) && RootOf(p, y) != RootOf(p, b) ==>
          RootOf(p2, y) == RootOf(p, y))
  }

  /**
   * In a closed forest, `dsu_union(a, b)` leaves `a` and `b` with one root,
   * every node of their two trees under it, and every other node's root
   * where it was.
   */
  lemma UnionMerges(p: seq<Value>, rank: seq<Value>, a: nat, b: nat)
    requires Acyclic(p) && Closed(p) && a < |p| && b < |p| && a < UsizeModulus && b < UsizeModulus
    ensures Merged(p, a, b, Union(p, rank, a, b).0)
  {
    var (ra, p1) := Find(p, a);
    FindKeepsClosed(p, a);
    var (rb, p2) := Find(p1, b);
    FindKeepsClosed(p1, b);
    RootInside(p, a);
    RootInside(p, b);
    assert rb == RootOf(p, b);
    if ra != rb {
      var rankA := RankAt(rank, ra);
      var rankB := RankAt(rank, rb);
      var child, root := if rankA < rankB then ra else rb, if rankA < rankB then rb else ra;
      LinkRoots(p2, child, root);
      var p3 := Link(p2, child, root);
      assert p3 == Union(p, rank, a, b).0;
      UsizeRoundTrip(root);
      assert Closed(p3) by {
        forall x: nat | x < |p3|
          ensures Parent(p3, x) < |p3|
        {
          if x != child {
            assert Parent(p3, x) == Parent(p2, x);
          }
        }
      }
    }
  }

  /** The list under `key` of a union-find map, when there is one. */
  function ListAt(v: Value, key: string): Option<seq<Value>>
  {
    if v.RcObj? && v.obj.Map? && key in v.obj.entries then
      var e := v.obj.entries[key];
      if e.RcObj? && e.obj.List? then Some(e.obj.items) else None
    else None
  }

  /** The parent list of a union-find map, if it has one, is an acyclic forest. */
  ghost predicate Forest(v: Value)
  {
    ListAt(v, "p").Some? ==> Acyclic(ListAt(v, "p").value)
  }

  /** `dsu_new(n)`: parents `0..n-1` and ranks all 0, so every element is its own root. */
  function DsuNew(args: seq<Value>, newId: nat): (r: Result<Value, string>)
    requires |args| == 1 && args[0].SmallInt? ==> 0 <= args[0].i <= I64Max
    ensures |args| != 1 ==> r == Err("dsu_new(n)")
    ensures |args| == 1 && !args[0].SmallInt? ==> r == Err("dsu_new: n must be number")
    ensures |args| == 1 && args[0].SmallInt? ==> r.Ok?
    ensures r.Ok? ==> ListAt(r.value, "p").Some? && ListAt(r.value, "r").Some?
    ensures r.Ok? ==> var p := ListAt(r.value, "p").value;
      var rank := ListAt(r.value, "r").value;
      |p| == |rank| == args[0].i && Acyclic(p) && Closed(p)
      && (forall x: nat :: RootOf(p, x) == x)
      && (forall x: nat :: x < |rank| ==> RankAt(rank, x) == 0)
  {
    if |args| != 1 then Err("dsu_new(n)")
    else if !args[0].SmallInt? then Err("dsu_new: n must be number")
    else
      var n := args[0].i;
      var p := seq(n, (i: int) => SmallInt(i));
      var rank := seq(n, (i: int) => SmallInt(0));
      assert forall x: nat :: Parent(p, x) == x;
      assert Ranked(p, seq(n, (i: int) => 0));
      Ok(RcObj(newId, Map(map["p" := RcObj(newId + 1, List(p)), "r" := RcObj(newId + 2, List(rank))])))
  }

  /**
   * `dsu_find(dsu, x)`: the pair [root of x, copy of the map whose parent
   * list is path-compressed]. The rank list has to be present but is not
   * read.
   */
  function DsuFind(args: seq<Value>, newId: nat): (r: Result<Value, string>)
    requires |args| == 2 ==> Forest(args[0])
    ensures |args| != 2 ==> r == Err("dsu_find(dsu, x)")
    ensures |args| == 2 && !(args[0].RcObj? && args[0].obj.Map?) ==> r == Err("dsu_find: first arg must be map")
    ensures |args| == 2 && args[0].RcObj? && args[0].obj.Map? && !args[1].SmallInt? ==>
      r == Err("dsu_find: x must be number")
    ensures |args| == 2 && args[0].RcObj? && args[0].obj.Map? && args[1].SmallInt? ==>
      (r.Ok? <==> ListAt(args[0], "p").Some? && ListAt(args[0], "r").Some?)
    ensures r.Ok? ==> IsPair(r.value) && ListAt(Snd(r.value), "p").Some?
    ensures r.Ok? ==> var p := ListAt(args[0], "p").value;
      var x := UsizeOf(args[1].i);
      var p2 := ListAt(Snd(r.value), "p").value;
      Fst(r.value) == SmallInt(I64Of(RootOf(p, x)))
      && |p2| == |p| && Acyclic(p2) && Parent(p2, x) == RootOf(p, x)
      && (forall y: nat :: RootOf(p2, y) == RootOf(p, y))
      && Snd(r.value).obj.entries == args[0].obj.entries["p" := Snd(r.value).obj.entries["p"]]
  {
    if |args| != 2 then Err("dsu_find(dsu, x)")
    else
      match ExpectMap(args[0], "dsu_find: first arg must be map")
      case Err(e) => Err(e)
      case Ok(dsu) =>
        if !args[1].SmallInt? then Err("dsu_find: x must be number")
        else
          var x := UsizeOf(args[1].i);
          match ExpectList(Lookup(dsu, "p"), "dsu_find: missing parent list")
          case Err(e) => Err(e)
          case Ok(parent) =>
            match ExpectList(Lookup(dsu, "r"), "dsu_find: missing rank list")
            case Err(e) => Err(e)
            case Ok(_) =>
              var (root, parent2) := Find(parent, x);
              var dsu2 := dsu["p" := RcObj(newId + 2, List(parent2))];
              Ok(RcObj(newId, List([SmallInt(I64Of(root)), RcObj(newId + 1, Map(dsu2))])))
  }

  /**
   * `dsu_union(dsu, a, b)`: a copy of the map with both lists replaced by
   * the result of union by rank.
   */
  function DsuUnion(args: seq<Value>, newId: nat): (r: Result<Value, string>)
    requires |args| == 3 ==> Forest(args[0])
    ensures |args| != 3 ==> r == Err("dsu_union(dsu, a, b)")
    ensures |args| == 3 && !(args[0].RcObj? && args[0].obj.Map?) ==> r == Err("dsu_union: first arg must be map")
    ensures |args| == 3 && args[0].RcObj? && args[0].obj.Map? && !args[1].SmallInt? ==>
      r == Err("dsu_union: a must be number")
    ensures |args| == 3 && args[0].RcObj? && args[0].obj.Map? && args[1].SmallInt? && !args[2].SmallInt? ==>
      r == Err("dsu_union: b must be number")
    ensures |args| == 3 && args[0].RcObj? && args[0].obj.Map? && args[1].SmallInt? && args[2].SmallInt? ==>
      (r.Ok? <==> ListAt(args[0], "p").Some? && ListAt(args[0], "r").Some?)
    ensures r.Ok? ==> ListAt(r.value, "p").Some? && ListAt(r.value, "r").Some?
    ensures r.Ok? ==> var p := ListAt(args[0], "p").value;
      var a := UsizeOf(args[1].i);
      var b := UsizeOf(args[2].i);
      var p2 := ListAt(r.value, "p").value;
      Acyclic(p2) && |p2| == |p| && (Closed(p) && a < |p| && b < |p| ==> Merged(p, a, b, p2))
  {
    if |args| != 3 then Err("dsu_union(dsu, a, b)")
    else
      match ExpectMap(args[0], "dsu_union: first arg must be map")
      case Err(e) => Err(e)
      case Ok(dsu) =>
        if !args[1].SmallInt? then Err("dsu_union: a must be number")
        else if !args[2].SmallInt? then Err("dsu_union: b must be number")
        else
          UnionIn(args[0], UsizeOf(args[1].i), UsizeOf(args[2].i), newId)
  }

  /** The body of `dsu_union` once the arguments are checked: union by rank on the two lists. */
  function UnionIn(v: Value, a: nat, b: nat, newId: nat): (r: Result<Value, string>)
    requires v.RcObj? && v.obj.Map? && Forest(v) && a < UsizeModulus && b < UsizeModulus
    ensures r.Ok? <==> ListAt(v, "p").Some? && ListAt(v, "r").Some?
    ensures r.Ok? ==> ListAt(r.value, "p").Some? && ListAt(r.value, "r").Some?
    ensures r.Ok? ==> var p := ListAt(v, "p").value;
      var p2 := ListAt(r.value, "p").value;
      Acyclic(p2) && |p2| == |p| && (Closed(p) && a < |p| && b < |p| ==> Merged(p, a, b, p2))
  {
    var dsu := v.obj.entries;
    match ExpectList(Lookup(dsu, "p"), "dsu_union: missing parent list")
    case Err(e) => Err(e)
    case Ok(parent) =>
      match ExpectList(Lookup(dsu, "r"), "dsu_union: missing rank list")
      case Err(e) => Err(e)
      case Ok(rank) =>
        var (parent2, rank2) := Union(parent, rank, a, b);
        var dsu2 := dsu["p" := RcObj(newId + 1, List(parent2))]["r" := RcObj(newId + 2, List(rank2))];
        if Closed(parent) && a < |parent| && b < |parent| then
          UnionMerges(parent, rank, a, b);
          Ok(RcObj(newId, Map(dsu2)))
        else Ok(RcObj(newId, Map(dsu2)))
  }
}
