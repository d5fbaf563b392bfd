/**
 * The collection builtins of naux-lang (stdlib/collections.rs) over the VM's
 * values: ordered sets, queues and stacks kept in plain lists and updated
 * by copying, priority queues, and a segment tree of sums kept in a map
 * {"tree": list, "size": n}. The union-find builtins of the same file are
 * in module StdDsu.
 *
 * Every list or map a builtin creates is a new heap object; its identity is
 * taken from the parameter `newId` (and `newId + 1`, … when it creates
 * several). Sets and priority queues are ordered by `Value::cmp`, which
 * renders non-numeric values with the host's debug formatter; that
 * formatter is the parameter `show`.
 */
module StdCollections {
  import opened Wrappers
  import opened VmValue

  /** `expect_list`: the items of a list object, else the given message. */
  function ExpectList(v: Value, msg: string): (r: Result<seq<Value>, string>)
    ensures r.Ok? <==> v.RcObj? && v.obj.List?
    ensures r.Ok? ==> r.value == v.obj.items
    ensures r.Err? ==> r.error == msg
  {
    if v.RcObj? && v.obj.List? then Ok(v.obj.items) else Err(msg)
  }

  /** `expect_map`: the entries of a map object, else the given message. */
  function ExpectMap(v: Value, msg: string): (r: Result<map<string, Value>, string>)
    ensures r.Ok? <==> v.RcObj? && v.obj.Map?
    ensures r.Ok? ==> r.value == v.obj.entries
    ensures r.Err? ==> r.error == msg
  {
    if v.RcObj? && v.obj.Map? then Ok(v.obj.entries) else Err(msg)
  }

  /** `map.get(key).unwrap_or(&Value::Null)`. */
  function Lookup(m: map<string, Value>, key: string): Value
  {
    if key in m then m[key] else Null
  }

  /** A two-element list, the shape every `*_pop` and `dsu_find` returns. */
  predicate IsPair(v: Value)
  {
    v.RcObj? && v.obj.List? && |v.obj.items| == 2
  }

  function Fst(v: Value): Value
    requires IsPair(v)
  {
    v.obj.items[0]
  }

  function Snd(v: Value): Value
    requires IsPair(v)
  {
    v.obj.items[1]
  }

  /** The items of a list object, and nothing for any other value. */
  function Items(v: Value): seq<Value>
  {
    if v.RcObj? && v.obj.List? then v.obj.items else []
  }

  /** `set_new`, `queue_new`, `pq_new` and `stack_new` ignore their arguments. */
  function SetNew(newId: nat): Value { RcObj(newId, Set([])) }
  function QueueNew(newId: nat): Value { RcObj(newId, List([])) }
  function PqNew(newId: nat): Value { RcObj(newId, PriorityQueue([])) }
  function StackNew(newId: nat): Value { RcObj(newId, List([])) }

  /** Every new collection is empty, and so not truthy. */
  lemma NewCollectionsEmpty(newId: nat)
    ensures !Truthy(SetNew(newId)) && !Truthy(QueueNew(newId))
    ensures !Truthy(PqNew(newId)) && !Truthy(StackNew(newId))
    ensures Items(QueueNew(newId)) == [] && Items(StackNew(newId)) == []
  {
  }

  // ---------------------------------------------------------------- sets

  /** `BTreeSet::contains`: some element compares `Equal` to `x`. */
  predicate SetHas(elems: seq<Value>, x: Value, show: Value -> string)
  {
    exists i :: 0 <= i < |elems| && Cmp(elems[i], x, show) == Equal
  }

  /** Every value compares `Equal` to itself. */
  lemma CmpReflexive(a: Value, show: Value -> string)
    ensures Cmp(a, a, show) == Equal
  {
    CmpFlip(a, a, show);
  }

  /** Places `x` before the first element that it orders below. */
  function InsertAsc(x: Value, s: seq<Value>, show: Value -> string): (r: seq<Value>)
    ensures multiset(r) == multiset(s) + multiset{x}
    ensures |r| == |s| + 1
  {
    if |s| == 0 then [x]
    else if Cmp(x, s[0], show) == Less then [x] + s
    else
      assert s == [s[0]] + s[1..];
      [s[0]] + InsertAsc(x, s[1..], show)
  }

  /** `BTreeSet::insert`: a value that compares `Equal` to a member is not added again. */
  function SetInsert(elems: seq<Value>, x: Value, show: Value -> string): (r: seq<Value>)
    ensures SetHas(elems, x, show) ==> r == elems
    ensures !SetHas(elems, x, show) ==> multiset(r) == multiset(elems) + multiset{x}
    ensures SetHas(r, x, show)
    ensures forall y :: SetHas(elems, y, show) ==> SetHas(r, y, show)
  {
    if SetHas(elems, x, show) then elems
    else
      var r := InsertAsc(x, elems, show);
      CmpReflexive(x, show);
      assert x in multiset(r);
      var k :| 0 <= k < |r| && r[k] == x;
      assert Cmp(r[k], x, show) == Equal;
      forall y | SetHas(elems, y, show)
        ensures SetHas(r, y, show)
      {
        var i :| 0 <= i < |elems| && Cmp(elems[i], y, show) == Equal;
        assert elems[i] in multiset(r);
        var j :| 0 <= j < |r| && r[j] == elems[i];
        assert Cmp(r[j], y, show) == Equal;
      }
      r
  }

  function IsSet(v: Value): bool { v.RcObj? && v.obj.Set? }

  /**
   * `set_add`: inserts into the set object itself and returns the same
   * handle, so the result carries the argument's identity.
   */
  function SetAdd(args: seq<Value>, show: Value -> string): (r: Result<Value, string>)
    ensures |args| != 2 ==> r == Err("set_add(set, value)")
    ensures |args| == 2 && !IsSet(args[0]) ==> r == Err("set_add: first arg must be set")
    ensures |args| == 2 && IsSet(args[0]) ==> r.Ok? && IsSet(r.value) && r.value.id == args[0].id
    ensures r.Ok? ==> SetHas(r.value.obj.elems, args[1], show)
    ensures r.Ok? ==> forall y :: SetHas(args[0].obj.elems, y, show) ==> SetHas(r.value.obj.elems, y, show)
    ensures r.Ok? && SetHas(args[0].obj.elems, args[1], show) ==> r.value == args[0]
  {
    if |args| != 2 then Err("set_add(set, value)")
    else if !IsSet(args[0]) then Err("set_add: first arg must be set")
    else Ok(RcObj(args[0].id, Set(SetInsert(args[0].obj.elems, args[1], show))))
  }

  /** `set_contains`: a Bool, whether some member compares `Equal` to the value. */
  function SetContains(args: seq<Value>, show: Value -> string): (r: Result<Value, string>)
    ensures |args| != 2 ==> r == Err("set_contains(set, value)")
    ensures |args| == 2 && !IsSet(args[0]) ==> r == Err("set_contains: first arg must be set")
    ensures r.Ok? ==> r.value.Bool? && (r.value.b <==> SetHas(args[0].obj.elems, args[1], show))
  {
    if |args| != 2 then Err("set_contains(set, value)")
    else if !IsSet(args[0]) then Err("set_contains: first arg must be set")
    else Ok(Bool(SetHas(args[0].obj.elems, args[1], show)))
  }

  /** A value just added is contained, and so is everything that was. */
  lemma AddThenContains(s: Value, x: Value, y: Value, show: Value -> string)
    requires IsSet(s)
    ensures SetContains([SetAdd([s, x], show).value, x], show) == Ok(Bool(true))
    ensures SetContains([s, y], show) == Ok(Bool(true)) ==>
      SetContains([SetAdd([s, x], show).value, y], show) == Ok(Bool(true))
  {
  }

  // -------------------------------------------------------------- queues

  /** `queue_push`: a new list with the value appended at the back. */
  function QueuePush(args: seq<Value>, newId: nat): (r: Result<Value, string>)
    ensures |args| != 2 ==> r == Err("queue_push(queue, value)")
    ensures |args| == 2 ==> (r.Ok? <==> args[0].RcObj? && args[0].obj.List?)
    ensures |args| == 2 && r.Err? ==> r.error == "queue_push: first arg must be list/queue"
    ensures r.Ok? ==> r.value == RcObj(newId, List(Items(args[0]) + [args[1]]))
  {
    if |args| != 2 then Err("queue_push(queue, value)")
    else
      match ExpectList(args[0], "queue_push: first arg must be list/queue")
      case Err(e) => Err(e)
      case Ok(q) => Ok(RcObj(newId, List(q + [args[1]])))
  }

  /**
   * `queue_pop`: the pair [front, rest] of two new lists, or [Null, []]
   * for an empty queue; the argument itself is left as it was.
   */
  function QueuePop(args: seq<Value>, newId: nat): (r: Result<Value, string>)
    ensures |args| != 1 ==> r == Err("queue_pop(queue)")
    ensures |args| == 1 ==> (r.Ok? <==> args[0].RcObj? && args[0].obj.List?)
    ensures |args| == 1 && r.Err? ==> r.error == "queue_pop: first arg must be list/queue"
    ensures r.Ok? ==> IsPair(r.value)
    ensures r.Ok? && |Items(args[0])| == 0 ==> Fst(r.value) == Null && Items(Snd(r.value)) == []
    ensures r.Ok? && |Items(args[0])| > 0 ==>
      Fst(r.value) == Items(args[0])[0] && Items(Snd(r.value)) == Items(args[0])[1..]
  {
    if |args| != 1 then Err("queue_pop(queue)")
    else
      match ExpectList(args[0], "queue_pop: first arg must be list/queue")
      case Err(e) => Err(e)
      case Ok(q) =>
        var front := if |q| == 0 then Null else q[0];
        var rest := if |q| == 0 then [] else q[1..];
        Ok(RcObj(newId, List([front, RcObj(newId + 1, List(rest))])))
  }

  /**
   * First in, first out: popping after a push onto an empty queue returns
   * the pushed value, and onto a non-empty one returns the old front and
   * leaves the old rest with the new value behind it.
   */
  lemma QueueFifo(q: seq<Value>, x: Value, id: nat, newId: nat)
    ensures var pushed := QueuePush([RcObj(id, List(q)), x], newId).value;
      var popped := QueuePop([pushed], newId + 1).value;
      IsPair(popped)
      && (|q| == 0 ==> Fst(popped) == x && Items(Snd(popped)) == [])
      && (|q| > 0 ==> Fst(popped) == q[0] && Items(Snd(popped)) == q[1..] + [x])
  {
    if |q| > 0 {
      assert (q + [x])[1..] == q[1..] + [x];
    }
  }

  // -------------------------------------------------------------- stacks

  /** `stack_push`: a new list with the value on top (at the end). */
  function StackPush(args: seq<Value>, newId: nat): (r: Result<Value, string>)
    ensures |args| != 2 ==> r == Err("stack_push(stack, value)")
    ensures |args| == 2 ==> (r.Ok? <==> args[0].RcObj? && args[0].obj.List?)
    ensures |args| == 2 && r.Err? ==> r.error == "stack_push: first arg must be list/stack"
    ensures r.Ok? ==> r.value == RcObj(newId, List(Items(args[0]) + [args[1]]))
  {
    if |args| != 2 then Err("stack_push(stack, value)")
    else
      match ExpectList(args[0], "stack_push: first arg must be list/stack")
      case Err(e) => Err(e)
      case Ok(s) => Ok(RcObj(newId, List(s + [args[1]])))
  }

  /** `stack_pop`: the pair [top, rest], or [Null, []] for an empty stack. */
  function StackPop(args: seq<Value>, newId: nat): (r: Result<Value, string>)
    ensures |args| != 1 ==> r == Err("stack_pop(stack)")
    ensures |args| == 1 ==> (r.Ok? <==> args[0].RcObj? && args[0].obj.List?)
    ensures |args| == 1 && r.Err? ==> r.error == "stack_pop: first arg must be list/stack"
    ensures r.Ok? ==> IsPair(r.value)
    ensures r.Ok? && |Items(args[0])| == 0 ==> Fst(r.value) == Null && Items(Snd(r.value)) == []
    ensures r.Ok? && |Items(args[0])| > 0 ==>
      var s := Items(args[0]);
      Fst(r.value) == s[|s| - 1] && Items(Snd(r.value)) == s[..|s| - 1]
  {
    if |args| != 1 then Err("stack_pop(stack)")
    else
      match ExpectList(args[0], "stack_pop: first arg must be list/stack")
      case Err(e) => Err(e)
      case Ok(s) =>
        var top := if |s| == 0 then Null else s[|s| - 1];
        var rest := if |s| == 0 then [] else s[..|s| - 1];
        Ok(RcObj(newId, List([top, RcObj(newId + 1, List(rest))])))
  }

  /** Last in, first out: popping right after a push gives back the value and the old stack. */
  lemma StackLifo(s: seq<Value>, x: Value, id: nat, newId: nat)
    ensures var pushed := StackPush([RcObj(id, List(s)), x], newId).value;
      var popped := StackPop([pushed], newId + 1).value;
      IsPair(popped) && Fst(popped) == x && Items(Snd(popped)) == s
  {
    assert (s + [x])[..|s|] == s;
  }

  // ----------------------------------------------------- priority queues

  /** The numeric value of a number; other values count as nothing here. */
  function Num(v: Value): real
  {
    match v
    case SmallInt(i) => i as real
    case Float(f) => f
    case _ => 0.0
  }

  predicate AllNumbers(s: seq<Value>)
  {
    forall i :: 0 <= i < |s| ==> IsNumber(s[i])
  }

  /** Two numbers compare `Less` exactly when the first is numerically smaller. */
  lemma NumLess(a: Value, b: Value, show: Value -> string)
    requires IsNumber(a) && IsNumber(b)
    ensures Cmp(a, b, show) == Less <==> Num(a) < Num(b)
  {
    NumericOrder(a, b, show);
  }

  /** Numbers in non-increasing order, the layout `from_min_heap` stores. */
  ghost predicate Descending(s: seq<Value>)
  {
    forall i, j :: 0 <= i < j < |s| ==> Num(s[j]) <= Num(s[i])
  }

  /** Places `x` before the first element it does not order below. */
  function InsertDesc(x: Value, s: seq<Value>, show: Value -> string): (r: seq<Value>)
    ensures multiset(r) == multiset(s) + multiset{x}
    ensures |r| == |s| + 1
  {
    if |s| == 0 then [x]
    else if Cmp(x, s[0], show) != Less then [x] + s
    else
      assert s == [s[0]] + s[1..];
      [s[0]] + InsertDesc(x, s[1..], show)
  }

  lemma {:induction false} InsertDescSorted(x: Value, s: seq<Value>, show: Value -> string)
    requires AllNumbers(s) && IsNumber(x) && Descending(s)
    ensures Descending(InsertDesc(x, s, show)) && AllNumbers(InsertDesc(x, s, show))
  {
    var r := InsertDesc(x, s, show);
    forall k | 0 <= k < |r|
      ensures IsNumber(r[k])
    {
      assert r[k] in multiset(s) + multiset{x};
    }
    if |s| > 0 {
      NumLess(x, s[0], show);
      if Cmp(x, s[0], show) == Less {
        InsertDescSorted(x, s[1..], show);
        var t := InsertDesc(x, s[1..], show);
        forall k | 0 <= k < |t|
          ensures Num(t[k]) <= Num(s[0])
        {
          assert t[k] in multiset(s[1..]) + multiset{x};
          if t[k] != x {
            assert t[k] in s[1..];
          }
        }
      }
    }
  }

  /** The contents of a priority queue after `from_min_heap`: largest first. */
  function SortDesc(s: seq<Value>, show: Value -> string): (r: seq<Value>)
    ensures multiset(r) == multiset(s)
    ensures |r| == |s|
  {
    if |s| == 0 then []
    else
      assert s == [s[0]] + s[1..];
      InsertDesc(s[0], SortDesc(s[1..], show), show)
  }

  lemma {:induction false} SortDescSorted(s: seq<Value>, show: Value -> string)
    requires AllNumbers(s)
    ensures Descending(SortDesc(s, show)) && AllNumbers(SortDesc(s, show))
  {
    if |s| > 0 {
      SortDescSorted(s[1..], show);
      InsertDescSorted(s[0], SortDesc(s[1..], show), show);
    }
  }

  /** The index of an element nothing else orders strictly below, scanning from `best`. */
  function MinFrom(s: seq<Value>, best: nat, i: nat, show: Value -> string): (m: nat)
    requires best < |s| && best < i <= |s|
    requires AllNumbers(s) ==> forall j :: 0 <= j < i ==> Num(s[best]) <= Num(s[j])
    ensures m < |s|
    ensures AllNumbers(s) ==> forall j :: 0 <= j < |s| ==> Num(s[m]) <= Num(s[j])
    decreases |s| - i
  {
    if i == |s| then best
    else if !AllNumbers(s) then
      if Cmp(s[i], s[best], show) == Less then MinFrom(s, i, i + 1, show) else MinFrom(s, best, i + 1, show)
    else
      NumLess(s[i], s[best], show);
      if Cmp(s[i], s[best], show) == Less then MinFrom(s, i, i + 1, show) else MinFrom(s, best, i + 1, show)
  }

  function IsPq(v: Value): bool { v.RcObj? && v.obj.PriorityQueue? }

  /** The contents of a priority queue object. */
  function Heap(v: Value): seq<Value>
  {
    if IsPq(v) then v.obj.heap else []
  }

  /** `pq_push`: a new queue holding the old contents and the value. */
  function PqPush(args: seq<Value>, show: Value -> string, newId: nat): (r: Result<Value, string>)
    ensures |args| != 2 ==> r == Err("pq_push(pq, value)")
    ensures |args| == 2 && !IsPq(args[0]) ==> r == Err("priority queue expected")
    ensures |args| == 2 && IsPq(args[0]) ==> r.Ok? && IsPq(r.value) && r.value.id == newId
    ensures r.Ok? ==> multiset(Heap(r.value)) == multiset(Heap(args[0])) + multiset{args[1]}
    ensures r.Ok? && AllNumbers(Heap(args[0]) + [args[1]]) ==> Descending(Heap(r.value))
  {
    if |args| != 2 then Err("pq_push(pq, value)")
    else if !IsPq(args[0]) then Err("priority queue expected")
    else
      var all := args[0].obj.heap + [args[1]];
      if AllNumbers(all) then
        SortDescSorted(all, show);
        Ok(RcObj(newId, PriorityQueue(SortDesc(all, show))))
      else Ok(RcObj(newId, PriorityQueue(SortDesc(all, show))))
  }

  /**
   * `pq_pop_min`: the pair [least element, queue of the others], or
   * [Null, empty queue] when empty.
   */
  function PqPopMin(args: seq<Value>, show: Value -> string, newId: nat): (r: Result<Value, string>)
    ensures |args| != 1 ==> r == Err("pq_pop_min(pq)")
    ensures |args| == 1 && !IsPq(args[0]) ==> r == Err("priority queue expected")
    ensures |args| == 1 && IsPq(args[0]) ==> r.Ok? && IsPair(r.value) && IsPq(Snd(r.value))
    ensures r.Ok? && |Heap(args[0])| == 0 ==> Fst(r.value) == Null && Heap(Snd(r.value)) == []
    ensures r.Ok? && |Heap(args[0])| > 0 ==>
      multiset(Heap(Snd(r.value))) + multiset{Fst(r.value)} == multiset(Heap(args[0]))
    ensures r.Ok? && |Heap(args[0])| > 0 && AllNumbers(Heap(args[0])) ==>
      (forall j :: 0 <= j < |Heap(args[0])| ==> Num(Fst(r.value)) <= Num(Heap(args[0])[j]))
      && Descending(Heap(Snd(r.value)))
  {
    if |args| != 1 then Err("pq_pop_min(pq)")
    else if !IsPq(args[0]) then Err("priority queue expected")
    else
      var data := args[0].obj.heap;
      if |data| == 0 then Ok(RcObj(newId, List([Null, RcObj(newId + 1, PriorityQueue([]))])))
      else
        var i := MinFrom(data, 0, 1, show);
        var rest := Without(data, i);
        var popped := RcObj(newId, List([data[i], RcObj(newId + 1, PriorityQueue(SortDesc(rest, show)))]));
        if AllNumbers(rest) then
          SortDescSorted(rest, show);
          Ok(popped)
        else Ok(popped)
  }

  /** The queue's contents with position i taken out. */
  function Without(s: seq<Value>, i: nat): (r: seq<Value>)
    requires i < |s|
    ensures multiset(r) + multiset{s[i]} == multiset(s)
    ensures AllNumbers(s) ==> AllNumbers(r)
  {
    assert s == s[..i] + [s[i]] + s[i + 1..];
    var r := s[..i] + s[i + 1..];
    assert forall k :: 0 <= k < |r| ==> r[k] == s[if k < i then k else k + 1];
    r
  }

  /** A value pushed onto an empty queue is the one popped, leaving the queue empty. */
  lemma PushThenPop(x: Value, show: Value -> string, id: nat, newId: nat)
    ensures var q := PqPush([PqNew(id), x], show, newId).value;
      var popped := PqPopMin([q], show, newId + 1).value;
      Fst(popped) == x && Heap(Snd(popped)) == []
  {
  }

  // -------------------------------------------------------- segment tree

  /** `add_values`: integer sums stay integers, any float makes a float, anything else is 0.0. */
  function AddValues(a: Value, b: Value): (r: Value)
    ensures IsNumber(r)
    ensures IsNumber(a) && IsNumber(b) ==> Num(r) == Num(a) + Num(b)
    ensures r.SmallInt? <==> a.SmallInt? && b.SmallInt?
  {
    match (a, b)
    case (SmallInt(x), SmallInt(y)) => SmallInt(x + y)
    case (SmallInt(x), Float(y)) => Float(x as real + y)
    case (Float(x), SmallInt(y)) => Float(x + y as real)
    case (Float(x), Float(y)) => Float(x + y)
    case _ => Float(0.0)
  }

  /** The sum of the numeric values of `t[a..b]`, zero when the range is empty. */
  function RangeSum(t: seq<Value>, a: int, b: int): real
    requires 0 <= a && b <= |t|
    decreases b - a
  {
    if a >= b then 0.0 else RangeSum(t, a, b - 1) + Num(t[b - 1])
  }

  lemma {:induction false} RangeSumFront(t: seq<Value>, a: int, b: int)
    requires 0 <= a < b <= |t|
    ensures RangeSum(t, a, b) == Num(t[a]) + RangeSum(t, a + 1, b)
    decreases b - a
  {
    if a + 1 < b {
      RangeSumFront(t, a, b - 1);
    }
  }

  /** Internal node `i` holds the sum of its two children. */
  predicate NodeOk(t: seq<Value>, i: int)
    requires 0 <= i && 2 * i + 1 < |t|
  {
    Num(t[i]) == Num(t[2 * i]) + Num(t[2 * i + 1])
  }

  /** A segment tree of numbers over `size` leaves: every internal node is the sum of its children. */
  predicate SegWf(t: seq<Value>, size: int)
  {
    0 <= size && |t| == 2 * size && AllNumbers(t) && forall i :: 1 <= i < size ==> NodeOk(t, i)
  }

  /** One level up: the nodes over the pairs of `t[2a..2b]` add up to the same sum. */
  lemma {:induction false} RangeSumPairs(t: seq<Value>, size: nat, a: int, b: int)
    requires SegWf(t, size) && 1 <= a <= b <= size
    ensures RangeSum(t, 2 * a, 2 * b) == RangeSum(t, a, b)
    decreases b - a
  {
    if a < b {
      RangeSumPairs(t, size, a, b - 1);
      assert NodeOk(t, b - 1);
    }
  }

  predicate IsPow2(n: int)
    decreases n
  {
    if n <= 1 then n == 1 else n % 2 == 0 && IsPow2(n / 2)
  }

  /**
   * The tree `segtree_new` builds: `size` is the least power of two that is
   * at least `|arr|`, the leaves `tree[size..]` hold the array padded with
   * Float(0.0), and every node below `size` adds its two children.
   */
  method BuildTree(arr: seq<Value>) returns (tree: seq<Value>, size: nat)
    ensures IsPow2(size) && size >= |arr| && (size == 1 || size / 2 < |arr|)
    ensures |tree| == 2 * size
    ensures forall i :: 0 <= i < |arr| ==> tree[size + i] == arr[i]
    ensures forall k :: size + |arr| <= k < 2 * size ==> tree[k] == Float(0.0)
    ensures AllNumbers(arr) ==> SegWf(tree, size)
  {
    size := LeafCount(|arr|);
    tree := seq(2 * size, (k: int) => if size <= k < size + |arr| then arr[k - size] else Float(0.0));
    var i := size - 1;
    while i >= 1
      invariant 0 <= i < size && |tree| == 2 * size && tree[0] == Float(0.0)
      invariant forall k :: size <= k < 2 * size ==> tree[k] == (if k < size + |arr| then arr[k - size] else Float(0.0))
      invariant forall k :: i < k < size ==> tree[k] == AddValues(tree[2 * k], tree[2 * k + 1])
      invariant forall k :: 1 <= k <= i ==> tree[k] == Float(0.0)
    {
      tree := tree[i := AddValues(tree[2 * i], tree[2 * i + 1])];
      i := i - 1;
    }
    assert forall i :: 0 <= i < |arr| ==> tree[size + i] == arr[i];
    if AllNumbers(arr) {
      Built(tree, size, arr);
    }
  }

  /** The number of leaves: the least power of two that is at least n. */
  method LeafCount(n: nat) returns (size: nat)
    ensures IsPow2(size) && size >= n && (size == 1 || size / 2 < n)
  {
    size := 1;
    while size < n
      invariant IsPow2(size) && (size == 1 || size / 2 < n)
    {
      size := size * 2;
    }
  }

  /** Number leaves under nodes that each add their children make a well-formed tree. */
  lemma Built(tree: seq<Value>, size: nat, arr: seq<Value>)
    requires |tree| == 2 * size && 1 <= size && |arr| <= size && AllNumbers(arr) && tree[0] == Float(0.0)
    requires forall k :: size <= k < 2 * size ==> tree[k] == (if k < size + |arr| then arr[k - size] else Float(0.0))
    requires forall k :: 0 < k < size ==> tree[k] == AddValues(tree[2 * k], tree[2 * k + 1])
    ensures SegWf(tree, size)
  {
    forall k | 0 <= k < |tree|
      ensures IsNumber(tree[k])
    {
      if size <= k < size + |arr| {
        assert IsNumber(arr[k - size]);
      } else if 0 < k < size {
        assert tree[k] == AddValues(tree[2 * k], tree[2 * k + 1]);
      }
    }
  }

  /**
   * The query loop of `segtree_query` on the half-open leaf range
   * `[l0, r0)`: `l & 1` and `l >>= 1` are written as `% 2` and `/ 2`, which
   * agree on the non-negative positions the loop visits.
   */
  method Query(tree: seq<Value>, size: nat, l0: int, r0: int) returns (res: Value)
    requires 0 <= l0 && r0 <= size && 2 * size <= |tree|
    ensures res.Float?
    ensures SegWf(tree, size) ==> res == Float(RangeSum(tree, size + l0, size + r0))
  {
    var l := l0 + size;
    var r := r0 + size;
    var resLeft := Float(0.0);
    var resRight := Float(0.0);
    while l < r
      invariant 0 <= l && r <= 2 * size
      invariant l < r ==> 1 <= l
      invariant resLeft.Float? && resRight.Float?
      invariant SegWf(tree, size) ==>
        Num(resLeft) + RangeSum(tree, l, r) + Num(resRight) == RangeSum(tree, size + l0, size + r0)
      decreases r - l
    {
      if l % 2 == 1 {
        if SegWf(tree, size) { RangeSumFront(tree, l, r); }
        resLeft := AddValues(resLeft, tree[l]);
        l := l + 1;
      }
      if r % 2 == 1 {
        r := r - 1;
        resRight := AddValues(tree[r], resRight);
      }
      if SegWf(tree, size) && l < r {
        RangeSumPairs(tree, size, l / 2, r / 2);
      }
      l := l / 2;
      r := r / 2;
    }
    res := Add(resLeft, resRight, 0);
  }

  /** `i` is `pos` or one of the nodes above it. */
  predicate AncestorOrSelf(i: nat, pos: nat)
    decreases pos
  {
    if pos < i then false else pos == i || (pos > 0 && AncestorOrSelf(i, pos / 2))
  }

  /**
   * The update loop of `segtree_update`: the leaf of `idx` takes the new
   * value and every node above it is recomputed, bottom up.
   */
  method Update(tree: seq<Value>, size: nat, idx: int, v: Value) returns (t: seq<Value>)
    requires 0 <= idx < size && 2 * size <= |tree|
    ensures |t| == |tree|
    ensures t[size + idx] == v
    ensures forall k :: size <= k < |tree| && k != size + idx ==> t[k] == tree[k]
    ensures SegWf(tree, size) && IsNumber(v) ==> SegWf(t, size)
  {
    var leaf := idx + size;
    t := tree[leaf := v];
    var pos := leaf / 2;
    ghost var wf := SegWf(tree, size) && IsNumber(v);
    if wf {
      forall i | 1 <= i < size && !AncestorOrSelf(i, pos)
        ensures NodeOk(t, i)
      {
        assert i != pos;
        assert NodeOk(tree, i);
      }
    }
    while pos > 0
      invariant |t| == |tree| && 0 <= pos < size
      invariant t[leaf] == v
      invariant forall k :: size <= k < |tree| && k != leaf ==> t[k] == tree[k]
      invariant wf ==> AllNumbers(t)
      invariant wf ==> forall i :: 1 <= i < size && !AncestorOrSelf(i, pos) ==> NodeOk(t, i)
    {
      var t0 := t;
      t := t[pos := AddValues(t[2 * pos], t[2 * pos + 1])];
      if wf {
        forall i | 1 <= i < size && !AncestorOrSelf(i, pos / 2)
          ensures NodeOk(t, i)
        {
          if i != pos {
            assert !AncestorOrSelf(i, pos);
            assert NodeOk(t0, i);
            assert 2 * i != pos && 2 * i + 1 != pos;
          }
        }
      }
      pos := pos / 2;
    }
  }

  /** `segtree_new(list)`: the map {"tree": ..., "size": ...} of a new tree over the list. */
  method SegtreeNew(args: seq<Value>, newId: nat) returns (r: Result<Value, string>)
    ensures |args| != 1 ==> r == Err("segtree_new(list)")
    ensures |args| == 1 ==> (r.Ok? <==> args[0].RcObj? && args[0].obj.List?)
    ensures |args| == 1 && r.Err? ==> r.error == "segtree_new: expected list"
    ensures r.Ok? ==> r.value.RcObj? && r.value.obj.Map? && r.value.obj.entries.Keys == {"tree", "size"}
    ensures r.Ok? ==> var arr := Items(args[0]);
      var size := r.value.obj.entries["size"];
      var tree := Items(r.value.obj.entries["tree"]);
      size.SmallInt? && IsPow2(size.i) && size.i >= |arr| && |tree| == 2 * size.i
      && (forall k :: 0 <= k < |arr| ==> tree[size.i + k] == arr[k])
      && (AllNumbers(arr) ==> SegWf(tree, size.i))
  {
    if |args| != 1 {
      return Err("segtree_new(list)");
    }
    var arr := ExpectList(args[0], "segtree_new: expected list");
    if arr.Err? {
      return Err(arr.error);
    }
    var tree, size := BuildTree(arr.value);
    var m := map["tree" := RcObj(newId + 1, List(tree)), "size" := SmallInt(size)];
    return Ok(RcObj(newId, Map(m)));
  }

  /** The tree list and the size of a segment tree map, as both builtins read them. */
  function TreeParts(st: map<string, Value>, missingTree: string, missingSize: string): (r: Result<(seq<Value>, int), string>)
    ensures r.Err? ==> r.error in {missingTree, missingSize}
  {
    match ExpectList(Lookup(st, "tree"), missingTree)
    case Err(e) => Err(e)
    case Ok(tree) =>
      if Lookup(st, "size").SmallInt? then Ok((tree, Lookup(st, "size").i))
      else Err(missingSize)
  }

  /** The bounds `segtree_query` indexes with stay inside the tree. */
  predicate QueryInBounds(args: seq<Value>)
  {
    |args| == 3 && args[0].RcObj? && args[0].obj.Map? && args[1].SmallInt? && args[2].SmallInt? ==>
      match TreeParts(args[0].obj.entries, "segtree_query: missing tree", "segtree_query: missing size")
      case Err(_) => true
      case Ok((tree, size)) => 0 <= size && 0 <= args[1].i && args[2].i <= size && 2 * size <= |tree|
  }

  /** `segtree_query(st, l, r)`: the sum of the leaves `l..r-1`, always a Float. */
  method SegtreeQuery(args: seq<Value>) returns (r: Result<Value, string>)
    requires QueryInBounds(args)
    ensures |args| != 3 ==> r == Err("segtree_query(st, l, r)")
    ensures |args| == 3 && !(args[0].RcObj? && args[0].obj.Map?) ==> r == Err("segtree_query: st must be map")
    ensures r.Err? && |args| == 3 && args[0].RcObj? && args[0].obj.Map? ==>
      r.error in {"segtree_query: missing tree", "segtree_query: missing size", "l must be num", "r must be num"}
    ensures r.Ok? ==> r.value.Float?
    ensures r.Ok? ==> var parts := TreeParts(args[0].obj.entries, "segtree_query: missing tree", "segtree_query: missing size");
      parts.Ok? && args[1].SmallInt? && args[2].SmallInt?
      && (SegWf(parts.value.0, parts.value.1) ==>
        r.value.f == RangeSum(parts.value.0, parts.value.1 + args[1].i, parts.value.1 + args[2].i))
  {
    if |args| != 3 {
      return Err("segtree_query(st, l, r)");
    }
    var st := ExpectMap(args[0], "segtree_query: st must be map");
    if st.Err? {
      return Err(st.error);
    }
    var parts := TreeParts(st.value, "segtree_query: missing tree", "segtree_query: missing size");
    if parts.Err? {
      return Err(parts.error);
    }
    if !args[1].SmallInt? {
      return Err("l must be num");
    }
    if !args[2].SmallInt? {
      return Err("r must be num");
    }
    var (tree, size) := parts.value;
    var v := Query(tree, size, args[1].i, args[2].i);
    return Ok(v);
  }

  /** The leaf `segtree_update` writes has a parent chain inside the tree. */
  predicate UpdateInBounds(args: seq<Value>)
  {
    |args| == 3 && args[0].RcObj? && args[0].obj.Map? && args[1].SmallInt? ==>
      match TreeParts(args[0].obj.entries, "segtree_update: missing tree", "segtree_update: missing size")
      case Err(_) => true
      case Ok((tree, size)) => 0 <= args[1].i < size && 2 * size <= |tree|
  }

  /**
   * `segtree_update(st, idx, val)`: a new map whose tree has `val` at leaf
   * `idx`, every other leaf as before, and every sum above it recomputed.
   */
  method SegtreeUpdate(args: seq<Value>, newId: nat) returns (r: Result<Value, string>)
    requires UpdateInBounds(args)
    ensures |args| != 3 ==> r == Err("segtree_update(st, idx, val)")
    ensures |args| == 3 && !(args[0].RcObj? && args[0].obj.Map?) ==> r == Err("segtree_update: st must be map")
    ensures r.Err? && |args| == 3 && args[0].RcObj? && args[0].obj.Map? ==>
      r.error in {"segtree_update: missing tree", "segtree_update: missing size", "idx must be number"}
    ensures r.Ok? ==> var parts := TreeParts(args[0].obj.entries, "segtree_update: missing tree", "segtree_update: missing size");
      parts.Ok? && args[1].SmallInt? && r.value.RcObj? && r.value.obj.Map?
      && "tree" in r.value.obj.entries
      && r.value.obj.entries == args[0].obj.entries["tree" := r.value.obj.entries["tree"]]
      && var (tree, size) := parts.value;
      var t := Items(r.value.obj.entries["tree"]);
      |t| == |tree| && t[size + args[1].i] == args[2]
      && (forall k :: size <= k < |tree| && k != size + args[1].i ==> t[k] == tree[k])
      && (SegWf(tree, size) && IsNumber(args[2]) ==> SegWf(t, size))
  {
    if |args| != 3 {
      return Err("segtree_update(st, idx, val)");
    }
    var st := ExpectMap(args[0], "segtree_update: st must be map");
    if st.Err? {
      return Err(st.error);
    }
    var parts := TreeParts(st.value, "segtree_update: missing tree", "segtree_update: missing size");
    if parts.Err? {
      return Err(parts.error);
    }
    if !args[1].SmallInt? {
      return Err("idx must be number");
    }
    var (tree, size) := parts.value;
    var t := Update(tree, size, args[1].i, args[2]);
    return Ok(RcObj(newId, Map(st.value["tree" := RcObj(newId + 1, List(t))])));
  }
}
