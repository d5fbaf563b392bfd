/**
 * Properties of the IR optimiser and the lowering in vm/compiler.rs:
 * constant folding agrees with the evaluator's operators, jump remapping
 * finds the first surviving instruction, reachability pruning keeps every
 * instruction control can reach and retargets jumps to the same
 * instructions, the branch peepholes are no-ops on the machine, and local
 * slots cover every variable the lowering meets.
 */
module OptimizerProps {
  import opened Wrappers
  import A = Ast
  import SA = ScriptAst
  import SV = ScriptValue
  import opened IR
  import B = Bytecode
  import opened Compiler

  // ---------------------------------------------------------------------------
  // Constant folding

  function ScriptOp(op: A.BinaryOp): SA.BinaryOp
  {
    match op
    case Add => SA.Add
    case Sub => SA.Sub
    case Mul => SA.Mul
    case Div => SA.Div
    case Mod => SA.Mod
    case Eq => SA.Eq
    case Ne => SA.Ne
    case Gt => SA.Gt
    case Ge => SA.Ge
    case Lt => SA.Lt
    case Le => SA.Le
    case And => SA.And
    case Or => SA.Or
  }

  /**
   * A folded constant is what the tree-walking evaluator computes for the
   * same operator on the same two numbers; folding declines exactly the
   * logical operators and a zero divisor.
   */
  lemma FoldMatchesEvaluator(a: real, b: real, op: A.BinaryOp, show: SV.Value -> string)
    ensures FoldNum(a, b, OpInstr(op)).Some? ==>
      SV.EvalBinary(ScriptOp(op), SV.Number(a), SV.Number(b), show) == SV.Number(FoldNum(a, b, OpInstr(op)).value)
    ensures FoldCmp(a, b, OpInstr(op)).Some? ==>
      SV.EvalBinary(ScriptOp(op), SV.Number(a), SV.Number(b), show) == SV.Bool(FoldCmp(a, b, OpInstr(op)).value)
    ensures (FoldNum(a, b, OpInstr(op)).None? && FoldCmp(a, b, OpInstr(op)).None?) <==>
      (op == A.And || op == A.Or || ((op == A.Div || op == A.Mod) && b == 0.0))
  {
  }

  // ---------------------------------------------------------------------------
  // Jump remapping

  /** The last surviving instruction's new index; None exactly when nothing survives. */
  lemma {:induction false} LastSomeSpec(mapping: seq<Option<nat>>)
    ensures LastSome(mapping).None? <==> forall j :: 0 <= j < |mapping| ==> mapping[j].None?
    ensures forall k :: 0 <= k < |mapping| && mapping[k].Some? && (forall j :: k < j < |mapping| ==> mapping[j].None?) ==>
      LastSome(mapping) == mapping[k]
    decreases |mapping|
  {
    if |mapping| > 0 && mapping[|mapping| - 1].None? {
      var init := mapping[..|mapping| - 1];
      LastSomeSpec(init);
      assert forall j :: 0 <= j < |init| ==> init[j] == mapping[j];
    }
  }

  /**
   * `remap_target`: the new index of the first surviving instruction at or
   * after the old target, or, when none survives there, that of the last
   * surviving instruction.
   */
  lemma {:induction false} RemapSpec(t: nat, mapping: seq<Option<nat>>)
    ensures forall k :: t <= k < |mapping| && mapping[k].Some? && (forall j :: t <= j < k ==> mapping[j].None?) ==>
      RemapTarget(t, mapping) == mapping[k]
    ensures (forall j :: t <= j < |mapping| ==> mapping[j].None?) ==> RemapTarget(t, mapping) == LastSome(mapping)
    decreases |mapping| - t
  {
    if t < |mapping| && mapping[t].None? {
      RemapSpec(t + 1, mapping);
    }
  }

  /** A remapped target is one of the new indices the map hands out. */
  lemma {:induction false} RemapInRange(t: nat, mapping: seq<Option<nat>>, n: nat)
    requires forall j :: 0 <= j < |mapping| && mapping[j].Some? ==> mapping[j].value < n
    ensures RemapTarget(t, mapping).Some? ==> RemapTarget(t, mapping).value < n
    decreases |mapping| - t
  {
    if t < |mapping| {
      if mapping[t].None? { RemapInRange(t + 1, mapping, n); }
    } else {
      LastSomeInRange(mapping, n);
    }
  }

  lemma {:induction false} LastSomeInRange(mapping: seq<Option<nat>>, n: nat)
    requires forall j :: 0 <= j < |mapping| && mapping[j].Some? ==> mapping[j].value < n
    ensures LastSome(mapping).Some? ==> LastSome(mapping).value < n
    decreases |mapping|
  {
    if |mapping| > 0 && mapping[|mapping| - 1].None? {
      LastSomeInRange(mapping[..|mapping| - 1], n);
    }
  }

  // ---------------------------------------------------------------------------
  // Reachability

  /** The successors of instruction `x` by its kind: a jump's target, both ways of a branch, none after a return. */
  function Succ(i: IRInstr, x: nat): set<nat>
  {
    if i.Jump? then {i.target}
    else if i.JumpIfFalse? then {x + 1, i.target}
    else if i.Return? then {}
    else {x + 1}
  }

  /** Where control can go after instruction `x` without leaving the block. */
  function Next(block: seq<IRNode>, x: nat): (r: set<nat>)
    ensures forall y :: y in r ==> y < |block|
    ensures x < |block| ==> forall y :: y in r <==> y in Succ(block[x].instr, x) && y < |block|
    ensures x >= |block| ==> r == {}
  {
    if x >= |block| then {}
    else set y | y in Succ(block[x].instr, x) && y < |block|
  }

  /** No successor of a member of `r` lies outside `r + pending`. */
  predicate ClosedUpTo(block: seq<IRNode>, r: set<nat>, pending: set<nat>)
  {
    forall x, y :: x in r && y in Next(block, x) ==> y in r + pending
  }

  /**
   * The search is complete: when everything already visited has its
   * successors visited, pending, or at `idx`, the result has all its
   * successors in itself or pending.
   */
  lemma {:induction false} DfsComplete(block: seq<IRNode>, idx: nat, reach: set<nat>, pending: set<nat>)
    requires reach <= Indices(|block|)
    requires ClosedUpTo(block, reach, pending + {idx})
    ensures ClosedUpTo(block, Dfs(block, idx, reach), pending)
    decreases Indices(|block|) - reach
  {
    if idx >= |block| || idx in reach {
      forall x, y | x in reach && y in Next(block, x) ensures y in reach + pending {
        assert y in reach + (pending + {idx});
        assert y < |block|;
      }
    } else {
      var reach1 := reach + {idx};
      var i := block[idx].instr;
      assert forall y :: y in Next(block, idx) ==> y in Succ(i, idx);
      assert reach1 <= Indices(|block|);
      forall x, y | x in reach1 && y in Next(block, x) ensures y in reach1 + (pending + Succ(i, idx)) {
        if x != idx { assert y in reach + (pending + {idx}); }
      }
      if i.Jump? {
        DfsComplete(block, i.target, reach1, pending);
      } else if i.JumpIfFalse? {
        assert pending + Succ(i, idx) == (pending + {i.target}) + {idx + 1};
        DfsComplete(block, idx + 1, reach1, pending + {i.target});
        DfsComplete(block, i.target, Dfs(block, idx + 1, reach1), pending);
      } else if i.Return? {
        assert Dfs(block, idx, reach) == reach1 && Succ(i, idx) == {};
        forall x, y | x in reach1 && y in Next(block, x) ensures y in reach1 + pending {
          assert y in reach1 + (pending + Succ(i, idx));
        }
      } else {
        DfsComplete(block, idx + 1, reach1, pending);
      }
    }
  }

  /** The search is minimal: it stays inside any successor-closed set holding its start. */
  lemma {:induction false} DfsWithin(block: seq<IRNode>, idx: nat, reach: set<nat>, s: set<nat>)
    requires reach <= Indices(|block|) && reach <= s
    requires idx < |block| ==> idx in s
    requires ClosedUpTo(block, s, {})
    ensures Dfs(block, idx, reach) <= s
    decreases Indices(|block|) - reach
  {
    if idx >= |block| || idx in reach {
    } else {
      var reach1 := reach + {idx};
      var i := block[idx].instr;
      assert forall y :: y in Succ(i, idx) && y < |block| ==> y in Next(block, idx);
      assert reach1 <= Indices(|block|) && reach1 <= s;
      forall y | y in Succ(i, idx) && y < |block| ensures y in s {
        assert idx in s && y in Next(block, idx);
        assert y in s + {};
      }
      if i.Jump? {
        DfsWithin(block, i.target, reach1, s);
      } else if i.JumpIfFalse? {
        DfsWithin(block, idx + 1, reach1, s);
        DfsWithin(block, i.target, Dfs(block, idx + 1, reach1), s);
      } else if !i.Return? {
        DfsWithin(block, idx + 1, reach1, s);
      }
    }
  }

  /**
   * `dfs(0)` of `prune_unreachable` computes exactly the instructions
   * reachable from the entry: it holds the entry, is closed under
   * successors, and lies inside every other such set.
   */
  lemma Reachable(block: seq<IRNode>)
    ensures |block| > 0 ==> 0 in Dfs(block, 0, {})
    ensures ClosedUpTo(block, Dfs(block, 0, {}), {})
    ensures forall s :: (|block| > 0 ==> 0 in s) && ClosedUpTo(block, s, {}) ==> Dfs(block, 0, {}) <= s
  {
    DfsComplete(block, 0, {}, {});
    forall s | (|block| > 0 ==> 0 in s) && ClosedUpTo(block, s, {})
      ensures Dfs(block, 0, {}) <= s
    {
      DfsWithin(block, 0, {}, s);
    }
  }

  // ---------------------------------------------------------------------------
  // Pruning

  /**
   * What `Filter` keeps up to position `i`: the positions before `i` in
   * `keep` are mapped, in order, to the output node equal to their input
   * node; nothing at or after `i` is mapped yet; every output node is some
   * mapped position's.
   */
  predicate FilterInv(block: seq<IRNode>, keep: set<nat>, i: nat, out: seq<IRNode>, mapping: seq<Option<nat>>)
  {
    i <= |block| && |mapping| == |block|
    && (forall j :: 0 <= j < i ==> (mapping[j].Some? <==> j in keep))
    && (forall j :: i <= j < |block| ==> mapping[j].None?)
    && (forall j :: 0 <= j < |block| && mapping[j].Some? ==> mapping[j].value < |out| && out[mapping[j].value] == block[j])
    && (forall j1, j2 :: 0 <= j1 < j2 < |block| && mapping[j1].Some? && mapping[j2].Some? ==> mapping[j1].value < mapping[j2].value)
    && (forall k :: 0 <= k < |out| ==> Source(mapping, i, k))
  }

  /** Output position k is the image of some index before i. */
  predicate Source(mapping: seq<Option<nat>>, i: nat, k: nat)
  {
    exists j :: 0 <= j < i && j < |mapping| && mapping[j] == Some(k)
  }

  lemma {:induction false} FilterKeeps(block: seq<IRNode>, keep: set<nat>, i: nat, out: seq<IRNode>, mapping: seq<Option<nat>>)
    requires FilterInv(block, keep, i, out, mapping)
    ensures FilterInv(block, keep, |block|, Filter(block, keep, i, out, mapping).0, Filter(block, keep, i, out, mapping).1)
    decreases |block| - i
  {
    if i < |block| {
      if i in keep {
        KeepOne(block, keep, i, out, mapping);
        FilterKeeps(block, keep, i + 1, out + [block[i]], mapping[i := Some(|out|)]);
      } else {
        SkipOne(block, keep, i, i + 1, out, mapping);
        FilterKeeps(block, keep, i + 1, out, mapping);
      }
    }
  }

  /** Skipping position i leaves it unmapped and every source where it was. */
  lemma SkipOne(block: seq<IRNode>, keep: set<nat>, i: nat, n: nat, out: seq<IRNode>, mapping: seq<Option<nat>>)
    requires FilterInv(block, keep, i, out, mapping) && i < |block| && i !in keep && n == i + 1
    ensures FilterInv(block, keep, n, out, mapping)
  {
    forall k | 0 <= k < |out|
      ensures Source(mapping, n, k)
    {
      assert Source(mapping, i, k);
      var j :| 0 <= j < i && j < |mapping| && mapping[j] == Some(k);
    }
  }

  /** Keeping position i appends its node and maps i onto it. */
  lemma KeepOne(block: seq<IRNode>, keep: set<nat>, i: nat, out: seq<IRNode>, mapping: seq<Option<nat>>)
    requires FilterInv(block, keep, i, out, mapping) && i < |block| && i in keep
    ensures FilterInv(block, keep, i + 1, out + [block[i]], mapping[i := Some(|out|)])
  {
    AllSourced(mapping, mapping[i := Some(|out|)], i, i + 1, out);
  }

  /** After keeping position i, every output position, the new last one included, has a source before i + 1. */
  lemma AllSourced(mapping: seq<Option<nat>>, m2: seq<Option<nat>>, i: nat, n: nat, out: seq<IRNode>)
    requires i < |mapping| && m2 == mapping[i := Some(|out|)] && n == i + 1
    requires forall k :: 0 <= k < |out| ==> Source(mapping, i, k)
    ensures forall k :: 0 <= k < |out| + 1 ==> Source(m2, n, k)
  {
    forall k | 0 <= k < |out| + 1
      ensures Source(m2, n, k)
    {
      MappedFrom(mapping, m2, i, out, k);
    }
  }

  /** Each output position comes from some earlier mapped index, old or new. */
  lemma MappedFrom(mapping: seq<Option<nat>>, m2: seq<Option<nat>>, i: nat, out: seq<IRNode>, k: nat)
    requires i < |mapping| && k <= |out| && m2 == mapping[i := Some(|out|)]
    requires k < |out| ==> Source(mapping, i, k)
    ensures Source(m2, i + 1, k)
  {
    if k < |out| {
      var j :| 0 <= j < i && j < |mapping| && mapping[j] == Some(k);
      assert m2[j] == Some(k);
    } else {
      assert m2[i] == Some(k);
    }
  }

  /**
   * The kept instructions of `prune_unreachable`, in order, with each old
   * index mapped exactly when it is kept, onto an equal node, and every
   * kept node accounted for.
   */
  lemma FilterSpec(block: seq<IRNode>, keep: set<nat>)
    ensures FilterInv(block, keep, |block|, Filter(block, keep, 0, [], seq(|block|, _ => None)).0,
                      Filter(block, keep, 0, [], seq(|block|, _ => None)).1)
  {
    FilterKeeps(block, keep, 0, [], seq(|block|, _ => None));
  }

  /**
   * `out` holds the instructions of `block` that `m` maps, non-jumps
   * unchanged, and each jump into the block retargeted to the new position
   * of the instruction it targeted.
   */
  predicate Relocated(block: seq<IRNode>, m: seq<Option<nat>>, out: seq<IRNode>)
    requires |m| == |block|
  {
    && (forall j :: 0 <= j < |block| && m[j].Some? && !IsJump(block[j].instr) ==>
          m[j].value < |out| && out[m[j].value] == block[j])
    && (forall j :: 0 <= j < |block| && m[j].Some? && IsJump(block[j].instr) && block[j].instr.target < |block| ==>
          var t := block[j].instr.target;
          m[j].value < |out| && m[t].Some? && out[m[j].value].span == block[j].span
          && out[m[j].value].instr == (if block[j].instr.Jump? then Jump(m[t].value) else JumpIfFalse(m[t].value)))
  }

  lemma RetargetKept(block: seq<IRNode>, reach: set<nat>, kept: seq<IRNode>, m: seq<Option<nat>>)
    requires FilterInv(block, reach, |block|, kept, m)
    requires ClosedUpTo(block, reach, {})
    ensures Relocated(block, m, Retarget(kept, m))
  {
    var out := Retarget(kept, m);
    forall j | 0 <= j < |block| && m[j].Some? && IsJump(block[j].instr) && block[j].instr.target < |block|
      ensures m[block[j].instr.target].Some?
      ensures RemapTarget(block[j].instr.target, m) == m[block[j].instr.target]
    {
      var t := block[j].instr.target;
      assert t in Next(block, j);
      assert t in reach + {};
      RemapSpec(t, m);
    }
  }

  /**
   * `prune_unreachable` keeps exactly the reachable instructions, in order,
   * and each kept jump whose target lies in the block still targets the same
   * instruction at its new position.
   */
  lemma PruneSpec(block: seq<IRNode>)
    ensures |Prune(block)| <= |block|
    ensures |block| > 0 ==>
      var reach := Dfs(block, 0, {});
      var m := Filter(block, reach, 0, [], seq(|block|, _ => None)).1;
      && (forall j :: 0 <= j < |block| ==> (m[j].Some? <==> j in reach))
      && Relocated(block, m, Prune(block))
  {
    if |block| > 0 {
      var reach := Dfs(block, 0, {});
      var r := Filter(block, reach, 0, [], seq(|block|, _ => None));
      FilterSpec(block, reach);
      Reachable(block);
      RetargetKept(block, reach, r.0, r.1);
    }
  }

  // ---------------------------------------------------------------------------
  // The first pass

  /** What output node `k` may be, given the input node it came from. */
  predicate Rewritten(block: seq<IRNode>, corrected: bool, src: nat, node: IRNode)
    requires src < |block|
  {
    var orig := block[src].instr;
    node.span == block[src].span
    && (node == block[src]
        || (orig.ConstNum? && (node.instr.ConstNum? || node.instr.ConstBool?))
        || (orig == ConstBool(false) && node.instr.Jump?)
        || (orig.LoadVar? && IsConst(node.instr) && (corrected ==> src !in JumpTargets(block))))
  }

  /**
   * The state of the first pass after the input positions before `i`: the
   * output nodes come from strictly increasing input positions, each is a
   * permitted rewrite of its input node, every known constant is a
   * constant instruction, and (corrected) a conditional jump has vanished
   * only together with the constant `true` feeding it.
   */
  predicate PassInv(block: seq<IRNode>, corrected: bool, i: nat, st: Pass)
  {
    i <= |block| && |st.mapping| == |block| && |st.out| == |st.orig|
    && (forall k :: 0 <= k < |st.orig| ==> st.orig[k] < i)
    && (forall k1, k2 :: 0 <= k1 < k2 < |st.orig| ==> st.orig[k1] < st.orig[k2])
    && (forall k :: 0 <= k < |st.out| ==> st.orig[k] < |block| && Rewritten(block, corrected, st.orig[k], st.out[k]))
    && (forall name :: name in st.consts ==> IsConst(st.consts[name]))
    && (st.prev.Some? ==> IsConst(st.prev.value))
    && (corrected ==> forall j :: 0 <= j < i && block[j].instr.JumpIfFalse? ==> CondCovered(block, st.mapping, j))
  }

  /** The conditional jump at j is still mapped, or it follows a constant `true` and was dropped with it. */
  predicate CondCovered(block: seq<IRNode>, m: seq<Option<nat>>, j: nat)
    requires j < |block| && j < |m|
  {
    m[j].Some? || (j > 0 && block[j - 1].instr == ConstBool(true))
  }

  lemma Extend(block: seq<IRNode>, corrected: bool, i: nat, st: Pass, node: IRNode, next: nat,
                mapping: seq<Option<nat>>, consts: map<string, IRInstr>, prev: Option<IRInstr>)
    requires PassInv(block, corrected, i, st) && i < next <= |block| && |mapping| == |block|
    requires Rewritten(block, corrected, i, node)
    requires (forall name :: name in consts ==> IsConst(consts[name])) && (prev.Some? ==> IsConst(prev.value))
    requires forall j :: 0 <= j < next ==> mapping[j].Some? || (j < i && st.mapping[j].None?)
    ensures PassInv(block, corrected, next, Pass(st.out + [node], st.orig + [i], mapping, consts, prev))
  {
  }

  /** The pass state on arriving at position `i`: constants forgotten at a join when corrected. */
  function Arrive(block: seq<IRNode>, corrected: bool, i: nat, st: Pass): Pass
  {
    if corrected && i in JumpTargets(block) then st.(consts := map[], prev := None) else st
  }

  predicate Folds(block: seq<IRNode>, i: nat)
  {
    i + 2 < |block| && block[i].instr.ConstNum? && block[i + 1].instr.ConstNum?
    && (FoldNum(block[i].instr.n, block[i + 1].instr.n, block[i + 2].instr).Some?
        || FoldCmp(block[i].instr.n, block[i + 1].instr.n, block[i + 2].instr).Some?)
  }

  predicate ConstBranch(block: seq<IRNode>, i: nat)
  {
    i + 1 < |block| && block[i].instr.ConstBool? && block[i + 1].instr.JumpIfFalse?
  }

  predicate DroppedJump(block: seq<IRNode>, corrected: bool, i: nat)
    requires i < |block|
  {
    var ins := block[i].instr;
    (ins.Jump? || (ins.JumpIfFalse? && !corrected)) && ins.target == i + 1
  }

  lemma StepFold(block: seq<IRNode>, corrected: bool, i: nat, st: Pass)
    requires PassInv(block, corrected, i, st) && i < |block| && Folds(block, i)
    ensures PassInv(block, corrected, PassStep(block, i, st, corrected).0, PassStep(block, i, st, corrected).1)
  {
    var st0 := Arrive(block, corrected, i, st);
    var r := PassStep(block, i, st, corrected);
    var node := r.1.out[|st0.out|];
    assert r.0 == i + 3 && r.1.out == st0.out + [node] && r.1.orig == st0.orig + [i];
    assert r.1.consts == st0.consts && r.1.prev == st0.prev;
    assert r.1.mapping == MapTo(st0.mapping, {i, i + 1, i + 2}, |st0.out|);
    assert node.span == block[i].span && (node.instr.ConstNum? || node.instr.ConstBool?);
    Extend(block, corrected, i, st0, node, i + 3, r.1.mapping, r.1.consts, r.1.prev);
  }

  lemma StepBranch(block: seq<IRNode>, corrected: bool, i: nat, st: Pass)
    requires PassInv(block, corrected, i, st) && i < |block| && !Folds(block, i) && ConstBranch(block, i)
    ensures PassInv(block, corrected, PassStep(block, i, st, corrected).0, PassStep(block, i, st, corrected).1)
  {
    var st0 := Arrive(block, corrected, i, st);
    var r := PassStep(block, i, st, corrected);
    assert r.1.consts == st0.consts && r.1.prev == st0.prev;
    if block[i].instr.b {
      assert r == (i + 2, st0.(mapping := st0.mapping[i := None][i + 1 := None]));
      assert PassInv(block, corrected, i, st0);
      DropTrueBranch(block, corrected, i, st0);
    } else {
      var node := IRNode(Jump(block[i + 1].instr.target), block[i].span);
      assert r.0 == i + 2 && r.1.out == st0.out + [node] && r.1.orig == st0.orig + [i];
      assert r.1.mapping == MapTo(st0.mapping, {i, i + 1}, |st0.out|);
      assert Rewritten(block, corrected, i, node);
      Extend(block, corrected, i, st0, node, i + 2, r.1.mapping, r.1.consts, r.1.prev);
    }
  }

  /** Dropping a constant `true` and the conditional jump it feeds keeps the invariant. */
  lemma DropTrueBranch(block: seq<IRNode>, corrected: bool, i: nat, st: Pass)
    requires PassInv(block, corrected, i, st) && i + 1 < |block| && block[i].instr == ConstBool(true)
    ensures PassInv(block, corrected, i + 2, st.(mapping := st.mapping[i := None][i + 1 := None]))
  {
    var m := st.mapping[i := None][i + 1 := None];
    if corrected {
      forall j | 0 <= j < i + 2 && block[j].instr.JumpIfFalse?
        ensures m[j].Some? || (j > 0 && block[j - 1].instr == ConstBool(true))
      {
        if j < i {
          assert m[j] == st.mapping[j];
        }
      }
    }
  }

  lemma StepDrop(block: seq<IRNode>, corrected: bool, i: nat, st: Pass)
    requires PassInv(block, corrected, i, st) && i < |block| && !Folds(block, i) && !ConstBranch(block, i)
    requires DroppedJump(block, corrected, i)
    ensures PassInv(block, corrected, PassStep(block, i, st, corrected).0, PassStep(block, i, st, corrected).1)
  {
    var st0 := Arrive(block, corrected, i, st);
    var m := st0.mapping[i := None];
    assert PassStep(block, i, st, corrected) == (i + 1, st0.(mapping := m, consts := map[]));
    if corrected {
      forall j | 0 <= j < i + 1 && block[j].instr.JumpIfFalse?
        ensures m[j].Some? || (j > 0 && block[j - 1].instr == ConstBool(true))
      {
        assert j < i && m[j] == st0.mapping[j] == st.mapping[j];
        CondJumpCovered(block, i, st, j);
      }
    }
  }

  /** The corrected clause of the invariant, at one position. */
  lemma CondJumpCovered(block: seq<IRNode>, i: nat, st: Pass, j: nat)
    requires PassInv(block, true, i, st) && j < i && block[j].instr.JumpIfFalse?
    ensures st.mapping[j].Some? || (j > 0 && block[j - 1].instr == ConstBool(true))
  {
  }

  lemma StepNormal(block: seq<IRNode>, corrected: bool, i: nat, st: Pass)
    requires PassInv(block, corrected, i, st) && i < |block| && !Folds(block, i) && !ConstBranch(block, i)
    requires !DroppedJump(block, corrected, i)
    ensures PassInv(block, corrected, PassStep(block, i, st, corrected).0, PassStep(block, i, st, corrected).1)
  {
    var st0 := Arrive(block, corrected, i, st);
    var ins := block[i].instr;
    var r := PassStep(block, i, st, corrected);
    var instr := if ins.LoadVar? && ins.name in st0.consts then st0.consts[ins.name] else ins;
    var node := block[i].(instr := instr);
    assert r.1.out == st0.out + [node] && r.1.orig == st0.orig + [i];
    assert Rewritten(block, corrected, i, node);
    Extend(block, corrected, i, st0, node, i + 1, r.1.mapping, r.1.consts, r.1.prev);
  }

  lemma StepKeeps(block: seq<IRNode>, corrected: bool, i: nat, st: Pass)
    requires PassInv(block, corrected, i, st) && i < |block|
    ensures PassInv(block, corrected, PassStep(block, i, st, corrected).0, PassStep(block, i, st, corrected).1)
  {
    if Folds(block, i) {
      StepFold(block, corrected, i, st);
    } else if ConstBranch(block, i) {
      StepBranch(block, corrected, i, st);
    } else if DroppedJump(block, corrected, i) {
      StepDrop(block, corrected, i, st);
    } else {
      StepNormal(block, corrected, i, st);
    }
  }

  lemma {:induction false} PassKeeps(block: seq<IRNode>, corrected: bool, i: nat, st: Pass)
    requires PassInv(block, corrected, i, st)
    ensures PassInv(block, corrected, |block|, RunPass(block, i, st, corrected))
    decreases |block| - i
  {
    if i < |block| {
      StepKeeps(block, corrected, i, st);
      var (next, st') := PassStep(block, i, st, corrected);
      PassKeeps(block, corrected, next, st');
    }
  }

  /**
   * The first pass keeps instructions in order and only ever folds a
   * constant run, turns a `false` branch into a jump, or replaces a LoadVar
   * by a known constant; in the corrected pass, never a LoadVar that a jump
   * can reach, so a value assigned on another path is never overwritten by
   * a constant from this one.
   */
  lemma PassShape(block: seq<IRNode>, corrected: bool)
    ensures PassInv(block, corrected, |block|, RunPass(block, 0, Pass([], [], seq(|block|, _ => None), map[], None), corrected))
  {
    PassKeeps(block, corrected, 0, Pass([], [], seq(|block|, _ => None), map[], None));
  }

  // ---------------------------------------------------------------------------
  // The bytecode peephole pass

  /** Position `j` holds a reload of the slot the previous instruction stored, and no jump lands on it. */
  predicate Reload(code: seq<B.Instr>, j: nat)
  {
    0 < j < |code| && code[j - 1].StoreLocal? && code[j].LoadLocal? && code[j - 1].slot == code[j].slot
    && j !in BcJumpTargets(code)
  }

  /** Reference definition: the instructions before position `n` that are not removed reloads, in order. */
  function Survivors(code: seq<B.Instr>, dropReload: bool, n: nat): (r: seq<B.Instr>)
    requires n <= |code|
    ensures |r| <= n
  {
    if n == 0 then []
    else Survivors(code, dropReload, n - 1) + (if dropReload && Reload(code, n - 1) then [] else [code[n - 1]])
  }

  predicate BcPassInv(code: seq<B.Instr>, dropReload: bool, i: nat, out: seq<B.Instr>, mapping: seq<Option<nat>>)
  {
    i <= |code| && |mapping| == |code|
    && (i < |code| ==> !(dropReload && Reload(code, i)))
    && out == Survivors(code, dropReload, i)
    && (forall j :: 0 <= j < i ==> (mapping[j].None? <==> dropReload && Reload(code, j)))
    && (forall j :: i <= j < |code| ==> mapping[j].None?)
    && (forall j :: 0 <= j < |code| && mapping[j].Some? ==> mapping[j].value < |out| && out[mapping[j].value] == code[j])
  }

  /** The pass condition for dropping the reload at `i + 1`. */
  predicate DropsAt(code: seq<B.Instr>, dropReload: bool, i: nat)
  {
    dropReload && i + 1 < |code| && code[i].StoreLocal? && code[i + 1].LoadLocal? && code[i].slot == code[i + 1].slot
    && i + 1 !in BcJumpTargets(code)
  }

  lemma BcStepDrop(code: seq<B.Instr>, dropReload: bool, i: nat, out: seq<B.Instr>, mapping: seq<Option<nat>>)
    requires BcPassInv(code, dropReload, i, out, mapping) && i < |code| && DropsAt(code, dropReload, i)
    ensures BcPassInv(code, dropReload, i + 2, out + [code[i]], mapping[i := Some(|out|)][i + 1 := None])
  {
    assert Reload(code, i + 1);
    assert Survivors(code, dropReload, i + 2) == Survivors(code, dropReload, i + 1) == out + [code[i]];
  }

  lemma BcStepKeep(code: seq<B.Instr>, dropReload: bool, i: nat, out: seq<B.Instr>, mapping: seq<Option<nat>>)
    requires BcPassInv(code, dropReload, i, out, mapping) && i < |code| && !DropsAt(code, dropReload, i)
    ensures BcPassInv(code, dropReload, i + 1, out + [code[i]], mapping[i := Some(|out|)])
  {
    assert Survivors(code, dropReload, i + 1) == out + [code[i]];
    assert i + 1 < |code| ==> !(dropReload && Reload(code, i + 1));
  }

  lemma {:induction false} BcPassKeeps(code: seq<B.Instr>, spans: seq<Option<A.Span>>, dropReload: bool, i: nat,
                                      out: seq<B.Instr>, outSpans: seq<Option<A.Span>>, mapping: seq<Option<nat>>)
    requires BcPassInv(code, dropReload, i, out, mapping) && |out| == |outSpans|
    ensures var r := BcPass(code, spans, BcJumpTargets(code), dropReload, i, out, outSpans, mapping);
            BcPassInv(code, dropReload, |code|, r.0, r.2)
    decreases |code| - i
  {
    if i < |code| {
      var sp := if i < |spans| then spans[i] else None;
      if DropsAt(code, dropReload, i) {
        BcStepDrop(code, dropReload, i, out, mapping);
        BcPassKeeps(code, spans, dropReload, i + 2, out + [code[i]], outSpans + [sp], mapping[i := Some(|out|)][i + 1 := None]);
      } else {
        BcStepKeep(code, dropReload, i, out, mapping);
        BcPassKeeps(code, spans, dropReload, i + 1, out + [code[i]], outSpans + [sp], mapping[i := Some(|out|)]);
      }
    }
  }

  /**
   * The first pass of `optimize_bytecode_block` removes exactly the
   * reloads that directly follow a store of the same slot and are no jump
   * target (and, corrected, nothing); every other instruction is kept, in
   * order.
   */
  lemma BcPassSpec(code: seq<B.Instr>, spans: seq<Option<A.Span>>, dropReload: bool)
    ensures var r := BcPass(code, spans, BcJumpTargets(code), dropReload, 0, [], [], seq(|code|, _ => None));
            BcPassInv(code, dropReload, |code|, r.0, r.2)
  {
    BcPassKeeps(code, spans, dropReload, 0, [], [], seq(|code|, _ => None));
  }

  /**
   * Without the reload removal, or on code holding no reload after a
   * store, the first pass copies the code and maps every position to itself.
   */
  lemma {:induction false} BcPassCopies(code: seq<B.Instr>, spans: seq<Option<A.Span>>, dropReload: bool, i: nat,
                                       out: seq<B.Instr>, outSpans: seq<Option<A.Span>>, mapping: seq<Option<nat>>)
    requires i <= |code| && |mapping| == |code| && |out| == |outSpans| && out == code[..i]
    requires forall j :: 0 <= j < i ==> mapping[j] == Some(j)
    requires dropReload ==> forall j :: 0 < j < |code| ==> !Reload(code, j)
    ensures var r := BcPass(code, spans, BcJumpTargets(code), dropReload, i, out, outSpans, mapping);
            r.0 == code && forall j :: 0 <= j < |code| ==> r.2[j] == Some(j)
    decreases |code| - i
  {
    if i < |code| {
      var sp := if i < |spans| then spans[i] else None;
      assert out + [code[i]] == code[..i + 1];
      assert !DropsAt(code, dropReload, i) by {
        if dropReload && i + 1 < |code| { assert !Reload(code, i + 1); }
      }
      BcPassCopies(code, spans, dropReload, i + 1, out + [code[i]], outSpans + [sp], mapping[i := Some(|out|)]);
    } else {
      assert code[..i] == code;
    }
  }

  /**
   * The corrected bytecode pass leaves code whose jumps stay inside it
   * exactly as it was.
   */
  lemma BytecodeBlockUnchanged(code: seq<B.Instr>, spans: seq<Option<A.Span>>)
    requires forall k :: 0 <= k < |code| && BcJump(code[k]) ==> code[k].target < |code|
    ensures OptimizeBytecodeBlock(code, spans).0 == code
  {
    BcOptimizeFixed(code, spans, false);
  }

  /** Either bytecode pass leaves code holding no reload after a store, whose jumps stay inside it, as it was. */
  lemma BcOptimizeFixed(code: seq<B.Instr>, spans: seq<Option<A.Span>>, dropReload: bool)
    requires forall k :: 0 <= k < |code| && BcJump(code[k]) ==> code[k].target < |code|
    requires dropReload ==> forall j :: 0 < j < |code| ==> !Reload(code, j)
    ensures BcOptimizeWith(code, spans, dropReload).0 == code
  {
    var r := BcPass(code, spans, BcJumpTargets(code), dropReload, 0, [], [], seq(|code|, _ => None));
    BcPassCopies(code, spans, dropReload, 0, [], [], seq(|code|, _ => None));
    var out := BcRetarget(r.0, r.2);
    forall k | 0 <= k < |code| ensures out[k] == code[k] {
      if BcJump(code[k]) {
        RemapSpec(code[k].target, r.2);
      }
    }
  }

  // ---------------------------------------------------------------------------
  // Local slots

  /** Every slot names the local it stands for. */
  predicate SlotsAgree(locals: seq<string>, slots: map<string, nat>)
  {
    forall n :: n in slots ==> slots[n] < |locals| && locals[slots[n]] == n
  }

  lemma {:induction false} ParamsAgree(params: seq<string>, i: nat, locals: seq<string>, slots: map<string, nat>)
    requires i <= |params| && locals == params[..i] && SlotsAgree(locals, slots)
    requires forall n :: n in slots <==> n in params[..i]
    requires (forall j1, j2 :: 0 <= j1 < j2 < |params| ==> params[j1] != params[j2]) ==>
               forall j :: 0 <= j < i ==> params[j] in slots && slots[params[j]] == j
    ensures var r := CollectParams(params, i, locals, slots);
            r.0 == params && SlotsAgree(r.0, r.1) && (forall n :: n in r.1 <==> n in params)
            && ((forall j1, j2 :: 0 <= j1 < j2 < |params| ==> params[j1] != params[j2]) ==>
                 forall j :: 0 <= j < |params| ==> params[j] in r.1 && r.1[params[j]] == j)
    decreases |params| - i
  {
    if i < |params| {
      assert params[..i + 1] == locals + [params[i]];
      ParamsAgree(params, i + 1, locals + [params[i]], slots[params[i] := |locals|]);
    } else {
      assert params[..i] == params;
    }
  }

  lemma {:induction false} CollectAgrees(block: seq<IRNode>, i: nat, locals: seq<string>, slots: map<string, nat>)
    requires i <= |block| && SlotsAgree(locals, slots)
    requires forall k :: 0 <= k < i && (block[k].instr.LoadVar? || block[k].instr.StoreVar?) ==> block[k].instr.name in slots
    ensures var r := CollectFrom(block, i, locals, slots);
            SlotsAgree(r.0, r.1) && SlotsCover(block, r.1)
            && |locals| <= |r.0| && r.0[..|locals|] == locals
            && (forall n :: n in slots ==> n in r.1 && r.1[n] == slots[n])
    decreases |block| - i
  {
    if i < |block| {
      var ins := block[i].instr;
      if (ins.LoadVar? || ins.StoreVar?) && ins.name !in slots {
        var locals' := locals + [ins.name];
        var slots' := slots[ins.name := |locals|];
        assert SlotsAgree(locals', slots');
        CollectAgrees(block, i + 1, locals', slots');
        var r := CollectFrom(block, i + 1, locals', slots');
        assert r.0[..|locals|] == r.0[..|locals'|][..|locals|];
      } else {
        CollectAgrees(block, i + 1, locals, slots);
      }
    } else {
      assert locals[..|locals|] == locals;
    }
  }

  /**
   * `collect_locals` gives every variable of the block a slot, each slot
   * names its variable in the locals list, the parameters come first and,
   * when they are distinct, parameter `j` has slot `j`. So lowering never
   * meets a variable without a slot.
   */
  lemma CollectLocalsSpec(block: seq<IRNode>, params: seq<string>)
    ensures var (locals, slots) := CollectLocals(block, params);
            SlotsAgree(locals, slots) && SlotsCover(block, slots)
            && |params| <= |locals| && locals[..|params|] == params
            && ((forall j1, j2 :: 0 <= j1 < j2 < |params| ==> params[j1] != params[j2]) ==>
                 forall j :: 0 <= j < |params| ==> params[j] in slots && slots[params[j]] == j)
  {
    assert params[..0] == [];
    ParamsAgree(params, 0, [], map[]);
    var (pl, ps) := CollectParams(params, 0, [], map[]);
    CollectAgrees(block, 0, pl, ps);
  }

  /**
   * The corrected `lower_block`, on a block whose jumps stay inside it: one bytecode
   * instruction per IR node, variables turned into the slot of the local
   * with that name, everything else carried over unchanged.
   */
  lemma LowerBlockSpec(block: seq<IRNode>, params: seq<string>)
    requires forall k :: 0 <= k < |block| && IsJump(block[k].instr) ==> block[k].instr.target < |block|
    ensures var (code, locals, spans) := LowerBlockCorrected(block, params);
            |code| == |block|
            && forall k :: 0 <= k < |block| ==>
                 match block[k].instr
                 case LoadVar(n) => code[k].LoadLocal? && code[k].slot < |locals| && locals[code[k].slot] == n
                 case StoreVar(n) => code[k].StoreLocal? && code[k].slot < |locals| && locals[code[k].slot] == n
                 case _ => code[k] == ToBc(block[k].instr)
  {
    CorrectedLowering(block, params);
    CollectLocalsSpec(block, params);
  }

  /** The corrected `lower_block` is the slot-lowered block itself. */
  lemma CorrectedLowering(block: seq<IRNode>, params: seq<string>)
    requires forall k :: 0 <= k < |block| && IsJump(block[k].instr) ==> block[k].instr.target < |block|
    ensures SlotsCover(block, CollectLocals(block, params).1)
    ensures LowerBlockCorrected(block, params).0 == LowerAll(block, CollectLocals(block, params).1)
    ensures LowerBlockCorrected(block, params).1 == CollectLocals(block, params).0
  {
    CollectLocalsSpec(block, params);
    var (locals, slots) := CollectLocals(block, params);
    var lowered := LowerAll(block, slots);
    forall k | 0 <= k < |lowered| && BcJump(lowered[k]) ensures lowered[k].target < |lowered| {
      assert IsJump(block[k].instr);
    }
    BytecodeBlockUnchanged(lowered, Spans(block));
  }

  /**
   * `lower_block` as written is the corrected lowering with every reload
   * that directly follows a store of the same slot (and is no jump target)
   * removed: same length as the survivors, every non-jump survivor in its
   * place, the same locals.
   */
  lemma LowerBlockDropsReloads(block: seq<IRNode>, params: seq<string>)
    requires forall k :: 0 <= k < |block| && IsJump(block[k].instr) ==> block[k].instr.target < |block|
    ensures var full := LowerBlockCorrected(block, params).0;
            var kept := Survivors(full, true, |full|);
            var (code, locals, spans) := LowerBlock(block, params);
            |code| == |kept| && locals == LowerBlockCorrected(block, params).1
            && forall k :: 0 <= k < |code| && !BcJump(kept[k]) ==> code[k] == kept[k]
  {
    CorrectedLowering(block, params);
    var (locals, slots) := CollectLocals(block, params);
    var lowered := LowerAll(block, slots);
    BcPassSpec(lowered, Spans(block), true);
  }

  // ---------------------------------------------------------------------------
  // The whole pipeline

  /** A strictly increasing run of naturals below `n` has at most `n` entries. */
  lemma {:induction false} IncreasingBounded(s: seq<nat>, n: nat)
    requires forall k :: 0 <= k < |s| ==> s[k] < n
    requires forall k1, k2 :: 0 <= k1 < k2 < |s| ==> s[k1] < s[k2]
    ensures |s| <= n
    decreases |s|
  {
    if |s| > 0 {
      var last := s[|s| - 1];
      IncreasingBounded(s[..|s| - 1], last);
    }
  }

  /** `optimize_block` never makes a block longer. */
  lemma OptimizeShrinks(block: seq<IRNode>, corrected: bool)
    ensures |OptimizeWith(block, corrected)| <= |block|
  {
    var st := RunPass(block, 0, Pass([], [], seq(|block|, _ => None), map[], None), corrected);
    PassShape(block, corrected);
    IncreasingBounded(st.orig, |block|);
    PruneSpec(Retarget(st.out, st.mapping));
  }

  /** `optimize_ir` keeps every function, with its parameters, and shortens no body. */
  lemma OptimizeIrShape(p: IRProgram, corrected: bool)
    ensures var r := OptimizeIrWith(p, corrected);
            && |r.main| <= |p.main|
            && r.functions.Keys == p.functions.Keys
            && forall name :: name in p.functions ==>
                 r.functions[name].params == p.functions[name].params
                 && |r.functions[name].code| <= |p.functions[name].code|
  {
    var r := OptimizeIrWith(p, corrected);
    OptimizeShrinks(p.main, corrected);
    forall name | name in p.functions
      ensures |r.functions[name].code| <= |p.functions[name].code|
    {
      OptimizeShrinks(p.functions[name].code, corrected);
    }
  }

  /**
   * `lower_ir_to_bytecode` keeps every function and its parameters, and
   * gives every function locals that begin with its parameters.
   */
  lemma LowerIrShape(p: IRProgram, dropReload: bool)
    ensures var r := LowerIrWith(p, dropReload);
            && r.functions.Keys == p.functions.Keys
            && forall name :: name in p.functions ==>
                 var f := r.functions[name];
                 f.params == p.functions[name].params
                 && |f.params| <= |f.locals| && f.locals[..|f.params|] == f.params
  {
    var r := LowerIrWith(p, dropReload);
    forall name | name in p.functions
      ensures |r.functions[name].params| <= |r.functions[name].locals|
      ensures r.functions[name].locals[..|r.functions[name].params|] == r.functions[name].params
    {
      var g := p.functions[name];
      CollectLocalsSpec(g.code, g.params);
    }
  }

  /**
   * `compile_script` end to end: every function the script declares comes
   * out of the pipeline with its parameters, in slots at the head of its
   * locals, and nothing else comes out.
   */
  lemma CompileScriptKeepsFunctions(stmts: seq<A.Stmt>)
    ensures var ir := CompileIr(stmts);
            var r := CompileScript(stmts);
            && r.functions.Keys == ir.functions.Keys
            && forall name :: name in ir.functions ==>
                 && name in r.functions
                 && r.functions[name].params == ir.functions[name].params
                 && |r.functions[name].params| <= |r.functions[name].locals|
                 && r.functions[name].locals[..|r.functions[name].params|] == r.functions[name].params
  {
    var ir := CompileIr(stmts);
    OptimizeIrShape(ir, false);
    LowerIrShape(OptimizeIr(ir), true);
  }

  /** The same for the pipeline with the corrected passes. */
  lemma CompileScriptCorrectedKeepsFunctions(stmts: seq<A.Stmt>)
    ensures var ir := CompileIr(stmts);
            var r := CompileScriptCorrected(stmts);
            && r.functions.Keys == ir.functions.Keys
            && forall name :: name in ir.functions ==>
                 && name in r.functions
                 && r.functions[name].params == ir.functions[name].params
                 && |r.functions[name].params| <= |r.functions[name].locals|
                 && r.functions[name].locals[..|r.functions[name].params|] == r.functions[name].params
  {
    var ir := CompileIr(stmts);
    OptimizeIrShape(ir, true);
    LowerIrShape(OptimizeIrCorrected(ir), false);
  }
}
