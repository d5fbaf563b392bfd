/**
 * `loop n { say x }` through the whole of `compile_script`: as written,
 * the optimiser folds the loop test into the count and the program never
 * ends; with both optimisers corrected it says `x` exactly `n` times.
 */
module FindingsLoop {
  import opened Wrappers
  import A = Ast
  import opened IR
  import B = Bytecode
  import opened Compiler
  import opened OptimizerProps
  import opened Findings
  import FV = FindingsVm
  import Vm
  import VmValue

  /** The loop block after the first pass: the head reload folded into the count as written, kept when corrected. */
  function Passed(n: real, x: string, corrected: bool): seq<IRNode>
  {
    [N(ConstNum(n)), N(StoreVar(LoopRem)), N(if corrected then LoadVar(LoopRem) else ConstNum(n)), N(JumpIfFalse(11)),
     N(ConstText(x)), N(EmitSay),
     N(LoadVar(LoopRem)), N(ConstNum(1.0)), N(Sub), N(StoreVar(LoopRem)), N(Jump(2)),
     N(Return)]
  }

  /** The identity index map over the twelve positions, defined below `i`. */
  function Ident(i: nat): seq<Option<nat>>
  {
    seq(12, k => if k < i then Some(k) else None)
  }

  /** The first pass over the loop block after `i` rounds: a copy so far, and the counter's known constant. */
  predicate Tracked(n: real, x: string, c: bool, i: nat, st: Pass)
  {
    i <= 12 && st.out == Passed(n, x, c)[..i] && st.mapping == Ident(i)
    && (i == 1 ==> st.prev == Some(ConstNum(n)))
    && (i == 2 ==> LoopRem in st.consts && st.consts[LoopRem] == ConstNum(n))
    && (4 <= i <= 6 ==> LoopRem !in st.consts)
  }

  lemma IdentNext(i: nat)
    requires i < 12
    ensures Ident(i)[i := Some(i)] == Ident(i + 1)
  {
  }

  /** The loop block's jumps land on its head and on its return. */
  lemma LoopTargets(n: real, x: string)
    ensures JumpTargets(LoopBlock(n, x)) == {2, 11}
  {
    var b := LoopBlock(n, x);
    forall k | 0 <= k < 12 && IsJump(b[k].instr) ensures k == 3 || k == 10 {
      if k < 6 {
        assert b[k].instr in {ConstNum(n), StoreVar(LoopRem), LoadVar(LoopRem), JumpIfFalse(11), ConstText(x), EmitSay};
      } else {
        assert b[k].instr in {LoadVar(LoopRem), ConstNum(1.0), Sub, StoreVar(LoopRem), Jump(2), Return};
      }
    }
    assert IsJump(b[3].instr) && IsJump(b[10].instr);
  }

  /** What one round of the first pass does to the loop block: copy node `i` (folded as written at 2). */
  predicate Copied(n: real, x: string, c: bool, i: nat, st: Pass, r: (nat, Pass))
    requires i < 12
  {
    |st.mapping| == 12 && r.0 == i + 1 && r.1.out == st.out + [Passed(n, x, c)[i]] && r.1.mapping == st.mapping[i := Some(i)]
  }

  /** Every round of the first pass copies its node (folding the head as written) and keeps `Tracked`. */
  lemma StepTracked(n: real, x: string, c: bool, i: nat, st: Pass)
    requires i < 12 && Tracked(n, x, c, i, st)
    ensures PassStep(LoopBlock(n, x), i, st, c).0 == i + 1
    ensures Tracked(n, x, c, i + 1, PassStep(LoopBlock(n, x), i, st, c).1)
  {
    var r := PassStep(LoopBlock(n, x), i, st, c);
    if i < 4 {
      StepHead(n, x, c, i, st);
    } else {
      StepBody(n, x, c, i, st);
    }
    IdentNext(i);
    assert Passed(n, x, c)[..i] + [Passed(n, x, c)[i]] == Passed(n, x, c)[..i + 1];
  }

  lemma StepHead(n: real, x: string, c: bool, i: nat, st: Pass)
    requires i < 4 && Tracked(n, x, c, i, st)
    ensures var r := PassStep(LoopBlock(n, x), i, st, c);
            Copied(n, x, c, i, st, r)
            && (i == 0 ==> r.1.prev == Some(ConstNum(n)))
            && (i == 1 ==> LoopRem in r.1.consts && r.1.consts[LoopRem] == ConstNum(n))
            && (i == 3 ==> r.1.consts == map[])
  {
    var b := LoopBlock(n, x);
    LoopTargets(n, x);
    if i == 0 {
      assert b[0].instr == ConstNum(n) && b[1].instr == StoreVar(LoopRem);
    } else if i == 1 {
      assert b[1].instr == StoreVar(LoopRem) && b[2].instr == LoadVar(LoopRem);
    } else if i == 2 {
      assert b[2].instr == LoadVar(LoopRem) && b[3].instr == JumpIfFalse(11);
    } else {
      assert b[3].instr == JumpIfFalse(11);
    }
  }

  lemma StepBody(n: real, x: string, c: bool, i: nat, st: Pass)
    requires 4 <= i < 12 && Tracked(n, x, c, i, st)
    ensures var r := PassStep(LoopBlock(n, x), i, st, c);
            Copied(n, x, c, i, st, r) && (i < 6 ==> LoopRem !in r.1.consts)
  {
    LoopTargets(n, x);
    if i < 8 {
      StepSay(n, x, c, i, st);
    } else {
      StepCount(n, x, c, i, st);
    }
  }

  lemma StepSay(n: real, x: string, c: bool, i: nat, st: Pass)
    requires 4 <= i < 8 && Tracked(n, x, c, i, st) && JumpTargets(LoopBlock(n, x)) == {2, 11}
    ensures var r := PassStep(LoopBlock(n, x), i, st, c);
            Copied(n, x, c, i, st, r) && (i < 6 ==> LoopRem !in r.1.consts)
  {
    var b := LoopBlock(n, x);
    assert b[4].instr == ConstText(x) && b[5].instr == EmitSay && b[6].instr == LoadVar(LoopRem) && b[7].instr == ConstNum(1.0);
    assert b[8].instr == Sub;
  }

  lemma StepCount(n: real, x: string, c: bool, i: nat, st: Pass)
    requires 8 <= i < 12 && Tracked(n, x, c, i, st) && JumpTargets(LoopBlock(n, x)) == {2, 11}
    ensures Copied(n, x, c, i, st, PassStep(LoopBlock(n, x), i, st, c))
  {
    var b := LoopBlock(n, x);
    assert b[8].instr == Sub && b[9].instr == StoreVar(LoopRem) && b[10].instr == Jump(2) && b[11].instr == Return;
  }

  lemma {:induction false} PassTracked(n: real, x: string, c: bool, i: nat, st: Pass)
    requires Tracked(n, x, c, i, st)
    ensures var r := RunPass(LoopBlock(n, x), i, st, c);
            r.out == Passed(n, x, c) && r.mapping == Ident(12)
    decreases 12 - i
  {
    if i < 12 {
      StepTracked(n, x, c, i, st);
      var (next, st') := PassStep(LoopBlock(n, x), i, st, c);
      PassTracked(n, x, c, next, st');
    } else {
      assert Passed(n, x, c)[..12] == Passed(n, x, c);
    }
  }

  /** The jumps of the passed block: the loop test to the return, the back jump to the head. */
  lemma PassedJumps(n: real, x: string, c: bool)
    ensures forall k :: 0 <= k < 12 && IsJump(Passed(n, x, c)[k].instr) ==>
              (k == 3 && Passed(n, x, c)[k].instr == JumpIfFalse(11)) || (k == 10 && Passed(n, x, c)[k].instr == Jump(2))
  {
    var b := Passed(n, x, c);
    forall k | 0 <= k < 12 && IsJump(b[k].instr)
      ensures (k == 3 && b[k].instr == JumpIfFalse(11)) || (k == 10 && b[k].instr == Jump(2))
    {
      if k < 6 {
        assert b[k].instr in {ConstNum(n), StoreVar(LoopRem), b[2].instr, JumpIfFalse(11), ConstText(x), EmitSay};
      } else {
        assert b[k].instr in {LoadVar(LoopRem), ConstNum(1.0), Sub, StoreVar(LoopRem), Jump(2), Return};
      }
    }
  }

  /** Retargeting by an index map that fixes every jump target changes nothing. */
  lemma RetargetFixed(out: seq<IRNode>, m: seq<Option<nat>>)
    requires forall k :: 0 <= k < |out| && IsJump(out[k].instr) ==>
               out[k].instr.target < |m| && m[out[k].instr.target] == Some(out[k].instr.target)
    ensures Retarget(out, m) == out
  {
    forall k | 0 <= k < |out| ensures Retarget(out, m)[k] == out[k] {
      if IsJump(out[k].instr) {
        assert RemapTarget(out[k].instr.target, m) == Some(out[k].instr.target);
      }
    }
  }

  /** Filtering with every position kept copies the block and maps every position to itself. */
  lemma {:induction false} FilterAll(block: seq<IRNode>, keep: set<nat>, i: nat, out: seq<IRNode>, mapping: seq<Option<nat>>)
    requires i <= |block| && |mapping| == |block| && out == block[..i]
    requires forall k :: 0 <= k < i ==> mapping[k] == Some(k)
    requires forall k :: 0 <= k < |block| ==> k in keep
    ensures var r := Filter(block, keep, i, out, mapping);
            r.0 == block && forall k :: 0 <= k < |block| ==> r.1[k] == Some(k)
    decreases |block| - i
  {
    if i < |block| {
      assert out + [block[i]] == block[..i + 1];
      FilterAll(block, keep, i + 1, out + [block[i]], mapping[i := Some(|out|)]);
    } else {
      assert block[..i] == block;
    }
  }

  /** Every position of the passed block is reachable from its entry. */
  lemma ReachAll(n: real, x: string, c: bool, reach: set<nat>)
    requires 0 in reach && ClosedUpTo(Passed(n, x, c), reach, {})
    ensures forall k :: 0 <= k < 12 ==> k in reach
  {
    var b := Passed(n, x, c);
    var k := 0;
    while k < 10
      invariant k <= 10 && forall j :: 0 <= j <= k ==> j in reach
    {
      assert k + 1 in Succ(b[k].instr, k) by {
        if k < 6 {
          assert b[k].instr in {ConstNum(n), StoreVar(LoopRem), b[2].instr, JumpIfFalse(11), ConstText(x), EmitSay};
        } else {
          assert b[k].instr in {LoadVar(LoopRem), ConstNum(1.0), Sub, StoreVar(LoopRem)};
        }
      }
      assert k + 1 in Next(b, k);
      assert k + 1 in reach + {};
      k := k + 1;
    }
    assert 11 in Next(b, 3);
    assert 11 in reach + {};
  }

  /** Pruning the passed block keeps all of it. */
  lemma PruneKeepsLoop(n: real, x: string, c: bool)
    ensures Prune(Passed(n, x, c)) == Passed(n, x, c)
  {
    var b := Passed(n, x, c);
    var reach := Dfs(b, 0, {});
    Reachable(b);
    ReachAll(n, x, c, reach);
    assert b[..0] == [];
    FilterAll(b, reach, 0, [], seq(12, _ => None));
    var r := Filter(b, reach, 0, [], seq(12, _ => None));
    PassedJumps(n, x, c);
    RetargetFixed(r.0, r.1);
  }

  /**
   * `optimize_block` on the loop: as written only the loop test's reload
   * becomes the count; corrected, the block is unchanged.
   */
  lemma LoopOptimized(n: real, x: string, c: bool)
    ensures OptimizeWith(LoopBlock(n, x), c) == Passed(n, x, c)
  {
    var b := LoopBlock(n, x);
    var st0 := Pass([], [], seq(|b|, _ => None), map[], None);
    assert st0.mapping == Ident(0);
    PassTracked(n, x, c, 0, st0);
    PassedJumps(n, x, c);
    RetargetFixed(Passed(n, x, c), Ident(12));
    PruneKeepsLoop(n, x, c);
  }

  /** The bytecode of the loop's head: the count as written, the counter's reload when corrected. */
  function Head(n: real, c: bool): B.Instr
  {
    if c then B.LoadLocal(0) else B.ConstNum(n)
  }

  /** The counter is the only variable of the passed block. */
  lemma OnlyCounter(n: real, x: string, c: bool)
    ensures forall k :: 0 <= k < 12 && (Passed(n, x, c)[k].instr.LoadVar? || Passed(n, x, c)[k].instr.StoreVar?) ==>
              Passed(n, x, c)[k].instr.name == LoopRem
  {
    var b := Passed(n, x, c);
    forall k | 0 <= k < 12 && (b[k].instr.LoadVar? || b[k].instr.StoreVar?) ensures b[k].instr.name == LoopRem {
      if k < 6 {
        assert b[k].instr in {ConstNum(n), StoreVar(LoopRem), b[2].instr, JumpIfFalse(11), ConstText(x), EmitSay};
      } else {
        assert b[k].instr in {LoadVar(LoopRem), ConstNum(1.0), Sub, StoreVar(LoopRem), Jump(2), Return};
      }
    }
  }

  /** Once every variable from `i` on has a slot, `collect_locals` adds nothing. */
  lemma {:induction false} CollectKnown(block: seq<IRNode>, i: nat, locals: seq<string>, slots: map<string, nat>)
    requires i <= |block|
    requires forall k :: i <= k < |block| && (block[k].instr.LoadVar? || block[k].instr.StoreVar?) ==> block[k].instr.name in slots
    ensures CollectFrom(block, i, locals, slots) == (locals, slots)
    decreases |block| - i
  {
    if i < |block| {
      CollectKnown(block, i + 1, locals, slots);
    }
  }

  /** The loop's locals: the counter alone, in slot 0. */
  lemma LoopLocals(n: real, x: string, c: bool)
    ensures CollectLocals(Passed(n, x, c), []) == ([LoopRem], map[LoopRem := 0])
  {
    var b := Passed(n, x, c);
    OnlyCounter(n, x, c);
    assert CollectParams([], 0, [], map[]) == ([], map[]);
    assert b[0].instr == ConstNum(n) && b[1].instr == StoreVar(LoopRem);
    assert CollectFrom(b, 0, [], map[]) == CollectFrom(b, 1, [], map[]);
    assert [] + [LoopRem] == [LoopRem] && map[][LoopRem := 0] == map[LoopRem := 0];
    assert CollectFrom(b, 1, [], map[]) == CollectFrom(b, 2, [LoopRem], map[LoopRem := 0]);
    CollectKnown(b, 2, [LoopRem], map[LoopRem := 0]);
  }

  /** Slot-lowering the passed block gives the loop's bytecode. */
  lemma LoopLowersTo(n: real, x: string, c: bool)
    ensures SlotsCover(Passed(n, x, c), map[LoopRem := 0])
    ensures LowerAll(Passed(n, x, c), map[LoopRem := 0]) == FV.LoopCode(n, x, Head(n, c))
  {
    OnlyCounter(n, x, c);
    Lowers0(n, x, c);
    Lowers3(n, x, c);
    Lowers6(n, x, c);
    Lowers9(n, x, c);
  }

  lemma Lowers0(n: real, x: string, c: bool)
    requires SlotsCover(Passed(n, x, c), map[LoopRem := 0])
    ensures forall k :: 0 <= k < 3 ==>
              LowerAll(Passed(n, x, c), map[LoopRem := 0])[k] == FV.LoopCode(n, x, Head(n, c))[k]
  {
  }

  lemma Lowers3(n: real, x: string, c: bool)
    requires SlotsCover(Passed(n, x, c), map[LoopRem := 0])
    ensures forall k :: 3 <= k < 6 ==>
              LowerAll(Passed(n, x, c), map[LoopRem := 0])[k] == FV.LoopCode(n, x, Head(n, c))[k]
  {
  }

  lemma Lowers6(n: real, x: string, c: bool)
    requires SlotsCover(Passed(n, x, c), map[LoopRem := 0])
    ensures forall k :: 6 <= k < 9 ==>
              LowerAll(Passed(n, x, c), map[LoopRem := 0])[k] == FV.LoopCode(n, x, Head(n, c))[k]
  {
  }

  lemma Lowers9(n: real, x: string, c: bool)
    requires SlotsCover(Passed(n, x, c), map[LoopRem := 0])
    ensures forall k :: 9 <= k < 12 ==>
              LowerAll(Passed(n, x, c), map[LoopRem := 0])[k] == FV.LoopCode(n, x, Head(n, c))[k]
  {
  }

  /** The loop's bytecode holds no reload right after a store. */
  lemma NoReload(n: real, x: string, c: bool)
    ensures forall j :: 0 < j < 12 ==> !Reload(FV.LoopCode(n, x, Head(n, c)), j)
  {
    var code := FV.LoopCode(n, x, Head(n, c));
    assert BcJump(code[10]) && code[10].target == 2;
    assert 2 in BcJumpTargets(code);
    forall j | 0 < j < 12 ensures !Reload(code, j) {
      if j != 2 && j != 10 {
        assert code[j - 1].StoreLocal? ==> j - 1 == 1 || j - 1 == 9 by {
          if j - 1 < 6 {
            assert code[j - 1] in {B.ConstNum(n), B.StoreLocal(0), code[2], B.JumpIfFalse(11), B.ConstText(x), B.EmitSay};
          } else {
            assert code[j - 1] in {B.LoadLocal(0), B.ConstNum(1.0), B.Sub, B.StoreLocal(0), B.Jump(2)};
          }
        }
      }
    }
  }

  /** `lower_block` on the passed loop, with either bytecode pass: the loop's bytecode and the counter as its one local. */
  lemma LoopLowered(n: real, x: string, c: bool, dropReload: bool)
    ensures LowerBlockWith(Passed(n, x, c), [], dropReload).0 == FV.LoopCode(n, x, Head(n, c))
    ensures LowerBlockWith(Passed(n, x, c), [], dropReload).1 == [LoopRem]
  {
    LoopLocals(n, x, c);
    LoopLowersTo(n, x, c);
    var code := FV.LoopCode(n, x, Head(n, c));
    assert forall k :: 0 <= k < |code| && BcJump(code[k]) ==> code[k].target < |code| by {
      forall k | 0 <= k < |code| && BcJump(code[k]) ensures code[k].target < |code| {
        if k < 6 {
          assert code[k] in {B.ConstNum(n), B.StoreLocal(0), code[2], B.JumpIfFalse(11), B.ConstText(x), B.EmitSay};
        } else {
          assert code[k] in {B.LoadLocal(0), B.ConstNum(1.0), B.Sub, B.StoreLocal(0), B.Jump(2), B.Return};
        }
      }
    }
    NoReload(n, x, c);
    BcOptimizeFixed(code, Spans(Passed(n, x, c)), dropReload);
  }

  /** `compile_script` of the loop, as written or with both optimisers corrected. */
  lemma LoopScriptCompiles(n: real, x: string, c: bool)
    ensures var p := LowerIrWith(OptimizeIrWith(CompileIr(LoopScript(n, x)), c), !c);
            p.main == FV.LoopCode(n, x, Head(n, c)) && p.mainLocals == ["__loop_rem__"] && p.functions == map[]
  {
    LoopCompiles(n, x);
    var ir := CompileIr(LoopScript(n, x));
    var opt := OptimizeIrWith(ir, c);
    LoopOptimized(n, x, c);
    assert opt.main == Passed(n, x, c);
    assert opt.functions.Keys == {};
    LoopLowered(n, x, c, !c);
    assert LowerIrWith(opt, !c).functions.Keys == {};
  }

  /**
   * As written, `compile_script` turns `loop n { say x }` with a truthy
   * count into a program that never returns: it runs out of any fuel.
   */
  lemma LoopScriptNeverEnds(n: real, x: string, h: Vm.Host, fuel: nat)
    requires VmValue.Truthy(Vm.NumConst(n))
    ensures Vm.RunProgram(CompileScript(LoopScript(n, x)), h, fuel) == Vm.OutOfFuel
  {
    LoopScriptCompiles(n, x, false);
    var p := CompileScript(LoopScript(n, x));
    FV.LoopNeverEndsAsWritten(n, x, p.mainSpans, p.functions, h, fuel);
  }

  /**
   * With both optimisers corrected, `loop k { say x }` for a whole count
   * `k` (within i64) says `x` exactly `k` times and returns Null.
   */
  lemma LoopScriptRunsCorrected(k: nat, x: string, h: Vm.Host, fuel: nat)
    requires k <= Vm.I64Max && fuel >= 9 * k + 5
    ensures var r := Vm.RunProgram(CompileScriptCorrected(LoopScript(k as real, x)), h, fuel);
            r.Returned? && r.value == VmValue.Null && |r.m.events| == k
  {
    LoopScriptCompiles(k as real, x, true);
    var p := CompileScriptCorrected(LoopScript(k as real, x));
    FV.LoopRunsCorrected(k, x, p.mainSpans, p.functions, h, fuel);
  }
}
