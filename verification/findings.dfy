/**
 * Three places where vm/compiler.rs, as written, changes what a program
 * does, each shown on a concrete input next to the corrected definition
 * the rest of the model uses.
 */
module Findings {
  import opened Wrappers
  import A = Ast
  import opened IR
  import B = Bytecode
  import opened Compiler
  import opened OptimizerProps

  function N(i: IRInstr): IRNode { IRNode(i, None) }

  // ---------------------------------------------------------------------------
  // Constants carried into a loop head

  /** `loop n { say x }` as a whole script. */
  function LoopScript(n: real, x: string): seq<A.Stmt>
  {
    [A.Loop(A.Expr(A.Number(n), None), [A.Action(A.Say(A.Expr(A.Text(x), None)), None)], None)]
  }

  /** Its IR: the counter reload at 2 is the target of the back jump at 10. */
  function LoopBlock(n: real, x: string): seq<IRNode>
  {
    [N(ConstNum(n)), N(StoreVar(LoopRem)), N(LoadVar(LoopRem)), N(JumpIfFalse(11)),
     N(ConstText(x)), N(EmitSay),
     N(LoadVar(LoopRem)), N(ConstNum(1.0)), N(Sub), N(StoreVar(LoopRem)), N(Jump(2)),
     N(Return)]
  }

  function Start(): Pass { Pass([], [], seq(12, _ => None), map[], None) }

  lemma SayCompiles(x: string, b: nat)
    ensures CompileBlock([A.Action(A.Say(A.Expr(A.Text(x), None)), None)], b) == [N(ConstText(x)), N(EmitSay)]
  {
    var ss := [A.Action(A.Say(A.Expr(A.Text(x), None)), None)];
    assert CompileExpr(A.Expr(A.Text(x), None), b) == [N(ConstText(x))];
    assert CompileStmt(ss[0], b) == [N(ConstText(x)), N(EmitSay)];
    assert CompileBlock(ss[1..], b + 2) == [];
  }

  /** The script compiles to the block above. */
  lemma LoopCompiles(n: real, x: string)
    ensures CompileIr(LoopScript(n, x)).main == LoopBlock(n, x)
    ensures CompileIr(LoopScript(n, x)).functions == map[]
  {
    var ss := LoopScript(n, x);
    SayCompiles(x, 4);
    assert CompileExpr(ss[0].count, 0) == [N(ConstNum(n))];
    assert ss[0].body == [A.Action(A.Say(A.Expr(A.Text(x), None)), None)];
    var c := CompileStmt(ss[0], 0);
    assert c == [N(ConstNum(n))]
      + [N(StoreVar(LoopRem)), N(LoadVar(LoopRem)), N(JumpIfFalse(11))]
      + [N(ConstText(x)), N(EmitSay)]
      + [N(LoadVar(LoopRem)), N(ConstNum(1.0)), N(Sub), N(StoreVar(LoopRem)), N(Jump(2))];
    assert c == LoopBlock(n, x)[..11];
    assert [] + c == c;
    assert CompileTop(ss, [], map[]) == CompileTop(ss[1..], c, map[]);
    assert LoopBlock(n, x)[..11] + [N(Return)] == LoopBlock(n, x);
  }

  lemma RunStep(block: seq<IRNode>, i: nat, st: Pass, corrected: bool)
    requires i < |block| && |st.mapping| == |block|
    ensures var r := PassStep(block, i, st, corrected);
            RunPass(block, i, st, corrected) == RunPass(block, r.0, r.1, corrected)
  {
  }

  lemma LoopHeadIsTarget(n: real, x: string)
    ensures 2 in JumpTargets(LoopBlock(n, x)) && LoopBlock(n, x)[2].instr == LoadVar(LoopRem)
  {
    var b := LoopBlock(n, x);
    assert IsJump(b[10].instr) && b[10].instr.target == 2;
  }

  lemma At0(n: real, x: string)
    ensures var r := PassStep(LoopBlock(n, x), 0, Start(), false);
            r.0 == 1 && r.1.out == [LoopBlock(n, x)[0]] && r.1.prev == Some(ConstNum(n))
  {
  }

  lemma At1(n: real, x: string, st: Pass)
    requires |st.mapping| == 12 && st.out == [LoopBlock(n, x)[0]] && st.prev == Some(ConstNum(n))
    ensures var r := PassStep(LoopBlock(n, x), 1, st, false);
            r.0 == 2 && r.1.out == LoopBlock(n, x)[..2] && LoopRem in r.1.consts && r.1.consts[LoopRem] == ConstNum(n)
  {
  }

  lemma At2(n: real, x: string, st: Pass)
    requires |st.mapping| == 12 && st.out == LoopBlock(n, x)[..2]
    requires LoopRem in st.consts && st.consts[LoopRem] == ConstNum(n)
    ensures var r := PassStep(LoopBlock(n, x), 2, st, false);
            r.0 == 3 && r.1.out == LoopBlock(n, x)[..2] + [N(ConstNum(n))]
  {
  }

  lemma At3(n: real, x: string, st: Pass)
    requires |st.mapping| == 12 && |st.out| == 3
    ensures var r := PassStep(LoopBlock(n, x), 3, st, false);
            r.0 == 4 && r.1.out == st.out + [LoopBlock(n, x)[3]] && r.1.consts == map[]
  {
  }

  /**
   * As written, the first pass rewrites the loop test's reload of the
   * counter, which the back jump reaches with the decremented value, into
   * the initial count: the test never changes and a loop with a non-zero
   * count never ends. The corrected pass never rewrites a reload a jump
   * can reach (PassShape).
   */
  lemma LoopHeadFolded(n: real, x: string)
    ensures 2 in JumpTargets(LoopBlock(n, x)) && LoopBlock(n, x)[2].instr == LoopBlock(n, x)[6].instr == LoadVar(LoopRem)
    ensures var st := RunPass(LoopBlock(n, x), 0, Start(), false);
            |st.out| == 12 && st.out[2] == N(ConstNum(n))
            && !Rewritten(LoopBlock(n, x), true, 2, st.out[2])
  {
    var b := LoopBlock(n, x);
    LoopHeadIsTarget(n, x);
    var st4 := FirstFour(n, x);
    PassTail(n, x, 4, st4);
    var r := RunPass(b, 4, st4, false);
    assert r.out[..4][2] == st4.out[..4][2] == N(ConstNum(n));
  }

  /** The first four rounds of the pass as written: the reload at 2 has become the count. */
  lemma FirstFour(n: real, x: string) returns (st4: Pass)
    ensures |st4.mapping| == 12 && |st4.out| == 4 && st4.out[2] == N(ConstNum(n)) && st4.consts == map[]
    ensures RunPass(LoopBlock(n, x), 0, Start(), false) == RunPass(LoopBlock(n, x), 4, st4, false)
  {
    var b := LoopBlock(n, x);
    var r1 := PassStep(b, 0, Start(), false);
    At0(n, x);
    RunStep(b, 0, Start(), false);
    var r2 := PassStep(b, 1, r1.1, false);
    At1(n, x, r1.1);
    RunStep(b, 1, r1.1, false);
    var r3 := PassStep(b, 2, r2.1, false);
    At2(n, x, r2.1);
    RunStep(b, 2, r2.1, false);
    var r4 := PassStep(b, 3, r3.1, false);
    At3(n, x, r3.1);
    RunStep(b, 3, r3.1, false);
    st4 := r4.1;
  }

  /** From position 4 on, the pass emits one node per position and keeps the first four. */
  lemma {:induction false} PassTail(n: real, x: string, i: nat, st: Pass)
    requires 4 <= i <= 12 && |st.mapping| == 12 && |st.out| == i && (i <= 6 ==> LoopRem !in st.consts)
    ensures var r := RunPass(LoopBlock(n, x), i, st, false);
            |r.out| == 12 && r.out[..4] == st.out[..4]
    decreases 12 - i
  {
    if i < 12 {
      var (next, st') := PassStep(LoopBlock(n, x), i, st, false);
      assert next == i + 1 && st'.out == st.out + [LoopBlock(n, x)[i]] && (i + 1 <= 6 ==> LoopRem !in st'.consts);
      PassTail(n, x, next, st');
      assert st'.out[..4] == st.out[..4];
    }
  }
}
