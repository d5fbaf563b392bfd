/**
 * The rewrites of the optimiser in vm/compiler.rs, judged on the machine
 * of vm/interpreter.rs: which of them leave a run unchanged (up to the
 * fuel the removed instructions would have used) and which do not.
 */
module PeepholeProps {
  import opened Wrappers
  import opened VmValue
  import opened Bytecode
  import opened Vm

  /** A constant `true` feeding a conditional jump falls through: the pair can be removed. */
  lemma TrueBranchFallsThrough(code: seq<Instr>, names: seq<string>, fns: map<string, FunctionBytecode>, h: Host,
                               ip: nat, t: nat, m: Machine, fuel: nat)
    requires ip + 1 < |code| && code[ip] == ConstBool(true) && code[ip + 1] == JumpIfFalse(t)
    requires fuel >= 2
    ensures ExecCode(code, names, fns, h, ip, m, fuel) == ExecCode(code, names, fns, h, ip + 2, m, fuel - 2)
  {
    var m1 := m.(stack := m.stack + [Bool(true)]);
    assert ExecInstr(code, names, fns, h, ip, m, fuel - 1) == Continue(ip + 1, m1);
    assert m1.stack[..|m1.stack| - 1] == m.stack;
    assert ExecInstr(code, names, fns, h, ip + 1, m1, fuel - 2) == Continue(ip + 2, m);
  }

  /** A constant `false` feeding a conditional jump always takes it: the pair behaves as a plain jump. */
  lemma FalseBranchJumps(code: seq<Instr>, names: seq<string>, fns: map<string, FunctionBytecode>, h: Host,
                         ip: nat, t: nat, m: Machine, fuel: nat)
    requires ip + 1 < |code| && code[ip] == ConstBool(false) && code[ip + 1] == JumpIfFalse(t)
    requires fuel >= 2
    ensures ExecCode(code, names, fns, h, ip, m, fuel) == ExecCode(code, names, fns, h, t, m, fuel - 2)
  {
    var m1 := m.(stack := m.stack + [Bool(false)]);
    assert ExecInstr(code, names, fns, h, ip, m, fuel - 1) == Continue(ip + 1, m1);
    assert m1.stack[..|m1.stack| - 1] == m.stack;
    assert ExecInstr(code, names, fns, h, ip + 1, m1, fuel - 2) == Continue(t, m);
  }

  /** A plain jump continues at its target with the machine untouched. */
  lemma JumpGoesTo(code: seq<Instr>, names: seq<string>, fns: map<string, FunctionBytecode>, h: Host,
                   ip: nat, t: nat, m: Machine, fuel: nat)
    requires ip < |code| && code[ip] == Jump(t) && fuel >= 1
    ensures ExecCode(code, names, fns, h, ip, m, fuel) == ExecCode(code, names, fns, h, t, m, fuel - 1)
  {
    assert ExecInstr(code, names, fns, h, ip, m, fuel - 1) == Continue(t, m);
  }

  /**
   * A conditional jump to the next instruction is not a no-op: it pops the
   * condition, so removing it leaves one more value on the stack. On a
   * non-empty stack, the run after it continues with the top popped; on an
   * empty one it fails.
   */
  lemma CondJumpToNextPops(code: seq<Instr>, names: seq<string>, fns: map<string, FunctionBytecode>, h: Host,
                           ip: nat, m: Machine, fuel: nat)
    requires ip < |code| && code[ip] == JumpIfFalse(ip + 1) && fuel >= 1
    ensures |m.stack| > 0 ==> ExecCode(code, names, fns, h, ip, m, fuel)
                               == ExecCode(code, names, fns, h, ip + 1, m.(stack := m.stack[..|m.stack| - 1]), fuel - 1)
    ensures |m.stack| == 0 ==> ExecCode(code, names, fns, h, ip, m, fuel) == Failed("Stack underflow")
  {
    if |m.stack| > 0 {
      assert ExecInstr(code, names, fns, h, ip, m, fuel - 1) == Continue(ip + 1, m.(stack := m.stack[..|m.stack| - 1]));
    }
  }

  /**
   * `store_local` pops: after StoreLocal a; LoadLocal a the stack is back
   * as it was with slot a holding the top, while after StoreLocal a alone
   * it is one value shorter. So the reload cannot be dropped.
   */
  lemma StoreThenLoad(code: seq<Instr>, names: seq<string>, fns: map<string, FunctionBytecode>, h: Host,
                      ip: nat, a: nat, m: Machine, fuel: nat)
    requires ip + 1 < |code| && code[ip] == StoreLocal(a) && code[ip + 1] == LoadLocal(a)
    requires |m.stack| > 0 && |m.frames| > 0 && a < |m.frames[|m.frames| - 1]|
    requires fuel >= 2
    ensures var top := m.stack[|m.stack| - 1];
            var stored := m.(stack := m.stack[..|m.stack| - 1], frames := WriteSlot(m.frames, a, top));
            && ExecInstr(code, names, fns, h, ip, m, fuel - 1) == Continue(ip + 1, stored)
            && ExecCode(code, names, fns, h, ip, m, fuel)
               == ExecCode(code, names, fns, h, ip + 2, stored.(stack := m.stack), fuel - 2)
  {
    var top := m.stack[|m.stack| - 1];
    var stored := m.(stack := m.stack[..|m.stack| - 1], frames := WriteSlot(m.frames, a, top));
    assert ExecInstr(code, names, fns, h, ip, m, fuel - 1) == Continue(ip + 1, stored);
    assert ReadSlot(stored.frames, a) == top;
    assert stored.stack + [top] == m.stack;
    assert ExecInstr(code, names, fns, h, ip + 1, stored, fuel - 2) == Continue(ip + 2, stored.(stack := m.stack));
  }
}
