/**
 * The findings on vm/compiler.rs, run on the machine of
 * vm/interpreter.rs: what the code the compiler emits as written does,
 * against the code of the corrected definitions.
 */
module FindingsVm {
  import opened Wrappers
  import opened VmValue
  import opened Bytecode
  import opened Vm
  import SV = ScriptValue
  import Ast

  // ---------------------------------------------------------------------------
  // `loop n { say x }`

  /**
   * The lowered main block of `loop n { say x }` with the given loop test
   * at 2: LoadLocal 0 from the corrected optimiser, ConstNum n from the
   * optimiser as written.
   */
  function LoopCode(n: real, x: string, head: Instr): seq<Instr>
  {
    [ConstNum(n), StoreLocal(0), head, JumpIfFalse(11), ConstText(x), EmitSay,
     LoadLocal(0), ConstNum(1.0), Sub, StoreLocal(0), Jump(2), Return]
  }

  /** Slot 0 of the innermost frame exists and holds `v`. */
  predicate Slot0(m: Machine, v: Value)
  {
    |m.frames| > 0 && |m.frames[|m.frames| - 1]| > 0 && m.frames[|m.frames| - 1][0] == v
  }

  function Top(m: Machine): Value
    requires |m.stack| > 0
  {
    m.stack[|m.stack| - 1]
  }

  /** What the as-written loop has on its stack and in slot 0 on arriving at position `p`. */
  predicate Spinning(n: real, p: nat, m: Machine)
  {
    2 <= p <= 10 && |m.frames| > 0 && |m.frames[|m.frames| - 1]| > 0 && IsNumber(m.frames[|m.frames| - 1][0])
    && (p == 3 ==> |m.stack| > 0 && Top(m) == NumConst(n))
    && (p == 5 ==> |m.stack| > 0)
    && (p == 7 ==> |m.stack| > 0 && IsNumber(Top(m)))
    && (p == 8 ==> |m.stack| > 1 && IsNumber(Top(m)) && IsNumber(m.stack[|m.stack| - 2]))
    && (p == 9 ==> |m.stack| > 0 && IsNumber(Top(m)))
  }

  lemma NumConstIsNumber(n: real)
    ensures IsNumber(NumConst(n))
  {
  }

  lemma SpinStep(n: real, x: string, names: seq<string>, fns: map<string, FunctionBytecode>, h: Host,
                 p: nat, m: Machine, fuel: nat)
    requires Truthy(NumConst(n)) && Spinning(n, p, m)
    ensures var st := ExecInstr(LoopCode(n, x, ConstNum(n)), names, fns, h, p, m, fuel);
            st.Continue? && Spinning(n, st.ip, st.m)
  {
    if p <= 5 {
      SpinPart(n, x, names, fns, h, p, m, fuel, 2, 5);
    } else if p <= 7 {
      SpinPart(n, x, names, fns, h, p, m, fuel, 6, 7);
    } else if p == 8 {
      SpinSub(n, x, names, fns, h, m, fuel);
    } else {
      SpinPart(n, x, names, fns, h, p, m, fuel, 9, 10);
    }
  }

  /** SpinStep for the positions from lo to hi other than the subtraction. */
  lemma SpinPart(n: real, x: string, names: seq<string>, fns: map<string, FunctionBytecode>, h: Host,
                 p: nat, m: Machine, fuel: nat, lo: nat, hi: nat)
    requires Truthy(NumConst(n)) && Spinning(n, p, m) && lo <= p <= hi && hi - lo <= 3 && (p < 8 || p > 8)
    ensures var st := ExecInstr(LoopCode(n, x, ConstNum(n)), names, fns, h, p, m, fuel);
            st.Continue? && Spinning(n, st.ip, st.m)
  {
    NumConstIsNumber(n);
    NumConstIsNumber(1.0);
  }

  /** SpinStep at the subtraction: two numbers give a number. */
  lemma SpinSub(n: real, x: string, names: seq<string>, fns: map<string, FunctionBytecode>, h: Host,
                m: Machine, fuel: nat)
    requires Truthy(NumConst(n)) && Spinning(n, 8, m)
    ensures var st := ExecInstr(LoopCode(n, x, ConstNum(n)), names, fns, h, 8, m, fuel);
            st.Continue? && Spinning(n, st.ip, st.m)
  {
    var s := m.stack;
    assert NumBin(SubOp, s).Ok?;
    assert IsNumber(NumBin(SubOp, s).value[|s| - 2]);
  }

  /**
   * As written, the loop of `loop n { say x }` never ends when `n` is
   * non-zero: from its test, every run out of any amount of fuel is cut
   * off, never returned and never failed.
   */
  lemma {:induction false} LoopSpinsAsWritten(n: real, x: string, names: seq<string>, fns: map<string, FunctionBytecode>,
                                             h: Host, p: nat, m: Machine, fuel: nat)
    requires Truthy(NumConst(n)) && Spinning(n, p, m)
    ensures ExecCode(LoopCode(n, x, ConstNum(n)), names, fns, h, p, m, fuel) == OutOfFuel
    decreases fuel
  {
    if fuel > 0 {
      SpinStep(n, x, names, fns, h, p, m, fuel - 1);
      var st := ExecInstr(LoopCode(n, x, ConstNum(n)), names, fns, h, p, m, fuel - 1);
      LoopSpinsAsWritten(n, x, names, fns, h, st.ip, st.m, fuel - 1);
    }
  }

  /** The machine `main` starts on: one frame with one Null slot, nothing on the stack. */
  function LoopStart(): Machine
  {
    Machine([seq(1, _ => Null)], [], [], 0)
  }

  /** As written, the whole program with a non-zero count runs until its fuel is gone. */
  lemma LoopNeverEndsAsWritten(n: real, x: string, spans: seq<Option<Ast.Span>>, fns: map<string, FunctionBytecode>,
                               h: Host, fuel: nat)
    requires Truthy(NumConst(n))
    ensures RunProgram(Program(LoopCode(n, x, ConstNum(n)), ["__loop_rem__"], spans, fns), h, fuel) == OutOfFuel
  {
    var code := LoopCode(n, x, ConstNum(n));
    var names := ["__loop_rem__"];
    var m0 := LoopStart();
    if fuel >= 2 {
      var m1 := m0.(stack := [NumConst(n)]);
      assert ExecInstr(code, names, fns, h, 0, m0, fuel - 1) == Continue(1, m1);
      Continues(code, names, fns, h, 0, m0, fuel);
      var m2 := m0.(frames := [[NumConst(n)]]);
      assert seq(1, _ => Null)[0 := NumConst(n)] == [NumConst(n)];
      assert ExecInstr(code, names, fns, h, 1, m1, fuel - 2) == Continue(2, m2);
      Continues(code, names, fns, h, 1, m1, fuel - 1);
      NumConstIsNumber(n);
      LoopSpinsAsWritten(n, x, names, fns, h, 2, m2, fuel - 2);
    }
  }

  /**
   * The corrected loop on arriving at position `p` of the round that
   * starts with counter `c`: the counter in slot 0 (already decremented at
   * 10), the stack over an empty base, and `e` events so far.
   */
  predicate Counting(p: nat, m: Machine, c: nat, e: nat)
  {
    2 <= p <= 10 && (p >= 4 ==> c > 0)
    && Slot0(m, SmallInt(if p == 10 then c - 1 else c))
    && |m.events| == (if p <= 5 then e else e + 1)
    && (p == 2 || p == 4 || p == 6 || p == 10 ==> m.stack == [])
    && (p == 3 || p == 7 ==> m.stack == [SmallInt(c)])
    && (p == 5 ==> |m.stack| == 1)
    && (p == 8 ==> m.stack == [SmallInt(c), SmallInt(1)])
    && (p == 9 ==> m.stack == [SmallInt(c - 1)])
  }

  lemma CountStep(n: real, x: string, names: seq<string>, fns: map<string, FunctionBytecode>, h: Host,
                  p: nat, m: Machine, c: nat, e: nat, fuel: nat)
    requires Counting(p, m, c, e) && !(p == 3 && c == 0)
    ensures var st := ExecInstr(LoopCode(n, x, LoadLocal(0)), names, fns, h, p, m, fuel);
            st.Continue? && st.ip == (if p == 10 then 2 else p + 1)
            && (if p == 10 then Counting(2, st.m, c - 1, e + 1) else Counting(p + 1, st.m, c, e))
  {
    if p <= 5 {
      CountPart(n, x, names, fns, h, p, m, c, e, fuel, 2, 5);
    } else if p == 8 {
      CountSub(n, x, names, fns, h, m, c, e, fuel);
    } else {
      CountPart(n, x, names, fns, h, p, m, c, e, fuel, 6, 10);
    }
  }

  /** CountStep for the positions from lo to hi other than the subtraction. */
  lemma CountPart(n: real, x: string, names: seq<string>, fns: map<string, FunctionBytecode>, h: Host,
                  p: nat, m: Machine, c: nat, e: nat, fuel: nat, lo: nat, hi: nat)
    requires Counting(p, m, c, e) && !(p == 3 && c == 0) && lo <= p <= hi && hi - lo <= 4 && p != 8
    ensures var st := ExecInstr(LoopCode(n, x, LoadLocal(0)), names, fns, h, p, m, fuel);
            st.Continue? && st.ip == (if p == 10 then 2 else p + 1)
            && (if p == 10 then Counting(2, st.m, c - 1, e + 1) else Counting(p + 1, st.m, c, e))
  {
    assert NumConst(1.0) == SmallInt(1);
  }

  /** CountStep at the subtraction: the counter drops by one. */
  lemma CountSub(n: real, x: string, names: seq<string>, fns: map<string, FunctionBytecode>, h: Host,
                 m: Machine, c: nat, e: nat, fuel: nat)
    requires Counting(8, m, c, e)
    ensures var st := ExecInstr(LoopCode(n, x, LoadLocal(0)), names, fns, h, 8, m, fuel);
            st.Continue? && st.ip == 9 && Counting(9, st.m, c, e)
  {
    assert NumBin(SubOp, m.stack) == Ok([SmallInt(c - 1)]);
  }

  /** The run returned Null having logged `e` events in all. */
  predicate ReturnsNull(r: Outcome, e: nat)
  {
    r.Returned? && r.value == Null && |r.m.events| == e
  }

  /** A zero counter sends the test to the final Return. */
  lemma LoopExits(n: real, x: string, names: seq<string>, fns: map<string, FunctionBytecode>,
                  h: Host, m: Machine, e: nat, fuel: nat)
    requires Counting(3, m, 0, e) && fuel >= 2
    ensures ReturnsNull(ExecCode(LoopCode(n, x, LoadLocal(0)), names, fns, h, 3, m, fuel), e)
  {
    var code := LoopCode(n, x, LoadLocal(0));
    assert code[3] == JumpIfFalse(11) && code[11] == Return;
    JumpToReturn(code, names, fns, h, 3, 11, m, fuel);
  }

  /**
   * A conditional jump on a falsy sole stack value straight to a Return
   * ends the run with Null and the stack emptied.
   */
  lemma JumpToReturn(code: seq<Instr>, names: seq<string>, fns: map<string, FunctionBytecode>, h: Host,
                     ip: nat, t: nat, m: Machine, fuel: nat)
    requires ip < |code| && t < |code| && code[ip] == JumpIfFalse(t) && code[t] == Return
    requires |m.stack| == 1 && !Truthy(m.stack[0]) && fuel >= 2
    ensures ExecCode(code, names, fns, h, ip, m, fuel) == Returned(Null, m.(stack := []))
  {
    var m' := m.(stack := []);
    assert Pop(m.stack) == Ok((m.stack[0], []));
    assert ExecInstr(code, names, fns, h, ip, m, fuel - 1) == Continue(t, m');
    Continues(code, names, fns, h, ip, m, fuel);
    assert ExecInstr(code, names, fns, h, t, m', fuel - 2) == Finish(Null, m');
    Finishes(code, names, fns, h, t, m', fuel - 1);
  }

  /** One instruction that continues, taken by the run. */
  lemma Continues(code: seq<Instr>, names: seq<string>, fns: map<string, FunctionBytecode>, h: Host,
                  ip: nat, m: Machine, fuel: nat)
    requires ip < |code| && fuel > 0 && ExecInstr(code, names, fns, h, ip, m, fuel - 1).Continue?
    ensures var st := ExecInstr(code, names, fns, h, ip, m, fuel - 1);
            ExecCode(code, names, fns, h, ip, m, fuel) == ExecCode(code, names, fns, h, st.ip, st.m, fuel - 1)
  {
  }

  /** One instruction that finishes the run. */
  lemma Finishes(code: seq<Instr>, names: seq<string>, fns: map<string, FunctionBytecode>, h: Host,
                 ip: nat, m: Machine, fuel: nat)
    requires ip < |code| && fuel > 0 && ExecInstr(code, names, fns, h, ip, m, fuel - 1).Finish?
    ensures var st := ExecInstr(code, names, fns, h, ip, m, fuel - 1);
            ExecCode(code, names, fns, h, ip, m, fuel) == Returned(st.value, st.m)
  {
  }

  /**
   * Corrected, the loop from its test with counter `c` ends: with enough
   * fuel it returns Null having logged one event per remaining round.
   */
  lemma {:induction false} LoopCounts(n: real, x: string, names: seq<string>, fns: map<string, FunctionBytecode>,
                                     h: Host, p: nat, m: Machine, c: nat, e: nat, fuel: nat)
    requires Counting(p, m, c, e) && fuel + p >= 9 * c + 5
    ensures ReturnsNull(ExecCode(LoopCode(n, x, LoadLocal(0)), names, fns, h, p, m, fuel), e + c)
    decreases fuel
  {
    var code := LoopCode(n, x, LoadLocal(0));
    if p == 3 && c == 0 {
      LoopExits(n, x, names, fns, h, m, e, fuel);
    } else {
      CountStep(n, x, names, fns, h, p, m, c, e, fuel - 1);
      var st := ExecInstr(code, names, fns, h, p, m, fuel - 1);
      Continues(code, names, fns, h, p, m, fuel);
      if p == 10 {
        LoopCounts(n, x, names, fns, h, 2, st.m, c - 1, e + 1, fuel - 1);
      } else {
        LoopCounts(n, x, names, fns, h, p + 1, st.m, c, e, fuel - 1);
      }
    }
  }

  /**
   * Corrected, `loop k { say x }` for a whole count `k` (within i64) says
   * exactly `k` times and returns Null, given fuel for its 9 k + 5 steps.
   */
  lemma LoopRunsCorrected(k: nat, x: string, spans: seq<Option<Ast.Span>>, fns: map<string, FunctionBytecode>,
                          h: Host, fuel: nat)
    requires k <= I64Max && fuel >= 9 * k + 5
    ensures var r := RunProgram(Program(LoopCode(k as real, x, LoadLocal(0)), ["__loop_rem__"], spans, fns), h, fuel);
            r.Returned? && r.value == Null && |r.m.events| == k
  {
    var n := k as real;
    var code := LoopCode(n, x, LoadLocal(0));
    var names := ["__loop_rem__"];
    var m0 := LoopStart();
    assert SV.Trunc(n) == k;
    assert NumConst(n) == SmallInt(k);
    var m1 := m0.(stack := [SmallInt(k)]);
    assert ExecInstr(code, names, fns, h, 0, m0, fuel - 1) == Continue(1, m1);
    Continues(code, names, fns, h, 0, m0, fuel);
    var m2 := m0.(frames := [[SmallInt(k)]]);
    assert seq(1, _ => Null)[0 := SmallInt(k)] == [SmallInt(k)];
    assert ExecInstr(code, names, fns, h, 1, m1, fuel - 2) == Continue(2, m2);
    Continues(code, names, fns, h, 1, m1, fuel - 1);
    LoopCounts(n, x, names, fns, h, 2, m2, k, 0, fuel - 2);
  }
}

