/**
 * Properties of the stack machine: instruction by instruction, the effect
 * on the operand stack and the instruction pointer, and over whole runs the
 * frame discipline of calls.
 */
module VmProps {
  import opened Wrappers
  import opened VmValue
  import opened Bytecode
  import opened Vm

  /** Any instruction that pops, run on an empty stack, ends the run with "Stack underflow". */
  lemma UnderflowIsFatal(code: seq<Instr>, names: seq<string>, fns: map<string, FunctionBytecode>, h: Host,
                         ip: nat, m: Machine, fuel: nat)
    requires ip < |code| && fuel > 0 && |m.stack| == 0
    requires code[ip] in {Add, Sub, Mul, Div, Mod, Eq, Ne, Gt, Ge, Lt, Le, And, Or, EmitSay, EmitFetch, EmitText, EmitLog}
      || code[ip].StoreLocal? || code[ip].JumpIfFalse? || code[ip].LoadField?
    ensures ExecCode(code, names, fns, h, ip, m, fuel) == Failed("Stack underflow")
  {
  }

  /** The stack after `st` replaced the `Pops(i)` top values of `s` by `Pushes(i)` values. */
  predicate EffectHolds(i: Instr, s: seq<Value>, st: Step)
  {
    st.Continue? ==>
      Pops(i) <= |s|
      && |st.m.stack| == |s| - Pops(i) + Pushes(i)
      && st.m.stack[..|s| - Pops(i)] == s[..|s| - Pops(i)]
  }

  /**
   * The stack effect of one instruction: with fewer than `Pops` values on
   * the stack it stops with "Stack underflow"; when it continues, it has
   * replaced its `Pops` top values by `Pushes` values and left the rest of
   * the stack alone. (A user-function call's effect depends on its body.)
   */
  lemma StackEffect(code: seq<Instr>, names: seq<string>, fns: map<string, FunctionBytecode>, h: Host,
                    ip: nat, m: Machine, fuel: nat)
    requires ip < |code|
    ensures |m.stack| < Pops(code[ip]) ==> ExecInstr(code, names, fns, h, ip, m, fuel) == Stop("Stack underflow")
    ensures !code[ip].CallFn? && !code[ip].Return? ==>
      EffectHolds(code[ip], m.stack, ExecInstr(code, names, fns, h, ip, m, fuel))
  {
    var i := code[ip];
    if i.Add? || i.Sub? || i.Mul? || i.Div? || i.Mod? {
      BinaryEffect(code, names, fns, h, ip, m, fuel);
    } else if i.Eq? || i.Ne? || i.Gt? || i.Ge? || i.Lt? || i.Le? || i.And? || i.Or? {
      LogicEffect(code, names, fns, h, ip, m, fuel);
    } else if i.MakeList? || i.MakeMap? || i.CallBuiltin? || i.CallFn? {
      ManyEffect(code, names, fns, h, ip, m, fuel);
    } else {
      SimpleEffect(code, names, fns, h, ip, m, fuel);
    }
  }

  lemma BinaryEffect(code: seq<Instr>, names: seq<string>, fns: map<string, FunctionBytecode>, h: Host,
                     ip: nat, m: Machine, fuel: nat)
    requires ip < |code| && (code[ip].Add? || code[ip].Sub? || code[ip].Mul? || code[ip].Div? || code[ip].Mod?)
    ensures |m.stack| < 2 ==> ExecInstr(code, names, fns, h, ip, m, fuel) == Stop("Stack underflow")
    ensures EffectHolds(code[ip], m.stack, ExecInstr(code, names, fns, h, ip, m, fuel))
  {
  }

  lemma LogicEffect(code: seq<Instr>, names: seq<string>, fns: map<string, FunctionBytecode>, h: Host,
                    ip: nat, m: Machine, fuel: nat)
    requires ip < |code|
    requires code[ip].Eq? || code[ip].Ne? || code[ip].Gt? || code[ip].Ge? || code[ip].Lt? || code[ip].Le? || code[ip].And? || code[ip].Or?
    ensures |m.stack| < 2 ==> ExecInstr(code, names, fns, h, ip, m, fuel) == Stop("Stack underflow")
    ensures EffectHolds(code[ip], m.stack, ExecInstr(code, names, fns, h, ip, m, fuel))
  {
    if code[ip].And? || code[ip].Or? {
      BoolEffect(code, names, fns, h, ip, m, fuel);
    } else {
      CompareEffect(code, names, fns, h, ip, m, fuel);
    }
  }

  lemma CompareEffect(code: seq<Instr>, names: seq<string>, fns: map<string, FunctionBytecode>, h: Host,
                      ip: nat, m: Machine, fuel: nat)
    requires ip < |code|
    requires code[ip].Eq? || code[ip].Ne? || code[ip].Gt? || code[ip].Ge? || code[ip].Lt? || code[ip].Le?
    ensures |m.stack| < 2 ==> ExecInstr(code, names, fns, h, ip, m, fuel) == Stop("Stack underflow")
    ensures EffectHolds(code[ip], m.stack, ExecInstr(code, names, fns, h, ip, m, fuel))
  {
    if code[ip].Eq? || code[ip].Ne? {
      EqualityEffect(code, names, fns, h, ip, m, fuel);
    } else {
      OrderEffect(code, names, fns, h, ip, m, fuel);
    }
  }

  lemma EqualityEffect(code: seq<Instr>, names: seq<string>, fns: map<string, FunctionBytecode>, h: Host,
                       ip: nat, m: Machine, fuel: nat)
    requires ip < |code| && (code[ip].Eq? || code[ip].Ne?)
    ensures |m.stack| < 2 ==> ExecInstr(code, names, fns, h, ip, m, fuel) == Stop("Stack underflow")
    ensures EffectHolds(code[ip], m.stack, ExecInstr(code, names, fns, h, ip, m, fuel))
  {
  }

  lemma OrderEffect(code: seq<Instr>, names: seq<string>, fns: map<string, FunctionBytecode>, h: Host,
                    ip: nat, m: Machine, fuel: nat)
    requires ip < |code| && (code[ip].Gt? || code[ip].Ge? || code[ip].Lt? || code[ip].Le?)
    ensures |m.stack| < 2 ==> ExecInstr(code, names, fns, h, ip, m, fuel) == Stop("Stack underflow")
    ensures EffectHolds(code[ip], m.stack, ExecInstr(code, names, fns, h, ip, m, fuel))
  {
    if code[ip].Gt? || code[ip].Ge? {
      GreaterEffect(code, names, fns, h, ip, m, fuel);
    } else {
      LessEffect(code, names, fns, h, ip, m, fuel);
    }
  }

  lemma GreaterEffect(code: seq<Instr>, names: seq<string>, fns: map<string, FunctionBytecode>, h: Host,
                      ip: nat, m: Machine, fuel: nat)
    requires ip < |code| && (code[ip].Gt? || code[ip].Ge?)
    ensures |m.stack| < 2 ==> ExecInstr(code, names, fns, h, ip, m, fuel) == Stop("Stack underflow")
    ensures EffectHolds(code[ip], m.stack, ExecInstr(code, names, fns, h, ip, m, fuel))
  {
  }

  lemma LessEffect(code: seq<Instr>, names: seq<string>, fns: map<string, FunctionBytecode>, h: Host,
                   ip: nat, m: Machine, fuel: nat)
    requires ip < |code| && (code[ip].Lt? || code[ip].Le?)
    ensures |m.stack| < 2 ==> ExecInstr(code, names, fns, h, ip, m, fuel) == Stop("Stack underflow")
    ensures EffectHolds(code[ip], m.stack, ExecInstr(code, names, fns, h, ip, m, fuel))
  {
  }

  lemma BoolEffect(code: seq<Instr>, names: seq<string>, fns: map<string, FunctionBytecode>, h: Host,
                   ip: nat, m: Machine, fuel: nat)
    requires ip < |code| && (code[ip].And? || code[ip].Or?)
    ensures |m.stack| < 2 ==> ExecInstr(code, names, fns, h, ip, m, fuel) == Stop("Stack underflow")
    ensures EffectHolds(code[ip], m.stack, ExecInstr(code, names, fns, h, ip, m, fuel))
  {
  }

  lemma ManyEffect(code: seq<Instr>, names: seq<string>, fns: map<string, FunctionBytecode>, h: Host,
                   ip: nat, m: Machine, fuel: nat)
    requires ip < |code| && (code[ip].MakeList? || code[ip].MakeMap? || code[ip].CallBuiltin? || code[ip].CallFn?)
    ensures |m.stack| < Pops(code[ip]) ==> ExecInstr(code, names, fns, h, ip, m, fuel) == Stop("Stack underflow")
    ensures !code[ip].CallFn? ==> EffectHolds(code[ip], m.stack, ExecInstr(code, names, fns, h, ip, m, fuel))
  {
    if code[ip].CallFn? {
      var s := m.stack;
      if code[ip].argc > |s| && code[ip].name in fns {
        assert CallFunction(fns[code[ip].name], code[ip].argc, fns, h, m, fuel) == Failed("Stack underflow");
      }
    } else if code[ip].CallBuiltin? {
      BuiltinEffect(code, names, fns, h, ip, m, fuel);
    } else {
      CollectEffect(code, names, fns, h, ip, m, fuel);
    }
  }

  lemma BuiltinEffect(code: seq<Instr>, names: seq<string>, fns: map<string, FunctionBytecode>, h: Host,
                      ip: nat, m: Machine, fuel: nat)
    requires ip < |code| && code[ip].CallBuiltin?
    ensures |m.stack| < Pops(code[ip]) ==> ExecInstr(code, names, fns, h, ip, m, fuel) == Stop("Stack underflow")
    ensures EffectHolds(code[ip], m.stack, ExecInstr(code, names, fns, h, ip, m, fuel))
  {
  }

  lemma CollectEffect(code: seq<Instr>, names: seq<string>, fns: map<string, FunctionBytecode>, h: Host,
                      ip: nat, m: Machine, fuel: nat)
    requires ip < |code| && (code[ip].MakeList? || code[ip].MakeMap?)
    ensures |m.stack| < Pops(code[ip]) ==> ExecInstr(code, names, fns, h, ip, m, fuel) == Stop("Stack underflow")
    ensures EffectHolds(code[ip], m.stack, ExecInstr(code, names, fns, h, ip, m, fuel))
  {
  }

  lemma SimpleEffect(code: seq<Instr>, names: seq<string>, fns: map<string, FunctionBytecode>, h: Host,
                     ip: nat, m: Machine, fuel: nat)
    requires ip < |code| && !code[ip].CallFn? && !code[ip].MakeList? && !code[ip].MakeMap? && !code[ip].CallBuiltin?
    requires !(code[ip].Add? || code[ip].Sub? || code[ip].Mul? || code[ip].Div? || code[ip].Mod?)
    requires !(code[ip].Eq? || code[ip].Ne? || code[ip].Gt? || code[ip].Ge? || code[ip].Lt? || code[ip].Le? || code[ip].And? || code[ip].Or?)
    ensures |m.stack| < Pops(code[ip]) ==> ExecInstr(code, names, fns, h, ip, m, fuel) == Stop("Stack underflow")
    ensures !code[ip].Return? ==> EffectHolds(code[ip], m.stack, ExecInstr(code, names, fns, h, ip, m, fuel))
  {
  }

  /** Two integers: Add, Sub, Mul and Mod use integer arithmetic on (lhs, rhs) = (second, top). */
  lemma IntArithmetic(code: seq<Instr>, names: seq<string>, fns: map<string, FunctionBytecode>, h: Host,
                      ip: nat, m: Machine, fuel: nat, a: int, b: int)
    requires ip < |code| && |m.stack| >= 2
    requires m.stack[|m.stack| - 2] == SmallInt(a) && m.stack[|m.stack| - 1] == SmallInt(b)
    ensures var base := m.stack[..|m.stack| - 2];
      && (code[ip] == Add ==> ExecInstr(code, names, fns, h, ip, m, fuel) == Continue(ip + 1, m.(stack := base + [SmallInt(a + b)])))
      && (code[ip] == Sub ==> ExecInstr(code, names, fns, h, ip, m, fuel) == Continue(ip + 1, m.(stack := base + [SmallInt(a - b)])))
      && (code[ip] == Mul ==> ExecInstr(code, names, fns, h, ip, m, fuel) == Continue(ip + 1, m.(stack := base + [SmallInt(a * b)])))
      && (code[ip] == Mod && b != 0 ==> ExecInstr(code, names, fns, h, ip, m, fuel) == Continue(ip + 1, m.(stack := base + [SmallInt(IntRem(a, b))])))
  {
    assert m.stack[..|m.stack| - 1][..|m.stack| - 2] == m.stack[..|m.stack| - 2];
  }

  /** Div has no integer form: even two integers divide as floats. */
  lemma DivIsFloat(code: seq<Instr>, names: seq<string>, fns: map<string, FunctionBytecode>, h: Host,
                   ip: nat, m: Machine, fuel: nat, a: int, b: int)
    requires ip < |code| && code[ip] == Div && |m.stack| >= 2 && b != 0
    requires m.stack[|m.stack| - 2] == SmallInt(a) && m.stack[|m.stack| - 1] == SmallInt(b)
    ensures ExecInstr(code, names, fns, h, ip, m, fuel)
      == Continue(ip + 1, m.(stack := m.stack[..|m.stack| - 2] + [Float(a as real / b as real)]))
  {
    assert m.stack[..|m.stack| - 1][..|m.stack| - 2] == m.stack[..|m.stack| - 2];
  }

  /** An arithmetic instruction on a non-number fails with "Type error in binary op". */
  lemma ArithTypeError(code: seq<Instr>, names: seq<string>, fns: map<string, FunctionBytecode>, h: Host,
                       ip: nat, m: Machine, fuel: nat)
    requires ip < |code| && code[ip] in {Add, Sub, Mul, Div, Mod} && |m.stack| >= 2
    requires !IsNumber(m.stack[|m.stack| - 1]) || !IsNumber(m.stack[|m.stack| - 2])
    ensures ExecInstr(code, names, fns, h, ip, m, fuel) == Stop("Type error in binary op")
  {
  }

  /** An ordering instruction on a non-number fails with "Type error in numeric comparison". */
  lemma CompareTypeError(code: seq<Instr>, names: seq<string>, fns: map<string, FunctionBytecode>, h: Host,
                         ip: nat, m: Machine, fuel: nat)
    requires ip < |code| && code[ip] in {Gt, Ge, Lt, Le} && |m.stack| >= 2
    requires !IsNumber(m.stack[|m.stack| - 1]) || !IsNumber(m.stack[|m.stack| - 2])
    ensures ExecInstr(code, names, fns, h, ip, m, fuel) == Stop("Type error in numeric comparison")
  {
  }

  /** Eq, Ne, And and Or never fail on two operands, and push one Bool. */
  lemma LogicNeverFails(code: seq<Instr>, names: seq<string>, fns: map<string, FunctionBytecode>, h: Host,
                        ip: nat, m: Machine, fuel: nat)
    requires ip < |code| && code[ip] in {Eq, Ne, And, Or} && |m.stack| >= 2
    ensures var r := ExecInstr(code, names, fns, h, ip, m, fuel);
      var lhs := m.stack[|m.stack| - 2];
      var rhs := m.stack[|m.stack| - 1];
      && r.Continue? && r.ip == ip + 1 && |r.m.stack| == |m.stack| - 1
      && (code[ip] == Eq ==> r.m.stack[|m.stack| - 2] == Bool(Equals(lhs, rhs)))
      && (code[ip] == Ne ==> r.m.stack[|m.stack| - 2] == Bool(!Equals(lhs, rhs)))
      && (code[ip] == And ==> r.m.stack[|m.stack| - 2] == Bool(Truthy(lhs) && Truthy(rhs)))
      && (code[ip] == Or ==> r.m.stack[|m.stack| - 2] == Bool(Truthy(lhs) || Truthy(rhs)))
  {
  }

  /** Jump moves to its target without incrementing; JumpIfFalse pops and jumps exactly when the value is falsy. */
  lemma JumpSemantics(code: seq<Instr>, names: seq<string>, fns: map<string, FunctionBytecode>, h: Host,
                      ip: nat, m: Machine, fuel: nat)
    requires ip < |code| && (code[ip].Jump? || code[ip].JumpIfFalse?)
    ensures code[ip].Jump? ==> ExecInstr(code, names, fns, h, ip, m, fuel) == Continue(code[ip].target, m)
    ensures code[ip].JumpIfFalse? && |m.stack| > 0 ==>
      var c := m.stack[|m.stack| - 1];
      ExecInstr(code, names, fns, h, ip, m, fuel)
        == Continue(if Truthy(c) then ip + 1 else code[ip].target, m.(stack := m.stack[..|m.stack| - 1]))
  {
  }

  /** MakeList pops `n` values and builds a list of them in the order they were pushed. */
  lemma MakeListOrder(code: seq<Instr>, names: seq<string>, fns: map<string, FunctionBytecode>, h: Host,
                      ip: nat, m: Machine, fuel: nat, base: seq<Value>, items: seq<Value>)
    requires ip < |code| && code[ip] == MakeList(|items|) && m.stack == base + items
    ensures ExecInstr(code, names, fns, h, ip, m, fuel)
      == Continue(ip + 1, m.(stack := base + [RcObj(m.nextId, List(items))], nextId := m.nextId + 1))
  {
    assert m.stack[|m.stack| - |items|..] == items;
    assert m.stack[..|m.stack| - |items|] == base;
  }

  /** The first position of a key in a key list. */
  function FirstIndex(keys: seq<string>, k: string): (i: nat)
    requires k in keys
    ensures i < |keys| && keys[i] == k && forall j :: 0 <= j < i ==> keys[j] != k
  {
    if keys[0] == k then 0 else 1 + FirstIndex(keys[1..], k)
  }

  /**
   * MakeMap pairs each key with the value pushed in the same position; when
   * a key repeats, the value at its first position is the one kept.
   */
  lemma {:induction false} PairKeysFirstWins(keys: seq<string>, vals: seq<Value>, k: string)
    requires |keys| == |vals| && k in keys
    ensures PairKeys(keys, vals)[k] == vals[FirstIndex(keys, k)]
  {
    if keys[0] != k {
      PairKeysFirstWins(keys[1..], vals[1..], k);
    }
  }

  /** With distinct keys, key `i` maps to value `i`. */
  lemma PairKeysDistinct(keys: seq<string>, vals: seq<Value>, i: nat)
    requires |keys| == |vals| && i < |keys|
    requires forall a, b :: 0 <= a < b < |keys| ==> keys[a] != keys[b]
    ensures PairKeys(keys, vals)[keys[i]] == vals[i]
  {
    PairKeysFirstWins(keys, vals, keys[i]);
  }

  /** LoadField reads a field of a map and pushes Null for anything that is not a map. */
  lemma LoadFieldNull(code: seq<Instr>, names: seq<string>, fns: map<string, FunctionBytecode>, h: Host,
                      ip: nat, m: Machine, fuel: nat)
    requires ip < |code| && code[ip].LoadField? && |m.stack| > 0
    ensures var t := m.stack[|m.stack| - 1];
      var f := code[ip].field;
      var r := ExecInstr(code, names, fns, h, ip, m, fuel);
      && r.Continue? && r.ip == ip + 1 && |r.m.stack| == |m.stack|
      && r.m.stack[|m.stack| - 1] == (if t.RcObj? && t.obj.Map? && f in t.obj.entries then t.obj.entries[f] else Null)
  {
  }

  /** CallFn prefers a user function; a name that is neither a function nor a builtin is "Unknown builtin: name". */
  lemma CallFnResolution(code: seq<Instr>, names: seq<string>, fns: map<string, FunctionBytecode>, h: Host,
                         ip: nat, m: Machine, fuel: nat)
    requires ip < |code| && code[ip].CallFn?
    requires code[ip].name !in fns && code[ip].name !in h.builtins
    requires code[ip].argc <= |m.stack|
    requires code[ip].name != "len" && code[ip].name != "__index"
    ensures ExecInstr(code, names, fns, h, ip, m, fuel) == Stop("Unknown builtin: " + code[ip].name)
  {
  }

  /** Return hands back the popped top of the stack, or Null on an empty stack; so does running off the end. */
  lemma ReturnValue(code: seq<Instr>, names: seq<string>, fns: map<string, FunctionBytecode>, h: Host,
                    ip: nat, m: Machine, fuel: nat)
    requires ip <= |code| && (ip == |code| || (code[ip] == Return && fuel > 0))
    ensures var r := ExecCode(code, names, fns, h, ip, m, fuel);
      && r.Returned?
      && (|m.stack| == 0 ==> r.value == Null && r.m == m)
      && (|m.stack| > 0 ==> r.value == m.stack[|m.stack| - 1] && r.m.stack == m.stack[..|m.stack| - 1])
  {
  }

  /** Each emitting instruction logs exactly one event, except `ask`, which logs the prompt and then the answer. */
  lemma EmitLogsEvents(code: seq<Instr>, names: seq<string>, fns: map<string, FunctionBytecode>, h: Host,
                       ip: nat, m: Machine, fuel: nat)
    requires ip < |code| && code[ip] in {EmitSay, EmitAsk, EmitFetch, EmitText, EmitButton, EmitLog} && |m.stack| > 0
    ensures var r := ExecInstr(code, names, fns, h, ip, m, fuel);
      var p := h.format(m.stack[|m.stack| - 1]);
      && r.Continue? && r.m.stack == m.stack[..|m.stack| - 1]
      && (code[ip] == EmitAsk ==> r.m.events == m.events + [AskEvent(p, ""), AskEvent(p, h.oracle(p))])
      && (code[ip] == EmitSay ==> r.m.events == m.events + [SayEvent(p)])
      && (code[ip] != EmitAsk ==> |r.m.events| == |m.events| + 1)
  {
  }

  /** Frames above the innermost one are untouched, and the number of frames is the same. */
  predicate SameOuterFrames(a: Machine, b: Machine)
  {
    |a.frames| == |b.frames| && (|a.frames| > 0 ==> a.frames[..|a.frames| - 1] == b.frames[..|b.frames| - 1])
  }

  /**
   * Frame discipline: a run of code only ever writes the innermost frame,
   * and a call pushes a frame and pops it again, so after a returning call
   * the caller's frames are exactly as before and the result is on top of
   * the stack.
   */
  lemma {:induction false} ExecKeepsFrames(code: seq<Instr>, names: seq<string>, fns: map<string, FunctionBytecode>, h: Host,
                                           ip: nat, m: Machine, fuel: nat)
    ensures var r := ExecCode(code, names, fns, h, ip, m, fuel);
      r.Returned? ==> SameOuterFrames(m, r.m)
    decreases fuel, 0
  {
    if ip < |code| && fuel > 0 {
      var s := ExecInstr(code, names, fns, h, ip, m, fuel - 1);
      InstrKeepsFrames(code, names, fns, h, ip, m, fuel - 1);
      if s.Continue? {
        ExecKeepsFrames(code, names, fns, h, s.ip, s.m, fuel - 1);
      }
    }
  }

  lemma {:induction false} InstrKeepsFrames(code: seq<Instr>, names: seq<string>, fns: map<string, FunctionBytecode>, h: Host,
                                            ip: nat, m: Machine, fuel: nat)
    requires ip < |code|
    ensures var s := ExecInstr(code, names, fns, h, ip, m, fuel);
      && (s.Continue? ==> SameOuterFrames(m, s.m))
      && (s.Finish? ==> SameOuterFrames(m, s.m))
    decreases fuel, 2
  {
    var s := ExecInstr(code, names, fns, h, ip, m, fuel);
    match code[ip]
    case CallFn(name, argc) =>
      if name in fns {
        CallRestoresFrames(fns[name], argc, fns, h, m, fuel);
      }
    case StoreVar(name) =>
      if |m.stack| > 0 {
        match Position(names, name)
        case Some(i) => WriteSlotOuter(m.frames, i, m.stack[|m.stack| - 1]);
        case None =>
      }
    case StoreLocal(idx) =>
      if |m.stack| > 0 {
        WriteSlotOuter(m.frames, idx, m.stack[|m.stack| - 1]);
      }
    case _ =>
      OtherKeepFrames(code, names, fns, h, ip, m, fuel);
  }

  lemma WriteSlotOuter(frames: seq<seq<Value>>, idx: nat, v: Value)
    ensures var r := WriteSlot(frames, idx, v);
      |r| == |frames| && (|frames| > 0 ==> r[..|r| - 1] == frames[..|frames| - 1])
  {
    var r := WriteSlot(frames, idx, v);
    if |frames| > 0 {
      assert r[..|r| - 1] == frames[..|frames| - 1];
    }
  }

  /** Every instruction other than calls and stores leaves the frames alone. */
  lemma OtherKeepFrames(code: seq<Instr>, names: seq<string>, fns: map<string, FunctionBytecode>, h: Host,
                        ip: nat, m: Machine, fuel: nat)
    requires ip < |code| && !code[ip].CallFn? && !code[ip].StoreVar? && !code[ip].StoreLocal?
    ensures var s := ExecInstr(code, names, fns, h, ip, m, fuel);
      (s.Continue? || s.Finish?) ==> s.m.frames == m.frames
  {
  }

  lemma {:induction false} CallRestoresFrames(f: FunctionBytecode, argc: nat, fns: map<string, FunctionBytecode>, h: Host,
                                              m: Machine, fuel: nat)
    ensures var r := CallFunction(f, argc, fns, h, m, fuel);
      r.Returned? ==> r.m.frames == m.frames && |r.m.stack| > 0 && r.m.stack[|r.m.stack| - 1] == r.value
    decreases fuel, 1
  {
    match PopN(m.stack, argc)
    case Err(e) =>
    case Ok((args, rest)) =>
      var frame := BindArgs(seq(|f.locals|, _ => Null), args, |f.params|);
      var m0 := m.(stack := rest, frames := m.frames + [frame]);
      ExecKeepsFrames(f.code, f.locals, fns, h, 0, m0, fuel);
      var r := ExecCode(f.code, f.locals, fns, h, 0, m0, fuel);
      if r.Returned? {
        assert m0.frames[..|m0.frames| - 1] == m.frames;
      }
  }

  /** The callee's frame: argument `i` in slot `i` for each parameter that got an argument, Null elsewhere. */
  lemma CallFrameLayout(f: FunctionBytecode, args: seq<Value>, i: nat)
    requires i < |f.locals|
    ensures BindArgs(seq(|f.locals|, _ => Null), args, |f.params|)[i]
      == if i < |args| && i < |f.params| then args[i] else Null
  {
  }

  /** A whole program runs in the single frame of main: a returning run ends with exactly that one frame. */
  lemma RunProgramOneFrame(p: Program, h: Host, fuel: nat)
    ensures var r := RunProgram(p, h, fuel);
            r.Returned? ==> |r.m.frames| == 1
  {
    ExecKeepsFrames(p.main, p.mainLocals, p.functions, h, 0, Machine([seq(|p.mainLocals|, _ => Null)], [], [], 0), fuel);
  }
}
