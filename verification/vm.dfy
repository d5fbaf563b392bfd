/**
 * The stack machine of naux-lang (vm/interpreter.rs) without its JIT: one
 * operand stack shared by all calls, a stack of frames of local slots, and
 * the event log. Heap objects the machine creates get fresh identities from
 * a counter. Builtins, the rendering of values in events and the oracle
 * answering `ask` are host parameters. Termination is by fuel: every
 * executed instruction costs one unit, and running out is its own outcome.
 */
module Vm {
  import opened Wrappers
  import opened VmValue
  import opened Bytecode
  import SV = ScriptValue

  const I64Max: int := 0x7fff_ffff_ffff_ffff
  const I64Min: int := -0x8000_0000_0000_0000

  datatype VmEvent =
    | SayEvent(text: string)
    | AskEvent(prompt: string, answer: string)
    | FetchEvent(target: string)
    | UiEvent(kind: string)
    | TextEvent(text: string)
    | ButtonEvent(text: string)
    | LogEvent(text: string)

  datatype Host = Host(
    builtins: map<string, seq<Value> -> Result<Value, string>>,
    format: Value -> string,
    oracle: string -> string)

  datatype Machine = Machine(frames: seq<seq<Value>>, stack: seq<Value>, events: seq<VmEvent>, nextId: nat)

  datatype Outcome =
    | Returned(value: Value, m: Machine)
    | Failed(msg: string)
    | OutOfFuel

  datatype Step =
    | Continue(ip: nat, m: Machine)
    | Finish(value: Value, m: Machine)
    | Stop(msg: string)
    | Exhausted

  /** `pop`: the top of the stack and the rest, or "Stack underflow". */
  function Pop(stack: seq<Value>): (r: Result<(Value, seq<Value>), string>)
    ensures |stack| == 0 <==> r == Err("Stack underflow")
    ensures |stack| > 0 ==> r.Ok? && r.value.0 == stack[|stack| - 1] && r.value.1 == stack[..|stack| - 1]
  {
    if |stack| == 0 then Err("Stack underflow") else Ok((stack[|stack| - 1], stack[..|stack| - 1]))
  }

  /** `pop` applied `n` times, the popped values put back in the order they were pushed. */
  function PopN(stack: seq<Value>, n: nat): (r: Result<(seq<Value>, seq<Value>), string>)
    ensures n <= |stack| ==> r == Ok((stack[|stack| - n..], stack[..|stack| - n]))
    ensures n > |stack| ==> r == Err("Stack underflow")
  {
    if n == 0 then
      assert stack[|stack|..] == [] && stack[..|stack|] == stack;
      Ok(([], stack))
    else
      var (top, rest) :- Pop(stack);
      var (more, base) :- PopN(rest, n - 1);
      assert rest[|rest| - (n - 1)..] + [top] == stack[|stack| - n..];
      assert rest[..|rest| - (n - 1)] == stack[..|stack| - n];
      Ok((more + [top], base))
  }

  /** `load_local`: slot `idx` of the innermost frame, Null when there is none. */
  function ReadSlot(frames: seq<seq<Value>>, idx: nat): (v: Value)
    ensures |frames| > 0 && idx < |frames[|frames| - 1]| ==> v == frames[|frames| - 1][idx]
    ensures |frames| == 0 || idx >= |frames[|frames| - 1]| ==> v == Null
  {
    if |frames| > 0 && idx < |frames[|frames| - 1]| then frames[|frames| - 1][idx] else Null
  }

  /** `store_local`: writes slot `idx` of the innermost frame when it exists, else nothing. */
  function WriteSlot(frames: seq<seq<Value>>, idx: nat, v: Value): (r: seq<seq<Value>>)
    ensures |r| == |frames|
    ensures forall j :: 0 <= j < |frames| - 1 ==> r[j] == frames[j]
    ensures |frames| > 0 ==> |r[|r| - 1]| == |frames[|frames| - 1]|
    ensures |frames| > 0 && idx < |frames[|frames| - 1]| ==> r[|r| - 1] == frames[|frames| - 1][idx := v]
    ensures |frames| == 0 || idx >= |frames[|frames| - 1]| ==> r == frames
  {
    if |frames| > 0 && idx < |frames[|frames| - 1]| then
      frames[|frames| - 1 := frames[|frames| - 1][idx := v]]
    else frames
  }

  /** The first position of `name` in `names`. */
  function Position(names: seq<string>, name: string): (r: Option<nat>)
    ensures r.Some? ==> (r.value < |names| && names[r.value] == name
                         && forall j :: 0 <= j < r.value ==> names[j] != name)
    ensures r.None? ==> name !in names
  {
    if |names| == 0 then None
    else if names[0] == name then Some(0)
    else match Position(names[1..], name)
      case Some(j) => Some(j + 1)
      case None => None
  }

  /** Rust's `as i64` on an integral float: saturating at the i64 bounds. */
  function SatI64(n: int): (r: int)
    ensures I64Min <= r <= I64Max
    ensures I64Min <= n <= I64Max ==> r == n
  {
    if n > I64Max then I64Max else if n < I64Min then I64Min else n
  }

  /** `ConstNum`: an integral constant becomes a SmallInt, any other a Float. */
  function NumConst(n: real): (v: Value)
    ensures SV.Abs(n - SV.Trunc(n) as real) < Epsilon ==> v == SmallInt(SatI64(SV.Trunc(n)))
    ensures SV.Abs(n - SV.Trunc(n) as real) >= Epsilon ==> v == Float(n)
  {
    if SV.Abs(n - SV.Trunc(n) as real) < Epsilon then SmallInt(SatI64(SV.Trunc(n))) else Float(n)
  }

  /** The `%` of i64: the remainder of a truncating division, with the sign of the dividend. */
  function IntRem(a: int, b: int): (r: int)
    requires b != 0
    ensures a >= 0 ==> 0 <= r < (if b > 0 then b else -b)
    ensures a < 0 ==> -(if b > 0 then b else -b) < r <= 0
  {
    var m := if b > 0 then b else -b;
    if a >= 0 then a % m else -((-a) % m)
  }

  datatype ArithOp = AddOp | SubOp | MulOp | DivOp | ModOp

  /**
   * `num_bin`: rhs is popped first, then lhs. Two SmallInts use the integer
   * operation (Div has none and always goes the float way); any other pair
   * of numbers the float operation; anything else is a type error. A zero
   * divisor, which panics (integers) or gives a non-finite float on the
   * host, is an error here.
   */
  function NumBin(op: ArithOp, stack: seq<Value>): (r: Result<seq<Value>, string>)
    ensures |stack| < 2 ==> r == Err("Stack underflow")
    ensures |stack| >= 2 && !(IsNumber(stack[|stack| - 1]) && IsNumber(stack[|stack| - 2])) ==>
      r == Err("Type error in binary op")
    ensures r.Ok? ==> |stack| >= 2 && |r.value| == |stack| - 1 && r.value[..|stack| - 2] == stack[..|stack| - 2]
  {
    var (rhs, s1) :- Pop(stack);
    var (lhs, s2) :- Pop(s1);
    if lhs.SmallInt? && rhs.SmallInt? && op != DivOp then
      match op
      case AddOp => Ok(s2 + [SmallInt(lhs.i + rhs.i)])
      case SubOp => Ok(s2 + [SmallInt(lhs.i - rhs.i)])
      case MulOp => Ok(s2 + [SmallInt(lhs.i * rhs.i)])
      case ModOp => if rhs.i == 0 then Err("integer modulo by zero") else Ok(s2 + [SmallInt(IntRem(lhs.i, rhs.i))])
    else if IsNumber(lhs) && IsNumber(rhs) then
      var a := AsF64(lhs).value;
      var b := AsF64(rhs).value;
      match op
      case AddOp => Ok(s2 + [Float(a + b)])
      case SubOp => Ok(s2 + [Float(a - b)])
      case MulOp => Ok(s2 + [Float(a * b)])
      case DivOp => if b == 0.0 then Err("non-finite result") else Ok(s2 + [Float(a / b)])
      case ModOp => if b == 0.0 then Err("non-finite result") else Ok(s2 + [Float(SV.FMod(a, b))])
    else Err("Type error in binary op")
  }

  datatype CmpOp = GtOp | GeOp | LtOp | LeOp

  function Compare(op: CmpOp, a: real, b: real): bool
  {
    match op
    case GtOp => a > b
    case GeOp => a >= b
    case LtOp => a < b
    case LeOp => a <= b
  }

  /** `cmp_num`: the two numbers compared as floats, or a type error. */
  function CmpNum(op: CmpOp, stack: seq<Value>): (r: Result<seq<Value>, string>)
    ensures |stack| < 2 ==> r == Err("Stack underflow")
    ensures |stack| >= 2 ==>
      var rhs := stack[|stack| - 1];
      var lhs := stack[|stack| - 2];
      if IsNumber(lhs) && IsNumber(rhs) then r == Ok(stack[..|stack| - 2] + [Bool(Compare(op, AsF64(lhs).value, AsF64(rhs).value))])
      else r == Err("Type error in numeric comparison")
  {
    var (rhs, s1) :- Pop(stack);
    var (lhs, s2) :- Pop(s1);
    assert s2 == stack[..|stack| - 2];
    if IsNumber(lhs) && IsNumber(rhs) then Ok(s2 + [Bool(Compare(op, AsF64(lhs).value, AsF64(rhs).value))])
    else Err("Type error in numeric comparison")
  }

  /** `cmp_op` for Eq/Ne and the And/Or pair: pop two, push a Bool; only underflow can fail. */
  function PopTwoPush(stack: seq<Value>, f: (Value, Value) -> bool): (r: Result<seq<Value>, string>)
    ensures |stack| < 2 <==> r.Err?
    ensures |stack| >= 2 ==> r == Ok(stack[..|stack| - 2] + [Bool(f(stack[|stack| - 2], stack[|stack| - 1]))])
  {
    var (rhs, s1) :- Pop(stack);
    var (lhs, s2) :- Pop(s1);
    assert s2 == stack[..|stack| - 2];
    Ok(s2 + [Bool(f(lhs, rhs))])
  }

  /** Rust's `as usize` on a float: saturating, with negatives going to 0. */
  function FloatIndex(n: real): nat
  {
    if n <= 0.0 then 0 else SV.Trunc(n)
  }

  function ListGet(items: seq<Value>, i: nat): Value
  {
    if i < |items| then items[i] else Null
  }

  /** The `len` fast path: size of a list, text, map, set or queue; 0 for anything else. */
  function Len(v: Value): nat
  {
    if !v.RcObj? then 0
    else match v.obj
      case List(items) => |items|
      case Text(s) => |s|
      case Map(m) => |m|
      case Set(e) => |e|
      case PriorityQueue(h) => |h|
      case _ => 0
  }

  /** The `__index` fast path: list by number, map by text, Null otherwise. */
  function Index(target: Value, key: Value): Value
  {
    if target.RcObj? && target.obj.List? && key.SmallInt? then
      (if key.i < 0 then Null else ListGet(target.obj.items, key.i))
    else if target.RcObj? && target.obj.List? && key.Float? then ListGet(target.obj.items, FloatIndex(key.f))
    else if target.RcObj? && target.obj.Map? && key.RcObj? && key.obj.Text? then
      (if key.obj.s in target.obj.entries then target.obj.entries[key.obj.s] else Null)
    else Null
  }

  /**
   * `call_builtin`: pops `argc` arguments, then `len` and `__index` take
   * their fast paths, a registered builtin is applied, and anything else is
   * "Unknown builtin". The result is pushed.
   */
  function CallBuiltin(name: string, argc: nat, stack: seq<Value>, h: Host): (r: Result<seq<Value>, string>)
    ensures argc > |stack| ==> r == Err("Stack underflow")
    ensures (argc <= |stack| && !(name == "len" && argc == 1) && !(name == "__index" && argc == 2)
             && name !in h.builtins) ==> r == Err("Unknown builtin: " + name)
    ensures r.Ok? ==> |r.value| == |stack| - argc + 1 && r.value[..|stack| - argc] == stack[..|stack| - argc]
  {
    var (args, rest) :- PopN(stack, argc);
    if name == "len" && |args| == 1 then Ok(rest + [SmallInt(Len(args[0]))])
    else if name == "__index" && |args| == 2 then Ok(rest + [Index(args[0], args[1])])
    else if name in h.builtins then
      match h.builtins[name](args)
      case Ok(v) => Ok(rest + [v])
      case Err(e) => Err("RuntimeError: " + e)
    else Err("Unknown builtin: " + name)
  }

  /** `MakeMap`: key `keys[i]` gets the `i`-th pushed value, scanning the keys from the last. */
  function PairKeys(keys: seq<string>, vals: seq<Value>): (m: map<string, Value>)
    requires |keys| == |vals|
    ensures m.Keys == set k | k in keys
  {
    if |keys| == 0 then map[]
    else PairKeys(keys[1..], vals[1..])[keys[0] := vals[0]]
  }

  function Fresh(m: Machine, o: Obj): (Value, Machine)
  {
    (RcObj(m.nextId, o), m.(nextId := m.nextId + 1))
  }

  function Emit(m: Machine, stack: seq<Value>, e: VmEvent): Machine
  {
    m.(stack := stack, events := m.events + [e])
  }

  /** A fallible pop-and-continue: the error ends the step. */
  function Lift(r: Result<seq<Value>, string>, ip: nat, m: Machine): Step
  {
    match r
    case Ok(s) => Continue(ip + 1, m.(stack := s))
    case Err(e) => Stop(e)
  }

  /** Running a function body or `main` from instruction `ip`. */
  function ExecCode(code: seq<Instr>, names: seq<string>, fns: map<string, FunctionBytecode>, h: Host,
                    ip: nat, m: Machine, fuel: nat): Outcome
    decreases fuel, 0
  {
    if ip >= |code| then
      (if |m.stack| == 0 then Returned(Null, m) else Returned(m.stack[|m.stack| - 1], m.(stack := m.stack[..|m.stack| - 1])))
    else if fuel == 0 then OutOfFuel
    else
      match ExecInstr(code, names, fns, h, ip, m, fuel - 1)
      case Continue(next, m') => ExecCode(code, names, fns, h, next, m', fuel - 1)
      case Finish(v, m') => Returned(v, m')
      case Stop(e) => Failed(e)
      case Exhausted => OutOfFuel
  }

  /** One instruction of `exec_code`. */
  function ExecInstr(code: seq<Instr>, names: seq<string>, fns: map<string, FunctionBytecode>, h: Host,
                     ip: nat, m: Machine, fuel: nat): Step
    requires ip < |code|
    decreases fuel, 2
  {
    var s := m.stack;
    match code[ip]
    case ConstNum(n) => Continue(ip + 1, m.(stack := s + [NumConst(n)]))
    case ConstText(t) =>
      var (v, m') := Fresh(m, Text(t));
      Continue(ip + 1, m'.(stack := s + [v]))
    case ConstBool(b) => Continue(ip + 1, m.(stack := s + [Bool(b)]))
    case PushNull => Continue(ip + 1, m.(stack := s + [Null]))
    case LoadVar(name) =>
      var v := match Position(names, name) case Some(i) => ReadSlot(m.frames, i) case None => Null;
      Continue(ip + 1, m.(stack := s + [v]))
    case StoreVar(name) =>
      (match Pop(s)
       case Err(e) => Stop(e)
       case Ok((v, rest)) =>
         var frames := match Position(names, name) case Some(i) => WriteSlot(m.frames, i, v) case None => m.frames;
         Continue(ip + 1, m.(stack := rest, frames := frames)))
    case LoadLocal(idx) => Continue(ip + 1, m.(stack := s + [ReadSlot(m.frames, idx)]))
    case StoreLocal(idx) =>
      (match Pop(s)
       case Err(e) => Stop(e)
       case Ok((v, rest)) => Continue(ip + 1, m.(stack := rest, frames := WriteSlot(m.frames, idx, v))))
    case Add => Lift(NumBin(AddOp, s), ip, m)
    case Sub => Lift(NumBin(SubOp, s), ip, m)
    case Mul => Lift(NumBin(MulOp, s), ip, m)
    case Div => Lift(NumBin(DivOp, s), ip, m)
    case Mod => Lift(NumBin(ModOp, s), ip, m)
    case Eq => Lift(PopTwoPush(s, (a, b) => Equals(a, b)), ip, m)
    case Ne => Lift(PopTwoPush(s, (a, b) => !Equals(a, b)), ip, m)
    case Gt => Lift(CmpNum(GtOp, s), ip, m)
    case Ge => Lift(CmpNum(GeOp, s), ip, m)
    case Lt => Lift(CmpNum(LtOp, s), ip, m)
    case Le => Lift(CmpNum(LeOp, s), ip, m)
    case And => Lift(PopTwoPush(s, (a, b) => Truthy(a) && Truthy(b)), ip, m)
    case Or => Lift(PopTwoPush(s, (a, b) => Truthy(a) || Truthy(b)), ip, m)
    case Jump(t) => Continue(t, m)
    case JumpIfFalse(t) =>
      (match Pop(s)
       case Err(e) => Stop(e)
       case Ok((c, rest)) => Continue(if Truthy(c) then ip + 1 else t, m.(stack := rest)))
    case CallBuiltin(name, argc) => Lift(CallBuiltin(name, argc, s, h), ip, m)
    case CallFn(name, argc) =>
      if name in fns then
        (match CallFunction(fns[name], argc, fns, h, m, fuel)
         case Returned(_, m') => Continue(ip + 1, m')
         case Failed(e) => Stop(e)
         case OutOfFuel => Exhausted)
      else Lift(CallBuiltin(name, argc, s, h), ip, m)
    case MakeList(n) =>
      (match PopN(s, n)
       case Err(e) => Stop(e)
       case Ok((items, rest)) =>
         var (v, m') := Fresh(m, List(items));
         Continue(ip + 1, m'.(stack := rest + [v])))
    case MakeMap(keys) =>
      (match PopN(s, |keys|)
       case Err(e) => Stop(e)
       case Ok((vals, rest)) =>
         var (v, m') := Fresh(m, Map(PairKeys(keys, vals)));
         Continue(ip + 1, m'.(stack := rest + [v])))
    case LoadField(field) =>
      (match Pop(s)
       case Err(e) => Stop(e)
       case Ok((t, rest)) =>
         var v := if t.RcObj? && t.obj.Map? && field in t.obj.entries then t.obj.entries[field] else Null;
         Continue(ip + 1, m.(stack := rest + [v])))
    case EmitSay => EmitOne(ip, m, v => SayEvent(h.format(v)))
    case EmitAsk =>
      (match Pop(s)
       case Err(e) => Stop(e)
       case Ok((v, rest)) =>
         var prompt := h.format(v);
         Continue(ip + 1, m.(stack := rest, events := m.events + [AskEvent(prompt, ""), AskEvent(prompt, h.oracle(prompt))])))
    case EmitFetch => EmitOne(ip, m, v => FetchEvent(h.format(v)))
    case EmitUi(kind) => Continue(ip + 1, m.(events := m.events + [UiEvent(kind)]))
    case EmitText => EmitOne(ip, m, v => TextEvent(h.format(v)))
    case EmitButton => EmitOne(ip, m, v => ButtonEvent(h.format(v)))
    case EmitLog => EmitOne(ip, m, v => LogEvent(h.format(v)))
    case Return =>
      if |s| == 0 then Finish(Null, m) else Finish(s[|s| - 1], m.(stack := s[..|s| - 1]))
  }

  /** Pop one value and log the event made from it. */
  function EmitOne(ip: nat, m: Machine, mk: Value -> VmEvent): Step
  {
    match Pop(m.stack)
    case Err(e) => Stop(e)
    case Ok((v, rest)) => Continue(ip + 1, Emit(m, rest, mk(v)))
  }

  /**
   * `call_function`: pops `argc` arguments, pushes a frame of Nulls sized
   * for the callee's locals, binds argument `i` to slot `i` for every
   * parameter that has an argument, runs the body, pops the frame and
   * pushes the result.
   */
  function CallFunction(f: FunctionBytecode, argc: nat, fns: map<string, FunctionBytecode>, h: Host,
                        m: Machine, fuel: nat): Outcome
    decreases fuel, 1
  {
    match PopN(m.stack, argc)
    case Err(e) => Failed(e)
    case Ok((args, rest)) =>
      var frame := BindArgs(seq(|f.locals|, _ => Null), args, |f.params|);
      match ExecCode(f.code, f.locals, fns, h, 0, m.(stack := rest, frames := m.frames + [frame]), fuel)
      case Returned(v, m') =>
        var frames := if |m'.frames| > 0 then m'.frames[..|m'.frames| - 1] else m'.frames;
        Returned(v, m'.(frames := frames, stack := m'.stack + [v]))
      case Failed(e) => Failed(e)
      case OutOfFuel => OutOfFuel
  }

  /** Slot `i` holds argument `i` for `i < min(|args|, nparams)` (and within the frame); other slots keep their value. */
  function BindArgs(frame: seq<Value>, args: seq<Value>, nparams: nat): (r: seq<Value>)
    ensures |r| == |frame|
    ensures forall i :: 0 <= i < |frame| ==> r[i] == if i < |args| && i < nparams then args[i] else frame[i]
  {
    seq(|frame|, i requires 0 <= i < |frame| => if i < |args| && i < nparams then args[i] else frame[i])
  }

  /** `run_program`: `main` with one frame of Nulls, an empty stack and no events. */
  function RunProgram(p: Program, h: Host, fuel: nat): Outcome
  {
    ExecCode(p.main, p.mainLocals, p.functions, h, 0, Machine([seq(|p.mainLocals|, _ => Null)], [], [], 0), fuel)
  }
}
