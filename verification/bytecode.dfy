/**
 * The bytecode instruction set of the naux-lang VM (vm/bytecode.rs) and its
 * disassembler. Float constants are printed by the host's `{}` rendering,
 * which is a parameter.
 */
module Bytecode {
  import opened Wrappers
  import opened Strings
  import Ast

  datatype Instr =
    | ConstNum(n: real)
    | ConstText(s: string)
    | ConstBool(b: bool)
    | PushNull
    | LoadVar(name: string)
    | StoreVar(name: string)
    | LoadLocal(slot: nat)
    | StoreLocal(slot: nat)
    | Add | Sub | Mul | Div | Mod
    | Eq | Ne | Gt | Ge | Lt | Le
    | And | Or
    | Jump(target: nat)
    | JumpIfFalse(target: nat)
    | CallBuiltin(name: string, argc: nat)
    | CallFn(name: string, argc: nat)
    | MakeList(count: nat)
    | MakeMap(keys: seq<string>)
    | LoadField(field: string)
    | EmitSay | EmitAsk | EmitFetch
    | EmitUi(kind: string)
    | EmitText | EmitButton | EmitLog
    | Return

  /** How many values the instruction takes off the operand stack. */
  function Pops(i: Instr): nat
  {
    match i
    case StoreVar(_) => 1
    case StoreLocal(_) => 1
    case Add => 2
    case Sub => 2
    case Mul => 2
    case Div => 2
    case Mod => 2
    case Eq => 2
    case Ne => 2
    case Gt => 2
    case Ge => 2
    case Lt => 2
    case Le => 2
    case And => 2
    case Or => 2
    case JumpIfFalse(_) => 1
    case CallBuiltin(_, argc) => argc
    case CallFn(_, argc) => argc
    case MakeList(n) => n
    case MakeMap(keys) => |keys|
    case LoadField(_) => 1
    case EmitSay => 1
    case EmitAsk => 1
    case EmitFetch => 1
    case EmitText => 1
    case EmitButton => 1
    case EmitLog => 1
    case _ => 0
  }

  /** How many values the instruction leaves on the operand stack after its pops. */
  function Pushes(i: Instr): nat
  {
    match i
    case ConstNum(_) => 1
    case ConstText(_) => 1
    case ConstBool(_) => 1
    case PushNull => 1
    case LoadVar(_) => 1
    case LoadLocal(_) => 1
    case Add => 1
    case Sub => 1
    case Mul => 1
    case Div => 1
    case Mod => 1
    case Eq => 1
    case Ne => 1
    case Gt => 1
    case Ge => 1
    case Lt => 1
    case Le => 1
    case And => 1
    case Or => 1
    case CallBuiltin(_, _) => 1
    case CallFn(_, _) => 1
    case MakeList(_) => 1
    case MakeMap(_) => 1
    case LoadField(_) => 1
    case _ => 0
  }

  /** A compiled function: `locals` lists the parameters first, then the other locals. */
  datatype FunctionBytecode = FunctionBytecode(
    params: seq<string>, locals: seq<string>, code: seq<Instr>, spans: seq<Option<Ast.Span>>)

  datatype Program = Program(
    main: seq<Instr>, mainLocals: seq<string>, mainSpans: seq<Option<Ast.Span>>,
    functions: map<string, FunctionBytecode>)

  function BoolText(b: bool): string { if b then "true" else "false" }

  /** `fmt_instr_bc`. */
  function FmtInstrBc(i: Instr, showFloat: real -> string): string
  {
    match i
    case ConstNum(n) => "ConstNum " + showFloat(n)
    case ConstText(s) => "ConstText \"" + s + "\""
    case ConstBool(b) => "ConstBool " + BoolText(b)
    case PushNull => "PushNull"
    case LoadVar(v) => "LoadVar " + v
    case StoreVar(v) => "StoreVar " + v
    case Add => "Add"
    case Sub => "Sub"
    case Mul => "Mul"
    case Div => "Div"
    case Mod => "Mod"
    case Eq => "Eq"
    case Ne => "Ne"
    case Gt => "Gt"
    case Ge => "Ge"
    case Lt => "Lt"
    case Le => "Le"
    case And => "And"
    case Or => "Or"
    case Jump(t) => "Jump " + NatToString(t)
    case JumpIfFalse(t) => "JumpIfFalse " + NatToString(t)
    case CallBuiltin(n, a) => "CallBuiltin " + n + " argc=" + NatToString(a)
    case CallFn(n, a) => "CallFn " + n + " argc=" + NatToString(a)
    case MakeList(n) => "MakeList " + NatToString(n)
    case MakeMap(keys) => "MakeMap [" + Join(keys, ",") + "]"
    case LoadField(f) => "LoadField " + f
    case EmitSay => "EmitSay"
    case EmitAsk => "EmitAsk"
    case EmitFetch => "EmitFetch"
    case EmitUi(k) => "EmitUi " + k
    case EmitText => "EmitText"
    case EmitButton => "EmitButton"
    case EmitLog => "EmitLog"
    case Return => "Return"
    case LoadLocal(idx) => "LoadLocal " + NatToString(idx)
    case StoreLocal(idx) => "StoreLocal " + NatToString(idx)
  }

  /** One line of `disasm_block`: two spaces, the padded index, a colon, the instruction. */
  function BlockLine(idx: nat, i: Instr, showFloat: real -> string): string
  {
    "  " + Pad4(idx) + ": " + FmtInstrBc(i, showFloat) + "\n"
  }

  /** The lines of `disasm_block` for `code`, numbered from `base`. */
  function BlockLines(code: seq<Instr>, base: nat, showFloat: real -> string): (r: seq<string>)
    ensures |r| == |code|
  {
    if |code| == 0 then [] else [BlockLine(base, code[0], showFloat)] + BlockLines(code[1..], base + 1, showFloat)
  }

  /** Line `k` of a block is instruction `k`, numbered `base + k`. */
  lemma {:induction false} BlockLinesAt(code: seq<Instr>, base: nat, showFloat: real -> string, k: nat)
    requires k < |code|
    ensures BlockLines(code, base, showFloat)[k] == BlockLine(base + k, code[k], showFloat)
  {
    if k > 0 {
      BlockLinesAt(code[1..], base + 1, showFloat, k - 1);
    }
  }

  /** Renumbering: the lines of `a + b` are those of `a` followed by those of `b` numbered after `a`. */
  lemma {:induction false} BlockLinesAppend(a: seq<Instr>, b: seq<Instr>, base: nat, showFloat: real -> string)
    ensures BlockLines(a + b, base, showFloat) == BlockLines(a, base, showFloat) + BlockLines(b, base + |a|, showFloat)
  {
    if |a| > 0 {
      assert (a + b)[1..] == a[1..] + b;
      BlockLinesAppend(a[1..], b, base + 1, showFloat);
    } else {
      assert a + b == b;
    }
  }

  /** `disasm_block`. */
  function DisasmBlock(code: seq<Instr>, showFloat: real -> string): string
  {
    Concat(BlockLines(code, 0, showFloat))
  }

  /** Disassembling two pieces one after the other is disassembling their concatenation, with the second renumbered. */
  lemma {:induction false} DisasmSplit(a: seq<Instr>, b: seq<Instr>, showFloat: real -> string)
    ensures DisasmBlock(a + b, showFloat) == DisasmBlock(a, showFloat) + Concat(BlockLines(b, |a|, showFloat))
  {
    BlockLinesAppend(a, b, 0, showFloat);
    ConcatAppend(BlockLines(a, 0, showFloat), BlockLines(b, |a|, showFloat));
  }

  /** `ip.saturating_sub(window)` and `min(len, ip + window + 1)`: the index range `disasm_window` shows. */
  function WindowStart(ip: nat, window: nat): nat { if ip >= window then ip - window else 0 }

  function WindowEnd(len: nat, ip: nat, window: nat): nat { if ip + window + 1 < len then ip + window + 1 else len }

  /** The lines of `disasm_window` from index `idx` up to `end`. */
  function WindowLines(code: seq<Instr>, ip: nat, idx: nat, end: nat, showFloat: real -> string): (r: seq<string>)
    requires end <= |code|
    decreases end - idx
    ensures |r| == if idx < end then end - idx else 0
  {
    if idx >= end then []
    else
      [MarkerOf(idx, ip) + (" " + Pad4(idx) + ": " + FmtInstrBc(code[idx], showFloat) + "\n")]
        + WindowLines(code, ip, idx + 1, end, showFloat)
  }

  /** `disasm_window`. */
  function DisasmWindow(code: seq<Instr>, ip: nat, window: nat, showFloat: real -> string): string
  {
    Concat(WindowLines(code, ip, WindowStart(ip, window), WindowEnd(|code|, ip, window), showFloat))
  }

  predicate Marked(line: string) { |line| >= 3 && line[..3] == "-->" }

  /** The marker column of a window line. */
  function MarkerOf(idx: nat, ip: nat): string { if idx == ip then "-->" else "   " }

  lemma MarkedPrefix(p: string, rest: string)
    requires |p| == 3
    ensures Marked(p + rest) == (p == "-->")
  {
    assert (p + rest)[..3] == p;
  }

  function CountMarked(lines: seq<string>): nat
  {
    if |lines| == 0 then 0 else (if Marked(lines[0]) then 1 else 0) + CountMarked(lines[1..])
  }

  /**
   * The window shows the instructions from `max(0, ip - w)` to
   * `min(len, ip + w + 1) - 1`, every index in range, each exactly once in
   * order; exactly one line carries the marker when `ip` is in the code,
   * and it is the line for `ip`.
   */
  lemma {:induction false} WindowShape(code: seq<Instr>, ip: nat, idx: nat, end: nat, showFloat: real -> string)
    requires end <= |code|
    requires idx <= ip + 1
    ensures var r := WindowLines(code, ip, idx, end, showFloat);
      && (forall k :: 0 <= k < |r| ==> idx + k < |code| && Marked(r[k]) == (idx + k == ip))
      && CountMarked(r) == (if idx <= ip < end then 1 else 0)
    decreases end - idx
  {
    if idx < end {
      var r := WindowLines(code, ip, idx, end, showFloat);
      MarkedPrefix(MarkerOf(idx, ip), " " + Pad4(idx) + ": " + FmtInstrBc(code[idx], showFloat) + "\n");
      if idx + 1 <= ip + 1 {
        WindowShape(code, ip, idx + 1, end, showFloat);
      } else {
        WindowPastIp(code, ip, idx + 1, end, showFloat);
      }
      assert r[1..] == WindowLines(code, ip, idx + 1, end, showFloat);
    }
  }

  lemma {:induction false} WindowPastIp(code: seq<Instr>, ip: nat, idx: nat, end: nat, showFloat: real -> string)
    requires end <= |code| && idx > ip
    ensures var r := WindowLines(code, ip, idx, end, showFloat);
      && (forall k :: 0 <= k < |r| ==> idx + k < |code| && !Marked(r[k]))
      && CountMarked(r) == 0
    decreases end - idx
  {
    if idx < end {
      WindowPastIp(code, ip, idx + 1, end, showFloat);
      MarkedPrefix(MarkerOf(idx, ip), " " + Pad4(idx) + ": " + FmtInstrBc(code[idx], showFloat) + "\n");
      var r := WindowLines(code, ip, idx, end, showFloat);
      assert r[1..] == WindowLines(code, ip, idx + 1, end, showFloat);
    }
  }

  /** The whole window: its size, and the single marked line exactly when `ip` indexes the code. */
  lemma DisasmWindowSpec(code: seq<Instr>, ip: nat, window: nat, showFloat: real -> string)
    ensures var lo := WindowStart(ip, window);
      var hi := WindowEnd(|code|, ip, window);
      var r := WindowLines(code, ip, lo, hi, showFloat);
      && |r| == (if lo < hi then hi - lo else 0)
      && CountMarked(r) == (if ip < |code| then 1 else 0)
  {
    WindowShape(code, ip, WindowStart(ip, window), WindowEnd(|code|, ip, window), showFloat);
  }

  /** The disassembly test: a window of 1 around ip 2 of five instructions marks `--> 0002: Add`. */
  lemma WindowExample(showFloat: real -> string)
    ensures var code := [ConstNum(1.0), ConstNum(2.0), Add, EmitSay, Return];
      WindowLines(code, 2, 1, 4, showFloat)[1] == "--> 0002: Add\n"
  {
    assert Pad4(2) == "0002" by {
      assert NatToString(2) == "2";
      assert Zeros(3) == "000";
    }
  }
}
