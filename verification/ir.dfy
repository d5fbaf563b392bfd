/**
 * The intermediate representation of the naux-lang compiler (vm/ir.rs):
 * the stack-machine instruction set before local slots are assigned, and
 * its printers. The printers share their text with the bytecode
 * disassembler, which is stated as a lemma.
 */
module IR {
  import opened Wrappers
  import opened Strings
  import Ast
  import B = Bytecode

  datatype IRInstr =
    | ConstNum(n: real)
    | ConstText(s: string)
    | ConstBool(b: bool)
    | PushNull
    | LoadVar(name: string)
    | StoreVar(name: string)
    | Add | Sub | Mul | Div | Mod
    | Eq | Ne | Gt | Ge | Lt | Le
    | And | Or
    | Jump(target: nat)
    | JumpIfFalse(target: nat)
    | CallBuiltin(name: string, argc: nat)
    | CallFn(name: string, argc: nat)
    | MakeList(count: nat)
    | MakeMap(keys: seq<string>)
    | LoadField(field: string)
    | EmitSay | EmitAsk | EmitFetch
    | EmitUi(kind: string)
    | EmitText | EmitButton | EmitLog
    | Return

  datatype IRNode = IRNode(instr: IRInstr, span: Option<Ast.Span>)

  datatype IRFunction = IRFunction(params: seq<string>, code: seq<IRNode>)

  datatype IRProgram = IRProgram(main: seq<IRNode>, functions: map<string, IRFunction>)

  /** `IRNode::new`. */
  function NewNode(instr: IRInstr, span: Option<Ast.Span>): (n: IRNode)
    ensures n.instr == instr && n.span == span
  {
    IRNode(instr, span)
  }

  /** The bytecode instruction with the same name and operands. */
  function ToBc(i: IRInstr): (b: B.Instr)
    ensures !b.LoadLocal? && !b.StoreLocal?
  {
    match i
    case ConstNum(n) => B.ConstNum(n)
    case ConstText(s) => B.ConstText(s)
    case ConstBool(b) => B.ConstBool(b)
    case PushNull => B.PushNull
    case LoadVar(v) => B.LoadVar(v)
    case StoreVar(v) => B.StoreVar(v)
    case Add => B.Add
    case Sub => B.Sub
    case Mul => B.Mul
    case Div => B.Div
    case Mod => B.Mod
    case Eq => B.Eq
    case Ne => B.Ne
    case Gt => B.Gt
    case Ge => B.Ge
    case Lt => B.Lt
    case Le => B.Le
    case And => B.And
    case Or => B.Or
    case Jump(t) => B.Jump(t)
    case JumpIfFalse(t) => B.JumpIfFalse(t)
    case CallBuiltin(n, a) => B.CallBuiltin(n, a)
    case CallFn(n, a) => B.CallFn(n, a)
    case MakeList(n) => B.MakeList(n)
    case MakeMap(keys) => B.MakeMap(keys)
    case LoadField(f) => B.LoadField(f)
    case EmitSay => B.EmitSay
    case EmitAsk => B.EmitAsk
    case EmitFetch => B.EmitFetch
    case EmitUi(k) => B.EmitUi(k)
    case EmitText => B.EmitText
    case EmitButton => B.EmitButton
    case EmitLog => B.EmitLog
    case Return => B.Return
  }

  /** `fmt_instr`. */
  function FmtInstr(i: IRInstr, showFloat: real -> string): string
  {
    match i
    case ConstNum(n) => "ConstNum " + showFloat(n)
    case ConstText(s) => "ConstText \"" + s + "\""
    case ConstBool(b) => "ConstBool " + B.BoolText(b)
    case PushNull => "PushNull"
    case LoadVar(v) => "LoadVar " + v
    case StoreVar(v) => "StoreVar " + v
    case Add => "Add"
    case Sub => "Sub"
    case Mul => "Mul"
    case Div => "Div"
    case Mod => "Mod"
    case Eq => "Eq"
    case Ne => "Ne"
    case Gt => "Gt"
    case Ge => "Ge"
    case Lt => "Lt"
    case Le => "Le"
    case And => "And"
    case Or => "Or"
    case Jump(t) => "Jump " + NatToString(t)
    case JumpIfFalse(t) => "JumpIfFalse " + NatToString(t)
    case CallBuiltin(n, a) => "CallBuiltin " + n + " argc=" + NatToString(a)
    case CallFn(n, a) => "CallFn " + n + " argc=" + NatToString(a)
    case MakeList(n) => "MakeList " + NatToString(n)
    case MakeMap(keys) => "MakeMap [" + Join(keys, ",") + "]"
    case LoadField(f) => "LoadField " + f
    case EmitSay => "EmitSay"
    case EmitAsk => "EmitAsk"
    case EmitFetch => "EmitFetch"
    case EmitUi(k) => "EmitUi " + k
    case EmitText => "EmitText"
    case EmitButton => "EmitButton"
    case EmitLog => "EmitLog"
    case Return => "Return"
  }

  /** Both printers give every shared instruction the same text. */
  lemma FmtAgrees(i: IRInstr, showFloat: real -> string)
    ensures FmtInstr(i, showFloat) == B.FmtInstrBc(ToBc(i), showFloat)
  {
    if Carries(i) {
      FmtAgreesOperand(i, showFloat);
    } else {
      FmtAgreesPlain(i, showFloat);
    }
  }

  /** Instructions with an operand. */
  predicate Carries(i: IRInstr)
  {
    || i.ConstNum? || i.ConstText? || i.ConstBool? || i.LoadVar? || i.StoreVar? || i.Jump? || i.JumpIfFalse?
    || i.CallBuiltin? || i.CallFn? || i.MakeList? || i.MakeMap? || i.LoadField? || i.EmitUi?
  }

  lemma FmtAgreesOperand(i: IRInstr, showFloat: real -> string)
    requires Carries(i)
    ensures FmtInstr(i, showFloat) == B.FmtInstrBc(ToBc(i), showFloat)
  {
  }

  lemma FmtAgreesPlain(i: IRInstr, showFloat: real -> string)
    requires !Carries(i)
    ensures FmtInstr(i, showFloat) == B.FmtInstrBc(ToBc(i), showFloat)
  {
  }

  /** The lines `dump_block` writes for `block`, numbered from `base`. */
  function DumpLines(block: seq<IRNode>, base: nat, showFloat: real -> string): (r: seq<string>)
    ensures |r| == |block|
  {
    if |block| == 0 then []
    else
      ["  " + Pad4(base) + ": " + FmtInstr(block[0].instr, showFloat) + "\n"] + DumpLines(block[1..], base + 1, showFloat)
  }

  /** `dump_block`. */
  function DumpBlock(block: seq<IRNode>, showFloat: real -> string): string
  {
    Concat(DumpLines(block, 0, showFloat))
  }

  function Instrs(block: seq<IRNode>): (r: seq<B.Instr>)
    ensures |r| == |block|
    ensures forall k :: 0 <= k < |block| ==> r[k] == ToBc(block[k].instr)
  {
    if |block| == 0 then [] else [ToBc(block[0].instr)] + Instrs(block[1..])
  }

  /**
   * `dump_block` of an IR block writes exactly what `disasm_block` writes
   * for the same instructions in bytecode: one `  NNNN: mnemonic` line per
   * node, in order.
   */
  lemma {:induction false} DumpMatchesDisasm(block: seq<IRNode>, base: nat, showFloat: real -> string)
    ensures DumpLines(block, base, showFloat) == B.BlockLines(Instrs(block), base, showFloat)
  {
    if |block| > 0 {
      FmtAgrees(block[0].instr, showFloat);
      assert Instrs(block)[1..] == Instrs(block[1..]);
      DumpMatchesDisasm(block[1..], base + 1, showFloat);
    }
  }

  /** The header `fn name(p1, p2):`. */
  function Header(name: string, params: seq<string>): string
  {
    "fn " + name + "(" + Join(params, ", ") + "):\n"
  }

  /** `disasm_function`: the header and then one line per node. */
  function DisasmFunctionLines(name: string, f: IRFunction, showFloat: real -> string): (r: seq<string>)
    ensures |r| == 1 + |f.code|
    ensures r[0] == Header(name, f.params) && r[1..] == DumpLines(f.code, 0, showFloat)
  {
    [Header(name, f.params)] + DumpLines(f.code, 0, showFloat)
  }

  function DisasmFunction(name: string, f: IRFunction, showFloat: real -> string): string
  {
    Concat(DisasmFunctionLines(name, f, showFloat))
  }

  /** The lines for the functions named in `order`, each disassembled in turn. */
  function FunctionsLines(order: seq<string>, fs: map<string, IRFunction>, showFloat: real -> string): seq<string>
    requires forall k :: 0 <= k < |order| ==> order[k] in fs
  {
    if |order| == 0 then []
    else DisasmFunctionLines(order[0], fs[order[0]], showFloat) + FunctionsLines(order[1..], fs, showFloat)
  }

  /**
   * `pretty_print_ir`. The functions are printed in the host map's
   * iteration order, which is a parameter: any listing of the keys, each once.
   */
  function PrettyPrintLines(p: IRProgram, order: seq<string>, showFloat: real -> string): (r: seq<string>)
    requires forall k :: 0 <= k < |order| ==> order[k] in p.functions
    ensures |r| >= 1 + |p.main| && r[0] == "fn main:\n"
    ensures r[1..1 + |p.main|] == DumpLines(p.main, 0, showFloat)
  {
    ["fn main:\n"] + DumpLines(p.main, 0, showFloat) + FunctionsLines(order, p.functions, showFloat)
  }

  function PrettyPrintIr(p: IRProgram, order: seq<string>, showFloat: real -> string): string
    requires forall k :: 0 <= k < |order| ==> order[k] in p.functions
  {
    Concat(PrettyPrintLines(p, order, showFloat))
  }

  /** A listing of the map's keys: each key exactly once. */
  predicate IsOrder(order: seq<string>, fs: map<string, IRFunction>)
  {
    (forall k :: 0 <= k < |order| ==> order[k] in fs)
    && multiset(order) == multiset(fs.Keys)
  }

  /** The number of lines the functions in `order` take: a header plus one per node each. */
  function Size(order: seq<string>, fs: map<string, IRFunction>): nat
    requires forall k :: 0 <= k < |order| ==> order[k] in fs
  {
    if |order| == 0 then 0 else 1 + |fs[order[0]].code| + Size(order[1..], fs)
  }

  lemma {:induction false} FunctionsLinesCount(order: seq<string>, fs: map<string, IRFunction>, showFloat: real -> string)
    requires forall k :: 0 <= k < |order| ==> order[k] in fs
    ensures |FunctionsLines(order, fs, showFloat)| == Size(order, fs)
  {
    if |order| > 0 {
      FunctionsLinesCount(order[1..], fs, showFloat);
    }
  }

  lemma {:induction false} SizeRemove(order: seq<string>, fs: map<string, IRFunction>, j: nat)
    requires forall k :: 0 <= k < |order| ==> order[k] in fs
    requires j < |order|
    ensures Size(order, fs) == 1 + |fs[order[j]].code| + Size(Remove(order, j), fs)
  {
    if j > 0 {
      var rest := order[1..];
      SizeRemove(rest, fs, j - 1);
      assert Remove(order, j) == [order[0]] + Remove(rest, j - 1);
    } else {
      assert Remove(order, j) == order[1..];
    }
  }

  lemma {:induction false} SizePermutation(a: seq<string>, b: seq<string>, fs: map<string, IRFunction>)
    requires forall k :: 0 <= k < |a| ==> a[k] in fs
    requires forall k :: 0 <= k < |b| ==> b[k] in fs
    requires multiset(a) == multiset(b)
    ensures Size(a, fs) == Size(b, fs)
    decreases |a|
  {
    if |a| == 0 {
      assert |b| == |multiset(b)| == 0;
    } else {
      var j := Occurrence(b, a[0]);
      var b' := Remove(b, j);
      assert multiset(a[1..]) == multiset(b') by {
        RemoveMultiset(b, j);
        RemoveMultiset(a, 0);
        assert a[1..] == Remove(a, 0);
      }
      SizePermutation(a[1..], b', fs);
      SizeRemove(b, fs, j);
    }
  }

  /** A position of x in b, given that x occurs in b. */
  lemma Occurrence(b: seq<string>, x: string) returns (j: nat)
    requires x in multiset(b)
    ensures j < |b| && b[j] == x
  {
    assert x in b;
    j :| 0 <= j < |b| && b[j] == x;
  }

  function Remove(s: seq<string>, j: nat): (r: seq<string>)
    requires j < |s|
    ensures |r| == |s| - 1
    ensures forall k :: 0 <= k < |r| ==> r[k] == if k < j then s[k] else s[k + 1]
  {
    s[..j] + s[j + 1..]
  }

  lemma RemoveMultiset(s: seq<string>, j: nat)
    requires j < |s|
    ensures multiset(Remove(s, j)) == multiset(s) - multiset{s[j]}
  {
    assert s == s[..j] + [s[j]] + s[j + 1..];
  }

  /**
   * However the host map orders its functions, the listing has one line
   * for the main header, one per main node, and for every function a
   * header and one line per node; two orders give the same line count.
   */
  lemma PrettyPrintLineCount(p: IRProgram, order: seq<string>, other: seq<string>, showFloat: real -> string)
    requires IsOrder(order, p.functions) && IsOrder(other, p.functions)
    ensures |PrettyPrintLines(p, order, showFloat)| == 1 + |p.main| + Size(order, p.functions)
    ensures |PrettyPrintLines(p, order, showFloat)| == |PrettyPrintLines(p, other, showFloat)|
  {
    FunctionsLinesCount(order, p.functions, showFloat);
    FunctionsLinesCount(other, p.functions, showFloat);
    SizePermutation(order, other, p.functions);
  }

  /** Every function's header appears in the listing. */
  lemma {:induction false} HeaderListed(order: seq<string>, fs: map<string, IRFunction>, showFloat: real -> string, k: nat)
    requires forall i :: 0 <= i < |order| ==> order[i] in fs
    requires k < |order|
    ensures Header(order[k], fs[order[k]].params) in FunctionsLines(order, fs, showFloat)
  {
    var x := Header(order[k], fs[order[k]].params);
    var first := DisasmFunctionLines(order[0], fs[order[0]], showFloat);
    var rest := FunctionsLines(order[1..], fs, showFloat);
    assert FunctionsLines(order, fs, showFloat) == first + rest;
    if k == 0 {
      assert x == first[0];
    } else {
      HeaderListed(order[1..], fs, showFloat, k - 1);
      assert order[1..][k - 1] == order[k];
      assert x in rest;
    }
  }
}
