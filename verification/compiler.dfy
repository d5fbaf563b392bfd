/**
 * The naux-lang compiler (vm/compiler.rs): syntax tree to IR, the IR
 * peephole optimiser with jump remapping and reachability pruning, and the
 * lowering of IR to bytecode with local-slot allocation and a bytecode
 * peephole pass.
 *
 * Code is built by appending to one growing block, so every jump target is
 * an absolute position; here each piece of code is produced for the
 * position `base` at which it will sit.
 */
module Compiler {
  import opened Wrappers
  import A = Ast
  import opened IR
  import B = Bytecode
  import SV = ScriptValue

  const LoopRem: string := "__loop_rem__"
  const EachIter: string := "__each_iter__"
  const EachIdx: string := "__each_idx__"

  function OpInstr(op: A.BinaryOp): IRInstr
  {
    match op
    case Add => Add
    case Sub => Sub
    case Mul => Mul
    case Div => Div
    case Mod => Mod
    case Eq => Eq
    case Ne => Ne
    case Gt => Gt
    case Ge => Ge
    case Lt => Lt
    case Le => Le
    case And => And
    case Or => Or
  }

  function Keys(entries: seq<(string, A.Expr)>): (ks: seq<string>)
    ensures |ks| == |entries| && forall i :: 0 <= i < |entries| ==> ks[i] == entries[i].0
  {
    if |entries| == 0 then [] else [entries[0].0] + Keys(entries[1..])
  }

  /** `compile_expr_ir` for an expression placed at `base`. */
  function CompileExpr(e: A.Expr, base: nat): seq<IRNode>
    decreases e, 2
  {
    var sp := e.span;
    match e.kind
    case Number(n) => [IRNode(ConstNum(n), sp)]
    case Bool(b) => [IRNode(ConstBool(b), sp)]
    case Text(s) => [IRNode(ConstText(s), sp)]
    case Var(name) => [IRNode(LoadVar(name), sp)]
    case Unary(op, x) =>
      var cx := CompileExpr(x, base);
      (match op
       case Neg => cx + [IRNode(ConstNum(-1.0), sp), IRNode(Mul, sp)]
       case Not =>
         var j := base + |cx|;
         cx + [IRNode(JumpIfFalse(j + 3), sp), IRNode(ConstBool(false), sp), IRNode(Jump(j + 4), sp), IRNode(ConstBool(true), sp)])
    case Binary(op, l, r) =>
      var cl := CompileExpr(l, base);
      var cr := CompileExpr(r, base + |cl|);
      cl + cr + [IRNode(OpInstr(op), sp)]
    case Call(callee, args) =>
      var ca := CompileSeq(args, base);
      if callee.kind.Var? then ca + [IRNode(CallFn(callee.kind.name, |args|), sp)] else ca
    case Index(t, i) =>
      var ct := CompileExpr(t, base);
      var ci := CompileExpr(i, base + |ct|);
      ct + ci + [IRNode(CallBuiltin("__index", 2), sp)]
    case List(items) => CompileSeq(items, base) + [IRNode(MakeList(|items|), sp)]
    case Map(entries) => CompileEntries(e, |entries|, base) + [IRNode(MakeMap(Keys(entries)), sp)]
    case Field(t, f) => CompileExpr(t, base) + [IRNode(LoadField(f), sp)]
  }

  /** The expressions one after the other, left to right. */
  function CompileSeq(es: seq<A.Expr>, base: nat): seq<IRNode>
    decreases es, 1
  {
    if |es| == 0 then []
    else
      var c0 := CompileExpr(es[0], base);
      c0 + CompileSeq(es[1..], base + |c0|)
  }

  /** The values of the first `n` entries of a map literal, in order. */
  function CompileEntries(e: A.Expr, n: nat, base: nat): seq<IRNode>
    requires e.kind.Map? && n <= |e.kind.entries|
    decreases e, 0, n
  {
    if n == 0 then []
    else
      var pre := CompileEntries(e, n - 1, base);
      pre + CompileExpr(e.kind.entries[n - 1].1, base + |pre|)
  }

  /** `compile_action_ir`: the value, then the emitting instruction; `ui` emits its kind only. */
  function CompileAction(a: A.ActionKind, sp: Option<A.Span>, base: nat): seq<IRNode>
  {
    match a
    case Say(v) => CompileExpr(v, base) + [IRNode(EmitSay, sp)]
    case Ask(v) => CompileExpr(v, base) + [IRNode(EmitAsk, sp)]
    case Fetch(v) => CompileExpr(v, base) + [IRNode(EmitFetch, sp)]
    case Ui(kind, _) => [IRNode(EmitUi(kind), sp)]
    case TextAction(v) => CompileExpr(v, base) + [IRNode(EmitText, sp)]
    case Button(v) => CompileExpr(v, base) + [IRNode(EmitButton, sp)]
    case Log(v) => CompileExpr(v, base) + [IRNode(EmitLog, sp)]
  }

  /** `compile_stmt_ir` for a statement placed at `base`. */
  function CompileStmt(s: A.Stmt, base: nat): seq<IRNode>
    decreases s, 1
  {
    match s
    case Assign(name, expr, sp) => CompileExpr(expr, base) + [IRNode(StoreVar(name), sp)]
    case If(cond, thenBlock, elseBlock, sp) =>
      var cc := CompileExpr(cond, base);
      var j := base + |cc|;
      var ct := CompileBlock(thenBlock, j + 1);
      var k := j + 1 + |ct|;
      var ce := CompileBlock(elseBlock, k + 1);
      cc + [IRNode(JumpIfFalse(k + 1), sp)] + ct + [IRNode(Jump(k + 1 + |ce|), sp)] + ce
    case Loop(count, body, sp) =>
      var cc := CompileExpr(count, base);
      var a := base + |cc|;
      var cb := CompileBlock(body, a + 3);
      var end := a + 3 + |cb| + 5;
      cc + [IRNode(StoreVar(LoopRem), sp), IRNode(LoadVar(LoopRem), sp), IRNode(JumpIfFalse(end), sp)]
        + cb
        + [IRNode(LoadVar(LoopRem), sp), IRNode(ConstNum(1.0), sp), IRNode(Sub, sp), IRNode(StoreVar(LoopRem), sp), IRNode(Jump(a + 1), sp)]
    case While(cond, body, sp) =>
      var cc := CompileExpr(cond, base);
      var j := base + |cc|;
      var cb := CompileBlock(body, j + 1);
      cc + [IRNode(JumpIfFalse(j + 1 + |cb| + 1), sp)] + cb + [IRNode(Jump(base), sp)]
    case Return(value, sp) =>
      (match value
       case Some(v) => CompileExpr(v, base)
       case None => [IRNode(PushNull, sp)]) + [IRNode(Return, sp)]
    case Action(action, sp) => CompileAction(action, sp, base)
    case Rite(body, _) => CompileBlock(body, base)
    case FnDef(_, _, _, _) => []
    case Each(variable, iter, body, sp) =>
      var ci := CompileExpr(iter, base);
      var a := base + |ci|;
      var cb := CompileBlock(body, a + 12);
      var end := a + 12 + |cb| + 5;
      ci + EachHead(variable, end, sp) + cb
        + [IRNode(LoadVar(EachIdx), sp), IRNode(ConstNum(1.0), sp), IRNode(Add, sp), IRNode(StoreVar(EachIdx), sp), IRNode(Jump(a + 3), sp)]
    case Unsafe(_, _) => []
    case Import(_, _) => []
  }

  /** The twelve instructions of an `each` loop between its iterable and its body; the loop test is at offset 3. */
  function EachHead(variable: string, end: nat, sp: Option<A.Span>): (h: seq<IRNode>)
    ensures |h| == 12
  {
    [IRNode(StoreVar(EachIter), sp), IRNode(ConstNum(0.0), sp), IRNode(StoreVar(EachIdx), sp),
     IRNode(LoadVar(EachIdx), sp), IRNode(LoadVar(EachIter), sp), IRNode(CallBuiltin("len", 1), sp), IRNode(Lt, sp),
     IRNode(JumpIfFalse(end), sp),
     IRNode(LoadVar(EachIter), sp), IRNode(LoadVar(EachIdx), sp), IRNode(CallBuiltin("__index", 2), sp),
     IRNode(StoreVar(variable), sp)]
  }

  function CompileBlock(ss: seq<A.Stmt>, base: nat): seq<IRNode>
    decreases ss, 0
  {
    if |ss| == 0 then []
    else
      var c0 := CompileStmt(ss[0], base);
      c0 + CompileBlock(ss[1..], base + |c0|)
  }

  /** The top-level loop of `compile_ir`: function definitions become functions, everything else goes to main. */
  function CompileTop(stmts: seq<A.Stmt>, main: seq<IRNode>, fns: map<string, IRFunction>): (seq<IRNode>, map<string, IRFunction>)
    decreases |stmts|
  {
    if |stmts| == 0 then (main, fns)
    else match stmts[0]
      case FnDef(name, params, body, _) =>
        CompileTop(stmts[1..], main, fns[name := IRFunction(params, CompileBlock(body, 0) + [IRNode(Return, None)])])
      case _ => CompileTop(stmts[1..], main + CompileStmt(stmts[0], |main|), fns)
  }

  /** `compile_ir`. */
  function CompileIr(stmts: seq<A.Stmt>): IRProgram
  {
    var (main, fns) := CompileTop(stmts, [], map[]);
    IRProgram(main + [IRNode(Return, None)], fns)
  }

  // ---------------------------------------------------------------------------
  // The IR peephole optimiser

  /**
   * `fold_num`. A zero divisor, which gives a non-finite float on the host,
   * is left unfolded here.
   */
  function FoldNum(a: real, b: real, op: IRInstr): Option<real>
  {
    match op
    case Add => Some(a + b)
    case Sub => Some(a - b)
    case Mul => Some(a * b)
    case Div => if b == 0.0 then None else Some(a / b)
    case Mod => if b == 0.0 then None else Some(SV.FMod(a, b))
    case _ => None
  }

  /** `fold_cmp`. */
  function FoldCmp(a: real, b: real, op: IRInstr): Option<bool>
  {
    match op
    case Eq => Some(SV.Abs(a - b) < SV.Epsilon)
    case Ne => Some(SV.Abs(a - b) >= SV.Epsilon)
    case Gt => Some(a > b)
    case Ge => Some(a >= b)
    case Lt => Some(a < b)
    case Le => Some(a <= b)
    case _ => None
  }

  predicate IsJump(i: IRInstr) { i.Jump? || i.JumpIfFalse? }

  /** Every position some jump of the block targets. */
  function JumpTargets(block: seq<IRNode>): set<nat>
  {
    set k | 0 <= k < |block| && IsJump(block[k].instr) :: block[k].instr.target
  }

  /**
   * The state of the first pass: the output so far, the input position of
   * each output node, the old-to-new index map, the known constant of each
   * variable, and the constant the previous instruction pushed.
   */
  datatype Pass = Pass(out: seq<IRNode>, orig: seq<nat>, mapping: seq<Option<nat>>,
                       consts: map<string, IRInstr>, prev: Option<IRInstr>)

  predicate IsConst(i: IRInstr) { i.ConstNum? || i.ConstBool? || i.ConstText? || i.PushNull? }

  /** Records that input positions `from` map to the output node about to be pushed. */
  function MapTo(mapping: seq<Option<nat>>, from: set<nat>, to: nat): (r: seq<Option<nat>>)
    ensures |r| == |mapping|
    ensures forall k :: 0 <= k < |mapping| ==> r[k] == if k in from then Some(to) else mapping[k]
  {
    seq(|mapping|, k requires 0 <= k < |mapping| => if k in from then Some(to) else mapping[k])
  }

  /**
   * One step of the first pass of `optimize_block` at input position `i`:
   * the next position and the new state. As written (`corrected` false),
   * constants flow across jump targets and a conditional jump to the next
   * instruction is dropped with the condition it would have popped; the
   * corrected step forgets the known constants on arriving at a jump
   * target and drops only unconditional jumps to the next instruction.
   */
  function PassStep(block: seq<IRNode>, i: nat, st: Pass, corrected: bool): (r: (nat, Pass))
    requires i < |block| && |st.mapping| == |block|
    ensures i < r.0 <= |block| && |r.1.mapping| == |block|
  {
    var st := if corrected && i in JumpTargets(block) then st.(consts := map[], prev := None) else st;
    var ins := block[i].instr;
    var n := |st.out|;
    if i + 2 < |block| && ins.ConstNum? && block[i + 1].instr.ConstNum?
       && FoldNum(ins.n, block[i + 1].instr.n, block[i + 2].instr).Some? then
      var v := FoldNum(ins.n, block[i + 1].instr.n, block[i + 2].instr).value;
      (i + 3, st.(out := st.out + [IRNode(ConstNum(v), block[i].span)], orig := st.orig + [i],
                  mapping := MapTo(st.mapping, {i, i + 1, i + 2}, n)))
    else if i + 2 < |block| && ins.ConstNum? && block[i + 1].instr.ConstNum?
       && FoldCmp(ins.n, block[i + 1].instr.n, block[i + 2].instr).Some? then
      var v := FoldCmp(ins.n, block[i + 1].instr.n, block[i + 2].instr).value;
      (i + 3, st.(out := st.out + [IRNode(ConstBool(v), block[i].span)], orig := st.orig + [i],
                  mapping := MapTo(st.mapping, {i, i + 1, i + 2}, n)))
    else if i + 1 < |block| && ins.ConstBool? && block[i + 1].instr.JumpIfFalse? then
      if ins.b then
        (i + 2, st.(mapping := st.mapping[i := None][i + 1 := None]))
      else
        (i + 2, st.(out := st.out + [IRNode(Jump(block[i + 1].instr.target), block[i].span)], orig := st.orig + [i],
                    mapping := MapTo(st.mapping, {i, i + 1}, n)))
    else if (ins.Jump? || (ins.JumpIfFalse? && !corrected)) && ins.target == i + 1 then
      (i + 1, st.(mapping := st.mapping[i := None], consts := map[]))
    else
      var instr := if ins.LoadVar? && ins.name in st.consts then st.consts[ins.name] else ins;
      var node := block[i].(instr := instr);
      var mapping := st.mapping[i := Some(n)];
      var (consts, prev) :=
        if instr.StoreVar? then
          ((if st.prev.Some? then st.consts[instr.name := st.prev.value] else st.consts - {instr.name}), None)
        else if IsJump(instr) then (map[], None)
        else (st.consts, if IsConst(instr) then Some(instr) else None);
      (i + 1, Pass(st.out + [node], st.orig + [i], mapping, consts, prev))
  }

  /** The first pass from position `i` to the end. */
  function RunPass(block: seq<IRNode>, i: nat, st: Pass, corrected: bool): Pass
    requires i <= |block| && |st.mapping| == |block|
    decreases |block| - i
  {
    if i == |block| then st
    else
      var (next, st') := PassStep(block, i, st, corrected);
      RunPass(block, next, st', corrected)
  }

  /**
   * `remap_target`: the new index of the first surviving instruction at or
   * after `target`; failing that, the new index of the last surviving one.
   */
  function RemapTarget(target: nat, mapping: seq<Option<nat>>): (r: Option<nat>)
    decreases |mapping| - target
  {
    if target < |mapping| then
      (if mapping[target].Some? then mapping[target] else RemapTarget(target + 1, mapping))
    else LastSome(mapping)
  }

  function LastSome(mapping: seq<Option<nat>>): (r: Option<nat>)
  {
    if |mapping| == 0 then None
    else if mapping[|mapping| - 1].Some? then mapping[|mapping| - 1]
    else LastSome(mapping[..|mapping| - 1])
  }

  /** Pass 2: every jump retargeted through the index map (left alone if the map has no survivor). */
  function Retarget(out: seq<IRNode>, mapping: seq<Option<nat>>): (r: seq<IRNode>)
    ensures |r| == |out|
    ensures forall k :: 0 <= k < |out| ==>
      (r[k].span == out[k].span
       && (IsJump(out[k].instr) <==> IsJump(r[k].instr))
       && (!IsJump(out[k].instr) ==> r[k] == out[k])
       && (out[k].instr.Jump? <==> r[k].instr.Jump?))
  {
    seq(|out|, k requires 0 <= k < |out| =>
      var node := out[k];
      if IsJump(node.instr) then
        match RemapTarget(node.instr.target, mapping)
        case Some(t) => node.(instr := if node.instr.Jump? then Jump(t) else JumpIfFalse(t))
        case None => node
      else node)
  }

  // ---------------------------------------------------------------------------
  // Reachability pruning

  /** The indices below `n`. */
  function Indices(n: nat): (r: set<nat>)
    ensures forall k: nat :: k in r <==> k < n
  {
    if n == 0 then {} else Indices(n - 1) + {n - 1}
  }

  /** The `dfs` of `prune_unreachable`: `reach` grown by everything reachable from `idx`. */
  function Dfs(block: seq<IRNode>, idx: nat, reach: set<nat>): (r: set<nat>)
    requires reach <= Indices(|block|)
    ensures reach <= r <= Indices(|block|)
    ensures idx < |block| ==> idx in r
    decreases Indices(|block|) - reach
  {
    if idx >= |block| || idx in reach then reach
    else
      var reach1 := reach + {idx};
      match block[idx].instr
      case Jump(t) => Dfs(block, t, reach1)
      case JumpIfFalse(t) =>
        var reach2 := Dfs(block, idx + 1, reach1);
        Dfs(block, t, reach2)
      case Return => reach1
      case _ => Dfs(block, idx + 1, reach1)
  }

  /** The instructions whose index is in `keep`, in order, with the old-to-new map. */
  function Filter(block: seq<IRNode>, keep: set<nat>, i: nat, out: seq<IRNode>, mapping: seq<Option<nat>>): (r: (seq<IRNode>, seq<Option<nat>>))
    requires i <= |block| && |mapping| == |block|
    ensures |r.1| == |block| && |r.0| <= |out| + |block| - i
    decreases |block| - i
  {
    if i == |block| then (out, mapping)
    else if i in keep then Filter(block, keep, i + 1, out + [block[i]], mapping[i := Some(|out|)])
    else Filter(block, keep, i + 1, out, mapping)
  }

  /** `prune_unreachable`. */
  function Prune(block: seq<IRNode>): seq<IRNode>
  {
    if |block| == 0 then block
    else
      var reach := Dfs(block, 0, {});
      var (kept, mapping) := Filter(block, reach, 0, [], seq(|block|, _ => None));
      Retarget(kept, mapping)
  }

  /** The three passes of `optimize_block`, as written or corrected. */
  function OptimizeWith(block: seq<IRNode>, corrected: bool): seq<IRNode>
  {
    var st := RunPass(block, 0, Pass([], [], seq(|block|, _ => None), map[], None), corrected);
    Prune(Retarget(st.out, st.mapping))
  }

  /** `optimize_block` as written: constants flow across jump targets and a conditional jump to the next instruction vanishes. */
  function OptimizeBlockAsWritten(block: seq<IRNode>): seq<IRNode>
  {
    OptimizeWith(block, false)
  }

  /** `optimize_block` with constant propagation stopped at every jump target and conditional jumps kept. */
  function OptimizeBlock(block: seq<IRNode>): seq<IRNode>
  {
    OptimizeWith(block, true)
  }

  /** `optimize_ir`: main and every function body optimised, by the written or the corrected block pass. */
  function OptimizeIrWith(p: IRProgram, corrected: bool): IRProgram
  {
    IRProgram(OptimizeWith(p.main, corrected),
              map name | name in p.functions :: IRFunction(p.functions[name].params, OptimizeWith(p.functions[name].code, corrected)))
  }

  /** `optimize_ir` as written. */
  function OptimizeIr(p: IRProgram): IRProgram
  {
    OptimizeIrWith(p, false)
  }

  /** `optimize_ir` with the corrected block pass. */
  function OptimizeIrCorrected(p: IRProgram): IRProgram
  {
    OptimizeIrWith(p, true)
  }

  // ---------------------------------------------------------------------------
  // Lowering to bytecode

  /** `collect_locals`, continued from `locals`/`slots` over the nodes from `i`. */
  function CollectFrom(block: seq<IRNode>, i: nat, locals: seq<string>, slots: map<string, nat>): (r: (seq<string>, map<string, nat>))
    requires i <= |block|
    decreases |block| - i
  {
    if i == |block| then (locals, slots)
    else
      var ins := block[i].instr;
      if (ins.LoadVar? || ins.StoreVar?) && ins.name !in slots then
        CollectFrom(block, i + 1, locals + [ins.name], slots[ins.name := |locals|])
      else CollectFrom(block, i + 1, locals, slots)
  }

  function CollectParams(params: seq<string>, i: nat, locals: seq<string>, slots: map<string, nat>): (r: (seq<string>, map<string, nat>))
    requires i <= |params|
    decreases |params| - i
  {
    if i == |params| then (locals, slots)
    else CollectParams(params, i + 1, locals + [params[i]], slots[params[i] := |locals|])
  }

  /** `collect_locals`: the parameters first, then every other variable in order of first use. */
  function CollectLocals(block: seq<IRNode>, params: seq<string>): (seq<string>, map<string, nat>)
  {
    var (locals, slots) := CollectParams(params, 0, [], map[]);
    CollectFrom(block, 0, locals, slots)
  }

  /** `lower_instr`: variables become slots; everything else keeps its name and operands. */
  function LowerInstr(i: IRInstr, slots: map<string, nat>): B.Instr
    requires (i.LoadVar? || i.StoreVar?) ==> i.name in slots
  {
    match i
    case LoadVar(s) => B.LoadLocal(slots[s])
    case StoreVar(s) => B.StoreLocal(slots[s])
    case _ => ToBc(i)
  }

  /** Every variable the block names has a slot. */
  predicate SlotsCover(block: seq<IRNode>, slots: map<string, nat>)
  {
    forall k :: 0 <= k < |block| && (block[k].instr.LoadVar? || block[k].instr.StoreVar?) ==> block[k].instr.name in slots
  }

  function LowerAll(block: seq<IRNode>, slots: map<string, nat>): (r: seq<B.Instr>)
    requires SlotsCover(block, slots)
    ensures |r| == |block|
    ensures forall k :: 0 <= k < |block| ==> r[k] == LowerInstr(block[k].instr, slots)
  {
    seq(|block|, k requires 0 <= k < |block| => LowerInstr(block[k].instr, slots))
  }

  function Spans(block: seq<IRNode>): (r: seq<Option<A.Span>>)
    ensures |r| == |block| && forall k :: 0 <= k < |block| ==> r[k] == block[k].span
  {
    seq(|block|, k requires 0 <= k < |block| => block[k].span)
  }

  predicate BcJump(i: B.Instr) { i.Jump? || i.JumpIfFalse? }

  function BcJumpTargets(code: seq<B.Instr>): set<nat>
  {
    set k | 0 <= k < |code| && BcJump(code[k]) :: code[k].target
  }

  /**
   * The first pass of `optimize_bytecode_block` from position `i`. As
   * written (`dropReload`), a LoadLocal right after a StoreLocal of the same
   * slot is dropped unless it is a jump target; without `dropReload` every
   * instruction is kept.
   */
  function BcPass(code: seq<B.Instr>, spans: seq<Option<A.Span>>, targets: set<nat>, dropReload: bool, i: nat,
                  out: seq<B.Instr>, outSpans: seq<Option<A.Span>>, mapping: seq<Option<nat>>)
    : (r: (seq<B.Instr>, seq<Option<A.Span>>, seq<Option<nat>>))
    requires i <= |code| && |mapping| == |code| && |out| == |outSpans|
    ensures |r.2| == |code| && |r.0| == |r.1|
    decreases |code| - i
  {
    var sp := if i < |spans| then spans[i] else None;
    if i == |code| then (out, outSpans, mapping)
    else if dropReload && i + 1 < |code| && code[i].StoreLocal? && code[i + 1].LoadLocal? && code[i].slot == code[i + 1].slot
            && i + 1 !in targets then
      BcPass(code, spans, targets, dropReload, i + 2, out + [code[i]], outSpans + [sp], mapping[i := Some(|out|)][i + 1 := None])
    else BcPass(code, spans, targets, dropReload, i + 1, out + [code[i]], outSpans + [sp], mapping[i := Some(|out|)])
  }

  function BcRetarget(code: seq<B.Instr>, mapping: seq<Option<nat>>): (r: seq<B.Instr>)
    ensures |r| == |code|
    ensures forall k :: 0 <= k < |code| ==> (!BcJump(code[k]) ==> r[k] == code[k]) && (BcJump(code[k]) <==> BcJump(r[k]))
  {
    seq(|code|, k requires 0 <= k < |code| =>
      if BcJump(code[k]) then
        match RemapTarget(code[k].target, mapping)
        case Some(t) => if code[k].Jump? then B.Jump(t) else B.JumpIfFalse(t)
        case None => code[k]
      else code[k])
  }

  function BcOptimizeWith(code: seq<B.Instr>, spans: seq<Option<A.Span>>, dropReload: bool): (seq<B.Instr>, seq<Option<A.Span>>)
  {
    var (out, outSpans, mapping) := BcPass(code, spans, BcJumpTargets(code), dropReload, 0, [], [], seq(|code|, _ => None));
    (BcRetarget(out, mapping), outSpans)
  }

  /** `optimize_bytecode_block` as written: the reload after a store is dropped, although the store popped the value. */
  function OptimizeBytecodeBlockAsWritten(code: seq<B.Instr>, spans: seq<Option<A.Span>>): (seq<B.Instr>, seq<Option<A.Span>>)
  {
    BcOptimizeWith(code, spans, true)
  }

  /** `optimize_bytecode_block` with the unsound reload removal taken out: the code is kept, the spans are aligned with it. */
  function OptimizeBytecodeBlock(code: seq<B.Instr>, spans: seq<Option<A.Span>>): (seq<B.Instr>, seq<Option<A.Span>>)
  {
    BcOptimizeWith(code, spans, false)
  }

  /** `lower_block`: slots, lowered instructions and spans, then the bytecode peephole pass (with or without the reload removal). */
  function LowerBlockWith(block: seq<IRNode>, params: seq<string>, dropReload: bool): (seq<B.Instr>, seq<string>, seq<Option<A.Span>>)
  {
    var (locals, slots) := CollectLocals(block, params);
    if SlotsCover(block, slots) then
      var (code, spans) := BcOptimizeWith(LowerAll(block, slots), Spans(block), dropReload);
      (code, locals, spans)
    else ([], locals, [])
  }

  /** `lower_block` as written: the peephole pass drops the reload after a store. */
  function LowerBlock(block: seq<IRNode>, params: seq<string>): (seq<B.Instr>, seq<string>, seq<Option<A.Span>>)
  {
    LowerBlockWith(block, params, true)
  }

  /** `lower_block` with the corrected peephole pass. */
  function LowerBlockCorrected(block: seq<IRNode>, params: seq<string>): (seq<B.Instr>, seq<string>, seq<Option<A.Span>>)
  {
    LowerBlockWith(block, params, false)
  }

  /** `lower_ir_to_bytecode`: main without parameters, every function with its own. */
  function LowerIrWith(p: IRProgram, dropReload: bool): B.Program
  {
    var (main, mainLocals, mainSpans) := LowerBlockWith(p.main, [], dropReload);
    B.Program(main, mainLocals, mainSpans,
      map name | name in p.functions ::
        var f := p.functions[name];
        var (code, locals, spans) := LowerBlockWith(f.code, f.params, dropReload);
        B.FunctionBytecode(f.params, locals, code, spans))
  }

  /** `lower_ir_to_bytecode` as written. */
  function LowerIr(p: IRProgram): B.Program
  {
    LowerIrWith(p, true)
  }

  /** `lower_ir_to_bytecode` with the corrected peephole pass. */
  function LowerIrCorrected(p: IRProgram): B.Program
  {
    LowerIrWith(p, false)
  }

  /** `compile_script` as written: compile, optimise, lower. */
  function CompileScript(stmts: seq<A.Stmt>): B.Program
  {
    LowerIr(OptimizeIr(CompileIr(stmts)))
  }

  /** `compile_script` with both optimisers corrected. */
  function CompileScriptCorrected(stmts: seq<A.Stmt>): B.Program
  {
    LowerIrCorrected(OptimizeIrCorrected(CompileIr(stmts)))
  }
}
