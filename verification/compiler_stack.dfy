/**
 * Stack discipline of the code `compile_ir` emits. A depth map assigns an
 * operand-stack depth to every position of a block; code is well stacked
 * under it when each instruction finds at least the values it pops, its
 * fall-through successor and its jump target expect the depth it leaves,
 * and every jump lands inside the block. Every expression then leaves
 * exactly one value and every statement none, so no compiled instruction
 * ever meets "Stack underflow".
 */
module CompilerStack {
  import opened Wrappers
  import A = Ast
  import opened IR
  import B = Bytecode
  import opened Compiler

  function Pops(i: IRInstr): nat { B.Pops(ToBc(i)) }

  function Pushes(i: IRInstr): nat { B.Pushes(ToBc(i)) }

  /** Control can continue with the next instruction. */
  predicate Falls(i: IRInstr) { !i.Jump? && !i.Return? }

  /** Instruction `i` at position `p` agrees with the depth map `D`. */
  predicate StepOk(i: IRInstr, p: nat, D: nat -> int)
  {
    D(p) >= Pops(i)
    && (Falls(i) ==> D(p + 1) == D(p) - Pops(i) + Pushes(i))
    && (IsJump(i) ==> D(i.target) == D(p) - Pops(i) + Pushes(i))
  }

  /** Every instruction of `c`, placed at `base`, agrees with `D`. */
  predicate Steps(c: seq<IRNode>, base: nat, D: nat -> int)
  {
    forall k :: 0 <= k < |c| ==> StepOk(c[k].instr, base + k, D)
  }

  /** Every jump of `c` lands in `[lo, hi]`. */
  predicate Targets(c: seq<IRNode>, lo: nat, hi: nat)
  {
    forall k :: 0 <= k < |c| && IsJump(c[k].instr) ==> lo <= c[k].instr.target <= hi
  }

  /** `c`, placed at `base`, runs from depth `d0` to depth `d1` under `D`, with every jump inside it. */
  predicate Closed(c: seq<IRNode>, base: nat, D: nat -> int, d0: int, d1: int)
  {
    D(base) == d0 && D(base + |c|) == d1 && Steps(c, base, D) && Targets(c, base, base + |c|)
  }

  /** Every call in the expression names its callee directly. */
  predicate CallsNamed(e: A.Expr)
    decreases e
  {
    match e.kind
    case Call(callee, args) => callee.kind.Var? && forall i :: 0 <= i < |args| ==> CallsNamed(args[i])
    case List(items) => forall i :: 0 <= i < |items| ==> CallsNamed(items[i])
    case Map(entries) => forall i :: 0 <= i < |entries| ==> CallsNamed(entries[i].1)
    case Binary(_, l, r) => CallsNamed(l) && CallsNamed(r)
    case Unary(_, x) => CallsNamed(x)
    case Index(t, i) => CallsNamed(t) && CallsNamed(i)
    case Field(t, _) => CallsNamed(t)
    case _ => true
  }

  predicate ActionCallsNamed(a: A.ActionKind)
  {
    match a
    case Ui(_, _) => true
    case _ => CallsNamed(a.value)
  }

  predicate StmtCallsNamed(s: A.Stmt)
    decreases s
  {
    match s
    case Assign(_, e, _) => CallsNamed(e)
    case If(c, t, e, _) => CallsNamed(c) && BlockCallsNamed(t) && BlockCallsNamed(e)
    case Loop(c, b, _) => CallsNamed(c) && BlockCallsNamed(b)
    case While(c, b, _) => CallsNamed(c) && BlockCallsNamed(b)
    case Each(_, it, b, _) => CallsNamed(it) && BlockCallsNamed(b)
    case Return(v, _) => v.Some? ==> CallsNamed(v.value)
    case Action(a, _) => ActionCallsNamed(a)
    case Rite(b, _) => BlockCallsNamed(b)
    case FnDef(_, _, b, _) => BlockCallsNamed(b)
    case _ => true
  }

  predicate BlockCallsNamed(ss: seq<A.Stmt>)
    decreases ss
  {
    forall i :: 0 <= i < |ss| ==> StmtCallsNamed(ss[i])
  }

  // ---------------------------------------------------------------------------
  // Gluing

  /** A closed block stays closed under any depth map that agrees with it on its own positions. */
  lemma Transfer(c: seq<IRNode>, base: nat, D1: nat -> int, D: nat -> int, d0: int, d1: int)
    requires Closed(c, base, D1, d0, d1)
    requires forall p: nat :: base <= p <= base + |c| ==> D(p) == D1(p)
    ensures Closed(c, base, D, d0, d1)
  {
    forall k | 0 <= k < |c| ensures StepOk(c[k].instr, base + k, D) {
      assert StepOk(c[k].instr, base + k, D1);
    }
  }

  /** Two blocks, each agreeing with `D` and jumping into `[lo, hi]`, do so one after the other. */
  lemma Concat(c1: seq<IRNode>, c2: seq<IRNode>, base: nat, D: nat -> int, lo: nat, hi: nat)
    requires Steps(c1, base, D) && Steps(c2, base + |c1|, D)
    requires Targets(c1, lo, hi) && Targets(c2, lo, hi)
    ensures Steps(c1 + c2, base, D) && Targets(c1 + c2, lo, hi)
  {
    forall k | 0 <= k < |c1 + c2|
      ensures StepOk((c1 + c2)[k].instr, base + k, D)
      ensures IsJump((c1 + c2)[k].instr) ==> lo <= (c1 + c2)[k].instr.target <= hi
    {
      if k < |c1| {
        assert (c1 + c2)[k] == c1[k];
      } else {
        assert (c1 + c2)[k] == c2[k - |c1|];
        assert StepOk(c2[k - |c1|].instr, base + |c1| + (k - |c1|), D);
      }
    }
  }

  /** A one-instruction block. */
  lemma One(n: IRNode, p: nat, D: nat -> int, lo: nat, hi: nat)
    requires StepOk(n.instr, p, D) && (IsJump(n.instr) ==> lo <= n.instr.target <= hi)
    ensures Steps([n], p, D) && Targets([n], lo, hi)
  {
    assert [n][0] == n;
  }

  /** Jumps that land in a range land in any wider one. */
  lemma TargetsWiden(c: seq<IRNode>, lo: nat, hi: nat, lo': nat, hi': nat)
    requires Targets(c, lo, hi) && lo' <= lo && hi <= hi'
    ensures Targets(c, lo', hi')
  {
  }

  /** A block, an instruction, a block, an instruction and a block, one after the other. */
  lemma Splice(c1: seq<IRNode>, n1: IRNode, c2: seq<IRNode>, n2: IRNode, c3: seq<IRNode>, base: nat, D: nat -> int, lo: nat, hi: nat)
    requires Steps(c1, base, D) && Targets(c1, lo, hi)
    requires StepOk(n1.instr, base + |c1|, D) && (IsJump(n1.instr) ==> lo <= n1.instr.target <= hi)
    requires Steps(c2, base + |c1| + 1, D) && Targets(c2, lo, hi)
    requires StepOk(n2.instr, base + |c1| + 1 + |c2|, D) && (IsJump(n2.instr) ==> lo <= n2.instr.target <= hi)
    requires Steps(c3, base + |c1| + 2 + |c2|, D) && Targets(c3, lo, hi)
    ensures Steps(c1 + [n1] + c2 + [n2] + c3, base, D) && Targets(c1 + [n1] + c2 + [n2] + c3, lo, hi)
  {
    One(n1, base + |c1|, D, lo, hi);
    One(n2, base + |c1| + 1 + |c2|, D, lo, hi);
    Concat(c1, [n1], base, D, lo, hi);
    Concat(c1 + [n1], c2, base, D, lo, hi);
    Concat(c1 + [n1] + c2, [n2], base, D, lo, hi);
    Concat(c1 + [n1] + c2 + [n2], c3, base, D, lo, hi);
  }

  /** Two closed blocks placed one after the other make a closed block. */
  lemma Glue(c1: seq<IRNode>, c2: seq<IRNode>, base: nat, D1: nat -> int, D2: nat -> int, a: int, b: int, z: int)
    returns (D: nat -> int)
    requires Closed(c1, base, D1, a, b) && Closed(c2, base + |c1|, D2, b, z)
    ensures Closed(c1 + c2, base, D, a, z)
  {
    var m := base + |c1|;
    D := (p: nat) => if p < m then D1(p) else D2(p);
    Transfer(c1, base, D1, D, a, b);
    Transfer(c2, m, D2, D, b, z);
    Concat(c1, c2, base, D, base, base + |c1 + c2|);
  }

  /** One straight-line instruction. */
  lemma Single(n: IRNode, base: nat, d: int) returns (D: nat -> int)
    requires Falls(n.instr) && !IsJump(n.instr) && d >= Pops(n.instr)
    ensures Closed([n], base, D, d, d - Pops(n.instr) + Pushes(n.instr))
  {
    var d1 := d - Pops(n.instr) + Pushes(n.instr);
    D := (p: nat) => if p <= base then d else d1;
    One(n, base, D, base, base + 1);
  }

  /** The empty block. */
  lemma Empty(base: nat, d: int) returns (D: nat -> int)
    ensures Closed([], base, D, d, d)
  {
    D := (p: nat) => d;
  }

  // ---------------------------------------------------------------------------
  // Expressions

  /** A closed block followed by one straight-line instruction. */
  lemma Append1(c: seq<IRNode>, n: IRNode, base: nat, Dc: nat -> int, d0: int, d1: int) returns (D: nat -> int)
    requires Closed(c, base, Dc, d0, d1)
    requires Falls(n.instr) && !IsJump(n.instr) && d1 >= Pops(n.instr)
    ensures Closed(c + [n], base, D, d0, d1 - Pops(n.instr) + Pushes(n.instr))
  {
    var Dn := Single(n, base + |c|, d1);
    D := Glue(c, [n], base, Dc, Dn, d0, d1, d1 - Pops(n.instr) + Pushes(n.instr));
  }

  /** Two one-value blocks followed by an instruction that takes two values and leaves one. */
  lemma Pair(cl: seq<IRNode>, cr: seq<IRNode>, n: IRNode, base: nat, Dl: nat -> int, Dr: nat -> int, d: int)
    returns (D: nat -> int)
    requires Closed(cl, base, Dl, d, d + 1) && Closed(cr, base + |cl|, Dr, d + 1, d + 2)
    requires d >= 0 && Falls(n.instr) && !IsJump(n.instr) && Pops(n.instr) == 2 && Pushes(n.instr) == 1
    ensures Closed(cl + cr + [n], base, D, d, d + 1)
  {
    var D1 := Glue(cl, cr, base, Dl, Dr, d, d + 1, d + 2);
    D := Append1(cl + cr, n, base, D1, d, d + 2);
  }

  /** Every expression leaves exactly one value on top of what it found. */
  lemma {:induction false} ExprStack(e: A.Expr, base: nat, d: int) returns (D: nat -> int)
    requires d >= 0 && CallsNamed(e)
    ensures Closed(CompileExpr(e, base), base, D, d, d + 1)
    decreases e, 2
  {
    var sp := e.span;
    match e.kind
    case Number(n) => D := Single(IRNode(ConstNum(n), sp), base, d);
    case Bool(b) => D := Single(IRNode(ConstBool(b), sp), base, d);
    case Text(s) => D := Single(IRNode(ConstText(s), sp), base, d);
    case Var(name) => D := Single(IRNode(LoadVar(name), sp), base, d);
    case Unary(_, _) => D := UnaryStack(e, base, d);
    case Binary(_, _, _) => D := BinaryStack(e, base, d);
    case Index(_, _) => D := IndexStack(e, base, d);
    case Call(_, _) => D := ItemsStack(e, base, d);
    case List(_) => D := ItemsStack(e, base, d);
    case Map(_) => D := MapStack(e, base, d);
    case Field(_, _) => D := FieldStack(e, base, d);
  }

  lemma {:induction false} UnaryStack(e: A.Expr, base: nat, d: int) returns (D: nat -> int)
    requires e.kind.Unary? && d >= 0 && CallsNamed(e)
    ensures Closed(CompileExpr(e, base), base, D, d, d + 1)
    decreases e, 1
  {
    var sp := e.span;
    var x := e.kind.operand;
    var cx := CompileExpr(x, base);
    var Dx := ExprStack(x, base, d);
    UnaryShape(e, base);
    if e.kind.uop.Neg? {
      D := NegTail(cx, base, Dx, d, sp);
    } else {
      D := NotGlue(cx, base, Dx, d, sp);
    }
  }

  /** Logical not turns the operand into one boolean through the two-branch tail. */
  lemma NotGlue(cx: seq<IRNode>, base: nat, Dx: nat -> int, d: int, sp: Option<A.Span>) returns (D: nat -> int)
    requires d >= 0 && Closed(cx, base, Dx, d, d + 1)
    ensures Closed(cx + NotCode(base + |cx|, sp), base, D, d, d + 1)
  {
    var Dt := NotTail(base + |cx|, d + 1, sp);
    D := Glue(cx, NotCode(base + |cx|, sp), base, Dx, Dt, d, d + 1, d + 1);
  }

  /** The code of a unary expression: its operand's code, then the operator's tail. */
  lemma UnaryShape(e: A.Expr, base: nat)
    requires e.kind.Unary? && CallsNamed(e)
    ensures var cx := CompileExpr(e.kind.operand, base);
      e.kind.uop.Neg? ==> CompileExpr(e, base) == cx + [IRNode(ConstNum(-1.0), e.span)] + [IRNode(Mul, e.span)]
    ensures var cx := CompileExpr(e.kind.operand, base);
      !e.kind.uop.Neg? ==> CompileExpr(e, base) == cx + NotCode(base + |cx|, e.span)
  {
  }

  /** Negation multiplies the operand by -1. */
  lemma NegTail(cx: seq<IRNode>, base: nat, Dx: nat -> int, d: int, sp: Option<A.Span>) returns (D: nat -> int)
    requires d >= 0 && Closed(cx, base, Dx, d, d + 1)
    ensures Closed(cx + [IRNode(ConstNum(-1.0), sp)] + [IRNode(Mul, sp)], base, D, d, d + 1)
  {
    var D2 := Append1(cx, IRNode(ConstNum(-1.0), sp), base, Dx, d, d + 1);
    D := Append1(cx + [IRNode(ConstNum(-1.0), sp)], IRNode(Mul, sp), base, D2, d, d + 2);
  }

  /** Binary operators: two operands, then the operator. */
  lemma {:induction false} BinaryStack(e: A.Expr, base: nat, d: int) returns (D: nat -> int)
    requires e.kind.Binary? && d >= 0 && CallsNamed(e)
    ensures Closed(CompileExpr(e, base), base, D, d, d + 1)
    decreases e, 1
  {
    var l, r := e.kind.left, e.kind.right;
    var cl := CompileExpr(l, base);
    var cr := CompileExpr(r, base + |cl|);
    assert CompileExpr(e, base) == cl + cr + [IRNode(OpInstr(e.kind.op), e.span)];
    var Dl := ExprStack(l, base, d);
    var Dr := ExprStack(r, base + |cl|, d + 1);
    D := Pair(cl, cr, IRNode(OpInstr(e.kind.op), e.span), base, Dl, Dr, d);
  }

  /** Indexing: target, index, then the `__index` builtin. */
  lemma {:induction false} IndexStack(e: A.Expr, base: nat, d: int) returns (D: nat -> int)
    requires e.kind.Index? && d >= 0 && CallsNamed(e)
    ensures Closed(CompileExpr(e, base), base, D, d, d + 1)
    decreases e, 1
  {
    var l, r := e.kind.target, e.kind.index;
    var cl := CompileExpr(l, base);
    var cr := CompileExpr(r, base + |cl|);
    assert CompileExpr(e, base) == cl + cr + [IRNode(CallBuiltin("__index", 2), e.span)];
    var Dl := ExprStack(l, base, d);
    var Dr := ExprStack(r, base + |cl|, d + 1);
    D := Pair(cl, cr, IRNode(CallBuiltin("__index", 2), e.span), base, Dl, Dr, d);
  }

  /** Field access: the target, then the field load. */
  lemma {:induction false} FieldStack(e: A.Expr, base: nat, d: int) returns (D: nat -> int)
    requires e.kind.Field? && d >= 0 && CallsNamed(e)
    ensures Closed(CompileExpr(e, base), base, D, d, d + 1)
    decreases e, 1
  {
    var t := e.kind.obj;
    assert CompileExpr(e, base) == CompileExpr(t, base) + [IRNode(LoadField(e.kind.field), e.span)];
    var Dt := ExprStack(t, base, d);
    D := Append1(CompileExpr(t, base), IRNode(LoadField(e.kind.field), e.span), base, Dt, d, d + 1);
  }

  /** Map literals: every value, then the map construction. */
  lemma {:induction false} MapStack(e: A.Expr, base: nat, d: int) returns (D: nat -> int)
    requires e.kind.Map? && d >= 0 && CallsNamed(e)
    ensures Closed(CompileExpr(e, base), base, D, d, d + 1)
    decreases e, 1
  {
    var entries := e.kind.entries;
    assert CompileExpr(e, base) == CompileEntries(e, |entries|, base) + [IRNode(MakeMap(Keys(entries)), e.span)];
    var Da := EntriesStack(e, |entries|, base, d);
    D := Append1(CompileEntries(e, |entries|, base), IRNode(MakeMap(Keys(entries)), e.span), base, Da, d, d + |entries|);
  }

  /** Calls and list literals: every item, then one instruction that takes them all. */
  lemma {:induction false} ItemsStack(e: A.Expr, base: nat, d: int) returns (D: nat -> int)
    requires (e.kind.Call? || e.kind.List?) && d >= 0 && CallsNamed(e)
    ensures Closed(CompileExpr(e, base), base, D, d, d + 1)
    decreases e, 1
  {
    var sp := e.span;
    var items := if e.kind.Call? then e.kind.args else e.kind.items;
    var last := if e.kind.Call? then CallFn(e.kind.callee.kind.name, |items|) else MakeList(|items|);
    var Da := SeqStack(items, base, d);
    D := Append1(CompileSeq(items, base), IRNode(last, sp), base, Da, d, d + |items|);
  }

  /**
   * A call whose callee is not a plain name compiles to its arguments
   * alone: it leaves every argument on the stack and calls nothing.
   */
  lemma UnnamedCallStack(e: A.Expr, base: nat, d: int) returns (D: nat -> int)
    requires e.kind.Call? && !e.kind.callee.kind.Var? && d >= 0
    requires forall i :: 0 <= i < |e.kind.args| ==> CallsNamed(e.kind.args[i])
    ensures Closed(CompileExpr(e, base), base, D, d, d + |e.kind.args|)
  {
    D := SeqStack(e.kind.args, base, d);
  }

  /** The four instructions `!` appends after its operand, placed at `j`. */
  function NotCode(j: nat, sp: Option<A.Span>): seq<IRNode>
  {
    [IRNode(JumpIfFalse(j + 3), sp), IRNode(ConstBool(false), sp), IRNode(Jump(j + 4), sp), IRNode(ConstBool(true), sp)]
  }

  /** Both branches of `!` replace the operand by one boolean. */
  lemma NotTail(j: nat, d: int, sp: Option<A.Span>) returns (D: nat -> int)
    requires d >= 1
    ensures Closed(NotCode(j, sp), j, D, d, d)
  {
    D := (p: nat) => if p == j + 1 || p == j + 3 then d - 1 else d;
    var c := NotCode(j, sp);
    forall k | 0 <= k < 4 ensures StepOk(c[k].instr, j + k, D) && (IsJump(c[k].instr) ==> j <= c[k].instr.target <= j + 4) {
      if k == 0 {} else if k == 1 {} else if k == 2 {} else {}
    }
  }

  lemma {:induction false} SeqStack(es: seq<A.Expr>, base: nat, d: int) returns (D: nat -> int)
    requires d >= 0 && forall i :: 0 <= i < |es| ==> CallsNamed(es[i])
    ensures Closed(CompileSeq(es, base), base, D, d, d + |es|)
    decreases es, 1
  {
    if |es| == 0 {
      D := Empty(base, d);
    } else {
      var c0 := CompileExpr(es[0], base);
      var D0 := ExprStack(es[0], base, d);
      var D1 := SeqStack(es[1..], base + |c0|, d + 1);
      assert CompileSeq(es, base) == c0 + CompileSeq(es[1..], base + |c0|);
      D := Glue(c0, CompileSeq(es[1..], base + |c0|), base, D0, D1, d, d + 1, d + |es|);
    }
  }

  lemma {:induction false} EntriesStack(e: A.Expr, n: nat, base: nat, d: int) returns (D: nat -> int)
    requires e.kind.Map? && n <= |e.kind.entries| && d >= 0 && CallsNamed(e)
    ensures Closed(CompileEntries(e, n, base), base, D, d, d + n)
    decreases e, 0, n
  {
    if n == 0 {
      D := Empty(base, d);
    } else {
      var pre := CompileEntries(e, n - 1, base);
      var D0 := EntriesStack(e, n - 1, base, d);
      var D1 := ExprStack(e.kind.entries[n - 1].1, base + |pre|, d + n - 1);
      assert CompileEntries(e, n, base) == pre + CompileExpr(e.kind.entries[n - 1].1, base + |pre|);
      D := Glue(pre, CompileExpr(e.kind.entries[n - 1].1, base + |pre|), base, D0, D1, d, d + n - 1, d + n);
    }
  }

  // ---------------------------------------------------------------------------
  // Statements

  /** A `return`: whatever depth follows it, since control does not. */
  lemma ReturnNode(n: IRNode, p: nat, d0: int, d1: int) returns (D: nat -> int)
    requires n.instr.Return? && d0 >= 0
    ensures Closed([n], p, D, d0, d1)
  {
    D := (q: nat) => if q <= p then d0 else d1;
    One(n, p, D, p, p + 1);
  }

  /** Every statement leaves the stack as it found it. */
  lemma {:induction false} StmtStack(s: A.Stmt, base: nat, d: int) returns (D: nat -> int)
    requires d >= 0 && StmtCallsNamed(s)
    ensures Closed(CompileStmt(s, base), base, D, d, d)
    decreases s, 2
  {
    match s
    case Assign(name, expr, sp) =>
      var De := ExprStack(expr, base, d);
      D := Append1(CompileExpr(expr, base), IRNode(StoreVar(name), sp), base, De, d, d + 1);
    case If(_, _, _, _) => D := IfStack(s, base, d);
    case Loop(_, _, _) => D := LoopStack(s, base, d);
    case While(_, _, _) => D := WhileStack(s, base, d);
    case Each(_, _, _, _) => D := EachStack(s, base, d);
    case Return(_, _) => D := ReturnStack(s, base, d);
    case Action(a, sp) => D := ActionStack(a, sp, base, d);
    case Rite(body, _) => D := BlockStack(body, base, d);
    case FnDef(_, _, _, _) => D := Empty(base, d);
    case Unsafe(_, _) => D := Empty(base, d);
    case Import(_, _) => D := Empty(base, d);
  }

  lemma {:induction false} BlockStack(ss: seq<A.Stmt>, base: nat, d: int) returns (D: nat -> int)
    requires d >= 0 && BlockCallsNamed(ss)
    ensures Closed(CompileBlock(ss, base), base, D, d, d)
    decreases ss, 0
  {
    if |ss| == 0 {
      D := Empty(base, d);
    } else {
      var c0 := CompileStmt(ss[0], base);
      var D0 := StmtStack(ss[0], base, d);
      var D1 := BlockStack(ss[1..], base + |c0|, d);
      D := Glue(c0, CompileBlock(ss[1..], base + |c0|), base, D0, D1, d, d, d);
    }
  }

  lemma ActionStack(a: A.ActionKind, sp: Option<A.Span>, base: nat, d: int) returns (D: nat -> int)
    requires d >= 0 && ActionCallsNamed(a)
    ensures Closed(CompileAction(a, sp, base), base, D, d, d)
  {
    if a.Ui? {
      D := Single(IRNode(EmitUi(a.kind), sp), base, d);
    } else {
      EmitShape(a, sp, base);
      D := ValueAction(a.value, EmitOf(a), sp, base, d);
    }
  }

  /** The instruction that ends an action on one value. */
  function EmitOf(a: A.ActionKind): IRInstr
    requires !a.Ui?
  {
    match a
    case Say(_) => EmitSay
    case Ask(_) => EmitAsk
    case Fetch(_) => EmitFetch
    case TextAction(_) => EmitText
    case Button(_) => EmitButton
    case Log(_) => EmitLog
  }

  lemma EmitShape(a: A.ActionKind, sp: Option<A.Span>, base: nat)
    requires !a.Ui?
    ensures CompileAction(a, sp, base) == CompileExpr(a.value, base) + [IRNode(EmitOf(a), sp)]
    ensures Falls(EmitOf(a)) && !IsJump(EmitOf(a)) && Pops(EmitOf(a)) == 1 && Pushes(EmitOf(a)) == 0
  {
  }

  /** An action on one value: the value, then the instruction that consumes it. */
  lemma ValueAction(v: A.Expr, emit: IRInstr, sp: Option<A.Span>, base: nat, d: int) returns (D: nat -> int)
    requires d >= 0 && CallsNamed(v)
    requires Falls(emit) && !IsJump(emit) && Pops(emit) == 1 && Pushes(emit) == 0
    ensures Closed(CompileExpr(v, base) + [IRNode(emit, sp)], base, D, d, d)
  {
    var Dv := ExprStack(v, base, d);
    D := Append1(CompileExpr(v, base), IRNode(emit, sp), base, Dv, d, d + 1);
  }

  lemma {:induction false} ReturnStack(s: A.Stmt, base: nat, d: int) returns (D: nat -> int)
    requires s.Return? && d >= 0 && StmtCallsNamed(s)
    ensures Closed(CompileStmt(s, base), base, D, d, d)
    decreases s, 1
  {
    var sp := s.span;
    var cv := match s.value case Some(v) => CompileExpr(v, base) case None => [IRNode(PushNull, sp)];
    var Dv;
    if s.value.Some? {
      Dv := ExprStack(s.value.value, base, d);
    } else {
      Dv := Single(IRNode(PushNull, sp), base, d);
    }
    var Dr := ReturnNode(IRNode(Return, sp), base + |cv|, d + 1, d);
    D := Glue(cv, [IRNode(Return, sp)], base, Dv, Dr, d, d + 1, d);
  }

  lemma {:induction false} IfStack(s: A.Stmt, base: nat, d: int) returns (D: nat -> int)
    requires s.If? && d >= 0 && StmtCallsNamed(s)
    ensures Closed(CompileStmt(s, base), base, D, d, d)
    decreases s, 1
  {
    var sp := s.span;
    var cc := CompileExpr(s.cond, base);
    var j := base + |cc|;
    var ct := CompileBlock(s.thenBlock, j + 1);
    var k := j + 1 + |ct|;
    var ce := CompileBlock(s.elseBlock, k + 1);
    var end := k + 1 + |ce|;
    var jif := IRNode(JumpIfFalse(k + 1), sp);
    var jmp := IRNode(Jump(end), sp);
    assert CompileStmt(s, base) == cc + ([jif] + ct + [jmp] + ce);
    var Dc := ExprStack(s.cond, base, d);
    var Dt := BlockStack(s.thenBlock, j + 1, d);
    var De := BlockStack(s.elseBlock, k + 1, d);
    var R := IfRest(ct, ce, j, sp, Dt, De, d);
    D := Glue(cc, [jif] + ct + [jmp] + ce, base, Dc, R, d, d + 1, d);
  }

  /** After the condition: the branch, the then-block, the jump over the else-block, the else-block. */
  lemma IfRest(ct: seq<IRNode>, ce: seq<IRNode>, j: nat, sp: Option<A.Span>, Dt: nat -> int, De: nat -> int, d: int)
    returns (R: nat -> int)
    requires d >= 0 && Closed(ct, j + 1, Dt, d, d) && Closed(ce, j + 2 + |ct|, De, d, d)
    ensures
      var k := j + 1 + |ct|;
      Closed([IRNode(JumpIfFalse(k + 1), sp)] + ct + [IRNode(Jump(k + 1 + |ce|), sp)] + ce, j, R, d + 1, d)
  {
    var k := j + 1 + |ct|;
    var end := k + 1 + |ce|;
    R := IfDepths(ct, ce, j, Dt, De, d);
    TargetsWiden(ct, j + 1, k, j, end);
    TargetsWiden(ce, k + 1, end, j, end);
    Splice([], IRNode(JumpIfFalse(k + 1), sp), ct, IRNode(Jump(end), sp), ce, j, R, j, end);
    assert [] + [IRNode(JumpIfFalse(k + 1), sp)] == [IRNode(JumpIfFalse(k + 1), sp)];
  }

  /** The depth map of an `if`: one more than around it before the branch, then the blocks' own. */
  lemma IfDepths(ct: seq<IRNode>, ce: seq<IRNode>, j: nat, Dt: nat -> int, De: nat -> int, d: int)
    returns (R: nat -> int)
    requires Closed(ct, j + 1, Dt, d, d) && Closed(ce, j + 2 + |ct|, De, d, d)
    ensures R(j) == d + 1 && Closed(ct, j + 1, R, d, d) && Closed(ce, j + 2 + |ct|, R, d, d)
  {
    var k := j + 1 + |ct|;
    R := (p: nat) => if p <= j then d + 1 else if p <= k then Dt(p) else De(p);
    Transfer(ct, j + 1, Dt, R, d, d);
    Transfer(ce, k + 1, De, R, d, d);
  }

  lemma {:induction false} WhileStack(s: A.Stmt, base: nat, d: int) returns (D: nat -> int)
    requires s.While? && d >= 0 && StmtCallsNamed(s)
    ensures Closed(CompileStmt(s, base), base, D, d, d)
    decreases s, 1
  {
    var sp := s.span;
    var cc := CompileExpr(s.cond, base);
    var j := base + |cc|;
    var cb := CompileBlock(s.body, j + 1);
    var e0 := j + 1 + |cb|;
    var end := e0 + 1;
    var jif := IRNode(JumpIfFalse(end), sp);
    var jmp := IRNode(Jump(base), sp);
    assert CompileStmt(s, base) == cc + [jif] + cb + [jmp];
    var Dc := ExprStack(s.cond, base, d);
    var Db := BlockStack(s.body, j + 1, d);
    D := WhileGlue(cc, cb, base, Dc, Db, d, sp);
  }

  /** The condition, the exit test, the body and the jump back make a closed loop. */
  lemma WhileGlue(cc: seq<IRNode>, cb: seq<IRNode>, base: nat, Dc: nat -> int, Db: nat -> int, d: int, sp: Option<A.Span>)
    returns (D: nat -> int)
    requires d >= 0 && Closed(cc, base, Dc, d, d + 1) && Closed(cb, base + |cc| + 1, Db, d, d)
    ensures var end := base + |cc| + |cb| + 2;
      Closed(cc + [IRNode(JumpIfFalse(end), sp)] + cb + [IRNode(Jump(base), sp)], base, D, d, d)
  {
    var j := base + |cc|;
    var e0 := j + 1 + |cb|;
    var end := e0 + 1;
    var jif := IRNode(JumpIfFalse(end), sp);
    var jmp := IRNode(Jump(base), sp);
    D := WhileDepths(cc, cb, base, Dc, Db, d);
    TargetsWiden(cc, base, j, base, end);
    TargetsWiden(cb, j + 1, e0, base, end);
    Splice(cc, jif, cb, jmp, [], base, D, base, end);
    assert cc + [jif] + cb + [jmp] + [] == cc + [jif] + cb + [jmp];
  }

  /** One depth map for a loop: the condition's, then the body's, then `d` after the jump back. */
  lemma WhileDepths(cc: seq<IRNode>, cb: seq<IRNode>, base: nat, Dc: nat -> int, Db: nat -> int, d: int)
    returns (D: nat -> int)
    requires Closed(cc, base, Dc, d, d + 1) && Closed(cb, base + |cc| + 1, Db, d, d)
    ensures Closed(cc, base, D, d, d + 1) && Closed(cb, base + |cc| + 1, D, d, d)
    ensures D(base + |cc| + |cb| + 2) == d
  {
    var j := base + |cc|;
    var e0 := j + 1 + |cb|;
    D := (p: nat) => if p <= j then Dc(p) else if p <= e0 then Db(p) else d;
    Transfer(cc, base, Dc, D, d, d + 1);
    Transfer(cb, j + 1, Db, D, d, d);
  }

  /** The counter test and decrement around a `loop` body, placed at `a` and `e0`. */
  function LoopHead(end: nat, sp: Option<A.Span>): seq<IRNode>
  {
    [IRNode(StoreVar(LoopRem), sp), IRNode(LoadVar(LoopRem), sp), IRNode(JumpIfFalse(end), sp)]
  }

  function LoopTail(start: nat, sp: Option<A.Span>): seq<IRNode>
  {
    [IRNode(LoadVar(LoopRem), sp), IRNode(ConstNum(1.0), sp), IRNode(Sub, sp), IRNode(StoreVar(LoopRem), sp), IRNode(Jump(start), sp)]
  }

  lemma {:induction false} LoopStack(s: A.Stmt, base: nat, d: int) returns (D: nat -> int)
    requires s.Loop? && d >= 0 && StmtCallsNamed(s)
    ensures Closed(CompileStmt(s, base), base, D, d, d)
    decreases s, 1
  {
    var sp := s.span;
    var cc := CompileExpr(s.count, base);
    var a := base + |cc|;
    var cb := CompileBlock(s.body, a + 3);
    var e0 := a + 3 + |cb|;
    var end := e0 + 5;
    var head := LoopHead(end, sp);
    var tail := LoopTail(a + 1, sp);
    assert CompileStmt(s, base) == cc + (head + cb + tail);
    var Dc := ExprStack(s.count, base, d);
    var Db := BlockStack(s.body, a + 3, d);
    var R := LoopRest(cb, a, sp, Db, d);
    D := Glue(cc, head + cb + tail, base, Dc, R, d, d + 1, d);
  }

  /** After the count: the test, the body and the decrement with its jump back to the test. */
  lemma LoopRest(cb: seq<IRNode>, a: nat, sp: Option<A.Span>, Db: nat -> int, d: int) returns (R: nat -> int)
    requires d >= 0 && Closed(cb, a + 3, Db, d, d)
    ensures Closed(LoopHead(a + 3 + |cb| + 5, sp) + cb + LoopTail(a + 1, sp), a, R, d + 1, d)
  {
    var e0 := a + 3 + |cb|;
    var end := e0 + 5;
    R := LoopDepths(cb, a, Db, d);
    LoopHeadSteps(end, sp, a, R, d);
    LoopTailSteps(a + 1, sp, e0, R, d, a, end);
    TargetsWiden(cb, a + 3, e0, a, end);
    Concat(LoopHead(end, sp), cb, a, R, a, end);
    Concat(LoopHead(end, sp) + cb, LoopTail(a + 1, sp), a, R, a, end);
  }

  /** The depth map of a `loop` after its count. */
  lemma LoopDepths(cb: seq<IRNode>, a: nat, Db: nat -> int, d: int) returns (R: nat -> int)
    requires Closed(cb, a + 3, Db, d, d)
    ensures R(a) == d + 1 && R(a + 1) == d && R(a + 2) == d + 1
    ensures Closed(cb, a + 3, R, d, d)
    ensures var e0 := a + 3 + |cb|;
      R(e0 + 1) == d + 1 && R(e0 + 2) == d + 2 && R(e0 + 3) == d + 1 && R(e0 + 4) == d && R(e0 + 5) == d
  {
    var e0 := a + 3 + |cb|;
    R := (p: nat) =>
      if p <= a then d + 1 else if p == a + 1 then d else if p == a + 2 then d + 1
      else if p <= e0 then Db(p) else if p == e0 + 2 then d + 2 else if p == e0 + 1 || p == e0 + 3 then d + 1 else d;
    Transfer(cb, a + 3, Db, R, d, d);
  }

  lemma LoopHeadSteps(end: nat, sp: Option<A.Span>, a: nat, R: nat -> int, d: int)
    requires d >= 0 && a + 3 <= end && R(a) == d + 1 && R(a + 1) == d && R(a + 2) == d + 1 && R(a + 3) == d && R(end) == d
    ensures Steps(LoopHead(end, sp), a, R) && Targets(LoopHead(end, sp), a, end)
  {
    var h := LoopHead(end, sp);
    assert StepOk(h[0].instr, a, R);
    assert StepOk(h[1].instr, a + 1, R);
    assert StepOk(h[2].instr, a + 2, R);
  }

  lemma LoopTailSteps(start: nat, sp: Option<A.Span>, e0: nat, R: nat -> int, d: int, lo: nat, hi: nat)
    requires d >= 0 && lo <= start <= hi
    requires R(e0) == d && R(e0 + 1) == d + 1 && R(e0 + 2) == d + 2 && R(e0 + 3) == d + 1 && R(e0 + 4) == d && R(start) == d
    ensures Steps(LoopTail(start, sp), e0, R) && Targets(LoopTail(start, sp), lo, hi)
  {
    var t := LoopTail(start, sp);
    assert StepOk(t[0].instr, e0, R);
    assert StepOk(t[1].instr, e0 + 1, R);
    assert StepOk(t[2].instr, e0 + 2, R);
    assert StepOk(t[3].instr, e0 + 3, R);
    assert StepOk(t[4].instr, e0 + 4, R);
  }

  /** The depth, above the depth around the statement, before each of the twelve instructions of `EachHead` and after them. */
  function EachHeadDepth(k: nat): int
  {
    if k < 13 then [1, 0, 1, 0, 1, 2, 2, 1, 0, 1, 2, 1, 0][k] else 0
  }

  function EachTail(start: nat, sp: Option<A.Span>): seq<IRNode>
  {
    [IRNode(LoadVar(EachIdx), sp), IRNode(ConstNum(1.0), sp), IRNode(Add, sp), IRNode(StoreVar(EachIdx), sp), IRNode(Jump(start), sp)]
  }

  lemma EachHeadSteps(variable: string, end: nat, sp: Option<A.Span>, a: nat, R: nat -> int, d: int)
    requires a + 12 <= end && d >= 0
    requires forall p: nat :: a <= p <= a + 12 ==> R(p) == d + EachHeadDepth(p - a)
    requires R(end) == d
    ensures Steps(EachHead(variable, end, sp), a, R) && Targets(EachHead(variable, end, sp), a, end)
  {
    var h := EachHead(variable, end, sp);
    forall k | 0 <= k < 12 ensures StepOk(h[k].instr, a + k, R) && (IsJump(h[k].instr) ==> a <= h[k].instr.target <= end) {
      assert R(a + k) == d + EachHeadDepth(k) && R(a + k + 1) == d + EachHeadDepth(k + 1);
    }
  }

  lemma {:induction false} EachStack(s: A.Stmt, base: nat, d: int) returns (D: nat -> int)
    requires s.Each? && d >= 0 && StmtCallsNamed(s)
    ensures Closed(CompileStmt(s, base), base, D, d, d)
    decreases s, 1
  {
    var sp := s.span;
    var ci := CompileExpr(s.iter, base);
    var a := base + |ci|;
    var cb := CompileBlock(s.body, a + 12);
    var e0 := a + 12 + |cb|;
    var end := e0 + 5;
    var head := EachHead(s.variable, end, sp);
    var tail := EachTail(a + 3, sp);
    assert CompileStmt(s, base) == ci + (head + cb + tail);
    var Di := ExprStack(s.iter, base, d);
    var Db := BlockStack(s.body, a + 12, d);
    var R := EachRest(s.variable, cb, a, sp, Db, d);
    D := Glue(ci, head + cb + tail, base, Di, R, d, d + 1, d);
  }

  /** After the iterable: the counter setup and test, the body and the increment with its jump back to the test. */
  lemma EachRest(variable: string, cb: seq<IRNode>, a: nat, sp: Option<A.Span>, Db: nat -> int, d: int) returns (R: nat -> int)
    requires d >= 0 && Closed(cb, a + 12, Db, d, d)
    ensures Closed(EachHead(variable, a + 12 + |cb| + 5, sp) + cb + EachTail(a + 3, sp), a, R, d + 1, d)
  {
    var e0 := a + 12 + |cb|;
    var end := e0 + 5;
    R := EachDepths(cb, a, Db, d);
    EachHeadSteps(variable, end, sp, a, R, d);
    EachTailSteps(a + 3, sp, e0, R, d, a, end);
    TargetsWiden(cb, a + 12, e0, a, end);
    Concat(EachHead(variable, end, sp), cb, a, R, a, end);
    Concat(EachHead(variable, end, sp) + cb, EachTail(a + 3, sp), a, R, a, end);
  }

  /** The depth map of an `each` after its iterable. */
  lemma EachDepths(cb: seq<IRNode>, a: nat, Db: nat -> int, d: int) returns (R: nat -> int)
    requires Closed(cb, a + 12, Db, d, d)
    ensures forall p: nat :: a <= p <= a + 12 ==> R(p) == d + EachHeadDepth(p - a)
    ensures Closed(cb, a + 12, R, d, d)
    ensures var e0 := a + 12 + |cb|;
      R(e0 + 1) == d + 1 && R(e0 + 2) == d + 2 && R(e0 + 3) == d + 1 && R(e0 + 4) == d && R(e0 + 5) == d
  {
    var e0 := a + 12 + |cb|;
    R := (p: nat) =>
      if p < a then d + 1 else if p <= a + 12 then d + EachHeadDepth(p - a)
      else if p <= e0 then Db(p) else if p == e0 + 2 then d + 2 else if p == e0 + 1 || p == e0 + 3 then d + 1 else d;
    Transfer(cb, a + 12, Db, R, d, d);
  }

  lemma EachTailSteps(start: nat, sp: Option<A.Span>, e0: nat, R: nat -> int, d: int, lo: nat, hi: nat)
    requires d >= 0 && lo <= start <= hi
    requires R(e0) == d && R(e0 + 1) == d + 1 && R(e0 + 2) == d + 2 && R(e0 + 3) == d + 1 && R(e0 + 4) == d && R(start) == d
    ensures Steps(EachTail(start, sp), e0, R) && Targets(EachTail(start, sp), lo, hi)
  {
    var t := EachTail(start, sp);
    assert StepOk(t[0].instr, e0, R);
    assert StepOk(t[1].instr, e0 + 1, R);
    assert StepOk(t[2].instr, e0 + 2, R);
    assert StepOk(t[3].instr, e0 + 3, R);
    assert StepOk(t[4].instr, e0 + 4, R);
  }

  // ---------------------------------------------------------------------------
  // Whole programs

  /** Every function body in `fns` is closed at depth 0 under its map in `Df`. */
  predicate FunctionsClosed(fns: map<string, IRFunction>, Df: map<string, nat -> int>)
  {
    forall name :: name in fns ==> name in Df && Closed(fns[name].code, 0, Df[name], 0, 0)
  }

  /** A block of statements followed by `return`. */
  lemma BodyStack(ss: seq<A.Stmt>) returns (D: nat -> int)
    requires BlockCallsNamed(ss)
    ensures Closed(CompileBlock(ss, 0) + [IRNode(Return, None)], 0, D, 0, 0)
  {
    var c := CompileBlock(ss, 0);
    var Db := BlockStack(ss, 0, 0);
    var Dr := ReturnNode(IRNode(Return, None), |c|, 0, 0);
    D := Glue(c, [IRNode(Return, None)], 0, Db, Dr, 0, 0, 0);
  }

  /** A function definition enters the table with a closed body. */
  lemma AddFunction(fns: map<string, IRFunction>, Df: map<string, nat -> int>, name: string, params: seq<string>, body: seq<A.Stmt>)
    returns (Df': map<string, nat -> int>)
    requires FunctionsClosed(fns, Df) && BlockCallsNamed(body)
    ensures FunctionsClosed(fns[name := IRFunction(params, CompileBlock(body, 0) + [IRNode(Return, None)])], Df')
  {
    var Db := BodyStack(body);
    Df' := Df[name := Db];
  }

  /** Any other top-level statement is appended to main, which stays closed at depth 0. */
  lemma AddMain(main: seq<IRNode>, Dm: nat -> int, s: A.Stmt) returns (D: nat -> int)
    requires Closed(main, 0, Dm, 0, 0) && StmtCallsNamed(s)
    ensures Closed(main + CompileStmt(s, |main|), 0, D, 0, 0)
  {
    var Ds := StmtStack(s, |main|, 0);
    D := Glue(main, CompileStmt(s, |main|), 0, Dm, Ds, 0, 0, 0);
  }

  lemma TopFn(stmts: seq<A.Stmt>, main: seq<IRNode>, fns: map<string, IRFunction>)
    requires |stmts| > 0 && stmts[0].FnDef?
    ensures var s := stmts[0];
      CompileTop(stmts, main, fns)
      == CompileTop(stmts[1..], main, fns[s.name := IRFunction(s.params, CompileBlock(s.body, 0) + [IRNode(Return, None)])])
  {
  }

  lemma TopOther(stmts: seq<A.Stmt>, main: seq<IRNode>, fns: map<string, IRFunction>)
    requires |stmts| > 0 && !stmts[0].FnDef?
    ensures CompileTop(stmts, main, fns) == CompileTop(stmts[1..], main + CompileStmt(stmts[0], |main|), fns)
  {
  }

  lemma {:induction false} TopStack(stmts: seq<A.Stmt>, main: seq<IRNode>, fns: map<string, IRFunction>,
                                    Dm: nat -> int, Df: map<string, nat -> int>)
    returns (Dm': nat -> int, Df': map<string, nat -> int>)
    requires BlockCallsNamed(stmts) && Closed(main, 0, Dm, 0, 0) && FunctionsClosed(fns, Df)
    ensures Closed(CompileTop(stmts, main, fns).0, 0, Dm', 0, 0) && FunctionsClosed(CompileTop(stmts, main, fns).1, Df')
    decreases |stmts|
  {
    if |stmts| == 0 {
      Dm', Df' := Dm, Df;
    } else {
      assert BlockCallsNamed(stmts[1..]) by {
        forall i | 0 <= i < |stmts[1..]| ensures StmtCallsNamed(stmts[1..][i]) { assert stmts[1..][i] == stmts[i + 1]; }
      }
      assert StmtCallsNamed(stmts[0]);
      var s := stmts[0];
      if s.FnDef? {
        var fns1 := fns[s.name := IRFunction(s.params, CompileBlock(s.body, 0) + [IRNode(Return, None)])];
        var Df1 := AddFunction(fns, Df, s.name, s.params, s.body);
        TopFn(stmts, main, fns);
        Dm', Df' := TopStack(stmts[1..], main, fns1, Dm, Df1);
      } else {
        var D1 := AddMain(main, Dm, s);
        TopOther(stmts, main, fns);
        Dm', Df' := TopStack(stmts[1..], main + CompileStmt(s, |main|), fns, D1, Df);
      }
    }
  }

  /**
   * Stack discipline of a compiled script: main and every function body
   * start and end at depth 0, every jump lands inside its block, and no
   * instruction pops more than the block has pushed.
   */
  lemma CompileIrStack(stmts: seq<A.Stmt>) returns (Dm: nat -> int, Df: map<string, nat -> int>)
    requires BlockCallsNamed(stmts)
    ensures Closed(CompileIr(stmts).main, 0, Dm, 0, 0)
    ensures FunctionsClosed(CompileIr(stmts).functions, Df)
  {
    var D0 := Empty(0, 0);
    var Dtop, Df1 := TopStack(stmts, [], map[], D0, map[]);
    var (main, fns) := CompileTop(stmts, [], map[]);
    var Dr := ReturnNode(IRNode(Return, None), |main|, 0, 0);
    Dm := Glue(main, [IRNode(Return, None)], 0, Dtop, Dr, 0, 0, 0);
    Df := Df1;
  }
}
