/**
 * The tree-walking evaluator of naux-lang (runtime/eval.rs). It runs
 * statements against a scope-stack environment and records one runtime
 * event (runtime/events.rs) per action.
 *
 * Three things the evaluator reaches outside itself become parameters:
 * the debug rendering of a value (`{:?}`), the oracle that answers `!ask`,
 * and a fuel budget that bounds the number of `while` iterations (None
 * means the budget ran out; the source loops for ever instead).
 */
module ScriptEval {
  import opened Wrappers
  import A = ScriptAst
  import opened ScriptValue
  import E = Env

  /** `i64::MAX` and `usize::MAX`, the saturation bounds of Rust's float-to-int casts. */
  const I64Max: int := 0x7fff_ffff_ffff_ffff
  const UsizeMax: int := 0xffff_ffff_ffff_ffff

  datatype Event =
    | SayEvent(text: string)
    | AskEvent(prompt: string, answer: string)
    | FetchEvent(target: string)
    | UiEvent(kind: string, props: seq<(string, Value)>)
    | TextEvent(text: string)
    | ButtonEvent(text: string)
    | LogEvent(text: string)

  /** The host: `show` renders a value as `{:?}` does, `oracle` answers a prompt. */
  datatype Host = Host(show: Value -> string, oracle: string -> string)

  datatype State = State(env: E.Env<Value>, events: seq<Event>)

  /** `n as usize` for a float index: negative values become 0, large ones saturate. */
  function IndexOf(n: real): (i: nat)
    ensures n <= 0.0 ==> i == 0
    ensures 0.0 <= n < UsizeMax as real ==> i as real <= n < i as real + 1.0
  {
    if n <= 0.0 then 0 else if n.Floor > UsizeMax then UsizeMax else n.Floor
  }

  // ---------------------------------------------------------------- expressions

  /** `eval_expr`. The environment is only read. */
  function EvalExpr(e: A.Expr, env: E.Env<Value>, h: Host): (v: Value)
    decreases e, 1
  {
    match e
    case Number(n) => Number(n)
    case Bool(b) => Bool(b)
    case Text(s) => Text(s)
    case List(items) => List(EvalItems(items, env, h))
    case Map(entries) => Map(EvalEntries(e, |entries|, env, h))
    case Var(name) => E.Get(env, name).UnwrapOr(Null)
    case Binary(op, left, right) =>
      EvalBinary(op, EvalExpr(left, env, h), EvalExpr(right, env, h), h.show)
    case Unary(op, operand) =>
      var v := EvalExpr(operand, env, h);
      (match op
       case Neg => if v.Number? then Number(-v.n) else Null
       case Not => Bool(!Truthy(v)))
    case Index(target, index) =>
      var t := EvalExpr(target, env, h);
      var idx := EvalExpr(index, env, h);
      if t.List? && idx.Number? then
        var i := IndexOf(idx.n);
        if i < |t.items| then t.items[i] else Null
      else if t.Map? && idx.Text? then
        if idx.s in t.entries then t.entries[idx.s] else Null
      else Null
    case Field(obj, field) =>
      var t := EvalExpr(obj, env, h);
      if t.Map? && field in t.entries then t.entries[field] else Null
  }

  function EvalItems(items: seq<A.Expr>, env: E.Env<Value>, h: Host): (vs: seq<Value>)
    decreases items
    ensures |vs| == |items|
    ensures forall i :: 0 <= i < |items| ==> vs[i] == EvalExpr(items[i], env, h)
  {
    if |items| == 0 then [] else [EvalExpr(items[0], env, h)] + EvalItems(items[1..], env, h)
  }

  /** The map built by inserting the first `n` entries in order, so a later duplicate key wins. */
  function EvalEntries(e: A.Expr, n: nat, env: E.Env<Value>, h: Host): (m: map<string, Value>)
    requires e.Map? && n <= |e.entries|
    decreases e, 0, n
    ensures m.Keys == set i | 0 <= i < n :: e.entries[i].0
  {
    if n == 0 then map[]
    else EvalEntries(e, n - 1, env, h)[e.entries[n - 1].0 := EvalExpr(e.entries[n - 1].1, env, h)]
  }

  // ---------------------------------------------------------------- actions

  function EvalProps(props: seq<(string, A.Expr)>, env: E.Env<Value>, h: Host): (r: seq<(string, Value)>)
    ensures |r| == |props|
    ensures forall i :: 0 <= i < |props| ==> r[i] == (props[i].0, EvalExpr(props[i].1, env, h))
  {
    seq(|props|, i requires 0 <= i < |props| => (props[i].0, EvalExpr(props[i].1, env, h)))
  }

  /** `dispatch_action`: the single event an action records. */
  function Dispatch(a: A.ActionKind, env: E.Env<Value>, h: Host): Event
  {
    match a
    case Say(value) => SayEvent(h.show(EvalExpr(value, env, h)))
    case Ui(kind, props) => UiEvent(kind, EvalProps(props, env, h))
    case TextAction(value) => TextEvent(h.show(EvalExpr(value, env, h)))
    case Button(value) => ButtonEvent(h.show(EvalExpr(value, env, h)))
    case Fetch(value) => FetchEvent(h.show(EvalExpr(value, env, h)))
    case Ask(value) =>
      var prompt := h.show(EvalExpr(value, env, h));
      AskEvent(prompt, h.oracle(prompt))
    case Log(value) => LogEvent(h.show(EvalExpr(value, env, h)))
  }

  /** Each action kind records the event of the same kind. */
  predicate EventMatches(a: A.ActionKind, ev: Event)
  {
    match a
    case Say(_) => ev.SayEvent?
    case Ui(kind, props) => ev.UiEvent? && ev.kind == kind && |ev.props| == |props|
    case TextAction(_) => ev.TextEvent?
    case Button(_) => ev.ButtonEvent?
    case Fetch(_) => ev.FetchEvent?
    case Ask(_) => ev.AskEvent?
    case Log(_) => ev.LogEvent?
  }

  // ---------------------------------------------------------------- statements

  function StmtSize(s: A.Stmt): (n: nat)
    ensures n >= 2
  {
    match s
    case Rite(body, _) => 2 + BlockSize(body)
    case If(_, t, e, _) => 2 + BlockSize(t) + BlockSize(e)
    case Loop(_, body, _) => 2 + BlockSize(body)
    case Each(_, _, body, _) => 2 + BlockSize(body)
    case While(_, body, _) => 2 + BlockSize(body)
    case _ => 2
  }

  function BlockSize(b: seq<A.Stmt>): nat
  {
    if |b| == 0 then 0 else 1 + StmtSize(b[0]) + BlockSize(b[1..])
  }

  /** The iteration count of `loop`: `x as i64` for a positive number, otherwise 0. */
  function LoopCount(v: Value): (n: nat)
    ensures v.Number? && 0.0 < v.n < I64Max as real ==> n == Trunc(v.n)
    ensures !(v.Number? && v.n > 0.0) ==> n == 0
  {
    if v.Number? && v.n > 0.0 then (if Trunc(v.n) > I64Max then I64Max else Trunc(v.n)) else 0
  }

  /** `eval_stmt`. */
  function EvalStmt(s: A.Stmt, st: State, h: Host, fuel: nat): Option<State>
    decreases fuel, StmtSize(s), 0
  {
    match s
    case Rite(body, _) =>
      var inner :- EvalBlock(body, st.(env := E.Push(st.env)), h, fuel);
      Some(inner.(env := E.Pop(inner.env)))
    case Assign(name, expr, _) =>
      Some(st.(env := E.Set(st.env, name, EvalExpr(expr, st.env, h))))
    case If(cond, thenBlock, elseBlock, _) =>
      if Truthy(EvalExpr(cond, st.env, h)) then EvalBlock(thenBlock, st, h, fuel)
      else EvalBlock(elseBlock, st, h, fuel)
    case Loop(count, body, _) =>
      RepeatBlock(body, LoopCount(EvalExpr(count, st.env, h)), st, h, fuel)
    case Each(variable, iter, body, _) =>
      var it := EvalExpr(iter, st.env, h);
      if it.List? then EachItems(variable, it.items, body, st, h, fuel) else Some(st)
    case While(cond, body, _) =>
      WhileLoop(cond, body, st, h, fuel)
    case Action(action, _) =>
      Some(st.(events := st.events + [Dispatch(action, st.env, h)]))
    case Return(_, _) => Some(st)
    case Import(_, _) => Some(st)
  }

  /** `eval_block`: the statements in order, stopping only when the fuel runs out. */
  function EvalBlock(b: seq<A.Stmt>, st: State, h: Host, fuel: nat): Option<State>
    decreases fuel, BlockSize(b), 0
  {
    if |b| == 0 then Some(st)
    else
      var next :- EvalStmt(b[0], st, h, fuel);
      EvalBlock(b[1..], next, h, fuel)
  }

  /** The body of a `loop`, run `n` times without a scope of its own. */
  function RepeatBlock(body: seq<A.Stmt>, n: nat, st: State, h: Host, fuel: nat): Option<State>
    decreases fuel, BlockSize(body) + 1, n
  {
    if n == 0 then Some(st)
    else
      var next :- EvalBlock(body, st, h, fuel);
      RepeatBlock(body, n - 1, next, h, fuel)
  }

  /** The body of an `each`, once per item, each time in a fresh scope binding the variable. */
  function EachItems(variable: string, items: seq<Value>, body: seq<A.Stmt>, st: State, h: Host, fuel: nat): Option<State>
    decreases fuel, BlockSize(body) + 1, |items|
  {
    if |items| == 0 then Some(st)
    else
      var bound := E.Set(E.Push(st.env), variable, items[0]);
      var inner :- EvalBlock(body, st.(env := bound), h, fuel);
      EachItems(variable, items[1..], body, inner.(env := E.Pop(inner.env)), h, fuel)
  }

  /** A `while` loop; every iteration re-evaluates the condition and costs one unit of fuel. */
  function WhileLoop(cond: A.Expr, body: seq<A.Stmt>, st: State, h: Host, fuel: nat): Option<State>
    decreases fuel, BlockSize(body) + 1, 0
  {
    if !Truthy(EvalExpr(cond, st.env, h)) then Some(st)
    else if fuel == 0 then None
    else
      var next :- EvalBlock(body, st, h, fuel - 1);
      WhileLoop(cond, body, next, h, fuel - 1)
  }

  /** `eval_script`: the statements run against a fresh one-scope environment and no events. */
  function EvalScript(stmts: seq<A.Stmt>, h: Host, fuel: nat): Option<State>
  {
    EvalBlock(stmts, State(E.New(), []), h, fuel)
  }

  // ---------------------------------------------------------------- properties

  /**
   * What any statement may do to the state: keep the scope depth, leave
   * every scope but the innermost as it was, and only append events.
   */
  predicate Frames(st: State, st2: State)
  {
    && |st2.env.scopes| == |st.env.scopes|
    && (forall i :: 0 <= i < |st.env.scopes| - 1 ==> st2.env.scopes[i] == st.env.scopes[i])
    && st.events <= st2.events
  }

  lemma FramesTrans(a: State, b: State, c: State)
    requires Frames(a, b) && Frames(b, c)
    ensures Frames(a, c)
  {
  }

  /** A scope pushed before a frame-respecting run and popped after it leaves the environment exactly as it was. */
  lemma PopAfterPush(st: State, pushed: State, inner: State)
    requires |st.env.scopes| >= 1
    requires |pushed.env.scopes| == |st.env.scopes| + 1
    requires pushed.env.scopes[..|st.env.scopes|] == st.env.scopes
    requires Frames(pushed, inner)
    ensures E.Pop(inner.env) == st.env
  {
    var d := |st.env.scopes|;
    assert inner.env.scopes[..d] == st.env.scopes by {
      forall i | 0 <= i < d ensures inner.env.scopes[i] == st.env.scopes[i] {
        assert pushed.env.scopes[..d][i] == pushed.env.scopes[i];
      }
    }
  }

  lemma {:induction false} StmtFrames(s: A.Stmt, st: State, h: Host, fuel: nat)
    requires |st.env.scopes| >= 1
    ensures EvalStmt(s, st, h, fuel).Some? ==> Frames(st, EvalStmt(s, st, h, fuel).value)
    decreases fuel, StmtSize(s), 0
  {
    match s
    case Rite(body, _) =>
      var pushed := st.(env := E.Push(st.env));
      BlockFrames(body, pushed, h, fuel);
      var r := EvalBlock(body, pushed, h, fuel);
      if r.Some? {
        PopAfterPush(st, pushed, r.value);
      }
    case Assign(_, _, _) =>
    case If(cond, t, e, _) =>
      BlockFrames(t, st, h, fuel);
      BlockFrames(e, st, h, fuel);
    case Loop(count, body, _) =>
      RepeatFrames(body, LoopCount(EvalExpr(count, st.env, h)), st, h, fuel);
    case Each(variable, iter, body, _) =>
      var it := EvalExpr(iter, st.env, h);
      if it.List? {
        EachFrames(variable, it.items, body, st, h, fuel);
      }
    case While(cond, body, _) =>
      WhileFrames(cond, body, st, h, fuel);
    case Action(_, _) =>
    case Return(_, _) =>
    case Import(_, _) =>
  }

  lemma {:induction false} BlockFrames(b: seq<A.Stmt>, st: State, h: Host, fuel: nat)
    requires |st.env.scopes| >= 1
    ensures EvalBlock(b, st, h, fuel).Some? ==> Frames(st, EvalBlock(b, st, h, fuel).value)
    decreases fuel, BlockSize(b), 0
  {
    if |b| > 0 {
      StmtFrames(b[0], st, h, fuel);
      var next := EvalStmt(b[0], st, h, fuel);
      if next.Some? {
        BlockFrames(b[1..], next.value, h, fuel);
        var r := EvalBlock(b[1..], next.value, h, fuel);
        if r.Some? {
          FramesTrans(st, next.value, r.value);
        }
      }
    }
  }

  lemma {:induction false} RepeatFrames(body: seq<A.Stmt>, n: nat, st: State, h: Host, fuel: nat)
    requires |st.env.scopes| >= 1
    ensures RepeatBlock(body, n, st, h, fuel).Some? ==> Frames(st, RepeatBlock(body, n, st, h, fuel).value)
    decreases fuel, BlockSize(body) + 1, n
  {
    if n > 0 {
      BlockFrames(body, st, h, fuel);
      var next := EvalBlock(body, st, h, fuel);
      if next.Some? {
        RepeatFrames(body, n - 1, next.value, h, fuel);
        var r := RepeatBlock(body, n - 1, next.value, h, fuel);
        if r.Some? {
          FramesTrans(st, next.value, r.value);
        }
      }
    }
  }

  lemma {:induction false} EachFrames(variable: string, items: seq<Value>, body: seq<A.Stmt>, st: State, h: Host, fuel: nat)
    requires |st.env.scopes| >= 1
    ensures EachItems(variable, items, body, st, h, fuel).Some? ==>
      var r := EachItems(variable, items, body, st, h, fuel).value;
      r.env == st.env && st.events <= r.events
    decreases fuel, BlockSize(body) + 1, |items|
  {
    if |items| > 0 {
      var bound := E.Set(E.Push(st.env), variable, items[0]);
      var pushed := st.(env := bound);
      assert pushed.env.scopes[..|st.env.scopes|] == st.env.scopes by {
        assert E.Push(st.env).scopes[..|st.env.scopes|] == st.env.scopes;
      }
      BlockFrames(body, pushed, h, fuel);
      var inner := EvalBlock(body, pushed, h, fuel);
      if inner.Some? {
        PopAfterPush(st, pushed, inner.value);
        EachFrames(variable, items[1..], body, inner.value.(env := E.Pop(inner.value.env)), h, fuel);
      }
    }
  }

  lemma {:induction false} WhileFrames(cond: A.Expr, body: seq<A.Stmt>, st: State, h: Host, fuel: nat)
    requires |st.env.scopes| >= 1
    ensures WhileLoop(cond, body, st, h, fuel).Some? ==> Frames(st, WhileLoop(cond, body, st, h, fuel).value)
    decreases fuel, BlockSize(body) + 1, 0
  {
    if Truthy(EvalExpr(cond, st.env, h)) && fuel > 0 {
      BlockFrames(body, st, h, fuel - 1);
      var next := EvalBlock(body, st, h, fuel - 1);
      if next.Some? {
        WhileFrames(cond, body, next.value, h, fuel - 1);
        var r := WhileLoop(cond, body, next.value, h, fuel - 1);
        if r.Some? {
          FramesTrans(st, next.value, r.value);
        }
      }
    }
  }

  /** A rite's bindings do not survive it: the environment after the rite is the one before. */
  lemma RiteRestoresEnv(body: seq<A.Stmt>, span: Option<A.LangToken.Span>, st: State, h: Host, fuel: nat)
    requires |st.env.scopes| >= 1
    ensures EvalStmt(A.Rite(body, span), st, h, fuel).Some? ==>
      EvalStmt(A.Rite(body, span), st, h, fuel).value.env == st.env
  {
    StmtFrames(A.Rite(body, span), st, h, fuel);
    var pushed := st.(env := E.Push(st.env));
    BlockFrames(body, pushed, h, fuel);
    var r := EvalBlock(body, pushed, h, fuel);
    if r.Some? {
      PopAfterPush(st, pushed, r.value);
    }
  }

  /** A whole script ends with exactly the one global scope it started with. */
  lemma ScriptKeepsGlobalScope(stmts: seq<A.Stmt>, h: Host, fuel: nat)
    ensures EvalScript(stmts, h, fuel).Some? ==> |EvalScript(stmts, h, fuel).value.env.scopes| == 1
  {
    BlockFrames(stmts, State(E.New(), []), h, fuel);
  }

  /** An action leaves the environment alone and appends exactly one event of its own kind. */
  lemma ActionAppendsOneEvent(a: A.ActionKind, span: Option<A.LangToken.Span>, st: State, h: Host, fuel: nat)
    ensures EvalStmt(A.Action(a, span), st, h, fuel).Some?
    ensures var r := EvalStmt(A.Action(a, span), st, h, fuel).value;
      && r.env == st.env
      && |r.events| == |st.events| + 1
      && r.events[..|st.events|] == st.events
      && EventMatches(a, r.events[|st.events|])
  {
  }

  /** `!ask` records the oracle's answer to the rendered prompt. */
  lemma AskUsesOracle(value: A.Expr, env: E.Env<Value>, h: Host)
    ensures Dispatch(A.Ask(value), env, h).answer == h.oracle(Dispatch(A.Ask(value), env, h).prompt)
  {
  }

  /** Return and import statements change nothing. */
  lemma ReturnImportNoop(value: Option<A.Expr>, name: string, span: Option<A.LangToken.Span>, st: State, h: Host, fuel: nat)
    ensures EvalStmt(A.Return(value, span), st, h, fuel) == Some(st)
    ensures EvalStmt(A.Import(name, span), st, h, fuel) == Some(st)
  {
  }

  /** An if runs exactly one of its blocks, chosen by the truthiness of the condition. */
  lemma IfRunsOneBlock(cond: A.Expr, t: seq<A.Stmt>, e: seq<A.Stmt>, span: Option<A.LangToken.Span>, st: State, h: Host, fuel: nat)
    ensures Truthy(EvalExpr(cond, st.env, h)) ==> EvalStmt(A.If(cond, t, e, span), st, h, fuel) == EvalBlock(t, st, h, fuel)
    ensures !Truthy(EvalExpr(cond, st.env, h)) ==> EvalStmt(A.If(cond, t, e, span), st, h, fuel) == EvalBlock(e, st, h, fuel)
  {
  }

  /** A block of one `!say e` whose expression is fixed by the environment records `n` identical events. */
  lemma {:induction false} RepeatSayEvents(e: A.Expr, span: Option<A.LangToken.Span>, n: nat, st: State, h: Host, fuel: nat)
    ensures RepeatBlock([A.Action(A.Say(e), span)], n, st, h, fuel)
      == Some(st.(events := st.events + seq(n, _ => SayEvent(h.show(EvalExpr(e, st.env, h))))))
  {
    if n > 0 {
      var ev := SayEvent(h.show(EvalExpr(e, st.env, h)));
      var next := st.(events := st.events + [ev]);
      assert EvalBlock([A.Action(A.Say(e), span)], st, h, fuel) == Some(next) by {
        assert [A.Action(A.Say(e), span)][1..] == [];
      }
      RepeatSayEvents(e, span, n - 1, next, h, fuel);
      assert next.events + seq(n - 1, _ => ev) == st.events + seq(n, _ => ev);
    } else {
      assert st.events + seq(0, _ => SayEvent(h.show(EvalExpr(e, st.env, h)))) == st.events;
    }
  }

  /** `loop c` runs its body `c` times (truncated), and not at all unless `c` is a positive number. */
  lemma LoopSayCount(count: A.Expr, e: A.Expr, span: Option<A.LangToken.Span>, st: State, h: Host, fuel: nat)
    ensures var r := EvalStmt(A.Loop(count, [A.Action(A.Say(e), span)], span), st, h, fuel);
      var c := EvalExpr(count, st.env, h);
      && r.Some?
      && r.value.env == st.env
      && |r.value.events| == |st.events| + LoopCount(c)
      && (c.Number? && 0.0 < c.n < I64Max as real ==> |r.value.events| == |st.events| + Trunc(c.n))
      && (!(c.Number? && c.n > 0.0) ==> r.value == st)
  {
    RepeatSayEvents(e, span, LoopCount(EvalExpr(count, st.env, h)), st, h, fuel);
  }

  /**
   * `each x in list` with body `!say $x` records the rendering of every item,
   * in list order, and leaves the environment as it was.
   */
  lemma {:induction false} EachSaysItems(x: string, items: seq<Value>, span: Option<A.LangToken.Span>, st: State, h: Host, fuel: nat)
    requires |st.env.scopes| >= 1
    ensures EachItems(x, items, [A.Action(A.Say(A.Var(x)), span)], st, h, fuel)
      == Some(st.(events := st.events + seq(|items|, i requires 0 <= i < |items| => SayEvent(h.show(items[i])))))
  {
    if |items| > 0 {
      var body := [A.Action(A.Say(A.Var(x)), span)];
      var bound := E.Set(E.Push(st.env), x, items[0]);
      E.SetThenGet(E.Push(st.env), x, items[0]);
      var ev := SayEvent(h.show(items[0]));
      assert EvalExpr(A.Var(x), bound, h) == items[0];
      assert EvalBlock(body, st.(env := bound), h, fuel) == Some(State(bound, st.events + [ev])) by {
        assert body[1..] == [];
      }
      assert E.Pop(bound) == st.env by {
        assert E.Push(st.env).scopes[..|st.env.scopes|] == st.env.scopes;
      }
      var next := st.(events := st.events + [ev]);
      EachSaysItems(x, items[1..], span, next, h, fuel);
      var rest := seq(|items| - 1, i requires 0 <= i < |items| - 1 => SayEvent(h.show(items[1..][i])));
      var all := seq(|items|, i requires 0 <= i < |items| => SayEvent(h.show(items[i])));
      assert [ev] + rest == all;
      assert next.events + rest == st.events + all;
    } else {
      var none := seq(|items|, i requires 0 <= i < |items| => SayEvent(h.show(items[i])));
      assert st.events + none == st.events;
    }
  }

  /** `each` over anything but a list runs its body zero times and changes nothing. */
  lemma EachNonListNoop(x: string, iter: A.Expr, body: seq<A.Stmt>, span: Option<A.LangToken.Span>, st: State, h: Host, fuel: nat)
    requires !EvalExpr(iter, st.env, h).List?
    ensures EvalStmt(A.Each(x, iter, body, span), st, h, fuel) == Some(st)
  {
  }

  /** A `while` that finishes has re-evaluated its condition to a falsy value on the final state. */
  lemma {:induction false} WhileExitsOnFalsy(cond: A.Expr, body: seq<A.Stmt>, st: State, h: Host, fuel: nat)
    ensures WhileLoop(cond, body, st, h, fuel).Some? ==>
      !Truthy(EvalExpr(cond, WhileLoop(cond, body, st, h, fuel).value.env, h))
    decreases fuel
  {
    if Truthy(EvalExpr(cond, st.env, h)) && fuel > 0 {
      var next := EvalBlock(body, st, h, fuel - 1);
      if next.Some? {
        WhileExitsOnFalsy(cond, body, next.value, h, fuel - 1);
      }
    }
  }

  /** Unbound variables, missing keys and fields, and indexing a non-container all give Null. */
  lemma NullOnMissing(env: E.Env<Value>, h: Host, name: string, target: A.Expr, index: A.Expr, field: string)
    ensures E.Get(env, name).None? ==> EvalExpr(A.Var(name), env, h) == Null
    ensures var t := EvalExpr(target, env, h);
      !t.List? && !t.Map? ==> EvalExpr(A.Index(target, index), env, h) == Null
    ensures var t := EvalExpr(target, env, h); var i := EvalExpr(index, env, h);
      t.List? && i.Number? && IndexOf(i.n) >= |t.items| ==> EvalExpr(A.Index(target, index), env, h) == Null
    ensures var t := EvalExpr(target, env, h); var i := EvalExpr(index, env, h);
      t.Map? && i.Text? && i.s !in t.entries ==> EvalExpr(A.Index(target, index), env, h) == Null
    ensures var t := EvalExpr(target, env, h);
      !(t.Map? && field in t.entries) ==> EvalExpr(A.Field(target, field), env, h) == Null
  {
  }

  /** A list index picks the item at the truncated position; a map index picks the keyed entry. */
  lemma IndexHits(env: E.Env<Value>, h: Host, target: A.Expr, index: A.Expr)
    ensures var t := EvalExpr(target, env, h); var i := EvalExpr(index, env, h);
      t.List? && i.Number? && 0.0 <= i.n < |t.items| as real && i.n < UsizeMax as real ==>
        EvalExpr(A.Index(target, index), env, h) == t.items[i.n.Floor]
    ensures var t := EvalExpr(target, env, h); var i := EvalExpr(index, env, h);
      t.Map? && i.Text? && i.s in t.entries ==>
        EvalExpr(A.Index(target, index), env, h) == t.entries[i.s]
  {
  }

  /** In a map literal the last entry with a given key decides its value. */
  lemma MapLiteralLastWins(e: A.Expr, env: E.Env<Value>, h: Host, k: nat)
    requires e.Map? && k < |e.entries|
    requires forall j :: k < j < |e.entries| ==> e.entries[j].0 != e.entries[k].0
    ensures EvalExpr(e, env, h) == Map(EvalEntries(e, |e.entries|, env, h))
    ensures EvalEntries(e, |e.entries|, env, h)[e.entries[k].0] == EvalExpr(e.entries[k].1, env, h)
  {
    LastWinsUpTo(e, env, h, k, |e.entries|);
  }

  lemma {:induction false} LastWinsUpTo(e: A.Expr, env: E.Env<Value>, h: Host, k: nat, n: nat)
    requires e.Map? && k < n <= |e.entries|
    requires forall j :: k < j < n ==> e.entries[j].0 != e.entries[k].0
    ensures e.entries[k].0 in EvalEntries(e, n, env, h)
    ensures EvalEntries(e, n, env, h)[e.entries[k].0] == EvalExpr(e.entries[k].1, env, h)
  {
    if n - 1 > k {
      LastWinsUpTo(e, env, h, k, n - 1);
    }
  }
}
