# Naux in Dafny

This project models the core of Naux, a small scripting language for
"rituals" (`~ rite … ~ end` blocks of actions such as `!say`, `!ui`, `!ask`).
It covers both of its implementations:

- **naux-lang**, the main implementation. The model has:
  - its lexer and recursive-descent parser;
  - the scope-stack environment;
  - the tree-walking evaluator;
  - the source formatter;
  - the compiler from AST to IR and from IR to bytecode, with its two optimisers;
  - the bytecode interpreter and its value type;
  - the standard library: math, algorithms, collections, graph and test builtins.
- **naux-rs**, the older implementation. The model has:
  - its lexer and parser;
  - the `Context` runtime with nested-path variables;
  - the runtime's pure algorithms: seven sorts, linear and binary search, gcd, fib, the sieve, longest common subsequence and topological sort.

Every operation is a pure Dafny function, or a method over immutable
sequences. Each one is paired with what the source promises about it, as
`ensures` clauses or as lemmas relating several calls. Examples of such
promises:

- an assignment reads back;
- every sort yields an ascending permutation;
- the scope stack never loses its global scope;
- the compiler's code keeps the operand stack balanced.

The model treats the host as follows:

- Numbers (`f64` in the source) are exact reals. NaN, infinities and rounding are not modelled.
- Rust integer widths are written out where they matter: `as i64` truncation and saturation, usize wrap-around, u64 overflow.
- The oracle that answers `!ask` is a parameter.
- The debug rendering `{:?}` of a value is a parameter.
- Hash-map iteration order is a parameter, or is abstracted away.
- Loops that may run forever take a fuel argument.

The files follow the source's structure:

| Dafny file | models |
|---|---|
| lang_token.dfy, lang_lexer.dfy | naux-lang/src/token.rs, naux-lang/src/lexer.rs |
| script_ast.dfy, script_parser.dfy, script_parser_props.dfy | the flat `Expr`/`Stmt` tree and naux-lang/src/parser/parser.rs |
| env.dfy, script_value.dfy, script_eval.dfy | naux-lang/src/runtime/env.rs, eval.rs |
| ast.dfy, format.dfy | naux-lang/src/ast.rs (spanned tree), naux-lang/src/cli/format.rs |
| ir.dfy, bytecode.dfy, compiler.dfy, compiler_stack.dfy, optimizer_props.dfy, peephole_props.dfy | naux-lang/src/vm/{ir,bytecode,compiler}.rs |
| vm_value.dfy, vm.dfy, vm_props.dfy | naux-lang/src/runtime/value.rs, naux-lang/src/vm/interpreter.rs |
| std_math.dfy, std_algo.dfy, std_collections.dfy, std_dsu.dfy, std_graph.dfy, std_test.dfy | naux-lang/src/stdlib/*.rs |
| rs_lexer.dfy, rs_parser.dfy | naux-rs/src/lexer.rs, naux-rs/src/parser.rs |
| rs_value.dfy, rs_sort_*.dfy, rs_search.dfy, rs_numeric.dfy, rs_lcs.dfy, rs_topo.dfy | naux-rs/src/runtime.rs |
| findings.dfy, findings_vm.dfy | the discrepancies listed under Findings |
| wrappers.dfy, strings.dfy | `Option`/`Result` and number-to-text helpers |

## Model

| member | source | states |
|---|---|---|
| Env.New | naux-lang/src/runtime/env.rs:24-28 | A new environment has exactly one scope, and that scope is empty. |
| Env.Push | naux-lang/src/runtime/env.rs:30-32 | Pushing adds one empty innermost scope and keeps every existing scope. |
| Env.Pop | naux-lang/src/runtime/env.rs:34-38 | Popping drops the innermost scope only when there are at least two. At depth one it changes nothing. |
| Env.Set | naux-lang/src/runtime/env.rs:40-44 | `set` rebinds the name in the innermost scope only. Every outer scope and the depth are unchanged. |
| Env.GetIn | naux-lang/src/runtime/env.rs:46-53 | The lookup is None exactly when no searched scope binds the name. Otherwise it returns the value bound in one of those scopes. |
| Env.GetSpec | naux-lang/src/runtime/env.rs:46-53 | `get` is None iff no scope binds the name, and otherwise returns the binding of the innermost scope that has it. |
| Env.GetInInnermost | naux-lang/src/runtime/env.rs:47-50 | The search from the innermost scope outwards stops at the first scope binding the name. |
| Env.SetThenGet | naux-lang/src/runtime/env.rs:40-53 | `set(n, v)` followed by `get(n)` gives `v`. |
| Env.SetKeepsOthers | naux-lang/src/runtime/env.rs:40-53 | `set(n, v)` leaves `get` of every other name unchanged. |
| Env.GetInOthers | naux-lang/src/runtime/env.rs:46-53 | Two scope stacks that agree on a name in every scope give the same lookup for it. |
| Env.PushThenPop | naux-lang/src/runtime/env.rs:30-38 | `push_scope` followed by `pop_scope` restores the environment exactly, depth included. |
| Env.PushKeepsGet | naux-lang/src/runtime/env.rs:30-53 | A freshly pushed scope hides nothing: every lookup answers as before the push. |
| Env.GetInPrefix | naux-lang/src/runtime/env.rs:46-53 | Scopes above the searched depth do not affect the lookup. |
| Env.PopKeepsOutermost | naux-lang/src/runtime/env.rs:34-38 | `pop_scope` never removes the outermost scope. |
| ScriptValue.EqualReflexive | naux-lang/src/runtime/value.rs:143-170 | Value equality, with numbers equal within `f64::EPSILON` and containers compared element-wise, is reflexive. |
| ScriptValue.EqualSymmetric | naux-lang/src/runtime/value.rs:143-170 | Value equality is symmetric, for nested lists and maps too. |
| ScriptValue.Trunc | naux-lang/src/runtime/eval.rs:47 | `x as i64` truncates toward zero: the result has the sign of x and lies within 1 of it in magnitude. |
| ScriptValue.FModSpec | naux-lang/src/runtime/eval.rs:200-203 | The float `%` gives a remainder smaller than the divisor in magnitude, with the sign of the dividend. |
| ScriptValue.EvalBinary | naux-lang/src/runtime/eval.rs:181-225 | Equality, inequality, logical and and or always give a boolean. Ordering operators give a boolean or Null. |
| ScriptValue.BinaryNullIff | naux-lang/src/runtime/eval.rs:188-221 | `-`, `*` and the comparisons give Null exactly when an operand is not a number. `/` and `%` also give Null for a zero divisor. No other operator gives Null. |
| ScriptValue.AddCases | naux-lang/src/runtime/eval.rs:183-187 | `+` adds two numbers and concatenates two texts. For any other pair it joins the two debug renderings. |
| ScriptValue.LogicalOps | naux-lang/src/runtime/eval.rs:204-223 | `!=` is the negation of `==`, and `==` is symmetric. Logical and and or follow the operands' truthiness. |
| ScriptEval.IndexOf | naux-lang/src/runtime/eval.rs:163-166 | `n as usize` sends a non-positive index to 0 and truncates a positive one. |
| ScriptEval.EvalItems | naux-lang/src/runtime/eval.rs:135 | A list literal evaluates each item in order, giving one value per item. |
| ScriptEval.EvalEntries | naux-lang/src/runtime/eval.rs:136-142 | A map literal's keys are exactly the keys written in it. |
| ScriptEval.EvalProps | naux-lang/src/runtime/eval.rs:92-101 | UI props are evaluated pairwise, in order, keeping their names. |
| ScriptEval.LoopCount | naux-lang/src/runtime/eval.rs:45-49 | A loop count is the truncation of a positive number, and 0 for anything else. |
| ScriptEval.FramesTrans | naux-lang/src/runtime/eval.rs:25-84 | The statement frame (same depth, outer scopes untouched, events only appended) composes. |
| ScriptEval.PopAfterPush | naux-lang/src/runtime/eval.rs:27-31 | A scope pushed before a frame-respecting run and popped after it gives back the original environment. |
| ScriptEval.StmtFrames | naux-lang/src/runtime/eval.rs:25-84 | Every statement that finishes keeps the scope depth and every scope but the innermost, and only appends events. |
| ScriptEval.BlockFrames | naux-lang/src/runtime/eval.rs:19-23 | A block that finishes keeps the same frame as a single statement. |
| ScriptEval.RepeatFrames | naux-lang/src/runtime/eval.rs:50-52 | Repeating a loop body keeps the frame. |
| ScriptEval.EachFrames | naux-lang/src/runtime/eval.rs:56-63 | Running an `each` body once per item, each time in its own scope, keeps the frame. |
| ScriptEval.WhileFrames | naux-lang/src/runtime/eval.rs:65-73 | A `while` loop that finishes keeps the frame. |
| ScriptEval.RiteRestoresEnv | naux-lang/src/runtime/eval.rs:27-31 | A rite leaves the environment exactly as it found it, so bindings made directly in its body do not survive. |
| ScriptEval.ScriptKeepsGlobalScope | naux-lang/src/runtime/eval.rs:10-17 | A whole script ends with exactly one scope. |
| ScriptEval.ActionAppendsOneEvent | naux-lang/src/runtime/eval.rs:74-76 | An action statement leaves the environment alone and appends exactly one event, of the action's own kind. |
| ScriptEval.AskUsesOracle | naux-lang/src/runtime/eval.rs:116-122 | `!ask` records the oracle's answer to the rendered prompt. |
| ScriptEval.ReturnImportNoop | naux-lang/src/runtime/eval.rs:77-82 | Return and import statements change nothing. |
| ScriptEval.IfRunsOneBlock | naux-lang/src/runtime/eval.rs:36-43 | An `if` runs exactly one block: the then-block when the condition is truthy, the else-block otherwise. |
| ScriptEval.RepeatSayEvents | naux-lang/src/runtime/eval.rs:50-52 | Repeating a one-action body n times records n identical events. |
| ScriptEval.LoopSayCount | naux-lang/src/runtime/eval.rs:44-53 | A `loop c` evaluates its count once. Its body runs `trunc(c)` times for a positive number and zero times otherwise, with no scope of its own. |
| ScriptEval.EachSaysItems | naux-lang/src/runtime/eval.rs:54-64 | `each x in list` binds x to every item in order, each in a fresh scope, and leaves the environment as it was. |
| ScriptEval.EachNonListNoop | naux-lang/src/runtime/eval.rs:55-63 | `each` over a non-list runs zero times, with no error and no change. |
| ScriptEval.WhileExitsOnFalsy | naux-lang/src/runtime/eval.rs:65-73 | When a `while` finishes, its condition re-evaluated on the final state is falsy. |
| ScriptEval.NullOnMissing | naux-lang/src/runtime/eval.rs:143-177 | Each of these gives Null rather than an error: an unbound variable, a list index out of range, a missing map key or field, an index into a non-container. |
| ScriptEval.IndexHits | naux-lang/src/runtime/eval.rs:159-169 | A list index returns the item at the truncated position. A text index into a map returns the keyed entry. |
| ScriptEval.MapLiteralLastWins | naux-lang/src/runtime/eval.rs:136-142 | In a map literal the last entry with a given key decides its value. |
| ScriptEval.LastWinsUpTo | naux-lang/src/runtime/eval.rs:138-140 | After inserting the first n entries, a key holds the value of its last occurrence among them. |
| LangLexer.KeywordOrIdentSpec | naux-lang/src/lexer.rs:233-245 | A word becomes a keyword token exactly when it is one of the eight keywords. Every other word becomes an identifier token carrying that word. |
| LangLexer.KeywordOrIdentInjective | naux-lang/src/lexer.rs:233-245 | Two different words never become the same token, so the word can be recovered from the token. |
| LangLexer.RunEnd | naux-lang/src/lexer.rs:206-215 | The inner peek loop consumes the longest run of accepted characters: everything before the stop is accepted, and the stop is the end of input or a rejected character. |
| LangLexer.ScanString | naux-lang/src/lexer.rs:144-178 | The string-literal loop never moves backwards and never runs past the end of input. |
| LangLexer.DotIndex | naux-lang/src/lexer.rs:181-201 | The split of a number run at its first dot: no dot comes before it, and it is a dot unless it is the end. |
| LangLexer.ParseUnsignedSpec | naux-lang/src/lexer.rs:194 | A digit-and-dot run that starts with a digit parses as a number exactly when it has at most one dot. |
| LangLexer.ParseNumberRunSpec | naux-lang/src/lexer.rs:181-194 | The same holds for a run with a leading minus sign. |
| LangLexer.LexStep | naux-lang/src/lexer.rs:10-224 | Each iteration of the main loop consumes at least one character and never runs past the end, so lexing terminates. |
| LangLexer.StepToken | naux-lang/src/lexer.rs:10-224 | One iteration never pushes Eof. A pushed identifier is a well-formed word that is not a keyword. A Newline is pushed exactly for a line feed, at column 1. |
| LangLexer.LexFromEndsWithEof | naux-lang/src/lexer.rs:226-230 | A successful lex ends with exactly one Eof token, and it is the last token. |
| LangLexer.LexEndsWithEof | naux-lang/src/lexer.rs:4-231 | The same for `lex` on a whole input starting at line 1, column 1. |
| LangLexer.LexFromIdentifiers | naux-lang/src/lexer.rs:204-221 | Every identifier token in a successful lex is a word of `[A-Za-z_][A-Za-z0-9_]*` that is not a keyword. |
| LangLexer.StepKeepsLine | naux-lang/src/lexer.rs:22-141 | An iteration on anything but a line feed or a quote stays on its line and consumes no line feed. |
| LangLexer.LexFromNewlines | naux-lang/src/lexer.rs:12-20 | Without string literals, the Newline tokens are exactly as many as the line feeds, each at column 1. The final token sits on the start line plus that count. |
| LangLexer.LexArrow | naux-lang/src/lexer.rs:127-139 | A minus followed by `>` is one Arrow token at the minus sign's position. |
| LangLexer.LexNegativeNumber | naux-lang/src/lexer.rs:181-199 | A minus followed by a digit starts a number token at the minus, and its value is not positive. |
| LangLexer.LexLoneMinus | naux-lang/src/lexer.rs:127-223 | Any other minus is the error "Unexpected character '-'" at its own position. |
| LangLexer.LexInvalidNumber | naux-lang/src/lexer.rs:181-194 | A number run with two or more dots fails with "Invalid number" at the run's start. |
| LangLexer.OperatorsUnhandled | naux-lang/src/lexer.rs:30-141 | The lexer has no rule for `+ * / < > ^ %`. |
| LangLexer.LexUnexpected | naux-lang/src/lexer.rs:223 | A character with no rule fails with "Unexpected character" naming that character, at its own position. |
| LangLexer.LexSkipsBlanks | naux-lang/src/lexer.rs:22-25 | White space other than a line feed produces no token and only moves the column one to the right. |
| LangLexer.ScanStringUnterminated | naux-lang/src/lexer.rs:148-172 | With no closing quote, the string loop consumes the rest of the input. |
| LangLexer.LexUnterminatedString | naux-lang/src/lexer.rs:144-178 | An unterminated string literal is not an error: it becomes one string token followed by Eof. |
| LangLexer.UnescapeSpec | naux-lang/src/lexer.rs:149-157 | After a backslash, `n`, `t`, a quote and a backslash decode to line feed, tab, quote and backslash. Any other character decodes to itself, so no escape is an error. |
| LangLexer.ExampleLex | naux-lang/src/lexer.rs:4-231 | `~ rite` plus a line feed lexes to Tilde at 1:1, Rite at 1:3, then Newline and Eof both at 2:1. |
| ScriptParser.AdvanceInBounds | naux-lang/src/parser/parser.rs:297-301 | `advance` never moves the cursor out of the token vector, and it stays put exactly on Eof. |
| ScriptParser.Expect | naux-lang/src/parser/parser.rs:283-295 | `expect` succeeds exactly when the current token has the wanted kind, and then steps past it. |
| ScriptParser.SkipNewlines | naux-lang/src/parser/parser.rs:277-281 | `optional_newlines` skips exactly the run of Newline tokens at the cursor and stops on the first other token. |
| ScriptParser.ParseIdent | naux-lang/src/parser/parser.rs:263-275 | `parse_ident_string` succeeds exactly on an identifier token, returns its name and steps past it. |
| ScriptParser.ParseExpr | naux-lang/src/parser/parser.rs:177-179 | A successful expression parse consumes at least one token and stays inside the vector. |
| ScriptParser.ParseBinary | naux-lang/src/parser/parser.rs:182-198 | A successful binary-expression parse consumes at least one token. |
| ScriptParser.BinaryLoop | naux-lang/src/parser/parser.rs:184-196 | The operator loop never moves the cursor backwards or out of the vector. |
| ScriptParser.ParseUnary | naux-lang/src/parser/parser.rs:200-214 | A successful unary parse consumes at least one token. |
| ScriptParser.ParsePrimary | naux-lang/src/parser/parser.rs:216-245 | A successful primary parse consumes at least one token. |
| ScriptParser.ParseBody | naux-lang/src/parser/parser.rs:52-58 | A block's statement loop stops only on its closing `~ end` pair, or on `~ else` for a then-block, and does not consume it. |
| ScriptParser.ParseStmt | naux-lang/src/parser/parser.rs:27-34 | A successful statement parse consumes at least one token. |
| ScriptParser.ParseTildeStmt | naux-lang/src/parser/parser.rs:36-46 | A successful `~` statement parse consumes at least one token. |
| ScriptParser.ExpectEnd | naux-lang/src/parser/parser.rs:59-60 | Closing a block consumes exactly the two tokens `~ end`. |
| ScriptParser.ParseRiteBlock | naux-lang/src/parser/parser.rs:48-63 | A successful rite block consumes at least one token. |
| ScriptParser.ParseIfBlock | naux-lang/src/parser/parser.rs:65-88 | A successful if block consumes at least one token. |
| ScriptParser.ParseLoopBlock | naux-lang/src/parser/parser.rs:90-103 | A successful loop block consumes at least one token. |
| ScriptParser.ParseEachBlock | naux-lang/src/parser/parser.rs:105-120 | A successful each block consumes at least one token. |
| ScriptParser.ParseWhileBlock | naux-lang/src/parser/parser.rs:122-135 | A successful while block consumes at least one token. |
| ScriptParser.ParseAssign | naux-lang/src/parser/parser.rs:137-144 | A successful assignment consumes at least one token. |
| ScriptParser.ParseActionStmt | naux-lang/src/parser/parser.rs:146-175 | A successful action statement consumes at least one token. |
| ScriptParserProps.StatementStart | naux-lang/src/parser/parser.rs:27-34 | A statement parses only when it starts with `~`, `$` or `!`. On any other token the result is "Expected statement" at that token. |
| ScriptParserProps.RiteNeedsEnd | naux-lang/src/parser/parser.rs:48-63 | A rite block, and its body, parse only if a `~ end` pair follows somewhere. |
| ScriptParserProps.RiteAtEofExample | naux-lang/src/parser/parser.rs:53-55 | `~ rite`, a blank line and then the end of input fail with "Expected ~ end" at the Eof token. |
| ScriptParserProps.IfElseBlock | naux-lang/src/parser/parser.rs:65-88 | An if block yields an If statement, and its else-block is non-empty only when a `~ else` pair was consumed. |
| ScriptParserProps.ActionNames | naux-lang/src/parser/parser.rs:146-175 | Only `!say`, `!ask` and `!fetch` parse, each to its own action. Any other name fails with "Unknown action '!name'". |
| ScriptParserProps.BoolLiterals | naux-lang/src/parser/parser.rs:227-236 | An identifier always parses as a primary. `true` and `false` become Bool literals and every other name becomes a variable. |
| ScriptParserProps.ParenNeedsClose | naux-lang/src/parser/parser.rs:237-242 | A parenthesised expression parses only with its closing `)`, and it encloses at least one token. |
| ScriptParserProps.PeekBinaryOpTable | naux-lang/src/parser/parser.rs:247-261 | Every binary operator has precedence 5, 10 or 20, following comparison below `+ -` below `* /`, and none is right-associative. |
| ScriptParserProps.BinaryNested | naux-lang/src/parser/parser.rs:182-198 | Without parentheses, the precedence-climbing parse builds a tree that respects precedence and left associativity, and it stops before any operator weaker than its minimum. |
| ScriptParserProps.LoopNested | naux-lang/src/parser/parser.rs:184-196 | Each round of the operator loop keeps the tree built so far well nested. |
| ScriptParserProps.UnaryNested | naux-lang/src/parser/parser.rs:200-214 | Prefix `!` and `-` bind tighter than any binary operator: a unary parse never yields a binary node at its root. |
| ScriptParserProps.ParsedExprWellNested | naux-lang/src/parser/parser.rs:177-198 | Without parentheses, `*` and `/` bind tighter than `+` and `-`, which bind tighter than comparisons. Operators of equal strength group to the left. |
| ScriptParserProps.MulBindsTighterExample | naux-lang/src/parser/parser.rs:247-261 | `1 + 2 * 3` parses as `1 + (2 * 3)`. |
| ScriptParserProps.SubGroupsLeftExample | naux-lang/src/parser/parser.rs:182-198 | `a - b - c` parses as `(a - b) - c`. |
| ScriptParserProps.ScriptSkipsBlankLines | naux-lang/src/parser/parser.rs:15-25 | Blank lines between statements do not change the parse of a script. |
| ScriptParserProps.ScriptStatementsBounded | naux-lang/src/parser/parser.rs:15-25 | A script parse yields at most one statement per `~`, `$` or `!` token. |
| Format.Spaces | naux-lang/src/cli/format.rs:38-40 | The indentation for level `n` is exactly `4n` spaces. |
| Format.Render | naux-lang/src/cli/format.rs:37-43 | Rendered lines always end with a line feed. |
| Format.RenderSnoc | naux-lang/src/cli/format.rs:37-43 | Writing one more line appends exactly four spaces per level, the text and a line feed to the output so far. |
| Format.Finish | naux-lang/src/cli/format.rs:24-29 | `finish` always returns text ending in a line feed. When lines were written it adds nothing to them. |
| Format.BinaryOpTextInjective | naux-lang/src/cli/format.rs:215-231 | Different operators print as different text, so the operator can be read back. |
| Format.EscapeSafe | naux-lang/src/cli/format.rs:241-254 | Escaped text holds no raw line feed, carriage return or tab, and every quote in it follows a backslash. |
| Format.EscapeRoundTrip | naux-lang/src/cli/format.rs:241-254 | Text without carriage returns survives a round trip: the lexer's string loop, run on the escaped text plus a closing quote, gives back the text and stops just after the quote. |
| Format.Nested | naux-lang/src/cli/format.rs:49-53 | A nested block returns to the level it started from: each `indent += 1` is undone. |
| Format.FormatStmt | naux-lang/src/cli/format.rs:45-146 | Formatting a statement leaves the level where it found it. |
| Format.FormatBlock | naux-lang/src/cli/format.rs:50-52 | Formatting a statement list leaves the level where it found it. |
| Format.FormatStmts | naux-lang/src/cli/format.rs:3-9 | The formatted program always ends with a line feed. |
| Format.StmtLines | naux-lang/src/cli/format.rs:45-146 | The layout of a statement is at least one line, none shallower than the statement's level. A block statement starts with its header and ends with `~ end`, both at its level. |
| Format.BlockLines | naux-lang/src/cli/format.rs:50-52 | No line of a block's layout is shallower than the block's level. |
| Format.FormatStmtLayout | naux-lang/src/cli/format.rs:45-146 | The formatter appends exactly the statement's layout lines at its current level and ends at the level it began. |
| Format.WrappedLayout | naux-lang/src/cli/format.rs:47-55 | A block is written as its header, its body one level deeper, then `~ end`. |
| Format.IfLayout | naux-lang/src/cli/format.rs:82-103 | An if statement appends exactly its layout lines. |
| Format.NestedLayout | naux-lang/src/cli/format.rs:49-53 | A nested body appends the body's layout one level deeper. |
| Format.FormatBlockLayout | naux-lang/src/cli/format.rs:50-52 | A statement list appends the layouts of its statements in order. |
| Format.IfLines | naux-lang/src/cli/format.rs:82-103 | At its own level an if writes its header, then `~ else` exactly when the else-block is non-empty, then `~ end`. Everything else it writes is deeper. |
| Format.ReturnLine | naux-lang/src/cli/format.rs:134-139 | A return writes one line at the current level: `^` alone, or `^ ` followed by the expression. |
| Format.FormatStmtsText | naux-lang/src/cli/format.rs:3-9 | An empty program formats as a single line feed. Otherwise the output is exactly the rendered layout of its statements at level 0. |
| IR.ToBc | naux-lang/src/vm/ir.rs:11-47 | Every IR instruction has a bytecode counterpart, and none of them uses a local slot: slots exist only after the compiler assigns them. |
| IR.FmtAgrees | naux-lang/src/vm/ir.rs:101-139 | `fmt_instr` on an IR instruction gives the same text as `fmt_instr_bc` on its bytecode counterpart. |
| IR.DumpLines | naux-lang/src/vm/ir.rs:94-99 | `dump_block` writes one line per node. |
| IR.Instrs | naux-lang/src/vm/ir.rs:94-99 | The instructions of a block, node by node and in order. |
| IR.DumpMatchesDisasm | naux-lang/src/vm/ir.rs:94-99 | `dump_block` on an IR block writes exactly what `disasm_block` writes for the same instructions in bytecode. |
| IR.DisasmFunctionLines | naux-lang/src/vm/ir.rs:87-92 | `disasm_function` writes the header `fn name(params):` and then exactly the dumped lines of the function's code. |
| IR.PrettyPrintLines | naux-lang/src/vm/ir.rs:75-85 | `pretty_print_ir` starts with `fn main:` followed by the dumped main block. |
| IR.FunctionsLinesCount | naux-lang/src/vm/ir.rs:79-82 | Listing the functions writes one header plus one line per node for each function. |
| IR.SizeRemove | naux-lang/src/vm/ir.rs:79-82 | Taking one function out of the listing order removes exactly its header and its node lines from the count. |
| IR.SizePermutation | naux-lang/src/vm/ir.rs:79-82 | The number of lines listed for the functions does not depend on the order the map yields them in. |
| IR.Remove | naux-lang/src/vm/ir.rs:79-82 | Removing the entry at position `j` keeps every other entry in its order. |
| IR.RemoveMultiset | naux-lang/src/vm/ir.rs:79-82 | Removing the entry at position `j` removes exactly one copy of that name. |
| IR.PrettyPrintLineCount | naux-lang/src/vm/ir.rs:75-85 | Whatever order the hash map yields, the listing has one line for the main header, one per main node, and a header plus one line per node for each function. Any two orders give the same line count. |
| IR.HeaderListed | naux-lang/src/vm/ir.rs:79-82 | Every function's header appears in the listing. |
| Bytecode.BlockLines | naux-lang/src/vm/bytecode.rs:114-122 | `disasm_block` writes one line per instruction. |
| Bytecode.BlockLinesAt | naux-lang/src/vm/bytecode.rs:114-122 | Line `k` of a block shows instruction `k` under index `base + k`. |
| Bytecode.BlockLinesAppend | naux-lang/src/vm/bytecode.rs:114-122 | The lines of `a + b` are the lines of `a` followed by the lines of `b`, numbered on from the end of `a`. |
| Bytecode.DisasmSplit | naux-lang/src/vm/bytecode.rs:114-122 | Disassembling a concatenation is disassembling the first piece, then the second renumbered after it. |
| Bytecode.WindowLines | naux-lang/src/vm/bytecode.rs:124-135 | The window loop writes one line per index from its start up to its end. |
| Bytecode.MarkedPrefix | naux-lang/src/vm/bytecode.rs:130 | A window line carries the marker exactly when its three-character prefix is `-->`. |
| Bytecode.WindowShape | naux-lang/src/vm/bytecode.rs:124-135 | Each window line shows an index inside the code, in order, and is marked exactly when its index is `ip`. The window has one marked line when `ip` is in it and none otherwise. |
| Bytecode.WindowPastIp | naux-lang/src/vm/bytecode.rs:124-135 | Lines past `ip` are never marked. |
| Bytecode.DisasmWindowSpec | naux-lang/src/vm/bytecode.rs:124-135 | `disasm_window` shows from `ip - window`, saturating at 0, up to `min(len, ip + window + 1)` exclusive. Exactly one line is marked when `ip` indexes the code, and none otherwise. |
| Bytecode.WindowExample | naux-lang/src/vm/bytecode.rs:124-135 | A window of 1 around ip 2 of five instructions marks the line `--> 0002: Add`. |
| Compiler.Keys | naux-lang/src/vm/compiler.rs:614-618 | The keys of a map literal, one per entry, in order. |
| Compiler.EachHead | naux-lang/src/vm/compiler.rs:474-504 | The code an `each` loop places between its iterable and its body is twelve instructions long. |
| Compiler.MapTo | naux-lang/src/vm/compiler.rs:68-74 | A folded run maps every input position it consumed to the one output node it produced, and leaves every other position's mapping alone. |
| Compiler.PassStep | naux-lang/src/vm/compiler.rs:63-158 | Each round of the first pass of `optimize_block` consumes at least one input instruction and never runs past the end. |
| Compiler.Retarget | naux-lang/src/vm/compiler.rs:160-171 | The second pass changes only jump targets: every other node and every span stays as it was, and a jump keeps its kind. |
| Compiler.Indices | naux-lang/src/vm/compiler.rs:196 | The positions of the reachability vector are exactly the indices below the block's length. |
| Compiler.Dfs | naux-lang/src/vm/compiler.rs:198-213 | The search only adds positions inside the block, keeps what was already marked, and marks its start when that lies inside the block. |
| Compiler.Filter | naux-lang/src/vm/compiler.rs:216-223 | The copy loop of `prune_unreachable` keeps an index entry for every input position and never outputs more nodes than it reads. |
| Compiler.LowerAll | naux-lang/src/vm/compiler.rs:274-277 | Lowering emits one bytecode instruction per IR node, each node lowered on its own. |
| Compiler.Spans | naux-lang/src/vm/compiler.rs:274-277 | Lowering keeps one span per node, each the node's own. |
| Compiler.BcPass | naux-lang/src/vm/compiler.rs:331-352 | The first loop of `optimize_bytecode_block` keeps one span per output instruction and an index entry for every input position. |
| Compiler.BcRetarget | naux-lang/src/vm/compiler.rs:354-364 | The remap loop changes only jump targets: every other instruction is kept, and a jump stays a jump. |
| CompilerStack.ExprStack | naux-lang/src/vm/compiler.rs:541-626 | Every expression whose calls name their callee compiles to code that leaves exactly one value on top of what it found, never pops below it, and jumps only inside itself. |
| CompilerStack.UnaryStack | naux-lang/src/vm/compiler.rs:548-572 | Negation and `!` each leave one value. Both branches of `!` reach its end at the same depth. |
| CompilerStack.NotTail | naux-lang/src/vm/compiler.rs:555-570 | The four instructions `!` appends replace its operand by one boolean on either branch. |
| CompilerStack.BinaryStack | naux-lang/src/vm/compiler.rs:573-594 | A binary expression pushes its two operands and the operator leaves one value. |
| CompilerStack.IndexStack | naux-lang/src/vm/compiler.rs:603-607 | Indexing pushes target and index, and the `__index` builtin leaves one value. |
| CompilerStack.FieldStack | naux-lang/src/vm/compiler.rs:620-623 | A field access leaves one value. |
| CompilerStack.MapStack | naux-lang/src/vm/compiler.rs:614-619 | A map literal pushes every value and the construction leaves one map. |
| CompilerStack.ItemsStack | naux-lang/src/vm/compiler.rs:595-613 | A named call or a list literal pushes every item, and one instruction takes them all and leaves one value. |
| CompilerStack.UnnamedCallStack | naux-lang/src/vm/compiler.rs:595-602 | A call whose callee is not a plain name compiles to its arguments alone, so it leaves every argument on the stack and calls nothing. |
| CompilerStack.SeqStack | naux-lang/src/vm/compiler.rs:596-598 | A run of expressions leaves one value per expression. |
| CompilerStack.EntriesStack | naux-lang/src/vm/compiler.rs:615-617 | The values of the first `n` map entries leave `n` values. |
| CompilerStack.StmtStack | naux-lang/src/vm/compiler.rs:393-507 | Every statement compiles to code that leaves the stack as it found it and jumps only inside itself. |
| CompilerStack.BlockStack | naux-lang/src/vm/compiler.rs:393-507 | A statement list leaves the stack as it found it. |
| CompilerStack.ActionStack | naux-lang/src/vm/compiler.rs:509-539 | Every action consumes the value it computed, so it leaves the stack as it found it. |
| CompilerStack.ReturnStack | naux-lang/src/vm/compiler.rs:457-464 | A return is well stacked whatever depth follows it, since control does not continue. |
| CompilerStack.ReturnNode | naux-lang/src/vm/compiler.rs:457-464 | A `Return` instruction agrees with any depth after it. |
| CompilerStack.IfStack | naux-lang/src/vm/compiler.rs:399-421 | An if statement's condition is consumed by its branch, and both blocks meet at the end at the starting depth. |
| CompilerStack.IfRest | naux-lang/src/vm/compiler.rs:401-420 | After the condition, the branch, the then-block, the jump over the else-block and the else-block together are well stacked. |
| CompilerStack.IfDepths | naux-lang/src/vm/compiler.rs:401-420 | The depth map of an if: one more before its branch than around it, and each block's own depths inside it. |
| CompilerStack.WhileStack | naux-lang/src/vm/compiler.rs:443-456 | A while loop's test and back jump meet at the starting depth, and the loop leaves the stack as it found it. |
| CompilerStack.LoopStack | naux-lang/src/vm/compiler.rs:422-442 | A `loop` stores its count in a hidden variable, tests and decrements it around the body, and leaves the stack as it found it. |
| CompilerStack.LoopRest | naux-lang/src/vm/compiler.rs:424-441 | After the count, the test, the body and the decrement with its jump back are well stacked. |
| CompilerStack.LoopDepths | naux-lang/src/vm/compiler.rs:424-441 | The depth map of a `loop` after its count: the positions of the test and of the decrement have the depths the instructions need. |
| CompilerStack.LoopHeadSteps | naux-lang/src/vm/compiler.rs:426-429 | The counter test of a `loop` agrees with its depth map and jumps inside the loop. |
| CompilerStack.LoopTailSteps | naux-lang/src/vm/compiler.rs:433-437 | The decrement and back jump of a `loop` agree with its depth map and jump inside the loop. |
| CompilerStack.EachStack | naux-lang/src/vm/compiler.rs:474-504 | An `each` loop keeps its list and index in hidden variables and leaves the stack as it found it. |
| CompilerStack.EachRest | naux-lang/src/vm/compiler.rs:477-503 | After the iterable, the counter setup and test, the body and the increment with its jump back are well stacked. |
| CompilerStack.EachDepths | naux-lang/src/vm/compiler.rs:477-503 | The depth map of an `each` after its iterable follows the fixed depths of its twelve head instructions. |
| CompilerStack.EachHeadSteps | naux-lang/src/vm/compiler.rs:477-488 | The head of an `each` loop agrees with its depth map and jumps inside the loop. |
| CompilerStack.EachTailSteps | naux-lang/src/vm/compiler.rs:492-496 | The increment and back jump of an `each` agree with its depth map and jump inside the loop. |
| CompilerStack.BodyStack | naux-lang/src/vm/compiler.rs:23-29 | A function body followed by its `Return` starts and ends at depth 0. |
| CompilerStack.TopStack | naux-lang/src/vm/compiler.rs:18-43 | The top-level loop keeps main and every function body well stacked as it goes. |
| CompilerStack.CompileIrStack | naux-lang/src/vm/compiler.rs:18-43 | In a compiled script, main and every function body start and end at depth 0, every jump lands inside its block, and no instruction pops more than its block has pushed. |
| OptimizerProps.FoldMatchesEvaluator | naux-lang/src/vm/compiler.rs:237-258 | A folded constant is what the tree-walking evaluator computes for the same operator on the same two numbers. Folding declines exactly the logical operators and a zero divisor. |
| OptimizerProps.LastSomeSpec | naux-lang/src/vm/compiler.rs:189 | The fallback of `remap_target` is the new index of the last surviving instruction, and None exactly when nothing survives. |
| OptimizerProps.RemapSpec | naux-lang/src/vm/compiler.rs:182-190 | `remap_target` gives the new index of the first surviving instruction at or after the old target. When none survives there, it gives that of the last survivor. |
| OptimizerProps.RemapInRange | naux-lang/src/vm/compiler.rs:182-190 | A remapped target is always one of the new indices the map hands out. |
| OptimizerProps.LastSomeInRange | naux-lang/src/vm/compiler.rs:189 | The fallback target is one of the new indices the map hands out. |
| OptimizerProps.Next | naux-lang/src/vm/compiler.rs:203-212 | The successors the search follows: a jump's target, both ways of a branch, none after a return, the next position otherwise, all inside the block. |
| OptimizerProps.DfsComplete | naux-lang/src/vm/compiler.rs:198-213 | The search is complete: the marked set has all its successors marked or still pending. |
| OptimizerProps.DfsWithin | naux-lang/src/vm/compiler.rs:198-213 | The search is minimal: it stays inside any successor-closed set that holds its start. |
| OptimizerProps.Reachable | naux-lang/src/vm/compiler.rs:214 | `dfs(0)` computes exactly the instructions reachable from the entry: it holds the entry, is closed under successors, and lies inside every other such set. |
| OptimizerProps.FilterKeeps | naux-lang/src/vm/compiler.rs:216-223 | Each round of the copy loop keeps the marked positions in order, maps each onto an equal output node, and maps nothing unmarked. |
| OptimizerProps.FilterSpec | naux-lang/src/vm/compiler.rs:216-223 | The copy loop keeps exactly the marked instructions, in order, each old index mapped onto its node, with every output node accounted for. |
| OptimizerProps.RetargetKept | naux-lang/src/vm/compiler.rs:225-234 | After pruning, every kept jump whose target was in the block points at the new position of the very instruction it targeted. |
| OptimizerProps.PruneSpec | naux-lang/src/vm/compiler.rs:192-235 | `prune_unreachable` keeps exactly the reachable instructions, in order, and each kept jump still targets the same instruction at its new position. |
| OptimizerProps.Extend | naux-lang/src/vm/compiler.rs:63-158 | Pushing a permitted rewrite of the current instruction keeps the first pass's invariant. |
| OptimizerProps.StepFold | naux-lang/src/vm/compiler.rs:64-88 | Folding two number constants and an operator into one constant keeps the invariant. |
| OptimizerProps.StepBranch | naux-lang/src/vm/compiler.rs:90-109 | A constant feeding a conditional jump is dropped with it when true, or turned into a plain jump when false. Either way the invariant is kept. |
| OptimizerProps.StepDrop | naux-lang/src/vm/compiler.rs:111-127 | Dropping a jump to the next instruction keeps the invariant. |
| OptimizerProps.StepNormal | naux-lang/src/vm/compiler.rs:130-162 | Copying an instruction, with a LoadVar replaced by its known constant, keeps the invariant. |
| OptimizerProps.StepKeeps | naux-lang/src/vm/compiler.rs:63-158 | Every round of the first pass keeps the invariant. |
| OptimizerProps.PassKeeps | naux-lang/src/vm/compiler.rs:63-158 | The first pass keeps its invariant up to the end of the block. |
| OptimizerProps.PassShape | naux-lang/src/vm/compiler.rs:56-158 | The first pass keeps instructions in order and only folds a constant run, turns a false branch into a jump, or replaces a LoadVar by a known constant. Corrected, it never rewrites a LoadVar a jump can reach, and drops a conditional jump only with the `true` feeding it. |
| OptimizerProps.Survivors | naux-lang/src/vm/compiler.rs:331-352 | The reference list of the instructions that survive the bytecode pass is never longer than the input. |
| OptimizerProps.BcStepDrop | naux-lang/src/vm/compiler.rs:335-345 | Dropping a reload right after a store of the same slot keeps the bytecode pass's invariant. |
| OptimizerProps.BcStepKeep | naux-lang/src/vm/compiler.rs:348-351 | Copying an instruction keeps the bytecode pass's invariant. |
| OptimizerProps.BcPassKeeps | naux-lang/src/vm/compiler.rs:331-352 | The bytecode pass keeps its invariant up to the end of the code. |
| OptimizerProps.BcPassSpec | naux-lang/src/vm/compiler.rs:322-352 | The first loop of `optimize_bytecode_block` removes exactly the reloads that directly follow a store of the same slot and are no jump target. Every other instruction is kept, in order. |
| OptimizerProps.BcPassCopies | naux-lang/src/vm/compiler.rs:331-352 | Without the reload removal the loop copies the code and maps every position to itself. |
| OptimizerProps.BytecodeBlockUnchanged | naux-lang/src/vm/compiler.rs:322-366 | The corrected bytecode pass leaves code whose jumps stay inside it exactly as it was. |
| OptimizerProps.ParamsAgree | naux-lang/src/vm/compiler.rs:373-377 | The parameters are given slots in order, each slot naming its parameter. |
| OptimizerProps.CollectAgrees | naux-lang/src/vm/compiler.rs:378-390 | Every variable the block names gets a slot, and each slot names its variable in the locals list. |
| OptimizerProps.CollectLocalsSpec | naux-lang/src/vm/compiler.rs:370-391 | `collect_locals` gives every variable of the block a slot, each slot names its variable, the parameters come first and, when distinct, parameter `j` has slot `j`. So lowering never meets a variable without a slot. |
| OptimizerProps.LowerBlockSpec | naux-lang/src/vm/compiler.rs:270-320 | Lowering a block without the reload removal emits one instruction per node. A variable becomes the slot of the local with that name, and every other instruction is carried over unchanged. |
| OptimizerProps.CorrectedLowering | naux-lang/src/vm/compiler.rs:270-281 | The locals `collect_locals` gives cover every variable of the block, and the lowering without the reload removal translates the block node by node with those slots. |
| OptimizerProps.LowerBlockDropsReloads | naux-lang/src/vm/compiler.rs:270-281 | As written, `lower_block` yields exactly the instructions that survive the bytecode pass on the node-by-node translation, in order, with the same locals. Only jump targets are renumbered. |
| OptimizerProps.BcOptimizeFixed | naux-lang/src/vm/compiler.rs:322-366 | Code whose jumps stay inside it is left unchanged by the bytecode pass when the reload removal is off, or when no reload follows a store of its slot. |
| OptimizerProps.IncreasingBounded | naux-lang/src/vm/compiler.rs:160-163 | A strictly increasing list of positions below `n` has at most `n` entries, so `orig_idx`, and with it the first pass's output, is no longer than the block. |
| OptimizerProps.OptimizeShrinks | naux-lang/src/vm/compiler.rs:55-180 | `optimize_block`, as written or corrected, never makes a block longer. |
| OptimizerProps.OptimizeIrShape | naux-lang/src/vm/compiler.rs:45-54 | `optimize_ir` keeps the set of function names and each function's parameters, and makes no body longer. |
| OptimizerProps.LowerIrShape | naux-lang/src/vm/compiler.rs:260-269 | `lower_ir_to_bytecode` keeps the set of function names and each function's parameters, and every function's locals begin with its parameters. |
| OptimizerProps.CompileScriptKeepsFunctions | naux-lang/src/vm/compiler.rs:11-15 | `compile_script`, as written, yields a function for exactly the names the script defines, with their parameters, and each function's locals begin with its parameters, so argument `i` lands in parameter `i`. |
| OptimizerProps.CompileScriptCorrectedKeepsFunctions | naux-lang/src/vm/compiler.rs:11-15 | The same holds for the pipeline with both optimizer passes corrected. |
| PeepholeProps.TrueBranchFallsThrough | naux-lang/src/vm/compiler.rs:93-98 | A constant `true` feeding a conditional jump falls through, so removing the pair does not change the run. |
| PeepholeProps.FalseBranchJumps | naux-lang/src/vm/compiler.rs:99-107 | A constant `false` feeding a conditional jump always takes it, so the pair behaves as a plain jump. |
| PeepholeProps.JumpGoesTo | naux-lang/src/vm/compiler.rs:111-118 | A plain jump continues at its target with the machine untouched, so a jump to the next instruction can be dropped. |
| PeepholeProps.CondJumpToNextPops | naux-lang/src/vm/compiler.rs:119-126 | A conditional jump to the next instruction is not a no-op: it pops the condition, and on an empty stack it fails. |
| PeepholeProps.StoreThenLoad | naux-lang/src/vm/compiler.rs:335-345 | `StoreLocal a` pops the value, and the following `LoadLocal a` pushes it back. Dropping the reload leaves the stack one value shorter. |
| Findings.SayCompiles | naux-lang/src/vm/compiler.rs:509-514 | `say` of a text literal compiles to the constant and EmitSay. |
| Findings.LoopCompiles | naux-lang/src/vm/compiler.rs:422-442 | `loop n { say x }` compiles to the twelve-instruction block whose back jump targets the counter reload at position 2. |
| Findings.LoopHeadIsTarget | naux-lang/src/vm/compiler.rs:422-442 | Position 2 of that block reloads the counter and is a jump target. |
| Findings.RunStep | naux-lang/src/vm/compiler.rs:63-158 | Running the first pass from a position is one round and then the rest. |
| Findings.At0 | naux-lang/src/vm/compiler.rs:150-153 | The first round copies the count constant and remembers it as the previous constant. |
| Findings.At1 | naux-lang/src/vm/compiler.rs:142-148 | The store of the count makes it the known constant of the counter. |
| Findings.At2 | naux-lang/src/vm/compiler.rs:130-136 | As written, the reload at the loop head is replaced by the count constant. |
| Findings.At3 | naux-lang/src/vm/compiler.rs:154-157 | The conditional jump is copied and clears the known constants. |
| Findings.PassTail | naux-lang/src/vm/compiler.rs:63-158 | From position 4 on, the pass copies one node per position and keeps the first four. |
| Findings.LoopHeadFolded | naux-lang/src/vm/compiler.rs:131-148 | As written, the first pass rewrites the loop test's reload of the counter, which the back jump reaches with the decremented value, into the initial count. The corrected pass does not permit that rewrite. |
| FindingsVm.NumConstIsNumber | naux-lang/src/runtime/value.rs:10-16 | The value a number constant pushes is a number. |
| FindingsVm.SpinStep | naux-lang/src/vm/interpreter.rs:50-242 | As written, each instruction of the loop moves the machine from one spinning state to the next. |
| FindingsVm.LoopSpinsAsWritten | naux-lang/src/vm/compiler.rs:131-148 | As written, from its test the loop of `loop n { say x }` with `n` non-zero is cut off by every amount of fuel: it never returns and never fails. |
| FindingsVm.LoopNeverEndsAsWritten | naux-lang/src/vm/compiler.rs:131-148 | As written, the whole program with a non-zero count runs until its fuel is gone. |
| FindingsVm.CountStep | naux-lang/src/vm/interpreter.rs:50-242 | Corrected, each instruction of a round moves the counting state on. |
| FindingsVm.LoopExits | naux-lang/src/vm/compiler.rs:426-441 | Corrected, a zero counter sends the test to the final Return. |
| FindingsVm.Continues | naux-lang/src/vm/interpreter.rs:50-242 | An instruction that continues hands the rest of the run to the next position with one unit of fuel less. |
| FindingsVm.LoopCounts | naux-lang/src/vm/compiler.rs:422-442 | Corrected, the loop from its test with counter `c` returns Null with enough fuel, having logged one event per remaining round. |
| FindingsVm.LoopRunsCorrected | naux-lang/src/vm/compiler.rs:422-442 | Corrected, `loop k { say x }` for a whole count `k` says exactly `k` times and returns Null, given fuel for its `9k + 5` steps. |
| FindingsLoop.LoopTargets | naux-lang/src/vm/compiler.rs:422-442 | The only jump targets of the loop block are the loop test at 2 and the final Return at 11. |
| FindingsLoop.StepTracked | naux-lang/src/vm/compiler.rs:63-158 | Every round of the first pass over the loop block moves on by one position and keeps the pass's state on track. |
| FindingsLoop.PassTracked | naux-lang/src/vm/compiler.rs:63-158 | The first pass over the loop block, as written or corrected, yields its reference result and maps every position to itself. |
| FindingsLoop.PassedJumps | naux-lang/src/vm/compiler.rs:154-157 | The only jumps left after the first pass are the test at 3 to 11 and the back jump at 10 to 2. |
| FindingsLoop.RetargetFixed | naux-lang/src/vm/compiler.rs:165-176 | Renumbering jumps by a map that fixes every target leaves the block unchanged. |
| FindingsLoop.FilterAll | naux-lang/src/vm/compiler.rs:215-222 | When every position is reachable, the pruning filter keeps the block and maps every position to itself. |
| FindingsLoop.ReachAll | naux-lang/src/vm/compiler.rs:196-213 | Every position of the passed loop block is reachable from its start. |
| FindingsLoop.PruneKeepsLoop | naux-lang/src/vm/compiler.rs:192-235 | `prune_unreachable` leaves the passed loop block unchanged. |
| FindingsLoop.LoopOptimized | naux-lang/src/vm/compiler.rs:55-180 | `optimize_block` turns the loop block into its reference result, as written or corrected. |
| FindingsLoop.OnlyCounter | naux-lang/src/vm/compiler.rs:422-442 | The only variable the optimized loop block names is the hidden counter. |
| FindingsLoop.CollectKnown | naux-lang/src/vm/compiler.rs:378-390 | `collect_locals` adds nothing for a block whose variables already have slots. |
| FindingsLoop.LoopLocals | naux-lang/src/vm/compiler.rs:370-391 | The locals of the loop block are the hidden counter alone, in slot 0. |
| FindingsLoop.LoopLowersTo | naux-lang/src/vm/compiler.rs:282-320 | Lowering the optimized loop block node by node yields the code the VM lemmas run. |
| FindingsLoop.NoReload | naux-lang/src/vm/compiler.rs:335-345 | No reload in that code follows a store of its slot, so the bytecode pass has nothing to drop. |
| FindingsLoop.LoopLowered | naux-lang/src/vm/compiler.rs:270-281 | `lower_block` on the optimized loop block yields that code with the counter as its only local, with or without the reload removal. |
| FindingsLoop.LoopScriptCompiles | naux-lang/src/vm/compiler.rs:11-15 | The whole pipeline on the script `loop n { say x }` yields that code as the main block, the counter as its only local, and no functions. |
| FindingsLoop.LoopScriptNeverEnds | naux-lang/src/vm/compiler.rs:131-148 | As written, `run_program` on `compile_script` of `loop n { say x }` with a non-zero count uses up every amount of fuel. |
| FindingsLoop.LoopScriptRunsCorrected | naux-lang/src/vm/compiler.rs:11-15 | With the corrected pipeline, `run_program` on `loop k { say x }` for a whole count `k` returns Null after saying exactly `k` times, given `9k + 5` units of fuel. |
| VmValue.AsF64 | naux-lang/src/runtime/value.rs:75-81 | defined exactly on integers and floats, giving the number's value |
| VmValue.AsI64 | naux-lang/src/runtime/value.rs:83-88 | defined exactly on SmallInt; a float never converts |
| VmValue.AsText | naux-lang/src/runtime/value.rs:90-98 | defined exactly on text objects, giving their characters |
| VmValue.Add | naux-lang/src/runtime/value.rs:128-140 | two integers add as integers, mixed numbers as floats, two texts concatenate, and every other pair gives Null |
| VmValue.EqualsReflexive | naux-lang/src/runtime/value.rs:143-170 | every value equals itself, containers included |
| VmValue.EqualsSymmetric | naux-lang/src/runtime/value.rs:143-170 | equality is symmetric, including integer against float |
| VmValue.ObjEqualsSymmetric | naux-lang/src/runtime/value.rs:143-170 | object equality is symmetric element by element for lists, maps, sets and queues |
| VmValue.IdentityOnly | naux-lang/src/runtime/value.rs:143-170 | graphs and functions are equal exactly when they are the same object |
| VmValue.StrCmp | naux-lang/src/runtime/value.rs:175-182 | the lexicographic text order reports Equal exactly on equal texts |
| VmValue.StrCmpFlip | naux-lang/src/runtime/value.rs:175-182 | swapping two texts flips their order |
| VmValue.NumericOrder | naux-lang/src/runtime/value.rs:175-182 | two numbers are Less, Equal or Greater exactly as their numeric values are |
| VmValue.CmpFlip | naux-lang/src/runtime/value.rs:175-182 | the value order is antisymmetric: swapping operands flips the result |
| Vm.Pop | naux-lang/src/vm/interpreter.rs:387-390 | an empty stack is exactly the "Stack underflow" case; otherwise the top and the rest come back |
| Vm.PopN | naux-lang/src/vm/interpreter.rs:166-173 | n pops return the top n values in push order, or underflow when fewer are present |
| Vm.ReadSlot | naux-lang/src/vm/interpreter.rs:362-365 | a slot of the innermost frame, Null when the frame or slot is missing |
| Vm.WriteSlot | naux-lang/src/vm/interpreter.rs:366-373 | only the addressed slot of the innermost frame changes; an out-of-range slot changes nothing |
| Vm.Position | naux-lang/src/vm/interpreter.rs:374-386 | the first position of a variable name, or none when the name is absent |
| Vm.SatI64 | naux-lang/src/vm/interpreter.rs:73-79 | the float-to-i64 cast saturates at the i64 bounds and keeps in-range values |
| Vm.NumConst | naux-lang/src/vm/interpreter.rs:73-79 | a constant within epsilon of an integer becomes SmallInt, any other a Float |
| Vm.IntRem | naux-lang/src/vm/interpreter.rs:102 | integer remainder takes the dividend's sign and is smaller than the divisor in magnitude |
| Vm.NumBin | naux-lang/src/vm/interpreter.rs:391-412 | underflow and non-number operands are the error cases; on success one value replaces the two operands and the rest of the stack stays |
| Vm.CmpNum | naux-lang/src/vm/interpreter.rs:438-456 | two numbers give a Bool of their numeric comparison; anything else is a type error |
| Vm.PopTwoPush | naux-lang/src/vm/interpreter.rs:428-437 | fails only on underflow and otherwise replaces two operands by one Bool |
| Vm.CallBuiltin | naux-lang/src/vm/interpreter.rs:258-314 | pops argc arguments and pushes one result; an unregistered name other than the fast paths is "Unknown builtin" |
| Vm.PairKeys | naux-lang/src/vm/interpreter.rs:174-181 | the built map has exactly the listed keys |
| Vm.BindArgs | naux-lang/src/vm/interpreter.rs:336-341 | slot i holds argument i when both a parameter and an argument exist, other slots keep their value |
| VmProps.UnderflowIsFatal | naux-lang/src/vm/interpreter.rs:50-242 | any popping instruction on an empty stack ends the run with "Stack underflow" |
| VmProps.StackEffect | naux-lang/src/vm/interpreter.rs:73-224 | each instruction replaces its declared number of popped values by its pushed values and leaves the rest of the stack alone |
| VmProps.BinaryEffect | naux-lang/src/vm/interpreter.rs:98-108 | arithmetic and comparison instructions pop two and push one |
| VmProps.LogicEffect | naux-lang/src/vm/interpreter.rs:109-118 | And and Or pop two and push one |
| VmProps.ManyEffect | naux-lang/src/vm/interpreter.rs:130-181 | builtin calls, MakeList and MakeMap pop their operand count and push one |
| VmProps.SimpleEffect | naux-lang/src/vm/interpreter.rs:73-97 | constants, loads, stores and emits have their declared stack effect |
| VmProps.IntArithmetic | naux-lang/src/vm/interpreter.rs:98-102 | two integers add, subtract, multiply and take remainders as integers, second operand first |
| VmProps.DivIsFloat | naux-lang/src/vm/interpreter.rs:101 | division of two integers yields a float |
| VmProps.ArithTypeError | naux-lang/src/vm/interpreter.rs:391-412 | arithmetic on a non-number stops with "Type error in binary op" |
| VmProps.CompareTypeError | naux-lang/src/vm/interpreter.rs:438-456 | ordering on a non-number stops with "Type error in numeric comparison" |
| VmProps.LogicNeverFails | naux-lang/src/vm/interpreter.rs:103-118 | Eq, Ne, And and Or with two operands always continue and push one Bool |
| VmProps.JumpSemantics | naux-lang/src/vm/interpreter.rs:119-129 | Jump goes to its target; JumpIfFalse pops and jumps exactly when the value is falsy |
| VmProps.MakeListOrder | naux-lang/src/vm/interpreter.rs:166-173 | the new list holds the popped values in the order they were pushed |
| VmProps.PairKeysFirstWins | naux-lang/src/vm/interpreter.rs:174-181 | a repeated key keeps the value of its first position |
| VmProps.PairKeysDistinct | naux-lang/src/vm/interpreter.rs:174-181 | with distinct keys, key i maps to the i-th pushed value |
| VmProps.LoadFieldNull | naux-lang/src/vm/interpreter.rs:182-194 | a field of a map is pushed, and anything that is not a map yields Null |
| VmProps.CallFnResolution | naux-lang/src/vm/interpreter.rs:133-165 | a user function is preferred; a name that is neither is "Unknown builtin" |
| VmProps.ReturnValue | naux-lang/src/vm/interpreter.rs:225-242 | Return and running off the end hand back the top of the stack, or Null on an empty stack |
| VmProps.EmitLogsEvents | naux-lang/src/vm/interpreter.rs:195-224 | each emit logs exactly one event, except ask, which logs the prompt and then the answer |
| VmProps.ExecKeepsFrames | naux-lang/src/vm/interpreter.rs:50-242 | a run only writes the innermost frame and leaves the frame count unchanged |
| VmProps.InstrKeepsFrames | naux-lang/src/vm/interpreter.rs:73-224 | one instruction only writes the innermost frame and keeps the frame count |
| VmProps.WriteSlotOuter | naux-lang/src/vm/interpreter.rs:366-373 | a store leaves every frame below the innermost one untouched |
| VmProps.OtherKeepFrames | naux-lang/src/vm/interpreter.rs:73-224 | instructions other than calls and stores leave the frames alone |
| VmProps.CallRestoresFrames | naux-lang/src/vm/interpreter.rs:315-361 | after a returning call the caller's frames are exactly as before and the result is on top of the stack |
| VmProps.CallFrameLayout | naux-lang/src/vm/interpreter.rs:329-341 | the callee's frame holds argument i in slot i for each bound parameter and Null elsewhere |
| VmProps.RunProgramOneFrame | naux-lang/src/vm/interpreter.rs:22-47 | a program that returns ends with exactly the one frame `run_program` set up for main, since every call pops the frame it pushed |
| StdMath.AsI64 | naux-lang/src/stdlib/math.rs:16-21 | the float-to-i64 cast truncates toward zero and saturates at the i64 bounds |
| StdMath.ToI64 | naux-lang/src/stdlib/math.rs:16-21 | a number converts and anything else is "expected number" |
| StdMath.Euclid | naux-lang/src/stdlib/math.rs:29-33 | the remainder loop ends with a greatest common divisor of its two naturals |
| StdMath.Gcd | naux-lang/src/stdlib/math.rs:27-34 | the result is the non-negative gcd in the divisibility order, and the absolute value when the second argument is 0 |
| StdMath.GcdUnique | naux-lang/src/stdlib/math.rs:23-35 | any two greatest common divisors agree, so the loop's answer is the gcd |
| StdMath.GcdBuiltin | naux-lang/src/stdlib/math.rs:23-35 | the wrong argument count and non-numbers are the error cases; otherwise the result is the whole-number gcd of the truncated arguments |
| StdMath.TDivExact | naux-lang/src/stdlib/math.rs:48 | truncating division by a divisor loses nothing |
| StdMath.LcmSpec | naux-lang/src/stdlib/math.rs:37-52 | the lcm is zero exactly when an argument is, is a multiple of both, and times the gcd gives the absolute product |
| StdMath.LcmBuiltin | naux-lang/src/stdlib/math.rs:37-52 | the two argument errors, and otherwise the lcm of the truncated arguments |
| StdMath.TRem | naux-lang/src/stdlib/math.rs:64-70 | the truncating remainder is smaller than the modulus in magnitude and agrees with the Euclidean one on non-negative dividends |
| StdMath.PowModBase | naux-lang/src/stdlib/math.rs:64 | reducing the base first does not change a power modulo m |
| StdMath.PowLoopSpec | naux-lang/src/stdlib/math.rs:66-72 | the square-and-multiply loop keeps res times base to the exp fixed modulo m |
| StdMath.PowModSpec | naux-lang/src/stdlib/math.rs:54-74 | with non-negative base and exponent and positive modulus, the corrected loop yields base to the exp mod m |
| StdMath.PowModAgrees | naux-lang/src/stdlib/math.rs:65 | the corrected accumulator gives the same result for every modulus other than 0, 1 and -1, and modulo 1 for every positive exponent |
| StdMath.ModOneLoop | naux-lang/src/stdlib/math.rs:66-72 | modulo 1 the loop ends on 0 once the exponent is positive, whatever it starts from |
| StdMath.PowModAsWrittenSpec | naux-lang/src/stdlib/math.rs:54-74 | as written, with non-negative base and exponent and positive modulus, the result is base to the exp mod m, except 1 for exponent 0 modulo 1 |
| StdMath.PowModZeroExpModOne | naux-lang/src/stdlib/math.rs:65 | as written, exponent 0 modulo 1 yields 1 where the intended answer is 0 |
| StdMath.PowModBuiltin | naux-lang/src/stdlib/math.rs:54-74 | the builtin as written: argument errors, "mod must be non-zero" exactly for a zero modulus, 1 for any exponent at or below 0, and otherwise the modular power (1 for exponent 0 modulo 1) |
| StdMath.NoSmallDivisor | naux-lang/src/stdlib/math.rs:90-97 | no divisor below i with i squared above n makes n prime, which is why trial division may stop at the square root |
| StdMath.TrialDivision | naux-lang/src/stdlib/math.rs:90-97 | the odd trial-division loop answers true exactly for primes |
| StdMath.IsPrime | naux-lang/src/stdlib/math.rs:81-97 | the result is true exactly when n is prime |
| StdMath.IsPrimeBuiltin | naux-lang/src/stdlib/math.rs:76-98 | argument errors, and otherwise a Bool telling whether the truncated number is prime |
| StdMath.UnmarkedPrime | naux-lang/src/stdlib/math.rs:111-121 | once p squared exceeds k, surviving every round below p means k is prime |
| StdMath.CompositeRound | naux-lang/src/stdlib/math.rs:113-119 | a round for a composite p would mark nothing new, so skipping it is sound |
| StdMath.NextRound | naux-lang/src/stdlib/math.rs:112-121 | round p marks exactly the multiples of p from p squared |
| StdMath.CrossOff | naux-lang/src/stdlib/math.rs:114-118 | the inner loop marks exactly the multiples of p from p squared up to n and keeps every other mark |
| StdMath.Sieve | naux-lang/src/stdlib/math.rs:105-127 | the list is strictly ascending and holds exactly the primes up to n |
| StdMath.SieveBuiltin | naux-lang/src/stdlib/math.rs:100-129 | argument errors, and otherwise the ascending list of primes up to the truncated n |
| StdAlgo.ToNumList | naux-lang/src/stdlib/algo.rs:14-29 | a list of numbers converts item by item; a non-list and a non-number item are the two errors |
| StdAlgo.LowerSearch | naux-lang/src/stdlib/algo.rs:91-100 | the loop keeps everything left of l below x and everything from r on at least x |
| StdAlgo.UpperSearch | naux-lang/src/stdlib/algo.rs:115-124 | the loop keeps everything left of l at most x and everything from r on above x |
| StdAlgo.LowerBound | naux-lang/src/stdlib/algo.rs:90-101 | on a sorted list, the first index whose value is at least x |
| StdAlgo.UpperBound | naux-lang/src/stdlib/algo.rs:114-125 | on a sorted list, the first index whose value is above x |
| StdAlgo.SplitUnique | naux-lang/src/stdlib/algo.rs:90-125 | each split point is unique, so the bounds are determined by the list and x |
| StdAlgo.BoundsBracketEqual | naux-lang/src/stdlib/algo.rs:81-127 | on a sorted list the indices from lower to upper bound hold exactly the copies of x |
| StdAlgo.BoundsExample | naux-lang/src/stdlib/algo.rs:81-127 | the bounds of 4 in 1, 2, 4, 4, 5 are 2 and 4 |
| StdAlgo.BoundBuiltin | naux-lang/src/stdlib/algo.rs:81-127 | usage, list and "x must be number" errors, and otherwise the bound as a number |
| StdAlgo.StepShape | naux-lang/src/stdlib/algo.rs:38-47 | one step keeps tails strictly increasing and never raises an entry |
| StdAlgo.TailsStepInv | naux-lang/src/stdlib/algo.rs:37-48 | one step keeps each entry witnessed by an increasing subsequence and every subsequence covered |
| StdAlgo.LisIsLongest | naux-lang/src/stdlib/algo.rs:31-50 | the tails length is attained by a strictly increasing subsequence and no such subsequence is longer |
| StdAlgo.LisLengthBuiltin | naux-lang/src/stdlib/algo.rs:31-50 | argument errors, and otherwise the length of a longest strictly increasing subsequence |
| StdAlgo.BestIsUpperBound | naux-lang/src/stdlib/algo.rs:65-78 | no choice of items within the capacity is worth more than the reference optimum |
| StdAlgo.BestIsAttained | naux-lang/src/stdlib/algo.rs:65-78 | some choice within the capacity attains the reference optimum |
| StdAlgo.Knapsack | naux-lang/src/stdlib/algo.rs:65-78 | the downward capacity loop computes the best value of a 0/1 choice within the capacity |
| StdAlgo.Weights | naux-lang/src/stdlib/algo.rs:68 | each weight is truncated to an integer |
| StdAlgo.KnapsackBuiltin | naux-lang/src/stdlib/algo.rs:52-79 | the argument, cap and length-mismatch errors, and otherwise an optimal 0/1 knapsack value |
| StdCollections.ExpectList | naux-lang/src/stdlib/collections.rs:298-305 | exactly a list object yields its items; anything else the given message |
| StdCollections.ExpectMap | naux-lang/src/stdlib/collections.rs:307-314 | exactly a map object yields its entries; anything else the given message |
| StdCollections.NewCollectionsEmpty | naux-lang/src/stdlib/collections.rs:34-36 | the four constructors make empty, hence falsy, collections |
| StdCollections.SetInsert | naux-lang/src/stdlib/collections.rs:44 | a value equal to a member is not added again; a new one is added and every old member stays |
| StdCollections.SetAdd | naux-lang/src/stdlib/collections.rs:38-49 | the two errors; the same set handle comes back holding the value and every old member |
| StdCollections.SetContains | naux-lang/src/stdlib/collections.rs:51-61 | the two errors; otherwise a Bool that is true exactly when some member compares equal |
| StdCollections.AddThenContains | naux-lang/src/stdlib/collections.rs:38-61 | a value just added is contained, and so is everything that was |
| StdCollections.QueuePush | naux-lang/src/stdlib/collections.rs:67-75 | the errors, and otherwise a new list with the value at the back |
| StdCollections.QueuePop | naux-lang/src/stdlib/collections.rs:76-85 | the pair of front and rest, or Null and an empty list for an empty queue |
| StdCollections.QueueFifo | naux-lang/src/stdlib/collections.rs:67-85 | popping after a push returns the old front, or the pushed value on an empty queue |
| StdCollections.StackPush | naux-lang/src/stdlib/collections.rs:113-121 | the errors, and otherwise a new list with the value on top |
| StdCollections.StackPop | naux-lang/src/stdlib/collections.rs:122-130 | the pair of top and rest, or Null and an empty list for an empty stack |
| StdCollections.StackLifo | naux-lang/src/stdlib/collections.rs:113-130 | popping right after a push gives back the value and the old stack |
| StdCollections.SortDescSorted | naux-lang/src/stdlib/collections.rs:339-346 | the stored queue of numbers is in non-increasing order |
| StdCollections.PqPush | naux-lang/src/stdlib/collections.rs:90-97 | the errors; the new queue holds the old contents plus the value, largest first |
| StdCollections.PqPopMin | naux-lang/src/stdlib/collections.rs:99-107 | the least element and a queue of the others, or Null and an empty queue |
| StdCollections.PushThenPop | naux-lang/src/stdlib/collections.rs:90-107 | a value pushed onto an empty queue is the one popped, leaving it empty |
| StdCollections.AddValues | naux-lang/src/stdlib/collections.rs:316-324 | the numeric sum, an integer exactly when both are integers, and 0.0 for anything else |
| StdCollections.RangeSumPairs | naux-lang/src/stdlib/collections.rs:258-268 | one level up, the parents of a pair-aligned range add up to the same sum |
| StdCollections.BuildTree | naux-lang/src/stdlib/collections.rs:226-237 | the size is the least power of two covering the list, leaves hold the padded list and every node sums its children |
| StdCollections.Query | naux-lang/src/stdlib/collections.rs:254-270 | on a well-formed tree the loop returns the sum of the leaves in the half-open range |
| StdCollections.Update | naux-lang/src/stdlib/collections.rs:283-293 | the leaf takes the value, other leaves stay, and the tree stays well-formed |
| StdCollections.SegtreeNew | naux-lang/src/stdlib/collections.rs:221-242 | the errors, and otherwise a tree-and-size map over the list |
| StdCollections.TreeParts | naux-lang/src/stdlib/collections.rs:249-253 | failing to read the tree or size yields only the two missing-part messages |
| StdCollections.SegtreeQuery | naux-lang/src/stdlib/collections.rs:244-271 | the argument errors, and otherwise a Float that is the range sum of a well-formed tree |
| StdCollections.SegtreeUpdate | naux-lang/src/stdlib/collections.rs:273-296 | the argument errors, and otherwise a map whose tree has the value at the leaf and nothing else changed in the map |
| StdDsu.UsizeOf | naux-lang/src/stdlib/collections.rs:153 | the i64-to-usize cast wraps into the usize range and keeps in-range values |
| StdDsu.UsizeRoundTrip | naux-lang/src/stdlib/collections.rs:185 | storing a usize root as i64 and reading it back as usize returns the same index |
| StdDsu.Parent | naux-lang/src/stdlib/collections.rs:177-181 | an index past the list is its own parent, and any other parent is a usize |
| StdDsu.RootHeight | naux-lang/src/stdlib/collections.rs:176-191 | under any ranking a root sits strictly below every non-root of its tree |
| StdDsu.CompressStep | naux-lang/src/stdlib/collections.rs:184-186 | pointing a node straight at its root keeps the forest acyclic and every root |
| StdDsu.Find | naux-lang/src/stdlib/collections.rs:176-191 | find returns the root, leaves x pointing at it and changes no node's root |
| StdDsu.FindKeepsClosed | naux-lang/src/stdlib/collections.rs:176-191 | path compression keeps every link inside the list |
| StdDsu.BumpRank | naux-lang/src/stdlib/collections.rs:213-217 | only the winner's rank changes, by one when it is an integer |
| StdDsu.LinkRoots | naux-lang/src/stdlib/collections.rs:201-212 | hanging one root under another merges exactly those two trees |
| StdDsu.Union | naux-lang/src/stdlib/collections.rs:193-219 | union keeps the lists' lengths and the forest acyclic |
| StdDsu.UnionMerges | naux-lang/src/stdlib/collections.rs:193-219 | after a union a and b share a root, their trees are under it and other roots stay |
| StdDsu.DsuNew | naux-lang/src/stdlib/collections.rs:131-146 | the errors, and otherwise n elements that are each their own root with rank 0 |
| StdDsu.DsuFind | naux-lang/src/stdlib/collections.rs:148-159 | the errors, and otherwise the root of x with a compressed copy of the parent list |
| StdDsu.DsuUnion | naux-lang/src/stdlib/collections.rs:161-174 | the errors, and otherwise a copy whose forest has the two trees merged |
| StdGraph.GraphNew | naux-lang/src/stdlib/graph.rs:18-28 | directed exactly when the first argument is true, with no nodes |
| StdGraph.AddArc | naux-lang/src/stdlib/graph.rs:52-58 | the arc is appended to the source's list and every other list is unchanged |
| StdGraph.GraphAddEdge | naux-lang/src/stdlib/graph.rs:30-61 | the argument errors; otherwise the graph gains the edge, weight 1 by default, and the reverse edge when undirected |
| StdGraph.GraphNeighbors | naux-lang/src/stdlib/graph.rs:62-82 | the errors, and otherwise the neighbours in insertion order, none for an unknown node |
| StdGraph.AddEdgeThenNeighbors | naux-lang/src/stdlib/graph.rs:30-82 | an added edge's target is listed after the old neighbours of its source |
| StdGraph.ClosedHoldsWalk | naux-lang/src/stdlib/graph.rs:104-113 | a set closed under edges that holds the start holds everything reachable |
| StdGraph.FirstDiscoverersBreadthFirst | naux-lang/src/stdlib/graph.rs:104-113 | non-decreasing first discoverers make the order breadth-first |
| StdGraph.Expand | naux-lang/src/stdlib/graph.rs:106-112 | expanding a node marks all its neighbours and queues exactly the new ones |
| StdGraph.BfsComplete | naux-lang/src/stdlib/graph.rs:104-113 | when the queue is empty, the visited nodes are exactly the reachable ones |
| StdGraph.Bfs | naux-lang/src/stdlib/graph.rs:96-115 | the order starts at the start, lists each reachable node once and nothing else, in breadth-first order |
| StdGraph.GraphBfs | naux-lang/src/stdlib/graph.rs:83-116 | the errors, and otherwise the reachable nodes once each, the start first |
| StdGraph.Settle | naux-lang/src/stdlib/graph.rs:172-175 | settling a node of least tentative distance keeps the settled nodes closest |
| StdGraph.RelaxAll | naux-lang/src/stdlib/graph.rs:176-188 | relaxing every edge out of the settled node keeps the bookkeeping and relaxes its edges |
| StdGraph.DistIsLowerBound | naux-lang/src/stdlib/graph.rs:172-189 | once everything reached is settled, no walk to a node is lighter than its distance |
| StdGraph.Dijkstra | naux-lang/src/stdlib/graph.rs:158-205 | no path exactly when the target is unreachable, and otherwise a lightest walk from the source |
| StdGraph.ReadPath | naux-lang/src/stdlib/graph.rs:195-205 | following predecessors gives a walk from the source to the target of exactly its distance |
| StdGraph.GraphDijkstra | naux-lang/src/stdlib/graph.rs:118-207 | the argument errors, Null for an unreachable target, and otherwise the node names of a lightest path |
| StdTest.AssertEqual | naux-lang/src/stdlib/test.rs:9-20 | any count other than three arguments is the usage error; otherwise a Bool of the first two being equal |
| StdTest.MessageIgnored | naux-lang/src/stdlib/test.rs:13-19 | the message never affects the outcome |
| StdTest.AssertEqualProperties | naux-lang/src/stdlib/test.rs:13-19 | a value compared with itself passes and the operand order does not matter |
| RsLexer.CountNewlinesAppend | naux-rs/src/lexer.rs:70-85 | The newline count of a concatenation is the sum of the counts of its parts, so line numbers advance additively over the input. |
| RsLexer.AdvanceCounts | naux-rs/src/lexer.rs:70-85 | Advancing over text moves the line by its number of newlines, moves the column by its length when it has none, and resets the column to 1 after a final newline. |
| RsLexer.Utf8Len | naux-rs/src/lexer.rs:70-85 | A char takes one to four bytes, and exactly one when it is ASCII; byte offsets and char positions therefore agree on ASCII text. |
| RsLexer.CharsIn | naux-rs/src/lexer.rs:363-379 | A byte offset maps to a char count whose prefix has exactly that many bytes; on an ASCII prefix the counts coincide. |
| RsLexer.MatchColorShape | naux-rs/src/lexer.rs:363-379 | The colour matcher as written only ever matches a hash and three hex digits; a seven-char colour is never matched. |
| RsLexer.HexRunAscii | naux-rs/src/lexer.rs:363-379 | A hash followed by hex digits is all ASCII, so slicing it by bytes and by chars agrees. |
| RsLexer.SixPassesThree | naux-rs/src/lexer.rs:363-379 | Any input that would pass the six-digit colour test already passes the three-digit test, which is tried first. |
| RsLexer.SixNotAfterThree | naux-rs/src/lexer.rs:363-379 | When the three-digit test fails, the six-digit test cannot succeed either. |
| RsLexer.LineEnd | naux-rs/src/lexer.rs:155-183 | A comment extends up to the first newline after it, or to the end of input, and contains no newline. |
| RsLexer.IdentEnd | naux-rs/src/lexer.rs:349-360 | An identifier is the maximal run of letters, digits and underscores from its start. |
| RsLexer.ScanString | naux-rs/src/lexer.rs:201-241 | A string scan that succeeds stops at a closing double quote at or after its start. |
| RsLexer.Step | naux-rs/src/lexer.rs:91-347 | Every lexing step that skips or emits consumes at least one char and never more than remain, and never emits Eof; a hash goes to the colour matcher as written, whose slice panic becomes a Panic outcome. |
| RsLexer.MatchColorHash | naux-rs/src/lexer.rs:186-198 | Input not starting with a hash never matches a colour, so the colour test that follows the hash branch can never fire. |
| RsLexer.Lex | naux-rs/src/lexer.rs:91-347 | The token loop keeps the tokens already produced as a prefix, ends with exactly one Eof, and puts no Eof before it; a step that panics ends the run with a SlicePanic error at its position. |
| RsLexer.LexPositions | naux-rs/src/lexer.rs:91-347 | Started from a line and column of at least 1, every token lexed carries a line and column of at least 1. |
| RsLexer.Tokenize | naux-rs/src/lexer.rs:57-64 | A successful tokenize, with the colour matcher as written or corrected, ends with a single Eof and stamps every token with a line and column counted from 1. |
| RsLexer.StepOpText | naux-rs/src/lexer.rs:91-347 | An operator token produced by one step carries its own operator text, and comparison tokens carry one of the six comparison operators. |
| RsLexer.LexOpText | naux-rs/src/lexer.rs:91-347 | Every token of a successful lexing run carries the operator text its kind implies. |
| RsLexer.ScanEscaped | naux-rs/src/lexer.rs:201-241 | Scanning an escaped text followed by a quote recovers the text exactly and stops at that quote. |
| RsLexer.StringRoundTrip | naux-rs/src/lexer.rs:201-241 | A quoted, escaped text lexes to one string token holding the original text, stamped at the opening quote. |
| RsLexer.UnterminatedAtQuote | naux-rs/src/lexer.rs:227-233 | An unclosed string is reported as unterminated at the position of its opening quote. |
| RsLexer.NoQuoteNoClose | naux-rs/src/lexer.rs:201-241 | Without any unescaped double quote left, the string scan finds no closing quote. |
| RsLexer.NumberEndShape | naux-rs/src/lexer.rs:244-270 | The chars a number takes form a sign-optional digit run with at most one dot. |
| RsLexer.NumberToken | naux-rs/src/lexer.rs:244-270 | A digit, or a minus followed by a digit, starts one Number token spanning the longest digit-and-dot run. |
| RsLexer.TwoCharFirst | naux-rs/src/lexer.rs:118-142 | The arrow and the two-char comparisons are recognised before their one-char prefixes. |
| RsLexer.DollarTokens | naux-rs/src/lexer.rs:273-285 | A dollar followed by an identifier is a variable token named without the dollar; a lone dollar is its own token. |
| RsLexer.HashComment | naux-rs/src/lexer.rs:155-183 | A hash that starts the #> comment, or that the chosen colour matcher rejects, skips to the end of the line and emits nothing. |
| RsLexer.UnexpectedAtPosition | naux-rs/src/lexer.rs:333-337 | A char no branch handles stops lexing with an UnexpectedChar error at its own line and column. |
| RsLexer.MatchColorIntended | naux-rs/src/lexer.rs:363-379 | The corrected matcher takes a hash and six hex digits when present, else a hash and three, and never panics. |
| RsLexer.SixDigitColor | naux-rs/src/lexer.rs:363-379 | On a hash followed by six hex digits, the corrected matcher takes seven chars where the matcher as written takes four. |
| RsLexer.ThreeDigitColor | naux-rs/src/lexer.rs:363-379 | On a hash followed by exactly three hex digits, both matchers agree on four chars. |
| RsLexer.SixDigitColorExample | naux-rs/src/lexer.rs:363-379 | On the input #abcdef the matcher as written stops after #abc, while the intended colour is all seven chars. |
| RsLexer.ColorAt | naux-rs/src/lexer.rs:163-176 | The colour the hash branch takes, as written or corrected, is four or seven chars long and fits in the input. |
| RsLexer.HashStep | naux-rs/src/lexer.rs:155-183 | A hash that does not start #> is a colour token of the matched length, a comment to the end of the line, or a panic, as the colour matcher decides. |
| RsLexer.IdentStep | naux-rs/src/lexer.rs:287-300 | A letter starts an identifier token spanning the longest run of letters, digits and underscores. |
| RsLexer.LexEmit | naux-rs/src/lexer.rs:91-347 | After a step that emits, lexing goes on after the consumed chars, from the position reached over them, with the token stamped at the old position appended. |
| RsLexer.LexSkip | naux-rs/src/lexer.rs:91-347 | After a step that skips, lexing goes on after the skipped chars with no token added. |
| RsLexer.LexEnd | naux-rs/src/lexer.rs:340-346 | At the end of input the Eof token is appended at the current position. |
| RsLexer.AdvanceFlat | naux-rs/src/lexer.rs:70-85 | Passing chars none of which is a newline keeps the line and moves the column by their number. |
| RsLexerFindings.LexEmitFlat | naux-rs/src/lexer.rs:91-347 | An emitted token without a newline moves the next token's column by exactly its length. |
| RsLexerFindings.ColorStep | naux-rs/src/lexer.rs:163-176 | A hash the colour matcher accepts emits a Color token holding exactly the matched chars. |
| RsLexerFindings.ColorHead | naux-rs/src/lexer.rs:163-176 | After an accepted colour, lexing resumes right after it, one column per char further on. |
| RsLexerFindings.IdentEndAll | naux-rs/src/lexer.rs:349-360 | An identifier made only of letters runs to the end of the input. |
| RsLexerFindings.IdentToEnd | naux-rs/src/lexer.rs:287-346 | A run of letters at the end of input lexes to one identifier token and the Eof token right after it. |
| RsLexerFindings.SixHexFacts | naux-rs/src/lexer.rs:363-379 | On a hash and six lower-case hex letters the matcher as written takes four chars and the corrected one seven, and the last three letters form an identifier. |
| RsLexerFindings.SixDigitSplits | naux-rs/src/lexer.rs:163-176 | As written, a hash and six hex letters lex first to a four-char colour, with lexing resuming at the fifth char. |
| RsLexerFindings.SixDigitRest | naux-rs/src/lexer.rs:287-346 | The three letters left behind lex to an identifier and then Eof. |
| RsLexerFindings.SixDigitTokens | naux-rs/src/lexer.rs:57-379 | As written, a hash and six hex letters lex to a short colour, an identifier and Eof. |
| RsLexerFindings.SixDigitWhole | naux-rs/src/lexer.rs:363-379 | With the corrected matcher the same input lexes to one seven-char colour and Eof. |
| RsLexerFindings.HashPanics | naux-rs/src/lexer.rs:163-164 | A hash on which the colour matcher panics ends lexing with the SlicePanic error at the hash's position. |
| RsLexerFindings.WideCharPanics | naux-rs/src/lexer.rs:363-369 | A hash, two hex digits and a two-byte char make the four-byte slice end inside that char, so lexing as written ends in the panic. |
| RsLexerFindings.WideCharComment | naux-rs/src/lexer.rs:177-182 | With the corrected matcher the same input is a comment and lexes to Eof alone, four columns on. |
| RsLexerFindings.WideCharAfterHash | naux-rs/src/lexer.rs:363-369 | The text #ab followed by é panics at line 1, column 1 as written, and corrected lexes to Eof at column 5. |
| RsParser.Peek | naux-rs/src/parser.rs:60-65 | Looking ahead returns the real token when it is not Eof, and the final Eof once past the end. |
| RsParser.SkipNewline | naux-rs/src/parser.rs:72-80 | An optional newline advances the cursor by at most one token. |
| RsParser.SkipNewlines | naux-rs/src/parser.rs:95-98 | Skipping newlines stops at the first non-newline token, having passed only newlines. |
| RsParser.Expect | naux-rs/src/parser.rs:81-94 | Expect succeeds exactly when the current token has the kind, consuming it; otherwise it reports the message at that token's position. |
| RsParser.ParseNumber | naux-rs/src/parser.rs:459-466 | A number lexeme becomes an integer exactly when it is an integer literal in the i64 range, else a float when it is a decimal literal, else null. |
| RsParser.F64ToI64 | naux-rs/src/parser.rs:283 | The float-to-integer cast truncates toward zero and saturates at the i64 bounds. |
| RsParser.LoopTimes | naux-rs/src/parser.rs:277-293 | A counted loop gets a repeat count exactly when its expression is a numeric literal. |
| RsParser.ParseVarRef | naux-rs/src/parser.rs:508-519 | A variable reference is the variable token's name plus the dot-separated identifiers after it, and parsing stops at the first token that is not a dot. |
| RsParser.VarPath | naux-rs/src/parser.rs:512-516 | The property loop reads dot-identifier pairs until no dot follows, taking two tokens per property. |
| RsParser.ParseExpr | naux-rs/src/parser.rs:384-387 | A parsed expression consumes at least one token and, on lexer-made tokens, has the comparison-over-sum-over-product precedence shape. |
| RsParser.ParseComparison | naux-rs/src/parser.rs:388-402 | A comparison is a sum, optionally followed by one comparison operator and a second sum. |
| RsParser.ParseAdd | naux-rs/src/parser.rs:403-417 | A sum is products folded to the left over plus and minus. |
| RsParser.AddTail | naux-rs/src/parser.rs:405-414 | The additive loop keeps the left-folded shape and stops only at a token that is neither plus nor minus. |
| RsParser.ParseMul | naux-rs/src/parser.rs:418-432 | A product is unary operands folded to the left over star and slash. |
| RsParser.MulTail | naux-rs/src/parser.rs:420-429 | The multiplicative loop keeps the left-folded shape and stops only at a token that is neither star nor slash. |
| RsParser.ParseUnary | naux-rs/src/parser.rs:433-444 | A unary expression consumes tokens and is never a binary node. |
| RsParser.ParsePrimary | naux-rs/src/parser.rs:445-507 | A primary consumes tokens and is neither binary nor unary. |
| RsParser.ParseList | naux-rs/src/parser.rs:520-534 | A bracketed list parses to a list node and consumes its closing bracket. |
| RsParser.ParseObject | naux-rs/src/parser.rs:535-553 | A braced object parses to an object node and consumes its closing brace. |
| RsParser.ParseAction | naux-rs/src/parser.rs:166-200 | An action is a bang and its name, and its callback, only allowed at top level, never has a callback of its own. |
| RsParser.ActionArgs | naux-rs/src/parser.rs:172-192 | The argument loop keeps earlier arguments in order, takes at most one callback, and stops only where no argument or arrow can follow. |
| RsParser.TryParseArg | naux-rs/src/parser.rs:214-245 | Trying an argument either consumes tokens and yields one, or yields none and leaves the cursor where it was. |
| RsParser.ParseBlock | naux-rs/src/parser.rs:122-129 | A statement block keeps earlier statements and stops exactly at its end marker, with room for the marker's tokens. |
| RsParser.ParseStatement | naux-rs/src/parser.rs:153-165 | A statement begins with a bang, a variable or an at sign, and consumes at least that token. |
| RsParser.ParseControl | naux-rs/src/parser.rs:253-266 | A control statement begins at an at sign and consumes tokens. |
| RsParser.ParseLoopBody | naux-rs/src/parser.rs:267-319 | A loop has a source exactly in over mode and a repeat count exactly in count mode. |
| RsParser.LoopHead | naux-rs/src/parser.rs:267-292 | The loop head determines the loop mode, the source of an over loop, and the count of a counted loop. |
| RsParser.ParseIfBody | naux-rs/src/parser.rs:320-367 | An if statement parses to an if node whose condition has the condition precedence shape. |
| RsParser.ParseCondition | naux-rs/src/parser.rs:368-383 | A condition is an expression optionally followed by one more comparison operator and expression. |
| RsParser.ParseRitual | naux-rs/src/parser.rs:109-145 | A ritual starts with a tilde and the keyword rite, and is named by the token after the keyword. |
| RsParser.ExpectEnd | naux-rs/src/parser.rs:131-139 | The closing tilde and end consume tokens and leave the cursor inside the token list. |
| RsParser.ClosingChecksPass | naux-rs/src/parser.rs:131-139 | Wherever a ritual body stops at its end marker, the closing checks always pass, so their error messages can never be produced. |
| RsParser.Rituals | naux-rs/src/parser.rs:99-108 | At Eof the ritual loop returns no rituals. |
| RsParser.Parse | naux-rs/src/parser.rs:554-558 | A lexing error is passed on wrapped as a parse error. |
| RsParser.ShowNatValue | naux-rs/src/parser.rs:459-466 | The decimal digits of a natural number read back as that number. |
| RsParser.IntLiteralRoundTrip | naux-rs/src/parser.rs:459-466 | Printing an i64 and parsing it back as a number literal gives the same integer. |
| RsParser.FloatSplitUnique | naux-rs/src/parser.rs:459-466 | A decimal literal can be split only at its first dot, so its value is well defined. |
| RsParser.FloatLexemeSplit | naux-rs/src/parser.rs:459-466 | Every float lexeme splits into digits, its first dot and digits, which is where FloatValue reads them. |
| RsParser.FloatCountsTruncate | naux-rs/src/parser.rs:280-284 | A fractional loop count truncates toward zero: 3.7 repeats 3 times and -2.5 gives -2. |
| RsParser.LoopHeadCases | naux-rs/src/parser.rs:272-293 | After the word over a loop takes a variable reference; otherwise a numeric literal gives the repeat count and any other expression is the error Counted loop expects numeric literal at the token after it. |
| RsParser.StatementStart | naux-rs/src/parser.rs:153-165 | Any token other than a bang, a variable or an at sign is an Unexpected error at that token. |
| RsParser.RiteKeyword | naux-rs/src/parser.rs:111-118 | A wrong keyword after the opening tilde is reported at the keyword's position. |
| RsParser.ArgKinds | naux-rs/src/parser.rs:214-245 | An identifier followed by equals is a named argument, a bare identifier a flag, a value start a value, and anything else ends the list. |
| RsParser.TokenizeWellFormed | naux-rs/src/parser.rs:554-558 | The tokens the lexer produces meet the parser's expectation that operator tokens carry their operator text. |
| RsParser.ParsedExprShape | naux-rs/src/parser.rs:384-432 | Every expression parsed from source text has the precedence shape: at most one comparison over left-folded sums of left-folded products. |
| RsParser.SubLeftAssociative | naux-rs/src/parser.rs:403-417 | a - b - c parses as (a - b) - c. |
| RsParser.MulBindsTighter | naux-rs/src/parser.rs:403-432 | a + b * c parses as a + (b * c). |
| RsParser.TrailingComma | naux-rs/src/parser.rs:520-534 | A list ends the same way, with the same items, whether or not a trailing comma precedes its closing bracket. |
| RsParser.TrailingCommaObject | naux-rs/src/parser.rs:535-553 | An object ends the same way, with the same entries, whether or not a trailing comma precedes its closing brace. |
| RsValue.AsBool | naux-rs/src/runtime.rs:20-27 | Truthiness: booleans are themselves, numbers are true unless zero, null is false, and strings, lists and objects are true. |
| RsValue.EmptyIsTruthy | naux-rs/src/runtime.rs:20-27 | Even empty strings, lists and objects are true, while zero, null and false are not. |
| RsValue.NewContext | naux-rs/src/runtime.rs:97-104 | A new context holds no variables, no events and no errors. |
| RsValue.SetNested | naux-rs/src/runtime.rs:152-176 | Storing at a path leaves an object at the top whose keys gain the first path step, and every other key of an object keeps its value. |
| RsValue.GetPath | naux-rs/src/runtime.rs:121-136 | Following a path through something that is not an object reads null. |
| RsValue.GetSetNested | naux-rs/src/runtime.rs:121-176 | What is stored at a path reads back from the same path. |
| RsValue.SetNestedFrame | naux-rs/src/runtime.rs:121-176 | Storing at a path leaves every path that parts ways with it reading as before. |
| RsValue.EmptyChainReadsNull | naux-rs/src/runtime.rs:121-136 | Any non-empty path below an empty object reads null. |
| RsValue.SetVarRef | naux-rs/src/runtime.rs:105-120 | Assigning through a reference records one SetVar event for its base, adds the base as a variable, and leaves other variables and errors unchanged. |
| RsValue.GetVarRef | naux-rs/src/runtime.rs:121-136 | Reading a reference to an unknown variable gives null. |
| RsValue.SetVarNamed | naux-rs/src/runtime.rs:137-142 | A plain assignment records a SetVar event, makes the name read back as the value, and leaves every other name as it was. |
| RsValue.GetVar | naux-rs/src/runtime.rs:143-146 | A variable is found exactly when it has been set. |
| RsValue.GetAfterSet | naux-rs/src/runtime.rs:105-136 | After assigning through a reference, reading the same reference gives the assigned value. |
| RsValue.SetVarRefFrame | naux-rs/src/runtime.rs:105-136 | Assigning through one reference leaves every reference to another base, or to a diverging path, reading as before. |
| RsValue.OverwriteWithChain | naux-rs/src/runtime.rs:152-176 | Assigning below a base that is not an object replaces it with a chain of new objects ending in the value. |
| RsSortSpec.Swap | naux-rs/src/runtime.rs:623 | Swapping exchanges the two positions, keeps every other one, and permutes the sequence. |
| RsSortSpec.SortedPermUnique | naux-rs/src/runtime.rs:554-566 | Two ascending arrangements of the same multiset of numbers are equal. |
| RsSortSpec.AlgorithmsAgree | naux-rs/src/runtime.rs:554-566 | Any two sorts of the same input produce the same output, so the choice of algorithm cannot change the result. |
| RsSortSpec.SortExample | naux-rs/tests/naux_tests.rs:74-87 | Any sorted permutation of 5, 3, 1, 4, 2 is 1, 2, 3, 4, 5. |
| RsSortSimple.BubbleSort | naux-rs/src/runtime.rs:618-627 | Bubble sort returns an ascending permutation of its input. |
| RsSortSimple.BubblePass | naux-rs/src/runtime.rs:621-625 | One inner pass over the first k slots permutes them so that slot k - 1 holds their largest value, extending the sorted tail by one slot. |
| RsSortSimple.SelectionSort | naux-rs/src/runtime.rs:629-640 | Selection sort returns an ascending permutation of its input. |
| RsSortSimple.InsertionSort | naux-rs/src/runtime.rs:642-653 | Insertion sort returns an ascending permutation of its input. |
| RsSortSimple.Insert | naux-rs/src/runtime.rs:644-652 | One round of insertion permutes the sequence and leaves its first i + 1 elements ascending. |
| RsSortSimple.ShiftRight | naux-rs/src/runtime.rs:647-650 | Shifting one element into the hole moves the hole left while the multiset with the key in the hole and the ascending prefix are kept. |
| RsSortSimple.PlaceKey | naux-rs/src/runtime.rs:651 | Writing the key into the hole keeps the prefix ascending. |
| RsSortMerge.MergeSort | naux-rs/src/runtime.rs:655-666 | Merge sort returns an ascending permutation of its input. |
| RsSortMerge.Merge | naux-rs/src/runtime.rs:668-692 | Merging two ascending runs gives an ascending run holding exactly the elements of both. |
| RsSortMerge.MergeFront | naux-rs/src/runtime.rs:672-681 | The first merge loop empties one run, and everything output so far is ascending and no larger than either remaining head. |
| RsSortMerge.CopyRest | naux-rs/src/runtime.rs:682-691 | The draining loops append the rest of a run, keeping the output ascending. |
| RsSortHeap.Top | naux-rs/src/runtime.rs:738-746 | The value heapify puts at a node is the largest of the node and its children within the heap. |
| RsSortHeap.Heapify | naux-rs/src/runtime.rs:737-751 | Heapify permutes only the subtree of its node, makes that subtree a heap, and leaves the slots past the heap alone. |
| RsSortHeap.SiftStep | naux-rs/src/runtime.rs:747-750 | After the swap, sifting the child down completes the heap at the parent and touches nothing outside its subtree. |
| RsSortHeap.RootMax | naux-rs/src/runtime.rs:737-751 | In a heap, the root is at least every element of the heap. |
| RsSortHeap.LeavesAreHeaps | naux-rs/src/runtime.rs:728 | From position n / 2 on no node has children, so building the heap can start there. |
| RsSortHeap.HeapSort | naux-rs/src/runtime.rs:726-735 | Heap sort returns an ascending permutation of its input. |
| RsSortHeap.PopMax | naux-rs/src/runtime.rs:731-734 | Moving the root behind the heap and sifting down keeps a heap in front, a sorted suffix behind, and every front element no larger than the suffix. |
| RsSortQuick.QuickSort | naux-rs/src/runtime.rs:694-724 | Quick sort returns an ascending permutation of its input. |
| RsSortQuick.Partition | naux-rs/src/runtime.rs:698-718 | Hoare partitioning around the middle element permutes the input, leaves elements no larger than the pivot before left and no smaller after right, and makes progress on both sides. |
| RsSortQuick.ScanLeft | naux-rs/src/runtime.rs:701-703 | The left cursor stops at the first element not below the pivot, having passed only elements below it. |
| RsSortQuick.ScanRight | naux-rs/src/runtime.rs:704-709 | The right cursor stops at the last element not above the pivot, having passed only elements above it. |
| RsSortQuick.SwapKeepsSides | naux-rs/src/runtime.rs:710-717 | Swapping the two stuck elements puts each on the correct side of the pivot. |
| RsSortQuick.Assemble | naux-rs/src/runtime.rs:719-723 | The sorted left part, the pivot-equal run between the cursors, and the sorted right part together form a sorted permutation. |
| RsSortCounting.CountingSort | naux-rs/src/runtime.rs:753-786 | Counting sort fails exactly on a fractional value or a span above 100000 slots, with the source's messages, and otherwise returns an ascending permutation. |
| RsSortCounting.EmitSorted | naux-rs/src/runtime.rs:778-784 | The rewrite loop produces an ascending sequence within the span. |
| RsSortCounting.EmitCount | naux-rs/src/runtime.rs:778-784 | Each whole number in the span is written out exactly as often as it occurs, and nothing else is written. |
| RsSortCounting.WholeInSpan | naux-rs/src/runtime.rs:753-786 | When every value is whole, the rewritten sequence is a permutation of the input. |
| RsSortCounting.CountingSortErrors | naux-rs/src/runtime.rs:753-786 | A fractional value and a span of 100001 slots are rejected with their messages, while a span of 100000 slots is accepted. |
| RsSort.ValueListAsNumbers | naux-rs/src/runtime.rs:534-548 | A value converts to numbers exactly when it is a list of numbers, in order; otherwise the error says whether it was not a list or held a non-number. |
| RsSort.Numbers | naux-rs/src/runtime.rs:554-566 | Turning numbers back into values keeps their order and values. |
| RsSort.SortValueList | naux-rs/src/runtime.rs:554-566 | Sorting a list of numbers succeeds with an ascending permutation, except for counting sort's own errors; a non-numeric input reports the conversion error. |
| RsSort.SortResultUnique | naux-rs/src/runtime.rs:554-566 | Every algorithm that succeeds returns the same list, the ascending arrangement of the input. |
| RsSearch.ValuesEqual | naux-rs/src/runtime.rs:609-616 | Numbers match when closer than f64 epsilon, strings and booleans when equal, and nothing else ever matches. |
| RsSearch.ContainersNeverMatch | naux-rs/src/runtime.rs:609-616 | Null, lists and objects never match anything, not even themselves. |
| RsSearch.LinearSearch | naux-rs/src/runtime.rs:575-586 | Linear search fails exactly on a non-list, and otherwise returns the first matching index or usize::MAX when nothing matches. |
| RsSearch.BinarySearch | naux-rs/src/runtime.rs:588-607 | Binary search reports the conversion or target error, returns an index holding a close number, or usize::MAX, which on ascending input means no element is close. |
| RsSearch.SearchValue | naux-rs/src/runtime.rs:568-573 | Search succeeds exactly when the chosen algorithm's input checks pass, and returns an in-range index or the not-found number. |
| RsSearch.SearchExample | naux-rs/tests/naux_tests.rs:74-87 | In the list 1 to 5, binary search for 4 can only return index 3. |
| RsNumeric.TruncRem | naux-rs/src/runtime.rs:791 | The remainder has the magnitude of the Euclidean remainder of the magnitudes and the sign of the dividend. |
| RsNumeric.Gcd | naux-rs/src/runtime.rs:788-795 | The signed Euclid loop followed by the absolute value returns the greatest common divisor, never negative. |
| RsNumeric.GcdExample | naux-rs/tests/naux_tests.rs:90-97 | gcd(48, 18) is 6, and the sign of an argument does not matter. |
| RsNumeric.FibMonotone | naux-rs/src/runtime.rs:797-812 | The Fibonacci numbers never decrease. |
| RsNumeric.Fib93 | naux-rs/src/runtime.rs:797-812 | F(93) is the largest Fibonacci number that fits in a u64. |
| RsNumeric.Fib | naux-rs/src/runtime.rs:797-812 | The u64 pair loop returns the n-th Fibonacci number for every n it can represent. |
| RsNumeric.FibExample | naux-rs/tests/naux_tests.rs:90-97 | fib(10) is 55. |
| RsNumeric.Sieve | naux-rs/src/runtime.rs:814-837 | The sieve returns, in ascending order, exactly the primes up to n. |
| RsLcs.Upper | naux-rs/src/runtime.rs:844-853 | No common subsequence of two prefixes is longer than the table entry for them. |
| RsLcs.Lcs | naux-rs/src/runtime.rs:839-871 | The result is a subsequence of both strings and no common subsequence is longer. |
| RsLcs.Table | naux-rs/src/runtime.rs:844-853 | Every table entry holds the LCS length of the corresponding prefixes. |
| RsLcs.Row | naux-rs/src/runtime.rs:846-852 | One row of the table is filled from the row above according to the recurrence. |
| RsLcs.Back | naux-rs/src/runtime.rs:858-867 | One step of the walk back keeps the collected characters, reversed, a common subsequence of the remaining suffixes and never loses length: a match moves diagonally, otherwise the walk moves towards the larger neighbouring entry. |
| RsTopo.Build | naux-rs/src/runtime.rs:1225-1231 | The adjacency lists hold each node's successors in edge order, and every endpoint's in-degree is counted. |
| RsTopo.TopoSort | naux-rs/src/runtime.rs:1224-1255 | On success the order lists every node once with every edge's source first; the cycle error is reported only when no such order exists. |
| RsTopo.Drain | naux-rs/src/runtime.rs:1237-1250 | The queue loop lists each node at most once, after all its predecessors, and any node left over has a pending predecessor that was never listed. |
| RsTopo.Visit | naux-rs/src/runtime.rs:1238-1249 | One round moves the front of the queue into the order and keeps the loop state consistent. |
| RsTopo.Relax | naux-rs/src/runtime.rs:1240-1249 | Removing a node's out-edges leaves each in-degree counting only the pending sources, and queues exactly the nodes that have just reached zero. |
| RsTopo.NoOrder | naux-rs/src/runtime.rs:1251-1253 | If some nodes remain and each has a predecessor among the remaining ones, no topological order exists. |

## Left out

- The command-line tools, file-system walking, process exit codes and the renderers of both crates are presentation and I/O, so they are not modelled.
- The JIT, its raw-value helpers and the LLVM backend are not modelled, because they emit machine code and work on raw memory. This includes the hot-count path of `exec_code`.
- Floating point is modelled as exact reals. NaN, infinities and rounding are not modelled, and a float divide or modulo by zero is an error or Null where the source would produce an infinity or NaN.
- Hash-map iteration order is a parameter wherever the output depends on it. Examples are the start queue of `topo_sort` and the order in which map keys are visited.
- The evaluator's loops and the virtual machine's run loop take a fuel argument, because a `while` or a jump cycle may run forever. A run that uses up its fuel is reported as OutOfFuel. Nothing is claimed about runs longer than the fuel given.
- The `!ask` oracle and the `{:?}` rendering of values are parameters of the evaluator (`Host`), since they call code outside the core.
- The naux-rs runtime is modelled for its `Context` variable store, `as_bool` and the pure algorithms (sorts, searches, gcd, fib, sieve, LCS, `topo_sort`). Its expression evaluator, statement and action dispatch (`eval_value`, `eval_action`, `run_program`), argument collection and the graph actions other than `topo_sort` (`dfs`, `bfs`, `dijkstra`, `parse_edges`) in runtime.rs are not part of this model. They are outside the core.
- Vm.NumBin: `SmallInt` addition, subtraction and multiplication are unbounded integers here. The source's i64 overflow, a panic in debug builds, is not modelled.
- VmProps.IntArithmetic: states integer results without the i64 overflow of the source, for the same reason as Vm.NumBin.
- VmProps.LoadFieldNull: `LoadField` in the source removes the field it reads from the shared map. The model reads the field without that side effect, because maps are values here and not shared cells.
- StdMath.GcdBuiltin: the overflow of `abs` on i64::MIN is not modelled.
- StdMath.LcmBuiltin: the i64 overflow of `(a / g) * b` is not modelled.
- StdMath.PowModBuiltin: the value is stated for an exponent at or below 0 and for a non-negative base and exponent with a positive modulus; with a negative base or modulus it is only defined, through the loop. The i64 overflow of `res * base` is not modelled.
- StdAlgo.KnapsackBuiltin: requires a non-negative capacity and truncated weights of at least zero. On other input the source panics or allocates a huge table.
- StdCollections.SegtreeQuery: requires in-range bounds, because the source panics on an out-of-range index.
- StdCollections.SegtreeUpdate: requires an in-range index, because the source panics otherwise.
- StdDsu.DsuFind: requires an acyclic parent list. On a cyclic one the source recurses without end.
- StdDsu.DsuUnion: requires an acyclic parent list, for the same reason as StdDsu.DsuFind.
- StdDsu.DsuNew: requires 0 <= n <= i64::MAX. A negative size is cast to a huge usize in the source.
- StdGraph.Dijkstra: requires non-negative weights, for which shortest paths are well defined. Ties in the heap are resolved by any least entry, not by the source's heap layout.
- StdGraph.GraphDijkstra: has the same non-negative-weight requirement and tie resolution as StdGraph.Dijkstra.
- RsSortCounting.CountingSort: requires every value to lie in the i64 range, and every difference of two values to stay below i64::MAX. The source's casts and its subtraction saturate or overflow outside that range.
- RsSort.SortValueList: carries the same i64 requirement as RsSortCounting.CountingSort, only when counting sort is chosen.
- RsNumeric.Gcd: excludes i64::MIN, whose `abs` and `% -1` overflow in the source.
- RsNumeric.Fib: requires n <= 93, because F(94) overflows the source's u64 addition.
- RsTopo.TopoSort: the initial queue, which the source builds by iterating a hash map, is a parameter. The edge weight is ignored, as in the source.
- RsSearch.BinarySearch: the not-found case is stated only for ascending input. On unsorted input the source's usize::MAX carries no meaning.
- RsSortQuick.QuickSort: the guard `right < l.len()` before the left recursive call always holds, so the model recurses unconditionally.
- RsParser.ClosingChecksPass: the three error messages of the closing checks in `parse_ritual` can never be produced, because the body loop stops only at `~ end`. The model proves this rather than modelling those messages as outcomes.
- RsLexer.MatchColorHash: the second colour test after the `#` branch of `tokenize` is dead code, and it is proved dead rather than modelled.
- CompilerStack.ExprStack: the stack balance is stated only for expressions whose calls name their callee (CallsNamed). A call through any other callee emits no call instruction, so its arguments stay on the stack (CompilerStack.UnnamedCallStack states that case).
- CompilerStack.StmtStack: like CompilerStack.ExprStack, stated only for statements whose expressions satisfy CallsNamed.
- Compiler.LowerBlock: the "slot missing" panic of `lower_instr` cannot happen, because `collect_locals` runs over the same block. The model leaves that branch out.
- Vm.RunProgram: a failure carries the bare message. The source's `wrap` and `vm_error` (naux-lang/src/vm/interpreter.rs:244-256, 485-531) add the source location, the call traceback and a disassembly window to it. That decoration is presentation, so it is not modelled, and Bytecode.DisasmWindowSpec states the window on its own.
- StdCollections.SetAdd: the set is a value here, kept under the same id. The source inserts into a shared `Rc` set, so every other handle to that set sees the insert; the model does not model that aliasing.
- StdCollections.PqPopMin: among several least elements the model returns the first of its sorted heap, where the source returns whichever its binary-heap layout puts on top. The aliasing of the shared queue is not modelled either, as for StdCollections.SetAdd.
- StdGraph.GraphAddEdge: the source adds the edge to the shared graph in place and returns Null. The model returns the new graph value instead, and other handles to the graph do not see the edge.
- RsLexer.Lex: the host panic of slicing a string inside a multi-byte char is modelled as the SlicePanic error outcome, which ends lexing at the hash's position.

## Findings

| source | as written | input that shows it | evidently intended | confidence | as-written member | corrected member |
|---|---|---|---|---|---|---|
| naux-lang/src/vm/compiler.rs:131-148 | Constant propagation in `optimize_block` keeps known constants across a position that a jump targets. It replaces the reload of a variable there by a constant seen on the fall-through path only. | `loop n { say x }` with a non-zero count n. The loop test's reload of the hidden counter, which the back jump reaches after the decrement, becomes `ConstNum n`, so the test never changes. | Forget known constants on arriving at a jump target, so the loop says x exactly n times and returns | not executed | FindingsLoop.LoopScriptNeverEnds | FindingsLoop.LoopScriptRunsCorrected |
| naux-lang/src/vm/compiler.rs:335-345 | `optimize_bytecode_block` drops a `LoadLocal a` right after `StoreLocal a`. But `StoreLocal` pops, so the dropped reload was the only copy of the value on the stack. | `StoreLocal 0; LoadLocal 0; EmitSay` on an empty stack, as lowered from an assignment of a non-constant value followed by `say` of that variable. As written EmitSay fails with Stack underflow. | Keep the reload, so the bytecode pass leaves such code unchanged | not executed | PeepholeProps.StoreThenLoad | OptimizerProps.BytecodeBlockUnchanged |
| naux-lang/src/vm/compiler.rs:121-128 | `optimize_block` removes a `JumpIfFalse` whose target is the next instruction, as if it were a no-op. But the jump pops its condition. | A block `LoadVar c; JumpIfFalse 2; Return`. As written Return yields the value of c, which the jump would have popped, leaving Return to yield Null. The front end never emits such a jump, because `compile_stmt_ir` always places a jump or statement between a test and its target, so the defect is latent. | Keep the conditional jump, or pop its condition, so that only the constant-true pair is removed | not executed | PeepholeProps.CondJumpToNextPops | OptimizerProps.PassShape |
| naux-lang/src/stdlib/math.rs:65 | `pow_mod` starts its result at 1 and reduces it only when multiplying. | `pow_mod(b, 0, 1)` returns 1. | Any result modulo 1 is 0 | not executed | StdMath.PowModZeroExpModOne | StdMath.PowModSpec |
| naux-rs/src/lexer.rs:363-379 | `match_color` tries three hex digits before six, and any six-digit colour also passes the three-digit test. So it never returns 7. | `#abcdef` lexes as the colour `#abc` followed by the identifier `def`. | Try six digits first, so `#abcdef` is one seven-char colour | not executed | RsLexerFindings.SixDigitTokens | RsLexerFindings.SixDigitWhole |
| naux-rs/src/lexer.rs:363-369 | `match_color` checks the length in bytes, then slices bytes 1 to 4 of the text. When the cut falls inside a multi-byte char, Rust panics. | `#ab` followed by `é`, which takes two bytes in UTF-8. | A hash whose next three chars are not hex digits is a comment, so `#abé` is a comment | not executed | RsLexerFindings.WideCharPanics | RsLexerFindings.WideCharComment |
