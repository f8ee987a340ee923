# golox in Dafny

A Dafny model of the core of golox, a tree-walking interpreter for the Lox
scripting language written in Go. A Lox program goes through a pipeline:
source text, then tokens, then a syntax tree, then evaluation. Each stage is
modelled as pure functions over immutable data:

- **Scanner** (`scanner.dfy`): an index-based function over the source
  `string`. It chooses one- and two-character operators by maximal munch. It
  handles `//` comments, whitespace, line counting, string and number
  literals, identifiers and keywords. Lexical errors are collected and
  scanning goes on.
- **Parser** (`parser.dfy`): recursive descent over a token sequence, with the
  cursor passed in and out as an index. A parse error is an `Aborted` or
  `Failed` result, not a panic. `declaration` records the error and then
  synchronises. `for` is desugared into `while`.
- **Syntax tree and printer** (`ast.dfy`, `printer.dfy`): closed datatypes for
  expressions and statements, and the S-expression printer.
- **Values and environment** (`values.dfy`, `environment.dfy`):
  - The closed union of runtime values.
  - Truthiness and equality.
  - Variable scopes as a store of frames, each naming its enclosing frame by
    id. Ids always decrease along a chain.
- **Interpreter** (`interpreter.dfy`): a fuel-bounded evaluator.
  - Expressions yield a value, a runtime error or exhaustion.
  - Statements end normally, with a returned value, with a runtime error, or
    out of fuel.
  - `print` appends to an output trace.
  - The clock is a parameter.
- **Diagnostics** (`loxerror.dfy`): the printed form of a diagnostic, where
  it is located, and the error flags.
- **Number text** (`decimal.dfy`): decimal text for integers and numbers, and
  the value of a numeric lexeme.
- **Shared pieces** (`tokens.dfy`, `options.dfy`): the token record, the
  reserved-word table and an `Option` type.

The main results are these:

- The scan of any source ends in exactly one EOF token. The lexemes are the
  source's own text, in source order, without overlap.
- Every binary tier of the parser associates to the left and assignment to
  the right. `for` becomes the `while` loop that `Desugar` describes.
  Synchronising always makes progress, so `Parse` terminates.
- Each operator's type checks come with the exact error text.
- Blocks and calls run in exactly one fresh frame, and the caller's frame is
  restored.
- A program that finishes within some fuel finishes the same way with any
  more fuel (`Interpreter.FuelIndependent`). The fuel bound therefore never
  changes the result of a program that terminates.

## Model

| member | source | states |
|---|---|---|
| Tokens.KeywordKind | scanner/scanner_test.go:12-133 | a lexeme maps to a keyword kind only when it is a reserved word spelt exactly that way |
| Tokens.KeywordRoundTrip | scanner/scanner_test.go:12-133 | each of the sixteen reserved words maps back to its own keyword kind |
| LoxError.Text | loxerror/loxerror.go:14-17 | the printed diagnostic opens with `[` and ends with the message |
| LoxError.TextLineReadable | loxerror/loxerror.go:15 | the line number can be read back from the digits between `[` and `]` |
| LoxError.TextLayout | loxerror/loxerror.go:15 | the printed line is exactly `[`, the line's digits, `] Error `, the location, `: ` and the message, each at its own position |
| LoxError.Error | loxerror/loxerror.go:14-17 | a plain diagnostic keeps its line, location and message, and does not abort |
| LoxError.ParseLocation | loxerror/loxerror.go:19-24 | the location is `at end` exactly on the EOF token, otherwise `at '<lexeme>'` |
| LoxError.ParseError | loxerror/loxerror.go:19-26 | a parse error is at the token's line, located `at end` exactly at EOF, and aborts |
| LoxError.RuntimeError | loxerror/loxerror.go:28-32 | a runtime error is at the token's line with an empty location, and aborts |
| LoxError.Record | loxerror/loxerror.go:14-32 | reporting always sets the error flag, and sets the runtime flag only for a runtime error |
| LoxError.RecordAllFlags | loxerror/loxerror.go:9-32 | after a series of reports, the flags are set exactly when some diagnostic, or some runtime error, was reported |
| Decimal.NatText | loxerror/loxerror.go:15 | the decimal text of a natural number is all digits with no leading zero |
| Decimal.NatTextRoundTrip | loxerror/loxerror.go:15 | reading the digits back gives the number |
| Decimal.NatTextInjective | loxerror/loxerror.go:15 | distinct numbers have distinct texts |
| Decimal.IntText | loxerror/loxerror.go:15 | `%d` of an int: the digits, with a leading minus sign for a negative value |
| Decimal.IntTextRoundTrip | loxerror/loxerror.go:15 | `ReadInt` inverts `IntText` on every integer |
| Decimal.DecimalValue | scanner/scanner.go:204 | the value of `whole.frac` is at least the whole part, and is the whole part when there is no fraction |
| Decimal.DigitsConcat | scanner/scanner.go:204 | appending digits shifts the value left by their count |
| Decimal.FixedValue | scanner/scanner.go:204 | the two digit runs of a fixed-point text read back as the number over the power of ten |
| Decimal.NumberText | interpreter/interpreter.go:163 | a number's text starts with a digit, or with a minus sign followed by the text of its magnitude |
| Decimal.WholeText | ast/printer.go:32 | a whole number is written as its digits alone |
| Decimal.TwoPlacesText | ast/printer.go:32 | a number with exactly two decimal places is written in fixed point with two places |
| Scanner.NewlinesSplit | scanner/scanner.go:97-98 | the newline count of a range is the sum over its two parts |
| Scanner.Span | scanner/scanner.go:193-195 | a peek loop stops at the first character that fails its test, or at the end of the source |
| Scanner.SpanStopsAt | scanner/scanner.go:193-195 | that stopping point is unique |
| Scanner.Emit | scanner/scanner.go:212-215 | the token's lexeme is the source from the step's start to its current position, at the current line |
| Scanner.Single | scanner/scanner.go:39-58 | a one-character token has that character as its lexeme and no literal |
| Scanner.OneOrTwo | scanner/scanner.go:59-82 | `!`, `=`, `<` or `>` followed by `=` gives the two-character kind, otherwise the one-character kind |
| Scanner.OperatorMunch | scanner/scanner.go:59-90 | for every operator character, the two-character token is taken exactly when the next character completes it, and `//` emits nothing |
| Scanner.CommentStep | scanner/scanner.go:83-90 | a comment emits nothing, reports nothing and does not change the line |
| Scanner.CommentExtent | scanner/scanner.go:85-87 | a comment runs up to, not including, the next newline or the end |
| Scanner.CommentEmitsNothing | scanner/scanner.go:83-90 | scanning at `//` emits no token, and stops just before the next newline |
| Scanner.WhitespaceEmitsNothing | scanner/scanner.go:95-98 | a space, tab or carriage return emits nothing, and a newline emits nothing and adds exactly one line |
| Scanner.UnexpectedCharacter | scanner/scanner.go:99-100 | any other character is reported as `Unexpected character.` at the current line, emits no token and is skipped |
| Scanner.StringStep | scanner/scanner.go:173-190 | a string emits a token exactly when it reports no error, and counts the newlines it spans |
| Scanner.StringToken | scanner/scanner.go:173-190 | a closed string is one STRING token whose lexeme includes both quotes and whose literal is the text between them |
| Scanner.UnterminatedString | scanner/scanner.go:181-184 | a string still open at the end is reported one line above the final line, emits nothing and ends the scan |
| Scanner.NumberStep | scanner/scanner.go:192-210 | a number always emits a NUMBER token and never reports an error (float64 overflow is left out) |
| Scanner.NumberMunch | scanner/scanner.go:192-202 | a number is a maximal digit run with at most one `.`, which is taken only when a digit follows it |
| Scanner.NumberExtent | scanner/scanner.go:193-202 | what `number` consumes: digits and at most one inner `.`, ending in a digit and not followed by one |
| Scanner.IdentifierStep | scanner/scanner_test.go:439-497 | an identifier emits exactly one token and never reports an error |
| Scanner.ScanToken | scanner/scanner.go:36-102 | each step moves forward and counts the newlines it crosses; a token is never emitted together with an error (float64 overflow is left out); the lexeme is the step's own source text; the step never emits EOF |
| Scanner.ScanFrom | scanner/scanner.go:27-34 | the scan ends with exactly one EOF token carrying the final line, and emits at most one token or error per character |
| Scanner.ScanFromOrdered | scanner/scanner.go:27-34 | only the last token is EOF, and token lines never decrease |
| Scanner.ScanTokens | scanner/scanner.go:27-34 | every token before the last is not EOF, the last is EOF at line one plus the number of newlines, and the empty source gives only EOF at line 1 |
| Scanner.LexemesInSourceOrder | scanner/scanner.go:28-31 | every token before EOF is the text of its own non-empty range of the source, and the ranges follow one another without overlap |
| Scanner.ScanOneCharOperator | scanner/scanner_test.go:135-228 | one operator character scans as that token followed by EOF |
| Scanner.ScanTwoCharOperator | scanner/scanner_test.go:230-303 | `!=`, `==`, `<=` and `>=` each scan as one token |
| Scanner.ScanWord | scanner/scanner_test.go:439-497 | a word scans as its keyword kind when it is reserved, otherwise as IDENTIFIER |
| Scanner.ScanKeyword | scanner/scanner_test.go:12-133 | each reserved word scans as its keyword token |
| Scanner.ScanDigits | scanner/scanner_test.go:359-405 | a digit run scans as one NUMBER token with the run's value |
| Scanner.ScanTrailingDot | scanner/scanner_test.go:359-405 | `123.` scans as NUMBER `123` then DOT |
| Scanner.ScanLeadingDot | scanner/scanner_test.go:359-405 | `.456` scans as DOT then NUMBER `456` |
| Scanner.ScanFraction | scanner/scanner_test.go:359-405 | `123.456` scans as one NUMBER token whose value includes the fraction |
| Scanner.ScanTokenAsWritten | scanner/scanner.go:93-101 | the dispatch as written agrees with `ScanToken` on every character except letters and `_`, which it rejects |
| Scanner.KeywordRejectedAsWritten | scanner/scanner.go:99-100 | as written, `var` is an unexpected character, where the intended rule gives one VAR token |
| Printer.Parenthesise | ast/printer.go:45-57 | the text is wrapped in one pair of parentheses |
| Printer.Print | ast/printer.go:14-43 | a tree has a printed form exactly when it is printable: no assignment, logical expression or call anywhere in it |
| Printer.ParenthesiseOccurrences | ast/printer.go:45-57 | `parenthesise` adds exactly one `(` and one `)` to those of its parts |
| Printer.PrintedParens | ast/printer.go:22-57 | the printed text has one `(` and one `)` per operator or grouping node |
| Printer.PrintBinary | ast/printer.go:22-24 | a binary node prints as `(<op> <left> <right>)` |
| Printer.PrintGrouping | ast/printer.go:26-28 | a grouping prints as `(group <inner>)` |
| Printer.PrintUnary | ast/printer.go:37-39 | a unary node prints as `(<op> <operand>)` |
| Printer.PrintLeaves | ast/printer.go:30-43 | a nil literal prints as `nil`, a boolean as `true`/`false`, a string as its text, and a variable as its name |
| Printer.PrintExample | ast/printer_test.go:11-38 | the tree of `-123 * (45.67)` prints as `(* (- 123) (group 45.67))` |
| Printer.NumberTextRescans | ast/printer.go:30-35 | a non-negative number the renderer writes exactly scans back as one NUMBER token of the same value |
| Parser.Advance | parser/parser.go:275-280 | the cursor moves by one, except on EOF where it stays |
| Parser.Consume | parser/parser.go:289-296 | succeeds exactly on a token of the expected kind, otherwise gives the parse error with the message at the current token |
| Parser.TierOf | parser/parser.go:68-118 | each operator kind belongs to exactly one binary tier |
| Parser.Expression | parser/parser.go:26-28 | a parsed expression never lets a looser operator sit under a tighter one |
| Parser.Assignment | parser/parser.go:41-53 | the same binding-strength invariant for assignment |
| Parser.AssignTail | parser/parser.go:43-52 | without `=` the target side is the result; with `=` a successful parse is an assignment, and only a variable target gives one |
| Parser.Tier | parser/parser.go:68-118 | a tier's result binds at least as tightly as the tier |
| Parser.TierLoop | parser/parser.go:68-76 | the loop of a binary tier keeps the invariant |
| Parser.Operand | parser/parser.go:68-127 | an operand binds more tightly than the tier it is read for |
| Parser.Unary | parser/parser.go:120-127 | a unary expression binds at the tightest level |
| Parser.Primary | parser/parser.go:129-149 | a primary binds at the tightest level |
| Parser.LeftAssociative | parser/parser.go:68-106 | `a op b op c` becomes `(a op b) op c` in every binary tier |
| Parser.VariableOperand | parser/parser.go:129-149 | a lone identifier parses as a Variable at every tier |
| Parser.RightAssociative | parser/parser.go:41-53 | `a = b = v` becomes `Assign(a, Assign(b, v))` |
| Parser.InvalidTarget | parser/parser.go:41-53 | `=` after anything but a variable is the parse error `Invalid assignment target.` at the `=` |
| Parser.SyncLoop | parser/parser.go:320-349 | synchronising stops at the first synchronisation point |
| Parser.Synchronise | parser/parser.go:320-349 | after an error the parser moves at least one token, stops just after `;`, before a statement keyword or at EOF, and skips no earlier such point |
| Parser.Declaration | parser/parser.go:55-66 | every declaration moves forward, and a failed one adds at least one parse error (a recovery inside a block can add more) |
| Parser.Recover | parser/parser.go:55-60 | a failed declaration logs its error and resumes after synchronising |
| Parser.Terminated | parser/parser.go:179-189 | a statement is complete exactly when a `;` follows, otherwise the given error is reported at that token |
| Parser.VarDeclaration | parser/parser.go:262-273 | a `var` declaration parses to a Var node |
| Parser.VarWithoutInitializer | parser/parser.go:262-273 | `var x;` has no initializer; without `;` the error is at the token found instead |
| Parser.Statement | parser/parser.go:160-177 | a statement moves forward, and an `if` without `else` is not followed by `else` |
| Parser.PrintStatement | parser/parser.go:179-183 | a print statement parses to a Print node |
| Parser.ExpressionStatement | parser/parser.go:185-189 | an expression statement parses to an Expression node |
| Parser.Block | parser/parser.go:151-158 | a block keeps the declarations already read, in order |
| Parser.IfStatement | parser/parser.go:191-204 | an `if` parses to an If node, and an absent else branch means no `else` follows |
| Parser.IfBranches | parser/parser.go:196-203 | the branches keep the parsed condition |
| Parser.NearestElse | parser/parser.go:191-204 | the `else` binds to the nearest `if` |
| Parser.WhileStatement | parser/parser.go:206-213 | a `while` parses to a While node |
| Parser.ForInitializer | parser/parser.go:218-223 | the initializer clause adds no diagnostic |
| Parser.ForClause | parser/parser.go:225-234 | a clause is absent exactly when its closing token comes at once |
| Parser.ForStatement | parser/parser.go:215-260 | a `for` becomes a While, or a Block around one |
| Parser.OpeningParen | parser/parser.go:215-216 | after `(` the rest is parsed from the initializer on |
| Parser.InitializerClause | parser/parser.go:218-223 | after an initializer that parses, the rest is parsed with it from the condition on |
| Parser.LoopClauses | parser/parser.go:225-237 | the condition, `;`, increment and `)` lead to the body with those clauses |
| Parser.BodyDesugars | parser/parser.go:237-259 | the body then becomes `Block[init, While(cond or true, Block[body, incr])]`, with each block only when its clause is present |
| Parser.ForEver | parser/parser.go:215-260 | `for (;;) body` is `while (true) body` |
| Parser.ParseFrom | parser/parser.go:18-24 | the statement list and the error log only grow, and hold only parse errors |
| Parser.Parse | parser/parser.go:18-24 | only parse errors are reported, and a program that is only EOF parses to nothing |
| Values.FromAtom | interpreter/interpreter.go:25-27 | a literal evaluates to the value of the same kind |
| Values.AtomRoundTrip | interpreter/interpreter.go:25-27 | the literal can be recovered from its value |
| Values.IsTruthy | interpreter/interpreter.go:218-229 | nil is falsy, a boolean is its own truth value, and every other value is truthy |
| Values.FalsyValues | interpreter/interpreter.go:218-229 | a value is falsy exactly when it is nil or false |
| Values.Callable | interpreter/callable.go:5-9 | the values a call accepts: functions and the clock, the clock following the corrected half of the first Finding |
| Values.IsEqual | interpreter/interpreter.go:231-233 | values are equal only when they are of the same kind, and then exactly when their contents are equal |
| Values.EqualityIsEquivalence | interpreter/interpreter.go:231-233 | equality is reflexive, symmetric and transitive |
| Values.Arity | interpreter/function.go:39-41 | a function's arity is its parameter count, and the clock's is zero |
| Values.FunctionText | interpreter/function.go:43-45 | a function renders as `<fn name>` |
| Values.Show | interpreter/interpreter.go:163 | the `%v` text of a value: `<nil>`, `true`/`false`, the number's decimal text, the string itself, `<fn name>`, and `&{}` for the clock |
| Values.ShowDistinguishesKinds | interpreter/interpreter.go:161-165 | apart from strings, values of different kinds never print alike |
| Environment.Undefined | environment/environment.go:42 | definition (its ensures spell out the body): the message is `Undefined variable '<name>'.` |
| Environment.NewEnvironment | environment/environment.go:15-17 | a new empty frame is added with the given enclosing frame, and the older frames stay as they were |
| Environment.Chain | environment/environment.go:33-40 | the frames a lookup visits start at the current one and exist |
| Environment.Owner | environment/environment.go:33-40 | the owning frame binds the name |
| Environment.OwnerIsFirst | environment/environment.go:33-40 | the owner is the first frame on the chain that binds the name, and there is none exactly when no frame on the chain binds it |
| Environment.Define | environment/environment.go:29-31 | define binds the name in the current frame, overwriting any binding there, and changes nothing else |
| Environment.DefineValid | environment/environment.go:29-31 | defining keeps the store well formed |
| Environment.Get | environment/environment.go:33-44 | get finds the value in the innermost frame that binds the name, or gives `Undefined variable` when none does |
| Environment.GetAfterDefine | environment/environment.go:29-36 | a get right after a define in the same frame returns the defined value |
| Environment.DefineOtherName | environment/environment.go:29-44 | defining one name changes no lookup of another name, from any frame |
| Environment.Assign | environment/environment.go:19-27 | assign overwrites the binding that get would read, never creates one, and gives get's error when the name is unbound |
| Environment.AssignEffect | environment/environment.go:19-24 | only the owning frame changes, no frame gains or loses a name, and get then sees the new value |
| Environment.AssignedSeen | environment/environment.go:19-24 | overwriting a binding does not change which frame owns the name |
| Environment.AssignValid | environment/environment.go:19-27 | assigning keeps the store well formed |
| Environment.GetRefers | environment/environment.go:33-44 | a looked-up value refers only to existing frames |
| Interpreter.KeptTransitive | interpreter/interpreter.go:196-216 | the invariant evaluation keeps composes across steps |
| Interpreter.Forward | interpreter/interpreter.go:46-113 | definition (its ensures spell out the body): a failure passes on unchanged |
| Interpreter.ExpressionDiscards | interpreter/interpreter.go:147-150 | an expression statement completes normally with the value discarded, or fails with its expression's error |
| Interpreter.Settle | interpreter/interpreter.go:147-150 | definition (its ensures spell out the body): an expression statement fails exactly when its expression fails |
| Interpreter.Quotient | interpreter/interpreter.go:51-53 | division by a non-zero number is exact |
| Interpreter.Arithmetic | interpreter/interpreter.go:49-86 | `- / *` give numbers and `> >= < <=` give booleans |
| Interpreter.ApplyUnary | interpreter/interpreter.go:33-44 | `-` succeeds exactly on a number and negates it, otherwise gives `Operand must be a number.`; `!` negates truthiness |
| Interpreter.ApplyBinary | interpreter/interpreter.go:46-93 | the numeric operators succeed exactly on two numbers; `+` adds numbers, concatenates strings and rejects other pairs with its message; `==` and `!=` never fail and follow `isEqual` |
| Interpreter.EqualityOperators | interpreter/interpreter.go:87-90 | `!=` is the negation of `==`, and values of different kinds are never equal |
| Interpreter.Bind | interpreter/function.go:21-23 | binding changes only the new frame, and keeps its parent |
| Interpreter.BindKeys | interpreter/function.go:21-23 | the new frame binds exactly its old names and the parameter names |
| Interpreter.BindPositional | interpreter/function.go:21-23 | each parameter is bound to the argument at its position, the last one winning on a repeated name |
| Interpreter.BindKeepsOthers | interpreter/function.go:21-23 | a name that is not a parameter keeps its binding |
| Interpreter.BindValid | interpreter/function.go:21-23 | binding keeps the store well formed |
| Interpreter.Completed | interpreter/function.go:25-36 | definition (its ensures spell out the body): a call's result is nil when the body completes, the carried value on return, and the error on a runtime error |
| Interpreter.Eval | interpreter/interpreter.go:196-198 | evaluation keeps the store valid and growing, the output a prefix, and the current frame, and produces only values that refer to existing frames |
| Interpreter.EvalVariable | interpreter/interpreter.go:115-117 | a variable reads as the environment's get, with the same error |
| Interpreter.EvalUnary | interpreter/interpreter.go:33-44 | the unary rule keeps the invariant |
| Interpreter.UnaryResult | interpreter/interpreter.go:33-44 | the operand is evaluated, then the operator applied to its value; a failing operand is the result |
| Interpreter.EvalBinary | interpreter/interpreter.go:46-93 | the binary rule keeps the invariant |
| Interpreter.EvalRight | interpreter/interpreter.go:47-93 | the rest of the binary rule keeps the invariant |
| Interpreter.EvalLogical | interpreter/interpreter.go:126-140 | the logical rule keeps the invariant |
| Interpreter.EvalAssign | interpreter/interpreter.go:119-124 | the assignment rule keeps the invariant |
| Interpreter.AssignResult | interpreter/interpreter.go:119-124 | the value is evaluated, written into the frame that owns the name, and is the expression's value; an unbound name gives `Undefined variable` and changes nothing |
| Interpreter.EvalCall | interpreter/interpreter.go:95-113 | the call rule keeps the invariant |
| Interpreter.EvalArgs | interpreter/interpreter.go:98-102 | the arguments evaluate to one value each, all referring to existing frames |
| Interpreter.CallOrder | interpreter/interpreter.go:95-113 | the callee is evaluated first, then the arguments from the state it left, then the call is made; a failure of either ends the evaluation there |
| Interpreter.ArgsInOrder | interpreter/interpreter.go:98-102 | the arguments are evaluated left to right, each from the state the previous one left, their values kept in order, and the first failure stops the rest |
| Interpreter.BinaryOperandOrder | interpreter/interpreter.go:46-50 | both operands are evaluated, left then right, before the operator's check |
| Interpreter.ShortCircuit | interpreter/interpreter.go:126-140 | `or` on a truthy left and `and` on a falsy left give the left value without evaluating the right; otherwise the result is the right value; a failing left operand is the result |
| Interpreter.CallCheck | interpreter/interpreter.go:104-111 | a call passes exactly when the callee is callable and the argument count equals its arity, with the two error messages otherwise |
| Interpreter.CallCheckAsWritten | interpreter/interpreter.go:104-111 | the same checks with `callee.(Callable)` as Go decides it |
| Interpreter.ClockRejectedAsWritten | interpreter/clock.go:7-15 | as written, `clock()` is rejected as not callable, and the corrected check accepts it |
| Interpreter.CallChecksAgree | interpreter/interpreter.go:104-111 | the two checks differ only on the clock |
| Interpreter.CallValue | interpreter/interpreter.go:104-111 | a non-callable callee and a wrong argument count give their errors, and `clock()` gives the current time |
| Interpreter.CallFunction | interpreter/function.go:18-37 | a call keeps the invariant and produces a value that refers to existing frames |
| Interpreter.CallFrame | interpreter/function.go:19-23 | the new frame's parent is the closure's frame, and it binds exactly the parameters, positionally |
| Interpreter.CallRunsBody | interpreter/function.go:18-37 | the body runs in exactly that one new frame, the caller's frame is restored, and the result comes from how the body ended |
| Interpreter.ClockCall | interpreter/interpreter.go:17-23 | with the corrected check, `clock()` in the global frame gives the current time |
| Interpreter.Exec | interpreter/interpreter.go:200-202 | execution keeps the invariant |
| Interpreter.ExecPrint | interpreter/interpreter.go:161-165 | printing never returns a value |
| Interpreter.PrintAppends | interpreter/interpreter.go:161-165 | `print` appends exactly one line, the value's text, and changes nothing else |
| Interpreter.ExecVar | interpreter/interpreter.go:167-175 | a `var` statement never returns a value |
| Interpreter.VarThenGet | interpreter/interpreter.go:167-175 | after `var x = e;` reading `x` from the same frame gives the value of `e` |
| Interpreter.VarResult | interpreter/interpreter.go:167-175 | `var x;` defines `x` as nil in the current frame and changes nothing else; `var x = e;` defines it as the value of `e`; a failing initializer defines nothing |
| Interpreter.ExecIf | interpreter/interpreter.go:152-159 | the `if` rule keeps the invariant |
| Interpreter.IfRunsOneBranch | interpreter/interpreter.go:152-159 | the condition is evaluated once; a truthy value runs the then branch, a falsy one the else branch or nothing, each from the state the condition left; a failing condition runs neither |
| Interpreter.Loop | interpreter/interpreter.go:177-182 | the `while` rule keeps the invariant |
| Interpreter.Iterate | interpreter/interpreter.go:178-180 | one iteration keeps the invariant |
| Interpreter.WhileIterations | interpreter/interpreter.go:177-182 | the condition is evaluated before every iteration, a falsy condition runs the body zero times, and a failing condition ends the loop with its error |
| Interpreter.ExecBlock | interpreter/interpreter.go:204-216 | a block restores the caller's current frame on every exit |
| Interpreter.BlockScope | interpreter/interpreter.go:142-145 | a block runs in one fresh, empty frame enclosed by the current one, and the current frame is restored afterwards, even after an error |
| Interpreter.ExecSeq | interpreter/interpreter.go:213-215 | running statements in order keeps the invariant |
| Interpreter.SequenceStops | interpreter/interpreter.go:191-193 | a statement that does not complete normally ends its sequence |
| Interpreter.Globals | interpreter/interpreter.go:17-23 | the global frame binds only `clock`, and has no parent |
| Interpreter.Interpret | interpreter/interpreter.go:184-194 | a run ends in the global frame with the store valid |
| Interpreter.Transcript | interpreter/interpreter.go:161-194 | definition (its ensures spell out the body): standard output is the printed lines, followed by the diagnostic line when a runtime error stopped the run |
| Interpreter.EvalMore | interpreter/interpreter.go:196-198 | an evaluation that did not run out of fuel gives the same result with more fuel |
| Interpreter.ExecMore | interpreter/interpreter.go:200-202 | the same for statements |
| Interpreter.LoopMore | interpreter/interpreter.go:177-182 | the same for `while` |
| Interpreter.CallFunctionMore | interpreter/function.go:18-37 | the same for calls |
| Interpreter.FuelIndependent | interpreter/interpreter.go:184-194 | a program that finishes within some fuel finishes with the same state, output and result with any more fuel |

## Left out

- Standard output: the output is the `out` trace plus `Interpreter.Transcript`. Global error flags are `LoxError.Flags` values. Panics are result datatypes.
- golox.go and tools/gen_ast.go: the command line, the prompt loop, file reading, exit codes and code generation are I/O.
- The clock: `clock()` returns `now`, the time as a parameter of the run. The clock's `Call` reads the system clock.
- Numbers:
  - They are Dafny `real`, so there is no float64 rounding, overflow, infinity or NaN.
  - Division by zero gives `0.0`, where Go gives an infinity or NaN.
  - `%v` of a number is rendered as plain decimal text. There is no exponent form, and at most `Decimal.MaxPlaces` fraction digits are written.
  - `strconv.ParseFloat` is the exact decimal value of the lexeme. Its error path is reached when a literal exceeds the float64 range (for example `1` followed by 309 zeros). Go then prints `[line] Error : Number format loxerror.`, sets the error flag, and still emits a NUMBER token holding +Inf. That path is not modelled.
- Scanner.NumberStep, Scanner.ScanToken: for a literal beyond the float64 range, Go reports "Number format loxerror." and emits a NUMBER token in the same step (scanner/scanner.go:204-209). The model reports nothing there and keeps the exact value, so in this one case Go does emit a token together with an error, which these two contracts rule out for the model.
- Values.IsEqual: two function values compare by declaration and closure frame. Go compares the `*Function` pointers.
- The rune reader and the lookahead buffer of the scanner are modelled as indexing into a `string` of characters. There is no UTF-8 decoding. `unicode.IsDigit` is taken to mean ASCII digits only.
- Scanner.IdentifierStep: the identifier and keyword rule is the one the scanner's tests expect. The scanner itself lacks it (see Findings).
- Parser.Declaration: a failed declaration leaves no statement in the list. Go appends a nil statement, and the driver never runs a program that had parse errors.
- Printer.Print: assignments, logical expressions and calls are outside the printer's domain, and `Print` gives `None` for them.
  - For an assignment, Go's visit method returns a token, not a string, so the string assertion fails.
  - Logical expressions and calls have no visit method in the printer.
- Print of nil writes `<nil>` (Go's `%v` of a nil interface). This follows the code, not the `nil` a Lox user might expect.
- Return and function statements do not exist in this version of the syntax tree or the parser.
  - `Flow.Return` and `Completed` model how a call intercepts a returned value, but nothing produces one.
  - Function values are never created by a program, and `Ast.FunctionDecl` holds the fields `Function.Call` reads.
  - Go's `NewFunction` copies the closure's `Environment` struct. The copy shares the variable map and the enclosing pointer, so it behaves like the frame id the model keeps.
- A panic inside a call body that is not a returned value: Go's recover there reads the token of a zero `returnValue` and panics again. The output is the same as simply passing the runtime error on, which is what the model does.
- The `Unknown exception` message of `Interpret` is not modelled. Every panic the modelled code raises is a reported parse or runtime error.
- The environment store is a sequence indexed by frame id, not a map. Frames are never removed.
- Interpreter.Eval, Interpreter.Exec: evaluation carries fuel. A program that does not finish within the fuel ends `Exhausted`/`OutOfFuel`, which Go has no counterpart for. `Interpreter.FuelIndependent` shows that the fuel never changes the result of a run that finishes.
- Interpreter.EvalUnary: the contract states only the invariant it keeps; its result is stated by `UnaryResult`.
- Interpreter.EvalBinary, Interpreter.EvalRight: the contracts state only the invariant; the result is stated by `BinaryOperandOrder`.
- Interpreter.EvalLogical: the contract states only the invariant; the result is stated by `ShortCircuit`.
- Interpreter.EvalAssign: the contract states only the invariant; the result is stated by `AssignResult`.
- Interpreter.EvalCall, Interpreter.EvalArgs: the contracts state only the invariant and the argument count; the order of evaluation is stated by `CallOrder` and `ArgsInOrder`, the call itself by `CallValue`, `CallFrame` and `CallRunsBody`.
- Interpreter.ExecPrint: the contract states only the invariant; the result is stated by `PrintAppends`.
- Interpreter.ExecVar: the contract states only the invariant; the result is stated by `VarResult` and `VarThenGet`.
- Interpreter.ExecIf: the contract states only the invariant; the branch taken is stated by `IfRunsOneBranch`.
- Interpreter.Loop, Interpreter.Iterate: the contracts state only the invariant; the iterations are stated by `WhileIterations`.
- Interpreter.ExecSeq: the contract states only the invariant; the early stop is stated by `SequenceStops`.
- Calls from source text: the parser of this version has no call rule, so a `Call` node reaches the interpreter only as a syntax tree built directly.
- Parser.ForStatement: its contract states only the shape of the result. The desugaring itself is stated by `OpeningParen`, `InitializerClause`, `LoopClauses` and `BodyDesugars`, each a step of `forStatement`.
- The debug `String()` of a token (padded formatting) is not modelled. Only the token record is.

## Findings

| source | as written | input that shows it | evidently intended | confidence | as-written member | corrected member |
|---|---|---|---|---|---|---|
| interpreter/interpreter.go:104 | `callee.(Callable)` fails for `*Clock`, because `Clock` has no `String` method (interpreter/callable.go:5-9, interpreter/clock.go:7-15), so calling it gives "Can only call functions and classes." | the syntax tree `Call(Variable(clock), paren, [])`; the parser of this version has no call rule, so no source text reaches `VisitCallExpr` | `clock()` returns the current time in seconds | not executed | Interpreter.CallCheckAsWritten, Interpreter.ClockRejectedAsWritten | Interpreter.CallCheck, Interpreter.ClockCall |
| scanner/scanner.go:99-100 | `scanToken` has no identifier branch, so a letter or `_` falls to the default case and is reported as "Unexpected character." | `var` | one VAR keyword token, as the tests expect (scanner/scanner_test.go:12-133, 439-497) and as the parser needs for IDENTIFIER tokens | not executed | Scanner.ScanTokenAsWritten, Scanner.KeywordRejectedAsWritten | Scanner.ScanToken, Scanner.ScanKeyword |
