/** The recursive-descent parser (parser/parser.go). The Go parser keeps a
    cursor into the token slice and unwinds with a panic on a syntax error;
    here every rule takes the cursor `pos` and returns where it stopped, and a
    syntax error is a `Failed` (expressions) or `Aborted` (statements) value
    carrying the diagnostic and the cursor at the moment of the error.
    `declaration` is the only place that recovers: it records the diagnostic
    and resynchronises. Statement rules thread the list of diagnostics
    recovered so far (`log`), since a block nested inside a statement recovers
    its own failed declarations. */
module Parser {
  import opened Options
  import opened Tokens
  import Ast
  import LoxError

  type Diagnostic = LoxError.Diagnostic

  /** What the parser relies on: the token list ends with EOF (the scanner
      always puts one there), so the cursor always indexes a token. */
  predicate WellFormed(ts: seq<Token>) {
    |ts| >= 1 && ts[|ts| - 1].kind == Eof
  }

  /** `isAtEnd`: the cursor is on an EOF token. */
  predicate IsAtEnd(ts: seq<Token>, pos: nat)
    requires pos < |ts|
  {
    ts[pos].kind == Eof
  }

  /** `advance`: one token forward, except at EOF. */
  function Advance(ts: seq<Token>, pos: nat): (p: nat)
    requires WellFormed(ts) && pos < |ts|
    ensures p < |ts|
    ensures IsAtEnd(ts, pos) ==> p == pos
    ensures !IsAtEnd(ts, pos) ==> p == pos + 1
  {
    if IsAtEnd(ts, pos) then pos else pos + 1
  }

  /** `check`: the current token has kind `k`; never true at EOF. */
  predicate Check(ts: seq<Token>, pos: nat, k: Kind)
    requires pos < |ts|
  {
    !IsAtEnd(ts, pos) && ts[pos].kind == k
  }

  /** `match` over several kinds: the current token has one of them. */
  predicate MatchAny(ts: seq<Token>, pos: nat, ks: set<Kind>)
    requires pos < |ts|
  {
    !IsAtEnd(ts, pos) && ts[pos].kind in ks
  }

  /** A token that is not EOF is followed by another token. */
  lemma NotLast(ts: seq<Token>, pos: nat)
    requires WellFormed(ts) && pos < |ts| && !IsAtEnd(ts, pos)
    ensures pos + 1 < |ts|
  {
  }

  /** The result of an expression rule. */
  datatype Outcome<T> = Ok(value: T, next: nat) | Failed(error: Diagnostic, at: nat)

  /** The result of a statement rule, with the diagnostics recovered so far. */
  datatype Parsed<T> =
    | Parsed(value: T, next: nat, log: seq<Diagnostic>)
    | Aborted(error: Diagnostic, at: nat, log: seq<Diagnostic>)

  /** An expression rule that succeeds consumed at least one token and stops
      at or before EOF; one that fails does so at or after where it started,
      with a parse error. */
  predicate Within<T>(ts: seq<Token>, pos: nat, r: Outcome<T>) {
    && (r.Ok? ==> pos < r.next < |ts|)
    && (r.Failed? ==> pos <= r.at < |ts| && r.error.origin == LoxError.Parse)
  }

  /** Every diagnostic in `ds` is a parse error. */
  predicate AllParse(ds: seq<Diagnostic>) {
    forall d <- ds :: d.origin == LoxError.Parse
  }

  /** The same for statement rules; the log only grows, and only by parse
      errors. */
  predicate StmtWithin<T>(ts: seq<Token>, pos: nat, log: seq<Diagnostic>, r: Parsed<T>) {
    && log <= r.log
    && (AllParse(log) ==> AllParse(r.log))
    && (r.Parsed? ==> pos < r.next < |ts|)
    && (r.Aborted? ==> pos <= r.at < |ts| && r.error.origin == LoxError.Parse)
  }

  /** `consume`: the current token if it has kind `k`, else a parse error
      with `message` at the current token. */
  function Consume(ts: seq<Token>, pos: nat, k: Kind, message: string): (r: Outcome<Token>)
    requires WellFormed(ts) && pos < |ts|
    ensures Within(ts, pos, r)
    ensures r.Ok? <==> Check(ts, pos, k)
    ensures r.Ok? ==> r.value == ts[pos] && r.next == pos + 1
    ensures r.Failed? ==> r.error == LoxError.ParseError(ts[pos], message) && r.at == pos
  {
    if Check(ts, pos, k) then Ok(ts[pos], pos + 1)
    else Failed(LoxError.ParseError(ts[pos], message), pos)
  }

  // ---------------------------------------------------------------------------
  // Expressions. The six left-associative binary rules of the Go parser
  // (`or`, `and`, `equality`, `comparison`, `addition`, `multiplication`) differ
  // only in their operator set and in the node they build, so they are one
  // rule `Tier(level)` over this table, loosest first.

  /** The number of binary tiers; `unary` sits below the last. */
  const Levels: nat := 6

  /** The operators of each tier. */
  function Operators(level: nat): set<Kind>
    requires level < Levels
  {
    if level == 0 then {OrKw}
    else if level == 1 then {AndKw}
    else if level == 2 then {BangEqual, EqualEqual}
    else if level == 3 then {Greater, GreaterEqual, Less, LessEqual}
    else if level == 4 then {Minus, Plus}
    else {Slash, Star}
  }

  /** The tier an operator kind belongs to, `Levels` for a kind that is no
      binary operator: the inverse of `Operators`. */
  function TierOf(k: Kind): (l: nat)
    ensures l <= Levels
    ensures forall level: nat | level < Levels :: k in Operators(level) <==> l == level
  {
    if k == OrKw then 0
    else if k == AndKw then 1
    else if k in {BangEqual, EqualEqual} then 2
    else if k in {Greater, GreaterEqual, Less, LessEqual} then 3
    else if k in {Minus, Plus} then 4
    else if k in {Slash, Star} then 5
    else Levels
  }

  /** How tightly the top node of a tree binds: the tier of a binary or
      logical operator, `Levels` for unary operators and atoms, and below
      every tier for an assignment. */
  function Binds(e: Ast.Expr): int {
    match e
    case Assign(_, _) => -1
    case Binary(_, op, _) => TierOf(op.kind)
    case Logical(_, op, _) => TierOf(op.kind)
    case _ => Levels
  }

  /** The trees the expression grammar produces: below a binary or logical
      node of tier `l` the left operand binds at least as tightly (operators
      of one tier associate to the left) and the right operand strictly more
      tightly; the operand of a unary operator is a unary or an atom; only a
      grouping resets the order. This parser has no rule for calls. */
  predicate WellBound(e: Ast.Expr) {
    match e
    case Assign(_, value) => WellBound(value)
    case Binary(left, op, right) =>
      TierOf(op.kind) < Levels && Binds(left) >= TierOf(op.kind) && Binds(right) > TierOf(op.kind)
      && WellBound(left) && WellBound(right)
    case Logical(left, op, right) =>
      TierOf(op.kind) < Levels && Binds(left) >= TierOf(op.kind) && Binds(right) > TierOf(op.kind)
      && WellBound(left) && WellBound(right)
    case Unary(_, right) => Binds(right) == Levels && WellBound(right)
    case Grouping(inner) => WellBound(inner)
    case Call(_, _, _) => false
    case Literal(_) => true
    case Variable(_) => true
  }

  /** `or` and `and` build `Logical` nodes, the other tiers `Binary` ones. */
  function Combine(level: nat, left: Ast.Expr, op: Token, right: Ast.Expr): (e: Ast.Expr) {
    if level <= 1 then Ast.Logical(left, op, right) else Ast.Binary(left, op, right)
  }

  /** `expression`. */
  function Expression(ts: seq<Token>, pos: nat): (r: Outcome<Ast.Expr>)
    requires WellFormed(ts) && pos < |ts|
    ensures Within(ts, pos, r)
    ensures r.Ok? ==> WellBound(r.value)
    decreases |ts| - pos, 23
  {
    Assignment(ts, pos)
  }

  /** `assignment`: right-associative; the target must be a variable, and a
      bad target is reported at the `=` after the value has been parsed. */
  function Assignment(ts: seq<Token>, pos: nat): (r: Outcome<Ast.Expr>)
    requires WellFormed(ts) && pos < |ts|
    ensures Within(ts, pos, r)
    ensures r.Ok? ==> WellBound(r.value)
    decreases |ts| - pos, 22
  {
    var target := Tier(ts, pos, 0);
    if target.Failed? then target else AssignTail(ts, target.value, target.next)
  }

  /** The rest of `assignment` once the target side is parsed: an `=` and a
      value make an assignment when the target is a variable and a parse
      error at the `=` otherwise; without `=` the target is the result. */
  function AssignTail(ts: seq<Token>, target: Ast.Expr, at: nat): (r: Outcome<Ast.Expr>)
    requires WellFormed(ts) && at < |ts| && WellBound(target)
    ensures r.Ok? ==> at <= r.next < |ts| && WellBound(r.value)
    ensures r.Failed? ==> at <= r.at < |ts| && r.error.origin == LoxError.Parse
    ensures !Check(ts, at, Equal) ==> r == Ok(target, at)
    ensures Check(ts, at, Equal) && r.Ok? ==> target.Variable? && r.value.Assign? && r.value.name == target.name
    decreases |ts| - at, 0
  {
    if Check(ts, at, Equal) then
      var value := Assignment(ts, at + 1);
      if value.Failed? then value
      else if target.Variable? then Ok(Ast.Assign(target.name, value.value), value.next)
      else Failed(LoxError.ParseError(ts[at], "Invalid assignment target."), value.next)
    else Ok(target, at)
  }

  /** One binary tier: an operand, then as many `operator operand` pairs as
      follow, folded to the left. */
  function Tier(ts: seq<Token>, pos: nat, level: nat): (r: Outcome<Ast.Expr>)
    requires WellFormed(ts) && pos < |ts| && level < Levels
    ensures Within(ts, pos, r)
    ensures r.Ok? ==> WellBound(r.value) && Binds(r.value) >= level
    decreases |ts| - pos, 3 * (Levels - level) + 3
  {
    var left := Operand(ts, pos, level);
    if left.Failed? then left else TierLoop(ts, left.next, level, left.value)
  }

  /** The `for p.match(...)` loop of a tier, with the tree so far. */
  function TierLoop(ts: seq<Token>, pos: nat, level: nat, left: Ast.Expr): (r: Outcome<Ast.Expr>)
    requires WellFormed(ts) && pos < |ts| && level < Levels
    ensures r.Ok? ==> pos <= r.next < |ts|
    ensures r.Failed? ==> pos <= r.at < |ts| && r.error.origin == LoxError.Parse
    ensures r.Ok? && WellBound(left) && Binds(left) >= level ==> WellBound(r.value) && Binds(r.value) >= level
    decreases |ts| - pos, 3 * (Levels - level) + 2
  {
    if MatchAny(ts, pos, Operators(level)) then
      var right := Operand(ts, pos + 1, level);
      if right.Failed? then right
      else TierLoop(ts, right.next, level, Combine(level, left, ts[pos], right.value))
    else Ok(left, pos)
  }

  /** The operands of a tier: the next tier, or `unary` below the last. */
  function Operand(ts: seq<Token>, pos: nat, level: nat): (r: Outcome<Ast.Expr>)
    requires WellFormed(ts) && pos < |ts| && level < Levels
    ensures Within(ts, pos, r)
    ensures r.Ok? ==> WellBound(r.value) && Binds(r.value) > level
    decreases |ts| - pos, 3 * (Levels - level) + 1
  {
    if level + 1 == Levels then Unary(ts, pos) else Tier(ts, pos, level + 1)
  }

  /** `unary`: prefix `!` and `-`, nested to the right. */
  function Unary(ts: seq<Token>, pos: nat): (r: Outcome<Ast.Expr>)
    requires WellFormed(ts) && pos < |ts|
    ensures Within(ts, pos, r)
    ensures r.Ok? ==> WellBound(r.value) && Binds(r.value) == Levels
    decreases |ts| - pos, 2
  {
    if MatchAny(ts, pos, {Bang, Minus}) then
      var right := Unary(ts, pos + 1);
      if right.Failed? then right else Ok(Ast.Unary(ts[pos], right.value), right.next)
    else Primary(ts, pos)
  }

  /** The literal value a NUMBER or STRING token carries. */
  function AtomOf(literal: Option<Literal>): Ast.Atom {
    match literal
    case None => Ast.NilAtom
    case Some(NumberValue(n)) => Ast.NumberAtom(n)
    case Some(StringValue(s)) => Ast.StringAtom(s)
  }

  /** `primary`: literals, a parenthesised expression, a variable. */
  function Primary(ts: seq<Token>, pos: nat): (r: Outcome<Ast.Expr>)
    requires WellFormed(ts) && pos < |ts|
    ensures Within(ts, pos, r)
    ensures r.Ok? ==> WellBound(r.value) && Binds(r.value) == Levels
    decreases |ts| - pos, 1
  {
    var t := ts[pos];
    if Check(ts, pos, FalseKw) then Ok(Ast.Literal(Ast.BoolAtom(false)), pos + 1)
    else if Check(ts, pos, TrueKw) then Ok(Ast.Literal(Ast.BoolAtom(true)), pos + 1)
    else if Check(ts, pos, NilKw) then Ok(Ast.Literal(Ast.NilAtom), pos + 1)
    else if Check(ts, pos, NumberLiteral) || Check(ts, pos, StringLiteral) then
      Ok(Ast.Literal(AtomOf(t.literal)), pos + 1)
    else if Check(ts, pos, LeftParen) then
      var inner := Expression(ts, pos + 1);
      if inner.Failed? then inner
      else
        var close := Consume(ts, inner.next, RightParen, "Expect ')' after expression.");
        if close.Failed? then Failed(close.error, close.at) else Ok(Ast.Grouping(inner.value), close.next)
    else if Check(ts, pos, Identifier) then Ok(Ast.Variable(t), pos + 1)
    else Failed(LoxError.ParseError(t, "Expect expression."), pos)
  }

  // ---------------------------------------------------------------------------
  // Statements.

  /** The token kinds `synchronise` stops in front of. */
  const StatementStarts: set<Kind> := {ClassKw, FunKw, VarKw, ForKw, IfKw, WhileKw, PrintKw, ReturnKw}

  /** A place where `synchronise` stops: EOF, just after a `;`, or in front
      of a token that starts a statement. */
  predicate SyncPoint(ts: seq<Token>, p: nat)
    requires 1 <= p < |ts|
  {
    IsAtEnd(ts, p) || ts[p - 1].kind == Semicolon || ts[p].kind in StatementStarts
  }

  /** The loop of `synchronise`, after its first `advance`. */
  function SyncLoop(ts: seq<Token>, pos: nat): (p: nat)
    requires WellFormed(ts) && 1 <= pos < |ts|
    ensures pos <= p < |ts| && SyncPoint(ts, p)
    ensures forall q :: pos <= q < p ==> !SyncPoint(ts, q)
    decreases |ts| - pos
  {
    if SyncPoint(ts, pos) then pos else SyncLoop(ts, pos + 1)
  }

  /** `synchronise`: skip at least one token, then stop at the first
      synchronisation point; at EOF there is nothing to skip. */
  function Synchronise(ts: seq<Token>, pos: nat): (p: nat)
    requires WellFormed(ts) && pos < |ts|
    ensures p < |ts|
    ensures IsAtEnd(ts, pos) ==> p == pos
    ensures !IsAtEnd(ts, pos) ==> pos < p && SyncPoint(ts, p)
    ensures !IsAtEnd(ts, pos) ==> forall q :: pos < q < p ==> !SyncPoint(ts, q)
  {
    if IsAtEnd(ts, pos) then pos else SyncLoop(ts, pos + 1)
  }

  /** The result of `declaration`, which never fails: a statement, or
      nothing when it reported an error and resynchronised. */
  datatype Decl = Decl(stmt: Option<Ast.Stmt>, next: nat, log: seq<Diagnostic>)

  /** `declaration`: a `var` declaration or a statement; on a syntax error
      the diagnostic is logged, the cursor resynchronises from where the
      error was raised, and no statement results. A declaration always moves
      the cursor forward. */
  function Declaration(ts: seq<Token>, pos: nat, log: seq<Diagnostic>): (r: Decl)
    requires WellFormed(ts) && pos < |ts| && !IsAtEnd(ts, pos)
    ensures pos < r.next < |ts| && log <= r.log
    ensures r.stmt.None? ==> |r.log| > |log| && r.log[|r.log| - 1].origin == LoxError.Parse
    ensures AllParse(log) ==> AllParse(r.log)
    decreases |ts| - pos, 26
  {
    var r := if Check(ts, pos, VarKw) then VarDeclaration(ts, pos + 1, log) else Statement(ts, pos, log);
    if r.Parsed? then Decl(Some(r.value), r.next, r.log)
    else Recover(ts, pos, log, r)
  }

  /** The recovery of `declaration`: log the error and resynchronise from
      where it was raised. */
  function Recover(ts: seq<Token>, pos: nat, log: seq<Diagnostic>, r: Parsed<Ast.Stmt>): (d: Decl)
    requires WellFormed(ts) && pos < |ts| && !IsAtEnd(ts, pos)
    requires r.Aborted? && StmtWithin(ts, pos, log, r)
    ensures d.stmt.None? && pos < d.next < |ts| && log <= d.log && d.log == r.log + [r.error]
    ensures AllParse(log) ==> AllParse(d.log)
  {
    var p := Synchronise(ts, r.at);
    assert p > pos by {
      if r.at == pos {
        assert !IsAtEnd(ts, r.at);
      }
    }
    Decl(None, p, r.log + [r.error])
  }

  /** The `;` that ends a statement. */
  function Terminated(ts: seq<Token>, pos: nat, stmt: Ast.Stmt, message: string, log: seq<Diagnostic>): (r: Parsed<Ast.Stmt>)
    requires WellFormed(ts) && pos < |ts|
    ensures StmtWithin(ts, pos, log, r) && r.log == log
    ensures r.Parsed? <==> Check(ts, pos, Semicolon)
    ensures r.Parsed? ==> r.value == stmt && r.next == pos + 1
    ensures r.Aborted? ==> r.error == LoxError.ParseError(ts[pos], message)
  {
    var semi := Consume(ts, pos, Semicolon, message);
    if semi.Failed? then Aborted(semi.error, semi.at, log) else Parsed(stmt, semi.next, log)
  }

  /** `varDeclaration`, entered after `var`. */
  function VarDeclaration(ts: seq<Token>, pos: nat, log: seq<Diagnostic>): (r: Parsed<Ast.Stmt>)
    requires WellFormed(ts) && pos < |ts|
    ensures StmtWithin(ts, pos, log, r) && r.log == log
    ensures r.Parsed? ==> r.value.Var?
    decreases |ts| - pos, 24
  {
    var name := Consume(ts, pos, Identifier, "Expect variable name.");
    if name.Failed? then Aborted(name.error, name.at, log)
    else if Check(ts, name.next, Equal) then
      var value := Expression(ts, name.next + 1);
      if value.Failed? then Aborted(value.error, value.at, log)
      else Terminated(ts, value.next, Ast.Var(name.value, Some(value.value)),
                      "Expect ';' after variable declaration.", log)
    else Terminated(ts, name.next, Ast.Var(name.value, None), "Expect ';' after variable declaration.", log)
  }

  /** `statement`: dispatch on the first token. */
  function Statement(ts: seq<Token>, pos: nat, log: seq<Diagnostic>): (r: Parsed<Ast.Stmt>)
    requires WellFormed(ts) && pos < |ts|
    ensures StmtWithin(ts, pos, log, r)
    ensures r.Parsed? && r.value.If? && r.value.elseBranch.None? ==> !Check(ts, r.next, ElseKw)
    decreases |ts| - pos, 25
  {
    if Check(ts, pos, WhileKw) then WhileStatement(ts, pos + 1, log)
    else if Check(ts, pos, ForKw) then ForStatement(ts, pos + 1, log)
    else if Check(ts, pos, IfKw) then IfStatement(ts, pos + 1, log)
    else if Check(ts, pos, PrintKw) then PrintStatement(ts, pos + 1, log)
    else if Check(ts, pos, LeftBrace) then
      var b := Block(ts, pos + 1, [], log);
      if b.Aborted? then Aborted(b.error, b.at, b.log) else Parsed(Ast.Block(b.value), b.next, b.log)
    else ExpressionStatement(ts, pos, log)
  }

  /** `printStatement`, entered after `print`. */
  function PrintStatement(ts: seq<Token>, pos: nat, log: seq<Diagnostic>): (r: Parsed<Ast.Stmt>)
    requires WellFormed(ts) && pos < |ts|
    ensures StmtWithin(ts, pos, log, r) && r.log == log
    ensures r.Parsed? ==> r.value.Print?
    decreases |ts| - pos, 24
  {
    var value := Expression(ts, pos);
    if value.Failed? then Aborted(value.error, value.at, log)
    else Terminated(ts, value.next, Ast.Print(value.value), "Expect ';' after value.", log)
  }

  /** `expressionStatement`. */
  function ExpressionStatement(ts: seq<Token>, pos: nat, log: seq<Diagnostic>): (r: Parsed<Ast.Stmt>)
    requires WellFormed(ts) && pos < |ts|
    ensures StmtWithin(ts, pos, log, r) && r.log == log
    ensures r.Parsed? ==> r.value.Expression?
    decreases |ts| - pos, 24
  {
    var value := Expression(ts, pos);
    if value.Failed? then Aborted(value.error, value.at, log)
    else Terminated(ts, value.next, Ast.Expression(value.value), "Expect ';' after value.", log)
  }

  /** `block`, entered after `{`: declarations up to the closing `}`, each
      recovering on its own; `acc` holds those parsed so far. */
  function Block(ts: seq<Token>, pos: nat, acc: seq<Ast.Stmt>, log: seq<Diagnostic>): (r: Parsed<seq<Ast.Stmt>>)
    requires WellFormed(ts) && pos < |ts|
    ensures StmtWithin(ts, pos, log, r)
    ensures r.Parsed? ==> acc <= r.value
    decreases |ts| - pos, 27
  {
    if Check(ts, pos, RightBrace) || IsAtEnd(ts, pos) then
      var close := Consume(ts, pos, RightBrace, "Expect '}' after block.");
      if close.Failed? then Aborted(close.error, close.at, log) else Parsed(acc, close.next, log)
    else
      var d := Declaration(ts, pos, log);
      Block(ts, d.next, acc + d.stmt.ToSeq(), d.log)
  }

  /** `ifStatement`, entered after `if`. The then branch is parsed first, so
      an `else` after it belongs to the innermost `if` still open. */
  function IfStatement(ts: seq<Token>, pos: nat, log: seq<Diagnostic>): (r: Parsed<Ast.Stmt>)
    requires WellFormed(ts) && pos < |ts|
    ensures StmtWithin(ts, pos, log, r)
    ensures r.Parsed? ==> r.value.If?
    ensures r.Parsed? && r.value.elseBranch.None? ==> !Check(ts, r.next, ElseKw)
    decreases |ts| - pos, 24
  {
    var open := Consume(ts, pos, LeftParen, "Expect '(' after 'if'.");
    if open.Failed? then Aborted(open.error, open.at, log)
    else
      var condition := Expression(ts, open.next);
      if condition.Failed? then Aborted(condition.error, condition.at, log)
      else
        var close := Consume(ts, condition.next, RightParen, "Expect ')' after if condition.");
        if close.Failed? then Aborted(close.error, close.at, log)
        else IfBranches(ts, close.next, condition.value, log)
  }

  /** The branches of an `if`, from the then branch on. */
  function IfBranches(ts: seq<Token>, pos: nat, condition: Ast.Expr, log: seq<Diagnostic>): (r: Parsed<Ast.Stmt>)
    requires WellFormed(ts) && pos < |ts|
    ensures StmtWithin(ts, pos, log, r)
    ensures r.Parsed? ==> r.value.If? && r.value.condition == condition
    ensures r.Parsed? && r.value.elseBranch.None? ==> !Check(ts, r.next, ElseKw)
    decreases |ts| - pos, 26
  {
    var thenBranch := Statement(ts, pos, log);
    if thenBranch.Aborted? then thenBranch
    else if Check(ts, thenBranch.next, ElseKw) then
      var elseBranch := Statement(ts, thenBranch.next + 1, thenBranch.log);
      if elseBranch.Aborted? then elseBranch
      else Parsed(Ast.If(condition, thenBranch.value, Some(elseBranch.value)), elseBranch.next, elseBranch.log)
    else Parsed(Ast.If(condition, thenBranch.value, None), thenBranch.next, thenBranch.log)
  }

  /** `whileStatement`, entered after `while`. */
  function WhileStatement(ts: seq<Token>, pos: nat, log: seq<Diagnostic>): (r: Parsed<Ast.Stmt>)
    requires WellFormed(ts) && pos < |ts|
    ensures StmtWithin(ts, pos, log, r)
    ensures r.Parsed? ==> r.value.While?
    decreases |ts| - pos, 24
  {
    var open := Consume(ts, pos, LeftParen, "Expect '(' after 'while'.");
    if open.Failed? then Aborted(open.error, open.at, log)
    else
      var condition := Expression(ts, open.next);
      if condition.Failed? then Aborted(condition.error, condition.at, log)
      else
        var close := Consume(ts, condition.next, RightParen, "Expect ')' after if condition.");
        if close.Failed? then Aborted(close.error, close.at, log)
        else
          var body := Statement(ts, close.next, log);
          if body.Aborted? then body else Parsed(Ast.While(condition.value, body.value), body.next, body.log)
  }

  /** The loop a `for` statement stands for: the body followed by the
      increment, repeated while the condition (true when absent) holds, after
      the initializer. */
  function Desugar(initializer: Option<Ast.Stmt>, condition: Option<Ast.Expr>, increment: Option<Ast.Expr>,
                   body: Ast.Stmt): (s: Ast.Stmt)
  {
    var inner := if increment.Some? then Ast.Block([body, Ast.Expression(increment.value)]) else body;
    var loop := Ast.While(condition.GetOr(Ast.Literal(Ast.BoolAtom(true))), inner);
    if initializer.Some? then Ast.Block([initializer.value, loop]) else loop
  }

  /** The initializer clause of a `for`: a `var` declaration, nothing (a
      bare `;`), or an expression statement. */
  function ForInitializer(ts: seq<Token>, pos: nat, log: seq<Diagnostic>): (r: Parsed<Option<Ast.Stmt>>)
    requires WellFormed(ts) && pos < |ts|
    ensures StmtWithin(ts, pos, log, r) && r.log == log
    decreases |ts| - pos, 25
  {
    if Check(ts, pos, VarKw) then
      var v := VarDeclaration(ts, pos + 1, log);
      if v.Aborted? then Aborted(v.error, v.at, v.log) else Parsed(Some(v.value), v.next, v.log)
    else if Check(ts, pos, Semicolon) then Parsed(None, pos + 1, log)
    else
      var e := ExpressionStatement(ts, pos, log);
      if e.Aborted? then Aborted(e.error, e.at, e.log) else Parsed(Some(e.value), e.next, e.log)
  }

  /** An optional expression clause of a `for`, absent when the token that
      ends the clause comes at once. */
  function ForClause(ts: seq<Token>, pos: nat, end: Kind): (r: Outcome<Option<Ast.Expr>>)
    requires WellFormed(ts) && pos < |ts|
    ensures r.Ok? ==> pos <= r.next < |ts|
    ensures r.Ok? ==> (r.value.None? <==> Check(ts, pos, end)) && (r.value.None? ==> r.next == pos)
    ensures r.Failed? ==> pos <= r.at < |ts| && r.error.origin == LoxError.Parse
    decreases |ts| - pos, 24
  {
    if Check(ts, pos, end) then Ok(None, pos)
    else
      var e := Expression(ts, pos);
      if e.Failed? then Failed(e.error, e.at) else Ok(Some(e.value), e.next)
  }

  /** `forStatement`, entered after `for`: the clauses are parsed in order
      and the statement is rebuilt as a `while` loop. */
  function ForStatement(ts: seq<Token>, pos: nat, log: seq<Diagnostic>): (r: Parsed<Ast.Stmt>)
    requires WellFormed(ts) && pos < |ts|
    ensures StmtWithin(ts, pos, log, r)
    ensures r.Parsed? ==> r.value.While? || r.value.Block?
    decreases |ts| - pos, 24
  {
    var open := Consume(ts, pos, LeftParen, "Expect '(' after 'for'.");
    if open.Failed? then Aborted(open.error, open.at, log)
    else ForOpened(ts, open.next, log)
  }

  /** The rest of a `for` after `(`, from the initializer clause on. */
  function ForOpened(ts: seq<Token>, pos: nat, log: seq<Diagnostic>): (r: Parsed<Ast.Stmt>)
    requires WellFormed(ts) && pos < |ts|
    ensures StmtWithin(ts, pos, log, r)
    ensures r.Parsed? ==> r.value.While? || r.value.Block?
    decreases |ts| - pos, 26
  {
    var initializer := ForInitializer(ts, pos, log);
    if initializer.Aborted? then Aborted(initializer.error, initializer.at, initializer.log)
    else ForCondition(ts, initializer.next, initializer.value, log)
  }

  /** The rest of a `for` after the initializer, from the condition clause on. */
  function ForCondition(ts: seq<Token>, pos: nat, initializer: Option<Ast.Stmt>, log: seq<Diagnostic>): (r: Parsed<Ast.Stmt>)
    requires WellFormed(ts) && pos < |ts|
    ensures StmtWithin(ts, pos, log, r)
    ensures r.Parsed? ==> r.value.While? || r.value.Block?
    decreases |ts| - pos, 25
  {
    var condition := ForClause(ts, pos, Semicolon);
    if condition.Failed? then Aborted(condition.error, condition.at, log)
    else
      var semi := Consume(ts, condition.next, Semicolon, "Expect ')' after loops condition");
      if semi.Failed? then Aborted(semi.error, semi.at, log)
      else ForIncrement(ts, semi.next, initializer, condition.value, log)
  }

  /** The rest of a `for`, from the increment clause on. */
  function ForIncrement(ts: seq<Token>, pos: nat, initializer: Option<Ast.Stmt>, condition: Option<Ast.Expr>,
                        log: seq<Diagnostic>): (r: Parsed<Ast.Stmt>)
    requires WellFormed(ts) && pos < |ts|
    ensures StmtWithin(ts, pos, log, r)
    ensures r.Parsed? ==> r.value.While? || r.value.Block?
    decreases |ts| - pos, 26
  {
    var increment := ForClause(ts, pos, RightParen);
    if increment.Failed? then Aborted(increment.error, increment.at, log)
    else
      var close := Consume(ts, increment.next, RightParen, "Expect ')' after for clauses.");
      if close.Failed? then Aborted(close.error, close.at, log)
      else ForBody(ts, close.next, initializer, condition, increment.value, log)
  }

  /** The body of a `for`, and the loop it completes. */
  function ForBody(ts: seq<Token>, pos: nat, initializer: Option<Ast.Stmt>, condition: Option<Ast.Expr>,
                   increment: Option<Ast.Expr>, log: seq<Diagnostic>): (r: Parsed<Ast.Stmt>)
    requires WellFormed(ts) && pos < |ts|
    ensures StmtWithin(ts, pos, log, r)
    ensures r.Parsed? ==> r.value.While? || r.value.Block?
    decreases |ts| - pos, 26
  {
    var body := Statement(ts, pos, log);
    if body.Aborted? then body
    else Parsed(Desugar(initializer, condition, increment, body.value), body.next, body.log)
  }

  /** A parsed program: the statements that parsed, and the diagnostics of
      the declarations that did not. */
  datatype Program = Program(statements: seq<Ast.Stmt>, errors: seq<Diagnostic>)

  /** The `for !p.isAtEnd()` loop of `Parse` from `pos`. */
  function ParseFrom(ts: seq<Token>, pos: nat, acc: seq<Ast.Stmt>, log: seq<Diagnostic>): (r: Program)
    requires WellFormed(ts) && pos < |ts|
    ensures acc <= r.statements && log <= r.errors
    ensures AllParse(log) ==> AllParse(r.errors)
    decreases |ts| - pos
  {
    if IsAtEnd(ts, pos) then Program(acc, log)
    else
      var d := Declaration(ts, pos, log);
      ParseFrom(ts, d.next, acc + d.stmt.ToSeq(), d.log)
  }

  /** `Parse`: declarations until EOF. */
  function Parse(ts: seq<Token>): (r: Program)
    requires WellFormed(ts)
    ensures IsAtEnd(ts, 0) ==> r == Program([], [])
    ensures AllParse(r.errors)
  {
    ParseFrom(ts, 0, [], [])
  }

  // ---------------------------------------------------------------------------
  // Properties of the grammar.

  /** Operators of one tier associate to the left: `a op b op' c` parses as
      `(a op b) op' c`. */
  lemma {:induction false} LeftAssociative(ts: seq<Token>, pos: nat, level: nat, a: Ast.Expr,
                                           b: Ast.Expr, q: nat, c: Ast.Expr, n: nat)
    requires WellFormed(ts) && pos < |ts| && level < Levels
    requires MatchAny(ts, pos, Operators(level))
    requires pos + 1 < |ts| && Operand(ts, pos + 1, level) == Ok(b, q)
    requires MatchAny(ts, q, Operators(level))
    requires q + 1 < |ts| && Operand(ts, q + 1, level) == Ok(c, n)
    requires !MatchAny(ts, n, Operators(level))
    ensures TierLoop(ts, pos, level, a) == Ok(Combine(level, Combine(level, a, ts[pos], b), ts[q], c), n)
  {
    var ab := Combine(level, a, ts[pos], b);
    assert TierLoop(ts, n, level, Combine(level, ab, ts[q], c)) == Ok(Combine(level, ab, ts[q], c), n);
    assert TierLoop(ts, q, level, ab) == TierLoop(ts, n, level, Combine(level, ab, ts[q], c));
  }

  /** A kind that no tier takes as an operator. */
  predicate NoOperator(k: Kind) {
    TierOf(k) == Levels
  }

  /** An identifier followed by a non-operator parses, at every tier, as
      just that variable. */
  lemma {:induction false} VariableOperand(ts: seq<Token>, pos: nat, level: nat)
    requires WellFormed(ts) && pos + 1 < |ts| && level < Levels
    requires Check(ts, pos, Identifier) && NoOperator(ts[pos + 1].kind)
    ensures Tier(ts, pos, level) == Ok(Ast.Variable(ts[pos]), pos + 1)
    decreases Levels - level
  {
    var v := Ast.Variable(ts[pos]);
    if level + 1 == Levels {
      assert Primary(ts, pos) == Ok(v, pos + 1);
      assert Unary(ts, pos) == Ok(v, pos + 1);
    } else {
      VariableOperand(ts, pos, level + 1);
    }
    assert Operand(ts, pos, level) == Ok(v, pos + 1);
    assert !MatchAny(ts, pos + 1, Operators(level));
    assert TierLoop(ts, pos + 1, level, v) == Ok(v, pos + 1);
  }

  /** Assignment associates to the right: `x = y = value` assigns `value` to
      `y` and the result of that to `x`. */
  lemma RightAssociative(ts: seq<Token>, pos: nat, value: Ast.Expr, n: nat)
    requires WellFormed(ts) && pos + 4 < |ts|
    requires Check(ts, pos, Identifier) && Check(ts, pos + 1, Equal)
    requires Check(ts, pos + 2, Identifier) && Check(ts, pos + 3, Equal)
    requires Assignment(ts, pos + 4) == Ok(value, n)
    ensures Assignment(ts, pos) == Ok(Ast.Assign(ts[pos], Ast.Assign(ts[pos + 2], value)), n)
  {
    VariableOperand(ts, pos + 2, 0);
    VariableOperand(ts, pos, 0);
    var inner := Ast.Assign(ts[pos + 2], value);
    assert Assignment(ts, pos + 2) == AssignTail(ts, Ast.Variable(ts[pos + 2]), pos + 3);
    assert AssignTail(ts, Ast.Variable(ts[pos + 2]), pos + 3) == Ok(inner, n);
    assert Assignment(ts, pos) == AssignTail(ts, Ast.Variable(ts[pos]), pos + 1);
  }

  /** A value assigned to anything but a variable is a parse error at the
      `=`, raised once the value has been parsed. */
  lemma InvalidTarget(ts: seq<Token>, pos: nat, target: Ast.Expr, p: nat, value: Ast.Expr, n: nat)
    requires WellFormed(ts) && pos < |ts|
    requires Tier(ts, pos, 0) == Ok(target, p) && !target.Variable?
    requires Check(ts, p, Equal) && p + 1 < |ts| && Assignment(ts, p + 1) == Ok(value, n)
    ensures Assignment(ts, pos) == Failed(LoxError.ParseError(ts[p], "Invalid assignment target."), n)
  {
    assert Assignment(ts, pos) == AssignTail(ts, target, p);
  }

  /** An `else` belongs to the nearest `if`: when the then branch of an `if`
      is itself an `if` without an `else`, the outer one has none either. */
  lemma {:induction false} NearestElse(ts: seq<Token>, pos: nat, log: seq<Diagnostic>)
    requires WellFormed(ts) && pos < |ts|
    requires IfStatement(ts, pos, log).Parsed?
    requires IfStatement(ts, pos, log).value.thenBranch.If?
    requires IfStatement(ts, pos, log).value.thenBranch.elseBranch.None?
    ensures IfStatement(ts, pos, log).value.elseBranch.None?
  {
    var open := Consume(ts, pos, LeftParen, "Expect '(' after 'if'.");
    var condition := Expression(ts, open.next);
    var close := Consume(ts, condition.next, RightParen, "Expect ')' after if condition.");
    assert IfStatement(ts, pos, log) == IfBranches(ts, close.next, condition.value, log);
    var thenBranch := Statement(ts, close.next, log);
    assert thenBranch.Parsed? && thenBranch.value == IfStatement(ts, pos, log).value.thenBranch;
    assert !Check(ts, thenBranch.next, ElseKw);
  }

  /** `for (;;) body` is `while (true) body`. */
  lemma ForEver(ts: seq<Token>, pos: nat, log: seq<Diagnostic>, body: Ast.Stmt, n: nat, log': seq<Diagnostic>)
    requires WellFormed(ts) && pos + 4 < |ts|
    requires Check(ts, pos, LeftParen) && Check(ts, pos + 1, Semicolon)
    requires Check(ts, pos + 2, Semicolon) && Check(ts, pos + 3, RightParen)
    requires Statement(ts, pos + 4, log) == Parsed(body, n, log')
    ensures ForStatement(ts, pos, log) == Parsed(Ast.While(Ast.Literal(Ast.BoolAtom(true)), body), n, log')
  {
    assert ForInitializer(ts, pos + 1, log) == Parsed(None, pos + 2, log);
    assert ForClause(ts, pos + 2, Semicolon) == Ok(None, pos + 2);
    assert ForClause(ts, pos + 3, RightParen) == Ok(None, pos + 3);
    OpeningParen(ts, pos, log);
    InitializerClause(ts, pos + 1, log, None, pos + 2);
    LoopClauses(ts, pos + 2, None, log, None, pos + 2, None, pos + 3);
    BodyDesugars(ts, pos + 4, None, None, None, log, body, n, log');
  }

  /** `for (initializer; condition; increment) body`: after `(` the rest
      is parsed from the initializer clause on. */
  lemma {:induction false} OpeningParen(ts: seq<Token>, pos: nat, log: seq<Diagnostic>)
    requires WellFormed(ts) && pos + 1 < |ts| && Check(ts, pos, LeftParen)
    ensures ForStatement(ts, pos, log) == ForOpened(ts, pos + 1, log)
  {
    assert Consume(ts, pos, LeftParen, "Expect '(' after 'for'.").next == pos + 1;
  }

  /** After an initializer that parses, the rest is parsed from the condition
      clause on, with that initializer. */
  lemma {:induction false} InitializerClause(ts: seq<Token>, pos: nat, log: seq<Diagnostic>,
                                             initializer: Option<Ast.Stmt>, p1: nat)
    requires WellFormed(ts) && pos < |ts|
    requires ForInitializer(ts, pos, log) == Parsed(initializer, p1, log) && p1 < |ts|
    ensures ForOpened(ts, pos, log) == ForCondition(ts, p1, initializer, log)
  {
  }

  /** The condition clause, its `;`, the increment clause and the closing
      `)`, in that order, lead to the body. */
  lemma {:induction false} LoopClauses(ts: seq<Token>, pos: nat, initializer: Option<Ast.Stmt>, log: seq<Diagnostic>,
                                       condition: Option<Ast.Expr>, p2: nat, increment: Option<Ast.Expr>, p3: nat)
    requires WellFormed(ts) && pos < |ts|
    requires ForClause(ts, pos, Semicolon) == Ok(condition, p2) && Check(ts, p2, Semicolon)
    requires p2 + 1 < |ts| && ForClause(ts, p2 + 1, RightParen) == Ok(increment, p3) && Check(ts, p3, RightParen)
    requires p3 + 1 < |ts|
    ensures ForCondition(ts, pos, initializer, log) == ForBody(ts, p3 + 1, initializer, condition, increment, log)
  {
    assert Consume(ts, p2, Semicolon, "Expect ')' after loops condition").next == p2 + 1;
    assert ForCondition(ts, pos, initializer, log) == ForIncrement(ts, p2 + 1, initializer, condition, log);
    assert Consume(ts, p3, RightParen, "Expect ')' after for clauses.").next == p3 + 1;
  }

  /** A body that parses completes the loop `Desugar` builds. */
  lemma {:induction false} BodyDesugars(ts: seq<Token>, pos: nat, initializer: Option<Ast.Stmt>,
                                        condition: Option<Ast.Expr>, increment: Option<Ast.Expr>, log: seq<Diagnostic>,
                                        body: Ast.Stmt, n: nat, log': seq<Diagnostic>)
    requires WellFormed(ts) && pos < |ts| && Statement(ts, pos, log) == Parsed(body, n, log')
    ensures ForBody(ts, pos, initializer, condition, increment, log)
         == Parsed(Desugar(initializer, condition, increment, body), n, log')
  {
  }

  /** `var x;` declares `x` with no initializer; without the `;` it is an
      error at the token that stands there. */
  lemma VarWithoutInitializer(ts: seq<Token>, pos: nat, log: seq<Diagnostic>)
    requires WellFormed(ts) && pos + 1 < |ts|
    requires Check(ts, pos, Identifier) && !Check(ts, pos + 1, Equal)
    ensures Check(ts, pos + 1, Semicolon) ==> VarDeclaration(ts, pos, log) == Parsed(Ast.Var(ts[pos], None), pos + 2, log)
    ensures !Check(ts, pos + 1, Semicolon) ==>
      VarDeclaration(ts, pos, log) == Aborted(LoxError.ParseError(ts[pos + 1], "Expect ';' after variable declaration."), pos + 1, log)
  {
    assert Consume(ts, pos, Identifier, "Expect variable name.") == Ok(ts[pos], pos + 1);
    assert VarDeclaration(ts, pos, log)
        == Terminated(ts, pos + 1, Ast.Var(ts[pos], None), "Expect ';' after variable declaration.", log);
  }
}
