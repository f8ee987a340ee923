/** The syntax tree (ast/expr.go, ast/stmt.go). Each Go struct with its
    `NewX` constructor is a datatype constructor, whose fields hold the
    constructor's arguments unchanged, and each `Accept` that calls back its
    own `VisitX` method is a `match` arm on that constructor. */
module Ast {
  import opened Options
  import opened Tokens

  /** The value a `Literal` node holds: the Go `interface{}` is only ever
      nil, a bool, a float64 or a string. */
  datatype Atom = NilAtom | BoolAtom(b: bool) | NumberAtom(n: real) | StringAtom(s: string)

  /** Expressions. `Call` is not in ast/expr.go but the parser and the
      interpreter read its callee, closing parenthesis and arguments. */
  datatype Expr =
    | Assign(name: Token, value: Expr)
    | Binary(left: Expr, operator: Token, right: Expr)
    | Call(callee: Expr, paren: Token, arguments: seq<Expr>)
    | Grouping(expression: Expr)
    | Literal(atom: Atom)
    | Logical(left: Expr, operator: Token, right: Expr)
    | Unary(operator: Token, right: Expr)
    | Variable(name: Token)

  /** Statements. An absent else branch or initializer is the nil `Stmt` or
      `Expr` of the Go code. `While` is not in ast/stmt.go but the parser
      builds it and the interpreter runs it. */
  datatype Stmt =
    | Block(statements: seq<Stmt>)
    | Expression(expr: Expr)
    | If(condition: Expr, thenBranch: Stmt, elseBranch: Option<Stmt>)
    | Print(expr: Expr)
    | Var(name: Token, initializer: Option<Expr>)
    | While(condition: Expr, body: Stmt)

  /** A function declaration, with the fields interpreter/function.go reads. */
  datatype FunctionDecl = FunctionDecl(name: Token, params: seq<Token>, body: seq<Stmt>)
}
