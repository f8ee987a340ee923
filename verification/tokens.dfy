/** The token record the scanner produces and the parser consumes
    (token/token.go:7-16), and the fixed table of reserved words. */
module Tokens {
  import opened Options

  /** The token kinds. Keywords carry a `Kw` suffix so that they do not clash
      with the statement variants of the syntax tree. */
  datatype Kind =
    // single-character tokens
    | LeftParen | RightParen | LeftBrace | RightBrace
    | Comma | Dot | Minus | Plus | Semicolon | Slash | Star
    // one- or two-character tokens
    | Bang | BangEqual | Equal | EqualEqual
    | Greater | GreaterEqual | Less | LessEqual
    // literals
    | Identifier | StringLiteral | NumberLiteral
    // reserved words
    | AndKw | ClassKw | ElseKw | FalseKw | FunKw | ForKw | IfKw | NilKw
    | OrKw | PrintKw | ReturnKw | SuperKw | ThisKw | TrueKw | VarKw | WhileKw
    | Eof

  /** The parsed value a NUMBER or STRING token carries. */
  datatype Literal = NumberValue(n: real) | StringValue(s: string)

  /** One token: its kind, the exact source text, the optional literal value and
      the 1-based line on which the scanner emitted it. */
  datatype Token = Token(kind: Kind, lexeme: string, literal: Option<Literal>, line: int)

  predicate IsKeyword(k: Kind) {
    k in {AndKw, ClassKw, ElseKw, FalseKw, FunKw, ForKw, IfKw, NilKw,
          OrKw, PrintKw, ReturnKw, SuperKw, ThisKw, TrueKw, VarKw, WhileKw}
  }

  /** The reserved-word table: the keyword kind a lexeme denotes, if any. */
  function KeywordKind(word: string): (r: Option<Kind>)
    ensures r.Some? ==> IsKeyword(r.value) && KeywordText(r.value) == word
  {
    match word
    case "and" => Some(AndKw)
    case "class" => Some(ClassKw)
    case "else" => Some(ElseKw)
    case "false" => Some(FalseKw)
    case "for" => Some(ForKw)
    case "fun" => Some(FunKw)
    case "if" => Some(IfKw)
    case "nil" => Some(NilKw)
    case "or" => Some(OrKw)
    case "print" => Some(PrintKw)
    case "return" => Some(ReturnKw)
    case "super" => Some(SuperKw)
    case "this" => Some(ThisKw)
    case "true" => Some(TrueKw)
    case "var" => Some(VarKw)
    case "while" => Some(WhileKw)
    case _ => None
  }

  /** The spelling of a keyword kind: the inverse of `KeywordKind`. */
  function KeywordText(k: Kind): (w: string)
    requires IsKeyword(k)
    ensures |w| >= 2
  {
    match k
    case AndKw => "and"
    case ClassKw => "class"
    case ElseKw => "else"
    case FalseKw => "false"
    case ForKw => "for"
    case FunKw => "fun"
    case IfKw => "if"
    case NilKw => "nil"
    case OrKw => "or"
    case PrintKw => "print"
    case ReturnKw => "return"
    case SuperKw => "super"
    case ThisKw => "this"
    case TrueKw => "true"
    case VarKw => "var"
    case WhileKw => "while"
  }

  /** Every keyword is found again under its own spelling, so the table is a
      bijection between the sixteen reserved words and the keyword kinds. */
  lemma KeywordRoundTrip(k: Kind)
    requires IsKeyword(k)
    ensures KeywordKind(KeywordText(k)) == Some(k)
  {
  }
}
