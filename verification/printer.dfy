/** The S-expression printer (ast/printer.go). `Print` asserts that the
    visitor returned a string; `VisitAssignExpr` returns the name token
    instead, so printing an assignment panics, and the printer has no visit
    method for logical expressions or calls at all. Those three are outside
    the printer's domain: `Print` yields `None` for any tree containing one. */
module Printer {
  import opened Options
  import opened Tokens
  import opened Ast
  import Decimal
  import Scanner

  /** `%v` of a literal's value; a nil value prints as `nil`. */
  function AtomText(a: Atom): string {
    match a
    case NilAtom => "nil"
    case BoolAtom(b) => if b then "true" else "false"
    case NumberAtom(n) => Decimal.NumberText(n)
    case StringAtom(s) => s
  }

  /** The trees the printer can print. */
  ghost predicate Printable(e: Expr) {
    match e
    case Binary(l, _, r) => Printable(l) && Printable(r)
    case Grouping(inner) => Printable(inner)
    case Literal(_) => true
    case Unary(_, r) => Printable(r)
    case Variable(_) => true
    case _ => false
  }

  /** Each part preceded by one space. */
  function Spaced(parts: seq<string>): string
    decreases |parts|
  {
    if parts == [] then "" else " " + parts[0] + Spaced(parts[1..])
  }

  /** `parenthesise`: `(`, the name, a space before each part, `)`. */
  function Parenthesise(name: string, parts: seq<string>): (s: string)
    ensures |s| >= 2 && s[0] == '(' && s[|s| - 1] == ')'
  {
    "(" + name + Spaced(parts) + ")"
  }

  /** `Print`: the S-expression of a printable tree, `None` otherwise. */
  function Print(e: Expr): (r: Option<string>)
    ensures r.Some? <==> Printable(e)
    decreases e
  {
    match e
    case Binary(l, op, rt) =>
      var a := Print(l);
      var b := Print(rt);
      if a.Some? && b.Some? then Some(Parenthesise(op.lexeme, [a.value, b.value])) else None
    case Grouping(inner) =>
      var a := Print(inner);
      if a.Some? then Some(Parenthesise("group", [a.value])) else None
    case Literal(v) => Some(AtomText(v))
    case Unary(op, rt) =>
      var a := Print(rt);
      if a.Some? then Some(Parenthesise(op.lexeme, [a.value])) else None
    case Variable(name) => Some(name.lexeme)
    case Assign(_, _) => None
    case Logical(_, _, _) => None
    case Call(_, _, _) => None
  }

  /** How many times `c` occurs in `s`. */
  function Occurrences(s: string, c: char): nat
    decreases |s|
  {
    if s == [] then 0 else (if s[0] == c then 1 else 0) + Occurrences(s[1..], c)
  }

  lemma {:induction false} OccurrencesConcat(a: string, b: string, c: char)
    ensures Occurrences(a + b, c) == Occurrences(a, c) + Occurrences(b, c)
    decreases |a|
  {
    if a == [] {
      assert a + b == b;
    } else {
      assert (a + b)[0] == a[0];
      assert (a + b)[1..] == a[1..] + b;
      OccurrencesConcat(a[1..], b, c);
    }
  }

  /** The total occurrences of `c` in a list of parts. */
  function OccurrencesIn(parts: seq<string>, c: char): nat
    decreases |parts|
  {
    if parts == [] then 0 else Occurrences(parts[0], c) + OccurrencesIn(parts[1..], c)
  }

  lemma {:induction false} SpacedOccurrences(parts: seq<string>, c: char)
    requires c != ' '
    ensures Occurrences(Spaced(parts), c) == OccurrencesIn(parts, c)
    decreases |parts|
  {
    if parts != [] {
      SpacedOccurrences(parts[1..], c);
      OccurrencesConcat(" " + parts[0], Spaced(parts[1..]), c);
      OccurrencesConcat(" ", parts[0], c);
      assert Occurrences(" ", c) == 0 by {
        assert " "[1..] == [];
      }
    }
  }

  /** `parenthesise` adds exactly one `(` and one `)` around the name and
      parts. */
  lemma ParenthesiseOccurrences(name: string, parts: seq<string>, c: char)
    requires c == '(' || c == ')'
    ensures Occurrences(Parenthesise(name, parts), c)
            == 1 + Occurrences(name, c) + OccurrencesIn(parts, c)
  {
    SpacedOccurrences(parts, c);
    OccurrencesConcat("(" + name + Spaced(parts), ")", c);
    OccurrencesConcat("(" + name, Spaced(parts), c);
    OccurrencesConcat("(", name, c);
    assert "("[1..] == [] && ")"[1..] == [];
  }

  /** The number of nodes the printer wraps in parentheses. */
  function Nested(e: Expr): nat {
    match e
    case Binary(l, _, r) => 1 + Nested(l) + Nested(r)
    case Grouping(inner) => 1 + Nested(inner)
    case Unary(_, r) => 1 + Nested(r)
    case _ => 0
  }

  predicate NoParens(s: string) {
    forall k :: 0 <= k < |s| ==> s[k] != '(' && s[k] != ')'
  }

  /** No operator lexeme, name or literal text of the tree has a parenthesis
      of its own. */
  ghost predicate PlainLeaves(e: Expr) {
    match e
    case Binary(l, op, r) => NoParens(op.lexeme) && PlainLeaves(l) && PlainLeaves(r)
    case Grouping(inner) => PlainLeaves(inner)
    case Literal(v) => NoParens(AtomText(v))
    case Unary(op, r) => NoParens(op.lexeme) && PlainLeaves(r)
    case Variable(name) => NoParens(name.lexeme)
    case _ => true
  }

  lemma {:induction false} NoParensCount(s: string, c: char)
    requires NoParens(s) && (c == '(' || c == ')')
    ensures Occurrences(s, c) == 0
    decreases |s|
  {
    if s != [] {
      assert NoParens(s[1..]) by {
        forall k | 0 <= k < |s[1..]| ensures s[1..][k] != '(' && s[1..][k] != ')' {
          assert s[1..][k] == s[k + 1];
        }
      }
      NoParensCount(s[1..], c);
    }
  }

  /** The printed text opens and closes one parenthesis per operator or
      grouping node, so when the leaves carry no parentheses of their own the
      output is paren-balanced and its nesting is the tree's. */
  lemma {:induction false} PrintedParens(e: Expr, c: char)
    requires Printable(e) && PlainLeaves(e) && (c == '(' || c == ')')
    ensures Occurrences(Print(e).value, c) == Nested(e)
    decreases e
  {
    match e
    case Binary(l, op, r) =>
      PrintedParens(l, c);
      PrintedParens(r, c);
      NoParensCount(op.lexeme, c);
      ParenthesiseOccurrences(op.lexeme, [Print(l).value, Print(r).value], c);
      assert [Print(l).value, Print(r).value][1..] == [Print(r).value];
      assert [Print(r).value][1..] == [];
    case Grouping(inner) =>
      PrintedParens(inner, c);
      NoParensCount("group", c);
      ParenthesiseOccurrences("group", [Print(inner).value], c);
      assert [Print(inner).value][1..] == [];
    case Literal(v) =>
      NoParensCount(AtomText(v), c);
    case Unary(op, r) =>
      PrintedParens(r, c);
      NoParensCount(op.lexeme, c);
      ParenthesiseOccurrences(op.lexeme, [Print(r).value], c);
      assert [Print(r).value][1..] == [];
    case Variable(name) =>
      NoParensCount(name.lexeme, c);
  }

  lemma SpacedOne(a: string)
    ensures Spaced([a]) == " " + a
  {
    assert [a][1..] == [];
    assert " " + a + "" == " " + a;
  }

  /** A binary node prints as `(<operator> <left> <right>)`. */
  lemma PrintBinary(l: Expr, op: Token, r: Expr, a: string, b: string)
    requires Print(l) == Some(a) && Print(r) == Some(b)
    ensures Print(Binary(l, op, r)) == Some("(" + op.lexeme + " " + a + " " + b + ")")
  {
    assert [a, b][1..] == [b];
    SpacedOne(b);
    assert Spaced([a, b]) == " " + a + (" " + b);
    assert Print(Binary(l, op, r)) == Some(Parenthesise(op.lexeme, [a, b]));
    assert "(" + op.lexeme + (" " + a + (" " + b)) + ")" == "(" + op.lexeme + " " + a + " " + b + ")";
  }

  /** A grouping prints as `(group <inner>)`. */
  lemma PrintGrouping(e: Expr, a: string)
    requires Print(e) == Some(a)
    ensures Print(Grouping(e)) == Some("(group " + a + ")")
  {
    SpacedOne(a);
    assert Print(Grouping(e)) == Some(Parenthesise("group", [a]));
    assert "(" + "group" + (" " + a) + ")" == "(group " + a + ")";
  }

  /** A unary node prints as `(<operator> <operand>)`. */
  lemma PrintUnary(op: Token, e: Expr, a: string)
    requires Print(e) == Some(a)
    ensures Print(Unary(op, e)) == Some("(" + op.lexeme + " " + a + ")")
  {
    SpacedOne(a);
    assert Print(Unary(op, e)) == Some(Parenthesise(op.lexeme, [a]));
    assert "(" + op.lexeme + (" " + a) + ")" == "(" + op.lexeme + " " + a + ")";
  }

  /** The leaves: a nil literal prints as `nil`, a boolean as `true` or
      `false`, a string as its text without quotes, and a variable as its
      name. */
  lemma PrintLeaves(t: Token, b: bool, s: string)
    ensures Print(Literal(NilAtom)) == Some("nil")
    ensures Print(Literal(BoolAtom(b))) == Some(if b then "true" else "false")
    ensures Print(Literal(StringAtom(s))) == Some(s)
    ensures Print(Variable(t)) == Some(t.lexeme)
  {
  }

  lemma PrintedWhole(a: real)
    requires a == 123.0
    ensures Print(Literal(NumberAtom(a))) == Some("123")
  {
    Decimal.WholeText(123);
    WholeDigits();
    assert Decimal.NumberText(a) == "123";
    assert AtomText(NumberAtom(a)) == "123";
  }

  lemma WholeDigits()
    ensures Decimal.NatText(123) == "123"
  {
    assert Decimal.NatText(1) == "1";
    assert Decimal.NatText(12) == Decimal.NatText(1) + "2" == "12";
    assert Decimal.NatText(123) == Decimal.NatText(12) + "3";
  }

  lemma PrintedFraction(b: real)
    requires b == 45.67
    ensures Print(Literal(NumberAtom(b))) == Some("45.67")
  {
    assert !Decimal.IsWhole(b) && !Decimal.IsWhole(b * 10.0);
    Decimal.TwoPlacesText(b, 4567);
    Decimal.FixedTwoPlaces(4567);
  }

  lemma ExampleTexts()
    ensures "(" + "-" + " " + "123" + ")" == "(- 123)"
    ensures "(group " + "45.67" + ")" == "(group 45.67)"
    ensures "(" + "*" + " " + "(- 123)" + " " + "(group 45.67)" + ")" == "(* (- 123) (group 45.67))"
  {
  }

  /** The tree of `-123 * (45.67)` prints as `(* (- 123) (group 45.67))`. */
  lemma PrintExample(a: real, b: real)
    requires a == 123.0 && b == 45.67
    ensures Print(Binary(Unary(Token(Minus, "-", None, 1), Literal(NumberAtom(a))),
                         Token(Star, "*", None, 1),
                         Grouping(Literal(NumberAtom(b)))))
            == Some("(* (- 123) (group 45.67))")
  {
    PrintedWhole(a);
    PrintedFraction(b);
    var minus := Token(Minus, "-", None, 1);
    PrintUnary(minus, Literal(NumberAtom(a)), "123");
    PrintGrouping(Literal(NumberAtom(b)), "45.67");
    ExampleTexts();
    PrintBinary(Unary(minus, Literal(NumberAtom(a))), Token(Star, "*", None, 1),
                Grouping(Literal(NumberAtom(b))), "(- 123)", "(group 45.67)");
  }

  /** The scan of a lexeme that reads as the single number `r`. */
  function NumberScan(text: string, r: real): Scanner.Scan {
    Scanner.Scan([Token(NumberLiteral, text, Some(NumberValue(r)), 1), Token(Eof, "", None, 1)], [])
  }

  lemma RescanWhole(text: string, r: real)
    requires |text| >= 1 && Decimal.AllDigits(text) && Decimal.DigitsValue(text) as real == r
    ensures Scanner.ScanTokens(text) == NumberScan(text, r)
  {
    Scanner.ScanDigits(text);
  }

  lemma RescanFraction(a: string, b: string, r: real)
    requires |a| >= 1 && Decimal.AllDigits(a) && |b| >= 1 && Decimal.AllDigits(b)
    requires Decimal.DecimalValue(a, b) == r
    ensures Scanner.ScanTokens(a + "." + b) == NumberScan(a + "." + b, r)
  {
    Scanner.ScanFraction(a, b);
  }

  /** A non-negative number the renderer writes exactly is printed as a
      lexeme that the scanner reads back as one NUMBER token carrying the same
      value: number literals survive printing. */
  lemma NumberTextRescans(r: real)
    requires r >= 0.0 && Decimal.Terminating(r)
    ensures Scanner.ScanTokens(Decimal.NumberText(r)) == NumberScan(Decimal.NumberText(r), r)
  {
    var p := Decimal.Places(r, 0);
    var n := Decimal.Scaled(r, p);
    Decimal.ScaledExact(r);
    var digits := Decimal.FixedDigits(n, p);
    if p == 0 {
      assert Decimal.NumberText(r) == digits;
      RescanWhole(digits, r);
    } else {
      Decimal.FixedValue(n, p);
      var cut := |digits| - p;
      assert Decimal.NumberText(r) == digits[..cut] + "." + digits[cut..];
      RescanFraction(digits[..cut], digits[cut..], r);
    }
  }
}
