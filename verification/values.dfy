/** The runtime values of the interpreter (interpreter/interpreter.go,
    interpreter/function.go, interpreter/callable.go, interpreter/clock.go).
    Go evaluates to `interface{}` holding nil, a bool, a float64, a string, a
    `*Function` or a `*Clock`; here that union is closed. A function value
    keeps its closure as the id of a frame of the environment store. */
module Values {
  import Tokens
  import Ast
  import Decimal

  datatype Value =
    | Nil
    | Bool(b: bool)
    | Number(n: real)
    | Str(s: string)
    | Function(decl: Ast.FunctionDecl, closure: nat)
    | Clock

  /** The value a literal node holds (`VisitLiteralExpr`). */
  function FromAtom(a: Ast.Atom): (v: Value)
    ensures a.NilAtom? <==> v.Nil?
    ensures a.BoolAtom? <==> v.Bool?
    ensures a.NumberAtom? <==> v.Number?
    ensures a.StringAtom? <==> v.Str?
  {
    match a
    case NilAtom => Nil
    case BoolAtom(b) => Bool(b)
    case NumberAtom(n) => Number(n)
    case StringAtom(s) => Str(s)
  }

  /** The literal a value came from: the inverse of `FromAtom` on the values
      a literal can hold. */
  function ToAtom(v: Value): (a: Ast.Atom)
    requires v.Nil? || v.Bool? || v.Number? || v.Str?
  {
    match v
    case Nil => Ast.NilAtom
    case Bool(b) => Ast.BoolAtom(b)
    case Number(n) => Ast.NumberAtom(n)
    case Str(s) => Ast.StringAtom(s)
  }

  /** A literal evaluates to the value it holds, and no information is lost. */
  lemma AtomRoundTrip(a: Ast.Atom)
    ensures ToAtom(FromAtom(a)) == a
  {
  }

  /** `isTruthy`: nil and false are falsy, everything else is truthy. */
  predicate IsTruthy(v: Value) {
    match v
    case Nil => false
    case Bool(b) => b
    case _ => true
  }

  /** The falsy values are exactly nil and false. */
  lemma FalsyValues(v: Value)
    ensures !IsTruthy(v) <==> v == Nil || v == Bool(false)
  {
  }

  /** Values of the same Go dynamic type. */
  predicate SameKind(a: Value, b: Value) {
    || (a.Nil? && b.Nil?)
    || (a.Bool? && b.Bool?)
    || (a.Number? && b.Number?)
    || (a.Str? && b.Str?)
    || (a.Function? && b.Function?)
    || (a.Clock? && b.Clock?)
  }

  /** `isEqual`, Go's `==` on two interface values: equal dynamic type and
      equal contents. A function compares by its declaration and closure,
      where Go compares the `*Function` pointers. */
  function IsEqual(a: Value, b: Value): (r: bool)
    ensures r ==> SameKind(a, b)
    ensures a.Nil? && b.Nil? ==> r
    ensures a.Bool? && b.Bool? ==> (r <==> a.b == b.b)
    ensures a.Number? && b.Number? ==> (r <==> a.n == b.n)
    ensures a.Str? && b.Str? ==> (r <==> a.s == b.s)
    ensures a.Clock? && b.Clock? ==> r
  {
    a == b
  }

  /** Equality is an equivalence: reflexive, symmetric and transitive. */
  lemma EqualityIsEquivalence(a: Value, b: Value, c: Value)
    ensures IsEqual(a, a)
    ensures IsEqual(a, b) ==> IsEqual(b, a)
    ensures IsEqual(a, b) && IsEqual(b, c) ==> IsEqual(a, c)
  {
  }

  /** A value `callee.(Callable)` accepts once `*Clock` implements the whole
      `Callable` interface: a function or the native clock. */
  predicate Callable(v: Value) {
    v.Function? || v.Clock?
  }

  /** `Callable` as the Go interface assertion decides it: `Callable` asks
      for `Call`, `Arity` and `String`, and `*Clock` has no `String` method,
      so only a `*Function` passes. */
  predicate CallableAsWritten(v: Value) {
    v.Function?
  }

  /** `Arity`: the number of declared parameters; the clock takes none. */
  function Arity(v: Value): (n: nat)
    requires Callable(v)
    ensures v.Function? ==> n == |v.decl.params|
    ensures v.Clock? ==> n == 0
  {
    if v.Function? then |v.decl.params| else 0
  }

  /** `Function.String`: `<fn name>`. */
  function FunctionText(decl: Ast.FunctionDecl): (s: string)
    ensures |s| == |decl.name.lexeme| + 5
    ensures s[..4] == "<fn " && s[4..|s| - 1] == decl.name.lexeme && s[|s| - 1] == '>'
  {
    "<fn " + decl.name.lexeme + ">"
  }

  /** The text `fmt.Printf("%v")` gives a value: `<nil>` for nil, `true` and
      `false`, the number in decimal, the string itself, a function through
      its `String` method, and `&{}` for the clock (a pointer to an empty
      struct without one). */
  function Show(v: Value): (s: string)
  {
    match v
    case Nil => "<nil>"
    case Bool(b) => if b then "true" else "false"
    case Number(n) => Decimal.NumberText(n)
    case Str(s) => s
    case Function(decl, _) => FunctionText(decl)
    case Clock => "&{}"
  }

  /** Apart from strings, which print as themselves, values of different
      kinds never print alike: a number starts with a digit or a minus sign,
      nil, a function and the clock with `<`, `<` and `&`, and booleans with a
      letter. */
  lemma ShowDistinguishesKinds(a: Value, b: Value)
    requires !a.Str? && !b.Str? && !SameKind(a, b)
    ensures Show(a) != Show(b)
  {
    var x, y := Show(a), Show(b);
    if a.Nil? && b.Function? {
      assert x[1] == 'n' && y[1] == 'f';
    } else if a.Function? && b.Nil? {
      assert x[1] == 'f' && y[1] == 'n';
    } else {
      assert x[0] != y[0];
    }
  }

  /** A value that refers only to frames below `n`: a function's closure is
      one of the frames that exist. */
  predicate Refers(v: Value, n: nat) {
    v.Function? ==> v.closure < n
  }
}
