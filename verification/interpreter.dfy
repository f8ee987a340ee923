/** The tree-walking evaluator (interpreter/interpreter.go and
    interpreter/function.go). The Go interpreter keeps its current
    environment in a field, unwinds with a panic on a runtime error and with a
    `returnValue` panic on a return; here the state is an explicit `State`,
    an expression's evaluation ends `Ok`, `Err` or `Exhausted`, and a
    statement's execution ends `Normal`, `Return`, `Raised` or `OutOfFuel`.
    Every evaluation step spends one unit of `fuel`, which bounds loops and
    recursion; running out is an outcome of its own and never a Lox result. */
module Interpreter {
  import opened Options
  import opened Tokens
  import Ast
  import LoxError
  import Decimal
  import opened Values
  import Environment

  type Diagnostic = LoxError.Diagnostic
  type Frame = Environment.Frame

  /** The interpreter's state: the frame store, the current frame (Go's
      `environment` field), the lines printed so far, and the reading the
      native clock gives during the run. */
  datatype State = State(frames: seq<Frame>, env: nat, out: seq<string>, now: int)

  predicate Valid(st: State) {
    Environment.Valid(st.frames) && st.env < |st.frames|
  }

  /** What every evaluation keeps: the store stays valid and only grows,
      output is only appended, and the current frame is the same afterwards
      (blocks and calls restore it on every exit). */
  predicate Kept(st: State, st': State) {
    && Valid(st')
    && |st.frames| <= |st'.frames|
    && st.out <= st'.out
    && st'.env == st.env
    && st'.now == st.now
  }

  lemma KeptTransitive(a: State, b: State, c: State)
    requires Kept(a, b) && Kept(b, c)
    ensures Kept(a, c)
  {
    assert a.out == b.out[..|a.out|] == c.out[..|b.out|][..|a.out|];
  }

  /** How the evaluation of an expression ended. */
  datatype Outcome<T> = Ok(value: T) | Err(error: Diagnostic) | Exhausted

  datatype Evaluated<T> = Evaluated(st: State, outcome: Outcome<T>)

  /** How the execution of a statement ended: normally, with the `returnValue`
      signal a function body raises, with a runtime error, or out of fuel. */
  datatype Flow = Normal | Return(value: Value) | Raised(error: Diagnostic) | OutOfFuel

  datatype Executed = Executed(st: State, flow: Flow)

  /** A value produced in a state refers only to frames of that state. */
  predicate Produces(r: Evaluated<Value>) {
    r.outcome.Ok? ==> Refers(r.outcome.value, |r.st.frames|)
  }

  predicate FlowRefers(r: Executed) {
    r.flow.Return? ==> Refers(r.flow.value, |r.st.frames|)
  }

  /** A failed outcome carried over to another result type. */
  function Forward<A, B>(o: Outcome<A>): (r: Outcome<B>)
    requires !o.Ok?
    ensures r.Err? <==> o.Err?
    ensures r.Err? ==> r.error == o.error
    ensures r.Exhausted? <==> o.Exhausted?
  {
    if o.Err? then Err(o.error) else Exhausted
  }

  /** The flow of a statement that only evaluates an expression. */
  function Settle(o: Outcome<Value>): (f: Flow)
    ensures f.Normal? <==> o.Ok?
    ensures f.Raised? <==> o.Err?
    ensures f.Raised? ==> f.error == o.error
    ensures f.OutOfFuel? <==> o.Exhausted?
  {
    match o
    case Ok(_) => Normal
    case Err(e) => Raised(e)
    case Exhausted => OutOfFuel
  }

  // ---------------------------------------------------------------------------
  // Operators.

  /** The binary operators that take two numbers. */
  const NumericOperators: set<Kind> := {Minus, Slash, Star, Greater, GreaterEqual, Less, LessEqual}

  /** Division. Go divides float64 values, so a zero divisor gives an
      infinity or NaN; those are not values of this model and the quotient is
      0 instead. */
  function Quotient(l: real, r: real): (q: real)
    ensures r != 0.0 ==> q * r == l
  {
    if r == 0.0 then 0.0 else l / r
  }

  /** The result of a numeric operator on two numbers. */
  function Arithmetic(op: Kind, l: real, r: real): (v: Value)
    requires op in NumericOperators
    ensures op in {Minus, Slash, Star} ==> v.Number?
    ensures op in {Greater, GreaterEqual, Less, LessEqual} ==> v.Bool?
  {
    if op == Minus then Number(l - r)
    else if op == Slash then Number(Quotient(l, r))
    else if op == Star then Number(l * r)
    else if op == Greater then Bool(l > r)
    else if op == GreaterEqual then Bool(l >= r)
    else if op == Less then Bool(l < r)
    else Bool(l <= r)
  }

  /** `VisitUnaryExpr` once the operand is known: `-` needs a number, `!`
      negates the truthiness of anything. */
  function ApplyUnary(op: Token, right: Value): (r: Outcome<Value>)
    ensures !r.Exhausted?
    ensures op.kind == Minus ==> (r.Ok? <==> right.Number?)
    ensures op.kind == Minus && r.Ok? ==> r.value == Number(-right.n)
    ensures op.kind == Minus && r.Err? ==> r.error == LoxError.RuntimeError(op, "Operand must be a number.")
    ensures op.kind == Bang ==> r == Ok(Bool(!IsTruthy(right)))
  {
    if op.kind == Minus then
      if right.Number? then Ok(Number(-right.n)) else Err(LoxError.RuntimeError(op, "Operand must be a number."))
    else if op.kind == Bang then Ok(Bool(!IsTruthy(right)))
    else Ok(Nil)
  }

  /** `VisitBinaryExpr` once both operands are known. */
  function ApplyBinary(op: Token, left: Value, right: Value): (r: Outcome<Value>)
    ensures !r.Exhausted?
    ensures op.kind in NumericOperators ==> (r.Ok? <==> left.Number? && right.Number?)
    ensures op.kind in NumericOperators && r.Err? ==> r.error == LoxError.RuntimeError(op, "Operands must be numbers.")
    ensures op.kind == Plus ==> (r.Ok? <==> (left.Number? && right.Number?) || (left.Str? && right.Str?))
    ensures op.kind == Plus && left.Number? && right.Number? ==> r == Ok(Number(left.n + right.n))
    ensures op.kind == Plus && left.Str? && right.Str? ==> r == Ok(Str(left.s + right.s))
    ensures op.kind == Plus && r.Err? ==>
              r.error == LoxError.RuntimeError(op, "Operands must be two numbers or two strings.")
    ensures op.kind in {EqualEqual, BangEqual} ==> r.Ok? && r.value.Bool?
    ensures op.kind == EqualEqual ==> (r.value.b <==> IsEqual(left, right))
    ensures op.kind == BangEqual ==> (r.value.b <==> !IsEqual(left, right))
  {
    var k := op.kind;
    if k in NumericOperators then
      if left.Number? && right.Number? then Ok(Arithmetic(k, left.n, right.n))
      else Err(LoxError.RuntimeError(op, "Operands must be numbers."))
    else if k == Plus then
      if left.Number? && right.Number? then Ok(Number(left.n + right.n))
      else if left.Str? && right.Str? then Ok(Str(left.s + right.s))
      else Err(LoxError.RuntimeError(op, "Operands must be two numbers or two strings."))
    else if k == BangEqual then Ok(Bool(!IsEqual(left, right)))
    else if k == EqualEqual then Ok(Bool(IsEqual(left, right)))
    else Ok(Nil)
  }

  /** `!=` is the negation of `==`, and values of different kinds are never
      equal; neither operator ever fails. */
  lemma EqualityOperators(eq: Token, ne: Token, left: Value, right: Value)
    requires eq.kind == EqualEqual && ne.kind == BangEqual
    ensures ApplyBinary(eq, left, right).Ok? && ApplyBinary(ne, left, right).Ok?
    ensures ApplyBinary(ne, left, right).value.b <==> !ApplyBinary(eq, left, right).value.b
    ensures !SameKind(left, right) ==> ApplyBinary(eq, left, right) == Ok(Bool(false))
  {
  }

  /** The message of an arity mismatch, `Expected N arguments but got M.` */
  function ArityMessage(arity: nat, count: nat): string
  {
    "Expected " + Decimal.NatText(arity) + " arguments but got " + Decimal.NatText(count) + "."
  }

  // ---------------------------------------------------------------------------
  // Calls.

  /** Bind the parameters positionally in frame `id` (the loop of
      `Function.Call`); no other frame changes. */
  function Bind(frames: seq<Frame>, id: nat, params: seq<Token>, args: seq<Value>): (r: seq<Frame>)
    requires id < |frames| && |params| == |args|
    ensures |r| == |frames| && r[id].parent == frames[id].parent
    ensures forall i :: 0 <= i < |frames| && i != id ==> r[i] == frames[i]
    decreases |params|
  {
    if params == [] then frames
    else Bind(Environment.Define(frames, id, params[0].lexeme, args[0]), id, params[1..], args[1..])
  }

  /** The parameter names of a declaration. */
  function Names(params: seq<Token>): set<string> {
    set p <- params :: p.lexeme
  }

  /** After binding, the frame has its old names and the parameter names. */
  lemma {:induction false} BindKeys(frames: seq<Frame>, id: nat, params: seq<Token>, args: seq<Value>)
    requires id < |frames| && |params| == |args|
    ensures Bind(frames, id, params, args)[id].vars.Keys == frames[id].vars.Keys + Names(params)
    decreases |params|
  {
    if params != [] {
      var defined := Environment.Define(frames, id, params[0].lexeme, args[0]);
      BindKeys(defined, id, params[1..], args[1..]);
      assert Names(params) == {params[0].lexeme} + Names(params[1..]);
    }
  }

  /** No parameter after position `i` has the same name. */
  predicate LastOf(params: seq<Token>, i: nat)
    requires i < |params|
  {
    forall j :: i < j < |params| ==> params[j].lexeme != params[i].lexeme
  }

  /** Each parameter is bound to the argument at its position; a name that
      repeats ends up with the later argument. */
  lemma {:induction false} BindPositional(frames: seq<Frame>, id: nat, params: seq<Token>, args: seq<Value>)
    requires id < |frames| && |params| == |args|
    ensures forall i :: 0 <= i < |params| && LastOf(params, i) ==>
              && params[i].lexeme in Bind(frames, id, params, args)[id].vars
              && Bind(frames, id, params, args)[id].vars[params[i].lexeme] == args[i]
    decreases |params|
  {
    if params != [] {
      var defined := Environment.Define(frames, id, params[0].lexeme, args[0]);
      var r := Bind(frames, id, params, args);
      assert r == Bind(defined, id, params[1..], args[1..]);
      BindPositional(defined, id, params[1..], args[1..]);
      forall i | 0 <= i < |params| && LastOf(params, i)
        ensures params[i].lexeme in r[id].vars && r[id].vars[params[i].lexeme] == args[i]
      {
        if i > 0 {
          assert LastOf(params[1..], i - 1);
        } else {
          BindKeepsOthers(defined, id, params[1..], args[1..]);
        }
      }
    }
  }

  /** A name that is no parameter keeps its binding. */
  lemma {:induction false} BindKeepsOthers(frames: seq<Frame>, id: nat, params: seq<Token>, args: seq<Value>)
    requires id < |frames| && |params| == |args|
    ensures forall n :: n in frames[id].vars && n !in Names(params) ==>
              n in Bind(frames, id, params, args)[id].vars
              && Bind(frames, id, params, args)[id].vars[n] == frames[id].vars[n]
    decreases |params|
  {
    if params != [] {
      var defined := Environment.Define(frames, id, params[0].lexeme, args[0]);
      BindKeepsOthers(defined, id, params[1..], args[1..]);
      assert Names(params) == {params[0].lexeme} + Names(params[1..]);
    }
  }

  /** Binding arguments that refer to existing frames keeps the store valid. */
  lemma {:induction false} BindValid(frames: seq<Frame>, id: nat, params: seq<Token>, args: seq<Value>)
    requires id < |frames| && |params| == |args|
    requires Environment.Valid(frames) && forall a <- args :: Refers(a, |frames|)
    ensures Environment.Valid(Bind(frames, id, params, args))
    decreases |params|
  {
    if params != [] {
      var defined := Environment.Define(frames, id, params[0].lexeme, args[0]);
      Environment.DefineValid(frames, id, params[0].lexeme, args[0]);
      BindValid(defined, id, params[1..], args[1..]);
    }
  }

  /** The value a call produces from the flow of its body: nil when the body
      completes, the carried value on a `returnValue` signal, and a runtime
      error passed on. */
  function Completed(f: Flow): (o: Outcome<Value>)
    ensures f.Normal? ==> o == Ok(Nil)
    ensures f.Return? ==> o == Ok(f.value)
    ensures f.Raised? ==> o == Err(f.error)
    ensures f.OutOfFuel? ==> o == Exhausted
  {
    match f
    case Normal => Ok(Nil)
    case Return(v) => Ok(v)
    case Raised(e) => Err(e)
    case OutOfFuel => Exhausted
  }

  // ---------------------------------------------------------------------------
  // Evaluation. `Eval` and `Exec` spend one unit of fuel per node and hand
  // the node to a helper; the helpers evaluate sub-nodes with the fuel left.

  /** `evaluate`. */
  function Eval(fuel: nat, st: State, e: Ast.Expr): (r: Evaluated<Value>)
    requires Valid(st)
    ensures Kept(st, r.st) && Produces(r)
    decreases fuel, 0, 0
  {
    if fuel == 0 then Evaluated(st, Exhausted)
    else
      var f := fuel - 1;
      match e
      case Literal(atom) => Evaluated(st, Ok(FromAtom(atom)))
      case Grouping(inner) => Eval(f, st, inner)
      case Variable(name) => EvalVariable(st, name)
      case Unary(op, right) => EvalUnary(f, st, op, right)
      case Binary(left, op, right) => EvalBinary(f, st, left, op, right)
      case Logical(left, op, right) => EvalLogical(f, st, left, op, right)
      case Assign(name, value) => EvalAssign(f, st, name, value)
      case Call(callee, paren, arguments) => EvalCall(f, st, callee, paren, arguments)
  }

  /** `VisitVariableExpr`: the environment's `Get`. */
  function EvalVariable(st: State, name: Token): (r: Evaluated<Value>)
    requires Valid(st)
    ensures r.st == st && Produces(r)
    ensures var g := Environment.Get(st.frames, st.env, name);
            && (r.outcome.Ok? <==> g.Found?)
            && (r.outcome.Ok? ==> r.outcome.value == g.value)
            && (r.outcome.Err? ==> r.outcome.error == g.error)
  {
    var g := Environment.Get(st.frames, st.env, name);
    Environment.GetRefers(st.frames, st.env, name);
    if g.Found? then Evaluated(st, Ok(g.value)) else Evaluated(st, Err(g.error))
  }

  /** `VisitUnaryExpr`. */
  function EvalUnary(f: nat, st: State, op: Token, right: Ast.Expr): (r: Evaluated<Value>)
    requires Valid(st)
    ensures Kept(st, r.st) && Produces(r)
    decreases f, 1, 0
  {
    var v := Eval(f, st, right);
    if !v.outcome.Ok? then v else Evaluated(v.st, ApplyUnary(op, v.outcome.value))
  }

  /** `VisitBinaryExpr`: the left operand, then the right one, then the
      operator's type check. */
  function EvalBinary(f: nat, st: State, left: Ast.Expr, op: Token, right: Ast.Expr): (r: Evaluated<Value>)
    requires Valid(st)
    ensures Kept(st, r.st) && Produces(r)
    decreases f, 1, 0
  {
    var l := Eval(f, st, left);
    if !l.outcome.Ok? then l
    else
      var r := EvalRight(f, l.st, l.outcome.value, op, right);
      KeptTransitive(st, l.st, r.st);
      r
  }

  /** The rest of `VisitBinaryExpr` once the left operand is known: the
      right operand, then the operator. */
  function EvalRight(f: nat, st: State, leftValue: Value, op: Token, right: Ast.Expr): (r: Evaluated<Value>)
    requires Valid(st)
    ensures Kept(st, r.st) && Produces(r)
    decreases f, 0, 1
  {
    var rr := Eval(f, st, right);
    if !rr.outcome.Ok? then rr else Evaluated(rr.st, ApplyBinary(op, leftValue, rr.outcome.value))
  }

  /** Whether a logical operator is decided by its left operand alone:
      `or` by a truthy one, `and` by a falsy one. */
  predicate ShortCircuits(op: Token, left: Value) {
    (op.kind == OrKw && IsTruthy(left)) || (op.kind == AndKw && !IsTruthy(left))
  }

  /** `VisitLogicalExpr`: the left value itself when it decides the result,
      otherwise the value of the right operand, uncoerced. */
  function EvalLogical(f: nat, st: State, left: Ast.Expr, op: Token, right: Ast.Expr): (r: Evaluated<Value>)
    requires Valid(st)
    ensures Kept(st, r.st) && Produces(r)
    decreases f, 1, 0
  {
    var l := Eval(f, st, left);
    if !l.outcome.Ok? || ShortCircuits(op, l.outcome.value) then l
    else
      var rr := Eval(f, l.st, right);
      KeptTransitive(st, l.st, rr.st);
      rr
  }

  /** `VisitAssignExpr`: the value, then the environment's `Assign`; the
      expression's value is the value assigned. */
  function EvalAssign(f: nat, st: State, name: Token, value: Ast.Expr): (r: Evaluated<Value>)
    requires Valid(st)
    ensures Kept(st, r.st) && Produces(r)
    decreases f, 1, 0
  {
    var v := Eval(f, st, value);
    if !v.outcome.Ok? then v
    else
      var a := Environment.Assign(v.st.frames, v.st.env, name, v.outcome.value);
      Environment.AssignValid(v.st.frames, v.st.env, name, v.outcome.value);
      if a.Found? then Evaluated(v.st.(frames := a.value), Ok(v.outcome.value))
      else Evaluated(v.st, Err(a.error))
  }

  /** `VisitCallExpr`: the callee, then the arguments left to right, then
      the call. */
  function EvalCall(f: nat, st: State, callee: Ast.Expr, paren: Token, arguments: seq<Ast.Expr>): (r: Evaluated<Value>)
    requires Valid(st)
    ensures Kept(st, r.st) && Produces(r)
    decreases f, 1, 0
  {
    var c := Eval(f, st, callee);
    if !c.outcome.Ok? then c
    else
      var a := EvalArgs(f, c.st, arguments);
      KeptTransitive(st, c.st, a.st);
      if !a.outcome.Ok? then Evaluated(a.st, Forward(a.outcome))
      else
        var r := CallValue(f, a.st, c.outcome.value, paren, a.outcome.value);
        KeptTransitive(st, a.st, r.st);
        r
  }

  /** The arguments of a call, evaluated left to right; the first failure
      stops the rest. */
  function EvalArgs(f: nat, st: State, args: seq<Ast.Expr>): (r: Evaluated<seq<Value>>)
    requires Valid(st)
    ensures Kept(st, r.st)
    ensures r.outcome.Ok? ==> |r.outcome.value| == |args|
    ensures r.outcome.Ok? ==> forall v <- r.outcome.value :: Refers(v, |r.st.frames|)
    decreases f, 0, |args|
  {
    if args == [] then Evaluated(st, Ok([]))
    else
      var h := Eval(f, st, args[0]);
      if !h.outcome.Ok? then Evaluated(h.st, Forward(h.outcome))
      else
        var t := EvalArgs(f, h.st, args[1..]);
        KeptTransitive(st, h.st, t.st);
        if !t.outcome.Ok? then t
        else Evaluated(t.st, Ok([h.outcome.value] + t.outcome.value))
  }

  /** The checks `VisitCallExpr` makes once the callee and the arguments
      are known: the callee must be callable and take exactly as many
      arguments as were given. */
  function CallCheck(callee: Value, paren: Token, count: nat): (e: Option<Diagnostic>)
    ensures e.None? <==> Callable(callee) && count == Arity(callee)
    ensures !Callable(callee) ==> e == Some(LoxError.RuntimeError(paren, "Can only call functions and classes."))
    ensures Callable(callee) && count != Arity(callee) ==>
              e == Some(LoxError.RuntimeError(paren, ArityMessage(Arity(callee), count)))
  {
    if !Callable(callee) then Some(LoxError.RuntimeError(paren, "Can only call functions and classes."))
    else if count != Arity(callee) then Some(LoxError.RuntimeError(paren, ArityMessage(Arity(callee), count)))
    else None
  }

  /** The same checks with `callee.(Callable)` as Go decides it, which the
      clock does not pass. */
  function CallCheckAsWritten(callee: Value, paren: Token, count: nat): (e: Option<Diagnostic>)
    ensures e.None? <==> CallableAsWritten(callee) && count == Arity(callee)
    ensures !CallableAsWritten(callee) ==> e == Some(LoxError.RuntimeError(paren, "Can only call functions and classes."))
  {
    if !CallableAsWritten(callee) then Some(LoxError.RuntimeError(paren, "Can only call functions and classes."))
    else if count != Arity(callee) then Some(LoxError.RuntimeError(paren, ArityMessage(Arity(callee), count)))
    else None
  }

  /** As written, calling the global `clock` with no arguments is rejected
      as a call of something that is not callable; with the interface
      satisfied, the same call passes both checks. */
  lemma ClockRejectedAsWritten(paren: Token)
    ensures CallCheckAsWritten(Clock, paren, 0) == Some(LoxError.RuntimeError(paren, "Can only call functions and classes."))
    ensures CallCheck(Clock, paren, 0) == None
  {
  }

  /** The two checks agree on everything except the clock. */
  lemma CallChecksAgree(callee: Value, paren: Token, count: nat)
    requires !callee.Clock?
    ensures CallCheckAsWritten(callee, paren, count) == CallCheck(callee, paren, count)
  {
  }

  /** The call itself: only callables can be called, with exactly as many
      arguments as their arity; the clock reads the time, a function runs its
      body. */
  function CallValue(f: nat, st: State, callee: Value, paren: Token, args: seq<Value>): (r: Evaluated<Value>)
    requires Valid(st) && Refers(callee, |st.frames|) && forall a <- args :: Refers(a, |st.frames|)
    ensures Kept(st, r.st) && Produces(r)
    ensures !Callable(callee) ==>
              r == Evaluated(st, Err(LoxError.RuntimeError(paren, "Can only call functions and classes.")))
    ensures Callable(callee) && |args| != Arity(callee) ==>
              r == Evaluated(st, Err(LoxError.RuntimeError(paren, ArityMessage(Arity(callee), |args|))))
    ensures callee.Clock? && args == [] ==> r == Evaluated(st, Ok(Number(st.now as real)))
    decreases f, 0, 1
  {
    var check := CallCheck(callee, paren, |args|);
    if check.Some? then Evaluated(st, Err(check.value))
    else if callee.Clock? then Evaluated(st, Ok(Number(st.now as real)))
    else CallFunction(f, st, callee.decl, callee.closure, args)
  }

  /** `Function.Call`: a new frame enclosed by the closure's frame (not the
      caller's), the parameters bound in it, the body run as a block in it;
      the caller's frame is current again afterwards. */
  function CallFunction(f: nat, st: State, decl: Ast.FunctionDecl, closure: nat, args: seq<Value>): (r: Evaluated<Value>)
    requires Valid(st) && closure < |st.frames| && |args| == |decl.params|
    requires forall a <- args :: Refers(a, |st.frames|)
    ensures Kept(st, r.st) && Produces(r)
    decreases f, 0, 0
  {
    if f == 0 then Evaluated(st, Exhausted)
    else
      var grown := Environment.NewEnvironment(st.frames, Some(closure));
      var frames, id := grown.0, grown.1;
      var bound := Bind(frames, id, decl.params, args);
      assert forall a <- args :: Refers(a, |frames|) by {
        forall a <- args ensures Refers(a, |frames|) {
          assert Refers(a, |st.frames|);
        }
      }
      BindValid(frames, id, decl.params, args);
      var callee := st.(frames := bound);
      assert Valid(callee);
      var ex := ExecBlock(f - 1, callee, decl.body, id);
      assert Kept(st, ex.st);
      Evaluated(ex.st, Completed(ex.flow))
  }

  // ---------------------------------------------------------------------------
  // Execution.

  /** `execute`. */
  function Exec(fuel: nat, st: State, s: Ast.Stmt): (r: Executed)
    requires Valid(st)
    ensures Kept(st, r.st) && FlowRefers(r)
    decreases fuel, 0, 0
  {
    if fuel == 0 then Executed(st, OutOfFuel)
    else
      var f := fuel - 1;
      match s
      case Block(statements) =>
        var (frames, id) := Environment.NewEnvironment(st.frames, Some(st.env));
        ExecBlock(f, st.(frames := frames), statements, id)
      case Expression(e) =>
        var r := Eval(f, st, e);
        Executed(r.st, Settle(r.outcome))
      case Print(e) => ExecPrint(f, st, e)
      case Var(name, initializer) => ExecVar(f, st, name, initializer)
      case If(condition, thenBranch, elseBranch) => ExecIf(f, st, condition, thenBranch, elseBranch)
      case While(condition, body) => Loop(f, st, condition, body)
  }

  /** `VisitPrintStmt`: one more line of output, the value's `%v` text. */
  function ExecPrint(f: nat, st: State, e: Ast.Expr): (r: Executed)
    requires Valid(st)
    ensures Kept(st, r.st)
    ensures !r.flow.Return?
    decreases f, 1, 0
  {
    var v := Eval(f, st, e);
    if v.outcome.Ok? then Executed(v.st.(out := v.st.out + [Show(v.outcome.value)]), Normal)
    else Executed(v.st, Settle(v.outcome))
  }

  /** `VisitVarStmt`: define the name in the current frame, as nil when
      there is no initializer. */
  function ExecVar(f: nat, st: State, name: Token, initializer: Option<Ast.Expr>): (r: Executed)
    requires Valid(st)
    ensures Kept(st, r.st) && !r.flow.Return?
    decreases f, 1, 0
  {
    if initializer.None? then
      Environment.DefineValid(st.frames, st.env, name.lexeme, Nil);
      Executed(st.(frames := Environment.Define(st.frames, st.env, name.lexeme, Nil)), Normal)
    else
      var v := Eval(f, st, initializer.value);
      if !v.outcome.Ok? then Executed(v.st, Settle(v.outcome))
      else
        Environment.DefineValid(v.st.frames, v.st.env, name.lexeme, v.outcome.value);
        Executed(v.st.(frames := Environment.Define(v.st.frames, v.st.env, name.lexeme, v.outcome.value)), Normal)
  }

  /** `VisitIfStmt`. */
  function ExecIf(f: nat, st: State, condition: Ast.Expr, thenBranch: Ast.Stmt, elseBranch: Option<Ast.Stmt>): (r: Executed)
    requires Valid(st)
    ensures Kept(st, r.st) && FlowRefers(r)
    decreases f, 1, 0
  {
    var c := Eval(f, st, condition);
    if !c.outcome.Ok? then Executed(c.st, Settle(c.outcome))
    else
      var r := if IsTruthy(c.outcome.value) then Exec(f, c.st, thenBranch)
               else if elseBranch.Some? then Exec(f, c.st, elseBranch.value)
               else Executed(c.st, Normal);
      KeptTransitive(st, c.st, r.st);
      r
  }

  /** `VisitWhileStmt`: the condition is evaluated before every iteration,
      and a flow other than `Normal` leaves the loop. */
  function Loop(f: nat, st: State, condition: Ast.Expr, body: Ast.Stmt): (r: Executed)
    requires Valid(st)
    ensures Kept(st, r.st) && FlowRefers(r)
    decreases f, 2, 0
  {
    var c := Eval(f, st, condition);
    if !c.outcome.Ok? then Executed(c.st, Settle(c.outcome))
    else if !IsTruthy(c.outcome.value) then Executed(c.st, Normal)
    else
      var r := Iterate(f, c.st, condition, body);
      KeptTransitive(st, c.st, r.st);
      r
  }

  /** One run of the loop body after a truthy condition, then the loop
      again. */
  function Iterate(f: nat, st: State, condition: Ast.Expr, body: Ast.Stmt): (r: Executed)
    requires Valid(st)
    ensures Kept(st, r.st) && FlowRefers(r)
    decreases f, 1, 0
  {
    var b := Exec(f, st, body);
    if !b.flow.Normal? then b
    else if f == 0 then Executed(b.st, OutOfFuel)
    else
      var r := Loop(f - 1, b.st, condition, body);
      KeptTransitive(st, b.st, r.st);
      r
  }

  /** `executeBlock`: the statements in frame `env`, stopping at the first
      that does not complete normally; the previous frame is current again
      afterwards, however the block ended. */
  function ExecBlock(f: nat, st: State, statements: seq<Ast.Stmt>, env: nat): (r: Executed)
    requires Valid(st) && env < |st.frames|
    ensures Kept(st, r.st) && FlowRefers(r)
    decreases f, 1, 0
  {
    var inner := ExecSeq(f, st.(env := env), statements);
    Executed(inner.st.(env := st.env), inner.flow)
  }

  /** Statements in order in the current frame. */
  function ExecSeq(f: nat, st: State, statements: seq<Ast.Stmt>): (r: Executed)
    requires Valid(st)
    ensures Kept(st, r.st) && FlowRefers(r)
    decreases f, 0, |statements|
  {
    if statements == [] then Executed(st, Normal)
    else
      var first := Exec(f, st, statements[0]);
      if !first.flow.Normal? then first
      else
        var rest := ExecSeq(f, first.st, statements[1..]);
        KeptTransitive(st, first.st, rest.st);
        rest
  }

  // ---------------------------------------------------------------------------
  // Running a program.

  /** The global frame `NewInterpreter` sets up: `clock` bound to the
      native clock. */
  function Globals(now: int): (st: State)
    ensures Valid(st) && |st.frames| == 1 && st.env == 0 && st.out == []
    ensures st.frames[0].vars == map["clock" := Clock] && st.frames[0].parent.None?
  {
    State([Environment.Frame(map["clock" := Clock], None)], 0, [], now)
  }

  /** `Interpret`: the statements in order in the global frame; a runtime
      error stops the run. */
  function Interpret(fuel: nat, statements: seq<Ast.Stmt>, now: int): (r: Executed)
    ensures Valid(r.st) && r.st.env == 0 && r.st.now == now
  {
    ExecSeq(fuel, Globals(now), statements)
  }

  /** Everything the run writes to standard output: the printed lines, then
      the diagnostic of the runtime error that stopped it, if one did. */
  function Transcript(r: Executed): (lines: seq<string>)
    ensures r.flow.Raised? ==> lines == r.st.out + [LoxError.Text(r.flow.error)]
    ensures !r.flow.Raised? ==> lines == r.st.out
  {
    if r.flow.Raised? then r.st.out + [LoxError.Text(r.flow.error)] else r.st.out
  }

  // ---------------------------------------------------------------------------
  // Properties of evaluation.

  /** Both operands of a binary operator are evaluated, left then right, in
      the state the previous one left, before the operator checks their
      types; a failing left operand stops the evaluation. */
  lemma BinaryOperandOrder(fuel: nat, st: State, left: Ast.Expr, op: Token, right: Ast.Expr)
    requires Valid(st)
    ensures var l := Eval(fuel, st, left);
            var r := Eval(fuel + 1, st, Ast.Binary(left, op, right));
            && (!l.outcome.Ok? ==> r == l)
            && (l.outcome.Ok? ==>
                  var rr := Eval(fuel, l.st, right);
                  && (!rr.outcome.Ok? ==> r == rr)
                  && (rr.outcome.Ok? ==> r == Evaluated(rr.st, ApplyBinary(op, l.outcome.value, rr.outcome.value))))
  {
    var l := Eval(fuel, st, left);
    if l.outcome.Ok? {
      assert Eval(fuel + 1, st, Ast.Binary(left, op, right)) == EvalRight(fuel, l.st, l.outcome.value, op, right);
    }
  }

  /** `or` and `and` yield their left value, without evaluating the right
      operand, exactly when it decides the result; otherwise they yield the
      right operand's value as it is. */
  lemma ShortCircuit(fuel: nat, st: State, left: Ast.Expr, op: Token, right: Ast.Expr)
    requires Valid(st)
    ensures var l := Eval(fuel, st, left);
            var r := Eval(fuel + 1, st, Ast.Logical(left, op, right));
            && (l.outcome.Ok? && ShortCircuits(op, l.outcome.value) ==> r == l)
            && (l.outcome.Ok? && !ShortCircuits(op, l.outcome.value) ==> r == Eval(fuel, l.st, right))
            && (!l.outcome.Ok? ==> r == l)
  {
  }

  /** A block runs its statements in one fresh, empty frame enclosed by the
      current one, and the current frame is restored afterwards, however the
      block ended. */
  lemma BlockScope(fuel: nat, st: State, statements: seq<Ast.Stmt>)
    requires Valid(st)
    ensures var child := Environment.Frame(map[], Some(st.env));
            var inner := ExecSeq(fuel, st.(frames := st.frames + [child], env := |st.frames|), statements);
            var r := Exec(fuel + 1, st, Ast.Block(statements));
            && r.st == inner.st.(env := st.env)
            && r.flow == inner.flow
  {
    var grown := Environment.NewEnvironment(st.frames, Some(st.env));
    assert grown.0 == st.frames + [Environment.Frame(map[], Some(st.env))];
  }

  /** A statement that does not complete normally ends the sequence it is
      in: the statements after it do not run. */
  lemma SequenceStops(fuel: nat, st: State, first: Ast.Stmt, rest: seq<Ast.Stmt>)
    requires Valid(st) && !Exec(fuel, st, first).flow.Normal?
    ensures ExecSeq(fuel, st, [first] + rest) == Exec(fuel, st, first)
  {
    assert ([first] + rest)[0] == first;
  }

  /** A `while` whose condition is falsy runs its body zero times; a truthy
      one runs the body once and then evaluates the condition again. */
  lemma WhileIterations(fuel: nat, st: State, condition: Ast.Expr, body: Ast.Stmt)
    requires Valid(st)
    ensures var c := Eval(fuel, st, condition);
            var r := Exec(fuel + 1, st, Ast.While(condition, body));
            && (c.outcome.Err? ==> r == Executed(c.st, Raised(c.outcome.error)))
            && (c.outcome.Ok? && !IsTruthy(c.outcome.value) ==> r == Executed(c.st, Normal))
            && (c.outcome.Ok? && IsTruthy(c.outcome.value) && fuel > 0 ==>
                  var b := Exec(fuel, c.st, body);
                  && (!b.flow.Normal? ==> r == b)
                  && (b.flow.Normal? ==> r == Loop(fuel - 1, b.st, condition, body)))
  {
    var c := Eval(fuel, st, condition);
    if c.outcome.Ok? && IsTruthy(c.outcome.value) {
      assert Exec(fuel + 1, st, Ast.While(condition, body)) == Iterate(fuel, c.st, condition, body);
    }
  }

  /** An expression statement evaluates its expression for its effects and
      discards the value; a failing expression is the statement's error. */
  lemma ExpressionDiscards(fuel: nat, st: State, e: Ast.Expr)
    requires Valid(st)
    ensures var v := Eval(fuel, st, e);
            var r := Exec(fuel + 1, st, Ast.Expression(e));
            && (v.outcome.Ok? ==> r == Executed(v.st, Normal))
            && (v.outcome.Err? ==> r == Executed(v.st, Raised(v.outcome.error)))
  {
  }

  /** `print` appends exactly one line, the value's text, and changes
      nothing else the expression did not change. */
  lemma PrintAppends(fuel: nat, st: State, e: Ast.Expr)
    requires Valid(st)
    ensures var v := Eval(fuel, st, e);
            var r := Exec(fuel + 1, st, Ast.Print(e));
            && (v.outcome.Ok? ==> r == Executed(v.st.(out := v.st.out + [Show(v.outcome.value)]), Normal))
            && (v.outcome.Err? ==> r == Executed(v.st, Raised(v.outcome.error)))
  {
  }

  /** After `var name = e;` the name reads as the value of `e` from the
      current frame, whatever enclosing frames bind. */
  lemma VarThenGet(fuel: nat, st: State, name: Token, e: Ast.Expr)
    requires Valid(st)
    ensures var v := Eval(fuel, st, e);
            var r := Exec(fuel + 1, st, Ast.Var(name, Some(e)));
            v.outcome.Ok? ==>
              && r.flow.Normal?
              && Environment.Get(r.st.frames, r.st.env, name) == Environment.Found(v.outcome.value)
  {
    var v := Eval(fuel, st, e);
    if v.outcome.Ok? {
      Environment.GetAfterDefine(v.st.frames, v.st.env, name, v.outcome.value);
    }
  }

  /** `var name;` defines the name as nil in the current frame and touches
      nothing else; `var name = e;` defines it as the value of `e`, and a
      failing initializer defines nothing. */
  lemma VarResult(fuel: nat, st: State, name: Token, e: Ast.Expr)
    requires Valid(st)
    ensures var r := Exec(fuel + 1, st, Ast.Var(name, None));
            && r == Executed(st.(frames := Environment.Define(st.frames, st.env, name.lexeme, Nil)), Normal)
            && Environment.Get(r.st.frames, r.st.env, name) == Environment.Found(Nil)
    ensures var v := Eval(fuel, st, e);
            var r := Exec(fuel + 1, st, Ast.Var(name, Some(e)));
            && (v.outcome.Ok? ==>
                  r == Executed(v.st.(frames := Environment.Define(v.st.frames, v.st.env, name.lexeme, v.outcome.value)), Normal))
            && (v.outcome.Err? ==> r == Executed(v.st, Raised(v.outcome.error)))
  {
  }

  /** `if` evaluates its condition once, then runs the then branch on a
      truthy value and the else branch, if any, on a falsy one, each from
      the state the condition left; a failing condition runs neither. */
  lemma IfRunsOneBranch(fuel: nat, st: State, condition: Ast.Expr, thenBranch: Ast.Stmt, elseBranch: Option<Ast.Stmt>)
    requires Valid(st)
    ensures var c := Eval(fuel, st, condition);
            var r := Exec(fuel + 1, st, Ast.If(condition, thenBranch, elseBranch));
            && (c.outcome.Err? ==> r == Executed(c.st, Raised(c.outcome.error)))
            && (c.outcome.Ok? && IsTruthy(c.outcome.value) ==> r == Exec(fuel, c.st, thenBranch))
            && (c.outcome.Ok? && !IsTruthy(c.outcome.value) && elseBranch.Some? ==>
                  r == Exec(fuel, c.st, elseBranch.value))
            && (c.outcome.Ok? && !IsTruthy(c.outcome.value) && elseBranch.None? ==> r == Executed(c.st, Normal))
  {
  }

  /** `-` and `!` evaluate their operand, then apply the operator to its
      value; a failing operand is the result. */
  lemma UnaryResult(fuel: nat, st: State, op: Token, right: Ast.Expr)
    requires Valid(st)
    ensures var v := Eval(fuel, st, right);
            var r := Eval(fuel + 1, st, Ast.Unary(op, right));
            && (!v.outcome.Ok? ==> r == v)
            && (v.outcome.Ok? ==> r == Evaluated(v.st, ApplyUnary(op, v.outcome.value)))
  {
  }

  /** An assignment evaluates its value, overwrites the binding a lookup of
      the name would read, and yields the value assigned; a name bound
      nowhere is `Get`'s error and changes nothing. */
  lemma AssignResult(fuel: nat, st: State, name: Token, value: Ast.Expr)
    requires Valid(st)
    ensures var v := Eval(fuel, st, value);
            var r := Eval(fuel + 1, st, Ast.Assign(name, value));
            && (!v.outcome.Ok? ==> r == v)
            && (v.outcome.Ok? ==>
                  var o := Environment.Owner(v.st.frames, v.st.env, name.lexeme);
                  && (o.Some? ==>
                        r == Evaluated(v.st.(frames := Environment.Define(v.st.frames, o.value, name.lexeme, v.outcome.value)),
                                       Ok(v.outcome.value)))
                  && (o.None? ==> r == Evaluated(v.st, Err(Environment.Undefined(name)))))
  {
  }

  /** A call evaluates the callee, then the arguments left to right from the
      state the callee left, then makes the call; a failing callee or
      argument ends the evaluation there. */
  lemma CallOrder(fuel: nat, st: State, callee: Ast.Expr, paren: Token, arguments: seq<Ast.Expr>)
    requires Valid(st)
    ensures var c := Eval(fuel, st, callee);
            var r := Eval(fuel + 1, st, Ast.Call(callee, paren, arguments));
            && (!c.outcome.Ok? ==> r == c)
            && (c.outcome.Ok? ==>
                  var a := EvalArgs(fuel, c.st, arguments);
                  && (a.outcome.Err? ==> r == Evaluated(a.st, Err(a.outcome.error)))
                  && (a.outcome.Exhausted? ==> r == Evaluated(a.st, Exhausted))
                  && (a.outcome.Ok? ==> r == CallValue(fuel, a.st, c.outcome.value, paren, a.outcome.value)))
  {
  }

  /** The arguments are evaluated left to right, each from the state the
      previous one left, and the values are kept in that order; the first
      failure stops the rest. */
  lemma ArgsInOrder(fuel: nat, st: State, first: Ast.Expr, rest: seq<Ast.Expr>)
    requires Valid(st)
    ensures EvalArgs(fuel, st, []) == Evaluated(st, Ok([]))
    ensures var h := Eval(fuel, st, first);
            var r := EvalArgs(fuel, st, [first] + rest);
            && (h.outcome.Err? ==> r == Evaluated(h.st, Err(h.outcome.error)))
            && (h.outcome.Exhausted? ==> r == Evaluated(h.st, Exhausted))
            && (h.outcome.Ok? ==>
                  var t := EvalArgs(fuel, h.st, rest);
                  && (!t.outcome.Ok? ==> r == t)
                  && (t.outcome.Ok? ==> r == Evaluated(t.st, Ok([h.outcome.value] + t.outcome.value))))
  {
  }

  /** A call's new frame is enclosed by the closure's frame, holds exactly
      the parameter names, and binds each parameter to the argument at its
      position. */
  lemma CallFrame(st: State, decl: Ast.FunctionDecl, closure: nat, args: seq<Value>)
    requires Valid(st) && closure < |st.frames| && |args| == |decl.params|
    ensures var id := |st.frames|;
            var bound := Bind(st.frames + [Environment.Frame(map[], Some(closure))], id, decl.params, args);
            && bound[id].parent == Some(closure)
            && bound[id].vars.Keys == Names(decl.params)
            && (forall i :: 0 <= i < |decl.params| && LastOf(decl.params, i) ==>
                  bound[id].vars[decl.params[i].lexeme] == args[i])
  {
    var id := |st.frames|;
    var frames := st.frames + [Environment.Frame(map[], Some(closure))];
    BindKeys(frames, id, decl.params, args);
    BindPositional(frames, id, decl.params, args);
  }

  /** A call runs the body in exactly that one new frame, appended to the
      store; the caller's frame is current afterwards, and the body's flow
      decides the result (nil when it completes). */
  lemma CallRunsBody(f: nat, st: State, decl: Ast.FunctionDecl, closure: nat, args: seq<Value>)
    requires Valid(st) && closure < |st.frames| && |args| == |decl.params|
    requires forall a <- args :: Refers(a, |st.frames|)
    ensures var id := |st.frames|;
            var bound := Bind(st.frames + [Environment.Frame(map[], Some(closure))], id, decl.params, args);
            Valid(st.(frames := bound, env := id)) &&
            var body := ExecSeq(f, st.(frames := bound, env := id), decl.body);
            var r := CallFunction(f + 1, st, decl, closure, args);
            && r.st == body.st.(env := st.env)
            && r.outcome == Completed(body.flow)
  {
    var id := |st.frames|;
    var grown := Environment.NewEnvironment(st.frames, Some(closure));
    var frames := st.frames + [Environment.Frame(map[], Some(closure))];
    assert grown.0 == frames;
    assert forall a <- args :: Refers(a, |frames|) by {
      forall a <- args ensures Refers(a, |frames|) {
        assert Refers(a, |st.frames|);
      }
    }
    BindValid(frames, id, decl.params, args);
    var bound := Bind(frames, id, decl.params, args);
    var ex := ExecBlock(f, st.(frames := bound), decl.body, id);
    assert CallFunction(f + 1, st, decl, closure, args) == Evaluated(ex.st, Completed(ex.flow));
  }

  /** With the callable check corrected, `clock()` in the global frame
      yields the clock reading as a number and changes nothing. */
  lemma ClockCall(now: int, name: Token, paren: Token)
    requires name.lexeme == "clock"
    ensures Eval(3, Globals(now), Ast.Call(Ast.Variable(name), paren, [])) == Evaluated(Globals(now), Ok(Number(now as real)))
  {
    var st := Globals(now);
    assert Environment.Get(st.frames, 0, name) == Environment.Found(Clock);
    assert Eval(2, st, Ast.Variable(name)) == Evaluated(st, Ok(Clock));
    assert EvalArgs(2, st, []) == Evaluated(st, Ok([]));
  }

  // ---------------------------------------------------------------------------
  // Fuel. An evaluation that does not run out of fuel has the same result
  // with more fuel: the bound only cuts off runs, it never changes one.

  lemma {:induction false} EvalMore(fuel: nat, st: State, e: Ast.Expr)
    requires Valid(st) && !Eval(fuel, st, e).outcome.Exhausted?
    ensures Eval(fuel + 1, st, e) == Eval(fuel, st, e)
    decreases fuel, 0, 0
  {
    var f := fuel - 1;
    match e
    case Literal(_) =>
    case Grouping(inner) => EvalMore(f, st, inner);
    case Variable(_) =>
    case Unary(op, right) => EvalUnaryMore(f, st, op, right);
    case Binary(left, op, right) => EvalBinaryMore(f, st, left, op, right);
    case Logical(left, op, right) => EvalLogicalMore(f, st, left, op, right);
    case Assign(name, value) => EvalAssignMore(f, st, name, value);
    case Call(callee, paren, arguments) => EvalCallMore(f, st, callee, paren, arguments);
  }

  lemma {:induction false} EvalUnaryMore(f: nat, st: State, op: Token, right: Ast.Expr)
    requires Valid(st) && !EvalUnary(f, st, op, right).outcome.Exhausted?
    ensures EvalUnary(f + 1, st, op, right) == EvalUnary(f, st, op, right)
    decreases f, 1, 0
  {
    EvalMore(f, st, right);
  }

  lemma {:induction false} EvalBinaryMore(f: nat, st: State, left: Ast.Expr, op: Token, right: Ast.Expr)
    requires Valid(st) && !EvalBinary(f, st, left, op, right).outcome.Exhausted?
    ensures EvalBinary(f + 1, st, left, op, right) == EvalBinary(f, st, left, op, right)
    decreases f, 1, 0
  {
    var l := Eval(f, st, left);
    EvalMore(f, st, left);
    if l.outcome.Ok? {
      EvalRightMore(f, l.st, l.outcome.value, op, right);
    }
  }

  lemma {:induction false} EvalRightMore(f: nat, st: State, leftValue: Value, op: Token, right: Ast.Expr)
    requires Valid(st) && !EvalRight(f, st, leftValue, op, right).outcome.Exhausted?
    ensures EvalRight(f + 1, st, leftValue, op, right) == EvalRight(f, st, leftValue, op, right)
    decreases f, 0, 1
  {
    EvalMore(f, st, right);
  }

  lemma {:induction false} EvalLogicalMore(f: nat, st: State, left: Ast.Expr, op: Token, right: Ast.Expr)
    requires Valid(st) && !EvalLogical(f, st, left, op, right).outcome.Exhausted?
    ensures EvalLogical(f + 1, st, left, op, right) == EvalLogical(f, st, left, op, right)
    decreases f, 1, 0
  {
    var l := Eval(f, st, left);
    EvalMore(f, st, left);
    if l.outcome.Ok? && !ShortCircuits(op, l.outcome.value) {
      EvalMore(f, l.st, right);
    }
  }

  lemma {:induction false} EvalAssignMore(f: nat, st: State, name: Token, value: Ast.Expr)
    requires Valid(st) && !EvalAssign(f, st, name, value).outcome.Exhausted?
    ensures EvalAssign(f + 1, st, name, value) == EvalAssign(f, st, name, value)
    decreases f, 1, 0
  {
    EvalMore(f, st, value);
  }

  lemma {:induction false} EvalCallMore(f: nat, st: State, callee: Ast.Expr, paren: Token, arguments: seq<Ast.Expr>)
    requires Valid(st) && !EvalCall(f, st, callee, paren, arguments).outcome.Exhausted?
    ensures EvalCall(f + 1, st, callee, paren, arguments) == EvalCall(f, st, callee, paren, arguments)
    decreases f, 1, 0
  {
    var c := Eval(f, st, callee);
    EvalMore(f, st, callee);
    if c.outcome.Ok? {
      var a := EvalArgs(f, c.st, arguments);
      EvalArgsMore(f, c.st, arguments);
      if a.outcome.Ok? {
        CallValueMore(f, a.st, c.outcome.value, paren, a.outcome.value);
      }
    }
  }

  lemma {:induction false} EvalArgsMore(f: nat, st: State, args: seq<Ast.Expr>)
    requires Valid(st) && !EvalArgs(f, st, args).outcome.Exhausted?
    ensures EvalArgs(f + 1, st, args) == EvalArgs(f, st, args)
    decreases f, 0, |args|
  {
    if args != [] {
      var h := Eval(f, st, args[0]);
      EvalMore(f, st, args[0]);
      if h.outcome.Ok? {
        EvalArgsMore(f, h.st, args[1..]);
      }
    }
  }

  lemma {:induction false} CallValueMore(f: nat, st: State, callee: Value, paren: Token, args: seq<Value>)
    requires Valid(st) && Refers(callee, |st.frames|) && forall a <- args :: Refers(a, |st.frames|)
    requires !CallValue(f, st, callee, paren, args).outcome.Exhausted?
    ensures CallValue(f + 1, st, callee, paren, args) == CallValue(f, st, callee, paren, args)
    decreases f, 0, 1
  {
    if CallCheck(callee, paren, |args|).None? && callee.Function? {
      CallFunctionMore(f, st, callee.decl, callee.closure, args);
    }
  }

  lemma {:induction false} CallFunctionMore(f: nat, st: State, decl: Ast.FunctionDecl, closure: nat, args: seq<Value>)
    requires Valid(st) && closure < |st.frames| && |args| == |decl.params|
    requires forall a <- args :: Refers(a, |st.frames|)
    requires !CallFunction(f, st, decl, closure, args).outcome.Exhausted?
    ensures CallFunction(f + 1, st, decl, closure, args) == CallFunction(f, st, decl, closure, args)
    decreases f, 0, 0
  {
    var grown := Environment.NewEnvironment(st.frames, Some(closure));
    var frames, id := grown.0, grown.1;
    var bound := Bind(frames, id, decl.params, args);
    assert forall a <- args :: Refers(a, |frames|) by {
      forall a <- args ensures Refers(a, |frames|) {
        assert Refers(a, |st.frames|);
      }
    }
    BindValid(frames, id, decl.params, args);
    ExecBlockMore(f - 1, st.(frames := bound), decl.body, id);
  }

  lemma {:induction false} ExecMore(fuel: nat, st: State, s: Ast.Stmt)
    requires Valid(st) && !Exec(fuel, st, s).flow.OutOfFuel?
    ensures Exec(fuel + 1, st, s) == Exec(fuel, st, s)
    decreases fuel, 0, 0
  {
    var f := fuel - 1;
    match s
    case Block(statements) =>
      var grown := Environment.NewEnvironment(st.frames, Some(st.env));
      ExecBlockMore(f, st.(frames := grown.0), statements, grown.1);
    case Expression(e) => EvalMore(f, st, e);
    case Print(e) => EvalMore(f, st, e);
    case Var(name, initializer) =>
      if initializer.Some? {
        EvalMore(f, st, initializer.value);
      }
    case If(condition, thenBranch, elseBranch) => ExecIfMore(f, st, condition, thenBranch, elseBranch);
    case While(condition, body) => LoopMore(f, st, condition, body);
  }

  lemma {:induction false} ExecIfMore(f: nat, st: State, condition: Ast.Expr, thenBranch: Ast.Stmt, elseBranch: Option<Ast.Stmt>)
    requires Valid(st) && !ExecIf(f, st, condition, thenBranch, elseBranch).flow.OutOfFuel?
    ensures ExecIf(f + 1, st, condition, thenBranch, elseBranch) == ExecIf(f, st, condition, thenBranch, elseBranch)
    decreases f, 1, 0
  {
    var c := Eval(f, st, condition);
    EvalMore(f, st, condition);
    assert Eval(f + 1, st, condition) == c;
    if c.outcome.Ok? {
      if IsTruthy(c.outcome.value) {
        ExecMore(f, c.st, thenBranch);
      } else if elseBranch.Some? {
        ExecMore(f, c.st, elseBranch.value);
      }
    }
  }

  lemma {:induction false} LoopMore(f: nat, st: State, condition: Ast.Expr, body: Ast.Stmt)
    requires Valid(st) && !Loop(f, st, condition, body).flow.OutOfFuel?
    ensures Loop(f + 1, st, condition, body) == Loop(f, st, condition, body)
    decreases f, 2, 0
  {
    var c := Eval(f, st, condition);
    EvalMore(f, st, condition);
    if c.outcome.Ok? && IsTruthy(c.outcome.value) {
      IterateMore(f, c.st, condition, body);
    }
  }

  lemma {:induction false} IterateMore(f: nat, st: State, condition: Ast.Expr, body: Ast.Stmt)
    requires Valid(st) && !Iterate(f, st, condition, body).flow.OutOfFuel?
    ensures Iterate(f + 1, st, condition, body) == Iterate(f, st, condition, body)
    decreases f, 1, 0
  {
    var b := Exec(f, st, body);
    ExecMore(f, st, body);
    if b.flow.Normal? {
      LoopMore(f - 1, b.st, condition, body);
    }
  }

  lemma {:induction false} ExecBlockMore(f: nat, st: State, statements: seq<Ast.Stmt>, env: nat)
    requires Valid(st) && env < |st.frames| && !ExecBlock(f, st, statements, env).flow.OutOfFuel?
    ensures ExecBlock(f + 1, st, statements, env) == ExecBlock(f, st, statements, env)
    decreases f, 1, 0
  {
    ExecSeqMore(f, st.(env := env), statements);
  }

  lemma {:induction false} ExecSeqMore(f: nat, st: State, statements: seq<Ast.Stmt>)
    requires Valid(st) && !ExecSeq(f, st, statements).flow.OutOfFuel?
    ensures ExecSeq(f + 1, st, statements) == ExecSeq(f, st, statements)
    decreases f, 0, |statements|
  {
    if statements != [] {
      var first := Exec(f, st, statements[0]);
      ExecMore(f, st, statements[0]);
      if first.flow.Normal? {
        ExecSeqMore(f, first.st, statements[1..]);
      }
    }
  }

  /** A program that finishes within some fuel has the same result, output
      and state with any larger fuel. */
  lemma {:induction false} FuelIndependent(fuel: nat, extra: nat, statements: seq<Ast.Stmt>, now: int)
    requires !Interpret(fuel, statements, now).flow.OutOfFuel?
    ensures Interpret(fuel + extra, statements, now) == Interpret(fuel, statements, now)
    decreases extra
  {
    if extra > 0 {
      FuelIndependent(fuel, extra - 1, statements, now);
      ExecSeqMore(fuel + extra - 1, Globals(now), statements);
    }
  }
}
