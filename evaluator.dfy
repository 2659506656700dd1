/**
  The tree-walking evaluator. `Eval` is a family of mutually recursive functions,
  one per kind of node, running in tracker `env` of heap `h` (see module `Tracker`).
  Each call of Go's `Eval` on a sub-node costs one unit of fuel, since a program may
  call functions forever. Go's nil object is `Void`; a Go runtime panic is the
  outcome `Stop(Panic)`.
 */
module Evaluator {
  import opened Wrappers
  import opened GoLib
  import opened Ast
  import opened Object
  import opened Tracker

  /** Why an evaluation ended without a value. `Unmodelled` is the evaluation of a node
      made by a parser handler whose body is not part of this model. */
  datatype Reason = Panic | OutOfFuel | Unmodelled

  /** The outcome of evaluating a node: a value and the heap after it, or a stop. */
  datatype Res<T> = Done(value: T, heap: Heap) | Stop(why: Reason)

  // ---------------------------------------------------------------------
  // Messages
  // ---------------------------------------------------------------------

  function UnknownPrefixMessage(op: Bytes, t: Bytes): Bytes { "[Error]: Unknown operator: " + op + t }
  function MinusMessage(t: Bytes): Bytes { "[Error]: Unknown operator -" + t }
  function NotFoundMessage(name: Bytes): Bytes { "[Error]: Identifier not found: " + name }
  function MismatchMessage(l: Bytes, op: Bytes, r: Bytes): Bytes { "[Error]: Mismatch " + l + " " + op + " " + r }
  function BoolOpMessage(op: Bytes): Bytes { "[Error]: Unknown BOOLEAN " + op + " BOOLEAN" }
  function StringOpMessage(op: Bytes): Bytes { "[Error]: Unknown operator " + op }
  function IntOpMessage(op: Bytes): Bytes { "[Error]: Unknwon operator INTEGER " + op + " INTEGER" }
  function NotAFunctionMessage(t: Bytes): Bytes { "not a function: " + t }

  // ---------------------------------------------------------------------
  // Small helpers
  // ---------------------------------------------------------------------

  /** `nativeBool`: one of the two shared booleans. */
  function NativeBool(b: bool): (r: Value)
    ensures r.Boolean? && r.boolValue == b
  {
    if b then TRUE else FALSE
  }

  /** `isError`: a non-nil object whose tag is ERROR, that is, an Error object
      (`IsErrorByTag`). */
  predicate IsError(v: Value)
  {
    v.Error?
  }

  /** The tag test of `isError` picks out exactly the Error objects. */
  lemma IsErrorByTag(v: Value)
    ensures IsError(v) <==> !v.Void? && Type(v) == "ERROR"
  {
    if !v.Void? && !v.Error? {
      TypeTagsDistinct(v, Error([]));
    }
  }

  /** `isTruthy`: only NIL and FALSE are falsy; any other object, and nil, is truthy. */
  predicate IsTruthy(v: Value)
  {
    if v == NIL then false
    else if v == TRUE then true
    else if v == FALSE then false
    else true
  }

  /** `unwrapReturnValue`: the value inside one ReturnValue wrapper. */
  function UnwrapReturnValue(v: Value): Value
  {
    if v.ReturnValue? then v.inner else v
  }

  /** Only NIL and FALSE are falsy: zero, the empty string, an error and Go nil are all
      truthy. */
  lemma TruthyValues(v: Value)
    ensures IsTruthy(v) <==> v != NIL && v != FALSE
    ensures IsTruthy(Integer(0)) && IsTruthy(String("")) && IsTruthy(Void)
  {
  }

  /** Unwrapping removes exactly one ReturnValue wrapper and leaves any other value as it
      is. */
  lemma UnwrapOnce(v: Value)
    ensures UnwrapReturnValue(ReturnValue(v)) == v
    ensures !v.ReturnValue? ==> UnwrapReturnValue(v) == v
    ensures !UnwrapReturnValue(v).ReturnValue? <==> !v.ReturnValue? || !v.inner.ReturnValue?
  {
  }

  /** The values an operator builds: strings, integers, booleans, NIL and errors. */
  predicate Plain(v: Value)
  {
    v.Integer? || v.Boolean? || v.Nil? || v.String? || v.Error?
  }

  // ---------------------------------------------------------------------
  // Prefix operators
  // ---------------------------------------------------------------------

  /** `evalBangPrefix`. */
  function EvalBangPrefix(right: Value): (r: Value)
    ensures r.Boolean?
  {
    if right == TRUE then FALSE
    else if right == FALSE then TRUE
    else if right == NIL then TRUE
    else FALSE
  }

  /** `evalMinusPrefix`; None is the panic of calling `Type()` on nil. */
  function EvalMinusPrefix(right: Value): (r: Option<Value>)
    ensures r.Some? ==> Plain(r.value)
  {
    if right.Void? then None
    else if !right.Integer? then Some(Error(MinusMessage(Type(right))))
    else Some(Integer(Wrap(-(right.intValue as int))))
  }

  /** `evalPrefixExpression`. */
  function EvalPrefixExpression(op: Bytes, right: Value): (r: Option<Value>)
    ensures r.Some? ==> Plain(r.value)
  {
    if op == "!" then Some(EvalBangPrefix(right))
    else if op == "-" then EvalMinusPrefix(right)
    else if right.Void? then None
    else Some(Error(UnknownPrefixMessage(op, Type(right))))
  }

  // ---------------------------------------------------------------------
  // Infix operators
  // ---------------------------------------------------------------------

  /** `evalIntOperator` on int64 operands; None is the panic of a division by zero. */
  function EvalIntOperator(op: Bytes, l: Int64, r: Int64): (res: Option<Value>)
    ensures res.Some? ==> Plain(res.value)
  {
    if op == "+" then Some(Integer(Wrap(l as int + r as int)))
    else if op == "-" then Some(Integer(Wrap(l as int - r as int)))
    else if op == "*" then Some(Integer(Wrap(l as int * r as int)))
    else if op == "/" then (if r == 0 then None else Some(Integer(Wrap(Quo(l, r)))))
    else if op == "==" then Some(NativeBool(l == r))
    else if op == "!=" then Some(NativeBool(l != r))
    else if op == "<" then Some(NativeBool(l < r))
    else if op == ">" then Some(NativeBool(l > r))
    else if op == "<=" then Some(NativeBool(l <= r))
    else if op == ">=" then Some(NativeBool(l >= r))
    else Some(Error(IntOpMessage(op)))
  }

  /** `evalBoolOperator`. */
  function EvalBoolOperator(op: Bytes, l: bool, r: bool): (res: Value)
    ensures Plain(res)
  {
    if op == "==" then NativeBool(l == r)
    else if op == "!=" then NativeBool(l != r)
    else Error(BoolOpMessage(op))
  }

  /** The text `evalStringOperator` uses for its right operand: a string's text, an
      integer's decimal text, and nothing (the operator yields NIL) for anything else. */
  function StringOperand(right: Value): Option<Bytes>
  {
    match right
    case String(s) => Some(s)
    case Integer(n) => Some(Itoa(n))
    case _ => None
  }

  /** `evalStringOperator` with a string on the left. */
  function EvalStringOperator(op: Bytes, l: Bytes, right: Value): (res: Value)
    ensures Plain(res)
  {
    match StringOperand(right)
    case None => NIL
    case Some(r) =>
      if op == "+" then String(l + r)
      else if op == "*" then
        (match Atoi(r)
         case None => NIL
         case Some(n) => String(Repeat(l, n)))
      else if op == "==" then NativeBool(l == r)
      else if op == "!=" then NativeBool(l != r)
      else Error(StringOpMessage(op))
  }

  /** `evalInfixExpression`; None is a panic: `Type()` called on a nil operand, or an
      integer division by zero. A nil right operand escapes the panic only when the left
      operand is a string. */
  function EvalInfixExpression(op: Bytes, left: Value, right: Value): (r: Option<Value>)
    ensures r.Some? ==> Plain(r.value)
  {
    if left.Void? then None
    else if left.Integer? then
      if right.Void? then None
      else if right.Integer? then EvalIntOperator(op, left.intValue, right.intValue)
      else Some(Error(MismatchMessage(Type(left), op, Type(right))))
    else if left.Boolean? then
      if right.Void? then None
      else if right.Boolean? then Some(EvalBoolOperator(op, left.boolValue, right.boolValue))
      else Some(Error(MismatchMessage(Type(left), op, Type(right))))
    else if left.String? then Some(EvalStringOperator(op, left.strValue, right))
    else if right.Void? then None
    else Some(Error(MismatchMessage(Type(left), op, Type(right))))
  }

  // ---------------------------------------------------------------------
  // Environments
  // ---------------------------------------------------------------------

  /** Every value of `vs` refers to one of the first `n` trackers. */
  predicate AllIn(vs: seq<Value>, n: nat)
  {
    forall i | 0 <= i < |vs| :: ValueIn(vs[i], n)
  }

  lemma AllInGrows(vs: seq<Value>, n: nat, m: nat)
    requires AllIn(vs, n) && n <= m
    ensures AllIn(vs, m)
  {
    forall i | 0 <= i < |vs|
      ensures ValueIn(vs[i], m)
    {
      ValueInGrows(vs[i], n, m);
    }
  }

  /** `evalIdentifier`. */
  function EvalIdentifier(id: Identifier, env: nat, h: Heap): (r: Value)
    requires Closed(h) && env < |h|
    ensures ValueIn(r, |h|)
  {
    LookupInClosed(h, env, id.value);
    match Lookup(h, env, id.value)
    case None => Error(NotFoundMessage(id.value))
    case Some(v) => v
  }

  /** The loop of `extendFunctionEnv`: bind each parameter, in order, to the argument at
      its position in tracker `t`. */
  function BindParameters(h: Heap, t: nat, params: seq<Identifier>, args: seq<Value>): (r: Heap)
    requires Closed(h) && t < |h| && |params| <= |args| && AllIn(args, |h|)
    ensures Closed(r) && |r| == |h|
    ensures forall i | 0 <= i < |h| && i != t :: r[i] == h[i]
    ensures r[t].outer == h[t].outer
    decreases |params|
  {
    if |params| == 0 then h
    else
      ClosedBind(h, t, params[0].value, args[0]);
      BindParameters(Bind(h, t, params[0].value, args[0]).0, t, params[1..], args[1..])
  }

  /** `extendFunctionEnv`: a new tracker enclosed by the function's own environment, with
      the parameters bound. It panics when there are fewer arguments than parameters
      (`applyFunction` checks that first); extra arguments are ignored. */
  function ExtendFunctionEnv(fn: Value, args: seq<Value>, h: Heap): (r: (Heap, nat))
    requires Closed(h) && fn.Function? && ValueIn(fn, |h|) && AllIn(args, |h|)
    requires |fn.parameters| <= |args|
    ensures Closed(r.0) && r.1 == |h| && |r.0| == |h| + 1 && r.0[..|h|] == h
    ensures r.0[r.1].outer == Some(fn.env)
  {
    var e := Enclosed(h, fn.env);
    ClosedAppend(h, Some(fn.env));
    AllInGrows(args, |h|, |e.0|);
    var bound := BindParameters(e.0, e.1, fn.parameters, args);
    assert bound[..|h|] == h by {
      forall i | 0 <= i < |h|
        ensures bound[i] == h[i]
      {
        assert e.0[i] == h[i];
      }
    }
    (bound, e.1)
  }

  // ---------------------------------------------------------------------
  // Eval
  // ---------------------------------------------------------------------

  /** A finished evaluation keeps the heap closed, only adds trackers, and yields a value
      that refers to existing trackers. */
  predicate Fits(h: Heap, r: Res<Value>)
  {
    r.Done? ==> Closed(r.heap) && |h| <= |r.heap| && ValueIn(r.value, |r.heap|)
  }

  predicate FitsAll(h: Heap, r: Res<seq<Value>>)
  {
    r.Done? ==> Closed(r.heap) && |h| <= |r.heap| && AllIn(r.value, |r.heap|)
  }

  /** `Eval` on an expression. */
  function EvalExpr(e: Expr, env: nat, h: Heap, fuel: nat): (r: Res<Value>)
    requires Closed(h) && env < |h|
    ensures Fits(h, r)
    decreases fuel, 0
  {
    if fuel == 0 then Stop(OutOfFuel)
    else match e
      case Missing => Done(Void, h)
      case IdentifierExpr(id) => Done(EvalIdentifier(id, env, h), h)
      case IntegerLiteral(_, n) => Done(Integer(n), h)
      case StringLiteral(_, s) => Done(String(s), h)
      case BooleanLiteral(_, b) => Done(NativeBool(b), h)
      case PrefixExpression(_, op, right) => EvalPrefixNode(op, right, env, h, fuel - 1)
      case InfixExpression(_, left, op, right) => EvalInfixNode(left, op, right, env, h, fuel - 1)
      case IfExpression(_, condition, consequence, alternative) =>
        EvalIfExpression(condition, consequence, alternative, env, h, fuel - 1)
      case FunctionLiteral(_, params, body) => Done(Function(params, body, env), h)
      case CallExpression(_, callee, arguments) => EvalCallNode(callee, arguments, env, h, fuel - 1)
      case Unparsed(_) => Stop(Unmodelled)
  }

  /** The PrefixExpression case of `Eval`: the operand, then the operator. */
  function EvalPrefixNode(op: Bytes, right: Expr, env: nat, h: Heap, fuel: nat): (r: Res<Value>)
    requires Closed(h) && env < |h|
    ensures Fits(h, r)
    decreases fuel, 1
  {
    var rv := EvalExpr(right, env, h, fuel);
    if rv.Stop? || IsError(rv.value) then rv
    else
      match EvalPrefixExpression(op, rv.value)
      case None => Stop(Panic)
      case Some(v) => Done(v, rv.heap)
  }

  /** The InfixExpression case of `Eval`: the left operand, the right one, then the
      operator. */
  function EvalInfixNode(left: Expr, op: Bytes, right: Expr, env: nat, h: Heap, fuel: nat): (r: Res<Value>)
    requires Closed(h) && env < |h|
    ensures Fits(h, r)
    decreases fuel, 1
  {
    var lv := EvalExpr(left, env, h, fuel);
    if lv.Stop? || IsError(lv.value) then lv
    else
      var rv := EvalExpr(right, env, lv.heap, fuel);
      if rv.Stop? || IsError(rv.value) then rv
      else
        match EvalInfixExpression(op, lv.value, rv.value)
        case None => Stop(Panic)
        case Some(v) => Done(v, rv.heap)
  }

  /** The CallExpression case of `Eval`: the callee, the arguments, then the call; a
      single error among the arguments is the result. */
  function EvalCallNode(callee: Expr, arguments: seq<Expr>, env: nat, h: Heap, fuel: nat): (r: Res<Value>)
    requires Closed(h) && env < |h|
    ensures Fits(h, r)
    decreases fuel, |arguments| + 2
  {
    var fv := EvalExpr(callee, env, h, fuel);
    if fv.Stop? || IsError(fv.value) then fv
    else
      var args := EvalExpressions(arguments, [], env, fv.heap, fuel);
      if args.Stop? then Stop(args.why)
      else if |args.value| == 1 && IsError(args.value[0]) then Done(args.value[0], args.heap)
      else
        ValueInGrows(fv.value, |fv.heap|, |args.heap|);
        ApplyFunction(fv.value, args.value, args.heap, fuel)
  }

  /** `evalIfExpression`. */
  function EvalIfExpression(condition: Expr, consequence: Block, alternative: Option<Block>,
                            env: nat, h: Heap, fuel: nat): (r: Res<Value>)
    requires Closed(h) && env < |h|
    ensures Fits(h, r)
    decreases fuel, 1
  {
    var c := EvalExpr(condition, env, h, fuel);
    if c.Stop? || IsError(c.value) then c
    else if IsTruthy(c.value) then EvalBlock(consequence, env, c.heap, fuel)
    else if alternative.Some? then EvalBlock(alternative.value, env, c.heap, fuel)
    else Done(NIL, c.heap)
  }

  /** `evalExpressions`: the arguments left to right after those already in `acc`; the
      first error replaces the whole list by a list holding only that error. */
  function EvalExpressions(es: seq<Expr>, acc: seq<Value>, env: nat, h: Heap, fuel: nat): (r: Res<seq<Value>>)
    requires Closed(h) && env < |h| && AllIn(acc, |h|)
    ensures FitsAll(h, r)
    decreases fuel, |es| + 1
  {
    if |es| == 0 then Done(acc, h)
    else
      var v := EvalExpr(es[0], env, h, fuel);
      if v.Stop? then Stop(v.why)
      else if IsError(v.value) then Done([v.value], v.heap)
      else
        AllInGrows(acc, |h|, |v.heap|);
        EvalExpressions(es[1..], acc + [v.value], env, v.heap, fuel)
  }

  /** `applyFunction`. */
  function ApplyFunction(fn: Value, args: seq<Value>, h: Heap, fuel: nat): (r: Res<Value>)
    requires Closed(h) && ValueIn(fn, |h|) && AllIn(args, |h|)
    ensures Fits(h, r)
    decreases fuel, 1
  {
    if !fn.Function? then
      if fn.Void? then Stop(Panic) else Done(Error(NotAFunctionMessage(Type(fn))), h)
    else if |args| < |fn.parameters| then Stop(Panic)
    else
      var ext := ExtendFunctionEnv(fn, args, h);
      var body := EvalBlock(fn.body, ext.1, ext.0, fuel);
      if body.Stop? then body else Done(UnwrapReturnValue(body.value), body.heap)
  }

  /** `Eval` on a statement. A nil `*LetStatement` panics when its value is read. */
  function EvalStmt(s: Stmt, env: nat, h: Heap, fuel: nat): (r: Res<Value>)
    requires Closed(h) && env < |h|
    ensures Fits(h, r)
    decreases fuel, 0
  {
    if fuel == 0 then Stop(OutOfFuel)
    else match s
      case NilLet => Stop(Panic)
      case ExpressionStatement(_, e) => EvalExpr(e, env, h, fuel - 1)
      case ReturnStatement(_, e) =>
        var v := EvalExpr(e, env, h, fuel - 1);
        if v.Stop? || IsError(v.value) then v else Done(ReturnValue(v.value), v.heap)
      case LetStatement(_, name, e) =>
        var v := EvalExpr(e, env, h, fuel - 1);
        if v.Stop? || IsError(v.value) then v
        else
          ClosedBind(v.heap, env, name.value, v.value);
          Done(Void, Bind(v.heap, env, name.value, v.value).0)
  }

  /** `Eval` on a block statement. */
  function EvalBlock(b: Block, env: nat, h: Heap, fuel: nat): (r: Res<Value>)
    requires Closed(h) && env < |h|
    ensures Fits(h, r)
    decreases fuel, 0
  {
    if fuel == 0 then Stop(OutOfFuel) else EvalBlockStatements(b.statements, Void, env, h, fuel - 1)
  }

  /** `evalBlockStatement`'s loop after the statements that produced `last`: it stops at the
      first ReturnValue or Error and yields it still wrapped. */
  function EvalBlockStatements(ss: seq<Stmt>, last: Value, env: nat, h: Heap, fuel: nat): (r: Res<Value>)
    requires Closed(h) && env < |h| && ValueIn(last, |h|)
    ensures Fits(h, r)
    decreases fuel, |ss| + 1
  {
    if |ss| == 0 then Done(last, h)
    else
      var v := EvalStmt(ss[0], env, h, fuel);
      if v.Stop? || v.value.ReturnValue? || v.value.Error? then v
      else EvalBlockStatements(ss[1..], v.value, env, v.heap, fuel)
  }

  /** `Eval` on a program. */
  function EvalProgram(p: Program, env: nat, h: Heap, fuel: nat): (r: Res<Value>)
    requires Closed(h) && env < |h|
    ensures Fits(h, r)
  {
    if fuel == 0 then Stop(OutOfFuel) else EvalProgramStatements(p.statements, Void, env, h, fuel - 1)
  }

  /** `evalProgram`'s loop after the statements that produced `last`: it stops at the first
      ReturnValue, which it unwraps, or at the first Error. */
  function EvalProgramStatements(ss: seq<Stmt>, last: Value, env: nat, h: Heap, fuel: nat): (r: Res<Value>)
    requires Closed(h) && env < |h| && ValueIn(last, |h|)
    ensures Fits(h, r)
    decreases |ss|
  {
    if |ss| == 0 then Done(last, h)
    else
      var v := EvalStmt(ss[0], env, h, fuel);
      if v.Stop? then v
      else if v.value.ReturnValue? then Done(v.value.inner, v.heap)
      else if v.value.Error? then v
      else EvalProgramStatements(ss[1..], v.value, env, v.heap, fuel)
  }
}
