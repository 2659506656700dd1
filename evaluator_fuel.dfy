/**
  Fuel only bounds how deep evaluation may go: an evaluation that finishes with some
  fuel (with a value, a panic, or on an unmodelled node) finishes the same way with
  any larger amount.
 */
module EvaluatorFuel {
  import opened Wrappers
  import opened GoLib
  import opened Token
  import opened Ast
  import opened Object
  import opened Tracker
  import opened Evaluator

  /** The evaluation did not run out of fuel. */
  predicate Finished<T>(r: Res<T>)
  {
    !(r.Stop? && r.why == OutOfFuel)
  }

  lemma {:induction false} ExprFuel(e: Expr, env: nat, h: Heap, f: nat, g: nat)
    requires Closed(h) && env < |h| && f <= g
    requires Finished(EvalExpr(e, env, h, f))
    ensures EvalExpr(e, env, h, g) == EvalExpr(e, env, h, f)
    decreases f, 1
  {
    assert f > 0;
    match e
    case PrefixExpression(_, op, right) => PrefixNodeFuel(op, right, env, h, f - 1, g - 1);
    case InfixExpression(_, left, op, right) => InfixNodeFuel(left, op, right, env, h, f - 1, g - 1);
    case IfExpression(_, c, cons, alt) => IfFuel(c, cons, alt, env, h, f - 1, g - 1);
    case CallExpression(_, callee, arguments) => CallNodeFuel(callee, arguments, env, h, f - 1, g - 1);
    case _ =>
  }

  lemma {:induction false} PrefixNodeFuel(op: Bytes, right: Expr, env: nat, h: Heap, f: nat, g: nat)
    requires Closed(h) && env < |h| && f <= g
    requires Finished(EvalPrefixNode(op, right, env, h, f))
    ensures EvalPrefixNode(op, right, env, h, g) == EvalPrefixNode(op, right, env, h, f)
    decreases f, 2
  {
    ExprFuel(right, env, h, f, g);
  }

  lemma {:induction false} InfixNodeFuel(left: Expr, op: Bytes, right: Expr, env: nat, h: Heap, f: nat, g: nat)
    requires Closed(h) && env < |h| && f <= g
    requires Finished(EvalInfixNode(left, op, right, env, h, f))
    ensures EvalInfixNode(left, op, right, env, h, g) == EvalInfixNode(left, op, right, env, h, f)
    decreases f, 2
  {
    InfixOperandsFinished(left, op, right, env, h, f);
    ExprFuel(left, env, h, f, g);
    var lv := EvalExpr(left, env, h, f);
    if lv.Done? && !IsError(lv.value) {
      ExprFuel(right, env, lv.heap, f, g);
    }
    InfixSameOperands(left, op, right, env, h, f, g);
  }

  /** An infix expression that finishes has operands that finish. */
  lemma InfixOperandsFinished(left: Expr, op: Bytes, right: Expr, env: nat, h: Heap, f: nat)
    requires Closed(h) && env < |h|
    requires Finished(EvalInfixNode(left, op, right, env, h, f))
    ensures Finished(EvalExpr(left, env, h, f))
    ensures var lv := EvalExpr(left, env, h, f);
      lv.Done? && !IsError(lv.value) ==> Finished(EvalExpr(right, env, lv.heap, f))
  {
  }

  /** Two fuel amounts that agree on both operands agree on the infix expression. */
  lemma InfixSameOperands(left: Expr, op: Bytes, right: Expr, env: nat, h: Heap, f: nat, g: nat)
    requires Closed(h) && env < |h|
    requires EvalExpr(left, env, h, g) == EvalExpr(left, env, h, f)
    requires var lv := EvalExpr(left, env, h, f);
      lv.Done? && !IsError(lv.value) ==> EvalExpr(right, env, lv.heap, g) == EvalExpr(right, env, lv.heap, f)
    ensures EvalInfixNode(left, op, right, env, h, g) == EvalInfixNode(left, op, right, env, h, f)
  {
  }

  lemma {:induction false} CallNodeFuel(callee: Expr, arguments: seq<Expr>, env: nat, h: Heap, f: nat, g: nat)
    requires Closed(h) && env < |h| && f <= g
    requires Finished(EvalCallNode(callee, arguments, env, h, f))
    ensures EvalCallNode(callee, arguments, env, h, g) == EvalCallNode(callee, arguments, env, h, f)
    decreases f, |arguments| + 3
  {
    ExprFuel(callee, env, h, f, g);
    var fv := EvalExpr(callee, env, h, f);
    if fv.Done? && !IsError(fv.value) {
      ExpressionsFuel(arguments, [], env, fv.heap, f, g);
      var args := EvalExpressions(arguments, [], env, fv.heap, f);
      if args.Done? && !(|args.value| == 1 && IsError(args.value[0])) {
        ValueInGrows(fv.value, |fv.heap|, |args.heap|);
        ApplyFuel(fv.value, args.value, args.heap, f, g);
      }
    }
  }

  lemma {:induction false} IfFuel(c: Expr, cons: Block, alt: Option<Block>, env: nat, h: Heap, f: nat, g: nat)
    requires Closed(h) && env < |h| && f <= g
    requires Finished(EvalIfExpression(c, cons, alt, env, h, f))
    ensures EvalIfExpression(c, cons, alt, env, h, g) == EvalIfExpression(c, cons, alt, env, h, f)
    decreases f, 2
  {
    ExprFuel(c, env, h, f, g);
    var cv := EvalExpr(c, env, h, f);
    if cv.Done? && !IsError(cv.value) {
      if IsTruthy(cv.value) {
        BlockFuel(cons, env, cv.heap, f, g);
      } else if alt.Some? {
        BlockFuel(alt.value, env, cv.heap, f, g);
      }
    }
  }

  lemma {:induction false} ExpressionsFuel(es: seq<Expr>, acc: seq<Value>, env: nat, h: Heap, f: nat, g: nat)
    requires Closed(h) && env < |h| && AllIn(acc, |h|) && f <= g
    requires Finished(EvalExpressions(es, acc, env, h, f))
    ensures EvalExpressions(es, acc, env, h, g) == EvalExpressions(es, acc, env, h, f)
    decreases f, |es| + 2
  {
    if |es| > 0 {
      ExprFuel(es[0], env, h, f, g);
      var v := EvalExpr(es[0], env, h, f);
      if v.Done? && !IsError(v.value) {
        AllInGrows(acc, |h|, |v.heap|);
        ExpressionsFuel(es[1..], acc + [v.value], env, v.heap, f, g);
      }
    }
  }

  lemma {:induction false} ApplyFuel(fn: Value, args: seq<Value>, h: Heap, f: nat, g: nat)
    requires Closed(h) && ValueIn(fn, |h|) && AllIn(args, |h|) && f <= g
    requires Finished(ApplyFunction(fn, args, h, f))
    ensures ApplyFunction(fn, args, h, g) == ApplyFunction(fn, args, h, f)
    decreases f, 2
  {
    if fn.Function? && |args| >= |fn.parameters| {
      var ext := ExtendFunctionEnv(fn, args, h);
      BlockFuel(fn.body, ext.1, ext.0, f, g);
    }
  }

  lemma {:induction false} StmtFuel(s: Stmt, env: nat, h: Heap, f: nat, g: nat)
    requires Closed(h) && env < |h| && f <= g
    requires Finished(EvalStmt(s, env, h, f))
    ensures EvalStmt(s, env, h, g) == EvalStmt(s, env, h, f)
    decreases f, 1
  {
    assert f > 0;
    match s
    case NilLet =>
    case ExpressionStatement(_, e) => ExprFuel(e, env, h, f - 1, g - 1);
    case ReturnStatement(_, e) => ExprFuel(e, env, h, f - 1, g - 1);
    case LetStatement(_, _, e) => ExprFuel(e, env, h, f - 1, g - 1);
  }

  lemma {:induction false} BlockFuel(b: Block, env: nat, h: Heap, f: nat, g: nat)
    requires Closed(h) && env < |h| && f <= g
    requires Finished(EvalBlock(b, env, h, f))
    ensures EvalBlock(b, env, h, g) == EvalBlock(b, env, h, f)
    decreases f, 0
  {
    BlockStatementsFuel(b.statements, Void, env, h, f - 1, g - 1);
  }

  lemma {:induction false} BlockStatementsFuel(ss: seq<Stmt>, last: Value, env: nat, h: Heap, f: nat, g: nat)
    requires Closed(h) && env < |h| && ValueIn(last, |h|) && f <= g
    requires Finished(EvalBlockStatements(ss, last, env, h, f))
    ensures EvalBlockStatements(ss, last, env, h, g) == EvalBlockStatements(ss, last, env, h, f)
    decreases f, |ss| + 2
  {
    if |ss| > 0 {
      StmtFuel(ss[0], env, h, f, g);
      var v := EvalStmt(ss[0], env, h, f);
      if v.Done? && !v.value.ReturnValue? && !v.value.Error? {
        BlockStatementsFuel(ss[1..], v.value, env, v.heap, f, g);
      }
    }
  }

  lemma {:induction false} ProgramStatementsFuel(ss: seq<Stmt>, last: Value, env: nat, h: Heap, f: nat, g: nat)
    requires Closed(h) && env < |h| && ValueIn(last, |h|) && f <= g
    requires Finished(EvalProgramStatements(ss, last, env, h, f))
    ensures EvalProgramStatements(ss, last, env, h, g) == EvalProgramStatements(ss, last, env, h, f)
    decreases |ss|
  {
    if |ss| > 0 {
      StmtFuel(ss[0], env, h, f, g);
      var v := EvalStmt(ss[0], env, h, f);
      if v.Done? && !v.value.ReturnValue? && !v.value.Error? {
        ProgramStatementsFuel(ss[1..], v.value, env, v.heap, f, g);
      }
    }
  }

  /** A program that finishes with some fuel finishes the same way with more. */
  lemma ProgramFuel(p: Program, env: nat, h: Heap, f: nat, g: nat)
    requires Closed(h) && env < |h| && f <= g
    requires Finished(EvalProgram(p, env, h, f))
    ensures EvalProgram(p, env, h, g) == EvalProgram(p, env, h, f)
  {
    ProgramStatementsFuel(p.statements, Void, env, h, f - 1, g - 1);
  }
}
