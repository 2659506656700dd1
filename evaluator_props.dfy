/**
  Properties of evaluation: how errors and return values travel, what `let`, `if`
  and function calls do to the trackers, and how the parser's return statements
  evaluate.
 */
module EvaluatorProps {
  import opened Wrappers
  import opened GoLib
  import opened Token
  import opened Ast
  import opened Object
  import opened Tracker
  import opened Evaluator

  // ---------------------------------------------------------------------
  // Errors
  // ---------------------------------------------------------------------

  /** An error from an operand is the value of the whole expression: the prefix operand,
      the left then the right infix operand, the callee, and the condition of an `if`;
      nothing after the failing operand is evaluated (the heap is the one it left). */
  lemma OperandErrorsShortCircuit(e: Expr, env: nat, h: Heap, fuel: nat)
    requires Closed(h) && env < |h| && fuel > 0
    ensures e.PrefixExpression? ==>
      var rv := EvalExpr(e.right, env, h, fuel - 1);
      rv.Done? && IsError(rv.value) ==> EvalExpr(e, env, h, fuel) == rv
    ensures e.InfixExpression? ==>
      var lv := EvalExpr(e.left, env, h, fuel - 1);
      && (lv.Done? && IsError(lv.value) ==> EvalExpr(e, env, h, fuel) == lv)
      && (lv.Done? && !IsError(lv.value) ==>
            var rv := EvalExpr(e.right, env, lv.heap, fuel - 1);
            rv.Done? && IsError(rv.value) ==> EvalExpr(e, env, h, fuel) == rv)
    ensures e.CallExpression? ==>
      var fv := EvalExpr(e.callee, env, h, fuel - 1);
      fv.Done? && IsError(fv.value) ==> EvalExpr(e, env, h, fuel) == fv
    ensures e.IfExpression? && fuel > 1 ==>
      var c := EvalExpr(e.condition, env, h, fuel - 1);
      c.Done? && IsError(c.value) ==> EvalExpr(e, env, h, fuel) == c
  {
  }

  /** An error from the value of a `return` or a `let` is the statement's value; the
      `let` then binds nothing. */
  lemma StatementErrorsShortCircuit(s: Stmt, env: nat, h: Heap, fuel: nat)
    requires Closed(h) && env < |h| && fuel > 0
    ensures s.ReturnStatement? ==>
      var v := EvalExpr(s.returnValue, env, h, fuel - 1);
      v.Done? && IsError(v.value) ==> EvalStmt(s, env, h, fuel) == v
    ensures s.LetStatement? ==>
      var v := EvalExpr(s.value, env, h, fuel - 1);
      v.Done? && IsError(v.value) ==> EvalStmt(s, env, h, fuel) == v
  {
  }

  predicate NoErrors(vs: seq<Value>)
  {
    forall i | 0 <= i < |vs| :: !IsError(vs[i])
  }

  /** Arguments are evaluated left to right: the result is either one error-free value per
      argument, in order after those already collected, or a list holding only the first
      error. */
  lemma {:induction false} ArgumentsOrErrors(es: seq<Expr>, acc: seq<Value>, env: nat, h: Heap, fuel: nat)
    requires Closed(h) && env < |h| && AllIn(acc, |h|) && NoErrors(acc)
    ensures var r := EvalExpressions(es, acc, env, h, fuel);
      r.Done? ==>
        || (|r.value| == |acc| + |es| && r.value[..|acc|] == acc && NoErrors(r.value))
        || (|r.value| == 1 && IsError(r.value[0]))
    decreases |es|
  {
    if |es| > 0 {
      var v := EvalExpr(es[0], env, h, fuel);
      if v.Done? && !IsError(v.value) {
        AllInGrows(acc, |h|, |v.heap|);
        var acc2 := acc + [v.value];
        ArgumentsOrErrors(es[1..], acc2, env, v.heap, fuel);
        var r := EvalExpressions(es[1..], acc2, env, v.heap, fuel);
        if r.Done? && |r.value| == |acc2| + |es| - 1 && r.value[..|acc2|] == acc2 {
          assert r.value[..|acc|] == acc2[..|acc|] == acc;
        }
      }
    }
  }

  // ---------------------------------------------------------------------
  // Return values
  // ---------------------------------------------------------------------

  /** A block stops at a statement that returns or fails, still wrapped, whatever follows;
      a program does the same but unwraps a return value. */
  lemma StopsAtReturnOrError(s: Stmt, rest: seq<Stmt>, last: Value, env: nat, h: Heap, fuel: nat)
    requires Closed(h) && env < |h| && ValueIn(last, |h|)
    ensures var v := EvalStmt(s, env, h, fuel);
      v.Done? && (v.value.ReturnValue? || v.value.Error?) ==>
        && EvalBlockStatements([s] + rest, last, env, h, fuel) == v
        && EvalProgramStatements([s] + rest, last, env, h, fuel)
           == Done(UnwrapReturnValue(v.value), v.heap)
  {
    assert ([s] + rest)[0] == s && ([s] + rest)[1..] == rest;
  }

  /** A statement that yields an ordinary value hands over to the next one, with that value
      as the result so far. */
  lemma ContinuesAfterValue(s: Stmt, rest: seq<Stmt>, last: Value, env: nat, h: Heap, fuel: nat)
    requires Closed(h) && env < |h| && ValueIn(last, |h|)
    ensures var v := EvalStmt(s, env, h, fuel);
      v.Done? && !v.value.ReturnValue? && !v.value.Error? ==>
        && EvalBlockStatements([s] + rest, last, env, h, fuel)
           == EvalBlockStatements(rest, v.value, env, v.heap, fuel)
        && EvalProgramStatements([s] + rest, last, env, h, fuel)
           == EvalProgramStatements(rest, v.value, env, v.heap, fuel)
  {
    assert ([s] + rest)[0] == s && ([s] + rest)[1..] == rest;
  }

  /** The parser never fills in a return statement's value, so such a statement evaluates
      to a return value wrapping nil, and a program that starts with one yields nil. */
  lemma ParsedReturnYieldsNil(tok: Token, rest: seq<Stmt>, env: nat, h: Heap, fuel: nat)
    requires Closed(h) && env < |h| && fuel >= 3
    ensures EvalStmt(ReturnStatement(tok, Missing), env, h, fuel - 1) == Done(ReturnValue(Void), h)
    ensures EvalProgram(Program([ReturnStatement(tok, Missing)] + rest), env, h, fuel) == Done(Void, h)
  {
    StopsAtReturnOrError(ReturnStatement(tok, Missing), rest, Void, env, h, fuel - 1);
  }

  // ---------------------------------------------------------------------
  // Conditionals
  // ---------------------------------------------------------------------

  /** `if` evaluates the consequence exactly when the condition is truthy, otherwise the
      alternative, and yields NIL when there is none. */
  lemma IfChoosesBranch(condition: Expr, consequence: Block, alternative: Option<Block>,
                        env: nat, h: Heap, fuel: nat)
    requires Closed(h) && env < |h|
    ensures var c := EvalExpr(condition, env, h, fuel);
      c.Done? && !IsError(c.value) ==>
        EvalIfExpression(condition, consequence, alternative, env, h, fuel)
        == if IsTruthy(c.value) then EvalBlock(consequence, env, c.heap, fuel)
           else if alternative.Some? then EvalBlock(alternative.value, env, c.heap, fuel)
           else Done(NIL, c.heap)
  {
  }

  // ---------------------------------------------------------------------
  // Bindings
  // ---------------------------------------------------------------------

  /** `let` binds its value in the current tracker only and yields nil: the name then looks
      up to the value, every other name looks up as before, and every other tracker is
      unchanged. */
  lemma LetBindsInCurrentTracker(tok: Token, name: Identifier, e: Expr, env: nat, h: Heap, fuel: nat, other: Bytes)
    requires Closed(h) && env < |h| && fuel > 0
    ensures var v := EvalExpr(e, env, h, fuel - 1);
      var r := EvalStmt(LetStatement(tok, name, e), env, h, fuel);
      v.Done? && !IsError(v.value) ==>
        && r.Done? && r.value == Void && |r.heap| == |v.heap|
        && Lookup(r.heap, env, name.value) == Some(v.value)
        && (other != name.value ==> Lookup(r.heap, env, other) == Lookup(v.heap, env, other))
        && (forall i | 0 <= i < |v.heap| && i != env :: r.heap[i] == v.heap[i])
        && r.heap[env].outer == v.heap[env].outer
  {
    var v := EvalExpr(e, env, h, fuel - 1);
    if v.Done? && !IsError(v.value) {
      LookupAfterBind(v.heap, env, name.value, v.value, other);
    }
  }

  /** An identifier evaluates to its innermost binding along the tracker chain, and to an
      error naming it when no tracker binds it. */
  lemma IdentifierLookup(id: Identifier, env: nat, h: Heap)
    requires Closed(h) && env < |h|
    ensures Lookup(h, env, id.value).Some? ==> EvalIdentifier(id, env, h) == Lookup(h, env, id.value).value
    ensures Lookup(h, env, id.value).None? ==>
      && EvalIdentifier(id, env, h) == Error(NotFoundMessage(id.value))
      && forall i | 0 <= i < |Chain(h, env)| :: id.value !in h[Chain(h, env)[i]].store
  {
    LookupAlongChain(h, env, id.value);
  }

  /** `let x = e; x` yields the value of `e` (unwrapped, if it is a return value) with `x`
      bound to it. */
  lemma LetThenRead(tok: Token, x: Identifier, e: Expr, env: nat, h: Heap, fuel: nat)
    requires Closed(h) && env < |h| && fuel >= 2
    ensures var v := EvalExpr(e, env, h, fuel - 1);
      v.Done? && !IsError(v.value) ==>
        var h1 := Bind(v.heap, env, x.value, v.value).0;
        EvalProgramStatements([LetStatement(tok, x, e), ExpressionStatement(tok, IdentifierExpr(x))], Void, env, h, fuel)
        == Done(UnwrapReturnValue(v.value), h1)
  {
    var v := EvalExpr(e, env, h, fuel - 1);
    if v.Done? && !IsError(v.value) {
      var s1 := LetStatement(tok, x, e);
      var s2 := ExpressionStatement(tok, IdentifierExpr(x));
      var h1 := Bind(v.heap, env, x.value, v.value).0;
      LookupAfterBind(v.heap, env, x.value, v.value, x.value);
      ClosedBind(v.heap, env, x.value, v.value);
      assert EvalStmt(s1, env, h, fuel) == Done(Void, h1);
      assert EvalExpr(IdentifierExpr(x), env, h1, fuel - 1) == Done(v.value, h1);
      assert EvalStmt(s2, env, h1, fuel) == Done(v.value, h1);
      ContinuesAfterValue(s1, [s2], Void, env, h, fuel);
      assert [s2] == [s2] + [];
      if v.value.ReturnValue? || v.value.Error? {
        StopsAtReturnOrError(s2, [], Void, env, h1, fuel);
      } else {
        ContinuesAfterValue(s2, [], Void, env, h1, fuel);
      }
    }
  }

  // ---------------------------------------------------------------------
  // Function calls
  // ---------------------------------------------------------------------

  /** No two parameters share a name. */
  predicate DistinctNames(ps: seq<Identifier>)
  {
    forall i, j | 0 <= i < j < |ps| :: ps[i].value != ps[j].value
  }

  /** Binding parameters writes exactly their names into tracker `t`, each to the argument
      at its position. */
  lemma {:induction false} BindParametersStore(h: Heap, t: nat, ps: seq<Identifier>, args: seq<Value>, name: Bytes)
    requires Closed(h) && t < |h| && |ps| <= |args| && AllIn(args, |h|) && DistinctNames(ps)
    ensures var st := BindParameters(h, t, ps, args)[t].store;
      && (forall i | 0 <= i < |ps| && ps[i].value == name :: name in st && st[name] == args[i])
      && ((forall i | 0 <= i < |ps| :: ps[i].value != name) ==>
            (name in st <==> name in h[t].store) && (name in st ==> st[name] == h[t].store[name]))
    decreases |ps|
  {
    if |ps| > 0 {
      var h1 := Bind(h, t, ps[0].value, args[0]).0;
      ClosedBind(h, t, ps[0].value, args[0]);
      assert DistinctNames(ps[1..]) by {
        forall i, j | 0 <= i < j < |ps| - 1
          ensures ps[1..][i].value != ps[1..][j].value
        {
          assert ps[1..][i] == ps[i + 1] && ps[1..][j] == ps[j + 1];
        }
      }
      BindParametersStore(h1, t, ps[1..], args[1..], name);
      var st := BindParameters(h, t, ps, args)[t].store;
      assert st == BindParameters(h1, t, ps[1..], args[1..])[t].store;
      forall i | 0 <= i < |ps| && ps[i].value == name
        ensures name in st && st[name] == args[i]
      {
        if i > 0 {
          assert ps[1..][i - 1] == ps[i] && args[1..][i - 1] == args[i];
        } else {
          forall j | 0 <= j < |ps| - 1
            ensures ps[1..][j].value != name
          {
            assert ps[1..][j] == ps[j + 1];
          }
        }
      }
      if forall i | 0 <= i < |ps| :: ps[i].value != name {
        forall j | 0 <= j < |ps| - 1
          ensures ps[1..][j].value != name
        {
          assert ps[1..][j] == ps[j + 1];
        }
        assert ps[0].value != name;
      }
    }
  }

  /** The body of a called function runs in a new tracker whose outer tracker is the
      function's own environment: each parameter looks up to the argument at its position,
      and every other name looks up as it does in the defining environment. */
  lemma ParametersBound(fn: Value, args: seq<Value>, h: Heap, name: Bytes)
    requires Closed(h) && fn.Function? && ValueIn(fn, |h|) && AllIn(args, |h|)
    requires |fn.parameters| <= |args| && DistinctNames(fn.parameters)
    ensures var ext := ExtendFunctionEnv(fn, args, h);
      && ext.1 == |h| && ext.0[ext.1].outer == Some(fn.env)
      && (forall i | 0 <= i < |fn.parameters| && fn.parameters[i].value == name ::
            Lookup(ext.0, ext.1, name) == Some(args[i]))
      && ((forall i | 0 <= i < |fn.parameters| :: fn.parameters[i].value != name) ==>
            Lookup(ext.0, ext.1, name) == Lookup(h, fn.env, name))
  {
    var e := Enclosed(h, fn.env);
    ClosedAppend(h, Some(fn.env));
    AllInGrows(args, |h|, |e.0|);
    BindParametersStore(e.0, e.1, fn.parameters, args, name);
    var ext := ExtendFunctionEnv(fn, args, h);
    assert ext.0 == BindParameters(e.0, e.1, fn.parameters, args);
    if forall i | 0 <= i < |fn.parameters| :: fn.parameters[i].value != name {
      assert name !in ext.0[ext.1].store;
      LookupExtend(h, ext.0, fn.env, name);
    }
  }

  /** Calling something that is not a function is an error naming its type; calling nil
      panics, and so does passing fewer arguments than there are parameters. Otherwise
      the body runs in a new tracker enclosed by the function's own, and a value it
      returns is unwrapped once. */
  lemma CallOutcomes(fn: Value, args: seq<Value>, h: Heap, fuel: nat)
    requires Closed(h) && ValueIn(fn, |h|) && AllIn(args, |h|)
    ensures !fn.Function? && !fn.Void? ==>
      ApplyFunction(fn, args, h, fuel) == Done(Error(NotAFunctionMessage(Type(fn))), h)
    ensures fn.Void? ==> ApplyFunction(fn, args, h, fuel) == Stop(Panic)
    ensures fn.Function? && |args| < |fn.parameters| ==> ApplyFunction(fn, args, h, fuel) == Stop(Panic)
    ensures fn.Function? && |fn.parameters| <= |args| ==>
      var ext := ExtendFunctionEnv(fn, args, h);
      var b := EvalBlock(fn.body, ext.1, ext.0, fuel);
      && ext.0[ext.1].outer == Some(fn.env)
      && ApplyFunction(fn, args, h, fuel) == (if b.Stop? then b else Done(UnwrapReturnValue(b.value), b.heap))
  {
  }

  /** The identity function `fn(x) { x }` returns its argument, unwrapped once if it is a
      return value. */
  lemma IdentityFunction(tok: Token, x: Identifier, v: Value, env: nat, h: Heap, fuel: nat)
    requires Closed(h) && env < |h| && ValueIn(v, |h|) && fuel >= 3
    ensures var fn := Value.Function([x], Block(tok, [ExpressionStatement(tok, IdentifierExpr(x))]), env);
      var r := ApplyFunction(fn, [v], h, fuel);
      r.Done? && r.value == UnwrapReturnValue(v)
  {
    var s := ExpressionStatement(tok, IdentifierExpr(x));
    var fn := Value.Function([x], Block(tok, [s]), env);
    assert AllIn([v], |h|);
    ParametersBound(fn, [v], h, x.value);
    var ext := ExtendFunctionEnv(fn, [v], h);
    assert Lookup(ext.0, ext.1, x.value) == Some(v);
    assert EvalExpr(IdentifierExpr(x), ext.1, ext.0, fuel - 2) == Done(v, ext.0);
    assert EvalStmt(s, ext.1, ext.0, fuel - 1) == Done(v, ext.0);
    assert [s] == [s] + [];
    if v.ReturnValue? || v.Error? {
      StopsAtReturnOrError(s, [], Void, ext.1, ext.0, fuel - 1);
    } else {
      ContinuesAfterValue(s, [], Void, ext.1, ext.0, fuel - 1);
    }
    assert EvalBlock(Block(tok, [s]), ext.1, ext.0, fuel) == Done(v, ext.0);
  }
}
