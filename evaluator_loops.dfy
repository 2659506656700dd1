/**
  The evaluator's loops as Go writes them: `evalProgram`, `evalBlockStatement` and
  `evalExpressions` walk their statements or arguments updating a result variable,
  `evalStringOperator`'s `*` fills a buffer, and `extendFunctionEnv` calls `Set` on a
  new tracker once per parameter. Each is proved equal to the recursive definition in
  module `Evaluator`.
 */
module EvaluatorLoops {
  import opened Wrappers
  import opened GoLib
  import opened Ast
  import opened Object
  import opened Tracker
  import E = Evaluator

  /** `evalProgram`'s loop. */
  method EvalProgram(stmts: seq<Stmt>, env: nat, h: Heap, fuel: nat) returns (r: E.Res<Value>)
    requires Closed(h) && env < |h|
    ensures r == E.EvalProgramStatements(stmts, Void, env, h, fuel)
  {
    var result := Void;
    var heap := h;
    for i := 0 to |stmts|
      invariant Closed(heap) && env < |heap| && ValueIn(result, |heap|)
      invariant E.EvalProgramStatements(stmts, Void, env, h, fuel)
             == E.EvalProgramStatements(stmts[i..], result, env, heap, fuel)
    {
      assert stmts[i..][0] == stmts[i] && stmts[i..][1..] == stmts[i + 1..];
      var v := E.EvalStmt(stmts[i], env, heap, fuel);
      if v.Stop? {
        return v;
      }
      heap := v.heap;
      result := v.value;
      if result.ReturnValue? {
        return E.Done(result.inner, heap);
      }
      if result.Error? {
        return v;
      }
    }
    assert stmts[|stmts|..] == [];
    return E.Done(result, heap);
  }

  /** `evalBlockStatement`'s loop. */
  method EvalBlockStatement(stmts: seq<Stmt>, env: nat, h: Heap, fuel: nat) returns (r: E.Res<Value>)
    requires Closed(h) && env < |h|
    ensures r == E.EvalBlockStatements(stmts, Void, env, h, fuel)
  {
    var result := Void;
    var heap := h;
    for i := 0 to |stmts|
      invariant Closed(heap) && env < |heap| && ValueIn(result, |heap|)
      invariant E.EvalBlockStatements(stmts, Void, env, h, fuel)
             == E.EvalBlockStatements(stmts[i..], result, env, heap, fuel)
    {
      assert stmts[i..][0] == stmts[i] && stmts[i..][1..] == stmts[i + 1..];
      var v := E.EvalStmt(stmts[i], env, heap, fuel);
      if v.Stop? {
        return v;
      }
      heap := v.heap;
      result := v.value;
      if !result.Void? {
        if Type(result) == "RETURN_VALUE" || Type(result) == "ERROR" {
          return v;
        }
      }
    }
    assert stmts[|stmts|..] == [];
    return E.Done(result, heap);
  }

  /** `evalExpressions`' loop. */
  method EvalExpressions(exps: seq<Expr>, env: nat, h: Heap, fuel: nat) returns (r: E.Res<seq<Value>>)
    requires Closed(h) && env < |h|
    ensures r == E.EvalExpressions(exps, [], env, h, fuel)
  {
    var result: seq<Value> := [];
    var heap := h;
    for i := 0 to |exps|
      invariant Closed(heap) && env < |heap| && E.AllIn(result, |heap|)
      invariant E.EvalExpressions(exps, [], env, h, fuel)
             == E.EvalExpressions(exps[i..], result, env, heap, fuel)
    {
      assert exps[i..][0] == exps[i] && exps[i..][1..] == exps[i + 1..];
      var evaluated := E.EvalExpr(exps[i], env, heap, fuel);
      if evaluated.Stop? {
        return E.Stop(evaluated.why);
      }
      if E.IsError(evaluated.value) {
        return E.Done([evaluated.value], evaluated.heap);
      }
      E.AllInGrows(result, |heap|, |evaluated.heap|);
      heap := evaluated.heap;
      result := result + [evaluated.value];
    }
    assert exps[|exps|..] == [];
    return E.Done(result, heap);
  }

  /** The buffer loop of the string `*` operator: `n` copies of `s`, none when `n <= 0`. */
  method RepeatString(s: Bytes, n: Int64) returns (out: Bytes)
    ensures out == Repeat(s, n)
  {
    out := [];
    var i := 0;
    while i < n
      invariant 0 <= i && (i == 0 || i <= n)
      invariant out == Repeat(s, i)
    {
      out := out + s;
      i := i + 1;
    }
    if n < 0 {
      assert Repeat(s, i) == Repeat(s, n);
    }
  }

  /** `extendFunctionEnv`: create the enclosed tracker, then `Set` each parameter to the
      argument at its position. */
  method ExtendFunctionEnv(arena: Arena, fn: Value, args: seq<Value>) returns (env: nat)
    requires Closed(arena.frames) && fn.Function? && ValueIn(fn, |arena.frames|)
    requires E.AllIn(args, |arena.frames|) && |fn.parameters| <= |args|
    modifies arena
    ensures Closed(arena.frames)
    ensures (arena.frames, env) == E.ExtendFunctionEnv(fn, args, old(arena.frames))
  {
    ClosedAppend(arena.frames, Some(fn.env));
    E.AllInGrows(args, |arena.frames|, |arena.frames| + 1);
    env := arena.NewEnclosedTracker(fn.env);
    ghost var start := arena.frames;
    for i := 0 to |fn.parameters|
      invariant Closed(arena.frames) && |arena.frames| == |start| && env < |arena.frames|
      invariant E.AllIn(args, |arena.frames|)
      invariant E.BindParameters(start, env, fn.parameters, args)
             == E.BindParameters(arena.frames, env, fn.parameters[i..], args[i..])
    {
      assert fn.parameters[i..][0] == fn.parameters[i] && fn.parameters[i..][1..] == fn.parameters[i + 1..];
      assert args[i..][0] == args[i] && args[i..][1..] == args[i + 1..];
      ClosedBind(arena.frames, env, fn.parameters[i].value, args[i]);
      var _ := arena.Set(env, fn.parameters[i].value, args[i]);
    }
    assert fn.parameters[|fn.parameters|..] == [];
  }
}
