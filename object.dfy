/**
  Runtime values: the object variants, their type tags and their printed forms.
  A function value refers to the environment it was created in by the index of
  that environment's frame (see module `Tracker`), which keeps the value graph
  acyclic even though a function can be stored in its own environment.
 */
module Object {
  import opened Wrappers
  import opened GoLib
  import opened Ast

  /** The object variants. `Void` is Go's nil `Object` interface, which the evaluator
      returns for a `let`, an empty block and a missing expression; every method
      call on it panics. */
  datatype Value =
    | Integer(intValue: Int64)
    | Boolean(boolValue: bool)
    | Nil
    | String(strValue: Bytes)
    | ReturnValue(inner: Value)
    | Error(message: Bytes)
    | Function(parameters: seq<Identifier>, body: Block, env: nat)
    | Void

  /** The shared `TRUE`, `FALSE` and `NIL` objects. Go compares them by identity; every
      boolean the evaluator builds is one of the two, so value equality agrees. */
  const TRUE := Boolean(true)
  const FALSE := Boolean(false)
  const NIL := Nil

  /** `Type()`: the object's type tag. */
  function Type(v: Value): (r: Bytes)
    requires !v.Void?
    ensures r in {"INTEGER", "BOOLEAN", "NIL", "STRING", "RETURN_VALUE", "ERROR", "FUNCTION"}
  {
    match v
    case Integer(_) => "INTEGER"
    case Boolean(_) => "BOOLEAN"
    case Nil => "NIL"
    case String(_) => "STRING"
    case ReturnValue(_) => "RETURN_VALUE"
    case Error(_) => "ERROR"
    case Function(_, _, _) => "FUNCTION"
  }

  /** Two objects have the same type tag exactly when they are the same variant. */
  lemma TypeTagsDistinct(a: Value, b: Value)
    requires !a.Void? && !b.Void?
    ensures Type(a) == Type(b) <==>
      || (a.Integer? && b.Integer?) || (a.Boolean? && b.Boolean?) || (a.Nil? && b.Nil?)
      || (a.String? && b.String?) || (a.ReturnValue? && b.ReturnValue?)
      || (a.Error? && b.Error?) || (a.Function? && b.Function?)
  {
    var ta := Type(a);
    var tb := Type(b);
    if ta == tb {
      assert ta[0] == tb[0] && |ta| == |tb|;
      if ta[0] == 'R' {
        assert ta[1] == tb[1];
      }
    }
  }

  /** An object `Inspect` can print: Go's `ReturnValue.Inspect` calls `Inspect` on the
      wrapped object, which panics when that is nil. */
  predicate Printable(v: Value)
  {
    match v
    case Void => false
    case ReturnValue(w) => Printable(w)
    case _ => true
  }

  /** `Function.Inspect`'s text: the parameters joined by ", " between `func(` and `) {`,
      then the body, then a closing brace on its own line. */
  function FunctionText(params: seq<Bytes>, body: Bytes): Bytes
  {
    "func(" + Join(params, ", ") + ") {\n" + body + "\n}"
  }

  /** `Inspect()`. The `String()` renderings of identifiers and blocks are not part of
      this model; they are the parameters `showIdent` and `showBlock`. */
  function Inspect(v: Value, showIdent: Identifier -> Bytes, showBlock: Block -> Bytes): Bytes
    requires Printable(v)
  {
    match v
    case Integer(n) => Itoa(n)
    case Boolean(b) => if b then "true" else "false"
    case Nil => "nil"
    case String(s) => s
    case ReturnValue(w) => Inspect(w, showIdent, showBlock)
    case Error(m) => m
    case Function(ps, body, _) => FunctionText(Names(ps, showIdent), showBlock(body))
  }

  /** The rendering of each parameter, in order. */
  function Names(ps: seq<Identifier>, showIdent: Identifier -> Bytes): (r: seq<Bytes>)
    ensures |r| == |ps| && forall i | 0 <= i < |ps| :: r[i] == showIdent(ps[i])
  {
    if |ps| == 0 then [] else Names(ps[..|ps| - 1], showIdent) + [showIdent(ps[|ps| - 1])]
  }

  /** An integer prints as its signed decimal text, which reads back as the integer. */
  lemma InspectInteger(n: Int64, showIdent: Identifier -> Bytes, showBlock: Block -> Bytes)
    ensures var s := Inspect(Integer(n), showIdent, showBlock);
      s == Itoa(n) && Atoi(s) == Some(n) && (n < 0 <==> s[0] == '-')
  {
    AtoiItoa(n);
  }

  /** Booleans print as "true"/"false", `NIL` as "nil"; strings and errors print their
      text unchanged; a return value prints as what it wraps, at any depth. */
  lemma {:induction false} InspectScalars(v: Value, showIdent: Identifier -> Bytes, showBlock: Block -> Bytes)
    requires Printable(v)
    ensures v.Boolean? ==> Inspect(v, showIdent, showBlock) == (if v.boolValue then "true" else "false")
    ensures v.Nil? ==> Inspect(v, showIdent, showBlock) == "nil"
    ensures v.String? ==> Inspect(v, showIdent, showBlock) == v.strValue
    ensures v.Error? ==> Inspect(v, showIdent, showBlock) == v.message
    ensures Inspect(v, showIdent, showBlock) == Inspect(Unwrapped(v), showIdent, showBlock)
  {
    if v.ReturnValue? {
      InspectScalars(v.inner, showIdent, showBlock);
    }
  }

  /** The object inside any number of ReturnValue wrappers. */
  function Unwrapped(v: Value): (r: Value)
    ensures !r.ReturnValue?
    ensures Printable(v) ==> Printable(r)
  {
    if v.ReturnValue? then Unwrapped(v.inner) else v
  }

  /** `Function.Inspect`: collect the parameter texts in a loop, then write the pieces to
      a buffer. */
  method InspectFunction(parameters: seq<Identifier>, body: Block,
                         showIdent: Identifier -> Bytes, showBlock: Block -> Bytes)
    returns (out: Bytes)
    ensures out == FunctionText(Names(parameters, showIdent), showBlock(body))
    ensures out == Inspect(Function(parameters, body, 0), showIdent, showBlock)
  {
    var params: seq<Bytes> := [];
    var i := 0;
    while i < |parameters|
      invariant 0 <= i <= |parameters|
      invariant params == Names(parameters[..i], showIdent)
    {
      assert parameters[..i + 1][..i] == parameters[..i];
      params := params + [showIdent(parameters[i])];
      i := i + 1;
    }
    assert parameters[..i] == parameters;
    out := "func";
    out := out + "(";
    out := out + Join(params, ", ");
    out := out + ") {\n";
    out := out + showBlock(body);
    out := out + "\n}";
  }
}
