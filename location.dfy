/**
 * Where an expression is evaluated: inside a function (its own expression
 * arena, locals and parameters) or in the global context (the module's
 * constant-expression arena, with no locals or parameters).
 */
module Locations {
  import opened Ir
  import opened Native
  import opened State

  datatype Location =
    | FunctionState(srcFunction: Function, locals: seq<(Value, Handle)>, params: seq<(Value, Handle)>)
    | Global

  /** `get_exprs`: the expression arena handles refer to. */
  function GetExprs(src: Src, loc: Location): (r: seq<Spanned<Expression>>)
    ensures loc.FunctionState? ==> r == loc.srcFunction.expressions
    ensures loc.Global? ==> r == src.constExpressions
  {
    match loc
    case FunctionState(f, _, _) => f.expressions
    case Global => src.constExpressions
  }

  /** `get_locals`: the global context has none, and asking is fatal. */
  function GetLocals(loc: Location): (r: Outcome<seq<(Value, Handle)>>)
    ensures r.Ok? <==> loc.FunctionState?
    ensures r.Ok? ==> r.value == loc.locals
    ensures !r.Ok? ==> r == Panic(GlobalLocals)
  {
    match loc
    case FunctionState(_, locals, _) => Ok(locals)
    case Global => Panic(GlobalLocals)
  }

  /** `get_params`: the global context has none, and asking is fatal. */
  function GetParams(loc: Location): (r: Outcome<seq<(Value, Handle)>>)
    ensures r.Ok? <==> loc.FunctionState?
    ensures r.Ok? ==> r.value == loc.params
    ensures !r.Ok? ==> r == Panic(GlobalParams)
  {
    match loc
    case FunctionState(_, _, params) => Ok(params)
    case Global => Panic(GlobalParams)
  }

  /** A function location ranks above the global one (a constant leads from the first to the second). */
  function Rank(loc: Location): nat
  {
    if loc.Global? then 0 else 1
  }

  /**
   * A well-formed location against a type arena of `n` entries: the function
   * is well-formed and its locals and parameters have existing types.
   */
  ghost predicate LocWf(src: Src, loc: Location, n: nat)
  {
    match loc
    case FunctionState(f, locals, params) =>
      && FunctionWf(f, src, n)
      && (forall i :: 0 <= i < |locals| ==> locals[i].1 < n)
      && (forall i :: 0 <= i < |params| ==> params[i].1 < n)
    case Global => true
  }

  lemma LocWfGrows(src: Src, loc: Location, n: nat, m: nat)
    requires LocWf(src, loc, n) && n <= m
    ensures LocWf(src, loc, m)
  {
    if loc.FunctionState? {
      FunctionWfGrows(loc.srcFunction, src, n, m);
    }
  }

  /**
   * The arena a location exposes is well-formed; only the global one promises
   * that a constant's initializer precedes its uses.
   */
  lemma GetExprsWf(src: Src, loc: Location, n: nat)
    requires SrcWf(src, n) && LocWf(src, loc, n)
    ensures ExprsWf(GetExprs(src, loc), src, n, loc.Global?)
  {
  }
}
