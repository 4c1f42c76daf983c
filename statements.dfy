/**
 * Statement emission (`emit_statement`) and `build_store`, which stores an
 * evaluated expression through a pointer for both `Store` statements and
 * local-variable initialisers.
 */
module Statements {
  import opened Wrappers
  import opened Ir
  import opened Native
  import opened Errors
  import opened State
  import opened Types
  import opened Locations
  import opened Loads
  import opened Expressions

  /**
   * The instruction that stores `value`, of IR type `ty`, through `pointer`:
   * for a matrix the column-major store intrinsic, with the column stride a
   * matrix load uses and the arguments value, pointer, stride, `false` (not
   * volatile), rows and columns; for anything else a plain store.
   */
  ghost predicate StoreShape(dl: DataLayout, types: TypeArena, span: Span, pointer: Value, value: Value, ty: Handle,
                             instr: Instr)
    requires ty < |types|
  {
    if types[ty].item.inner.Matrix? then
      var Matrix(columns, rows, scalar) := types[ty].item.inner;
      && EvalScalarType(span, scalar).Ok?
      && var t := EvalScalarType(span, scalar).value;
         && MatrixStride(dl, t, rows, scalar.width).Ok?
         && instr == CallIntrinsic(ColumnMajorStore, [TypeOf(value), Known(IntType(64))],
                                   [value, pointer, ConstU64(MatrixStride(dl, t, rows, scalar.width).value),
                                    ConstBool(false), ConstU32(rows), ConstU32(columns)])
    else instr == StoreValue(value, pointer)
  }

  /**
   * `build_store` once the stored expression is evaluated to `value` of type
   * `ty`. Only a matrix can fail: its scalar must lower, and a zero scalar
   * width divides by zero.
   */
  function StoreEvaluated(ctx: Ctx, g: Gen, span: Span, pointer: Value, value: Value, ty: Handle): (r: Step<()>)
    requires ty < |g.types|
    ensures r.g == g.(log := r.g.log)
    ensures r.out.Ok? ==> |r.g.log| == |g.log| + 1 && r.g.log[..|g.log|] == g.log
                          && StoreShape(ctx.dl, g.types, span, pointer, value, ty, r.g.log[|g.log|])
    ensures !r.out.Ok? ==> r.g == g
    ensures !g.types[ty].item.inner.Matrix? ==> r.out.Ok?
    ensures g.types[ty].item.inner.Matrix? ==>
              var scalar := g.types[ty].item.inner.scalar;
              && (r.out.Ok? <==> EvalScalarType(span, scalar).Ok? && scalar.width != 0)
              && (r.out.Err? ==> EvalScalarType(span, scalar).Err? && r.out.error == EvalScalarType(span, scalar).error)
              && (r.out.Panic? ==> EvalScalarType(span, scalar).Panic? || r.out == Panic(DivByZero))
  {
    if g.types[ty].item.inner.Matrix? then
      var Matrix(columns, rows, scalar) := g.types[ty].item.inner;
      var (t, _) :- Step(EvalScalarType(span, scalar), g);
      var (stride, _) :- Step(MatrixStride(ctx.dl, t, rows, scalar.width), g);
      var (_, g1) := Build(g, CallIntrinsic(ColumnMajorStore, [TypeOf(value), Known(IntType(64))],
                                            [value, pointer, ConstU64(stride), ConstBool(false),
                                             ConstU32(rows), ConstU32(columns)]));
      Step(Ok(()), g1)
    else
      var (_, g1) := Build(g, StoreValue(value, pointer));
      Step(Ok(()), g1)
  }

  /**
   * The last instruction built stores what the expression cache holds for
   * `value` through `pointer`.
   */
  ghost predicate Stored(dl: DataLayout, g: Gen, span: Span, pointer: Value, value: Handle)
  {
    && value in g.exprCache && |g.log| > 0
    && var (v, ty) := g.exprCache[value];
       ty < |g.types| && StoreShape(dl, g.types, span, pointer, v, ty, g.log[|g.log| - 1])
  }

  /**
   * `build_store`: the stored expression is evaluated through the cache, and
   * what the cache holds for it is stored through `pointer`.
   */
  function BuildStore(ctx: Ctx, n: nat, g: Gen, loc: Location, span: Span, pointer: Value, value: Handle)
    : (r: Step<()>)
    requires Scope(ctx, loc, n) && Ready(g, n) && value < |GetExprs(ctx.src, loc)|
    ensures Extends(g, r)
    ensures r.out.Ok? ==> Stored(ctx.dl, r.g, span, pointer, value)
  {
    var (vt, g1) :- EvalCachedExpr(ctx, n, g, loc, value);
    var r := StoreEvaluated(ctx, g1, span, pointer, vt.0, vt.1);
    assert Grows(g1, r.g);
    GrowsTrans(g, g1, r.g);
    r
  }

  /**
   * Storing an already-evaluated value that is not a matrix evaluates
   * nothing again and appends exactly one plain store.
   */
  lemma StoreCached(ctx: Ctx, n: nat, g: Gen, loc: Location, span: Span, pointer: Value, value: Handle)
    requires Scope(ctx, loc, n) && Ready(g, n) && value < |GetExprs(ctx.src, loc)|
    requires value in g.exprCache && !g.types[g.exprCache[value].1].item.inner.Matrix?
    ensures BuildStore(ctx, n, g, loc, span, pointer, value)
              == Step(Ok(()), g.(log := g.log + [StoreValue(g.exprCache[value].0, pointer)]))
  {
  }

  /**
   * The result type check of `Return`, once the returned expression (if any)
   * is evaluated to `found`: the return succeeds exactly when a value is
   * returned if and only if the function declares a result, of the same type
   * handle; a mismatch reports the declared and the found type, at the
   * returned expression's span when both exist and at the statement's
   * otherwise.
   */
  function ReturnEvaluated(g: Gen, span: Span, declared: Option<FunctionResult>, found: Option<(Value, Handle)>,
                           valueSpan: Span): (r: Step<()>)
    ensures r.out.Ok? <==> (declared.Some? <==> found.Some?) && (declared.Some? ==> declared.value.ty == found.value.1)
    ensures !r.out.Panic?
    ensures r.out.Err? ==>
              && r.g == g
              && r.out.error.info == IncorrectReturnType(if declared.Some? then Some(declared.value.ty) else None,
                                                         if found.Some? then Some(found.value.1) else None)
              && r.out.error.span == if declared.Some? && found.Some? then valueSpan else span
    ensures r.out.Ok? ==> r.g == g.(log := g.log + [if found.Some? then Ret(found.value.0) else RetVoid])
  {
    match (declared, found)
    case (Some(FunctionResult(resultTy)), Some((v, ty))) =>
      if resultTy != ty then Step(Err(Error(IncorrectReturnType(Some(resultTy), Some(ty)), valueSpan)), g)
      else Step(Ok(()), Build(g, Ret(v)).1)
    case (None, None) => Step(Ok(()), Build(g, RetVoid).1)
    case (Some(FunctionResult(resultTy)), None) => Step(Err(Error(IncorrectReturnType(Some(resultTy), None), span)), g)
    case (None, Some((_, ty))) => Step(Err(Error(IncorrectReturnType(None, Some(ty)), span)), g)
  }

  /**
   * `Return`: a returned expression is evaluated through the cache (even when
   * the function declares no result), then checked against the declared
   * result type.
   */
  function EmitReturn(ctx: Ctx, n: nat, g: Gen, loc: Location, span: Span, value: Option<Handle>): (r: Step<()>)
    requires Scope(ctx, loc, n) && Ready(g, n) && loc.FunctionState?
    requires value.Some? ==> value.value < |loc.srcFunction.expressions|
    ensures Extends(g, r)
    ensures value.None? ==> r == ReturnEvaluated(g, span, loc.srcFunction.result, None, span)
    ensures value.Some? && r.out.Ok? ==>
              && loc.srcFunction.result.Some? && value.value in r.g.exprCache
              && r.g.exprCache[value.value].1 == loc.srcFunction.result.value.ty
              && |r.g.log| > 0 && r.g.log[|r.g.log| - 1] == Ret(r.g.exprCache[value.value].0)
  {
    match value
    case None => ReturnEvaluated(g, span, loc.srcFunction.result, None, span)
    case Some(h) =>
      var (found, g1) :- EvalCachedExpr(ctx, n, g, loc, h);
      ReturnEvaluated(g1, span, loc.srcFunction.result, Some(found), loc.srcFunction.expressions[h].span)
  }

  /**
   * `Store`: the pointer expression is evaluated through the cache, then the
   * stored expression is stored through it.
   */
  function EmitStore(ctx: Ctx, n: nat, g: Gen, loc: Location, span: Span, target: Handle, stored: Handle)
    : (r: Step<()>)
    requires Scope(ctx, loc, n) && Ready(g, n) && target < |GetExprs(ctx.src, loc)| && stored < |GetExprs(ctx.src, loc)|
    ensures Extends(g, r)
    ensures r.out.Ok? ==> target in r.g.exprCache && Stored(ctx.dl, r.g, span, r.g.exprCache[target].0, stored)
  {
    var (pt, g1) :- EvalCachedExpr(ctx, n, g, loc, target);
    var r := BuildStore(ctx, n, g1, loc, span, pt.0, stored);
    GrowsTrans(g, g1, r.g);
    assert target in g1.exprCache && g1.exprCache[target] == pt;
    r
  }

  /**
   * `Emit(start..end)` from handle `h` on: each handle is evaluated through
   * the cache in ascending order, and the first failure ends the statement.
   * Afterwards every handle of the range is cached, so emitting a range whose
   * handles are all cached changes nothing.
   */
  function EmitRange(ctx: Ctx, n: nat, g: Gen, loc: Location, h: Handle, end: Handle): (r: Step<()>)
    requires Scope(ctx, loc, n) && Ready(g, n) && end <= |GetExprs(ctx.src, loc)|
    ensures Extends(g, r)
    ensures r.out.Ok? ==> forall i :: h <= i < end ==> i in r.g.exprCache
    ensures (forall i :: h <= i < end ==> i in g.exprCache) ==> r == Step(Ok(()), g)
    decreases end - h
  {
    if h >= end then Step(Ok(()), g)
    else
      var (_, g1) :- EvalCachedExpr(ctx, n, g, loc, h);
      var r := EmitRange(ctx, n, g1, loc, h + 1, end);
      GrowsTrans(g, g1, r.g);
      r
  }

  /**
   * `emit_statement`. Emission, blocks, returns and stores are lowered; every
   * other statement is not yet implemented, which is fatal.
   */
  function EmitStatement(ctx: Ctx, n: nat, g: Gen, loc: Location, span: Span, stmt: Statement): (r: Step<()>)
    requires Scope(ctx, loc, n) && Ready(g, n) && loc.FunctionState?
    requires StmtRefsBelow(stmt, |loc.srcFunction.expressions|)
    ensures Extends(g, r)
    ensures !(stmt.Emit? || stmt.Block? || stmt.Return? || stmt.Store?) ==> r == Step(Panic(NotImplemented), g)
    decreases stmt, 1, 0
  {
    match stmt
    case Emit(start, end) => EmitRange(ctx, n, g, loc, start, end)
    case Block(stmts) => EmitBlock(ctx, n, g, loc, span, stmt, 0)
    case Return(value) => EmitReturn(ctx, n, g, loc, span, value)
    case Store(target, stored) => EmitStore(ctx, n, g, loc, span, target, stored)
    case _ => Step(Panic(NotImplemented), g)
  }

  /** The statements of `block` from the `k`-th on, in order, all with the enclosing statement's span. */
  function EmitBlock(ctx: Ctx, n: nat, g: Gen, loc: Location, span: Span, block: Statement, k: nat)
    : (r: Step<()>)
    requires Scope(ctx, loc, n) && Ready(g, n) && loc.FunctionState?
    requires block.Block? && k <= |block.block| && StmtRefsBelow(block, |loc.srcFunction.expressions|)
    ensures Extends(g, r)
    decreases block, 0, |block.block| - k, 2
  {
    if k == |block.block| then Step(Ok(()), g) else EmitNext(ctx, n, g, loc, span, block, k)
  }

  /** Statement `k` of `block` and, if it succeeded, the ones after it. */
  function EmitNext(ctx: Ctx, n: nat, g: Gen, loc: Location, span: Span, block: Statement, k: nat)
    : (r: Step<()>)
    requires Scope(ctx, loc, n) && Ready(g, n) && loc.FunctionState?
    requires block.Block? && k < |block.block| && StmtRefsBelow(block, |loc.srcFunction.expressions|)
    ensures Extends(g, r)
    decreases block, 0, |block.block| - k, 1
  {
    var (_, g1) :- EmitAt(ctx, n, g, loc, span, block, k);
    var r := EmitBlock(ctx, n, g1, loc, span, block, k + 1);
    GrowsTrans(g, g1, r.g);
    r
  }

  /** Statement `k` of `block`, with the span of the enclosing statement. */
  function EmitAt(ctx: Ctx, n: nat, g: Gen, loc: Location, span: Span, block: Statement, k: nat)
    : (r: Step<()>)
    requires Scope(ctx, loc, n) && Ready(g, n) && loc.FunctionState?
    requires block.Block? && k < |block.block| && StmtRefsBelow(block, |loc.srcFunction.expressions|)
    ensures Extends(g, r)
    decreases block, 0, |block.block| - k, 0
  {
    EmitStatement(ctx, n, g, loc, span, block.block[k])
  }

  /** A block that has statement `k` left emits it first, then the rest if it succeeded. */
  lemma BlockStep(ctx: Ctx, n: nat, g: Gen, loc: Location, span: Span, block: Statement, k: nat)
    requires Scope(ctx, loc, n) && Ready(g, n) && loc.FunctionState?
    requires block.Block? && k < |block.block| && StmtRefsBelow(block, |loc.srcFunction.expressions|)
    ensures var r1 := EmitAt(ctx, n, g, loc, span, block, k);
            EmitBlock(ctx, n, g, loc, span, block, k)
              == if r1.out.Ok? then EmitBlock(ctx, n, r1.g, loc, span, block, k + 1) else Step(r1.out.PropagateFailure(), r1.g)
  {
  }

  /** The two parts of a block refer only to what the whole block refers to. */
  lemma BlockParts(a: seq<Statement>, b: seq<Statement>, m: nat)
    requires StmtRefsBelow(Block(a + b), m)
    ensures StmtRefsBelow(Block(a), m) && StmtRefsBelow(Block(b), m)
    ensures (a + b)[..|a|] == a && (a + b)[|a|..] == b
  {
    assert (a + b)[..|a|] == a && (a + b)[|a|..] == b;
    forall i | 0 <= i < |a| ensures StmtRefsBelow(a[i], m) {
      assert a[i] == (a + b)[i];
    }
    forall i | 0 <= i < |b| ensures StmtRefsBelow(b[i], m) {
      assert b[i] == (a + b)[|a| + i];
    }
  }

  /**
   * Blocks compose: emitting the block `a + b` emits `a` and then, if that
   * succeeded, `b` from the state `a` left behind.
   */
  lemma BlockSequence(ctx: Ctx, n: nat, g: Gen, loc: Location, span: Span, a: seq<Statement>, b: seq<Statement>)
    requires Scope(ctx, loc, n) && Ready(g, n) && loc.FunctionState?
    requires StmtRefsBelow(Block(a + b), |loc.srcFunction.expressions|)
    ensures StmtRefsBelow(Block(a), |loc.srcFunction.expressions|) && StmtRefsBelow(Block(b), |loc.srcFunction.expressions|)
    ensures var ra := EmitBlock(ctx, n, g, loc, span, Block(a), 0);
            EmitBlock(ctx, n, g, loc, span, Block(a + b), 0)
              == if ra.out.Ok? then EmitBlock(ctx, n, ra.g, loc, span, Block(b), 0) else ra
  {
    BlockParts(a, b, |loc.srcFunction.expressions|);
    BlockPrefix(ctx, n, g, loc, span, Block(a + b), Block(a), 0);
    var ra := EmitBlock(ctx, n, g, loc, span, Block(a), 0);
    if ra.out.Ok? {
      BlockSuffix(ctx, n, ra.g, loc, span, Block(a + b), Block(b), |a|, |a|, 0);
    }
  }

  /** Statement `i` of `a` and statement `j` of `b` emit alike when they are the same statement. */
  lemma EmitAtSame(ctx: Ctx, n: nat, g: Gen, loc: Location, span: Span, a: Statement, i: nat, b: Statement, j: nat)
    requires Scope(ctx, loc, n) && Ready(g, n) && loc.FunctionState?
    requires a.Block? && i < |a.block| && StmtRefsBelow(a, |loc.srcFunction.expressions|)
    requires b.Block? && j < |b.block| && StmtRefsBelow(b, |loc.srcFunction.expressions|)
    requires a.block[i] == b.block[j]
    ensures EmitAt(ctx, n, g, loc, span, a, i) == EmitAt(ctx, n, g, loc, span, b, j)
  {
  }

  /** `block` is a block that can be emitted in `loc` from state `g`. */
  ghost predicate Emitting(ctx: Ctx, n: nat, g: Gen, loc: Location, block: Statement)
  {
    && Scope(ctx, loc, n) && Ready(g, n) && loc.FunctionState?
    && block.Block? && StmtRefsBelow(block, |loc.srcFunction.expressions|)
  }

  /** Emitting `whole` from statement `k` runs the rest of its leading part `part` first. */
  lemma {:induction false} BlockPrefix(ctx: Ctx, n: nat, g: Gen, loc: Location, span: Span, whole: Statement,
                                       part: Statement, k: nat)
    requires Emitting(ctx, n, g, loc, whole) && Emitting(ctx, n, g, loc, part) && k <= |part.block| <= |whole.block|
    requires part.block == whole.block[..|part.block|]
    ensures var rp := EmitBlock(ctx, n, g, loc, span, part, k);
            EmitBlock(ctx, n, g, loc, span, whole, k)
              == if rp.out.Ok? then EmitBlock(ctx, n, rp.g, loc, span, whole, |part.block|) else rp
    decreases |part.block| - k
  {
    if k < |part.block| {
      var r1 := EmitAt(ctx, n, g, loc, span, part, k);
      if r1.out.Ok? {
        BlockPrefix(ctx, n, r1.g, loc, span, whole, part, k + 1);
      }
      assert whole.block[k] == part.block[k];
      PrefixStep(ctx, n, g, loc, span, whole, part, k);
    }
  }

  /** One step of `BlockPrefix`: statement `k` is shared, and the rest follows from statement `k + 1`. */
  lemma PrefixStep(ctx: Ctx, n: nat, g: Gen, loc: Location, span: Span, whole: Statement, part: Statement, k: nat)
    requires Emitting(ctx, n, g, loc, whole) && Emitting(ctx, n, g, loc, part) && k < |part.block| <= |whole.block|
    requires whole.block[k] == part.block[k]
    requires var r1 := EmitAt(ctx, n, g, loc, span, part, k);
             r1.out.Ok? ==>
               var rp := EmitBlock(ctx, n, r1.g, loc, span, part, k + 1);
               EmitBlock(ctx, n, r1.g, loc, span, whole, k + 1)
                 == if rp.out.Ok? then EmitBlock(ctx, n, rp.g, loc, span, whole, |part.block|) else rp
    ensures var rp := EmitBlock(ctx, n, g, loc, span, part, k);
            EmitBlock(ctx, n, g, loc, span, whole, k)
              == if rp.out.Ok? then EmitBlock(ctx, n, rp.g, loc, span, whole, |part.block|) else rp
  {
    EmitAtSame(ctx, n, g, loc, span, whole, k, part, k);
    BlockStep(ctx, n, g, loc, span, whole, k);
    BlockStep(ctx, n, g, loc, span, part, k);
  }

  /** Emitting `whole` from statement `i`, at `offset + j`, is emitting its trailing part `part` from statement `j`. */
  lemma {:induction false} BlockSuffix(ctx: Ctx, n: nat, g: Gen, loc: Location, span: Span, whole: Statement,
                                       part: Statement, offset: nat, i: nat, j: nat)
    requires Emitting(ctx, n, g, loc, whole) && Emitting(ctx, n, g, loc, part)
    requires j <= |part.block| && offset <= |whole.block| && i == offset + j
    requires part.block == whole.block[offset..]
    ensures EmitBlock(ctx, n, g, loc, span, whole, i) == EmitBlock(ctx, n, g, loc, span, part, j)
    decreases |part.block| - j
  {
    if j < |part.block| {
      var r1 := EmitAt(ctx, n, g, loc, span, part, j);
      if r1.out.Ok? {
        BlockSuffix(ctx, n, r1.g, loc, span, whole, part, offset, i + 1, j + 1);
      }
      assert whole.block[i] == part.block[j];
      SuffixStep(ctx, n, g, loc, span, whole, part, i, j);
    }
  }

  /** One step of `BlockSuffix`: statement `i` of `whole` is statement `j` of `part`. */
  lemma SuffixStep(ctx: Ctx, n: nat, g: Gen, loc: Location, span: Span, whole: Statement, part: Statement, i: nat, j: nat)
    requires Emitting(ctx, n, g, loc, whole) && Emitting(ctx, n, g, loc, part)
    requires i < |whole.block| && j < |part.block| && whole.block[i] == part.block[j]
    requires var r1 := EmitAt(ctx, n, g, loc, span, part, j);
             r1.out.Ok? ==> EmitBlock(ctx, n, r1.g, loc, span, whole, i + 1) == EmitBlock(ctx, n, r1.g, loc, span, part, j + 1)
    ensures EmitBlock(ctx, n, g, loc, span, whole, i) == EmitBlock(ctx, n, g, loc, span, part, j)
  {
    EmitAtSame(ctx, n, g, loc, span, whole, i, part, j);
    BlockStep(ctx, n, g, loc, span, whole, i);
    BlockStep(ctx, n, g, loc, span, part, j);
  }
}
