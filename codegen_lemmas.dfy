/**
 * Properties of module assembly: from coherent caches the native signatures,
 * the lowered globals and the local allocations agree with the reference
 * lowering, and the first failure ends the body, the function list and
 * `generate` itself, returned unchanged.
 */
module CodegenFacts {
  import opened Wrappers
  import opened Ir
  import opened Native
  import opened State
  import opened Types
  import opened TypeFacts
  import opened Locations
  import opened Expressions
  import opened Statements
  import opened Codegen

  /** From coherent caches the parameter types are the reference lowering of the argument types. */
  lemma {:induction false} ParamTypesLowered(ctx: Ctx, g: Gen, args: seq<FunctionArgument>, k: nat)
    requires Coherent(ctx.dl, g) && k <= |args| && forall i :: 0 <= i < |args| ==> args[i].ty < |g.types|
    ensures var r := ParamTypes(ctx, g, args, k);
            r.out == LoweredParams(ctx.dl, g.types, args, k) && Coherent(ctx.dl, r.g)
    decreases |args| - k
  {
    if k < |args| {
      EvalCachedTypeIsLowered(ctx, g, Undefined, args[k].ty);
      var r1 := EvalCachedType(ctx, g, Undefined, args[k].ty);
      if r1.out.Ok? {
        ParamTypesLowered(ctx, r1.g, args, k + 1);
      }
    }
  }

  /** Reference return type: the lowered result type, or void. */
  function ReferenceResult(dl: DataLayout, types: TypeArena, result: Option<FunctionResult>): Outcome<NativeType>
    requires TypesWf(types) && (result.Some? ==> result.value.ty < |types|)
  {
    match result
    case None => Ok(VoidType)
    case Some(FunctionResult(ty)) => Lowered(dl, types, Undefined, ty)
  }

  /**
   * From coherent caches, `generate_llvm_function` succeeds exactly when the
   * argument types and the result type lower and the function is named, and
   * the native function it adds has the signature of the reference lowering.
   */
  lemma LlvmFunctionSignature(ctx: Ctx, n: nat, g: Gen, f: Function)
    requires n <= |g.types| && FunctionWf(f, ctx.src, n) && Coherent(ctx.dl, g)
    ensures var r := GenerateLlvmFunction(ctx, n, g, f);
            var params := LoweredParams(ctx.dl, g.types, f.arguments, 0);
            var ret := ReferenceResult(ctx.dl, g.types, f.result);
            && (r.out.Ok? <==> params.Ok? && ret.Ok? && f.name.Some?)
            && (r.out.Ok? ==> r.g.moduleFunctions[|g.moduleFunctions|].fnTy == FunctionType(ret.value, params.value))
            && Coherent(ctx.dl, r.g)
  {
    ParamTypesLowered(ctx, g, f.arguments, 0);
    var r1 := ParamTypes(ctx, g, f.arguments, 0);
    if r1.out.Ok? {
      if f.result.Some? {
        EvalCachedTypeIsLowered(ctx, r1.g, Undefined, f.result.value.ty);
      }
      var r2 := ResultType(ctx, r1.g, f.result);
      assert r2.out == ReferenceResult(ctx.dl, g.types, f.result) && Coherent(ctx.dl, r2.g);
      if r2.out.Ok? && f.name.Some? {
        var r := GenerateLlvmFunction(ctx, n, g, f);
        assert r.g == r2.g.(moduleFunctions := r.g.moduleFunctions);
        CoherentModule(ctx.dl, r2.g, r.g);
      }
    }
  }

  /**
   * From coherent caches a local's stack space is an `alloca` of exactly the
   * reference storage type of its type (an array of columns for a matrix),
   * and allocation fails exactly when that type does not lower.
   */
  lemma AllocateStorage(ctx: Ctx, g: Gen, ty: Handle)
    requires Sound(g) && Coherent(ctx.dl, g) && ty < |g.types|
    ensures var r := Allocate(ctx, g, ty);
            var s := TypeFacts.Storage(ctx.dl, g.types, g.types[ty].span, ty);
            && (r.out.Ok? <==> s.Ok?)
            && (r.out.Ok? ==> r.out.value.instr == Alloca(s.value))
            && Coherent(ctx.dl, r.g)
  {
    EvalCachedPointerTypeIsStorage(ctx, g, g.types[ty].span, ty);
    var r1 := EvalCachedPointerType(ctx, g, g.types[ty].span, ty);
    if r1.out.Ok? {
      var (_, g2) := Build(r1.g, Alloca(r1.out.value));
      CoherentModule(ctx.dl, r1.g, g2);
    }
  }

  /** Coherence is about the arena and the caches only: the log and the module do not matter. */
  lemma CoherentModule(dl: DataLayout, g: Gen, g': Gen)
    requires Coherent(dl, g)
    requires g'.types == g.types && g'.typeCache == g.typeCache && g'.pointerTypeCache == g.pointerTypeCache
    requires g'.structMaps == g.structMaps
    ensures Coherent(dl, g')
  {
    forall h: Handle ensures StructMapped(g', h) {
      assert StructMapped(g, h);
    }
  }

  /** A local lowered from coherent caches is bound to an `alloca` of its reference storage type. */
  lemma LocalAllocated(ctx: Ctx, n: nat, g: Gen, loc: Location, decl: Spanned<LocalVariable>)
    requires Consistent(ctx, n, g) && LocWf(ctx.src, loc, |g.types|) && decl.item.ty < |g.types|
    requires decl.item.init.Some? ==> decl.item.init.value < |GetExprs(ctx.src, loc)|
    requires Coherent(ctx.dl, g)
    ensures var r := LowerLocal(ctx, n, g, loc, decl);
            var s := TypeFacts.Storage(ctx.dl, g.types, g.types[decl.item.ty].span, decl.item.ty);
            r.out.Ok? ==> s.Ok? && r.out.value.0.instr == Alloca(s.value)
  {
    AllocateStorage(ctx, g, decl.item.ty);
  }

  /**
   * A global lowered from coherent caches is a module global of the
   * reference lowering of its type; when that type does not lower, the
   * failure is returned as it is.
   */
  lemma GlobalTyped(ctx: Ctx, n: nat, g: Gen, decl: GlobalVariable)
    requires Consistent(ctx, n, g) && decl.ty < n && Coherent(ctx.dl, g)
    requires decl.init.Some? ==> decl.init.value < |ctx.src.constExpressions|
    ensures var r := LowerGlobal(ctx, n, g, decl);
            var t := Lowered(ctx.dl, g.types, Undefined, decl.ty);
            && (decl.name.Some? && !t.Ok? ==> r.out == t.PropagateFailure() && r.g.moduleGlobals == g.moduleGlobals)
            && (r.out.Ok? ==> t.Ok? && r.g.moduleGlobals[|g.moduleGlobals|].globalTy == t.value)
  {
    EvalCachedTypeIsLowered(ctx, g, Undefined, decl.ty);
  }

  /** A failing statement ends the body: its failure is returned, and no later statement is emitted. */
  lemma BodyStops(ctx: Ctx, n: nat, g: Gen, loc: Location, k: nat)
    requires Consistent(ctx, n, g) && loc.FunctionState? && LocWf(ctx.src, loc, |g.types|)
    requires k < |loc.srcFunction.body|
    ensures SrcWf(ctx.src, |g.types|)
    ensures var stmt := loc.srcFunction.body[k];
            var s := EmitStatement(ctx, |g.types|, g, loc, stmt.span, stmt.item);
            !s.out.Ok? ==> EmitBody(ctx, n, g, loc, k) == Step(s.out.PropagateFailure(), s.g)
  {
    SrcWfGrows(ctx.src, n, |g.types|);
  }

  /** A failing function ends `generate`: its failure is returned, and no later function is added. */
  lemma FunctionsStop(ctx: Ctx, n: nat, g: Gen, k: nat)
    requires Consistent(ctx, n, g) && k < |ctx.src.functions|
    ensures var f := LowerFunction(ctx, n, g, ctx.src.functions[k]);
            !f.out.Ok? ==> GenerateFunctions(ctx, n, g, k) == Step(f.out.PropagateFailure(), f.g)
  {
  }

  /**
   * A failing global ends `generate` before any function is lowered: the
   * failure and the state are those the globals left.
   */
  lemma GenerateStops(ctx: Ctx, n: nat, g: Gen)
    requires Consistent(ctx, n, g) && g.globals == []
    ensures var gl := GenerateGlobals(ctx, n, g, 0);
            !gl.out.Ok? ==>
              && Generate(ctx, n, g) == Step(gl.out.PropagateFailure(), gl.g)
              && gl.g.moduleFunctions == g.moduleFunctions
  {
  }

  /**
   * Each function starts from an empty expression cache: lowering a function
   * gives the same result and state whatever the previous function left in
   * the cache.
   */
  lemma FunctionCacheReset(ctx: Ctx, n: nat, g: Gen, f: Function, stale: map<Handle, (Value, Handle)>)
    requires Consistent(ctx, n, g) && Consistent(ctx, n, g.(exprCache := stale)) && FunctionWf(f, ctx.src, n)
    ensures LowerFunction(ctx, n, g, f) == LowerFunction(ctx, n, g.(exprCache := stale), f)
  {
    assert g.(exprCache := map[]) == g.(exprCache := stale).(exprCache := map[]);
  }
}
