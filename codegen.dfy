/**
 * Module assembly (`generate` and the steps it drives): the globals, the
 * native function signatures, the local variables, the parameter bindings and
 * the function bodies, as functions of the generator state.
 */
module Codegen {
  import opened Wrappers
  import opened Ir
  import opened Native
  import opened Errors
  import opened State
  import opened Types
  import opened TypeFacts
  import opened Locations
  import opened Expressions
  import opened Statements

  /**
   * The source is well-formed against the first `n` types and the state is
   * sound with at least `n` types. Module-level lowering keeps this with the
   * same `n` throughout.
   */
  ghost predicate Consistent(ctx: Ctx, n: nat, g: Gen)
  {
    SrcWf(ctx.src, n) && Ready(g, n)
  }

  /**
   * Module-level lowering only appends: to the type arena, the instruction
   * log, the lowered globals and the module's globals and functions.
   */
  ghost predicate Appends(g: Gen, g': Gen)
  {
    && g.types <= g'.types && g.log <= g'.log && g.globals <= g'.globals
    && g.moduleGlobals <= g'.moduleGlobals && g.moduleFunctions <= g'.moduleFunctions
  }

  lemma AppendsTrans(g1: Gen, g2: Gen, g3: Gen)
    requires Appends(g1, g2) && Appends(g2, g3)
    ensures Appends(g1, g3)
  {
  }

  /**
   * The entry `entry` of the globals list stands for `decl`: it holds the
   * address of a module global named after `decl`, which has a constant
   * initializer exactly when `decl` has one, and the interned pointer type to
   * `decl`'s type in `decl`'s address space.
   */
  ghost predicate GlobalBound(g: Gen, decl: GlobalVariable, entry: (Value, Handle))
  {
    && entry.1 < |g.types| && g.types[entry.1].item == Type(None, Pointer(decl.ty, decl.space))
    && entry.0.GlobalRef? && entry.0.globalIndex < |g.moduleGlobals|
    && var global := g.moduleGlobals[entry.0.globalIndex];
       && decl.name == Some(global.name)
       && (decl.init.Some? <==> global.init.Some?)
       && (global.init.Some? ==> IsConstant(global.init.value))
  }

  /** Entries `base..` of the globals list stand for the declarations from the `k`-th on, in order. */
  ghost predicate GlobalsBound(g: Gen, decls: seq<GlobalVariable>, base: nat, k: nat)
    requires k <= |decls|
  {
    && |g.globals| == base + |decls| - k
    && forall i :: k <= i < |decls| ==> GlobalBound(g, decls[i], g.globals[base + i - k])
  }

  lemma GlobalBoundKept(g: Gen, g': Gen, decl: GlobalVariable, entry: (Value, Handle))
    requires GlobalBound(g, decl, entry) && Appends(g, g')
    ensures GlobalBound(g', decl, entry)
  {
    assert g'.types[entry.1] == g.types[entry.1];
    assert g'.moduleGlobals[entry.0.globalIndex] == g.moduleGlobals[entry.0.globalIndex];
  }

  /** One more global bound in front of the rest, after an appending step from `g0` to `g1`. */
  lemma GlobalsStep(g0: Gen, g1: Gen, r: Step<()>, decls: seq<GlobalVariable>, k: nat)
    requires k < |decls| && Appends(g0, g1) && |g1.globals| == |g0.globals| + 1
    requires GlobalBound(g1, decls[k], g1.globals[|g0.globals|])
    requires Appends(g1, r.g) && (r.out.Ok? ==> GlobalsBound(r.g, decls, |g1.globals|, k + 1))
    ensures Appends(g0, r.g) && (r.out.Ok? ==> GlobalsBound(r.g, decls, |g0.globals|, k))
  {
    if r.out.Ok? {
      assert r.g.globals[|g0.globals|] == g1.globals[|g0.globals|];
      GlobalBoundKept(g1, r.g, decls[k], g1.globals[|g0.globals|]);
    }
  }

  /**
   * Setting a global's initializer: the initializer is evaluated through the
   * cache in the global context, and must be a constant; a non-constant one
   * fails `NonConstantGlobal` at the initializer's span.
   */
  function GlobalInit(ctx: Ctx, n: nat, g: Gen, index: nat, init: Option<Handle>): (r: Step<()>)
    requires Consistent(ctx, n, g) && index < |g.moduleGlobals|
    requires init.Some? ==> init.value < |ctx.src.constExpressions|
    ensures Ready(r.g, n) && g.types <= r.g.types && g.log <= r.g.log
    ensures r.g.globals == g.globals && r.g.moduleFunctions == g.moduleFunctions
    ensures |r.g.moduleGlobals| == |g.moduleGlobals|
    ensures r.g.moduleGlobals == g.moduleGlobals[index := g.moduleGlobals[index].(init := r.g.moduleGlobals[index].init)]
    ensures init.None? ==> r == Step(Ok(()), g)
    ensures r.out.Ok? && init.Some? ==>
              && init.value in r.g.exprCache
              && r.g.moduleGlobals[index].init == Some(r.g.exprCache[init.value].0)
              && IsConstant(r.g.exprCache[init.value].0)
    ensures init.Some? ==>
              var ev := EvalCachedExpr(ctx, n, g, Global, init.value);
              ev.out.Ok? && !IsConstant(ev.out.value.0) ==>
                r == Step(Err(Error(NonConstantGlobal, ctx.src.constExpressions[init.value].span)), ev.g)
  {
    match init
    case None => Step(Ok(()), g)
    case Some(h) =>
      var (vt, g1) :- EvalCachedExpr(ctx, n, g, Global, h);
      if !IsConstant(vt.0) then Step(Err(Error(NonConstantGlobal, ctx.src.constExpressions[h].span)), g1)
      else Step(Ok(()), g1.(moduleGlobals := g1.moduleGlobals[index := g1.moduleGlobals[index].(init := Some(vt.0))]))
  }

  /**
   * One global of `generate_globals`: an unnamed global is not implemented;
   * otherwise a module global of the lowered type is added, its initializer
   * set, and its address entered in the globals list with the interned
   * pointer type (carrying the span of the global's type).
   */
  function LowerGlobal(ctx: Ctx, n: nat, g: Gen, decl: GlobalVariable): (r: Step<()>)
    requires Consistent(ctx, n, g) && decl.ty < n
    requires decl.init.Some? ==> decl.init.value < |ctx.src.constExpressions|
    ensures Ready(r.g, n) && Appends(g, r.g) && r.g.moduleFunctions == g.moduleFunctions
    ensures decl.name.None? ==> r == Step(Panic(NotImplemented), g)
    ensures r.out.Ok? ==> |r.g.globals| == |g.globals| + 1 && GlobalBound(r.g, decl, r.g.globals[|g.globals|])
  {
    if decl.name.None? then Step(Panic(NotImplemented), g)
    else
      var (t, g1) :- EvalCachedType(ctx, g, Undefined, decl.ty);
      var index := |g1.moduleGlobals|;
      var g2 := g1.(moduleGlobals := g1.moduleGlobals + [NativeGlobal(decl.name.value, t, None)]);
      GlobalAdded(ctx, n, g, g1, NativeGlobal(decl.name.value, t, None));
      var (_, g3) :- GlobalInit(ctx, n, g2, index, decl.init);
      PushGlobal(g3, decl, index)
  }

  /** A module global added after lowering a type from `g` to `g1` keeps the state consistent and only appends. */
  lemma GlobalAdded(ctx: Ctx, n: nat, g: Gen, g1: Gen, global: NativeGlobal)
    requires Consistent(ctx, n, g) && Sound(g1) && Types.TypeCachesOnly(g, g1)
    ensures var g2 := g1.(moduleGlobals := g1.moduleGlobals + [global]);
            && Consistent(ctx, n, g2) && Appends(g, g2)
            && g2.globals == g.globals && g2.moduleFunctions == g.moduleFunctions
            && |g2.moduleGlobals| == |g.moduleGlobals| + 1 && g2.moduleGlobals[|g.moduleGlobals|] == global
  {
  }

  /**
   * The globals-list entry for `decl`, the module global `index`: its address
   * with the pointer type to the global's type in its address space, interned
   * with the span of that type.
   */
  function PushGlobal(g: Gen, decl: GlobalVariable, index: nat): (r: Step<()>)
    requires Sound(g) && decl.ty < |g.types| && index < |g.moduleGlobals|
    requires decl.name == Some(g.moduleGlobals[index].name)
    requires decl.init.Some? <==> g.moduleGlobals[index].init.Some?
    requires g.moduleGlobals[index].init.Some? ==> IsConstant(g.moduleGlobals[index].init.value)
    ensures Sound(r.g) && Appends(g, r.g) && r.g.moduleFunctions == g.moduleFunctions && r.out.Ok?
    ensures |r.g.globals| == |g.globals| + 1 && GlobalBound(r.g, decl, r.g.globals[|g.globals|])
  {
    InternPointer(g, decl.ty, decl.space);
    var (h, g') := Intern(g, Type(None, Pointer(decl.ty, decl.space)), g.types[decl.ty].span);
    Step(Ok(()), g'.(globals := g'.globals + [(GlobalRef(index), h)]))
  }

  /** Interning the pointer type to `ty` keeps the state sound and changes nothing but the arena. */
  lemma InternPointer(g: Gen, ty: Handle, space: AddressSpace)
    requires Sound(g) && ty < |g.types|
    ensures var (h, g') := Intern(g, Type(None, Pointer(ty, space)), g.types[ty].span);
            && Sound(g') && g' == g.(types := g'.types) && g.types <= g'.types
            && h < |g'.types| && g'.types[h].item == Type(None, Pointer(ty, space))
  {
    InternAdvances(g, Type(None, Pointer(ty, space)), g.types[ty].span);
    AdvancesSound(g, Intern(g, Type(None, Pointer(ty, space)), g.types[ty].span).1);
  }

  /** `generate_globals` from the `k`-th global on: in declaration order, the first failure ends it. */
  function GenerateGlobals(ctx: Ctx, n: nat, g: Gen, k: nat): (r: Step<()>)
    requires Consistent(ctx, n, g) && k <= |ctx.src.globalVariables|
    ensures Ready(r.g, n) && Appends(g, r.g) && r.g.moduleFunctions == g.moduleFunctions
    ensures r.out.Ok? ==> GlobalsBound(r.g, ctx.src.globalVariables, |g.globals|, k)
    decreases |ctx.src.globalVariables| - k
  {
    if k == |ctx.src.globalVariables| then Step(Ok(()), g)
    else
      var (_, g1) :- LowerGlobal(ctx, n, g, ctx.src.globalVariables[k]);
      var r := GenerateGlobals(ctx, n, g1, k + 1);
      GlobalsStep(g, g1, r, ctx.src.globalVariables, k);
      r
  }

  /** The native types of the arguments from the `k`-th on, lowered in order through the type cache. */
  function ParamTypes(ctx: Ctx, g: Gen, args: seq<FunctionArgument>, k: nat): (r: Step<seq<NativeType>>)
    requires TypesWf(g.types) && k <= |args| && forall i :: 0 <= i < |args| ==> args[i].ty < |g.types|
    ensures TypeCachesOnly(g, r.g)
    ensures r.out.Ok? ==> |r.out.value| == |args| - k
    decreases |args| - k
  {
    if k == |args| then Step(Ok([]), g)
    else
      var (t, g1) :- EvalCachedType(ctx, g, Undefined, args[k].ty);
      var (ts, g2) :- ParamTypes(ctx, g1, args, k + 1);
      Step(Ok([t] + ts), g2)
  }

  /** Reference: the lowered types of the arguments from the `k`-th on, failing at the first that fails. */
  function LoweredParams(dl: DataLayout, types: TypeArena, args: seq<FunctionArgument>, k: nat): Outcome<seq<NativeType>>
    requires TypesWf(types) && k <= |args| && forall i :: 0 <= i < |args| ==> args[i].ty < |types|
    decreases |args| - k
  {
    if k == |args| then Ok([])
    else
      var t :- Lowered(dl, types, Undefined, args[k].ty);
      var ts :- LoweredParams(dl, types, args, k + 1);
      Ok([t] + ts)
  }

  /** The native return type: the lowered result type, or void when the function declares none. */
  function ResultType(ctx: Ctx, g: Gen, result: Option<FunctionResult>): (r: Step<NativeType>)
    requires TypesWf(g.types) && (result.Some? ==> result.value.ty < |g.types|)
    ensures TypeCachesOnly(g, r.g)
    ensures result.None? ==> r == Step(Ok(VoidType), g)
  {
    match result
    case None => Step(Ok(VoidType), g)
    case Some(FunctionResult(ty)) => EvalCachedType(ctx, g, Undefined, ty)
  }

  /**
   * `generate_llvm_function`: the parameter types and then the return type
   * are lowered; an unnamed function is not implemented; otherwise a native
   * function of that signature is added, its entry block starts at the current
   * end of the instruction log, and the function state starts with no locals
   * and no parameters.
   */
  function GenerateLlvmFunction(ctx: Ctx, n: nat, g: Gen, f: Function): (r: Step<(nat, Location)>)
    requires TypesWf(g.types) && n <= |g.types| && FunctionWf(f, ctx.src, n)
    ensures r.g == g.(typeCache := r.g.typeCache, structMaps := r.g.structMaps, moduleFunctions := r.g.moduleFunctions)
    ensures g.moduleFunctions <= r.g.moduleFunctions
    ensures f.name.None? ==> !r.out.Ok?
    ensures r.out.Ok? ==>
              && r.out.value == (|g.moduleFunctions|, FunctionState(f, [], []))
              && f.name.Some? && |r.g.moduleFunctions| == |g.moduleFunctions| + 1
              && r.g.moduleFunctions[|g.moduleFunctions|].name == f.name.value
              && r.g.moduleFunctions[|g.moduleFunctions|].entry == |g.log|
              && r.g.moduleFunctions[|g.moduleFunctions|].fnTy.FunctionType?
              && |r.g.moduleFunctions[|g.moduleFunctions|].fnTy.params| == |f.arguments|
  {
    var (params, g1) :- ParamTypes(ctx, g, f.arguments, 0);
    var (ret, g2) :- ResultType(ctx, g1, f.result);
    if f.name.None? then Step(Panic(NotImplemented), g2)
    else
      var native := NativeFunction(f.name.value, FunctionType(ret, params), |g2.log|);
      Step(Ok((|g2.moduleFunctions|, FunctionState(f, [], []))), g2.(moduleFunctions := g2.moduleFunctions + [native]))
  }

  /**
   * The entry `entry` of a function state's locals list stands for `decl`:
   * the result of an `alloca` in the log, and the interned pointer type to
   * `decl`'s type in the function address space.
   */
  ghost predicate LocalBound(g: Gen, decl: LocalVariable, entry: (Value, Handle))
  {
    && entry.1 < |g.types| && g.types[entry.1].item == Type(None, Pointer(decl.ty, Function))
    && entry.0.Inst? && entry.0.instr.Alloca? && entry.0.id < |g.log| && g.log[entry.0.id] == entry.0.instr
  }

  /**
   * One local of `generate_locals`: stack space of the type's storage type
   * (an array of columns for a matrix) is allocated, the initializer, if
   * any, stored into it at the local's span, and the pointer entered with the
   * interned pointer type (carrying the span of the local's type). The
   * initializer is evaluated in `loc`, which holds only the locals before
   * this one and no parameters yet.
   */
  function LowerLocal(ctx: Ctx, n: nat, g: Gen, loc: Location, decl: Spanned<LocalVariable>)
    : (r: Step<(Value, Handle)>)
    requires Consistent(ctx, n, g) && LocWf(ctx.src, loc, |g.types|) && decl.item.ty < |g.types|
    requires decl.item.init.Some? ==> decl.item.init.value < |GetExprs(ctx.src, loc)|
    ensures Ready(r.g, n) && Grows(g, r.g)
    ensures r.out.Ok? ==> LocalBound(r.g, decl.item, r.out.value)
    ensures r.out.Ok? && decl.item.init.Some? ==> Stored(ctx.dl, r.g, decl.span, r.out.value.0, decl.item.init.value)
  {
    var (pointer, g2) :- Allocate(ctx, g, decl.item.ty);
    var r := InitLocal(ctx, n, g2, loc, decl, pointer);
    GrowsTrans(g, g2, r.g);
    r
  }

  /** The allocated local `pointer`: its initializer, if any, stored, then its locals-list entry made. */
  function InitLocal(ctx: Ctx, n: nat, g: Gen, loc: Location, decl: Spanned<LocalVariable>, pointer: Value)
    : (r: Step<(Value, Handle)>)
    requires Consistent(ctx, n, g) && LocWf(ctx.src, loc, |g.types|) && decl.item.ty < |g.types|
    requires decl.item.init.Some? ==> decl.item.init.value < |GetExprs(ctx.src, loc)|
    requires pointer.Inst? && pointer.instr.Alloca? && pointer.id < |g.log| && g.log[pointer.id] == pointer.instr
    ensures Ready(r.g, n) && Grows(g, r.g)
    ensures r.out.Ok? ==> LocalBound(r.g, decl.item, r.out.value) && r.out.value.0 == pointer
    ensures r.out.Ok? && decl.item.init.Some? ==> Stored(ctx.dl, r.g, decl.span, r.out.value.0, decl.item.init.value)
  {
    match decl.item.init
    case None => PushLocal(ctx.dl, g, decl, pointer)
    case Some(init) =>
      SrcWfGrows(ctx.src, n, |g.types|);
      var (_, g3) :- BuildStore(ctx, |g.types|, g, loc, decl.span, pointer, init);
      var r := PushLocal(ctx.dl, g3, decl, pointer);
      GrowsTrans(g, g3, r.g);
      r
  }

  /**
   * The locals-list entry for `decl`: `pointer` with the pointer type to the
   * local's type, interned with the span of that type.
   */
  function PushLocal(dl: DataLayout, g: Gen, decl: Spanned<LocalVariable>, pointer: Value): (r: Step<(Value, Handle)>)
    requires Sound(g) && decl.item.ty < |g.types|
    requires pointer.Inst? && pointer.instr.Alloca? && pointer.id < |g.log| && g.log[pointer.id] == pointer.instr
    requires decl.item.init.Some? ==> Stored(dl, g, decl.span, pointer, decl.item.init.value)
    ensures Sound(r.g) && Grows(g, r.g) && r.out.Ok? && r.out.value.0 == pointer
    ensures LocalBound(r.g, decl.item, r.out.value)
    ensures decl.item.init.Some? ==> Stored(dl, r.g, decl.span, pointer, decl.item.init.value)
  {
    var ty := decl.item.ty;
    InternPointer(g, ty, Function);
    var (h, g') := Intern(g, Type(None, Pointer(ty, Function)), g.types[ty].span);
    StoredKept(dl, g, g', decl.span, pointer, decl.item.init);
    Step(Ok((pointer, h)), g')
  }

  /**
   * Stack space for a local of type `ty`: an `alloca` of the type's storage
   * type, lowered through the pointer-type cache with the span of the type.
   */
  function Allocate(ctx: Ctx, g: Gen, ty: Handle): (r: Step<Value>)
    requires Sound(g) && ty < |g.types|
    ensures Sound(r.g) && Grows(g, r.g) && r.g.types == g.types && r.g.exprCache == g.exprCache
    ensures r.out.Ok? ==>
              && r.out.value.Inst? && r.out.value.instr.Alloca? && r.out.value.id < |r.g.log|
              && r.g.log[r.out.value.id] == r.out.value.instr
    ensures r.out.Ok? <==> EvalCachedPointerType(ctx, g, g.types[ty].span, ty).out.Ok?
  {
    var (t, g1) :- EvalCachedPointerType(ctx, g, g.types[ty].span, ty);
    var (pointer, g2) := Build(g1, Alloca(t));
    Step(Ok(pointer), g2)
  }

  /** A store stays the last instruction when only the type arena grows. */
  lemma StoredKept(dl: DataLayout, g: Gen, g': Gen, span: Span, pointer: Value, value: Option<Handle>)
    requires value.Some? ==> Stored(dl, g, span, pointer, value.value)
    requires g.types <= g'.types && g'.log == g.log && g'.exprCache == g.exprCache
    ensures value.Some? ==> Stored(dl, g', span, pointer, value.value)
  {
    if value.Some? {
      assert g'.types[g.exprCache[value.value].1] == g.types[g.exprCache[value.value].1];
    }
  }

  /** Entries `base..` of `locals` stand for the declarations from the `k`-th on, in order. */
  ghost predicate LocalsBound(g: Gen, decls: seq<Spanned<LocalVariable>>, locals: seq<(Value, Handle)>, base: nat,
                              k: nat)
    requires k <= |decls|
  {
    && |locals| == base + |decls| - k
    && forall i :: k <= i < |decls| ==> LocalBound(g, decls[i].item, locals[base + i - k])
  }

  /** One more local bound in front of the rest. */
  lemma LocalsStep(g1: Gen, g: Gen, decls: seq<Spanned<LocalVariable>>, prefix: seq<(Value, Handle)>,
                   entry: (Value, Handle), locals: seq<(Value, Handle)>, k: nat)
    requires k < |decls| && LocalBound(g1, decls[k].item, entry)
    requires g1.types <= g.types && g1.log <= g.log
    requires prefix + [entry] <= locals && LocalsBound(g, decls, locals, |prefix| + 1, k + 1)
    ensures prefix <= locals && LocalsBound(g, decls, locals, |prefix|, k)
  {
    assert locals[|prefix|] == (prefix + [entry])[|prefix|] == entry;
    assert prefix == (prefix + [entry])[..|prefix|];
    assert g.types[entry.1] == g1.types[entry.1];
    assert g.log[entry.0.id] == g1.log[entry.0.id];
  }

  /** The rest of the locals loop after local `k` was lowered from `g` to `g1` as `entry`. */
  lemma LocalsRest(src: Src, g: Gen, g1: Gen, loc: Location, entry: (Value, Handle), r: Step<Location>, k: nat)
    requires loc.FunctionState? && k < |loc.srcFunction.localVariables|
    requires LocalBound(g1, loc.srcFunction.localVariables[k].item, entry) && Grows(g, g1) && Grows(g1, r.g)
    requires var next := loc.(locals := loc.locals + [entry]);
             r.out.Ok? ==>
               && r.out.value.FunctionState? && r.out.value.srcFunction == next.srcFunction
               && r.out.value.params == next.params
               && LocWf(src, r.out.value, |r.g.types|)
               && next.locals <= r.out.value.locals
               && LocalsBound(r.g, next.srcFunction.localVariables, r.out.value.locals, |next.locals|, k + 1)
    ensures Grows(g, r.g)
    ensures r.out.Ok? ==>
              && r.out.value.FunctionState? && r.out.value.srcFunction == loc.srcFunction
              && r.out.value.params == loc.params
              && LocWf(src, r.out.value, |r.g.types|)
              && loc.locals <= r.out.value.locals
              && LocalsBound(r.g, loc.srcFunction.localVariables, r.out.value.locals, |loc.locals|, k)
  {
    GrowsTrans(g, g1, r.g);
    if r.out.Ok? {
      LocalsStep(g1, r.g, loc.srcFunction.localVariables, loc.locals, entry, r.out.value.locals, k);
    }
  }

  /** Entering a local whose type exists keeps a location well-formed. */
  lemma LocWfPush(src: Src, loc: Location, entry: (Value, Handle), n: nat, m: nat)
    requires loc.FunctionState? && LocWf(src, loc, n) && n <= m && entry.1 < m
    ensures LocWf(src, loc.(locals := loc.locals + [entry]), m)
  {
    LocWfGrows(src, loc, n, m);
  }

  /**
   * `generate_locals` from the `k`-th local on: in declaration order, each
   * entered in the function state's locals list before the next is lowered;
   * the first failure ends it.
   */
  function GenerateLocals(ctx: Ctx, n: nat, g: Gen, loc: Location, k: nat): (r: Step<Location>)
    requires Consistent(ctx, n, g) && loc.FunctionState? && LocWf(ctx.src, loc, |g.types|)
    requires k <= |loc.srcFunction.localVariables|
    ensures Ready(r.g, n) && Grows(g, r.g)
    ensures r.out.Ok? ==>
              && r.out.value.FunctionState? && r.out.value.srcFunction == loc.srcFunction
              && r.out.value.params == loc.params
              && LocWf(ctx.src, r.out.value, |r.g.types|)
              && loc.locals <= r.out.value.locals
              && LocalsBound(r.g, loc.srcFunction.localVariables, r.out.value.locals, |loc.locals|, k)
    decreases |loc.srcFunction.localVariables| - k
  {
    if k == |loc.srcFunction.localVariables| then Step(Ok(loc), g)
    else
      var (entry, g1) :- LowerLocal(ctx, n, g, loc, loc.srcFunction.localVariables[k]);
      LocWfPush(ctx.src, loc, entry, |g.types|, |g1.types|);
      var r := GenerateLocals(ctx, n, g1, loc.(locals := loc.locals + [entry]), k + 1);
      LocalsRest(ctx.src, g, g1, loc, entry, r, k);
      r
  }

  /** The locals loop stands at local `k` with function state `state`, and `spec` is what it returns from there. */
  ghost predicate LocalsAt(ctx: Ctx, n: nat, g: Gen, state: Location, k: nat, spec: Step<Location>)
  {
    && Consistent(ctx, n, g) && state.FunctionState? && LocWf(ctx.src, state, |g.types|)
    && k <= |state.srcFunction.localVariables|
    && spec == GenerateLocals(ctx, n, g, state, k)
  }

  /** One pass of `generate_locals`: the `k`-th local lowered, then the rest, or the failure that ends it. */
  lemma LocalsUnfold(ctx: Ctx, n: nat, g: Gen, loc: Location, k: nat, r1: Step<(Value, Handle)>)
    requires Consistent(ctx, n, g) && loc.FunctionState? && LocWf(ctx.src, loc, |g.types|)
    requires k < |loc.srcFunction.localVariables|
    requires r1 == LowerLocal(ctx, n, g, loc, loc.srcFunction.localVariables[k])
    ensures !r1.out.Ok? ==> GenerateLocals(ctx, n, g, loc, k) == Step(r1.out.PropagateFailure(), r1.g)
    ensures r1.out.Ok? ==>
              && Consistent(ctx, n, r1.g) && LocWf(ctx.src, loc.(locals := loc.locals + [r1.out.value]), |r1.g.types|)
              && GenerateLocals(ctx, n, g, loc, k)
                   == GenerateLocals(ctx, n, r1.g, loc.(locals := loc.locals + [r1.out.value]), k + 1)
  {
    if r1.out.Ok? {
      LocWfPush(ctx.src, loc, r1.out.value, |g.types|, |r1.g.types|);
    }
  }

  /** The parameter list of native function `index`: parameter `i` with argument `i`'s type. */
  function BindParams(index: nat, args: seq<FunctionArgument>): (r: seq<(Value, Handle)>)
    ensures |r| == |args| && forall i :: 0 <= i < |args| ==> r[i] == (Param(index, i), args[i].ty)
  {
    seq(|args|, i requires 0 <= i < |args| => (Param(index, i), args[i].ty))
  }

  /** Binding the parameters keeps a location well-formed. */
  lemma BindParamsWf(src: Src, loc: Location, index: nat, n: nat)
    requires loc.FunctionState? && LocWf(src, loc, n)
    ensures LocWf(src, loc.(params := loc.params + BindParams(index, loc.srcFunction.arguments)), n)
  {
  }

  /** The body statements from the `k`-th on, in order, each with its own span; the first failure ends it. */
  function EmitBody(ctx: Ctx, n: nat, g: Gen, loc: Location, k: nat): (r: Step<()>)
    requires Consistent(ctx, n, g) && loc.FunctionState? && LocWf(ctx.src, loc, |g.types|)
    requires k <= |loc.srcFunction.body|
    ensures Ready(r.g, n) && Grows(g, r.g)
    decreases |loc.srcFunction.body| - k
  {
    if k == |loc.srcFunction.body| then Step(Ok(()), g)
    else
      var stmt := loc.srcFunction.body[k];
      SrcWfGrows(ctx.src, n, |g.types|);
      var (_, g1) :- EmitStatement(ctx, |g.types|, g, loc, stmt.span, stmt.item);
      LocWfGrows(ctx.src, loc, |g.types|, |g1.types|);
      var r := EmitBody(ctx, n, g1, loc, k + 1);
      GrowsTrans(g, g1, r.g);
      r
  }

  /** One pass of the body loop: statement `k` emitted, then the rest, or the failure that ends the body. */
  lemma BodyUnfold(ctx: Ctx, n: nat, g: Gen, loc: Location, k: nat, r1: Step<()>)
    requires Consistent(ctx, n, g) && loc.FunctionState? && LocWf(ctx.src, loc, |g.types|)
    requires k < |loc.srcFunction.body|
    requires r1 == EmitStatement(ctx, |g.types|, g, loc, loc.srcFunction.body[k].span, loc.srcFunction.body[k].item)
    ensures !r1.out.Ok? ==> EmitBody(ctx, n, g, loc, k) == Step(r1.out.PropagateFailure(), r1.g)
    ensures r1.out.Ok? ==>
              && Consistent(ctx, n, r1.g) && LocWf(ctx.src, loc, |r1.g.types|)
              && EmitBody(ctx, n, g, loc, k) == EmitBody(ctx, n, r1.g, loc, k + 1)
  {
    LocWfGrows(ctx.src, loc, |g.types|, |r1.g.types|);
  }

  /**
   * One function of `generate`: the expression cache is cleared, the native
   * function added, the locals lowered, then the parameters bound (after the
   * locals, so local initializers see none) and the body emitted.
   */
  function LowerFunction(ctx: Ctx, n: nat, g: Gen, f: Function): (r: Step<()>)
    requires Consistent(ctx, n, g) && FunctionWf(f, ctx.src, n)
    ensures Ready(r.g, n) && Appends(g, r.g) && r.g.globals == g.globals
    ensures r.out.Ok? ==>
              && f.name.Some? && |r.g.moduleFunctions| == |g.moduleFunctions| + 1
              && r.g.moduleFunctions[|g.moduleFunctions|].name == f.name.value
  {
    var g0 := g.(exprCache := map[]);
    var ((index, loc), g1) :- GenerateLlvmFunction(ctx, n, g0, f);
    FunctionWfGrows(f, ctx.src, n, |g1.types|);
    var r := LowerBody(ctx, n, g1, index, loc);
    FunctionAppends(g, g1, r.g);
    r
  }

  /**
   * The rest of `generate` for one function, once its native function
   * `index` exists: the locals, then the parameter bindings, then the body.
   */
  function LowerBody(ctx: Ctx, n: nat, g: Gen, index: nat, loc: Location): (r: Step<()>)
    requires Consistent(ctx, n, g) && loc.FunctionState? && LocWf(ctx.src, loc, |g.types|)
    ensures Ready(r.g, n) && Grows(g, r.g)
  {
    var (loc1, g1) :- GenerateLocals(ctx, n, g, loc, 0);
    BindParamsWf(ctx.src, loc1, index, |g1.types|);
    var r := EmitBody(ctx, n, g1, loc1.(params := loc1.params + BindParams(index, loc1.srcFunction.arguments)), 0);
    GrowsTrans(g, g1, r.g);
    r
  }

  lemma FunctionAppends(g: Gen, g1: Gen, g2: Gen)
    requires g1.types == g.types && g1.log == g.log && g1.globals == g.globals && g1.moduleGlobals == g.moduleGlobals
    requires g.moduleFunctions <= g1.moduleFunctions
    requires Grows(g1, g2)
    ensures Appends(g, g2) && g2.globals == g.globals && g2.moduleFunctions == g1.moduleFunctions
  {
  }

  /** Entries `base..` of `natives` are named after the source functions from the `k`-th on, in order. */
  ghost predicate FunctionsNamed(fs: seq<Function>, natives: seq<NativeFunction>, base: nat, k: nat)
    requires k <= |fs|
  {
    && |natives| == base + |fs| - k
    && forall i :: k <= i < |fs| ==> fs[i].name == Some(natives[base + i - k].name)
  }

  /** One more function named in front of the rest, after the step from `g0` to `g1` that lowered function `k`. */
  lemma FunctionsStep(fs: seq<Function>, g0: Gen, g1: Gen, r: Step<()>, k: nat)
    requires k < |fs| && Appends(g0, g1) && Appends(g1, r.g)
    requires |g1.moduleFunctions| == |g0.moduleFunctions| + 1
    requires fs[k].name == Some(g1.moduleFunctions[|g0.moduleFunctions|].name)
    requires r.out.Ok? ==> FunctionsNamed(fs, r.g.moduleFunctions, |g1.moduleFunctions|, k + 1)
    ensures Appends(g0, r.g)
    ensures r.out.Ok? ==> FunctionsNamed(fs, r.g.moduleFunctions, |g0.moduleFunctions|, k)
  {
    AppendsTrans(g0, g1, r.g);
    if r.out.Ok? {
      assert r.g.moduleFunctions[|g0.moduleFunctions|] == g1.moduleFunctions[|g0.moduleFunctions|];
    }
  }

  /** The functions from the `k`-th on, in order; the first failure ends `generate`. */
  function GenerateFunctions(ctx: Ctx, n: nat, g: Gen, k: nat): (r: Step<()>)
    requires Consistent(ctx, n, g) && k <= |ctx.src.functions|
    ensures Ready(r.g, n) && Appends(g, r.g) && r.g.globals == g.globals
    ensures r.out.Ok? ==> FunctionsNamed(ctx.src.functions, r.g.moduleFunctions, |g.moduleFunctions|, k)
    decreases |ctx.src.functions| - k
  {
    if k == |ctx.src.functions| then Step(Ok(()), g)
    else
      var (_, g1) :- LowerFunction(ctx, n, g, ctx.src.functions[k]);
      var r := GenerateFunctions(ctx, n, g1, k + 1);
      FunctionsStep(ctx.src.functions, g, g1, r, k);
      r
  }

  /**
   * `generate`: all globals first, then every function; the first failure is
   * returned unchanged. On success the globals list stands for the declared
   * globals in order and the module holds one function per source function,
   * in order.
   */
  function Generate(ctx: Ctx, n: nat, g: Gen): (r: Step<()>)
    requires Consistent(ctx, n, g) && g.globals == []
    ensures Ready(r.g, n) && Appends(g, r.g)
    ensures r.out.Ok? ==>
              && GlobalsBound(r.g, ctx.src.globalVariables, 0, 0)
              && FunctionsNamed(ctx.src.functions, r.g.moduleFunctions, |g.moduleFunctions|, 0)
  {
    var (_, g1) :- GenerateGlobals(ctx, n, g, 0);
    var r := GenerateFunctions(ctx, n, g1, 0);
    AppendsTrans(g, g1, r.g);
    if r.out.Ok? then
      GlobalsKept(g1, r.g, ctx.src.globalVariables);
      r
    else r
  }

  lemma GlobalsKept(g: Gen, g': Gen, decls: seq<GlobalVariable>)
    requires GlobalsBound(g, decls, 0, 0) && Appends(g, g') && g'.globals == g.globals
    ensures GlobalsBound(g', decls, 0, 0)
  {
    forall i | 0 <= i < |decls| ensures GlobalBound(g', decls[i], g'.globals[i]) {
      GlobalBoundKept(g, g', decls[i], g.globals[i]);
    }
  }
}
