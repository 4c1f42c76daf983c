/**
 * The `Generator` object: its fields are updated in place by `build_store`,
 * `generate_globals`, `generate_llvm_function`, `generate_locals`,
 * `emit_statement` and `generate`, whose loops are written out here. Each
 * method leaves exactly the outcome and the state that the corresponding
 * function of `Codegen`, `Statements`, `Types` or the expression modules
 * computes from the state before the call; the remaining type lowering and
 * expression evaluation are taken from those functions through `Apply`.
 */
module Generation {
  import opened Wrappers
  import opened Ir
  import opened Native
  import opened Errors
  import opened State
  import opened Types
  import opened Locations
  import opened Loads
  import opened Expressions
  import Statements
  import Codegen
  import Swizzles
  import Splats
  import Binary
  import TypeFacts

  /** A successful step's result with `prefix` in front of it. */
  function Prepended(prefix: seq<NativeType>, step: Step<seq<NativeType>>): Step<seq<NativeType>>
  {
    if step.out.Ok? then Step(Ok(prefix + step.out.value), step.g) else step
  }

  lemma PrependedEmpty(step: Step<seq<NativeType>>)
    ensures Prepended([], step) == step
  {
    if step.out.Ok? {
      assert [] + step.out.value == step.out.value;
    }
  }

  /** Lowering one more argument type moves it from the rest to the prefix. */
  lemma PrependedStep(ctx: Ctx, g: Gen, args: seq<FunctionArgument>, k: nat, prefix: seq<NativeType>)
    requires TypesWf(g.types) && k < |args| && forall i :: 0 <= i < |args| ==> args[i].ty < |g.types|
    requires EvalCachedType(ctx, g, Undefined, args[k].ty).out.Ok?
    ensures var (t, g1) := EvalCachedType(ctx, g, Undefined, args[k].ty).Extract();
            Prepended(prefix, Codegen.ParamTypes(ctx, g, args, k)) == Prepended(prefix + [t], Codegen.ParamTypes(ctx, g1, args, k + 1))
  {
    var (t, g1) := EvalCachedType(ctx, g, Undefined, args[k].ty).Extract();
    var rest := Codegen.ParamTypes(ctx, g1, args, k + 1);
    if rest.out.Ok? {
      assert prefix + ([t] + rest.out.value) == (prefix + [t]) + rest.out.value;
    }
  }

  class Generator {
    /** The source module (its type arena is the `types` field) and the target's data layout. */
    const src: Src
    const dl: DataLayout

    var types: TypeArena
    var log: seq<Instr>
    var exprCache: map<Handle, (Value, Handle)>
    var typeCache: map<Handle, NativeType>
    var pointerTypeCache: map<Handle, NativeType>
    var globals: seq<(Value, Handle)>
    var structMaps: map<Handle, seq<nat>>
    var moduleGlobals: seq<NativeGlobal>
    var moduleFunctions: seq<NativeFunction>

    /** The fields as a generator state. */
    function State(): Gen
      reads this
    {
      Gen(types, log, exprCache, typeCache, pointerTypeCache, globals, structMaps, moduleGlobals, moduleFunctions)
    }

    function Context(): Ctx
    {
      Ctx(src, dl)
    }

    /** `Generator::new`: empty caches, no globals, an empty module. */
    constructor (src: Src, types: TypeArena, dl: DataLayout)
      ensures Context() == Ctx(src, dl) && State() == NewGen(types)
    {
      this.src := src;
      this.dl := dl;
      this.types := types;
      log := [];
      exprCache := map[];
      typeCache := map[];
      pointerTypeCache := map[];
      globals := [];
      structMaps := map[];
      moduleGlobals := [];
      moduleFunctions := [];
    }

    /** Takes over the state a lowering step of the specification leaves behind, and returns its outcome. */
    method Apply<T>(step: Step<T>) returns (out: Outcome<T>)
      modifies this
      ensures State() == step.g && out == step.out
    {
      types := step.g.types;
      log := step.g.log;
      exprCache := step.g.exprCache;
      typeCache := step.g.typeCache;
      pointerTypeCache := step.g.pointerTypeCache;
      globals := step.g.globals;
      structMaps := step.g.structMaps;
      moduleGlobals := step.g.moduleGlobals;
      moduleFunctions := step.g.moduleFunctions;
      out := step.out;
    }

    /** `eval_cached_expr`: an expression evaluated through the expression cache. */
    method EvalCachedExpr(n: nat, loc: Location, h: Handle) returns (out: Outcome<(Value, Handle)>)
      requires Scope(Context(), loc, n) && Ready(State(), n) && h < |GetExprs(src, loc)|
      modifies this
      ensures Step(out, State()) == Expressions.EvalCachedExpr(Context(), n, old(State()), loc, h)
    {
      out := Apply(Expressions.EvalCachedExpr(Context(), n, State(), loc, h));
    }

    /** `eval_cached_type`: a type lowered through the type cache. */
    method EvalCachedType(span: Span, ty: Handle) returns (out: Outcome<NativeType>)
      requires TypesWf(types) && ty < |types|
      modifies this
      ensures Step(out, State()) == Types.EvalCachedType(Context(), old(State()), span, ty)
    {
      out := Apply(Types.EvalCachedType(Context(), State(), span, ty));
    }

    /** `eval_cached_pointer_type`: the storage type behind a pointer, through the pointer-type cache. */
    method EvalCachedPointerType(span: Span, ty: Handle) returns (out: Outcome<NativeType>)
      requires TypesWf(types) && ty < |types|
      modifies this
      ensures Step(out, State()) == Types.EvalCachedPointerType(Context(), old(State()), span, ty)
    {
      out := Apply(Types.EvalCachedPointerType(Context(), State(), span, ty));
    }

    /**
     * The mask loop of `build_swizzle`: lane `i` of the mask is set to
     * `pattern[i]` for each of the first `size` entries, and the first entry
     * beyond the input size `inSize` ends the loop with `NoSuchComponent`.
     */
    method SwizzleMask(span: Span, ty: Handle, inSize: nat, size: nat, pattern: seq<nat>) returns (out: Outcome<Value>)
      requires size <= |pattern| && size <= 4 && inSize <= 4
      modifies this
      ensures Step(out, State())
                == Swizzles.SwizzleMask(old(State()), span, ty, inSize, size, pattern, 0, Undef(VectorType(IntType(64), size)))
    {
      var mask := Undef(VectorType(IntType(64), size));
      var i := 0;
      while i < size
        invariant i <= size
        invariant Swizzles.SwizzleMask(old(State()), span, ty, inSize, size, pattern, 0, Undef(VectorType(IntType(64), size)))
                    == Swizzles.SwizzleMask(State(), span, ty, inSize, size, pattern, i, mask)
      {
        if pattern[i] > inSize {
          return Err(Error(NoSuchComponent(ty, pattern[i]), span));
        }
        var lane := InsertElement(mask, ConstU64(pattern[i]), ConstU64(i));
        mask := Inst(|log|, lane);
        log := log + [lane];
        i := i + 1;
      }
      return Ok(mask);
    }

    /**
     * The lane loop of `build_splat` for a non-constant operand: `value` is
     * inserted into `vec` at lanes `0` to `size - 1`, in order.
     */
    method SplatLanes(value: Value, size: nat, vec: Value) returns (splat: Value)
      requires size <= 4
      modifies this
      ensures (splat, State()) == Splats.SplatLanes(old(State()), value, size, 0, vec)
    {
      splat := vec;
      var i := 0;
      while i < size
        invariant i <= size
        invariant Splats.SplatLanes(old(State()), value, size, 0, vec) == Splats.SplatLanes(State(), value, size, i, splat)
      {
        var lane := InsertElement(splat, value, ConstU64(i));
        splat := Inst(|log|, lane);
        log := log + [lane];
        i := i + 1;
      }
    }

    /**
     * The column loop of `component_wise_op!` on matrices: column `c` of
     * both operands is extracted, combined with `opc` and inserted at column
     * `c` of `acc`, for every column in order.
     */
    method MatrixColumns(opc: Opcode, lhs: Value, rhs: Value, columns: nat, acc: Value) returns (result: Value)
      modifies this
      ensures (result, State()) == Binary.MatrixColumns(old(State()), opc, lhs, rhs, columns, 0, acc)
    {
      result := acc;
      var c := 0;
      ghost var spec := Binary.MatrixColumns(State(), opc, lhs, rhs, columns, 0, acc);
      while c < columns
        invariant c <= columns
        invariant spec == Binary.MatrixColumns(State(), opc, lhs, rhs, columns, c, result)
      {
        result := MatrixColumn(opc, lhs, rhs, c, result);
        c := c + 1;
      }
    }

    /** Column `c`: extracted from both operands, combined with `opc` and inserted at column `c` of `acc`. */
    method MatrixColumn(opc: Opcode, lhs: Value, rhs: Value, c: nat, acc: Value) returns (result: Value)
      modifies this
      ensures var instrs := Binary.ColumnInstrs(|old(log)|, opc, lhs, rhs, c, acc);
              State() == old(State()).(log := old(log) + instrs) && result == Inst(|old(log)| + 3, instrs[3])
    {
      var base := |log|;
      var l := Inst(base, ExtractValue(lhs, c));
      var r := Inst(base + 1, ExtractValue(rhs, c));
      var combined := Inst(base + 2, BinOp(opc, l, r));
      var inserted := InsertValue(acc, combined, c);
      log := log + [ExtractValue(lhs, c), ExtractValue(rhs, c), BinOp(opc, l, r), inserted];
      result := Inst(base + 3, inserted);
    }

    /**
     * The member loop of `eval_type`'s struct arm: padding is inserted before
     * a member whose offset lies beyond the running offset, each member's type
     * is lowered through the type cache, and its native index recorded.
     */
    method StructMembers(span: Span, ty: Handle, members: seq<StructMember>)
      returns (out: Outcome<(seq<NativeType>, seq<nat>)>)
      requires TypesWf(types) && ty < |types| && MembersBelow(members, ty)
      modifies this
      ensures Step(out, State()) == Types.StructMembers(Context(), old(State()), span, ty, members, 0, 0, 0, [], [])
    {
      var offset: U32 := 0;
      var idx: nat := 0;
      var fields := [];
      var slots := [];
      var k := 0;
      ghost var spec := Types.StructMembers(Context(), State(), span, ty, members, 0, 0, 0, [], []);
      while k < |members|
        invariant k <= |members| && types == old(types)
        invariant spec == Types.StructMembers(Context(), State(), span, ty, members, k, offset, idx, fields, slots)
        decreases |members| - k
      {
        var target := members[k].offset;
        if offset < target && (target - offset) * 8 >= 0x1_0000_0000 {
          return Panic(MulOverflow);
        }
        var fields1 := if offset < target then fields + [IntType((target - offset) * 8)] else fields;
        var offset1: U32 := if offset < target then target else offset;
        var idx1: nat := if offset < target then idx + 1 else idx;
        var step;
        step, offset := StructMember(span, ty, members, k, offset, idx, fields, slots, fields1, offset1, idx1);
        if step.IsFailure() {
          return step.PropagateFailure();
        }
        fields := fields1 + [step.value];
        slots := slots + [idx1];
        idx := idx1 + 1;
        k := k + 1;
      }
      return Ok((fields, slots));
    }

    /**
     * One pass of the member loop for member `k`, after the padding:
     * member `k`'s type lowered through the cache and the offset advanced
     * past it, or the failure that ends the loop.
     */
    method StructMember(span: Span, ty: Handle, members: seq<StructMember>, k: nat,
                        offset: U32, idx: nat, fields: seq<NativeType>, slots: seq<nat>,
                        fields1: seq<NativeType>, offset1: U32, idx1: nat)
      returns (out: Outcome<NativeType>, offset': U32)
      requires TypesWf(types) && ty < |types| && MembersBelow(members, ty) && k < |members|
      requires !(offset < members[k].offset && (members[k].offset - offset) * 8 >= 0x1_0000_0000)
      requires fields1 == if offset < members[k].offset then fields + [IntType((members[k].offset - offset) * 8)] else fields
      requires offset1 == if offset < members[k].offset then members[k].offset else offset
      requires idx1 == if offset < members[k].offset then idx + 1 else idx
      modifies this
      ensures types == old(types)
      ensures out.Ok? ==>
                Types.StructMembers(Context(), old(State()), span, ty, members, k, offset, idx, fields, slots)
                  == Types.StructMembers(Context(), State(), span, ty, members, k + 1, offset', idx1 + 1,
                                         fields1 + [out.value], slots + [idx1])
      ensures !out.Ok? ==>
                Types.StructMembers(Context(), old(State()), span, ty, members, k, offset, idx, fields, slots)
                  == Step(out.PropagateFailure(), State())
    {
      var lowered := Types.EvalCachedType(Context(), State(), span, members[k].ty);
      TypeFacts.StructMembersUnfold(Context(), State(), span, ty, members, k, offset, idx, fields, slots,
                                    fields1, offset1, idx1, lowered);
      out := Apply(lowered);
      offset' := offset;
      if out.Ok? {
        var size := dl.abiSize(out.value) % 0x1_0000_0000;
        if offset1 + size >= 0x1_0000_0000 {
          out := Panic(AddOverflow);
        } else {
          offset' := offset1 + size;
        }
      }
    }

    /**
     * `build_store`: evaluates `value` through the cache and stores it
     * through `pointer`.
     */
    method BuildStore(n: nat, loc: Location, span: Span, pointer: Value, value: Handle) returns (out: Outcome<()>)
      requires Scope(Context(), loc, n) && Ready(State(), n) && value < |GetExprs(src, loc)|
      modifies this
      ensures Step(out, State()) == Statements.BuildStore(Context(), n, old(State()), loc, span, pointer, value)
    {
      var evaluated :- EvalCachedExpr(n, loc, value);
      out := StoreEvaluated(span, pointer, evaluated.0, evaluated.1);
    }

    /**
     * The store itself, once the value is evaluated: the column-major store
     * intrinsic for a matrix, a plain store otherwise.
     */
    method StoreEvaluated(span: Span, pointer: Value, value: Value, ty: Handle) returns (out: Outcome<()>)
      requires ty < |types|
      modifies this
      ensures Step(out, State()) == Statements.StoreEvaluated(Context(), old(State()), span, pointer, value, ty)
    {
      match types[ty].item.inner
      case Matrix(columns, rows, scalar) =>
        var t :- EvalScalarType(span, scalar);
        var stride :- MatrixStride(dl, t, rows, scalar.width);
        log := log + [CallIntrinsic(ColumnMajorStore, [TypeOf(value), Known(IntType(64))],
                                    [value, pointer, ConstU64(stride), ConstBool(false), ConstU32(rows), ConstU32(columns)])];
        return Ok(());
      case _ =>
        log := log + [StoreValue(value, pointer)];
        return Ok(());
    }

    /**
     * `generate_globals`: every global in declaration order, each added to
     * the module and entered in the globals list; the first failure ends it.
     */
    method GenerateGlobals(n: nat) returns (out: Outcome<()>)
      requires Codegen.Consistent(Context(), n, State())
      modifies this
      ensures Step(out, State()) == Codegen.GenerateGlobals(Context(), n, old(State()), 0)
    {
      var k := 0;
      while k < |src.globalVariables|
        invariant k <= |src.globalVariables| && Codegen.Consistent(Context(), n, State())
        invariant Codegen.GenerateGlobals(Context(), n, old(State()), 0) == Codegen.GenerateGlobals(Context(), n, State(), k)
      {
        var _ :- LowerGlobal(n, src.globalVariables[k]);
        k := k + 1;
      }
      return Ok(());
    }

    /** One global: added to the module with its initializer, then entered in the globals list. */
    method LowerGlobal(n: nat, decl: GlobalVariable) returns (out: Outcome<()>)
      requires Codegen.Consistent(Context(), n, State()) && decl.ty < n
      requires decl.init.Some? ==> decl.init.value < |src.constExpressions|
      modifies this
      ensures Step(out, State()) == Codegen.LowerGlobal(Context(), n, old(State()), decl)
    {
      if decl.name.None? {
        return Panic(NotImplemented);
      }
      var t :- EvalCachedType(Undefined, decl.ty);
      var index := |moduleGlobals|;
      moduleGlobals := moduleGlobals + [NativeGlobal(decl.name.value, t, None)];
      var _ :- SetInitializer(n, index, decl.init);
      PushGlobal(decl, index);
      return Ok(());
    }

    /** The initializer, if any, evaluated in the global context; it must be a constant. */
    method SetInitializer(n: nat, index: nat, init: Option<Handle>) returns (out: Outcome<()>)
      requires Codegen.Consistent(Context(), n, State()) && index < |moduleGlobals|
      requires init.Some? ==> init.value < |src.constExpressions|
      modifies this
      ensures Step(out, State()) == Codegen.GlobalInit(Context(), n, old(State()), index, init)
    {
      if init.None? {
        return Ok(());
      }
      var evaluated :- EvalCachedExpr(n, Global, init.value);
      if !IsConstant(evaluated.0) {
        return Err(Error(NonConstantGlobal, src.constExpressions[init.value].span));
      }
      moduleGlobals := moduleGlobals[index := moduleGlobals[index].(init := Some(evaluated.0))];
      return Ok(());
    }

    /** The global's address, with the interned pointer type to its type, appended to the globals list. */
    method PushGlobal(decl: GlobalVariable, index: nat)
      requires Sound(State()) && decl.ty < |types| && index < |moduleGlobals|
      requires decl.name == Some(moduleGlobals[index].name)
      requires decl.init.Some? <==> moduleGlobals[index].init.Some?
      requires moduleGlobals[index].init.Some? ==> IsConstant(moduleGlobals[index].init.value)
      modifies this
      ensures Step(Ok(()), State()) == Codegen.PushGlobal(old(State()), decl, index)
    {
      var (arena, h) := Insert(types, Type(None, Pointer(decl.ty, decl.space)), types[decl.ty].span);
      types := arena;
      globals := globals + [(GlobalRef(index), h)];
    }

    /**
     * `generate_llvm_function`: the parameter types are lowered in order,
     * then the return type (void when none is declared); the native function
     * is added and its entry block started at the end of the log.
     */
    method GenerateLlvmFunction(n: nat, f: Function) returns (out: Outcome<(nat, Location)>)
      requires TypesWf(types) && n <= |types| && FunctionWf(f, src, n)
      modifies this
      ensures Step(out, State()) == Codegen.GenerateLlvmFunction(Context(), n, old(State()), f)
    {
      var params :- ParamTypes(f.arguments);
      var ret := VoidType;
      if f.result.Some? {
        ret :- EvalCachedType(Undefined, f.result.value.ty);
      }
      if f.name.None? {
        return Panic(NotImplemented);
      }
      var index := |moduleFunctions|;
      moduleFunctions := moduleFunctions + [NativeFunction(f.name.value, FunctionType(ret, params), |log|)];
      return Ok((index, FunctionState(f, [], [])));
    }

    /** The argument types lowered in order through the type cache; the first failure ends it. */
    method ParamTypes(args: seq<FunctionArgument>) returns (out: Outcome<seq<NativeType>>)
      requires TypesWf(types) && forall i :: 0 <= i < |args| ==> args[i].ty < |types|
      modifies this
      ensures Step(out, State()) == Codegen.ParamTypes(Context(), old(State()), args, 0)
    {
      var params: seq<NativeType> := [];
      PrependedEmpty(Codegen.ParamTypes(Context(), State(), args, 0));
      var k := 0;
      while k < |args|
        invariant k <= |args| && types == old(types)
        invariant Codegen.ParamTypes(Context(), old(State()), args, 0)
                    == Prepended(params, Codegen.ParamTypes(Context(), State(), args, k))
      {
        ghost var before := State();
        var t :- EvalCachedType(Undefined, args[k].ty);
        PrependedStep(Context(), before, args, k, params);
        params := params + [t];
        k := k + 1;
      }
      assert params + [] == params;
      return Ok(params);
    }

    /**
     * `generate_locals`: every local in declaration order, each pushed onto
     * the function state's locals before the next is lowered.
     */
    method GenerateLocals(n: nat, loc: Location) returns (out: Outcome<Location>)
      requires Codegen.Consistent(Context(), n, State()) && loc.FunctionState? && LocWf(src, loc, |types|)
      modifies this
      ensures Step(out, State()) == Codegen.GenerateLocals(Context(), n, old(State()), loc, 0)
    {
      var state := loc;
      var k := 0;
      ghost var spec := Codegen.GenerateLocals(Context(), n, State(), loc, 0);
      while k < |loc.srcFunction.localVariables|
        invariant state.FunctionState? && state.srcFunction == loc.srcFunction
        invariant Codegen.LocalsAt(Context(), n, State(), state, k, spec)
      {
        var next := NextLocal(n, state, k);
        if !next.Ok? {
          return next;
        }
        state := next.value;
        k := k + 1;
      }
      return Ok(state);
    }

    /** One pass of the locals loop: local `k` lowered and entered in the locals list. */
    method NextLocal(n: nat, state: Location, k: nat) returns (out: Outcome<Location>)
      requires Codegen.Consistent(Context(), n, State()) && state.FunctionState? && LocWf(src, state, |types|)
      requires k < |state.srcFunction.localVariables|
      modifies this
      ensures !out.Ok? ==> Codegen.GenerateLocals(Context(), n, old(State()), state, k) == Step(out, State())
      ensures out.Ok? ==>
                && out.value.FunctionState? && out.value.srcFunction == state.srcFunction
                && Codegen.LocalsAt(Context(), n, State(), out.value, k + 1,
                                    Codegen.GenerateLocals(Context(), n, old(State()), state, k))
    {
      ghost var lowered := Codegen.LowerLocal(Context(), n, State(), state, state.srcFunction.localVariables[k]);
      Codegen.LocalsUnfold(Context(), n, State(), state, k, lowered);
      var entry := LowerLocal(n, state, state.srcFunction.localVariables[k]);
      assert entry == lowered.out && State() == lowered.g;
      if entry.Ok? {
        out := Ok(state.(locals := state.locals + [entry.value]));
      } else {
        out := entry.PropagateFailure();
      }
    }

    /** One local: allocated, its initializer stored, then its locals-list entry made. */
    method LowerLocal(n: nat, loc: Location, decl: Spanned<LocalVariable>) returns (out: Outcome<(Value, Handle)>)
      requires Codegen.Consistent(Context(), n, State()) && LocWf(src, loc, |types|) && decl.item.ty < |types|
      requires decl.item.init.Some? ==> decl.item.init.value < |GetExprs(src, loc)|
      modifies this
      ensures Step(out, State()) == Codegen.LowerLocal(Context(), n, old(State()), loc, decl)
    {
      var pointer :- Allocate(decl.item.ty);
      out := InitLocal(n, loc, decl, pointer);
    }

    /** The allocated local `pointer`: its initializer stored, then its locals-list entry made. */
    method InitLocal(n: nat, loc: Location, decl: Spanned<LocalVariable>, pointer: Value) returns (out: Outcome<(Value, Handle)>)
      requires Codegen.Consistent(Context(), n, State()) && LocWf(src, loc, |types|) && decl.item.ty < |types|
      requires decl.item.init.Some? ==> decl.item.init.value < |GetExprs(src, loc)|
      requires pointer.Inst? && pointer.instr.Alloca? && pointer.id < |log| && log[pointer.id] == pointer.instr
      modifies this
      ensures Step(out, State()) == Codegen.InitLocal(Context(), n, old(State()), loc, decl, pointer)
    {
      if decl.item.init.Some? {
        SrcWfGrows(src, n, |types|);
        var _ :- BuildStore(|types|, loc, decl.span, pointer, decl.item.init.value);
      }
      var entry := PushLocal(decl, pointer);
      return Ok(entry);
    }

    /** Stack space for a value of type `ty`, of the type's storage type. */
    method Allocate(ty: Handle) returns (out: Outcome<Value>)
      requires Sound(State()) && ty < |types|
      modifies this
      ensures Step(out, State()) == Codegen.Allocate(Context(), old(State()), ty)
    {
      var t :- EvalCachedPointerType(types[ty].span, ty);
      out := Ok(Inst(|log|, Alloca(t)));
      log := log + [Alloca(t)];
    }

    /** The locals-list entry: `pointer` with the interned pointer type to the local's type. */
    method PushLocal(decl: Spanned<LocalVariable>, pointer: Value) returns (entry: (Value, Handle))
      requires Sound(State()) && decl.item.ty < |types|
      requires pointer.Inst? && pointer.instr.Alloca? && pointer.id < |log| && log[pointer.id] == pointer.instr
      requires decl.item.init.Some? ==> Statements.Stored(dl, State(), decl.span, pointer, decl.item.init.value)
      modifies this
      ensures Step(Ok(entry), State()) == Codegen.PushLocal(dl, old(State()), decl, pointer)
    {
      var (arena, h) := Insert(types, Type(None, Pointer(decl.item.ty, Function)), types[decl.item.ty].span);
      types := arena;
      entry := (pointer, h);
    }

    /**
     * `emit_statement`: a range of expressions evaluated in order, a block's
     * statements in order, a return checked against the declared result, or
     * a store; anything else is not implemented.
     */
    method EmitStatement(n: nat, loc: Location, span: Span, stmt: Statement) returns (out: Outcome<()>)
      requires Scope(Context(), loc, n) && Ready(State(), n) && loc.FunctionState?
      requires StmtRefsBelow(stmt, |loc.srcFunction.expressions|)
      modifies this
      ensures Step(out, State()) == Statements.EmitStatement(Context(), n, old(State()), loc, span, stmt)
      decreases stmt, 2
    {
      ghost var spec := Statements.EmitStatement(Context(), n, State(), loc, span, stmt);
      match stmt
      case Emit(start, end) =>
        assert spec == Statements.EmitRange(Context(), n, State(), loc, start, end);
        out := EmitRange(n, loc, start, end);
      case Block(_) =>
        assert spec == Statements.EmitBlock(Context(), n, State(), loc, span, stmt, 0);
        out := EmitBlock(n, loc, span, stmt);
      case Return(value) =>
        assert spec == Statements.EmitReturn(Context(), n, State(), loc, span, value);
        out := EmitReturn(n, loc, span, value);
      case Store(target, stored) =>
        assert spec == Statements.EmitStore(Context(), n, State(), loc, span, target, stored);
        out := EmitStore(n, loc, span, target, stored);
      case _ =>
        return Panic(NotImplemented);
    }

    /** `Emit(start..end)`: each handle of the range evaluated through the cache, in ascending order. */
    method EmitRange(n: nat, loc: Location, start: Handle, end: Handle) returns (out: Outcome<()>)
      requires Scope(Context(), loc, n) && Ready(State(), n) && end <= |GetExprs(src, loc)|
      modifies this
      ensures Step(out, State()) == Statements.EmitRange(Context(), n, old(State()), loc, start, end)
    {
      ghost var spec := Statements.EmitRange(Context(), n, State(), loc, start, end);
      if end <= start {
        return Ok(());
      }
      for h := start to end
        invariant Ready(State(), n)
        invariant spec == Statements.EmitRange(Context(), n, State(), loc, h, end)
      {
        out := RangeHandle(n, loc, h, end);
        if !out.Ok? {
          return;
        }
      }
      out := Ok(());
    }

    /** One pass of the range loop: handle `h` evaluated through the cache. */
    method RangeHandle(n: nat, loc: Location, h: Handle, end: Handle) returns (out: Outcome<()>)
      requires Scope(Context(), loc, n) && Ready(State(), n) && h < end <= |GetExprs(src, loc)|
      modifies this
      ensures !out.Ok? ==> Statements.EmitRange(Context(), n, old(State()), loc, h, end) == Step(out, State())
      ensures out.Ok? ==>
                && Ready(State(), n)
                && Statements.EmitRange(Context(), n, old(State()), loc, h, end)
                     == Statements.EmitRange(Context(), n, State(), loc, h + 1, end)
    {
      var evaluated := EvalCachedExpr(n, loc, h);
      if evaluated.Ok? {
        out := Ok(());
      } else {
        out := evaluated.PropagateFailure();
      }
    }

    /** `Block`: the block's statements in order, with the enclosing span. */
    method EmitBlock(n: nat, loc: Location, span: Span, block: Statement) returns (out: Outcome<()>)
      requires Scope(Context(), loc, n) && Ready(State(), n) && loc.FunctionState?
      requires block.Block? && StmtRefsBelow(block, |loc.srcFunction.expressions|)
      modifies this
      ensures Step(out, State()) == Statements.EmitBlock(Context(), n, old(State()), loc, span, block, 0)
      decreases block, 1
    {
      ghost var spec := Statements.EmitBlock(Context(), n, State(), loc, span, block, 0);
      var k := 0;
      while k < |block.block|
        invariant k <= |block.block| && Ready(State(), n)
        invariant spec == Statements.EmitBlock(Context(), n, State(), loc, span, block, k)
      {
        out := BlockStatement(n, loc, span, block, k);
        if !out.Ok? {
          return;
        }
        k := k + 1;
      }
      out := Ok(());
    }

    /** One pass of the block loop: statement `k` emitted with the enclosing span. */
    method BlockStatement(n: nat, loc: Location, span: Span, block: Statement, k: nat) returns (out: Outcome<()>)
      requires Scope(Context(), loc, n) && Ready(State(), n) && loc.FunctionState?
      requires block.Block? && k < |block.block| && StmtRefsBelow(block, |loc.srcFunction.expressions|)
      modifies this
      ensures !out.Ok? ==> Statements.EmitBlock(Context(), n, old(State()), loc, span, block, k) == Step(out, State())
      ensures out.Ok? ==>
                && Ready(State(), n)
                && Statements.EmitBlock(Context(), n, old(State()), loc, span, block, k)
                     == Statements.EmitBlock(Context(), n, State(), loc, span, block, k + 1)
      decreases block, 0
    {
      Statements.BlockStep(Context(), n, State(), loc, span, block, k);
      out := EmitStatement(n, loc, span, block.block[k]);
    }

    /** `Return`: the returned expression, if any, evaluated through the cache, then the result type checked. */
    method EmitReturn(n: nat, loc: Location, span: Span, value: Option<Handle>) returns (out: Outcome<()>)
      requires Scope(Context(), loc, n) && Ready(State(), n) && loc.FunctionState?
      requires value.Some? ==> value.value < |loc.srcFunction.expressions|
      modifies this
      ensures Step(out, State()) == Statements.EmitReturn(Context(), n, old(State()), loc, span, value)
    {
      var found: Option<(Value, Handle)> := None;
      var valueSpan := span;
      if value.Some? {
        var evaluated :- EvalCachedExpr(n, loc, value.value);
        found := Some(evaluated);
        valueSpan := loc.srcFunction.expressions[value.value].span;
      }
      out := Return(span, loc.srcFunction.result, found, valueSpan);
    }

    /** `Store`: the pointer expression evaluated through the cache, then `build_store`. */
    method EmitStore(n: nat, loc: Location, span: Span, target: Handle, stored: Handle) returns (out: Outcome<()>)
      requires Scope(Context(), loc, n) && Ready(State(), n)
      requires target < |GetExprs(src, loc)| && stored < |GetExprs(src, loc)|
      modifies this
      ensures Step(out, State()) == Statements.EmitStore(Context(), n, old(State()), loc, span, target, stored)
    {
      var pointer :- EvalCachedExpr(n, loc, target);
      out := BuildStore(n, loc, span, pointer.0, stored);
    }

    /** The return instruction, once the result type is checked. */
    method Return(span: Span, declared: Option<FunctionResult>, found: Option<(Value, Handle)>, valueSpan: Span)
      returns (out: Outcome<()>)
      modifies this
      ensures Step(out, State()) == Statements.ReturnEvaluated(old(State()), span, declared, found, valueSpan)
    {
      match (declared, found)
      case (Some(FunctionResult(resultTy)), Some((v, ty))) =>
        if resultTy != ty {
          return Err(Error(IncorrectReturnType(Some(resultTy), Some(ty)), valueSpan));
        }
        log := log + [Ret(v)];
        return Ok(());
      case (None, None) =>
        log := log + [RetVoid];
        return Ok(());
      case (Some(FunctionResult(resultTy)), None) =>
        return Err(Error(IncorrectReturnType(Some(resultTy), None), span));
      case (None, Some((_, ty))) =>
        return Err(Error(IncorrectReturnType(None, Some(ty)), span));
    }

    /**
     * One function of `generate`: the expression cache is cleared, the native
     * function added, the locals lowered, the parameters pushed and the body
     * statements emitted in order.
     */
    method LowerFunction(n: nat, f: Function) returns (out: Outcome<()>)
      requires Codegen.Consistent(Context(), n, State()) && FunctionWf(f, src, n)
      modifies this
      ensures Step(out, State()) == Codegen.LowerFunction(Context(), n, old(State()), f)
    {
      exprCache := map[];
      var created :- GenerateLlvmFunction(n, f);
      FunctionWfGrows(f, src, n, |types|);
      out := LowerBody(n, created.0, created.1);
    }

    /** The locals, the parameter bindings and the body of the created native function `index`. */
    method LowerBody(n: nat, index: nat, loc: Location) returns (out: Outcome<()>)
      requires Codegen.Consistent(Context(), n, State()) && loc.FunctionState? && LocWf(src, loc, |types|)
      modifies this
      ensures Step(out, State()) == Codegen.LowerBody(Context(), n, old(State()), index, loc)
    {
      var withLocals :- GenerateLocals(n, loc);
      Codegen.BindParamsWf(src, withLocals, index, |types|);
      var bound := BindParams(index, withLocals);
      out := EmitBody(n, bound);
    }

    /** The parameters of native function `index` pushed in order, each with its argument's type. */
    method BindParams(index: nat, loc: Location) returns (bound: Location)
      requires loc.FunctionState?
      ensures bound == loc.(params := loc.params + Codegen.BindParams(index, loc.srcFunction.arguments))
    {
      bound := loc;
      var i := 0;
      while i < |loc.srcFunction.arguments|
        invariant i <= |loc.srcFunction.arguments|
        invariant bound == loc.(params := loc.params + Codegen.BindParams(index, loc.srcFunction.arguments)[..i])
      {
        bound := bound.(params := bound.params + [(Param(index, i), loc.srcFunction.arguments[i].ty)]);
        i := i + 1;
      }
    }

    /** The body statements in order, each with its own span; the first failure ends the function. */
    method EmitBody(n: nat, loc: Location) returns (out: Outcome<()>)
      requires Codegen.Consistent(Context(), n, State()) && loc.FunctionState? && LocWf(src, loc, |types|)
      modifies this
      ensures Step(out, State()) == Codegen.EmitBody(Context(), n, old(State()), loc, 0)
    {
      ghost var spec := Codegen.EmitBody(Context(), n, State(), loc, 0);
      var k := 0;
      while k < |loc.srcFunction.body|
        invariant k <= |loc.srcFunction.body| && Codegen.Consistent(Context(), n, State()) && LocWf(src, loc, |types|)
        invariant spec == Codegen.EmitBody(Context(), n, State(), loc, k)
      {
        out := BodyStatement(n, loc, k);
        if !out.Ok? {
          return;
        }
        k := k + 1;
      }
      out := Ok(());
    }

    /** One pass of the body loop: statement `k` emitted with its own span. */
    method BodyStatement(n: nat, loc: Location, k: nat) returns (out: Outcome<()>)
      requires Codegen.Consistent(Context(), n, State()) && loc.FunctionState? && LocWf(src, loc, |types|)
      requires k < |loc.srcFunction.body|
      modifies this
      ensures !out.Ok? ==> Codegen.EmitBody(Context(), n, old(State()), loc, k) == Step(out, State())
      ensures out.Ok? ==>
                && Codegen.Consistent(Context(), n, State()) && LocWf(src, loc, |types|)
                && Codegen.EmitBody(Context(), n, old(State()), loc, k) == Codegen.EmitBody(Context(), n, State(), loc, k + 1)
    {
      SrcWfGrows(src, n, |types|);
      ghost var emitted := Statements.EmitStatement(Context(), |types|, State(), loc, loc.srcFunction.body[k].span,
                                                    loc.srcFunction.body[k].item);
      Codegen.BodyUnfold(Context(), n, State(), loc, k, emitted);
      out := EmitStatement(|types|, loc, loc.srcFunction.body[k].span, loc.srcFunction.body[k].item);
      assert out == emitted.out && State() == emitted.g;
    }

    /**
     * `generate`: the globals, then every function in order; the first
     * failure is returned unchanged.
     */
    method Generate(n: nat) returns (out: Outcome<()>)
      requires Codegen.Consistent(Context(), n, State()) && globals == []
      modifies this
      ensures Step(out, State()) == Codegen.Generate(Context(), n, old(State()))
    {
      var _ :- GenerateGlobals(n);
      ghost var lowered := State();
      var k := 0;
      while k < |src.functions|
        invariant k <= |src.functions| && Codegen.Consistent(Context(), n, State())
        invariant Codegen.GenerateFunctions(Context(), n, lowered, 0) == Codegen.GenerateFunctions(Context(), n, State(), k)
      {
        var _ :- LowerFunction(n, src.functions[k]);
        k := k + 1;
      }
      return Ok(());
    }
  }
}
