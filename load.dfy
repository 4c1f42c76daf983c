/**
 * `build_load` after its pointer operand is evaluated, and the column stride
 * that matrix loads and stores share.
 */
module Loads {
  import opened Wrappers
  import opened Ir
  import opened Native
  import opened Errors
  import opened State
  import opened Types
  import opened TypeFacts


  /**
   * The element stride between matrix columns: the preferred alignment of a
   * `rows`-lane column of `t`, divided (as `u32`) by the scalar width in
   * bytes; a zero width divides by zero, which is fatal.
   */
  function MatrixStride(dl: DataLayout, t: NativeType, rows: nat, width: Byte): (r: Outcome<U32>)
    ensures r.Ok? <==> width != 0
    ensures r.Panic? ==> r == Panic(DivByZero)
    ensures r.Ok? ==>
              r.value * width <= dl.prefAlign(VectorType(t, rows)) < (r.value + 1) * width
  {
    if width == 0 then Panic(DivByZero) else Ok(dl.prefAlign(VectorType(t, rows)) / width)
  }

  /**
   * `build_load` for a pointer value `pointer` of type `ty`. A type without a
   * pointee is refused; a matrix pointee is read with the column-major load
   * intrinsic into a flat vector of `rows * columns` lanes; any other pointee
   * with a plain load of its lowered type. The result type is always the
   * pointee type.
   */
  function LoadEvaluated(ctx: Ctx, g: Gen, span: Span, pointer: Value, ty: Handle): (r: Step<(Value, Handle)>)
    requires TypesWf(g.types) && ty < |g.types|
    ensures Advances(g, r.g) && (r.out.Ok? ==> r.out.value.1 < |r.g.types|)
    ensures GetPointee(g.types, ty).0.None? ==> r == Step(Err(Error(NotPointer(ty), span)), g)
    ensures r.out.Ok? ==> GetPointee(g.types, ty).0.Some? && r.out.value.1 == GetPointee(g.types, ty).0.value.0
    ensures r.out.Ok? ==> LoadShape(ctx.dl, r.g, span, pointer, r.out.value.0, r.out.value.1)
  {
    GetPointeeWf(g.types, ty);
    var (pointee, types1) := GetPointee(g.types, ty);
    if pointee.None? then Step(Err(Error(NotPointer(ty), span)), g)
    else
      var g1 := g.(types := types1);
      var inner := pointee.value.0;
      LoadPointee(ctx, g1, span, pointer, inner)
  }

  /**
   * The shape of a load of `inner` through `pointer`: for a matrix the
   * column-major load intrinsic, whose result is the flat vector of
   * `columns * rows` lowered scalars and whose arguments are the pointer, the
   * column stride, `false` (not volatile), the rows and the columns; for
   * anything else a load of the lowered type of `inner`.
   */
  ghost predicate LoadShape(dl: DataLayout, g: Gen, span: Span, pointer: Value, v: Value, inner: Handle)
    requires inner < |g.types|
  {
    && v.Inst?
    && if g.types[inner].item.inner.Matrix? then
         var Matrix(columns, rows, scalar) := g.types[inner].item.inner;
         && EvalScalarType(span, scalar).Ok?
         && MatrixStride(dl, EvalScalarType(span, scalar).value, rows, scalar.width).Ok?
         && var t := EvalScalarType(span, scalar).value;
            v.instr == CallIntrinsic(ColumnMajorLoad, [Known(VectorType(t, columns * rows)), Known(IntType(64))],
                                     [pointer, ConstU64(MatrixStride(dl, t, rows, scalar.width).value),
                                      ConstBool(false), ConstU32(rows), ConstU32(columns)])
       else inner in g.typeCache && v.instr == LoadValue(g.typeCache[inner], pointer)
  }

  /** The load itself, once the pointee type `inner` is known. */
  function LoadPointee(ctx: Ctx, g: Gen, span: Span, pointer: Value, inner: Handle): (r: Step<(Value, Handle)>)
    requires TypesWf(g.types) && inner < |g.types|
    ensures r.g == g.(log := r.g.log, typeCache := r.g.typeCache, structMaps := r.g.structMaps) && g.log <= r.g.log
    ensures r.out.Ok? ==> r.out.value.1 == inner && LoadShape(ctx.dl, r.g, span, pointer, r.out.value.0, inner)
  {
    if g.types[inner].item.inner.Matrix? then
      var Matrix(columns, rows, scalar) := g.types[inner].item.inner;
      var (t, _) :- Step(EvalScalarType(span, scalar), g);
      var (stride, _) :- Step(MatrixStride(ctx.dl, t, rows, scalar.width), g);
      var (v, g1) := Build(g, CallIntrinsic(ColumnMajorLoad, [Known(VectorType(t, columns * rows)), Known(IntType(64))],
                                            [pointer, ConstU64(stride), ConstBool(false), ConstU32(rows), ConstU32(columns)]));
      Step(Ok((v, inner)), g1)
    else
      var (t, g1) :- EvalCachedType(ctx, g, span, inner);
      var (v, g2) := Build(g1, LoadValue(t, pointer));
      Step(Ok((v, inner)), g2)
  }
}
