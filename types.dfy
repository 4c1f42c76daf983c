/**
 * Type lowering: naga types to native types, with the value-type cache, the
 * pointer-storage-type cache and the struct member remap tables, plus the
 * pointee and item-type rules that intern new types into the arena.
 */
module Types {
  import opened Wrappers
  import opened Ir
  import opened Native
  import opened Errors
  import opened State

  /** The width in bits of a lowered scalar type (0 for non-scalars). */
  function ScalarBits(t: NativeType): nat
  {
    match t
    case IntType(bits) => bits
    case HalfType => 16
    case FloatType => 32
    case DoubleType => 64
    case Fp128Type => 128
    case _ => 0
  }

  /**
   * `eval_scalar_type`. A boolean is one bit; any other scalar that lowers
   * occupies exactly its byte width, as a float type for `Float` and an integer
   * type for `Sint`/`Uint`. Other float widths and the abstract kinds are
   * errors; an integer width of 32 bytes or more overflows the `u8` product
   * `width * 8` and panics.
   */
  function EvalScalarType(span: Span, scalar: Scalar): (r: Outcome<NativeType>)
    ensures r.Ok? <==>
              || scalar.kind == ScalarKind.Bool
              || (scalar.kind == Float && scalar.width in {2, 4, 8, 16})
              || ((scalar.kind == Sint || scalar.kind == Uint) && scalar.width < 32)
    ensures r.Ok? && scalar.kind == ScalarKind.Bool ==> r.value == IntType(1)
    ensures r.Ok? && scalar.kind != ScalarKind.Bool ==>
              && ScalarBits(r.value) == 8 * scalar.width
              && (r.value.IntType? <==> scalar.kind != Float)
    ensures r.Err? ==>
              r.error == Error(if scalar.kind == Float then InvalidFloatSize(scalar.width) else IllegalScalar(scalar), span)
    ensures r.Panic? <==> (scalar.kind == Sint || scalar.kind == Uint) && scalar.width >= 32
  {
    match scalar.kind
    case Bool => Ok(IntType(1))
    case Float =>
      if scalar.width == 2 then Ok(HalfType)
      else if scalar.width == 4 then Ok(FloatType)
      else if scalar.width == 8 then Ok(DoubleType)
      else if scalar.width == 16 then Ok(Fp128Type)
      else Err(Error(InvalidFloatSize(scalar.width), span))
    case Sint =>
      if scalar.width * 8 < 0x100 then Ok(IntType(scalar.width * 8)) else Panic(MulOverflow)
    case Uint =>
      if scalar.width * 8 < 0x100 then Ok(IntType(scalar.width * 8)) else Panic(MulOverflow)
    case _ => Err(Error(IllegalScalar(scalar), span))
  }

  /** The native length of an array: its constant size, or 0 for a runtime-sized array. */
  function ArrayLength(size: ArraySize): nat
  {
    match size
    case ConstantSize(n) => n
    case DynamicSize => 0
  }

  /** The members of struct type `ty` name only earlier types. */
  ghost predicate MembersBelow(members: seq<StructMember>, ty: Handle)
  {
    forall j :: 0 <= j < |members| ==> members[j].ty < ty
  }

  /**
   * Reference lowering: the native type of `ty` computed without any cache.
   * Errors carry `span`, as every error raised while lowering one type does.
   */
  function Lowered(dl: DataLayout, types: TypeArena, span: Span, ty: Handle): Outcome<NativeType>
    requires TypesWf(types) && ty < |types|
    decreases ty, 1
  {
    match types[ty].item.inner
    case ScalarType(s) => EvalScalarType(span, s)
    case Atomic(s) => EvalScalarType(span, s)
    case Vector(size, s) =>
      var t :- EvalScalarType(span, s);
      Ok(VectorType(t, size))
    case Matrix(columns, rows, s) =>
      var t :- EvalScalarType(span, s);
      Ok(VectorType(t, rows * columns))
    case Pointer(_, _) => Ok(PointerType)
    case ValuePointer(_, _, _) => Ok(PointerType)
    case Array(base, size, _) =>
      var t :- Lowered(dl, types, span, base);
      Ok(ArrayType(t, ArrayLength(size)))
    case Struct(members, _) =>
      var layout :- LoweredLayout(dl, types, span, ty, members, 0, 0, [], []);
      Ok(StructType(layout.0, true))
    case _ => Panic(NotImplemented)
  }

  /**
   * Reference struct layout from member `k` on, with the running `u32` offset
   * and the native fields and remap table built so far. A member whose offset
   * lies beyond the running offset is preceded by an integer padding field of
   * the missing bits; each member then advances the offset by the ABI size of
   * its native type (cast to `u32`).
   */
  function LoweredLayout(dl: DataLayout, types: TypeArena, span: Span, ty: Handle,
                         members: seq<StructMember>, k: nat, offset: U32,
                         fields: seq<NativeType>, slots: seq<nat>): Outcome<(seq<NativeType>, seq<nat>)>
    requires TypesWf(types) && ty < |types| && MembersBelow(members, ty) && k <= |members|
    decreases ty, 0, |members| - k
  {
    if k == |members| then Ok((fields, slots))
    else
      var target := members[k].offset;
      if offset < target && (target - offset) * 8 >= 0x1_0000_0000 then Panic(MulOverflow)
      else
        var padded := if offset < target then fields + [IntType((target - offset) * 8)] else fields;
        var start := if offset < target then target else offset;
        var t :- Lowered(dl, types, span, members[k].ty);
        var size := dl.abiSize(t) % 0x1_0000_0000;
        if start + size >= 0x1_0000_0000 then Panic(AddOverflow)
        else LoweredLayout(dl, types, span, ty, members, k + 1, start + size, padded + [t], slots + [|padded|])
  }

  /** Type lowering changes at most the type cache and the struct remap tables. */
  ghost predicate TypeCachesOnly(g: Gen, g': Gen)
  {
    g' == g.(typeCache := g'.typeCache, structMaps := g'.structMaps)
  }

  /** The only new type-cache keys are handles at most `ty`. */
  ghost predicate CachedUpTo(g: Gen, g': Gen, ty: Handle)
  {
    forall h :: h in g'.typeCache && h !in g.typeCache ==> h <= ty
  }

  /** `eval_type`: lowers `ty`, reaching member and element types through the cache. */
  function EvalType(ctx: Ctx, g: Gen, span: Span, ty: Handle): (r: Step<NativeType>)
    requires TypesWf(g.types) && ty < |g.types|
    ensures TypeCachesOnly(g, r.g)
    ensures forall h :: h in r.g.typeCache && h !in g.typeCache ==> h < ty
    decreases ty, 1
  {
    match g.types[ty].item.inner
    case ScalarType(s) => Step(EvalScalarType(span, s), g)
    case Atomic(s) => Step(EvalScalarType(span, s), g)
    case Vector(size, s) =>
      var (t, g1) :- Step(EvalScalarType(span, s), g);
      Step(Ok(VectorType(t, size)), g1)
    case Matrix(columns, rows, s) =>
      var (t, g1) :- Step(EvalScalarType(span, s), g);
      Step(Ok(VectorType(t, rows * columns)), g1)
    case Pointer(_, _) => Step(Ok(PointerType), g)
    case ValuePointer(_, _, _) => Step(Ok(PointerType), g)
    case Array(base, size, _) =>
      var (t, g1) :- EvalCachedType(ctx, g, span, base);
      Step(Ok(ArrayType(t, ArrayLength(size))), g1)
    case Struct(members, _) =>
      var (layout, g1) :- StructMembers(ctx, g, span, ty, members, 0, 0, 0, [], []);
      Step(Ok(StructType(layout.0, true)), g1.(structMaps := g1.structMaps[ty := layout.1]))
    case _ => Step(Panic(NotImplemented), g)
  }

  /**
   * The member loop of `eval_type`'s struct arm from member `k` on: `offset`,
   * `idx`, the native members and the remap table are the loop's variables.
   */
  function StructMembers(ctx: Ctx, g: Gen, span: Span, ty: Handle, members: seq<StructMember>,
                         k: nat, offset: U32, idx: nat,
                         fields: seq<NativeType>, slots: seq<nat>): (r: Step<(seq<NativeType>, seq<nat>)>)
    requires TypesWf(g.types) && ty < |g.types| && MembersBelow(members, ty) && k <= |members|
    ensures TypeCachesOnly(g, r.g)
    ensures forall h :: h in r.g.typeCache && h !in g.typeCache ==> h < ty
    decreases ty, 0, |members| - k
  {
    if k == |members| then Step(Ok((fields, slots)), g)
    else
      var target := members[k].offset;
      if offset < target && (target - offset) * 8 >= 0x1_0000_0000 then Step(Panic(MulOverflow), g)
      else
        var fields1 := if offset < target then fields + [IntType((target - offset) * 8)] else fields;
        var offset1 := if offset < target then target else offset;
        var idx1 := if offset < target then idx + 1 else idx;
        var (t, g1) :- EvalCachedType(ctx, g, span, members[k].ty);
        var size := ctx.dl.abiSize(t) % 0x1_0000_0000;
        if offset1 + size >= 0x1_0000_0000 then Step(Panic(AddOverflow), g1)
        else StructMembers(ctx, g1, span, ty, members, k + 1, offset1 + size, idx1 + 1, fields1 + [t], slots + [idx1])
  }

  /**
   * `eval_cached_type`: a cached native type is returned as is; otherwise `ty`
   * is lowered and the result entered with `or_insert`. A failure enters
   * nothing for `ty`.
   */
  function EvalCachedType(ctx: Ctx, g: Gen, span: Span, ty: Handle): (r: Step<NativeType>)
    requires TypesWf(g.types) && ty < |g.types|
    ensures TypeCachesOnly(g, r.g)
    ensures CachedUpTo(g, r.g, ty)
    ensures r.out.Ok? ==> ty in r.g.typeCache && r.g.typeCache[ty] == r.out.value
    ensures !r.out.Ok? ==> (ty in r.g.typeCache <==> ty in g.typeCache)
    decreases ty, 2
  {
    if ty in g.typeCache then Step(Ok(g.typeCache[ty]), g)
    else
      var (t, g1) :- EvalType(ctx, g, span, ty);
      var (t', cache) := OrInsert(g1.typeCache, ty, t);
      Step(Ok(t'), g1.(typeCache := cache))
  }

  /** `eval_pointer_type`: a matrix is stored as an array of column vectors. */
  function EvalPointerType(types: TypeArena, span: Span, ty: Handle): (r: Outcome<Option<NativeType>>)
    requires ty < |types|
    ensures r.Ok? && r.value.Some? ==> types[ty].item.inner.Matrix?
    ensures !types[ty].item.inner.Matrix? ==> r == Ok(None)
  {
    match types[ty].item.inner
    case Matrix(columns, rows, s) =>
      var t :- EvalScalarType(span, s);
      Ok(Some(ArrayType(VectorType(t, rows), columns)))
    case _ => Ok(None)
  }

  /**
   * `eval_cached_pointer_type`: the type a variable of type `ty` is stored as.
   * Matrices are stored as arrays of columns; any other type as its value
   * type, taken from the type cache when present (and then not copied into
   * the pointer cache), else lowered afresh without entering the type cache.
   */
  function EvalCachedPointerType(ctx: Ctx, g: Gen, span: Span, ty: Handle): (r: Step<NativeType>)
    requires TypesWf(g.types) && ty < |g.types|
    ensures r.g == g.(typeCache := r.g.typeCache, structMaps := r.g.structMaps,
                      pointerTypeCache := r.g.pointerTypeCache)
    ensures ty in g.pointerTypeCache ==> r == Step(Ok(g.pointerTypeCache[ty]), g)
  {
    if ty in g.pointerTypeCache then Step(Ok(g.pointerTypeCache[ty]), g)
    else
      var (generated, g1) :- Step(EvalPointerType(g.types, span, ty), g);
      match generated
      case Some(t) =>
        var (t', cache) := OrInsert(g1.pointerTypeCache, ty, t);
        Step(Ok(t'), g1.(pointerTypeCache := cache))
      case None =>
        if ty in g1.typeCache then Step(Ok(g1.typeCache[ty]), g1)
        else
          var (t, g2) :- EvalType(ctx, g1, span, ty);
          var (t', cache) := OrInsert(g2.pointerTypeCache, ty, t);
          Step(Ok(t'), g2.(pointerTypeCache := cache))
  }

  /**
   * `get_pointee`: the pointed-to type and address space of a pointer type.
   * A value pointer's pointee is interned (a vector or a scalar) with the
   * pointer type's span; only pointer types have a pointee, and the arena only
   * grows.
   */
  function GetPointee(types: TypeArena, ty: Handle): (r: (Option<(Handle, AddressSpace)>, TypeArena))
    requires ty < |types|
    ensures types <= r.1
    ensures r.0.Some? <==> types[ty].item.inner.Pointer? || types[ty].item.inner.ValuePointer?
    ensures r.0.None? ==> r.1 == types
    ensures types[ty].item.inner.Pointer? ==>
              r == (Some((types[ty].item.inner.base, types[ty].item.inner.space)), types)
    ensures types[ty].item.inner.ValuePointer? ==>
              var vp := types[ty].item.inner;
              && r.0.value.1 == vp.space && r.0.value.0 < |r.1|
              && r.1[r.0.value.0].item ==
                   Type(None, if vp.vsize.Some? then Vector(vp.vsize.value, vp.scalar) else ScalarType(vp.scalar))
  {
    match types[ty].item.inner
    case Pointer(base, space) => (Some((base, space)), types)
    case ValuePointer(Some(size), scalar, space) =>
      var (types1, h) := Insert(types, Type(None, Vector(size, scalar)), types[ty].span);
      (Some((h, space)), types1)
    case ValuePointer(None, scalar, space) =>
      var (types1, h) := Insert(types, Type(None, ScalarType(scalar)), types[ty].span);
      (Some((h, space)), types1)
    case _ => (None, types)
  }

  /**
   * `item_type`: the type of one element of `ty`. Vector and matrix items are
   * interned with `ty`'s span; a struct needs a known member index, and an
   * index past the members panics; nothing else is indexable.
   */
  function ItemType(types: TypeArena, span: Span, ty: Handle, index: Option<nat>): (r: (Outcome<Handle>, TypeArena))
    requires ty < |types|
    ensures types <= r.1
    ensures var inner := types[ty].item.inner;
            r.0.Ok? <==> inner.Vector? || inner.Matrix? || inner.Array? ||
                         (inner.Struct? && index.Some? && index.value < |inner.members|)
    ensures var inner := types[ty].item.inner;
            && (inner.Vector? ==> r.0.value < |r.1| && r.1[r.0.value].item == Type(None, ScalarType(inner.scalar)))
            && (inner.Matrix? ==> r.0.value < |r.1| && r.1[r.0.value].item == Type(None, Vector(inner.rows, inner.scalar)))
            && (inner.Array? ==> r == (Ok(inner.base), types))
            && (inner.Struct? && index.Some? && index.value < |inner.members| ==>
                  r == (Ok(inner.members[index.value].ty), types))
    ensures r.0.Err? ==>
              r == (Err(Error(if types[ty].item.inner.Struct? then NonConstantIndex else NotIndexable(ty), span)), types)
    ensures r.0.Panic? <==>
              types[ty].item.inner.Struct? && index.Some? && index.value >= |types[ty].item.inner.members|
  {
    match types[ty].item.inner
    case Vector(_, scalar) =>
      var (types1, h) := Insert(types, Type(None, ScalarType(scalar)), types[ty].span);
      (Ok(h), types1)
    case Matrix(_, rows, scalar) =>
      var (types1, h) := Insert(types, Type(None, Vector(rows, scalar)), types[ty].span);
      (Ok(h), types1)
    case Array(base, _, _) => (Ok(base), types)
    case Struct(members, _) =>
      if index.None? then (Err(Error(NonConstantIndex, span)), types)
      else if index.value < |members| then (Ok(members[index.value].ty), types)
      else (Panic(OutOfBounds), types)
    case _ => (Err(Error(NotIndexable(ty), span)), types)
  }
}
