/**
 * `build_access` once its base and index values are known: the index forms,
 * the remap of a constant index through a struct remap table, and the
 * element-pointer and by-value arms.
 */
module Access {
  import opened Wrappers
  import opened Ir
  import opened Native
  import opened Errors
  import opened State
  import opened Types
  import opened TypeFacts
  import opened Swizzles

  /** `Index`: an index held in an expression, or a known one. */
  datatype Index = DynamicIndex(expr: Handle) | ConstantIndex(constant: nat)

  /** The known index, if there is one (the item-type query takes it). */
  function Known(index: Index): (r: Option<nat>)
    ensures r.Some? <==> index.ConstantIndex?
    ensures r.Some? ==> r.value == index.constant
  {
    match index
    case ConstantIndex(c) => Some(c)
    case DynamicIndex(_) => None
  }

  /**
   * The index `build_access` uses once the base type `ty` is known: a constant
   * index into a type with a remap table is looked up in it (past its end is
   * fatal); any other index is kept.
   */
  function RemapIndex(maps: map<Handle, seq<nat>>, ty: Handle, index: Index): (r: Outcome<Index>)
    ensures index.DynamicIndex? ==> r == Ok(index)
    ensures index.ConstantIndex? && ty !in maps ==> r == Ok(index)
    ensures index.ConstantIndex? && ty in maps ==>
              (r.Ok? <==> index.constant < |maps[ty]|) &&
              (r.Ok? ==> r.value == ConstantIndex(maps[ty][index.constant])) &&
              (!r.Ok? ==> r == Panic(OutOfBounds))
  {
    match index
    case ConstantIndex(c) =>
      if ty in maps then
        if c < |maps[ty]| then Ok(ConstantIndex(maps[ty][c])) else Panic(OutOfBounds)
      else Ok(index)
    case DynamicIndex(_) => Ok(index)
  }

  /**
   * The numeric index of a value access: a known index as is; a `u32` literal
   * or a zero value held in the index expression; any other expression is not
   * a constant index.
   */
  function ResolveIndex(exprs: seq<Spanned<Expression>>, span: Span, index: Index): (r: Outcome<nat>)
    requires index.DynamicIndex? ==> index.expr < |exprs|
    ensures index.ConstantIndex? ==> r == Ok(index.constant)
    ensures index.DynamicIndex? ==>
              var x := exprs[index.expr].item;
              && (x.Literal? && x.literal.LitU32? ==> r == Ok(x.literal.u))
              && (x.ZeroValue? ==> r == Ok(0))
              && (!(x.Literal? && x.literal.LitU32?) && !x.ZeroValue? ==> r == Err(Error(NonConstantIndex, span)))
  {
    match index
    case ConstantIndex(c) => Ok(c)
    case DynamicIndex(x) =>
      match exprs[x].item
      case Literal(LitU32(v)) => Ok(v)
      case ZeroValue(_) => Ok(0)
      case _ => Err(Error(NonConstantIndex, span))
  }

  /** The numeric index, if it resolved (the item-type query takes it). */
  function Resolved(n: Outcome<nat>): (r: Option<nat>)
    ensures r.Some? <==> n.Ok?
    ensures r.Some? ==> r.value == n.value
  {
    if n.Ok? then Some(n.value) else None
  }

  /**
   * The pointer arm of `build_access` after the index value `idx` is known:
   * an element pointer into the lowered pointee type `inner` at `[0, idx]`,
   * typed as a pointer, in the same address space, to the item type of
   * `inner` at the known index (interned with the span of `inner`).
   */
  function IndexPointer(ctx: Ctx, g: Gen, span: Span, base: Value, idx: Value, index: Index, inner: Handle,
                        space: AddressSpace): (r: Step<(Value, Handle)>)
    requires TypesWf(g.types) && inner < |g.types|
    ensures Advances(g, r.g) && (r.out.Ok? ==> r.out.value.1 < |r.g.types|)
    ensures r.out.Ok? ==>
              var ptr := r.g.types[r.out.value.1].item;
              && inner in r.g.typeCache
              && r.out.value.0 == Inst(|g.log|, GetElementPtr(r.g.typeCache[inner], base, [ConstU64(0), idx]))
              && ptr.name.None? && ptr.inner.Pointer? && ptr.inner.space == space && ptr.inner.base < |r.g.types|
              && ItemOf(g.types, inner, Known(index)) == Some(r.g.types[ptr.inner.base].item)
  {
    var (t, g1) :- EvalCachedType(ctx, g, span, inner);
    PointerTo(g1, span, t, base, idx, index, inner, space)
  }

  /** `IndexPointer` once the pointee type is lowered to `t`. */
  function PointerTo(g: Gen, span: Span, t: NativeType, base: Value, idx: Value, index: Index, inner: Handle,
                     space: AddressSpace): (r: Step<(Value, Handle)>)
    requires TypesWf(g.types) && inner < |g.types|
    ensures Advances(g, r.g) && (r.out.Ok? ==> r.out.value.1 < |r.g.types|)
    ensures r.g.typeCache == g.typeCache
    ensures r.out.Ok? ==>
              var ptr := r.g.types[r.out.value.1].item;
              && r.out.value.0 == Inst(|g.log|, GetElementPtr(t, base, [ConstU64(0), idx]))
              && ptr.name.None? && ptr.inner.Pointer? && ptr.inner.space == space && ptr.inner.base < |r.g.types|
              && ItemOf(g.types, inner, Known(index)) == Some(r.g.types[ptr.inner.base].item)
  {
    ItemTypeWf(g.types, span, inner, Known(index));
    ItemTypeMeaning(g.types, span, inner, Known(index));
    var it := ItemType(g.types, span, inner, Known(index));
    var g1 := g.(types := it.1);
    var (item, _) :- Step(it.0, g1);
    var (gep, g2) := Build(g1, GetElementPtr(t, base, [ConstU64(0), idx]));
    InternAdvances(g2, Type(None, Pointer(item, space)), g2.types[inner].span);
    var (h, g3) := Intern(g2, Type(None, Pointer(item, space)), g2.types[inner].span);
    Step(Ok((gep, h)), g3)
  }

  /**
   * The by-value arm of `build_access` on a base of type `ty` after the index
   * value `idx` and the numeric index `n` are known. The result type is the
   * item type of `ty` at `n`. A vector yields an element extraction at `idx`;
   * a matrix is handed to the swizzle builder, which refuses every non-vector
   * type, so a matrix access by value never succeeds; anything else yields an
   * aggregate extraction at `n` as `u32`.
   */
  function IndexValue(ctx: Ctx, g: Gen, span: Span, base: Value, ty: Handle, idx: Value, n: Outcome<nat>)
    : (r: Step<(Value, Handle)>)
    requires TypesWf(g.types) && ty < |g.types|
    ensures Advances(g, r.g) && (r.out.Ok? ==> r.out.value.1 < |r.g.types|)
    ensures r.out.Ok? ==> ItemOf(g.types, ty, Resolved(n)) == Some(r.g.types[r.out.value.1].item)
    ensures var item := ItemType(g.types, span, ty, Resolved(n)).0;
            item.Err? ==> r.out == item.PropagateFailure()
    ensures g.types[ty].item.inner.Matrix? ==> !r.out.Ok?
    ensures g.types[ty].item.inner.Vector? ==>
              r.out.Ok? && r.out.value.0 == Inst(|g.log|, ExtractElement(base, idx))
    ensures g.types[ty].item.inner.Array? || g.types[ty].item.inner.Struct? ==>
              && (r.out.Ok? <==> ItemOf(g.types, ty, Resolved(n)).Some? && n.Ok?)
              && (r.out.Ok? ==> r.out.value.0 == Inst(|g.log|, ExtractValue(base, n.value % 0x1_0000_0000)))
  {
    ItemTypeWf(g.types, span, ty, Resolved(n));
    ItemTypeMeaning(g.types, span, ty, Resolved(n));
    var it := ItemType(g.types, span, ty, Resolved(n));
    var g1 := g.(types := it.1);
    var (item, _) :- Step(it.0, g1);
    Extract(ctx, g1, span, base, ty, idx, n, item)
  }

  /** `IndexValue` once the item type `item` is known. */
  function Extract(ctx: Ctx, g: Gen, span: Span, base: Value, ty: Handle, idx: Value, n: Outcome<nat>, item: Handle)
    : (r: Step<(Value, Handle)>)
    requires TypesWf(g.types) && ty < |g.types| && item < |g.types|
    ensures Advances(g, r.g) && (r.out.Ok? ==> r.out.value.1 == item)
    ensures g.types[ty].item.inner.Matrix? ==> !r.out.Ok?
    ensures g.types[ty].item.inner.Vector? ==> r == Step(Ok((Inst(|g.log|, ExtractElement(base, idx)), item)), Build(g, ExtractElement(base, idx)).1)
    ensures !g.types[ty].item.inner.Vector? && !g.types[ty].item.inner.Matrix? ==>
              && (r.out.Ok? <==> n.Ok?)
              && (r.out.Ok? ==> r.out.value.0 == Inst(|g.log|, ExtractValue(base, n.value % 0x1_0000_0000)))
  {
    var inner := g.types[ty].item.inner;
    if inner.Vector? then
      var (v, g1) := Build(g, ExtractElement(base, idx));
      Step(Ok((v, item)), g1)
    else if inner.Matrix? then
      var (b, _) :- Step(n, g);
      var s := b * inner.rows;
      var sw := BuildSwizzle(ctx, g, span, inner.rows, base, ty, [s, s + 1, s + 2, s + 3]);
      match sw.out
      case Ok((v, _)) => Step(Ok((v, item)), sw.g)
      case Err(error) => Step(Err(error), sw.g)
      case Panic(reason) => Step(Panic(reason), sw.g)
    else
      var (b, _) :- Step(n, g);
      var (v, g1) := Build(g, ExtractValue(base, b % 0x1_0000_0000));
      Step(Ok((v, item)), g1)
  }

  /**
   * A by-value access into a padded struct takes the item type at the
   * remapped native slot, not at the member index: in the example struct
   * (members at bytes 0, 4 and 16, remap table `[0, 1, 3]`), member 2 sits
   * at slot 3, and asking the struct's three members for slot 3 is fatal.
   */
  lemma PaddedMemberByValue(ctx: Ctx, g: Gen, span: Span, base: Value, idx: Value)
    requires ctx.dl.abiSize(IntType(32)) == 4 && g.types == ExampleArena
    requires g.structMaps == map[1 := Layout(ctx.dl, ExampleArena, Undefined, 1).value.1]
    ensures RemapIndex(g.structMaps, 1, ConstantIndex(2)) == Ok(ConstantIndex(3))
    ensures IndexValue(ctx, g, span, base, 1, idx, Ok(3)).out == Panic(OutOfBounds)
  {
    ExampleLayout(ctx.dl);
    assert g.structMaps[1] == [0, 1, 3];
  }
}
