/**
 * Properties of expression evaluation: where composition puts each
 * component (lane, slot, or remapped struct slot), the column check of the
 * matrix arm, and the expression cache being keyed by handle alone.
 */
module ExpressionFacts {
  import opened Wrappers
  import opened Ir
  import opened Native
  import opened Errors
  import opened State
  import opened Types
  import opened Locations
  import opened Literals
  import opened Loads
  import opened Expressions

  /** A remap table that sends no two pairs to the same slot. */
  ghost predicate DistinctSlots(slots: seq<nat>)
  {
    forall i, j :: 0 <= i < j < |slots| ==> SlotIndex(slots[i]) != SlotIndex(slots[j])
  }

  /** With a remap table of distinct slots, every paired component lands in its slot. */
  lemma MembersDistinct(v: Value, cache: map<Handle, (Value, Handle)>, slots: seq<nat>, components: seq<Handle>)
    requires DistinctSlots(slots) && MembersFilled(v, cache, slots, components, 0)
    ensures forall i :: 0 <= i < Min(|slots|, |components|) ==>
              components[i] in cache && Slot(v, SlotIndex(slots[i])) == Some(cache[components[i]].0)
  {
    forall i | 0 <= i < Min(|slots|, |components|)
      ensures Slot(v, SlotIndex(slots[i])) == Some(cache[components[i]].0)
    {
      assert LastWriter(slots, i, Min(|slots|, |components|));
    }
  }

  /**
   * A successful `build_compose` of an aggregate is the fill of the undefined
   * value of the aggregate's lowered type, with the state the fill left.
   */
  lemma ComposeFilled(ctx: Ctx, n: nat, g: Gen, loc: Location, e: Handle, span: Span, ty: Handle,
                      components: seq<Handle>)
    requires Scope(ctx, loc, n) && Ready(g, n) && e < |GetExprs(ctx.src, loc)|
    requires ty < |g.types| && ComponentsBelow(components, e) && |components| < 0x1_0000_0000
    requires var inner := g.types[ty].item.inner; inner.Vector? || inner.Matrix? || inner.Array? || inner.Struct?
    ensures var r := BuildCompose(ctx, n, g, loc, e, span, ty, components);
            var r1 := EvalCachedType(ctx, g, span, ty);
            r.out.Ok? ==>
              && r1.out.Ok?
              && var r2 := Fill(ctx, n, r1.g, loc, e, span, g.types[ty].item.inner, ty, components, Undef(r1.out.value));
                 r2.out.Ok? && r.out.value.0 == r2.out.value && r.g == r2.g
  {
  }

  /**
   * `build_compose` of a vector, matrix or array, on success: its lanes or
   * slots hold the cached values of the components in order, and a matrix's
   * columns all have vector types.
   */
  lemma ComposeElements(ctx: Ctx, n: nat, g: Gen, loc: Location, e: Handle, span: Span, ty: Handle,
                        components: seq<Handle>)
    requires Scope(ctx, loc, n) && Ready(g, n) && e < |GetExprs(ctx.src, loc)|
    requires ty < |g.types| && ComponentsBelow(components, e) && |components| < 0x1_0000_0000
    ensures var r := BuildCompose(ctx, n, g, loc, e, span, ty, components);
            var inner := g.types[ty].item.inner;
            r.out.Ok? ==>
              && (inner.Vector? ==> LanesFilled(r.out.value.0, r.g.exprCache, components, 0))
              && (inner.Matrix? || inner.Array? ==> SlotsFilled(r.out.value.0, r.g.exprCache, components, 0))
              && (inner.Matrix? ==> ColumnsVectors(r.g, components, 0))
  {
    var inner := g.types[ty].item.inner;
    if inner.Vector? || inner.Matrix? || inner.Array? {
      ComposeFilled(ctx, n, g, loc, e, span, ty, components);
    }
  }

  /**
   * `build_compose` of a struct, on success: the components are placed
   * through the remap table that lowering the struct type left for it.
   */
  lemma ComposeMembers(ctx: Ctx, n: nat, g: Gen, loc: Location, e: Handle, span: Span, ty: Handle,
                       components: seq<Handle>)
    requires Scope(ctx, loc, n) && Ready(g, n) && e < |GetExprs(ctx.src, loc)|
    requires ty < |g.types| && ComponentsBelow(components, e) && |components| < 0x1_0000_0000
    requires g.types[ty].item.inner.Struct?
    ensures var r := BuildCompose(ctx, n, g, loc, e, span, ty, components);
            var g1 := EvalCachedType(ctx, g, span, ty).g;
            r.out.Ok? ==> ty in g1.structMaps && MembersFilled(r.out.value.0, r.g.exprCache, g1.structMaps[ty], components, 0)
  {
    ComposeFilled(ctx, n, g, loc, e, span, ty, components);
  }

  /** One unsigned 32-bit scalar type. */
  const U32Arena: TypeArena := [Spanned(Type(None, ScalarType(U32Scalar)), Undefined)]

  /**
   * A module whose constant 0 is initialized by a load (constant-arena
   * handle 1) from the `u32` literal at constant-arena handle 0, and a
   * function whose only expression, handle 0, is that constant.
   */
  const CollisionSource: Src :=
    Src([ConstantDecl(None, 0, 1)], [],
        [Spanned(Literal(LitU32(7)), Undefined), Spanned(Load(0), Undefined)], [])
  const CollisionFunction: Function :=
    FunctionDecl(None, [], None, [], [Spanned(Constant(0), Undefined)], [])

  /**
   * The expression cache is keyed by handle alone, across arenas: evaluating
   * function expression 0 (the constant) evaluates the constant's
   * initializer in the global context, which caches the literal under its
   * constant-arena handle 0. The load then fails, so the evaluation of
   * function expression 0 fails, yet handle 0 is in the cache afterwards,
   * holding the literal.
   */
  lemma CacheCollision(dl: DataLayout)
    ensures var ctx := Ctx(CollisionSource, dl);
            var loc := FunctionState(CollisionFunction, [], []);
            var g := NewGen(U32Arena);
            Scope(ctx, loc, 1) && Ready(g, 1) && 0 !in g.exprCache
            && var r := EvalCachedExpr(ctx, 1, g, loc, 0);
               && r.out == Err(Error(NotPointer(0), Undefined))
               && 0 in r.g.exprCache && r.g.exprCache[0] == (ConstU32(7), 0)
  {
    var ctx := Ctx(CollisionSource, dl);
    var loc := FunctionState(CollisionFunction, [], []);
    assert LocWf(ctx.src, loc, 1);
    InitializerFails(dl);
    assert EvalExpr(ctx, 1, NewGen(U32Arena), loc, 0) == EvalExpr(ctx, 1, NewGen(U32Arena), Global, 1);
  }

  /** The constant's initializer, evaluated in the global context, caches the literal and fails. */
  lemma InitializerFails(dl: DataLayout)
    ensures SrcWf(CollisionSource, 1) && Ready(NewGen(U32Arena), 1)
    ensures var g := NewGen(U32Arena);
            EvalExpr(Ctx(CollisionSource, dl), 1, g, Global, 1)
            == Step(Err(Error(NotPointer(0), Undefined)), g.(exprCache := map[0 := (ConstU32(7), 0)]))
  {
    var ctx := Ctx(CollisionSource, dl);
    var g := NewGen(U32Arena);
    assert SrcWf(ctx.src, 1);
    LiteralCached(dl);
    var g1 := g.(exprCache := map[0 := (ConstU32(7), 0)]);
    var ld := LoadEvaluated(ctx, g1, Undefined, ConstU32(7), 0);
    assert ld == Step(Err(Error(NotPointer(0), Undefined)), g1);
    assert BuildLoad(ctx, 1, g, Global, 1, Undefined, 0) == ld;
  }

  /** The literal at constant-arena handle 0 evaluates to `7u32` of the arena's one type, and is cached. */
  lemma LiteralCached(dl: DataLayout)
    ensures SrcWf(CollisionSource, 1) && Ready(NewGen(U32Arena), 1)
    ensures var g := NewGen(U32Arena);
            EvalCachedExpr(Ctx(CollisionSource, dl), 1, g, Global, 0)
            == Step(Ok((ConstU32(7), 0)), g.(exprCache := map[0 := (ConstU32(7), 0)]))
  {
    var ctx := Ctx(CollisionSource, dl);
    var g := NewGen(U32Arena);
    assert TypesWf(g.types);
    assert SrcWf(ctx.src, 1);
    var lit := BuildLiteral(g, Undefined, LitU32(7));
    assert lit == Step(Ok((ConstU32(7), 0)), g) by {
      assert Find(g.types, Type(None, ScalarType(U32Scalar))) == Some(0);
    }
    assert EvalExpr(ctx, 1, g, Global, 0) == EvalLeaf(ctx, 1, g, Global, Undefined, Literal(LitU32(7)));
  }
}
