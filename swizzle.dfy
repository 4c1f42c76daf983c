/**
 * `build_swizzle`, over an already evaluated vector and its type, as both of
 * its callers use it: the pattern is checked and turned into a shuffle mask,
 * and the result type is the interned vector of the requested size.
 */
module Swizzles {
  import opened Wrappers
  import opened Ir
  import opened Native
  import opened Errors
  import opened State
  import opened Types

  /**
   * The mask loop from lane `i` on: each of the first `size` pattern entries is
   * checked against the input size `inSize` and inserted at its lane. The
   * check refuses an entry exactly when it exceeds `inSize` (an entry equal to
   * `inSize` is accepted), and the first refused entry is the one reported.
   */
  function SwizzleMask(g: Gen, span: Span, ty: Handle, inSize: nat, size: nat, pattern: seq<nat>,
                       i: nat, mask: Value): (r: Step<Value>)
    requires i <= size <= |pattern| && size <= 4 && inSize <= 4
    ensures r.g == g.(log := r.g.log) && g.log <= r.g.log
    ensures r.out.Ok? <==> forall j :: i <= j < size ==> pattern[j] <= inSize
    ensures r.out.Panic? == false
    ensures r.out.Err? ==>
              exists j :: i <= j < size && pattern[j] > inSize
                && r.out.error == Error(NoSuchComponent(ty, pattern[j]), span)
                && forall j' :: i <= j' < j ==> pattern[j'] <= inSize
    ensures r.out.Ok? ==>
              && (forall j :: 0 <= j < i ==> Lane(r.out.value, j) == Lane(mask, j))
              && (forall j :: i <= j < size ==> Lane(r.out.value, j) == Some(ConstU64(pattern[j])))
    decreases size - i
  {
    if i == size then Step(Ok(mask), g)
    else if pattern[i] > inSize then Step(Err(Error(NoSuchComponent(ty, pattern[i]), span)), g)
    else
      var (mask1, g1) := Build(g, InsertElement(mask, ConstU64(pattern[i]), ConstU64(i)));
      SwizzleMask(g1, span, ty, inSize, size, pattern, i + 1, mask1)
  }

  /**
   * `build_swizzle`. A non-vector source type is refused; otherwise the mask
   * (lane `i` selecting source lane `pattern[i]`) is built, the source type is
   * lowered, and the source vector is shuffled with an undef of that type.
   * The result type is the interned `Vector { size, scalar }` of the source's
   * scalar, carrying the expression's span.
   */
  function BuildSwizzle(ctx: Ctx, g: Gen, span: Span, size: VectorSize, vector: Value, ty: Handle,
                        pattern: seq<nat>): (r: Step<(Value, Handle)>)
    requires TypesWf(g.types) && ty < |g.types| && |pattern| == 4
    ensures Advances(g, r.g) && (r.out.Ok? ==> r.out.value.1 < |r.g.types|)
    ensures !g.types[ty].item.inner.Vector? ==> r == Step(Err(Error(NonVectorSwizzle(ty), span)), g)
    ensures r.out.Ok? ==>
              var inner := g.types[ty].item.inner;
              var (v, h) := r.out.value;
              && inner.Vector? && (forall j :: 0 <= j < size ==> pattern[j] <= inner.size)
              && r.g.types[h].item == Type(None, Vector(size, inner.scalar))
              && v.Inst? && v.instr.ShuffleVector? && v.instr.v1 == vector
              && ty in r.g.typeCache && v.instr.v2 == Undef(r.g.typeCache[ty])
              && forall j :: 0 <= j < size ==> Lane(v.instr.mask, j) == Some(ConstU64(pattern[j]))
  {
    match g.types[ty].item.inner
    case Vector(inSize, scalar) =>
      var (mask, g1) :- SwizzleMask(g, span, ty, inSize, size, pattern, 0, Undef(VectorType(IntType(64), size)));
      var (t, g2) :- EvalCachedType(ctx, g1, span, ty);
      var (shuffled, g3) := Build(g2, ShuffleVector(vector, Undef(t), mask));
      InternAdvances(g3, Type(None, Vector(size, scalar)), span);
      var (h, g4) := Intern(g3, Type(None, Vector(size, scalar)), span);
      Step(Ok((shuffled, h)), g4)
    case _ => Step(Err(Error(NonVectorSwizzle(ty), span)), g)
  }

  /**
   * How `build_swizzle` fails on a vector source: the first pattern entry
   * beyond the source size is the one reported, before anything but the mask
   * instructions has been built; and when every entry is in range it succeeds
   * exactly when the source type is cached or its scalar lowers.
   */
  lemma SwizzleOutcome(ctx: Ctx, g: Gen, span: Span, size: VectorSize, vector: Value, ty: Handle,
                       pattern: seq<nat>)
    requires TypesWf(g.types) && ty < |g.types| && |pattern| == 4
    ensures var inner := g.types[ty].item.inner;
            var r := BuildSwizzle(ctx, g, span, size, vector, ty, pattern);
            inner.Vector? ==>
              forall j :: 0 <= j < size && pattern[j] > inner.size && (forall i :: 0 <= i < j ==> pattern[i] <= inner.size) ==>
                r.out == Err(Error(NoSuchComponent(ty, pattern[j]), span)) && r.g == g.(log := r.g.log)
    ensures var inner := g.types[ty].item.inner;
            var r := BuildSwizzle(ctx, g, span, size, vector, ty, pattern);
            inner.Vector? && (forall j :: 0 <= j < size ==> pattern[j] <= inner.size) ==>
              (r.out.Ok? <==> ty in g.typeCache || EvalScalarType(span, inner.scalar).Ok?)
  {
    match g.types[ty].item.inner
    case Vector(inSize, scalar) =>
      var r1 := SwizzleMask(g, span, ty, inSize, size, pattern, 0, Undef(VectorType(IntType(64), size)));
      if r1.out.Ok? {
        assert ty !in r1.g.typeCache ==> EvalType(ctx, r1.g, span, ty).out.Ok? == EvalScalarType(span, scalar).Ok?;
      }
    case _ =>
  }
}
