/**
 * `build_splat` after its operand is evaluated: a vector whose every lane is
 * the operand, as a constant vector when the operand is constant and through
 * lane insertions otherwise.
 */
module Splats {
  import opened Wrappers
  import opened Ir
  import opened Native
  import opened Errors
  import opened State
  import opened Types

  /**
   * The lane loop from lane `i` on: `value` is inserted at lanes `i` to
   * `size - 1` in order, one instruction per lane; earlier lanes keep what
   * `vec` had.
   */
  function SplatLanes(g: Gen, value: Value, size: nat, i: nat, vec: Value): (r: (Value, Gen))
    requires i <= size <= 4
    ensures r.1 == g.(log := r.1.log) && |r.1.log| == |g.log| + (size - i) && g.log <= r.1.log
    ensures forall j :: 0 <= j < i ==> Lane(r.0, j) == Lane(vec, j)
    ensures forall j :: i <= j < size ==> Lane(r.0, j) == Some(value)
    decreases size - i
  {
    if i == size then (vec, g)
    else
      var (vec1, g1) := Build(g, InsertElement(vec, value, ConstU64(i)));
      SplatLanes(g1, value, size, i + 1, vec1)
  }

  /**
   * `build_splat` for an operand `value` of type `sty`. The operand must be a
   * scalar (anything else is fatal, before anything is interned); a constant
   * operand cannot fail; the result type is the interned
   * `Vector { size, scalar }` carrying the operand type's span, and every one
   * of the `size` lanes of the result is the operand.
   */
  function SplatEvaluated(ctx: Ctx, g: Gen, span: Span, size: VectorSize, value: Value, sty: Handle): (r: Step<(Value, Handle)>)
    requires TypesWf(g.types) && sty < |g.types|
    ensures Advances(g, r.g) && (r.out.Ok? ==> r.out.value.1 < |r.g.types|)
    ensures !g.types[sty].item.inner.ScalarType? ==> r == Step(Panic(NonScalarSplat), g)
    ensures g.types[sty].item.inner.ScalarType? && IsConstant(value) ==> r.out.Ok?
    ensures r.out.Ok? ==>
              var (v, h) := r.out.value;
              && r.g.types[h].item == Type(None, Vector(size, g.types[sty].item.inner.scalar))
              && (forall j :: 0 <= j < size ==> Lane(v, j) == Some(value))
              && (IsConstant(value) ==> v == ConstVector(seq(size, _ => value)))
              && (!IsConstant(value) ==> |r.g.log| == |g.log| + size)
  {
    match g.types[sty].item.inner
    case ScalarType(scalar) =>
      InternAdvances(g, Type(None, Vector(size, scalar)), g.types[sty].span);
      var (ty, g1) := Intern(g, Type(None, Vector(size, scalar)), g.types[sty].span);
      if IsConstant(value) then Step(Ok((ConstVector(seq(size, _ => value)), ty)), g1)
      else
        var (t, g2) :- EvalCachedType(ctx, g1, span, sty);
        var (vec, g3) := SplatLanes(g2, value, size, 0, Undef(VectorType(t, size)));
        Step(Ok((vec, ty)), g3)
    case _ => Step(Panic(NonScalarSplat), g)
  }
}
