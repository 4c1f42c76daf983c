/** `build_literal`: a literal becomes a native constant and an interned scalar type. */
module Literals {
  import opened Wrappers
  import opened Ir
  import opened Native
  import opened Errors
  import opened State
  import opened Types

  /** The native type of a constant. */
  function ConstType(v: Value): NativeType
  {
    match v
    case ConstInt(bits, _) => IntType(bits)
    case ConstReal(t, _) => t
    case ConstNull(t) => t
    case Undef(t) => t
    case _ => VoidType
  }

  /**
   * `build_literal`. The six concrete literals become a constant of their
   * value and the interned scalar type (with an undefined span); the abstract
   * literals are refused. The interned type is the literal's own scalar (so
   * a `u32` and an `i32` literal differ in signedness though both lower to
   * `i32`), the constant's native type is exactly its lowering, and integer
   * constants hold the literal's value.
   */
  function BuildLiteral(g: Gen, span: Span, literal: Literal): (r: Step<(Value, Handle)>)
    requires TypesWf(g.types)
    ensures Advances(g, r.g) && r.g == g.(types := r.g.types)
    ensures r.out.Ok? <==> !literal.LitAbstractInt? && !literal.LitAbstractFloat?
    ensures r.out.Err? ==> r == Step(Err(Error(IllegalLiteral(literal), span)), g)
    ensures r.out.Ok? ==>
              var (v, h) := r.out.value;
              && h < |r.g.types| && r.g.types[h].item.name.None? && r.g.types[h].item.inner.ScalarType?
              && EvalScalarType(span, r.g.types[h].item.inner.scalar) == Ok(ConstType(v))
    ensures r.out.Ok? ==>
              var v := r.out.value.0;
              && (literal.LitU32? ==> v.ConstInt? && v.bits == 32 && UnsignedOf(v) == literal.u)
              && (literal.LitI32? ==> v.ConstInt? && v.bits == 32 && SignedOf(v) == literal.i32)
              && (literal.LitI64? ==> v.ConstInt? && v.bits == 64 && SignedOf(v) == literal.i64)
              && (literal.LitBool? ==> v.ConstInt? && v.bits == 1 && (UnsignedOf(v) == 1 <==> literal.b))
    ensures r.out.Ok? ==>
              var ty := r.g.types[r.out.value.1].item;
              && (literal.LitF64? ==> ty == Type(None, ScalarType(F64Scalar)))
              && (literal.LitF32? ==> ty == Type(None, ScalarType(F32Scalar)))
              && (literal.LitU32? ==> ty == Type(None, ScalarType(U32Scalar)))
              && (literal.LitI32? ==> ty == Type(None, ScalarType(I32Scalar)))
              && (literal.LitI64? ==> ty == Type(None, ScalarType(I64Scalar)))
              && (literal.LitBool? ==> ty == Type(None, ScalarType(BoolScalar)))
  {
    match literal
    case LitF64(bits) => ScalarLiteral(g, ConstReal(DoubleType, bits), F64Scalar)
    case LitF32(bits) => ScalarLiteral(g, ConstReal(FloatType, bits), F32Scalar)
    case LitU32(u) => ScalarLiteral(g, ConstU32(u), U32Scalar)
    case LitI32(i) => ScalarLiteral(g, ConstI32(i), I32Scalar)
    case LitI64(i) => ScalarLiteral(g, ConstI64(i), I64Scalar)
    case LitBool(b) => ScalarLiteral(g, ConstBool(b), BoolScalar)
    case _ => Step(Err(Error(IllegalLiteral(literal), span)), g)
  }

  /** The value paired with the interned scalar type `s`. */
  function ScalarLiteral(g: Gen, v: Value, s: Scalar): (r: Step<(Value, Handle)>)
    requires TypesWf(g.types)
    ensures Advances(g, r.g) && r.g == g.(types := r.g.types)
    ensures r.out.Ok? && r.out.value.0 == v && r.out.value.1 < |r.g.types|
    ensures r.g.types[r.out.value.1].item == Type(None, ScalarType(s))
  {
    InternAdvances(g, Type(None, ScalarType(s)), Undefined);
    var (h, g1) := Intern(g, Type(None, ScalarType(s)), Undefined);
    Step(Ok((v, h)), g1)
  }

  /**
   * Literals of the same kind share one type handle: evaluating a second
   * literal of the kind just evaluated interns nothing new.
   */
  lemma LiteralTypeShared(g: Gen, span1: Span, span2: Span, lit1: Literal, lit2: Literal)
    requires TypesWf(g.types)
    requires BuildLiteral(g, span1, lit1).out.Ok?
    requires lit2 == lit1 || (lit1.LitF64? && lit2.LitF64?) || (lit1.LitF32? && lit2.LitF32?)
             || (lit1.LitU32? && lit2.LitU32?) || (lit1.LitI32? && lit2.LitI32?)
             || (lit1.LitI64? && lit2.LitI64?) || (lit1.LitBool? && lit2.LitBool?)
    ensures var r1 := BuildLiteral(g, span1, lit1);
            var r2 := BuildLiteral(r1.g, span2, lit2);
            r2.g == r1.g && r2.out.value.1 == r1.out.value.1
  {
    var r1 := BuildLiteral(g, span1, lit1);
    var h := r1.out.value.1;
    InsertAgainSharesHandle(r1.g.types, r1.g.types[h].item, h, Undefined);
  }
}
