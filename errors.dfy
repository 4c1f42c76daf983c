/** The generator's error type: what went wrong (`Info`) and where (`Span`). */
module Errors {
  import opened Wrappers
  import opened Ir

  /**
   * `Info`. `IncompatibleMath` names a math function, which no modelled
   * operation produces; it is kept as an opaque number.
   */
  datatype Info =
    | IncompatibleBinary(operator: BinaryOperator, lhs: Handle, rhs: Option<Handle>)
    | IncompatibleMath(mathFunction: nat, mathLhs: Handle, mathRhs: Option<Handle>)
    | NonConstantIndex
    | NonConstantGlobal
    | IllegalScalar(scalar: Scalar)
    | IllegalLiteral(literal: Literal)
    | InvalidComponent(component: Handle)
    | NotComposable(composed: Handle)
    | NotIndexable(indexed: Handle)
    | InvalidFloatSize(size: Byte)
    | NotPointer(pointer: Handle)
    | NonVectorSwizzle(swizzled: Handle)
    | NoSuchComponent(vector: Handle, component: nat)
    | IncorrectReturnType(expected: Option<Handle>, found: Option<Handle>)
    | DynamicArrayWithoutPointer

  datatype Error = Error(info: Info, span: Span)
}
