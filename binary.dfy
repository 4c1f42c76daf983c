/**
 * Binary expressions after both operands are evaluated: the operator and
 * scalar-kind table of `component_wise_op!`, its column loop for matrices,
 * and the matrix products of `build_mul`.
 */
module Binary {
  import opened Wrappers
  import opened Ir
  import opened Native
  import opened Errors
  import opened State
  import opened Types


  predicate IsComparison(op: BinaryOperator)
  {
    op in {Equal, NotEqual, Less, LessEqual, Greater, GreaterEqual}
  }

  predicate IsArithmetic(op: BinaryOperator)
  {
    op in {Add, Subtract, Multiply, Divide, Modulo}
  }

  predicate IsBitwise(op: BinaryOperator)
  {
    op in {And, ExclusiveOr, InclusiveOr, ShiftLeft, ShiftRight}
  }

  predicate IsLogical(op: BinaryOperator)
  {
    op in {LogicalAnd, LogicalOr}
  }

  predicate IsAbstract(kind: ScalarKind)
  {
    kind == AbstractInt || kind == AbstractFloat
  }

  /** The comparison an integer predicate decides. */
  function IntPredicateMeaning(p: IntPredicate): BinaryOperator
  {
    match p
    case EQ => Equal
    case NE => NotEqual
    case ULT => Less
    case SLT => Less
    case ULE => LessEqual
    case SLE => LessEqual
    case UGT => Greater
    case SGT => Greater
    case UGE => GreaterEqual
    case SGE => GreaterEqual
  }

  /** The comparison a floating-point predicate decides. */
  function RealPredicateMeaning(p: RealPredicate): BinaryOperator
  {
    match p
    case OEQ => Equal
    case UNE => NotEqual
    case OLT => Less
    case OLE => LessEqual
    case OGT => Greater
    case OGE => GreaterEqual
  }

  /** The IR operator an instruction computes (on 1-bit integers the bitwise ones are the logical ones). */
  predicate Computes(opc: Opcode, op: BinaryOperator)
  {
    match opc
    case FAdd => op == Add
    case IAdd => op == Add
    case FSub => op == Subtract
    case ISub => op == Subtract
    case FMul => op == Multiply
    case IMul => op == Multiply
    case FDiv => op == Divide
    case SDiv => op == Divide
    case UDiv => op == Divide
    case FRem => op == Modulo
    case SRem => op == Modulo
    case URem => op == Modulo
    case BitAnd => op == And || op == LogicalAnd
    case BitOr => op == InclusiveOr || op == LogicalOr
    case BitXor => op == ExclusiveOr
    case Shl => op == ShiftLeft
    case LShr => op == ShiftRight
    case AShr => op == ShiftRight
    case ICmp(p) => IntPredicateMeaning(p) == op
    case FCmp(p) => RealPredicateMeaning(p) == op
  }

  /** The instruction works on floating-point operands. */
  predicate FloatOp(opc: Opcode)
  {
    opc in {FAdd, FSub, FMul, FDiv, FRem} || opc.FCmp?
  }

  /** The instruction reads its operands as signed integers. */
  predicate SignedOp(opc: Opcode)
  {
    opc in {SDiv, SRem, AShr} || (opc.ICmp? && opc.ipred in {SLT, SLE, SGT, SGE})
  }

  /** The instruction reads its operands as unsigned integers. */
  predicate UnsignedOp(opc: Opcode)
  {
    opc in {UDiv, URem, LShr} || (opc.ICmp? && opc.ipred in {ULT, ULE, UGT, UGE})
  }

  /** The arithmetic operators: floats and both integer kinds. */
  function ArithmeticOp(op: BinaryOperator, kind: ScalarKind): (r: Option<Opcode>)
    requires IsArithmetic(op)
    ensures r.Some? <==> kind in {Float, Sint, Uint}
    ensures r.Some? ==> Computes(r.value, op) && (FloatOp(r.value) <==> kind == Float)
    ensures r.Some? && op in {Divide, Modulo} ==> (SignedOp(r.value) <==> kind == Sint) && (UnsignedOp(r.value) <==> kind == Uint)
    ensures r.Some? && op !in {Divide, Modulo} ==> !SignedOp(r.value) && !UnsignedOp(r.value)
  {
    if kind !in {Float, Sint, Uint} then None
    else if op == Add then Some(if kind == Float then FAdd else IAdd)
    else if op == Subtract then Some(if kind == Float then FSub else ISub)
    else if op == Multiply then Some(if kind == Float then FMul else IMul)
    else if op == Divide then Some(if kind == Float then FDiv else if kind == Sint then SDiv else UDiv)
    else Some(if kind == Float then FRem else if kind == Sint then SRem else URem)
  }

  /** The comparisons: every concrete kind, `Uint` and `Bool` unsigned, `Sint` signed, `Float` ordered except `!=`. */
  function ComparisonOp(op: BinaryOperator, kind: ScalarKind): (r: Option<Opcode>)
    requires IsComparison(op)
    ensures r.Some? <==> !IsAbstract(kind)
    ensures r.Some? ==> Computes(r.value, op) && (FloatOp(r.value) <==> kind == Float)
    ensures r.Some? && op !in {Equal, NotEqual} ==> (SignedOp(r.value) <==> kind == Sint)
    ensures r.Some? && op !in {Equal, NotEqual} ==> (UnsignedOp(r.value) <==> kind in {Uint, ScalarKind.Bool})
    ensures r.Some? && op in {Equal, NotEqual} ==> !SignedOp(r.value) && !UnsignedOp(r.value)
    ensures r.Some? && r.value.FCmp? ==> (r.value.rpred == UNE <==> op == NotEqual)
  {
    if kind in {Uint, ScalarKind.Bool} then Some(ICmp(UnsignedPredicate(op)))
    else if kind == Sint then Some(ICmp(SignedPredicate(op)))
    else if kind == Float then Some(FCmp(FloatPredicate(op)))
    else None
  }

  /** The unsigned integer predicate for a comparison. */
  function UnsignedPredicate(op: BinaryOperator): (p: IntPredicate)
    requires IsComparison(op)
    ensures IntPredicateMeaning(p) == op
    ensures p in {ULT, ULE, UGT, UGE} <==> op !in {Equal, NotEqual}
    ensures p !in {SLT, SLE, SGT, SGE}
  {
    match op
    case Equal => EQ
    case NotEqual => NE
    case Less => ULT
    case LessEqual => ULE
    case Greater => UGT
    case GreaterEqual => UGE
  }

  /** The signed integer predicate for a comparison. */
  function SignedPredicate(op: BinaryOperator): (p: IntPredicate)
    requires IsComparison(op)
    ensures IntPredicateMeaning(p) == op
    ensures p in {SLT, SLE, SGT, SGE} <==> op !in {Equal, NotEqual}
    ensures p !in {ULT, ULE, UGT, UGE}
  {
    match op
    case Equal => EQ
    case NotEqual => NE
    case Less => SLT
    case LessEqual => SLE
    case Greater => SGT
    case GreaterEqual => SGE
  }

  /** The floating-point predicate for a comparison: ordered, except `!=` which holds on NaN. */
  function FloatPredicate(op: BinaryOperator): (p: RealPredicate)
    requires IsComparison(op)
    ensures RealPredicateMeaning(p) == op
    ensures p == UNE <==> op == NotEqual
  {
    match op
    case Equal => OEQ
    case NotEqual => UNE
    case Less => OLT
    case LessEqual => OLE
    case Greater => OGT
    case GreaterEqual => OGE
  }

  /** The bitwise operators: integers only; a right shift is logical on `Uint` and arithmetic on `Sint`. */
  function BitwiseOp(op: BinaryOperator, kind: ScalarKind): (r: Option<Opcode>)
    requires IsBitwise(op)
    ensures r.Some? <==> kind in {Sint, Uint}
    ensures r.Some? ==> Computes(r.value, op) && !FloatOp(r.value)
    ensures r.Some? && op == ShiftRight ==> (SignedOp(r.value) <==> kind == Sint) && (UnsignedOp(r.value) <==> kind == Uint)
    ensures r.Some? && op != ShiftRight ==> !SignedOp(r.value) && !UnsignedOp(r.value)
  {
    if kind !in {Sint, Uint} then None
    else if op == And then Some(BitAnd)
    else if op == ExclusiveOr then Some(BitXor)
    else if op == InclusiveOr then Some(BitOr)
    else if op == ShiftLeft then Some(Shl)
    else Some(if kind == Uint then LShr else AShr)
  }

  /** The logical operators: booleans only, as the bitwise instruction on 1-bit integers. */
  function LogicalOp(op: BinaryOperator, kind: ScalarKind): (r: Option<Opcode>)
    requires IsLogical(op)
    ensures r.Some? <==> kind == ScalarKind.Bool
    ensures r.Some? ==> Computes(r.value, op) && !FloatOp(r.value) && !SignedOp(r.value) && !UnsignedOp(r.value)
  {
    if kind != ScalarKind.Bool then None
    else if op == LogicalAnd then Some(BitAnd)
    else Some(BitOr)
  }

  /**
   * The instruction `component_wise_op!` emits for `op` on components of
   * `kind`, or `None` when the operator does not accept that kind. The
   * instruction computes `op`, works on floats exactly for `Float`, and reads
   * its operands as signed exactly for `Sint` and as unsigned exactly for
   * `Uint` (and `Bool` in comparisons) where the operator's signedness matters.
   */
  function ComponentOp(op: BinaryOperator, kind: ScalarKind): (r: Option<Opcode>)
    ensures IsArithmetic(op) ==> (r.Some? <==> kind in {Float, Sint, Uint})
    ensures IsComparison(op) ==> (r.Some? <==> !IsAbstract(kind))
    ensures IsBitwise(op) ==> (r.Some? <==> kind in {Sint, Uint})
    ensures IsLogical(op) ==> (r.Some? <==> kind == ScalarKind.Bool)
    ensures r.Some? ==> Computes(r.value, op) && (FloatOp(r.value) <==> kind == Float)
    ensures r.Some? && SignedOp(r.value) ==> kind == Sint
    ensures r.Some? && op in {Divide, Modulo, ShiftRight, Less, LessEqual, Greater, GreaterEqual} ==>
              (SignedOp(r.value) <==> kind == Sint) && (UnsignedOp(r.value) <==> kind in {Uint, ScalarKind.Bool})
    ensures r.Some? && r.value.FCmp? ==> (r.value.rpred == UNE <==> op == NotEqual)
  {
    match op
    case Add | Subtract | Multiply | Divide | Modulo => ArithmeticOp(op, kind)
    case Equal | NotEqual | Less | LessEqual | Greater | GreaterEqual => ComparisonOp(op, kind)
    case And | ExclusiveOr | InclusiveOr | ShiftLeft | ShiftRight => BitwiseOp(op, kind)
    case LogicalAnd | LogicalOr => LogicalOp(op, kind)
  }

  /** The scalar of a scalar, vector or matrix type; the only shapes `component_wise_op!` accepts. */
  function OperandScalar(inner: TypeInner): Option<Scalar>
  {
    if inner.ScalarType? || inner.Vector? || inner.Matrix? then Some(inner.scalar) else None
  }

  /** The error for operands of one type `ty` that `op` does not accept. */
  function Unsupported(ty: Handle, inner: TypeInner, span: Span): Error
  {
    if OperandScalar(inner).Some? && IsAbstract(OperandScalar(inner).value.kind) then
      Error(IllegalScalar(OperandScalar(inner).value), span)
    else Error(IncompatibleBinary(Add, ty, None), span)
  }

  /** The `i`-th column result: `opc` applied to column `i` extracted from each operand. */
  ghost predicate ColumnResult(v: Value, opc: Opcode, lhs: Value, rhs: Value, i: nat)
  {
    && v.Inst? && v.instr.BinOp? && v.instr.opcode == opc
    && v.instr.lhs.Inst? && v.instr.lhs.instr == ExtractValue(lhs, i)
    && v.instr.rhs.Inst? && v.instr.rhs.instr == ExtractValue(rhs, i)
  }

  /**
   * The four instructions of column `c`, for a log that holds `base`
   * instructions before them: the column extracted from each operand, the
   * two combined with `opc`, and the result inserted at column `c` of `acc`.
   */
  function ColumnInstrs(base: nat, opc: Opcode, lhs: Value, rhs: Value, c: nat, acc: Value): seq<Instr>
  {
    [ExtractValue(lhs, c), ExtractValue(rhs, c), BinOp(opc, Inst(base, ExtractValue(lhs, c)), Inst(base + 1, ExtractValue(rhs, c))),
     InsertValue(acc, Inst(base + 2, BinOp(opc, Inst(base, ExtractValue(lhs, c)), Inst(base + 1, ExtractValue(rhs, c)))), c)]
  }

  /**
   * The matrix arm's column loop from column `c` on: the instructions of
   * each column in turn, the insertion of the last becoming the next
   * accumulator.
   */
  function MatrixColumns(g: Gen, opc: Opcode, lhs: Value, rhs: Value, columns: nat, c: nat, acc: Value): (r: (Value, Gen))
    requires c <= columns
    ensures r.1 == g.(log := r.1.log) && g.log <= r.1.log && |r.1.log| == |g.log| + 4 * (columns - c)
    ensures forall i :: 0 <= i < c ==> Slot(r.0, i) == Slot(acc, i)
    ensures forall i :: c <= i < columns ==> Slot(r.0, i).Some? && ColumnResult(Slot(r.0, i).value, opc, lhs, rhs, i)
    decreases columns - c
  {
    if c == columns then (acc, g)
    else
      var instrs := ColumnInstrs(|g.log|, opc, lhs, rhs, c, acc);
      MatrixColumns(g.(log := g.log + instrs), opc, lhs, rhs, columns, c + 1, Inst(|g.log| + 3, instrs[3]))
  }

  /**
   * `component_wise_op!` on evaluated operands. Operands of different type
   * handles are refused, naming the operator (`ShiftRight` reports itself as
   * `ShiftLeft`). A scalar or vector operand of an accepted kind gives one
   * instruction; a matrix gives one per column; either way the result has the
   * operand type, comparisons included. Abstract kinds are illegal scalars,
   * and every other refusal names `Add` whatever the operator.
   */
  function ComponentWise(ctx: Ctx, g: Gen, op: BinaryOperator, span: Span, lhs: Value, ty: Handle,
                         rhs: Value, rhsTy: Handle): (r: Step<(Value, Handle)>)
    requires TypesWf(g.types) && ty < |g.types| && rhsTy < |g.types|
    ensures Advances(g, r.g) && r.g.types == g.types
    ensures ty != rhsTy ==>
              r == Step(Err(Error(IncompatibleBinary(if op == ShiftRight then ShiftLeft else op, ty, Some(rhsTy)), span)), g)
    ensures var s := OperandScalar(g.types[ty].item.inner);
            ty == rhsTy && (s.None? || ComponentOp(op, s.value.kind).None?) ==>
              r == Step(Err(Unsupported(ty, g.types[ty].item.inner, span)), g)
    ensures r.out.Ok? ==> ty == rhsTy && r.out.value.1 == ty
    ensures var inner := g.types[ty].item.inner;
            ty == rhsTy && (inner.ScalarType? || inner.Vector?) && ComponentOp(op, inner.scalar.kind).Some? ==>
              var opc := ComponentOp(op, inner.scalar.kind).value;
              r == Step(Ok((Inst(|g.log|, BinOp(opc, lhs, rhs)), ty)), g.(log := g.log + [BinOp(opc, lhs, rhs)]))
    ensures var inner := g.types[ty].item.inner;
            r.out.Ok? && inner.Matrix? ==>
              var opc := ComponentOp(op, inner.scalar.kind).value;
              forall i :: 0 <= i < inner.columns ==>
                Slot(r.out.value.0, i).Some? && ColumnResult(Slot(r.out.value.0, i).value, opc, lhs, rhs, i)
    ensures var inner := g.types[ty].item.inner;
            ty == rhsTy && inner.Matrix? && ComponentOp(op, inner.scalar.kind).Some? ==>
              var t := EvalCachedType(ctx, g, span, ty);
              && (r.out.Ok? <==> t.out.Ok?)
              && (!t.out.Ok? ==> r == Step(t.out.PropagateFailure(), t.g))
  {
    if ty != rhsTy then
      Step(Err(Error(IncompatibleBinary(if op == ShiftRight then ShiftLeft else op, ty, Some(rhsTy)), span)), g)
    else
      var inner := g.types[ty].item.inner;
      var s := OperandScalar(inner);
      if s.None? || ComponentOp(op, s.value.kind).None? then Step(Err(Unsupported(ty, inner, span)), g)
      else
        var opc := ComponentOp(op, s.value.kind).value;
        if inner.Matrix? then
          var (t, g1) :- EvalCachedType(ctx, g, span, ty);
          var (m, g2) := MatrixColumns(g1, opc, lhs, rhs, inner.columns, 0, Undef(t));
          Step(Ok((m, ty)), g2)
        else
          var (v, g1) := Build(g, BinOp(opc, lhs, rhs));
          Step(Ok((v, ty)), g1)
  }

  /**
   * `build_matrix_mul`: the matrix-multiply intrinsic on an `rows x inner`
   * and an `inner x cols` operand, yielding a flat vector of `rows * cols`
   * lowered scalars, with result type `resultTy`.
   */
  function MatrixMul(g: Gen, span: Span, scalar: Scalar, lhs: Value, rhs: Value, rows: nat, inner: nat, cols: nat,
                     resultTy: Handle): (r: Step<(Value, Handle)>)
    requires rows <= 4 && inner <= 4 && cols <= 4
    ensures r.g == g.(log := r.g.log) && g.log <= r.g.log
    ensures r.out.Ok? <==> EvalScalarType(span, scalar).Ok?
    ensures !r.out.Ok? ==> r.g == g
    ensures r.out.Ok? ==>
              && r.out.value.1 == resultTy
              && r.out.value.0 == Inst(|g.log|, CallIntrinsic(MatrixMultiply,
                   [Known(VectorType(EvalScalarType(span, scalar).value, rows * cols)), TypeOf(lhs), TypeOf(rhs)],
                   [lhs, rhs, ConstU32(rows), ConstU32(inner), ConstU32(cols)]))
  {
    var (t, _) :- Step(EvalScalarType(span, scalar), g);
    var (v, g1) := Build(g, CallIntrinsic(MatrixMultiply, [Known(VectorType(t, rows * cols)), TypeOf(lhs), TypeOf(rhs)],
                                          [lhs, rhs, ConstU32(rows), ConstU32(inner), ConstU32(cols)]));
    Step(Ok((v, resultTy)), g1)
  }

  /** `Matrix(k) x Matrix` with `k` rows on the right and equal scalars. */
  predicate MatMat(l: TypeInner, r: TypeInner)
  {
    l.Matrix? && r.Matrix? && r.rows == l.columns && l.scalar == r.scalar
  }

  /** `Matrix(k) x Vector(k)` with equal scalars. */
  predicate MatVec(l: TypeInner, r: TypeInner)
  {
    l.Matrix? && r.Vector? && r.size == l.columns && l.scalar == r.scalar
  }

  /** `Vector(k) x Matrix` with `k` rows and equal scalars. */
  predicate VecMat(l: TypeInner, r: TypeInner)
  {
    l.Vector? && r.Matrix? && r.rows == l.size && l.scalar == r.scalar
  }

  /** The matrix-times-matrix arm: `(r, k, c)` into the interned `Matrix { columns: c, rows: r }`. */
  function MatMatMul(g: Gen, span: Span, lhs: Value, l: TypeInner, rhs: Value, rr: TypeInner): (r: Step<(Value, Handle)>)
    requires TypesWf(g.types) && MatMat(l, rr)
    ensures Advances(g, r.g) && (r.out.Ok? ==> r.out.value.1 < |r.g.types|)
    ensures r.out.Ok? ==>
              && r.g.types[r.out.value.1].item == Type(None, Matrix(rr.columns, l.rows, l.scalar))
              && r.out.value.0.Inst? && r.out.value.0.instr.CallIntrinsic?
              && r.out.value.0.instr.args == [lhs, rhs, ConstU32(l.rows), ConstU32(l.columns), ConstU32(rr.columns)]
  {
    var ty := Type(None, Matrix(rr.columns, l.rows, l.scalar));
    InternAdvances(g, ty, span);
    var (h, g1) := Intern(g, ty, span);
    MatrixMul(g1, span, l.scalar, lhs, rhs, l.rows, l.columns, rr.columns, h)
  }

  /** The vector-times-matrix arm: `(1, k, c)` into the interned `Vector { size: c }`, with the left type's span. */
  function VecMatMul(g: Gen, span: Span, lhs: Value, l: TypeInner, lspan: Span, rhs: Value, rr: TypeInner): (r: Step<(Value, Handle)>)
    requires TypesWf(g.types) && VecMat(l, rr)
    ensures Advances(g, r.g) && (r.out.Ok? ==> r.out.value.1 < |r.g.types|)
    ensures r.out.Ok? ==>
              && r.g.types[r.out.value.1].item == Type(None, Vector(rr.columns, l.scalar))
              && r.out.value.0.Inst? && r.out.value.0.instr.CallIntrinsic?
              && r.out.value.0.instr.args == [lhs, rhs, ConstU32(1), ConstU32(l.size), ConstU32(rr.columns)]
  {
    var ty := Type(None, Vector(rr.columns, l.scalar));
    InternAdvances(g, ty, lspan);
    var (h, g1) := Intern(g, ty, lspan);
    MatrixMul(g1, span, l.scalar, lhs, rhs, 1, l.size, rr.columns, h)
  }

  /**
   * `build_mul` on evaluated operands. An `r x k` matrix times a `k x c`
   * matrix multiplies with dimensions `(r, k, c)` into the interned
   * `Matrix { columns: c, rows: r }` (expression span); a matrix times a
   * vector multiplies with `(r, k, 1)` and reports the vector operand's type;
   * a vector times a matrix multiplies with `(1, k, c)` into the interned
   * `Vector { size: c }` (span of the left type); anything else is the
   * component-wise multiply.
   */
  function MulEvaluated(ctx: Ctx, g: Gen, span: Span, lhs: Value, lty: Handle, rhs: Value, rty: Handle): (r: Step<(Value, Handle)>)
    requires TypesWf(g.types) && lty < |g.types| && rty < |g.types|
    ensures Advances(g, r.g) && (r.out.Ok? ==> r.out.value.1 < |r.g.types|)
    ensures var l := g.types[lty].item.inner;
            var rr := g.types[rty].item.inner;
            && (MatMat(l, rr) ==> r == MatMatMul(g, span, lhs, l, rhs, rr))
            && (!MatMat(l, rr) && MatVec(l, rr) && r.out.Ok? ==>
                  && r.out.value.1 == rty
                  && r.out.value.0.Inst? && r.out.value.0.instr.CallIntrinsic?
                  && r.out.value.0.instr.args == [lhs, rhs, ConstU32(l.rows), ConstU32(l.columns), ConstU32(1)])
            && (VecMat(l, rr) ==> r == VecMatMul(g, span, lhs, l, g.types[lty].span, rhs, rr))
            && (!MatMat(l, rr) && !MatVec(l, rr) && !VecMat(l, rr) ==>
                  r == ComponentWise(ctx, g, Multiply, span, lhs, lty, rhs, rty))
  {
    var l := g.types[lty].item.inner;
    var rr := g.types[rty].item.inner;
    if MatMat(l, rr) then MatMatMul(g, span, lhs, l, rhs, rr)
    else if MatVec(l, rr) then MatrixMul(g, span, l.scalar, lhs, rhs, l.rows, l.columns, 1, rty)
    else if VecMat(l, rr) then VecMatMul(g, span, lhs, l, g.types[lty].span, rhs, rr)
    else ComponentWise(ctx, g, Multiply, span, lhs, lty, rhs, rty)
  }
}
