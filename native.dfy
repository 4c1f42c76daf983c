/**
 * The LLVM side of the lowering, as symbolic values: native types, constants,
 * instruction results and the instructions appended to the function body.
 * Instruction results are `Inst(id, instr)` where `id` is the position of
 * `instr` in the append-only instruction log. No constant folding is modelled.
 */
module Native {
  import opened Wrappers
  import opened Ir

  datatype NativeType =
    | IntType(bits: nat)
    | HalfType
    | FloatType
    | DoubleType
    | Fp128Type
    | VectorType(elem: NativeType, count: nat)
    | PointerType
    | ArrayType(elem: NativeType, length: nat)
    | StructType(fields: seq<NativeType>, packed: bool)
    | VoidType
    | FunctionType(ret: NativeType, params: seq<NativeType>)

  /** `LLVMIntPredicate` (the ones the generator uses). */
  datatype IntPredicate = EQ | NE | UGT | UGE | ULT | ULE | SGT | SGE | SLT | SLE

  /** `LLVMRealPredicate` (the ones the generator uses). */
  datatype RealPredicate = OEQ | OGT | OGE | OLT | OLE | UNE

  /** The two-operand instructions of the `LLVMBuild*` family. */
  datatype Opcode =
    | FAdd | IAdd | FSub | ISub | FMul | IMul
    | FDiv | SDiv | UDiv | FRem | SRem | URem
    | BitAnd | BitOr | BitXor | Shl | LShr | AShr
    | ICmp(ipred: IntPredicate)
    | FCmp(rpred: RealPredicate)

  datatype Value =
    | ConstInt(bits: nat, pattern: nat)
    | ConstReal(realTy: NativeType, payload: nat)
    | ConstNull(nullTy: NativeType)
    | Undef(undefTy: NativeType)
    | ConstVector(elems: seq<Value>)
    | GlobalRef(globalIndex: nat)
    | Param(functionIndex: nat, paramIndex: nat)
    | Inst(id: nat, instr: Instr)

  /**
   * An overload type of an intrinsic call: a known native type, or the type of
   * a value (`LLVMTypeOf`), which the model does not compute.
   */
  datatype TypeRef = Known(known: NativeType) | TypeOf(typed: Value)

  /**
   * The LLVM matrix intrinsics the lowering calls, by their names
   * `llvm.matrix.multiply`, `llvm.matrix.column.major.load` and
   * `llvm.matrix.column.major.store`.
   */
  datatype Intrinsic = MatrixMultiply | ColumnMajorLoad | ColumnMajorStore

  datatype Instr =
    | BinOp(opcode: Opcode, lhs: Value, rhs: Value)
    | ExtractValue(agg: Value, slot: nat)
    | InsertValue(agg: Value, elt: Value, slot: nat)
    | ExtractElement(vec: Value, lane: Value)
    | InsertElement(vec: Value, elt: Value, lane: Value)
    | ShuffleVector(v1: Value, v2: Value, mask: Value)
    | GetElementPtr(pointee: NativeType, ptr: Value, indices: seq<Value>)
    | LoadValue(loaded: NativeType, ptr: Value)
    | StoreValue(stored: Value, ptr: Value)
    | Alloca(slotTy: NativeType)
    | CallIntrinsic(name: Intrinsic, overloads: seq<TypeRef>, args: seq<Value>)
    | Ret(returned: Value)
    | RetVoid

  /**
   * `LLVMIsConstant`: constants, undef and global addresses are constants;
   * parameters and instruction results are not.
   */
  predicate IsConstant(v: Value)
  {
    !v.Param? && !v.Inst?
  }

  /**
   * The target's data layout: `LLVMABISizeOfType` (a `u64`) and
   * `LLVMPreferredAlignmentOfType` (a `u32`), left uninterpreted.
   */
  datatype DataLayout = DataLayout(abiSize: NativeType -> U64, prefAlign: NativeType -> U32)

  /** The unsigned reading of an integer constant's bit pattern. */
  function UnsignedOf(c: Value): nat
    requires c.ConstInt?
  {
    c.pattern
  }

  /** The two's-complement reading of a 32- or 64-bit integer constant. */
  function SignedOf(c: Value): int
    requires c.ConstInt? && (c.bits == 32 || c.bits == 64)
  {
    if c.bits == 32 then
      (if c.pattern >= 0x8000_0000 then c.pattern - 0x1_0000_0000 else c.pattern)
    else
      (if c.pattern >= 0x8000_0000_0000_0000 then c.pattern - 0x1_0000_0000_0000_0000 else c.pattern)
  }

  /** `const_u64`: a 64-bit constant holding `val`. */
  function ConstU64(val: U64): (r: Value)
    ensures r.ConstInt? && r.bits == 64 && UnsignedOf(r) == val
  {
    ConstInt(64, val)
  }

  /** `const_u32`: a 32-bit constant holding `val`. */
  function ConstU32(val: U32): (r: Value)
    ensures r.ConstInt? && r.bits == 32 && UnsignedOf(r) == val
  {
    ConstInt(32, val)
  }

  /** `const_i64`: the 64-bit two's-complement pattern of `val`. */
  function ConstI64(val: I64): (r: Value)
    ensures r.ConstInt? && r.bits == 64 && r.pattern < 0x1_0000_0000_0000_0000
    ensures SignedOf(r) == val
  {
    ConstInt(64, val % 0x1_0000_0000_0000_0000)
  }

  /**
   * `const_i32`: `val` is sign-extended to 64 bits and then truncated to the
   * 32-bit type, which leaves its 32-bit two's-complement pattern.
   */
  function ConstI32(val: I32): (r: Value)
    ensures r.ConstInt? && r.bits == 32 && r.pattern < 0x1_0000_0000
    ensures SignedOf(r) == val
  {
    ConstInt(32, (val % 0x1_0000_0000_0000_0000) % 0x1_0000_0000)
  }

  /** `const_bool`: a 1-bit constant, 1 for true and 0 for false. */
  function ConstBool(b: bool): (r: Value)
    ensures r.ConstInt? && r.bits == 1 && (UnsignedOf(r) == 1 <==> b) && r.pattern < 2
  {
    ConstInt(1, if b then 1 else 0)
  }

  /**
   * Lane `i` of a vector built from a constant vector and insert-element
   * instructions at constant lanes; `None` where the lane is not determined
   * (an undef lane, or a non-constant lane index).
   */
  function Lane(v: Value, i: nat): Option<Value>
  {
    match v
    case ConstVector(es) => if i < |es| then Some(es[i]) else None
    case Inst(_, InsertElement(vec, elt, ConstInt(_, j))) => if j == i then Some(elt) else Lane(vec, i)
    case _ => None
  }

  /** Slot `i` of an aggregate built by insert-value instructions. */
  function Slot(v: Value, i: nat): Option<Value>
  {
    match v
    case Inst(_, InsertValue(agg, elt, j)) => if j == i then Some(elt) else Slot(agg, i)
    case _ => None
  }
}
