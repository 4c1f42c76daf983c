/**
 * The shader IR consumed by the code generator (the `naga` module): scalars,
 * types, the unique type arena, expressions, statements, functions, globals and
 * constants. Handles are arena indices (`Handle::index()`), spans are kept as
 * opaque source ranges.
 */
module Ir {
  import opened Wrappers

  type Byte = n: nat | n < 0x100
  type U32 = n: nat | n < 0x1_0000_0000
  type U64 = n: nat | n < 0x1_0000_0000_0000_0000
  type I32 = x: int | -0x8000_0000 <= x < 0x8000_0000
  type I64 = x: int | -0x8000_0000_0000_0000 <= x < 0x8000_0000_0000_0000

  /** A source range; `Undefined` is naga's `Span::UNDEFINED`. */
  datatype Span = Span(start: nat, end: nat)
  const Undefined: Span := Span(0, 0)

  /** An arena entry together with the span recorded for it. */
  datatype Spanned<T> = Spanned(item: T, span: Span)

  /** An arena-relative index (naga's `Handle<T>::index()`). */
  type Handle = nat

  datatype ScalarKind = Sint | Uint | Float | Bool | AbstractInt | AbstractFloat

  /** A scalar kind with its width in bytes (naga's `Bytes = u8`). */
  datatype Scalar = Scalar(kind: ScalarKind, width: Byte)

  const F64Scalar: Scalar := Scalar(Float, 8)
  const F32Scalar: Scalar := Scalar(Float, 4)
  const U32Scalar: Scalar := Scalar(Uint, 4)
  const I32Scalar: Scalar := Scalar(Sint, 4)
  const I64Scalar: Scalar := Scalar(Sint, 8)
  const BoolScalar: Scalar := Scalar(ScalarKind.Bool, 1)

  /** `VectorSize::{Bi, Tri, Quad}` as their numeric values. */
  type VectorSize = n: nat | 2 <= n <= 4 witness 2

  datatype AddressSpace =
    | Function | Private | WorkGroup | Uniform
    | Storage(load: bool, store: bool)
    | HandleSpace | PushConstant

  /** `ArraySize::Constant` holds a `NonZeroU32`. */
  datatype ArraySize = ConstantSize(length: nat) | DynamicSize

  datatype StructMember = StructMember(name: Option<string>, ty: Handle, offset: U32)

  /** naga's `TypeInner`; `ScalarType` is its `Scalar` variant. */
  datatype TypeInner =
    | ScalarType(scalar: Scalar)
    | Vector(size: VectorSize, scalar: Scalar)
    | Matrix(columns: VectorSize, rows: VectorSize, scalar: Scalar)
    | Atomic(scalar: Scalar)
    | Pointer(base: Handle, space: AddressSpace)
    | ValuePointer(vsize: Option<VectorSize>, scalar: Scalar, space: AddressSpace)
    | Array(base: Handle, asize: ArraySize, stride: U32)
    | Struct(members: seq<StructMember>, span: U32)
    | Image
    | Sampler
    | AccelerationStructure
    | RayQuery
    | BindingArray(base: Handle, bsize: ArraySize)

  datatype Type = Type(name: Option<string>, inner: TypeInner)

  type TypeArena = seq<Spanned<Type>>

  /** Every type handle a type refers to is below `n`. */
  ghost predicate TypeRefsBelow(inner: TypeInner, n: nat)
  {
    match inner
    case Pointer(base, _) => base < n
    case Array(base, _, _) => base < n
    case BindingArray(base, _) => base < n
    case Struct(members, _) => forall k :: 0 <= k < |members| ==> members[k].ty < n
    case _ => true
  }

  /** No type occurs twice in the arena (naga's `UniqueArena`). */
  ghost predicate Unique(arena: TypeArena)
  {
    forall i, j :: 0 <= i < j < |arena| ==> arena[i].item != arena[j].item
  }

  /** A well-formed type arena: unique, and each type refers only to earlier ones. */
  ghost predicate TypesWf(arena: TypeArena)
  {
    && Unique(arena)
    && forall h :: 0 <= h < |arena| ==> TypeRefsBelow(arena[h].item.inner, h)
  }

  /** The handle of `ty` in the arena, if it is present. */
  function Find(arena: TypeArena, ty: Type): (r: Option<Handle>)
    ensures r.Some? ==> r.value < |arena| && arena[r.value].item == ty
    ensures r.None? ==> forall i :: 0 <= i < |arena| ==> arena[i].item != ty
  {
    if |arena| == 0 then None
    else if arena[|arena| - 1].item == ty then Some(|arena| - 1)
    else Find(arena[..|arena| - 1], ty)
  }

  /**
   * `UniqueArena::insert`: the handle of an equal type already present, or the
   * handle of a new last entry carrying `span`.
   */
  function Insert(arena: TypeArena, ty: Type, span: Span): (r: (TypeArena, Handle))
    ensures r.1 < |r.0| && r.0[r.1].item == ty
    ensures arena <= r.0
    ensures Find(arena, ty).Some? ==> r.0 == arena
    ensures Find(arena, ty).None? ==> r.0 == arena + [Spanned(ty, span)] && r.1 == |arena|
  {
    match Find(arena, ty)
    case Some(h) => (arena, h)
    case None => (arena + [Spanned(ty, span)], |arena|)
  }

  /** In a unique arena, a type is found exactly at its one position. */
  lemma FindUnique(arena: TypeArena, ty: Type, h: Handle)
    requires Unique(arena) && h < |arena| && arena[h].item == ty
    ensures Find(arena, ty) == Some(h)
  {
    assert Find(arena, ty).Some?;
  }

  /** Inserting keeps the arena unique and well-formed when `ty`'s references exist. */
  lemma InsertWf(arena: TypeArena, ty: Type, span: Span)
    requires TypesWf(arena) && TypeRefsBelow(ty.inner, |arena|)
    ensures TypesWf(Insert(arena, ty, span).0)
  {
    var a' := Insert(arena, ty, span).0;
    if Find(arena, ty).None? {
      forall i, j | 0 <= i < j < |a'| ensures a'[i].item != a'[j].item {
        if j == |arena| { assert a'[i].item == arena[i].item; }
      }
      forall h | 0 <= h < |a'| ensures TypeRefsBelow(a'[h].item.inner, h) {
        if h < |arena| { assert a'[h] == arena[h]; }
      }
    }
  }

  /**
   * Interning is idempotent: inserting a type that has just been inserted
   * returns the same handle and leaves the arena alone.
   */
  lemma {:induction false} InsertIdempotent(arena: TypeArena, ty: Type, s1: Span, s2: Span)
    requires Unique(arena)
    ensures var (a1, h1) := Insert(arena, ty, s1);
            Insert(a1, ty, s2) == (a1, h1)
  {
    var (a1, h1) := Insert(arena, ty, s1);
    if Find(arena, ty).None? {
      forall i | 0 <= i < |arena| ensures a1[i].item != ty { assert a1[i] == arena[i]; }
      assert Unique(a1) by {
        forall i, j | 0 <= i < j < |a1| ensures a1[i].item != a1[j].item {
          if j == |arena| { assert a1[i] == arena[i]; } else { assert a1[i] == arena[i] && a1[j] == arena[j]; }
        }
      }
      FindUnique(a1, ty, h1);
    } else {
      FindUnique(arena, ty, h1);
    }
  }

  /** Equal types inserted into the same arena share one handle. */
  lemma InsertAgainSharesHandle(arena: TypeArena, ty: Type, h: Handle, span: Span)
    requires Unique(arena) && h < |arena| && arena[h].item == ty
    ensures Insert(arena, ty, span) == (arena, h)
  {
    FindUnique(arena, ty, h);
  }

  datatype Literal =
    | LitF64(f64bits: nat)
    | LitF32(f32bits: nat)
    | LitU32(u: U32)
    | LitI32(i32: I32)
    | LitI64(i64: I64)
    | LitBool(b: bool)
    | LitAbstractInt(ai: I64)
    | LitAbstractFloat(afbits: nat)

  datatype BinaryOperator =
    | Add | Subtract | Multiply | Divide | Modulo
    | Equal | NotEqual | Less | LessEqual | Greater | GreaterEqual
    | And | ExclusiveOr | InclusiveOr | LogicalAnd | LogicalOr
    | ShiftLeft | ShiftRight

  /** `SwizzleComponent::{X, Y, Z, W}` as 0..3. */
  type SwizzleComponent = n: nat | n < 4

  /**
   * naga's `Expression`. The variants the generator does not implement carry
   * no operands here; reaching any of them is a `todo!()`.
   */
  datatype Expression =
    | Literal(literal: Literal)
    | Constant(constant: Handle)
    | ZeroValue(zty: Handle)
    | Compose(cty: Handle, components: seq<Handle>)
    | Access(base: Handle, index: Handle)
    | AccessIndex(base: Handle, cindex: U32)
    | Splat(ssize: VectorSize, value: Handle)
    | Swizzle(wsize: VectorSize, vector: Handle, pattern: seq<SwizzleComponent>)
    | FunctionArgument(argument: U32)
    | GlobalVariable(global: Handle)
    | LocalVariable(local: Handle)
    | Load(pointer: Handle)
    | Binary(op: BinaryOperator, left: Handle, right: Handle)
    | ImageSample | ImageLoad | ImageQuery | Unary | Select | Derivative
    | Relational | Math | As | CallResult | AtomicResult
    | WorkGroupUniformLoadResult | ArrayLength | RayQueryProceedResult
    | RayQueryGetIntersection

  /**
   * Every expression handle an expression refers to is below `n`; a swizzle
   * has its four pattern entries, and a composition has fewer components than
   * the `u32` element count of the type it builds.
   */
  ghost predicate ExprRefsBelow(e: Expression, n: nat)
  {
    match e
    case Compose(_, components) =>
      |components| < 0x1_0000_0000 && forall k :: 0 <= k < |components| ==> components[k] < n
    case Access(base, index) => base < n && index < n
    case AccessIndex(base, _) => base < n
    case Splat(_, value) => value < n
    case Swizzle(_, vector, pattern) => vector < n && |pattern| == 4
    case Load(pointer) => pointer < n
    case Binary(_, left, right) => left < n && right < n
    case _ => true
  }

  /** Every type handle an expression names is below `n`. */
  ghost predicate ExprTypesBelow(e: Expression, n: nat)
  {
    match e
    case ZeroValue(ty) => ty < n
    case Compose(ty, _) => ty < n
    case _ => true
  }

  /** naga's `Statement`; the variants the generator does not implement carry nothing. */
  datatype Statement =
    | Emit(start: Handle, end: Handle)
    | Block(block: seq<Statement>)
    | If | Switch | Loop | Break | Continue
    | Return(returned: Option<Handle>)
    | Kill | Barrier
    | Store(target: Handle, stored: Handle)
    | ImageStore | AtomicStatement | WorkGroupUniformLoad | Call | RayQueryStatement

  /** Every expression handle a statement refers to is below `n`. */
  ghost predicate StmtRefsBelow(s: Statement, n: nat)
  {
    match s
    case Emit(_, end) => end <= n
    case Block(stmts) => forall k :: 0 <= k < |stmts| ==> StmtRefsBelow(stmts[k], n)
    case Return(v) => v.Some? ==> v.value < n
    case Store(p, v) => p < n && v < n
    case _ => true
  }

  datatype FunctionArgument = ArgumentDecl(name: Option<string>, ty: Handle)
  datatype FunctionResult = FunctionResult(ty: Handle)
  datatype LocalVariable = LocalDecl(name: Option<string>, ty: Handle, init: Option<Handle>)
  datatype GlobalVariable = GlobalDecl(name: Option<string>, space: AddressSpace, ty: Handle, init: Option<Handle>)
  datatype Constant = ConstantDecl(name: Option<string>, ty: Handle, init: Handle)

  datatype Function = FunctionDecl(
    name: Option<string>,
    arguments: seq<FunctionArgument>,
    result: Option<FunctionResult>,
    localVariables: seq<Spanned<LocalVariable>>,
    expressions: seq<Spanned<Expression>>,
    body: seq<Spanned<Statement>>)

  /**
   * The immutable part of the source module; its type arena lives in the
   * generator state because the generator interns new types into it.
   */
  datatype Src = Src(
    constants: seq<Constant>,
    globalVariables: seq<GlobalVariable>,
    constExpressions: seq<Spanned<Expression>>,
    functions: seq<Function>)

  /**
   * A well-formed expression arena: children come before their parents, named
   * types exist, named constants exist, and (in the constant arena, `global`)
   * a constant's initializer comes before any expression that refers to it.
   */
  ghost predicate ExprsWf(exprs: seq<Spanned<Expression>>, src: Src, nTypes: nat, global: bool)
  {
    forall e :: 0 <= e < |exprs| ==>
      && ExprRefsBelow(exprs[e].item, e)
      && ExprTypesBelow(exprs[e].item, nTypes)
      && (exprs[e].item.Constant? ==>
            && exprs[e].item.constant < |src.constants|
            && (global ==> src.constants[exprs[e].item.constant].init < e))
  }

  ghost predicate FunctionWf(f: Function, src: Src, nTypes: nat)
  {
    && ExprsWf(f.expressions, src, nTypes, false)
    && (forall k :: 0 <= k < |f.arguments| ==> f.arguments[k].ty < nTypes)
    && (f.result.Some? ==> f.result.value.ty < nTypes)
    && (forall k :: 0 <= k < |f.localVariables| ==>
          && f.localVariables[k].item.ty < nTypes
          && (f.localVariables[k].item.init.Some? ==> f.localVariables[k].item.init.value < |f.expressions|))
    && (forall k :: 0 <= k < |f.body| ==> StmtRefsBelow(f.body[k].item, |f.expressions|))
  }

  /** The source module is well-formed against a type arena of `nTypes` entries. */
  ghost predicate SrcWf(src: Src, nTypes: nat)
  {
    && ExprsWf(src.constExpressions, src, nTypes, true)
    && (forall c :: 0 <= c < |src.constants| ==>
          src.constants[c].init < |src.constExpressions| && src.constants[c].ty < nTypes)
    && (forall k :: 0 <= k < |src.globalVariables| ==>
          && src.globalVariables[k].ty < nTypes
          && (src.globalVariables[k].init.Some? ==> src.globalVariables[k].init.value < |src.constExpressions|))
    && (forall k :: 0 <= k < |src.functions| ==> FunctionWf(src.functions[k], src, nTypes))
  }

  /** Well-formedness survives growth of the type arena. */
  lemma SrcWfGrows(src: Src, n: nat, m: nat)
    requires SrcWf(src, n) && n <= m
    ensures SrcWf(src, m)
  {
  }

  lemma FunctionWfGrows(f: Function, src: Src, n: nat, m: nat)
    requires FunctionWf(f, src, n) && n <= m
    ensures FunctionWf(f, src, m)
  {
  }
}
