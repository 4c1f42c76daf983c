# softraster code generator and texture allocation, in Dafny

softraster is a software rasteriser that exposes itself as a `wgpu-hal`
backend. Its code generator lowers a naga shader module to an LLVM module:
source types become native LLVM types (with a packed, explicitly padded
layout for structs and a remap table from member index to field index);
expressions become LLVM values, cached per expression handle; statements
become instructions appended to the current function; globals, locals and
parameters get native storage. The backend also allocates texture memory
for a descriptor, sized by the format's pixel width.

The model has two layers.

- A value layer: a generator state `Gen` (the type arena, the append-only
  instruction log, the expression, type, pointer-type and struct-map caches,
  the globals list and the module's globals and functions) threaded through
  pure functions that return a `Step(out, g)`. `out` is `Ok`, `Err` (a
  reported error) or `Panic` (a Rust panic: `unwrap`, `todo!`, an index out
  of bounds, a debug-build arithmetic overflow). Each function of
  `Types`, `Literals`, `Access`, `Swizzles`, `Splats`, `Loads`, `Binary`,
  `Expressions`, `Statements` and `Codegen` is one Rust function or loop of
  the generator, with the same branches and error values.
- An object layer: `Generation.Generator` is a class with the generator's
  fields. Its methods change those fields in place, with loops where the
  Rust code loops, and each is proved to leave exactly the outcome and the
  state that the value-layer function computes.

The properties are proved about the value layer: cache transparency (the
cached type lowering equals an uncached reference lowering), the struct
layout (remap table, exact padding), the meaning of the operator tables,
what compose, access, swizzle, splat, load, store and return produce, how a
failure ends a block, a function and `generate`, and what a texture holds.

LLVM is modelled by symbolic terms: a native type is a `NativeType`, a
value is a constant or `Inst(id, instr)`, the instruction at position `id`
of the log. Handles are indices into arenas.

## Model

| member | source | states |
|---|---|---|
| Native.ConstU64 | src/codegen/util.rs:15-17 | a 64-bit integer constant whose unsigned reading is the argument |
| Native.ConstU32 | src/codegen/util.rs:18-20 | a 32-bit integer constant whose unsigned reading is the argument |
| Native.ConstI64 | src/codegen/util.rs:21-23 | a 64-bit constant whose two's-complement reading is the argument |
| Native.ConstI32 | src/codegen/util.rs:24-26 | a 32-bit constant whose two's-complement reading is the argument (sign extension then truncation keeps the 32-bit pattern) |
| Native.ConstBool | src/codegen/util.rs:27-29 | a 1-bit constant that reads 1 exactly when the argument is true |
| State.Build | src/codegen/expressions/compose.rs:28-36 | appending an instruction: the result names the new last log position and nothing but the log changes |
| State.OrInsert | src/codegen/expressions/mod.rs:110-116 | `entry().or_insert()`: an existing entry is returned and kept; otherwise the new value is entered and returned |
| State.Intern | src/codegen/expressions/literal.rs:18-24 | interning changes only the arena, as `Ir.Insert` does |
| State.InternAdvances | src/codegen/expressions/literal.rs:18-24 | interning a type whose references exist keeps the state sound and only grows it |
| Ir.Find | src/codegen/types.rs:195-224 | finds the handle of an equal type exactly when one is present |
| Ir.Insert | src/codegen/expressions/literal.rs:18-24 | the arena's `insert`: returns the handle of an equal type already present and leaves the arena alone, else appends the type with the span given |
| Ir.FindUnique | src/codegen/expressions/literal.rs:18-24 | in a unique arena a type is found at its one position |
| Ir.InsertWf | src/codegen/expressions/literal.rs:18-24 | inserting a type whose references exist keeps the arena unique and well-formed |
| Ir.InsertIdempotent | src/codegen/expressions/literal.rs:18-24 | inserting the same type twice returns the same handle and leaves the arena as the first insertion did |
| Ir.InsertAgainSharesHandle | src/codegen/expressions/literal.rs:18-24 | a type already at handle `h` inserts to `h` without change |
| Ir.SrcWfGrows | src/codegen/mod.rs:319-353 | well-formedness of the source module survives growth of the type arena |
| Locations.GetExprs | src/codegen/expressions/location.rs:12-28 | a function location exposes its own expression arena; the global context exposes the module's constant-expression arena |
| Locations.GetLocals | src/codegen/expressions/location.rs:16-31 | a function location yields its locals; asking the global context is fatal (`Panic(GlobalLocals)`) |
| Locations.GetParams | src/codegen/expressions/location.rs:19-34 | a function location yields its parameters; asking the global context is fatal (`Panic(GlobalParams)`) |
| Locations.GetExprsWf | src/codegen/expressions/location.rs:12-35 | the arena a location exposes (function expressions or constant expressions) is well-formed |
| Locations.LocWfGrows | src/codegen/expressions/location.rs:12-35 | a well-formed function state stays well-formed as the arena grows |
| Types.EvalScalarType | src/codegen/types.rs:21-58 | bool is 1 bit; a float of width 2, 4, 8 or 16 is the float type of that many bytes; an integer is `width * 8` bits; other float widths are `InvalidFloatSize`, abstract kinds `IllegalScalar`; an integer width of 32 or more panics (u8 overflow) |
| Types.EvalType | src/codegen/types.rs:60-132 | lowering touches only the type caches, and newly cached types are all below `ty` |
| Types.StructMembers | src/codegen/types.rs:96-115 | the struct member loop touches only the type caches, caching only types below the struct |
| Types.EvalCachedType | src/codegen/types.rs:181-193 | a success is the entry left in the type cache for `ty`; a failure enters nothing for `ty` |
| Types.EvalPointerType | src/codegen/types.rs:134-156 | only a matrix has a separate pointer type; everything else yields none |
| Types.EvalCachedPointerType | src/codegen/types.rs:158-179 | a cached entry is returned unchanged; only the caches change |
| Types.GetPointee | src/codegen/types.rs:195-224 | a pointee exists exactly for pointer and value-pointer types; a pointer's is its base and space; a value pointer's is the interned scalar or vector; the arena only grows |
| Types.ItemType | src/codegen/types.rs:226-258 | succeeds exactly for vectors, matrices, arrays, and structs with a known in-range index; the item is the scalar, the column vector, the element or the member, interned where needed |
| TypeFacts.NewGenCoherent | src/codegen/mod.rs:104-108 | the empty caches of a new generator agree with the reference lowering |
| TypeFacts.LoweredSpan | src/codegen/types.rs:60-132 | a successful lowering does not depend on the span |
| TypeFacts.LayoutSpan | src/codegen/types.rs:96-115 | a successful struct layout does not depend on the span |
| TypeFacts.LoweredExtend | src/codegen/types.rs:60-132 | interning more types does not change the lowering of existing ones |
| TypeFacts.LayoutExtend | src/codegen/types.rs:96-115 | interning more types does not change the layout of an existing struct |
| TypeFacts.InternCoherent | src/codegen/expressions/literal.rs:18-24 | interning keeps the caches coherent |
| TypeFacts.CacheTypeCoherent | src/codegen/types.rs:181-193 | entering the reference lowering into the type cache keeps coherence |
| TypeFacts.CacheStorageCoherent | src/codegen/types.rs:158-179 | entering the reference storage type into the pointer cache keeps coherence |
| TypeFacts.CacheMapCoherent | src/codegen/types.rs:116 | entering the reference remap table keeps coherence |
| TypeFacts.EvalCachedTypeIsLowered | src/codegen/types.rs:181-193 | from coherent caches the cached lowering equals the uncached reference lowering (results, errors and panics), keeps coherence, and leaves a remap table for a struct |
| TypeFacts.EvalTypeIsLowered | src/codegen/types.rs:60-132 | `eval_type` from coherent caches equals the reference lowering and keeps coherence |
| TypeFacts.StructMembersUnfold | src/codegen/types.rs:96-115 | one pass of the member loop: the failure of the member type, the offset overflow panic, or the rest of the loop |
| TypeFacts.LayoutUnfold | src/codegen/types.rs:96-115 | one member of the reference layout, unfolded the same way |
| TypeFacts.StructMembersIsLayout | src/codegen/types.rs:96-115 | the member loop from coherent caches computes the reference layout and keeps coherence |
| TypeFacts.MemberRest | src/codegen/types.rs:109-114 | member `k` after its padding, lowered as the reference does, continues into the reference layout |
| TypeFacts.MemberIsLayout | src/codegen/types.rs:102-114 | if the loop from member `k + 1` computes the reference layout, so does the loop from member `k` |
| TypeFacts.EvalCachedPointerTypeIsStorage | src/codegen/types.rs:158-179 | from coherent caches the storage type is the reference one: a matrix as an array of column vectors, else the value type |
| TypeFacts.LoweredLayoutShape | src/codegen/types.rs:96-115 | a successful layout has one strictly increasing remap entry per member, each member's lowered type in its field, and padding elsewhere |
| TypeFacts.LayoutShapeStep | src/codegen/types.rs:102-114 | placing member `k` after optional padding extends that shape by one member |
| TypeFacts.StructLayoutShape | src/codegen/types.rs:90-125 | a struct lowers exactly when its layout exists, to a packed struct of the layout's fields, with the shape above |
| TypeFacts.CachedStructMap | src/codegen/types.rs:116-124 | after lowering a struct from coherent caches, `struct_maps` holds its remap table, and that table has the shape above over the lowered fields |
| TypeFacts.GetPointeeWf | src/codegen/types.rs:195-224 | `get_pointee` keeps the arena well-formed and returns an existing handle |
| TypeFacts.GetPointeeAgain | src/codegen/types.rs:195-224 | asking again returns the same pointee and interns nothing |
| TypeFacts.ItemTypeWf | src/codegen/types.rs:226-258 | `item_type` keeps the arena well-formed and returns an existing handle |
| TypeFacts.ItemTypeMeaning | src/codegen/types.rs:226-258 | `item_type` succeeds exactly when the item exists, and returns a handle of exactly that item type |
| TypeFacts.EndStable | src/codegen/types.rs:102-114 | the running offset depends only on the fields the first members occupy |
| TypeFacts.PaddingStep | src/codegen/types.rs:102-114 | placing one member keeps the padding exact and advances the offset by the member's ABI size |
| TypeFacts.LoweredLayoutPadding | src/codegen/types.rs:96-115 | the layout pads exactly: one integer field of the missing bits before each member whose offset lies beyond the running offset, and no other padding |
| TypeFacts.StructLayoutPadding | src/codegen/types.rs:90-125 | the layout of a struct type pads exactly |
| TypeFacts.ExampleLayout | src/codegen/types.rs:96-115 | a struct of `i32` members at offsets 0, 4 and 16 lowers to three `i32` fields around one 64-bit padding field, with remap table `[0, 1, 3]` |
| Literals.BuildLiteral | src/codegen/expressions/literal.rs:10-81 | the six concrete literals succeed, with a constant of the literal's value whose native type is the lowering of the interned scalar type; abstract literals fail `IllegalLiteral`; the interned type is exactly the literal's own scalar (`f64`, `f32`, `u32`, `i32`, `i64`, `bool`), so `u32` and `i32` literals keep their signedness |
| Literals.ScalarLiteral | src/codegen/expressions/literal.rs:36-45 | the value comes with the handle of the interned scalar type |
| Literals.LiteralTypeShared | src/codegen/expressions/literal.rs:18-24 | a second literal of the same kind interns nothing new and shares the type handle |
| Access.Known | src/codegen/expressions/access.rs:48-51 | the item-type query gets the index exactly when it is constant |
| Access.RemapIndex | src/codegen/expressions/access.rs:25-30 | a constant index into a type with a remap table is looked up in it (past its end panics); any other index is kept |
| Access.ResolveIndex | src/codegen/expressions/access.rs:81-91 | the numeric index of a by-value access: a constant as is, a `u32` literal's value, 0 for a zero value, else `NonConstantIndex` |
| Access.Resolved | src/codegen/expressions/access.rs:93 | the item-type query gets the numeric index exactly when it resolved |
| Access.IndexPointer | src/codegen/expressions/access.rs:44-74 | an element pointer `[0, idx]` into the lowered pointee, typed as a pointer in the same space to the item type at the known index |
| Access.PointerTo | src/codegen/expressions/access.rs:45-74 | the same once the pointee is lowered; the type cache is untouched |
| Access.IndexValue | src/codegen/expressions/access.rs:93-121 | the result type is the item type; a vector gives an element extraction; a matrix never succeeds; anything else extracts the aggregate slot of the numeric index |
| Access.PaddedMemberByValue | src/codegen/expressions/access.rs:25-93 | in a struct with padding before its third member, that member's constant index remaps to native slot 3, and the by-value item type lookup at slot 3 is fatal (`Panic(OutOfBounds)`) |
| Access.Extract | src/codegen/expressions/access.rs:95-121 | the extraction once the item type is known, with the same three cases |
| Swizzles.SwizzleMask | src/codegen/expressions/swizzle.rs:43-59 | the mask loop succeeds exactly when every pattern entry is at most the input size; the first larger entry is reported; on success lane `i` holds `pattern[i]` |
| Swizzles.BuildSwizzle | src/codegen/expressions/swizzle.rs:20-78 | a non-vector source fails `NonVectorSwizzle`; a success is a shuffle of the source by the mask, typed as the interned vector of `size` lanes of the source scalar |
| Swizzles.SwizzleOutcome | src/codegen/expressions/swizzle.rs:29-67 | on a vector source, the first out-of-range entry is the error and only mask instructions were built; with all entries in range it succeeds exactly when the source type lowers |
| Splats.SplatLanes | src/codegen/expressions/splat.rs:54-64 | one insertion per lane; every lane from `i` to `size - 1` holds the operand and earlier lanes keep theirs |
| Splats.SplatEvaluated | src/codegen/expressions/splat.rs:19-67 | a non-scalar operand panics before anything is interned; a constant operand cannot fail; every lane of the result is the operand, typed as the interned vector |
| Loads.MatrixStride | src/codegen/expressions/load.rs:40-43 | the stride is the column's preferred alignment divided by the scalar width (floor); a zero width panics |
| Loads.LoadEvaluated | src/codegen/expressions/load.rs:24-76 | a type without a pointee fails `NotPointer`; a matrix is read with the column-major load intrinsic, anything else with a plain load of its lowered type; the result type is the pointee |
| Loads.LoadPointee | src/codegen/expressions/load.rs:32-76 | the load once the pointee is known, with the same shapes |
| Binary.ArithmeticOp | src/codegen/expressions/binary.rs:296-318 | arithmetic accepts exactly float and integer kinds; the instruction computes the operator, is a float operation exactly for floats, and is signed or unsigned exactly where division and remainder need it |
| Binary.ComparisonOp | src/codegen/expressions/binary.rs:319-368 | comparisons accept every concrete kind; unsigned for `Uint` and `Bool`, signed for `Sint`, ordered float except `!=` |
| Binary.UnsignedPredicate | src/codegen/expressions/binary.rs:333-368 | the unsigned integer predicate decides exactly the comparison |
| Binary.SignedPredicate | src/codegen/expressions/binary.rs:333-368 | the signed integer predicate decides exactly the comparison |
| Binary.FloatPredicate | src/codegen/expressions/binary.rs:319-368 | the float predicate decides the comparison; it is unordered exactly for `!=` |
| Binary.BitwiseOp | src/codegen/expressions/binary.rs:369-397 | bitwise operators accept exactly integers; a right shift is logical for `Uint` and arithmetic for `Sint` |
| Binary.LogicalOp | src/codegen/expressions/binary.rs:381-388 | logical operators accept exactly booleans |
| Binary.ComponentOp | src/codegen/expressions/binary.rs:296-397 | per operator family, which kinds are accepted, and that the instruction computes the operator with the right float and signedness reading |
| Binary.MatrixColumns | src/codegen/expressions/binary.rs:65-90 | four instructions per column; every column from `c` on holds the operator applied to the two operands' columns; earlier columns are kept |
| Binary.ComponentWise | src/codegen/expressions/binary.rs:22-131 | different operand types fail `IncompatibleBinary`, naming `ShiftLeft` for a right shift; an unaccepted kind fails as the fallback does; a success has the operand type and the operator's instruction; a matrix succeeds exactly when its cached type lowering does, and otherwise fails with that lowering's failure |
| Binary.MatrixMul | src/codegen/expressions/binary.rs:135-169 | the matrix-multiply intrinsic with the three dimensions, into a flat vector of `rows * cols` scalars; it fails exactly when the scalar does not lower |
| Binary.MatMatMul | src/codegen/expressions/binary.rs:186-219 | matrix times matrix: dimensions `(r, k, c)` into the interned `c`-column, `r`-row matrix |
| Binary.VecMatMul | src/codegen/expressions/binary.rs:240-272 | vector times matrix: dimensions `(1, k, c)` into the interned `c`-lane vector |
| Binary.MulEvaluated | src/codegen/expressions/binary.rs:172-284 | `build_mul` dispatches matrix-matrix, matrix-vector (typed as the vector operand) and vector-matrix products, and sends everything else to the component-wise multiply |
| Expressions.EvalLeaf | src/codegen/expressions/mod.rs:35-76 | zero values are the null of the cached lowered type; arguments, globals and locals are read from their lists, a missing entry or the global context panicking |
| Expressions.EvalCachedExpr | src/codegen/expressions/mod.rs:99-117 | a cached expression is returned without change; a success is cached for the handle |
| Expressions.EvalExpr | src/codegen/expressions/mod.rs:23-97 | every evaluation only extends the state (cache, arena and log grow, nothing else changes) |
| Expressions.BuildCompose | src/codegen/expressions/compose.rs:14-116 | the result has the composed type; a type that is not a vector, matrix, array or struct fails `NotComposable` |
| Expressions.Fill | src/codegen/expressions/compose.rs:22-110 | the loop for each aggregate: vector lanes or slots filled in order, matrix columns all vectors, and a struct without a remap table panicking |
| Expressions.InsertElements | src/codegen/expressions/compose.rs:26-37 | lanes from `k` on hold the cached values of the components in order; earlier lanes are kept |
| Expressions.InsertNext | src/codegen/expressions/compose.rs:27-36 | the component is cached and the insertion uses its cached value |
| Expressions.LanesStep | src/codegen/expressions/compose.rs:26-37 | one more lane filled extends the filled lanes by one |
| Expressions.InsertColumns | src/codegen/expressions/compose.rs:44-62 | slots from `k` on hold the components' cached values and all of them have vector types |
| Expressions.InsertColumn | src/codegen/expressions/compose.rs:45-61 | a cached component of non-vector type fails `InvalidComponent` naming that type; otherwise it is inserted at slot `k` |
| Expressions.ColumnsStep | src/codegen/expressions/compose.rs:44-62 | one more checked column keeps the checked columns |
| Expressions.InsertSlots | src/codegen/expressions/compose.rs:70-81 | array slots from `k` on hold the components' cached values; earlier slots are kept |
| Expressions.SlotsStep | src/codegen/expressions/compose.rs:70-81 | one more filled slot extends the filled slots by one |
| Expressions.MembersStep | src/codegen/expressions/compose.rs:89-107 | one more struct member placed through the remap table extends the placed members |
| Expressions.InsertMembers | src/codegen/expressions/compose.rs:89-107 | pairs from `k` of the remap table zipped with the components (the shorter decides): the last write to each slot holds that component's cached value |
| Expressions.BuildAccess | src/codegen/expressions/access.rs:17-123 | the access only extends the state |
| Expressions.AccessOf | src/codegen/expressions/access.rs:25-122 | the access after the base is evaluated only extends the state |
| Expressions.LlvmIndex | src/codegen/expressions/access.rs:33-42 | a constant index is a `u32` constant into a struct and a `u64` constant otherwise, truncated; a dynamic one is the cached value of the index expression |
| Expressions.AccessPointer | src/codegen/expressions/access.rs:32-74 | the pointer arm only extends the state |
| Expressions.AccessValue | src/codegen/expressions/access.rs:75-122 | the by-value arm only extends the state |
| Expressions.BuildSwizzleOf | src/codegen/expressions/mod.rs:55-73 | the swizzle expression only extends the state |
| Expressions.BuildSplat | src/codegen/expressions/splat.rs:12-68 | the splat expression only extends the state |
| Expressions.BuildLoad | src/codegen/expressions/load.rs:18-77 | the load expression only extends the state |
| Expressions.BuildBinary | src/codegen/expressions/binary.rs:287-399 | the binary expression only extends the state |
| Expressions.BinaryRight | src/codegen/expressions/binary.rs:126-130 | the right operand and the operator only extend the state |
| ExpressionFacts.MembersDistinct | src/codegen/expressions/compose.rs:89-107 | with distinct remap slots, every paired component lands in its own slot |
| ExpressionFacts.ComposeElements | src/codegen/expressions/compose.rs:22-84 | a composed vector, matrix or array holds the components' cached values in order, and a matrix's components are all vectors |
| ExpressionFacts.ComposeMembers | src/codegen/expressions/compose.rs:85-110 | a composed struct places the components through the remap table lowering the struct left behind |
| ExpressionFacts.ComposeFilled | src/codegen/expressions/compose.rs:20-110 | a successful compose of an aggregate is the fill of the undefined value of its lowered type, with the state the fill left |
| ExpressionFacts.CacheCollision | src/codegen/expressions/mod.rs:36-40 | the expression cache is keyed by handle alone: evaluating a constant caches its initializer's literal under the constant arena's handle 0, which a function expression 0 then finds |
| ExpressionFacts.InitializerFails | src/codegen/expressions/mod.rs:36-40 | the constant's initializer evaluated in the global context caches the literal and fails `NotPointer` |
| ExpressionFacts.LiteralCached | src/codegen/expressions/mod.rs:99-117 | the literal evaluates to `7u32` and is cached under handle 0 |
| Statements.StoreEvaluated | src/codegen/mod.rs:119-157 | exactly one instruction: the column-major store intrinsic for a matrix, a plain store otherwise; only a matrix can fail, when its scalar does not lower or has zero width |
| Statements.BuildStore | src/codegen/mod.rs:112-158 | a success has stored the cached value of the expression through the pointer |
| Statements.StoreCached | src/codegen/mod.rs:112-158 | storing an already-evaluated non-matrix value appends exactly one plain store and changes nothing else |
| Statements.ReturnEvaluated | src/codegen/statements.rs:33-69 | succeeds exactly when a value is returned if and only if a result is declared, of the same type handle; a mismatch reports both types, at the value's span when both exist |
| Statements.EmitReturn | src/codegen/statements.rs:33-69 | a returned value is evaluated even when no result is declared; a success ends the log with `ret` of the cached value of the declared type |
| Statements.EmitStore | src/codegen/statements.rs:72-75 | a success has stored the value through the cached pointer value |
| Statements.EmitRange | src/codegen/statements.rs:18-22 | a success leaves every handle of the range cached; a range already cached changes nothing |
| Statements.EmitStatement | src/codegen/statements.rs:9-83 | emission, blocks, returns and stores are lowered; every other statement panics unimplemented with nothing changed |
| Statements.EmitBlock | src/codegen/statements.rs:23-27 | emitting a block only extends the state |
| Statements.BlockStep | src/codegen/statements.rs:23-27 | a block emits its next statement, then the rest only if that succeeded |
| Statements.BlockParts | src/codegen/statements.rs:23-27 | the parts of a block refer only to what the block refers to |
| Statements.BlockSequence | src/codegen/statements.rs:23-27 | the block `a + b` emits `a`, then `b` from the state `a` left, stopping at the first failure |
| Statements.BlockPrefix | src/codegen/statements.rs:23-27 | a block runs its leading part first and continues only on success |
| Statements.BlockSuffix | src/codegen/statements.rs:23-27 | emitting a block from statement `i`, at `offset + j`, is emitting its trailing part (from `offset` on) from `j` |
| Statements.PrefixStep | src/codegen/statements.rs:23-27 | the statement a block and its leading part share emits alike in both, so the prefix property carries over from the next statement |
| Statements.SuffixStep | src/codegen/statements.rs:23-27 | the statement a block and its trailing part share emits alike in both, so the suffix property carries over from the next statement |
| Codegen.GlobalInit | src/codegen/mod.rs:182-191 | the initializer is evaluated in the global context and set on global `index` only; a non-constant one fails `NonConstantGlobal` at its span |
| Codegen.LowerGlobal | src/codegen/mod.rs:169-202 | an unnamed global panics; a success adds one globals-list entry bound to the new module global, with the pointer type to the global's type |
| Codegen.GlobalAdded | src/codegen/mod.rs:174-180 | adding the module global after its type is lowered keeps the state consistent and only appends the new global |
| Codegen.PushGlobal | src/codegen/mod.rs:193-202 | the globals-list entry is the global's address with the interned pointer type in its space |
| Codegen.InternPointer | src/codegen/mod.rs:195-201 | interning the pointer type changes only the arena |
| Codegen.GenerateGlobals | src/codegen/mod.rs:160-206 | a success binds every declared global, in order, to its globals-list entry |
| Codegen.ParamTypes | src/codegen/mod.rs:212-215 | one native type per remaining argument, through the type cache only |
| Codegen.ResultType | src/codegen/mod.rs:216-223 | void when no result is declared; otherwise through the type cache only |
| Codegen.GenerateLlvmFunction | src/codegen/mod.rs:208-257 | an unnamed function never succeeds; a success adds one native function of the name, with its entry block at the end of the log, and a function state without locals or parameters |
| Codegen.LowerLocal | src/codegen/mod.rs:260-290 | a success binds the local to an entry with the pointer type to its type, and stores its initializer through the new pointer |
| Codegen.InitLocal | src/codegen/mod.rs:269-290 | the entry's pointer is the allocation, and the initializer, if any, is stored through it |
| Codegen.PushLocal | src/codegen/mod.rs:278-290 | the locals-list entry is the pointer with the interned function-space pointer type |
| Codegen.Allocate | src/codegen/mod.rs:261-267 | an `alloca` appended to the log; it succeeds exactly when the storage type lowers |
| Codegen.GenerateLocals | src/codegen/mod.rs:259-294 | a success keeps the function and its parameters, and binds every local, in order, behind the existing entries |
| Codegen.LocalsUnfold | src/codegen/mod.rs:260-291 | one pass: the local's failure ends the loop, or its entry is pushed and the loop continues |
| Codegen.LocalsRest | src/codegen/mod.rs:260-291 | after one local is pushed, the rest of the loop binds the remaining locals behind it, and the state only grows |
| Codegen.BodyUnfold | src/codegen/mod.rs:343-347 | one pass of the body loop: the statement's failure ends the body, or the body goes on from the next statement |
| Codegen.BindParams | src/codegen/mod.rs:336-341 | parameter `i` of the native function with argument `i`'s type, one per argument |
| Codegen.BindParamsWf | src/codegen/mod.rs:336-341 | binding the parameters keeps the function state well-formed |
| Codegen.EmitBody | src/codegen/mod.rs:343-347 | emitting the body keeps the state ready and only grows it |
| Codegen.LowerFunction | src/codegen/mod.rs:322-347 | a success adds exactly one native function, named as the source function; the cache clear at its start is stated by `CodegenFacts.FunctionCacheReset` |
| Codegen.LowerBody | src/codegen/mod.rs:334-347 | locals, parameters and body keep the state ready and only grow it |
| Codegen.GenerateFunctions | src/codegen/mod.rs:322-348 | a success adds one native function per source function, in order and named alike |
| Codegen.Generate | src/codegen/mod.rs:319-353 | a success binds every global in order and adds one named native function per source function, in order |
| CodegenFacts.ParamTypesLowered | src/codegen/mod.rs:212-215 | from coherent caches the parameter types are the reference lowering of the argument types |
| CodegenFacts.LlvmFunctionSignature | src/codegen/mod.rs:208-236 | from coherent caches, the function is added exactly when its argument and result types lower and it is named, with the signature of the reference lowering |
| CodegenFacts.AllocateStorage | src/codegen/mod.rs:261-267 | from coherent caches, a local's `alloca` is of exactly the reference storage type, and fails exactly when that does not lower |
| CodegenFacts.CoherentModule | src/codegen/mod.rs:174-202 | coherence depends on the arena and caches only, not on the log or the module |
| CodegenFacts.LocalAllocated | src/codegen/mod.rs:261-267 | a lowered local is bound to an `alloca` of its reference storage type |
| CodegenFacts.GlobalTyped | src/codegen/mod.rs:174-180 | a lowered global is a module global of the reference lowering of its type; a type that does not lower returns its failure with no global added |
| CodegenFacts.BodyStops | src/codegen/mod.rs:343-347 | a failing statement ends the body with its failure |
| CodegenFacts.FunctionsStop | src/codegen/mod.rs:322-348 | a failing function ends `generate` with its failure |
| CodegenFacts.FunctionCacheReset | src/codegen/mod.rs:322-324 | each function starts from an empty expression cache: lowering it gives the same result and state whatever cache the previous function left |
| CodegenFacts.GenerateStops | src/codegen/mod.rs:320 | a failing global ends `generate` before any function is added |
| Generation.PrependedStep | src/codegen/mod.rs:212-215 | lowering one more argument type moves it from the rest of the list to the prefix |
| Generation.Generator.constructor | src/codegen/mod.rs:85-110 | a new generator has empty caches, no globals and an empty module |
| Generation.Generator.EvalCachedExpr | src/codegen/expressions/mod.rs:99-117 | the fields afterwards are exactly the state `Expressions.EvalCachedExpr` computes |
| Generation.Generator.EvalCachedType | src/codegen/types.rs:181-193 | the fields afterwards are the state `Types.EvalCachedType` computes, which equals the reference lowering (`TypeFacts.EvalCachedTypeIsLowered`) |
| Generation.Generator.EvalCachedPointerType | src/codegen/types.rs:158-179 | the fields afterwards are those `Types.EvalCachedPointerType` computes (`TypeFacts.EvalCachedPointerTypeIsStorage`) |
| Generation.Generator.SwizzleMask | src/codegen/expressions/swizzle.rs:43-59 | the loop leaves the outcome and log of `Swizzles.SwizzleMask` from lane 0 |
| Generation.Generator.SplatLanes | src/codegen/expressions/splat.rs:54-64 | the loop leaves the vector and log of `Splats.SplatLanes` from lane 0 |
| Generation.Generator.MatrixColumns | src/codegen/expressions/binary.rs:65-90 | the loop leaves the result and log of `Binary.MatrixColumns` from column 0 |
| Generation.Generator.MatrixColumn | src/codegen/expressions/binary.rs:66-89 | the log gains exactly the column's four instructions, and the result is the insertion |
| Generation.Generator.StructMembers | src/codegen/types.rs:96-115 | the loop leaves the outcome and state of `Types.StructMembers` from member 0 (`TypeFacts.StructMembersIsLayout`) |
| Generation.Generator.StructMember | src/codegen/types.rs:109-114 | one member lowered and the offset advanced, continuing the loop's function, or its failure |
| Generation.Generator.BuildStore | src/codegen/mod.rs:112-158 | the fields afterwards are those `Statements.BuildStore` computes |
| Generation.Generator.StoreEvaluated | src/codegen/mod.rs:121-157 | the fields afterwards are those `Statements.StoreEvaluated` computes |
| Generation.Generator.GenerateGlobals | src/codegen/mod.rs:160-206 | the loop leaves the outcome and state of `Codegen.GenerateGlobals` |
| Generation.Generator.LowerGlobal | src/codegen/mod.rs:169-202 | the fields afterwards are those `Codegen.LowerGlobal` computes |
| Generation.Generator.SetInitializer | src/codegen/mod.rs:182-191 | the fields afterwards are those `Codegen.GlobalInit` computes |
| Generation.Generator.PushGlobal | src/codegen/mod.rs:193-202 | the fields afterwards are those `Codegen.PushGlobal` computes |
| Generation.Generator.GenerateLlvmFunction | src/codegen/mod.rs:208-257 | the fields afterwards are those `Codegen.GenerateLlvmFunction` computes |
| Generation.Generator.ParamTypes | src/codegen/mod.rs:212-215 | the loop leaves the outcome and state of `Codegen.ParamTypes` |
| Generation.Generator.GenerateLocals | src/codegen/mod.rs:259-294 | the loop leaves the outcome and state of `Codegen.GenerateLocals` |
| Generation.Generator.NextLocal | src/codegen/mod.rs:260-291 | one local lowered and pushed, continuing the loop's function, or its failure |
| Generation.Generator.LowerLocal | src/codegen/mod.rs:260-290 | the fields afterwards are those `Codegen.LowerLocal` computes |
| Generation.Generator.InitLocal | src/codegen/mod.rs:269-290 | the fields afterwards are those `Codegen.InitLocal` computes |
| Generation.Generator.Allocate | src/codegen/mod.rs:261-267 | the fields afterwards are those `Codegen.Allocate` computes |
| Generation.Generator.PushLocal | src/codegen/mod.rs:278-290 | the fields afterwards are those `Codegen.PushLocal` computes |
| Generation.Generator.EmitStatement | src/codegen/statements.rs:9-83 | the fields afterwards are those `Statements.EmitStatement` computes |
| Generation.Generator.EmitRange | src/codegen/statements.rs:18-22 | a `for` loop over the range, each handle evaluated through the cache and the first failure returned, proved to leave the outcome and state of `Statements.EmitRange` |
| Generation.Generator.RangeHandle | src/codegen/statements.rs:19-21 | one pass of the range loop: a failure is the range's outcome, else the range continues from the next handle |
| Generation.Generator.EmitBlock | src/codegen/statements.rs:23-27 | the loop leaves the outcome and state of `Statements.EmitBlock` |
| Generation.Generator.BlockStatement | src/codegen/statements.rs:24-26 | one pass of the block loop: the statement's failure is the block's outcome, or the block goes on from the next statement |
| Generation.Generator.EmitReturn | src/codegen/statements.rs:33-69 | the fields afterwards are those `Statements.EmitReturn` computes |
| Generation.Generator.EmitStore | src/codegen/statements.rs:72-75 | the fields afterwards are those `Statements.EmitStore` computes |
| Generation.Generator.Return | src/codegen/statements.rs:33-69 | the fields afterwards are those `Statements.ReturnEvaluated` computes |
| Generation.Generator.LowerFunction | src/codegen/mod.rs:322-347 | the fields afterwards are those `Codegen.LowerFunction` computes |
| Generation.Generator.LowerBody | src/codegen/mod.rs:334-347 | the fields afterwards are those `Codegen.LowerBody` computes |
| Generation.Generator.BindParams | src/codegen/mod.rs:336-341 | the loop pushes exactly the bindings of `Codegen.BindParams` |
| Generation.Generator.EmitBody | src/codegen/mod.rs:343-347 | the loop leaves the outcome and state of `Codegen.EmitBody` |
| Generation.Generator.BodyStatement | src/codegen/mod.rs:343-347 | one pass of the body loop: the statement's failure is the body's outcome, or the body goes on from the next statement |
| Generation.Generator.Generate | src/codegen/mod.rs:319-353 | the fields afterwards are those `Codegen.Generate` computes |
| Textures.PixelWidth | src/wgpu/texture.rs:17-67 | a supported format is 1, 2, 4, 8 or 16 bytes per pixel |
| Textures.NewTexture | src/wgpu/texture.rs:16-88 | an unsupported format fails first, and exactly then; the `usize` length product overflows exactly when one of its three products reaches 2^64; the layout fails exactly when the length does not fit `isize`; a zero extent reaches `alloc_zeroed` with size 0 (undefined behaviour, its own outcome); otherwise a texture is created |
| Textures.ZeroLength | src/wgpu/texture.rs:78-84 | the length is zero exactly when one extent is zero |
| Textures.Zeroed | src/wgpu/mod.rs:23-28 | `alloc_zeroed` gives a buffer of the length, all zero |
| Textures.OneBytePixels | src/wgpu/texture.rs:18-22 | the formats of one byte per pixel, exactly |
| Textures.TwoBytePixels | src/wgpu/texture.rs:23-32 | the formats of two bytes per pixel, exactly |
| Textures.FourBytePixels | src/wgpu/texture.rs:33-54 | the formats of four bytes per pixel, exactly |
| Textures.WidePixels | src/wgpu/texture.rs:55-65 | the formats of eight and of sixteen bytes per pixel, exactly |
| Textures.UnsupportedFormats | src/wgpu/texture.rs:66 | a format is unsupported exactly when it is the 32-bit-depth stencil format or one of the others |
| Textures.PixelWidthOfChannels | src/wgpu/texture.rs:17-67 | a format with equal-width channels takes channels times channel width per pixel |
| Textures.CreatedTexture | src/wgpu/texture.rs:69-87 | a created texture keeps the size, takes the pixel width, is 3D exactly when it has several layers or says so, and holds one zero byte per byte of every pixel |
| Textures.LayerLength | src/wgpu/texture.rs:78-84 | the buffer is one run of `width * height` pixels per layer |
| Textures.SmallTexturesFit | src/wgpu/texture.rs:77-86 | a supported texture with each extent between 1 and 65535 is created |
| Textures.LargestExtentOverflows | src/wgpu/texture.rs:78-84 | the largest extents with 16-byte pixels overflow the length |

## Left out

- LLVM itself: types, values and instructions are symbolic terms, and no LLVM function is run. `LLVMIsConstant` is structural: constants, undef and global addresses are constant, instruction results are not, and there is no constant folding.
- `LLVMPreferredAlignmentOfType` and `LLVMABISizeOfType` are parameters of the data layout, with no fixed values.
- `validate` and `LLVMVerifyModule` (src/codegen/mod.rs:296-314) are left out: the model does not describe what LLVM accepts.
- The module's name, the source file name, the builder, `write_bitcode` and `write_string` (src/codegen/module.rs) are left out: they are I/O.
- The debug printing and the panic guard around each statement (src/codegen/mod.rs:325-330, 344-346) are left out.
- `todo!()` and `unimplemented!()` are the fatal outcome `Panic(NotImplemented)`. This covers the unnamed globals and functions, the statements other than emit, block, return and store, and the expressions that are not lowered.
- Debug-build arithmetic overflow panics where the Rust code would panic in a debug build: the `u8` product `width * 8`, the `u32` struct offset, and division by a zero scalar width. A release build would wrap instead; that is not modelled.
- Types.ArrayLength: a constant array size is taken as given, and the model does not exclude a size of 0.
- Expressions.InsertElements, Expressions.InsertColumns, Expressions.InsertSlots, Expressions.InsertMembers: the four `build_compose` loops are recursive functions only, with no loop method on `Generator`. Each step evaluates a component through the cached expression evaluator, and proving that as a loop costs close to the verifier's resource limit. `Generator` takes their effect through `Apply`, as it does for the other expression builders (literal, access, swizzle, splat, load, binary) and for the rest of type lowering.
- Codegen.LocalBound, Codegen.GlobalBound: the binding of every local and global ties to the reference storage and lowering (`TypeFacts.Storage`, `Types.Lowered`) only for the one lowered from coherent caches (`CodegenFacts.LocalAllocated`, `CodegenFacts.GlobalTyped`). That coherence survives evaluation of initializer expressions is not proved, so the whole lists are not tied.
- Textures.NewTexture: a release build that wraps the length product, and an allocation that returns null, are not modelled; the product is checked, as a debug build does.
- Textures: the texture descriptor's fields other than size, dimension and format are left out, and the formats not listed by the backend are one value, `Other`.
- The rest of the `wgpu` backend (adapter, device, queue, command encoder, surface, instance, fence) is not part of this model.

## Behaviour reproduced as written

These are modelled as the source behaves, with a lemma or contract clause
that shows the behaviour.

- A right shift of mismatched operand types reports `ShiftLeft` (src/codegen/expressions/binary.rs:393-397): `Binary.ComponentWise`.
- Every unsupported kind or shape error of `component_wise_op!` names `Add`, whatever the operator (src/codegen/expressions/binary.rs:116-123): `Binary.ComponentWise`, via `Binary.Unsupported`.
- A by-value access into a matrix goes through `build_swizzle`, which refuses non-vectors, so it never succeeds (src/codegen/expressions/access.rs:100-115): `Access.IndexValue`.
- The constant index of an access is remapped through the remap table of the base's own type. For a pointer to a struct, that is the pointer type, which has no table, so the member index is not remapped (src/codegen/expressions/access.rs:24-30): `Access.RemapIndex`, `Expressions.AccessOf`.
- The expression cache is keyed by handle alone, while a constant evaluates its initializer in the constant-expression arena, so the two arenas share cache entries (src/codegen/expressions/mod.rs:36-40, 99-117): `ExpressionFacts.CacheCollision`.
- A by-value access into a struct passes the remapped native slot, not the member index, to the item type lookup (src/codegen/expressions/access.rs:25-30, 93). Behind padding that reads the wrong member's type, or is fatal past the last member: `Access.IndexValue`, `Access.PaddedMemberByValue`.
- A swizzle pattern entry equal to the input size is accepted (src/codegen/expressions/swizzle.rs:46): `Swizzles.SwizzleMask`.
