/**
 * Expression evaluation (`eval_expr` / `eval_cached_expr` and the builders
 * they dispatch to): each expression handle is lowered to an LLVM value and
 * its IR type handle, children first, through the expression cache.
 */
module Expressions {
  import opened Wrappers
  import opened Ir
  import opened Native
  import opened Errors
  import opened State
  import opened Types
  import opened TypeFacts
  import opened Locations
  import opened Literals
  import opened Swizzles
  import opened Splats
  import opened Loads
  import opened Binary
  import opened Access

  /**
   * The source and the location are well-formed against the first `n` types.
   * Evaluation only grows the arena, so this holds throughout once it holds.
   */
  ghost predicate Scope(ctx: Ctx, loc: Location, n: nat)
  {
    SrcWf(ctx.src, n) && LocWf(ctx.src, loc, n)
  }

  /** A sound state with at least `n` types. */
  ghost predicate Ready(g: Gen, n: nat)
  {
    Sound(g) && n <= |g.types|
  }

  /** A step from `g` leaves a sound state that extends `g`. */
  ghost predicate Extends<T>(g: Gen, r: Step<T>)
  {
    Sound(r.g) && Grows(g, r.g)
  }

  /** An evaluation step from `g`: it extends `g`, and a produced type handle exists. */
  ghost predicate Evaluated(g: Gen, r: Step<(Value, Handle)>)
  {
    Extends(g, r) && (r.out.Ok? ==> r.out.value.1 < |r.g.types|)
  }

  ghost predicate ComponentsBelow(components: seq<Handle>, e: Handle)
  {
    forall k :: 0 <= k < |components| ==> components[k] < e
  }

  /** An expression read without evaluating another one. */
  predicate IsLeaf(x: Expression)
  {
    x.Literal? || x.ZeroValue? || x.FunctionArgument? || x.GlobalVariable? || x.LocalVariable?
  }

  /**
   * The arms of `eval_expr` that evaluate no other expression: a literal is
   * built, a zero value is the null of the lowered type, and arguments,
   * globals and locals are read from their lists (a missing entry is fatal,
   * and the global context has no arguments or locals).
   */
  function EvalLeaf(ctx: Ctx, n: nat, g: Gen, loc: Location, span: Span, x: Expression): (r: Step<(Value, Handle)>)
    requires LocWf(ctx.src, loc, n) && Ready(g, n) && IsLeaf(x) && ExprTypesBelow(x, n)
    ensures Evaluated(g, r)
    ensures !x.Literal? && !x.ZeroValue? ==> r.g == g
    ensures r.out.Ok? && x.ZeroValue? ==>
              x.zty in r.g.typeCache && r.out.value == (ConstNull(r.g.typeCache[x.zty]), x.zty)
    ensures x.FunctionArgument? ==>
              && (loc.Global? ==> r.out == Panic(GlobalParams))
              && (loc.FunctionState? ==>
                    r.out == if x.argument < |loc.params| then Ok(loc.params[x.argument]) else Panic(OutOfBounds))
    ensures x.LocalVariable? ==>
              && (loc.Global? ==> r.out == Panic(GlobalLocals))
              && (loc.FunctionState? ==>
                    r.out == if x.local < |loc.locals| then Ok(loc.locals[x.local]) else Panic(OutOfBounds))
    ensures x.GlobalVariable? ==>
              r.out == if x.global < |g.globals| then Ok(g.globals[x.global]) else Panic(OutOfBounds)
  {
    match x
    case Literal(literal) =>
      var r := BuildLiteral(g, span, literal);
      AdvancesSound(g, r.g);
      r
    case ZeroValue(ty) =>
      var (t, g1) :- EvalCachedType(ctx, g, span, ty);
      Step(Ok((ConstNull(t), ty)), g1)
    case FunctionArgument(i) =>
      var (params, _) :- Step(GetParams(loc), g);
      if i < |params| then Step(Ok(params[i]), g) else Step(Panic(OutOfBounds), g)
    case GlobalVariable(h) =>
      if h < |g.globals| then Step(Ok(g.globals[h]), g) else Step(Panic(OutOfBounds), g)
    case LocalVariable(h) =>
      var (locals, _) :- Step(GetLocals(loc), g);
      if h < |locals| then Step(Ok(locals[h]), g) else Step(Panic(OutOfBounds), g)
  }

  /**
   * `eval_cached_expr`: a cached value and type are returned as they are,
   * whichever arena entered them; otherwise the expression is evaluated and
   * its result entered for `e` with `or_insert`.
   */
  function EvalCachedExpr(ctx: Ctx, n: nat, g: Gen, loc: Location, e: Handle): (r: Step<(Value, Handle)>)
    requires Scope(ctx, loc, n) && Ready(g, n) && e < |GetExprs(ctx.src, loc)|
    ensures Evaluated(g, r)
    ensures e in g.exprCache ==> r == Step(Ok(g.exprCache[e]), g)
    ensures r.out.Ok? ==> e in r.g.exprCache && r.g.exprCache[e] == r.out.value
    decreases Rank(loc), e, 5
  {
    if e in g.exprCache then Step(Ok(g.exprCache[e]), g)
    else
      var (v, g1) :- EvalExpr(ctx, n, g, loc, e);
      var (v', cache) := OrInsert(g1.exprCache, e, v);
      Step(Ok(v'), g1.(exprCache := cache))
  }

  /**
   * `eval_expr`: dispatches on the expression. A constant is evaluated afresh
   * in the global context from its initializer; the unimplemented variants
   * are fatal.
   */
  function EvalExpr(ctx: Ctx, n: nat, g: Gen, loc: Location, e: Handle): (r: Step<(Value, Handle)>)
    requires Scope(ctx, loc, n) && Ready(g, n) && e < |GetExprs(ctx.src, loc)|
    ensures Evaluated(g, r)
    decreases Rank(loc), e, 4
  {
    var exprs := GetExprs(ctx.src, loc);
    GetExprsWf(ctx.src, loc, n);
    var span := exprs[e].span;
    var x := exprs[e].item;
    assert ExprRefsBelow(x, e) && ExprTypesBelow(x, n);
    if IsLeaf(x) then EvalLeaf(ctx, n, g, loc, span, x)
    else
      match x
      case Constant(c) => EvalExpr(ctx, n, g, Global, ctx.src.constants[c].init)
      case Compose(ty, components) => BuildCompose(ctx, n, g, loc, e, span, ty, components)
      case Access(base, index) => BuildAccess(ctx, n, g, loc, e, span, base, DynamicIndex(index))
      case AccessIndex(base, index) => BuildAccess(ctx, n, g, loc, e, span, base, ConstantIndex(index))
      case Splat(size, value) => BuildSplat(ctx, n, g, loc, e, span, size, value)
      case Swizzle(size, vector, pattern) => BuildSwizzleOf(ctx, n, g, loc, e, span, size, vector, pattern)
      case Load(pointer) => BuildLoad(ctx, n, g, loc, e, span, pointer)
      case Binary(op, left, right) => BuildBinary(ctx, n, g, loc, e, span, op, left, right)
      case _ => Step(Panic(NotImplemented), g)
  }

  /**
   * `build_compose`: the aggregate type is lowered and its undef value filled
   * component by component, in order: vector lanes, matrix columns, array
   * slots, and struct slots through the type's remap table, which must exist.
   * No other type can be composed.
   */
  function BuildCompose(ctx: Ctx, n: nat, g: Gen, loc: Location, e: Handle, span: Span, ty: Handle,
                        components: seq<Handle>): (r: Step<(Value, Handle)>)
    requires Scope(ctx, loc, n) && Ready(g, n) && e < |GetExprs(ctx.src, loc)|
    requires ty < |g.types| && ComponentsBelow(components, e) && |components| < 0x1_0000_0000
    ensures Evaluated(g, r)
    ensures r.out.Ok? ==> r.out.value.1 == ty
    ensures var inner := g.types[ty].item.inner;
            !(inner.Vector? || inner.Matrix? || inner.Array? || inner.Struct?) ==>
              r == Step(Err(Error(NotComposable(ty), span)), g)
    decreases Rank(loc), e, 3
  {
    var inner := g.types[ty].item.inner;
    if inner.Vector? || inner.Matrix? || inner.Array? || inner.Struct? then
      var (t, g1) :- EvalCachedType(ctx, g, span, ty);
      var r := Fill(ctx, n, g1, loc, e, span, inner, ty, components, Undef(t));
      GrowsTrans(g, g1, r.g);
      var (v, g2) :- r;
      Step(Ok((v, ty)), g2)
    else Step(Err(Error(NotComposable(ty), span)), g)
  }

  /** The loop of `build_compose` that suits the aggregate `inner` (of handle `ty`). */
  function Fill(ctx: Ctx, n: nat, g: Gen, loc: Location, e: Handle, span: Span, inner: TypeInner, ty: Handle,
                components: seq<Handle>, undef: Value): (r: Step<Value>)
    requires Scope(ctx, loc, n) && Ready(g, n) && e < |GetExprs(ctx.src, loc)|
    requires ComponentsBelow(components, e) && |components| < 0x1_0000_0000
    ensures Extends(g, r)
    ensures r.out.Ok? && inner.Vector? ==> LanesFilled(r.out.value, r.g.exprCache, components, 0)
    ensures r.out.Ok? && (inner.Matrix? || inner.Array?) ==> SlotsFilled(r.out.value, r.g.exprCache, components, 0)
    ensures r.out.Ok? && inner.Matrix? ==> ColumnsVectors(r.g, components, 0)
    ensures !(inner.Vector? || inner.Matrix? || inner.Array?) ==>
              && (ty !in g.structMaps ==> r == Step(Panic(NoStructMap), g))
              && (r.out.Ok? ==> ty in g.structMaps && MembersFilled(r.out.value, r.g.exprCache, g.structMaps[ty], components, 0))
    decreases Rank(loc), e, 2
  {
    if inner.Vector? then InsertElements(ctx, n, g, loc, e, components, 0, undef)
    else if inner.Matrix? then InsertColumns(ctx, n, g, loc, e, span, components, 0, undef)
    else if inner.Array? then InsertSlots(ctx, n, g, loc, e, components, 0, undef)
    else if ty !in g.structMaps then Step(Panic(NoStructMap), g)
    else InsertMembers(ctx, n, g, loc, e, g.structMaps[ty], components, 0, undef)
  }

  /** The vector arm's loop from component `k` on: component `i` goes into lane `i`. */
  function InsertElements(ctx: Ctx, n: nat, g: Gen, loc: Location, e: Handle, components: seq<Handle>, k: nat,
                          acc: Value): (r: Step<Value>)
    requires Scope(ctx, loc, n) && Ready(g, n) && e < |GetExprs(ctx.src, loc)|
    requires ComponentsBelow(components, e) && k <= |components| < 0x1_0000_0000
    ensures Extends(g, r)
    ensures r.out.Ok? ==> LanesFilled(r.out.value, r.g.exprCache, components, k) && LanesKept(r.out.value, acc, k)
    decreases Rank(loc), e, 1, |components| - k
  {
    if k == |components| then Step(Ok(acc), g)
    else
      var (v, g1) :- InsertNext(ctx, n, g, loc, e, components[k], c => InsertElement(acc, c, ConstU64(k)));
      var r := InsertElements(ctx, n, g1, loc, e, components, k + 1, v);
      GrowsTrans(g, g1, r.g);
      if r.out.Ok? then
        LanesStep(r.out.value, v, acc, r.g.exprCache, components, k);
        r
      else r
  }

  /**
   * One step of the vector, array and struct loops: the component is
   * evaluated (through the cache) and `insert` of its value is built.
   */
  function InsertNext(ctx: Ctx, n: nat, g: Gen, loc: Location, e: Handle, component: Handle,
                      insert: Value -> Instr): (r: Step<Value>)
    requires Scope(ctx, loc, n) && Ready(g, n) && e < |GetExprs(ctx.src, loc)| && component < e
    ensures Extends(g, r)
    ensures r.out.Ok? ==>
              && component in r.g.exprCache
              && r.out.value.Inst? && r.out.value.instr == insert(r.g.exprCache[component].0)
    decreases Rank(loc), e, 0
  {
    var (c, g1) :- EvalCachedExpr(ctx, n, g, loc, component);
    var (v, g2) := Build(g1, insert(c.0));
    Step(Ok(v), g2)
  }

  /** Lanes `from` on of `v` hold the cached values of the components, in order. */
  ghost predicate LanesFilled(v: Value, cache: map<Handle, (Value, Handle)>, components: seq<Handle>, from: nat)
  {
    forall i :: from <= i < |components| ==> components[i] in cache && Lane(v, i) == Some(cache[components[i]].0)
  }

  /** The lanes of `v` below `k` are those of `acc`. */
  ghost predicate LanesKept(v: Value, acc: Value, k: nat)
  {
    forall i :: 0 <= i < k ==> Lane(v, i) == Lane(acc, i)
  }

  /** One step of the vector loop: lane `k` is filled with the cached value of component `k`. */
  lemma LanesStep(r: Value, v: Value, acc: Value, cache: map<Handle, (Value, Handle)>, components: seq<Handle>, k: nat)
    requires k < |components| < 0x1_0000_0000 && components[k] in cache
    requires v.Inst? && v.instr == InsertElement(acc, cache[components[k]].0, ConstU64(k))
    requires LanesFilled(r, cache, components, k + 1) && LanesKept(r, v, k + 1)
    ensures LanesFilled(r, cache, components, k) && LanesKept(r, acc, k)
  {
    assert Lane(r, k) == Lane(v, k);
  }

  /**
   * The matrix arm's loop from component `k` on: component `i` goes into slot
   * `i`, and a component that is not a vector stops the loop.
   */
  function InsertColumns(ctx: Ctx, n: nat, g: Gen, loc: Location, e: Handle, span: Span, components: seq<Handle>,
                         k: nat, acc: Value): (r: Step<Value>)
    requires Scope(ctx, loc, n) && Ready(g, n) && e < |GetExprs(ctx.src, loc)|
    requires ComponentsBelow(components, e) && k <= |components| < 0x1_0000_0000
    ensures Extends(g, r)
    ensures r.out.Ok? ==> SlotsFilled(r.out.value, r.g.exprCache, components, k) && SlotsKept(r.out.value, acc, k)
    ensures r.out.Ok? ==> ColumnsVectors(r.g, components, k)
    decreases Rank(loc), e, 1, |components| - k
  {
    if k == |components| then Step(Ok(acc), g)
    else
      var (v, g1) :- InsertColumn(ctx, n, g, loc, e, span, components[k], k, acc);
      var r := InsertColumns(ctx, n, g1, loc, e, span, components, k + 1, v);
      GrowsTrans(g, g1, r.g);
      if r.out.Ok? then
        SlotsStep(r.out.value, v, acc, r.g.exprCache, components, k);
        ColumnsStep(g1, r.g, components, k);
        r
      else r
  }

  /**
   * One step of the matrix loop: the component is evaluated (through the
   * cache) and inserted at slot `k` if its type is a vector; otherwise the
   * loop stops with `InvalidComponent` naming that type.
   */
  function InsertColumn(ctx: Ctx, n: nat, g: Gen, loc: Location, e: Handle, span: Span, component: Handle,
                        k: nat, acc: Value): (r: Step<Value>)
    requires Scope(ctx, loc, n) && Ready(g, n) && e < |GetExprs(ctx.src, loc)| && component < e
    ensures Extends(g, r)
    ensures component in g.exprCache && !g.types[g.exprCache[component].1].item.inner.Vector? ==>
              r == Step(Err(Error(InvalidComponent(g.exprCache[component].1), span)), g)
    ensures r.out.Ok? ==>
              && ColumnVector(r.g, component)
              && r.out.value.Inst? && r.out.value.instr == InsertValue(acc, r.g.exprCache[component].0, k)
    decreases Rank(loc), e, 0
  {
    var (c, g1) :- EvalCachedExpr(ctx, n, g, loc, component);
    if !g1.types[c.1].item.inner.Vector? then Step(Err(Error(InvalidComponent(c.1), span)), g1)
    else
      var (v, g2) := Build(g1, InsertValue(acc, c.0, k));
      Step(Ok(v), g2)
  }

  /** The component was evaluated, and its type is a vector. */
  ghost predicate ColumnVector(g: Gen, component: Handle)
  {
    && component in g.exprCache && g.exprCache[component].1 < |g.types|
    && g.types[g.exprCache[component].1].item.inner.Vector?
  }

  /** Every component from `k` on was evaluated with a vector type. */
  ghost predicate ColumnsVectors(g: Gen, components: seq<Handle>, k: nat)
  {
    forall i :: k <= i < |components| ==> ColumnVector(g, components[i])
  }

  /** One step of the matrix loop keeps the columns checked so far. */
  lemma ColumnsStep(g: Gen, g': Gen, components: seq<Handle>, k: nat)
    requires k < |components| && ColumnVector(g, components[k]) && Grows(g, g')
    requires ColumnsVectors(g', components, k + 1)
    ensures ColumnsVectors(g', components, k)
  {
    assert ColumnVector(g', components[k]);
  }

  /** The array arm's loop from component `k` on: component `i` goes into slot `i`. */
  function InsertSlots(ctx: Ctx, n: nat, g: Gen, loc: Location, e: Handle, components: seq<Handle>, k: nat,
                       acc: Value): (r: Step<Value>)
    requires Scope(ctx, loc, n) && Ready(g, n) && e < |GetExprs(ctx.src, loc)|
    requires ComponentsBelow(components, e) && k <= |components| < 0x1_0000_0000
    ensures Extends(g, r)
    ensures r.out.Ok? ==> SlotsFilled(r.out.value, r.g.exprCache, components, k) && SlotsKept(r.out.value, acc, k)
    decreases Rank(loc), e, 1, |components| - k
  {
    if k == |components| then Step(Ok(acc), g)
    else
      var (v, g1) :- InsertNext(ctx, n, g, loc, e, components[k], c => InsertValue(acc, c, k));
      var r := InsertSlots(ctx, n, g1, loc, e, components, k + 1, v);
      GrowsTrans(g, g1, r.g);
      if r.out.Ok? then
        SlotsStep(r.out.value, v, acc, r.g.exprCache, components, k);
        r
      else r
  }

  /** Slots `from` on of `v` hold the cached values of the components, in order. */
  ghost predicate SlotsFilled(v: Value, cache: map<Handle, (Value, Handle)>, components: seq<Handle>, from: nat)
  {
    forall i :: from <= i < |components| ==> components[i] in cache && Slot(v, i) == Some(cache[components[i]].0)
  }

  /** The slots of `v` below `k` are those of `acc`. */
  ghost predicate SlotsKept(v: Value, acc: Value, k: nat)
  {
    forall i :: 0 <= i < k ==> Slot(v, i) == Slot(acc, i)
  }

  /** One step of the array and matrix loops: slot `k` is filled with the cached value of component `k`. */
  lemma SlotsStep(r: Value, v: Value, acc: Value, cache: map<Handle, (Value, Handle)>, components: seq<Handle>, k: nat)
    requires k < |components| && components[k] in cache
    requires v.Inst? && v.instr == InsertValue(acc, cache[components[k]].0, k)
    requires SlotsFilled(r, cache, components, k + 1) && SlotsKept(r, v, k + 1)
    ensures SlotsFilled(r, cache, components, k) && SlotsKept(r, acc, k)
  {
    assert Slot(r, k) == Slot(v, k);
  }

  function Min(a: nat, b: nat): nat
  {
    if a < b then a else b
  }

  /** The `u32` slot index that `build_compose` uses for struct slot `s`. */
  function SlotIndex(s: nat): U32
  {
    s % 0x1_0000_0000
  }

  /** No pair after `i` (and before `m`) writes the slot of pair `i`. */
  ghost predicate LastWriter(slots: seq<nat>, i: nat, m: nat)
    requires i < m <= |slots|
  {
    forall j :: i < j < m ==> SlotIndex(slots[j]) != SlotIndex(slots[i])
  }

  /**
   * Pairs `from` on (up to `m`, the shorter of the remap table and the
   * components) have their component evaluated, and the slot of each pair not
   * overwritten by a later one holds the cached value of its component.
   */
  ghost predicate MembersFilled(v: Value, cache: map<Handle, (Value, Handle)>, slots: seq<nat>, components: seq<Handle>,
                                from: nat)
    requires Min(|slots|, |components|) <= |slots| && Min(|slots|, |components|) <= |components|
  {
    var m := Min(|slots|, |components|);
    forall i :: from <= i < m ==>
      && components[i] in cache
      && (LastWriter(slots, i, m) ==> Slot(v, SlotIndex(slots[i])) == Some(cache[components[i]].0))
  }

  /** A slot no pair from `from` on writes is that of `acc`. */
  ghost predicate MembersKept(v: Value, acc: Value, slots: seq<nat>, from: nat, m: nat)
    requires m <= |slots|
  {
    forall s: nat :: (forall j :: from <= j < m ==> SlotIndex(slots[j]) != s) ==> Slot(v, s) == Slot(acc, s)
  }

  /** One step of the struct loop: pair `k`'s slot gets the cached value of component `k`. */
  lemma MembersStep(r: Value, v: Value, acc: Value, cache: map<Handle, (Value, Handle)>, slots: seq<nat>,
                    components: seq<Handle>, k: nat)
    requires k < Min(|slots|, |components|) && components[k] in cache
    requires v.Inst? && v.instr == InsertValue(acc, cache[components[k]].0, slots[k] % 0x1_0000_0000)
    requires MembersFilled(r, cache, slots, components, k + 1)
    requires MembersKept(r, v, slots, k + 1, Min(|slots|, |components|))
    ensures MembersFilled(r, cache, slots, components, k)
    ensures MembersKept(r, acc, slots, k, Min(|slots|, |components|))
  {
    var m := Min(|slots|, |components|);
    assert LastWriter(slots, k, m) ==> Slot(r, SlotIndex(slots[k])) == Slot(v, SlotIndex(slots[k]));
    forall s: nat | forall j :: k <= j < m ==> SlotIndex(slots[j]) != s
      ensures Slot(r, s) == Slot(acc, s)
    {
      assert SlotIndex(slots[k]) != s;
    }
  }

  /**
   * The struct arm's loop from pair `k` on, over the remap table zipped with
   * the components (the shorter decides): component `i` goes into slot
   * `slots[i]` (as `u32`).
   */
  function InsertMembers(ctx: Ctx, n: nat, g: Gen, loc: Location, e: Handle, slots: seq<nat>, components: seq<Handle>,
                         k: nat, acc: Value): (r: Step<Value>)
    requires Scope(ctx, loc, n) && Ready(g, n) && e < |GetExprs(ctx.src, loc)|
    requires ComponentsBelow(components, e) && k <= Min(|slots|, |components|)
    ensures Extends(g, r)
    ensures r.out.Ok? ==>
              && MembersFilled(r.out.value, r.g.exprCache, slots, components, k)
              && MembersKept(r.out.value, acc, slots, k, Min(|slots|, |components|))
    decreases Rank(loc), e, 1, |components| - k
  {
    if k == Min(|slots|, |components|) then Step(Ok(acc), g)
    else
      var (v, g1) :- InsertNext(ctx, n, g, loc, e, components[k], c => InsertValue(acc, c, slots[k] % 0x1_0000_0000));
      var r := InsertMembers(ctx, n, g1, loc, e, slots, components, k + 1, v);
      GrowsTrans(g, g1, r.g);
      if r.out.Ok? then
        MembersStep(r.out.value, v, acc, r.g.exprCache, slots, components, k);
        r
      else r
  }

  /**
   * `build_access`: the base is evaluated, then indexed. A constant index is
   * remapped through the remap table of the base's own type; a base with a
   * pointee is indexed in place (an element pointer), any other by value.
   */
  function BuildAccess(ctx: Ctx, n: nat, g: Gen, loc: Location, e: Handle, span: Span, base: Handle, index: Index)
    : (r: Step<(Value, Handle)>)
    requires Scope(ctx, loc, n) && Ready(g, n) && e < |GetExprs(ctx.src, loc)|
    requires base < e && (index.DynamicIndex? ==> index.expr < e)
    ensures Evaluated(g, r)
    decreases Rank(loc), e, 3
  {
    var (bt, g1) :- EvalCachedExpr(ctx, n, g, loc, base);
    var r := AccessOf(ctx, n, g1, loc, e, span, bt.0, bt.1, index);
    GrowsTrans(g, g1, r.g);
    r
  }

  /** `build_access` once the base is evaluated to `base` of type `ty`. */
  function AccessOf(ctx: Ctx, n: nat, g: Gen, loc: Location, e: Handle, span: Span, base: Value, ty: Handle,
                    index: Index): (r: Step<(Value, Handle)>)
    requires Scope(ctx, loc, n) && Ready(g, n) && e < |GetExprs(ctx.src, loc)|
    requires ty < |g.types| && (index.DynamicIndex? ==> index.expr < e)
    ensures Evaluated(g, r)
    decreases Rank(loc), e, 2
  {
    var (index1, _) :- Step(RemapIndex(g.structMaps, ty, index), g);
    GetPointeeWf(g.types, ty);
    var (pointee, types1) := GetPointee(g.types, ty);
    var g1 := g.(types := types1);
    AdvancesSound(g, g1);
    if pointee.Some? then AccessPointer(ctx, n, g1, loc, e, span, base, index1, pointee.value.0, pointee.value.1)
    else AccessValue(ctx, n, g1, loc, e, span, base, ty, index1)
  }

  /**
   * The LLVM index value: a dynamic index is evaluated; a known one is a
   * `u32` constant (`narrow`) or a `u64` constant, truncated to its width.
   */
  function LlvmIndex(ctx: Ctx, n: nat, g: Gen, loc: Location, e: Handle, index: Index, narrow: bool): (r: Step<Value>)
    requires Scope(ctx, loc, n) && Ready(g, n) && e < |GetExprs(ctx.src, loc)|
    requires index.DynamicIndex? ==> index.expr < e
    ensures Extends(g, r)
    ensures index.ConstantIndex? ==>
              r == Step(Ok(if narrow then ConstU32(index.constant % 0x1_0000_0000)
                           else ConstU64(index.constant % 0x1_0000_0000_0000_0000)), g)
    ensures index.DynamicIndex? && r.out.Ok? ==>
              index.expr in r.g.exprCache && r.out.value == r.g.exprCache[index.expr].0
    decreases Rank(loc), e, 0
  {
    match index
    case DynamicIndex(x) =>
      var (vt, g1) :- EvalCachedExpr(ctx, n, g, loc, x);
      Step(Ok(vt.0), g1)
    case ConstantIndex(c) =>
      Step(Ok(if narrow then ConstU32(c % 0x1_0000_0000) else ConstU64(c % 0x1_0000_0000_0000_0000)), g)
  }

  /**
   * The pointer arm of `build_access`: the index value (a `u32` constant into
   * a struct, `u64` otherwise), then the element pointer into the pointee
   * `inner`.
   */
  function AccessPointer(ctx: Ctx, n: nat, g: Gen, loc: Location, e: Handle, span: Span, base: Value, index: Index,
                         inner: Handle, space: AddressSpace): (r: Step<(Value, Handle)>)
    requires Scope(ctx, loc, n) && Ready(g, n) && e < |GetExprs(ctx.src, loc)|
    requires index.DynamicIndex? ==> index.expr < e
    requires inner < |g.types|
    ensures Evaluated(g, r)
    decreases Rank(loc), e, 1
  {
    var (idx, g1) :- LlvmIndex(ctx, n, g, loc, e, index, g.types[inner].item.inner.Struct?);
    var r := IndexPointer(ctx, g1, span, base, idx, index, inner, space);
    AdvancesSound(g1, r.g);
    r
  }

  /**
   * The by-value arm of `build_access`: the index value (`u64`), the numeric
   * index, then the extraction from the base of type `ty`.
   */
  function AccessValue(ctx: Ctx, n: nat, g: Gen, loc: Location, e: Handle, span: Span, base: Value, ty: Handle,
                       index: Index): (r: Step<(Value, Handle)>)
    requires Scope(ctx, loc, n) && Ready(g, n) && e < |GetExprs(ctx.src, loc)|
    requires index.DynamicIndex? ==> index.expr < e
    requires ty < |g.types|
    ensures Evaluated(g, r)
    decreases Rank(loc), e, 1
  {
    var (idx, g1) :- LlvmIndex(ctx, n, g, loc, e, index, false);
    var r := IndexValue(ctx, g1, span, base, ty, idx, ResolveIndex(GetExprs(ctx.src, loc), span, index));
    AdvancesSound(g1, r.g);
    r
  }

  /** `build_swizzle` on an expression: the vector operand is evaluated, then swizzled. */
  function BuildSwizzleOf(ctx: Ctx, n: nat, g: Gen, loc: Location, e: Handle, span: Span, size: VectorSize,
                          vector: Handle, pattern: seq<nat>): (r: Step<(Value, Handle)>)
    requires Scope(ctx, loc, n) && Ready(g, n) && e < |GetExprs(ctx.src, loc)| && vector < e && |pattern| == 4
    ensures Evaluated(g, r)
    decreases Rank(loc), e, 3
  {
    var (vt, g1) :- EvalCachedExpr(ctx, n, g, loc, vector);
    var r := BuildSwizzle(ctx, g1, span, size, vt.0, vt.1, pattern);
    AdvancesSound(g1, r.g);
    r
  }

  /** `build_splat`: the operand is evaluated, then splatted. */
  function BuildSplat(ctx: Ctx, n: nat, g: Gen, loc: Location, e: Handle, span: Span, size: VectorSize, value: Handle)
    : (r: Step<(Value, Handle)>)
    requires Scope(ctx, loc, n) && Ready(g, n) && e < |GetExprs(ctx.src, loc)| && value < e
    ensures Evaluated(g, r)
    decreases Rank(loc), e, 3
  {
    var (vt, g1) :- EvalCachedExpr(ctx, n, g, loc, value);
    var r := SplatEvaluated(ctx, g1, span, size, vt.0, vt.1);
    AdvancesSound(g1, r.g);
    r
  }

  /** `build_load`: the pointer operand is evaluated, then loaded through. */
  function BuildLoad(ctx: Ctx, n: nat, g: Gen, loc: Location, e: Handle, span: Span, pointer: Handle)
    : (r: Step<(Value, Handle)>)
    requires Scope(ctx, loc, n) && Ready(g, n) && e < |GetExprs(ctx.src, loc)| && pointer < e
    ensures Evaluated(g, r)
    decreases Rank(loc), e, 3
  {
    var (pt, g1) :- EvalCachedExpr(ctx, n, g, loc, pointer);
    var r := LoadEvaluated(ctx, g1, span, pt.0, pt.1);
    AdvancesSound(g1, r.g);
    r
  }

  /**
   * `build_binary`: both operands are evaluated, left first; a product goes
   * through `build_mul`, every other operator through the component-wise
   * table.
   */
  function BuildBinary(ctx: Ctx, n: nat, g: Gen, loc: Location, e: Handle, span: Span, op: BinaryOperator,
                       left: Handle, right: Handle): (r: Step<(Value, Handle)>)
    requires Scope(ctx, loc, n) && Ready(g, n) && e < |GetExprs(ctx.src, loc)| && left < e && right < e
    ensures Evaluated(g, r)
    decreases Rank(loc), e, 3
  {
    var (lt, g1) :- EvalCachedExpr(ctx, n, g, loc, left);
    var r := BinaryRight(ctx, n, g1, loc, e, span, op, lt, right);
    GrowsTrans(g, g1, r.g);
    r
  }

  /** `build_binary` once the left operand is evaluated to `lt`. */
  function BinaryRight(ctx: Ctx, n: nat, g: Gen, loc: Location, e: Handle, span: Span, op: BinaryOperator,
                       lt: (Value, Handle), right: Handle): (r: Step<(Value, Handle)>)
    requires Scope(ctx, loc, n) && Ready(g, n) && e < |GetExprs(ctx.src, loc)| && right < e && lt.1 < |g.types|
    ensures Evaluated(g, r)
    decreases Rank(loc), e, 2
  {
    var (rt, g1) :- EvalCachedExpr(ctx, n, g, loc, right);
    var r := if op == Multiply then MulEvaluated(ctx, g1, span, lt.0, lt.1, rt.0, rt.1)
             else ComponentWise(ctx, g1, op, span, lt.0, lt.1, rt.0, rt.1);
    AdvancesSound(g1, r.g);
    r
  }
}
