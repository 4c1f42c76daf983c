/**
 * Properties of type lowering: the caches are transparent (a cached lowering
 * agrees with the cache-free reference lowering), the struct layout and its
 * remap table have the promised shape, and the pointer-storage rule.
 */
module TypeFacts {
  import opened Wrappers
  import opened Ir
  import opened Native
  import opened Errors
  import opened State
  import opened Types

  /** The reference layout of struct type `h`. */
  function Layout(dl: DataLayout, types: TypeArena, span: Span, h: Handle): Outcome<(seq<NativeType>, seq<nat>)>
    requires TypesWf(types) && h < |types| && types[h].item.inner.Struct?
  {
    LoweredLayout(dl, types, span, h, types[h].item.inner.members, 0, 0, [], [])
  }

  /**
   * Reference storage type (what a variable of type `ty` is allocated as): a
   * matrix is an array of its column vectors, anything else its value type.
   */
  function Storage(dl: DataLayout, types: TypeArena, span: Span, ty: Handle): Outcome<NativeType>
    requires TypesWf(types) && ty < |types|
  {
    match types[ty].item.inner
    case Matrix(columns, rows, s) =>
      var t :- EvalScalarType(span, s);
      Ok(ArrayType(VectorType(t, rows), columns))
    case _ => Lowered(dl, types, span, ty)
  }

  /** The type-cache entry for `h`, if any, is the reference lowering. */
  ghost predicate TypeEntryOk(dl: DataLayout, types: TypeArena, cache: map<Handle, NativeType>, h: Handle)
  {
    h in cache ==> TypesWf(types) && h < |types| && Lowered(dl, types, Undefined, h) == Ok(cache[h])
  }

  /** The pointer-type-cache entry for `h`, if any, is the reference storage type. */
  ghost predicate StorageEntryOk(dl: DataLayout, types: TypeArena, cache: map<Handle, NativeType>, h: Handle)
  {
    h in cache ==> TypesWf(types) && h < |types| && Storage(dl, types, Undefined, h) == Ok(cache[h])
  }

  /** The remap table for `h`, if any, is the reference layout's. */
  ghost predicate MapEntryOk(dl: DataLayout, types: TypeArena, maps: map<Handle, seq<nat>>, h: Handle)
  {
    h in maps ==>
      && TypesWf(types) && h < |types| && types[h].item.inner.Struct?
      && Layout(dl, types, Undefined, h).Ok?
      && Layout(dl, types, Undefined, h).value.1 == maps[h]
  }

  /** A cached struct type has its remap table. */
  ghost predicate StructMapped(g: Gen, h: Handle)
  {
    h in g.typeCache && h < |g.types| && g.types[h].item.inner.Struct? ==> h in g.structMaps
  }

  /**
   * The caches agree with the reference lowering: every cached value type,
   * storage type and remap table is what the reference computes, and every
   * cached struct type has its remap table.
   */
  ghost predicate Coherent(dl: DataLayout, g: Gen)
  {
    && TypesWf(g.types)
    && (forall h :: TypeEntryOk(dl, g.types, g.typeCache, h))
    && (forall h :: StorageEntryOk(dl, g.types, g.pointerTypeCache, h))
    && (forall h :: MapEntryOk(dl, g.types, g.structMaps, h))
    && (forall h :: StructMapped(g, h))
  }

  /** A fresh generator's empty caches are coherent. */
  lemma NewGenCoherent(dl: DataLayout, types: TypeArena)
    requires TypesWf(types)
    ensures Coherent(dl, NewGen(types))
  {
  }

  /** The span only decorates errors: a successful lowering does not depend on it. */
  lemma {:induction false} LoweredSpan(dl: DataLayout, types: TypeArena, s1: Span, s2: Span, ty: Handle)
    requires TypesWf(types) && ty < |types|
    ensures Lowered(dl, types, s1, ty).Ok? ==> Lowered(dl, types, s2, ty) == Lowered(dl, types, s1, ty)
    decreases ty, 1
  {
    match types[ty].item.inner
    case Array(base, _, _) => LoweredSpan(dl, types, s1, s2, base);
    case Struct(members, _) => LayoutSpan(dl, types, s1, s2, ty, members, 0, 0, [], []);
    case _ =>
  }

  lemma {:induction false} LayoutSpan(dl: DataLayout, types: TypeArena, s1: Span, s2: Span, ty: Handle,
                                      members: seq<StructMember>, k: nat, offset: U32,
                                      fields: seq<NativeType>, slots: seq<nat>)
    requires TypesWf(types) && ty < |types| && MembersBelow(members, ty) && k <= |members|
    ensures LoweredLayout(dl, types, s1, ty, members, k, offset, fields, slots).Ok? ==>
              LoweredLayout(dl, types, s2, ty, members, k, offset, fields, slots)
                == LoweredLayout(dl, types, s1, ty, members, k, offset, fields, slots)
    decreases ty, 0, |members| - k
  {
    if k < |members| {
      var target := members[k].offset;
      if !(offset < target && (target - offset) * 8 >= 0x1_0000_0000) {
        LoweredSpan(dl, types, s1, s2, members[k].ty);
        var lowered := Lowered(dl, types, s1, members[k].ty);
        if lowered.Ok? {
          var padded := if offset < target then fields + [IntType((target - offset) * 8)] else fields;
          var start := if offset < target then target else offset;
          var size := dl.abiSize(lowered.value) % 0x1_0000_0000;
          if start + size < 0x1_0000_0000 {
            LayoutSpan(dl, types, s1, s2, ty, members, k + 1, start + size, padded + [lowered.value], slots + [|padded|]);
          }
        }
      }
    }
  }

  /** Interning more types does not change the lowering of the existing ones. */
  lemma {:induction false} LoweredExtend(dl: DataLayout, types: TypeArena, types': TypeArena, span: Span, ty: Handle)
    requires TypesWf(types) && TypesWf(types') && types <= types' && ty < |types|
    ensures Lowered(dl, types', span, ty) == Lowered(dl, types, span, ty)
    decreases ty, 1
  {
    assert types'[ty] == types[ty];
    match types[ty].item.inner
    case Array(base, _, _) => LoweredExtend(dl, types, types', span, base);
    case Struct(members, _) => LayoutExtend(dl, types, types', span, ty, members, 0, 0, [], []);
    case _ =>
  }

  lemma {:induction false} LayoutExtend(dl: DataLayout, types: TypeArena, types': TypeArena, span: Span, ty: Handle,
                                        members: seq<StructMember>, k: nat, offset: U32,
                                        fields: seq<NativeType>, slots: seq<nat>)
    requires TypesWf(types) && TypesWf(types') && types <= types'
    requires ty < |types| && MembersBelow(members, ty) && k <= |members|
    ensures LoweredLayout(dl, types', span, ty, members, k, offset, fields, slots)
              == LoweredLayout(dl, types, span, ty, members, k, offset, fields, slots)
    decreases ty, 0, |members| - k
  {
    if k < |members| {
      var target := members[k].offset;
      if !(offset < target && (target - offset) * 8 >= 0x1_0000_0000) {
        LoweredExtend(dl, types, types', span, members[k].ty);
        var lowered := Lowered(dl, types, span, members[k].ty);
        if lowered.Ok? {
          var padded := if offset < target then fields + [IntType((target - offset) * 8)] else fields;
          var start := if offset < target then target else offset;
          var size := dl.abiSize(lowered.value) % 0x1_0000_0000;
          if start + size < 0x1_0000_0000 {
            LayoutExtend(dl, types, types', span, ty, members, k + 1, start + size, padded + [lowered.value], slots + [|padded|]);
          }
        }
      }
    }
  }

  /** Interning a type into the arena keeps the caches coherent. */
  lemma InternCoherent(dl: DataLayout, g: Gen, ty: Type, span: Span)
    requires Coherent(dl, g) && TypeRefsBelow(ty.inner, |g.types|)
    ensures Coherent(dl, Intern(g, ty, span).1)
  {
    var g' := Intern(g, ty, span).1;
    InsertWf(g.types, ty, span);
    forall h: Handle ensures TypeEntryOk(dl, g'.types, g'.typeCache, h) {
      if h in g'.typeCache {
        assert TypeEntryOk(dl, g.types, g.typeCache, h);
        LoweredExtend(dl, g.types, g'.types, Undefined, h);
      }
    }
    forall h: Handle ensures StorageEntryOk(dl, g'.types, g'.pointerTypeCache, h) {
      if h in g'.pointerTypeCache {
        assert StorageEntryOk(dl, g.types, g.pointerTypeCache, h);
        assert g'.types[h] == g.types[h];
        LoweredExtend(dl, g.types, g'.types, Undefined, h);
      }
    }
    forall h: Handle ensures MapEntryOk(dl, g'.types, g'.structMaps, h) {
      if h in g'.structMaps {
        assert MapEntryOk(dl, g.types, g.structMaps, h);
        assert g'.types[h] == g.types[h];
        LayoutExtend(dl, g.types, g'.types, Undefined, h, g.types[h].item.inner.members, 0, 0, [], []);
      }
    }
    forall h: Handle ensures StructMapped(g', h) {
      assert StructMapped(g, h) && TypeEntryOk(dl, g.types, g.typeCache, h);
      if h < |g.types| { assert g'.types[h] == g.types[h]; }
    }
  }

  /** Entering the reference lowering of `ty` into the type cache keeps the caches coherent. */
  lemma CacheTypeCoherent(dl: DataLayout, g: Gen, ty: Handle, t: NativeType)
    requires Coherent(dl, g) && ty < |g.types| && Lowered(dl, g.types, Undefined, ty) == Ok(t)
    requires g.types[ty].item.inner.Struct? ==> ty in g.structMaps
    ensures Coherent(dl, g.(typeCache := g.typeCache[ty := t]))
  {
    var g' := g.(typeCache := g.typeCache[ty := t]);
    forall h: Handle ensures TypeEntryOk(dl, g'.types, g'.typeCache, h) {
      assert TypeEntryOk(dl, g.types, g.typeCache, h);
    }
    forall h: Handle ensures StructMapped(g', h) {
      assert StructMapped(g, h);
    }
  }

  /** Entering the reference storage type of `ty` into the pointer cache keeps the caches coherent. */
  lemma CacheStorageCoherent(dl: DataLayout, g: Gen, ty: Handle, t: NativeType)
    requires Coherent(dl, g) && ty < |g.types| && Storage(dl, g.types, Undefined, ty) == Ok(t)
    ensures Coherent(dl, g.(pointerTypeCache := g.pointerTypeCache[ty := t]))
  {
    var g' := g.(pointerTypeCache := g.pointerTypeCache[ty := t]);
    forall h: Handle ensures StorageEntryOk(dl, g'.types, g'.pointerTypeCache, h) {
      assert StorageEntryOk(dl, g.types, g.pointerTypeCache, h);
    }
    forall h: Handle ensures StructMapped(g', h) {
      assert StructMapped(g, h);
    }
  }

  /** Entering the reference remap table of struct `ty` keeps the caches coherent. */
  lemma CacheMapCoherent(dl: DataLayout, g: Gen, ty: Handle, slots: seq<nat>)
    requires Coherent(dl, g) && ty < |g.types| && g.types[ty].item.inner.Struct?
    requires Layout(dl, g.types, Undefined, ty).Ok? && Layout(dl, g.types, Undefined, ty).value.1 == slots
    ensures Coherent(dl, g.(structMaps := g.structMaps[ty := slots]))
  {
    var g' := g.(structMaps := g.structMaps[ty := slots]);
    forall h: Handle ensures MapEntryOk(dl, g'.types, g'.structMaps, h) {
      assert MapEntryOk(dl, g.types, g.structMaps, h);
    }
    forall h: Handle ensures StructMapped(g', h) {
      assert StructMapped(g, h);
    }
  }

  /**
   * Cache transparency for `eval_cached_type`: from coherent caches it yields
   * exactly the reference lowering, and leaves the caches coherent; a struct
   * it lowers has its remap table afterwards.
   */
  lemma {:induction false} EvalCachedTypeIsLowered(ctx: Ctx, g: Gen, span: Span, ty: Handle)
    requires Coherent(ctx.dl, g) && ty < |g.types|
    ensures var r := EvalCachedType(ctx, g, span, ty);
            && r.out == Lowered(ctx.dl, g.types, span, ty)
            && Coherent(ctx.dl, r.g)
            && (r.out.Ok? && g.types[ty].item.inner.Struct? ==> ty in r.g.structMaps)
    decreases ty, 2
  {
    if ty in g.typeCache {
      assert TypeEntryOk(ctx.dl, g.types, g.typeCache, ty);
      assert StructMapped(g, ty);
      LoweredSpan(ctx.dl, g.types, Undefined, span, ty);
    } else {
      EvalTypeIsLowered(ctx, g, span, ty);
      var r1 := EvalType(ctx, g, span, ty);
      if r1.out.Ok? {
        LoweredSpan(ctx.dl, g.types, span, Undefined, ty);
        assert ty !in r1.g.typeCache;
        CacheTypeCoherent(ctx.dl, r1.g, ty, r1.out.value);
      }
    }
  }

  lemma {:induction false} EvalTypeIsLowered(ctx: Ctx, g: Gen, span: Span, ty: Handle)
    requires Coherent(ctx.dl, g) && ty < |g.types|
    ensures var r := EvalType(ctx, g, span, ty);
            && r.out == Lowered(ctx.dl, g.types, span, ty)
            && Coherent(ctx.dl, r.g)
            && (r.out.Ok? && g.types[ty].item.inner.Struct? ==> ty in r.g.structMaps)
    decreases ty, 1
  {
    match g.types[ty].item.inner
    case Array(base, _, _) =>
      EvalCachedTypeIsLowered(ctx, g, span, base);
    case Struct(members, _) =>
      StructMembersIsLayout(ctx, g, span, ty, members, 0, 0, 0, [], []);
      var r1 := StructMembers(ctx, g, span, ty, members, 0, 0, 0, [], []);
      if r1.out.Ok? {
        LayoutSpan(ctx.dl, g.types, span, Undefined, ty, members, 0, 0, [], []);
        CacheMapCoherent(ctx.dl, r1.g, ty, r1.out.value.1);
      }
    case _ =>
  }

  /**
   * One iteration of the struct member loop, unfolded: `fields1`, `offset1` and
   * `idx1` are the loop's variables after the padding step and `r1` the
   * lowering of member `k`'s type.
   */
  lemma StructMembersUnfold(ctx: Ctx, g: Gen, span: Span, ty: Handle, members: seq<StructMember>,
                            k: nat, offset: U32, idx: nat, fields: seq<NativeType>, slots: seq<nat>,
                            fields1: seq<NativeType>, offset1: U32, idx1: nat, r1: Step<NativeType>)
    requires TypesWf(g.types) && ty < |g.types| && MembersBelow(members, ty) && k < |members|
    requires !(offset < members[k].offset && (members[k].offset - offset) * 8 >= 0x1_0000_0000)
    requires fields1 == if offset < members[k].offset then fields + [IntType((members[k].offset - offset) * 8)] else fields
    requires offset1 == if offset < members[k].offset then members[k].offset else offset
    requires idx1 == if offset < members[k].offset then idx + 1 else idx
    requires r1 == EvalCachedType(ctx, g, span, members[k].ty)
    ensures !r1.out.Ok? ==>
              StructMembers(ctx, g, span, ty, members, k, offset, idx, fields, slots)
                == Step(r1.out.PropagateFailure(), r1.g)
    ensures r1.out.Ok? && offset1 + ctx.dl.abiSize(r1.out.value) % 0x1_0000_0000 >= 0x1_0000_0000 ==>
              StructMembers(ctx, g, span, ty, members, k, offset, idx, fields, slots)
                == Step(Panic(AddOverflow), r1.g)
    ensures r1.out.Ok? && offset1 + ctx.dl.abiSize(r1.out.value) % 0x1_0000_0000 < 0x1_0000_0000 ==>
              StructMembers(ctx, g, span, ty, members, k, offset, idx, fields, slots)
                == StructMembers(ctx, r1.g, span, ty, members, k + 1,
                                 offset1 + ctx.dl.abiSize(r1.out.value) % 0x1_0000_0000, idx1 + 1,
                                 fields1 + [r1.out.value], slots + [idx1])
  {
  }

  /** One member of the reference layout, unfolded, with `t` the reference lowering of its type. */
  lemma LayoutUnfold(dl: DataLayout, types: TypeArena, span: Span, ty: Handle, members: seq<StructMember>,
                     k: nat, offset: U32, fields: seq<NativeType>, slots: seq<nat>,
                     fields1: seq<NativeType>, offset1: U32, t: Outcome<NativeType>)
    requires TypesWf(types) && ty < |types| && MembersBelow(members, ty) && k < |members|
    requires !(offset < members[k].offset && (members[k].offset - offset) * 8 >= 0x1_0000_0000)
    requires fields1 == if offset < members[k].offset then fields + [IntType((members[k].offset - offset) * 8)] else fields
    requires offset1 == if offset < members[k].offset then members[k].offset else offset
    requires t == Lowered(dl, types, span, members[k].ty)
    ensures !t.Ok? ==> LoweredLayout(dl, types, span, ty, members, k, offset, fields, slots) == t.PropagateFailure()
    ensures t.Ok? && offset1 + dl.abiSize(t.value) % 0x1_0000_0000 >= 0x1_0000_0000 ==>
              LoweredLayout(dl, types, span, ty, members, k, offset, fields, slots) == Panic(AddOverflow)
    ensures t.Ok? && offset1 + dl.abiSize(t.value) % 0x1_0000_0000 < 0x1_0000_0000 ==>
              LoweredLayout(dl, types, span, ty, members, k, offset, fields, slots)
                == LoweredLayout(dl, types, span, ty, members, k + 1,
                                 offset1 + dl.abiSize(t.value) % 0x1_0000_0000,
                                 fields1 + [t.value], slots + [|fields1|])
  {
  }

  /**
   * The struct member loop from coherent caches computes the reference layout
   * (the same padding fields, member types and remap table, and the same
   * panics and errors) and leaves the caches coherent.
   */
  lemma {:induction false} StructMembersIsLayout(ctx: Ctx, g: Gen, span: Span, ty: Handle, members: seq<StructMember>,
                                                 k: nat, offset: U32, idx: nat,
                                                 fields: seq<NativeType>, slots: seq<nat>)
    requires Coherent(ctx.dl, g) && ty < |g.types| && MembersBelow(members, ty) && k <= |members|
    requires idx == |fields|
    ensures StructMembers(ctx, g, span, ty, members, k, offset, idx, fields, slots).out
              == LoweredLayout(ctx.dl, g.types, span, ty, members, k, offset, fields, slots)
    ensures Coherent(ctx.dl, StructMembers(ctx, g, span, ty, members, k, offset, idx, fields, slots).g)
    decreases ty, 0, |members| - k, 1
  {
    if k < |members| && !(offset < members[k].offset && (members[k].offset - offset) * 8 >= 0x1_0000_0000) {
      EvalCachedTypeIsLowered(ctx, g, span, members[k].ty);
      var r1 := EvalCachedType(ctx, g, span, members[k].ty);
      var target := members[k].offset;
      if offset < target {
        MemberRest(ctx, g, span, ty, members, k, offset, idx, fields, slots,
                   fields + [IntType((target - offset) * 8)], target, idx + 1, r1);
      } else {
        MemberRest(ctx, g, span, ty, members, k, offset, idx, fields, slots, fields, offset, idx, r1);
      }
    }
  }

  /**
   * Member `k` of the struct member loop once its padding is decided
   * (`fields1`, `offset1` and `idx1` are the loop's variables after the
   * padding step) and its type lowered to `r1` as the reference does.
   */
  lemma {:induction false} MemberRest(ctx: Ctx, g: Gen, span: Span, ty: Handle, members: seq<StructMember>,
                       k: nat, offset: U32, idx: nat, fields: seq<NativeType>, slots: seq<nat>,
                       fields1: seq<NativeType>, offset1: U32, idx1: nat, r1: Step<NativeType>)
    requires Coherent(ctx.dl, g) && ty < |g.types| && MembersBelow(members, ty) && k < |members|
    requires idx == |fields|
    requires !(offset < members[k].offset && (members[k].offset - offset) * 8 >= 0x1_0000_0000)
    requires fields1 == if offset < members[k].offset then fields + [IntType((members[k].offset - offset) * 8)] else fields
    requires offset1 == if offset < members[k].offset then members[k].offset else offset
    requires idx1 == if offset < members[k].offset then idx + 1 else idx
    requires r1 == EvalCachedType(ctx, g, span, members[k].ty)
    requires r1.out == Lowered(ctx.dl, g.types, span, members[k].ty) && Coherent(ctx.dl, r1.g)
    ensures StructMembers(ctx, g, span, ty, members, k, offset, idx, fields, slots).out
              == LoweredLayout(ctx.dl, g.types, span, ty, members, k, offset, fields, slots)
    ensures Coherent(ctx.dl, StructMembers(ctx, g, span, ty, members, k, offset, idx, fields, slots).g)
    decreases ty, 0, |members| - k, 0
  {
    if r1.out.Ok? && offset1 + ctx.dl.abiSize(r1.out.value) % 0x1_0000_0000 < 0x1_0000_0000 {
      StructMembersIsLayout(ctx, r1.g, span, ty, members, k + 1,
                            offset1 + ctx.dl.abiSize(r1.out.value) % 0x1_0000_0000, idx1 + 1,
                            fields1 + [r1.out.value], slots + [idx1]);
    }
    MemberIsLayout(ctx, g, span, ty, members, k, offset, idx, fields, slots, fields1, offset1, idx1, r1);
  }

  /**
   * One member of the struct member loop, from the rest of the loop: given
   * that member `k`'s type lowered to `r1` as the reference does, and that
   * the loop from member `k + 1` on computes the reference layout and keeps
   * the caches coherent, so does the loop from member `k`.
   */
  lemma MemberIsLayout(ctx: Ctx, g: Gen, span: Span, ty: Handle, members: seq<StructMember>,
                       k: nat, offset: U32, idx: nat, fields: seq<NativeType>, slots: seq<nat>,
                       fields1: seq<NativeType>, offset1: U32, idx1: nat, r1: Step<NativeType>)
    requires Coherent(ctx.dl, g) && ty < |g.types| && MembersBelow(members, ty) && k < |members|
    requires idx == |fields|
    requires !(offset < members[k].offset && (members[k].offset - offset) * 8 >= 0x1_0000_0000)
    requires fields1 == if offset < members[k].offset then fields + [IntType((members[k].offset - offset) * 8)] else fields
    requires offset1 == if offset < members[k].offset then members[k].offset else offset
    requires idx1 == if offset < members[k].offset then idx + 1 else idx
    requires r1 == EvalCachedType(ctx, g, span, members[k].ty)
    requires r1.out == Lowered(ctx.dl, g.types, span, members[k].ty) && Coherent(ctx.dl, r1.g)
    requires r1.out.Ok? && offset1 + ctx.dl.abiSize(r1.out.value) % 0x1_0000_0000 < 0x1_0000_0000 ==>
               var next := StructMembers(ctx, r1.g, span, ty, members, k + 1,
                                         offset1 + ctx.dl.abiSize(r1.out.value) % 0x1_0000_0000, idx1 + 1,
                                         fields1 + [r1.out.value], slots + [idx1]);
               && next.out == LoweredLayout(ctx.dl, r1.g.types, span, ty, members, k + 1,
                                            offset1 + ctx.dl.abiSize(r1.out.value) % 0x1_0000_0000,
                                            fields1 + [r1.out.value], slots + [idx1])
               && Coherent(ctx.dl, next.g)
    ensures StructMembers(ctx, g, span, ty, members, k, offset, idx, fields, slots).out
              == LoweredLayout(ctx.dl, g.types, span, ty, members, k, offset, fields, slots)
    ensures Coherent(ctx.dl, StructMembers(ctx, g, span, ty, members, k, offset, idx, fields, slots).g)
  {
    StructMembersUnfold(ctx, g, span, ty, members, k, offset, idx, fields, slots, fields1, offset1, idx1, r1);
    LayoutUnfold(ctx.dl, g.types, span, ty, members, k, offset, fields, slots, fields1, offset1, r1.out);
    assert r1.g.types == g.types;
  }

  /**
   * `eval_cached_pointer_type` from coherent caches: a cached entry is
   * returned unchanged, and otherwise the result is the reference storage type
   * (a matrix as an array of columns, anything else its value type).
   */
  lemma EvalCachedPointerTypeIsStorage(ctx: Ctx, g: Gen, span: Span, ty: Handle)
    requires Coherent(ctx.dl, g) && ty < |g.types|
    ensures var r := EvalCachedPointerType(ctx, g, span, ty);
            && r.out == Storage(ctx.dl, g.types, span, ty)
            && Coherent(ctx.dl, r.g)
  {
    var r := EvalCachedPointerType(ctx, g, span, ty);
    var matrix := g.types[ty].item.inner.Matrix?;
    if ty in g.pointerTypeCache {
      assert StorageEntryOk(ctx.dl, g.types, g.pointerTypeCache, ty);
      if !matrix {
        LoweredSpan(ctx.dl, g.types, Undefined, span, ty);
      }
    } else if matrix {
      var t := Storage(ctx.dl, g.types, span, ty);
      if t.Ok? {
        assert Storage(ctx.dl, g.types, Undefined, ty) == t;
        CacheStorageCoherent(ctx.dl, g, ty, t.value);
      }
    } else if ty in g.typeCache {
      assert TypeEntryOk(ctx.dl, g.types, g.typeCache, ty);
      LoweredSpan(ctx.dl, g.types, Undefined, span, ty);
    } else {
      EvalTypeIsLowered(ctx, g, span, ty);
      var r2 := EvalType(ctx, g, span, ty);
      if r2.out.Ok? {
        LoweredSpan(ctx.dl, g.types, span, Undefined, ty);
        CacheStorageCoherent(ctx.dl, r2.g, ty, r2.out.value);
      }
    }
  }

  /**
   * The shape of a packed struct layout after `k` members: one remap entry per
   * member, strictly increasing, each naming the field that holds the member's
   * lowered type; every other field is integer padding of a whole number of
   * bytes.
   */
  ghost predicate LayoutShape(dl: DataLayout, types: TypeArena, span: Span, members: seq<StructMember>,
                              k: nat, fields: seq<NativeType>, slots: seq<nat>)
  {
    && TypesWf(types) && k <= |members| && |slots| == k
    && (forall j :: 0 <= j < k ==>
          && members[j].ty < |types| && slots[j] < |fields|
          && Lowered(dl, types, span, members[j].ty) == Ok(fields[slots[j]]))
    && (forall i, j :: 0 <= i < j < k ==> slots[i] < slots[j])
    && (forall p :: 0 <= p < |fields| && p !in slots ==>
          fields[p].IntType? && fields[p].bits > 0 && fields[p].bits % 8 == 0)
  }

  lemma {:induction false} LoweredLayoutShape(dl: DataLayout, types: TypeArena, span: Span, ty: Handle,
                                              members: seq<StructMember>, k: nat, offset: U32,
                                              fields: seq<NativeType>, slots: seq<nat>)
    requires TypesWf(types) && ty < |types| && MembersBelow(members, ty) && k <= |members|
    requires LayoutShape(dl, types, span, members, k, fields, slots)
    ensures var r := LoweredLayout(dl, types, span, ty, members, k, offset, fields, slots);
            r.Ok? ==> LayoutShape(dl, types, span, members, |members|, r.value.0, r.value.1)
    decreases |members| - k
  {
    if k < |members| && !(offset < members[k].offset && (members[k].offset - offset) * 8 >= 0x1_0000_0000) {
      var target := members[k].offset;
      var fields1 := if offset < target then fields + [IntType((target - offset) * 8)] else fields;
      var offset1: U32 := if offset < target then target else offset;
      var t := Lowered(dl, types, span, members[k].ty);
      LayoutUnfold(dl, types, span, ty, members, k, offset, fields, slots, fields1, offset1, t);
      if t.Ok? && offset1 + dl.abiSize(t.value) % 0x1_0000_0000 < 0x1_0000_0000 {
        var pad := if offset < target then (target - offset) * 8 else 8;
        LayoutShapeStep(dl, types, span, ty, members, k, fields, slots, fields1, pad, t.value);
        LoweredLayoutShape(dl, types, span, ty, members, k + 1, offset1 + dl.abiSize(t.value) % 0x1_0000_0000,
                           fields1 + [t.value], slots + [|fields1|]);
      }
    }
  }

  /** Member `k` placed after optional padding extends the layout shape by one member. */
  lemma LayoutShapeStep(dl: DataLayout, types: TypeArena, span: Span, ty: Handle, members: seq<StructMember>,
                        k: nat, fields: seq<NativeType>, slots: seq<nat>, fields1: seq<NativeType>, pad: nat,
                        t: NativeType)
    requires TypesWf(types) && ty < |types| && MembersBelow(members, ty) && k < |members|
    requires LayoutShape(dl, types, span, members, k, fields, slots)
    requires pad > 0 && pad % 8 == 0 && (fields1 == fields || fields1 == fields + [IntType(pad)])
    requires Lowered(dl, types, span, members[k].ty) == Ok(t)
    ensures LayoutShape(dl, types, span, members, k + 1, fields1 + [t], slots + [|fields1|])
  {
    var fields2 := fields1 + [t];
    var slots2 := slots + [|fields1|];
    forall p | 0 <= p < |fields2| && p !in slots2
      ensures fields2[p].IntType? && fields2[p].bits > 0 && fields2[p].bits % 8 == 0
    {
      if p < |fields| {
        assert p !in slots by { assert slots2 == slots + [|fields1|]; }
        assert fields2[p] == fields[p];
      }
    }
    forall j | 0 <= j < k + 1
      ensures members[j].ty < |types| && slots2[j] < |fields2| && Lowered(dl, types, span, members[j].ty) == Ok(fields2[slots2[j]])
    {
      if j < k { assert fields2[slots2[j]] == fields[slots[j]]; }
    }
  }

  /**
   * The layout of a struct type that lowers: `StructType(fields, packed)` whose
   * remap table has one strictly increasing entry per member, each member
   * lowered in its slot and padding everywhere else.
   */
  lemma StructLayoutShape(dl: DataLayout, types: TypeArena, span: Span, ty: Handle)
    requires TypesWf(types) && ty < |types| && types[ty].item.inner.Struct?
    ensures var members := types[ty].item.inner.members;
            var l := Layout(dl, types, span, ty);
            && (l.Ok? ==> LayoutShape(dl, types, span, members, |members|, l.value.0, l.value.1))
            && (Lowered(dl, types, span, ty).Ok? <==> l.Ok?)
            && (l.Ok? ==> Lowered(dl, types, span, ty) == Ok(StructType(l.value.0, true)))
  {
    LoweredLayoutShape(dl, types, span, ty, types[ty].item.inner.members, 0, 0, [], []);
  }

  /**
   * After `eval_cached_type` lowers a struct type from coherent caches, its
   * remap table is in `struct_maps`: one strictly increasing entry per member,
   * each the field of the lowered struct that holds that member.
   */
  lemma CachedStructMap(ctx: Ctx, g: Gen, span: Span, ty: Handle)
    requires Coherent(ctx.dl, g) && ty < |g.types| && g.types[ty].item.inner.Struct?
    ensures var r := EvalCachedType(ctx, g, span, ty);
            var members := g.types[ty].item.inner.members;
            r.out.Ok? ==>
              && ty in r.g.structMaps
              && r.out.value.StructType?
              && LayoutShape(ctx.dl, g.types, Undefined, members, |members|, r.out.value.fields, r.g.structMaps[ty])
  {
    EvalCachedTypeIsLowered(ctx, g, span, ty);
    var r := EvalCachedType(ctx, g, span, ty);
    if r.out.Ok? {
      assert MapEntryOk(ctx.dl, r.g.types, r.g.structMaps, ty);
      StructLayoutShape(ctx.dl, g.types, Undefined, ty);
      LoweredSpan(ctx.dl, g.types, span, Undefined, ty);
    }
  }

  /** `get_pointee` keeps the arena well-formed, and a pointee handle exists. */
  lemma GetPointeeWf(types: TypeArena, ty: Handle)
    requires TypesWf(types) && ty < |types|
    ensures var r := GetPointee(types, ty);
            TypesWf(r.1) && (r.0.Some? ==> r.0.value.0 < |r.1|)
  {
    match types[ty].item.inner
    case ValuePointer(Some(size), scalar, _) => InsertWf(types, Type(None, Vector(size, scalar)), types[ty].span);
    case ValuePointer(None, scalar, _) => InsertWf(types, Type(None, ScalarType(scalar)), types[ty].span);
    case _ =>
  }

  /** Asking again for the pointee interns nothing new: the same handle in the same arena. */
  lemma GetPointeeAgain(types: TypeArena, ty: Handle)
    requires TypesWf(types) && ty < |types|
    ensures var r := GetPointee(types, ty);
            GetPointee(r.1, ty) == r
  {
    var r := GetPointee(types, ty);
    assert r.1[ty] == types[ty];
    match types[ty].item.inner
    case ValuePointer(Some(size), scalar, _) =>
      InsertWf(types, Type(None, Vector(size, scalar)), types[ty].span);
      InsertAgainSharesHandle(r.1, Type(None, Vector(size, scalar)), r.0.value.0, types[ty].span);
    case ValuePointer(None, scalar, _) =>
      InsertWf(types, Type(None, ScalarType(scalar)), types[ty].span);
      InsertAgainSharesHandle(r.1, Type(None, ScalarType(scalar)), r.0.value.0, types[ty].span);
    case _ =>
  }

  /** `item_type` keeps the arena well-formed, and an item handle exists. */
  lemma ItemTypeWf(types: TypeArena, span: Span, ty: Handle, index: Option<nat>)
    requires TypesWf(types) && ty < |types|
    ensures var r := ItemType(types, span, ty, index);
            TypesWf(r.1) && (r.0.Ok? ==> r.0.value < |r.1|)
  {
    match types[ty].item.inner
    case Vector(_, scalar) => InsertWf(types, Type(None, ScalarType(scalar)), types[ty].span);
    case Matrix(_, rows, scalar) => InsertWf(types, Type(None, Vector(rows, scalar)), types[ty].span);
    case Struct(members, _) =>
      if index.Some? && index.value < |members| {
        assert TypeRefsBelow(types[ty].item.inner, ty);
      }
    case _ =>
  }

  /**
   * The item type of `ty` at `index`, as a type: the scalar of a vector, the
   * column vector of a matrix, the element of an array, the member `index`
   * of a struct; nothing else has items.
   */
  ghost function ItemOf(types: TypeArena, ty: Handle, index: Option<nat>): Option<Type>
    requires TypesWf(types) && ty < |types|
  {
    match types[ty].item.inner
    case Vector(_, scalar) => Some(Type(None, ScalarType(scalar)))
    case Matrix(_, rows, scalar) => Some(Type(None, Vector(rows, scalar)))
    case Array(base, _, _) => Some(types[base].item)
    case Struct(members, _) =>
      if index.Some? && index.value < |members| then Some(types[members[index.value].ty].item) else None
    case _ => None
  }

  /** `item_type` finds (or interns) exactly the item type, and fails where there is none. */
  lemma ItemTypeMeaning(types: TypeArena, span: Span, ty: Handle, index: Option<nat>)
    requires TypesWf(types) && ty < |types|
    ensures var r := ItemType(types, span, ty, index);
            && (r.0.Ok? <==> ItemOf(types, ty, index).Some?)
            && (r.0.Ok? ==> r.0.value < |r.1| && r.1[r.0.value].item == ItemOf(types, ty, index).value)
  {
    ItemTypeWf(types, span, ty, index);
    var inner := types[ty].item.inner;
    if inner.Struct? && index.Some? && index.value < |inner.members| {
      assert TypeRefsBelow(inner, ty);
    }
  }

  /**
   * The running `u32` offset of a packed layout after its first `k` members:
   * each member starts at its own offset if that lies beyond the running
   * offset, and advances it by the ABI size of the field in its slot.
   */
  ghost function LayoutEnd(dl: DataLayout, members: seq<StructMember>, fields: seq<NativeType>, slots: seq<nat>,
                           k: nat): int
    requires k <= |members| && k <= |slots| && forall j :: 0 <= j < k ==> slots[j] < |fields|
    decreases k
  {
    if k == 0 then 0
    else
      var end := LayoutEnd(dl, members, fields, slots, k - 1);
      var start := if end < members[k - 1].offset then members[k - 1].offset else end;
      start + dl.abiSize(fields[slots[k - 1]]) % 0x1_0000_0000
  }

  /**
   * Member `j` of a packed layout is preceded by one padding field exactly
   * when its offset lies beyond the running offset, and that field is an
   * integer of exactly the missing bits; otherwise it directly follows the
   * previous member.
   */
  ghost predicate PaddedAt(dl: DataLayout, members: seq<StructMember>, fields: seq<NativeType>, slots: seq<nat>, j: nat)
    requires j < |members| && j < |slots| && forall i :: 0 <= i <= j ==> slots[i] < |fields|
  {
    var before := if j == 0 then 0 else slots[j - 1] + 1;
    var end := LayoutEnd(dl, members, fields, slots, j);
    if end < members[j].offset then
      slots[j] == before + 1 && fields[before] == IntType((members[j].offset - end) * 8)
    else slots[j] == before
  }

  /**
   * The fields of a packed layout after `k` members are exactly the members'
   * fields, each preceded by its padding field if it has one, and nothing
   * after the last member.
   */
  ghost predicate PaddingExact(dl: DataLayout, members: seq<StructMember>, k: nat, fields: seq<NativeType>,
                               slots: seq<nat>)
  {
    && k <= |members| && |slots| == k
    && (forall j :: 0 <= j < k ==> slots[j] < |fields|)
    && |fields| == (if k == 0 then 0 else slots[k - 1] + 1)
    && forall j :: 0 <= j < k ==> PaddedAt(dl, members, fields, slots, j)
  }

  /** The running offset depends only on the fields the first `k` slots name. */
  lemma {:induction false} EndStable(dl: DataLayout, members: seq<StructMember>, fields: seq<NativeType>, slots: seq<nat>,
                                     fields': seq<NativeType>, slots': seq<nat>, k: nat)
    requires k <= |members| && k <= |slots| && k <= |slots'| && fields <= fields'
    requires forall j :: 0 <= j < k ==> slots[j] < |fields| && slots'[j] == slots[j]
    ensures LayoutEnd(dl, members, fields', slots', k) == LayoutEnd(dl, members, fields, slots, k)
    decreases k
  {
    if k > 0 {
      EndStable(dl, members, fields, slots, fields', slots', k - 1);
      assert fields'[slots'[k - 1]] == fields[slots[k - 1]];
    }
  }

  /** Placing member `k` after its padding (if any) keeps the padding exact and advances the running offset. */
  lemma PaddingStep(dl: DataLayout, members: seq<StructMember>, k: nat, offset: U32, fields: seq<NativeType>,
                    slots: seq<nat>, fields1: seq<NativeType>, t: NativeType)
    requires k < |members| && PaddingExact(dl, members, k, fields, slots)
    requires offset == LayoutEnd(dl, members, fields, slots, k)
    requires fields1 == if offset < members[k].offset then fields + [IntType((members[k].offset - offset) * 8)] else fields
    ensures PaddingExact(dl, members, k + 1, fields1 + [t], slots + [|fields1|])
    ensures LayoutEnd(dl, members, fields1 + [t], slots + [|fields1|], k + 1)
            == (if offset < members[k].offset then members[k].offset else offset) + dl.abiSize(t) % 0x1_0000_0000
  {
    var fields2 := fields1 + [t];
    var slots2 := slots + [|fields1|];
    forall j | 0 <= j <= k
      ensures LayoutEnd(dl, members, fields2, slots2, j) == LayoutEnd(dl, members, fields, slots, j)
    {
      EndStable(dl, members, fields, slots, fields2, slots2, j);
    }
    forall j | 0 <= j < k
      ensures PaddedAt(dl, members, fields2, slots2, j)
    {
      assert PaddedAt(dl, members, fields, slots, j);
      var before := if j == 0 then 0 else slots[j - 1] + 1;
      assert before < |fields| ==> fields2[before] == fields[before];
    }
    assert fields2[slots2[k]] == t;
  }

  /** The reference layout from a prefix with exact padding ends with exact padding. */
  lemma {:induction false} LoweredLayoutPadding(dl: DataLayout, types: TypeArena, span: Span, ty: Handle,
                                                members: seq<StructMember>, k: nat, offset: U32,
                                                fields: seq<NativeType>, slots: seq<nat>)
    requires TypesWf(types) && ty < |types| && MembersBelow(members, ty) && k <= |members|
    requires PaddingExact(dl, members, k, fields, slots) && offset == LayoutEnd(dl, members, fields, slots, k)
    ensures var r := LoweredLayout(dl, types, span, ty, members, k, offset, fields, slots);
            r.Ok? ==> PaddingExact(dl, members, |members|, r.value.0, r.value.1)
    decreases |members| - k
  {
    if k < |members| && !(offset < members[k].offset && (members[k].offset - offset) * 8 >= 0x1_0000_0000) {
      var target := members[k].offset;
      var fields1 := if offset < target then fields + [IntType((target - offset) * 8)] else fields;
      var offset1: U32 := if offset < target then target else offset;
      var t := Lowered(dl, types, span, members[k].ty);
      LayoutUnfold(dl, types, span, ty, members, k, offset, fields, slots, fields1, offset1, t);
      if t.Ok? && offset1 + dl.abiSize(t.value) % 0x1_0000_0000 < 0x1_0000_0000 {
        PaddingStep(dl, members, k, offset, fields, slots, fields1, t.value);
        LoweredLayoutPadding(dl, types, span, ty, members, k + 1, offset1 + dl.abiSize(t.value) % 0x1_0000_0000,
                             fields1 + [t.value], slots + [|fields1|]);
      }
    }
  }

  /**
   * A struct type's reference layout, when it exists, pads exactly: one
   * integer field of the missing bits before each member whose offset lies
   * beyond the end of the previous one, and no other padding.
   */
  lemma StructLayoutPadding(dl: DataLayout, types: TypeArena, span: Span, ty: Handle)
    requires TypesWf(types) && ty < |types| && types[ty].item.inner.Struct?
    ensures var members := types[ty].item.inner.members;
            var l := Layout(dl, types, span, ty);
            l.Ok? ==> PaddingExact(dl, members, |members|, l.value.0, l.value.1)
  {
    assert TypeRefsBelow(types[ty].item.inner, ty);
    LoweredLayoutPadding(dl, types, span, ty, types[ty].item.inner.members, 0, 0, [], []);
  }

  /** A `u32` scalar, and a struct of three `u32` members at byte offsets 0, 4 and 16. */
  const ExampleArena: TypeArena := [
    Spanned(Type(None, ScalarType(U32Scalar)), Undefined),
    Spanned(Type(None, Struct([StructMember(None, 0, 0), StructMember(None, 0, 4), StructMember(None, 0, 16)], 20)),
            Undefined)]

  /**
   * With 4-byte `i32` fields, the example struct lowers to two adjacent
   * members, 64 bits of padding (bytes 8 to 16) and the third member: the
   * remap table is `[0, 1, 3]`.
   */
  lemma ExampleLayout(dl: DataLayout)
    requires dl.abiSize(IntType(32)) == 4
    ensures TypesWf(ExampleArena)
    ensures Layout(dl, ExampleArena, Undefined, 1) == Ok(([IntType(32), IntType(32), IntType(64), IntType(32)], [0, 1, 3]))
  {
    assert TypesWf(ExampleArena) by {
      assert ExampleArena[0].item != ExampleArena[1].item;
    }
    var members := ExampleArena[1].item.inner.members;
    var i32 := IntType(32);
    var t := Lowered(dl, ExampleArena, Undefined, 0);
    assert t == Ok(i32);
    assert MembersBelow(members, 1);
    LayoutUnfold(dl, ExampleArena, Undefined, 1, members, 0, 0, [], [], [], 0, t);
    LayoutUnfold(dl, ExampleArena, Undefined, 1, members, 1, 4, [i32], [0], [i32], 4, t);
    LayoutUnfold(dl, ExampleArena, Undefined, 1, members, 2, 8, [i32, i32], [0, 1], [i32, i32, IntType(64)], 16, t);
    assert dl.abiSize(i32) % 0x1_0000_0000 == 4;
    assert [] + [i32] == [i32] && [] + [0] == [0];
    assert [i32] + [i32] == [i32, i32] && [0] + [1] == [0, 1];
    assert [i32, i32, IntType(64)] + [i32] == [i32, i32, IntType(64), i32] && [0, 1] + [3] == [0, 1, 3];
  }
}
