/**
 * The generator's state as a value (the fields of the Rust `Generator`, with
 * the LLVM module and builder reduced to what the lowering appends to them),
 * and the outcome of one lowering step.
 */
module State {
  import opened Wrappers
  import opened Ir
  import opened Native
  import opened Errors

  /**
   * What a fallible operation produced: a value, a returned `Error`, or a Rust
   * panic (`todo!`, an out-of-bounds index, an arithmetic overflow, ...).
   */
  datatype Outcome<T> = Ok(value: T) | Err(error: Error) | Panic(reason: PanicReason)
  {
    predicate IsFailure()
    {
      !Ok?
    }

    function PropagateFailure<U>(): Outcome<U>
      requires IsFailure()
    {
      if Err? then Err(error) else Panic(reason)
    }

    function Extract(): T
      requires Ok?
    {
      value
    }
  }

  /**
   * The Rust panics the model reaches: `todo!()` ("not yet implemented"), an
   * index past the end of a slice, the overflow and division checks of debug
   * builds, the splat of a non-scalar value, a parameter or a local read in a
   * global context, and `unwrap()` on a missing struct remap.
   */
  datatype PanicReason =
    | NotImplemented
    | OutOfBounds
    | MulOverflow
    | AddOverflow
    | DivByZero
    | NonScalarSplat
    | GlobalLocals
    | GlobalParams
    | NoStructMap

  /** A global added to the LLVM module, and its initializer once set. */
  datatype NativeGlobal = NativeGlobal(name: string, globalTy: NativeType, init: Option<Value>)

  /** A function added to the LLVM module; its entry block starts at log position `entry`. */
  datatype NativeFunction = NativeFunction(name: string, fnTy: NativeType, entry: nat)

  /**
   * The generator state: the source type arena (the generator interns into it),
   * the instructions built so far, the three caches, the lowered globals, the
   * struct member remap tables, and the globals and functions of the LLVM module.
   */
  datatype Gen = Gen(
    types: TypeArena,
    log: seq<Instr>,
    exprCache: map<Handle, (Value, Handle)>,
    typeCache: map<Handle, NativeType>,
    pointerTypeCache: map<Handle, NativeType>,
    globals: seq<(Value, Handle)>,
    structMaps: map<Handle, seq<nat>>,
    moduleGlobals: seq<NativeGlobal>,
    moduleFunctions: seq<NativeFunction>)

  /** A fresh generator over the source's type arena (`Generator::new`). */
  function NewGen(types: TypeArena): Gen
  {
    Gen(types, [], map[], map[], map[], [], map[], [], [])
  }

  /** The outcome of a step together with the state it leaves behind. */
  datatype Step<T> = Step(out: Outcome<T>, g: Gen)
  {
    predicate IsFailure()
    {
      out.IsFailure()
    }

    function PropagateFailure<U>(): Step<U>
      requires IsFailure()
    {
      Step(out.PropagateFailure(), g)
    }

    function Extract(): (T, Gen)
      requires !IsFailure()
    {
      (out.value, g)
    }
  }

  /** What every lowering step can see but not change: the source module and the data layout. */
  datatype Ctx = Ctx(src: Src, dl: DataLayout)

  /** Appends one instruction to the function body; its result names its log position. */
  function Build(g: Gen, instr: Instr): (r: (Value, Gen))
    ensures r.0 == Inst(|g.log|, instr) && r.1.log == g.log + [instr]
    ensures r.1 == g.(log := r.1.log)
  {
    (Inst(|g.log|, instr), g.(log := g.log + [instr]))
  }

  /**
   * `map.entry(k).or_insert(v)`: the value already present for `k`, or `v`
   * entered for `k`.
   */
  function OrInsert<K, V>(m: map<K, V>, k: K, v: V): (r: (V, map<K, V>))
    ensures k in r.1 && r.1[k] == r.0
    ensures k in m ==> r == (m[k], m)
    ensures k !in m ==> r == (v, m[k := v])
  {
    if k in m then (m[k], m) else (v, m[k := v])
  }

  /** `types.insert` on the generator's arena. */
  function Intern(g: Gen, ty: Type, span: Span): (r: (Handle, Gen))
    ensures r.1 == g.(types := r.1.types)
    ensures (r.1.types, r.0) == Insert(g.types, ty, span)
  {
    var (types, h) := Insert(g.types, ty, span);
    (h, g.(types := types))
  }

  /**
   * The state invariant: the type arena is well-formed, and every type handle
   * held in the expression cache and the globals list exists.
   */
  ghost predicate Sound(g: Gen)
  {
    && TypesWf(g.types)
    && (forall h :: h in g.exprCache ==> g.exprCache[h].1 < |g.types|)
    && (forall i :: 0 <= i < |g.globals| ==> g.globals[i].1 < |g.types|)
  }

  /** Every entry of the expression cache `m` is still in `m'`, unchanged. */
  ghost predicate CacheKept(m: map<Handle, (Value, Handle)>, m': map<Handle, (Value, Handle)>)
  {
    forall h :: h in m ==> h in m' && m'[h] == m[h]
  }

  /** The lowered globals and the globals and functions of the LLVM module are untouched. */
  ghost predicate ModuleKept(g: Gen, g': Gen)
  {
    g'.globals == g.globals && g'.moduleGlobals == g.moduleGlobals && g'.moduleFunctions == g.moduleFunctions
  }

  /**
   * `g'` extends `g`: the type arena and the instruction log only grow, no
   * expression-cache entry is dropped or replaced, and the module's globals
   * and functions are untouched.
   */
  ghost predicate Grows(g: Gen, g': Gen)
  {
    g.types <= g'.types && g.log <= g'.log && CacheKept(g.exprCache, g'.exprCache) && ModuleKept(g, g')
  }

  lemma GrowsTrans(g1: Gen, g2: Gen, g3: Gen)
    requires Grows(g1, g2) && Grows(g2, g3)
    ensures Grows(g1, g3)
  {
  }

  /**
   * A step that evaluates no expression: the arena stays well-formed and only
   * grows, the log only grows, and the expression cache and the module's
   * globals and functions are untouched.
   */
  ghost predicate Advances(g: Gen, g': Gen)
  {
    && TypesWf(g'.types) && g.types <= g'.types && g.log <= g'.log
    && g'.exprCache == g.exprCache && ModuleKept(g, g')
  }

  lemma AdvancesSound(g: Gen, g': Gen)
    requires Sound(g) && Advances(g, g')
    ensures Sound(g') && Grows(g, g')
  {
  }

  /** Interning a type whose references exist is such a step. */
  lemma InternAdvances(g: Gen, ty: Type, span: Span)
    requires TypesWf(g.types) && TypeRefsBelow(ty.inner, |g.types|)
    ensures Advances(g, Intern(g, ty, span).1)
  {
    InsertWf(g.types, ty, span);
  }
}
