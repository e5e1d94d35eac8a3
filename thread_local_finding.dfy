/**
 * The THREAD_LOCAL branch of `assemble` as the code is written, next to the
 * corrected branch the rest of the model uses.
 *
 * As written, `threadLocalInstances` is a `new ThreadLocal<>()`: its initial
 * value is null, and no code ever calls `set`. So `get()` returns null on
 * every thread, and `constructOrRetrieve` dereferences that null at its first
 * statement (`map.get(klass)`). Every request that reaches a THREAD_LOCAL
 * rule throws a NullPointerException.
 *
 * The evidently intended behaviour is a ThreadLocal with an empty map as its
 * initial value: each thread gets its own cache on first use. That is
 * `Resolution.InitialThreadStore`, which `Resolution.Assemble` uses.
 */
module ThreadLocalFinding {
  import opened Reflection
  import opened Outcomes
  import opened AssemblyParameters
  import opened AssemblyInstructions
  import opened Rules
  import opened Resolution
  import opened ResolutionInvariants
  import opened ResolutionProperties

  /**
   * `threadLocalInstances.get()` as written: the value this thread set, or
   * null (None) when it set none.
   */
  function ThreadLocalGetAsWritten(s: Stores, t: ThreadId): (m: Option<map<Klass, Obj>>)
    ensures m.None? <==> t !in s.threadLocal
    ensures m.Some? ==> m.value == ThreadStore(s, t)
  {
    if t in s.threadLocal then Some(s.threadLocal[t]) else None
  }

  /**
   * The THREAD_LOCAL case of `assemble` as written: `constructOrRetrieve` on
   * the map that `get()` returned, which throws at `map.get(klass)` when that
   * map is null.
   */
  function ThreadLocalBranchAsWritten(reg: Registry, t: ThreadId, k: Klass, rule: Rule,
                                      touched: set<Klass>, s: Stores): (out: Step)
    requires reg.Valid() && rule in reg.rules.Values
    ensures t !in s.threadLocal ==> out == Step(Err(NullPointer), touched, s)
    ensures t in s.threadLocal ==> out == ConstructOrRetrieve(reg, t, k, rule, PerThread, touched, s)
  {
    match ThreadLocalGetAsWritten(s, t)
    case None => Step(Err(NullPointer), touched, s)
    case Some(_) => ConstructOrRetrieve(reg, t, k, rule, PerThread, touched, s)
  }

  /**
   * As written, nothing ever stores a map in `threadLocalInstances`, so the
   * thread-local caches stay empty (`s.threadLocal == map[]`). In that state
   * every request that reaches a THREAD_LOCAL rule fails with a null
   * dereference, on every thread, whatever the rule.
   */
  lemma ThreadLocalAlwaysNullAsWritten(reg: Registry, t: ThreadId, k: Klass, rule: Rule, touched: set<Klass>, s: Stores)
    requires reg.Valid() && rule in reg.rules.Values && s.threadLocal == map[]
    ensures ThreadLocalBranchAsWritten(reg, t, k, rule, touched, s) == Step(Err(NullPointer), touched, s)
  {
  }

  /** A class `Counter` with one public no-argument constructor that does not throw. */
  function CounterClass(): Klass
  {
    Klass("Counter")
  }

  function CounterRule(): Rule
  {
    Rule(CounterClass(), Ctor([], false), ThreadLocal, [])
  }

  /** An assembler on which only `Counter` is registered, as THREAD_LOCAL. */
  function CounterRegistry(): (reg: Registry)
    ensures reg.Valid() && reg.Lookup(CounterClass()) == Some(CounterRule())
  {
    var reg := Registry(Runtime(map[CounterClass() := [Ctor([], false)]], {}), map[CounterClass() := CounterRule()], [CounterClass()]);
    assert CounterClass() in reg.rules;
    reg
  }

  /**
   * The input that shows the finding: `assemble(Counter.class)` on a fresh
   * assembler. As written it throws a NullPointerException; with the
   * corrected ThreadLocal it returns a new `Counter` and caches it for the
   * calling thread.
   */
  lemma ThreadLocalCounterexample(t: ThreadId)
    ensures var s := Stores(map[], map[], 0);
      ThreadLocalBranchAsWritten(CounterRegistry(), t, CounterClass(), CounterRule(), {CounterClass()}, s).result == Err(NullPointer)
    ensures var s := Stores(map[], map[], 0);
      var out := Assemble(CounterRegistry(), t, CounterClass(), {}, s);
      out.result == Ok(Instance(0, CounterClass(), [])) &&
      ThreadStore(out.stores, t) == map[CounterClass() := Instance(0, CounterClass(), [])]
  {
    var reg, k, rule, s := CounterRegistry(), CounterClass(), CounterRule(), Stores(map[], map[], 0);
    AssembleDispatch(reg, t, k, rule, {}, s);
    var s1 := InitialThreadStore(s, t);
    assert k !in ThreadStore(s1, t);
    assert BuildArgs(reg, t, rule, 0, {k}, s1) == ArgsStep(Ok([]), {k}, s1);
  }

  /**
   * The corrected THREAD_LOCAL branch never dereferences a missing map: when
   * construction succeeds, the request succeeds with the constructed object,
   * and the object is cached for the calling thread under the requested class.
   */
  lemma ThreadLocalCorrectedSucceeds(reg: Registry, t: ThreadId, k: Klass, rule: Rule, touched: set<Klass>, s: Stores)
    requires reg.Valid() && StoresValid(reg.rt, s) && k !in touched && reg.Lookup(k) == Some(rule) && rule.scope == ThreadLocal
    requires k !in ThreadStore(s, t)
    requires Construct(reg, t, rule, touched + {k}, InitialThreadStore(s, t)).result.Ok?
    ensures var out := Assemble(reg, t, k, touched, s);
      var o := Construct(reg, t, rule, touched + {k}, InitialThreadStore(s, t)).result.value;
      out.result == Ok(o) && k in ThreadStore(out.stores, t) && ThreadStore(out.stores, t)[k] == o
  {
    AssembleDispatch(reg, t, k, rule, touched, s);
    var s1 := InitialThreadStore(s, t);
    assert k !in Store(s1, PerThread, t);
  }
}
