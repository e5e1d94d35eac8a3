/**
 * The resolution engine of `Appembler` as functions: `assemble` with its
 * touched set, `constructOrRetrieve` with the scope stores, `construct`, and
 * the argument loop of `construct`. Each function returns the result, the
 * touched set after the call, and the stores after the call.
 */
module Resolution {
  import opened Reflection
  import opened Outcomes
  import opened AssemblyParameters
  import opened AssemblyInstructions
  import opened Rules

  /** An execution context (a Java thread). */
  type ThreadId = nat

  /**
   * The mutable state that assembly touches: the singleton cache `instances`,
   * one thread-local cache per thread that has one, and the counter from
   * which new object identities are drawn.
   */
  datatype Stores = Stores(instances: map<Klass, Obj>, threadLocal: map<ThreadId, map<Klass, Obj>>, nextId: nat)

  /** Which cache `constructOrRetrieve` works on: `instances` or the current thread's map. */
  datatype StoreId = Shared | PerThread

  datatype Step = Step(result: Result<Obj>, touched: set<Klass>, stores: Stores)

  datatype ArgsStep = ArgsStep(result: Result<seq<Obj>>, touched: set<Klass>, stores: Stores)

  /** `o` was built by the assembler before identity `bound` was drawn, and is a `k`. */
  predicate Built(rt: Runtime, k: Klass, o: Obj, bound: nat)
  {
    o.Instance? && o.id < bound && rt.IsAssignableFrom(k, o.klass)
  }

  /** Every cached object was built earlier and is an instance of the class it is cached under. */
  ghost predicate StoresValid(rt: Runtime, s: Stores)
  {
    (forall x :: x in s.instances ==> Built(rt, x, s.instances[x], s.nextId)) &&
    (forall th, x :: th in s.threadLocal && x in s.threadLocal[th] ==> Built(rt, x, s.threadLocal[th][x], s.nextId))
  }

  ghost predicate MapExtends(m: map<Klass, Obj>, m': map<Klass, Obj>)
  {
    forall x :: x in m ==> x in m' && m'[x] == m[x]
  }

  /** Nothing is removed or replaced in any cache, and the identity counter never goes back. */
  ghost predicate Extends(s: Stores, s': Stores)
  {
    s.nextId <= s'.nextId &&
    MapExtends(s.instances, s'.instances) &&
    forall th :: th in s.threadLocal ==> th in s'.threadLocal && MapExtends(s.threadLocal[th], s'.threadLocal[th])
  }

  /** No thread other than `t` sees its cache appear, disappear or change. */
  ghost predicate OtherThreadsUnchanged(s: Stores, s': Stores, t: ThreadId)
  {
    forall th :: th != t ==> (th in s.threadLocal <==> th in s'.threadLocal) &&
                             (th in s.threadLocal ==> s'.threadLocal[th] == s.threadLocal[th])
  }

  /** The cache of thread `t`, empty when the thread has none yet. */
  function ThreadStore(s: Stores, t: ThreadId): map<Klass, Obj>
  {
    if t in s.threadLocal then s.threadLocal[t] else map[]
  }

  /** The only classes newly cached (shared, or for thread `t`) are in `entered`. */
  ghost predicate AddsOnly(s: Stores, s': Stores, t: ThreadId, entered: set<Klass>)
  {
    (forall x :: x in s'.instances && x !in s.instances ==> x in entered) &&
    (forall x :: x in ThreadStore(s', t) && x !in ThreadStore(s, t) ==> x in entered)
  }

  /**
   * `threadLocalInstances.get()` for a ThreadLocal created with an initial
   * empty map: the current thread's map, created empty on its first use.
   */
  function InitialThreadStore(s: Stores, t: ThreadId): (s': Stores)
    ensures t in s'.threadLocal && ThreadStore(s', t) == ThreadStore(s, t)
    ensures Extends(s, s') && OtherThreadsUnchanged(s, s', t)
    ensures s'.instances == s.instances && s'.nextId == s.nextId
  {
    if t in s.threadLocal then s else s.(threadLocal := s.threadLocal[t := map[]])
  }

  function Store(s: Stores, w: StoreId, t: ThreadId): map<Klass, Obj>
  {
    if w.Shared? then s.instances else ThreadStore(s, t)
  }

  /** `map.put(k, o)` on the chosen cache. */
  function StorePut(s: Stores, w: StoreId, t: ThreadId, k: Klass, o: Obj): (s': Stores)
    ensures Store(s', w, t) == Store(s, w, t)[k := o] && s'.nextId == s.nextId
    ensures w.Shared? ==> s'.threadLocal == s.threadLocal
    ensures w.PerThread? ==> s'.instances == s.instances && t in s'.threadLocal && OtherThreadsUnchanged(s, s', t)
  {
    if w.Shared? then s.(instances := s.instances[k := o])
    else s.(threadLocal := s.threadLocal[t := ThreadStore(s, t)[k := o]])
  }

  /** An argument fits spec `i`: the literal itself, or a built object of the dependency class. */
  predicate ArgumentFits(rt: Runtime, rule: Rule, i: nat, o: Obj)
    requires rule.WellFormed() && i < |rule.params|
  {
    if rule.params[i].Value? then o == rule.params[i].obj
    else o.Instance? && rt.IsAssignableFrom(rule.Dependency(i), o.klass)
  }

  /**
   * A step from stores `s` and touched set `before` to `s'` and `after`:
   * touched only grows, caches only grow, other threads' caches are left
   * alone, only classes in `added` are newly cached, and every cache stays valid.
   */
  ghost predicate Evolves(rt: Runtime, t: ThreadId, s: Stores, s': Stores, before: set<Klass>, after: set<Klass>, added: set<Klass>)
  {
    before <= after && Extends(s, s') && OtherThreadsUnchanged(s, s', t) && AddsOnly(s, s', t, added) && StoresValid(rt, s')
  }

  lemma EvolvesTransitive(rt: Runtime, t: ThreadId, s1: Stores, s2: Stores, s3: Stores,
                          t1: set<Klass>, t2: set<Klass>, t3: set<Klass>, a1: set<Klass>, a2: set<Klass>, a: set<Klass>)
    requires Evolves(rt, t, s1, s2, t1, t2, a1) && Evolves(rt, t, s2, s3, t2, t3, a2) && a1 + a2 <= a
    ensures Evolves(rt, t, s1, s3, t1, t3, a)
  {
    forall x | x in ThreadStore(s3, t) && x !in ThreadStore(s1, t) ensures x in a {
      if x in ThreadStore(s2, t) {
        assert x in a1;
      }
    }
  }

  /** Caching a newly built object under a class the cache does not hold yet. */
  lemma StorePutEvolves(rt: Runtime, s: Stores, w: StoreId, t: ThreadId, k: Klass, o: Obj, touched: set<Klass>)
    requires StoresValid(rt, s) && Built(rt, k, o, s.nextId)
    requires k !in Store(s, w, t)
    ensures var s' := StorePut(s, w, t, k, o);
      Evolves(rt, t, s, s', touched, touched, {k}) && s'.nextId == s.nextId && k in Store(s', w, t) && Store(s', w, t)[k] == o
  {
  }

  lemma SubsetCard<X>(x: set<X>, y: set<X>)
    requires x <= y
    ensures |x| <= |y|
  {
    if x != {} {
      var e :| e in x;
      SubsetCard(x - {e}, y - {e});
    }
  }

  /** A larger touched set leaves no more classes to enter. */
  lemma LeftShrinks<X>(c: set<X>, a: set<X>, b: set<X>)
    requires a <= b
    ensures |c - b| <= |c - a|
  {
    SubsetCard(c - b, c - a);
  }

  /** Entering a class not yet touched leaves one class fewer to enter, if it was one to enter. */
  lemma EnterShrinks<X>(c: set<X>, a: set<X>, k: X)
    requires k !in a
    ensures |c - (a + {k})| < |c - a| + (if k in c then 0 else 1)
  {
    if k in c {
      assert c - (a + {k}) == (c - a) - {k};
    } else {
      assert c - (a + {k}) == c - a;
    }
  }

  /**
   * `assemble(klass, touched)`: refuse a class already entered in this call;
   * otherwise enter it, find its rule and obtain an instance by the rule's
   * scope. Terminates on every registry: each nested call enters a class of
   * the finite set `reg.Classes()` that was not entered before.
   */
  function Assemble(reg: Registry, t: ThreadId, k: Klass, touched: set<Klass>, s: Stores): (out: Step)
    requires reg.Valid()
    decreases |reg.Classes() - touched| + (if k in reg.Classes() then 0 else 1), 0, 0
    ensures touched + {k} <= out.touched
  {
    if k in touched then Step(Err(CyclicDependency(k)), touched, s)
    else
      var entered := touched + {k};
      match reg.Lookup(k)
      case None => Step(Err(NoAssemblyInstructions(k)), entered, s)
      case Some(rule) =>
        EnterShrinks(reg.Classes(), touched, k);
        match rule.scope
        case Prototype => Construct(reg, t, rule, entered, s)
        case ThreadLocal => ConstructOrRetrieve(reg, t, k, rule, PerThread, entered, InitialThreadStore(s, t))
        case Singleton => ConstructOrRetrieve(reg, t, k, rule, Shared, entered, s)
  }

  /**
   * `constructOrRetrieve`: the object cached under `k` in the chosen cache;
   * on a miss, construct and cache the new object under `k` (the requested
   * class), only once construction has succeeded.
   */
  function ConstructOrRetrieve(reg: Registry, t: ThreadId, k: Klass, rule: Rule, w: StoreId,
                               touched: set<Klass>, s: Stores): (out: Step)
    requires reg.Valid() && rule in reg.rules.Values
    decreases |reg.Classes() - touched|, 2, 0
    ensures touched <= out.touched
  {
    var store := Store(s, w, t);
    if k !in store then
      var c := Construct(reg, t, rule, touched, s);
      match c.result
      case Err(_) => c
      case Ok(instance) => Step(Ok(instance), c.touched, StorePut(c.stores, w, t, k, instance))
    else
      Step(Ok(store[k]), touched, s)
  }

  /** `construct`: build one argument per spec, in order, then invoke the constructor. */
  function Construct(reg: Registry, t: ThreadId, rule: Rule, touched: set<Klass>, s: Stores): (out: Step)
    requires reg.Valid() && rule in reg.rules.Values
    decreases |reg.Classes() - touched|, 1, 0
    ensures touched <= out.touched
  {
    var a := BuildArgs(reg, t, rule, |rule.params|, touched, s);
    match a.result
    case Err(e) => Step(Err(e), a.touched, a.stores)
    case Ok(args) =>
      if rule.ctor.raises then Step(Err(ConstructorFailed(rule.target)), a.touched, a.stores)
      else Step(Ok(Instance(a.stores.nextId, rule.target, args)), a.touched, a.stores.(nextId := a.stores.nextId + 1))
  }

  /** The arguments for the first `n` specs of `rule`, produced left to right; the first failure stops the loop. */
  function BuildArgs(reg: Registry, t: ThreadId, rule: Rule, n: nat, touched: set<Klass>, s: Stores): (out: ArgsStep)
    requires reg.Valid() && rule in reg.rules.Values && n <= |rule.params|
    decreases |reg.Classes() - touched|, 0, n
    ensures touched <= out.touched
  {
    if n == 0 then ArgsStep(Ok([]), touched, s)
    else
      var prev := BuildArgs(reg, t, rule, n - 1, touched, s);
      match prev.result
      case Err(_) => prev
      case Ok(args) =>
        if rule.params[n - 1].Value? then ArgsStep(Ok(args + [rule.params[n - 1].obj]), prev.touched, prev.stores)
        else
          reg.DependencyInClasses(rule, n - 1);
          LeftShrinks(reg.Classes(), touched, prev.touched);
          var r := Assemble(reg, t, rule.Dependency(n - 1), prev.touched, prev.stores);
          match r.result
          case Err(e) => ArgsStep(Err(e), r.touched, r.stores)
          case Ok(o) => ArgsStep(Ok(args + [o]), r.touched, r.stores)
  }
}
