/**
 * What every resolution step keeps: the touched set only grows, caches only
 * grow and stay valid, other threads' caches are untouched, only entered
 * classes are newly cached, and results are built objects of the requested
 * class. Proved by induction along the resolution itself.
 */
module ResolutionInvariants {
  import opened Reflection
  import opened Outcomes
  import opened AssemblyParameters
  import opened AssemblyInstructions
  import opened Rules
  import opened Resolution

  /** What a call of `assemble(k)` keeps and returns: an evolution step and, on success, a built `k`. */
  ghost predicate AssembleKeeps(rt: Runtime, t: ThreadId, k: Klass, touched: set<Klass>, s: Stores, out: Step)
  {
    Evolves(rt, t, s, out.stores, touched, out.touched, out.touched - touched) &&
    (out.result.Ok? ==> Built(rt, k, out.result.value, out.stores.nextId))
  }

  /** Every argument in `args` fits its spec, and every dependency behind them has been entered. */
  ghost predicate ArgsFit(rt: Runtime, rule: Rule, args: seq<Obj>, touched: set<Klass>)
    requires rule.WellFormed() && |args| <= |rule.params|
  {
    forall i :: 0 <= i < |args| ==>
      ArgumentFits(rt, rule, i, args[i]) && (!rule.params[i].Value? ==> rule.Dependency(i) in touched)
  }

  /** What the first `n` rounds of the argument loop keep and return. */
  ghost predicate ArgsKeep(rt: Runtime, t: ThreadId, rule: Rule, n: nat, touched: set<Klass>, s: Stores, out: ArgsStep)
    requires rule.WellFormed() && n <= |rule.params|
  {
    Evolves(rt, t, s, out.stores, touched, out.touched, out.touched - touched) &&
    (out.result.Ok? ==> |out.result.value| == n && ArgsFit(rt, rule, out.result.value, out.touched))
  }

  lemma ArgsFitExtend(rt: Runtime, rule: Rule, args: seq<Obj>, o: Obj, touched: set<Klass>, touched': set<Klass>)
    requires rule.WellFormed() && |args| < |rule.params|
    requires ArgsFit(rt, rule, args, touched) && touched <= touched'
    requires ArgumentFits(rt, rule, |args|, o)
    requires !rule.params[|args|].Value? ==> rule.Dependency(|args|) in touched'
    ensures ArgsFit(rt, rule, args + [o], touched')
  {
    var all := args + [o];
    forall i | 0 <= i < |all|
      ensures ArgumentFits(rt, rule, i, all[i]) && (!rule.params[i].Value? ==> rule.Dependency(i) in touched')
    {
      if i < |args| {
        assert all[i] == args[i];
      }
    }
  }

  lemma {:induction false} AssembleEvolves(reg: Registry, t: ThreadId, k: Klass, touched: set<Klass>, s: Stores)
    requires reg.Valid() && StoresValid(reg.rt, s)
    decreases |reg.Classes() - touched| + (if k in reg.Classes() then 0 else 1), 0, 0, 1
    ensures AssembleKeeps(reg.rt, t, k, touched, s, Assemble(reg, t, k, touched, s))
  {
    if k !in touched {
      match reg.Lookup(k)
      case None =>
      case Some(rule) =>
        match rule.scope
        case Prototype => AssemblePrototypeEvolves(reg, t, k, rule, touched, s);
        case ThreadLocal => AssembleThreadLocalEvolves(reg, t, k, rule, touched, s);
        case Singleton => AssembleSingletonEvolves(reg, t, k, rule, touched, s);
    }
  }

  /** One unfolding of `assemble` for a class not yet entered whose rule is found. */
  lemma AssembleDispatch(reg: Registry, t: ThreadId, k: Klass, rule: Rule, touched: set<Klass>, s: Stores)
    requires reg.Valid() && k !in touched && reg.Lookup(k) == Some(rule)
    ensures rule in reg.rules.Values && reg.rt.IsAssignableFrom(k, rule.target)
    ensures |reg.Classes() - (touched + {k})| < |reg.Classes() - touched| + (if k in reg.Classes() then 0 else 1)
    ensures Assemble(reg, t, k, touched, s) ==
      match rule.scope
      case Prototype => Construct(reg, t, rule, touched + {k}, s)
      case Singleton => ConstructOrRetrieve(reg, t, k, rule, Shared, touched + {k}, s)
      case ThreadLocal => ConstructOrRetrieve(reg, t, k, rule, PerThread, touched + {k}, InitialThreadStore(s, t))
  {
    EnterShrinks(reg.Classes(), touched, k);
  }

  lemma {:induction false} AssemblePrototypeEvolves(reg: Registry, t: ThreadId, k: Klass, rule: Rule, touched: set<Klass>, s: Stores)
    requires reg.Valid() && StoresValid(reg.rt, s)
    requires k !in touched && reg.Lookup(k) == Some(rule) && rule.scope == Prototype
    decreases |reg.Classes() - touched| + (if k in reg.Classes() then 0 else 1), 0, 0, 0
    ensures AssembleKeeps(reg.rt, t, k, touched, s, Assemble(reg, t, k, touched, s))
  {
    var entered := touched + {k};
    AssembleDispatch(reg, t, k, rule, touched, s);
    var out := Construct(reg, t, rule, entered, s);
    ConstructEvolves(reg, t, rule, entered, s);
    EvolvesTransitive(reg.rt, t, s, s, out.stores, touched, entered, out.touched,
                      {}, out.touched - entered, out.touched - touched);
  }

  lemma {:induction false} AssembleSingletonEvolves(reg: Registry, t: ThreadId, k: Klass, rule: Rule, touched: set<Klass>, s: Stores)
    requires reg.Valid() && StoresValid(reg.rt, s)
    requires k !in touched && reg.Lookup(k) == Some(rule) && rule.scope == Singleton
    decreases |reg.Classes() - touched| + (if k in reg.Classes() then 0 else 1), 0, 0, 0
    ensures AssembleKeeps(reg.rt, t, k, touched, s, Assemble(reg, t, k, touched, s))
  {
    var entered := touched + {k};
    AssembleDispatch(reg, t, k, rule, touched, s);
    var out := ConstructOrRetrieve(reg, t, k, rule, Shared, entered, s);
    ConstructOrRetrieveEvolves(reg, t, k, rule, Shared, entered, s);
    EvolvesTransitive(reg.rt, t, s, s, out.stores, touched, entered, out.touched,
                      {}, (out.touched - entered) + {k}, out.touched - touched);
  }

  /** Creating the current thread's empty cache is a step that caches nothing. */
  lemma InitialThreadStoreEvolves(rt: Runtime, t: ThreadId, s: Stores, before: set<Klass>, after: set<Klass>)
    requires StoresValid(rt, s) && before <= after
    ensures Evolves(rt, t, s, InitialThreadStore(s, t), before, after, {})
  {
  }

  lemma {:induction false} AssembleThreadLocalEvolves(reg: Registry, t: ThreadId, k: Klass, rule: Rule, touched: set<Klass>, s: Stores)
    requires reg.Valid() && StoresValid(reg.rt, s)
    requires k !in touched && reg.Lookup(k) == Some(rule) && rule.scope == ThreadLocal
    decreases |reg.Classes() - touched| + (if k in reg.Classes() then 0 else 1), 0, 0, 0
    ensures AssembleKeeps(reg.rt, t, k, touched, s, Assemble(reg, t, k, touched, s))
  {
    var entered := touched + {k};
    AssembleDispatch(reg, t, k, rule, touched, s);
    var s1 := InitialThreadStore(s, t);
    InitialThreadStoreEvolves(reg.rt, t, s, touched, entered);
    var out := ConstructOrRetrieve(reg, t, k, rule, PerThread, entered, s1);
    ConstructOrRetrieveEvolves(reg, t, k, rule, PerThread, entered, s1);
    EvolvesTransitive(reg.rt, t, s, s1, out.stores, touched, entered, out.touched,
                      {}, (out.touched - entered) + {k}, out.touched - touched);
  }

  lemma {:induction false} ConstructOrRetrieveEvolves(reg: Registry, t: ThreadId, k: Klass, rule: Rule, w: StoreId,
                                                       touched: set<Klass>, s: Stores)
    requires reg.Valid() && StoresValid(reg.rt, s)
    requires rule in reg.rules.Values && reg.rt.IsAssignableFrom(k, rule.target) && k in touched
    decreases |reg.Classes() - touched|, 2, 0, 0
    ensures var out := ConstructOrRetrieve(reg, t, k, rule, w, touched, s);
      Evolves(reg.rt, t, s, out.stores, touched, out.touched, (out.touched - touched) + {k}) &&
      (out.result.Ok? ==> Built(reg.rt, k, out.result.value, out.stores.nextId) &&
                          k in Store(out.stores, w, t) && Store(out.stores, w, t)[k] == out.result.value) &&
      (out.result.Err? ==> AddsOnly(s, out.stores, t, out.touched - touched))
  {
    if k !in Store(s, w, t) {
      var c := Construct(reg, t, rule, touched, s);
      ConstructEvolves(reg, t, rule, touched, s);
      if c.result.Ok? {
        assert k !in Store(c.stores, w, t);
        StorePutEvolves(reg.rt, c.stores, w, t, k, c.result.value, c.touched);
        EvolvesTransitive(reg.rt, t, s, c.stores, StorePut(c.stores, w, t, k, c.result.value), touched, c.touched, c.touched,
                          c.touched - touched, {k}, (c.touched - touched) + {k});
      }
    }
  }

  lemma {:induction false} ConstructEvolves(reg: Registry, t: ThreadId, rule: Rule, touched: set<Klass>, s: Stores)
    requires reg.Valid() && StoresValid(reg.rt, s) && rule in reg.rules.Values
    decreases |reg.Classes() - touched|, 1, 0, 0
    ensures var out := Construct(reg, t, rule, touched, s);
      Evolves(reg.rt, t, s, out.stores, touched, out.touched, out.touched - touched) &&
      (out.result.Ok? ==> out.result.value.Instance? && out.result.value.klass == rule.target &&
                          s.nextId <= out.result.value.id && out.stores.nextId == out.result.value.id + 1)
  {
    BuildArgsEvolves(reg, t, rule, |rule.params|, touched, s);
  }

  lemma {:induction false} BuildArgsEvolves(reg: Registry, t: ThreadId, rule: Rule, n: nat, touched: set<Klass>, s: Stores)
    requires reg.Valid() && StoresValid(reg.rt, s) && rule in reg.rules.Values && n <= |rule.params|
    decreases |reg.Classes() - touched|, 0, n, 2
    ensures rule.WellFormed() && ArgsKeep(reg.rt, t, rule, n, touched, s, BuildArgs(reg, t, rule, n, touched, s))
  {
    if n > 0 {
      BuildArgsEvolves(reg, t, rule, n - 1, touched, s);
      BuildArgsStepEvolves(reg, t, rule, n, touched, s);
    }
  }

  /** Round `n` of the argument loop, given what the first `n - 1` rounds keep. */
  lemma {:induction false} BuildArgsStepEvolves(reg: Registry, t: ThreadId, rule: Rule, n: nat, touched: set<Klass>, s: Stores)
    requires reg.Valid() && StoresValid(reg.rt, s) && rule in reg.rules.Values && 0 < n <= |rule.params|
    requires rule.WellFormed() && ArgsKeep(reg.rt, t, rule, n - 1, touched, s, BuildArgs(reg, t, rule, n - 1, touched, s))
    decreases |reg.Classes() - touched|, 0, n, 1
    ensures ArgsKeep(reg.rt, t, rule, n, touched, s, BuildArgs(reg, t, rule, n, touched, s))
  {
    var prev := BuildArgs(reg, t, rule, n - 1, touched, s);
    if prev.result.Ok? {
      if rule.params[n - 1].Value? {
        ArgsFitExtend(reg.rt, rule, prev.result.value, rule.params[n - 1].obj, prev.touched, prev.touched);
      } else {
        BuildArgsDependencyEvolves(reg, t, rule, n, touched, s);
      }
    }
  }

  /** Round `n` of the argument loop when spec `n - 1` asks for a dependency. */
  lemma {:induction false} BuildArgsDependencyEvolves(reg: Registry, t: ThreadId, rule: Rule, n: nat, touched: set<Klass>, s: Stores)
    requires reg.Valid() && StoresValid(reg.rt, s) && rule in reg.rules.Values && 0 < n <= |rule.params|
    requires rule.WellFormed() && !rule.params[n - 1].Value?
    requires var prev := BuildArgs(reg, t, rule, n - 1, touched, s);
      prev.result.Ok? && ArgsKeep(reg.rt, t, rule, n - 1, touched, s, prev)
    decreases |reg.Classes() - touched|, 0, n, 0
    ensures ArgsKeep(reg.rt, t, rule, n, touched, s, BuildArgs(reg, t, rule, n, touched, s))
  {
    var prev := BuildArgs(reg, t, rule, n - 1, touched, s);
    var k := rule.Dependency(n - 1);
    reg.DependencyInClasses(rule, n - 1);
    LeftShrinks(reg.Classes(), touched, prev.touched);
    var r := Assemble(reg, t, k, prev.touched, prev.stores);
    AssembleEvolves(reg, t, k, prev.touched, prev.stores);
    EvolvesTransitive(reg.rt, t, s, prev.stores, r.stores, touched, prev.touched, r.touched,
                      prev.touched - touched, r.touched - prev.touched, r.touched - touched);
    if r.result.Ok? {
      ArgsFitExtend(reg.rt, rule, prev.result.value, r.result.value, prev.touched, r.touched);
    }
  }

  /**
   * A failed resolution of `k` leaves `k` out of every cache it was missing
   * from: the entry is written only after construction has returned.
   */
  lemma FailureCachesNothing(reg: Registry, t: ThreadId, k: Klass, touched: set<Klass>, s: Stores)
    requires reg.Valid() && StoresValid(reg.rt, s)
    ensures var out := Assemble(reg, t, k, touched, s);
      out.result.Err? ==> (k !in s.instances ==> k !in out.stores.instances) &&
                          (k !in ThreadStore(s, t) ==> k !in ThreadStore(out.stores, t))
  {
    if k !in touched {
      var entered := touched + {k};
      match reg.Lookup(k)
      case None =>
      case Some(rule) =>
        match rule.scope
        case Prototype => ConstructEvolves(reg, t, rule, entered, s);
        case ThreadLocal => ConstructOrRetrieveEvolves(reg, t, k, rule, PerThread, entered, InitialThreadStore(s, t));
        case Singleton => ConstructOrRetrieveEvolves(reg, t, k, rule, Shared, entered, s);
    }
  }
}
