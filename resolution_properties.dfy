/**
 * Properties of `assemble` that relate several calls or follow a resolution
 * through several levels: the error paths, scope identity (one singleton per
 * assembler, one thread-local object per thread, a fresh object per
 * prototype request), and which dependency graphs are refused.
 */
module ResolutionProperties {
  import opened Reflection
  import opened Outcomes
  import opened AssemblyParameters
  import opened AssemblyInstructions
  import opened Rules
  import opened Resolution
  import opened ResolutionInvariants

  /** The stores `constructOrRetrieve` or `construct` starts from once a rule of this scope is found. */
  function EnteredStores(scope: ConstructionScope, s: Stores, t: ThreadId): Stores
  {
    if scope == ThreadLocal then InitialThreadStore(s, t) else s
  }

  /** `k` already has an object in the cache its scope reads. */
  predicate Cached(scope: ConstructionScope, k: Klass, s: Stores, t: ThreadId)
  {
    match scope
    case Prototype => false
    case Singleton => k in s.instances
    case ThreadLocal => k in ThreadStore(s, t)
  }

  /** A class already entered in this call is refused, and nothing changes. */
  lemma RevisitIsCyclic(reg: Registry, t: ThreadId, k: Klass, touched: set<Klass>, s: Stores)
    requires reg.Valid() && k in touched
    ensures Assemble(reg, t, k, touched, s) == Step(Err(CyclicDependency(k)), touched, s)
  {
  }

  /** A class no rule can serve is refused once entered, and no cache changes. */
  lemma MissingRuleFails(reg: Registry, t: ThreadId, k: Klass, touched: set<Klass>, s: Stores)
    requires reg.Valid() && k !in touched
    requires forall i :: 0 <= i < |reg.order| ==> !reg.rt.IsAssignableFrom(k, reg.order[i])
    ensures Assemble(reg, t, k, touched, s) == Step(Err(NoAssemblyInstructions(k)), touched + {k}, s)
  {
    reg.LookupFindsOwnOrLast(k);
  }

  /** A cached object is returned as it is: no constructor runs and no cache changes. */
  lemma CachedIsReturned(reg: Registry, t: ThreadId, k: Klass, rule: Rule, touched: set<Klass>, s: Stores)
    requires reg.Valid() && k !in touched && reg.Lookup(k) == Some(rule) && Cached(rule.scope, k, s, t)
    ensures var s1 := EnteredStores(rule.scope, s, t);
      Assemble(reg, t, k, touched, s) ==
        Step(Ok(if rule.scope == Singleton then s.instances[k] else ThreadStore(s, t)[k]), touched + {k}, s1)
  {
    AssembleDispatch(reg, t, k, rule, touched, s);
  }

  /** While the first `n` specs are literals, the argument loop only collects them. */
  lemma {:induction false} ValuePrefix(reg: Registry, t: ThreadId, rule: Rule, n: nat, touched: set<Klass>, s: Stores)
    requires reg.Valid() && rule in reg.rules.Values && n <= |rule.params|
    requires forall j :: 0 <= j < n ==> rule.params[j].Value?
    ensures var out := BuildArgs(reg, t, rule, n, touched, s);
      out.result.Ok? && out.touched == touched && out.stores == s
  {
    if n > 0 {
      ValuePrefix(reg, t, rule, n - 1, touched, s);
    }
  }

  /** One round of the argument loop on a literal spec: the literal is appended, nothing else changes. */
  lemma BuildArgsValueRound(reg: Registry, t: ThreadId, rule: Rule, i: nat, touched: set<Klass>, s: Stores,
                            args: seq<Obj>, touched': set<Klass>, s': Stores)
    requires reg.Valid() && rule in reg.rules.Values && i < |rule.params| && rule.params[i].Value?
    requires BuildArgs(reg, t, rule, i, touched, s) == ArgsStep(Ok(args), touched', s')
    ensures BuildArgs(reg, t, rule, i + 1, touched, s) == ArgsStep(Ok(args + [rule.params[i].obj]), touched', s')
  {
  }

  /** One round of the argument loop on a dependency: its assembly's outcome `r` is appended or passed on. */
  lemma BuildArgsDependencyRound(reg: Registry, t: ThreadId, rule: Rule, i: nat, touched: set<Klass>, s: Stores,
                                 args: seq<Obj>, touched': set<Klass>, s': Stores, r: Step)
    requires reg.Valid() && rule in reg.rules.Values && i < |rule.params| && !rule.params[i].Value?
    requires BuildArgs(reg, t, rule, i, touched, s) == ArgsStep(Ok(args), touched', s')
    requires rule.WellFormed() && r == Assemble(reg, t, rule.Dependency(i), touched', s')
    ensures BuildArgs(reg, t, rule, i + 1, touched, s) ==
              if r.result.Ok? then ArgsStep(Ok(args + [r.result.value]), r.touched, r.stores)
              else ArgsStep(Err(r.result.error), r.touched, r.stores)
  {
  }

  /** Once an argument fails, the loop stops: later rounds return the same failure and state. */
  lemma {:induction false} FailureSticks(reg: Registry, t: ThreadId, rule: Rule, m: nat, n: nat, touched: set<Klass>, s: Stores)
    requires reg.Valid() && rule in reg.rules.Values && m <= n <= |rule.params|
    requires BuildArgs(reg, t, rule, m, touched, s).result.Err?
    ensures BuildArgs(reg, t, rule, n, touched, s) == BuildArgs(reg, t, rule, m, touched, s)
  {
    if m < n {
      FailureSticks(reg, t, rule, m, n - 1, touched, s);
    }
  }

  /** A failed argument list fails the construction with the same error, and the cache gets no entry. */
  lemma ArgumentFailureFailsAssemble(reg: Registry, t: ThreadId, k: Klass, rule: Rule, touched: set<Klass>, s: Stores)
    requires reg.Valid() && k !in touched && reg.Lookup(k) == Some(rule) && !Cached(rule.scope, k, s, t)
    requires BuildArgs(reg, t, rule, |rule.params|, touched + {k}, EnteredStores(rule.scope, s, t)).result.Err?
    ensures Assemble(reg, t, k, touched, s).result ==
            Err(BuildArgs(reg, t, rule, |rule.params|, touched + {k}, EnteredStores(rule.scope, s, t)).result.error)
  {
    AssembleDispatch(reg, t, k, rule, touched, s);
  }

  /**
   * When every spec before position `i` is a literal and the dependency at
   * `i` cannot be assembled, `assemble(k)` fails with that dependency's error.
   */
  lemma FirstDependencyFails(reg: Registry, t: ThreadId, k: Klass, rule: Rule, i: nat, touched: set<Klass>, s: Stores)
    requires reg.Valid() && k !in touched && reg.Lookup(k) == Some(rule) && !Cached(rule.scope, k, s, t)
    requires i < |rule.params| && !rule.params[i].Value? && forall j :: 0 <= j < i ==> rule.params[j].Value?
    requires Assemble(reg, t, rule.Dependency(i), touched + {k}, EnteredStores(rule.scope, s, t)).result.Err?
    ensures Assemble(reg, t, k, touched, s).result ==
            Assemble(reg, t, rule.Dependency(i), touched + {k}, EnteredStores(rule.scope, s, t)).result
  {
    var s1 := EnteredStores(rule.scope, s, t);
    ValuePrefix(reg, t, rule, i, touched + {k}, s1);
    FailureSticks(reg, t, rule, i + 1, |rule.params|, touched + {k}, s1);
    ArgumentFailureFailsAssemble(reg, t, k, rule, touched, s);
  }

  /**
   * A class not yet cached whose spec `j` asks for a class already entered
   * (itself, or one the current call is resolving) is never assembled. When
   * the specs before `j` succeed, the error is a cyclic dependency on that class.
   */
  lemma EnteredDependencyFails(reg: Registry, t: ThreadId, k: Klass, rule: Rule, j: nat, touched: set<Klass>, s: Stores)
    requires reg.Valid() && k !in touched && reg.Lookup(k) == Some(rule) && !Cached(rule.scope, k, s, t)
    requires rule.WellFormed() && j < |rule.params| && !rule.params[j].Value? && rule.Dependency(j) in touched + {k}
    ensures Assemble(reg, t, k, touched, s).result.Err?
    ensures BuildArgs(reg, t, rule, j, touched + {k}, EnteredStores(rule.scope, s, t)).result.Ok? ==>
              Assemble(reg, t, k, touched, s).result == Err(CyclicDependency(rule.Dependency(j)))
  {
    var s1, entered := EnteredStores(rule.scope, s, t), touched + {k};
    AssembleDispatch(reg, t, k, rule, touched, s);
    var p := BuildArgs(reg, t, rule, j, entered, s1);
    if p.result.Ok? {
      var d := rule.Dependency(j);
      RevisitIsCyclic(reg, t, d, p.touched, p.stores);
      BuildArgsDependencyRound(reg, t, rule, j, entered, s1, p.result.value, p.touched, p.stores,
                               Step(Err(CyclicDependency(d)), p.touched, p.stores));
      FailureSticks(reg, t, rule, j + 1, |rule.params|, entered, s1);
    } else {
      FailureSticks(reg, t, rule, j, |rule.params|, entered, s1);
    }
    ArgumentFailureFailsAssemble(reg, t, k, rule, touched, s);
  }

  /** A class whose first dependency is itself is refused as cyclic. */
  lemma SelfDependencyRejected(reg: Registry, t: ThreadId, k: Klass, rule: Rule, i: nat, touched: set<Klass>, s: Stores)
    requires reg.Valid() && k !in touched && reg.Lookup(k) == Some(rule) && !Cached(rule.scope, k, s, t)
    requires i < |rule.params| && !rule.params[i].Value? && forall j :: 0 <= j < i ==> rule.params[j].Value?
    requires rule.Dependency(i) == k
    ensures Assemble(reg, t, k, touched, s).result == Err(CyclicDependency(k))
  {
    FirstDependencyFails(reg, t, k, rule, i, touched, s);
  }

  /** A class not yet cached that names itself at any position is never assembled. */
  lemma SelfDependencyAlwaysFails(reg: Registry, t: ThreadId, k: Klass, rule: Rule, i: nat, touched: set<Klass>, s: Stores)
    requires reg.Valid() && k !in touched && reg.Lookup(k) == Some(rule) && !Cached(rule.scope, k, s, t)
    requires rule.WellFormed() && i < |rule.params| && !rule.params[i].Value? && rule.Dependency(i) == k
    ensures Assemble(reg, t, k, touched, s).result.Err?
    ensures BuildArgs(reg, t, rule, i, touched + {k}, EnteredStores(rule.scope, s, t)).result.Ok? ==>
              Assemble(reg, t, k, touched, s).result == Err(CyclicDependency(k))
  {
    EnteredDependencyFails(reg, t, k, rule, i, touched, s);
  }

  /** Two classes that each need the other first are refused: the class requested first is met twice. */
  lemma MutualDependencyRejected(reg: Registry, t: ThreadId, a: Klass, b: Klass, ruleA: Rule, ruleB: Rule, i: nat, j: nat,
                                 touched: set<Klass>, s: Stores)
    requires reg.Valid() && a !in touched && b !in touched && a != b
    requires reg.Lookup(a) == Some(ruleA) && !Cached(ruleA.scope, a, s, t)
    requires reg.Lookup(b) == Some(ruleB) && !Cached(ruleB.scope, b, s, t)
    requires i < |ruleA.params| && !ruleA.params[i].Value? && forall x :: 0 <= x < i ==> ruleA.params[x].Value?
    requires j < |ruleB.params| && !ruleB.params[j].Value? && forall x :: 0 <= x < j ==> ruleB.params[x].Value?
    requires ruleA.Dependency(i) == b && ruleB.Dependency(j) == a
    ensures Assemble(reg, t, a, touched, s).result == Err(CyclicDependency(a))
  {
    var s1 := EnteredStores(ruleA.scope, s, t);
    assert !Cached(ruleB.scope, b, s1, t);
    FirstDependencyFails(reg, t, b, ruleB, j, touched + {a}, s1);
    FirstDependencyFails(reg, t, a, ruleA, i, touched, s);
  }

  /**
   * Once the specs before `i` have succeeded, a failed assembly of the
   * dependency at `i` fails the request; a failure among the specs before
   * `i` fails it too.
   */
  lemma DependencyFailureFailsAssemble(reg: Registry, t: ThreadId, k: Klass, rule: Rule, i: nat, touched: set<Klass>, s: Stores)
    requires reg.Valid() && k !in touched && reg.Lookup(k) == Some(rule) && !Cached(rule.scope, k, s, t)
    requires rule.WellFormed() && i < |rule.params| && !rule.params[i].Value?
    requires var p := BuildArgs(reg, t, rule, i, touched + {k}, EnteredStores(rule.scope, s, t));
      p.result.Ok? ==> Assemble(reg, t, rule.Dependency(i), p.touched, p.stores).result.Err?
    ensures Assemble(reg, t, k, touched, s).result.Err?
  {
    var s1, entered := EnteredStores(rule.scope, s, t), touched + {k};
    AssembleDispatch(reg, t, k, rule, touched, s);
    var p := BuildArgs(reg, t, rule, i, entered, s1);
    if p.result.Ok? {
      var r := Assemble(reg, t, rule.Dependency(i), p.touched, p.stores);
      BuildArgsDependencyRound(reg, t, rule, i, entered, s1, p.result.value, p.touched, p.stores, r);
      FailureSticks(reg, t, rule, i + 1, |rule.params|, entered, s1);
    } else {
      FailureSticks(reg, t, rule, i, |rule.params|, entered, s1);
    }
    ArgumentFailureFailsAssemble(reg, t, k, rule, touched, s);
  }

  /** A class missing from the caches at the start of a request is still missing wherever the request has not entered it. */
  lemma NotEnteredStaysUncached(reg: Registry, t: ThreadId, rule: Rule, n: nat, b: Klass, scope: ConstructionScope,
                                entered: set<Klass>, s: Stores)
    requires reg.Valid() && StoresValid(reg.rt, s) && rule in reg.rules.Values && n <= |rule.params|
    requires !Cached(scope, b, s, t) && b !in BuildArgs(reg, t, rule, n, entered, s).touched
    ensures !Cached(scope, b, BuildArgs(reg, t, rule, n, entered, s).stores, t)
  {
    BuildArgsEvolves(reg, t, rule, n, entered, s);
  }

  /**
   * Two classes not yet cached, `a` naming `b` at any position and `b`
   * naming `a` at any position: a request for `a` never succeeds.
   */
  lemma MutualDependencyAlwaysFails(reg: Registry, t: ThreadId, a: Klass, b: Klass, ruleA: Rule, ruleB: Rule, i: nat, j: nat,
                                    touched: set<Klass>, s: Stores)
    requires reg.Valid() && StoresValid(reg.rt, s) && a !in touched && b !in touched && a != b
    requires reg.Lookup(a) == Some(ruleA) && !Cached(ruleA.scope, a, s, t)
    requires reg.Lookup(b) == Some(ruleB) && !Cached(ruleB.scope, b, s, t)
    requires ruleA.WellFormed() && i < |ruleA.params| && !ruleA.params[i].Value? && ruleA.Dependency(i) == b
    requires ruleB.WellFormed() && j < |ruleB.params| && !ruleB.params[j].Value? && ruleB.Dependency(j) == a
    ensures Assemble(reg, t, a, touched, s).result.Err?
  {
    var s1, entered := EnteredStores(ruleA.scope, s, t), touched + {a};
    assert ruleA in reg.rules.Values;
    InitialThreadStoreEvolves(reg.rt, t, s, touched, touched);
    assert StoresValid(reg.rt, s1) && !Cached(ruleB.scope, b, s1, t);
    var p := BuildArgs(reg, t, ruleA, i, entered, s1);
    if p.result.Ok? {
      if b in p.touched {
        RevisitIsCyclic(reg, t, b, p.touched, p.stores);
      } else {
        NotEnteredStaysUncached(reg, t, ruleA, i, b, ruleB.scope, entered, s1);
        EnteredDependencyFails(reg, t, b, ruleB, j, p.touched, p.stores);
      }
    }
    DependencyFailureFailsAssemble(reg, t, a, ruleA, i, touched, s);
  }

  /**
   * Asking for the same dependency class at two positions of one constructor
   * fails the second time it is met: the class is still in the touched set
   * from the first position.
   */
  lemma RepeatedDependencyRejected(reg: Registry, t: ThreadId, rule: Rule, n: nat, j: nat, touched: set<Klass>, s: Stores)
    requires reg.Valid() && StoresValid(reg.rt, s) && rule in reg.rules.Values && 0 < n <= |rule.params| && j < n - 1
    requires !rule.params[j].Value? && !rule.params[n - 1].Value? && rule.Dependency(j) == rule.Dependency(n - 1)
    requires BuildArgs(reg, t, rule, n - 1, touched, s).result.Ok?
    ensures BuildArgs(reg, t, rule, n, touched, s).result == Err(CyclicDependency(rule.Dependency(n - 1)))
  {
    BuildArgsEvolves(reg, t, rule, n - 1, touched, s);
  }

  /**
   * A class not yet cached whose constructor needs one dependency class at
   * two positions is never assembled, whatever the dependency's own rule.
   */
  lemma RepeatedDependencyAlwaysFails(reg: Registry, t: ThreadId, k: Klass, rule: Rule, i: nat, j: nat,
                                      touched: set<Klass>, s: Stores)
    requires reg.Valid() && StoresValid(reg.rt, s) && k !in touched && reg.Lookup(k) == Some(rule) && !Cached(rule.scope, k, s, t)
    requires i < j < |rule.params| && !rule.params[i].Value? && !rule.params[j].Value?
    requires rule.Dependency(i) == rule.Dependency(j)
    ensures Assemble(reg, t, k, touched, s).result.Err?
  {
    var s1 := EnteredStores(rule.scope, s, t);
    InitialThreadStoreEvolves(reg.rt, t, s, touched, touched);
    var entered := touched + {k};
    if BuildArgs(reg, t, rule, j, entered, s1).result.Ok? {
      RepeatedDependencyRejected(reg, t, rule, j + 1, i, entered, s1);
      FailureSticks(reg, t, rule, j + 1, |rule.params|, entered, s1);
    } else {
      FailureSticks(reg, t, rule, j, |rule.params|, entered, s1);
    }
    ArgumentFailureFailsAssemble(reg, t, k, rule, touched, s);
  }

  /**
   * SINGLETON: once `assemble(k)` has succeeded, every later top-level
   * request for `k`, on any thread, returns the same object and changes no
   * cache. "Later" is any state whose caches extend those the first request
   * left, which is every state reached by further requests (`AssembleEvolves`).
   */
  lemma SingletonIdentity(reg: Registry, t1: ThreadId, t2: ThreadId, k: Klass, rule: Rule, s: Stores, later: Stores)
    requires reg.Valid() && StoresValid(reg.rt, s) && reg.Lookup(k) == Some(rule) && rule.scope == Singleton
    requires Assemble(reg, t1, k, {}, s).result.Ok?
    requires Extends(Assemble(reg, t1, k, {}, s).stores, later)
    ensures Assemble(reg, t2, k, {}, later) == Step(Assemble(reg, t1, k, {}, s).result, {k}, later)
  {
    var first := Assemble(reg, t1, k, {}, s);
    AssembleDispatch(reg, t1, k, rule, {}, s);
    ConstructOrRetrieveEvolves(reg, t1, k, rule, Shared, {k}, s);
    assert k in later.instances && later.instances[k] == first.result.value;
    CachedIsReturned(reg, t2, k, rule, {}, later);
  }

  /**
   * THREAD_LOCAL: once `assemble(k)` has succeeded on thread `t`, every later
   * top-level request for `k` on `t` returns the same object and changes
   * nothing, in any state whose caches extend those the first request left.
   */
  lemma ThreadLocalIdentity(reg: Registry, t: ThreadId, k: Klass, rule: Rule, s: Stores, later: Stores)
    requires reg.Valid() && StoresValid(reg.rt, s) && reg.Lookup(k) == Some(rule) && rule.scope == ThreadLocal
    requires Assemble(reg, t, k, {}, s).result.Ok?
    requires Extends(Assemble(reg, t, k, {}, s).stores, later)
    ensures Assemble(reg, t, k, {}, later) == Step(Assemble(reg, t, k, {}, s).result, {k}, later)
  {
    var s1 := InitialThreadStore(s, t);
    var first := Assemble(reg, t, k, {}, s);
    AssembleDispatch(reg, t, k, rule, {}, s);
    InitialThreadStoreEvolves(reg.rt, t, s, {}, {});
    ConstructOrRetrieveEvolves(reg, t, k, rule, PerThread, {k}, s1);
    assert t in first.stores.threadLocal && t in later.threadLocal;
    assert k in ThreadStore(later, t) && ThreadStore(later, t)[k] == first.result.value;
    CachedIsReturned(reg, t, k, rule, {}, later);
  }

  /** Assembly on thread `t` never creates, drops or changes another thread's cache. */
  lemma ThreadIsolation(reg: Registry, t: ThreadId, other: ThreadId, k: Klass, touched: set<Klass>, s: Stores)
    requires reg.Valid() && StoresValid(reg.rt, s) && other != t
    ensures var out := Assemble(reg, t, k, touched, s);
      (other in out.stores.threadLocal <==> other in s.threadLocal) && ThreadStore(out.stores, other) == ThreadStore(s, other)
  {
    AssembleEvolves(reg, t, k, touched, s);
  }

  /**
   * An object built by a construction that starts from stores `s` is new:
   * its identity was never handed out before, so it is none of the cached objects.
   */
  lemma ConstructIsFresh(reg: Registry, t: ThreadId, rule: Rule, touched: set<Klass>, s: Stores)
    requires reg.Valid() && StoresValid(reg.rt, s) && rule in reg.rules.Values
    requires Construct(reg, t, rule, touched, s).result.Ok?
    ensures var o := Construct(reg, t, rule, touched, s).result.value;
      s.nextId <= o.id && (forall x :: x in s.instances ==> s.instances[x] != o) &&
      forall th, x :: th in s.threadLocal && x in s.threadLocal[th] ==> s.threadLocal[th][x] != o
  {
    ConstructEvolves(reg, t, rule, touched, s);
  }

  /** PROTOTYPE: two successive requests for `k` return two different objects. */
  lemma PrototypeFreshness(reg: Registry, t1: ThreadId, t2: ThreadId, k: Klass, rule: Rule, s: Stores)
    requires reg.Valid() && StoresValid(reg.rt, s) && reg.Lookup(k) == Some(rule) && rule.scope == Prototype
    requires Assemble(reg, t1, k, {}, s).result.Ok?
    requires Assemble(reg, t2, k, {}, Assemble(reg, t1, k, {}, s).stores).result.Ok?
    ensures var first := Assemble(reg, t1, k, {}, s);
      Assemble(reg, t2, k, {}, first.stores).result.value != first.result.value
  {
    var first := Assemble(reg, t1, k, {}, s);
    AssembleDispatch(reg, t1, k, rule, {}, s);
    AssembleEvolves(reg, t1, k, {}, s);
    AssembleDispatch(reg, t2, k, rule, {}, first.stores);
    ConstructIsFresh(reg, t2, rule, {k}, first.stores);
  }

  /**
   * THREAD_LOCAL: a thread with no object for `k` yet gets a new one, not
   * the object another thread already holds.
   */
  lemma ThreadLocalPerThread(reg: Registry, t1: ThreadId, t2: ThreadId, k: Klass, rule: Rule, s: Stores)
    requires reg.Valid() && StoresValid(reg.rt, s) && reg.Lookup(k) == Some(rule) && rule.scope == ThreadLocal
    requires t1 != t2 && k !in ThreadStore(s, t2)
    requires Assemble(reg, t1, k, {}, s).result.Ok?
    requires Assemble(reg, t2, k, {}, Assemble(reg, t1, k, {}, s).stores).result.Ok?
    ensures var first := Assemble(reg, t1, k, {}, s);
      Assemble(reg, t2, k, {}, first.stores).result.value != first.result.value
  {
    var first := Assemble(reg, t1, k, {}, s);
    AssembleEvolves(reg, t1, k, {}, s);
    ThreadIsolation(reg, t1, t2, k, {}, s);
    AssembleDispatch(reg, t2, k, rule, {}, first.stores);
    var s2 := InitialThreadStore(first.stores, t2);
    InitialThreadStoreEvolves(reg.rt, t2, first.stores, {k}, {k});
    ConstructIsFresh(reg, t2, rule, {k}, s2);
  }
}
