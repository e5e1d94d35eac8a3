/**
 * The assembler object (Appembler.java): the rule registry and the scope
 * caches as fields, registration and assembly as methods that update them.
 * Each method is proved to compute what the functions of `Resolution` and
 * `ConstructorMatching` specify, so the lemmas about those functions hold
 * of the object.
 */
module Assembler {
  import opened Reflection
  import opened Outcomes
  import opened AssemblyParameters
  import opened AssemblyInstructions
  import opened Rules
  import opened ConstructorMatching
  import opened Resolution
  import opened ResolutionInvariants
  import opened ResolutionProperties

  class Appembler {
    /** The classes loaded in the JVM, as far as reflection reports them. */
    const rt: Runtime
    /** `constructors`: the rule per registered class. */
    var constructors: map<Klass, Rule>
    /** The order in which `constructors` enumerates its entries. */
    var order: seq<Klass>
    /** `instances`: the singleton cache. */
    var instances: map<Klass, Obj>
    /** `threadLocalInstances`: each thread's own cache, for the threads that have one. */
    var threadLocalInstances: map<ThreadId, map<Klass, Obj>>
    /** The identity the next constructed object receives. */
    var nextId: nat

    function Reg(): Registry
      reads this`constructors, this`order
    {
      Registry(rt, constructors, order)
    }

    function Caches(): Stores
      reads this`instances, this`threadLocalInstances, this`nextId
    {
      Stores(instances, threadLocalInstances, nextId)
    }

    ghost predicate Valid()
      reads this
    {
      Reg().Valid() && StoresValid(rt, Caches())
    }

    /** `new Appembler()`: no rules, empty caches. */
    constructor (rt: Runtime)
      ensures Valid() && this.rt == rt
      ensures constructors == map[] && order == []
      ensures instances == map[] && threadLocalInstances == map[] && nextId == 0
    {
      this.rt := rt;
      constructors := map[];
      order := [];
      instances := map[];
      threadLocalInstances := map[];
      nextId := 0;
    }

    /**
     * The loop of `instruction` that collects `constructionInstructions`: the
     * constructors of `cs` whose arity is the number of specs and whose every
     * position passes the parameter check, in order.
     */
    method MatchingConstructors(aps: seq<AssemblyParameter>, cs: seq<Ctor>) returns (found: seq<Ctor>)
      ensures found == Candidates(rt, aps, cs)
    {
      var size := |aps|;
      found := [];
      for j := 0 to |cs|
        invariant found == Candidates(rt, aps, cs[..j])
      {
        var c := cs[j];
        var fits := false;
        if size == |c.formals| {
          var correct := 0;
          for i := 0 to size
            invariant correct == CountCorrect(rt, aps, c.formals, i)
          {
            if IsCorrectConstructorParameter(rt, aps[i], c.formals[i]) {
              correct := correct + 1;
            }
          }
          CountCorrectReachesSize(rt, aps, c.formals, size);
          if correct == size {
            found := found + [c];
            fits := true;
          }
        }
        assert fits == FullMatch(rt, aps, c);
        assert cs[..j + 1][..j] == cs[..j];
      }
      assert cs[..|cs|] == cs;
    }

    /**
     * `instruction`: register the one public constructor of the target class
     * that fits the specs; fail when none or several fit, leaving the
     * registry as it was.
     */
    method Instruction(ai: AssemblyInstruction) returns (outcome: Outcome)
      requires Reg().Valid()
      modifies this`constructors, this`order
      ensures Reg().Valid()
      ensures match SelectConstructor(rt, ai)
        case Ok(rule) => outcome == Pass && Reg() == old(Reg()).Put(rule)
        case Err(e) => outcome == Fail(e) && Reg() == old(Reg())
    {
      var found := MatchingConstructors(ai.assemblyParameters, rt.GetConstructors(ai.klass));
      if |found| == 0 {
        outcome := Fail(NoMatchingConstructor);
      } else if |found| == 1 {
        assert found[0] in found;
        var rule := Rule(ai.klass, found[0], ai.scope, ai.assemblyParameters);
        assert SelectConstructor(rt, ai) == Ok(rule);
        if ai.klass !in constructors {
          order := order + [ai.klass];
        }
        constructors := constructors[ai.klass := rule];
        assert Reg() == old(Reg()).Put(rule);
        outcome := Pass;
      } else {
        outcome := Fail(MultipleMatchingConstructors);
      }
    }

    /** `retrieveConstructionInstruction`: the rule of `k` itself, else the last assignable entry in enumeration order. */
    method RetrieveConstructionInstruction(k: Klass) returns (instruction: Option<Rule>)
      requires Reg().Valid()
      ensures instruction == Reg().Lookup(k)
    {
      if k in constructors {
        instruction := Some(constructors[k]);
      } else {
        instruction := None;
        for i := 0 to |order|
          invariant instruction == Reg().Scan(k, i)
        {
          if rt.IsAssignableFrom(k, order[i]) {
            instruction := Some(constructors[order[i]]);
          }
        }
      }
    }

    /** The public `assemble(klass)`: a resolution with a fresh, empty touched set. */
    method Assemble(k: Klass, t: ThreadId) returns (r: Result<Obj>)
      requires Valid()
      modifies this`instances, this`threadLocalInstances, this`nextId
      ensures Valid()
      ensures var out := Resolution.Assemble(Reg(), t, k, {}, old(Caches()));
        r == out.result && Caches() == out.stores
    {
      var touched;
      r, touched := AssembleWith(k, t, {});
    }

    /** The private `assemble(klass, touched)`: the cycle check, the rule lookup, then the scope switch. */
    method AssembleWith(k: Klass, t: ThreadId, touched: set<Klass>) returns (r: Result<Obj>, touched': set<Klass>)
      requires Reg().Valid() && StoresValid(rt, Caches())
      modifies this`instances, this`threadLocalInstances, this`nextId
      decreases |Reg().Classes() - touched| + (if k in Reg().Classes() then 0 else 1), 0, 0
      ensures StoresValid(rt, Caches())
      ensures Step(r, touched', Caches()) == Resolution.Assemble(Reg(), t, k, touched, old(Caches()))
    {
      if k in touched {
        return Err(CyclicDependency(k)), touched;
      }
      var entered := touched + {k};
      var instruction := RetrieveConstructionInstruction(k);
      if instruction.None? {
        return Err(NoAssemblyInstructions(k)), entered;
      }
      AssembleDispatch(Reg(), t, k, instruction.value, touched, Caches());
      r, touched' := ObtainByScope(k, instruction.value, t, entered);
    }

    /**
     * The scope switch of `assemble`: a new object for PROTOTYPE, the
     * current thread's cache for THREAD_LOCAL, the shared cache for SINGLETON.
     */
    method ObtainByScope(k: Klass, rule: Rule, t: ThreadId, entered: set<Klass>) returns (r: Result<Obj>, touched': set<Klass>)
      requires Reg().Valid() && StoresValid(rt, Caches())
      requires rule in Reg().rules.Values && rt.IsAssignableFrom(k, rule.target) && k in entered
      modifies this`instances, this`threadLocalInstances, this`nextId
      decreases |Reg().Classes() - entered|, 3, 0
      ensures StoresValid(rt, Caches())
      ensures Step(r, touched', Caches()) ==
        match rule.scope
        case Prototype => Resolution.Construct(Reg(), t, rule, entered, old(Caches()))
        case Singleton => Resolution.ConstructOrRetrieve(Reg(), t, k, rule, Shared, entered, old(Caches()))
        case ThreadLocal => Resolution.ConstructOrRetrieve(Reg(), t, k, rule, PerThread, entered, InitialThreadStore(old(Caches()), t))
    {
      match rule.scope
      case Prototype =>
        r, touched' := Construct(rule, t, entered);
      case ThreadLocal =>
        ThreadLocalGet(t);
        r, touched' := ConstructOrRetrieve(k, rule, PerThread, t, entered);
      case Singleton =>
        r, touched' := ConstructOrRetrieve(k, rule, Shared, t, entered);
    }

    /**
     * `threadLocalInstances.get()` for a ThreadLocal whose initial value is an
     * empty map: the current thread's cache is created on its first use.
     */
    method ThreadLocalGet(t: ThreadId)
      requires StoresValid(rt, Caches())
      modifies this`threadLocalInstances
      ensures StoresValid(rt, Caches())
      ensures Caches() == InitialThreadStore(old(Caches()), t)
    {
      if t !in threadLocalInstances {
        threadLocalInstances := threadLocalInstances[t := map[]];
      }
      InitialThreadStoreEvolves(rt, t, old(Caches()), {}, {});
    }

    /** `constructOrRetrieve` on the chosen cache: the cached object, or a new one cached under `k`. */
    method ConstructOrRetrieve(k: Klass, rule: Rule, w: StoreId, t: ThreadId, touched: set<Klass>)
      returns (r: Result<Obj>, touched': set<Klass>)
      requires Reg().Valid() && StoresValid(rt, Caches()) && rule in Reg().rules.Values && rt.IsAssignableFrom(k, rule.target) && k in touched
      modifies this`instances, this`threadLocalInstances, this`nextId
      decreases |Reg().Classes() - touched|, 2, 0
      ensures StoresValid(rt, Caches())
      ensures Step(r, touched', Caches()) == Resolution.ConstructOrRetrieve(Reg(), t, k, rule, w, touched, old(Caches()))
    {
      ghost var s0 := Caches();
      var cache := if w.Shared? then instances
                   else if t in threadLocalInstances then threadLocalInstances[t] else map[];
      if k !in cache {
        r, touched' := Construct(rule, t, touched);
        if r.Ok? {
          if w.Shared? {
            instances := instances[k := r.value];
          } else {
            var current := if t in threadLocalInstances then threadLocalInstances[t] else map[];
            threadLocalInstances := threadLocalInstances[t := current[k := r.value]];
          }
        }
      } else {
        r, touched' := Ok(cache[k]), touched;
      }
      assert StoresValid(rt, Caches()) by {
        ConstructOrRetrieveEvolves(Reg(), t, k, rule, w, touched, s0);
      }
    }

    /**
     * `construct`: the arguments, then the constructor call; a failure while
     * building the arguments is passed on.
     */
    method Construct(rule: Rule, t: ThreadId, touched: set<Klass>) returns (r: Result<Obj>, touched': set<Klass>)
      requires Reg().Valid() && StoresValid(rt, Caches()) && rule in Reg().rules.Values
      modifies this`instances, this`threadLocalInstances, this`nextId
      decreases |Reg().Classes() - touched|, 1, 1
      ensures StoresValid(rt, Caches())
      ensures Step(r, touched', Caches()) == Resolution.Construct(Reg(), t, rule, touched, old(Caches()))
    {
      ghost var s0 := Caches();
      var args;
      args, touched' := Arguments(rule, t, touched);
      if args.Err? {
        return Err(args.error), touched';
      }
      if rule.ctor.raises {
        r := Err(ConstructorFailed(rule.target));
      } else {
        r := Ok(Instance(nextId, rule.target, args.value));
        nextId := nextId + 1;
      }
      assert StoresValid(rt, Caches()) by {
        ConstructEvolves(Reg(), t, rule, touched, s0);
      }
    }

    /** The loop of `construct`: one argument per spec, in order; the first failure ends it. */
    method Arguments(rule: Rule, t: ThreadId, touched: set<Klass>) returns (args: Result<seq<Obj>>, touched': set<Klass>)
      requires Reg().Valid() && StoresValid(rt, Caches()) && rule in Reg().rules.Values
      modifies this`instances, this`threadLocalInstances, this`nextId
      decreases |Reg().Classes() - touched|, 1, 0
      ensures StoresValid(rt, Caches())
      ensures BuildArgs(Reg(), t, rule, |rule.params|, touched, old(Caches())) == ArgsStep(args, touched', Caches())
    {
      ghost var s0 := Caches();
      ghost var reg := Reg();
      args := Ok([]);
      touched' := touched;
      var i := 0;
      while i < |rule.params| && args.Ok?
        invariant 0 <= i <= |rule.params|
        invariant StoresValid(rt, Caches()) && touched <= touched'
        invariant BuildArgs(reg, t, rule, i, touched, s0) == ArgsStep(args, touched', Caches())
      {
        LeftShrinks(reg.Classes(), touched, touched');
        args, touched' := Argument(rule, i, t, touched, s0, args.value, touched');
        i := i + 1;
      }
      if args.Err? {
        FailureSticks(reg, t, rule, i, |rule.params|, touched, s0);
      }
    }

    /**
     * One round of the loop of `construct`: the argument for spec `i`, a
     * literal as it is, a reference or auto reference assembled with the
     * current touched set. `touched0`, `s0` and `list` are where the loop
     * started and what it has collected so far.
     */
    method Argument(rule: Rule, i: nat, t: ThreadId, ghost touched0: set<Klass>, ghost s0: Stores, list: seq<Obj>,
                    touched: set<Klass>) returns (args: Result<seq<Obj>>, touched': set<Klass>)
      requires Reg().Valid() && StoresValid(rt, Caches()) && rule in Reg().rules.Values && i < |rule.params|
      requires BuildArgs(Reg(), t, rule, i, touched0, s0) == ArgsStep(Ok(list), touched, Caches())
      modifies this`instances, this`threadLocalInstances, this`nextId
      decreases |Reg().Classes() - touched|, 0, 1
      ensures StoresValid(rt, Caches())
      ensures BuildArgs(Reg(), t, rule, i + 1, touched0, s0) == ArgsStep(args, touched', Caches())
    {
      var p := rule.params[i];
      if p.Value? {
        BuildArgsValueRound(Reg(), t, rule, i, touched0, s0, list, touched, Caches());
        args, touched' := Ok(list + [p.obj]), touched;
      } else {
        var dependency := if p.Reference? then p.klass else rule.ctor.formals[i].paramType;
        assert dependency == rule.Dependency(i);
        Reg().DependencyInClasses(rule, i);
        ghost var before := Caches();
        var o;
        o, touched' := AssembleWith(dependency, t, touched);
        args := if o.Ok? then Ok(list + [o.value]) else Err(o.error);
        BuildArgsDependencyRound(Reg(), t, rule, i, touched0, s0, list, touched, before, Step(o, touched', Caches()));
      }
    }
  }
}
