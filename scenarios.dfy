/**
 * The scenarios of AppemblerTest.java on the model: the classes `Testing`,
 * `Testing2`, `Testing3` and the interface `TestingInterface` as reflection
 * reports them, the instructions the tests register, and what registration
 * and assembly then do.
 */
module Scenarios {
  import opened Reflection
  import opened Outcomes
  import opened AssemblyParameters
  import opened AssemblyInstructions
  import opened Rules
  import opened ConstructorMatching
  import opened Resolution
  import opened ResolutionInvariants
  import opened ResolutionProperties

  function StringClass(): Klass { Klass("java.lang.String") }
  function IntegerClass(): Klass { Klass("java.lang.Integer") }
  function Testing(): Klass { Klass("Testing") }
  function Testing2(): Klass { Klass("Testing2") }
  function Testing3(): Klass { Klass("Testing3") }
  function TestingInterface(): Klass { Klass("TestingInterface") }

  /** The string literal the tests pass as `ett`. */
  function Text(): Obj { Literal(StringClass(), "testa saker") }

  function Ett(): Formal { Formal("ett", StringClass()) }

  /** The public constructors of `Testing`, in declaration order. */
  function TestingConstructors(): seq<Ctor>
  {
    [Ctor([], false),
     Ctor([Ett()], false),
     Ctor([Ett(), Formal("testing2", Testing2())], false),
     Ctor([Ett(), Formal("testing2", Testing2()), Formal("testing3", Testing3())], false),
     Ctor([Ett(), Formal("testing2", Testing2()), Formal("testingInterface", TestingInterface())], false)]
  }

  function Testing2Constructors(): seq<Ctor>
  {
    [Ctor([Ett()], false),
     Ctor([Ett(), Formal("tva", IntegerClass())], false),
     Ctor([Ett(), Formal("testing", Testing())], false)]
  }

  function Testing3Constructors(): seq<Ctor>
  {
    [Ctor([Ett()], false),
     Ctor([Ett(), Formal("tva", IntegerClass())], false)]
  }

  /** The test classes; `Testing3` implements `TestingInterface`. */
  function TestRuntime(): Runtime
  {
    Runtime(map[Testing() := TestingConstructors(), Testing2() := Testing2Constructors(), Testing3() := Testing3Constructors()],
            {(Testing3(), TestingInterface())})
  }

  function Named(s: string): Option<string> { Some(s) }

  /** A rejected instruction for `Testing` leaves nothing to register. */
  lemma IncorrectParameterName()
    ensures SelectConstructor(TestRuntime(), AssemblyInstruction(Testing(), Singleton, [Value(Named("wrong"), Literal(StringClass(), "not going to work"))]))
            == Err(NoMatchingConstructor)
  {
    var aps := [Value(Named("wrong"), Literal(StringClass(), "not going to work"))];
    assert !IsCorrectConstructorParameter(TestRuntime(), aps[0], Ett());
    assert !FullMatch(TestRuntime(), aps, TestingConstructors()[1]);
  }

  lemma IncorrectValueType()
    ensures SelectConstructor(TestRuntime(), AssemblyInstruction(Testing(), Singleton, [Value(Named("ett"), Literal(IntegerClass(), "42"))]))
            == Err(NoMatchingConstructor)
  {
    var aps := [Value(Named("ett"), Literal(IntegerClass(), "42"))];
    assert !IsCorrectConstructorParameter(TestRuntime(), aps[0], Ett());
    assert !FullMatch(TestRuntime(), aps, TestingConstructors()[1]);
  }

  lemma IncorrectReferenceType()
    ensures SelectConstructor(TestRuntime(), AssemblyInstruction(Testing(), Singleton, [Value(Named("ett"), Text()), Reference(Named("tva"), Testing3())]))
            == Err(NoMatchingConstructor)
  {
    var aps := [Value(Named("ett"), Text()), Reference(Named("tva"), Testing3())];
    assert !IsCorrectConstructorParameter(TestRuntime(), aps[1], Formal("testing2", Testing2()));
    assert !FullMatch(TestRuntime(), aps, TestingConstructors()[2]);
  }

  function TestingSpecs(last: string): seq<AssemblyParameter>
  {
    [Value(Named("ett"), Text()), Reference(Named("testing2"), Testing2()), AutoReference(Named(last))]
  }

  function TextOnly(): seq<AssemblyParameter> { [Value(Named("ett"), Text())] }

  /** `Testing` with a reference to `Testing2` and an auto reference named `testing3` selects the `Testing3` constructor. */
  lemma RegisterTesting()
    ensures SelectConstructor(TestRuntime(), AssemblyInstruction(Testing(), Singleton, TestingSpecs("testing3")))
            == Ok(Rule(Testing(), TestingConstructors()[3], Singleton, TestingSpecs("testing3")))
  {
    var rt, aps, cs := TestRuntime(), TestingSpecs("testing3"), TestingConstructors();
    assert FullMatch(rt, aps, cs[3]);
    assert !IsCorrectConstructorParameter(rt, aps[2], cs[4].formals[2]);
    assert !FullMatch(rt, aps, cs[0]) && !FullMatch(rt, aps, cs[1]) && !FullMatch(rt, aps, cs[2]) && !FullMatch(rt, aps, cs[4]);
    UniqueFitSelected(rt, AssemblyInstruction(Testing(), Singleton, aps), 3);
  }

  /** With the auto reference named `testingInterface`, the interface constructor is selected. */
  lemma RegisterTestingByInterface()
    ensures SelectConstructor(TestRuntime(), AssemblyInstruction(Testing(), Singleton, TestingSpecs("testingInterface")))
            == Ok(Rule(Testing(), TestingConstructors()[4], Singleton, TestingSpecs("testingInterface")))
  {
    var rt, aps, cs := TestRuntime(), TestingSpecs("testingInterface"), TestingConstructors();
    assert FullMatch(rt, aps, cs[4]);
    assert !IsCorrectConstructorParameter(rt, aps[2], cs[3].formals[2]);
    assert !FullMatch(rt, aps, cs[0]) && !FullMatch(rt, aps, cs[1]) && !FullMatch(rt, aps, cs[2]) && !FullMatch(rt, aps, cs[3]);
    UniqueFitSelected(rt, AssemblyInstruction(Testing(), Singleton, aps), 4);
  }

  lemma RegisterTesting2()
    ensures SelectConstructor(TestRuntime(), AssemblyInstruction(Testing2(), Singleton, TextOnly()))
            == Ok(Rule(Testing2(), Testing2Constructors()[0], Singleton, TextOnly()))
  {
    var rt, cs := TestRuntime(), Testing2Constructors();
    assert FullMatch(rt, TextOnly(), cs[0]);
    assert forall c :: c in cs && FullMatch(rt, TextOnly(), c) ==> c == cs[0];
  }

  lemma RegisterTesting3()
    ensures SelectConstructor(TestRuntime(), AssemblyInstruction(Testing3(), Singleton, TextOnly()))
            == Ok(Rule(Testing3(), Testing3Constructors()[0], Singleton, TextOnly()))
  {
    var rt, cs := TestRuntime(), Testing3Constructors();
    assert FullMatch(rt, TextOnly(), cs[0]);
    assert forall c :: c in cs && FullMatch(rt, TextOnly(), c) ==> c == cs[0];
  }

  function TestingRule(last: string, i: nat): Rule
    requires i < |TestingConstructors()|
  {
    Rule(Testing(), TestingConstructors()[i], Singleton, TestingSpecs(last))
  }

  function Testing2Rule(): Rule { Rule(Testing2(), Testing2Constructors()[0], Singleton, TextOnly()) }
  function Testing3Rule(): Rule { Rule(Testing3(), Testing3Constructors()[0], Singleton, TextOnly()) }

  /** The registry after the three registrations of `simpleTest` (with `testing3`) or `inheritanceTest`. */
  function ThreeRules(last: string, i: nat): (reg: Registry)
    requires i < |TestingConstructors()| && |TestingConstructors()[i].formals| == 3
    ensures reg.Valid() && reg.rt == TestRuntime()
  {
    var reg0 := Registry(TestRuntime(), map[], []);
    reg0.Put(TestingRule(last, i)).Put(Testing2Rule()).Put(Testing3Rule())
  }

  /** A class with one literal spec, assembled as a singleton from stores `s`: a new object, cached under the class. */
  lemma AssembleLeaf(reg: Registry, t: ThreadId, k: Klass, rule: Rule, touched: set<Klass>, s: Stores)
    requires reg.Valid() && k !in touched && reg.Lookup(k) == Some(rule) && rule.scope == Singleton
    requires rule.params == TextOnly() && !rule.ctor.raises && k !in s.instances
    ensures var o := Instance(s.nextId, rule.target, [Text()]);
      Assemble(reg, t, k, touched, s) ==
        Step(Ok(o), touched + {k}, s.(instances := s.instances[k := o]).(nextId := s.nextId + 1))
  {
    AssembleDispatch(reg, t, k, rule, touched, s);
    var entered := touched + {k};
    BuildArgsValueRound(reg, t, rule, 0, entered, s, [], entered, s);
    assert |rule.params| == 1 && rule.params[0].obj == Text() && [] + [Text()] == [Text()];
    assert BuildArgs(reg, t, rule, |rule.params|, entered, s) == ArgsStep(Ok([Text()]), entered, s);
    var o := Instance(s.nextId, rule.target, [Text()]);
    assert Construct(reg, t, rule, entered, s) == Step(Ok(o), entered, s.(nextId := s.nextId + 1));
    assert ConstructOrRetrieve(reg, t, k, rule, Shared, entered, s) ==
      Step(Ok(o), entered, StorePut(s.(nextId := s.nextId + 1), Shared, t, k, o));
  }

  /**
   * A `Testing` rule of the shape the tests register: the literal, a
   * reference to `Testing2`, and an auto reference whose formal type
   * `dependency` the registry resolves to the `Testing3` rule.
   */
  ghost predicate TestingShape(reg: Registry, rule: Rule, dependency: Klass)
  {
    reg.Valid() && rule in reg.rules.Values && rule.WellFormed() && rule.target == Testing() &&
    rule.scope == Singleton && !rule.ctor.raises && |rule.params| == 3 &&
    rule.params[0] == Value(Named("ett"), Text()) && rule.params[1] == Reference(Named("testing2"), Testing2()) &&
    rule.params[2].AutoReference? && rule.ctor.formals[2].paramType == dependency &&
    dependency != Testing() && dependency != Testing2() &&
    reg.Lookup(Testing2()) == Some(Testing2Rule()) && reg.Lookup(dependency) == Some(Testing3Rule())
  }

  /** The first two arguments of `Testing`: the literal and a new `Testing2`, cached under its class. */
  lemma TestingFirstArguments(reg: Registry, rule: Rule, dependency: Klass, t: ThreadId)
    requires TestingShape(reg, rule, dependency)
    ensures var t2 := Instance(0, Testing2(), [Text()]);
      BuildArgs(reg, t, rule, 2, {Testing()}, Stores(map[], map[], 0)) ==
        ArgsStep(Ok([Text(), t2]), {Testing(), Testing2()}, Stores(map[Testing2() := t2], map[], 1))
  {
    var s0 := Stores(map[], map[], 0);
    var touched := {Testing()};
    assert rule.Dependency(1) == Testing2();
    BuildArgsValueRound(reg, t, rule, 0, touched, s0, [], touched, s0);
    assert [] + [rule.params[0].obj] == [Text()];
    var t2 := Instance(0, Testing2(), [Text()]);
    var s1 := Stores(map[Testing2() := t2], map[], 1);
    AssembleLeaf(reg, t, Testing2(), Testing2Rule(), touched, s0);
    assert s0.(instances := s0.instances[Testing2() := t2]).(nextId := 1) == s1;
    BuildArgsDependencyRound(reg, t, rule, 1, touched, s0, [Text()], touched, s0, Step(Ok(t2), touched + {Testing2()}, s1));
    assert [Text()] + [t2] == [Text(), t2];
  }

  /** The three arguments of `Testing`: the literal, a new `Testing2`, a new `Testing3`, cached in that order. */
  lemma TestingArguments(reg: Registry, rule: Rule, dependency: Klass, t: ThreadId)
    requires TestingShape(reg, rule, dependency)
    ensures var t2, t3 := Instance(0, Testing2(), [Text()]), Instance(1, Testing3(), [Text()]);
      BuildArgs(reg, t, rule, 3, {Testing()}, Stores(map[], map[], 0)) ==
        ArgsStep(Ok([Text(), t2, t3]), {Testing(), Testing2(), dependency},
                 Stores(map[Testing2() := t2, dependency := t3], map[], 2))
  {
    var s0 := Stores(map[], map[], 0);
    var t2, t3 := Instance(0, Testing2(), [Text()]), Instance(1, Testing3(), [Text()]);
    var touched1, s1 := {Testing(), Testing2()}, Stores(map[Testing2() := t2], map[], 1);
    var s2 := Stores(map[Testing2() := t2, dependency := t3], map[], 2);
    TestingFirstArguments(reg, rule, dependency, t);
    assert rule.Dependency(2) == dependency;
    AssembleLeaf(reg, t, dependency, Testing3Rule(), touched1, s1);
    assert s1.(instances := s1.instances[dependency := t3]).(nextId := 2) == s2;
    BuildArgsDependencyRound(reg, t, rule, 2, {Testing()}, s0, [Text(), t2], touched1, s1,
                             Step(Ok(t3), touched1 + {dependency}, s2));
    assert [Text(), t2] + [t3] == [Text(), t2, t3];
  }

  /**
   * `assemble(Testing.class)` on a fresh assembler builds the `Testing2`
   * dependency first, then the one for the auto reference, then `Testing`
   * itself, and caches all three.
   */
  lemma AssembleTestingShape(reg: Registry, rule: Rule, dependency: Klass, t: ThreadId)
    requires TestingShape(reg, rule, dependency) && reg.Lookup(Testing()) == Some(rule)
    ensures var t2, t3 := Instance(0, Testing2(), [Text()]), Instance(1, Testing3(), [Text()]);
      var out := Assemble(reg, t, Testing(), {}, Stores(map[], map[], 0));
      out.result == Ok(Instance(2, Testing(), [Text(), t2, t3])) &&
      out.stores.instances == map[Testing2() := t2, dependency := t3, Testing() := Instance(2, Testing(), [Text(), t2, t3])]
  {
    var s0 := Stores(map[], map[], 0);
    AssembleDispatch(reg, t, Testing(), rule, {}, s0);
    TestingArguments(reg, rule, dependency, t);
  }

  /** `simpleTest`: the auto reference named `testing3` resolves to `Testing3` directly. */
  lemma SimpleScenario(t: ThreadId)
    ensures var t2, t3 := Instance(0, Testing2(), [Text()]), Instance(1, Testing3(), [Text()]);
      Assemble(ThreeRules("testing3", 3), t, Testing(), {}, Stores(map[], map[], 0)).result ==
        Ok(Instance(2, Testing(), [Text(), t2, t3]))
  {
    var reg, rule := ThreeRules("testing3", 3), TestingRule("testing3", 3);
    assert reg.rules[Testing()] == rule && reg.rules[Testing2()] == Testing2Rule() && reg.rules[Testing3()] == Testing3Rule();
    AssembleTestingShape(reg, rule, Testing3(), t);
  }

  /**
   * `inheritanceTest`: the auto reference named `testingInterface` has no
   * rule of its own; `Testing3`, the registered class that implements it, is built.
   */
  lemma InheritanceScenario(t: ThreadId)
    ensures var t2, t3 := Instance(0, Testing2(), [Text()]), Instance(1, Testing3(), [Text()]);
      Assemble(ThreeRules("testingInterface", 4), t, Testing(), {}, Stores(map[], map[], 0)).result ==
        Ok(Instance(2, Testing(), [Text(), t2, t3]))
  {
    var reg, rule := ThreeRules("testingInterface", 4), TestingRule("testingInterface", 4);
    InterfaceLookup();
    assert reg.rules[Testing()] == rule && reg.rules[Testing2()] == Testing2Rule();
    AssembleTestingShape(reg, rule, TestingInterface(), t);
  }

  /** A class with no rule of its own, to which only the last of three registered classes is assignable, finds that class's rule. */
  lemma ThreePutsLookup(rt: Runtime, r1: Rule, r2: Rule, r3: Rule, k: Klass)
    requires r1.WellFormed() && r2.WellFormed() && r3.WellFormed()
    requires r1.target != r2.target && r1.target != r3.target && r2.target != r3.target
    requires k != r1.target && k != r2.target && k != r3.target && rt.IsAssignableFrom(k, r3.target)
    ensures Registry(rt, map[], []).Put(r1).Put(r2).Put(r3).Lookup(k) == Some(r3)
  {
    var reg1 := Registry(rt, map[], []).Put(r1);
    var reg2 := reg1.Put(r2);
    var reg := reg2.Put(r3);
    assert r3.target !in reg2.rules && reg.order[|reg.order| - 1] == r3.target;
  }

  /** `TestingInterface` has no rule of its own; the last registered class implementing it is `Testing3`. */
  lemma InterfaceLookup()
    ensures ThreeRules("testingInterface", 4).Lookup(TestingInterface()) == Some(Testing3Rule())
  {
    ThreePutsLookup(TestRuntime(), TestingRule("testingInterface", 4), Testing2Rule(), Testing3Rule(), TestingInterface());
  }

  /** `cyclicTest`: `Testing` needs `Testing2`, which needs `Testing`; the request is refused as cyclic. */
  lemma CyclicScenario(t: ThreadId)
    ensures var rt := TestRuntime();
      var testing2Rule := Rule(Testing2(), Testing2Constructors()[2], Singleton, [Value(Named("ett"), Text()), Reference(Named("testing"), Testing())]);
      var reg := Registry(rt, map[], []).Put(TestingRule("testing3", 3)).Put(testing2Rule);
      Assemble(reg, t, Testing(), {}, Stores(map[], map[], 0)).result == Err(CyclicDependency(Testing()))
  {
    var testing2Rule := Rule(Testing2(), Testing2Constructors()[2], Singleton, [Value(Named("ett"), Text()), Reference(Named("testing"), Testing())]);
    var reg := Registry(TestRuntime(), map[], []).Put(TestingRule("testing3", 3)).Put(testing2Rule);
    var s := Stores(map[], map[], 0);
    assert reg.Lookup(Testing()) == Some(TestingRule("testing3", 3));
    assert reg.Lookup(Testing2()) == Some(testing2Rule);
    MutualDependencyRejected(reg, t, Testing(), Testing2(), TestingRule("testing3", 3), testing2Rule, 1, 1, {}, s);
  }

  /** The cyclic instructions are accepted at registration: `Testing2(String ett, Testing testing)` fits. */
  lemma RegisterCyclicTesting2()
    ensures SelectConstructor(TestRuntime(), AssemblyInstruction(Testing2(), Singleton, [Value(Named("ett"), Text()), Reference(Named("testing"), Testing())]))
            == Ok(Rule(Testing2(), Testing2Constructors()[2], Singleton, [Value(Named("ett"), Text()), Reference(Named("testing"), Testing())]))
  {
    var rt, cs := TestRuntime(), Testing2Constructors();
    var aps := [Value(Named("ett"), Text()), Reference(Named("testing"), Testing())];
    assert FullMatch(rt, aps, cs[2]);
    assert !IsCorrectConstructorParameter(rt, aps[1], cs[1].formals[1]);
    assert forall c :: c in cs && FullMatch(rt, aps, c) ==> c == cs[2];
  }

  /** `noInstructionTest`: on an assembler with no instructions, `assemble(Testing.class)` is refused. */
  lemma NoInstructionScenario(t: ThreadId)
    ensures Assemble(Registry(TestRuntime(), map[], []), t, Testing(), {}, Stores(map[], map[], 0)).result
            == Err(NoAssemblyInstructions(Testing()))
  {
    MissingRuleFails(Registry(TestRuntime(), map[], []), t, Testing(), {}, Stores(map[], map[], 0));
  }
}
