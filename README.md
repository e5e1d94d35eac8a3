# Appembler in Dafny

A model of the core of Appembler, a small object-graph assembler for Java.
Users describe how each class is built with an `AssemblyInstruction`: a target
class, a lifecycle scope (PROTOTYPE, SINGLETON or THREAD_LOCAL) and an ordered
list of parameter specs. A spec is a literal value, a reference to another
class, or an auto reference to the declared type of the matching constructor
parameter. `Appembler.instruction` matches each instruction against the
target's public constructors and stores the one constructor that fits.
`Appembler.assemble` then builds objects on demand. It resolves dependencies
recursively and refuses a class met twice in one call. It also serves
singletons from a shared cache and thread-local objects from a per-thread
cache.

Module layout, following the Java sources:

- `Reflection` (reflection.dfy): classes, constructors, objects and the
  runtime's `isAssignableFrom`, as values.
- `AssemblyParameters` (assembly_parameter.dfy): the spec kinds and the three
  factories.
- `AssemblyInstructions` (assembly_instruction.dfy): the scope enum, the
  finished instruction, and the `Builder` class, which updates its fields in
  place.
- `Rules` (rules.dfy): a stored rule, and the rule registry with its lookup.
- `ConstructorMatching` (matching.dfy): the per-position parameter check and
  the constructor choice.
- `Resolution` (resolution.dfy): `assemble`, `constructOrRetrieve`,
  `construct` and its argument loop, written as functions. The class's methods
  are proved against these functions.
- `ResolutionInvariants` and `ResolutionProperties`: what every resolution
  keeps, plus the error paths, scope identity and cycle behaviour.
- `Assembler` (appembler.dfy): the `Appembler` class. Its fields are the
  `constructors` map, the `instances` cache and the per-thread caches. Its
  methods, with their loops, are proved equal to the `Resolution` and
  `ConstructorMatching` functions.
- `ThreadLocalFinding` (thread_local_finding.dfy): the THREAD_LOCAL branch as
  written, next to the corrected one.
- `Scenarios` (scenarios.dfy): the registrations and assemblies of
  `AppemblerTest.java`.

Terms used below:

- **touched set**: the classes already entered during one top-level
  `assemble` call.
- **Evolves**: a step after which the touched set has only grown, caches have
  only grown and remain valid, and no other thread's cache has changed.
- **`order`**: the order in which the `constructors` map lists its entries.

Two behaviours of the code worth knowing:

- **Repeated dependencies within one call.** A class reached twice by
  different paths without a true cycle (a diamond) is refused too: the code
  never removes a class from the touched set during a call. So any second
  visit of a class in one `assemble` call is refused as cyclic, including a
  constructor that names one class at two positions, and even when that class
  is already cached. `RepeatedDependencyRejected` and
  `RepeatedDependencyAlwaysFails` state this behaviour.
- **THREAD_LOCAL requests.** As written, the code reads a ThreadLocal that is
  never initialised (see Findings). The model uses the evidently intended
  per-thread cache and keeps the as-written branch beside it.

## Model

| member | source | states |
|---|---|---|
| AssemblyParameters.ValueParameter | src/main/java/se/grenby/appembler/AssemblyParameter.java:14-16 | a value spec reports type VALUE, keeps the name, carries the object, and has no class |
| AssemblyParameters.ReferenceParameter | src/main/java/se/grenby/appembler/AssemblyParameter.java:18-20 | a reference spec reports type REFERENCE, keeps the name, carries the class, and has no object |
| AssemblyParameters.AutoReferenceParameter | src/main/java/se/grenby/appembler/AssemblyParameter.java:22-24 | an auto reference reports type AUTO_REFERENCE, keeps the name, and has neither class nor object |
| AssemblyParameters.AssemblyParameter.GetType | src/main/java/se/grenby/appembler/AssemblyParameter.java:37-39 | the kind is VALUE, REFERENCE or AUTO_REFERENCE exactly for a value, a reference or an auto reference spec |
| AssemblyParameters.AssemblyParameter.GetKlass | src/main/java/se/grenby/appembler/AssemblyParameter.java:41-43 | the class is present exactly for a reference spec, and is then the referenced class |
| AssemblyParameters.AssemblyParameter.GetObject | src/main/java/se/grenby/appembler/AssemblyParameter.java:45-47 | the object is present exactly for a value spec, and is then its literal |
| AssemblyParameters.KindDeterminesFields | src/main/java/se/grenby/appembler/AssemblyParameter.java:5-48 | `getKlass` is non-null exactly for references and `getObject` exactly for values; an auto reference has neither |
| AssemblyInstructions.Builder.constructor | src/main/java/se/grenby/appembler/AssemblyInstruction.java:19-25 | a new builder has the given class, scope SINGLETON and no specs |
| AssemblyInstructions.Builder.S | src/main/java/se/grenby/appembler/AssemblyInstruction.java:27-30 | sets the scope and returns the same builder |
| AssemblyInstructions.Builder.Val | src/main/java/se/grenby/appembler/AssemblyInstruction.java:32-36 | appends one value spec after the earlier specs and returns the same builder |
| AssemblyInstructions.Builder.Ref | src/main/java/se/grenby/appembler/AssemblyInstruction.java:38-42 | appends one reference spec after the earlier specs and returns the same builder |
| AssemblyInstructions.Builder.Auto | src/main/java/se/grenby/appembler/AssemblyInstruction.java:44-48 | appends one auto reference spec after the earlier specs and returns the same builder |
| AssemblyInstructions.Builder.Build | src/main/java/se/grenby/appembler/AssemblyInstruction.java:51-67 | the instruction's class, scope and specs (its getters) are exactly the builder's |
| ConstructorMatching.IsCorrectConstructorParameter | src/main/java/se/grenby/appembler/Appembler.java:63-87 | a spec that fits never names a different parameter; an auto reference fits iff its name matches (the per-kind rules are in ParameterCheck) |
| ConstructorMatching.ParameterCheck | src/main/java/se/grenby/appembler/Appembler.java:63-87 | a wrongly named spec never fits; a value fits iff its object's class equals the formal type; a reference fits iff the formal type is assignable from the class; an auto reference fits any type |
| ConstructorMatching.CountCorrect | src/main/java/se/grenby/appembler/Appembler.java:38-45 | the counter `correctParameters` never exceeds the number of positions checked, and is 0 iff no position passes |
| ConstructorMatching.FullMatchByCounter | src/main/java/se/grenby/appembler/Appembler.java:36-46 | a constructor fits (`FullMatch`) iff its arity is the number of specs and the counter reaches that number |
| ConstructorMatching.CountCorrectReachesSize | src/main/java/se/grenby/appembler/Appembler.java:38-46 | the counter `correctParameters` is at most the number of positions, and reaches it iff every position passes |
| ConstructorMatching.Candidates | src/main/java/se/grenby/appembler/Appembler.java:33-52 | a constructor is collected iff it is one of the class's constructors and fits the specs (same arity, every position passes) |
| ConstructorMatching.CandidatesEmpty | src/main/java/se/grenby/appembler/Appembler.java:54-55 | no constructor is collected iff no constructor fits |
| ConstructorMatching.ManyCandidatesTwoFit | src/main/java/se/grenby/appembler/Appembler.java:58-59 | two or more collected constructors means two positions fit |
| ConstructorMatching.TwoFitManyCandidates | src/main/java/se/grenby/appembler/Appembler.java:58-59 | two positions that fit mean two or more collected constructors |
| ConstructorMatching.CandidatesMany | src/main/java/se/grenby/appembler/Appembler.java:54-60 | two or more constructors are collected iff two positions fit |
| ConstructorMatching.SelectConstructor | src/main/java/se/grenby/appembler/Appembler.java:29-61 | success gives the unique fitting constructor with the instruction's class, scope and specs, one spec per formal; "no matching constructor" iff none fits; "multiple matching constructors" iff two fit |
| ConstructorMatching.UniqueFitSelected | src/main/java/se/grenby/appembler/Appembler.java:54-57 | when exactly one constructor fits, it is the one registered |
| Assembler.Appembler.constructor | src/main/java/se/grenby/appembler/Appembler.java:22-27 | a new assembler has no rules and empty caches |
| Assembler.Appembler.MatchingConstructors | src/main/java/se/grenby/appembler/Appembler.java:30-52 | the nested loops collect exactly `Candidates` of the target's constructors |
| Assembler.Appembler.Instruction | src/main/java/se/grenby/appembler/Appembler.java:29-61 | on a unique fit the registry becomes the old one with that rule put under the class; otherwise it fails with the error `SelectConstructor` gives and the registry is unchanged; the registry stays valid |
| Rules.Registry.Put | src/main/java/se/grenby/appembler/Appembler.java:57 | the class's entry becomes the new rule; every other entry is unchanged; the registry stays valid |
| Rules.Registry.Scan | src/main/java/se/grenby/appembler/Appembler.java:124-131 | a rule found by the entry loop is a registered rule whose class is assignable to the requested one |
| Rules.Registry.ScanFindsLast | src/main/java/se/grenby/appembler/Appembler.java:124-131 | the loop finds nothing iff no entry is assignable; otherwise it finds the rule of the last assignable entry |
| Rules.Registry.Lookup | src/main/java/se/grenby/appembler/Appembler.java:121-134 | a found rule is registered, well formed, and its class is assignable to the requested class |
| Rules.Registry.LookupFindsOwnOrLast | src/main/java/se/grenby/appembler/Appembler.java:121-134 | the class's own rule wins; without one, nothing is found iff no registered class is assignable; otherwise the last assignable entry in `order` is found |
| Rules.Registry.DependencyInClasses | src/main/java/se/grenby/appembler/Appembler.java:150-159 | every class a registered rule's reference or auto reference resolves to is among the finitely many classes a resolution can enter |
| Assembler.Appembler.RetrieveConstructionInstruction | src/main/java/se/grenby/appembler/Appembler.java:121-134 | returns exactly `Lookup` of the registry in the fields |
| Resolution.InitialThreadStore | src/main/java/se/grenby/appembler/Appembler.java:24 | the current thread gets a cache, unchanged if it had one and empty otherwise; nothing else changes |
| Resolution.Assemble | src/main/java/se/grenby/appembler/Appembler.java:93-119 | the touched set afterwards includes the requested class and every class touched before |
| Resolution.ConstructOrRetrieve | src/main/java/se/grenby/appembler/Appembler.java:136-145 | the touched set only grows |
| Resolution.Construct | src/main/java/se/grenby/appembler/Appembler.java:147-165 | the touched set only grows |
| Resolution.BuildArgs | src/main/java/se/grenby/appembler/Appembler.java:148-161 | the touched set only grows |
| Resolution.StorePut | src/main/java/se/grenby/appembler/Appembler.java:140 | the chosen cache gains the entry for the class (replacing none other); the other cache, other threads and the identity counter are unchanged |
| Resolution.StorePutEvolves | src/main/java/se/grenby/appembler/Appembler.java:140 | `map.put` of a newly built object under a missing class is an Evolves step that caches only that class, and the entry then holds the object |
| Resolution.EvolvesTransitive | src/main/java/se/grenby/appembler/Appembler.java:93-165 | two Evolves steps in a row make one Evolves step |
| ResolutionInvariants.AssembleDispatch | src/main/java/se/grenby/appembler/Appembler.java:94-118 | for a class not yet entered whose rule is found: PROTOTYPE constructs; SINGLETON constructs or retrieves on `instances`; THREAD_LOCAL constructs or retrieves on the current thread's cache |
| ResolutionInvariants.AssembleEvolves | src/main/java/se/grenby/appembler/Appembler.java:93-119 | `assemble` is an Evolves step that caches only classes it entered; a result is an object the assembler built, of a class assignable to the requested one |
| ResolutionInvariants.AssemblePrototypeEvolves | src/main/java/se/grenby/appembler/Appembler.java:106-108 | the same as AssembleEvolves, for a PROTOTYPE rule |
| ResolutionInvariants.AssembleSingletonEvolves | src/main/java/se/grenby/appembler/Appembler.java:112-114 | the same as AssembleEvolves, for a SINGLETON rule |
| ResolutionInvariants.AssembleThreadLocalEvolves | src/main/java/se/grenby/appembler/Appembler.java:109-111 | the same as AssembleEvolves, for a THREAD_LOCAL rule |
| ResolutionInvariants.InitialThreadStoreEvolves | src/main/java/se/grenby/appembler/Appembler.java:24 | creating the thread's empty cache is an Evolves step that caches nothing |
| ResolutionInvariants.ConstructOrRetrieveEvolves | src/main/java/se/grenby/appembler/Appembler.java:136-145 | an Evolves step; on success the object is cached under the requested class in the chosen cache; on failure only entered classes were cached |
| ResolutionInvariants.ConstructEvolves | src/main/java/se/grenby/appembler/Appembler.java:147-165 | an Evolves step; a result is a new instance of the rule's class with an identity never handed out before |
| ResolutionInvariants.BuildArgsEvolves | src/main/java/se/grenby/appembler/Appembler.java:148-161 | after n rounds: an Evolves step; on success, n arguments, each one the literal or a built object of its dependency class, whose dependency was entered |
| ResolutionInvariants.BuildArgsStepEvolves | src/main/java/se/grenby/appembler/Appembler.java:150-161 | one round keeps what BuildArgsEvolves states |
| ResolutionInvariants.BuildArgsDependencyEvolves | src/main/java/se/grenby/appembler/Appembler.java:153-159 | a reference or auto reference round keeps what BuildArgsEvolves states |
| ResolutionInvariants.ArgsFitExtend | src/main/java/se/grenby/appembler/Appembler.java:150-160 | appending a fitting argument keeps every argument fitting its spec |
| ResolutionInvariants.FailureCachesNothing | src/main/java/se/grenby/appembler/Appembler.java:138-140 | a failed request leaves the requested class out of every cache that lacked it |
| ResolutionProperties.RevisitIsCyclic | src/main/java/se/grenby/appembler/Appembler.java:94-95 | a class already in the touched set fails as cyclic, with nothing changed |
| ResolutionProperties.MissingRuleFails | src/main/java/se/grenby/appembler/Appembler.java:100-103 | a class no registered class is assignable to fails with "no assembly instructions" once entered, with no cache changed |
| ResolutionProperties.CachedIsReturned | src/main/java/se/grenby/appembler/Appembler.java:136-145 | a class cached in its scope's cache gets the cached object back, with no construction and no cache change |
| ResolutionProperties.ValuePrefix | src/main/java/se/grenby/appembler/Appembler.java:150-152 | literal specs touch nothing and change no cache |
| ResolutionProperties.BuildArgsValueRound | src/main/java/se/grenby/appembler/Appembler.java:151-152 | a literal round appends the literal and changes nothing else |
| ResolutionProperties.BuildArgsDependencyRound | src/main/java/se/grenby/appembler/Appembler.java:153-159 | a dependency round appends the dependency's object, or passes on its error, with its touched set and stores |
| ResolutionProperties.FailureSticks | src/main/java/se/grenby/appembler/Appembler.java:150-161 | after a failed round, later rounds change nothing (the exception ends the loop) |
| ResolutionProperties.ArgumentFailureFailsAssemble | src/main/java/se/grenby/appembler/Appembler.java:136-165 | an argument failure fails the request with the same error |
| ResolutionProperties.FirstDependencyFails | src/main/java/se/grenby/appembler/Appembler.java:147-159 | when the first non-literal spec's dependency fails, the request fails with that error |
| ResolutionProperties.EnteredDependencyFails | src/main/java/se/grenby/appembler/Appembler.java:94-98 | an uncached class whose spec at any position asks for itself or a class already entered never assembles; when the earlier specs succeed, the error is cyclic on that class |
| ResolutionProperties.SelfDependencyAlwaysFails | src/main/java/se/grenby/appembler/Appembler.java:94-98 | an uncached class naming itself at any position never assembles; cyclic on itself when the earlier specs succeed |
| ResolutionProperties.DependencyFailureFailsAssemble | src/main/java/se/grenby/appembler/Appembler.java:150-159 | a failure among the specs before position i, or of the dependency at i, fails the request |
| ResolutionProperties.NotEnteredStaysUncached | src/main/java/se/grenby/appembler/Appembler.java:136-140 | a class the argument loop has not entered is not cached by it |
| ResolutionProperties.MutualDependencyAlwaysFails | src/main/java/se/grenby/appembler/Appembler.java:94-98 | two uncached classes naming each other at any positions: a request for either never succeeds |
| ResolutionProperties.SelfDependencyRejected | src/main/java/se/grenby/appembler/Appembler.java:94-95 | a class whose first dependency is itself fails as cyclic |
| ResolutionProperties.MutualDependencyRejected | src/main/java/se/grenby/appembler/Appembler.java:94-95 | two classes each needing the other first: requesting one fails as cyclic on that class |
| ResolutionProperties.RepeatedDependencyRejected | src/main/java/se/grenby/appembler/Appembler.java:94-98 | a dependency class named at two positions fails as cyclic the second time it is met |
| ResolutionProperties.RepeatedDependencyAlwaysFails | src/main/java/se/grenby/appembler/Appembler.java:94-98 | a class not yet cached whose constructor names one dependency class twice never assembles |
| ResolutionProperties.SingletonIdentity | src/main/java/se/grenby/appembler/Appembler.java:112-114 | after one success, a later request on any thread, in any state whose caches extend those the first left, returns the same object and changes no cache |
| ResolutionProperties.ThreadLocalIdentity | src/main/java/se/grenby/appembler/Appembler.java:109-111 | after one success on a thread, a later request on that thread, in any state whose caches extend those the first left, returns the same object and changes nothing |
| ResolutionProperties.ThreadIsolation | src/main/java/se/grenby/appembler/Appembler.java:109-111 | a request on one thread never creates, drops or changes another thread's cache |
| ResolutionProperties.ConstructIsFresh | src/main/java/se/grenby/appembler/Appembler.java:164 | a constructed object is none of the objects already cached |
| ResolutionProperties.PrototypeFreshness | src/main/java/se/grenby/appembler/Appembler.java:106-108 | two successful PROTOTYPE requests return different objects |
| ResolutionProperties.ThreadLocalPerThread | src/main/java/se/grenby/appembler/Appembler.java:109-111 | a thread without its own object gets a new one, not another thread's |
| Assembler.Appembler.Assemble | src/main/java/se/grenby/appembler/Appembler.java:89-91 | the result and the new caches are those of `Resolution.Assemble` from an empty touched set; the assembler stays valid |
| Assembler.Appembler.AssembleWith | src/main/java/se/grenby/appembler/Appembler.java:93-119 | the result, touched set and caches are exactly those of `Resolution.Assemble`; the caches stay valid |
| Assembler.Appembler.ObtainByScope | src/main/java/se/grenby/appembler/Appembler.java:105-118 | each scope case behaves as AssembleDispatch states |
| Assembler.Appembler.ThreadLocalGet | src/main/java/se/grenby/appembler/Appembler.java:110 | the caches become `InitialThreadStore` of the old ones |
| Assembler.Appembler.ConstructOrRetrieve | src/main/java/se/grenby/appembler/Appembler.java:136-145 | result, touched set and caches are exactly those of `Resolution.ConstructOrRetrieve` |
| Assembler.Appembler.Construct | src/main/java/se/grenby/appembler/Appembler.java:147-165 | result, touched set and caches are exactly those of `Resolution.Construct` |
| Assembler.Appembler.Arguments | src/main/java/se/grenby/appembler/Appembler.java:148-161 | the loop's arguments, touched set and caches are exactly those of `BuildArgs` over all specs |
| Assembler.Appembler.Argument | src/main/java/se/grenby/appembler/Appembler.java:150-160 | one round moves the loop from `BuildArgs` over i specs to `BuildArgs` over i + 1 specs |
| ThreadLocalFinding.ThreadLocalGetAsWritten | src/main/java/se/grenby/appembler/Appembler.java:24 | `get()` is null iff the thread never set a value; otherwise it is the thread's map |
| ThreadLocalFinding.ThreadLocalBranchAsWritten | src/main/java/se/grenby/appembler/Appembler.java:109-111 | with a null `get()` the branch fails with a null dereference; otherwise it is `constructOrRetrieve` on the thread's map |
| ThreadLocalFinding.ThreadLocalAlwaysNullAsWritten | src/main/java/se/grenby/appembler/Appembler.java:136-138 | with nothing ever set, every THREAD_LOCAL request fails with a null dereference |
| ThreadLocalFinding.CounterRegistry | src/main/java/se/grenby/appembler/Appembler.java:57 | the registry with a single THREAD_LOCAL rule for `Counter` is valid and finds that rule |
| ThreadLocalFinding.ThreadLocalCounterexample | src/main/java/se/grenby/appembler/Appembler.java:109-111 | `assemble(Counter.class)` fails with a null dereference as written; corrected, it returns a new `Counter` cached for the thread |
| ThreadLocalFinding.ThreadLocalCorrectedSucceeds | src/main/java/se/grenby/appembler/Appembler.java:109-111 | corrected: when construction succeeds, the request returns the object and caches it for the calling thread |
| Scenarios.IncorrectParameterName | src/test/java/se/grenby/appembler/AppemblerTest.java:37-49 | a value spec named `wrong` for `Testing` fits no constructor |
| Scenarios.IncorrectValueType | src/test/java/se/grenby/appembler/AppemblerTest.java:51-63 | an Integer value for the String parameter `ett` fits no constructor |
| Scenarios.IncorrectReferenceType | src/test/java/se/grenby/appembler/AppemblerTest.java:65-78 | a reference to `Testing3` named `tva` fits no constructor of `Testing` |
| Scenarios.RegisterTesting | src/test/java/se/grenby/appembler/AppemblerTest.java:17-21 | the auto reference named `testing3` selects `Testing(String, Testing2, Testing3)` |
| Scenarios.RegisterTestingByInterface | src/test/java/se/grenby/appembler/AppemblerTest.java:108-112 | the auto reference named `testingInterface` selects `Testing(String, Testing2, TestingInterface)` |
| Scenarios.RegisterTesting2 | src/test/java/se/grenby/appembler/AppemblerTest.java:23-26 | a single `ett` literal selects `Testing2(String)` |
| Scenarios.RegisterTesting3 | src/test/java/se/grenby/appembler/AppemblerTest.java:27-30 | a single `ett` literal selects `Testing3(String)` |
| Scenarios.ThreeRules | src/test/java/se/grenby/appembler/AppemblerTest.java:15-30 | the registry after the three registrations is valid |
| Scenarios.AssembleLeaf | src/main/java/se/grenby/appembler/Appembler.java:112-114 | a SINGLETON class with one literal spec, not yet cached, is built from that literal and cached under its class |
| Scenarios.TestingFirstArguments | src/main/java/se/grenby/appembler/Appembler.java:150-154 | the first two arguments of `Testing` are the literal and a new `Testing2` |
| Scenarios.TestingArguments | src/main/java/se/grenby/appembler/Appembler.java:150-159 | the three arguments of `Testing` are the literal, a new `Testing2` and a new `Testing3`, cached in that order |
| Scenarios.AssembleTestingShape | src/main/java/se/grenby/appembler/Appembler.java:93-165 | `assemble(Testing.class)` returns a new `Testing` over those arguments; all three objects end up cached |
| Scenarios.SimpleScenario | src/test/java/se/grenby/appembler/AppemblerTest.java:13-35 | `simpleTest`: assembly of `Testing` succeeds with the expected object graph |
| Scenarios.ThreePutsLookup | src/main/java/se/grenby/appembler/Appembler.java:121-134 | a class with no rule, to which only the last of three registered classes is assignable, finds that class's rule |
| Scenarios.InterfaceLookup | src/test/java/se/grenby/appembler/AppemblerTest.java:104-121 | `TestingInterface` is served by the `Testing3` rule |
| Scenarios.InheritanceScenario | src/test/java/se/grenby/appembler/AppemblerTest.java:104-126 | `inheritanceTest`: the interface dependency is built from `Testing3`'s rule and assembly succeeds |
| Scenarios.CyclicScenario | src/test/java/se/grenby/appembler/AppemblerTest.java:81-102 | `cyclicTest`: `Testing` and `Testing2` needing each other fails as cyclic on `Testing` |
| Scenarios.RegisterCyclicTesting2 | src/test/java/se/grenby/appembler/AppemblerTest.java:91-95 | the cyclic `Testing2` instruction is accepted at registration |
| Scenarios.NoInstructionScenario | src/test/java/se/grenby/appembler/AppemblerTest.java:128-137 | `noInstructionTest`: assembly on an empty assembler fails with "no assembly instructions" |

## Left out

- Null literal objects and null classes in specs are not modelled; in the source they would throw inside the parameter check. A null name is modelled as `None`.
- The `System.out.println` debug output in `retrieveConstructionInstruction` and `construct` is left out: it is I/O with no effect on the result.
- Concurrency is left out. Threads are identities passed to each request, and requests run one after another. Races on the singleton cache are outside the model.
- Real reflection is replaced by a `Runtime` value that lists each class's public constructors in declaration order, with formal names and types, and the pairs (subtype, supertype) for `isAssignableFrom`.
- Constructor bodies are not modelled. A constructor either returns a new object, whose identity is drawn from a counter, or throws. `Ctor.raises` records which. The several reflective exceptions of `newInstance` are merged into one `ConstructorFailed` error.
- The order in which `HashMap` lists its entries is unspecified in Java. It is modelled as an explicit `order`: the order in which classes were first registered.
- Exceptions are modelled as `Err` results. The exception class names (`RuntimeException`, `IllegalStateException`) are not kept.
- The `default` branches that throw at Appembler.java:81-82 and :115-116 are unreachable: the enums have no other values. They are not modelled.
- `AssemblyInstructions.Builder.Build` returns a copy of the spec list. In the source, the built instruction shares the builder's `ArrayList`, so later builder calls would change it. That aliasing is not modelled.
- `AssemblyInstructions.Builder.Val`, `Ref` and `Auto`: the source builder calls the `AssemblyParameter` constructors with two or one arguments, while `AssemblyParameter.java` as shown only declares a four-argument constructor and three factories. The builder calls are modelled as the factories. Likewise, the type `AUTO_WIRE` checked in Appembler.java is taken to be `AUTO_REFERENCE`.
- ConstructionScope.java is not part of this model. Its three values PROTOTYPE, SINGLETON and THREAD_LOCAL are taken from their uses in Appembler.java.
- `Appembler.instruction` and `construct` are each split into two methods (`MatchingConstructors`, `Arguments`/`Argument`), and the scope switch of `assemble` into `ObtainByScope` and `ThreadLocalGet`. The steps and their order are unchanged.
- The touched set is passed in and returned. In the source it is one `HashSet` that the calls add to, and nothing ever removes from it.
- Resolution.Assemble, Resolution.ConstructOrRetrieve, Resolution.Construct and Resolution.BuildArgs: each function's own contract states only that the touched set grows. What they compute is stated by the ResolutionInvariants and ResolutionProperties lemmas, which call them.
- Assembler.Appembler.ThreadLocalGet models the corrected ThreadLocal (an empty map on first use), not the source as written (see Findings).

## Findings

| source | as written | input that shows it | evidently intended | confidence | as-written member | corrected member |
|---|---|---|---|---|---|---|
| src/main/java/se/grenby/appembler/Appembler.java:24 (used at :109-110 and :138) | `threadLocalInstances` is `new ThreadLocal<>()` and nothing ever calls `set`, so `get()` returns null; `constructOrRetrieve` then throws a NullPointerException at `map.get(klass)` | register `Counter` with scope THREAD_LOCAL, then `assemble(Counter.class)` | `ThreadLocal.withInitial(HashMap::new)`: each thread gets an empty cache on first use | high, not executed | ThreadLocalFinding.ThreadLocalCounterexample | Resolution.InitialThreadStore |
