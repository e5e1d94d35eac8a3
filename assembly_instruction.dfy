/** A rule as the user describes it, and the builder that collects it (AssemblyInstruction.java). */
module AssemblyInstructions {
  import opened Reflection
  import opened Outcomes
  import opened AssemblyParameters

  /** Lifecycle policy of a rule (the `ConstructionScope` enum). */
  datatype ConstructionScope = Prototype | Singleton | ThreadLocal

  /** A finished instruction: the target class, its scope and its parameter specs in order. */
  datatype AssemblyInstruction = AssemblyInstruction(
    klass: Klass,
    scope: ConstructionScope,
    assemblyParameters: seq<AssemblyParameter>)

  /** `AssemblyInstruction.Builder`: each call appends one spec, in call order. */
  class Builder {
    const klass: Klass
    var scope: ConstructionScope
    var assemblyParameters: seq<AssemblyParameter>

    constructor (klass: Klass)
      ensures this.klass == klass
      ensures scope == Singleton && assemblyParameters == []
    {
      this.klass := klass;
      scope := Singleton;
      assemblyParameters := [];
    }

    /** Sets the scope; returns the builder itself for chaining. */
    method S(scope: ConstructionScope) returns (b: Builder)
      modifies this`scope
      ensures b == this
      ensures this.scope == scope
    {
      this.scope := scope;
      b := this;
    }

    method Val(name: Option<string>, o: Obj) returns (b: Builder)
      modifies this`assemblyParameters
      ensures b == this
      ensures assemblyParameters == old(assemblyParameters) + [ValueParameter(name, o)]
    {
      assemblyParameters := assemblyParameters + [ValueParameter(name, o)];
      b := this;
    }

    method Ref(name: Option<string>, k: Klass) returns (b: Builder)
      modifies this`assemblyParameters
      ensures b == this
      ensures assemblyParameters == old(assemblyParameters) + [ReferenceParameter(name, k)]
    {
      assemblyParameters := assemblyParameters + [ReferenceParameter(name, k)];
      b := this;
    }

    method Auto(name: Option<string>) returns (b: Builder)
      modifies this`assemblyParameters
      ensures b == this
      ensures assemblyParameters == old(assemblyParameters) + [AutoReferenceParameter(name)]
    {
      assemblyParameters := assemblyParameters + [AutoReferenceParameter(name)];
      b := this;
    }

    /** The instruction carries exactly the builder's class, scope and specs. */
    method Build() returns (ai: AssemblyInstruction)
      ensures ai.klass == klass && ai.scope == scope
      ensures ai.assemblyParameters == assemblyParameters
    {
      ai := AssemblyInstruction(klass, scope, assemblyParameters);
    }
  }
}
