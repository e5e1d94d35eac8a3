/** Success and failure values, and the errors the assembler raises. */
module Outcomes {
  import opened Reflection

  datatype Option<+T> = None | Some(value: T)

  /** The exceptions thrown by registration and assembly, one constructor each. */
  datatype Error =
    | NoMatchingConstructor                 // registration: no constructor fits the specs
    | MultipleMatchingConstructors          // registration: more than one constructor fits
    | CyclicDependency(klass: Klass)        // assembly: a class was entered twice in one call
    | NoAssemblyInstructions(klass: Klass)  // assembly: no rule for the class or a subtype of it
    | ConstructorFailed(klass: Klass)       // assembly: invoking the chosen constructor raised
    | NullPointer                           // a null reference was dereferenced

  datatype Result<+T> = Ok(value: T) | Err(error: Error)

  /** The outcome of an operation that returns nothing (a Java `void` method). */
  datatype Outcome = Pass | Fail(error: Error)
}
