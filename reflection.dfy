/**
 * What the assembler learns through Java reflection, as plain values: the
 * classes, their public constructors with their formal parameters, and the
 * assignability relation between classes.
 */
module Reflection {

  /** A class or interface, identified by its name. */
  datatype Klass = Klass(name: string)

  /** One formal parameter of a constructor: its reported name and its declared type. */
  datatype Formal = Formal(name: string, paramType: Klass)

  /**
   * A public constructor: its formal parameters in order, and whether invoking
   * it raises (its body throws, or the class cannot be instantiated).
   */
  datatype Ctor = Ctor(formals: seq<Formal>, raises: bool)

  /**
   * A Java object: a literal handed to the builder by the user, or an
   * instance the assembler built. An instance's identity is its `id`.
   */
  datatype Obj =
    | Literal(klass: Klass, text: string)
    | Instance(id: nat, klass: Klass, args: seq<Obj>)

  /**
   * The loaded classes: the public constructors of each class (a class absent
   * from the table, an interface say, has none) and the direct and indirect
   * supertypes of each class, as pairs (subtype, supertype).
   */
  datatype Runtime = Runtime(constructorTable: map<Klass, seq<Ctor>>, supertypes: set<(Klass, Klass)>)
  {
    /** `Class.getConstructors`. */
    function GetConstructors(k: Klass): seq<Ctor>
    {
      if k in constructorTable then constructorTable[k] else []
    }

    /** `to.isAssignableFrom(from)`: equal classes, or `to` is a supertype of `from`. */
    predicate IsAssignableFrom(to: Klass, from: Klass)
    {
      to == from || (from, to) in supertypes
    }
  }
}
