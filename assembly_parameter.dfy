/** One argument source of a construction rule (AssemblyParameter.java). */
module AssemblyParameters {
  import opened Reflection
  import opened Outcomes

  /** The kind of a parameter spec (`AssemblyParameter.Type`). */
  datatype ParameterType = ValueType | ReferenceType | AutoReferenceType

  /**
   * A parameter spec. `name` is None when the user gave no name, which means
   * "no name constraint". A spec is immutable once created.
   *   Value:         a literal object passed as it is;
   *   Reference:     an object of class `klass`, assembled recursively;
   *   AutoReference: an object of the matched constructor's formal type.
   */
  datatype AssemblyParameter =
    | Value(name: Option<string>, obj: Obj)
    | Reference(name: Option<string>, klass: Klass)
    | AutoReference(name: Option<string>)
  {
    function GetType(): (kind: ParameterType)
      ensures kind == ValueType <==> Value?
      ensures kind == ReferenceType <==> Reference?
      ensures kind == AutoReferenceType <==> AutoReference?
    {
      match this
      case Value(_, _) => ValueType
      case Reference(_, _) => ReferenceType
      case AutoReference(_) => AutoReferenceType
    }

    /** The class of a reference spec; null (None) for the other kinds. */
    function GetKlass(): (k: Option<Klass>)
      ensures k.Some? <==> Reference?
      ensures k.Some? ==> k.value == klass
    {
      if Reference? then Some(klass) else None
    }

    /** The object of a value spec; null (None) for the other kinds. */
    function GetObject(): (o: Option<Obj>)
      ensures o.Some? <==> Value?
      ensures o.Some? ==> o.value == obj
    {
      if Value? then Some(obj) else None
    }
  }

  /** The factory `AssemblyParameter.value`. */
  function ValueParameter(name: Option<string>, o: Obj): (p: AssemblyParameter)
    ensures p.GetType() == ValueType && p.name == name
    ensures p.GetObject() == Some(o) && p.GetKlass() == None
  {
    Value(name, o)
  }

  /** The factory `AssemblyParameter.reference`. */
  function ReferenceParameter(name: Option<string>, k: Klass): (p: AssemblyParameter)
    ensures p.GetType() == ReferenceType && p.name == name
    ensures p.GetKlass() == Some(k) && p.GetObject() == None
  {
    Reference(name, k)
  }

  /** The factory `AssemblyParameter.autoReference`. */
  function AutoReferenceParameter(name: Option<string>): (p: AssemblyParameter)
    ensures p.GetType() == AutoReferenceType && p.name == name
    ensures p.GetKlass() == None && p.GetObject() == None
  {
    AutoReference(name)
  }

  /** The kind alone determines which of the class and the object are present. */
  lemma KindDeterminesFields(p: AssemblyParameter)
    ensures p.GetKlass().Some? <==> p.GetType() == ReferenceType
    ensures p.GetObject().Some? <==> p.GetType() == ValueType
    ensures p.GetType() == AutoReferenceType ==> p.GetKlass().None? && p.GetObject().None?
  {
  }
}
