/**
 * Stored construction rules (Appembler.ConstructionInstruction) and the rule
 * registry (the `constructors` map), with the rule lookup of
 * `retrieveConstructionInstruction`.
 */
module Rules {
  import opened Reflection
  import opened Outcomes
  import opened AssemblyParameters
  import opened AssemblyInstructions

  /** A rule: the class it builds, the chosen constructor, the scope and the specs, index-aligned. */
  datatype Rule = Rule(target: Klass, ctor: Ctor, scope: ConstructionScope, params: seq<AssemblyParameter>)
  {
    /** One spec per formal parameter of the chosen constructor. */
    predicate WellFormed()
    {
      |params| == |ctor.formals|
    }

    /**
     * The class that spec `i` is resolved to: the declared class of a
     * reference, the formal type at the same index for an auto reference.
     */
    function Dependency(i: nat): Klass
      requires WellFormed() && i < |params| && !params[i].Value?
    {
      match params[i]
      case Reference(_, k) => k
      case AutoReference(_) => ctor.formals[i].paramType
    }

    /** The classes that the first `n` specs are resolved to. */
    ghost function DependenciesBefore(n: nat): set<Klass>
      requires WellFormed() && n <= |params|
    {
      if n == 0 then {}
      else DependenciesBefore(n - 1) + (if params[n - 1].Value? then {} else {Dependency(n - 1)})
    }

    lemma {:induction false} DependencyBefore(i: nat, n: nat)
      requires WellFormed() && i < n <= |params| && !params[i].Value?
      ensures Dependency(i) in DependenciesBefore(n)
    {
      if i < n - 1 {
        DependencyBefore(i, n - 1);
      }
    }
  }

  /**
   * The registry: the rules by target class, and `order`, the order in which
   * the registry's entries are enumerated (the order in which their classes
   * were first registered).
   */
  datatype Registry = Registry(rt: Runtime, rules: map<Klass, Rule>, order: seq<Klass>)
  {
    ghost predicate Valid()
    {
      (forall k :: k in rules <==> k in order) &&
      (forall i, j :: 0 <= i < j < |order| ==> order[i] != order[j]) &&
      (forall k :: k in rules ==> rules[k].target == k) &&
      (forall r :: r in rules.Values ==> r.WellFormed())
    }

    /**
     * Every class a resolution can enter below the top-level request: the
     * registered classes and their rules' dependencies. Finite, so
     * resolution ends.
     */
    ghost function Classes(): set<Klass>
      requires Valid()
    {
      ClassesBefore(|order|)
    }

    /** The classes of the first `n` entries in enumeration order, with their dependencies. */
    ghost function ClassesBefore(n: nat): set<Klass>
      requires Valid() && n <= |order|
    {
      if n == 0 then {}
      else
        var rule := rules[order[n - 1]];
        ClassesBefore(n - 1) + {order[n - 1]} + rule.DependenciesBefore(|rule.params|)
    }

    lemma {:induction false} ClassesBeforeHold(j: nat, n: nat)
      requires Valid() && j < n <= |order|
      ensures var rule := rules[order[j]]; rule.DependenciesBefore(|rule.params|) <= ClassesBefore(n)
    {
      if j < n - 1 {
        ClassesBeforeHold(j, n - 1);
      }
    }

    /** Every class that a registered rule's spec `i` resolves to is one of `Classes()`. */
    lemma DependencyInClasses(rule: Rule, i: nat)
      requires Valid() && rule in rules.Values
      requires i < |rule.params| && !rule.params[i].Value?
      ensures rule.WellFormed() && rule.Dependency(i) in Classes()
    {
      var k :| k in rules && rules[k] == rule;
      var j :| 0 <= j < |order| && order[j] == k;
      ClassesBeforeHold(j, |order|);
      rule.DependencyBefore(i, |rule.params|);
    }

    /** `constructors.put(rule.target, rule)`: a new class joins the end of the enumeration order. */
    function Put(rule: Rule): (r: Registry)
      requires Valid() && rule.WellFormed()
      ensures r.Valid()
      ensures r.rt == rt && rule.target in r.rules && r.rules[rule.target] == rule
      ensures forall k :: k != rule.target ==> (k in r.rules <==> k in rules) && (k in rules ==> r.rules[k] == rules[k])
    {
      Registry(rt, rules[rule.target := rule], if rule.target in rules then order else order + [rule.target])
    }

    /** The scan over the first `n` entries: the last one whose class is assignable to `k`. */
    function Scan(k: Klass, n: nat): (r: Option<Rule>)
      requires Valid() && n <= |order|
      ensures r.Some? ==> r.value in rules.Values && rt.IsAssignableFrom(k, r.value.target)
    {
      if n == 0 then None
      else if rt.IsAssignableFrom(k, order[n - 1]) then Some(rules[order[n - 1]])
      else Scan(k, n - 1)
    }

    /** The scan finds nothing exactly when no entry is assignable, and otherwise the last assignable one. */
    lemma {:induction false} ScanFindsLast(k: Klass, n: nat)
      requires Valid() && n <= |order|
      ensures Scan(k, n).None? <==> forall i :: 0 <= i < n ==> !rt.IsAssignableFrom(k, order[i])
      ensures Scan(k, n).Some? ==>
                exists i :: 0 <= i < n && Scan(k, n).value == rules[order[i]] && rt.IsAssignableFrom(k, order[i]) &&
                            forall j :: i < j < n ==> !rt.IsAssignableFrom(k, order[j])
    {
      if n > 0 && !rt.IsAssignableFrom(k, order[n - 1]) {
        ScanFindsLast(k, n - 1);
      }
    }

    /**
     * The rule used for a request of class `k`: its own rule if there is one;
     * otherwise the rule of the last enumerated class assignable to `k`.
     */
    function Lookup(k: Klass): (r: Option<Rule>)
      requires Valid()
      ensures r.Some? ==> r.value in rules.Values && r.value.WellFormed() && rt.IsAssignableFrom(k, r.value.target)
    {
      if k in rules then Some(rules[k]) else Scan(k, |order|)
    }

    /**
     * The class's own rule comes first; without one, nothing is found exactly
     * when no registered class is assignable to `k`, and otherwise the rule of
     * the last such class in enumeration order.
     */
    lemma LookupFindsOwnOrLast(k: Klass)
      requires Valid()
      ensures k in rules ==> Lookup(k) == Some(rules[k])
      ensures k !in rules ==> (Lookup(k).None? <==> forall i :: 0 <= i < |order| ==> !rt.IsAssignableFrom(k, order[i]))
      ensures k !in rules && Lookup(k).Some? ==>
                exists i :: 0 <= i < |order| && Lookup(k).value == rules[order[i]] && rt.IsAssignableFrom(k, order[i]) &&
                            forall j :: i < j < |order| ==> !rt.IsAssignableFrom(k, order[j])
    {
      ScanFindsLast(k, |order|);
    }
  }
}
