/**
 * Constructor selection at registration (`Appembler.instruction` and
 * `isCorrectConstructorParameter`), as functions over the reflected
 * constructors.
 */
module ConstructorMatching {
  import opened Reflection
  import opened Outcomes
  import opened AssemblyParameters
  import opened AssemblyInstructions
  import opened Rules

  /** A named spec must carry the formal parameter's name; an unnamed one fits any name. */
  predicate NameMatches(ap: AssemblyParameter, cp: Formal)
  {
    ap.name.None? || ap.name.value == cp.name
  }

  /** Whether spec `ap` fits formal parameter `cp`. */
  predicate IsCorrectConstructorParameter(rt: Runtime, ap: AssemblyParameter, cp: Formal): (ok: bool)
    ensures ok ==> NameMatches(ap, cp)
    ensures ap.AutoReference? ==> (ok <==> NameMatches(ap, cp))
  {
    NameMatches(ap, cp) &&
    match ap
    case Value(_, o) => o.klass == cp.paramType
    case Reference(_, k) => rt.IsAssignableFrom(cp.paramType, k)
    case AutoReference(_) => true
  }

  /** The four rules of the per-position check, each in both directions. */
  lemma ParameterCheck(rt: Runtime, ap: AssemblyParameter, cp: Formal)
    ensures ap.name.Some? && ap.name.value != cp.name ==> !IsCorrectConstructorParameter(rt, ap, cp)
    ensures NameMatches(ap, cp) && ap.Value? ==> (IsCorrectConstructorParameter(rt, ap, cp) <==> ap.obj.klass == cp.paramType)
    ensures NameMatches(ap, cp) && ap.Reference? ==> (IsCorrectConstructorParameter(rt, ap, cp) <==> rt.IsAssignableFrom(cp.paramType, ap.klass))
    ensures NameMatches(ap, cp) && ap.AutoReference? ==> IsCorrectConstructorParameter(rt, ap, cp)
  {
  }

  /** The counter `correctParameters` after the first `n` positions. */
  function CountCorrect(rt: Runtime, aps: seq<AssemblyParameter>, cps: seq<Formal>, n: nat): (count: nat)
    requires n <= |aps| && n <= |cps|
    ensures count <= n
    ensures count == 0 <==> forall i :: 0 <= i < n ==> !IsCorrectConstructorParameter(rt, aps[i], cps[i])
  {
    if n == 0 then 0
    else CountCorrect(rt, aps, cps, n - 1) + (if IsCorrectConstructorParameter(rt, aps[n - 1], cps[n - 1]) then 1 else 0)
  }

  /** The counter reaches `n` exactly when every one of the first `n` positions passes. */
  lemma {:induction false} CountCorrectReachesSize(rt: Runtime, aps: seq<AssemblyParameter>, cps: seq<Formal>, n: nat)
    requires n <= |aps| && n <= |cps|
    ensures CountCorrect(rt, aps, cps, n) <= n
    ensures CountCorrect(rt, aps, cps, n) == n <==>
              forall i :: 0 <= i < n ==> IsCorrectConstructorParameter(rt, aps[i], cps[i])
  {
    if n > 0 {
      CountCorrectReachesSize(rt, aps, cps, n - 1);
    }
  }

  /** A constructor fits the specs: same arity, and every position passes. */
  predicate FullMatch(rt: Runtime, aps: seq<AssemblyParameter>, c: Ctor)
  {
    |c.formals| == |aps| &&
    forall i :: 0 <= i < |aps| ==> IsCorrectConstructorParameter(rt, aps[i], c.formals[i])
  }

  /** A constructor fits exactly when it passes the arity test and the counter test of `instruction`. */
  lemma FullMatchByCounter(rt: Runtime, aps: seq<AssemblyParameter>, c: Ctor)
    ensures FullMatch(rt, aps, c) <==> |c.formals| == |aps| && CountCorrect(rt, aps, c.formals, |aps|) == |aps|
  {
    if |c.formals| == |aps| {
      CountCorrectReachesSize(rt, aps, c.formals, |aps|);
    }
  }

  /** The list `constructionInstructions`: the fitting constructors of `cs`, in order. */
  function Candidates(rt: Runtime, aps: seq<AssemblyParameter>, cs: seq<Ctor>): (r: seq<Ctor>)
    ensures forall c :: c in r <==> c in cs && FullMatch(rt, aps, c)
  {
    if cs == [] then []
    else
      var init, last := cs[..|cs| - 1], cs[|cs| - 1];
      assert cs == init + [last];
      Candidates(rt, aps, init) + (if FullMatch(rt, aps, last) then [last] else [])
  }

  /** None fits exactly when the list is empty. */
  lemma CandidatesEmpty(rt: Runtime, aps: seq<AssemblyParameter>, cs: seq<Ctor>)
    ensures |Candidates(rt, aps, cs)| == 0 <==> forall i :: 0 <= i < |cs| ==> !FullMatch(rt, aps, cs[i])
  {
    var r := Candidates(rt, aps, cs);
    if r == [] {
      forall i | 0 <= i < |cs| ensures !FullMatch(rt, aps, cs[i]) {
        assert cs[i] in cs;
      }
    } else {
      assert r[0] in r;
    }
  }

  /** Two positions of `cs` fit. */
  predicate TwoFit(rt: Runtime, aps: seq<AssemblyParameter>, cs: seq<Ctor>)
  {
    exists i, j :: 0 <= i < j < |cs| && FullMatch(rt, aps, cs[i]) && FullMatch(rt, aps, cs[j])
  }

  /** Two or more constructors are listed only when two positions fit. */
  lemma {:induction false} ManyCandidatesTwoFit(rt: Runtime, aps: seq<AssemblyParameter>, cs: seq<Ctor>)
    requires |Candidates(rt, aps, cs)| >= 2
    ensures TwoFit(rt, aps, cs)
  {
    var init, last := cs[..|cs| - 1], cs[|cs| - 1];
    assert cs == init + [last];
    var ri := Candidates(rt, aps, init);
    if FullMatch(rt, aps, last) {
      assert ri[0] in ri;
      var i :| 0 <= i < |init| && init[i] == ri[0];
      assert FullMatch(rt, aps, cs[i]) && FullMatch(rt, aps, cs[|cs| - 1]);
    } else {
      ManyCandidatesTwoFit(rt, aps, init);
      var i, j :| 0 <= i < j < |init| && FullMatch(rt, aps, init[i]) && FullMatch(rt, aps, init[j]);
      assert cs[i] == init[i] && cs[j] == init[j];
    }
  }

  /** When two positions fit, two or more constructors are listed. */
  lemma {:induction false} TwoFitManyCandidates(rt: Runtime, aps: seq<AssemblyParameter>, cs: seq<Ctor>, i: nat, j: nat)
    requires i < j < |cs| && FullMatch(rt, aps, cs[i]) && FullMatch(rt, aps, cs[j])
    ensures |Candidates(rt, aps, cs)| >= 2
  {
    var init, last := cs[..|cs| - 1], cs[|cs| - 1];
    assert cs == init + [last];
    if j < |cs| - 1 {
      assert init[i] == cs[i] && init[j] == cs[j];
      TwoFitManyCandidates(rt, aps, init, i, j);
    } else {
      assert init[i] == cs[i] && init[i] in init;
      assert |Candidates(rt, aps, init)| >= 1;
    }
  }

  /** Two or more constructors are listed exactly when two positions fit. */
  lemma CandidatesMany(rt: Runtime, aps: seq<AssemblyParameter>, cs: seq<Ctor>)
    ensures |Candidates(rt, aps, cs)| >= 2 <==> TwoFit(rt, aps, cs)
  {
    if |Candidates(rt, aps, cs)| >= 2 {
      ManyCandidatesTwoFit(rt, aps, cs);
    }
    if TwoFit(rt, aps, cs) {
      var i, j :| 0 <= i < j < |cs| && FullMatch(rt, aps, cs[i]) && FullMatch(rt, aps, cs[j]);
      TwoFitManyCandidates(rt, aps, cs, i, j);
    }
  }

  /**
   * Registration's choice of constructor for an instruction: the one
   * constructor of the target class that fits its specs, as a rule carrying
   * the instruction's scope and specs; an error when none or several fit.
   */
  function SelectConstructor(rt: Runtime, ai: AssemblyInstruction): (r: Result<Rule>)
    ensures r.Ok? ==> r.value.target == ai.klass && r.value.scope == ai.scope &&
                      r.value.params == ai.assemblyParameters && r.value.WellFormed()
    ensures r.Ok? ==> r.value.ctor in rt.GetConstructors(ai.klass) && FullMatch(rt, ai.assemblyParameters, r.value.ctor)
    ensures r.Ok? ==> forall c :: c in rt.GetConstructors(ai.klass) && FullMatch(rt, ai.assemblyParameters, c) ==> c == r.value.ctor
    ensures r == Err(NoMatchingConstructor) <==>
              forall i :: 0 <= i < |rt.GetConstructors(ai.klass)| ==> !FullMatch(rt, ai.assemblyParameters, rt.GetConstructors(ai.klass)[i])
    ensures r == Err(MultipleMatchingConstructors) <==> TwoFit(rt, ai.assemblyParameters, rt.GetConstructors(ai.klass))
    ensures r.Ok? || r == Err(NoMatchingConstructor) || r == Err(MultipleMatchingConstructors)
  {
    var found := Candidates(rt, ai.assemblyParameters, rt.GetConstructors(ai.klass));
    CandidatesEmpty(rt, ai.assemblyParameters, rt.GetConstructors(ai.klass));
    CandidatesMany(rt, ai.assemblyParameters, rt.GetConstructors(ai.klass));
    if |found| == 0 then Err(NoMatchingConstructor)
    else if |found| == 1 then
      assert found[0] in found;
      Ok(Rule(ai.klass, found[0], ai.scope, ai.assemblyParameters))
    else Err(MultipleMatchingConstructors)
  }

  /** When exactly one constructor of the class fits, registration selects it. */
  lemma UniqueFitSelected(rt: Runtime, ai: AssemblyInstruction, j: nat)
    requires j < |rt.GetConstructors(ai.klass)| && FullMatch(rt, ai.assemblyParameters, rt.GetConstructors(ai.klass)[j])
    requires forall i :: 0 <= i < |rt.GetConstructors(ai.klass)| && i != j ==> !FullMatch(rt, ai.assemblyParameters, rt.GetConstructors(ai.klass)[i])
    ensures SelectConstructor(rt, ai) == Ok(Rule(ai.klass, rt.GetConstructors(ai.klass)[j], ai.scope, ai.assemblyParameters))
  {
    var cs := rt.GetConstructors(ai.klass);
    var r := SelectConstructor(rt, ai);
    assert !TwoFit(rt, ai.assemblyParameters, cs);
    assert r.Ok?;
    var k :| 0 <= k < |cs| && cs[k] == r.value.ctor;
    assert k == j;
  }
}
