/** Order independence of the whole canonical spec of a pod. */
module PodOrder {
  import opened Types
  import opened Ordering
  import opened TermOrder
  import opened Domain
  import opened Canonical
  import opened CanonicalOrder

  /** The same pod but for the order of its affinity terms and tolerations. */
  ghost predicate SameLists(p: PodSpec, p': PodSpec) {
    && p'.nodeSelector == p.nodeSelector
    && (p'.affinity.Some? <==> p.affinity.Some?)
    && (p.affinity.Some? ==> multiset(p'.affinity.value) == multiset(p.affinity.value))
    && multiset(p'.tolerations) == multiset(p.tolerations)
  }

  /** Every spec that is built from the pod, in whatever order its lists come, is the same. */
  ghost predicate PodOrderFree(p: PodSpec, jsonTerm: seq<Requirement> -> string, jsonTol: Toleration -> string) {
    forall p', spec, spec' |
      SameLists(p, p') && BuiltFrom(p, spec, jsonTerm, jsonTol) && BuiltFrom(p', spec', jsonTerm, jsonTol) ::
      spec == spec'
  }

  /** Joined values tell the requirements of each term apart, and three and more terms all say the same. */
  predicate TermsSafe(terms: seq<Term>) {
    && (forall t | t in terms :: JoinTellsApart(Merged(t)))
    && (|terms| <= 2 || forall t, t' | t in terms && t' in terms :: multiset(Merged(t)) == multiset(Merged(t')))
  }

  ghost predicate OrderSafe(p: PodSpec) {
    && (p.affinity.Some? ==> TermsSafe(p.affinity.value))
    && (|p.tolerations| <= 2 || AllEqual(p.tolerations))
  }

  lemma FormsAreCanonical(terms: seq<Term>)
    ensures CanonicalTermList(terms, Map(Form, terms))
  {
    forall i | 0 <= i < |terms|
      ensures CanonicalTerm(terms[i], Map(Form, terms)[i])
    {
      FormIsCanonical(terms[i]);
    }
  }

  lemma OnlyForms(terms: seq<Term>, cs: seq<seq<Requirement>>)
    requires CanonicalTermList(terms, cs) && forall t | t in terms :: JoinTellsApart(Merged(t))
    ensures cs == Map(Form, terms)
  {
    forall i | 0 <= i < |terms|
      ensures cs[i] == Form(terms[i])
    {
      FormIsCanonical(terms[i]);
      SameMergedSameCanonical(terms[i], terms[i], cs[i], Form(terms[i]));
    }
  }

  /** Terms say the same exactly if their forms are equal. */
  lemma FormsEqual(terms: seq<Term>)
    requires forall t | t in terms :: JoinTellsApart(Merged(t))
    ensures AllEqual(Map(Form, terms)) <==>
            forall t, t' | t in terms && t' in terms :: multiset(Merged(t)) == multiset(Merged(t'))
  {
    forall t, t' | t in terms && t' in terms
      ensures Form(t) in Map(Form, terms)
      ensures Form(t) == Form(t') <==> multiset(Merged(t)) == multiset(Merged(t'))
    {
      var i :| 0 <= i < |terms| && terms[i] == t;
      assert Map(Form, terms)[i] == Form(t);
      FormIsCanonical(t);
      FormIsCanonical(t');
      if multiset(Merged(t)) == multiset(Merged(t')) {
        SameMergedSameCanonical(t, t', Form(t), Form(t'));
      }
    }
    if forall t, t' | t in terms && t' in terms :: multiset(Merged(t)) == multiset(Merged(t')) {
      forall x, y | x in Map(Form, terms) && y in Map(Form, terms)
        ensures x == y
      {
        var i :| 0 <= i < |terms| && Map(Form, terms)[i] == x;
        var j :| 0 <= j < |terms| && Map(Form, terms)[j] == y;
        assert terms[i] in terms && terms[j] in terms;
      }
    }
  }

  /** Sorted lists of canonical terms coincide for permuted safe terms. */
  lemma SafeTerms(terms: seq<Term>, terms': seq<Term>, cs: seq<seq<Requirement>>, cs': seq<seq<Requirement>>,
                  jsonTerm: seq<Requirement> -> string)
    requires Injective(jsonTerm) && TermsSafe(terms) && multiset(terms') == multiset(terms)
    requires CanonicalTermList(terms, cs) && CanonicalTermList(terms', cs')
    ensures SortTerms(cs, jsonTerm) == SortTerms(cs', jsonTerm)
  {
    forall t | t in terms'
      ensures t in terms
    {
      assert t in multiset(terms');
    }
    OnlyForms(terms, cs);
    OnlyForms(terms', cs');
    MapPermutes(Form, terms, terms');
    FormsEqual(terms);
    OrderIndependenceExact(cs, jsonTerm);
  }

  lemma SafeIsFree(p: PodSpec, jsonTerm: seq<Requirement> -> string, jsonTol: Toleration -> string)
    requires Injective(jsonTerm) && Injective(jsonTol) && OrderSafe(p)
    ensures PodOrderFree(p, jsonTerm, jsonTol)
  {
    forall p', spec, spec' |
      SameLists(p, p') && BuiltFrom(p, spec, jsonTerm, jsonTol) && BuiltFrom(p', spec', jsonTerm, jsonTol)
      ensures spec == spec'
    {
      OrderIndependenceExact(p.tolerations, jsonTol);
      if p.affinity.Some? {
        var cs :| CanonicalTermList(p.affinity.value, cs) && spec.affinity.value == SortTerms(cs, jsonTerm);
        var cs' :| CanonicalTermList(p'.affinity.value, cs') && spec'.affinity.value == SortTerms(cs', jsonTerm);
        SafeTerms(p.affinity.value, p'.affinity.value, cs, cs', jsonTerm);
      }
    }
  }

  /** Two different sorted lists of canonical terms, for unsafe terms in one order or two. */
  lemma UnsafeTerms(terms: seq<Term>, jsonTerm: seq<Requirement> -> string)
    returns (terms': seq<Term>, cs: seq<seq<Requirement>>, cs': seq<seq<Requirement>>)
    requires Injective(jsonTerm) && !TermsSafe(terms)
    ensures multiset(terms') == multiset(terms)
    ensures CanonicalTermList(terms, cs) && CanonicalTermList(terms', cs')
    ensures SortTerms(cs, jsonTerm) != SortTerms(cs', jsonTerm)
  {
    cs := Map(Form, terms);
    FormsAreCanonical(terms);
    if t :| t in terms && !JoinTellsApart(Merged(t)) {
      terms' := terms;
      var i :| 0 <= i < |terms| && terms[i] == t;
      cs, cs' := AmbiguousForms(terms, i, jsonTerm);
    } else {
      FormsEqual(terms);
      OrderIndependenceExact(cs, jsonTerm);
      var p :| multiset(p) == multiset(cs) && SortTerms(p, jsonTerm) != SortTerms(cs, jsonTerm);
      terms' := LiftPermutation(Form, terms, p);
      cs' := p;
      FormsAreCanonical(terms');
    }
  }

  lemma AmbiguousForms(terms: seq<Term>, i: nat, jsonTerm: seq<Requirement> -> string)
    returns (cs: seq<seq<Requirement>>, cs': seq<seq<Requirement>>)
    requires i < |terms| && !JoinTellsApart(Merged(terms[i]))
    ensures CanonicalTermList(terms, cs) && CanonicalTermList(terms, cs')
    ensures SortTerms(cs, jsonTerm) != SortTerms(cs', jsonTerm)
  {
    OneFormExact(terms[i]);
    var c, d :| CanonicalTerm(terms[i], c) && CanonicalTerm(terms[i], d) && c != d;
    cs, cs' := FormsWith(terms, i, c), FormsWith(terms, i, d);
    OtherForm(terms, i, c);
    OtherForm(terms, i, d);
    DifferentAt(Map(Form, terms), i, c, d);
    SortTermsPermutes(cs, jsonTerm);
    SortTermsPermutes(cs', jsonTerm);
  }

  function FormsWith(terms: seq<Term>, i: nat, c: seq<Requirement>): seq<seq<Requirement>>
    requires i < |terms|
  {
    Map(Form, terms)[i := c]
  }

  lemma OtherForm(terms: seq<Term>, i: nat, c: seq<Requirement>)
    requires i < |terms| && CanonicalTerm(terms[i], c)
    ensures CanonicalTermList(terms, FormsWith(terms, i, c))
  {
    FormsAreCanonical(terms);
  }

  lemma DifferentAt<T>(s: seq<T>, i: nat, x: T, y: T)
    requires i < |s| && x != y
    ensures multiset(s[i := x]) != multiset(s[i := y])
  {
    RemovedAt(s[i := x], i);
    RemovedAt(s[i := y], i);
    assert Without(s[i := x], i) == Without(s[i := y], i);
    var rest := multiset(Without(s[i := x], i));
    assert (rest + multiset{x})[x] == rest[x] + 1 && (rest + multiset{y})[x] == rest[x];
  }

  lemma UnsafeIsNotFree(p: PodSpec, jsonTerm: seq<Requirement> -> string, jsonTol: Toleration -> string)
    requires Injective(jsonTerm) && Injective(jsonTol) && !OrderSafe(p)
    ensures !PodOrderFree(p, jsonTerm, jsonTol)
  {
    if p.affinity.Some? && !TermsSafe(p.affinity.value) {
      var terms', cs, cs' := UnsafeTerms(p.affinity.value, jsonTerm);
      var tols := SortTerms(p.tolerations, jsonTol);
      var p' := p.(affinity := Some(terms'));
      var spec := DomainSpec(p.nodeSelector, Some(SortTerms(cs, jsonTerm)), tols);
      var spec' := DomainSpec(p.nodeSelector, Some(SortTerms(cs', jsonTerm)), tols);
      assert BuiltFrom(p, spec, jsonTerm, jsonTol) && BuiltFrom(p', spec', jsonTerm, jsonTol) && spec != spec';
    } else {
      OrderIndependenceExact(p.tolerations, jsonTol);
      var tols :| multiset(tols) == multiset(p.tolerations) && SortTerms(tols, jsonTol) != SortTerms(p.tolerations, jsonTol);
      var affinity := SomeAffinity(p, jsonTerm);
      var p' := p.(tolerations := tols);
      var spec := DomainSpec(p.nodeSelector, affinity, SortTerms(p.tolerations, jsonTol));
      var spec' := DomainSpec(p.nodeSelector, affinity, SortTerms(tols, jsonTol));
      assert BuiltFrom(p, spec, jsonTerm, jsonTol) && BuiltFrom(p', spec', jsonTerm, jsonTol) && spec != spec';
    }
  }

  lemma SomeAffinity(p: PodSpec, jsonTerm: seq<Requirement> -> string) returns (a: Option<seq<seq<Requirement>>>)
    ensures a.Some? <==> p.affinity.Some?
    ensures p.affinity.Some? ==>
              exists cs :: CanonicalTermList(p.affinity.value, cs) && a.value == SortTerms(cs, jsonTerm)
  {
    if p.affinity.Some? {
      FormsAreCanonical(p.affinity.value);
      a := Some(SortTerms(Map(Form, p.affinity.value), jsonTerm));
    } else {
      a := None;
    }
  }

  /**
   The spec of a pod is independent of the order of its affinity terms and tolerations if and only if joined
   values tell the requirements of each term apart, there are at most two terms or all say the same, and there
   are at most two tolerations or all are equal.
   */
  lemma PodOrderExact(p: PodSpec, jsonTerm: seq<Requirement> -> string, jsonTol: Toleration -> string)
    requires Injective(jsonTerm) && Injective(jsonTol)
    ensures PodOrderFree(p, jsonTerm, jsonTol) <==> OrderSafe(p)
  {
    if OrderSafe(p) {
      SafeIsFree(p, jsonTerm, jsonTol);
    } else {
      UnsafeIsNotFree(p, jsonTerm, jsonTol);
    }
  }
}
