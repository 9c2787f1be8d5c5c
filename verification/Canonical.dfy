/** The canonical form of a pod's placement constraints, and its meaning. */
module Canonical {
  import opened Types
  import opened Ordering
  import opened TermSort
  import opened TermOrder
  import BlockMerge
  import opened Domain
  import opened Keys

  /** Requirements merged per term, terms and tolerations as lists. */
  datatype DomainSpec = DomainSpec(
    nodeSelector: map<string, string>, affinity: Option<seq<seq<Requirement>>>, tolerations: seq<Toleration>)

  const NUL := '\0'

  function JoinValues(vs: seq<string>): string {
    if vs == [] then ""
    else if |vs| == 1 then vs[0]
    else vs[0] + [NUL] + JoinValues(vs[1..])
  }

  /** The requirement order: key, operator, joined values. */
  predicate ReqLeq(a: Requirement, b: Requirement) {
    if a.key != b.key then StrLeq(a.key, b.key)
    else if a.op != b.op then StrLeq(a.op, b.op)
    else StrLeq(JoinValues(a.values), JoinValues(b.values))
  }

  function Norm(r: Requirement): Requirement {
    r.(values := Sort(r.values, StrLeq))
  }

  function Norms(rs: seq<Requirement>): (r: seq<Requirement>)
    ensures |r| == |rs|
  {
    seq(|rs|, i requires 0 <= i < |rs| => Norm(rs[i]))
  }

  /** Expressions and fields of a term in one list, values sorted. */
  function Merged(term: Term): seq<Requirement> {
    Norms(term.exprs) + Norms(term.fields)
  }

  /** A canonical term: the merged requirements in requirement order. */
  ghost predicate CanonicalTerm(term: Term, c: seq<Requirement>) {
    multiset(c) == multiset(Merged(term)) && Sorted(c, ReqLeq)
  }

  ghost predicate CanonicalTermList(terms: seq<Term>, cs: seq<seq<Requirement>>) {
    |cs| == |terms| && forall i | 0 <= i < |terms| :: CanonicalTerm(terms[i], cs[i])
  }

  /** The spec lists the canonical terms and the tolerations in some order. */
  ghost predicate CanonicalOf(pod: PodSpec, spec: DomainSpec) {
    && spec.nodeSelector == pod.nodeSelector
    && (spec.affinity.Some? <==> pod.affinity.Some?)
    && (pod.affinity.Some? ==>
          exists cs :: CanonicalTermList(pod.affinity.value, cs) && multiset(spec.affinity.value) == multiset(cs))
    && multiset(spec.tolerations) == multiset(pod.tolerations)
  }

  /** The spec as this code builds it: terms and tolerations in the order the position-keyed sort leaves. */
  ghost predicate BuiltFrom(pod: PodSpec, spec: DomainSpec, jsonTerm: seq<Requirement> -> string,
                            jsonTol: Toleration -> string) {
    && spec.nodeSelector == pod.nodeSelector
    && spec.tolerations == SortTerms(pod.tolerations, jsonTol)
    && (spec.affinity.Some? <==> pod.affinity.Some?)
    && (pod.affinity.Some? ==>
          exists cs :: CanonicalTermList(pod.affinity.value, cs) && spec.affinity.value == SortTerms(cs, jsonTerm))
  }

  lemma ReqOrder()
    ensures Preorder(ReqLeq)
  {
    StrOrder();
    forall a, b, c | ReqLeq(a, b) && ReqLeq(b, c)
      ensures ReqLeq(a, c)
    {
      ReqTransitive(a, b, c);
    }
  }

  lemma ReqTransitive(a: Requirement, b: Requirement, c: Requirement)
    requires ReqLeq(a, b) && ReqLeq(b, c)
    ensures ReqLeq(a, c)
  {
    StrOrder();
    if a.key == c.key != b.key {
      StrAntisymmetric(a.key, b.key);
    } else if a.key == b.key == c.key && a.op == c.op != b.op {
      StrAntisymmetric(a.op, b.op);
    }
  }

  /** The loops of DomainHash up to serialisation. */
  method DomainSpecOf(pod: PodSpec, jsonTerm: seq<Requirement> -> string, jsonTol: Toleration -> string)
    returns (spec: DomainSpec)
    ensures CanonicalOf(pod, spec) && BuiltFrom(pod, spec, jsonTerm, jsonTol)
  {
    var affinity: Option<seq<seq<Requirement>>> := None;
    if pod.affinity.Some? {
      var terms := pod.affinity.value;
      var cs: seq<seq<Requirement>> := [];
      for i := 0 to |terms|
        invariant CanonicalTermList(terms[..i], cs)
      {
        var c := CanonicalTermOf(terms[i]);
        assert terms[..i + 1] == terms[..i] + [terms[i]];
        cs := cs + [c];
      }
      assert terms[..|terms|] == terms;
      assert CanonicalTermList(terms, cs);
      var sorted := SortByJson(cs, jsonTerm);
      affinity := Some(sorted);
    }
    var tolerations := SortByJson(pod.tolerations, jsonTol);
    spec := DomainSpec(pod.nodeSelector, affinity, tolerations);
  }

  method CanonicalTermOf(term: Term) returns (c: seq<Requirement>)
    ensures CanonicalTerm(term, c)
  {
    c := [];
    for i := 0 to |term.exprs|
      invariant c == Norms(term.exprs)[..i]
    {
      c := c + [Norm(term.exprs[i])];
    }
    for i := 0 to |term.fields|
      invariant c == Norms(term.exprs) + Norms(term.fields)[..i]
    {
      c := c + [Norm(term.fields[i])];
    }
    assert c == Merged(term);
    ReqOrder();
    SortSorts(c, ReqLeq);
    c := Sort(c, ReqLeq);
  }

  /** sortTermSlice and sortTols: the key table first, then the sort; a list of one block is sorted in place. */
  method SortByJson<T>(list: seq<T>, json: T -> string) returns (sorted: seq<T>)
    ensures sorted == SortTerms(list, json)
    ensures multiset(sorted) == multiset(list)
  {
    var keys := [];
    for i := 0 to |list|
      invariant keys == KeysOf(list, json)[..i]
    {
      keys := keys + [json(list[i])];
    }
    assert keys == KeysOf(list, json);
    SortTermsPermutes(list, json);
    if |list| > BlockMerge.BLOCK {
      return StableSorted(list, keys);
    }
    var a := new T[|list|](i requires 0 <= i < |list| => list[i]);
    assert a[..] == list;
    InsertionSort(a, keys);
    ShortSort(list, json);
    sorted := a[..];
  }

  // ---- meaning ----

  /** A merged requirement against a node: the name field by node name, any other key by label. */
  predicate MergedHolds(r: Requirement, node: Node) {
    RequirementHolds(r, if r.key == NAME_FIELD then node.name else LabelOf(node, r.key))
  }

  predicate AllHold(c: seq<Requirement>, node: Node) {
    forall r | r in c :: MergedHolds(r, node)
  }

  /** The nodes a canonical spec selects, without going back to a pod. */
  predicate SpecSelects(spec: DomainSpec, node: Node, tolerates: (Toleration, Taint) -> bool) {
    && node.ready && !node.unschedulable
    && (forall k | k in spec.nodeSelector :: LabelOf(node, k) == spec.nodeSelector[k])
    && (spec.affinity.Some? ==>
          exists c :: c in spec.affinity.value && AllHold(c, node))
    && Tolerated(spec.tolerations, node, tolerates)
  }

  /** Field requirements name the node, expressions do not. */
  predicate FieldsNameOnly(t: Term) {
    && (forall r | r in t.exprs :: r.key != NAME_FIELD)
    && (forall r | r in t.fields :: r.key == NAME_FIELD)
  }

  predicate PodFieldsNameOnly(pod: PodSpec) {
    pod.affinity.Some? ==> forall t | t in pod.affinity.value :: FieldsNameOnly(t)
  }

  lemma SameValues(a: seq<string>, b: seq<string>)
    requires multiset(a) == multiset(b)
    ensures |a| == |b| && (|a| == 1 ==> a == b)
    ensures forall v :: v in a <==> v in b
  {
    assert |a| == |multiset(a)| == |multiset(b)| == |b|;
    forall v
      ensures v in a <==> v in b
    {
      assert v in multiset(a) <==> v in multiset(b);
    }
    if |a| == 1 {
      assert a[0] in b;
    }
  }

  /** A requirement looks at its values as a multiset only. */
  lemma NormHolds(r: Requirement, value: string)
    ensures RequirementHolds(Norm(r), value) <==> RequirementHolds(r, value)
  {
    StrOrder();
    SortSorts(r.values, StrLeq);
    SameValues(Norm(r).values, r.values);
  }

  lemma NormsHold(rs: seq<Requirement>, node: Node)
    ensures AllHold(Norms(rs), node) <==> AllHold(rs, node)
  {
    forall i | 0 <= i < |rs|
      ensures MergedHolds(Norms(rs)[i], node) <==> MergedHolds(rs[i], node)
    {
      NormHolds(rs[i], if rs[i].key == NAME_FIELD then node.name else LabelOf(node, rs[i].key));
    }
    assert forall i | 0 <= i < |rs| :: rs[i] in rs && Norms(rs)[i] in Norms(rs);
  }

  /** A canonical term selects the nodes of its term. */
  lemma CanonicalTermMeaning(term: Term, c: seq<Requirement>, node: Node)
    requires CanonicalTerm(term, c) && FieldsNameOnly(term)
    ensures AllHold(c, node) <==> TermMatches(term, node)
  {
    NormsHold(term.exprs, node);
    NormsHold(term.fields, node);
    var m := Merged(term);
    assert forall r :: r in c <==> r in multiset(c);
    assert forall r :: r in m <==> r in multiset(m);
    assert forall r :: r in m <==> r in Norms(term.exprs) || r in Norms(term.fields);
  }

  lemma AffinityMeaning(terms: seq<Term>, cs: seq<seq<Requirement>>, out: seq<seq<Requirement>>, node: Node)
    requires CanonicalTermList(terms, cs) && multiset(out) == multiset(cs)
    requires forall t | t in terms :: FieldsNameOnly(t)
    ensures (exists c :: c in out && AllHold(c, node)) <==> (exists t :: t in terms && TermMatches(t, node))
  {
    forall i | 0 <= i < |terms|
      ensures cs[i] in out && (AllHold(cs[i], node) <==> TermMatches(terms[i], node))
    {
      CanonicalTermMeaning(terms[i], cs[i], node);
      assert cs[i] in multiset(out);
    }
    if c :| c in out && AllHold(c, node) {
      assert c in multiset(cs);
      var i :| 0 <= i < |cs| && cs[i] == c;
      assert terms[i] in terms && TermMatches(terms[i], node);
    }
    if t :| t in terms && TermMatches(t, node) {
      var i :| 0 <= i < |terms| && terms[i] == t;
      assert cs[i] in out && AllHold(cs[i], node);
    }
  }

  /** Canonicalisation keeps the meaning: the spec alone selects exactly the pod's stable domain. */
  lemma CanonicalMeaning(pod: PodSpec, spec: DomainSpec, node: Node, tolerates: (Toleration, Taint) -> bool)
    requires CanonicalOf(pod, spec) && PodFieldsNameOnly(pod)
    ensures InStableDomain(pod, node, tolerates) <==> SpecSelects(spec, node, tolerates)
  {
    if pod.affinity.Some? {
      var cs :| CanonicalTermList(pod.affinity.value, cs) && multiset(spec.affinity.value) == multiset(cs);
      AffinityMeaning(pod.affinity.value, cs, spec.affinity.value, node);
    }
    assert forall l :: l in spec.tolerations <==> l in multiset(spec.tolerations);
    assert forall l :: l in pod.tolerations <==> l in multiset(pod.tolerations);
  }

  /** Pods with one canonical spec have the same stable domain over every node list. */
  lemma SameSpecSameDomain(p: PodSpec, p': PodSpec, spec: DomainSpec, nodes: seq<Node>,
                           tolerates: (Toleration, Taint) -> bool)
    requires CanonicalOf(p, spec) && CanonicalOf(p', spec) && PodFieldsNameOnly(p) && PodFieldsNameOnly(p')
    ensures StableDomain(p, nodes, tolerates) == StableDomain(p', nodes, tolerates)
  {
    forall n
      ensures InStableDomain(p, n, tolerates) == InStableDomain(p', n, tolerates)
    {
      CanonicalMeaning(p, spec, n, tolerates);
      CanonicalMeaning(p', spec, n, tolerates);
    }
  }
}
