/** Order independence of canonical terms, and where merging fields into expressions loses meaning. */
module CanonicalOrder {
  import opened Types
  import opened Ordering
  import opened Domain
  import opened Canonical
  import opened Keys

  /** A canonical term is ordered by key, then by operator, then by joined values. */
  lemma CanonicalTermIsOrdered(t: Term, c: seq<Requirement>, i: nat, j: nat)
    requires CanonicalTerm(t, c) && i < j < |c|
    ensures StrLeq(c[i].key, c[j].key)
    ensures c[i].key == c[j].key ==> StrLeq(c[i].op, c[j].op)
    ensures c[i].key == c[j].key && c[i].op == c[j].op ==> StrLeq(JoinValues(c[i].values), JoinValues(c[j].values))
  {
    StrTotal(c[i].key, c[i].key);
    StrTotal(c[i].op, c[i].op);
  }

  /** The sort cannot tell the two apart. */
  predicate Tied(x: Requirement, y: Requirement) {
    x.key == y.key && x.op == y.op && JoinValues(x.values) == JoinValues(y.values)
  }

  lemma TieExact(x: Requirement, y: Requirement)
    ensures ReqLeq(x, y) && ReqLeq(y, x) <==> Tied(x, y)
  {
    if Tied(x, y) {
      StrTotal(JoinValues(x.values), JoinValues(y.values));
    } else if ReqLeq(x, y) && ReqLeq(y, x) {
      if x.key != y.key {
        StrAntisymmetric(x.key, y.key);
      } else if x.op != y.op {
        StrAntisymmetric(x.op, y.op);
      } else {
        StrAntisymmetric(JoinValues(x.values), JoinValues(y.values));
      }
    }
  }

  /** Requirements that agree in key, operator and joined values are the same requirement. */
  predicate JoinTellsApart(rs: seq<Requirement>) {
    forall x, y | x in rs && y in rs && Tied(x, y) :: x == y
  }

  /** Two canonical forms of the same merged requirements are equal, however the sort breaks ties. */
  lemma SameMergedSameCanonical(t: Term, t': Term, c: seq<Requirement>, c': seq<Requirement>)
    requires CanonicalTerm(t, c) && CanonicalTerm(t', c')
    requires multiset(Merged(t)) == multiset(Merged(t')) && JoinTellsApart(Merged(t))
    ensures c == c'
  {
    forall x, y | x in c && y in c && ReqLeq(x, y) && ReqLeq(y, x)
      ensures x == y
    {
      assert x in multiset(Merged(t)) && y in multiset(Merged(t));
      TieExact(x, y);
    }
    SortedUnique(c, c', ReqLeq);
  }

  /** The canonical form is one, however the sort breaks ties. */
  ghost predicate OneCanonicalForm(t: Term) {
    forall c, c' | CanonicalTerm(t, c) && CanonicalTerm(t, c') :: c == c'
  }

  /** Two entries that tie may swap places in a sorted list. */
  lemma SwapTied<T(!new)>(c: seq<T>, leq: (T, T) -> bool, i: nat, j: nat)
    requires Preorder(leq) && Sorted(c, leq) && i < |c| && j < |c| && leq(c[i], c[j]) && leq(c[j], c[i])
    ensures Sorted(c[i := c[j]][j := c[i]], leq) && multiset(c[i := c[j]][j := c[i]]) == multiset(c)
  {
    var d := c[i := c[j]][j := c[i]];
    assert forall k | 0 <= k < |c| :: leq(d[k], c[k]) && leq(c[k], d[k]);
    forall k, l | 0 <= k < l < |d|
      ensures leq(d[k], d[l])
    {
      assert leq(c[k], c[l]) && leq(d[k], c[l]);
    }
  }

  /** Different requirements that tie give a second sorted arrangement. */
  lemma TiedFormsDiffer(t: Term, c: seq<Requirement>, x: Requirement, y: Requirement) returns (d: seq<Requirement>)
    requires CanonicalTerm(t, c) && x in c && y in c && Tied(x, y) && x != y
    ensures CanonicalTerm(t, d) && d != c
  {
    var i :| 0 <= i < |c| && c[i] == x;
    var j :| 0 <= j < |c| && c[j] == y;
    TieExact(x, y);
    ReqOrder();
    SwapTied(c, ReqLeq, i, j);
    d := c[i := y][j := x];
    assert d[i] == y;
  }

  /** One canonical form of a term. */
  function Form(t: Term): seq<Requirement> {
    Sort(Merged(t), ReqLeq)
  }

  lemma FormIsCanonical(t: Term)
    ensures CanonicalTerm(t, Form(t))
  {
    ReqOrder();
    SortSorts(Merged(t), ReqLeq);
  }

  /** A term has one canonical form if and only if joined values tell its requirements apart. */
  lemma OneFormExact(t: Term)
    ensures OneCanonicalForm(t) <==> JoinTellsApart(Merged(t))
  {
    var m := Merged(t);
    if JoinTellsApart(m) {
      forall c, c' | CanonicalTerm(t, c) && CanonicalTerm(t, c')
        ensures c == c'
      {
        SameMergedSameCanonical(t, t, c, c');
      }
    } else {
      var x, y :| x in m && y in m && Tied(x, y) && x != y;
      FormIsCanonical(t);
      assert x in multiset(Form(t)) && y in multiset(Form(t));
      var d := TiedFormsDiffer(t, Form(t), x, y);
    }
  }

  /** Same requirements in the same positions, the values of each in any order. */
  ghost predicate ValuesShuffled(a: seq<Requirement>, b: seq<Requirement>) {
    && |a| == |b|
    && forall i | 0 <= i < |a| ::
         a[i].key == b[i].key && a[i].op == b[i].op && multiset(a[i].values) == multiset(b[i].values)
  }

  lemma ShuffledNorms(a: seq<Requirement>, b: seq<Requirement>)
    requires ValuesShuffled(a, b)
    ensures Norms(a) == Norms(b)
  {
    forall i | 0 <= i < |a|
      ensures Norm(a[i]) == Norm(b[i])
    {
      SortForgetsOrder(a[i].values, b[i].values);
    }
  }

  lemma PermutedNorms(a: seq<Requirement>, b: seq<Requirement>)
    requires multiset(a) == multiset(b)
    ensures multiset(Norms(a)) == multiset(Norms(b))
  {
    MapPermutes(Norm, a, b);
    assert Norms(a) == Map(Norm, a) && Norms(b) == Map(Norm, b);
  }

  /**
   Canonical terms forget the order of values inside requirements and of requirements inside a term:
   t' is t with values shuffled (via mid) and then requirements permuted.
   */
  lemma CanonicalTermForgetsOrder(t: Term, mid: Term, t': Term, c: seq<Requirement>, c': seq<Requirement>)
    requires ValuesShuffled(t.exprs, mid.exprs) && ValuesShuffled(t.fields, mid.fields)
    requires multiset(mid.exprs) == multiset(t'.exprs) && multiset(mid.fields) == multiset(t'.fields)
    requires CanonicalTerm(t, c) && CanonicalTerm(t', c') && JoinTellsApart(Merged(t))
    ensures c == c'
  {
    ShuffledNorms(t.exprs, mid.exprs);
    ShuffledNorms(t.fields, mid.fields);
    PermutedNorms(mid.exprs, t'.exprs);
    PermutedNorms(mid.fields, t'.fields);
    SameMergedSameCanonical(t, t', c, c');
  }

  predicate NulFree(vs: seq<string>) {
    forall v | v in vs :: NUL !in v
  }

  /** Joining with NUL is injective on non-empty lists of NUL-free values. */
  lemma {:induction false} JoinInjective(a: seq<string>, b: seq<string>)
    requires a != [] && b != [] && NulFree(a) && NulFree(b) && JoinValues(a) == JoinValues(b)
    ensures a == b
    decreases |a|
  {
    JoinHasNul(a);
    JoinHasNul(b);
    assert a[0] in a && b[0] in b;
    if |a| > 1 && |b| > 1 {
      SplitUnique(a[0], b[0], JoinValues(a[1..]), JoinValues(b[1..]), NUL);
      JoinInjective(a[1..], b[1..]);
      assert a == [a[0]] + a[1..] && b == [b[0]] + b[1..];
    }
  }

  lemma JoinHasNul(a: seq<string>)
    requires a != []
    ensures if |a| > 1 then NUL in JoinValues(a) else JoinValues(a) == a[0] && a == [a[0]]
  {
  }

  /** NUL-free values, and one operator either always or never with values: joined values tell apart. */
  lemma NulFreeTellsApart(rs: seq<Requirement>)
    requires forall r | r in rs :: NulFree(r.values)
    requires forall x, y | x in rs && y in rs && x.op == y.op :: x.values == [] <==> y.values == []
    ensures JoinTellsApart(rs)
  {
    forall x, y | x in rs && y in rs && Tied(x, y)
      ensures x == y
    {
      if x.values != [] {
        JoinInjective(x.values, y.values);
      }
    }
  }

  /** For example, one value with a NUL joins like two without: such a term has two canonical forms. */
  lemma NulValuesTie()
    ensures !OneCanonicalForm(Term([Requirement("k", "In", ["a\0b"]), Requirement("k", "In", ["a", "b"])], []))
  {
    var (r, r') := (Requirement("k", "In", ["a\0b"]), Requirement("k", "In", ["a", "b"]));
    var t := Term([r, r'], []);
    SortOne("a\0b");
    SortOne("b");
    assert Sort(["a", "b"], StrLeq) == Insert("a", Sort(["b"], StrLeq), StrLeq) == ["a", "b"];
    assert Norm(r) == r && Norm(r') == r';
    assert Merged(t)[0] == r && Merged(t)[1] == r';
    assert JoinValues(["b"]) == "b" && JoinValues(["a", "b"]) == "a" + [NUL] + "b" == "a\0b";
    assert Tied(r, r') && r in Merged(t) && r' in Merged(t);
    OneFormExact(t);
  }

  lemma SortOne(v: string)
    ensures Sort([v], StrLeq) == [v]
  {
    assert Sort([v], StrLeq) == Insert(v, Sort([], StrLeq), StrLeq);
  }

  /**
   The rule on field keys is exact, key by key: expressions with a key mean the same after merging, whatever
   their operator and values, if and only if the key is not metadata.name, and fields if and only if it is.
   */
  lemma FieldRuleExact(key: string)
    ensures (forall op, values, node ::
               var r := Requirement(key, op, values); MergedHolds(r, node) <==> RequirementHolds(r, LabelOf(node, key))) <==>
            key != NAME_FIELD
    ensures (forall op, values, node ::
               var r := Requirement(key, op, values);
               MergedHolds(r, node) <==> RequirementHolds(r, if key == NAME_FIELD then node.name else "")) <==>
            key == NAME_FIELD
  {
    var r := Requirement(key, "In", ["n"]);
    if key == NAME_FIELD {
      var node := Node("n", map[], true, false, []);
      assert MergedHolds(r, node) && !RequirementHolds(r, LabelOf(node, key));
    } else {
      var node := Node("m", map[key := "n"], true, false, []);
      assert MergedHolds(r, node) && !RequirementHolds(r, "");
    }
  }

  /** One affinity term with one requirement, as an expression or as a field. */
  function OneRequirementTerm(key: string, field: bool): Term {
    var r := Requirement(key, "In", ["n"]);
    if field then Term([], [r]) else Term([r], [])
  }

  /** The node named n, or a node with the label n. */
  function ProbeNode(key: string): Node {
    if key == NAME_FIELD then Node("n", map[], true, false, []) else Node("m", map[key := "n"], true, false, [])
  }

  lemma ProbeTells(key: string, field: bool)
    ensures TermMatches(OneRequirementTerm(key, field), ProbeNode(key)) <==> (field <==> key == NAME_FIELD)
    ensures FieldsNameOnly(OneRequirementTerm(key, field)) <==> (field <==> key == NAME_FIELD)
  {
    var r := Requirement(key, "In", ["n"]);
    assert r in [r];
  }

  function OneTermPod(t: Term): PodSpec {
    PodSpec(map[], Some([t]), [])
  }

  lemma OneTermPodMeans(t: Term, c: seq<Requirement>, node: Node)
    requires CanonicalTerm(t, c) && node.ready && !node.unschedulable && node.taints == []
    ensures CanonicalOf(OneTermPod(t), DomainSpec(map[], Some([c]), []))
    ensures PodFieldsNameOnly(OneTermPod(t)) <==> FieldsNameOnly(t)
    ensures forall tolerates :: InStableDomain(OneTermPod(t), node, tolerates) <==> TermMatches(t, node)
  {
    assert CanonicalTermList([t], [c]);
    assert t in [t] && forall x | x in [t] :: x == t;
  }

  /**
   Without the rule, in either direction, merging loses meaning: the same requirement as an expression and
   as a field gives one canonical spec, but only the pod that follows the rule selects the probe node.
   */
  lemma MergingLosesKind(key: string, field: bool)
    ensures var p := OneTermPod(OneRequirementTerm(key, field));
            && CanonicalOf(p, DomainSpec(map[], Some([[Requirement(key, "In", ["n"])]]), []))
            && (PodFieldsNameOnly(p) <==> (field <==> key == NAME_FIELD))
            && forall tolerates :: InStableDomain(p, ProbeNode(key), tolerates) <==> PodFieldsNameOnly(p)
  {
    var (r, t) := (Requirement(key, "In", ["n"]), OneRequirementTerm(key, field));
    OneRequirementCanonical(r, t);
    OneTermPodMeans(t, [r], ProbeNode(key));
    ProbeTells(key, field);
  }

  lemma OneRequirementCanonical(r: Requirement, t: Term)
    requires |r.values| == 1 && (t == Term([r], []) || t == Term([], [r]))
    ensures CanonicalTerm(t, [r])
  {
    assert r.values == [r.values[0]];
    assert Sort(r.values, StrLeq) == Insert(r.values[0], Sort([], StrLeq), StrLeq) == r.values;
    assert Norm(r) == r;
    assert Merged(t) == [r];
  }
}
