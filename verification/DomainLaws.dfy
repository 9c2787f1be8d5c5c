/** What the pieces of a pod's constraints mean for its stable domain, each piece on its own. */
module DomainLaws {
  import opened Types
  import opened Domain

  /** The label is missing or empty; the matcher does not tell the two apart. */
  predicate Absent(node: Node, key: string) {
    key !in node.labels || node.labels[key] == ""
  }

  function OneRequirement(key: string, op: string, values: seq<string>): PodSpec {
    PodSpec(map[], Some([Term([Requirement(key, op, values)], [])]), [])
  }

  predicate Plain(node: Node) {
    node.ready && !node.unschedulable && node.taints == []
  }

  lemma OneRequirementMatches(key: string, op: string, values: seq<string>, node: Node,
                              tolerates: (Toleration, Taint) -> bool)
    requires Plain(node)
    ensures InStableDomain(OneRequirement(key, op, values), node, tolerates) <==>
            RequirementHolds(Requirement(key, op, values), LabelOf(node, key))
  {
    var r := Requirement(key, op, values);
    assert r in [r] && forall x | x in [r] :: x == r;
    assert Term([r], []) in [Term([r], [])] && forall t | t in [Term([r], [])] :: t == Term([r], []);
  }

  /** The set operators: an absent label reads as "", which In never accepts and NotIn accepts unless listed. */
  lemma SetOperators(key: string, values: seq<string>, node: Node, tolerates: (Toleration, Taint) -> bool)
    requires Plain(node)
    ensures InStableDomain(OneRequirement(key, "In", values), node, tolerates) <==>
            !Absent(node, key) && node.labels[key] in values
    ensures InStableDomain(OneRequirement(key, "NotIn", values), node, tolerates) <==>
            if Absent(node, key) then "" !in values else node.labels[key] !in values
  {
    OneRequirementMatches(key, "In", values, node, tolerates);
    OneRequirementMatches(key, "NotIn", values, node, tolerates);
  }

  /** Exists and DoesNotExist split the nodes, whatever values they carry. */
  lemma PresenceOperators(key: string, values: seq<string>, node: Node, tolerates: (Toleration, Taint) -> bool)
    requires Plain(node)
    ensures InStableDomain(OneRequirement(key, "Exists", values), node, tolerates) <==> !Absent(node, key)
    ensures InStableDomain(OneRequirement(key, "DoesNotExist", values), node, tolerates) <==> Absent(node, key)
  {
    OneRequirementMatches(key, "Exists", values, node, tolerates);
    OneRequirementMatches(key, "DoesNotExist", values, node, tolerates);
  }

  /** The comparisons need one limit, a present label, and a number on both sides. */
  lemma ComparisonOperators(key: string, values: seq<string>, node: Node, tolerates: (Toleration, Taint) -> bool)
    requires Plain(node)
    ensures var sides := !Absent(node, key) && |values| == 1 && IsNumber(node.labels[key]) && IsNumber(values[0]);
            && (!sides ==> !InStableDomain(OneRequirement(key, "Gt", values), node, tolerates))
            && (!sides ==> !InStableDomain(OneRequirement(key, "Lt", values), node, tolerates))
            && (sides && FitsInt64(NumberValue(node.labels[key])) && FitsInt64(NumberValue(values[0])) ==>
                  (InStableDomain(OneRequirement(key, "Gt", values), node, tolerates) <==>
                   NumberValue(node.labels[key]) > NumberValue(values[0])) &&
                  (InStableDomain(OneRequirement(key, "Lt", values), node, tolerates) <==>
                   NumberValue(node.labels[key]) < NumberValue(values[0])))
  {
    OneRequirementMatches(key, "Gt", values, node, tolerates);
    OneRequirementMatches(key, "Lt", values, node, tolerates);
  }

  /** Any other operator selects nothing. */
  lemma UnknownOperators(key: string, op: string, values: seq<string>, node: Node,
                         tolerates: (Toleration, Taint) -> bool)
    requires op !in {"In", "NotIn", "Exists", "DoesNotExist", "Gt", "Lt"}
    ensures !InStableDomain(OneRequirement(key, op, values), node, tolerates)
  {
    var r := Requirement(key, op, values);
    assert r in [r] && !RequirementHolds(r, LabelOf(node, key));
    assert forall t | t in [Term([r], [])] :: t == Term([r], []);
  }

  /** An absent label satisfies NotIn, unless "" is listed, and DoesNotExist, and no other operator. */
  lemma AbsentLabels(key: string, op: string, values: seq<string>, node: Node, tolerates: (Toleration, Taint) -> bool)
    requires Plain(node) && Absent(node, key)
    ensures InStableDomain(OneRequirement(key, op, values), node, tolerates) <==>
            op == "DoesNotExist" || (op == "NotIn" && "" !in values)
  {
    SetOperators(key, values, node, tolerates);
    PresenceOperators(key, values, node, tolerates);
    ComparisonOperators(key, values, node, tolerates);
    if op !in {"In", "NotIn", "Exists", "DoesNotExist", "Gt", "Lt"} {
      UnknownOperators(key, op, values, node, tolerates);
    }
  }

  /** On the name field a requirement reads the node's name, on any other field nothing at all. */
  lemma FieldRequirements(key: string, values: seq<string>, node: Node, tolerates: (Toleration, Taint) -> bool)
    requires Plain(node) && node.name != ""
    ensures var p := PodSpec(map[], Some([Term([], [Requirement(key, "In", values)])]), []);
            InStableDomain(p, node, tolerates) <==> key == "metadata.name" && node.name in values
  {
    var r := Requirement(key, "In", values);
    assert r in [r] && forall x | x in [r] :: x == r;
    assert Term([], [r]) in [Term([], [r])] && forall t | t in [Term([], [r])] :: t == Term([], [r]);
  }

  /** Terms are alternatives. */
  lemma TermsAreAlternatives(p: PodSpec, a: seq<Term>, b: seq<Term>, node: Node, tolerates: (Toleration, Taint) -> bool)
    ensures InStableDomain(p.(affinity := Some(a + b)), node, tolerates) <==>
            InStableDomain(p.(affinity := Some(a)), node, tolerates) ||
            InStableDomain(p.(affinity := Some(b)), node, tolerates)
  {
    assert forall t :: t in a + b <==> t in a || t in b;
  }

  /** Requirements of one term must hold together. */
  lemma RequirementsHoldTogether(p: PodSpec, t: Term, t': Term, node: Node, tolerates: (Toleration, Taint) -> bool)
    ensures InStableDomain(p.(affinity := Some([Term(t.exprs + t'.exprs, t.fields + t'.fields)])), node, tolerates) <==>
            InStableDomain(p.(affinity := Some([t])), node, tolerates) &&
            InStableDomain(p.(affinity := Some([t'])), node, tolerates)
  {
    var both := Term(t.exprs + t'.exprs, t.fields + t'.fields);
    assert TermMatches(both, node) <==> TermMatches(t, node) && TermMatches(t', node) by {
      assert forall r :: r in both.exprs <==> r in t.exprs || r in t'.exprs;
      assert forall r :: r in both.fields <==> r in t.fields || r in t'.fields;
    }
    OneTerm(p, both, node);
    OneTerm(p, t, node);
    OneTerm(p, t', node);
  }

  lemma OneTerm(p: PodSpec, t: Term, node: Node)
    ensures MatchesNodeSelector(p.(affinity := Some([t])), node) <==>
            MatchesNodeSelector(p.(affinity := None), node) && TermMatches(t, node)
  {
    assert t in [t] && forall x | x in [t] :: x == t;
  }

  /** A selector entry says what a requirement says: In its value, or DoesNotExist for the empty one. */
  lemma SelectorIsRequirement(key: string, value: string, node: Node, tolerates: (Toleration, Taint) -> bool)
    requires Plain(node)
    ensures InStableDomain(PodSpec(map[key := value], None, []), node, tolerates) <==>
            if value == "" then Absent(node, key) else !Absent(node, key) && node.labels[key] == value
  {
    var p := PodSpec(map[key := value], None, []);
    assert key in p.nodeSelector && p.nodeSelector[key] == value;
  }

  /** Selector entries must hold together, and with the affinity. */
  lemma SelectorsHoldTogether(p: PodSpec, key: string, node: Node, tolerates: (Toleration, Taint) -> bool)
    requires key in p.nodeSelector
    ensures InStableDomain(p, node, tolerates) <==>
            InStableDomain(p.(nodeSelector := p.nodeSelector - {key}), node, tolerates) &&
            InStableDomain(p.(nodeSelector := map[key := p.nodeSelector[key]]), node, tolerates)
  {
  }

  /** A node that is not ready, or is unschedulable, is in no domain. */
  lemma GatedNodes(p: PodSpec, node: Node, tolerates: (Toleration, Taint) -> bool)
    requires !node.ready || node.unschedulable
    ensures !InStableDomain(p, node, tolerates)
  {
  }

  /** A plain node is in the domain of a pod without constraints. */
  lemma UnconstrainedPods(tolerations: seq<Toleration>, node: Node, tolerates: (Toleration, Taint) -> bool)
    requires Plain(node)
    ensures InStableDomain(PodSpec(map[], None, tolerations), node, tolerates)
  {
  }

  /** One taint more: it must be tolerated, unless its effect is neither NoSchedule nor NoExecute. */
  lemma TaintsAddUp(p: PodSpec, node: Node, taint: Taint, tolerates: (Toleration, Taint) -> bool)
    ensures InStableDomain(p, node.(taints := node.taints + [taint]), tolerates) <==>
            InStableDomain(p, node, tolerates) &&
            (taint.effect !in {"NoSchedule", "NoExecute"} ||
             exists i :: 0 <= i < |p.tolerations| && tolerates(p.tolerations[i], taint))
  {
    var tainted := node.(taints := node.taints + [taint]);
    assert MatchesNodeSelector(p, tainted) <==> MatchesNodeSelector(p, node) by {
      assert forall t :: TermMatches(t, tainted) <==> TermMatches(t, node);
    }
    assert forall t :: t in tainted.taints <==> t in node.taints || t == taint;
    if exists i :: 0 <= i < |p.tolerations| && tolerates(p.tolerations[i], taint) {
      var i :| 0 <= i < |p.tolerations| && tolerates(p.tolerations[i], taint);
      assert p.tolerations[i] in p.tolerations;
    }
  }
}
