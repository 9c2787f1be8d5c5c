/** The stable spread domain: which nodes a pod's constraints select. */
module Domain {
  import opened Types

  datatype Requirement = Requirement(key: string, op: string, values: seq<string>)

  datatype Term = Term(exprs: seq<Requirement>, fields: seq<Requirement>)

  datatype Toleration = Toleration(key: string, op: string, value: string, effect: string, seconds: Option<int>)

  datatype Taint = Taint(key: string, value: string, effect: string)

  /** The placement fields of a pod. Absent affinity selects every node, an empty term list none. */
  datatype PodSpec = PodSpec(nodeSelector: map<string, string>, affinity: Option<seq<Term>>, tolerations: seq<Toleration>)

  datatype Node = Node(name: string, labels: map<string, string>, ready: bool, unschedulable: bool, taints: seq<Taint>)

  const NAME_FIELD := "metadata.name"

  /** A label's value; an absent label reads as "". */
  function LabelOf(node: Node, key: string): string {
    if key in node.labels then node.labels[key] else ""
  }

  /** 64-bit two's complement. */
  function Wrap64(x: int): int {
    (x + 0x8000_0000_0000_0000) % 0x1_0000_0000_0000_0000 - 0x8000_0000_0000_0000
  }

  predicate IsDigit(c: char) {
    '0' <= c <= '9'
  }

  function DigitOf(c: char): int {
    c as int - '0' as int
  }

  /** The unbounded value of a digit string. */
  function Decimal(s: string): int {
    if s == "" then 0 else Decimal(s[..|s| - 1]) * 10 + DigitOf(s[|s| - 1])
  }

  predicate AllDigits(s: string) {
    forall c | c in s :: IsDigit(c)
  }

  /** An optional minus sign and at least one digit. */
  predicate IsNumber(s: string) {
    s != "" && (if s[0] == '-' then |s| > 1 && AllDigits(s[1..]) else AllDigits(s))
  }

  function NumberValue(s: string): int
    requires IsNumber(s)
  {
    if s[0] == '-' then -Decimal(s[1..]) else Decimal(s)
  }

  /** What atoi64 returns: None for a malformed number, otherwise its value in 64 bits. */
  function Atoi(s: string): Option<int> {
    if IsNumber(s) then Some(Wrap64(NumberValue(s))) else None
  }

  lemma NextDigit(s: string, c: char)
    ensures Decimal(s + [c]) == Decimal(s) * 10 + DigitOf(c)
  {
    assert (s + [c])[..|s|] == s;
  }

  lemma WrapStep(a: int, d: int)
    ensures Wrap64(Wrap64(a) * 10 + d) == Wrap64(a * 10 + d)
    ensures Wrap64(-Wrap64(a)) == Wrap64(-a)
  {
    var k := (a + 0x8000_0000_0000_0000) / 0x1_0000_0000_0000_0000;
    assert Wrap64(a) == a - k * 0x1_0000_0000_0000_0000;
  }

  /** The parsing loop: it stops at the first non-digit and lets the accumulator wrap. */
  method Atoi64(s: string) returns (n: int, ok: bool)
    ensures ok <==> Atoi(s).Some?
    ensures ok ==> n == Atoi(s).value
  {
    n := 0;
    if s == "" {
      return 0, false;
    }
    var neg, i := false, 0;
    if s[0] == '-' {
      neg, i := true, 1;
      if |s| == 1 {
        return 0, false;
      }
    }
    ghost var start := i;
    ghost var digits := s[start..];
    while i < |s|
      invariant start <= i <= |s| && AllDigits(s[start..i])
      invariant n == Wrap64(Decimal(s[start..i]))
    {
      if s[i] < '0' || s[i] > '9' {
        assert s[i] in digits;
        return 0, false;
      }
      assert s[start..i + 1] == s[start..i] + [s[i]];
      NextDigit(s[start..i], s[i]);
      WrapStep(Decimal(s[start..i]), DigitOf(s[i]));
      n := Wrap64(n * 10 + DigitOf(s[i]));
      i := i + 1;
    }
    assert s[start..i] == digits;
    assert !neg ==> digits == s;
    if neg {
      WrapStep(Decimal(digits), 0);
      n := Wrap64(-n);
    }
    ok := true;
  }

  predicate RequirementHolds(r: Requirement, value: string) {
    var present := value != "";
    if r.op == "In" then present && value in r.values
    else if r.op == "NotIn" then value !in r.values
    else if r.op == "Exists" then present
    else if r.op == "DoesNotExist" then !present
    else if r.op == "Gt" || r.op == "Lt" then
      present && |r.values| == 1 &&
      var (n, lim) := (Atoi(value), Atoi(r.values[0]));
      n.Some? && lim.Some? && if r.op == "Gt" then n.value > lim.value else n.value < lim.value
    else false
  }

  lemma OddCharacter(s: string, i: nat)
    requires i < |s| && !IsDigit(s[i]) && (i == 0 ==> s[0] != '-')
    ensures !IsNumber(s)
  {
    assert s[i] in s && (i > 0 ==> s[i] == s[1..][i - 1]);
  }

  /** No empty string, no sign alone, no character besides digits and one leading minus. */
  lemma NotNumbers(key: string, value: string, limit: string, i: nat)
    requires value == "" || value == "-" || (i < |value| && !('0' <= value[i] <= '9') && !(i == 0 && value[0] == '-'))
    ensures !RequirementHolds(Requirement(key, "Gt", [limit]), value)
    ensures !RequirementHolds(Requirement(key, "Lt", [limit]), value)
  {
    if value != "" && value != "-" {
      OddCharacter(value, i);
    }
  }

  predicate FitsInt64(x: int) {
    -0x8000_0000_0000_0000 <= x < 0x8000_0000_0000_0000
  }

  /** Both comparisons against this limit say what the denoted numbers say. */
  predicate ComparesRight(key: string, limit: string, value: string)
    requires IsNumber(limit) && IsNumber(value)
  {
    && (RequirementHolds(Requirement(key, "Gt", [limit]), value) <==> NumberValue(value) > NumberValue(limit))
    && (RequirementHolds(Requirement(key, "Lt", [limit]), value) <==> NumberValue(value) < NumberValue(limit))
  }

  /** The decimal digits of a number. */
  function Digits(n: nat): (s: string)
    ensures s != "" && AllDigits(s) && Decimal(s) == n
  {
    var last := ['0' + (n % 10) as char];
    if n < 10 then
      assert last[..0] == "";
      last
    else
      var s := Digits(n / 10) + last;
      assert s[..|s| - 1] == Digits(n / 10);
      s
  }

  function PrintNumber(x: int): (s: string)
    ensures IsNumber(s) && NumberValue(s) == x
  {
    if x < 0 then
      var s := "-" + Digits(-x);
      assert s[1..] == Digits(-x);
      s
    else
      var s := Digits(x);
      assert s[0] in s;
      s
  }

  /**
   Gt and Lt are right against every limit that fits 64 bits if and only if the label value fits too: a
   larger one is taken for the number it wraps to, and the limit that denotes this number tells.
   */
  lemma GtLtCompareNumbers(key: string, value: string)
    requires IsNumber(value)
    ensures (forall limit | IsNumber(limit) && FitsInt64(NumberValue(limit)) :: ComparesRight(key, limit, value)) <==>
            FitsInt64(NumberValue(value))
  {
    if !FitsInt64(NumberValue(value)) {
      var limit := PrintNumber(Wrap64(NumberValue(value)));
      assert FitsInt64(NumberValue(limit)) && !ComparesRight(key, limit, value);
    }
  }

  lemma NextThree(s: string, k: nat)
    requires k + 3 <= |s|
    ensures Decimal(s[..k + 3]) ==
            Decimal(s[..k]) * 1000 + DigitOf(s[k]) * 100 + DigitOf(s[k + 1]) * 10 + DigitOf(s[k + 2])
  {
    NextDigit(s[..k], s[k]);
    NextDigit(s[..k + 1], s[k + 1]);
    NextDigit(s[..k + 2], s[k + 2]);
    assert s[..k + 1] == s[..k] + [s[k]];
    assert s[..k + 2] == s[..k + 1] + [s[k + 1]];
    assert s[..k + 3] == s[..k + 2] + [s[k + 2]];
  }

  /** One digit chunk after the other. */
  lemma HighDigits(s: string)
    requires s == "9223372036854775808"
    ensures Decimal(s[..10]) == 9223372036
  {
    NextDigit("", s[0]);
    assert s[..1] == "" + [s[0]];
    NextThree(s, 1);
    assert Decimal(s[..4]) == 9223;
    NextThree(s, 4);
    assert Decimal(s[..7]) == 9223372;
    assert s[7] == '0' && s[8] == '3' && s[9] == '6';
    NextThree(s, 7);
  }

  lemma MiddleDigits(s: string)
    requires s == "9223372036854775808"
    ensures Decimal(s[..13]) == 9223372036854
  {
    HighDigits(s);
    assert s[10] == '8' && s[11] == '5' && s[12] == '4';
    NextThree(s, 10);
  }

  lemma LowDigits(s: string)
    requires s == "9223372036854775808"
    ensures Decimal(s[..19]) == 0x8000_0000_0000_0000
  {
    MiddleDigits(s);
    assert s[13] == '7' && s[14] == '7' && s[15] == '5';
    NextThree(s, 13);
    assert s[16] == '8' && s[17] == '0' && s[18] == '8';
    NextThree(s, 16);
  }

  lemma WrapsBelowZero(key: string, s: string)
    requires IsNumber(s) && NumberValue(s) == 0x8000_0000_0000_0000
    ensures !RequirementHolds(Requirement(key, "Gt", ["0"]), s) && RequirementHolds(Requirement(key, "Lt", ["0"]), s)
  {
    NextDigit("", '0');
  }

  /** 2^63 wraps: it is not above zero but below it. */
  lemma BigNumbersWrap(key: string, value: string)
    requires value == "9223372036854775808"
    ensures !RequirementHolds(Requirement(key, "Gt", ["0"]), value)
    ensures RequirementHolds(Requirement(key, "Lt", ["0"]), value)
  {
    LowDigits(value);
    assert value[..19] == value;
    WrapsBelowZero(key, value);
  }

  /** All requirements of both lists. */
  predicate TermMatches(term: Term, node: Node) {
    && (forall r | r in term.exprs :: RequirementHolds(r, LabelOf(node, r.key)))
    && (forall r | r in term.fields :: RequirementHolds(r, if r.key == NAME_FIELD then node.name else ""))
  }

  /** An empty term matches every node, so in a list it lifts the affinity; an empty list matches none. */
  lemma EmptyTermMatchesAll(pod: PodSpec, node: Node)
    ensures TermMatches(Term([], []), node)
    ensures pod.affinity.Some? && Term([], []) in pod.affinity.value ==>
              (MatchesNodeSelector(pod, node) <==> MatchesNodeSelector(pod.(affinity := None), node))
    ensures pod.affinity == Some([]) ==> !MatchesNodeSelector(pod, node)
  {
    assert TermMatches(Term([], []), node);
  }

  predicate MatchesNodeSelector(pod: PodSpec, node: Node) {
    && (forall k | k in pod.nodeSelector :: LabelOf(node, k) == pod.nodeSelector[k])
    && (pod.affinity.Some? ==> exists t :: t in pod.affinity.value && TermMatches(t, node))
  }

  /** Every NoSchedule or NoExecute taint is tolerated; tolerates decides one toleration and one taint. */
  predicate Tolerated(tolerations: seq<Toleration>, node: Node, tolerates: (Toleration, Taint) -> bool) {
    forall t | t in node.taints && (t.effect == "NoSchedule" || t.effect == "NoExecute") ::
      exists l :: l in tolerations && tolerates(l, t)
  }

  predicate InStableDomain(pod: PodSpec, node: Node, tolerates: (Toleration, Taint) -> bool) {
    node.ready && !node.unschedulable && MatchesNodeSelector(pod, node) &&
    Tolerated(pod.tolerations, node, tolerates)
  }

  function StableDomain(pod: PodSpec, nodes: seq<Node>, tolerates: (Toleration, Taint) -> bool): set<string> {
    set n | n in nodes && InStableDomain(pod, n, tolerates) :: n.name
  }

  /** The scan over the node list; a failed listing gives the empty domain. */
  method ComputeStableDomain(pod: PodSpec, nodes: Option<seq<Node>>, tolerates: (Toleration, Taint) -> bool)
    returns (domain: set<string>)
    ensures nodes.Some? ==> domain == StableDomain(pod, nodes.value, tolerates)
    ensures nodes.None? ==> domain == {}
  {
    domain := {};
    if nodes.None? {
      return;
    }
    var list := nodes.value;
    for i := 0 to |list|
      invariant domain == StableDomain(pod, list[..i], tolerates)
    {
      StableDomainSnoc(pod, list[..i], list[i], tolerates);
      assert list[..i + 1] == list[..i] + [list[i]];
      if InStableDomain(pod, list[i], tolerates) {
        domain := domain + {list[i].name};
      }
    }
    assert list[..|list|] == list;
  }

  lemma StableDomainSnoc(pod: PodSpec, nodes: seq<Node>, n: Node, tolerates: (Toleration, Taint) -> bool)
    ensures StableDomain(pod, nodes + [n], tolerates) ==
            StableDomain(pod, nodes, tolerates) + (if InStableDomain(pod, n, tolerates) then {n.name} else {})
  {
  }

  /** Nodes inside the stable domain of any of several pod templates. */
  function UnionDomain(templates: seq<PodSpec>, nodes: seq<Node>, tolerates: (Toleration, Taint) -> bool): set<string> {
    set t, n | t in templates && n in nodes && InStableDomain(t, n, tolerates) :: n.name
  }

  /** The node union behind the capacity deficit: templates outside, nodes inside. */
  method CollectUnion(templates: seq<PodSpec>, nodes: seq<Node>, tolerates: (Toleration, Taint) -> bool)
    returns (union: set<string>)
    ensures union == UnionDomain(templates, nodes, tolerates)
  {
    union := {};
    for i := 0 to |templates|
      invariant union == UnionDomain(templates[..i], nodes, tolerates)
    {
      var t := templates[i];
      ghost var before := union;
      for j := 0 to |nodes|
        invariant union == before + StableDomain(t, nodes[..j], tolerates)
      {
        StableDomainSnoc(t, nodes[..j], nodes[j], tolerates);
        assert nodes[..j + 1] == nodes[..j] + [nodes[j]];
        if InStableDomain(t, nodes[j], tolerates) {
          union := union + {nodes[j].name};
        }
      }
      assert nodes[..|nodes|] == nodes;
      UnionDomainSnoc(templates[..i], t, nodes, tolerates);
      assert templates[..i + 1] == templates[..i] + [t];
    }
    assert templates[..|templates|] == templates;
  }

  lemma UnionDomainSnoc(templates: seq<PodSpec>, t: PodSpec, nodes: seq<Node>, tolerates: (Toleration, Taint) -> bool)
    ensures UnionDomain(templates + [t], nodes, tolerates) ==
            UnionDomain(templates, nodes, tolerates) + StableDomain(t, nodes, tolerates)
  {
  }

  /** For one template the union is its stable domain. */
  lemma UnionOfOne(t: PodSpec, nodes: seq<Node>, tolerates: (Toleration, Taint) -> bool)
    ensures UnionDomain([t], nodes, tolerates) == StableDomain(t, nodes, tolerates)
  {
  }
}
