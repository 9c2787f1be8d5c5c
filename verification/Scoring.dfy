/** Normalised scores over the feasible set. */
module Scoring {
  import opened Types
  import opened Counts
  import opened Placement

  const MAX_NODE_SCORE := 100

  /** Count extrema of the feasible nodes, as PreScore leaves them. */
  datatype Extrema = Extrema(skip: bool, cmin: int, cmax: int)

  /** One pass over the feasible nodes; none at all ends the cycle, and a node without an entry counts as empty. */
  method PreScore(c: CycleData, nodes: seq<string>) returns (r: Option<Extrema>)
    requires forall n | n in c.effDomain :: c.effDomain[n] >= 0
    ensures r.None? <==> nodes == []
    ensures r.Some? ==>
              var e := r.value;
              && (forall n | n in nodes && n in c.effDomain :: e.cmin <= c.effDomain[n] <= e.cmax)
              && (forall n | n in nodes && n !in c.effDomain :: e.cmin == 0)
              && (exists n :: n in nodes && Lookup(c.effDomain, n) == e.cmin)
              && (exists n :: n in nodes && Lookup(c.effDomain, n) == e.cmax)
              && (e.skip <==> e.cmin == e.cmax)
  {
    if nodes == [] {
      return None;
    }
    var cmin, cmax := -1, -1;
    for i := 0 to |nodes|
      invariant cmin < 0 <==> i == 0
      invariant cmax < 0 <==> i == 0
      invariant forall j | 0 <= j < i :: cmin <= Lookup(c.effDomain, nodes[j]) <= cmax
      invariant i > 0 ==> exists j :: 0 <= j < i && Lookup(c.effDomain, nodes[j]) == cmin
      invariant i > 0 ==> exists j :: 0 <= j < i && Lookup(c.effDomain, nodes[j]) == cmax
    {
      var n := Lookup(c.effDomain, nodes[i]);
      if cmin < 0 || n < cmin {
        cmin := n;
      }
      if n > cmax {
        cmax := n;
      }
    }
    r := Some(Extrema(cmin == cmax, cmin, cmax));
  }

  function Score(e: Extrema, count: int): int
    requires e.cmin <= e.cmax
  {
    if e.skip then 0 else (e.cmax - count) * MAX_NODE_SCORE / (e.cmax - e.cmin + 1)
  }

  ghost predicate Proper(e: Extrema) {
    e.cmin <= e.cmax && (e.skip <==> e.cmin == e.cmax)
  }

  /** The score is the distance to the fullest count as a share of the range plus one, in hundredths, rounded down. */
  lemma ScoreIsRoundedShare(e: Extrema, count: int)
    requires Proper(e) && e.cmin <= count <= e.cmax && e.cmin < e.cmax
    ensures var (score, parts) := (Score(e, count), e.cmax - e.cmin + 1);
            score * parts <= (e.cmax - count) * 100 < score * parts + parts
  {
    var (x, d) := ((e.cmax - count) * MAX_NODE_SCORE, e.cmax - e.cmin + 1);
    assert x == x / d * d + x % d;
  }

  /** Scores lie in 0..99 and never rise with the count; the fullest node scores 0. */
  lemma ScoreRange(e: Extrema, a: int, b: int)
    requires Proper(e) && e.cmin <= a <= b <= e.cmax
    ensures 0 <= Score(e, b) <= Score(e, a) <= MAX_NODE_SCORE - 1
    ensures Score(e, e.cmax) == 0
  {
    if !e.skip {
      var d := e.cmax - e.cmin + 1;
      DivMono((e.cmax - b) * MAX_NODE_SCORE, (e.cmax - a) * MAX_NODE_SCORE, d);
      DivMono(0, (e.cmax - b) * MAX_NODE_SCORE, d);
      DivMono((e.cmax - a) * MAX_NODE_SCORE, d * MAX_NODE_SCORE - 1, d);
      DivUnique(d * MAX_NODE_SCORE - 1, d, MAX_NODE_SCORE - 1);
    }
  }

  /** When counts differ, the emptiest node scores at least half of the maximum. */
  lemma EmptiestScoresHalf(e: Extrema)
    requires Proper(e) && e.cmin < e.cmax
    ensures Score(e, e.cmin) >= 50
  {
  }

  /** A lower count always scores strictly higher exactly when the count range is at most 99. */
  lemma StrictUpTo99(e: Extrema)
    requires Proper(e) && e.cmin < e.cmax
    ensures (forall a, b | e.cmin <= a < b <= e.cmax :: Score(e, a) > Score(e, b)) <==> e.cmax - e.cmin <= 99
  {
    var d := e.cmax - e.cmin + 1;
    if d <= 100 {
      forall a, b | e.cmin <= a < b <= e.cmax
        ensures Score(e, a) > Score(e, b)
      {
        var x := (e.cmax - b) * MAX_NODE_SCORE;
        DivMono(x + d, (e.cmax - a) * MAX_NODE_SCORE, d);
        DivUnique(x + d, d, x / d + 1);
      }
    } else {
      DivUnique(MAX_NODE_SCORE, d, 0);
      assert Score(e, e.cmax - 1) == Score(e, e.cmax) == 0;
    }
  }
}
