/** Growing runs of one service: how far counts drift apart, when a run is stuck, how much it places. */
module Balance {
  import opened Types
  import opened Transitions
  import opened Counts
  import opened Cluster
  import opened Lifecycle
  import opened Domain
  import Tables

  /** Effective scheduling counts over a domain. */
  function CountsOf(v: View, domain: set<string>, schedKey: string): map<string, int> {
    map n | n in domain :: Eff(v, Sched, n, schedKey)
  }

  /** No two nodes differ by more than d. */
  ghost predicate Spread(c: map<string, int>, d: int) {
    forall a, b | a in c && b in c :: c[a] - c[b] <= d
  }

  /** What happens to the pods of a service while it only grows. */
  datatype Move =
    | Place(u: UID, ref: PodRef)   // a successful Reserve
    | PostBind(u: UID)
    | Observe(u: UID)              // the whole bind event of a reserved pod: counted, then released

  /** A pod is placed once, and a bind event finds its reservation and is the first to count it. */
  ghost predicate CanMove(v: View, move: Move, domain: set<string>, policy: Policy) {
    match move
    case Place(u, ref) => u !in v.resv && u !in v.pods && Admits(v, ref, domain, policy)
    case PostBind(u) => true
    case Observe(u) => u in v.resv && u !in v.pods && v.resv[u].ref.nodeName != ""
  }

  ghost function Moved(v: View, move: Move, domain: set<string>, policy: Policy): View
    requires CanMove(v, move, domain, policy)
  {
    match move
    case Place(u, ref) => Reserve(v, u, ref, domain, policy, 0)
    case PostBind(u) => MarkBound(v, u)
    case Observe(u) => PodEvent(v, u, Version(PodObj(v.resv[u].ref, true, true)))
  }

  /** Placements, bindings and their observations in any order, with no pod removed. */
  ghost predicate GrowthRun(views: seq<View>, moves: seq<Move>, domain: set<string>, policy: Policy) {
    && |views| == |moves| + 1
    && forall i | 0 <= i < |moves| ::
         CanMove(views[i], moves[i], domain, policy) && views[i + 1] == Moved(views[i], moves[i], domain, policy)
  }

  /** Every placement of the run carries the same keys. */
  predicate SameService(moves: seq<Move>, quotaKey: string, schedKey: string) {
    forall i | 0 <= i < |moves| && moves[i].Place? ::
      moves[i].ref.quotaKey == quotaKey && moves[i].ref.schedKey == schedKey
  }

  /** How many pods a run places. */
  function Placements(moves: seq<Move>): nat {
    if moves == [] then 0
    else Placements(moves[..|moves| - 1]) + (if moves[|moves| - 1].Place? then 1 else 0)
  }

  /** A seat moves from the reservations to the snapshot. */
  lemma ObservedCounts(v: View, u: UID, dim: Dim, n: string, k: string)
    requires u in v.resv && u !in v.pods
    ensures Eff(View(v.pods[u := v.resv[u].ref], v.resv - {u}), dim, n, k) == Eff(v, dim, n, k)
  {
    var (ref, rest) := (v.resv[u].ref, v.resv - {u});
    assert rest[u := v.resv[u]] == v.resv;
    ReservedInsert(rest, u, v.resv[u], dim, n, k);
    Tables.CountedInsert(v.pods, u, ref, dim, n, k);
  }

  /** Binding and observing a pod leaves every effective count as it is. */
  lemma QuietMove(v: View, move: Move, domain: set<string>, policy: Policy, dim: Dim, n: string, k: string)
    requires CanMove(v, move, domain, policy) && !move.Place?
    ensures Eff(Moved(v, move, domain, policy), dim, n, k) == Eff(v, dim, n, k)
  {
    if move.Observe? {
      ObservedCounts(v, move.u, dim, n, k);
    } else {
      assert ReservedOn(MarkBound(v, move.u).resv, dim, n, k) == ReservedOn(v.resv, dim, n, k);
    }
  }

  /** So the counts of the domain are unchanged. */
  lemma QuietCounts(v: View, move: Move, domain: set<string>, policy: Policy, s: string)
    requires CanMove(v, move, domain, policy) && !move.Place?
    ensures CountsOf(Moved(v, move, domain, policy), domain, s) == CountsOf(v, domain, s)
  {
    forall n | n in domain
      ensures Eff(Moved(v, move, domain, policy), Sched, n, s) == Eff(v, Sched, n, s)
    {
      QuietMove(v, move, domain, policy, Sched, n, s);
    }
  }

  lemma PlacementsSnoc(moves: seq<Move>, k: nat)
    requires k < |moves|
    ensures Placements(moves[..k + 1]) == Placements(moves[..k]) + (if moves[k].Place? then 1 else 0)
  {
    assert moves[..k + 1][..k] == moves[..k];
  }

  lemma ReservedCounts(v: View, u: UID, r: Reservation, n: string)
    requires u !in v.resv
    ensures Eff(View(v.pods, v.resv[u := r]), Sched, n, r.ref.schedKey) ==
            Eff(v, Sched, n, r.ref.schedKey) + (if n == r.ref.nodeName then 1 else 0)
  {
    ReservedInsert(v.resv, u, r, Sched, n, r.ref.schedKey);
  }

  /** One placement raises the count of its node by one and leaves all others. */
  lemma PlaceCounts(v: View, u: UID, ref: PodRef, domain: set<string>, policy: Policy)
    requires u !in v.resv && Admits(v, ref, domain, policy)
    ensures var c := CountsOf(v, domain, ref.schedKey);
            CountsOf(Reserve(v, u, ref, domain, policy, 0), domain, ref.schedKey) ==
            c[ref.nodeName := c[ref.nodeName] + 1]
  {
    var v' := View(v.pods, v.resv[u := Reservation(ref, Reserved, 0)]);
    assert Reserve(v, u, ref, domain, policy, 0) == v';
    forall n | n in domain
      ensures Eff(v', Sched, n, ref.schedKey) == Eff(v, Sched, n, ref.schedKey) + (if n == ref.nodeName then 1 else 0)
    {
      ReservedCounts(v, u, Reservation(ref, Reserved, 0), n);
    }
    var (c, c') := (CountsOf(v, domain, ref.schedKey), CountsOf(v', domain, ref.schedKey));
    assert c.Keys == domain == c'.Keys;
    RaisedAt(c, c', ref.nodeName);
  }

  lemma RaisedAt(c: map<string, int>, c': map<string, int>, k: string)
    requires c'.Keys == c.Keys && k in c && forall n | n in c :: c'[n] == c[n] + (if n == k then 1 else 0)
    ensures c' == c[k := c[k] + 1]
  {
  }

  /** An admitted placement keeps the spread within the larger of its old value and maxSkew. */
  lemma SpreadStep(v: View, u: UID, ref: PodRef, domain: set<string>, policy: Policy, d: int)
    requires u !in v.resv && Admits(v, ref, domain, policy)
    requires Spread(CountsOf(v, domain, ref.schedKey), d) && policy.maxSkew <= d
    ensures Spread(CountsOf(Reserve(v, u, ref, domain, policy, 0), domain, ref.schedKey), d)
  {
    PlaceCounts(v, u, ref, domain, policy);
    var c := CountsOf(v, domain, ref.schedKey);
    assert forall m | m in c :: c[ref.nodeName] + 1 - c[m] <= policy.maxSkew;
    RaisedSpread(c, ref.nodeName, d);
  }

  lemma RaisedSpread(c: map<string, int>, k: string, d: int)
    requires k in c && Spread(c, d) && forall m | m in c :: c[k] + 1 - c[m] <= d
    ensures Spread(c[k := c[k] + 1], d)
  {
  }

  /** Over any growing run, max minus min never exceeds the larger of its start and maxSkew. */
  lemma SpreadOverRuns(views: seq<View>, moves: seq<Move>, q: string, s: string,
                       domain: set<string>, policy: Policy, start: int)
    requires GrowthRun(views, moves, domain, policy) && SameService(moves, q, s)
    requires Spread(CountsOf(views[0], domain, s), start)
    ensures var d := if start < policy.maxSkew then policy.maxSkew else start;
            forall i | 0 <= i < |views| :: Spread(CountsOf(views[i], domain, s), d)
  {
    var d := if start < policy.maxSkew then policy.maxSkew else start;
    for k := 0 to |moves|
      invariant forall i | 0 <= i <= k :: Spread(CountsOf(views[i], domain, s), d)
    {
      if moves[k].Place? {
        SpreadStep(views[k], moves[k].u, moves[k].ref, domain, policy, d);
      } else {
        QuietCounts(views[k], moves[k], domain, policy, s);
      }
    }
  }

  const EMPTY := View(map[], map[])

  /** Counts add up to the number of placements. */
  lemma PlacedSum(views: seq<View>, moves: seq<Move>, q: string, s: string, domain: set<string>, policy: Policy)
    requires GrowthRun(views, moves, domain, policy) && SameService(moves, q, s) && views[0] == EMPTY
    ensures Sum(CountsOf(views[|moves|], domain, s)) == Placements(moves)
  {
    EmptyCounts(domain, s);
    for k := 0 to |moves|
      invariant Sum(CountsOf(views[k], domain, s)) == Placements(moves[..k])
    {
      PlacementsSnoc(moves, k);
      if moves[k].Place? {
        PlaceSum(views[k], moves[k].u, moves[k].ref, domain, policy);
      } else {
        QuietCounts(views[k], moves[k], domain, policy, s);
      }
    }
    assert moves[..|moves|] == moves;
  }

  lemma PlaceSum(v: View, u: UID, ref: PodRef, domain: set<string>, policy: Policy)
    requires u !in v.resv && Admits(v, ref, domain, policy)
    ensures Sum(CountsOf(Reserve(v, u, ref, domain, policy, 0), domain, ref.schedKey)) ==
            Sum(CountsOf(v, domain, ref.schedKey)) + 1
  {
    PlaceCounts(v, u, ref, domain, policy);
    var c := CountsOf(v, domain, ref.schedKey);
    SumUpdate(c, ref.nodeName, c[ref.nodeName] + 1);
  }

  lemma EmptyCounts(domain: set<string>, s: string)
    ensures forall n | n in domain :: CountsOf(EMPTY, domain, s)[n] == 0
    ensures Sum(CountsOf(EMPTY, domain, s)) == 0
  {
    forall n | n in domain
      ensures CountsOf(EMPTY, domain, s)[n] == 0
    {
      assert CountedOn(EMPTY.pods, Sched, n, s) == {} && ReservedOn(EMPTY.resv, Sched, n, s) == {};
    }
    SumBounds(CountsOf(EMPTY, domain, s), 0, 0);
  }

  function AtLevel(c: map<string, int>, f: int): set<string> {
    set n | n in c && c[n] == f
  }

  /** Values f and f + 1 only: the sum counts how many are f + 1. */
  lemma {:induction false} SumOfTwoLevels(c: map<string, int>, f: int)
    requires forall n | n in c :: f <= c[n] <= f + 1
    ensures Sum(c) == |c| * f + |AtLevel(c, f + 1)|
    decreases |AtLevel(c, f + 1)|
  {
    if AtLevel(c, f + 1) == {} {
      assert forall n | n in c :: n !in AtLevel(c, f + 1);
      SumBounds(c, f, f);
    } else {
      var n :| n in AtLevel(c, f + 1);
      var lowered := c[n := f];
      assert AtLevel(lowered, f + 1) == AtLevel(c, f + 1) - {n};
      assert lowered.Keys == c.Keys;
      SumUpdate(c, n, f);
      SumOfTwoLevels(lowered, f);
    }
  }

  /** t pods on n nodes: t mod n nodes hold floor(t / n) + 1 of them and the others floor(t / n). */
  ghost predicate Even(c: map<string, int>, t: int, n: int)
    requires n > 0
  {
    && |AtLevel(c, t / n + 1)| == t % n
    && forall m | m in c :: c[m] == t / n || c[m] == t / n + 1
  }

  /** A map of counts whose values differ by at most one is the balanced one. */
  lemma BalancedShape(c: map<string, int>)
    requires c != map[] && Spread(c, 1)
    ensures Even(c, Sum(c), |c|)
  {
    var low := Lowest(c);
    var (f, high) := (c[low], AtLevel(c, c[low] + 1));
    SumOfTwoLevels(c, f);
    SubsetSize(high, c.Keys - {low});
    EvenLevels(c, Sum(c), |c|, f, |high|);
  }

  lemma EvenLevels(c: map<string, int>, t: int, n: int, f: int, r: int)
    requires n > 0 && 0 <= r < n && t == n * f + r && r == |AtLevel(c, f + 1)|
    requires forall m | m in c :: c[m] == f || c[m] == f + 1
    ensures Even(c, t, n)
  {
    Quotient(t, n, f, r);
  }

  lemma Quotient(t: int, n: int, f: int, r: int)
    requires n > 0 && 0 <= r < n && t == n * f + r
    ensures t / n == f && t % n == r
  {
    DivUnique(t, n, f);
    assert t == t / n * n + t % n;
  }

  /**
   With maxSkew 1 from an empty state the service is perfectly balanced at every moment: after t
   placements on n nodes, t mod n nodes hold floor(t / n) + 1 pods and the others floor(t / n).
   */
  lemma PerfectBalance(views: seq<View>, moves: seq<Move>, q: string, s: string, domain: set<string>, policy: Policy)
    requires GrowthRun(views, moves, domain, policy) && SameService(moves, q, s) && views[0] == EMPTY
    requires policy.maxSkew == 1 && domain != {}
    ensures Even(CountsOf(views[|moves|], domain, s), Placements(moves), |domain|)
  {
    EmptyCounts(domain, s);
    SpreadOverRuns(views, moves, q, s, domain, policy, 0);
    PlacedSum(views, moves, q, s, domain, policy);
    var c := CountsOf(views[|moves|], domain, s);
    assert c.Keys == domain;
    BalancedShape(c);
  }

  lemma {:induction false} Lowest(c: map<string, int>) returns (low: string)
    requires c != map[]
    ensures low in c && forall n | n in c :: c[low] <= c[n]
    decreases |c|
  {
    var n :| n in c;
    var rest := c - {n};
    assert c.Keys == rest.Keys + {n};
    if rest == map[] {
      low := n;
    } else {
      low := Lowest(rest);
      assert forall m | m in rest :: c[m] == rest[m];
      if c[n] < c[low] {
        low := n;
      }
    }
  }

  /** One scheduling domain: the two keys of the service always come together. */
  ghost predicate OneDomain(v: View, q: string, s: string) {
    && (forall u | u in v.pods :: v.pods[u].quotaKey == q <==> v.pods[u].schedKey == s)
    && (forall u | u in v.resv :: v.resv[u].ref.quotaKey == q <==> v.resv[u].ref.schedKey == s)
  }

  lemma OneDomainCounts(v: View, q: string, s: string, n: string)
    requires OneDomain(v, q, s)
    ensures Eff(v, Quota, n, q) == Eff(v, Sched, n, s)
  {
    assert CountedOn(v.pods, Quota, n, q) == CountedOn(v.pods, Sched, n, s);
    assert ReservedOn(v.resv, Quota, n, q) == ReservedOn(v.resv, Sched, n, s);
  }

  /** No node of the domain admits another pod of the service. */
  ghost predicate Stuck(v: View, q: string, s: string, domain: set<string>, policy: Policy) {
    forall n | n in domain :: !Admits(v, PodRef(q, s, n), domain, policy)
  }

  /** A service is stuck only when the emptiest node is full: the minimum node always passes the skew test. */
  lemma StuckMeansFull(v: View, q: string, s: string, domain: set<string>, policy: Policy)
    requires OneDomain(v, q, s) && policy.maxSkew >= 1
    ensures Stuck(v, q, s, domain, policy) <==>
            forall n | n in domain :: Eff(v, Sched, n, s) >= policy.maxPodsPerNode
  {
    forall n | n in domain
      ensures Eff(v, Quota, n, q) == Eff(v, Sched, n, s)
    {
      OneDomainCounts(v, q, s, n);
    }
    if Stuck(v, q, s, domain, policy) && domain != {} {
      var c := CountsOf(v, domain, s);
      assert c.Keys == domain;
      var low := Lowest(c);
      assert forall m | m in domain :: c[m] == Eff(v, Sched, m, s);
      assert !Admits(v, PodRef(q, s, low), domain, policy);
    }
  }

  ghost predicate BelowCap(v: View, q: string, s: string, domain: set<string>, cap: int) {
    OneDomain(v, q, s) && forall n | n in domain :: CountsOf(v, domain, s)[n] <= cap
  }

  lemma BelowCapStep(v: View, move: Move, q: string, s: string, domain: set<string>, policy: Policy)
    requires BelowCap(v, q, s, domain, policy.maxPodsPerNode) && CanMove(v, move, domain, policy)
    requires move.Place? ==> move.ref.quotaKey == q && move.ref.schedKey == s
    ensures BelowCap(Moved(v, move, domain, policy), q, s, domain, policy.maxPodsPerNode)
  {
    if move.Place? {
      PlaceCounts(v, move.u, move.ref, domain, policy);
      OneDomainCounts(v, q, s, move.ref.nodeName);
    } else {
      QuietCounts(v, move, domain, policy, s);
    }
  }

  /** Along a run from empty the keys come together and no node passes the cap. */
  lemma RunWithinCap(views: seq<View>, moves: seq<Move>, q: string, s: string, domain: set<string>, policy: Policy)
    requires GrowthRun(views, moves, domain, policy) && SameService(moves, q, s) && views[0] == EMPTY
    requires policy.maxPodsPerNode >= 0
    ensures BelowCap(views[|moves|], q, s, domain, policy.maxPodsPerNode)
  {
    EmptyCounts(domain, s);
    for k := 0 to |moves|
      invariant BelowCap(views[k], q, s, domain, policy.maxPodsPerNode)
    {
      BelowCapStep(views[k], moves[k], q, s, domain, policy);
    }
  }

  /**
   No run of accepted placements gets stuck early: from empty every run places at most
   |domain| * maxPodsPerNode pods, and it is stuck exactly when it has placed that many.
   */
  lemma MaximalRunsFillTheDomain(views: seq<View>, moves: seq<Move>, q: string, s: string,
                                 domain: set<string>, policy: Policy)
    requires GrowthRun(views, moves, domain, policy) && SameService(moves, q, s) && views[0] == EMPTY
    requires policy.maxSkew >= 1 && policy.maxPodsPerNode >= 1
    ensures Placements(moves) <= |domain| * policy.maxPodsPerNode
    ensures Stuck(views[|moves|], q, s, domain, policy) <==> Placements(moves) == |domain| * policy.maxPodsPerNode
  {
    var v := views[|moves|];
    var c := CountsOf(v, domain, s);
    RunWithinCap(views, moves, q, s, domain, policy);
    PlacedSum(views, moves, q, s, domain, policy);
    StuckMeansFull(v, q, s, domain, policy);
    assert c.Keys == domain && forall n | n in domain :: c[n] == Eff(v, Sched, n, s);
    SumBounds(c, 0, policy.maxPodsPerNode);
    FullSum(c, policy.maxPodsPerNode);
  }

  /** Below the cap everywhere, the sum reaches size times cap exactly when every value is the cap. */
  lemma FullSum(c: map<string, int>, cap: int)
    requires forall n | n in c :: c[n] <= cap
    ensures Sum(c) == |c| * cap <==> forall n | n in c :: c[n] >= cap
  {
    if forall n | n in c :: c[n] >= cap {
      SumBounds(c, cap, cap);
    } else {
      var n :| n in c && c[n] < cap;
      var lifted := c[n := cap];
      SumUpdate(c, n, cap);
      SumAtMost(lifted, cap);
      assert lifted.Keys == c.Keys;
    }
  }

  /** 32-bit two's complement. */
  function Wrap32(x: int): int {
    (x + 0x8000_0000) % 0x1_0000_0000 - 0x8000_0000
  }

  /** The exported gauge, computed in 32-bit arithmetic. */
  function CapacityDeficit(hpaMax: int, eligibleNodes: int, maxPodsPerNode: int): int {
    var d := Wrap32(hpaMax - Wrap32(eligibleNodes * maxPodsPerNode));
    if d < 0 then 0 else d
  }

  predicate Int32(x: int) {
    0 <= x < 0x8000_0000
  }

  /** How many of wanted pods a run leaves unplaced when it cannot go on. */
  function Unplaced(wanted: int, capacity: int): int {
    if wanted <= capacity then 0 else wanted - capacity
  }

  /**
   The gauge is the number of pods the domain cannot take if and only if the product fits 32 bits, or its
   lower 32 bits are at least the demand and at most 2^31 above it.
   */
  lemma DeficitExact(hpaMax: int, nodes: int, cap: int)
    requires Int32(hpaMax) && Int32(nodes) && Int32(cap)
    ensures CapacityDeficit(hpaMax, nodes, cap) == Unplaced(hpaMax, nodes * cap) <==>
            Int32(nodes * cap) || hpaMax <= nodes * cap % 0x1_0000_0000 <= hpaMax + 0x8000_0000
  {
    MulNonneg(nodes, cap);
    var (p, m) := (nodes * cap, nodes * cap % 0x1_0000_0000);
    WrapLower(p);
    WrapShift(hpaMax, m, Wrap32(p));
  }

  lemma WrapLower(p: int)
    requires p >= 0
    ensures var m := p % 0x1_0000_0000; Wrap32(p) == if m < 0x8000_0000 then m else m - 0x1_0000_0000
  {
  }

  lemma WrapShift(h: int, m: int, w: int)
    requires Int32(h) && 0 <= m < 0x1_0000_0000 && w == if m < 0x8000_0000 then m else m - 0x1_0000_0000
    ensures Wrap32(h - w) <= 0 <==> h <= m <= h + 0x8000_0000
    ensures m < 0x8000_0000 ==> Wrap32(h - w) == h - m
  {
  }

  /** 65536 nodes of 65536 seats wrap to no capacity at all: a deficit is reported where there is none. */
  lemma DeficitWraps()
    ensures CapacityDeficit(7, 0x1_0000, 0x1_0000) == 7 && Unplaced(7, 0x1_0000 * 0x1_0000) == 0
  {
  }

  /**
   For one deployment whose product fits, the gauge over its node union is what is left over of hpaMax
   pods when placement over its stable domain stops: because all are placed, or because the run is stuck.
   */
  lemma DeficitIsWhatRunsLeave(views: seq<View>, moves: seq<Move>, q: string, s: string, policy: Policy, hpaMax: int,
                               template: PodSpec, nodes: seq<Node>, tolerates: (Toleration, Taint) -> bool)
    requires var domain := StableDomain(template, nodes, tolerates);
             && GrowthRun(views, moves, domain, policy) && SameService(moves, q, s) && views[0] == EMPTY
             && Int32(|domain|) && Int32(|domain| * policy.maxPodsPerNode)
             && Placements(moves) <= hpaMax
             && (Placements(moves) == hpaMax || Stuck(views[|moves|], q, s, domain, policy))
    requires policy.maxSkew >= 1 && policy.maxPodsPerNode >= 1
    requires Int32(hpaMax) && Int32(policy.maxPodsPerNode)
    ensures var union := UnionDomain([template], nodes, tolerates);
            CapacityDeficit(hpaMax, |union|, policy.maxPodsPerNode) == hpaMax - Placements(moves)
  {
    var domain := StableDomain(template, nodes, tolerates);
    UnionOfOne(template, nodes, tolerates);
    MaximalRunsFillTheDomain(views, moves, q, s, domain, policy);
    DeficitExact(hpaMax, |domain|, policy.maxPodsPerNode);
  }
}
