/** PreFilter, Filter, Reserve, PreScore and Score over the effective counts. */
module Placement {
  import opened Types
  import opened Transitions
  import opened Snapshots
  import opened State
  import opened Counts

  /** What PreFilter leaves for the rest of the scheduling cycle. */
  datatype CycleData = CycleData(
    quotaKey: string, schedKey: string, policy: Policy, domain: set<string>,
    minCount: int, effDomain: map<string, int>, effQuota: map<string, int>)

  datatype Verdict = Accepted | NodeOutsideSpreadDomain | MaxPodsPerNodeExceeded | MaxSkewExceeded

  function Lookup(m: map<string, int>, k: string): int {
    if k in m then m[k] else 0
  }

  /** The cached maps are the effective counts of v, and minCount is their minimum over the domain. */
  ghost predicate Mirrors(c: CycleData, v: View) {
    && (forall n | n in c.domain ::
          && Lookup(c.effDomain, n) == Eff(v, Sched, n, c.schedKey)
          && Lookup(c.effQuota, n) == Eff(v, Quota, n, c.quotaKey)
          && c.minCount <= Lookup(c.effDomain, n))
    && exists n :: n in c.domain && c.minCount == Lookup(c.effDomain, n)
  }

  /** The same when every node was read in a state of its own. */
  ghost predicate MirrorsEach(c: CycleData, views: map<string, View>) {
    && c.domain <= views.Keys
    && (forall n | n in c.domain ::
          && Lookup(c.effDomain, n) == Eff(views[n], Sched, n, c.schedKey)
          && Lookup(c.effQuota, n) == Eff(views[n], Quota, n, c.quotaKey)
          && c.minCount <= Lookup(c.effDomain, n))
    && exists n :: n in c.domain && c.minCount == Lookup(c.effDomain, n)
  }

  /** The map holds the effective counts of exactly the given nodes, each in its own state. */
  ghost predicate Filled(m: map<string, int>, nodes: set<string>, views: map<string, View>, dim: Dim, key: string) {
    m.Keys == nodes <= views.Keys && forall n | n in m :: m[n] == Eff(views[n], dim, n, key)
  }

  ghost predicate Lowest(m: map<string, int>, w: string, low: int) {
    w in m && m[w] == low && forall n | n in m :: low <= m[n]
  }

  lemma FilledStep(m: map<string, int>, domain: set<string>, todo: set<string>, views: map<string, View>,
                   dim: Dim, key: string, n: string)
    requires Filled(m, domain - todo, views, dim, key) && n in todo && todo <= domain && n in views
    ensures Filled(m[n := Eff(views[n], dim, n, key)], domain - (todo - {n}), views, dim, key)
  {
  }

  /** One more count: the lowest is the old lowest or the new count, whichever the comparison keeps. */
  lemma LowestStep(m: map<string, int>, w: string, low: int, n: string, d: int)
    requires n !in m && (m == map[] || Lowest(m, w, low))
    ensures if m == map[] || d < low then Lowest(m[n := d], n, d) else Lowest(m[n := d], w, low)
  {
  }

  /** The loop's state: the maps hold the nodes read so far, minCount is lowest and taken at node w. */
  ghost predicate Read(c: CycleData, w: string, todo: set<string>, views: map<string, View>) {
    && todo <= c.domain
    && Filled(c.effDomain, c.domain - todo, views, Sched, c.schedKey)
    && Filled(c.effQuota, c.domain - todo, views, Quota, c.quotaKey)
    && (c.minCount < 0 <==> todo == c.domain)
    && (todo != c.domain ==> Lowest(c.effDomain, w, c.minCount))
  }

  /** One node's counts enter the maps and may lower the minimum. */
  function ReadNode(c: CycleData, n: string, domainN: int, quotaN: int): CycleData {
    c.(effDomain := c.effDomain[n := domainN], effQuota := c.effQuota[n := quotaN],
       minCount := if c.minCount < 0 || domainN < c.minCount then domainN else c.minCount)
  }

  lemma ReadStep(c: CycleData, w: string, todo: set<string>, views: map<string, View>, n: string)
    returns (w': string)
    requires Read(c, w, todo, views) && n in todo && n in views
    ensures Read(ReadNode(c, n, Eff(views[n], Sched, n, c.schedKey), Eff(views[n], Quota, n, c.quotaKey)),
                 w', todo - {n}, views)
  {
    var d := Eff(views[n], Sched, n, c.schedKey);
    w' := if c.minCount < 0 || d < c.minCount then n else w;
    FilledStep(c.effDomain, c.domain, todo, views, Sched, c.schedKey, n);
    FilledStep(c.effQuota, c.domain, todo, views, Quota, c.quotaKey, n);
    assert todo == c.domain ==> c.effDomain == map[];
    LowestStep(c.effDomain, w, c.minCount, n, d);
  }

  lemma ReadMirrors(c: CycleData, w: string, views: map<string, View>)
    requires Read(c, w, {}, views) && c.domain != {}
    ensures MirrorsEach(c, views)
  {
    assert w in c.domain && c.minCount == Lookup(c.effDomain, w);
  }

  /**
   The counting part of PreFilter: one pass over the domain, in any order. The state may change between the
   reads, so each node comes with the snapshot loaded for it and the state its reservations are read in;
   views gives their values. An empty domain ends the cycle.
   */
  method PreFilter(snaps: map<string, Snapshot>, states: map<string, SpreadState>, quotaKey: string,
                   schedKey: string, policy: Policy, domain: set<string>, ghost views: map<string, View>)
    returns (r: Option<CycleData>)
    requires domain <= snaps.Keys && domain <= states.Keys && domain <= views.Keys
    requires forall n | n in domain :: snaps[n].Valid() && views[n] == View(snaps[n].pods, states[n].resv)
    ensures r.None? <==> domain == {}
    ensures r.Some? ==>
              var c := r.value;
              && c.quotaKey == quotaKey && c.schedKey == schedKey && c.policy == policy && c.domain == domain
              && MirrorsEach(c, views)
  {
    if domain == {} {
      return None;
    }
    ghost var w := "";
    var c := CycleData(quotaKey, schedKey, policy, domain, -1, map[], map[]);
    var todo := domain;
    while todo != {}
      invariant c.quotaKey == quotaKey && c.schedKey == schedKey && c.policy == policy && c.domain == domain
      invariant Read(c, w, todo, views)
      decreases todo
    {
      var n :| n in todo;
      var domainN, quotaN := states[n].EffCountFrom(snaps[n], n, schedKey, quotaKey);
      w := ReadStep(c, w, todo, views, n);
      c := ReadNode(c, n, domainN, quotaN);
      todo := todo - {n};
    }
    ReadMirrors(c, w, views);
    r := Some(c);
  }

  /** If nothing changed meanwhile, the cycle mirrors the one state. */
  lemma UndisturbedMirrors(c: CycleData, views: map<string, View>, v: View)
    requires MirrorsEach(c, views) && forall n | n in c.domain :: views[n] == v
    ensures Mirrors(c, v)
  {
  }

  function Filter(c: CycleData, node: string): Verdict {
    if node !in c.domain then NodeOutsideSpreadDomain
    else if Lookup(c.effQuota, node) + 1 > c.policy.maxPodsPerNode then MaxPodsPerNodeExceeded
    else if Lookup(c.effDomain, node) + 1 - c.minCount > c.policy.maxSkew then MaxSkewExceeded
    else Accepted
  }

  /**
   Filter's comparison with the cached minimum is the admission rule over the whole domain, and each
   rejection names its cause: outside the domain, no seat left, or some node of the domain too far behind.
   */
  lemma FilterIsAdmission(c: CycleData, v: View, node: string)
    requires Mirrors(c, v)
    ensures Filter(c, node) == Accepted <==> Admits(v, PodRef(c.quotaKey, c.schedKey, node), c.domain, c.policy)
    ensures Filter(c, node) == NodeOutsideSpreadDomain <==> node !in c.domain
    ensures Filter(c, node) == MaxPodsPerNodeExceeded <==>
            node in c.domain && Eff(v, Quota, node, c.quotaKey) >= c.policy.maxPodsPerNode
    ensures Filter(c, node) == MaxSkewExceeded ==>
            exists m :: m in c.domain &&
                        Eff(v, Sched, node, c.schedKey) + 1 - Eff(v, Sched, m, c.schedKey) > c.policy.maxSkew
  {
  }

  /**
   Nothing changed since PreFilter read the first node and the pod has no reservation: Reserve succeeds
   exactly where Filter accepts.
   */
  lemma ReserveAgreesWithFilter(c: CycleData, views: map<string, View>, v: View, u: UID, node: string, now: int)
    requires MirrorsEach(c, views) && (forall n | n in c.domain :: views[n] == v) && u !in v.resv
    ensures u in Reserve(v, u, PodRef(c.quotaKey, c.schedKey, node), c.domain, c.policy, now).resv <==>
            Filter(c, node) == Accepted
  {
    UndisturbedMirrors(c, views, v);
    FilterIsAdmission(c, v, node);
  }

  /** The Reserve callback: domain membership against the latest domain, then the locked recheck. */
  method ReservePod(st: SpreadState, c: CycleData, u: UID, node: string, domain: set<string>, now: int)
    returns (ok: bool)
    requires st.Valid()
    modifies st`resv
    ensures st.Valid()
    ensures st.V() == Reserve(old(st.V()), u, PodRef(c.quotaKey, c.schedKey, node), domain, c.policy, now)
    ensures ok <==> u !in old(st.resv) && u in st.resv
  {
    if node !in domain {
      return false;
    }
    ok := st.TryReserveChecked(u, PodRef(c.quotaKey, c.schedKey, node), domain, c.policy, now);
  }

  /**
   After a successful Reserve the node is ahead of any node of the domain, in distinct pods, by at
   most maxSkew plus the pods that other node double counts.
   */
  lemma SkewAfterReserve(v: View, u: UID, ref: PodRef, domain: set<string>, policy: Policy, now: int, m: string)
    requires u !in v.resv && Admits(v, ref, domain, policy) && m in domain
    ensures var v' := Reserve(v, u, ref, domain, policy, now);
            |Occupants(v', Sched, ref.nodeName, ref.schedKey)| <=
            |Occupants(v', Sched, m, ref.schedKey)| + policy.maxSkew + |Overlap(v, Sched, m, ref.schedKey)|
  {
    var v' := Reserve(v, u, ref, domain, policy, now);
    var (n, k) := (ref.nodeName, ref.schedKey);
    EffSplit(v, Sched, n, k);
    EffSplit(v, Sched, m, k);
    ReserveOccupants(v, u, ref, domain, policy, now, n);
    ReserveOccupants(v, u, ref, domain, policy, now, m);
    SubsetSize(Occupants(v, Sched, m, k), Occupants(v', Sched, m, k));
  }

  /** In distinct pods, the node of ref is ahead of no node of the domain by more than skew. */
  ghost predicate RealSkewWithin(v: View, ref: PodRef, domain: set<string>, skew: int) {
    forall m | m in domain ::
      |Occupants(v, Sched, ref.nodeName, ref.schedKey)| - |Occupants(v, Sched, m, ref.schedKey)| <= skew
  }

  /** The lead of the chosen node over another one after the placement. */
  lemma LeadAfterReserve(v: View, u: UID, ref: PodRef, domain: set<string>, policy: Policy, now: int, m: string)
    requires u !in v.resv && Admits(v, ref, domain, policy) && u !in Occupants(v, Sched, ref.nodeName, ref.schedKey)
    ensures var v' := Reserve(v, u, ref, domain, policy, now);
            var (n, k) := (ref.nodeName, ref.schedKey);
            |Occupants(v', Sched, n, k)| - |Occupants(v', Sched, m, k)| ==
            if m == n then 0 else Eff(v, Sched, n, k) - |Overlap(v, Sched, n, k)| + 1 - |Occupants(v, Sched, m, k)|
  {
    EffSplit(v, Sched, ref.nodeName, ref.schedKey);
    ReserveOccupants(v, u, ref, domain, policy, now, ref.nodeName);
    ReserveOccupants(v, u, ref, domain, policy, now, m);
  }

  /**
   When the real skew is safe: every policy that admits the pod keeps the distinct pods within its maxSkew
   if and only if no other node's distinct pods lie further below the least effective count of the domain
   than the chosen node is double counted. The least effective count is the one of node low.
   */
  lemma SkewExact(v: View, u: UID, ref: PodRef, domain: set<string>, now: int, low: string)
    requires u !in v.resv && u !in Occupants(v, Sched, ref.nodeName, ref.schedKey)
    requires ref.nodeName in domain && low in domain
    requires forall m | m in domain :: Eff(v, Sched, low, ref.schedKey) <= Eff(v, Sched, m, ref.schedKey)
    ensures (forall policy | Admits(v, ref, domain, policy) ::
               RealSkewWithin(Reserve(v, u, ref, domain, policy, now), ref, domain, policy.maxSkew)) <==>
            (forall m | m in domain && m != ref.nodeName ::
               Eff(v, Sched, low, ref.schedKey) - |Occupants(v, Sched, m, ref.schedKey)| <=
               |Overlap(v, Sched, ref.nodeName, ref.schedKey)|)
  {
    var (n, k) := (ref.nodeName, ref.schedKey);
    forall policy, m | Admits(v, ref, domain, policy) && m in domain
      ensures var v' := Reserve(v, u, ref, domain, policy, now);
              |Occupants(v', Sched, n, k)| - |Occupants(v', Sched, m, k)| ==
              if m == n then 0 else Eff(v, Sched, n, k) - |Overlap(v, Sched, n, k)| + 1 - |Occupants(v, Sched, m, k)|
    {
      LeadAfterReserve(v, u, ref, domain, policy, now, m);
    }
    var tight := Policy(Eff(v, Sched, n, k) + 1 - Eff(v, Sched, low, k), Eff(v, Quota, n, ref.quotaKey) + 1);
    assert Admits(v, ref, domain, tight);
  }

  /** The effective count is the distinct pods plus the double counted ones. */
  lemma EffSplit(v: View, dim: Dim, n: string, k: string)
    ensures Eff(v, dim, n, k) == |Occupants(v, dim, n, k)| + |Overlap(v, dim, n, k)|
  {
  }

  /** Double counting is not conservative for skew: a Reserve that leaves the real skew above maxSkew. */
  lemma OverlapBreaksSkew() returns (v: View, ref: PodRef, domain: set<string>, policy: Policy)
    ensures policy.maxSkew == 1 && domain == {ref.nodeName, "m"} && Admits(v, ref, domain, policy) && "c" !in v.resv
    ensures |Occupants(Reserve(v, "c", ref, domain, policy, 0), Sched, ref.nodeName, ref.schedKey)| == 3
    ensures |Occupants(Reserve(v, "c", ref, domain, policy, 0), Sched, "m", ref.schedKey)| == 1
  {
    ref, domain, policy := PodRef("q", "s", "n"), {"n", "m"}, Policy(1, 5);
    var onM := PodRef("q", "s", "m");
    v := View(map["a" := ref, "b" := ref, "x" := onM], map["x" := Reservation(onM, BoundObs, 0)]);
    LopsidedCounts(ref, onM, v);
    ReserveOccupants(v, "c", ref, domain, policy, 0, "n");
    ReserveOccupants(v, "c", ref, domain, policy, 0, "m");
  }

  lemma LopsidedCounts(ref: PodRef, onM: PodRef, v: View)
    requires ref == PodRef("q", "s", "n") && onM == PodRef("q", "s", "m")
    requires v == View(map["a" := ref, "b" := ref, "x" := onM], map["x" := Reservation(onM, BoundObs, 0)])
    ensures CountedOn(v.pods, Sched, "n", "s") == CountedOn(v.pods, Quota, "n", "q") == {"a", "b"}
    ensures ReservedOn(v.resv, Sched, "n", "s") == ReservedOn(v.resv, Quota, "n", "q") == {}
    ensures CountedOn(v.pods, Sched, "m", "s") == ReservedOn(v.resv, Sched, "m", "s") == {"x"}
  {
  }

  lemma ReserveOccupants(v: View, u: UID, ref: PodRef, domain: set<string>, policy: Policy, now: int, n: string)
    requires u !in v.resv && Admits(v, ref, domain, policy)
    ensures Occupants(Reserve(v, u, ref, domain, policy, now), Sched, n, ref.schedKey) ==
            Occupants(v, Sched, n, ref.schedKey) + (if n == ref.nodeName then {u} else {})
  {
    ReservedInsert(v.resv, u, Reservation(ref, Reserved, now), Sched, n, ref.schedKey);
  }

  /** Below 2^31 pods and reservations together no count or comparison overflows a 32-bit integer. */
  lemma CountsFitInt32(v: View, dim: Dim, n: string, k: string)
    requires |v.pods| + |v.resv| < 0x7fff_ffff
    ensures Eff(v, dim, n, k) + 1 <= 0x7fff_ffff
  {
    SubsetSize(CountedOn(v.pods, dim, n, k), v.pods.Keys);
    SubsetSize(ReservedOn(v.resv, dim, n, k), v.resv.Keys);
  }
}
