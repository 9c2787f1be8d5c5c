/** Queueing hints: a pod event that could let a pending pod pass Filter never skips it. */
module Enqueue {
  import opened Types
  import opened Transitions
  import opened Cluster
  import opened Lifecycle
  import opened Keys
  import opened Placement
  import opened Counts

  /** A pod as the hint sees it: its scheduler and the ref its labels give, None without service label. */
  datatype HintPod = HintPod(schedulerName: string, ref: Option<PodRef>)

  datatype Hint = QueueAfterBackoff | QueueSkip

  function PodHint(managed: string, pending: Option<HintPod>, oldObj: Option<HintPod>, newObj: Option<HintPod>): Hint {
    var evt := if newObj.Some? then newObj else oldObj;
    if evt.None? || pending.None? then QueueAfterBackoff
    else if evt.value.schedulerName != managed then QueueSkip
    else if evt.value.ref.None? || pending.value.ref.None? then QueueSkip
    else
      var (e, p) := (evt.value.ref.value, pending.value.ref.value);
      if e.schedKey == p.schedKey || e.quotaKey == p.quotaKey then QueueAfterBackoff else QueueSkip
  }

  /**
   Which events wake: one without objects always does; otherwise the event's pod, the new object or the old one
   of a deletion, and the pending pod must both be managed and labelled and share a service or a domain.
   */
  lemma HintCases(managed: string, pending: HintPod, oldObj: Option<HintPod>, newObj: Option<HintPod>)
    ensures newObj.None? && oldObj.None? ==> PodHint(managed, Some(pending), oldObj, newObj) == QueueAfterBackoff
    ensures forall e: HintPod | newObj == Some(e) || (newObj.None? && oldObj == Some(e)) ::
              PodHint(managed, Some(pending), oldObj, newObj) == QueueAfterBackoff <==>
              e.schedulerName == managed &&
              exists a: PodRef, b: PodRef :: e.ref == Some(a) && pending.ref == Some(b) &&
                (a.quotaKey == b.quotaKey || a.schedKey == b.schedKey)
    ensures PodHint(managed, None, oldObj, newObj) == QueueAfterBackoff
  {
  }

  /** The ref the event handler uses for a pod. */
  function HandlerRef(managed: string, pod: HintPod): PodRef {
    if pod.schedulerName == managed && pod.ref.Some? then pod.ref.value else EMPTY_REF
  }

  /** The whole event: an add or update with its newest object, or a deletion. */
  function EventEffect(v: View, u: UID, managed: string, newObj: Option<HintPod>, countable: bool): View {
    match newObj
    case Some(pod) =>
      ReleaseIfObserved(if countable then Upsert(v, u, HandlerRef(managed, pod)) else Remove(v, u), u)
    case None => PodEvent(v, u, Deleted)
  }

  /** This is what the handler does with the object. */
  lemma EventEffectIsPodEvent(v: View, u: UID, managed: string, pod: HintPod, o: PodObj)
    requires o.managed <==> pod.schedulerName == managed && pod.ref.Some?
    requires o.managed ==> pod.ref == Some(o.ref)
    ensures EventEffect(v, u, managed, Some(pod), Countable(o)) == PodEvent(v, u, Version(o))
  {
  }

  /** No keys at all, or a quota key with a scheduling key built on it. */
  ghost predicate Proper(ref: PodRef) {
    (ref.quotaKey == "" && ref.schedKey == "") || (ref.quotaKey != "" && WellKeyed(ref))
  }

  /** The ref of the event's pod: its new object, or the old one of a deletion. */
  function EventPodRef(managed: string, oldObj: Option<HintPod>, newObj: Option<HintPod>): PodRef
    requires oldObj.Some? || newObj.Some?
  {
    HandlerRef(managed, if newObj.Some? then newObj.value else oldObj.value)
  }

  /** The event takes the pod's reservation away: a deletion does, a counting on the reserved node does. */
  predicate Releases(v: View, u: UID, managed: string, newObj: Option<HintPod>, countable: bool) {
    u in v.resv &&
    (newObj.Some? ==> countable && HandlerRef(managed, newObj.value).nodeName == v.resv[u].ref.nodeName)
  }

  /**
   Whatever the event takes away of the pod, its count or its reservation, is under no quota key or under
   the one of the event: the service label is kept.
   */
  predicate KeepsLabel(v: View, u: UID, managed: string, oldObj: Option<HintPod>, newObj: Option<HintPod>,
                       countable: bool)
    requires oldObj.Some? || newObj.Some?
  {
    var q := EventPodRef(managed, oldObj, newObj).quotaKey;
    && (u in v.pods ==> v.pods[u].quotaKey in {"", q})
    && (Releases(v, u, managed, newObj, countable) ==> v.resv[u].ref.quotaKey in {"", q})
  }

  /** All refs in play were built from labels, or are the empty one. */
  ghost predicate ProperRefs(v: View, u: UID, ref: PodRef) {
    Proper(ref) && (u in v.pods ==> Proper(v.pods[u])) && (u in v.resv ==> Proper(v.resv[u].ref))
  }

  /** A ref of another service is in neither dimension of the pending pod. */
  lemma ForeignKeys(a: PodRef, p: PodRef)
    requires Proper(a) && Proper(p) && p.quotaKey != "" && a.quotaKey != p.quotaKey
    ensures a.schedKey != p.schedKey
  {
    if a.schedKey == p.schedKey {
      var h :| |h| == HASH_CHARS && p.schedKey == SchedKey(p.quotaKey, h);
      assert a.schedKey != "";
      SameSchedSameQuota(a, p);
    }
  }

  /** An event of another service leaves every effective count of the pending pod alone. */
  lemma ForeignEventKeepsCounts(v: View, u: UID, managed: string, oldObj: Option<HintPod>, newObj: Option<HintPod>,
                                countable: bool, p: PodRef, n: string)
    requires oldObj.Some? || newObj.Some?
    requires ProperRefs(v, u, EventPodRef(managed, oldObj, newObj)) && KeepsLabel(v, u, managed, oldObj, newObj, countable)
    requires Proper(p) && p.quotaKey != "" && EventPodRef(managed, oldObj, newObj).quotaKey != p.quotaKey
    ensures var v' := EventEffect(v, u, managed, newObj, countable);
            && Eff(v', Quota, n, p.quotaKey) == Eff(v, Quota, n, p.quotaKey)
            && Eff(v', Sched, n, p.schedKey) == Eff(v, Sched, n, p.schedKey)
  {
    var v' := EventEffect(v, u, managed, newObj, countable);
    ForeignKeys(EventPodRef(managed, oldObj, newObj), p);
    if u in v.pods {
      ForeignKeys(v.pods[u], p);
    }
    if Releases(v, u, managed, newObj, countable) {
      ForeignKeys(v.resv[u].ref, p);
    }
    OthersUnchanged(v, v', u, Quota, n, p.quotaKey);
    OthersUnchanged(v, v', u, Sched, n, p.schedKey);
  }

  lemma OthersUnchanged(v: View, v': View, u: UID, dim: Dim, n: string, k: string)
    requires v'.pods - {u} == v.pods - {u} && v'.resv - {u} == v.resv - {u}
    requires u in v.pods ==> KeyOf(v.pods[u], dim) != k
    requires u in v'.pods ==> KeyOf(v'.pods[u], dim) != k
    requires v'.resv == v.resv || (u in v.resv && u !in v'.resv && KeyOf(v.resv[u].ref, dim) != k)
    ensures Eff(v', dim, n, k) == Eff(v, dim, n, k)
  {
    assert CountedOn(v.pods, dim, n, k) == CountedOn(v.pods - {u}, dim, n, k);
    assert CountedOn(v'.pods, dim, n, k) == CountedOn(v'.pods - {u}, dim, n, k);
    if v'.resv != v.resv {
      assert ReservedOn(v.resv, dim, n, k) == ReservedOn(v.resv - {u}, dim, n, k);
      assert v'.resv - {u} == v'.resv;
    }
  }

  /**
   A pending pod, a cycle before the event and one after it with the same domain and policy, and a node
   where Filter answers differently, although the hint for the event is a skip.
   */
  ghost predicate MissedChange(v: View, u: UID, managed: string, oldObj: Option<HintPod>, newObj: Option<HintPod>,
                               countable: bool, pending: HintPod, before: CycleData, after: CycleData, node: string) {
    && pending.ref.Some? && Proper(pending.ref.value) && pending.ref.value.quotaKey != ""
    && Mirrors(before, v) && Mirrors(after, EventEffect(v, u, managed, newObj, countable))
    && before.quotaKey == after.quotaKey == pending.ref.value.quotaKey
    && before.schedKey == after.schedKey == pending.ref.value.schedKey
    && before.domain == after.domain && before.policy == after.policy
    && (Filter(before, node) == Accepted) != (Filter(after, node) == Accepted)
    && PodHint(managed, Some(pending), oldObj, newObj) == QueueSkip
  }

  /** The worst of these: the node was rejected before and would be accepted now. */
  ghost predicate LostWakeUp(v: View, u: UID, managed: string, oldObj: Option<HintPod>, newObj: Option<HintPod>,
                             countable: bool, pending: HintPod, before: CycleData, after: CycleData, node: string) {
    MissedChange(v, u, managed, oldObj, newObj, countable, pending, before, after, node) && Filter(after, node) == Accepted
  }

  /** An event that keeps the service label is not skipped if it changes an answer of Filter in either way. */
  lemma NoLostWakeUp(v: View, u: UID, managed: string, oldObj: Option<HintPod>, newObj: Option<HintPod>,
                     countable: bool, pending: HintPod, before: CycleData, after: CycleData, node: string)
    requires oldObj.Some? || newObj.Some?
    requires ProperRefs(v, u, EventPodRef(managed, oldObj, newObj)) && KeepsLabel(v, u, managed, oldObj, newObj, countable)
    ensures !MissedChange(v, u, managed, oldObj, newObj, countable, pending, before, after, node)
  {
    if MissedChange(v, u, managed, oldObj, newObj, countable, pending, before, after, node) {
      var v' := EventEffect(v, u, managed, newObj, countable);
      var p := pending.ref.value;
      FilterIsAdmission(before, v, node);
      FilterIsAdmission(after, v', node);
      forall n
        ensures Eff(v', Quota, n, p.quotaKey) == Eff(v, Quota, n, p.quotaKey)
        ensures Eff(v', Sched, n, p.schedKey) == Eff(v, Sched, n, p.schedKey)
      {
        ForeignEventKeepsCounts(v, u, managed, oldObj, newObj, countable, p, n);
      }
    }
  }

  /** An event under another quota key takes a seat of the old one away and adds none there. */
  lemma SeatFreed(v: View, u: UID, managed: string, oldObj: Option<HintPod>, newObj: Option<HintPod>,
                  countable: bool, p: PodRef)
    requires oldObj.Some? || newObj.Some?
    requires p.quotaKey != EventPodRef(managed, oldObj, newObj).quotaKey
    requires (u in v.pods && v.pods[u] == p) || (Releases(v, u, managed, newObj, countable) && v.resv[u].ref == p)
    ensures Eff(EventEffect(v, u, managed, newObj, countable), Quota, p.nodeName, p.quotaKey) <
            Eff(v, Quota, p.nodeName, p.quotaKey)
  {
    var v' := EventEffect(v, u, managed, newObj, countable);
    var (n, q) := (p.nodeName, p.quotaKey);
    var (c, c') := (CountedOn(v.pods, Quota, n, q), CountedOn(v'.pods, Quota, n, q));
    var (r, r') := (ReservedOn(v.resv, Quota, n, q), ReservedOn(v'.resv, Quota, n, q));
    assert c' <= c - {u} && r' <= r;
    assert u in c || (u in r && u !in r');
    SubsetSize(c', if u in c then c - {u} else c);
    SubsetSize(r', if u in r && u !in r' then r - {u} else r);
  }

  /** On a domain of one node the cap alone decides. */
  function OneNodeCycle(v: View, p: PodRef, cap: int): CycleData {
    var (n, d) := (p.nodeName, Eff(v, Sched, p.nodeName, p.schedKey));
    CycleData(p.quotaKey, p.schedKey, Policy(1, cap), {n}, d, map[n := d], map[n := Eff(v, Quota, n, p.quotaKey)])
  }

  lemma OneNodeFilter(v: View, p: PodRef, cap: int)
    ensures Mirrors(OneNodeCycle(v, p, cap), v)
    ensures Filter(OneNodeCycle(v, p, cap), p.nodeName) == Accepted <==> Eff(v, Quota, p.nodeName, p.quotaKey) < cap
  {
    assert p.nodeName in OneNodeCycle(v, p, cap).domain;
  }

  /** A pod that waits for the freed seat loses its wake-up. */
  lemma FreedSeatIsLost(v: View, u: UID, managed: string, oldObj: Option<HintPod>, newObj: Option<HintPod>,
                        countable: bool, p: PodRef)
    returns (pending: HintPod, before: CycleData, after: CycleData)
    requires oldObj.Some? || newObj.Some?
    requires Proper(EventPodRef(managed, oldObj, newObj)) && Proper(p)
    requires p.quotaKey != "" && p.quotaKey != EventPodRef(managed, oldObj, newObj).quotaKey
    requires (u in v.pods && v.pods[u] == p) || (Releases(v, u, managed, newObj, countable) && v.resv[u].ref == p)
    ensures LostWakeUp(v, u, managed, oldObj, newObj, countable, pending, before, after, p.nodeName)
  {
    var v' := EventEffect(v, u, managed, newObj, countable);
    var cap := Eff(v, Quota, p.nodeName, p.quotaKey);
    pending := HintPod(managed, Some(p.(nodeName := "")));
    before, after := OneNodeCycle(v, p, cap), OneNodeCycle(v', p, cap);
    SeatFreed(v, u, managed, oldObj, newObj, countable, p);
    OneNodeFilter(v, p, cap);
    OneNodeFilter(v', p, cap);
    ForeignKeys(EventPodRef(managed, oldObj, newObj), p);
  }

  /**
   No lost wake-up, exactly: over all pending pods, cycles and nodes, no event loses a wake-up, and none misses
   a change of either kind, if and only if it keeps the service label of what it takes away.
   */
  lemma WakeUpsExact(v: View, u: UID, managed: string, oldObj: Option<HintPod>, newObj: Option<HintPod>, countable: bool)
    requires oldObj.Some? || newObj.Some?
    requires ProperRefs(v, u, EventPodRef(managed, oldObj, newObj))
    ensures (forall pending, before, after, node ::
               !LostWakeUp(v, u, managed, oldObj, newObj, countable, pending, before, after, node)) <==>
            KeepsLabel(v, u, managed, oldObj, newObj, countable)
    ensures (forall pending, before, after, node ::
               !MissedChange(v, u, managed, oldObj, newObj, countable, pending, before, after, node)) <==>
            KeepsLabel(v, u, managed, oldObj, newObj, countable)
  {
    if KeepsLabel(v, u, managed, oldObj, newObj, countable) {
      forall pending, before, after, node
        ensures !MissedChange(v, u, managed, oldObj, newObj, countable, pending, before, after, node)
      {
        NoLostWakeUp(v, u, managed, oldObj, newObj, countable, pending, before, after, node);
      }
    } else {
      var q := EventPodRef(managed, oldObj, newObj).quotaKey;
      var p := if u in v.pods && v.pods[u].quotaKey !in {"", q} then v.pods[u] else v.resv[u].ref;
      var pending, before, after := FreedSeatIsLost(v, u, managed, oldObj, newObj, countable, p);
    }
  }

  /**
   Retries stay within the service: for managed, labelled pods of slash-free namespaces the hint skips
   exactly the events of another namespace or another service value.
   */
  lemma SkipsExactlyOtherServices(managed: string, labelKey: string, ns: string, ns': string,
                                  labels: map<string, string>, labels': map<string, string>,
                                  hash: string, hash': string, node: string)
    requires '/' !in ns && '/' !in ns' && |hash| == |hash'| == HASH_CHARS
    requires labelKey in labels && labelKey in labels'
    ensures var pending := HintPod(managed, PodRefFor(ns, managed, labelKey, labels, hash, ""));
            var event := HintPod(managed, PodRefFor(ns', managed, labelKey, labels', hash', node));
            PodHint(managed, Some(pending), Some(event), Some(event)) == QueueSkip <==>
            ns != ns' || labels[labelKey] != labels'[labelKey]
  {
    var (q, q') := (QuotaKey(ns, managed, labelKey, labels[labelKey]), QuotaKey(ns', managed, labelKey, labels'[labelKey]));
    if q == q' {
      QuotaKeyInjective(ns, ns', managed, labelKey, labels[labelKey], labels'[labelKey]);
    }
    if SchedKey(q, hash) == SchedKey(q', hash') {
      SchedKeyInjective(q, hash, q', hash');
    }
  }

  /** For example: a pod relabelled from service q to service r frees a seat of q, and the hint skips. */
  lemma RelabelIsLost(h: string) returns (pending: HintPod, before: CycleData, after: CycleData)
    requires |h| == HASH_CHARS
    ensures var (ref, ref') := (PodRef("q", SchedKey("q", h), "n"), PodRef("r", SchedKey("r", h), "n"));
            LostWakeUp(View(map["u" := ref], map[]), "u", "m", Some(HintPod("m", Some(ref))),
                       Some(HintPod("m", Some(ref'))), true, pending, before, after, "n")
  {
    var (ref, ref') := (PodRef("q", SchedKey("q", h), "n"), PodRef("r", SchedKey("r", h), "n"));
    pending, before, after := FreedSeatIsLost(
      View(map["u" := ref], map[]), "u", "m", Some(HintPod("m", Some(ref))), Some(HintPod("m", Some(ref'))), true, ref);
  }
}
