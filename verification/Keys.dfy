/** Quota and scheduling keys, and what their shape guarantees about the counts. */
module Keys {
  import opened Types
  import opened Counts

  const HASH_CHARS := 12

  function QuotaKey(namespace: string, schedulerName: string, labelKey: string, labelValue: string): string {
    namespace + "/" + schedulerName + "/" + labelKey + "=" + labelValue
  }

  function SchedKey(quotaKey: string, domainHash: string): string {
    quotaKey + "/" + domainHash
  }

  /** The ref of a managed pod; None when the service label is missing. */
  function PodRefFor(namespace: string, schedulerName: string, labelKey: string, labels: map<string, string>,
                     domainHash: string, nodeName: string): Option<PodRef> {
    if labelKey !in labels then None
    else
      var quota := QuotaKey(namespace, schedulerName, labelKey, labels[labelKey]);
      Some(PodRef(quota, SchedKey(quota, domainHash), nodeName))
  }

  /** The layout of both keys, on an example. */
  lemma KeyLayout()
    ensures PodRefFor("ns1", "sched", "svc", map["svc" := "alpha", "tier" := "db"], "abcdef012345", "n") ==
            Some(PodRef("ns1/sched/svc=alpha", "ns1/sched/svc=alpha/abcdef012345", "n"))
  {
    assert QuotaKey("ns1", "sched", "svc", "alpha") == "ns1/sched/svc=alpha";
    assert SchedKey("ns1/sched/svc=alpha", "abcdef012345") == "ns1/sched/svc=alpha/abcdef012345";
  }

  /** A separator that occurs in neither prefix splits a string in one way only. */
  lemma SplitUnique(a: string, b: string, x: string, y: string, sep: char)
    requires sep !in a && sep !in b && a + [sep] + x == b + [sep] + y
    ensures a == b && x == y
  {
    var s := a + [sep] + x;
    assert s[|a|] == sep && s[|b|] == sep;
    assert forall i | 0 <= i < |a| :: s[i] == a[i];
    assert forall i | 0 <= i < |b| :: s[i] == b[i];
    assert |a| == |b|;
    assert a == s[..|a|] == b;
    assert x == s[|a| + 1..] == y;
  }

  /** For one scheduler and label key, quota keys tell services of slash-free namespaces apart. */
  lemma QuotaKeyInjective(ns: string, ns': string, scheduler: string, labelKey: string, v: string, v': string)
    requires '/' !in ns && '/' !in ns'
    requires QuotaKey(ns, scheduler, labelKey, v) == QuotaKey(ns', scheduler, labelKey, v')
    ensures ns == ns' && v == v'
  {
    var mid := scheduler + "/" + labelKey + "=";
    assert QuotaKey(ns, scheduler, labelKey, v) == ns + ['/'] + (mid + v);
    assert QuotaKey(ns', scheduler, labelKey, v') == ns' + ['/'] + (mid + v');
    SplitUnique(ns, ns', mid + v, mid + v', '/');
    assert v == (mid + v)[|mid|..] == v';
  }

  /** The slash condition matters: two namespaces, one of them with a slash, sharing a quota key. */
  lemma SlashedNamespacesCollide()
    ensures QuotaKey("a", "S", "L", "x/S/L=w") == QuotaKey("a/S/L=x", "S", "L", "w")
  {
  }

  /** Hashes have a fixed length, so a scheduling key determines its quota key and its hash. */
  lemma SchedKeyInjective(q: string, h: string, q': string, h': string)
    requires |h| == |h'| && SchedKey(q, h) == SchedKey(q', h')
    ensures q == q' && h == h'
  {
    var s := SchedKey(q, h);
    assert q == s[..|s| - |h| - 1] == q';
    assert h == s[|s| - |h|..] == h';
  }

  /** The scheduling key extends the quota key by a fixed-length hash. */
  ghost predicate WellKeyed(ref: PodRef) {
    exists h: string :: |h| == HASH_CHARS && ref.schedKey == SchedKey(ref.quotaKey, h)
  }

  lemma PodRefsAreWellKeyed(ns: string, scheduler: string, labelKey: string, labels: map<string, string>,
                            hash: string, node: string)
    requires |hash| == HASH_CHARS
    ensures var r := PodRefFor(ns, scheduler, labelKey, labels, hash, node);
            && (r.Some? <==> labelKey in labels)
            && (r.Some? ==> WellKeyed(r.value) && r.value.nodeName == node)
  {
  }

  lemma SameSchedSameQuota(a: PodRef, b: PodRef)
    requires WellKeyed(a) && WellKeyed(b) && a.schedKey == b.schedKey
    ensures a.quotaKey == b.quotaKey
  {
    var h :| |h| == HASH_CHARS && a.schedKey == SchedKey(a.quotaKey, h);
    var h' :| |h'| == HASH_CHARS && b.schedKey == SchedKey(b.quotaKey, h');
    SchedKeyInjective(a.quotaKey, h, b.quotaKey, h');
  }

  /** All scheduling keys a service has in a snapshot. */
  function DomainsOf(pods: map<UID, PodRef>, quotaKey: string): set<string> {
    set u | u in pods && pods[u].quotaKey == quotaKey :: pods[u].schedKey
  }

  /** The scheduling counts of a service on a node. */
  function DomainCounts(pods: map<UID, PodRef>, quotaKey: string, node: string): map<string, int> {
    map k | k in DomainsOf(pods, quotaKey) :: |CountedOn(pods, Sched, node, k)|
  }

  lemma OneServicePerDomain(pods: map<UID, PodRef>, q: string, n: string, k: string)
    requires forall u | u in pods && (pods[u].nodeName == n || pods[u].quotaKey == q) :: WellKeyed(pods[u])
    requires k in DomainsOf(pods, q)
    ensures forall u | u in CountedOn(pods, Sched, n, k) :: pods[u].quotaKey == q
  {
    var w :| w in pods && pods[w].quotaKey == q && pods[w].schedKey == k;
    forall u | u in CountedOn(pods, Sched, n, k)
      ensures pods[u].quotaKey == q
    {
      SameSchedSameQuota(pods[u], pods[w]);
    }
  }

  /** On every node the quota count of a service is the sum of its counts over all its domains. */
  lemma QuotaIsSumOfDomains(pods: map<UID, PodRef>, q: string, n: string)
    requires forall u | u in pods && (pods[u].nodeName == n || pods[u].quotaKey == q) :: WellKeyed(pods[u])
    ensures Sum(DomainCounts(pods, q, n)) == |CountedOn(pods, Quota, n, q)|
  {
    var all := CountedOn(pods, Quota, n, q);
    var tag := map u | u in pods :: pods[u].schedKey;
    var keys := DomainsOf(pods, q);
    PartitionSize(all, tag, keys);
    forall k | k in keys
      ensures Class(all, tag, k) == CountedOn(pods, Sched, n, k)
    {
      OneServicePerDomain(pods, q, n, k);
    }
    assert ClassSizes(all, tag, keys) == DomainCounts(pods, q, n);
  }
}
