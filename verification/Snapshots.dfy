/** The count snapshot: a pod map and two nested indexes, cloned before every change. */
module Snapshots {
  import opened Types
  import opened Tables

  /** One inner count map; a heap object, because several snapshots could alias it. */
  class CountMap {
    var n: map<string, int>

    constructor ()
      ensures n == map[]
    {
      n := map[];
    }
  }

  type Index = map<string, CountMap>

  ghost function Contents(m: Index): Table
    reads m.Values
  {
    map o | o in m :: m[o].n
  }

  /** No two outer keys share an inner map. */
  ghost predicate Unshared(m: Index) {
    forall a, b | a in m && b in m && m[a] == m[b] :: a == b
  }

  /** The index owns its inner maps and recounts the pod map in one dimension. */
  ghost predicate Exact(m: Index, pods: map<UID, PodRef>, dim: Dim)
    reads m.Values
  {
    Unshared(m) && Recounts(Contents(m), pods, dim)
  }

  method IncMap(m: Index, outer: string, inner: string) returns (r: Index)
    requires Unshared(m)
    modifies m.Values
    ensures Contents(r) == Inc(old(Contents(m)), outer, inner)
    ensures Unshared(r) && fresh(r.Values - m.Values)
  {
    r := m;
    if outer !in r {
      var row := new CountMap();
      r := r[outer := row];
    }
    var row := r[outer];
    row.n := row.n[inner := (if inner in row.n then row.n[inner] else 0) + 1];
    assert forall o | o in m && o != outer :: r[o] == m[o] && m[o] != row;
  }

  method DecMap(m: Index, outer: string, inner: string) returns (r: Index)
    requires Unshared(m)
    modifies m.Values
    ensures Contents(r) == Dec(old(Contents(m)), outer, inner)
    ensures Unshared(r) && r.Values <= m.Values
  {
    r := m;
    if outer !in m {
      return;
    }
    var row := m[outer];
    assert forall o | o in m && o != outer :: m[o] != row;
    if inner !in row.n || row.n[inner] <= 1 {
      row.n := row.n - {inner};
      if row.n == map[] {
        r := m - {outer};
      }
    } else {
      row.n := row.n[inner := row.n[inner] - 1];
    }
  }

  /** Counts one more pod in one dimension. */
  method IncIndex(m: Index, ghost pods: map<UID, PodRef>, dim: Dim, ghost u: UID, ref: PodRef) returns (r: Index)
    requires Exact(m, pods, dim) && u !in pods
    modifies m.Values
    ensures Exact(r, pods[u := ref], dim)
    ensures fresh(r.Values - m.Values)
  {
    IncRecounts(Contents(m), pods, dim, u, ref);
    r := IncMap(m, ref.nodeName, KeyOf(ref, dim));
  }

  /** Counts one pod less in one dimension. */
  method DecIndex(m: Index, ghost pods: map<UID, PodRef>, dim: Dim, ghost u: UID, ref: PodRef) returns (r: Index)
    requires Exact(m, pods, dim) && u in pods && pods[u] == ref
    modifies m.Values
    ensures Exact(r, pods - {u}, dim)
    ensures r.Values <= m.Values
  {
    DecRecounts(Contents(m), pods, dim, u);
    r := DecMap(m, ref.nodeName, KeyOf(ref, dim));
  }

  /** Copies one inner map, entry by entry in any order. */
  method CloneRow(row: CountMap) returns (c: CountMap)
    ensures fresh(c) && c.n == row.n
  {
    c := new CountMap();
    var todo := row.n.Keys;
    while todo != {}
      invariant todo <= row.n.Keys
      invariant c.n == row.n - todo
      decreases todo
    {
      var k :| k in todo;
      c.n := c.n[k := row.n[k]];
      todo := todo - {k};
    }
  }

  /** Copies an index so that the copy shares no inner map with the original. */
  method CloneIndex(m: Index) returns (c: Index)
    requires Unshared(m)
    ensures Contents(c) == Contents(m)
    ensures Unshared(c) && fresh(c.Values)
  {
    c := map[];
    var todo := m.Keys;
    while todo != {}
      invariant todo <= m.Keys && c.Keys == m.Keys - todo
      invariant forall o | o in c :: fresh(c[o]) && c[o].n == m[o].n
      invariant Unshared(c)
      decreases todo
    {
      var o :| o in todo;
      var row := CloneRow(m[o]);
      assert forall p | p in c :: c[p] != row;
      c := c[o := row];
      todo := todo - {o};
    }
  }

  class Snapshot {
    var pods: map<UID, PodRef>
    var nodeQuota: Index
    var nodeDomain: Index

    ghost function Rows(): set<CountMap>
      reads this
    {
      nodeQuota.Values + nodeDomain.Values
    }

    /** The indexes own their inner maps and recount the pod map. */
    ghost predicate Valid()
      reads this, Rows()
    {
      && nodeQuota.Values !! nodeDomain.Values
      && Exact(nodeQuota, pods, Quota) && Exact(nodeDomain, pods, Sched)
    }

    constructor ()
      ensures Valid() && pods == map[] && Rows() == {}
    {
      pods, nodeQuota, nodeDomain := map[], map[], map[];
      new;
      assert forall n, k :: CountedOn(pods, Quota, n, k) == {} && CountedOn(pods, Sched, n, k) == {};
    }

    /** Points the snapshot at a pod map and two indexes that recount it. */
    method Install(pods: map<UID, PodRef>, q: Index, d: Index)
      requires q.Values !! d.Values && Exact(q, pods, Quota) && Exact(d, pods, Sched)
      modifies this
      ensures Valid() && this.pods == pods && nodeQuota == q && nodeDomain == d
    {
      this.pods, nodeQuota, nodeDomain := pods, q, d;
    }

    /** A deep copy: same value, no inner map in common with this snapshot. */
    method Clone() returns (c: Snapshot)
      requires Valid()
      ensures fresh(c) && fresh(c.Rows())
      ensures c.Valid() && c.pods == pods
    {
      var q := CloneIndex(nodeQuota);
      var d := CloneIndex(nodeDomain);
      c := new Snapshot();
      c.Install(pods, q, d);
    }

    /** Reads both counts of a node; absent entries read as zero. */
    method Count(node: string, quotaKey: string, schedKey: string) returns (quotaN: int, domainN: int)
      requires Valid()
      ensures quotaN == |CountedOn(pods, Quota, node, quotaKey)|
      ensures domainN == |CountedOn(pods, Sched, node, schedKey)|
    {
      quotaN, domainN := 0, 0;
      if node in nodeQuota && quotaKey in nodeQuota[node].n {
        quotaN := nodeQuota[node].n[quotaKey];
      }
      if node in nodeDomain && schedKey in nodeDomain[node].n {
        domainN := nodeDomain[node].n[schedKey];
      }
      assert CountsAt(Contents(nodeQuota), pods, Quota, node, quotaKey);
      assert CountsAt(Contents(nodeDomain), pods, Sched, node, schedKey);
    }

    method UnapplyCount(u: UID)
      requires Valid()
      modifies this, Rows()
      ensures Valid() && pods == old(pods) - {u}
      ensures Rows() <= old(Rows())
    {
      if u !in pods {
        assert pods - {u} == pods;
        return;
      }
      var ref := pods[u];
      var q := DecIndex(nodeQuota, pods, Quota, u, ref);
      var d := DecIndex(nodeDomain, pods, Sched, u, ref);
      assert q.Values !! d.Values;
      Install(pods - {u}, q, d);
    }

    method CountNew(u: UID, ref: PodRef)
      requires Valid() && u !in pods
      modifies this, Rows()
      ensures Valid() && pods == old(pods)[u := ref]
      ensures fresh(Rows() - old(Rows()))
    {
      var q := IncIndex(nodeQuota, pods, Quota, u, ref);
      var d := IncIndex(nodeDomain, pods, Sched, u, ref);
      assert q.Values !! d.Values;
      Install(pods[u := ref], q, d);
    }

    method ApplyCount(u: UID, ref: PodRef)
      requires Valid()
      modifies this, Rows()
      ensures Valid() && pods == old(pods)[u := ref]
      ensures fresh(Rows() - old(Rows()))
    {
      if u in pods {
        UnapplyCount(u);
      }
      CountNew(u, ref);
    }
  }

  lemma ApplyOne(list: map<UID, PodRef>, todo: set<UID>, u: UID)
    requires u in todo && u in list
    ensures (list - todo)[u := list[u]] == list - (todo - {u})
  {
  }

  /** A snapshot counted from scratch, the list applied in any iteration order. */
  method Recount(list: map<UID, PodRef>) returns (next: Snapshot)
    ensures fresh(next) && fresh(next.Rows())
    ensures next.Valid() && next.pods == list
  {
    next := new Snapshot();
    var todo := list.Keys;
    while todo != {}
      invariant fresh(next) && fresh(next.Rows()) && next.Valid()
      invariant todo <= list.Keys && next.pods == list - todo
      decreases todo
    {
      var u :| u in todo;
      ApplyOne(list, todo, u);
      next.ApplyCount(u, list[u]);
      todo := todo - {u};
    }
  }
}
