/** The nested count index as a value: how one increment or decrement changes it, and what it means. */
module Tables {
  import opened Types

  type Table = map<string, map<string, int>>

  function Get(t: Table, outer: string, inner: string): int {
    if outer in t && inner in t[outer] then t[outer][inner] else 0
  }

  function Inc(t: Table, outer: string, inner: string): Table {
    var row := if outer in t then t[outer] else map[];
    t[outer := row[inner := Get(t, outer, inner) + 1]]
  }

  function Dec(t: Table, outer: string, inner: string): Table {
    if outer !in t then t
    else if Get(t, outer, inner) <= 1 then
      var row := t[outer] - {inner};
      if row == map[] then t - {outer} else t[outer := row]
    else t[outer := t[outer][inner := t[outer][inner] - 1]]
  }

  /** No empty inner map and no zero entry. */
  ghost predicate Tight(t: Table) {
    forall n | n in t :: t[n] != map[] && forall k | k in t[n] :: t[n][k] > 0
  }

  ghost predicate CountsAt(t: Table, pods: map<UID, PodRef>, dim: Dim, node: string, key: string) {
    Get(t, node, key) == |CountedOn(pods, dim, node, key)|
  }

  /** The index is an exact recount of the pod map. */
  ghost predicate Recounts(t: Table, pods: map<UID, PodRef>, dim: Dim) {
    Tight(t) && forall n, k :: CountsAt(t, pods, dim, n, k)
  }

  lemma IncGet(t: Table, outer: string, inner: string, n: string, k: string)
    ensures Get(Inc(t, outer, inner), n, k) == Get(t, n, k) + (if n == outer && k == inner then 1 else 0)
  {
  }

  lemma DecGet(t: Table, outer: string, inner: string, n: string, k: string)
    requires Get(t, outer, inner) > 0
    ensures Get(Dec(t, outer, inner), n, k) == Get(t, n, k) - (if n == outer && k == inner then 1 else 0)
  {
    if n == outer && k != inner && k in t[outer] {
      assert k in t[outer] - {inner};
    }
  }

  lemma IncTight(t: Table, outer: string, inner: string)
    requires Tight(t)
    ensures Tight(Inc(t, outer, inner))
  {
    var t' := Inc(t, outer, inner);
    assert inner in t'[outer];
    assert forall n | n in t' && n != outer :: t'[n] == t[n];
    assert forall k | k in t'[outer] && k != inner :: t'[outer][k] == t[outer][k];
  }

  lemma CountedInsert(pods: map<UID, PodRef>, u: UID, ref: PodRef, dim: Dim, n: string, k: string)
    requires u !in pods
    ensures |CountedOn(pods[u := ref], dim, n, k)| ==
            |CountedOn(pods, dim, n, k)| + (if n == ref.nodeName && k == KeyOf(ref, dim) then 1 else 0)
  {
    var hit := if n == ref.nodeName && k == KeyOf(ref, dim) then {u} else {};
    assert CountedOn(pods[u := ref], dim, n, k) == CountedOn(pods, dim, n, k) + hit;
  }

  lemma CountedRemove(pods: map<UID, PodRef>, u: UID, dim: Dim, n: string, k: string)
    requires u in pods
    ensures |CountedOn(pods - {u}, dim, n, k)| ==
            |CountedOn(pods, dim, n, k)| - (if n == pods[u].nodeName && k == KeyOf(pods[u], dim) then 1 else 0)
  {
    var hit := if n == pods[u].nodeName && k == KeyOf(pods[u], dim) then {u} else {};
    assert CountedOn(pods - {u}, dim, n, k) == CountedOn(pods, dim, n, k) - hit;
  }

  lemma IncRecounts(t: Table, pods: map<UID, PodRef>, dim: Dim, u: UID, ref: PodRef)
    requires Recounts(t, pods, dim) && u !in pods
    ensures Recounts(Inc(t, ref.nodeName, KeyOf(ref, dim)), pods[u := ref], dim)
  {
    IncTight(t, ref.nodeName, KeyOf(ref, dim));
    var (t', pods') := (Inc(t, ref.nodeName, KeyOf(ref, dim)), pods[u := ref]);
    forall n, k
      ensures CountsAt(t', pods', dim, n, k)
    {
      assert CountsAt(t, pods, dim, n, k);
      IncGet(t, ref.nodeName, KeyOf(ref, dim), n, k);
      CountedInsert(pods, u, ref, dim, n, k);
    }
  }

  lemma DecRecounts(t: Table, pods: map<UID, PodRef>, dim: Dim, u: UID)
    requires Recounts(t, pods, dim) && u in pods
    ensures Recounts(Dec(t, pods[u].nodeName, KeyOf(pods[u], dim)), pods - {u}, dim)
  {
    var ref := pods[u];
    assert u in CountedOn(pods, dim, ref.nodeName, KeyOf(ref, dim));
    assert CountsAt(t, pods, dim, ref.nodeName, KeyOf(ref, dim));
    var (t', pods') := (Dec(t, ref.nodeName, KeyOf(ref, dim)), pods - {u});
    forall n, k
      ensures CountsAt(t', pods', dim, n, k)
    {
      assert CountsAt(t, pods, dim, n, k);
      DecGet(t, ref.nodeName, KeyOf(ref, dim), n, k);
      CountedRemove(pods, u, dim, n, k);
    }
  }

  /** A pod map has exactly one recount, whatever order of operations produced it. */
  lemma RecountIsUnique(t: Table, t': Table, pods: map<UID, PodRef>, dim: Dim)
    requires Recounts(t, pods, dim) && Recounts(t', pods, dim)
    ensures t == t'
  {
    forall n, k
      ensures Get(t, n, k) == Get(t', n, k)
    {
      assert CountsAt(t, pods, dim, n, k) && CountsAt(t', pods, dim, n, k);
    }
    TightEntries(t, t');
    TightEntries(t', t);
  }

  lemma TightEntries(t: Table, t': Table)
    requires Tight(t) && Tight(t') && forall n, k :: Get(t, n, k) == Get(t', n, k)
    ensures forall n | n in t :: n in t' && t[n] == t'[n]
  {
    forall n | n in t
      ensures n in t' && t[n] == t'[n]
    {
      var k :| k in t[n];
      assert Get(t, n, k) == Get(t', n, k);
      forall j
        ensures j in t[n] <==> j in t'[n]
        ensures j in t[n] ==> t[n][j] == t'[n][j]
      {
        assert Get(t, n, j) == Get(t', n, j);
      }
    }
  }
}
