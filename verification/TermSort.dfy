/**
 The stable sort of affinity terms and tolerations, within a block. Its comparator looks up keys by position
 in a table computed before sorting, while the sort moves only the list: the table no longer matches the
 list after the first move. The library inserts within blocks of 20 entries; blocks are merged afterwards.
 */
module TermSort {
  import opened Ordering

  /** Start of the maximal strictly descending run of keys that ends at i or goes on past it. */
  function RunStart(keys: seq<string>, i: nat): (p: nat)
    requires i < |keys|
    ensures p <= i
  {
    if i > 0 && Less(keys[i], keys[i - 1]) then RunStart(keys, i - 1) else i
  }

  function RunEnd(keys: seq<string>, i: nat): (e: nat)
    requires i < |keys|
    ensures i <= e < |keys|
    decreases |keys| - i
  {
    if i + 1 < |keys| && Less(keys[i + 1], keys[i]) then RunEnd(keys, i + 1) else i
  }

  /** The first m entries after their insertion: each goes to the start of its key run. */
  function Placed<T>(list: seq<T>, keys: seq<string>, m: nat): (r: seq<T>)
    requires m <= |list| == |keys|
    ensures |r| == m
  {
    if m == 0 then [] else
      var prev := Placed(list, keys, m - 1);
      var p := RunStart(keys, m - 1);
      prev[..p] + [list[m - 1]] + prev[p..]
  }

  /** The list while entry i is on its way down, now at position j. */
  function Sliding<T>(list: seq<T>, keys: seq<string>, i: nat, j: nat): (r: seq<T>)
    requires j <= i < |list| == |keys|
    ensures |r| == |list|
  {
    var prev := Placed(list, keys, i);
    prev[..j] + [list[i]] + prev[j..] + list[i + 1..]
  }

  lemma SlideDown<T>(list: seq<T>, keys: seq<string>, i: nat, j: nat)
    requires 0 < j <= i < |list| == |keys|
    ensures var s := Sliding(list, keys, i, j);
            Sliding(list, keys, i, j - 1) == s[j := s[j - 1]][j - 1 := s[j]]
  {
  }

  lemma SlideEnds<T>(list: seq<T>, keys: seq<string>, i: nat)
    requires i < |list| == |keys|
    ensures Sliding(list, keys, i, i) == Placed(list, keys, i) + list[i..]
    ensures Sliding(list, keys, i, RunStart(keys, i)) == Placed(list, keys, i + 1) + list[i + 1..]
  {
  }

  method Swap<T>(a: array<T>, j: nat)
    requires 0 < j < a.Length
    modifies a
    ensures a[..] == old(a[..])[j := old(a[j - 1])][j - 1 := old(a[j])]
  {
    a[j], a[j - 1] := a[j - 1], a[j];
  }

  /** The inner loop: entry i moves down while the key table descends. */
  method InsertEntry<T>(a: array<T>, keys: seq<string>, i: nat, ghost list: seq<T>)
    requires i < a.Length == |keys| == |list| && a[..] == Sliding(list, keys, i, i)
    modifies a
    ensures a[..] == Sliding(list, keys, i, RunStart(keys, i))
  {
    var j := i;
    while j > 0 && Less(keys[j], keys[j - 1])
      invariant 0 <= j <= i && RunStart(keys, i) == RunStart(keys, j)
      invariant a[..] == Sliding(list, keys, i, j)
    {
      SlideDown(list, keys, i, j);
      Swap(a, j);
      j := j - 1;
    }
  }

  method InsertionSort<T>(a: array<T>, keys: seq<string>)
    requires |keys| == a.Length
    modifies a
    ensures a[..] == Placed(old(a[..]), keys, a.Length)
  {
    ghost var list := a[..];
    for i := 0 to a.Length
      invariant a[..] == Placed(list, keys, i) + list[i..]
    {
      SlideEnds(list, keys, i);
      InsertEntry(a, keys, i, list);
    }
    assert list[a.Length..] == [];
  }

  /** Where entry i is after m insertions: mirrored within its run, as far as that is inserted. */
  function Mirrored(keys: seq<string>, m: nat, i: nat): (k: int)
    requires i < m <= |keys|
  {
    RunStart(keys, i) + (if RunEnd(keys, i) < m then RunEnd(keys, i) else m - 1) - i
  }

  lemma InsertedAt<T>(s: seq<T>, p: nat, x: T, k: nat)
    requires p <= |s| && k <= |s|
    ensures (s[..p] + [x] + s[p..])[k] == if k < p then s[k] else if k == p then x else s[k - 1]
  {
  }

  /** What insertion does in closed form: it reverses every maximal strictly descending run of keys. */
  lemma {:induction false} InsertionReverses<T>(list: seq<T>, keys: seq<string>, m: nat, i: nat)
    requires i < m <= |list| == |keys|
    ensures 0 <= Mirrored(keys, m, i) < m && Placed(list, keys, m)[Mirrored(keys, m, i)] == list[i]
  {
    var (p, prev, k) := (RunStart(keys, m - 1), Placed(list, keys, m - 1), Mirrored(keys, m, i));
    if i == m - 1 {
      assert k == p;
      InsertedAt(prev, p, list[i], k);
    } else {
      InsertionReverses(list, keys, m - 1, i);
      var k' := Mirrored(keys, m - 1, i);
      if i < p {
        EarlierRunEnds(keys, i, m - 1);
        assert k == k' < p;
      } else {
        SameRun(keys, i, m - 1);
        SameRun(keys, i, m - 2);
        assert k - 1 == k' >= p;
      }
      InsertedAt(prev, p, list[m - 1], k);
    }
  }

  /** Positions from the start of a run up to j belong to that run, which reaches at least j. */
  lemma {:induction false} SameRun(keys: seq<string>, i: nat, j: nat)
    requires i <= j < |keys| && RunStart(keys, j) <= i
    ensures RunStart(keys, i) == RunStart(keys, j) && RunEnd(keys, i) == RunEnd(keys, j)
    decreases j - i
  {
    if i < j {
      SameRun(keys, i, j - 1);
    }
  }

  lemma {:induction false} EarlierRunEnds(keys: seq<string>, i: nat, j: nat)
    requires i <= j < |keys| && i < RunStart(keys, j)
    ensures RunEnd(keys, i) < RunStart(keys, j)
    decreases j - i
  {
    var p := RunStart(keys, j);
    StartIsStart(keys, j);
    if i + 1 < |keys| && Less(keys[i + 1], keys[i]) {
      EarlierRunEnds(keys, i + 1, j);
    }
  }

  lemma {:induction false} StartIsStart(keys: seq<string>, j: nat)
    requires j < |keys|
    ensures var p := RunStart(keys, j); p == 0 || !Less(keys[p], keys[p - 1])
  {
    if j > 0 && Less(keys[j], keys[j - 1]) {
      StartIsStart(keys, j - 1);
    }
  }
}
