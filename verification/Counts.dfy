/** Finite sums over maps and the cardinality facts the counting proofs rest on. */
module Counts {

  /** Sum of the values of a finite map. */
  ghost function Sum<K>(m: map<K, int>): int {
    if m == map[] then 0
    else
      var k :| k in m;
      m[k] + Sum(m - {k})
  }

  /** Any key may be split off: the sum does not depend on the order of summation. */
  lemma {:induction false} SumSplit<K>(m: map<K, int>, k: K)
    requires k in m
    ensures Sum(m) == m[k] + Sum(m - {k})
    decreases |m|
  {
    var j :| j in m && Sum(m) == m[j] + Sum(m - {j});
    if j != k {
      SumSplit(m - {j}, k);
      SumSplit(m - {k}, j);
      assert m - {j} - {k} == m - {k} - {j};
    }
  }

  lemma SumUpdate<K>(m: map<K, int>, k: K, v: int)
    requires k in m
    ensures Sum(m[k := v]) == Sum(m) - m[k] + v
  {
    SumSplit(m, k);
    SumSplit(m[k := v], k);
    assert m[k := v] - {k} == m - {k};
  }

  lemma MulNonneg(a: int, b: int)
    requires a >= 0 && b >= 0
    ensures a * b >= 0
  {
  }

  lemma NextMultiple(x: int, y: int, d: int)
    requires d > 0
    ensures x < y ==> x * d + d <= y * d
  {
    if x < y {
      var t := y - x - 1;
      MulNonneg(t, d);
      assert y * d == (x + 1 + t) * d == x * d + d + t * d;
    }
  }

  lemma DivMono(a: int, b: int, d: int)
    requires a <= b && d > 0
    ensures a / d <= b / d
  {
    NextMultiple(b / d, a / d, d);
    assert a == a / d * d + a % d && b == b / d * d + b % d;
  }

  lemma DivUnique(a: int, d: int, q: int)
    requires d > 0 && q * d <= a < q * d + d
    ensures a / d == q
  {
    NextMultiple(a / d, q, d);
    NextMultiple(q, a / d, d);
    assert a == a / d * d + a % d;
  }

  lemma MulSucc(c: int, x: int)
    ensures (c + 1) * x == c * x + x
  {
  }

  /** If every value lies between lo and hi, the sum lies between |m| * lo and |m| * hi. */
  lemma {:induction false} SumBounds<K>(m: map<K, int>, lo: int, hi: int)
    requires forall k | k in m :: lo <= m[k] <= hi
    ensures |m| * lo <= Sum(m) <= |m| * hi
    decreases |m|
  {
    if m != map[] {
      var k :| k in m;
      SumSplit(m, k);
      SumBounds(m - {k}, lo, hi);
      var c := |m - {k}|;
      assert |m| == c + 1 by {
        assert m.Keys == (m - {k}).Keys + {k};
      }
      MulSucc(c, lo);
      MulSucc(c, hi);
    }
  }

  lemma {:induction false} SumAtMost<K>(m: map<K, int>, hi: int)
    requires forall k | k in m :: m[k] <= hi
    ensures Sum(m) <= |m| * hi
    decreases |m|
  {
    if m != map[] {
      var k :| k in m;
      SumSplit(m, k);
      SumAtMost(m - {k}, hi);
      var c := |m - {k}|;
      assert |m| == c + 1 by {
        assert m.Keys == (m - {k}).Keys + {k};
      }
      MulSucc(c, hi);
    }
  }

  ghost function Class<U, K>(s: set<U>, tag: map<U, K>, k: K): set<U> {
    set u | u in s && u in tag && tag[u] == k
  }

  ghost function ClassSizes<U, K>(s: set<U>, tag: map<U, K>, keys: set<K>): map<K, int> {
    map k | k in keys :: |Class(s, tag, k)|
  }

  /** Splitting a set by a labelling: the class sizes add up to the size of the set. */
  lemma {:induction false} PartitionSize<U, K>(s: set<U>, tag: map<U, K>, keys: set<K>)
    requires forall u | u in s :: u in tag && tag[u] in keys
    ensures Sum(ClassSizes(s, tag, keys)) == |s|
    decreases |keys|
  {
    if keys == {} {
      assert s == {};
    } else {
      var k :| k in keys;
      var rest := s - Class(s, tag, k);
      PartitionSize(rest, tag, keys - {k});
      SumSplit(ClassSizes(s, tag, keys), k);
      forall j | j in keys - {k}
        ensures Class(s, tag, j) == Class(rest, tag, j)
      {
      }
      assert ClassSizes(s, tag, keys) - {k} == ClassSizes(rest, tag, keys - {k});
    }
  }

  lemma {:induction false} SubsetSize<T>(a: set<T>, b: set<T>)
    requires a <= b
    ensures |a| <= |b|
  {
    assert b == a + (b - a);
  }

  lemma UnionSize<T>(a: set<T>, b: set<T>)
    ensures |a + b| + |a * b| == |a| + |b|
  {
  }
}
