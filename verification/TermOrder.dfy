/** The whole term sort, and when it makes the canonical form independent of the order of the list. */
module TermOrder {
  import opened Ordering
  import opened TermSort
  import opened BlockMerge

  ghost predicate Injective<T(!new)>(json: T -> string) {
    forall x, y :: json(x) == json(y) ==> x == y
  }

  function KeysOf<T>(list: seq<T>, json: T -> string): (k: seq<string>)
    ensures |k| == |list|
  {
    seq(|list|, i requires 0 <= i < |list| => json(list[i]))
  }

  function KeyAt(keys: seq<string>, i: int): string {
    if 0 <= i < |keys| then keys[i] else ""
  }

  /** The comparator looks up a table that does not follow the list. */
  function ByTable(keys: seq<string>): Comparator {
    (i, j) => Less(KeyAt(keys, i), KeyAt(keys, j))
  }

  /** Every block sorted by insertion. */
  function BlocksPlaced<T>(list: seq<T>, keys: seq<string>): (r: seq<T>)
    requires |list| == |keys|
    ensures |r| == |list|
  {
    if |list| <= BLOCK then Placed(list, keys, |list|)
    else Placed(list[..BLOCK], keys[..BLOCK], BLOCK) + BlocksPlaced(list[BLOCK..], keys[BLOCK..])
  }

  /** The library's stable sort: blocks, then merges. */
  function StableSorted<T>(list: seq<T>, keys: seq<string>): (r: seq<T>)
    requires |list| == |keys|
    ensures |r| == |list|
  {
    Apply(BlocksPlaced(list, keys), MergeAllMoves(ByTable(keys), |list|, BLOCK))
  }

  /** sortTermSlice and sortTols: keys are the serialisations of the list as it came in. */
  function SortTerms<T>(list: seq<T>, json: T -> string): (r: seq<T>)
    ensures |r| == |list|
  {
    StableSorted(list, KeysOf(list, json))
  }

  lemma InsertedMultiset<T>(prev: seq<T>, p: nat, x: T)
    requires p <= |prev|
    ensures multiset(prev[..p] + [x] + prev[p..]) == multiset(prev) + multiset{x}
  {
    assert prev == prev[..p] + prev[p..];
  }

  lemma PlacedStep<T>(list: seq<T>, keys: seq<string>, m: nat)
    requires 0 < m <= |list| == |keys|
    ensures multiset(Placed(list, keys, m)) == multiset(Placed(list, keys, m - 1)) + multiset{list[m - 1]}
  {
    InsertedMultiset(Placed(list, keys, m - 1), RunStart(keys, m - 1), list[m - 1]);
  }

  lemma PrefixStep<T>(list: seq<T>, m: nat)
    requires 0 < m <= |list|
    ensures multiset(list[..m]) == multiset(list[..m - 1]) + multiset{list[m - 1]}
  {
    assert list[..m] == list[..m - 1] + [list[m - 1]];
  }

  /** Insertion permutes the entries it has reached. */
  lemma {:induction false} PlacedPermutes<T>(list: seq<T>, keys: seq<string>, m: nat)
    requires m <= |list| == |keys|
    ensures multiset(Placed(list, keys, m)) == multiset(list[..m])
  {
    if m > 0 {
      PlacedPermutes(list, keys, m - 1);
      PlacedStep(list, keys, m);
      PrefixStep(list, m);
    }
  }

  lemma {:induction false} BlocksPermute<T>(list: seq<T>, keys: seq<string>)
    requires |list| == |keys|
    ensures multiset(BlocksPlaced(list, keys)) == multiset(list)
    decreases |list|
  {
    if |list| <= BLOCK {
      PlacedPermutes(list, keys, |list|);
      assert list[..|list|] == list;
    } else {
      var (head, tail) := (list[..BLOCK], list[BLOCK..]);
      PlacedPermutes(head, keys[..BLOCK], BLOCK);
      assert head[..BLOCK] == head && list == head + tail;
      BlocksPermute(tail, keys[BLOCK..]);
    }
  }

  /** The sorted list is a permutation of the list, however long. */
  lemma SortTermsPermutes<T>(list: seq<T>, json: T -> string)
    ensures multiset(SortTerms(list, json)) == multiset(list)
  {
    var keys := KeysOf(list, json);
    BlocksPermute(list, keys);
    ApplyPermutes(BlocksPlaced(list, keys), MergeAllMoves(ByTable(keys), |list|, BLOCK));
  }

  /** One block is only inserted, never merged. */
  lemma ShortSort<T>(list: seq<T>, json: T -> string)
    requires |list| <= BLOCK
    ensures SortTerms(list, json) == Placed(list, KeysOf(list, json), |list|)
  {
  }

  /**
   On lists of at most one block the sort, in closed form, reverses every maximal strictly descending run
   of keys and nothing else.
   */
  lemma ReversesDescents<T>(list: seq<T>, json: T -> string, i: nat)
    requires i < |list| <= BLOCK
    ensures var keys := KeysOf(list, json);
            var k := RunStart(keys, i) + RunEnd(keys, i) - i;
            k < |list| && SortTerms(list, json)[k] == list[i]
  {
    ShortSort(list, json);
    InsertionReverses(list, KeysOf(list, json), |list|, i);
  }

  /** Every arrangement of the same entries comes out the same. */
  ghost predicate OrderFree<T(!new)>(list: seq<T>, json: T -> string) {
    forall p: seq<T> | multiset(p) == multiset(list) :: SortTerms(p, json) == SortTerms(list, json)
  }

  ghost predicate AllEqual<T>(list: seq<T>) {
    forall x, y | x in list && y in list :: x == y
  }

  lemma TwoEntries<T(!new)>(list: seq<T>, p: seq<T>, json: T -> string)
    requires Injective(json) && |list| == 2 && multiset(p) == multiset(list)
    ensures SortTerms(p, json) == SortTerms(list, json)
  {
    var (a, b) := (list[0], list[1]);
    assert list == [a, b];
    assert |p| == |multiset(p)| == 2;
    assert p == [p[0], p[1]];
    assert p[0] in multiset(list) && p[1] in multiset(list);
    assert p == [a, b] || p == [b, a] by {
      if p[0] == a {
        assert multiset(p) - multiset{a} == multiset{p[1]};
        assert multiset(list) - multiset{a} == multiset{b};
        assert p[1] in multiset{b};
      } else {
        assert multiset(p) - multiset{b} == multiset{p[1]};
        assert multiset(list) - multiset{b} == multiset{a};
        assert p[1] in multiset{a};
      }
    }
    SortPair(a, b, json);
    SortPair(b, a, json);
    StrTotal(json(a), json(b));
    if StrLeq(json(a), json(b)) && StrLeq(json(b), json(a)) {
      StrAntisymmetric(json(a), json(b));
    }
  }

  lemma SortPair<T>(a: T, b: T, json: T -> string)
    ensures SortTerms([a, b], json) == if Less(json(b), json(a)) then [b, a] else [a, b]
  {
    var keys := KeysOf([a, b], json);
    assert Placed([a, b], keys, 1) == [a];
    ShortSort([a, b], json);
  }

  // ---- when it is not ----

  /** Apart from the first entry, entries of later blocks have the larger keys. */
  ghost predicate LayeredList<T>(list: seq<T>, json: T -> string) {
    forall c, d | 0 < c < d < |list| && c / BLOCK < d / BLOCK :: StrLeq(json(list[c]), json(list[d]))
  }

  /** Then the merges have nothing to do. */
  lemma LayeredStays<T>(list: seq<T>, json: T -> string)
    requires LayeredList(list, json)
    ensures SortTerms(list, json) == BlocksPlaced(list, KeysOf(list, json))
  {
    var keys := KeysOf(list, json);
    assert Layered(ByTable(keys), |list|);
    AllIdle(ByTable(keys), |list|, BLOCK);
    IdleKeeps(BlocksPlaced(list, keys), MergeAllMoves(ByTable(keys), |list|, BLOCK));
  }

  lemma TailLayered<T>(s: seq<T>, t: seq<T>, json: T -> string)
    requires |s| == BLOCK && LayeredList(s + t, json)
    ensures LayeredList(t, json)
  {
    forall c, d | 0 < c < d < |t| && c / BLOCK < d / BLOCK
      ensures StrLeq(json(t[c]), json(t[d]))
    {
      var (c', d', list) := (c + BLOCK, d + BLOCK, s + t);
      assert c' / BLOCK < d' / BLOCK && t[c] == list[c'] && t[d] == list[d'];
    }
  }

  lemma KeysOfSplit<T>(s: seq<T>, t: seq<T>, json: T -> string)
    ensures KeysOf(s + t, json) == KeysOf(s, json) + KeysOf(t, json)
  {
  }

  lemma BlocksSplit<T>(s: seq<T>, t: seq<T>, k: seq<string>, l: seq<string>)
    requires |s| == |k| == BLOCK && |t| == |l| > 0
    ensures BlocksPlaced(s + t, k + l) == Placed(s, k, |s|) + BlocksPlaced(t, l)
  {
    assert (s + t)[..BLOCK] == s && (s + t)[BLOCK..] == t && (k + l)[..BLOCK] == k && (k + l)[BLOCK..] == l;
  }

  /** A list whose blocks follow each other in key order is sorted block by block, each as if it were alone. */
  lemma BlocksSortAlone<T>(s: seq<T>, t: seq<T>, json: T -> string)
    requires |s| == BLOCK && t != [] && LayeredList(s + t, json)
    ensures SortTerms(s + t, json) == SortTerms(s, json) + SortTerms(t, json)
  {
    LayeredStays(s + t, json);
    TailLayered(s, t, json);
    LayeredStays(t, json);
    ShortSort(s, json);
    KeysOfSplit(s, t, json);
    BlocksSplit(s, t, KeysOf(s, json), KeysOf(t, json));
  }

  /** Its first block is what its insertion makes it. */
  lemma FirstBlockStays<T>(list: seq<T>, json: T -> string)
    requires LayeredList(list, json)
    ensures var (n, keys) := (if |list| < BLOCK then |list| else BLOCK, KeysOf(list, json));
            SortTerms(list, json)[..n] == Placed(list[..n], keys[..n], n)
  {
    var keys := KeysOf(list, json);
    if |list| <= BLOCK {
      assert list[..|list|] == list && keys[..|list|] == keys;
    } else {
      LayeredStays(list, json);
    }
  }

  /** The first two entries after insertion, read off the first key run. */
  lemma FirstPlaced<T>(list: seq<T>, keys: seq<string>)
    requires |list| == |keys| >= 3
    ensures var r := Placed(list, keys, |list|);
            if !Less(keys[1], keys[0]) then r[0] == list[0] && (!Less(keys[2], keys[1]) ==> r[1] == list[1])
            else !Less(keys[2], keys[1]) ==> r[1] == list[0]
  {
    InsertionReverses(list, keys, |list|, 0);
    InsertionReverses(list, keys, |list|, 1);
  }

  /** So the result starts, if the merges have nothing to do. */
  lemma FirstEntries<T>(list: seq<T>, json: T -> string)
    requires |list| >= 3 && LayeredList(list, json)
    ensures var (k, r) := (KeysOf(list, json), SortTerms(list, json));
            if !Less(k[1], k[0]) then r[0] == list[0] && (!Less(k[2], k[1]) ==> r[1] == list[1])
            else !Less(k[2], k[1]) ==> r[1] == list[0]
  {
    var (n, keys) := (if |list| < BLOCK then |list| else BLOCK, KeysOf(list, json));
    FirstBlockStays(list, json);
    FirstPlaced(list[..n], keys[..n]);
    var r := SortTerms(list, json);
    assert r[0] == r[..n][0] && r[1] == r[..n][1];
  }

  function ByKey<T>(json: T -> string): (T, T) -> bool {
    (x, y) => StrLeq(json(x), json(y))
  }

  ghost predicate KeyOrdered<T>(s: seq<T>, json: T -> string) {
    forall i, j | 0 <= i <= j < |s| :: StrLeq(json(s[i]), json(s[j]))
  }

  lemma KeySorted<T>(s: seq<T>, json: T -> string)
    requires Sorted(s, ByKey(json))
    ensures KeyOrdered(s, json)
  {
    forall i, j | 0 <= i <= j < |s|
      ensures StrLeq(json(s[i]), json(s[j]))
    {
      if i == j {
        StrTotal(json(s[i]), json(s[i]));
      } else {
        assert ByKey(json)(s[i], s[j]);
      }
    }
  }

  /** The same entries in key order. */
  lemma InKeyOrder<T(!new)>(list: seq<T>, json: T -> string) returns (s: seq<T>)
    ensures multiset(s) == multiset(list) && |s| == |list|
    ensures KeyOrdered(s, json)
  {
    StrOrder();
    SortSorts(list, ByKey(json));
    s := Sort(list, ByKey(json));
    assert |s| == |multiset(s)| == |multiset(list)| == |list|;
    KeySorted(s, json);
  }

  /** One entry of an ordered list in front of the rest. */
  function PutFirst<T>(s: seq<T>, j: nat): (p: seq<T>)
    requires j < |s|
    ensures |p| == |s|
  {
    [s[j]] + s[..j] + s[j + 1..]
  }

  lemma PutFirstPermutes<T>(s: seq<T>, j: nat)
    requires j < |s|
    ensures multiset(PutFirst(s, j)) == multiset(s)
  {
    assert s == s[..j] + [s[j]] + s[j + 1..];
  }

  /** The first three entries turned round: the lowest comes third. */
  function LowestThird<T>(s: seq<T>): (p: seq<T>)
    requires |s| >= 3
    ensures |p| == |s| && p[0] == s[1] && p[1] == s[2] && p[2] == s[0] && p[3..] == s[3..]
  {
    PutFirst(PutFirst(s, 2), 2)
  }

  lemma PutFirstAt<T>(s: seq<T>, j: nat, c: nat)
    requires j < |s| && c < |s|
    ensures PutFirst(s, j)[c] == if c == 0 then s[j] else if c <= j then s[c - 1] else s[c]
  {
  }

  /** Apart from the first entry, keys do not descend. */
  ghost predicate RestOrdered<T>(s: seq<T>, json: T -> string) {
    forall i, j | 0 < i <= j < |s| :: StrLeq(json(s[i]), json(s[j]))
  }

  lemma PutFirstRest<T>(s: seq<T>, json: T -> string, j: nat)
    requires KeyOrdered(s, json) && j < |s|
    ensures RestOrdered(PutFirst(s, j), json)
  {
    var p := PutFirst(s, j);
    forall c, d | 0 < c <= d < |p|
      ensures StrLeq(json(p[c]), json(p[d]))
    {
      PutFirstAt(s, j, c);
      PutFirstAt(s, j, d);
    }
  }

  lemma StillLayered<T>(s: seq<T>, json: T -> string, j: nat)
    requires KeyOrdered(s, json) && 3 <= |s| && j < |s|
    ensures LayeredList(s, json) && LayeredList(LowestThird(s), json) && LayeredList(PutFirst(s, j), json)
  {
    PutFirstRest(s, json, j);
    var p := LowestThird(s);
    forall c, d | 0 < c < d < |p| && c / BLOCK < d / BLOCK
      ensures StrLeq(json(p[c]), json(p[d]))
    {
      assert d >= 3 && p[d] == s[d];
      assert p[c] == s[if c < 3 then (if c == 1 then 2 else 0) else c];
    }
  }

  /** The lowest entry is there once: put third, it stops at the second place. */
  lemma LowestThirdBreaks<T(!new)>(s: seq<T>, json: T -> string)
    requires |s| >= 3 && s[1] != s[0] && KeyOrdered(s, json)
    ensures !OrderFree(s, json)
  {
    var p := LowestThird(s);
    StillLayered(s, json, 0);
    PutFirstPermutes(s, 2);
    PutFirstPermutes(PutFirst(s, 2), 2);
    FirstEntries(p, json);
    FirstEntries(s, json);
    assert SortTerms(p, json)[0] != SortTerms(s, json)[0];
  }

  /** The lowest entry is there twice: a larger one put first stops between the two. */
  lemma LargerFirstBreaks<T(!new)>(s: seq<T>, json: T -> string, j: nat)
    requires Injective(json) && 2 <= j < |s| && s[1] == s[0] != s[j] && KeyOrdered(s, json)
    ensures !OrderFree(s, json)
  {
    var p := PutFirst(s, j);
    StillLayered(s, json, j);
    PutFirstPermutes(s, j);
    if StrLeq(json(s[j]), json(s[0])) {
      StrAntisymmetric(json(s[0]), json(s[j]));
    }
    assert p[0] == s[j] && p[1] == s[0] && p[2] == s[1];
    FirstEntries(p, json);
    FirstEntries(s, json);
    assert SortTerms(p, json)[1] != SortTerms(s, json)[1];
  }

  // ---- where the merge does sort ----

  lemma {:induction false} PlacedStays<T>(list: seq<T>, keys: seq<string>, m: nat)
    requires m <= |list| == |keys| && forall i | 0 < i < m :: !Less(keys[i], keys[i - 1])
    ensures Placed(list, keys, m) == list[..m]
  {
    if m > 0 {
      PlacedStays(list, keys, m - 1);
      assert RunStart(keys, m - 1) == m - 1;
      assert list[..m] == list[..m - 1] + [list[m - 1]];
    }
  }

  /** No key within a block is below the one before it. */
  ghost predicate NoDescents(keys: seq<string>) {
    forall i | 0 < i < |keys| && i % BLOCK != 0 :: !Less(keys[i], keys[i - 1])
  }

  /** Blocks without a descent stay as they are. */
  lemma {:induction false} BlocksStay<T>(list: seq<T>, keys: seq<string>)
    requires |list| == |keys| && NoDescents(keys)
    ensures BlocksPlaced(list, keys) == list
    decreases |list|
  {
    if |list| <= BLOCK {
      PlacedStays(list, keys, |list|);
      assert list[..|list|] == list;
    } else {
      var (head, tail, keys') := (list[..BLOCK], list[BLOCK..], keys[BLOCK..]);
      PlacedStays(head, keys[..BLOCK], BLOCK);
      forall i | 0 < i < |keys'| && i % BLOCK != 0
        ensures !Less(keys'[i], keys'[i - 1])
      {
        var j := i + BLOCK;
        assert j % BLOCK != 0 && keys'[i] == keys[j] && keys'[i - 1] == keys[j - 1];
      }
      BlocksStay(tail, keys');
      assert head[..BLOCK] == head && list == head + tail;
    }
  }

  lemma {:induction false} DoubledBlocks(size: nat, k: nat)
    requires size % BLOCK == 0
    ensures Doubled(size, k) % BLOCK == 0
    decreases k
  {
    if k > 0 {
      TwiceAligned(size);
      DoubledBlocks(Twice(size), k - 1);
    }
  }

  lemma OrderedTable<T>(s: seq<T>, x: T, json: T -> string)
    requires KeyOrdered(s, json) && |s| % BLOCK == 0
    ensures NoDescents(KeysOf(s + [x], json))
  {
    var keys := KeysOf(s + [x], json);
    forall i | 0 < i < |keys| && i % BLOCK != 0
      ensures !Less(keys[i], keys[i - 1])
    {
      var (n, h) := (|s|, i - 1);
      assert i < n;
      assert StrLeq(json(s[h]), json(s[i]));
    }
  }

  lemma OnlyLastOff<T>(s: seq<T>, x: T, json: T -> string)
    requires KeyOrdered(s, json) && |s| % BLOCK == 0
    ensures BlocksPlaced(s + [x], KeysOf(s + [x], json)) == s + [x]
  {
    OrderedTable(s, x, json);
    BlocksStay(s + [x], KeysOf(s + [x], json));
  }

  lemma TableOfLastOff<T>(s: seq<T>, x: T, json: T -> string, c: nat, d: nat)
    requires c < |s| && d <= |s|
    ensures ByTable(KeysOf(s + [x], json))(d, c) <==> Less(json(if d < |s| then s[d] else x), json(s[c]))
  {
  }

  /**
   Long lists are sorted right if only their last entry is out of order and stands alone in its block until the
   last merge: it goes right before the first entry with a larger key.
   */
  lemma LateEntryFindsItsPlace<T>(s: seq<T>, x: T, json: T -> string, k: nat, p: nat)
    requires KeyOrdered(s, json) && |s| == Doubled(BLOCK, k) && p <= |s|
    requires forall i | 0 <= i < |s| :: Less(json(x), json(s[i])) <==> p <= i
    ensures SortTerms(s + [x], json) == s[..p] + [x] + s[p..]
  {
    var (list, n, less) := (s + [x], |s|, ByTable(KeysOf(s + [x], json)));
    DoubledBlocks(BLOCK, k);
    OnlyLastOff(s, x, json);
    forall c, d | 0 <= c < d < n
      ensures !less(d, c)
    {
      TableOfLastOff(s, x, json, c, d);
    }
    forall c | 0 <= c < n
      ensures less(n, c) <==> p <= c
    {
      TableOfLastOff(s, x, json, c, n);
    }
    LateMerge(list, less, BLOCK, k, n, p);
    assert list[..p] == s[..p] && list[p..n] == s[p..];
  }

  /** Two parts take one merge. */
  lemma OnePass<T>(list: seq<T>, less: Comparator, size: nat, m: nat, n: nat)
    requires size > 0 && m == Next(0, size) && n == Next(m, size)
    ensures Apply(list, MergeAllMoves(less, n, size)) == Apply(list, MergeMoves(less, 0, m, n))
  {
    assert PassMoves(less, n, size, n) == Nothing;
    assert MergeAllMoves(less, n, Twice(size)) == Nothing;
    var moves := MergeAllMoves(less, n, size);
    assert moves.second == Nothing && moves.first.second == Nothing && moves.first.first == MergeMoves(less, 0, m, n);
    IdleTail(list, moves);
    IdleTail(list, moves.first);
  }

  lemma OrderedStays<T>(s: seq<T>, json: T -> string)
    requires KeyOrdered(s, json)
    ensures Placed(s, KeysOf(s, json), |s|) == s
  {
    var keys := KeysOf(s, json);
    forall i | 0 < i < |s|
      ensures !Less(keys[i], keys[i - 1])
    {
      assert StrLeq(json(s[i - 1]), json(s[i]));
    }
    PlacedStays(s, keys, |s|);
    assert s[..|s|] == s;
  }

  lemma TwoBlocksStay<T>(s: seq<T>, t: seq<T>, json: T -> string)
    requires |s| == |t| == BLOCK && KeyOrdered(s, json) && KeyOrdered(t, json)
    ensures BlocksPlaced(s + t, KeysOf(s + t, json)) == s + t
  {
    OrderedStays(s, json);
    OrderedStays(t, json);
    KeysOfSplit(s, t, json);
    BlocksSplit(s, t, KeysOf(s, json), KeysOf(t, json));
  }

  lemma SecondBeforeFirst<T>(s: seq<T>, t: seq<T>, json: T -> string, c: nat, d: nat)
    requires |s| == |t| == BLOCK && c < BLOCK <= d < 2 * BLOCK && Less(json(t[d - BLOCK]), json(s[c]))
    ensures ByTable(KeysOf(s + t, json))(d, c)
  {
    var keys := KeysOf(s + t, json);
    assert keys[d] == json(t[d - BLOCK]) && keys[c] == json(s[c]);
  }

  /** And two full blocks in the wrong order change places. */
  lemma TwoBlocksChangePlaces<T>(s: seq<T>, t: seq<T>, json: T -> string)
    requires |s| == |t| == BLOCK && KeyOrdered(s, json) && KeyOrdered(t, json)
    requires forall i, j | 0 <= i < BLOCK && 0 <= j < BLOCK :: Less(json(t[j]), json(s[i]))
    ensures SortTerms(s + t, json) == t + s
  {
    TwoBlocksStay(s, t, json);
    var (m, n) := (Next(0, |s|), Next(Next(0, |s|), |s|));
    forall c, d | 0 <= c < m <= d < n
      ensures ByTable(KeysOf(s + t, json))(d, c)
    {
      SecondBeforeFirst(s, t, json, c, d);
    }
    MergedTwo(s, t, ByTable(KeysOf(s + t, json)), m, n);
    assert n == |s + t| && |s| == BLOCK;
  }

  lemma MergedTwo<T>(s: seq<T>, t: seq<T>, less: Comparator, m: nat, n: nat)
    requires m == Next(0, |s|) && n == Next(m, |s|) && |t| == |s| > 1
    requires forall c, d | 0 <= c < m <= d < n :: less(d, c)
    ensures Apply(s + t, MergeAllMoves(less, n, |s|)) == t + s
  {
    OnePass(s + t, less, |s|, m, n);
    PartsChangePlaces(s + t, less, 0, m, n);
    HalvesSwapped(s, t, m, n);
  }

  lemma HalvesSwapped<T>(s: seq<T>, t: seq<T>, m: nat, n: nat)
    requires m == |s| && n == |s + t|
    ensures (s + t)[..0] + (s + t)[m..n] + (s + t)[0..m] + (s + t)[n..] == t + s
  {
  }

  /** Lists of three and more entries that are not all the same come out differently, however long they are. */
  lemma MixedListBreaks<T(!new)>(list: seq<T>, json: T -> string)
    requires Injective(json) && |list| >= 3 && !AllEqual(list)
    ensures !OrderFree(list, json)
  {
    var s := InKeyOrder(list, json);
    var j := Unlike(list, s);
    if s[1] != s[0] {
      LowestThirdBreaks(s, json);
    } else {
      LargerFirstBreaks(s, json, j);
    }
  }

  lemma Unlike<T>(list: seq<T>, s: seq<T>) returns (j: nat)
    requires multiset(s) == multiset(list) && !AllEqual(list)
    ensures 0 < j < |s| && s[j] != s[0]
  {
    var x, y :| x in list && y in list && x != y;
    assert x in multiset(s) && y in multiset(s);
    var i :| 0 <= i < |s| && s[i] == x;
    var k :| 0 <= k < |s| && s[k] == y;
    j := if s[i] != s[0] then i else k;
  }

  /**
   The documented order independence of term and toleration lists holds exactly for lists of at most
   two entries and for lists that repeat one entry.
   */
  lemma OrderIndependenceExact<T(!new)>(list: seq<T>, json: T -> string)
    requires Injective(json)
    ensures OrderFree(list, json) <==> |list| <= 2 || AllEqual(list)
  {
    if |list| <= 2 || AllEqual(list) {
      forall p: seq<T> | multiset(p) == multiset(list)
        ensures SortTerms(p, json) == SortTerms(list, json)
      {
        assert |p| == |multiset(p)| == |multiset(list)| == |list|;
        if |list| == 2 {
          TwoEntries(list, p, json);
        } else {
          SameWhenEqual(list, p);
        }
      }
    } else {
      MixedListBreaks(list, json);
    }
  }

  lemma SameWhenEqual<T>(list: seq<T>, p: seq<T>)
    requires multiset(p) == multiset(list) && |p| == |list| && (|list| < 2 || AllEqual(list))
    ensures p == list
  {
    forall i | 0 <= i < |p|
      ensures p[i] == list[i]
    {
      assert p[i] in multiset(list);
      assert p[i] in list && list[i] in list;
    }
  }
}
