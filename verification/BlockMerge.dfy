/**
 How the library's stable sort goes on beyond one block of entries: blocks are merged in place, and every
 move of the merge rotates a part of the list. Like the insertion it asks a comparator about positions, so
 with a table that does not follow the list, what it does depends on the table alone.
 */
module BlockMerge {
  import opened Ordering

  const BLOCK := 20

  /** The parts i..m and m..e of a list change places; a rotation beyond the list does nothing. */
  datatype Moves = Nothing | Rotate(i: nat, m: nat, e: nat) | Then(first: Moves, second: Moves)

  function Apply<T>(s: seq<T>, moves: Moves): (r: seq<T>)
    ensures |r| == |s|
    decreases moves
  {
    match moves
    case Nothing => s
    case Rotate(i, m, e) =>
      if i <= m <= e <= |s| then s[..i] + s[m..e] + s[i..m] + s[e..] else s
    case Then(first, second) => Apply(Apply(s, first), second)
  }

  /** Moves only permute. */
  lemma {:induction false} ApplyPermutes<T>(s: seq<T>, moves: Moves)
    ensures multiset(Apply(s, moves)) == multiset(s)
    decreases moves
  {
    match moves
    case Nothing =>
    case Rotate(i, m, e) =>
      if i <= m <= e <= |s| {
        assert s == s[..i] + s[i..m] + s[m..e] + s[e..];
      }
    case Then(first, second) =>
      ApplyPermutes(s, first);
      ApplyPermutes(Apply(s, first), second);
  }

  /** The comparator: which of two positions comes first. */
  type Comparator = (int, int) -> bool

  /** Binary search for a position that stops it. */
  function Search(lo: nat, hi: nat, stop: int -> bool): (i: nat)
    requires lo <= hi
    ensures lo <= i <= hi
    decreases hi - lo
  {
    if lo == hi then lo
    else
      var h := (lo + hi) / 2;
      if stop(h) then Search(lo, h, stop) else Search(h + 1, hi, stop)
  }

  /** Positions that entry a does not come after. */
  function NotAfter(less: Comparator, a: int): int -> bool {
    h => !less(h, a)
  }

  /** Positions that entry m comes before. */
  function Before(less: Comparator, m: int): int -> bool {
    h => less(m, h)
  }

  /** Positions that their mirror image comes before. */
  function Crossing(less: Comparator, mirror: int): int -> bool {
    c => less(mirror - c, c)
  }

  /** Where a..m is cut in a merge of a..m with m..b, and with it m..b at the mirrored position. */
  function Cut(less: Comparator, a: nat, m: nat, b: nat, mid: nat): (start: nat)
    requires a + 1 < m && m + 1 < b && 2 * mid <= a + b <= 2 * mid + 1
    ensures a <= start <= mid && start <= m && mid <= mid + m - start <= b
  {
    if m > mid then Search(mid + m - b, mid, Crossing(less, mid + m - 1))
    else Search(a, m, Crossing(less, mid + m - 1))
  }

  /** The position of a cut in the other part. */
  function Mirror(mid: nat, m: nat, start: nat): (end: int)
  {
    mid + m - start
  }

  /** The merge of a..m with m..b: a part of a single entry goes to its slot, larger parts are cut and rotated. */
  function MergeMoves(less: Comparator, a: nat, m: nat, b: nat): Moves
    requires a <= m <= b
    decreases b - a
  {
    if a == m || m == b then Nothing
    else if m - a == 1 then Rotate(a, m, Search(m, b, NotAfter(less, a)))
    else if b - m == 1 then Rotate(Search(a, m, Before(less, m)), m, b)
    else
      var mid := (a + b) / 2;
      var start := Cut(less, a, m, b, mid);
      var end := Mirror(mid, m, start);
      Then(Rotate(start, m, end), Then(MergeMoves(less, a, start, mid), MergeMoves(less, mid, end, b)))
  }

  /** The start of the next part. */
  function Next(a: nat, size: nat): nat {
    a + size
  }

  /** One pass over n entries: neighbouring parts of one size merged, from a on. */
  function PassMoves(less: Comparator, n: nat, size: nat, a: nat): Moves
    requires size > 0 && a <= n
    decreases n - a
  {
    var (m, b) := (Next(a, size), Next(Next(a, size), size));
    if b <= n then Then(MergeMoves(less, a, m, b), PassMoves(less, n, size, b))
    else if m < n then MergeMoves(less, a, m, n)
    else Nothing
  }

  function Twice(size: nat): nat {
    2 * size
  }

  /** Passes over parts of doubling size, up to the whole list. */
  function MergeAllMoves(less: Comparator, n: nat, size: nat): Moves
    requires size > 0
    decreases n - size
  {
    if size < n then Then(PassMoves(less, n, size, 0), MergeAllMoves(less, n, Twice(size))) else Nothing
  }

  // ---- when a merge has nothing to do ----

  /** Every rotation is empty. */
  predicate Idle(moves: Moves) {
    match moves
    case Nothing => true
    case Rotate(i, m, e) => i == m || m == e
    case Then(first, second) => Idle(first) && Idle(second)
  }

  lemma {:induction false} IdleKeeps<T>(s: seq<T>, moves: Moves)
    requires Idle(moves)
    ensures Apply(s, moves) == s
    decreases moves
  {
    match moves
    case Nothing =>
    case Rotate(i, m, e) =>
    case Then(first, second) =>
      IdleKeeps(s, first);
      IdleKeeps(s, second);
  }

  /** Nothing in m..b comes before anything in a..m, except possibly before the very first entry of the list. */
  predicate InOrder(less: Comparator, a: nat, m: nat, b: nat) {
    forall c, d | a <= c < m <= d < b && c != 0 :: !less(d, c)
  }

  /** A search that nothing stops, except possibly at position 0 below at least one more, runs to its end. */
  lemma {:induction false} SearchRuns(lo: nat, hi: nat, stop: int -> bool)
    requires lo < hi && (lo > 0 || hi > 1) && forall c | lo <= c < hi && c != 0 :: !stop(c)
    ensures Search(lo, hi, stop) == hi
    decreases hi - lo
  {
    var h := (lo + hi) / 2;
    if h + 1 < hi {
      SearchRuns(h + 1, hi, stop);
    }
  }

  lemma SearchStops(lo: nat, hi: nat, stop: int -> bool)
    requires lo < hi && forall c | lo <= c < hi :: stop(c)
    ensures Search(lo, hi, stop) == lo
    decreases hi - lo
  {
    var h := (lo + hi) / 2;
    if lo < h {
      SearchStops(lo, h, stop);
    }
  }

  lemma NoCrossing(less: Comparator, a: nat, m: nat, b: nat, mid: nat, c: int)
    requires InOrder(less, a, m, b) && 2 * mid <= a + b <= 2 * mid + 1 && c != 0
    requires if m > mid then mid + m - b <= c < mid else a <= c < m
    ensures !Crossing(less, mid + m - 1)(c)
  {
    assert a <= c < m <= mid + m - 1 - c < b;
  }

  lemma CutRuns(less: Comparator, a: nat, m: nat, b: nat, mid: nat)
    requires a + 1 < m && m + 1 < b && InOrder(less, a, m, b) && 2 * mid <= a + b <= 2 * mid + 1
    ensures Cut(less, a, m, b, mid) == if m > mid then mid else m
  {
    var stop := Crossing(less, mid + m - 1);
    forall c: int | c != 0 && (if m > mid then mid + m - b <= c < mid else a <= c < m)
      ensures !stop(c)
    {
      NoCrossing(less, a, m, b, mid, c);
    }
    if m > mid {
      SearchRuns(mid + m - b, mid, stop);
    } else {
      SearchRuns(a, m, stop);
    }
  }

  lemma FirstIdle(less: Comparator, a: nat, b: nat)
    requires a + 1 < b && InOrder(less, a, a + 1, b) && a > 0
    ensures Search(a + 1, b, NotAfter(less, a)) == a + 1
  {
    var stop := NotAfter(less, a);
    forall h | a + 1 <= h < b
      ensures stop(h)
    {
      assert a <= a < a + 1 <= h < b && !less(h, a);
    }
    SearchStops(a + 1, b, stop);
  }

  lemma LastIdle(less: Comparator, a: nat, m: nat)
    requires a < m && InOrder(less, a, m, m + 1) && (a > 0 || m > 1)
    ensures Search(a, m, Before(less, m)) == m
  {
    var stop := Before(less, m);
    forall h | a <= h < m && h != 0
      ensures !stop(h)
    {
      assert a <= h < m <= m < m + 1 && !less(m, h);
    }
    SearchRuns(a, m, stop);
  }

  /** A merge of larger parts cuts, then merges on either side. */
  lemma MergeUnfolds(less: Comparator, a: nat, m: nat, b: nat, mid: nat, start: nat)
    requires a + 1 < m && m + 1 < b && mid == (a + b) / 2 && start == Cut(less, a, m, b, mid)
    ensures var moves := MergeMoves(less, a, m, b);
            && moves.Then? && moves.first == Rotate(start, m, Mirror(mid, m, start)) && moves.second.Then?
            && moves.second.first == MergeMoves(less, a, start, mid)
            && moves.second.second == MergeMoves(less, mid, Mirror(mid, m, start), b)
  {
  }

  /** A merge of parts that are in order leaves everything in place. */
  lemma {:induction false} MergeIdle(less: Comparator, a: nat, m: nat, b: nat)
    requires a <= m <= b && InOrder(less, a, m, b) && (a > 0 || m > 1)
    ensures Idle(MergeMoves(less, a, m, b))
    decreases b - a
  {
    if a == m || m == b {
    } else if m - a == 1 {
      FirstIdle(less, a, b);
    } else if b - m == 1 {
      LastIdle(less, a, m);
    } else {
      var mid := (a + b) / 2;
      CutRuns(less, a, m, b, mid);
      MergeUnfolds(less, a, m, b, mid, if m > mid then mid else m);
      if m > mid {
        MergeIdle(less, mid, m, b);
      } else {
        MergeIdle(less, a, m, mid);
      }
    }
  }

  /** Apart from the first entry, nothing in a later block comes before anything in an earlier one. */
  predicate Layered(less: Comparator, n: nat) {
    forall c, d | 0 < c < d < n && c / BLOCK < d / BLOCK :: !less(d, c)
  }

  lemma LayeredInOrder(less: Comparator, n: nat, a: nat, m: nat, b: nat)
    requires Layered(less, n) && a <= m <= b <= n && m % BLOCK == 0
    ensures InOrder(less, a, m, b)
  {
    forall c, d | a <= c < m <= d < b && c != 0
      ensures !less(d, c)
    {
      assert c / BLOCK < m / BLOCK <= d / BLOCK;
    }
  }

  lemma Aligned(a: nat, b: nat)
    requires a % BLOCK == 0 && b % BLOCK == 0
    ensures (a + b) % BLOCK == 0
  {
    assert a + b == (a / BLOCK + b / BLOCK) * BLOCK;
  }

  lemma TwiceAligned(size: nat)
    requires size % BLOCK == 0
    ensures Twice(size) % BLOCK == 0
  {
    Aligned(size, size);
  }

  lemma {:induction false} PassIdle(less: Comparator, n: nat, size: nat, a: nat)
    requires size >= BLOCK && size % BLOCK == 0 && a % BLOCK == 0 && a <= n && Layered(less, n)
    ensures Idle(PassMoves(less, n, size, a))
    decreases n - a
  {
    var (m, b) := (Next(a, size), Next(Next(a, size), size));
    Aligned(a, size);
    Aligned(m, size);
    if b <= n {
      LayeredInOrder(less, n, a, m, b);
      MergeIdle(less, a, m, b);
      PassIdle(less, n, size, b);
    } else if m < n {
      LayeredInOrder(less, n, a, m, n);
      MergeIdle(less, a, m, n);
    }
  }

  lemma {:induction false} AllIdle(less: Comparator, n: nat, size: nat)
    requires size >= BLOCK && size % BLOCK == 0 && Layered(less, n)
    ensures Idle(MergeAllMoves(less, n, size))
    decreases n - size
  {
    if size < n {
      PassIdle(less, n, size, 0);
      TwiceAligned(size);
      AllIdle(less, n, Twice(size));
    }
  }

  // ---- what a merge does ----

  /** A search over positions that stop from p on finds p. */
  lemma {:induction false} SearchFinds(lo: nat, hi: nat, stop: int -> bool, p: nat)
    requires lo <= p <= hi && forall c | lo <= c < hi :: stop(c) <==> p <= c
    ensures Search(lo, hi, stop) == p
    decreases hi - lo
  {
    if lo < hi {
      var h := (lo + hi) / 2;
      if p <= h {
        SearchFinds(lo, h, stop, p);
      } else {
        SearchFinds(h + 1, hi, stop, p);
      }
    }
  }

  /** A single last entry goes right before the first entry that it comes before. */
  lemma LastEntryFindsItsPlace<T>(s: seq<T>, less: Comparator, a: nat, m: nat, b: nat, p: nat)
    requires a <= p <= m && a + 1 < m && b == m + 1 <= |s| && forall c | a <= c < m :: less(m, c) <==> p <= c
    ensures Apply(s, MergeMoves(less, a, m, b)) == s[..p] + [s[m]] + s[p..m] + s[b..]
  {
    SearchFinds(a, m, Before(less, m), p);
    assert s[m..b] == [s[m]];
  }

  /** A single first entry goes right before the first entry that does not come before it. */
  lemma FirstEntryFindsItsPlace<T>(s: seq<T>, less: Comparator, a: nat, b: nat, p: nat)
    requires a + 1 <= p <= b <= |s| && a + 1 < b && forall c | a + 1 <= c < b :: less(c, a) <==> c < p
    ensures Apply(s, MergeMoves(less, a, a + 1, b)) == s[..a] + s[a + 1..p] + [s[a]] + s[p..]
  {
    SearchFinds(a + 1, b, NotAfter(less, a), p);
    assert s[a..a + 1] == [s[a]];
  }

  /** Two parts of one size change places if everything in the second comes before everything in the first. */
  lemma PartsChangePlaces<T>(s: seq<T>, less: Comparator, a: nat, m: nat, b: nat)
    requires a + 1 < m && m - a == b - m && b <= |s|
    requires forall c, d | a <= c < m <= d < b :: less(d, c)
    ensures Apply(s, MergeMoves(less, a, m, b)) == s[..a] + s[m..b] + s[a..m] + s[b..]
  {
    CutAtStart(less, a, m, b);
    MergeUnfolds(less, a, m, b, m, a);
    var moves := MergeMoves(less, a, m, b);
    var end := Mirror(m, m, a);
    assert end == b;
    assert moves.second.first == Nothing && moves.second.second == Nothing;
  }

  lemma CutAtStart(less: Comparator, a: nat, m: nat, b: nat)
    requires a + 1 < m && m - a == b - m && forall c, d | a <= c < m <= d < b :: less(d, c)
    ensures Cut(less, a, m, b, m) == a
  {
    var stop := Crossing(less, m + m - 1);
    forall c | a <= c < m
      ensures stop(c)
    {
      assert a <= c < m <= m + m - 1 - c < b;
    }
    SearchStops(a, m, stop);
  }

  /** All of the second part comes before all of the first, and both are in order. */
  predicate Misplaced(less: Comparator, a: nat, m: nat, b: nat) {
    && (forall c, d | a <= c < m <= d < b :: less(d, c))
    && (forall c, d | a <= c < d < m :: !less(d, c))
    && (forall c, d | m <= c < d < b :: !less(d, c))
  }

  lemma Crosses(less: Comparator, a: nat, m: nat, b: nat, mid: nat, c: int)
    requires Misplaced(less, a, m, b) && 2 * mid <= a + b <= 2 * mid + 1
    requires if m > mid then mid + m - b <= c < mid else a <= c < m
    ensures Crossing(less, mid + m - 1)(c)
  {
    assert a <= c < m <= mid + m - 1 - c < b;
  }

  lemma CutAtFirst(less: Comparator, a: nat, m: nat, b: nat, mid: nat)
    requires a + 1 < m && m + 1 < b && 2 * mid <= a + b <= 2 * mid + 1 && Misplaced(less, a, m, b)
    ensures Cut(less, a, m, b, mid) == if m > mid then mid + m - b else a
  {
    var stop := Crossing(less, mid + m - 1);
    forall c: int | if m > mid then mid + m - b <= c < mid else a <= c < m
      ensures stop(c)
    {
      Crosses(less, a, m, b, mid, c);
    }
    if m > mid {
      SearchStops(mid + m - b, mid, stop);
    } else {
      SearchStops(a, m, stop);
    }
  }

  lemma IdleTail<T>(s: seq<T>, moves: Moves)
    requires moves.Then? && Idle(moves.second)
    ensures Apply(s, moves) == Apply(s, moves.first)
  {
    IdleKeeps(Apply(s, moves.first), moves.second);
  }

  /**
   Misplaced parts, the first one longer: the second part is moved up only as far as the middle, and the table,
   which has stayed behind, keeps the merge from going on.
   */
  lemma LongerFirstStopsInTheMiddle<T>(s: seq<T>, less: Comparator, a: nat, m: nat, b: nat, mid: nat, start: nat)
    requires 0 < a && a + 1 < m && m + 1 < b <= |s| && mid == (a + b) / 2 < m && start == mid + m - b
    requires Misplaced(less, a, m, b)
    ensures Apply(s, MergeMoves(less, a, m, b)) == s[..start] + s[m..b] + s[start..m] + s[b..]
  {
    CutAtFirst(less, a, m, b, mid);
    MergeUnfolds(less, a, m, b, mid, start);
    var end := Mirror(mid, m, start);
    assert end == b;
    assert InOrder(less, a, start, mid);
    MergeIdle(less, a, start, mid);
    IdleTail(s, MergeMoves(less, a, m, b));
  }

  lemma SecondRestIdle(less: Comparator, a: nat, m: nat, b: nat, mid: nat, end: nat)
    requires 0 < a < m <= mid <= end <= b && mid < b && Misplaced(less, a, m, b)
    ensures Idle(MergeMoves(less, mid, end, b))
  {
    assert InOrder(less, mid, end, b);
    MergeIdle(less, mid, end, b);
  }

  lemma LongerSecondUnfolds(less: Comparator, a: nat, m: nat, b: nat, mid: nat, end: nat)
    requires 0 < a && a + 1 < m && m + 1 < b && m <= mid == (a + b) / 2 && end == Mirror(mid, m, a)
    requires Misplaced(less, a, m, b)
    ensures a < m <= mid <= end <= b && mid < b
    ensures MergeMoves(less, a, m, b) == Then(Rotate(a, m, end), Then(Nothing, MergeMoves(less, mid, end, b)))
  {
    CutAtFirst(less, a, m, b, mid);
    MergeUnfolds(less, a, m, b, mid, a);
  }

  lemma LongerSecondMoves(less: Comparator, a: nat, m: nat, b: nat, mid: nat, end: nat)
    requires 0 < a && a + 1 < m && m + 1 < b && m <= mid == (a + b) / 2 && end == Mirror(mid, m, a)
    requires Misplaced(less, a, m, b)
    ensures var moves := MergeMoves(less, a, m, b);
            moves.Then? && moves.first == Rotate(a, m, end) && Idle(moves.second)
  {
    LongerSecondUnfolds(less, a, m, b, mid, end);
    SecondRestIdle(less, a, m, b, mid, end);
  }

  /** The second one longer: only as much of it as reaches the middle is moved up. */
  lemma LongerSecondStopsInTheMiddle<T>(s: seq<T>, less: Comparator, a: nat, m: nat, b: nat, mid: nat, end: nat)
    requires 0 < a && a + 1 < m && m + 1 < b <= |s| && m <= mid == (a + b) / 2 && end == Mirror(mid, m, a)
    requires Misplaced(less, a, m, b)
    ensures Apply(s, MergeMoves(less, a, m, b)) == s[..a] + s[m..end] + s[a..m] + s[end..]
  {
    LongerSecondMoves(less, a, m, b, mid, end);
    IdleTail(s, MergeMoves(less, a, m, b));
  }

  // ---- a whole list with one entry out of place ----

  function Doubled(size: nat, k: nat): nat
    decreases k
  {
    if k == 0 then size else Doubled(Twice(size), k - 1)
  }

  /** The start of the part that follows c pairs of parts. */
  function Pairs(a: nat, size: nat, c: nat): nat
    decreases c
  {
    if c == 0 then a else Pairs(Next(Next(a, size), size), size, c - 1)
  }

  lemma {:induction false} PairsOfPairs(a: nat, size: nat, c: nat)
    ensures Pairs(a, size, 2 * c) == Pairs(a, Twice(size), c)
    decreases c
  {
    if c > 0 {
      var b := Next(Next(a, size), size);
      var e := Next(Next(b, size), size);
      assert Pairs(a, size, 2 * c) == Pairs(b, size, 2 * c - 1) == Pairs(e, size, 2 * (c - 1));
      assert e == Next(Next(a, Twice(size)), Twice(size));
      PairsOfPairs(e, size, c - 1);
    }
  }

  /** A size doubled k + 1 times is a number of pairs of that size. */
  lemma {:induction false} DoubledIsPairs(size: nat, k: nat) returns (c: nat)
    ensures Pairs(0, size, c) == Doubled(size, k + 1)
    decreases k
  {
    if k == 0 {
      c := 1;
      assert Pairs(0, size, 1) == Pairs(Next(Next(0, size), size), size, 0);
      assert Doubled(size, 1) == Doubled(Twice(size), 0);
    } else {
      c := DoubledIsPairs(Twice(size), k - 1);
      PairsOfPairs(0, size, c);
      c := 2 * c;
    }
  }

  /** A pass over pairs of ordered parts and one entry more leaves everything in place. */
  lemma {:induction false} PairsIdle(less: Comparator, n: nat, size: nat, a: nat, c: nat)
    requires size > 1 && n > 0 && Pairs(a, size, c) == n - 1
    requires forall x, y | x < y < n - 1 && 0 <= x :: !less(y, x)
    ensures a <= n - 1 && Idle(PassMoves(less, n, size, a))
    decreases c
  {
    if c > 0 {
      var (m, b) := (Next(a, size), Next(Next(a, size), size));
      PairsIdle(less, n, size, b, c - 1);
      MergeIdle(less, a, m, b);
    }
  }

  /** The entry stays alone until the last merge, which brings it to its place. */
  lemma {:induction false} LateMerge<T>(s: seq<T>, less: Comparator, size: nat, k: nat, last: nat, p: nat)
    requires size > 1 && |s| == last + 1 && Doubled(size, k) == last && p <= last
    requires forall x, y | 0 <= x < y < last :: !less(y, x)
    requires forall x | 0 <= x < last :: less(last, x) <==> p <= x
    ensures Apply(s, MergeAllMoves(less, |s|, size)) == s[..p] + [s[last]] + s[p..last]
    decreases k
  {
    if k == 0 {
      LastMerge(s, less, last, p);
    } else {
      var c := DoubledIsPairs(size, k - 1);
      PairsIdle(less, |s|, size, 0, c);
      IdleKeeps(s, PassMoves(less, |s|, size, 0));
      DoubledGrows(Twice(size), k - 1);
      LateMerge(s, less, Twice(size), k - 1, last, p);
    }
  }

  lemma LastMerge<T>(s: seq<T>, less: Comparator, last: nat, p: nat)
    requires last > 1 && |s| == last + 1 && p <= last
    requires forall x | 0 <= x < last :: less(last, x) <==> p <= x
    ensures Apply(s, MergeAllMoves(less, |s|, last)) == s[..p] + [s[last]] + s[p..last]
  {
    LastEntryFindsItsPlace(s, less, 0, last, |s|, p);
    LastPass(less, |s|, last);
    var moves := MergeAllMoves(less, |s|, last);
    assert Apply(s, moves) == Apply(Apply(s, moves.first), moves.second);
    assert s[|s|..] == [];
  }

  lemma LastPass(less: Comparator, n: nat, last: nat)
    requires last > 1 && n == last + 1
    ensures var moves := MergeAllMoves(less, n, last);
            moves.Then? && moves.first == MergeMoves(less, 0, last, n) && moves.second == Nothing
  {
    var m := Next(0, last);
    assert m == last;
    assert PassMoves(less, n, last, 0) == MergeMoves(less, 0, m, n);
  }

  lemma {:induction false} DoubledGrows(size: nat, k: nat)
    ensures Doubled(size, k) >= size
    decreases k
  {
    if k > 0 {
      DoubledGrows(Twice(size), k - 1);
    }
  }
}
