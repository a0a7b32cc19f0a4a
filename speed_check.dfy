/** The speed-limit examples: the speeds above a limit, the speeds in order, and
  * how many speeds are above the limit. */
module SpeedCheck {
  import opened Seqs

  /** The speeds and the limit of the examples. */
  const Speeds: seq<int> := [45, 67, 89, 54, 120, 75]
  const SpeedLimit: int := 60

  /** The list comprehension `[speed for speed in speeds if speed > limit]`. */
  function Violators(speeds: seq<int>, limit: int): (r: seq<int>)
    ensures forall x | x in r :: x in speeds && x > limit
    ensures forall x | x in speeds && x > limit :: x in r
    ensures IsSubseq(r, speeds)
  {
    if speeds == [] then []
    else
      var rest := Violators(speeds[1..], limit);
      assert speeds == [speeds[0]] + speeds[1..];
      if speeds[0] > limit then [speeds[0]] + rest
      else
        assert rest != [] ==> rest[0] in rest;
        rest
  }

  /** The comprehension is the filter on "above the limit". */
  lemma {:induction false} ViolatorsIsFilter(speeds: seq<int>, limit: int)
    ensures Violators(speeds, limit) == Filter(speeds, x => x > limit)
  {
    if speeds != [] {
      ViolatorsIsFilter(speeds[1..], limit);
    }
  }

  /** Every speed above the limit is kept as often as it occurs, every other speed
    * is dropped, and nothing else appears. */
  lemma ViolatorsOccurrences(speeds: seq<int>, limit: int)
    ensures forall x | x in speeds ::
      multiset(Violators(speeds, limit))[x] == if x > limit then multiset(speeds)[x] else 0
    ensures multiset(Violators(speeds, limit)) <= multiset(speeds)
  {
    ViolatorsIsFilter(speeds, limit);
    FilterMultiset(speeds, x => x > limit);
    var r := Violators(speeds, limit);
    forall x ensures multiset(r)[x] <= multiset(speeds)[x] {
      if x !in speeds {
        assert x !in r;
      }
    }
  }

  /** `sum(speed > limit for speed in speeds)`: each speed above the limit adds one. */
  function ViolationCount(speeds: seq<int>, limit: int): (n: nat)
    ensures n <= |speeds|
  {
    if speeds == [] then 0
    else (if speeds[0] > limit then 1 else 0) + ViolationCount(speeds[1..], limit)
  }

  /** The count is the length of the list of violators. */
  lemma {:induction false} ViolationCountIsViolators(speeds: seq<int>, limit: int)
    ensures ViolationCount(speeds, limit) == |Violators(speeds, limit)|
  {
    if speeds != [] {
      ViolationCountIsViolators(speeds[1..], limit);
      assert Violators(speeds, limit) ==
        (if speeds[0] > limit then [speeds[0]] else []) + Violators(speeds[1..], limit);
    }
  }

  /** No speed is counted exactly when every speed is at or below the limit, and
    * every speed is counted exactly when every speed is above it. */
  lemma ViolationCountExtremes(speeds: seq<int>, limit: int)
    ensures ViolationCount(speeds, limit) == 0 <==> forall x | x in speeds :: x <= limit
    ensures ViolationCount(speeds, limit) == |speeds| <==> forall x | x in speeds :: x > limit
  {
    ViolationCountIsViolators(speeds, limit);
    ViolatorsIsFilter(speeds, limit);
    var r := Violators(speeds, limit);
    if r != [] {
      assert r[0] in r;
    }
    if forall x | x in speeds :: x > limit {
      FilterKeepsAll(speeds, x => x > limit);
    }
    if |r| == |speeds| {
      FilterAllKept(speeds, x => x > limit);
    }
  }

  /** Non-decreasing order. */
  predicate Ordered(s: seq<int>) {
    forall i, j | 0 <= i < j < |s| :: s[i] <= s[j]
  }

  /** `x` put into a sequence before the first element not below it. */
  function Insert(x: int, s: seq<int>): (r: seq<int>)
    ensures |r| == |s| + 1
  {
    if s == [] then [x]
    else if x <= s[0] then [x] + s
    else [s[0]] + Insert(x, s[1..])
  }

  /** Inserting adds one occurrence of `x` and keeps the rest. */
  lemma {:induction false} InsertMultiset(x: int, s: seq<int>)
    ensures multiset(Insert(x, s)) == multiset(s) + multiset{x}
  {
    if s != [] && x > s[0] {
      InsertMultiset(x, s[1..]);
      assert s == [s[0]] + s[1..];
    }
  }

  /** Inserting into an ordered sequence keeps it ordered. */
  lemma {:induction false} InsertOrdered(x: int, s: seq<int>)
    requires Ordered(s)
    ensures Ordered(Insert(x, s))
  {
    if s != [] && x > s[0] {
      var rest := Insert(x, s[1..]);
      InsertOrdered(x, s[1..]);
      InsertMultiset(x, s[1..]);
      forall j | 0 <= j < |rest| ensures s[0] <= rest[j] {
        assert rest[j] in multiset(rest);
        if rest[j] != x {
          assert rest[j] in multiset(s[1..]);
          var k :| 0 <= k < |s[1..]| && s[1..][k] == rest[j];
          assert s[k + 1] == rest[j];
        }
      }
      assert Insert(x, s) == [s[0]] + rest;
    }
  }

  /** `sorted(speeds)`: the speeds in non-decreasing order, by insertion. */
  function SortedSpeeds(speeds: seq<int>): (r: seq<int>)
    ensures |r| == |speeds|
  {
    if speeds == [] then [] else Insert(speeds[0], SortedSpeeds(speeds[1..]))
  }

  /** The sorted speeds are in non-decreasing order and are a permutation of the
    * speeds. */
  lemma {:induction false} SortedSpeedsSpec(speeds: seq<int>)
    ensures Ordered(SortedSpeeds(speeds))
    ensures multiset(SortedSpeeds(speeds)) == multiset(speeds)
  {
    if speeds != [] {
      SortedSpeedsSpec(speeds[1..]);
      InsertOrdered(speeds[0], SortedSpeeds(speeds[1..]));
      InsertMultiset(speeds[0], SortedSpeeds(speeds[1..]));
      assert speeds == [speeds[0]] + speeds[1..];
    }
  }

  /** The first element of an ordered sequence is at most each of its elements. */
  lemma OrderedFirstIsLeast(a: seq<int>, y: int)
    requires Ordered(a) && y in multiset(a)
    ensures a[0] <= y
  {
    var i :| 0 <= i < |a| && a[i] == y;
  }

  /** Removing the first element removes one occurrence of it. */
  lemma MultisetTail(a: seq<int>)
    requires a != []
    ensures multiset(a[1..]) == multiset(a) - multiset{a[0]}
  {
    assert a == [a[0]] + a[1..];
  }

  /** The tail of an ordered sequence is ordered. */
  lemma OrderedTail(a: seq<int>)
    requires Ordered(a) && a != []
    ensures Ordered(a[1..])
  {
    forall i, j | 0 <= i < j < |a| - 1 ensures a[1..][i] <= a[1..][j] {
      assert a[1..][i] == a[i + 1] && a[1..][j] == a[j + 1];
    }
  }

  /** Non-empty sequences with equal heads and equal tails are equal. */
  lemma HeadTail(a: seq<int>, b: seq<int>)
    requires a != [] && b != []
    requires a[0] == b[0] && a[1..] == b[1..]
    ensures a == b
  {
    assert a == [a[0]] + a[1..] && b == [b[0]] + b[1..];
  }

  /** Two ordered sequences with the same elements are equal, so the sorted speeds
    * are the only ordered permutation of the speeds. */
  lemma {:induction false} OrderedPermutationUnique(a: seq<int>, b: seq<int>)
    requires Ordered(a) && Ordered(b)
    requires multiset(a) == multiset(b)
    ensures a == b
    decreases |a|
  {
    assert |a| == |multiset(a)| == |multiset(b)| == |b|;
    if a != [] {
      assert a[0] in multiset(a) && b[0] in multiset(b);
      OrderedFirstIsLeast(a, b[0]);
      OrderedFirstIsLeast(b, a[0]);
      MultisetTail(a);
      MultisetTail(b);
      OrderedTail(a);
      OrderedTail(b);
      OrderedPermutationUnique(a[1..], b[1..]);
      HeadTail(a, b);
    }
  }

  /** Sorting speeds that are already sorted changes nothing. */
  lemma SortedSpeedsIdempotent(speeds: seq<int>)
    ensures SortedSpeeds(SortedSpeeds(speeds)) == SortedSpeeds(speeds)
  {
    var once := SortedSpeeds(speeds);
    SortedSpeedsSpec(once);
    SortedSpeedsSpec(speeds);
    OrderedPermutationUnique(SortedSpeeds(once), once);
  }

  /** The examples' data: the speeds above 60 are 67, 89, 120 and 75, in that
    * order; they are counted as four; sorted, the speeds run from 45 to 120. */
  lemma Examples()
    ensures Violators(Speeds, SpeedLimit) == [67, 89, 120, 75]
    ensures ViolationCount(Speeds, SpeedLimit) == 4
    ensures SortedSpeeds(Speeds) == [45, 54, 67, 75, 89, 120]
  {
  }
}
