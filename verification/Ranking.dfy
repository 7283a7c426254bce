/** Nearest-rank percentiles of integer samples. */
module Ranking {
  import opened Bytes

  const MAX_INTEGER := 9223372036854775807

  predicate Exact(n: int) {
    0 <= n <= MAX_INTEGER
  }

  predicate Sorted(s: seq<int>) {
    forall i, j :: 0 <= i < j < |s| ==> s[i] <= s[j]
  }

  function Insert(x: int, s: seq<int>): (r: seq<int>)
    ensures |r| == |s| + 1
  {
    if s == [] then [x] else if x <= s[0] then [x] + s else [s[0]] + Insert(x, s[1..])
  }

  /** Python's `sorted`. */
  function Sort(s: seq<int>): (r: seq<int>)
    ensures |r| == |s|
  {
    if s == [] then [] else Insert(s[0], Sort(s[1..]))
  }

  lemma {:induction false} InsertAdds(x: int, s: seq<int>)
    ensures multiset(Insert(x, s)) == multiset(s) + multiset{x}
    decreases |s|
  {
    if s != [] && x > s[0] {
      InsertAdds(x, s[1..]);
      assert s == [s[0]] + s[1..];
    } else {
      assert [x] + s == Insert(x, s);
    }
  }

  lemma {:induction false} InsertKeepsFloor(x: int, s: seq<int>, least: int)
    requires least <= x && forall i :: 0 <= i < |s| ==> least <= s[i]
    ensures forall j :: 0 <= j < |Insert(x, s)| ==> least <= Insert(x, s)[j]
    decreases |s|
  {
    if s != [] && x > s[0] {
      InsertKeepsFloor(x, s[1..], least);
    }
  }

  lemma {:induction false} InsertKeepsSorted(x: int, s: seq<int>)
    requires Sorted(s)
    ensures Sorted(Insert(x, s))
    decreases |s|
  {
    if s != [] && x > s[0] {
      InsertKeepsSorted(x, s[1..]);
      InsertKeepsFloor(x, s[1..], s[0]);
    }
  }

  lemma {:induction false} SortSorts(s: seq<int>)
    ensures multiset(Sort(s)) == multiset(s) && Sorted(Sort(s))
    decreases |s|
  {
    if s != [] {
      SortSorts(s[1..]);
      InsertAdds(s[0], Sort(s[1..]));
      InsertKeepsSorted(s[0], Sort(s[1..]));
      assert s == [s[0]] + s[1..];
    }
  }

  /** Sorted sequences with the same elements are the same. */
  lemma {:induction false} SortedIsUnique(s: seq<int>, t: seq<int>)
    requires Sorted(s) && Sorted(t) && multiset(s) == multiset(t)
    ensures s == t
    decreases |s|
  {
    assert |s| == |multiset(s)| == |multiset(t)| == |t|;
    if s != [] {
      FirstIsLeast(s, t);
      FirstIsLeast(t, s);
      RestOf(s);
      RestOf(t);
      SortedIsUnique(s[1..], t[1..]);
    }
  }

  lemma RestOf(s: seq<int>)
    requires s != []
    ensures s == [s[0]] + s[1..] && multiset(s[1..]) == multiset(s) - multiset{s[0]}
  {
    assert s == [s[0]] + s[1..];
  }

  lemma FirstIsLeast(s: seq<int>, t: seq<int>)
    requires Sorted(s) && multiset(s) == multiset(t) && s != [] && t != []
    ensures s[0] <= t[0]
  {
    assert t[0] in multiset(s);
    var i :| 0 <= i < |s| && s[i] == t[0];
  }

  /** How many samples are at most `v`. */
  function AtMost(s: seq<int>, v: int): nat {
    if s == [] then 0 else AtMost(s[1..], v) + if s[0] <= v then 1 else 0
  }

  lemma {:induction false} AtMostInsert(x: int, s: seq<int>, v: int)
    ensures AtMost(Insert(x, s), v) == AtMost(s, v) + if x <= v then 1 else 0
    decreases |s|
  {
    if s != [] && x > s[0] {
      AtMostInsert(x, s[1..], v);
    } else {
      assert Insert(x, s)[1..] == s;
    }
  }

  lemma {:induction false} AtMostSort(s: seq<int>, v: int)
    ensures AtMost(Sort(s), v) == AtMost(s, v)
    decreases |s|
  {
    if s != [] {
      AtMostSort(s[1..], v);
      AtMostInsert(s[0], Sort(s[1..]), v);
    }
  }

  /** In a sorted sequence, more than `k` samples are at most the one at `k`, and at most `k` are below it. */
  lemma {:induction false} AtMostSorted(s: seq<int>, k: nat, w: int)
    requires Sorted(s) && k < |s|
    ensures s[k] <= w ==> AtMost(s, w) >= k + 1
    ensures w < s[k] ==> AtMost(s, w) <= k
    decreases |s|
  {
    if k > 0 {
      AtMostSorted(s[1..], k - 1, w);
    } else if w < s[0] {
      NoneAtMost(s, w);
    }
  }

  lemma {:induction false} NoneAtMost(s: seq<int>, w: int)
    requires forall i :: 0 <= i < |s| ==> w < s[i]
    ensures AtMost(s, w) == 0
    decreases |s|
  {
    if s != [] {
      NoneAtMost(s[1..], w);
    }
  }

  /** The index picked for `percent` of `n` samples. */
  function Rank(percent: nat, n: nat): (k: int)
    requires n > 0 && 0 < percent <= 100
    ensures 0 <= k < n && 100 * k < percent * n <= 100 * (k + 1)
  {
    if (percent * n + 99) / 100 - 1 > 0 then (percent * n + 99) / 100 - 1 else 0
  }

  predicate Supported(percent: nat) {
    percent == 50 || percent == 95 || percent == 99
  }

  /** `nearest_rank`; None when it raises. */
  function NearestRank(values: seq<int>, percent: nat): Option<int> {
    if values == [] || (exists i :: 0 <= i < |values| && !Exact(values[i])) || !Supported(percent) then None
    else Some(Sort(values)[Rank(percent, |values|)])
  }

  /** At least `percent` percent of the samples are at most `v`. */
  predicate Reaches(values: seq<int>, percent: nat, v: int) {
    100 * AtMost(values, v) >= percent * |values|
  }

  lemma {:induction false} AtMostLast(s: seq<int>, v: int)
    requires s != []
    ensures AtMost(s, v) == AtMost(s[..|s| - 1], v) + if s[|s| - 1] <= v then 1 else 0
    decreases |s|
  {
    if |s| > 1 {
      AtMostLast(s[1..], v);
      assert s[..|s| - 1][1..] == s[1..][..|s[1..]| - 1];
    } else {
      assert s[..0] == [] && AtMost(s[1..], v) == 0;
    }
  }

  lemma {:induction false} AtMostCounts(s: seq<int>, v: int)
    ensures AtMost(s, v) == |set i | 0 <= i < |s| && s[i] <= v|
    decreases |s|
  {
    var places := set i | 0 <= i < |s| && s[i] <= v;
    if s == [] {
      assert places == {};
    } else {
      var front, n := s[..|s| - 1], |s| - 1;
      AtMostLast(s, v);
      AtMostCounts(front, v);
      assert places == (set i | 0 <= i < |front| && front[i] <= v) + if s[n] <= v then {n} else {};
    }
  }

  /** The percentages and samples that are taken. */
  lemma RankedExactly(values: seq<int>, percent: nat)
    ensures NearestRank(values, percent).Some?
            <==> values != [] && percent in {50, 95, 99} && forall i :: 0 <= i < |values| ==> 0 <= values[i] < 0x8000_0000_0000_0000
  {
    hide Sort;
  }

  /** The nearest rank is the least value that reaches the percentage, and it is a sample. */
  lemma LeastReaching(values: seq<int>, percent: nat)
    requires NearestRank(values, percent).Some?
    ensures var v := NearestRank(values, percent).value;
            v in values && Reaches(values, percent, v) && forall w :: w < v ==> !Reaches(values, percent, w)
  {
    var s, k := Sort(values), Rank(percent, |values|);
    SortSorts(values);
    var v := s[k];
    assert v in multiset(s);
    AtMostSorted(s, k, v);
    AtMostSort(values, v);
    forall w | w < v ensures !Reaches(values, percent, w) {
      AtMostSorted(s, k, w);
      AtMostSort(values, w);
    }
  }

  /** No other sample is the least reaching one. */
  lemma LeastReachingIsUnique(values: seq<int>, percent: nat, v: int)
    requires NearestRank(values, percent).Some?
    requires Reaches(values, percent, v) && forall w :: w < v ==> !Reaches(values, percent, w)
    ensures NearestRank(values, percent) == Some(v)
  {
    LeastReaching(values, percent);
  }

  /** The order of the samples does not matter. */
  lemma OrderDoesNotMatter(values: seq<int>, others: seq<int>, percent: nat)
    requires multiset(values) == multiset(others)
    ensures NearestRank(values, percent) == NearestRank(others, percent)
  {
    SortSorts(values);
    SortSorts(others);
    SortedIsUnique(Sort(values), Sort(others));
    SameExactness(values, others);
    SameExactness(others, values);
  }

  lemma SameExactness(values: seq<int>, others: seq<int>)
    requires multiset(values) == multiset(others)
    ensures |values| == |others|
    ensures (forall i :: 0 <= i < |values| ==> Exact(values[i])) ==> forall i :: 0 <= i < |others| ==> Exact(others[i])
  {
    assert |values| == |multiset(values)| == |multiset(others)| == |others|;
    if forall i :: 0 <= i < |values| ==> Exact(values[i]) {
      forall i | 0 <= i < |others| ensures Exact(others[i]) {
        assert others[i] in multiset(values);
      }
    }
  }

  function Greatest(values: seq<int>): (m: int)
    requires values != []
    ensures m in values && forall i :: 0 <= i < |values| ==> values[i] <= m
  {
    if |values| == 1 then values[0]
    else
      var rest := Greatest(values[1..]);
      assert values[0] in values;
      if values[0] <= rest then rest else values[0]
  }

  /** The percentiles of one run are ordered, up to its maximum. */
  lemma PercentilesAreOrdered(values: seq<int>)
    requires NearestRank(values, 50).Some?
    ensures NearestRank(values, 95).Some? && NearestRank(values, 99).Some?
    ensures 0 <= NearestRank(values, 50).value <= NearestRank(values, 95).value <= NearestRank(values, 99).value
            <= Greatest(values) <= MAX_INTEGER
  {
    LeastReaching(values, 50);
    LeastReaching(values, 95);
    LeastReaching(values, 99);
    var i :| 0 <= i < |values| && values[i] == NearestRank(values, 50).value;
    var j :| 0 <= j < |values| && values[j] == NearestRank(values, 99).value;
    var k :| 0 <= k < |values| && values[k] == Greatest(values);
    assert Exact(values[i]) && Exact(values[k]);
    ReachesLess(values, 95, 50, NearestRank(values, 95).value);
    ReachesLess(values, 99, 95, NearestRank(values, 99).value);
  }

  lemma ReachesLess(values: seq<int>, percent: nat, less: nat, v: int)
    requires Reaches(values, percent, v) && less <= percent
    ensures Reaches(values, less, v)
  {
    assert less * |values| <= percent * |values|;
  }
}
