/** Dividing a number of calls among producers. */
module Partition {
  datatype Range = Range(start: int, end: int)

  /** How many calls producer `i` gets. */
  function Width(calls: nat, producers: nat, i: nat): nat
    requires producers > 0
  {
    calls / producers + if i < calls % producers then 1 else 0
  }

  /** What the first `n` producers get together. */
  function Before(calls: nat, producers: nat, n: nat): nat
    requires producers > 0
  {
    if n == 0 then 0 else Before(calls, producers, n - 1) + Width(calls, producers, n - 1)
  }

  lemma {:induction false} BeforeClosed(calls: nat, producers: nat, n: nat)
    requires producers > 0
    ensures Before(calls, producers, n) == n * (calls / producers) + if n < calls % producers then n else calls % producers
  {
    if n > 0 {
      BeforeClosed(calls, producers, n - 1);
      assert n * (calls / producers) == (n - 1) * (calls / producers) + calls / producers;
    }
  }

  /** All producers together get all the calls. */
  lemma WidthsSum(calls: nat, producers: nat)
    requires producers > 0
    ensures Before(calls, producers, producers) == calls
  {
    BeforeClosed(calls, producers, producers);
    assert calls == producers * (calls / producers) + calls % producers;
  }

  lemma {:induction false} BeforeMonotone(calls: nat, producers: nat, m: nat, n: nat)
    requires producers > 0 && m <= n
    ensures Before(calls, producers, m) <= Before(calls, producers, n)
    decreases n - m
  {
    if m < n {
      BeforeMonotone(calls, producers, m, n - 1);
    }
  }

  /** The ranges follow each other, cover `0..calls` exactly, and their lengths differ by at most one. */
  predicate Covers(ranges: seq<Range>, calls: nat, producers: nat)
  {
    && |ranges| == producers
    && (producers > 0 ==> ranges[0].start == 0 && ranges[producers - 1].end == calls)
    && (forall i :: 0 < i < producers ==> ranges[i - 1].end == ranges[i].start)
    && (forall i, j :: 0 <= i < producers && 0 <= j < producers ==>
          0 <= ranges[i].end - ranges[i].start <= ranges[j].end - ranges[j].start + 1)
  }

  function RangeOf(calls: nat, producers: nat, i: nat): Range
    requires producers > 0
  {
    Range(Before(calls, producers, i), Before(calls, producers, i + 1))
  }

  /** `_partition_any`; an empty result stands for the raised error. */
  method PartitionAny(calls: int, producers: int) returns (ranges: seq<Range>)
    ensures ranges != [] <==> calls >= 0 && producers >= 1
    ensures ranges != [] ==> Covers(ranges, calls, producers)
    ensures ranges != [] ==> forall i :: 0 <= i < producers ==> ranges[i].end - ranges[i].start == Width(calls, producers, i)
  {
    if calls < 0 || producers < 1 {
      return [];
    }
    hide Width, Before;
    var quotient, remainder := calls / producers, calls % producers;
    var start := 0;
    ranges := [];
    StartsAtZero(calls, producers);
    for index := 0 to producers
      invariant |ranges| == index && start == Before(calls, producers, index)
      invariant forall i :: 0 <= i < index ==> ranges[i] == RangeOf(calls, producers, i)
    {
      var width := quotient + if index < remainder then 1 else 0;
      WidthIs(calls, producers, index);
      ranges := ranges + [Range(start, start + width)];
      start := start + width;
    }
    WidthsSum(calls, producers);
    RangesCover(ranges, calls, producers);
  }

  lemma StartsAtZero(calls: nat, producers: nat)
    requires producers > 0
    ensures Before(calls, producers, 0) == 0
  {
  }

  lemma WidthIs(calls: nat, producers: nat, i: nat)
    requires producers > 0
    ensures Before(calls, producers, i + 1) == Before(calls, producers, i) + Width(calls, producers, i)
    ensures Width(calls, producers, i) == calls / producers + if i < calls % producers then 1 else 0
  {
  }

  lemma Adjacent(calls: nat, producers: nat, i: nat, j: nat)
    requires producers > 0
    ensures RangeOf(calls, producers, i).end == RangeOf(calls, producers, i + 1).start
    ensures var r, q := RangeOf(calls, producers, i), RangeOf(calls, producers, j);
            r.end - r.start == Width(calls, producers, i) && 0 <= r.end - r.start <= q.end - q.start + 1
  {
  }

  lemma RangesCover(ranges: seq<Range>, calls: nat, producers: nat)
    requires producers > 0 && |ranges| == producers
    requires forall i :: 0 <= i < producers ==> ranges[i] == RangeOf(calls, producers, i)
    ensures Covers(ranges, calls, producers)
    ensures forall i :: 0 <= i < producers ==> ranges[i].end - ranges[i].start == Width(calls, producers, i)
  {
    WidthsSum(calls, producers);
    StartsAtZero(calls, producers);
    hide Before, Width;
    forall i | 0 < i < producers ensures ranges[i - 1].end == ranges[i].start {
      Adjacent(calls, producers, i - 1, 0);
    }
    forall i, j | 0 <= i < producers && 0 <= j < producers
      ensures 0 <= ranges[i].end - ranges[i].start <= ranges[j].end - ranges[j].start + 1
    {
      Adjacent(calls, producers, i, j);
    }
    forall i | 0 <= i < producers ensures ranges[i].end - ranges[i].start == Width(calls, producers, i) {
      Adjacent(calls, producers, i, i);
    }
  }

  /** `partition_ranges` on a fixed profile: equal shares. */
  function EqualRange(share: nat, i: nat): Range {
    Range(i * share, (i + 1) * share)
  }

  /** On a fixed profile both partitions agree. */
  lemma PartitionsAgree(share: nat, producers: nat, i: nat)
    requires producers > 0 && i < producers
    ensures var calls := share * producers;
            EqualRange(share, i) == RangeOf(calls, producers, i)
  {
    var calls := share * producers;
    ShareDivides(share, producers);
    BeforeClosed(calls, producers, i);
    BeforeClosed(calls, producers, i + 1);
  }

  lemma ShareDivides(share: nat, producers: nat)
    requires producers > 0
    ensures (share * producers) / producers == share && (share * producers) % producers == 0
  {
    var calls := share * producers;
    var q, r := calls / producers, calls % producers;
    assert producers * q + r == calls;
    assert producers * (share - q) == r;
    Multiples(producers, share - q);
  }

  lemma Multiples(p: int, x: int)
    requires p >= 0
    ensures x >= 1 ==> p * x >= p
    ensures x <= -1 ==> p * x <= -p
  {
  }
}
