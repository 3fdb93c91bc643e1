/** The decimating sample buffer and nearest-rank percentiles. */
module Samples {
  import opened Sorting

  ghost predicate PowerOfTwo(n: nat)
    decreases n
  {
    n == 1 || (n > 1 && n % 2 == 0 && PowerOfTwo(n / 2))
  }

  /** Every second element, starting with the first. */
  function EverySecond<T>(s: seq<T>): (r: seq<T>)
    ensures |r| == (|s| + 1) / 2
  {
    seq((|s| + 1) / 2, i requires 0 <= i < (|s| + 1) / 2 => s[2 * i])
  }

  predicate StepFits(kept: seq<nat>, stride: nat, i: nat)
    requires 0 < i < |kept|
  {
    stride <= kept[i] - kept[i - 1] <= 2 * stride - 1
  }

  /** `kept` are offered positions: the first is 0, neighbours lie at least
      `stride` and at most `2 * stride - 1` apart, and the last lies less than a
      stride before `mark`, where the count towards the next keep started. */
  ghost predicate Spaced(kept: seq<nat>, stride: nat, mark: nat) {
    && kept != [] && kept[0] == 0
    && (forall i | 0 < i < |kept| :: StepFits(kept, stride, i))
    && kept[|kept| - 1] <= mark < kept[|kept| - 1] + stride
  }

  lemma {:induction false} DecimatedIsSpaced(kept: seq<nat>, stride: nat)
    requires stride > 0 && kept != [] && Spaced(kept, stride, kept[|kept| - 1])
    ensures Spaced(EverySecond(kept), 2 * stride, kept[|kept| - 1])
  {
    var half := EverySecond(kept);
    forall i | 0 < i < |half| ensures StepFits(half, 2 * stride, i) {
      assert StepFits(kept, stride, 2 * i) && StepFits(kept, stride, 2 * i - 1);
    }
    var n := |half| - 1;
    assert half[n] == kept[2 * n];
    if 2 * n != |kept| - 1 {
      assert StepFits(kept, stride, |kept| - 1);
    }
  }

  /** The next keep, one stride after the mark. */
  lemma {:induction false} KeepIsSpaced(kept: seq<nat>, stride: nat, mark: nat)
    requires Spaced(kept, stride, mark) && stride > 0
    ensures Spaced(kept + [mark + stride], stride, mark + stride)
  {
    var more := kept + [mark + stride];
    forall i | 0 < i < |more| ensures StepFits(more, stride, i) {
      if i < |kept| { assert StepFits(kept, stride, i); }
    }
  }

  lemma {:induction false} FirstIsSpaced()
    ensures Spaced([] + [0], 1, 0)
  {}

  /** Each retained value is the one offered at its position. */
  ghost predicate Matches(values: seq<int>, kept: seq<nat>, offered: seq<int>) {
    |values| == |kept| && forall i | 0 <= i < |kept| :: kept[i] < |offered| && values[i] == offered[kept[i]]
  }

  lemma {:induction false} MatchesSize(values: seq<int>, kept: seq<nat>, offered: seq<int>)
    requires Matches(values, kept, offered)
    ensures |values| == |kept|
  {}

  lemma {:induction false} DecimatedMatches(values: seq<int>, kept: seq<nat>, offered: seq<int>)
    requires Matches(values, kept, offered)
    ensures Matches(EverySecond(values), EverySecond(kept), offered)
  {
    var v, k := EverySecond(values), EverySecond(kept);
    forall i | 0 <= i < |k| ensures k[i] < |offered| && v[i] == offered[k[i]] {
      assert k[i] == kept[2 * i] && v[i] == values[2 * i];
    }
  }

  lemma {:induction false} OfferedMatches(values: seq<int>, kept: seq<nat>, offered: seq<int>, value: int)
    requires Matches(values, kept, offered)
    ensures Matches(values, kept, offered + [value])
  {}

  lemma {:induction false} KeptMatches(values: seq<int>, kept: seq<nat>, offered: seq<int>, value: int)
    requires Matches(values, kept, offered) && offered != [] && offered[|offered| - 1] == value
    ensures Matches(values + [value], kept + [|offered| - 1], offered)
  {}

  lemma {:induction false} PowerDoubles(n: nat)
    requires PowerOfTwo(n)
    ensures PowerOfTwo(2 * n)
  {
    assert (2 * n) / 2 == n;
  }

  class Samples {
    var values: seq<int>
    const capacity: nat
    var total: nat
    var stride: nat
    var seen: nat
    ghost var offered: seq<int>   // every value ever added
    ghost var kept: seq<nat>      // the position each retained value was offered at

    ghost predicate Valid()
      reads this
    {
      && capacity > 0 && total == |offered|
      && PowerOfTwo(stride) && seen < stride
      && |values| <= capacity
      && (capacity >= 2 ==> |values| < capacity)
      && Matches(values, kept, offered)
      && (if total == 0 then kept == [] && stride == 1 && seen == 0
          else seen < total && Spaced(kept, stride, total - 1 - seen))
    }

    constructor (capacity: nat)
      ensures Valid() && offered == [] && this.capacity == (if capacity == 0 then 1 else capacity)
    {
      this.capacity := if capacity == 0 then 1 else capacity;
      values, total, stride, seen, offered, kept := [], 0, 1, 0, [], [];
    }

    /** `add`. Whatever the number of samples, the retained ones are spread over
        the whole run with spacing known to a factor of two. */
    method Add(value: int)
      requires Valid()
      modifies this
      ensures Valid() && offered == old(offered) + [value]
      ensures stride == old(stride) || stride == 2 * old(stride)
    {
      hide Spaced;
      hide PowerOfTwo;
      ghost var mark := total - 1 - seen;
      total := total + 1;
      OfferedMatches(values, kept, offered, value);
      offered := offered + [value];
      seen := seen + 1;
      if seen < stride {
        return;
      }
      if total > 1 {
        KeepIsSpaced(kept, stride, mark);
      } else {
        FirstIsSpaced();
      }
      seen := 0;
      Keep(value);
    }

    /** A sample that is due is kept, and a full buffer decimated. */
    method Keep(value: int)
      requires 0 < capacity && |values| <= capacity && (capacity >= 2 ==> |values| < capacity)
      requires PowerOfTwo(stride) && stride > 0
      requires total == |offered| > 0 && seen == 0 && offered[total - 1] == value && Matches(values, kept, offered)
      requires Spaced(kept + [total - 1], stride, total - 1)
      modifies `values, `kept, `stride
      ensures Valid() && (stride == old(stride) || stride == 2 * old(stride))
    {
      hide Spaced;
      hide PowerOfTwo;
      KeptMatches(values, kept, offered, value);
      MatchesSize(values, kept, offered);
      hide Matches;
      values := values + [value];
      kept := kept + [total - 1];
      if |values| >= capacity {
        DecimatedMatches(values, kept, offered);
        PowerDoubles(stride);
        Decimate();
      }
    }

    /** `decimate`: compaction in place. */
    method Decimate()
      requires stride > 0 && values != [] && |values| == |kept| && Spaced(kept, stride, kept[|kept| - 1])
      modifies `values, `stride, `kept
      ensures values == EverySecond(old(values)) && kept == EverySecond(old(kept)) && stride == 2 * old(stride)
      ensures Spaced(kept, stride, old(kept)[|old(kept)| - 1])
    {
      hide Spaced;
      hide EverySecond;
      Compact();
      DecimatedIsSpaced(kept, stride);
      kept := EverySecond(kept);
      stride := stride * 2;
    }

    /** The loop of `decimate`. */
    method Compact()
      modifies `values
      ensures values == EverySecond(old(values))
    {
      ghost var was := values;
      var out, i := 0, 0;
      while i < |values|
        invariant i == 2 * out && i <= |was| + 1 && |values| == |was|
        invariant forall k | 0 <= k < out :: values[k] == was[2 * k]
        invariant forall k | i <= k < |was| :: values[k] == was[k]
      {
        values := values[out := values[i]];
        out, i := out + 1, i + 2;
      }
      values := values[..out];
      HalfIs(was, values);
    }
  }

  lemma {:induction false} HalfIs(was: seq<int>, half: seq<int>)
    requires |was| <= 2 * |half| <= |was| + 1 && forall k | 0 <= k < |half| :: half[k] == was[2 * k]
    ensures half == EverySecond(was)
  {}

  // ---------------------------------------------------------------------
  // Percentiles

  function Ceiling(x: real): (c: int)
    ensures c as real - 1.0 < x <= c as real
  {
    -((0.0 - x).Floor)
  }

  /** `ceil(p * n)` clamped to `1..n`, as an index. */
  function RankIndex(n: nat, share: real): (k: nat)
    requires n > 0
    ensures k < n
  {
    var idx := Ceiling(share);
    (if idx <= 0 then 1 else if idx > n then n else idx) - 1
  }

  function NearestRank(sorted: seq<int>, p: real): int {
    if sorted == [] then 0 else sorted[RankIndex(|sorted|, p * |sorted| as real)]
  }

  /** Counting up to a clamped ceiling. */
  lemma {:induction false} RankShare(n: nat, share: real, below: nat, atMost: nat)
    requires n > 0 && share <= n as real
    requires below <= RankIndex(n, share) < atMost
    ensures atMost as real >= share && ((below as real) < share || below == 0)
  {}

  lemma {:induction false} RankAt(values: seq<int>, share: real)
    requires values != [] && share <= |values| as real
    ensures |Sorted(values)| == |values|
    ensures var v := Sorted(values)[RankIndex(|values|, share)];
            && v in values
            && CountAtMost(values, v) as real >= share
            && ((CountBelow(values, v) as real) < share || CountBelow(values, v) == 0)
  {
    hide RankIndex;
    var k := RankIndex(|values|, share);
    RankOf(values, k);
    RankShare(|values|, share, CountBelow(values, Sorted(values)[k]), CountAtMost(values, Sorted(values)[k]));
  }

  lemma {:induction false} ShareIsPart(p: real, n: real)
    requires 0.0 <= p <= 1.0 && 0.0 <= n
    ensures p * n <= n
  {}

  /** The nearest-rank rule: the result is a sample, at least a fraction `p` of
      the samples lie at or below it, and fewer than that lie strictly below it
      (or none do). */
  lemma {:induction false} NearestRankLaw(values: seq<int>, p: real)
    requires values != [] && 0.0 <= p <= 1.0
    ensures var v := NearestRank(Sorted(values), p);
            && v in values
            && CountAtMost(values, v) as real >= p * |values| as real
            && ((CountBelow(values, v) as real) < p * |values| as real || CountBelow(values, v) == 0)
  {
    hide Sorted;
    hide CountAtMost;
    hide CountBelow;
    hide RankIndex;
    hide NearestRank;
    var share := p * |values| as real;
    ShareIsPart(p, |values| as real);
    RankAt(values, share);
    NearestRankUnfolds(Sorted(values), p, share);
  }

  lemma {:induction false} NearestRankUnfolds(sorted: seq<int>, p: real, share: real)
    requires sorted != [] && share == p * |sorted| as real
    ensures NearestRank(sorted, p) == sorted[RankIndex(|sorted|, share)]
  {}
}
