/** Order statistics: the sort both percentile users rely on, and rank by counting. */
module Sorting {

  /** What `std::sort` leaves behind, by insertion. */
  function Insert(x: int, s: seq<int>): seq<int> {
    if s == [] || x <= s[0] then [x] + s else [s[0]] + Insert(x, s[1..])
  }

  function Sorted(s: seq<int>): seq<int> {
    if s == [] then [] else Insert(s[0], Sorted(s[1..]))
  }

  predicate IsSorted(s: seq<int>) { forall i, j | 0 <= i < j < |s| :: s[i] <= s[j] }

  lemma {:induction false} InsertMembers(x: int, s: seq<int>)
    ensures multiset(Insert(x, s)) == multiset(s) + multiset{x} && |Insert(x, s)| == |s| + 1
  {
    if s != [] && x > s[0] {
      InsertMembers(x, s[1..]);
      assert s == [s[0]] + s[1..];
    }
  }

  /** `lo` bounds everything, which is what the induction carries along. */
  lemma {:induction false} InsertSorts(x: int, s: seq<int>, lo: int)
    requires IsSorted(s) && lo <= x && forall i | 0 <= i < |s| :: lo <= s[i]
    ensures IsSorted(Insert(x, s)) && forall i | 0 <= i < |Insert(x, s)| :: lo <= Insert(x, s)[i]
  {
    if s != [] && x > s[0] {
      var tail := s[1..];
      assert IsSorted(tail) by { assert forall i | 0 <= i < |tail| :: tail[i] == s[i + 1]; }
      InsertSorts(x, tail, s[0]);
      var ins := Insert(x, tail);
      var all := [s[0]] + ins;
      forall i, j | 0 <= i < j < |all| ensures all[i] <= all[j] {
        assert all[j] == ins[j - 1];
        if i > 0 { assert all[i] == ins[i - 1]; }
      }
    }
  }

  lemma {:induction false} InsertKeeps(x: int, s: seq<int>)
    requires IsSorted(s)
    ensures IsSorted(Insert(x, s)) && multiset(Insert(x, s)) == multiset(s) + multiset{x} && |Insert(x, s)| == |s| + 1
  {
    InsertMembers(x, s);
    InsertSorts(x, s, if s == [] || x < s[0] then x else s[0]);
  }

  lemma {:induction false} SortedSorts(s: seq<int>)
    ensures IsSorted(Sorted(s)) && multiset(Sorted(s)) == multiset(s) && |Sorted(s)| == |s|
  {
    SortedUnfolds(s);
    hide Sorted;
    hide Insert;
    hide IsSorted;
    if s != [] {
      SortedSorts(s[1..]);
      InsertKeeps(s[0], Sorted(s[1..]));
      FirstAndRest(s);
    }
  }

  lemma {:induction false} SortedUnfolds(s: seq<int>)
    ensures if s == [] then Sorted(s) == [] && IsSorted(Sorted(s)) else Sorted(s) == Insert(s[0], Sorted(s[1..]))
  {}

  lemma {:induction false} FirstAndRest(s: seq<int>)
    requires s != []
    ensures multiset(s) == multiset(s[1..]) + multiset{s[0]}
  {
    assert s == [s[0]] + s[1..];
  }

  function CountBelow(s: seq<int>, v: int): nat {
    if s == [] then 0 else (if s[0] < v then 1 else 0) + CountBelow(s[1..], v)
  }

  function CountAtMost(s: seq<int>, v: int): nat {
    if s == [] then 0 else (if s[0] <= v then 1 else 0) + CountAtMost(s[1..], v)
  }

  lemma {:induction false} InsertCounts(x: int, s: seq<int>, v: int)
    ensures CountBelow(Insert(x, s), v) == CountBelow(s, v) + (if x < v then 1 else 0)
    ensures CountAtMost(Insert(x, s), v) == CountAtMost(s, v) + (if x <= v then 1 else 0)
  {
    if s == [] || x <= s[0] {
      assert ([x] + s)[1..] == s;
    } else {
      InsertCounts(x, s[1..], v);
      assert ([s[0]] + Insert(x, s[1..]))[1..] == Insert(x, s[1..]);
    }
  }

  lemma {:induction false} SortedCounts(s: seq<int>, v: int)
    ensures CountBelow(Sorted(s), v) == CountBelow(s, v) && CountAtMost(Sorted(s), v) == CountAtMost(s, v)
  {
    if s != [] {
      SortedCounts(s[1..], v);
      InsertCounts(s[0], Sorted(s[1..]), v);
    }
  }

  lemma {:induction false} CountsInSorted(s: seq<int>, k: nat)
    requires IsSorted(s) && k < |s|
    ensures CountBelow(s, s[k]) <= k < CountAtMost(s, s[k])
  {
    if k == 0 {
      NoneBelow(s, s[0]);
    } else {
      var tail := s[1..];
      assert forall i, j | 0 <= i < j < |tail| :: tail[i] <= tail[j];
      CountsInSorted(tail, k - 1);
    }
  }

  lemma {:induction false} NoneBelow(s: seq<int>, v: int)
    requires forall i | 0 <= i < |s| :: v <= s[i]
    ensures CountBelow(s, v) == 0
  {
    if s != [] { NoneBelow(s[1..], v); }
  }

  /** The value at sorted place `k`, characterised without sorting: at most `k`
      values lie strictly below it and more than `k` lie at or below it. */
  lemma {:induction false} RankOf(s: seq<int>, k: nat)
    requires k < |s|
    ensures |Sorted(s)| == |s| && Sorted(s)[k] in s
    ensures CountBelow(s, Sorted(s)[k]) <= k < CountAtMost(s, Sorted(s)[k])
  {
    SortedSorts(s);
    CountsInSorted(Sorted(s), k);
    SortedCounts(s, Sorted(s)[k]);
    assert Sorted(s)[k] in multiset(Sorted(s));
  }
}
