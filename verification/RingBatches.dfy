/** What one reader's `read_batch` results look like in every interleaving: when a
    read comes back empty, and when a batch has a hole in it. */
module RingBatches {
  import opened BroadcastRing
  import opened RingInvariant
  import opened RingTheorems

  /** A read comes back empty exactly when the position at the cursor is not
      published yet - never claimed, or claimed and mid-write. It then leaves
      the cursor where it is and ends the batch; otherwise the read goes on, to
      a copy if the cell still holds the position and to a lap if it does not. */
  lemma {:induction false} EmptyIffUnpublished(states: seq<State>, steps: seq<Step>, n: nat)
    requires Behavior(states, steps) && n < |steps| && steps[n].LoadMark?
    ensures |states[n].core.cells| > 0
    ensures var c, before, after := states[n].core, states[n].readers[steps[n].r], states[n + 1].readers[steps[n].r];
            && after.next == before.next && after.missed == before.missed && after.delivered == before.delivered
            && (after.call.outcome.RanDry? <==> !Published(c, before.next))
            && (after.phase.Copying? <==> Mark(c, before.next) == 2 * before.next + 2)
            && (after.phase.Lapping? <==> Mark(c, before.next) > 2 * before.next + 2)
  {
    BehaviorKeeps(states, steps, n);
    var c, rd := states[n].core, states[n].readers[steps[n].r];
    assert ReaderOk(c, rd);
    assert CellOk(c, CellOf(c, rd.next));
    var m := Mark(c, rd.next);
    if m != 0 && (m - 1) / 2 > rd.next { assert m >= 2 * rd.next + 3; }
  }

  /** Reader `r` took no lap between states `m` and `n`. */
  predicate NoLap(steps: seq<Step>, r: nat, m: nat, n: nat)
    requires n <= |steps|
  {
    forall i | m <= i < n :: steps[i] != LoadOldest(r)
  }

  /** One step of a run, seen from reader `r`. */
  lemma {:induction false} ReaderMoves(states: seq<State>, steps: seq<Step>, n: nat, r: nat)
    requires Behavior(states, steps) && n < |steps| && r < |states[n].readers|
    ensures r < |states[n + 1].readers|
    ensures var a, b := states[n].readers[r], states[n + 1].readers[r];
            && a.delivered <= b.delivered
            && (if steps[n] == LoadOldest(r) then a.missed < b.missed else a.missed == b.missed)
            && b.start == a.start
  {
    if steps[n] == LoadOldest(r) { LapIsExact(states, steps, n); }
  }

  lemma {:induction false} ReaderHistory(states: seq<State>, steps: seq<Step>, m: nat, n: nat, r: nat)
    requires Behavior(states, steps) && m <= n < |states| && r < |states[m].readers|
    ensures r < |states[n].readers|
    ensures var a, b := states[m].readers[r], states[n].readers[r];
            && a.delivered <= b.delivered && a.missed <= b.missed && a.start == b.start
            && (a.missed == b.missed <==> NoLap(steps, r, m, n))
    decreases n - m
  {
    if m < n {
      ReaderHistory(states, steps, m, n - 1, r);
      ReaderMoves(states, steps, n - 1, r);
      assert NoLap(steps, r, m, n) <==> NoLap(steps, r, m, n - 1) && steps[n - 1] != LoadOldest(r);
    }
  }

  /** Deliveries between two states of a run are neighbours in sequence. */
  predicate Consecutive(got: seq<Delivery>, from: nat) {
    forall i | 0 <= i < |got| :: got[i].pos == from + i
  }

  lemma {:induction false} TightIsConsecutive(got: seq<Delivery>, from: nat)
    requires got != [] && got[0].pos >= from && got[|got| - 1].pos == from + |got| - 1
    requires forall i, j | 0 <= i < j < |got| :: got[i].pos < got[j].pos
    ensures Consecutive(got, from)
    decreases |got|
  {
    if |got| > 1 {
      var init := got[..|got| - 1];
      AtLeast(got, from, |got| - 2);
      TightIsConsecutive(init, from);
      forall i | 0 <= i < |got| ensures got[i].pos == from + i {
        if i < |init| { assert got[i] == init[i]; }
      }
    }
  }

  lemma {:induction false} AtLeast(got: seq<Delivery>, from: nat, i: nat)
    requires i < |got| && got[0].pos >= from
    requires forall i, j | 0 <= i < j < |got| :: got[i].pos < got[j].pos
    ensures got[i].pos >= from + i
  {
    if i > 0 { AtLeast(got, from, i - 1); }
  }

  /** The frames a reader accepted between two moments, of which the first was
      already at its cursor at the first moment and the last was the latest
      thing to happen to its cursor at the second, are consecutive exactly when
      it took no lap in between. So a batch has a hole in it exactly when
      `read_batch` lapped between its first and its last frame. */
  lemma {:induction false} HoleIffLappedMidBatch(states: seq<State>, steps: seq<Step>, m: nat, n: nat, r: nat)
    requires Behavior(states, steps) && m <= n < |states| && r < |states[m].readers|
    requires r < |states[n].readers|
    requires var a, b := states[m].readers[r], states[n].readers[r];
             && |a.delivered| < |b.delivered|
             && b.delivered[|a.delivered|].pos == a.next
             && b.delivered[|b.delivered| - 1].pos + 1 == b.next
    ensures var a, b := states[m].readers[r], states[n].readers[r];
            Consecutive(b.delivered[|a.delivered|..], a.next) <==> NoLap(steps, r, m, n)
  {
    var a, b := states[m].readers[r], states[n].readers[r];
    var got := b.delivered[|a.delivered|..];
    ReaderHistory(states, steps, m, n, r);
    CursorBooksBalance(states, steps, m, r);
    CursorBooksBalance(states, steps, n, r);
    assert b.next - a.next == |got| + (b.missed - a.missed);
    assert got[|got| - 1] == b.delivered[|b.delivered| - 1];
    if a.missed == b.missed {
      BehaviorKeeps(states, steps, n);
      assert ReaderOk(states[n].core, b);
      TightIsConsecutive(got, a.next);
    }
  }

  /** The step at which a reader accepted its delivery number `k`. */
  lemma {:induction false} FindDelivery(states: seq<State>, steps: seq<Step>, m: nat, n: nat, r: nat, k: nat)
    returns (i: nat)
    requires Behavior(states, steps) && m <= n < |states| && r < |states[m].readers| && r < |states[n].readers|
    requires |states[m].readers[r].delivered| <= k < |states[n].readers[r].delivered|
    ensures m <= i < n && Delivers(states, steps, i, r, k)
    decreases n - m
  {
    assert m < n;
    ReaderMoves(states, steps, m, r);
    if |states[m + 1].readers[r].delivered| > k {
      i := m;
    } else {
      i := FindDelivery(states, steps, m + 1, n, r, k);
    }
  }

  /** Step `i` is the re-check at which reader `r` accepts its delivery number `k`. */
  ghost predicate Delivers(states: seq<State>, steps: seq<Step>, i: nat, r: nat, k: nat)
    requires Behavior(states, steps) && i < |steps|
  {
    && steps[i] == Recheck(r) && r < |states[i].readers| && r < |states[i + 1].readers|
    && (var a, b := states[i].readers[r], states[i + 1].readers[r];
        && |a.delivered| == k && |b.delivered| == k + 1
        && b.delivered[k].pos == a.next && b.next == a.next + 1)
  }

  /** The `read_batch` call of reader `r` that began with step `m` is still the
      current one at state `n`. */
  ghost predicate SameCall(steps: seq<Step>, r: nat, m: nat, n: nat)
    requires m < n <= |steps|
  {
    && steps[m].BeginBatch? && steps[m].r == r
    && forall i | m < i < n :: !(steps[i].BeginBatch? && steps[i].r == r)
  }

  /** A call has delivered exactly what it counted. */
  lemma {:induction false} CallDelivers(states: seq<State>, steps: seq<Step>, m: nat, n: nat, r: nat)
    requires Behavior(states, steps) && m < n < |states| && SameCall(steps, r, m, n)
    ensures r < |states[m].readers| && r < |states[n].readers|
    ensures states[n].readers[r].call.count == |states[n].readers[r].delivered| - |states[m].readers[r].delivered|
    decreases n - m
  {
    if m + 1 < n {
      assert SameCall(steps, r, m, n - 1);
      CallDelivers(states, steps, m, n - 1, r);
      CountMoves(states, steps, n - 1, r);
    }
  }

  lemma {:induction false} CountMoves(states: seq<State>, steps: seq<Step>, n: nat, r: nat)
    requires Behavior(states, steps) && n < |steps| && r < |states[n].readers|
    requires !(steps[n].BeginBatch? && steps[n].r == r)
    ensures r < |states[n + 1].readers|
    ensures var a, b := states[n].readers[r], states[n + 1].readers[r];
            b.call.count - a.call.count == |b.delivered| - |a.delivered|
  {}

  lemma {:induction false} SameCallAtOnce(steps: seq<Step>, r: nat, m: nat, n: nat)
    requires m < n <= |steps| && SameCall(steps, r, m, n)
    ensures SameCall(steps, r, m, m + 1)
  {}

  /** A call that has just begun has counted nothing and remembers where the write
      position stood; it is over at once exactly when it was given no room. */
  lemma {:induction false} CallBegins(states: seq<State>, steps: seq<Step>, m: nat, r: nat)
    requires Behavior(states, steps) && m < |steps| && SameCall(steps, r, m, m + 1)
    ensures r < |states[m].readers| && r < |states[m + 1].readers|
    ensures states[m + 1].readers[r].delivered == states[m].readers[r].delivered
    ensures var call := states[m + 1].readers[r].call;
            && call.room == steps[m].room && call.count == 0 && call.iterations == 0 && call.laps == 0
            && call.entry == states[m].core.writePos && call.seen == states[m].core.writePos
            && (call.outcome.Running? <==> steps[m].room > 0) && !call.outcome.RanDry?
  {}

  /** One `read_batch` call, seen at any later moment before the next call: the
      frames it returned are consecutive exactly when it did not lap between the
      step that accepted its first frame and the step that accepted its last. */
  lemma {:induction false} BatchHasHoleIffCallLapped(states: seq<State>, steps: seq<Step>, m: nat, n: nat, r: nat)
    returns (first: nat, last: nat)
    requires Behavior(states, steps) && m < n < |states| && SameCall(steps, r, m, n)
    requires r < |states[n].readers| && states[n].readers[r].call.count > 0
    ensures m < first <= last < n
    ensures var rd := states[n].readers[r];
            var base := |rd.delivered| - rd.call.count;
            && base >= 0
            && Delivers(states, steps, first, r, base) && Delivers(states, steps, last, r, |rd.delivered| - 1)
            && (Consecutive(rd.delivered[base..], rd.delivered[base].pos) <==> NoLap(steps, r, first, last + 1))
  {
    assert |states| == |steps| + 1;
    hide Behavior;
    hide Consecutive;
    hide NoLap;
    CallDelivers(states, steps, m, n, r);
    SameCallAtOnce(steps, r, m, n);
    hide SameCall;
    var rd := states[n].readers[r];
    var base := |rd.delivered| - rd.call.count;
    ReaderHistory(states, steps, m, m + 1, r);
    CallBegins(states, steps, m, r);
    first := FindDelivery(states, steps, m + 1, n, r, base);
    last := FindDelivery(states, steps, first, n, r, |rd.delivered| - 1);
    ReaderHistory(states, steps, first + 1, last + 1, r);
    ReaderHistory(states, steps, last + 1, n, r);
    assert states[last + 1].readers[r].delivered == rd.delivered;
    HoleIffLappedMidBatch(states, steps, first, last + 1, r);
  }
}
