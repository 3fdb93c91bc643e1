/** The books by kind: which marker is counted where, and that every record is
    counted once. */
module MarkerBooks {
  import opened Wire
  import opened GapTracker
  import opened LossAccounting

  // ---------------------------------------------------------------------
  // One marker

  /** A marker by its reason, with the reasons written out: 2 is an absence, 1 a loss
      at ingest, anything else an overrun. Only an absence is not loss. */
  lemma {:induction false} MarkerByReason(b: Books, first: u64, count: u64, reason: byte, now: u64)
    ensures var a := Observed(b, MakeGap(first, count, reason, now));
            var marked := b.(markers := b.markers + 1, next := first + count, have := true);
            a == if reason == 2 then
                   marked.(absentMarkers := b.absentMarkers + 1, absentFrames := b.absentFrames + count)
                 else if reason == 1 then
                   marked.(ingestMarkers := b.ingestMarkers + 1, reportedLost := b.reportedLost + count)
                 else
                   marked.(overrunMarkers := b.overrunMarkers + 1, reportedLost := b.reportedLost + count)
  {
    GapRoundTrip(first, count, reason, now);
    hide MakeGap;
    hide GapCount;
    hide IsGap;
    hide IsEcho;
  }

  /** The gateway marks a hole as an absence right after a reconnect and as an overrun
      otherwise; the marker carries the clock and names the numbers that are missing. */
  lemma {:induction false} MarkerIs(s: Sender, batch: seq<Frame>, now: u64)
    requires batch != []
    ensures var m := Marker(s, batch, now);
            if HoleBefore(s, batch) <= 0 then m == []
            else m == [MakeGap(s.nextSeq, HoleBefore(s, batch), if s.reconnected then 2 else 0, now)]
  {}

  // ---------------------------------------------------------------------
  // Every record, counted once

  function Kinds(b: Books): nat { b.overrunMarkers + b.ingestMarkers + b.absentMarkers }

  /** On every stream of records whatever: each is a frame, a marker or a probe in the
      books, and each marker an overrun, an ingest loss or an absence. */
  lemma {:induction false} EveryRecordCounted(b: Books, fs: seq<Frame>)
    ensures var a := ObservedAll(b, fs);
            && a.frames + a.markers + a.echoes == b.frames + b.markers + b.echoes + |fs|
            && a.markers - Kinds(a) == b.markers - Kinds(b)
    decreases |fs|
  {
    if fs != [] {
      hide IsGap;
      hide IsEcho;
      hide GapCount;
      EveryRecordCounted(Observed(b, fs[0]), fs[1..]);
    }
  }

  // ---------------------------------------------------------------------
  // A connection

  /** How many rounds have a hole before them. */
  function RoundsWithHole(s: Sender, rounds: seq<Round>): nat
    requires Orderly(s, rounds)
    decreases |rounds|
  {
    if rounds == [] then 0
    else
      (if HoleBefore(s, rounds[0].batch) > 0 then 1 else 0) +
      RoundsWithHole(AfterBatch(rounds[0].batch), rounds[1..])
  }

  function ProbesIn(rounds: seq<Round>): nat {
    if rounds == [] then 0 else |rounds[0].probes| + ProbesIn(rounds[1..])
  }

  /** The first batch of a connection that followed a disconnect has a hole before it. */
  predicate AwayHole(s: Sender, rounds: seq<Round>)
    requires rounds != [] ==> rounds[0].batch != []
  {
    rounds != [] && s.reconnected && HoleBefore(s, rounds[0].batch) > 0
  }

  lemma {:induction false} KindsAfterRound(s: Sender, b: Books, r: Round)
    requires InStep(s, b) && Orderly(s, [r])
    ensures r.batch != []
    ensures var hole := HoleBefore(s, r.batch) > 0;
            var a := ObservedAll(b, RoundRecords(s, r));
            && a.absentMarkers == b.absentMarkers + (if hole && s.reconnected then 1 else 0)
            && a.overrunMarkers == b.overrunMarkers + (if hole && !s.reconnected then 1 else 0)
            && a.ingestMarkers == b.ingestMarkers
            && a.echoes == b.echoes + |r.probes|
  {
    var m := Marker(s, r.batch, r.now);
    var b1 := ObservedAll(b, m);
    BooksAfterMarker(s, b, r);
    MarkerIs(s, r.batch, r.now);
    if m != [] {
      MarkerByReason(b, s.nextSeq, HoleBefore(s, r.batch), if s.reconnected then 2 else 0, r.now);
      OneObserved(b, m[0]);
    } else {
      assert ObservedAll(b, []) == b;
    }
    OnlyProbesBehind(s, r);
    hide Observed;
    hide ObservedAll;
    hide Marker;
    hide Orderly;
    BooksAfterFrames(b1, r.batch);
    BooksAfterProbes(ObservedAll(b1, r.batch), r.probes);
    ObservedConcat(b, m + r.batch, r.probes);
    ObservedConcat(b, m, r.batch);
  }

  lemma {:induction false} OneObserved(b: Books, f: Frame)
    ensures ObservedAll(b, [f]) == Observed(b, f)
  {
    assert [f][1..] == [];
  }

  lemma {:induction false} OnlyProbesBehind(s: Sender, r: Round)
    requires Orderly(s, [r])
    ensures BusBatch(r.batch) && forall i | 0 <= i < |r.probes| :: IsEcho(r.probes[i])
  {}

  /** Over a connection, counted from its rounds: one absence marker exactly when it
      followed a disconnect and its first batch has a hole before it, one overrun
      marker for every other round with a hole before it, no ingest marker, and one
      probe counted for each sent. */
  lemma {:induction false} ConnectionKinds(s: Sender, b: Books, rounds: seq<Round>)
    requires Orderly(s, rounds) && InStep(s, b)
    ensures rounds != [] ==> rounds[0].batch != []
    ensures var a := ObservedAll(b, Records(s, rounds));
            var away := if AwayHole(s, rounds) then 1 else 0;
            && a.absentMarkers == b.absentMarkers + away
            && a.overrunMarkers == b.overrunMarkers + RoundsWithHole(s, rounds) - away
            && a.ingestMarkers == b.ingestMarkers
            && a.markers == b.markers + RoundsWithHole(s, rounds)
            && a.echoes == b.echoes + ProbesIn(rounds)
    decreases |rounds|
  {
    EveryRecordCounted(b, Records(s, rounds));
    if rounds == [] {
      NoRounds(s);
      assert ObservedAll(b, []) == b;
    } else {
      RoundByRound(s, rounds);
      var r, s1, rest := rounds[0], AfterBatch(rounds[0].batch), rounds[1..];
      hide Orderly;
      hide Records;
      hide RoundRecords;
      hide ObservedAll;
      hide Marker;
      hide HoleBefore;
      KindsAfterRound(s, b, r);
      BooksAfterRound(s, b, r);
      ObservedConcat(b, RoundRecords(s, r), Records(s1, rest));
      ConnectionKinds(s1, ObservedAll(b, RoundRecords(s, r)), rest);
    }
  }
}
