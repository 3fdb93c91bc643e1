/** The gateway's gap markers and the consumer's books agree, to the frame. */
module LossAccounting {
  import opened Wire
  import opened GapTracker

  /** What `note_gap` remembers between batches. */
  datatype Sender = Sender(nextSeq: nat, have: bool, reconnected: bool)

  /** One pass of the egress loop: a popped batch, the clock when its marker was
      made, and the probes (at most one) appended behind it. */
  datatype Round = Round(batch: seq<Frame>, now: u64, probes: seq<Frame>)

  /** Frames as a feed hands them over: from a bus, in sequence order. */
  predicate BusBatch(fs: seq<Frame>) {
    && fs != []
    && (forall i | 0 <= i < |fs| :: !IsControl(fs[i]))
    && (forall i | 0 < i < |fs| :: fs[i - 1].seqNo < fs[i].seqNo)
  }

  function LastSeq(fs: seq<Frame>): nat
    requires fs != []
  {
    fs[|fs| - 1].seqNo
  }

  /** The marker `note_gap` puts in front, if any. Only the first frame of the
      batch is looked at. */
  function Marker(s: Sender, batch: seq<Frame>, now: u64): seq<Frame>
    requires batch != []
  {
    if s.have && batch[0].seqNo > s.nextSeq
    then
      var reason := if s.reconnected then CONSUMER_ABSENT else CONSUMER_OVERRUN;
      [MakeGap(s.nextSeq, batch[0].seqNo - s.nextSeq, reason, now)]
    else []
  }

  function AfterBatch(batch: seq<Frame>): Sender
    requires batch != []
  {
    Sender(LastSeq(batch) + 1, true, false)
  }

  function RoundRecords(s: Sender, r: Round): seq<Frame>
    requires r.batch != []
  {
    Marker(s, r.batch, r.now) + r.batch + r.probes
  }

  /** Rounds a connection may see, starting from sender state `s`. */
  predicate Orderly(s: Sender, rounds: seq<Round>)
    decreases |rounds|
  {
    rounds == [] ||
    (&& BusBatch(rounds[0].batch)
     && (s.have ==> rounds[0].batch[0].seqNo >= s.nextSeq)
     && (forall i | 0 <= i < |rounds[0].probes| :: IsEcho(rounds[0].probes[i]))
     && Orderly(AfterBatch(rounds[0].batch), rounds[1..]))
  }

  /** All records of a connection, in wire order. */
  function Records(s: Sender, rounds: seq<Round>): seq<Frame>
    requires Orderly(s, rounds)
    decreases |rounds|
  {
    if rounds == [] then []
    else RoundRecords(s, rounds[0]) + Records(AfterBatch(rounds[0].batch), rounds[1..])
  }

  lemma {:induction false} NoRounds(s: Sender)
    ensures Orderly(s, []) && Records(s, []) == []
  {}

  /** A connection is its first round and the others. */
  lemma {:induction false} RoundByRound(s: Sender, rounds: seq<Round>)
    requires rounds != []
    ensures Orderly(s, [rounds[0]]) ==> BusBatch(rounds[0].batch)
    ensures Orderly(s, rounds) <==>
            && Orderly(s, [rounds[0]]) && rounds[0].batch != []
            && Orderly(AfterBatch(rounds[0].batch), rounds[1..])
    ensures Orderly(s, rounds) ==>
              Records(s, rounds) == RoundRecords(s, rounds[0]) + Records(AfterBatch(rounds[0].batch), rounds[1..])
  {
    hide RoundRecords;
    assert [rounds[0]][1..] == [];
  }

  // ---------------------------------------------------------------------
  // The holes, counted from the batches alone

  /** Sequence numbers skipped between neighbours inside one batch. */
  function Inside(fs: seq<Frame>): int {
    if |fs| < 2 then 0 else (fs[1].seqNo - fs[0].seqNo - 1) + Inside(fs[1..])
  }

  function JumpsInside(fs: seq<Frame>): nat {
    if |fs| < 2 then 0 else (if fs[1].seqNo > fs[0].seqNo + 1 then 1 else 0) + JumpsInside(fs[1..])
  }

  function HoleBefore(s: Sender, batch: seq<Frame>): int
    requires batch != []
  {
    if s.have then batch[0].seqNo - s.nextSeq else 0
  }

  function HolesBetween(s: Sender, rounds: seq<Round>): int
    requires Orderly(s, rounds)
    decreases |rounds|
  {
    if rounds == [] then 0
    else HoleBefore(s, rounds[0].batch) + HolesBetween(AfterBatch(rounds[0].batch), rounds[1..])
  }

  function HolesInside(rounds: seq<Round>): int {
    if rounds == [] then 0 else Inside(rounds[0].batch) + HolesInside(rounds[1..])
  }

  function FrameCount(rounds: seq<Round>): nat {
    if rounds == [] then 0 else |rounds[0].batch| + FrameCount(rounds[1..])
  }

  /** The first sequence number a connection is accountable for. */
  function FirstSeq(s: Sender, rounds: seq<Round>): nat
    requires Orderly(s, rounds) && rounds != []
  {
    if s.have then s.nextSeq else rounds[0].batch[0].seqNo
  }

  // ---------------------------------------------------------------------
  // One batch, one round, one connection

  lemma {:induction false} BusBatchTail(fs: seq<Frame>)
    requires BusBatch(fs) && |fs| > 1
    ensures BusBatch(fs[1..])
  {
    var rest := fs[1..];
    forall i | 0 < i < |rest| ensures rest[i - 1].seqNo < rest[i].seqNo {
      assert rest[i] == fs[i + 1] && rest[i - 1] == fs[i];
    }
  }

  lemma {:induction false} BooksAfterFrames(b: Books, fs: seq<Frame>)
    requires BusBatch(fs) && (b.have ==> b.next <= fs[0].seqNo)
    ensures var jump := if b.have then fs[0].seqNo - b.next else 0;
            var a := ObservedAll(b, fs);
            && a.silentLost == b.silentLost + jump + Inside(fs) && Inside(fs) >= 0
            && a.silentJumps == b.silentJumps + JumpsInside(fs) + (if jump > 0 then 1 else 0)
            && a == b.(silentLost := a.silentLost, silentJumps := a.silentJumps,
                       frames := b.frames + |fs|, next := LastSeq(fs) + 1, have := true)
    decreases |fs|
  {
    var b1, rest := Observed(b, fs[0]), fs[1..];
    if rest != [] {
      BusBatchTail(fs);
      BooksAfterFrames(b1, rest);
      assert LastSeq(rest) == LastSeq(fs);
    }
  }

  lemma {:induction false} BooksAfterProbes(b: Books, fs: seq<Frame>)
    requires forall i | 0 <= i < |fs| :: IsEcho(fs[i])
    ensures ObservedAll(b, fs) == b.(echoes := b.echoes + |fs|)
    decreases |fs|
  {
    if fs != [] { BooksAfterProbes(Observed(b, fs[0]), fs[1..]); }
  }

  /** Before a round the consumer either starts afresh or expects exactly what
      the gateway would send next. */
  predicate InStep(s: Sender, b: Books) { b.have ==> s.have && b.next == s.nextSeq }

  lemma {:induction false} BooksAfterMarker(s: Sender, b: Books, r: Round)
    requires InStep(s, b) && Orderly(s, [r])
    ensures var hole := HoleBefore(s, r.batch);
            var a := ObservedAll(b, Marker(s, r.batch, r.now));
            && hole >= 0
            && (a.have ==> a.next == r.batch[0].seqNo)
            && a.reportedLost == b.reportedLost + (if s.reconnected then 0 else hole)
            && a.absentFrames == b.absentFrames + (if s.reconnected then hole else 0)
            && a.frames == b.frames && a.silentLost == b.silentLost && a.silentJumps == b.silentJumps
            && a.markers == b.markers + |Marker(s, r.batch, r.now)|
  {
    if s.have && r.batch[0].seqNo > s.nextSeq {
      var reason := if s.reconnected then CONSUMER_ABSENT else CONSUMER_OVERRUN;
      GapRoundTrip(s.nextSeq, r.batch[0].seqNo - s.nextSeq, reason, r.now);
      var m := Marker(s, r.batch, r.now);
      assert m[1..] == [];
    }
  }

  lemma {:induction false} BooksAfterRound(s: Sender, b: Books, r: Round)
    requires InStep(s, b) && Orderly(s, [r])
    ensures var hole := HoleBefore(s, r.batch);
            var a := ObservedAll(b, RoundRecords(s, r));
            && a.have && a.next == LastSeq(r.batch) + 1
            && a.frames == b.frames + |r.batch|
            && a.reportedLost == b.reportedLost + (if s.reconnected then 0 else hole)
            && a.absentFrames == b.absentFrames + (if s.reconnected then hole else 0)
            && a.silentLost == b.silentLost + Inside(r.batch) && Inside(r.batch) >= 0
            && a.silentJumps == b.silentJumps + JumpsInside(r.batch)
            && a.markers == b.markers + |Marker(s, r.batch, r.now)|
  {
    var m := Marker(s, r.batch, r.now);
    var b1 := ObservedAll(b, m);
    BooksAfterMarker(s, b, r);
    BooksAfterFrames(b1, r.batch);
    BooksAfterProbes(ObservedAll(b1, r.batch), r.probes);
    ObservedConcat(b, m + r.batch, r.probes);
    ObservedConcat(b, m, r.batch);
  }

  /** Loss accounting over a whole connection. The counts of the markers sum to
      exactly the holes between batches - absences in the first round after a
      reconnect, overruns ever after - the silent loss to exactly the holes
      inside batches, and every sequence number from the first accountable one
      up to the next expected one is booked exactly once. */
  lemma {:induction false} ConnectionBooks(s: Sender, b: Books, rounds: seq<Round>)
    requires Orderly(s, rounds) && InStep(s, b) && rounds != []
    ensures var a := ObservedAll(b, Records(s, rounds));
            var awayHole := if s.reconnected then HoleBefore(s, rounds[0].batch) else 0;
            && a.frames == b.frames + FrameCount(rounds)
            && a.absentFrames == b.absentFrames + awayHole
            && a.reportedLost == b.reportedLost + HolesBetween(s, rounds) - awayHole
            && a.silentLost == b.silentLost + HolesInside(rounds) && HolesInside(rounds) >= 0
            && a.have
            && a.next - FirstSeq(s, rounds) ==
               FrameCount(rounds) + HolesBetween(s, rounds) + HolesInside(rounds)
    decreases |rounds|
  {
    var r, s1 := rounds[0], AfterBatch(rounds[0].batch);
    var rest := rounds[1..];
    assert Orderly(s, [r]) by { assert [r][1..] == []; }
    BooksAfterRound(s, b, r);
    ObservedConcat(b, RoundRecords(s, r), Records(s1, rest));
    SpanOfBatch(r.batch);
    if rest != [] {
      ConnectionBooks(s1, ObservedAll(b, RoundRecords(s, r)), rest);
    }
  }

  /** What `total_lost` says about a connection it was asked about once before and
      once after: every hole, inside or between batches, except an absence. */
  lemma {:induction false} TotalLossIsHoles(s: Sender, b: Books, rounds: seq<Round>)
    requires Orderly(s, rounds) && InStep(s, b) && rounds != []
    ensures var away := if s.reconnected then HoleBefore(s, rounds[0].batch) else 0;
            TotalLoss(ObservedAll(b, Records(s, rounds))) - TotalLoss(b) ==
            HolesBetween(s, rounds) + HolesInside(rounds) - away
  {
    hide Orderly;
    hide ObservedAll;
    ConnectionBooks(s, b, rounds);
  }

  lemma {:induction false} SpanOfBatch(fs: seq<Frame>)
    requires BusBatch(fs)
    ensures LastSeq(fs) + 1 - fs[0].seqNo == |fs| + Inside(fs)
    decreases |fs|
  {
    if |fs| > 1 {
      var rest := fs[1..];
      BusBatchTail(fs);
      SpanOfBatch(rest);
    }
  }

  // ---------------------------------------------------------------------
  // When is loss silent?

  /** Consecutive sequence numbers, as far as the batch goes. */
  predicate Contiguous(fs: seq<Frame>) {
    forall i | 0 < i < |fs| :: fs[i].seqNo == fs[i - 1].seqNo + 1
  }

  lemma {:induction false} ContiguousTail(fs: seq<Frame>)
    requires |fs| > 1
    ensures Contiguous(fs) <==> fs[1].seqNo == fs[0].seqNo + 1 && Contiguous(fs[1..])
  {
    var rest := fs[1..];
    if Contiguous(fs) {
      forall i | 0 < i < |rest| ensures rest[i].seqNo == rest[i - 1].seqNo + 1 {
        assert rest[i] == fs[i + 1] && rest[i - 1] == fs[i];
      }
    }
    if fs[1].seqNo == fs[0].seqNo + 1 && Contiguous(rest) {
      forall i | 0 < i < |fs| ensures fs[i].seqNo == fs[i - 1].seqNo + 1 {
        if i > 1 { assert rest[i - 1].seqNo == rest[i - 2].seqNo + 1; }
      }
    }
  }

  lemma {:induction false} InsideZeroIffContiguous(fs: seq<Frame>)
    requires BusBatch(fs)
    ensures Inside(fs) >= 0 && (Inside(fs) == 0 <==> Contiguous(fs))
    ensures JumpsInside(fs) == 0 <==> Contiguous(fs)
    decreases |fs|
  {
    if |fs| > 1 {
      var rest := fs[1..];
      BusBatchTail(fs);
      InsideZeroIffContiguous(rest);
      ContiguousTail(fs);
    }
  }

  predicate AllContiguous(rounds: seq<Round>) { forall i | 0 <= i < |rounds| :: Contiguous(rounds[i].batch) }

  /** "A jump without a marker must not happen" is true of a connection exactly
      when every batch handed to `note_gap` is contiguous. */
  lemma {:induction false} SilentLossIffBatchHasHole(s: Sender, b: Books, rounds: seq<Round>)
    requires Orderly(s, rounds) && InStep(s, b)
    ensures var a := ObservedAll(b, Records(s, rounds));
            && a.silentJumps >= b.silentJumps
            && (a.silentJumps == b.silentJumps <==> AllContiguous(rounds))
    decreases |rounds|
  {
    if rounds != [] {
      var r, s1 := rounds[0], AfterBatch(rounds[0].batch);
      var rest := rounds[1..];
      assert Orderly(s, [r]) by { assert [r][1..] == []; }
      BooksAfterRound(s, b, r);
      ObservedConcat(b, RoundRecords(s, r), Records(s1, rest));
      InsideZeroIffContiguous(r.batch);
      SilentLossIffBatchHasHole(s1, ObservedAll(b, RoundRecords(s, r)), rest);
      assert AllContiguous(rounds) <==> Contiguous(r.batch) && AllContiguous(rest) by {
        assert forall i | 0 <= i < |rest| :: rest[i] == rounds[i + 1];
        assert forall i | 0 < i < |rounds| :: rounds[i] == rest[i - 1];
      }
    }
  }

  /** A frame of a quiet bus, for examples. */
  function BusFrame(n: u64): Frame { Frame(n, 0, 0, 1, 0, 0, 0, 0, [0, 0, 0, 0, 0, 0, 0, 0]) }

  /** The claim fails on a batch with a hole in it: no marker, one silent jump. */
  lemma {:induction false} SilentJumpExists() returns (rounds: seq<Round>)
    ensures Orderly(Sender(0, false, false), rounds)
    ensures var a := ObservedAll(EMPTY, Records(Sender(0, false, false), rounds));
            a.silentJumps == 1 && a.silentLost == 4 && a.markers == 0
  {
    var f, g := BusFrame(0), BusFrame(5);
    rounds := [Round([f, g], 0, [])];
    assert rounds[1..] == [];
    assert Records(Sender(0, false, false), rounds) == [f, g];
    assert [f, g][1..] == [g] && [g][1..] == [];
    assert ObservedAll(EMPTY, [f, g]) == ObservedAll(Observed(EMPTY, f), [g]);
    assert ObservedAll(Observed(EMPTY, f), [g]) == Observed(Observed(EMPTY, f), g);
  }
}
