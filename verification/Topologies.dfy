/** From either feed to the consumer's books: with no linger, sequential histories
    never give the consumer a silent jump, and what is reported lost is exactly
    what the feed lost. */
module Topologies {
  import opened Wire
  import opened Layout
  import opened BroadcastRing
  import opened SequentialRing
  import opened Feeds
  import opened GapTracker
  import opened LossAccounting
  import opened Connection

  /** The memory image of a bus frame. */
  predicate BusWords(w: Words) { WordSized(w) && !IsControl(WordsFrame(w)) }

  predicate AllBus(ws: seq<Words>) { forall i | 0 <= i < |ws| :: BusWords(ws[i]) }

  /** Sources offer bus frames, and fewer than 2^64 of them. */
  predicate BusHistory(ops: seq<Op>) {
    && (forall i | 0 <= i < |ops| :: ops[i].Push? ==> AllBus(ops[i].frames))
    && Offered(ops) <= WORD_LIMIT
  }

  function Offered(ops: seq<Op>): nat {
    if ops == [] then 0
    else Offered(ops[..|ops| - 1]) + if ops[|ops| - 1].Push? then |ops[|ops| - 1].frames| else 0
  }

  function FramesOfWords(ws: seq<Words>): (fs: seq<Frame>)
    requires AllBus(ws)
    ensures |fs| == |ws|
    ensures forall i | 0 <= i < |fs| :: fs[i] == WordsFrame(ws[i])
  {
    seq(|ws|, i requires 0 <= i < |ws| => WordsFrame(ws[i]))
  }

  lemma {:induction false} StampKeepsBus(w: Words, pos: nat)
    requires BusWords(w) && pos < WORD_LIMIT
    ensures BusWords(Stamp(w, pos)) && WordsFrame(Stamp(w, pos)) == WordsFrame(w).(seqNo := pos)
  {}

  lemma {:induction false} HistoryPrefix(ops: seq<Op>)
    requires BusHistory(ops) && ops != []
    ensures BusHistory(ops[..|ops| - 1])
  {
    var init := ops[..|ops| - 1];
    forall i | 0 <= i < |init| ensures init[i].Push? ==> AllBus(init[i].frames) { assert init[i] == ops[i]; }
  }

  lemma {:induction false} LogIsBus(cap: nat, ops: seq<Op>)
    requires cap > 0 && BusHistory(ops)
    ensures var log := RingRun(cap, ops).view.log;
            |log| == Offered(ops) && AllBus(log) && Numbered(log)
  {
    FeedsAgree(cap, ops);
    if ops != [] {
      var init, last := ops[..|ops| - 1], ops[|ops| - 1];
      HistoryPrefix(ops);
      LogIsBus(cap, init);
      hide AllBus;
      hide Numbered;
      if last.Push? {
        StampedIsBus(RingRun(cap, init).view.log, last.frames);
      }
    }
  }

  lemma {:induction false} StampedIsBus(before: seq<Words>, frames: seq<Words>)
    requires AllBus(before) && AllBus(frames) && |before| + |frames| <= WORD_LIMIT
    ensures AllBus(before + StampAll(frames, |before|))
  {
    hide WordsFrame;
    var log := before + StampAll(frames, |before|);
    forall p | 0 <= p < |log| ensures BusWords(log[p]) {
      if p >= |before| { StampKeepsBus(frames[p - |before|], p); }
    }
  }

  /** `rounds` are the passes of an egress without linger on these pops: one
      round for each pop that returned something, probes behind it or not. */
  ghost predicate Served(rounds: seq<Round>, outs: seq<seq<Words>>) {
    if outs == [] then rounds == []
    else
      var init, last := outs[..|outs| - 1], outs[|outs| - 1];
      if last == [] then Served(rounds, init)
      else rounds != [] && Served(rounds[..|rounds| - 1], init) && Carries(rounds[|rounds| - 1], last)
  }

  /** A round with these frames as its batch. */
  ghost predicate Carries(round: Round, out: seq<Words>) {
    && AllBus(out) && round.batch == FramesOfWords(out)
    && (forall i | 0 <= i < |round.probes| :: IsEcho(round.probes[i]))
  }

  /** A slice of the numbered log is one contiguous batch of bus frames. */
  lemma {:induction false} SliceIsContiguous(log: seq<Words>, lo: nat, hi: nat)
    requires AllBus(log) && Numbered(log) && lo < hi <= |log|
    ensures AllBus(log[lo..hi])
    ensures var fs := FramesOfWords(log[lo..hi]);
            BusBatch(fs) && Contiguous(fs) && fs[0].seqNo == lo && LastSeq(fs) == hi - 1 && |fs| == hi - lo
  {
    var ws := log[lo..hi];
    forall i | 0 <= i < |ws| ensures ws[i] == log[lo + i] && BusWords(ws[i]) && ws[i][0] == lo + i {}
    var fs := FramesOfWords(ws);
    forall i | 0 <= i < |fs| ensures fs[i].seqNo == lo + i && !IsControl(fs[i]) { assert fs[i] == WordsFrame(ws[i]); }
  }

  /** The rounds so far are orderly and contiguous, and stand where the cursor stands. */
  ghost predicate InTune(rounds: seq<Round>, r: RingView) {
    && Filled(rounds) && Orderly(FIRST_CONNECTION, rounds) && AllContiguous(rounds)
    && FrameCount(rounds) == r.delivered
    && r.cursor.next == r.delivered + r.cursor.missed
    && (if rounds == [] then r.cursor.next == 0 else SenderAfter(FIRST_CONNECTION, rounds).nextSeq == r.cursor.next)
  }

  lemma {:induction false} AnotherRound(rounds: seq<Round>, next: nat, round: Round, lo: nat)
    requires Filled(rounds) && Orderly(FIRST_CONNECTION, rounds) && AllContiguous(rounds)
    requires rounds != [] ==> SenderAfter(FIRST_CONNECTION, rounds).nextSeq == next
    requires BusBatch(round.batch) && Contiguous(round.batch) && round.batch[0].seqNo == lo >= next
    requires forall i | 0 <= i < |round.probes| :: IsEcho(round.probes[i])
    ensures Filled(rounds + [round]) && Orderly(FIRST_CONNECTION, rounds + [round]) && AllContiguous(rounds + [round])
    ensures FrameCount(rounds + [round]) == FrameCount(rounds) + |round.batch|
    ensures SenderAfter(FIRST_CONNECTION, rounds + [round]).nextSeq == LastSeq(round.batch) + 1
  {
    assert Orderly(SenderAfter(FIRST_CONNECTION, rounds), [round]) by { assert [round][1..] == []; }
    OrderlySnoc(FIRST_CONNECTION, rounds, round);
    var all := rounds + [round];
    forall i | 0 <= i < |all| ensures Contiguous(all[i].batch) {
      if i < |rounds| { assert all[i] == rounds[i]; }
    }
  }

  lemma {:induction false} QuietStep(cap: nat, r: RingView, op: Op, rounds: seq<Round>)
    requires cap > 0 && r.cursor.next <= |r.log| && InTune(rounds, r) && RingStep(r, cap, op).out == []
    ensures InTune(rounds, RingStep(r, cap, op).view)
  {}

  lemma {:induction false} BusyStep(cap: nat, r: RingView, op: Op, rounds: seq<Round>, round: Round)
    requires cap > 0 && r.cursor.next <= |r.log| && InTune(rounds, r) && RingStep(r, cap, op).out != []
    requires AllBus(r.log) && Numbered(r.log) && Carries(round, RingStep(r, cap, op).out)
    ensures InTune(rounds + [round], RingStep(r, cap, op).view)
  {
    hide RingStep;
    var lo, hi := PopIsSlice(cap, r, op);
    SliceCarried(r.log, lo, hi, round);
    hide Carries;
    hide AllBus;
    hide Numbered;
    hide Orderly;
    hide AllContiguous;
    hide FrameCount;
    hide BusBatch;
    hide Contiguous;
    hide SenderAfter;
    hide Filled;
    AnotherRound(rounds, r.cursor.next, round, lo);
  }

  /** A pop that returned something is a slice of the log at or past the cursor. */
  lemma {:induction false} PopIsSlice(cap: nat, r: RingView, op: Op) returns (lo: nat, hi: nat)
    requires cap > 0 && r.cursor.next <= |r.log| && RingStep(r, cap, op).out != []
    ensures r.cursor.next <= lo < hi <= |r.log| && RingStep(r, cap, op).out == r.log[lo..hi]
    ensures RingStep(r, cap, op).view ==
            r.(cursor := Cursor(hi, r.cursor.missed + (lo - r.cursor.next)), delivered := r.delivered + (hi - lo))
  {
    lo := ResumeAt(r.cursor.next, |r.log|, cap, op.room);
    hi := lo + |RingStep(r, cap, op).out|;
  }

  lemma {:induction false} SliceCarried(log: seq<Words>, lo: nat, hi: nat, round: Round)
    requires AllBus(log) && Numbered(log) && lo < hi <= |log| && Carries(round, log[lo..hi])
    ensures BusBatch(round.batch) && Contiguous(round.batch)
    ensures round.batch[0].seqNo == lo && LastSeq(round.batch) == hi - 1 && |round.batch| == hi - lo
    ensures forall i | 0 <= i < |round.probes| :: IsEcho(round.probes[i])
  {
    SliceIsContiguous(log, lo, hi);
  }

  lemma {:induction false} NothingServed(cap: nat)
    ensures InTune([], RingRun(cap, []).view)
  {}

  lemma {:induction false} RoundsStayInTune(cap: nat, ops: seq<Op>, rounds: seq<Round>)
    requires cap > 0 && BusHistory(ops) && Served(rounds, RingRun(cap, ops).outs)
    ensures InTune(rounds, RingRun(cap, ops).view)
    decreases |ops|
  {
    hide BusHistory;
    hide RingStep;
    hide InTune;
    hide Carries;
    hide AllBus;
    hide Numbered;
    hide RingRun;
    if ops == [] {
      NothingServed(cap);
      RingRunUnfolds(cap, ops);
    } else {
      var init, last := ops[..|ops| - 1], ops[|ops| - 1];
      HistoryPrefix(ops);
      LogIsBus(cap, init);
      RingRunUnfolds(cap, ops);
      var before := RingRun(cap, init);
      var out := RingStep(before.view, cap, last).out;
      ServedUnfolds(rounds, before.outs, out);
      if out == [] {
        RoundsStayInTune(cap, init, rounds);
        QuietStep(cap, before.view, last, rounds);
      } else {
        var some, round := rounds[..|rounds| - 1], rounds[|rounds| - 1];
        RoundsStayInTune(cap, init, some);
        BusyStep(cap, before.view, last, some, round);
        assert some + [round] == rounds;
      }
    }
  }

  lemma {:induction false} RingRunUnfolds(cap: nat, ops: seq<Op>)
    ensures if ops == [] then RingRun(cap, ops).outs == []
            else
              var before := RingRun(cap, ops[..|ops| - 1]);
              var step := RingStep(before.view, cap, ops[|ops| - 1]);
              RingRun(cap, ops) == Ran(step.view, before.outs + [step.out])
  {
    hide RingStep;
  }

  lemma {:induction false} ServedUnfolds(rounds: seq<Round>, outs: seq<seq<Words>>, out: seq<Words>)
    requires Served(rounds, outs + [out])
    ensures if out == [] then Served(rounds, outs)
            else rounds != [] && Served(rounds[..|rounds| - 1], outs) && Carries(rounds[|rounds| - 1], out)
  {
    assert (outs + [out])[..|outs|] == outs;
  }

  lemma {:induction false} HistorySplits(earlier: seq<Op>, later: seq<Op>)
    requires BusHistory(earlier + later)
    ensures BusHistory(earlier)
    decreases |later|
  {
    if later == [] {
      assert earlier + later == earlier;
    } else {
      assert (earlier + later)[..|earlier + later| - 1] == earlier + later[..|later| - 1];
      HistoryPrefix(earlier + later);
      HistorySplits(earlier, later[..|later| - 1]);
    }
  }

  /** For every history of pushes and pops on either feed, whatever it dropped,
      and every connection on it: `before` are the rounds of all earlier
      connections, `rounds` those of this one, `away` says whether it followed a
      disconnect. The consumer never sees a silent jump, counts every frame
      delivered to it, and is told of every frame the feed lost meanwhile - as an
      absence before its first batch if it was away, as an overrun ever after.
      Only losses before the very first frame go unreported. */
  lemma {:induction false} ReportedLossIsFeedLoss(
    cap: nat, earlier: seq<Op>, later: seq<Op>, before: seq<Round>, rounds: seq<Round>, away: bool)
    requires cap > 0 && BusHistory(earlier + later)
    requires Served(before, QueueRun(cap, earlier).outs)
    requires Served(before + rounds, QueueRun(cap, earlier + later).outs)
    ensures Filled(before)
    ensures var s := SenderAfter(FIRST_CONNECTION, before).(reconnected := away);
            Orderly(s, rounds) &&
            var books := ObservedAll(EMPTY, Records(s, rounds));
            var r0, r1 := RingRun(cap, earlier).view, RingRun(cap, earlier + later).view;
            && books.silentJumps == 0 && books.silentLost == 0
            && books.frames == r1.delivered - r0.delivered
            && books.frames == QueueRun(cap, earlier + later).view.popped - QueueRun(cap, earlier).view.popped
            && (rounds != [] ==>
                  && books.next == r1.cursor.next
                  && books.absentFrames == (if away then HoleBefore(s, rounds[0].batch) else 0)
                  && books.reportedLost + books.absentFrames ==
                     r1.cursor.missed - if before == [] then FirstSeq(s, rounds) else r0.cursor.missed)
  {
    hide Mirrored;
    hide Served;
    hide BusHistory;
    hide QueueRun;
    hide RingRun;
    hide ObservedAll;
    hide Records;
    hide HolesBetween;
    hide HolesInside;
    FeedsAgree(cap, earlier);
    FeedsAgree(cap, earlier + later);
    HistorySplits(earlier, later);
    RoundsStayInTune(cap, earlier, before);
    RoundsStayInTune(cap, earlier + later, before + rounds);
    OrderlySuffix(FIRST_CONNECTION, before, rounds);
    OrderlyEitherWay(SenderAfter(FIRST_CONNECTION, before), rounds, away);
    ContiguousSuffix(before, rounds);
    hide Orderly;
    var s := SenderAfter(FIRST_CONNECTION, before).(reconnected := away);
    SilentLossIffBatchHasHole(s, EMPTY, rounds);
    if rounds == [] {
      NoRecords(s);
      assert before + rounds == before;
    } else {
      ConnectionBooks(s, EMPTY, rounds);
      BooksEndAtSender(s, EMPTY, rounds);
      NoHolesInside(rounds);
      assert SenderAfter(s, rounds) == SenderAfter(FIRST_CONNECTION, before + rounds);
    }
  }

  lemma {:induction false} NoRecords(s: Sender)
    ensures Orderly(s, []) && ObservedAll(EMPTY, Records(s, [])) == EMPTY
  {}

  lemma {:induction false} ContiguousSuffix(before: seq<Round>, rounds: seq<Round>)
    requires Filled(before + rounds) && AllContiguous(before + rounds)
    ensures Filled(rounds) && AllContiguous(rounds)
  {
    forall i | 0 <= i < |rounds| ensures rounds[i].batch != [] && Contiguous(rounds[i].batch) {
      assert rounds[i] == (before + rounds)[|before| + i];
    }
  }

  lemma {:induction false} NoHolesInside(rounds: seq<Round>)
    requires AllContiguous(rounds) && forall i | 0 <= i < |rounds| :: BusBatch(rounds[i].batch)
    ensures HolesInside(rounds) == 0
    decreases |rounds|
  {
    if rounds != [] {
      InsideZeroIffContiguous(rounds[0].batch);
      NoHolesInside(rounds[1..]);
    }
  }

  lemma {:induction false} BooksEndAtSender(s: Sender, b: Books, rounds: seq<Round>)
    requires Filled(rounds) && rounds != [] && Orderly(s, rounds) && InStep(s, b)
    ensures ObservedAll(b, Records(s, rounds)).next == SenderAfter(s, rounds).nextSeq
    ensures forall i | 0 <= i < |rounds| :: BusBatch(rounds[i].batch)
    decreases |rounds|
  {
    RoundByRound(s, rounds);
    hide Orderly;
    hide Records;
    hide RoundRecords;
    hide ObservedAll;
    hide BusBatch;
    hide Marker;
    hide HoleBefore;
    hide Inside;
    hide JumpsInside;
    var r, s1, rest := rounds[0], AfterBatch(rounds[0].batch), rounds[1..];
    BooksAfterRound(s, b, r);
    ObservedConcat(b, RoundRecords(s, r), Records(s1, rest));
    if rest == [] {
      NoRounds(s1);
      NothingObserved(ObservedAll(b, RoundRecords(s, r)));
    } else {
      BooksEndAtSender(s1, ObservedAll(b, RoundRecords(s, r)), rest);
      forall i | 0 <= i < |rounds| ensures BusBatch(rounds[i].batch) {
        if i > 0 { assert rounds[i] == rest[i - 1]; }
      }
    }
  }

  lemma {:induction false} NothingObserved(b: Books)
    ensures ObservedAll(b, []) == b
  {}

  /** A connection's books, from its first sequence number to its last. */
  lemma {:induction false} ConnectionSummary(s: Sender, rounds: seq<Round>)
    requires Filled(rounds) && rounds != [] && Orderly(s, rounds)
    ensures var books := ObservedAll(EMPTY, Records(s, rounds));
            && books.frames == LossAccounting.FrameCount(rounds)
            && books.next == LastSeq(rounds[|rounds| - 1].batch) + 1
            && books.absentFrames == (if s.reconnected then HoleBefore(s, rounds[0].batch) else 0)
            && books.next - FirstSeq(s, rounds) ==
               books.frames + books.reportedLost + books.absentFrames + books.silentLost
            && (books.silentJumps == 0 <==> AllContiguous(rounds))
  {
    hide Orderly;
    hide ObservedAll;
    hide Records;
    hide HolesBetween;
    hide HolesInside;
    hide LossAccounting.FrameCount;
    hide AllContiguous;
    ConnectionBooks(s, EMPTY, rounds);
    BooksEndAtSender(s, EMPTY, rounds);
    SilentLossIffBatchHasHole(s, EMPTY, rounds);
  }
}
