/** From the concurrent ring to the consumer's books: in every interleaving, what
    a reader missed is what its consumer is told or can see to be missing. */
module RingToBooks {
  import opened Wire
  import opened Layout
  import opened BroadcastRing
  import opened RingInvariant
  import opened RingTheorems
  import opened RingBatches
  import opened GapTracker
  import opened LossAccounting
  import opened Connection
  import opened Topologies

  // ---------------------------------------------------------------------
  // What the ring hands over

  /** Sources offer bus frames, and fewer than 2^64 of them. */
  ghost predicate BusLog(log: seq<Entry>) {
    && |log| <= WORD_LIMIT
    && forall p | 0 <= p < |log| :: BusWords(log[p].frame)
  }

  /** The rounds carry the frames whose memory images the reader accepted, cut
      into batches in any way. */
  ghost predicate Carried(rounds: seq<Round>, delivered: seq<Delivery>) {
    && Filled(rounds) && OnlyProbes(rounds)
    && |Flat(rounds)| == |delivered|
    && forall i | 0 <= i < |delivered| :: FrameWords(Flat(rounds)[i]) == delivered[i].words
  }

  /** A frame is determined by its memory image. */
  lemma {:induction false} ImageOfFrame(f: Frame)
    ensures WordSized(FrameWords(f)) && WordsFrame(FrameWords(f)) == f
  {
    StampedImage(f, f.seqNo);
    assert Stamp(FrameWords(f), f.seqNo) == FrameWords(f);
  }

  lemma {:induction false} DeliveriesRise(states: seq<State>, steps: seq<Step>, n: nat, r: nat, fs: seq<Frame>)
    requires Behavior(states, steps) && n < |states| && r < |states[n].readers| && BusLog(states[n].core.log)
    requires var got := states[n].readers[r].delivered;
             |fs| == |got| && forall i | 0 <= i < |got| :: FrameWords(fs[i]) == got[i].words
    ensures forall i | 0 <= i < |fs| :: fs[i].seqNo == states[n].readers[r].delivered[i].pos
    ensures Rising(fs, 0)
  {
    var log, got := states[n].core.log, states[n].readers[r].delivered;
    NoTornReads(states, steps, n, r);
    BehaviorKeeps(states, steps, n);
    assert ReaderOk(states[n].core, states[n].readers[r]);
    forall i | 0 <= i < |fs| ensures fs[i].seqNo == got[i].pos && !IsControl(fs[i]) {
      assert FrameWords(fs[i]) == got[i].words;
      ImageOfFrame(fs[i]);
      StampKeepsBus(log[got[i].pos].frame, got[i].pos);
    }
  }

  /** In every interleaving of producers and readers, and for every way of cutting
      a reader's frames into batches and connections: take the connection that
      carried what reader `r` accepted between moments `m` and `n`, after the
      rounds of all connections before it. Its consumer counts every one of these
      frames, and what the reader missed is what the markers report, as overrun
      or absence, plus what the tracker sees as silent loss, give or take what was
      missed after the last frame of either stretch. */
  lemma {:induction false} MissedIsBooked(
    states: seq<State>, steps: seq<Step>, m: nat, n: nat, r: nat, before: seq<Round>, rounds: seq<Round>, away: bool)
    requires Behavior(states, steps) && m <= n < |states| && BusLog(states[n].core.log)
    requires r < |states[m].readers| && r < |states[n].readers|
    requires states[m].readers[r].delivered < states[n].readers[r].delivered
    requires Carried(before, states[m].readers[r].delivered)
    requires Carried(rounds, states[n].readers[r].delivered[|states[m].readers[r].delivered|..])
    ensures var s := SenderAfter(FIRST_CONNECTION, before).(reconnected := away);
            var a, b := states[m].readers[r], states[n].readers[r];
            var first, last := b.delivered[|a.delivered|].pos, b.delivered[|b.delivered| - 1].pos;
            && Orderly(s, rounds) && rounds != []
            && (var books := ObservedAll(EMPTY, Records(s, rounds));
                && books.frames == |b.delivered| - |a.delivered|
                && books.next == last + 1
                && books.absentFrames == (if away then HoleBefore(s, rounds[0].batch) else 0)
                && (if before == []
                    then b.missed == (first - b.start) + books.reportedLost + books.silentLost + (b.next - books.next)
                    else b.missed - a.missed + (a.next - s.nextSeq) ==
                         books.reportedLost + books.absentFrames + books.silentLost + (b.next - books.next))
                && (books.silentJumps == 0 <==> AllContiguous(rounds)))
  {
    hide *;
    var a, b := states[m].readers[r], states[n].readers[r];
    CarriedTogether(before, rounds, a.delivered, b.delivered);
    CarriedRise(states, steps, n, r, before + rounds);
    StretchIsOrderly(before, rounds, away);
    CursorBooksBalance(states, steps, m, r);
    CursorBooksBalance(states, steps, n, r);
    ReaderHistory(states, steps, m, n, r);
    BooksOfStretch(before, rounds, away, a.delivered, b.delivered);
  }

  lemma {:induction false} CarriedRise(states: seq<State>, steps: seq<Step>, n: nat, r: nat, rounds: seq<Round>)
    requires Behavior(states, steps) && n < |states| && r < |states[n].readers| && BusLog(states[n].core.log)
    requires Carried(rounds, states[n].readers[r].delivered)
    ensures Filled(rounds) && OnlyProbes(rounds) && Rising(Flat(rounds), 0)
    ensures |Flat(rounds)| == |states[n].readers[r].delivered|
    ensures forall i | 0 <= i < |Flat(rounds)| :: Flat(rounds)[i].seqNo == states[n].readers[r].delivered[i].pos
  {
    hide Behavior;
    hide BusLog;
    hide Flat;
    hide Rising;
    DeliveriesRise(states, steps, n, r, Flat(rounds));
  }

  lemma {:induction false} CarriedTogether(x: seq<Round>, y: seq<Round>, d: seq<Delivery>, e: seq<Delivery>)
    requires d < e && Carried(x, d) && Carried(y, e[|d|..])
    ensures Filled(x) && Carried(x + y, e)
  {
    assert e == d + e[|d|..];
    hide Flat;
    CarriedAppend(x, y, d, e[|d|..]);
  }

  /** Rising frames over several connections: this one's rounds are orderly from
      where the earlier ones ended. */
  lemma {:induction false} StretchIsOrderly(before: seq<Round>, rounds: seq<Round>, away: bool)
    requires Filled(before) && Filled(before + rounds) && OnlyProbes(before + rounds)
    requires Rising(Flat(before + rounds), 0)
    ensures Orderly(SenderAfter(FIRST_CONNECTION, before).(reconnected := away), rounds)
  {
    RisingIsOrderly(FIRST_CONNECTION, before + rounds);
    OrderlySuffix(FIRST_CONNECTION, before, rounds);
    OrderlyEitherWay(SenderAfter(FIRST_CONNECTION, before), rounds, away);
  }

  /** The books on a stretch of deliveries, in terms of the positions delivered. */
  lemma {:induction false} BooksOfStretch(
    before: seq<Round>, rounds: seq<Round>, away: bool, d: seq<Delivery>, e: seq<Delivery>)
    requires d < e && Carried(before, d) && Carried(rounds, e[|d|..]) && Filled(before)
    requires Carried(before + rounds, e)
    requires forall i | 0 <= i < |e| :: Flat(before + rounds)[i].seqNo == e[i].pos
    requires Orderly(SenderAfter(FIRST_CONNECTION, before).(reconnected := away), rounds)
    ensures var s := SenderAfter(FIRST_CONNECTION, before).(reconnected := away);
            && rounds != []
            && (before != [] ==> s.have) && (before == [] ==> d == [])
            && (var books := ObservedAll(EMPTY, Records(s, rounds));
                && books.frames == |e| - |d|
                && books.next == e[|e| - 1].pos + 1
                && books.absentFrames == (if away then HoleBefore(s, rounds[0].batch) else 0)
                && books.next - (if before == [] then e[|d|].pos else s.nextSeq) ==
                   books.frames + books.reportedLost + books.absentFrames + books.silentLost
                && (before == [] ==> books.absentFrames == 0)
                && (books.silentJumps == 0 <==> AllContiguous(rounds)))
  {
    var s := SenderAfter(FIRST_CONNECTION, before).(reconnected := away);
    FlatAppend(before, rounds);
    SizeOfCarried(before + rounds, e);
    SizeOfCarried(before, d);
    hide Orderly;
    hide Carried;
    hide ObservedAll;
    hide Records;
    hide Flat;
    hide Filled;
    PositionsOf(before, rounds, d, e);
    ConnectionSummary(s, rounds);
    StartOf(before, rounds, away);
  }

  lemma {:induction false} SizeOfCarried(rounds: seq<Round>, e: seq<Delivery>)
    requires Carried(rounds, e)
    ensures Filled(rounds) && |Flat(rounds)| == |e|
  {
    hide FrameWords;
    hide Flat;
  }

  lemma {:induction false} StartOf(before: seq<Round>, rounds: seq<Round>, away: bool)
    requires Filled(before) && Filled(rounds) && rounds != []
    requires Orderly(SenderAfter(FIRST_CONNECTION, before).(reconnected := away), rounds)
    ensures var s := SenderAfter(FIRST_CONNECTION, before).(reconnected := away);
            && (s.have <==> before != [])
            && FirstSeq(s, rounds) == (if before == [] then rounds[0].batch[0].seqNo else s.nextSeq)
            && (before == [] ==> HoleBefore(s, rounds[0].batch) == 0)
  {
    hide Orderly;
  }

  lemma {:induction false} PositionsOf(before: seq<Round>, rounds: seq<Round>, d: seq<Delivery>, e: seq<Delivery>)
    requires d < e && Carried(before, d) && Carried(rounds, e[|d|..])
    requires Flat(before + rounds) == Flat(before) + Flat(rounds)
    requires |Flat(before + rounds)| == |e|
    requires forall i | 0 <= i < |e| :: Flat(before + rounds)[i].seqNo == e[i].pos
    ensures Filled(rounds) && rounds != [] && FrameCount(rounds) == |e| - |d|
    ensures rounds[0].batch[0].seqNo == e[|d|].pos
    ensures LastSeq(rounds[|rounds| - 1].batch) == e[|e| - 1].pos
  {
    hide FrameWords;
    hide Flat;
    var fs := Flat(rounds);
    SizeOfCarried(before, d);
    SizeOfCarried(rounds, e[|d|..]);
    hide Carried;
    FlatFirst(rounds);
    FlatLast(rounds);
    assert fs[0] == (Flat(before) + fs)[|d|] && fs[|fs| - 1] == (Flat(before) + fs)[|e| - 1];
  }

  lemma {:induction false} CarriedAppend(x: seq<Round>, y: seq<Round>, d: seq<Delivery>, e: seq<Delivery>)
    requires Carried(x, d) && Carried(y, e)
    ensures Carried(x + y, d + e)
  {
    FlatAppend(x, y);
    hide Flat;
    forall i | 0 <= i < |d + e| ensures FrameWords((Flat(x) + Flat(y))[i]) == (d + e)[i].words {
      if i >= |d| { assert (d + e)[i] == e[i - |d|]; }
    }
    assert OnlyProbes(x + y) by {
      forall i | 0 <= i < |x + y| ensures OnlyEchoes((x + y)[i].probes) {
        if i >= |x| { assert (x + y)[i] == y[i - |x|]; }
      }
    }
  }
}
