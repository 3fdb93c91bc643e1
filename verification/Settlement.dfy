/** The gateway's counters and the consumer's books, settled against each other. */
module Settlement {
  import opened Wire
  import opened BatchStream
  import opened GapTracker
  import opened LossAccounting
  import opened Connection
  import opened Egress
  import opened FrameStream
  import opened Consumer
  import opened Topologies

  /** What a consumer that starts afresh makes of some rounds. */
  function BooksOn(start: Sender, rounds: seq<Round>): Books
    requires Orderly(start, rounds)
  {
    ObservedAll(EMPTY, Records(start, rounds))
  }

  /** Once it has everything, a consumer's books show the gateway's own figures
      for that connection, and it expects exactly what the gateway sends next. */
  lemma {:induction false} BooksMatchCounters(start: Sender, rounds: seq<Round>)
    requires Filled(rounds) && Orderly(start, rounds)
    ensures var books, counted := BooksOn(start, rounds), Tallied(start, rounds, |rounds|);
            && InStep(SenderAfter(start, rounds), books)
            && books.frames == counted.framesSent
            && books.markers == counted.gapsSent
            && books.reportedLost == counted.framesLost
  {
    if rounds != [] {
      var init, r := rounds[..|rounds| - 1], rounds[|rounds| - 1];
      assert init + [r] == rounds;
      assert Filled(init);
      OrderlyAppend(start, init, r);
      BooksMatchCounters(start, init);
      TalliedCap(start, init, |rounds|);
      var from := SenderAfter(start, init);
      BooksAfterRound(from, BooksOn(start, init), r);
      OverrunIsReported(from, r);
      ObservedConcat(EMPTY, Records(start, init), RoundRecords(from, r));
      hide ObservedAll;
      hide Records;
      hide Orderly;
      hide RoundRecords;
      hide Marker;
      hide Overrun;
      hide HoleBefore;
      TalliedSnoc(start, init, r);
    }
  }

  lemma {:induction false} OverrunIsReported(s: Sender, r: Round)
    requires Orderly(s, [r])
    ensures Overrun(s, r.batch) == if s.reconnected then 0 else HoleBefore(s, r.batch)
  {}

  lemma {:induction false} TalliedSnoc(start: Sender, init: seq<Round>, r: Round)
    requires Filled(init) && r.batch != []
    ensures Filled(init + [r])
    ensures var from := SenderAfter(start, init);
            Tallied(start, init + [r], |init| + 1) ==
            Plus(Tallied(start, init, |init|), Tally(|r.batch|, |Marker(from, r.batch, r.now)|, Overrun(from, r.batch)))
  {
    hide Marker;
    hide Overrun;
    assert (init + [r])[..|init|] == init;
    TalliedCap(start, init, |init| + 1);
  }

  /** The first rounds of a connection that are whole, and their share of the counters. */
  lemma {:induction false} TalliedWhole(start: Sender, rounds: seq<Round>)
    requires Filled(rounds) && rounds != []
    ensures var init, r := rounds[..|rounds| - 1], rounds[|rounds| - 1];
            var from := SenderAfter(start, init);
            Tallied(start, rounds, |rounds| - 1) ==
            Plus(Tallied(start, init, |init|), Tally(0, |Marker(from, r.batch, r.now)|, Overrun(from, r.batch)))
  {
    hide Marker;
    hide Overrun;
  }

  /** The rounds a finished connection carried whole are what its bytes parse to. */
  lemma {:induction false} BytesParseToWholeRounds(p: Past)
    requires PastOk(p) && Orderly(p.start, p.rounds)
    ensures Filled(p.rounds[..p.whole]) && Orderly(p.start, p.rounds[..p.whole])
    ensures FramesIn(Parse(p.sent).messages) == Records(p.start, p.rounds[..p.whole])
  {
    hide Parse;
    hide BatchBytes;
    hide Records;
    hide StreamBytes;
    var bs := WireBatches(p.start, p.rounds);
    hide WireBatches;
    OrderlyPrefix(p.start, p.rounds, p.whole);
    WireBatchesPrefix(p.start, p.rounds, p.whole);
    RecordsAreBatches(p.start, p.rounds[..p.whole]);
    if p.whole == |bs| {
      assert bs[..p.whole] == bs;
      ParseAfterPrint(bs);
    } else {
      var whole, last := bs[..p.whole], bs[p.whole];
      var cut :| p.sent == StreamBytes(whole) + cut && cut < BatchBytes(last);
      ParseAfterPrint(whole);
      assert Printable(last);
      ParseOneMore(whole, last, cut);
    }
  }

  /** Bytes in, books out. A consumer that read all bytes a finished connection
      carried has counted exactly the frames the gateway counted as sent on it.
      Its markers and reported losses are the gateway's as well, short only of
      the marker in front of a batch that was cut. */
  lemma {:induction false} ConnectionSettles(p: Past)
    requires PastOk(p) && Orderly(p.start, p.rounds)
    ensures var books := ObservedAll(EMPTY, FramesIn(Parse(p.sent).messages));
            var counted := Tallied(p.start, p.rounds, p.whole);
            && books.frames == counted.framesSent
            && (if p.whole == |p.rounds|
                then books.markers == counted.gapsSent && books.reportedLost == counted.framesLost
                else
                  var from, r := SenderAfter(p.start, p.rounds[..p.whole]), p.rounds[p.whole];
                  && books.markers + |Marker(from, r.batch, r.now)| == counted.gapsSent
                  && books.reportedLost + Overrun(from, r.batch) == counted.framesLost)
  {
    hide Parse;
    hide PastOk;
    hide ObservedAll;
    hide Records;
    hide Orderly;
    hide Marker;
    hide Overrun;
    ProbesOfPast(p);
    BytesParseToWholeRounds(p);
    BooksMatchCounters(p.start, p.rounds[..p.whole]);
    if p.whole == |p.rounds| {
      assert p.rounds[..p.whole] == p.rounds;
    } else {
      TalliedWhole(p.start, p.rounds);
    }
  }

  /** Frames counted by the consumers of some connections, each of which read
      everything that was sent to it. */
  function FramesReceived(ps: seq<Past>): nat {
    if ps == [] then 0
    else FramesReceived(ps[..|ps| - 1]) + ObservedAll(EMPTY, FramesIn(Parse(ps[|ps| - 1].sent).messages)).frames
  }

  lemma {:induction false} FramesSettle(ps: seq<Past>)
    requires PastsOk(ps) && AllOrderly(ps)
    ensures FramesReceived(ps) == TalliedBefore(ps).framesSent
  {
    hide PastOk;
    hide Orderly;
    hide ObservedAll;
    hide Parse;
    hide Tallied;
    if ps != [] {
      FramesSettle(ps[..|ps| - 1]);
      ConnectionSettles(ps[|ps| - 1]);
    }
  }

  /** What the feed handed to this sender so far are rising bus frames. */
  ghost predicate FedInOrder(e: Egress)
    reads e
  {
    Rising(Concat(e.Handled()), 0)
  }

  /** At any point of any run on a feed in order: `frames_sent` is the number of
      frames the consumers of all connections have counted, the current one
      included, if each read everything that was sent to it so far. */
  lemma {:induction false} FramesSentIsFramesReceived(e: Egress)
    requires e.Valid() && FedInOrder(e)
    ensures e.stats.framesSent == FramesReceived(e.Connections())
  {
    hide *;
    OrderlyWhenFedInOrder(e);
    ConnectionsAreOk(e);
    FramesSettle(e.Connections());
  }

  lemma {:induction false} OrderlyWhenFedInOrder(e: Egress)
    requires e.Valid() && FedInOrder(e)
    ensures AllOrderly(e.Connections())
  {
    OrderlyIfRising(e);
  }

  // ---------------------------------------------------------------------
  // One consumer through all its reconnects

  /** The books of one tracker that reads every connection to its end and is
      reset at each connect. */
  function LifeBooks(ps: seq<Past>): Books {
    if ps == [] then EMPTY
    else ObservedAll(LifeBooks(ps[..|ps| - 1]).(have := false), FramesIn(Parse(ps[|ps| - 1].sent).messages))
  }

  /** Everything a set of books accounts for. */
  function Booked(b: Books): nat { b.frames + b.reportedLost + b.absentFrames + b.silentLost }

  /** What no books show: the frames of a cut batch, the holes among them and the
      hole its marker would have reported. */
  function CutSpan(p: Past): int
    requires Filled(p.rounds) && p.whole <= |p.rounds|
  {
    if p.whole == |p.rounds| then 0
    else
      var from, batch := SenderAfter(p.start, p.rounds[..p.whole]), p.rounds[p.whole].batch;
      HoleBefore(from, batch) + |batch| + Inside(batch)
  }

  ghost function CutSpans(ps: seq<Past>): int
    requires PastsOk(ps)
  {
    if ps == [] then 0
    else
      ProbesOfPast(ps[|ps| - 1]);
      CutSpans(ps[..|ps| - 1]) + CutSpan(ps[|ps| - 1])
  }

  /** From the first sequence number the whole rounds account for to the last. */
  lemma {:induction false} SpanOfRounds(start: Sender, b: Books, rounds: seq<Round>)
    requires Filled(rounds) && Orderly(start, rounds) && rounds != [] && !b.have
    ensures var a := ObservedAll(b, Records(start, rounds));
            && a.next == SenderAfter(start, rounds).nextSeq
            && a.next - FirstSeq(start, rounds) == Booked(a) - Booked(b)
  {
    hide ObservedAll;
    hide Records;
    hide Orderly;
    hide HolesBetween;
    hide HolesInside;
    ConnectionBooks(start, b, rounds);
    BooksEndAtSender(start, b, rounds);
  }

  /** One connection: the span from the first sequence number it is accountable
      for to where the sender stands at its end is what the tracker booked on it
      plus what was cut. */
  lemma {:induction false} ConnectionSpan(p: Past, b: Books)
    requires PastOk(p) && Orderly(p.start, p.rounds) && p.rounds != [] && !b.have
    ensures Filled(p.rounds) && p.whole <= |p.rounds|
    ensures var a := ObservedAll(b, FramesIn(Parse(p.sent).messages));
            && SenderAfter(p.start, p.rounds).nextSeq - FirstSeq(p.start, p.rounds) ==
               Booked(a) - Booked(b) + CutSpan(p)
            && (p.whole == |p.rounds| ==> a.next == SenderAfter(p.start, p.rounds).nextSeq)
  {
    hide Parse;
    hide PastOk;
    hide ObservedAll;
    hide Records;
    hide Orderly;
    hide Inside;
    ProbesOfPast(p);
    BytesParseToWholeRounds(p);
    var whole := p.rounds[..p.whole];
    if whole == [] {
      NoRecordsNoChange(p.start, b);
    } else {
      SpanOfRounds(p.start, b, whole);
    }
    if p.whole == |p.rounds| {
      assert whole == p.rounds;
    } else {
      var r := p.rounds[p.whole];
      assert whole + [r] == p.rounds;
      OrderlyAppend(p.start, whole, r);
      OrderlyRound(SenderAfter(p.start, whole), r);
      SpanOfBatch(r.batch);
    }
  }

  lemma {:induction false} NoRecordsNoChange(s: Sender, b: Books)
    ensures Orderly(s, []) && ObservedAll(b, Records(s, [])) == b
  {}

  lemma {:induction false} QuietConnection(p: Past, b: Books)
    requires PastOk(p) && p.rounds == [] && !b.have
    ensures Filled(p.rounds) && p.whole == 0 && CutSpan(p) == 0
    ensures ObservedAll(b, FramesIn(Parse(p.sent).messages)) == b
  {
    hide Parse;
    hide ObservedAll;
    ProbesOfPast(p);
    NoRecordsNoChange(p.start, b);
    BytesParseToWholeRounds(p);
    assert p.rounds[..p.whole] == [];
  }

  /** Over any chain of connections: every sequence number from the first frame
      ever noted to where the sender stands is booked by the tracker or belongs to
      a batch that was cut. */
  lemma {:induction false} LifetimeSpan(ps: seq<Past>, start: Sender)
    requires PastsOk(ps) && AllOrderly(ps) && Chained(ps, start)
    ensures start.have <==> FlatBefore(ps) != []
    ensures if start.have
            then start.nextSeq - FlatBefore(ps)[0].seqNo == Booked(LifeBooks(ps)) + CutSpans(ps)
            else Booked(LifeBooks(ps)) + CutSpans(ps) == 0
    decreases |ps|
  {
    hide *;
    ChainStart(ps, start);
    LifeUnfolds(ps);
    if ps != [] {
      var init, p := ps[..|ps| - 1], ps[|ps| - 1];
      ChainLink(ps, start);
      OrderlyParts(ps);
      LifetimeSpan(init, p.start);
      var b := LifeBooks(init).(have := false);
      ResetKeepsBooked(LifeBooks(init));
      if p.rounds == [] {
        QuietConnection(p, b);
        NothingFlat();
        SenderUnmoved(p.start, p.rounds);
        assert FlatBefore(init) + [] == FlatBefore(init);
      } else {
        ConnectionSpan(p, b);
        SenderMoved(p.start, p.rounds);
        FlatLast(p.rounds);
        FlatFirst(p.rounds);
        FirstSeqIs(p.start, p.rounds);
      }
    }
  }

  lemma {:induction false} LifeUnfolds(ps: seq<Past>)
    requires PastsOk(ps)
    ensures if ps == [] then Booked(LifeBooks(ps)) == 0 && CutSpans(ps) == 0
            else
              var init, p := ps[..|ps| - 1], ps[|ps| - 1];
              && PastsOk(init) && Filled(p.rounds) && p.whole <= |p.rounds|
              && LifeBooks(ps) == ObservedAll(LifeBooks(init).(have := false), FramesIn(Parse(p.sent).messages))
              && CutSpans(ps) == CutSpans(init) + CutSpan(p)
  {
    hide PastOk;
    hide ObservedAll;
    hide Parse;
    if ps != [] { ProbesOfPast(ps[|ps| - 1]); }
  }

  lemma {:induction false} OrderlyParts(ps: seq<Past>)
    requires ps != [] && AllOrderly(ps)
    ensures AllOrderly(ps[..|ps| - 1]) && Orderly(ps[|ps| - 1].start, ps[|ps| - 1].rounds)
  {
    hide Orderly;
    var init := ps[..|ps| - 1];
    forall i | 0 <= i < |init| ensures Orderly(init[i].start, init[i].rounds) { assert init[i] == ps[i]; }
  }

  lemma {:induction false} ResetKeepsBooked(b: Books)
    ensures Booked(b.(have := false)) == Booked(b)
  {}

  lemma {:induction false} SenderUnmoved(s: Sender, rounds: seq<Round>)
    requires rounds == []
    ensures SenderAfter(s, rounds) == s
  {}

  lemma {:induction false} SenderMoved(s: Sender, rounds: seq<Round>)
    requires Filled(rounds) && rounds != []
    ensures SenderAfter(s, rounds).have
  {}

  lemma {:induction false} FirstSeqIs(s: Sender, rounds: seq<Round>)
    requires Orderly(s, rounds) && rounds != []
    ensures rounds[0].batch != []
    ensures FirstSeq(s, rounds) == if s.have then s.nextSeq else rounds[0].batch[0].seqNo
  {}

  /** At any point of any run on a feed in order, for a consumer that comes back
      after every disconnect: from the first frame ever taken to where the sender
      stands, every sequence number is a frame received, a loss reported, an
      absence, a silent loss, or part of a batch that a disconnect cut. */
  lemma {:induction false} LifetimeBooks(e: Egress)
    requires e.Valid() && FedInOrder(e) && Concat(e.Handled()) != []
    ensures PastsOk(e.Connections())
    ensures e.sender.nextSeq - Concat(e.Handled())[0].seqNo ==
            Booked(LifeBooks(e.Connections())) + CutSpans(e.Connections())
    ensures e.pending == [] && e.link.rounds != [] ==> LifeBooks(e.Connections()).next == e.sender.nextSeq
  {
    hide *;
    OrderlyWhenFedInOrder(e);
    ConnectionsAreOk(e);
    var end := SenderOf(e);
    LifetimeSpan(e.Connections(), end);
    if e.pending == [] && e.link.rounds != [] { BooksEndAtCurrent(e); }
  }

  lemma {:induction false} BooksEndAtCurrent(e: Egress)
    requires e.Valid() && PastsOk(e.Connections()) && AllOrderly(e.Connections())
    requires e.pending == [] && e.link.rounds != []
    ensures LifeBooks(e.Connections()).next == e.sender.nextSeq
  {
    LifeUnfolds(e.Connections());
    OrderlyParts(e.Connections());
    hide Orderly;
    hide PastOk;
    hide ObservedAll;
    hide Parse;
    hide LifeBooks;
    hide SenderAfter;
    hide CutSpan;
    assert e.Connections()[..|e.ledger.past|] == e.ledger.past;
    ConnectionSpan(e.Current(), LifeBooks(e.ledger.past).(have := false));
  }

  /** The sender's state as the next connection would find it. */
  lemma {:induction false} SenderOf(e: Egress) returns (end: Sender)
    requires e.Valid()
    ensures end == e.sender.(reconnected := true) && Chained(e.Connections(), end)
    ensures Concat(e.Handled()) == FlatBefore(e.Connections())
  {
    hide CountsBalanced;
    hide BytesBalanced;
    hide EchoBalanced;
    hide SenderAfter;
    FilledByFit(e.link, e.pending, e.offset);
    hide WireFits;
    end := e.sender.(reconnected := true);
    ChainedDrop(e.ledger.past, e.Current());
    hide Chained;
    HandledAfterDrop(e.ledger.past, e.Current());
    assert BatchesBefore(e.Connections()) + BatchesOf([]) == BatchesBefore(e.Connections());
    ConcatOfPasts(e.Connections());
  }

  // ---------------------------------------------------------------------
  // Whole runs

  /** A sender from its start. Whatever clients, sockets and clocks do, if the feed
      hands over rising bus frames then every connection is orderly, the frames
      counted as sent are the frames consumers receive, and every sequence number
      is booked or cut. */
  method RunSettles(maxFrames: nat, lingers: bool, echoInterval: nat, turns: seq<Turn>)
    returns (e: Egress, ghost n: nat)
    requires 1 <= maxFrames <= MAX_BATCH && |turns| < 0x1_0000_0000_0000_0000
    requires forall i | 0 <= i < |turns| :: PopsFit(turns[i].pops, maxFrames)
    ensures fresh(e) && e.Valid() && n <= |turns|
    ensures var taken := Concat(TakenAll(turns[..n], lingers, maxFrames));
            Rising(taken, 0) ==>
              && AllOrderly(e.Connections()) && PastsOk(e.Connections())
              && e.stats.framesSent == FramesReceived(e.Connections())
              && (taken != [] ==>
                    e.sender.nextSeq - taken[0].seqNo == Booked(LifeBooks(e.Connections())) + CutSpans(e.Connections()))
  {
    hide *;
    e := new Egress(maxFrames, lingers, echoInterval);
    ghost var none := e.Handled();
    n := e.Run(turns);
    assert none + TakenAll(turns[..n], lingers, maxFrames) == TakenAll(turns[..n], lingers, maxFrames);
    FedBy(e, TakenAll(turns[..n], lingers, maxFrames));
    if Rising(Concat(TakenAll(turns[..n], lingers, maxFrames)), 0) {
      FramesSentIsFramesReceived(e);
      ConnectionsAreOk(e);
      if Concat(TakenAll(turns[..n], lingers, maxFrames)) != [] { LifetimeBooks(e); }
    }
  }

  lemma {:induction false} FedBy(e: Egress, batches: seq<seq<Frame>>)
    requires e.Handled() == batches
    ensures FedInOrder(e) <==> Rising(Concat(batches), 0)
  {}

  /** A reader of any connection's bytes, cut up in any way, meets what `Consumer`
      asks for: it is on a gateway stream of orderly rounds. */
  lemma {:induction false} ReaderIsOnStream(e: Egress, i: nat, reader: Reader)
    requires e.Valid() && FedInOrder(e) && i < |e.Connections()|
    requires reader.taken + Arriving(reader.socket) <= e.Connections()[i].sent
    ensures var c := e.Connections()[i];
            && Filled(c.rounds) && Orderly(c.start, c.rounds)
            && OnStream(reader, WireBatches(c.start, c.rounds))
  {
    OrderlyWhenFedInOrder(e);
    ConnectionsAreOk(e);
    hide Orderly;
    hide FedInOrder;
    var c := e.Connections()[i];
    assert PastOk(c);
    SentIsStartOfStream(c);
    hide PastOk;
    hide Arriving;
    hide WireBatches;
    hide StreamBytes;
  }

  lemma {:induction false} SentIsStartOfStream(p: Past)
    requires PastOk(p)
    ensures Filled(p.rounds) && AllPrintable(WireBatches(p.start, p.rounds))
    ensures p.sent <= StreamBytes(WireBatches(p.start, p.rounds))
  {
    var bs := WireBatches(p.start, p.rounds);
    hide WireBatches;
    hide BatchBytes;
    if p.whole < |bs| {
      assert bs[..|bs| - 1] == bs[..p.whole];
    }
  }
}
