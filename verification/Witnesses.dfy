/** Runs on which the documentation promises more than the code keeps. */
module Witnesses {
  import opened Wire
  import opened GapTracker
  import opened LossAccounting
  import opened Connection
  import opened Egress
  import opened Settlement

  // ---------------------------------------------------------------------
  // A batch whose flush fails is covered by no marker

  /** A pass that pops one frame and meets these sends. */
  function Carry(n: u64, sends: seq<SendEvent>): Turn {
    Turn(false, false, [], 0, [[BusFrame(n)]], false, 0, sends)
  }

  function Plain(n: u64): Round { Round([BusFrame(n)], 0, []) }

  lemma {:induction false} CarriesOne(n: u64, sends: seq<SendEvent>, echo: Probe)
    requires echo.nonce + 1 < 0x1_0000_0000_0000_0000
    ensures PopsFit(Carry(n, sends).pops, 1) && Taken(Carry(n, sends), false, 1) == [[BusFrame(n)]]
    ensures Noted(Carry(n, sends), false, 1, 0, echo) == Plain(n)
  {
    var pops := Carry(n, sends).pops;
    assert pops[1..] == [];
    assert PopsFit([], 0);
    CoalescedStart(pops, false, 1);
  }

  lemma {:induction false} PlainRound(s: Sender, n: u64)
    requires s.have ==> n <= s.nextSeq
    ensures RoundRecords(s, Plain(n)) == [BusFrame(n)] && |RoundBytes(s, Plain(n))| == 56
  {}

  /** Behind a gap the marker comes first. */
  lemma {:induction false} MarkedRound(s: Sender, n: u64)
    requires s.have && n > s.nextSeq && !s.reconnected
    ensures RoundRecords(s, Plain(n)) == [MakeGap(s.nextSeq, n - s.nextSeq, CONSUMER_OVERRUN, 0), BusFrame(n)]
  {}

  lemma {:induction false} RoundSize(s: Sender, n: u64)
    ensures 0 < |RoundBytes(s, Plain(n))| <= 96
  {
    assert |RoundRecords(s, Plain(n))| <= 2;
  }

  lemma {:induction false} Sent(
    link0: Link, past0: seq<Past>, s: Sender, n: u64, after: After, connected: bool, link: Link, past: seq<Past>)
    requires Outcome(link0, past0, s, [Wrote(96)], Plain(n), after, connected, link, past)
    ensures after.Continue? && connected && past == past0
    ensures link == Link(link0.start, link0.rounds + [Plain(n)], link0.wire + RoundBytes(s, Plain(n)))
  {
    RoundSize(s, n);
    hide RoundBytes;
    var bytes := RoundBytes(s, Plain(n));
    assert bytes[..|bytes|] == bytes;
  }

  lemma {:induction false} Broke(
    link0: Link, past0: seq<Past>, s: Sender, n: u64, after: After, connected: bool, link: Link, past: seq<Past>)
    requires Outcome(link0, past0, s, [Broken], Plain(n), after, connected, link, past) && (s.have ==> n <= s.nextSeq)
    ensures after.Continue? && !connected
    ensures past == past0 + [Past(link0.start, link0.rounds + [Plain(n)], |link0.rounds|, link0.wire)]
  {
    PlainRound(s, n);
    hide RoundBytes;
    assert link0.wire + [] == link0.wire;
  }

  lemma {:induction false} WhereSenderStands(e: Egress)
    requires e.Valid()
    ensures Filled(e.link.rounds) && e.sender == SenderAfter(e.link.start, e.link.rounds)
    ensures !e.connected ==> e.link == Link(e.sender, [], [])
    ensures e.ledger.past != [] ==>
              var p := e.ledger.past[|e.ledger.past| - 1];
              Filled(p.rounds) && e.link.start == SenderAfter(p.start, p.rounds).(reconnected := true)
  {
    FilledByFit(e.link, e.pending, e.offset);
    hide WireFits;
    hide EchoBalanced;
    hide BytesBalanced;
    hide CountsBalanced;
  }

  lemma {:induction false} ThreeInOrder(batches: seq<seq<Frame>>)
    requires batches == [[BusFrame(0)]] + [[BusFrame(1)]] + [[BusFrame(2)]]
    ensures Rising(Concat(batches), 0)
  {
    hide Concat;
    hide BusFrame;
    hide Rising;
    ConcatAppend([[BusFrame(0)]] + [[BusFrame(1)]], [[BusFrame(2)]]);
    ConcatAppend([[BusFrame(0)]], [[BusFrame(1)]]);
    ConcatOne([BusFrame(0)]);
    ConcatOne([BusFrame(1)]);
    ConcatOne([BusFrame(2)]);
    ThreeRise([BusFrame(0)] + [BusFrame(1)] + [BusFrame(2)]);
  }

  lemma {:induction false} ThreeRise(fs: seq<Frame>)
    requires fs == [BusFrame(0)] + [BusFrame(1)] + [BusFrame(2)]
    ensures Rising(fs, 0)
  {
    forall i | 0 <= i < |fs| ensures fs[i] == BusFrame(i) {}
  }

  /** A sender of single frames, between two passes. */
  ghost predicate Between(e: Egress)
    reads e
  {
    && e.Valid() && e.pending == [] && e.maxFrames == 1 && !e.lingers && e.echoInterval == 0
    && e.echo.nonce < 100
  }

  /** A pass that sends frame `n` whole, behind a marker if there is a gap. */
  method SendOne(e: Egress, n: u64)
    requires Between(e) && e.echo.nonce < 10
    modifies e
    ensures e.Valid() && e.pending == [] && e.echo.nonce <= old(e.echo.nonce) + 1
    ensures e.ledger.past == old(e.ledger.past) && e.Handled() == old(e.Handled()) + [[BusFrame(n)]]
    ensures e.link.start == old(e.link.start) && e.link.rounds == old(e.link.rounds) + [Plain(n)]
    ensures e.link.wire == old(e.link.wire) + RoundBytes(old(e.sender), Plain(n)) && e.connected
  {
    hide *;
    Unfold(e);
    CarriesOne(n, [Wrote(96)], e.echo);
    ghost var link, past, sender := e.link, e.ledger.past, e.sender;
    NotStopping(n, [Wrote(96)]);
    var after := e.Pass(Carry(n, [Wrote(96)]));
    Sent(link, past, sender, n, after, e.connected, e.link, e.ledger.past);
  }

  /** A pass on which the connection breaks before anything of frame `n` is written. */
  method BreakOn(e: Egress, n: u64)
    requires Between(e) && e.echo.nonce < 10 && (e.sender.have ==> n <= e.sender.nextSeq)
    modifies e
    ensures e.Valid() && e.pending == [] && e.echo.nonce <= old(e.echo.nonce) + 1 && !e.connected
    ensures e.Handled() == old(e.Handled()) + [[BusFrame(n)]]
    ensures e.ledger.past ==
            old(e.ledger.past) +
            [Past(old(e.link.start), old(e.link.rounds) + [Plain(n)], |old(e.link.rounds)|, old(e.link.wire))]
  {
    hide *;
    Unfold(e);
    CarriesOne(n, [Broken], e.echo);
    ghost var link, past, sender := e.link, e.ledger.past, e.sender;
    NotStopping(n, [Broken]);
    var after := e.Pass(Carry(n, [Broken]));
    Broke(link, past, sender, n, after, e.connected, e.link, e.ledger.past);
  }

  lemma {:induction false} Unfold(e: Egress)
    requires Between(e)
    ensures e.Valid() && e.pending == [] && e.maxFrames == 1 && !e.lingers && e.echoInterval == 0
  {}

  lemma {:induction false} NotStopping(n: u64, sends: seq<SendEvent>)
    ensures !Carry(n, sends).stop && !Carry(n, sends).gone && Carry(n, sends).sends == sends
  {}

  lemma {:induction false} SteadyState(e: Egress)
    requires e.Valid() && e.pending == [] && e.maxFrames == 1 && !e.lingers && e.echoInterval == 0 && e.echo.nonce < 100
    ensures Between(e)
  {}

  /** Three passes: frame 0 is sent, the connection breaks on frame 1, and frame 2
      goes out on the next. The first connection ends with frame 1 cut off, and the
      second carries frame 2 and no marker: frame 1 is in nobody's books. */
  method CutBatchIsReal() returns (e: Egress)
    ensures fresh(e) && Between(e) && e.connected && e.echo.nonce < 10
    ensures e.Valid() && FedInOrder(e)
    ensures |e.ledger.past| == 1
    ensures var p := e.ledger.past[0];
            p.rounds == [Plain(0), Plain(1)] && p.whole == 1 && p.sent == RoundBytes(p.start, Plain(0))
    ensures e.link.rounds == [Plain(2)] && e.link.start == Sender(2, true, true)
    ensures RoundRecords(e.link.start, Plain(2)) == [BusFrame(2)]
  {
    hide Egress.Valid;
    hide Egress.Handled;
    hide Between;
    hide RoundBytes;
    hide RoundRecords;
    hide Concat;
    hide Rising;
    hide FedInOrder;
    hide SenderAfter;
    hide Filled;
    e := new Egress(1, false, 0);
    SteadyState(e);
    WhereSenderStands(e);
    StandsAt();
    SendOne(e, 0);
    assert e.link.rounds == [Plain(0)];
    WhereSenderStands(e);
    SteadyState(e);
    BreakOn(e, 1);
    WhereSenderStands(e);
    SteadyState(e);
    assert e.ledger.past[0].rounds == [Plain(0), Plain(1)];
    SendOne(e, 2);
    SteadyState(e);
    WhereSenderStands(e);
    PlainRound(e.link.start, 2);
    assert e.Handled() == [[BusFrame(0)]] + [[BusFrame(1)]] + [[BusFrame(2)]];
    ThreeInOrder(e.Handled());
    FedBy(e, e.Handled());
  }

  /** Where the sender stands after plain rounds. */
  lemma {:induction false} StandsAt()
    ensures !FIRST_CONNECTION.have && FIRST_CONNECTION == Sender(0, false, false)
    ensures Filled([Plain(0)]) && SenderAfter(FIRST_CONNECTION, [Plain(0)]) == Sender(1, true, false)
    ensures Filled([Plain(0), Plain(1)])
    ensures SenderAfter(FIRST_CONNECTION, [Plain(0), Plain(1)]) == Sender(2, true, false)
  {}

  // ---------------------------------------------------------------------
  // The first gap after a reconnect need not be an absence

  /** Frame 2 is the first after the reconnect and has no gap before it; it uses up
      the reconnect mark, so the gap behind it is reported as an overrun of two
      frames, and the books of this connection show no absence. */
  method GapAfterReconnectIsOverrun() returns (e: Egress)
    ensures fresh(e) && e.Valid() && e.connected && e.pending == []
    ensures e.link.start == Sender(2, true, true) && e.link.rounds == [Plain(2), Plain(5)]
    ensures RoundRecords(Sender(3, true, false), Plain(5)) == [MakeGap(3, 2, CONSUMER_OVERRUN, 0), BusFrame(5)]
    ensures Orderly(e.link.start, e.link.rounds)
    ensures var books := ObservedAll(EMPTY, Records(e.link.start, e.link.rounds));
            books.absentFrames == 0 && books.reportedLost == 2
  {
    hide Egress.Valid;
    hide Between;
    hide RoundBytes;
    hide RoundRecords;
    hide ObservedAll;
    hide Records;
    hide Orderly;
    e := CutBatchIsReal();
    SendOne(e, 5);
    assert e.link.rounds == [Plain(2), Plain(5)];
    MarkedRound(Sender(3, true, false), 5);
    OverrunAfterReconnect();
  }

  lemma {:induction false} OverrunAfterReconnect()
    ensures var s, rounds := Sender(2, true, true), [Plain(2), Plain(5)];
            && Orderly(s, rounds)
            && (var books := ObservedAll(EMPTY, Records(s, rounds)); books.absentFrames == 0 && books.reportedLost == 2)
  {
    var s, rounds := Sender(2, true, true), [Plain(2), Plain(5)];
    var rest := rounds[1..];
    assert rest == [Plain(5)] && rest[1..] == [];
    assert Orderly(AfterBatch(rounds[0].batch), rest);
    ConnectionBooks(s, EMPTY, rounds);
    assert HolesBetween(AfterBatch(rounds[0].batch), rest) == 2;
  }
}
