/** A consumer: it reads batches off its connection and keeps its books. */
module Consumer {
  import opened Wire
  import opened WireFormat
  import opened BatchStream
  import opened FrameStream
  import opened GapTracker
  import opened LossAccounting
  import opened Connection

  /** What was read and what is still to come are the start of a gateway stream. */
  ghost predicate OnStream(reader: Reader, bs: seq<seq<Frame>>)
    reads reader
  {
    AllPrintable(bs) && reader.taken + Arriving(reader.socket) <= StreamBytes(bs)
  }

  /** On a gateway's stream every message parses and no header is ever refused. */
  lemma {:induction false} NoBadBytes(bs: seq<seq<Frame>>, taken: seq<byte>)
    requires AllPrintable(bs) && taken <= StreamBytes(bs)
    ensures forall i | 0 <= i < |Parse(taken).messages| :: Parse(taken).messages[i].Batch?
    ensures |Parse(taken).rest| == HEADER_SIZE ==> DecodeHeader(Parse(taken).rest).Ok?
  {
    hide Parse;
    hide BatchBytes;
    hide DecodeHeader;
    var k := ParsePrefix(bs, taken);
    var rest := Parse(taken).rest;
    if k < |bs| && |rest| == HEADER_SIZE {
      assert Printable(bs[k]);
      HeaderOfBatch(bs[k], rest);
    }
  }

  lemma {:induction false} HeaderOfBatch(b: seq<Frame>, rest: seq<byte>)
    requires |b| <= MAX_COUNT && rest <= BatchBytes(b) && |rest| == HEADER_SIZE
    ensures DecodeHeader(rest).Ok?
  {
    assert rest == HeaderBytes(|b|) by { assert BatchBytes(b)[..HEADER_SIZE] == HeaderBytes(|b|); }
    DecodeHeaderAfterEncode(|b|);
  }

  /** Books kept by a consumer that answers probes instead of observing them. */
  function Unprobed(b: Books): Books { b.(echoes := 0) }

  /** The probes of a batch, in order. */
  function EchoesIn(fs: seq<Frame>): seq<Frame> {
    if fs == [] then []
    else EchoesIn(fs[..|fs| - 1]) + if IsEcho(fs[|fs| - 1]) then [fs[|fs| - 1]] else []
  }

  /** The replies keep the order of the probes: those of two stretches of records are
      those of the first and then those of the second. */
  lemma {:induction false} EchoesInOrder(a: seq<Frame>, b: seq<Frame>)
    ensures EchoesIn(a + b) == EchoesIn(a) + EchoesIn(b)
    decreases |b|
  {
    if b == [] {
      assert a + b == a;
    } else {
      assert (a + b)[..|a + b| - 1] == a + b[..|b| - 1];
      EchoesInOrder(a, b[..|b| - 1]);
    }
  }

  /** A record is sent back unchanged if flag bit 4 is set, and not otherwise. */
  lemma {:induction false} EchoOfOne(f: Frame)
    ensures EchoesIn([f]) == if f.flags % 32 >= 16 then [f] else []
  {
    ControlBits(f);
    hide IsEcho;
    assert [f][..0] == [];
  }

  /** One more record: a probe leaves such books alone, any other record counts. */
  lemma {:induction false} UnprobedStep(base: Books, fs: seq<Frame>, i: nat)
    requires i < |fs|
    ensures var b := ObservedAll(base, fs[..i]);
            Unprobed(ObservedAll(base, fs[..i + 1])) ==
            if IsEcho(fs[i]) then Unprobed(b) else Observed(Unprobed(b), fs[i])
  {
    hide IsEcho;
    hide IsGap;
    hide GapCount;
    assert fs[..i + 1] == fs[..i] + [fs[i]];
    ObservedConcat(base, fs[..i], [fs[i]]);
    assert [fs[i]][1..] == [];
  }

  /** The loop over a received batch: probes are sent back, the rest is observed. */
  method Digest(tracker: Tracker, fs: seq<Frame>, ghost base: Books) returns (replies: seq<Frame>)
    requires tracker.Value() == Unprobed(base)
    modifies tracker
    ensures tracker.Value() == Unprobed(ObservedAll(base, fs)) && replies == EchoesIn(fs)
  {
    hide IsEcho;
    replies := [];
    assert fs[..0] == [];
    for i := 0 to |fs|
      invariant tracker.Value() == Unprobed(ObservedAll(base, fs[..i])) && replies == EchoesIn(fs[..i])
    {
      UnprobedStep(base, fs, i);
      assert fs[..i + 1][..i] == fs[..i];
      if IsEcho(fs[i]) {
        replies := replies + [fs[i]];
      } else {
        var _ := tracker.Observe(fs[i]);
      }
    }
    assert fs[..|fs|] == fs;
  }

  /** A consumer connects, for the first time or again: a new reader, and a tracker
      that keeps its totals and forgets where it was. */
  method Connect(tracker: Tracker, events: seq<SocketEvent>) returns (reader: Reader, ghost base: Books)
    requires tracker.echoes == 0
    modifies tracker
    ensures fresh(reader) && reader.Valid() && reader.taken == [] && reader.socket == events
    ensures base == old(tracker.Value()).(have := false)
    ensures tracker.Value() == Unprobed(ObservedAll(base, FramesIn(reader.results)))
  {
    tracker.Reset();
    base := tracker.Value();
    reader := new Reader(events);
  }

  /** One turn of a consumer's read loop on a connection that carries `rounds`.
      However the bytes were cut up by the network and the timeouts, there is no
      protocol error, every probe received is sent back, and the books grow by
      exactly what the rounds received so far call for. `base` are the books the
      tracker brought to this connection. */
  method Poll(reader: Reader, tracker: Tracker, ghost start: Sender, ghost rounds: seq<Round>, ghost base: Books)
    returns (status: Status, replies: seq<Frame>, ghost k: nat, ghost used: nat)
    requires Filled(rounds) && Orderly(start, rounds) && !base.have
    requires reader.Valid() && OnStream(reader, WireBatches(start, rounds))
    requires tracker.Value() == Unprobed(ObservedAll(base, FramesIn(reader.results)))
    modifies reader, tracker
    ensures reader.Valid() && OnStream(reader, WireBatches(start, rounds)) && !status.ProtocolError?
    ensures tracker.Value() == Unprobed(ObservedAll(base, FramesIn(reader.results)))
    ensures if status.Complete?
            then exists out :: reader.results == old(reader.results) + [Batch(out)] && replies == EchoesIn(out)
            else reader.results == old(reader.results) && replies == []
    ensures StoppedAt(old(reader.socket), reader.socket, used, status)
    ensures k <= |rounds| && Filled(rounds[..k]) && Orderly(start, rounds[..k])
    ensures tracker.frames - base.frames == FrameCount(rounds[..k])
    ensures tracker.reportedLost + tracker.absentFrames - (base.reportedLost + base.absentFrames) ==
            HolesBetween(start, rounds[..k])
    ensures tracker.silentLost - base.silentLost == HolesInside(rounds[..k])
    ensures k > 0 ==>
              tracker.next - FirstSeq(start, rounds[..k]) ==
              FrameCount(rounds[..k]) + HolesBetween(start, rounds[..k]) + HolesInside(rounds[..k])
  {
    hide Parse;
    hide Orderly;
    hide Filled;
    hide WireBatches;
    hide StreamBytes;
    hide ObservedAll;
    hide DecodeHeader;
    hide Arriving;
    hide StoppedAt;
    var out;
    replies := [];
    status, out, used := reader.ReadBatch();
    assert reader.taken <= reader.taken + Arriving(reader.socket);
    NoBadBytes(WireBatches(start, rounds), reader.taken);
    if status.Complete? {
      ObservedConcat(base, FramesIn(old(reader.results)), out);
      FramesInOneMore(old(reader.results), out);
      replies := Digest(tracker, out, ObservedAll(base, FramesIn(old(reader.results))));
    }
    k := ConsumerBooksAreExact(start, rounds, reader.taken, base);
  }

  lemma {:induction false} FramesInOneMore(messages: seq<Message>, out: seq<Frame>)
    ensures FramesIn(messages + [Batch(out)]) == FramesIn(messages) + out
  {
    assert (messages + [Batch(out)])[..|messages|] == messages;
  }
}
