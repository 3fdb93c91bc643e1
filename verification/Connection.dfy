/** What one TCP connection carries, and what the consumer makes of it. */
module Connection {
  import opened Wire
  import opened BatchStream
  import opened GapTracker
  import opened LossAccounting

  /** The sender state before anything was sent. */
  const FIRST_CONNECTION: Sender := Sender(0, false, false)

  /** The sender state after some rounds. */
  function SenderAfter(start: Sender, rounds: seq<Round>): Sender
    requires Filled(rounds)
  {
    if rounds == [] then start else AfterBatch(rounds[|rounds| - 1].batch)
  }

  predicate Filled(rounds: seq<Round>) { forall i | 0 <= i < |rounds| :: rounds[i].batch != [] }

  /** The records of each round, as `encode_batch` is given them. */
  function WireBatches(start: Sender, rounds: seq<Round>): (bs: seq<seq<Frame>>)
    requires Filled(rounds)
    ensures |bs| == |rounds|
  {
    if rounds == [] then []
    else
      var init := rounds[..|rounds| - 1];
      WireBatches(start, init) + [RoundRecords(SenderAfter(start, init), rounds[|rounds| - 1])]
  }

  lemma {:induction false} WireBatchesAppend(start: Sender, rounds: seq<Round>, r: Round)
    requires Filled(rounds) && r.batch != []
    ensures Filled(rounds + [r])
    ensures WireBatches(start, rounds + [r]) ==
            WireBatches(start, rounds) + [RoundRecords(SenderAfter(start, rounds), r)]
  {
    assert (rounds + [r])[..|rounds|] == rounds;
  }

  lemma {:induction false} WireBatchesPrefix(start: Sender, rounds: seq<Round>, k: nat)
    requires Filled(rounds) && k <= |rounds|
    ensures Filled(rounds[..k]) && WireBatches(start, rounds[..k]) == WireBatches(start, rounds)[..k]
  {
    if k == |rounds| {
      assert rounds[..k] == rounds;
    } else {
      var init := rounds[..|rounds| - 1];
      WireBatchesPrefix(start, init, k);
      assert init[..k] == rounds[..k];
    }
  }

  // ---------------------------------------------------------------------
  // Rounds from either end

  lemma {:induction false} OrderlyAppend(s: Sender, rounds: seq<Round>, r: Round)
    requires Filled(rounds) && Filled(rounds + [r]) && Orderly(s, rounds + [r])
    ensures Orderly(s, rounds) && Orderly(SenderAfter(s, rounds), [r])
    ensures Records(s, rounds + [r]) == Records(s, rounds) + RoundRecords(SenderAfter(s, rounds), r)
    decreases |rounds|
  {
    hide Orderly;
    hide Records;
    hide RoundRecords;
    var all := rounds + [r];
    assert all[|rounds|] == r;
    RoundByRound(s, all);
    if rounds == [] {
      assert all == [r] && [r][1..] == [];
      NoRounds(s);
      NoRounds(AfterBatch(r.batch));
      var records := RoundRecords(s, r);
      assert records + [] == records == [] + records;
    } else {
      var s1, rest := AfterBatch(rounds[0].batch), rounds[1..];
      assert all[0] == rounds[0] && all[1..] == rest + [r];
      assert SenderAfter(s1, rest) == SenderAfter(s, rounds);
      OrderlyAppend(s1, rest, r);
      RoundByRound(s, rounds);
      var first, tail := RoundRecords(s, rounds[0]), RoundRecords(SenderAfter(s, rounds), r);
      assert first + (Records(s1, rest) + tail) == (first + Records(s1, rest)) + tail;
    }
  }

  lemma {:induction false} OrderlySnoc(s: Sender, rounds: seq<Round>, r: Round)
    requires Filled(rounds) && Orderly(s, rounds) && Orderly(SenderAfter(s, rounds), [r])
    ensures Filled(rounds + [r]) && Orderly(s, rounds + [r])
    ensures FrameCount(rounds + [r]) == FrameCount(rounds) + |r.batch|
    decreases |rounds|
  {
    var all := rounds + [r];
    if rounds == [] {
      assert all == [r] && [r][1..] == [];
    } else {
      var s1, rest := AfterBatch(rounds[0].batch), rounds[1..];
      assert all[0] == rounds[0] && all[1..] == rest + [r];
      assert SenderAfter(s1, rest) == SenderAfter(s, rounds);
      OrderlySnoc(s1, rest, r);
    }
  }

  lemma {:induction false} OrderlyPrefix(s: Sender, rounds: seq<Round>, k: nat)
    requires Filled(rounds) && Orderly(s, rounds) && k <= |rounds|
    ensures Orderly(s, rounds[..k])
  {
    hide Orderly;
    hide Records;
    hide RoundRecords;
    if k == |rounds| {
      assert rounds[..k] == rounds;
    } else {
      var init, last := rounds[..|rounds| - 1], rounds[|rounds| - 1];
      assert init + [last] == rounds;
      assert Filled(init);
      OrderlyAppend(s, init, last);
      OrderlyPrefix(s, init, k);
      assert init[..k] == rounds[..k];
    }
  }

  /** What a later connection carries is orderly from where the earlier rounds end. */
  lemma {:induction false} OrderlySuffix(s: Sender, a: seq<Round>, b: seq<Round>)
    requires Filled(a) && Orderly(s, a + b)
    ensures Orderly(SenderAfter(s, a), b)
    ensures FrameCount(a + b) == FrameCount(a) + FrameCount(b)
    decreases |a|
  {
    if a == [] {
      assert a + b == b;
    } else {
      var s1, rest := AfterBatch(a[0].batch), a[1..];
      assert (a + b)[0] == a[0] && (a + b)[1..] == rest + b;
      assert SenderAfter(s1, rest) == SenderAfter(s, a);
      OrderlySuffix(s1, rest, b);
    }
  }

  /** The reason a gap is given has no bearing on order. */
  lemma {:induction false} OrderlyEitherWay(s: Sender, rounds: seq<Round>, away: bool)
    requires Orderly(s, rounds)
    ensures Orderly(s.(reconnected := away), rounds)
  {}

  // ---------------------------------------------------------------------
  // Rising frames, cut into batches

  /** All frames of some rounds, in order. */
  function Flat(rounds: seq<Round>): (fs: seq<Frame>)
    ensures |fs| == FrameCount(rounds)
  {
    if rounds == [] then [] else rounds[0].batch + Flat(rounds[1..])
  }

  lemma {:induction false} FlatAppend(a: seq<Round>, b: seq<Round>)
    ensures Flat(a + b) == Flat(a) + Flat(b)
    decreases |a|
  {
    if a == [] {
      assert a + b == b;
    } else {
      assert (a + b)[0] == a[0] && (a + b)[1..] == a[1..] + b;
      FlatAppend(a[1..], b);
    }
  }

  lemma {:induction false} FlatFirst(rounds: seq<Round>)
    requires Filled(rounds) && Flat(rounds) != []
    ensures rounds != [] && Flat(rounds)[0] == rounds[0].batch[0]
  {}

  lemma {:induction false} FlatLast(rounds: seq<Round>)
    requires Filled(rounds) && rounds != []
    ensures Flat(rounds) != [] && LastSeq(Flat(rounds)) == LastSeq(rounds[|rounds| - 1].batch)
    decreases |rounds|
  {
    if |rounds| > 1 { FlatLast(rounds[1..]); }
  }

  /** Bus frames in strictly increasing sequence, none before `from`. */
  ghost predicate Rising(fs: seq<Frame>, from: nat) {
    && (forall i | 0 <= i < |fs| :: !IsControl(fs[i]) && fs[i].seqNo >= from)
    && (forall i, j | 0 <= i < j < |fs| :: fs[i].seqNo < fs[j].seqNo)
  }

  predicate OnlyEchoes(fs: seq<Frame>) { forall i | 0 <= i < |fs| :: IsEcho(fs[i]) }

  predicate OnlyProbes(rounds: seq<Round>) { forall i | 0 <= i < |rounds| :: OnlyEchoes(rounds[i].probes) }

  lemma {:induction false} RisingSplits(a: seq<Frame>, b: seq<Frame>, from: nat)
    requires Rising(a + b, from)
    ensures Rising(a, from)
    ensures a == [] ==> Rising(b, from)
    ensures a != [] ==> BusBatch(a) && a[0].seqNo >= from && Rising(b, LastSeq(a) + 1)
  {
    var ab := a + b;
    forall i | 0 <= i < |a| ensures ab[i] == a[i] {}
    forall i | 0 <= i < |b| ensures ab[|a| + i] == b[i] {}
    if a == [] {
      assert ab == b;
    } else {
      forall i | 0 <= i < |b| ensures b[i].seqNo >= LastSeq(a) + 1 {
        assert ab[|a| - 1].seqNo < ab[|a| + i].seqNo;
      }
    }
    forall i, j | 0 <= i < j < |b| ensures b[i].seqNo < b[j].seqNo {
      assert ab[|a| + i].seqNo < ab[|a| + j].seqNo;
    }
  }

  /** However rising frames are cut into batches, the batches are orderly. */
  lemma {:induction false} RisingIsOrderly(s: Sender, rounds: seq<Round>)
    requires Filled(rounds) && OnlyProbes(rounds) && Rising(Flat(rounds), if s.have then s.nextSeq else 0)
    ensures Orderly(s, rounds)
    decreases |rounds|
  {
    if rounds != [] {
      var a, rest := rounds[0].batch, rounds[1..];
      assert OnlyEchoes(rounds[0].probes);
      RisingSplits(a, Flat(rest), if s.have then s.nextSeq else 0);
      assert OnlyProbes(rest) by {
        forall i | 0 <= i < |rest| ensures OnlyEchoes(rest[i].probes) { assert rest[i] == rounds[i + 1]; }
      }
      RisingIsOrderly(AfterBatch(a), rest);
    }
  }

  // ---------------------------------------------------------------------
  // The consumer's end

  /** The frames a consumer feeds to its tracker: everything `read_batch` put
      into its output vector. */
  function FramesIn(messages: seq<Message>): seq<Frame> {
    if messages == [] then [] else FramesIn(messages[..|messages| - 1]) + messages[|messages| - 1].frames
  }

  lemma {:induction false} RecordsAreBatches(s: Sender, rounds: seq<Round>)
    requires Filled(rounds) && Orderly(s, rounds)
    ensures FramesIn(Batches(WireBatches(s, rounds))) == Records(s, rounds)
  {
    if rounds != [] {
      var init, last := rounds[..|rounds| - 1], rounds[|rounds| - 1];
      assert init + [last] == rounds;
      assert Filled(init);
      OrderlyAppend(s, init, last);
      RecordsAreBatches(s, init);
      WireBatchesAppend(s, init, last);
      hide Orderly;
      hide Records;
      hide WireBatches;
      hide RoundRecords;
      FramesInSnoc(WireBatches(s, init), RoundRecords(SenderAfter(s, init), last));
    }
  }

  lemma {:induction false} FramesInSnoc(bs: seq<seq<Frame>>, b: seq<Frame>)
    ensures FramesIn(Batches(bs + [b])) == FramesIn(Batches(bs)) + b
  {
    var ms := Batches(bs + [b]);
    assert ms[..|bs|] == Batches(bs) && ms[|bs|] == Batch(b);
  }

  /** End to end. Take any connection whose feed delivered orderly batches, cut
      its byte stream anywhere, and parse what arrived: the consumer has the
      first `k` rounds whole, and its books on them are exact - frames, overruns,
      absences and silent losses add up to the span of sequence numbers. `base`
      are the books it brought along from earlier connections, reset. */
  lemma {:induction false} ConsumerBooksAreExact(start: Sender, rounds: seq<Round>, wire: seq<byte>, base: Books)
    returns (k: nat)
    requires Filled(rounds) && Orderly(start, rounds) && !base.have
    requires AllPrintable(WireBatches(start, rounds)) && wire <= StreamBytes(WireBatches(start, rounds))
    ensures k <= |rounds| && Filled(rounds[..k]) && Orderly(start, rounds[..k])
    ensures var books := ObservedAll(base, FramesIn(Parse(wire).messages));
            && books.frames - base.frames == FrameCount(rounds[..k])
            && books.reportedLost + books.absentFrames - (base.reportedLost + base.absentFrames) ==
               HolesBetween(start, rounds[..k])
            && books.silentLost - base.silentLost == HolesInside(rounds[..k])
            && (k > 0 ==>
                  books.next - FirstSeq(start, rounds[..k]) ==
                  FrameCount(rounds[..k]) + HolesBetween(start, rounds[..k]) + HolesInside(rounds[..k]))
            && (books.silentJumps == base.silentJumps <==> AllContiguous(rounds[..k]))
    ensures k < |rounds| ==> Parse(wire).rest < BatchBytes(WireBatches(start, rounds)[k])
  {
    hide Parse;
    hide BatchBytes;
    var bs := WireBatches(start, rounds);
    k := ParsePrefix(bs, wire);
    OrderlyPrefix(start, rounds, k);
    WireBatchesPrefix(start, rounds, k);
    var got := rounds[..k];
    RecordsAreBatches(start, got);
    assert FramesIn(Parse(wire).messages) == Records(start, got);
    SilentLossIffBatchHasHole(start, base, got);
    if k > 0 { ConnectionBooks(start, base, got); }
  }
}
