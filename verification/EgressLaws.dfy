/** What the sender's inner functions mean, said from outside: how a flush ends, what
    lingering joins, what replies are found, and when probes go out. */
module EgressLaws {
  import opened Wire
  import opened BatchStream
  import opened LossAccounting
  import opened Egress
  import opened WireFormat

  // ---------------------------------------------------------------------
  // How a flush ends

  /** The connection is broken, polling failed, or a stop was requested. */
  predicate Fatal(event: SendEvent) {
    || event.Broken? || event == Wrote(0)
    || event == WouldBlock(PollFailed) || event == WouldBlock(StopRequested)
  }

  predicate Harmless(sends: seq<SendEvent>) { forall i | 0 <= i < |sends| :: !Fatal(sends[i]) }

  /** What some sends accept, and how many of them accept or would block. */
  function Accepts(sends: seq<SendEvent>): nat {
    if sends == [] then 0 else (if sends[0].Wrote? then sends[0].n else 0) + Accepts(sends[1..])
  }

  function Writes(sends: seq<SendEvent>): nat {
    if sends == [] then 0 else (if sends[0].Wrote? then 1 else 0) + Writes(sends[1..])
  }

  function Blocks(sends: seq<SendEvent>): nat {
    if sends == [] then 0 else (if sends[0].WouldBlock? then 1 else 0) + Blocks(sends[1..])
  }

  /** A flush that used up `k` harmless sends and came to this end. It is done at the
      send that takes the last byte, lost at the first fatal one before that, and
      otherwise still waiting when the schedule ends. It has written what those
      sends accepted, counted those that would block, and counted as partial all
      writes but the one that finished it. */
  predicate EndsAs(sends: seq<SendEvent>, remaining: nat, fate: Fate, k: nat) {
    && k <= |sends| && Harmless(sends[..k])
    && match fate.result
       case Flushed =>
         && k > 0 && Accepts(sends[..k - 1]) < remaining <= Accepts(sends[..k])
         && fate.written == remaining && fate.blocked == Blocks(sends[..k]) && fate.partial == Writes(sends[..k]) - 1
       case Lost =>
         && k < |sends| && Fatal(sends[k]) && fate.written == Accepts(sends[..k]) < remaining
         && fate.blocked == Blocks(sends[..k + 1]) && fate.partial == Writes(sends[..k])
       case Blocked =>
         && k == |sends| && fate.written == Accepts(sends[..k]) < remaining
         && fate.blocked == Blocks(sends[..k]) && fate.partial == Writes(sends[..k])
  }

  /** Every flush comes to such an end. */
  lemma {:induction false} FateByEvents(sends: seq<SendEvent>, remaining: nat) returns (k: nat)
    requires remaining > 0
    ensures EndsAs(sends, remaining, FlushFate(sends, remaining), k)
    decreases |sends|
  {
    if sends == [] {
      k := 0;
    } else {
      var first, rest := sends[0], sends[1..];
      FateAt(sends, 0, remaining);
      assert sends[0..] == sends;
      hide FlushFate;
      hide EndsAs;
      if Fatal(first) {
        k := 0;
        StopsAtOnce(sends, remaining, FlushFate(sends, remaining));
      } else if first.Wrote? && first.n >= remaining {
        k := 1;
        DoneAtOnce(sends, remaining, FlushFate(sends, remaining));
      } else {
        var left := if first.Wrote? then remaining - first.n else remaining;
        var j := FateByEvents(rest, left);
        k := j + 1;
        OneMoreSend(sends, remaining, FlushFate(sends, remaining), left, FlushFate(rest, left), j);
      }
    }
  }

  lemma {:induction false} StopsAtOnce(sends: seq<SendEvent>, remaining: nat, fate: Fate)
    requires sends != [] && Fatal(sends[0]) && remaining > 0
    requires fate == Fate(Lost, 0, if sends[0].WouldBlock? then 1 else 0, 0)
    ensures EndsAs(sends, remaining, fate, 0)
  {
    FirstOf(sends, 1);
    assert sends[1..1] == [] && sends[..0] == [];
  }

  lemma {:induction false} DoneAtOnce(sends: seq<SendEvent>, remaining: nat, fate: Fate)
    requires sends != [] && sends[0].Wrote? && sends[0].n >= remaining > 0 && fate == Fate(Flushed, remaining, 0, 0)
    ensures EndsAs(sends, remaining, fate, 1)
  {
    FirstOf(sends, 1);
    assert sends[1..1] == [] && sends[..0] == [];
  }

  lemma {:induction false} OneMoreSend(
    sends: seq<SendEvent>, remaining: nat, fate: Fate, left: nat, restFate: Fate, j: nat)
    requires sends != [] && !Fatal(sends[0]) && (sends[0].Wrote? ==> sends[0].n < remaining)
    requires left == (if sends[0].Wrote? then remaining - sends[0].n else remaining)
    requires EndsAs(sends[1..], left, restFate, j)
    requires fate == Fate(restFate.result, (if sends[0].Wrote? then sends[0].n else 0) + restFate.written,
                          restFate.blocked + (if sends[0].WouldBlock? then 1 else 0),
                          restFate.partial + (if sends[0].Wrote? then 1 else 0))
    ensures EndsAs(sends, remaining, fate, j + 1)
  {
    hide Accepts;
    hide Writes;
    hide Blocks;
    hide Fatal;
    var rest, k := sends[1..], j + 1;
    FirstOf(sends, k);
    assert sends[1..k] == rest[..j];
    if j > 0 {
      FirstOf(sends, j);
      assert sends[1..j] == rest[..j - 1];
    } else {
      NothingAccepted(sends[..0]);
    }
    if j < |rest| {
      FirstOf(sends, k + 1);
      assert sends[1..k + 1] == rest[..j + 1];
    }
    forall i | 0 <= i < k ensures !Fatal(sends[..k][i]) {
      if i > 0 { assert sends[..k][i] == rest[..j][i - 1]; }
    }
  }

  lemma {:induction false} NothingAccepted(sends: seq<SendEvent>)
    requires sends == []
    ensures Accepts(sends) == 0
  {}

  /** Sums over a stretch that begins with the first send. */
  lemma {:induction false} FirstOf(sends: seq<SendEvent>, k: nat)
    requires 0 < k <= |sends|
    ensures var first, part := sends[0], sends[..k];
            && Accepts(part) == (if first.Wrote? then first.n else 0) + Accepts(sends[1..k])
            && Writes(part) == (if first.Wrote? then 1 else 0) + Writes(sends[1..k])
            && Blocks(part) == (if first.WouldBlock? then 1 else 0) + Blocks(sends[1..k])
  {
    assert sends[..k][0] == sends[0] && sends[..k][1..] == sends[1..k];
  }

  // ---------------------------------------------------------------------
  // What lingering joins

  /** The batch of a pass is its first `k` pops. Without linger that is the first one,
      if it returned something; with linger as many as it takes to fill the batch or
      to meet a pop that returned nothing. Two or more count as lingering. */
  lemma {:induction false} CoalescedIs(pops: seq<seq<Frame>>, lingers: bool, room: nat) returns (k: nat)
    requires room > 0
    ensures k <= |pops| && AllFilled(pops[..k]) && Coalesced(pops, lingers, room) == Concat(pops[..k])
    ensures !lingers ==> k == if pops == [] || pops[0] == [] then 0 else 1
    ensures lingers ==>
              && (k == |pops| || pops[k] == [] || |Concat(pops[..k])| >= room)
              && (k > 0 ==> |Concat(pops[..k - 1])| < room)
    ensures Joins(pops, lingers, room) <==> k >= 2
    decreases |pops|
  {
    hide Concat;
    NothingConcat();
    CoalescedStart(pops, lingers, room);
    if pops == [] || pops[0] == [] {
      k := 0;
      assert pops[..0] == [];
    } else {
      var first, rest := pops[0], pops[1..];
      if !lingers || |first| >= room {
        k := 1;
        assert pops[..1] == [first] && pops[..0] == [];
        ConcatOne(first);
      } else {
        var j := CoalescedIs(rest, lingers, room - |first|);
        k := j + 1;
        FirstPopOf(pops, k);
        assert pops[1..k] == rest[..j];
        assert pops[..0] == [];
        if j > 0 {
          FirstPopOf(pops, j);
          assert pops[1..j] == rest[..j - 1];
        }
        forall i | 0 <= i < k ensures pops[..k][i] != [] {
          if i > 0 { assert pops[..k][i] == rest[..j][i - 1]; }
        }
        assert j == 0 ==> rest == [] || rest[0] == [] by {
          if j == 0 { assert rest[..0] == []; }
        }
      }
    }
  }

  lemma {:induction false} FirstPopOf(pops: seq<seq<Frame>>, k: nat)
    requires 0 < k <= |pops|
    ensures Concat(pops[..k]) == pops[0] + Concat(pops[1..k])
  {
    hide Concat;
    assert pops[..k] == [pops[0]] + pops[1..k];
    ConcatAppend([pops[0]], pops[1..k]);
    ConcatOne(pops[0]);
  }

  // ---------------------------------------------------------------------
  // What reaches the reply buffer

  /** Chunks, one behind the other. */
  function Joined(chunks: seq<seq<byte>>): seq<byte> {
    if chunks == [] then [] else chunks[0] + Joined(chunks[1..])
  }

  /** While everything fits into 64 KiB, nothing received is lost. */
  lemma {:induction false} BufferedAll(buf: seq<byte>, chunks: seq<seq<byte>>)
    requires |buf| + |Joined(chunks)| <= 65536
    ensures Buffered(buf, chunks) == buf + Joined(chunks)
    decreases |chunks|
  {
    if chunks == [] {
      assert buf + [] == buf;
    } else {
      BufferedAll(buf + chunks[0], chunks[1..]);
      assert (buf + chunks[0]) + Joined(chunks[1..]) == buf + (chunks[0] + Joined(chunks[1..]));
    }
  }

  /** In general the buffer never holds more than 64 KiB, and holds exactly what was
      received after the last overflow: the stretch from chunk `m`, with what was
      there before it, fits up to chunk `k - 1` and overflows with it. */
  lemma {:induction false} BufferedSince(buf: seq<byte>, chunks: seq<seq<byte>>) returns (m: nat, k: nat)
    requires |buf| <= 65536
    ensures m <= k <= |chunks|
    ensures var held := if k == 0 then buf else [];
            Buffered(buf, chunks) == held + Joined(chunks[k..]) && |held| + |Joined(chunks[k..])| <= 65536
    ensures k > 0 ==>
              var start := if m == 0 then |buf| else 0;
              m < k && start + |Joined(chunks[m..k - 1])| <= 65536 < start + |Joined(chunks[m..k])|
    decreases |chunks|
  {
    hide Buffered;
    hide Joined;
    assert chunks[0..] == chunks;
    if |buf| + |Joined(chunks)| <= 65536 {
      BufferedAll(buf, chunks);
      m, k := 0, 0;
    } else {
      var j := FirstOverflow(buf, chunks);
      m, k := BufferedSince([], chunks[j..]);
      BufferedEmptied(buf, chunks, j);
      ShiftBy(chunks, j, m, k);
      if k == 0 {
        m, k := 0, j;
        assert chunks[j..][0..] == chunks[j..];
        assert chunks[0..j] == chunks[..j] && chunks[0..j - 1] == chunks[..j - 1];
      } else {
        m, k := m + j, k + j;
      }
    }
  }

  lemma {:induction false} ShiftBy(chunks: seq<seq<byte>>, j: nat, m: nat, k: nat)
    requires j <= |chunks| && m <= k <= |chunks| - j
    ensures chunks[j..][k..] == chunks[k + j..] && chunks[j..][m..k] == chunks[m + j..k + j]
    ensures k > m ==> chunks[j..][m..k - 1] == chunks[m + j..k + j - 1]
  {}

  /** The first chunk with which the buffer overflows is the last of `j`. */
  lemma {:induction false} FirstOverflow(buf: seq<byte>, chunks: seq<seq<byte>>) returns (j: nat)
    requires |buf| <= 65536 < |buf| + |Joined(chunks)|
    ensures 0 < j <= |chunks|
    ensures |buf| + |Joined(chunks[..j - 1])| <= 65536 < |buf| + |Joined(chunks[..j])|
    decreases |chunks|
  {
    var first, rest := chunks[0], chunks[1..];
    if |buf + first| > 65536 {
      j := 1;
      assert chunks[..1][0] == first && chunks[..1][1..] == [] && chunks[..0] == [];
    } else {
      var i := FirstOverflow(buf + first, rest);
      j := i + 1;
      assert chunks[..j][0] == first && chunks[..j][1..] == rest[..i];
      assert chunks[..i][1..] == rest[..i - 1];
    }
  }

  /** The buffer is empty right after its first overflow. */
  lemma {:induction false} BufferedEmptied(buf: seq<byte>, chunks: seq<seq<byte>>, j: nat)
    requires 0 < j <= |chunks|
    requires |buf| + |Joined(chunks[..j - 1])| <= 65536 < |buf| + |Joined(chunks[..j])|
    ensures Buffered(buf, chunks) == Buffered([], chunks[j..])
    decreases |chunks|
  {
    var first, rest := chunks[0], chunks[1..];
    if j == 1 {
      assert chunks[..1][0] == first && chunks[..1][1..] == [];
    } else {
      assert chunks[..j][0] == first && chunks[..j][1..] == rest[..j - 1];
      assert chunks[..j - 1][0] == first && chunks[..j - 1][1..] == rest[..j - 2];
      BufferedEmptied(buf + first, rest, j - 1);
      assert rest[j - 1..] == chunks[j..];
    }
  }

  // ---------------------------------------------------------------------
  // Which replies are found

  /** One record of a reply: taken if its flags and length are acceptable, skipped if not. */
  lemma {:induction false} OneGoodRecord(b: seq<byte>)
    requires |b| == 40
    ensures GoodRecords(b) == if b[30] < 32 && b[29] <= 8 then [RawFrame(b)] else []
  {
    assert b[..RECORD_SIZE] == b && b[RECORD_SIZE..] == [];
  }

  /** The records of two stretches are those of the first and then those of the second. */
  lemma {:induction false} GoodRecordsInOrder(a: seq<byte>, n: nat, b: seq<byte>)
    requires |a| == 40 * n
    ensures GoodRecords(a + b) == GoodRecords(a) + GoodRecords(b)
    decreases n
  {
    hide GoodRecords;
    if n == 0 {
      assert a + b == b;
      NoGoodRecords(a);
    } else {
      SplitBehind(a, b, 40);
      FirstGoodRecord(a);
      FirstGoodRecord(a + b);
      GoodRecordsInOrder(a[40..], n - 1, b);
      var first := GoodRecords(a[..40]);
      assert first + (GoodRecords(a[40..]) + GoodRecords(b)) == (first + GoodRecords(a[40..])) + GoodRecords(b);
    }
  }

  lemma {:induction false} SplitBehind(a: seq<byte>, b: seq<byte>, n: nat)
    requires n <= |a|
    ensures (a + b)[..n] == a[..n] && (a + b)[n..] == a[n..] + b
  {}

  lemma {:induction false} FirstGoodRecord(b: seq<byte>)
    requires |b| >= 40
    ensures GoodRecords(b) == GoodRecords(b[..40]) + GoodRecords(b[40..])
  {
    hide DecodeFrame;
    var x := b[..40];
    assert x[..RECORD_SIZE] == x && x[RECORD_SIZE..] == [];
  }

  lemma {:induction false} GoodRecordsOfBytes(fs: seq<Frame>)
    requires forall i | 0 <= i < |fs| :: Acceptable(fs[i])
    ensures GoodRecords(RecordBytes(fs)) == fs
  {
    if fs != [] {
      var b := RecordBytes(fs);
      assert b[..RECORD_SIZE] == FrameBytes(fs[0]) && b[RECORD_SIZE..] == RecordBytes(fs[1..]);
      DecodeAfterEncode(fs[0]);
      GoodRecordsOfBytes(fs[1..]);
      assert [fs[0]] + fs[1..] == fs;
    }
  }

  lemma {:induction false} ScanOne(fs: seq<Frame>, tail: seq<byte>)
    requires Printable(fs)
    ensures ScanReplies(BatchBytes(fs) + tail) == Scan(fs + ScanReplies(tail).frames, ScanReplies(tail).rest)
  {
    var b, n := BatchBytes(fs) + tail, |BatchBytes(fs)|;
    DecodeHeaderAfterEncode(|fs|);
    GoodRecordsOfBytes(fs);
    hide DecodeHeader;
    hide GoodRecords;
    hide ScanReplies;
    hide HeaderBytes;
    hide RecordBytes;
    ScanStep(b);
    assert b[..HEADER_SIZE] == HeaderBytes(|fs|) && b[HEADER_SIZE..n] == RecordBytes(fs) && b[n..] == tail;
  }

  /** Printed replies are found, all of them and in order, whatever comes behind. */
  lemma {:induction false} ScanThrough(bs: seq<seq<Frame>>, tail: seq<byte>)
    requires AllPrintable(bs)
    ensures ScanReplies(StreamBytes(bs) + tail) == Scan(Concat(bs) + ScanReplies(tail).frames, ScanReplies(tail).rest)
  {
    hide ScanReplies;
    hide BatchBytes;
    hide Concat;
    if bs == [] {
      NothingConcat();
      assert StreamBytes(bs) + tail == tail;
      assert [] + ScanReplies(tail).frames == ScanReplies(tail).frames;
    } else {
      StreamInitPrintable(bs);
      var init, last := bs[..|bs| - 1], bs[|bs| - 1];
      ScanThrough(init, BatchBytes(last) + tail);
      ScanOne(last, tail);
      ConcatSnoc(init, last);
      assert init + [last] == bs;
      assert (StreamBytes(init) + BatchBytes(last)) + tail == StreamBytes(init) + (BatchBytes(last) + tail);
      var more := ScanReplies(tail).frames;
      assert Concat(init) + (last + more) == (Concat(init) + last) + more;
    }
  }

  /** Behind the last whole reply: the start of one more is kept for later, and a
      header that does not decode throws the buffer away. */
  lemma {:induction false} ScanTail(tail: seq<byte>, fs: seq<Frame>)
    ensures Printable(fs) && tail < BatchBytes(fs) ==> ScanReplies(tail) == Scan([], tail)
    ensures |tail| >= 16 && DecodeHeader(tail[..16]).Err? ==> ScanReplies(tail) == Scan([], [])
  {
    hide GoodRecords;
    hide ScanReplies;
    ScanStep(tail);
    if Printable(fs) && tail < BatchBytes(fs) && |tail| >= HEADER_SIZE {
      assert tail[..HEADER_SIZE] == HeaderBytes(|fs|);
      DecodeHeaderAfterEncode(|fs|);
    }
  }

  /** The probe numbered `nonce` is among these records. */
  predicate HasEcho(fs: seq<Frame>, nonce: nat) {
    exists i | 0 <= i < |fs| :: fs[i].flags % 32 >= 16 && fs[i].seqNo == nonce
  }

  lemma {:induction false} AnswersIsHasEcho(fs: seq<Frame>, nonce: nat)
    ensures Answers(fs, nonce) <==> HasEcho(fs, nonce)
  {
    hide IsEcho;
    forall i | 0 <= i < |fs| ensures IsEcho(fs[i]) <==> fs[i].flags % 32 >= 16 { ControlBits(fs[i]); }
    if Answers(fs, nonce) {
      var i :| 0 <= i < |fs| && IsEcho(fs[i]) && fs[i].seqNo == nonce;
      assert fs[i].flags % 32 >= 16 && fs[i].seqNo == nonce;
    }
    if HasEcho(fs, nonce) {
      var i :| 0 <= i < |fs| && fs[i].flags % 32 >= 16 && fs[i].seqNo == nonce;
      assert IsEcho(fs[i]) && fs[i].seqNo == nonce;
    }
  }

  /** Of replies that arrive in any chunks, the probe that is out is answered exactly
      if its echo is in one that is complete by now. */
  lemma {:induction false} AnsweredByEcho(
    buf: seq<byte>, chunks: seq<seq<byte>>, bs: seq<seq<Frame>>, next: seq<Frame>, cut: seq<byte>, nonce: nat)
    requires |buf| + |Joined(chunks)| <= 65536 && AllPrintable(bs) && Printable(next) && cut < BatchBytes(next)
    requires buf + Joined(chunks) == StreamBytes(bs) + cut
    ensures Answers(ScanReplies(Buffered(buf, chunks)).frames, nonce) <==> HasEcho(Concat(bs), nonce)
    ensures ScanReplies(Buffered(buf, chunks)).rest == cut
  {
    hide ScanReplies;
    hide Buffered;
    hide BatchBytes;
    hide StreamBytes;
    hide Concat;
    BufferedAll(buf, chunks);
    ScanThrough(bs, cut);
    ScanTail(cut, next);
    assert Concat(bs) + [] == Concat(bs);
    AnswersIsHasEcho(Concat(bs), nonce);
  }

  /** A pass that receives the rest of a reply. However it was split, if it holds the
      echo of the probe that is out there is exactly one round-trip sample more, the
      time from sending the probe to now; otherwise there is none. */
  method PassScores(e: Egress, turn: Turn, ghost bs: seq<seq<Frame>>, ghost next: seq<Frame>, ghost cut: seq<byte>)
    returns (after: After)
    requires e.Valid() && e.connected && e.pending == [] && e.echo.outstanding && !turn.gone
    requires PopsFit(turn.pops, e.maxFrames) && e.echo.nonce + 1 < 0x1_0000_0000_0000_0000
    requires |e.replyBuf| + |Joined(turn.replies)| <= 65536
    requires AllPrintable(bs) && Printable(next) && cut < BatchBytes(next)
    requires e.replyBuf + Joined(turn.replies) == StreamBytes(bs) + cut
    modifies e
    ensures e.Valid()
    ensures e.rtt == old(e.rtt) + if HasEcho(Concat(bs), old(e.echo.nonce))
                                  then [turn.repliedAt - old(e.echo.sentAt)] else []
  {
    hide *;
    ghost var hit := HasEcho(Concat(bs), e.echo.nonce);
    AnsweredByEcho(e.replyBuf, turn.replies, bs, next, cut, e.echo.nonce);
    after := PassAnswered(e, turn, hit);
  }

  method PassAnswered(e: Egress, turn: Turn, ghost hit: bool) returns (after: After)
    requires e.Valid() && e.connected && e.pending == [] && e.echo.outstanding && !turn.gone
    requires PopsFit(turn.pops, e.maxFrames) && e.echo.nonce + 1 < 0x1_0000_0000_0000_0000
    requires hit == Answers(ScanReplies(Buffered(e.replyBuf, turn.replies)).frames, e.echo.nonce)
    modifies e
    ensures e.Valid()
    ensures e.rtt == old(e.rtt) + if hit then [turn.repliedAt - old(e.echo.sentAt)] else []
  {
    hide *;
    AnsweredIs(e, turn.replies);
    after := e.Pass(turn);
  }

  lemma {:induction false} AnsweredIs(e: Egress, chunks: seq<seq<byte>>)
    ensures e.Answered(chunks) <==>
            e.echo.outstanding && Answers(ScanReplies(Buffered(e.replyBuf, chunks)).frames, e.echo.nonce)
  {
    hide ScanReplies;
    hide Buffered;
  }

  // ---------------------------------------------------------------------
  // When probes go out

  /** At any point of any run, over all rounds of all connections: a round carries a
      probe exactly if probing is on and an interval has passed since every earlier
      probe; probes are numbered from 1 without a gap and carry the time they were
      sent. So two probes are never less than an interval apart, and a batch that
      goes out when one is due carries it. */
  lemma {:induction false} ProbesKeepPace(e: Egress, i: nat)
    requires e.Valid() && i < |RoundsBefore(e.ledger.past) + e.link.rounds|
    ensures var rounds := RoundsBefore(e.ledger.past) + e.link.rounds;
            var probes := rounds[i].probes;
            && (probes != [] <==>
                  && e.echoInterval != 0
                  && forall j | 0 <= j < i && rounds[j].probes != [] :: rounds[i].now - rounds[j].now >= e.echoInterval)
            && (probes != [] ==>
                  && |probes| == 1 && IsEcho(probes[0])
                  && probes[0].seqNo == Probed(rounds[..i]) + 1 && probes[0].tIngest == rounds[i].now)
  {
    hide WireFits;
    hide BytesBalanced;
    hide CountsBalanced;
    hide EchoBalanced;
    hide Chained;
    assert ProbedInTime(e.echoInterval, RoundsBefore(e.ledger.past) + e.link.rounds, i);
  }
}
