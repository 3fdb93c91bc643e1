/** Whole batch streams: printing, one-shot parsing, and the laws between them. */
module BatchStream {
  import opened Wire

  /** What one `read_batch` yields: a batch, or the records before a bad one. */
  datatype Message = Batch(frames: seq<Frame>) | BadRecord(frames: seq<Frame>, error: DecodeError)

  datatype Parsed = Parsed(messages: seq<Message>, rest: seq<byte>)

  /** A batch the gateway may print. */
  predicate Printable(fs: seq<Frame>) {
    |fs| <= MAX_COUNT && forall i | 0 <= i < |fs| :: Acceptable(fs[i])
  }

  function RecordBytes(fs: seq<Frame>): (b: seq<byte>)
    ensures |b| == 40 * |fs|
  {
    if fs == [] then [] else FrameBytes(fs[0]) + RecordBytes(fs[1..])
  }

  function BatchBytes(fs: seq<Frame>): (b: seq<byte>)
    requires |fs| <= MAX_COUNT
    ensures |b| == HEADER_SIZE + 40 * |fs|
  {
    HeaderBytes(|fs|) + RecordBytes(fs)
  }

  ghost predicate AllPrintable(bs: seq<seq<Frame>>) { forall i | 0 <= i < |bs| :: Printable(bs[i]) }

  ghost function StreamBytes(bs: seq<seq<Frame>>): seq<byte>
    requires AllPrintable(bs)
  {
    if bs == [] then [] else StreamBytes(bs[..|bs| - 1]) + BatchBytes(bs[|bs| - 1])
  }

  function Prepend(fs: seq<Frame>, m: Message): Message {
    match m
    case Batch(gs) => Batch(fs + gs)
    case BadRecord(gs, e) => BadRecord(fs + gs, e)
  }

  /** A record that is cut short cannot follow an accepted header. */
  function DecodeRecords(b: seq<byte>): Message
    decreases |b|
  {
    if |b| < RECORD_SIZE then Batch([])
    else match DecodeFrame(b[..RECORD_SIZE])
         case Err(e) => BadRecord([], e)
         case Ok(f) => Prepend([f], DecodeRecords(b[RECORD_SIZE..]))
  }

  /** Decoding record `i` of `n`, then the rest. */
  lemma {:induction false} DecodeRecordAt(b: seq<byte>, i: nat, n: nat)
    requires i < n && |b| == 40 * n
    ensures DecodeRecords(b[40 * i..]) ==
            match DecodeFrame(b[40 * i..40 * i + RECORD_SIZE])
            case Err(e) => BadRecord([], e)
            case Ok(f) => Prepend([f], DecodeRecords(b[40 * i + RECORD_SIZE..]))
  {
    hide DecodeFrame;
    var tail := b[40 * i..];
    assert tail[..RECORD_SIZE] == b[40 * i..40 * i + RECORD_SIZE];
    assert tail[RECORD_SIZE..] == b[40 * i + RECORD_SIZE..];
  }

  lemma {:induction false} PrependTwice(fs: seq<Frame>, gs: seq<Frame>, m: Message)
    ensures Prepend(fs, Prepend(gs, m)) == Prepend(fs + gs, m)
  {
    assert fs + (gs + m.frames) == (fs + gs) + m.frames;
  }

  /** The bytes begin with a complete message behind an acceptable header. */
  predicate HasMessage(b: seq<byte>) {
    && |b| >= HEADER_SIZE
    && DecodeHeader(b[..HEADER_SIZE]).Ok?
    && |b| >= HEADER_SIZE + DecodeHeader(b[..HEADER_SIZE]).value.payloadLen
  }

  function MessageLen(b: seq<byte>): (n: nat)
    requires HasMessage(b)
    ensures HEADER_SIZE <= n <= |b|
  {
    HEADER_SIZE + DecodeHeader(b[..HEADER_SIZE]).value.payloadLen
  }

  /** One-shot parse of a whole stream. A refused header is never passed: it
      stays at the front of `rest`, as the incremental reader stays on it. */
  function Parse(b: seq<byte>): Parsed
    decreases |b|
  {
    if !HasMessage(b) then Parsed([], b)
    else
      var n := MessageLen(b);
      var tail := Parse(b[n..]);
      Parsed([DecodeRecords(b[HEADER_SIZE..n])] + tail.messages, tail.rest)
  }

  lemma {:induction false} FirstMessageStays(a: seq<byte>, b: seq<byte>)
    requires HasMessage(a)
    ensures HasMessage(a + b) && MessageLen(a + b) == MessageLen(a)
    ensures (a + b)[HEADER_SIZE..MessageLen(a)] == a[HEADER_SIZE..MessageLen(a)]
    ensures (a + b)[MessageLen(a)..] == a[MessageLen(a)..] + b
  {
    assert (a + b)[..HEADER_SIZE] == a[..HEADER_SIZE];
  }

  function Then(p: Parsed, q: Parsed): Parsed { Parsed(p.messages + q.messages, q.rest) }

  function First(b: seq<byte>): Message
    requires HasMessage(b)
  {
    DecodeRecords(b[HEADER_SIZE..MessageLen(b)])
  }

  lemma {:induction false} ParseStep(b: seq<byte>)
    ensures Parse(b) == if HasMessage(b) then Then(Parsed([First(b)], []), Parse(b[MessageLen(b)..])) else Parsed([], b)
  {
    hide MessageLen;
    hide HasMessage;
    hide DecodeRecords;
  }

  /** Parsing may stop anywhere and resume on what was left over. */
  lemma {:induction false} ParseResumes(a: seq<byte>, b: seq<byte>)
    ensures Parse(a + b) == Then(Parse(a), Parse(Parse(a).rest + b))
    decreases |a|
  {
    hide MessageLen;
    hide HasMessage;
    hide DecodeRecords;
    hide Parse;
    ParseStep(a);
    if HasMessage(a) {
      FirstMessageStays(a, b);
      ParseStep(a + b);
      ParseResumes(a[MessageLen(a)..], b);
      var p := Parse(a[MessageLen(a)..]);
      var q := Parse(p.rest + b);
      assert [First(a)] + (p.messages + q.messages) == ([First(a)] + p.messages) + q.messages;
    } else {
      assert [] + Parse(a + b).messages == Parse(a + b).messages;
    }
  }

  /** How far a parse gets on a header alone, or on less than one. */
  lemma {:induction false} ParseUpToHeader(b: seq<byte>)
    requires |b| <= HEADER_SIZE
    ensures Parse(b) ==
            if |b| == HEADER_SIZE && DecodeHeader(b).Ok? && DecodeHeader(b).value.payloadLen == 0
            then Parsed([Batch([])], []) else Parsed([], b)
  {
    hide DecodeHeader;
    ParseStep(b);
    if |b| == HEADER_SIZE {
      assert b[..HEADER_SIZE] == b;
      if HasMessage(b) {
        assert b[HEADER_SIZE..MessageLen(b)] == [];
        assert b[MessageLen(b)..] == [];
        ParseStep([]);
        assert [Batch([])] + [] == [Batch([])];
      }
    }
  }

  /** How far a parse gets into the payload behind an accepted header. */
  lemma {:induction false} ParseUpToPayload(records: nat, x: seq<byte>)
    requires 0 < records <= MAX_COUNT && |x| <= 40 * records
    ensures Parse(HeaderBytes(records) + x) ==
            if |x| == 40 * records then Parsed([DecodeRecords(x)], []) else Parsed([], HeaderBytes(records) + x)
  {
    var b := HeaderBytes(records) + x;
    assert b[..HEADER_SIZE] == HeaderBytes(records);
    DecodeHeaderAfterEncode(records);
    hide DecodeHeader;
    hide HeaderBytes;
    hide DecodeRecords;
    hide Parse;
    ParseStep(b);
    if HasMessage(b) {
      assert b[HEADER_SIZE..MessageLen(b)] == x && b[MessageLen(b)..] == [];
      ParseStep([]);
      assert [DecodeRecords(x)] + [] == [DecodeRecords(x)];
    }
  }

  lemma {:induction false} DecodeRecordsOfBytes(fs: seq<Frame>)
    requires forall i | 0 <= i < |fs| :: Acceptable(fs[i])
    ensures DecodeRecords(RecordBytes(fs)) == Batch(fs)
  {
    if fs != [] {
      var b := RecordBytes(fs);
      assert b[..RECORD_SIZE] == FrameBytes(fs[0]) && b[RECORD_SIZE..] == RecordBytes(fs[1..]);
      DecodeAfterEncode(fs[0]);
      DecodeRecordsOfBytes(fs[1..]);
      assert [fs[0]] + fs[1..] == fs;
    }
  }

  /** A bad record is reported with everything before it, whatever comes behind. */
  lemma {:induction false} DecodeRecordsUpToBad(fs: seq<Frame>, bad: seq<byte>, rest: seq<byte>)
    requires forall i | 0 <= i < |fs| :: Acceptable(fs[i])
    requires |bad| == RECORD_SIZE && DecodeFrame(bad).Err?
    ensures DecodeRecords(RecordBytes(fs) + bad + rest) == BadRecord(fs, DecodeFrame(bad).error)
  {
    var b := RecordBytes(fs) + bad + rest;
    if fs == [] {
      assert b[..RECORD_SIZE] == bad;
    } else {
      assert b[..RECORD_SIZE] == FrameBytes(fs[0]);
      assert b[RECORD_SIZE..] == RecordBytes(fs[1..]) + bad + rest;
      DecodeAfterEncode(fs[0]);
      DecodeRecordsUpToBad(fs[1..], bad, rest);
      assert [fs[0]] + fs[1..] == fs;
    }
  }

  /** A strict prefix of a printed batch holds no message; all of it holds exactly one. */
  lemma {:induction false} ParseBatchPrefix(fs: seq<Frame>, w: seq<byte>)
    requires Printable(fs) && w <= BatchBytes(fs)
    ensures Parse(w) == if w == BatchBytes(fs) then Parsed([Batch(fs)], []) else Parsed([], w)
  {
    var b := BatchBytes(fs);
    DecodeHeaderAfterEncode(|fs|);
    hide DecodeHeader;
    hide HeaderBytes;
    hide RecordBytes;
    hide DecodeRecords;
    hide Parse;
    ParseStep(w);
    if |w| >= HEADER_SIZE {
      assert w[..HEADER_SIZE] == b[..HEADER_SIZE] == HeaderBytes(|fs|);
      if w == b {
        assert b[HEADER_SIZE..|b|] == RecordBytes(fs) && b[|b|..] == [];
        DecodeRecordsOfBytes(fs);
        ParseStep([]);
        assert [Batch(fs)] + [] == [Batch(fs)];
      }
    }
  }

  function Batches(bs: seq<seq<Frame>>): seq<Message> {
    seq(|bs|, i requires 0 <= i < |bs| => Batch(bs[i]))
  }

  lemma {:induction false} StreamInitPrintable(bs: seq<seq<Frame>>)
    requires AllPrintable(bs) && bs != []
    ensures AllPrintable(bs[..|bs| - 1]) && Printable(bs[|bs| - 1]) && |bs[|bs| - 1]| <= MAX_COUNT
    ensures StreamBytes(bs) == StreamBytes(bs[..|bs| - 1]) + BatchBytes(bs[|bs| - 1])
  {
    hide BatchBytes;
    var init := bs[..|bs| - 1];
    forall i | 0 <= i < |init| ensures Printable(init[i]) { assert init[i] == bs[i]; }
  }

  lemma {:induction false} NothingPrinted(bs: seq<seq<Frame>>)
    requires bs == []
    ensures AllPrintable(bs) && StreamBytes(bs) == [] && Batches(bs) == []
  {}

  /** Where a cut through two stretches of bytes falls. */
  lemma {:induction false} CutThrough(head: seq<byte>, tail: seq<byte>, w: seq<byte>)
    requires w <= head + tail
    ensures if |w| < |head| then w <= head else w == head + w[|head|..] && w[|head|..] <= tail
  {
    if |w| >= |head| {
      var cut := w[|head|..];
      assert forall i | 0 <= i < |cut| :: cut[i] == w[|head| + i] == (head + tail)[|head| + i] == tail[i];
    }
  }

  /** A printed stream and the start of one more batch. */
  lemma {:induction false} ParseOneMore(bs: seq<seq<Frame>>, last: seq<Frame>, cut: seq<byte>)
    requires AllPrintable(bs) && Printable(last) && cut <= BatchBytes(last)
    requires Parse(StreamBytes(bs)) == Parsed(Batches(bs), [])
    ensures Parse(StreamBytes(bs) + cut) ==
            if cut == BatchBytes(last) then Parsed(Batches(bs + [last]), []) else Parsed(Batches(bs), cut)
  {
    hide Parse;
    hide BatchBytes;
    ParseResumes(StreamBytes(bs), cut);
    assert [] + cut == cut;
    ParseBatchPrefix(last, cut);
    assert Batches(bs) + [Batch(last)] == Batches(bs + [last]);
    assert Batches(bs) + [] == Batches(bs);
  }

  /** Parse after print is the identity on whole batch streams. */
  lemma {:induction false} ParseAfterPrint(bs: seq<seq<Frame>>)
    requires AllPrintable(bs)
    ensures Parse(StreamBytes(bs)) == Parsed(Batches(bs), [])
  {
    hide Parse;
    hide BatchBytes;
    hide Printable;
    hide AllPrintable;
    hide StreamBytes;
    hide Batches;
    if bs == [] {
      NothingPrinted(bs);
      ParseStep([]);
    } else {
      StreamInitPrintable(bs);
      var init, last := bs[..|bs| - 1], bs[|bs| - 1];
      ParseAfterPrint(init);
      ParseOneMore(init, last, BatchBytes(last));
      assert init + [last] == bs;
    }
  }

  /** A stream cut off anywhere parses to its first complete batches; the cut
      falls strictly inside the next one. */
  lemma {:induction false} ParsePrefix(bs: seq<seq<Frame>>, w: seq<byte>) returns (k: nat)
    requires AllPrintable(bs)
    requires w <= StreamBytes(bs)
    ensures k <= |bs| && Parse(w).messages == Batches(bs[..k])
    ensures AllPrintable(bs[..k]) && w == StreamBytes(bs[..k]) + Parse(w).rest
    ensures if k == |bs| then Parse(w).rest == [] else Parse(w).rest < BatchBytes(bs[k])
  {
    hide Parse;
    hide BatchBytes;
    hide Printable;
    hide AllPrintable;
    hide StreamBytes;
    hide Batches;
    if bs == [] {
      k := 0;
      NothingPrinted(bs);
      ParseAfterPrint(bs);
      assert bs[..0] == bs;
    } else {
      StreamInitPrintable(bs);
      var init, last := bs[..|bs| - 1], bs[|bs| - 1];
      var head := StreamBytes(init);
      CutThrough(head, BatchBytes(last), w);
      if |w| < |head| {
        k := ParsePrefix(init, w);
        assert init[..k] == bs[..k];
      } else {
        var cut := w[|head|..];
        ParseAfterPrint(init);
        ParseOneMore(init, last, cut);
        if cut == BatchBytes(last) {
          k := |bs|;
          assert init + [last] == bs == bs[..k];
          assert w == w + [];
        } else {
          k := |bs| - 1;
        }
      }
    }
  }

  /** A header that does not decode stops the parse where it stands. */
  lemma {:induction false} ParseStopsAtBadHeader(bs: seq<seq<Frame>>, bad: seq<byte>)
    requires AllPrintable(bs) && |bad| >= HEADER_SIZE && DecodeHeader(bad[..HEADER_SIZE]).Err?
    ensures Parse(StreamBytes(bs) + bad) == Parsed(Batches(bs), bad)
  {
    hide Parse;
    hide StreamBytes;
    hide AllPrintable;
    hide Batches;
    ParseAfterPrint(bs);
    ParseResumes(StreamBytes(bs), bad);
    assert [] + bad == bad && Batches(bs) + [] == Batches(bs);
    ParseStep(bad);
  }
}
