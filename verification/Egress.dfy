/** One consumer's outbound path: markers, probes, encoding and partial writes. */
module Egress {
  import opened Wire
  import opened BatchStream
  import opened LossAccounting
  import opened Connection

  const MAX_BATCH: nat := 4096
  const REPLY_LIMIT: nat := 65536

  datatype Wake = Writable | PollTimedOut | PollInterrupted | StopRequested | PollFailed

  /** What one `send` does. `WouldBlock` carries the outcome of parking on poll. */
  datatype SendEvent = Wrote(n: nat) | WouldBlock(wake: Wake) | SendInterrupted | Broken

  /** `Blocked`: the schedule ends while bytes are still waiting to be written. */
  datatype FlushResult = Flushed | Lost | Blocked

  /** Everything the outside world decides during one pass of the run loop. */
  datatype Turn = Turn(
    stop: bool,                  // wait_for_client saw the stop eventfd
    gone: bool,                  // client_gone
    replies: seq<seq<byte>>,     // what recv returned, chunk by chunk
    repliedAt: u64,              // the clock in drain_replies
    pops: seq<seq<Frame>>,       // successive pop_batch results
    closed: bool,                // feed_.closed()
    now: u64,                    // the clock in note_gap and maybe_send_echo
    sends: seq<SendEvent>)

  datatype After = Continue | Return

  /** How a flush ends, how many bytes it wrote, and what it counted on the way. */
  datatype Fate = Fate(result: FlushResult, written: nat, blocked: nat, partial: nat)

  /** What a schedule of sends does to `remaining` bytes. */
  function FlushFate(sends: seq<SendEvent>, remaining: nat): (fate: Fate)
    ensures fate.written <= remaining
    ensures fate.result.Flushed? <==> fate.written == remaining
    decreases |sends|
  {
    if remaining == 0 then Fate(Flushed, 0, 0, 0)
    else if sends == [] then Fate(Blocked, 0, 0, 0)
    else match sends[0]
      case Wrote(n) =>
        if n == 0 then Fate(Lost, 0, 0, 0)
        else if n < remaining then
          var rest := FlushFate(sends[1..], remaining - n);
          rest.(written := n + rest.written, partial := rest.partial + 1)
        else Fate(Flushed, remaining, 0, 0)
      case WouldBlock(wake) =>
        if wake.PollFailed? || wake.StopRequested? then Fate(Lost, 0, 1, 0)
        else var rest := FlushFate(sends[1..], remaining); rest.(blocked := rest.blocked + 1)
      case SendInterrupted => FlushFate(sends[1..], remaining)
      case Broken => Fate(Lost, 0, 0, 0)
  }

  lemma {:induction false} FateAt(sends: seq<SendEvent>, i: nat, remaining: nat)
    requires i < |sends| && remaining > 0
    ensures var fate := FlushFate(sends[i..], remaining);
            match sends[i]
            case Wrote(n) =>
              if n == 0 then fate == Fate(Lost, 0, 0, 0)
              else if n < remaining then
                var rest := FlushFate(sends[i + 1..], remaining - n);
                fate == rest.(written := n + rest.written, partial := rest.partial + 1)
              else fate == Fate(Flushed, remaining, 0, 0)
            case WouldBlock(wake) =>
              if wake.PollFailed? || wake.StopRequested? then fate == Fate(Lost, 0, 1, 0)
              else var rest := FlushFate(sends[i + 1..], remaining); fate == rest.(blocked := rest.blocked + 1)
            case SendInterrupted => fate == FlushFate(sends[i + 1..], remaining)
            case Broken => fate == Fate(Lost, 0, 0, 0)
  {
    assert sends[i..][0] == sends[i] && sends[i..][1..] == sends[i + 1..];
  }

  lemma {:induction false} FateEnds(sends: seq<SendEvent>, remaining: nat)
    ensures remaining == 0 ==> FlushFate(sends, remaining) == Fate(Flushed, 0, 0, 0)
    ensures remaining > 0 && sends == [] ==> FlushFate(sends, remaining) == Fate(Blocked, 0, 0, 0)
  {}

  /** A finished connection: `whole` of its batches were flushed completely. */
  datatype Past = Past(start: Sender, rounds: seq<Round>, whole: nat, sent: seq<byte>)

  /** Behind a batch there is at most one record more, and it is a probe. */
  predicate ProbesFit(rounds: seq<Round>) {
    forall i | 0 <= i < |rounds| :: |rounds[i].probes| <= 1 && OnlyEchoes(rounds[i].probes)
  }

  /** A connection's bytes are its first `whole` batches and a strict prefix of
      at most one more. */
  ghost predicate PastOk(p: Past) {
    && Filled(p.rounds) && ProbesFit(p.rounds) && AllPrintable(WireBatches(p.start, p.rounds))
    && p.whole <= |p.rounds| <= p.whole + 1
    && (var bs := WireBatches(p.start, p.rounds);
        if p.whole == |bs| then p.sent == StreamBytes(bs)
        else exists cut :: p.sent == StreamBytes(bs[..p.whole]) + cut && cut < BatchBytes(bs[p.whole]))
  }

  function TotalSent(ps: seq<Past>): nat {
    if ps == [] then 0 else TotalSent(ps[..|ps| - 1]) + |ps[|ps| - 1].sent|
  }

  function TotalWhole(ps: seq<Past>): nat {
    if ps == [] then 0 else TotalWhole(ps[..|ps| - 1]) + ps[|ps| - 1].whole
  }

  /** The wire holds exactly the encoded rounds, less what is still pending -
      and only the last batch can be pending. */
  ghost predicate WireFits(link: Link, pending: seq<byte>, offset: nat) {
    && Filled(link.rounds) && ProbesFit(link.rounds) && AllPrintable(WireBatches(link.start, link.rounds))
    && (var bs := WireBatches(link.start, link.rounds);
        if pending == [] then offset == 0 && link.wire == StreamBytes(bs)
        else
          && link.rounds != [] && offset < |pending|
          && pending == BatchBytes(bs[|bs| - 1])
          && AllPrintable(bs[..|bs| - 1]) && link.wire == StreamBytes(bs[..|bs| - 1]) + pending[..offset])
  }

  /** A connection cut off `n` bytes into the batch being written, or between batches. */
  lemma {:induction false} PastIsOk(link: Link, pending: seq<byte>, n: nat)
    requires WireFits(link, pending, n)
    ensures PastOk(Past(link.start, link.rounds, Whole(pending, link.rounds), link.wire))
  {
    hide BatchBytes;
    hide StreamBytes;
    hide WireBatches;
    var bs := WireBatches(link.start, link.rounds);
    if pending != [] {
      var cut := pending[..n];
      assert link.wire == StreamBytes(bs[..|bs| - 1]) + cut && cut < BatchBytes(bs[|bs| - 1]);
    }
  }

  lemma {:induction false} FilledByFit(link: Link, pending: seq<byte>, n: nat)
    requires WireFits(link, pending, n)
    ensures Filled(link.rounds) && OnlyProbes(link.rounds)
  {
    hide WireBatches;
    hide StreamBytes;
    hide BatchBytes;
  }

  lemma {:induction false} NothingSentYet(start: Sender)
    ensures WireFits(Link(start, [], []), [], 0) && SenderAfter(start, []) == start
  {}

  lemma {:induction false} PrintableAppend(bs: seq<seq<Frame>>, b: seq<Frame>)
    requires AllPrintable(bs) && Printable(b)
    ensures AllPrintable(bs + [b]) && StreamBytes(bs + [b]) == StreamBytes(bs) + BatchBytes(b)
  {
    hide BatchBytes;
    hide Printable;
    var all := bs + [b];
    forall i | 0 <= i < |all| ensures Printable(all[i]) {
      if i < |bs| { assert all[i] == bs[i]; }
    }
    assert all[..|bs|] == bs;
  }

  lemma {:induction false} RoundIsPrintable(s: Sender, r: Round)
    requires 0 < |r.batch| <= MAX_BATCH && |r.probes| <= 1
    requires forall i | 0 <= i < |r.batch| :: Acceptable(r.batch[i])
    requires forall i | 0 <= i < |r.probes| :: Acceptable(r.probes[i])
    ensures Printable(RoundRecords(s, r))
  {
    hide MakeGap;
    var m := Marker(s, r.batch, r.now);
    assert |m| <= 1 && forall i | 0 <= i < |m| :: Acceptable(m[i]) by {
      if m != [] {
        var reason := if s.reconnected then CONSUMER_ABSENT else CONSUMER_OVERRUN;
        GapRoundTrip(s.nextSeq, r.batch[0].seqNo - s.nextSeq, reason, r.now);
      }
    }
  }

  /** Noting a round and encoding it leaves the whole batch pending. */
  lemma {:induction false} RoundStarts(link: Link, r: Round)
    requires WireFits(link, [], 0) && r.batch != [] && |r.probes| <= 1 && OnlyEchoes(r.probes)
    requires Printable(RoundRecords(SenderAfter(link.start, link.rounds), r))
    ensures var records := RoundRecords(SenderAfter(link.start, link.rounds), r);
            WireFits(link.(rounds := link.rounds + [r]), BatchBytes(records), 0)
    ensures Filled(link.rounds + [r]) && SenderAfter(link.start, link.rounds + [r]) == AfterBatch(r.batch)
  {
    hide BatchBytes;
    hide WireBatches;
    hide RoundRecords;
    var records := RoundRecords(SenderAfter(link.start, link.rounds), r);
    var bs := WireBatches(link.start, link.rounds);
    WireBatchesAppend(link.start, link.rounds, r);
    PrintableAppend(bs, records);
    assert (bs + [records])[..|bs|] == bs;
    assert BatchBytes(records) != [];
    assert StreamBytes(bs) + BatchBytes(records)[..0] == StreamBytes(bs);
  }

  /** Writing on from the start of the pending batch. */
  lemma {:induction false} RoundProceeds(link: Link, pending: seq<byte>, k: nat)
    requires WireFits(link, pending, 0) && pending != [] && k <= |pending|
    ensures var link' := link.(wire := link.wire + pending[..k]);
            if k < |pending| then WireFits(link', pending, k) else WireFits(link', [], 0)
  {
    hide BatchBytes;
    hide Printable;
    hide WireBatches;
    var bs := WireBatches(link.start, link.rounds);
    var init, last := bs[..|bs| - 1], bs[|bs| - 1];
    assert link.wire == StreamBytes(init);
    assert init + [last] == bs;
    assert Printable(last);
    PrintableAppend(init, last);
    assert pending[..|pending|] == pending;
  }

  function Whole(pending: seq<byte>, rounds: seq<Round>): nat {
    if pending == [] || rounds == [] then |rounds| else |rounds| - 1
  }

  ghost predicate PastsOk(ps: seq<Past>) { forall i | 0 <= i < |ps| :: PastOk(ps[i]) }

  /** The round-trip probe: `nonce` of the last one sent, when, and whether it is still out. */
  datatype Probe = Probe(nonce: nat, sentAt: nat, outstanding: bool, nextAt: nat)

  /** The probe, if any, that goes out behind a batch at time `now`. */
  function Due(interval: nat, echo: Probe, now: u64): seq<Frame>
    requires echo.nonce + 1 < 0x1_0000_0000_0000_0000
  {
    if interval != 0 && now >= echo.nextAt then [MakeEcho(echo.nonce + 1, now)] else []
  }

  /** The counters a stats line reports. */
  datatype Stats = Stats(
    batchesSent: nat, framesSent: nat, bytesSent: nat, wouldBlock: nat, partialWrites: nat,
    connects: nat, disconnects: nat, gapsSent: nat, framesLost: nat,
    echoesSent: nat, echoesReturned: nat, echoesLost: nat, lingered: nat)

  /** History of the current connection: the sender state it began with, the
      rounds noted on it and the bytes put on its wire. */
  datatype Link = Link(start: Sender, rounds: seq<Round>, wire: seq<byte>)

  /** History beyond it: earlier connections, probes that were out when one of
      them ended, and the nonces that produced an RTT sample. */
  datatype Ledger = Ledger(past: seq<Past>, abandoned: nat, answered: seq<nat>)

  /** Every probe is answered, written off, abandoned or still out; nonces count
      the probes, and no probe is answered twice. */
  ghost predicate EchoBalanced(nonce: nat, outstanding: bool, sent: nat, returned: nat, lost: nat,
                               abandoned: nat, answered: seq<nat>, samples: nat) {
    && nonce == sent
    && sent == returned + lost + abandoned + (if outstanding then 1 else 0)
    && samples == |answered| == returned
    && Increasing(answered)
    && (forall i | 0 <= i < |answered| :: if outstanding then answered[i] < nonce else answered[i] <= nonce)
  }

  /** The byte and batch counters are the sums over all connections so far. */
  ghost predicate BytesBalanced(pending: seq<byte>, rounds: seq<Round>, written: nat, past: seq<Past>,
                                bytes: nat, batches: nat, disconnects: nat) {
    && PastsOk(past)
    && bytes == TotalSent(past) + written
    && batches == TotalWhole(past) + Whole(pending, rounds)
    && |past| == disconnects
  }

  lemma {:induction false} BytesAfterDrop(pending: seq<byte>, link: Link, past: seq<Past>, stats: Stats)
    requires BytesBalanced(pending, link.rounds, |link.wire|, past,
                           stats.bytesSent, stats.batchesSent, stats.disconnects)
    requires PastOk(Past(link.start, link.rounds, Whole(pending, link.rounds), link.wire))
    ensures BytesBalanced([], [], 0, past + [Past(link.start, link.rounds, Whole(pending, link.rounds), link.wire)],
                          stats.bytesSent, stats.batchesSent, stats.disconnects + 1)
  {
    hide PastOk;
    PastAppend(past, Past(link.start, link.rounds, Whole(pending, link.rounds), link.wire));
  }

  lemma {:induction false} EchoAfterDrop(echo: Probe, stats: Stats, ledger: Ledger, samples: nat)
    requires EchoBalanced(echo.nonce, echo.outstanding, stats.echoesSent, stats.echoesReturned, stats.echoesLost,
                          ledger.abandoned, ledger.answered, samples)
    ensures EchoBalanced(echo.nonce, false, stats.echoesSent, stats.echoesReturned, stats.echoesLost,
                         ledger.abandoned + (if echo.outstanding then 1 else 0), ledger.answered, samples)
  {}

  const NO_STATS: Stats := Stats(0, 0, 0, 0, 0, 0, 0, 0, 0, 0, 0, 0, 0)

  lemma {:induction false} FreshIsBalanced(
    pending: seq<byte>, rounds: seq<Round>, past: seq<Past>, answered: seq<nat>, zero: nat)
    requires pending == [] && rounds == [] && past == [] && answered == [] && zero == 0
    ensures EchoBalanced(zero, false, zero, zero, zero, zero, answered, zero)
    ensures BytesBalanced(pending, rounds, zero, past, zero, zero, zero)
  {}

  lemma {:induction false} FreshIsChained(past: seq<Past>, start: Sender)
    requires past == [] && start == FIRST_CONNECTION
    ensures Chained(past, start)
  {}

  lemma {:induction false} FreshIsCounted(past: seq<Past>, start: Sender)
    requires past == []
    ensures CountsBalanced(past, start, [], 0, Tally(0, 0, 0))
  {
    NothingTallied(start);
    hide Tallied;
    hide PastOk;
  }

  lemma {:induction false} PastAppend(ps: seq<Past>, p: Past)
    requires PastsOk(ps) && PastOk(p)
    ensures PastsOk(ps + [p])
    ensures TotalSent(ps + [p]) == TotalSent(ps) + |p.sent| && TotalWhole(ps + [p]) == TotalWhole(ps) + p.whole
  {
    assert (ps + [p])[..|ps|] == ps;
  }

  // ---------------------------------------------------------------------
  // What the frame counters mean

  /** The frames a marker in front of `batch` reports as overrun. */
  function Overrun(s: Sender, batch: seq<Frame>): nat
    requires batch != []
  {
    if s.have && !s.reconnected && batch[0].seqNo > s.nextSeq then batch[0].seqNo - s.nextSeq else 0
  }

  datatype Tally = Tally(framesSent: nat, gapsSent: nat, framesLost: nat)

  function Plus(a: Tally, b: Tally): Tally {
    Tally(a.framesSent + b.framesSent, a.gapsSent + b.gapsSent, a.framesLost + b.framesLost)
  }

  function Counted(stats: Stats): Tally { Tally(stats.framesSent, stats.gapsSent, stats.framesLost) }

  /** What a connection's rounds add to the counters: frames of the `whole`
      rounds that were flushed, markers and overruns of all that were noted. */
  function Tallied(start: Sender, rounds: seq<Round>, whole: nat): Tally
    requires Filled(rounds)
  {
    if rounds == [] then Tally(0, 0, 0)
    else
      var init, last := rounds[..|rounds| - 1], rounds[|rounds| - 1];
      var from := SenderAfter(start, init);
      Plus(Tallied(start, init, whole),
           Tally(if |rounds| <= whole then |last.batch| else 0,
                 |Marker(from, last.batch, last.now)|, Overrun(from, last.batch)))
  }

  ghost function TalliedBefore(ps: seq<Past>): Tally
    requires PastsOk(ps)
  {
    if ps == [] then Tally(0, 0, 0)
    else
      var p := ps[|ps| - 1];
      Plus(TalliedBefore(ps[..|ps| - 1]), Tallied(p.start, p.rounds, p.whole))
  }

  /** The frame counters are the sums over all connections so far. */
  ghost predicate CountsBalanced(past: seq<Past>, start: Sender, rounds: seq<Round>, whole: nat, counted: Tally) {
    && PastsOk(past) && Filled(rounds)
    && counted == Plus(TalliedBefore(past), Tallied(start, rounds, whole))
  }

  lemma {:induction false} TalliedCap(start: Sender, rounds: seq<Round>, whole: nat)
    requires Filled(rounds) && whole >= |rounds|
    ensures Tallied(start, rounds, whole) == Tallied(start, rounds, |rounds|)
  {
    if rounds != [] {
      var init := rounds[..|rounds| - 1];
      TalliedCap(start, init, whole);
      TalliedCap(start, init, |rounds|);
    }
  }

  /** A round is noted: its marker counts at once, its frames not yet. */
  lemma {:induction false} CountsAfterNote(past: seq<Past>, start: Sender, rounds: seq<Round>, r: Round, counted: Tally)
    requires CountsBalanced(past, start, rounds, |rounds|, counted) && r.batch != []
    ensures var from := SenderAfter(start, rounds);
            CountsBalanced(past, start, rounds + [r], |rounds|,
                           Plus(counted, Tally(0, |Marker(from, r.batch, r.now)|, Overrun(from, r.batch))))
  {
    hide PastsOk;
    hide Marker;
    hide Overrun;
    assert (rounds + [r])[..|rounds|] == rounds;
  }

  /** The last noted round is flushed: now its frames count. */
  lemma {:induction false} CountsAfterFlush(past: seq<Past>, start: Sender, rounds: seq<Round>, counted: Tally)
    requires rounds != [] && CountsBalanced(past, start, rounds, |rounds| - 1, counted)
    ensures CountsBalanced(past, start, rounds, |rounds|, Plus(counted, Tally(|rounds[|rounds| - 1].batch|, 0, 0)))
  {
    hide PastsOk;
    hide Marker;
    hide Overrun;
    TalliedCap(start, rounds[..|rounds| - 1], |rounds|);
  }

  lemma {:induction false} CountsAfterDrop(past: seq<Past>, p: Past, counted: Tally, start: Sender)
    requires CountsBalanced(past, p.start, p.rounds, p.whole, counted) && PastOk(p)
    ensures CountsBalanced(past + [p], start, [], 0, counted)
  {
    hide PastOk;
    hide Tallied;
    NothingTallied(start);
    PastAppend(past, p);
    assert (past + [p])[..|past|] == past;
  }

  /** Each connection begins where the one before it ended, as a reconnect. */
  ghost predicate Chained(ps: seq<Past>, start: Sender) {
    if ps == [] then start == FIRST_CONNECTION
    else
      var p := ps[|ps| - 1];
      && Filled(p.rounds) && start == SenderAfter(p.start, p.rounds).(reconnected := true)
      && Chained(ps[..|ps| - 1], p.start)
  }

  lemma {:induction false} ChainedDrop(ps: seq<Past>, p: Past)
    requires Chained(ps, p.start) && Filled(p.rounds)
    ensures Chained(ps + [p], SenderAfter(p.start, p.rounds).(reconnected := true))
  {
    assert (ps + [p])[..|ps|] == ps;
  }

  lemma {:induction false} NothingTallied(start: Sender)
    ensures Filled([]) && Tallied(start, [], 0) == Tally(0, 0, 0)
  {}

  function BatchesOf(rounds: seq<Round>): seq<seq<Frame>> {
    seq(|rounds|, i requires 0 <= i < |rounds| => rounds[i].batch)
  }

  function BatchesBefore(ps: seq<Past>): seq<seq<Frame>> {
    if ps == [] then [] else BatchesBefore(ps[..|ps| - 1]) + BatchesOf(ps[|ps| - 1].rounds)
  }

  // ---------------------------------------------------------------------
  // When probes go out

  /** All rounds noted on earlier connections, in order. */
  function RoundsBefore(ps: seq<Past>): seq<Round> {
    if ps == [] then [] else RoundsBefore(ps[..|ps| - 1]) + ps[|ps| - 1].rounds
  }

  /** Round `i` comes at least an interval after every earlier probe. */
  ghost predicate ProbeDue(interval: nat, rounds: seq<Round>, i: nat)
    requires i < |rounds|
  {
    interval != 0 && forall j | 0 <= j < i && rounds[j].probes != [] :: rounds[j].now + interval <= rounds[i].now
  }

  /** How many rounds carried a probe. */
  function Probed(rounds: seq<Round>): nat {
    if rounds == [] then 0
    else Probed(rounds[..|rounds| - 1]) + if rounds[|rounds| - 1].probes != [] then 1 else 0
  }

  /** Round `i` carries a probe exactly when one is due; the probe has the next nonce
      and the time it was sent. */
  ghost predicate ProbedInTime(interval: nat, rounds: seq<Round>, i: nat)
    requires i < |rounds|
  {
    var probes := rounds[i].probes;
    && (probes != [] <==> ProbeDue(interval, rounds, i))
    && (probes != [] ==>
          && |probes| == 1 && IsEcho(probes[0])
          && probes[0].seqNo == Probed(rounds[..i]) + 1 && probes[0].tIngest == rounds[i].now)
  }

  /** Over all rounds of all connections probes keep their distance, and the sender
      knows when the next is due and what its nonce will be. */
  ghost predicate Paced(interval: nat, rounds: seq<Round>, nextAt: nat, nonce: nat) {
    && (forall i | 0 <= i < |rounds| :: ProbedInTime(interval, rounds, i))
    && nonce == Probed(rounds)
    && (forall j | 0 <= j < |rounds| && rounds[j].probes != [] :: rounds[j].now + interval <= nextAt)
    && (nextAt == 0 || exists j | 0 <= j < |rounds| :: rounds[j].probes != [] && nextAt == rounds[j].now + interval)
  }

  lemma {:induction false} NothingProbed(interval: nat)
    ensures Paced(interval, [], 0, 0)
  {}

  lemma {:induction false} RoundsAfterDrop(ps: seq<Past>, p: Past)
    ensures RoundsBefore(ps + [p]) + [] == RoundsBefore(ps) + p.rounds
  {
    assert (ps + [p])[..|ps|] == ps;
  }

  lemma {:induction false} EarlierInTime(interval: nat, rounds: seq<Round>, r: Round, i: nat)
    requires i < |rounds| && ProbedInTime(interval, rounds, i)
    ensures ProbedInTime(interval, rounds + [r], i)
  {
    var all := rounds + [r];
    assert all[..i] == rounds[..i];
    forall j | 0 <= j <= i ensures all[j] == rounds[j] {}
  }

  lemma {:induction false} LastInTime(interval: nat, rounds: seq<Round>, echo: Probe, r: Round)
    requires Paced(interval, rounds, echo.nextAt, echo.nonce) && echo.nonce + 1 < 0x1_0000_0000_0000_0000
    requires r.probes == Due(interval, echo, r.now)
    ensures ProbedInTime(interval, rounds + [r], |rounds|)
  {
    var all := rounds + [r];
    assert all[..|rounds|] == rounds && all[|rounds|] == r;
    forall j | 0 <= j < |rounds| ensures all[j] == rounds[j] {}
    if interval != 0 && r.now < echo.nextAt {
      var j :| 0 <= j < |rounds| && rounds[j].probes != [] && echo.nextAt == rounds[j].now + interval;
      assert all[j].probes != [] && !(all[j].now + interval <= r.now);
    }
  }

  /** One more round, with a probe behind it if one is due. */
  lemma {:induction false} PacedOn(interval: nat, rounds: seq<Round>, echo: Probe, r: Round)
    requires Paced(interval, rounds, echo.nextAt, echo.nonce) && echo.nonce + 1 < 0x1_0000_0000_0000_0000
    requires r.probes == Due(interval, echo, r.now)
    ensures if r.probes == [] then Paced(interval, rounds + [r], echo.nextAt, echo.nonce)
            else Paced(interval, rounds + [r], r.now + interval, echo.nonce + 1)
  {
    var all := rounds + [r];
    LastInTime(interval, rounds, echo, r);
    forall i | 0 <= i < |all| ensures ProbedInTime(interval, all, i) {
      if i < |rounds| { EarlierInTime(interval, rounds, r, i); }
    }
    hide ProbedInTime;
    hide MakeEcho;
    assert all[..|rounds|] == rounds && all[|rounds|] == r;
    forall j | 0 <= j < |rounds| ensures all[j] == rounds[j] {}
    if r.probes == [] && echo.nextAt != 0 {
      var j :| 0 <= j < |rounds| && rounds[j].probes != [] && echo.nextAt == rounds[j].now + interval;
      assert all[j].probes != [];
    }
  }

  function Concat(batches: seq<seq<Frame>>): seq<Frame> {
    if batches == [] then [] else Concat(batches[..|batches| - 1]) + batches[|batches| - 1]
  }

  lemma {:induction false} ConcatAppend(a: seq<seq<Frame>>, b: seq<seq<Frame>>)
    ensures Concat(a + b) == Concat(a) + Concat(b)
    decreases |b|
  {
    hide Concat;
    if b == [] {
      assert a + b == a;
      NothingConcat();
    } else {
      var init, last := b[..|b| - 1], b[|b| - 1];
      assert a + b == (a + init) + [last] && init + [last] == b;
      ConcatSnoc(a + init, last);
      ConcatSnoc(init, last);
      ConcatAppend(a, init);
      assert Concat(a) + (Concat(init) + last) == (Concat(a) + Concat(init)) + last;
    }
  }

  lemma {:induction false} NothingConcat()
    ensures Concat([]) == []
  {}

  lemma {:induction false} ConcatSnoc(a: seq<seq<Frame>>, b: seq<Frame>)
    ensures Concat(a + [b]) == Concat(a) + b
  {
    assert (a + [b])[..|a|] == a;
  }

  lemma {:induction false} ConcatOne(b: seq<Frame>)
    ensures Concat([]) == [] && Concat([b]) == b
  {
    assert [b][..0] == [];
  }

  lemma {:induction false} ConcatOfRounds(rounds: seq<Round>)
    ensures Concat(BatchesOf(rounds)) == Flat(rounds)
    decreases |rounds|
  {
    hide Concat;
    if rounds == [] {
      ConcatOne([]);
    } else {
      var first, rest := rounds[0].batch, rounds[1..];
      assert BatchesOf(rounds) == [first] + BatchesOf(rest);
      hide BatchesOf;
      ConcatAppend([first], BatchesOf(rest));
      ConcatOne(first);
      ConcatOfRounds(rest);
    }
  }

  /** All frames noted on earlier connections, in order. */
  function FlatBefore(ps: seq<Past>): seq<Frame> {
    if ps == [] then [] else FlatBefore(ps[..|ps| - 1]) + Flat(ps[|ps| - 1].rounds)
  }

  lemma {:induction false} ConcatOfPasts(ps: seq<Past>)
    ensures Concat(BatchesBefore(ps)) == FlatBefore(ps)
    decreases |ps|
  {
    if ps != [] {
      ConcatOfPasts(ps[..|ps| - 1]);
      ConcatAppend(BatchesBefore(ps[..|ps| - 1]), BatchesOf(ps[|ps| - 1].rounds));
      ConcatOfRounds(ps[|ps| - 1].rounds);
    }
  }

  ghost predicate AllOrderly(ps: seq<Past>) { forall i | 0 <= i < |ps| :: Orderly(ps[i].start, ps[i].rounds) }

  lemma {:induction false} ProbesOfPast(p: Past)
    requires PastOk(p)
    ensures Filled(p.rounds) && OnlyProbes(p.rounds) && p.whole <= |p.rounds| <= p.whole + 1
  {
    hide WireBatches;
    hide StreamBytes;
    hide BatchBytes;
  }

  /** If the feed hands over rising bus frames, then every connection, as the
      chain of reconnects cuts them up, is orderly from its own start. */
  lemma {:induction false} ChainIsOrderly(ps: seq<Past>, start: Sender, rounds: seq<Round>)
    requires PastsOk(ps) && Chained(ps, start) && Filled(rounds) && OnlyProbes(rounds)
    requires Rising(FlatBefore(ps) + Flat(rounds), 0)
    ensures AllOrderly(ps) && Orderly(start, rounds)
    ensures start.have <==> FlatBefore(ps) != []
    ensures start.have ==> start.nextSeq == LastSeq(FlatBefore(ps)) + 1
    decreases |ps|
  {
    hide *;
    RisingSplits(FlatBefore(ps), Flat(rounds), 0);
    ChainStart(ps, start);
    if ps == [] {
      NothingOrderly(ps);
    } else {
      var init, p := ps[..|ps| - 1], ps[|ps| - 1];
      ChainLink(ps, start);
      ProbesOfPast(p);
      ChainIsOrderly(init, p.start, p.rounds);
      EndOfStretch(FlatBefore(init), p, start);
      OrderlyUpTo(ps);
    }
    RisingIsOrderly(start, rounds);
  }

  lemma {:induction false} ChainStart(ps: seq<Past>, start: Sender)
    requires Chained(ps, start)
    ensures ps == [] ==> start == FIRST_CONNECTION && FlatBefore(ps) == []
    ensures !FIRST_CONNECTION.have
  {}

  lemma {:induction false} NothingOrderly(ps: seq<Past>)
    requires ps == []
    ensures AllOrderly(ps)
  {}

  lemma {:induction false} ChainLink(ps: seq<Past>, start: Sender)
    requires ps != [] && PastsOk(ps) && Chained(ps, start)
    ensures var init, p := ps[..|ps| - 1], ps[|ps| - 1];
            && PastsOk(init) && PastOk(p) && Filled(p.rounds) && Chained(init, p.start)
            && start == SenderAfter(p.start, p.rounds).(reconnected := true)
            && FlatBefore(ps) == FlatBefore(init) + Flat(p.rounds)
  {
    hide PastOk;
  }

  lemma {:induction false} OrderlyUpTo(ps: seq<Past>)
    requires ps != [] && AllOrderly(ps[..|ps| - 1]) && Orderly(ps[|ps| - 1].start, ps[|ps| - 1].rounds)
    ensures AllOrderly(ps)
  {
    hide Orderly;
    forall i | 0 <= i < |ps| ensures Orderly(ps[i].start, ps[i].rounds) {
      if i < |ps| - 1 { assert ps[i] == ps[..|ps| - 1][i]; }
    }
  }

  /** The sender stands just behind the last frame noted. */
  lemma {:induction false} EndOfStretch(earlier: seq<Frame>, p: Past, start: Sender)
    requires Filled(p.rounds) && start == SenderAfter(p.start, p.rounds).(reconnected := true)
    requires p.start.have <==> earlier != []
    requires p.start.have ==> p.start.nextSeq == LastSeq(earlier) + 1
    ensures start.have <==> earlier + Flat(p.rounds) != []
    ensures start.have ==> start.nextSeq == LastSeq(earlier + Flat(p.rounds)) + 1
  {
    if p.rounds == [] {
      NothingFlat();
      assert earlier + [] == earlier;
    } else {
      FlatLast(p.rounds);
    }
  }

  lemma {:induction false} NothingFlat()
    ensures Flat([]) == []
  {}

  lemma {:induction false} HandledAfterDrop(ps: seq<Past>, p: Past)
    ensures BatchesBefore(ps + [p]) + BatchesOf([]) == BatchesBefore(ps) + BatchesOf(p.rounds)
  {
    assert (ps + [p])[..|ps|] == ps;
  }

  lemma {:induction false} HandledAfterNote(ps: seq<Past>, rounds: seq<Round>, r: Round)
    ensures BatchesBefore(ps) + BatchesOf(rounds + [r]) == BatchesBefore(ps) + BatchesOf(rounds) + [r.batch]
  {
    assert BatchesOf(rounds + [r]) == BatchesOf(rounds) + [r.batch];
  }

  // ---------------------------------------------------------------------
  // Replies

  /** The records of a reply that decode; the others are skipped. */
  function GoodRecords(b: seq<byte>): seq<Frame>
    decreases |b|
  {
    if |b| < RECORD_SIZE then []
    else (match DecodeFrame(b[..RECORD_SIZE]) case Ok(f) => [f] case Err(_) => []) + GoodRecords(b[RECORD_SIZE..])
  }

  datatype Scan = Scan(frames: seq<Frame>, rest: seq<byte>)

  /** `drain_replies` on its buffer. A bad header throws the buffer away. */
  function ScanReplies(b: seq<byte>): Scan
    decreases |b|
  {
    if |b| < HEADER_SIZE then Scan([], b)
    else
      match DecodeHeader(b[..HEADER_SIZE])
      case Err(_) => Scan([], [])
      case Ok(header) =>
        var n := HEADER_SIZE + header.payloadLen;
        if |b| < n then Scan([], b)
        else
          var tail := ScanReplies(b[n..]);
          Scan(GoodRecords(b[HEADER_SIZE..n]) + tail.frames, tail.rest)
  }

  predicate Answers(fs: seq<Frame>, nonce: nat) {
    exists i | 0 <= i < |fs| :: IsEcho(fs[i]) && fs[i].seqNo == nonce
  }

  lemma {:induction false} NothingAnswered(nonce: nat)
    ensures !Answers([], nonce)
  {}

  lemma {:induction false} AnswersConcat(a: seq<Frame>, b: seq<Frame>, nonce: nat)
    ensures Answers(a + b, nonce) <==> Answers(a, nonce) || Answers(b, nonce)
  {
    var ab := a + b;
    forall i | 0 <= i < |a| ensures ab[i] == a[i] {}
    forall i | 0 <= i < |b| ensures ab[|a| + i] == b[i] {}
    if Answers(ab, nonce) {
      var i :| 0 <= i < |ab| && IsEcho(ab[i]) && ab[i].seqNo == nonce;
      assert ab[i] == if i < |a| then a[i] else b[i - |a|];
    }
  }

  /** What recv leaves in the reply buffer, which is emptied when it overflows. */
  function Buffered(buf: seq<byte>, chunks: seq<seq<byte>>): seq<byte>
    decreases |chunks|
  {
    if chunks == [] then buf
    else Buffered(if |buf + chunks[0]| > REPLY_LIMIT then [] else buf + chunks[0], chunks[1..])
  }

  ghost predicate Increasing(xs: seq<nat>) { forall i, j | 0 <= i < j < |xs| :: xs[i] < xs[j] }

  // ---------------------------------------------------------------------
  // Feeding

  /** What `pop_batch` and `coalesce` put into the batch: the first pop, and
      with a linger every further pop until one is empty or the batch is full. */
  function Coalesced(pops: seq<seq<Frame>>, lingers: bool, room: nat): seq<Frame> {
    if pops == [] || pops[0] == [] then []
    else pops[0] + if lingers && |pops[0]| < room then Coalesced(pops[1..], lingers, room - |pops[0]|) else []
  }

  lemma {:induction false} CoalescedStart(pops: seq<seq<Frame>>, lingers: bool, room: nat)
    ensures pops == [] || pops[0] == [] ==> Coalesced(pops, lingers, room) == []
    ensures pops != [] && (!lingers || |pops[0]| >= room) ==> Coalesced(pops, lingers, room) == pops[0]
    ensures pops != [] && pops[0] != [] && lingers && |pops[0]| < room ==>
              Coalesced(pops, lingers, room) == pops[0] + Coalesced(pops[1..], lingers, room - |pops[0]|)
  {}

  lemma {:induction false} CoalescedAt(pops: seq<seq<Frame>>, i: nat, room: nat)
    requires i < |pops| && pops[i] != []
    ensures Coalesced(pops[i..], true, room) ==
            pops[i] + if |pops[i]| < room then Coalesced(pops[i + 1..], true, room - |pops[i]|) else []
  {
    assert pops[i..][0] == pops[i] && pops[i..][1..] == pops[i + 1..];
  }

  /** More than one pop ended up in the batch. */
  predicate Joins(pops: seq<seq<Frame>>, lingers: bool, room: nat) {
    lingers && |pops| > 1 && pops[0] != [] && |pops[0]| < room && pops[1] != []
  }

  /** The loop of `coalesce`. `pops` are what the feed returns one after the
      other; where they end, the linger deadline has passed. */
  method JoinPops(pops: seq<seq<Frame>>, lingers: bool, room: nat) returns (frames: seq<Frame>, waited: bool)
    ensures frames == Coalesced(pops, lingers, room)
    ensures waited <==> Joins(pops, lingers, room)
  {
    CoalescedStart(pops, lingers, room);
    hide Coalesced;
    hide Onward;
    waited := false;
    frames := if pops == [] then [] else pops[0];
    if frames == [] || !lingers || |frames| >= room {
      return;
    }
    var i := 1;
    OnwardStarts(frames, pops, room);
    while |frames| < room && i < |pops| && pops[i] != []
      invariant 1 <= i <= |pops| && waited == (i > 1) && (if waited then pops[1] != [] else frames == pops[0])
      invariant Coalesced(pops, lingers, room) == frames + Onward(pops, i, room, |frames|)
    {
      OnwardStep(frames, pops, i, room);
      frames, i, waited := frames + pops[i], i + 1, true;
    }
    OnwardEnds(frames, pops, i, room);
  }

  lemma {:induction false} OnwardStep(frames: seq<Frame>, pops: seq<seq<Frame>>, i: nat, room: nat)
    requires i < |pops| && pops[i] != [] && |frames| < room
    ensures frames + Onward(pops, i, room, |frames|) ==
            (frames + pops[i]) + Onward(pops, i + 1, room, |frames + pops[i]|)
  {
    CoalescedAt(pops, i, room - |frames|);
    hide Coalesced;
    var rest := Onward(pops, i + 1, room, |frames + pops[i]|);
    assert frames + (pops[i] + rest) == (frames + pops[i]) + rest;
  }

  lemma {:induction false} OnwardStarts(frames: seq<Frame>, pops: seq<seq<Frame>>, room: nat)
    requires pops != [] && frames == pops[0] != [] && |frames| < room
    ensures Coalesced(pops, true, room) == frames + Onward(pops, 1, room, |frames|)
  {
    CoalescedStart(pops, true, room);
  }

  lemma {:induction false} OnwardEnds(frames: seq<Frame>, pops: seq<seq<Frame>>, i: nat, room: nat)
    requires i <= |pops| && (|frames| < room ==> i == |pops| || pops[i] == [])
    ensures frames + Onward(pops, i, room, |frames|) == frames
  {
    if |frames| < room { CoalescedStart(pops[i..], true, room - |frames|); }
  }

  /** What lingering still adds from pop `i` on, with `have` frames in the batch. */
  function Onward(pops: seq<seq<Frame>>, i: nat, room: nat, have: nat): seq<Frame>
    requires i <= |pops|
  {
    if have < room then Coalesced(pops[i..], true, room - have) else []
  }

  predicate AllFilled(pops: seq<seq<Frame>>) { forall i | 0 <= i < |pops| :: pops[i] != [] }

  /** A feed returns no more than it was asked for. */
  predicate PopsFit(pops: seq<seq<Frame>>, room: nat) {
    pops == [] ||
    (&& |pops[0]| <= room
     && (forall i | 0 <= i < |pops[0]| :: Acceptable(pops[0][i]))
     && PopsFit(pops[1..], room - |pops[0]|))
  }

  lemma {:induction false} CoalescedFits(pops: seq<seq<Frame>>, lingers: bool, room: nat)
    requires PopsFit(pops, room)
    ensures var fs := Coalesced(pops, lingers, room);
            |fs| <= room && forall i | 0 <= i < |fs| :: Acceptable(fs[i])
    decreases |pops|
  {
    if pops != [] && pops[0] != [] && lingers && |pops[0]| < room {
      CoalescedFits(pops[1..], lingers, room - |pops[0]|);
    }
  }

  /** The batch, if any, that a pass on a living connection takes from the feed. */
  function Taken(turn: Turn, lingers: bool, room: nat): seq<seq<Frame>> {
    var frames := Coalesced(turn.pops, lingers, room);
    if turn.gone || frames == [] then [] else [frames]
  }

  /** The round such a pass notes. */
  function Noted(turn: Turn, lingers: bool, room: nat, interval: nat, echo: Probe): (r: Round)
    requires Taken(turn, lingers, room) != [] && echo.nonce + 1 < 0x1_0000_0000_0000_0000
    ensures r.batch != []
  {
    Round(Coalesced(turn.pops, lingers, room), turn.now, Due(interval, echo, turn.now))
  }

  /** Whether a probe is due does not depend on the one that is out. */
  lemma {:induction false} DueAgain(turn: Turn, lingers: bool, room: nat, interval: nat, echo0: Probe, echo: Probe)
    requires echo.nonce == echo0.nonce && echo.nextAt == echo0.nextAt && echo.nonce + 1 < 0x1_0000_0000_0000_0000
    ensures Taken(turn, lingers, room) != [] ==>
              Noted(turn, lingers, room, interval, echo) == Noted(turn, lingers, room, interval, echo0)
  {
    hide Coalesced;
    hide Taken;
  }

  lemma {:induction false} TakenIs(
    turn: Turn, lingers: bool, room: nat, interval: nat, echo: Probe, frames: seq<Frame>)
    requires !turn.gone && frames == Coalesced(turn.pops, lingers, room) && echo.nonce + 1 < 0x1_0000_0000_0000_0000
    ensures Taken(turn, lingers, room) == if frames == [] then [] else [frames]
    ensures frames != [] ==>
              Noted(turn, lingers, room, interval, echo) == Round(frames, turn.now, Due(interval, echo, turn.now))
  {
    hide Coalesced;
  }

  function TakenAll(turns: seq<Turn>, lingers: bool, room: nat): seq<seq<Frame>> {
    if turns == [] then [] else TakenAll(turns[..|turns| - 1], lingers, room) + Taken(turns[|turns| - 1], lingers, room)
  }

  lemma {:induction false} NothingTaken(turns: seq<Turn>, lingers: bool, room: nat)
    requires turns == []
    ensures TakenAll(turns, lingers, room) == []
  {}

  lemma {:induction false} TakenOneMore(turns: seq<Turn>, i: nat, lingers: bool, room: nat)
    requires i < |turns|
    ensures TakenAll(turns[..i + 1], lingers, room) ==
            TakenAll(turns[..i], lingers, room) + Taken(turns[i], lingers, room)
  {
    hide Taken;
    assert turns[..i + 1][..i] == turns[..i];
  }

  /** The bytes of a round behind sender state `s`. */
  ghost function RoundBytes(s: Sender, r: Round): seq<byte>
    requires r.batch != []
  {
    var records := RoundRecords(s, r);
    if |records| <= MAX_COUNT then BatchBytes(records) else []
  }

  /** What becomes of a connection that carried `link0` and is given round `r`: a
      flush that fails ends it with its earlier rounds whole and the new one cut,
      any other flush leaves it with the round on its wire as far as it got. */
  ghost predicate Outcome(
    link0: Link, past0: seq<Past>, s: Sender, sends: seq<SendEvent>, r: Round,
    after: After, connected: bool, link: Link, past: seq<Past>)
    requires r.batch != []
  {
    var bytes := RoundBytes(s, r);
    var fate := FlushFate(sends, |bytes|);
    var carried := Link(link0.start, link0.rounds + [r], link0.wire + bytes[..fate.written]);
    && (after.Return? <==> fate.result.Blocked?) &&
    if fate.result.Lost?
    then !connected && past == past0 + [Past(carried.start, carried.rounds, |link0.rounds|, carried.wire)]
    else connected && past == past0 && link == carried
  }

  lemma {:induction false} OutcomeIs(
    link0: Link, past0: seq<Past>, s: Sender, sends: seq<SendEvent>, r: Round,
    after: After, connected: bool, link: Link, past: seq<Past>)
    requires r.batch != []
    requires var bytes := RoundBytes(s, r);
             var fate := FlushFate(sends, |bytes|);
             var carried := Link(link0.start, link0.rounds + [r], link0.wire + bytes[..fate.written]);
             && (after.Return? <==> fate.result.Blocked?)
             && (fate.result.Lost? ==>
                   !connected && past == past0 + [Past(carried.start, carried.rounds, |link0.rounds|, carried.wire)])
             && (!fate.result.Lost? ==> connected && past == past0 && link == carried)
    ensures Outcome(link0, past0, s, sends, r, after, connected, link, past)
  {
    hide RoundBytes;
    hide FlushFate;
  }

  class Egress {
    const maxFrames: nat
    const lingers: bool
    const echoInterval: nat   // nanoseconds, 0 to disable

    var connected: bool
    var pending: seq<byte>
    var offset: nat
    var outgoing: seq<Frame>
    var sender: Sender
    var echo: Probe
    var replyBuf: seq<byte>
    var rtt: seq<int>
    var stats: Stats
    ghost var link: Link
    ghost var ledger: Ledger

    ghost predicate EchoOk()
      reads this
    {
      EchoBalanced(echo.nonce, echo.outstanding, stats.echoesSent, stats.echoesReturned, stats.echoesLost,
                   ledger.abandoned, ledger.answered, |rtt|)
    }

    ghost predicate Valid()
      reads this
    {
      && 1 <= maxFrames <= MAX_BATCH
      && WireFits(link, pending, offset) && (pending == [] ==> offset == 0)
      && sender == SenderAfter(link.start, link.rounds) && Chained(ledger.past, link.start)
      && BytesBalanced(pending, link.rounds, |link.wire|, ledger.past,
                       stats.bytesSent, stats.batchesSent, stats.disconnects)
      && CountsBalanced(ledger.past, link.start, link.rounds, Whole(pending, link.rounds), Counted(stats))
      && stats.connects == stats.disconnects + (if connected then 1 else 0)
      && (!connected ==> link == Link(sender, [], []) && pending == [] && !echo.outstanding && replyBuf == [])
      && |replyBuf| <= REPLY_LIMIT
      && EchoOk() && Paced(echoInterval, RoundsBefore(ledger.past) + link.rounds, echo.nextAt, echo.nonce)
    }

    /** Every batch ever taken from the feed and noted, over all connections. */
    ghost function Handled(): seq<seq<Frame>>
      reads this
    {
      BatchesBefore(ledger.past) + BatchesOf(link.rounds)
    }

    /** The current connection, as it would go into history now. */
    ghost function Current(): Past
      reads this
    {
      Past(link.start, link.rounds, Whole(pending, link.rounds), link.wire)
    }

    /** All connections so far, the current one last. */
    ghost function Connections(): seq<Past>
      reads this
    {
      ledger.past + [Current()]
    }

    constructor (maxFrames: nat, lingers: bool, echoInterval: nat)
      requires 1 <= maxFrames <= MAX_BATCH
      ensures Valid() && ledger.past == [] && !connected && pending == [] && Handled() == []
      ensures this.maxFrames == maxFrames && this.lingers == lingers && this.echoInterval == echoInterval
      ensures sender == FIRST_CONNECTION && echo == Probe(0, 0, false, 0)
    {
      hide WireFits;
      hide BytesBalanced;
      hide EchoBalanced;
      hide SenderAfter;
      hide Filled;
      hide WireBatches;
      hide StreamBytes;
      hide AllPrintable;
      hide TotalSent;
      hide TotalWhole;
      hide CountsBalanced;
      hide Paced;
      hide Tallied;
      hide Chained;
      this.maxFrames, this.lingers, this.echoInterval := maxFrames, lingers, echoInterval;
      connected, pending, offset, outgoing, replyBuf, rtt := false, [], 0, [], [], [];
      sender, echo := Sender(0, false, false), Probe(0, 0, false, 0);
      stats := NO_STATS;
      link, ledger := Link(Sender(0, false, false), [], []), Ledger([], 0, []);
      new;
      NothingSentYet(sender);
      FreshIsBalanced(pending, link.rounds, ledger.past, ledger.answered, offset);
      FreshIsCounted(ledger.past, sender);
      FreshIsChained(ledger.past, sender);
      NothingProbed(echoInterval);
      assert RoundsBefore(ledger.past) + link.rounds == [];
    }

    /** `note_gap` on a non-empty batch. */
    method NoteGap(frames: seq<Frame>, now: u64)
      requires frames != []
      modifies `outgoing, `stats, `sender
      ensures outgoing == Marker(old(sender), frames, now) + frames
      ensures sender == AfterBatch(frames)
      ensures stats == old(stats).(
                gapsSent := old(stats).gapsSent + |Marker(old(sender), frames, now)|,
                framesLost := old(stats).framesLost + Overrun(old(sender), frames))
    {
      outgoing := [];
      if sender.have && frames[0].seqNo > sender.nextSeq {
        var missing := frames[0].seqNo - sender.nextSeq;
        var reason := if sender.reconnected then CONSUMER_ABSENT else CONSUMER_OVERRUN;
        outgoing := [MakeGap(sender.nextSeq, missing, reason, now)];
        stats := stats.(gapsSent := stats.gapsSent + 1);
        if reason != CONSUMER_ABSENT {
          stats := stats.(framesLost := stats.framesLost + missing);
        }
      }
      sender := sender.(reconnected := false);
      outgoing := outgoing + frames;
      sender := sender.(nextSeq := frames[|frames| - 1].seqNo + 1, have := true);
    }

    /** `maybe_send_echo`: at most one probe, appended to the batch. */
    method MaybeSendEcho(now: u64) returns (ghost probes: seq<Frame>)
      requires EchoOk() && echo.nonce + 1 < 0x1_0000_0000_0000_0000
      modifies `outgoing, `echo, `stats
      ensures EchoOk()
      ensures probes == if connected then Due(echoInterval, old(echo), now) else []
      ensures outgoing == old(outgoing) + probes
      ensures echo == if probes == [] then old(echo) else Probe(old(echo).nonce + 1, now, true, now + echoInterval)
      ensures stats == old(stats).(
                echoesSent := old(stats).echoesSent + |probes|,
                echoesLost := old(stats).echoesLost + if probes != [] && old(echo).outstanding then 1 else 0)
    {
      probes := [];
      if echoInterval == 0 || !connected || now < echo.nextAt {
        return;
      }
      if echo.outstanding {
        stats := stats.(echoesLost := stats.echoesLost + 1);
      }
      echo := Probe(echo.nonce + 1, now, true, now + echoInterval);
      probes := [MakeEcho(echo.nonce, now)];
      outgoing := outgoing + [MakeEcho(echo.nonce, now)];
      stats := stats.(echoesSent := stats.echoesSent + 1);
    }

    /** `encode_batch`: the buffer becomes the batch, nothing of it written. */
    method EncodeBatch(frames: seq<Frame>)
      requires |frames| <= MAX_COUNT
      modifies `pending, `offset
      ensures pending == BatchBytes(frames) && offset == 0
    {
      hide HeaderBytes;
      hide FrameBytes;
      pending, offset := HeaderBytes(|frames|), 0;
      assert frames[0..] == frames;
      for i := 0 to |frames|
        invariant pending + RecordBytes(frames[i..]) == BatchBytes(frames)
        invariant offset == 0
      {
        assert frames[i..][1..] == frames[i + 1..];
        assert RecordBytes(frames[i..]) == FrameBytes(frames[i]) + RecordBytes(frames[i + 1..]);
        pending := pending + FrameBytes(frames[i]);
      }
      assert pending + [] == pending;
    }

    /** `send` took bytes, possibly not all it was offered. */
    method Accepted(n: nat)
      requires n > 0 && offset < |pending|
      modifies `offset, `stats, `link
      ensures offset == (if n < |pending| - old(offset) then old(offset) + n else |pending|)
      ensures link == old(link).(wire := old(link).wire + pending[old(offset)..offset])
      ensures stats == old(stats).(bytesSent := old(stats).bytesSent + (offset - old(offset)),
                                   partialWrites := old(stats).partialWrites + if offset < |pending| then 1 else 0)
    {
      var remaining := |pending| - offset;
      var k := if n < remaining then n else remaining;
      link := link.(wire := link.wire + pending[offset..offset + k]);
      offset := offset + k;
      stats := stats.(bytesSent := stats.bytesSent + k,
                      partialWrites := stats.partialWrites + if k < remaining then 1 else 0);
    }

    /** `flush_pending`. Across partial writes, EAGAIN, interrupts and stops the
        bytes go out in order, none twice, none skipped. */
    method FlushPending(sends: seq<SendEvent>) returns (result: FlushResult)
      requires offset < |pending|
      modifies `pending, `offset, `stats, `link
      ensures var fate := FlushFate(sends, |old(pending)| - old(offset));
              && result == fate.result
              && link == old(link).(wire := old(link).wire + old(pending)[old(offset)..old(offset) + fate.written])
              && (if result.Flushed? then pending == [] && offset == 0
                  else pending == old(pending) && offset == old(offset) + fate.written)
              && stats == old(stats).(bytesSent := old(stats).bytesSent + fate.written,
                                      wouldBlock := old(stats).wouldBlock + fate.blocked,
                                      partialWrites := old(stats).partialWrites + fate.partial)
    {
      hide FlushFate;
      ghost var buf, from, sent := pending, offset, link.wire;
      ghost var blocked, partial := 0, 0;
      var i := 0;
      assert sends[0..] == sends;
      while offset < |pending|
        invariant pending == buf && from <= offset <= |pending| && i <= |sends|
        invariant link == old(link).(wire := sent + buf[from..offset])
        invariant stats == old(stats).(bytesSent := old(stats).bytesSent + (offset - from),
                                       wouldBlock := old(stats).wouldBlock + blocked,
                                       partialWrites := old(stats).partialWrites + partial)
        invariant var rest := FlushFate(sends[i..], |buf| - offset);
                  FlushFate(sends, |buf| - from) ==
                  Fate(rest.result, (offset - from) + rest.written, blocked + rest.blocked, partial + rest.partial)
        decreases |sends| - i
      {
        if i == |sends| {
          FateEnds(sends[i..], |pending| - offset);
          return Blocked;
        }
        FateAt(sends, i, |pending| - offset);
        FateEnds(sends[i + 1..], 0);
        match sends[i] {
          case Wrote(n) =>
            if n == 0 {
              return Lost;
            }
            ghost var reached := offset;
            Accepted(n);
            partial := partial + if offset < |pending| then 1 else 0;
            assert buf[from..offset] == buf[from..reached] + buf[reached..offset];
          case WouldBlock(wake) =>
            stats := stats.(wouldBlock := stats.wouldBlock + 1);
            blocked := blocked + 1;
            if wake.PollFailed? || wake.StopRequested? {
              return Lost;
            }
          case SendInterrupted =>
          case Broken => return Lost;
        }
        i := i + 1;
      }
      FateEnds(sends[i..], 0);
      pending, offset := [], 0;
      result := Flushed;
    }

    /** `drop_client`: the connection's remains are discarded, never carried over. */
    method DropClient()
      requires Valid() && connected
      modifies this
      ensures Valid() && !connected && pending == []
      ensures ledger.past == old(ledger).past + [old(Current())]
      ensures sender == old(sender).(reconnected := true) && echo == old(echo).(outstanding := false)
      ensures Handled() == old(Handled()) && rtt == old(rtt) && replyBuf == []
      ensures stats == old(stats).(disconnects := old(stats).disconnects + 1)
    {
      hide WireFits;
      hide BytesBalanced;
      hide CountsBalanced;
      hide Paced;
      hide EchoBalanced;
      hide PastOk;
      hide SenderAfter;
      hide Chained;
      ghost var p := Past(link.start, link.rounds, Whole(pending, link.rounds), link.wire);
      PastIsOk(link, pending, offset);
      BytesAfterDrop(pending, link, ledger.past, stats);
      EchoAfterDrop(echo, stats, ledger, |rtt|);
      NothingSentYet(sender.(reconnected := true));
      CountsAfterDrop(ledger.past, p, Counted(stats), sender.(reconnected := true));
      HandledAfterDrop(ledger.past, p);
      RoundsAfterDrop(ledger.past, p);
      FilledByFit(link, pending, offset);
      ChainedDrop(ledger.past, p);
      ledger := Ledger(ledger.past + [p], ledger.abandoned + (if echo.outstanding then 1 else 0), ledger.answered);
      connected, pending, offset, replyBuf := false, [], 0, [];
      echo := echo.(outstanding := false);
      sender := sender.(reconnected := true);
      stats := stats.(disconnects := stats.disconnects + 1);
      link := Link(sender, [], []);
    }

    /** One decoded reply record. */
    method Consider(f: Frame, time: u64)
      requires EchoOk()
      modifies `rtt, `echo, `stats, `ledger
      ensures EchoOk()
      ensures var hit := old(echo).outstanding && IsEcho(f) && f.seqNo == echo.nonce;
              && echo == old(echo).(outstanding := old(echo).outstanding && !hit)
              && rtt == old(rtt) + (if hit then [time - echo.sentAt] else [])
              && stats == old(stats).(echoesReturned := old(stats).echoesReturned + if hit then 1 else 0)
              && ledger == old(ledger).(answered := ledger.answered)
    {
      if !IsEcho(f) || !echo.outstanding || f.seqNo != echo.nonce {
        return;
      }
      rtt := rtt + [time - echo.sentAt];
      echo := echo.(outstanding := false);
      stats := stats.(echoesReturned := stats.echoesReturned + 1);
      ledger := ledger.(answered := ledger.answered + [echo.nonce]);
    }

    /** The record loop of `drain_replies`; records that do not decode are skipped. */
    method ConsiderAll(payload: seq<byte>, count: nat, time: u64)
      requires EchoOk() && |payload| == 40 * count
      modifies `rtt, `echo, `stats, `ledger
      ensures EchoOk()
      ensures Scored(old(echo), old(rtt), old(stats), old(ledger), GoodRecords(payload), time)
    {
      hide GoodRecords;
      hide DecodeFrame;
      ghost var seen: seq<Frame> := [];
      assert payload[40 * 0..] == payload;
      for i := 0 to count
        invariant EchoOk()
        invariant GoodRecords(payload) == seen + GoodRecords(payload[40 * i..])
        invariant Scored(old(echo), old(rtt), old(stats), old(ledger), seen, time)
      {
        GoodRecordAt(payload, i, count);
        match DecodeFrame(payload[40 * i..40 * i + RECORD_SIZE]) {
          case Err(_) =>
          case Ok(f) =>
            AnswersConcat(seen, [f], echo.nonce);
            Consider(f, time);
            assert [f][0] == f;
            seen := seen + [f];
        }
      }
      NoGoodRecords(payload[40 * count..]);
      assert seen + [] == seen;
    }

    /** The outcome of considering `fs`: one sample if the probe that was out is
        answered in there, and none otherwise - also for stale or repeated replies. */
    ghost predicate Scored(echo0: Probe, rtt0: seq<int>, stats0: Stats, ledger0: Ledger, fs: seq<Frame>, time: u64)
      reads this
    {
      var hit := echo0.outstanding && Answers(fs, echo0.nonce);
      && echo == echo0.(outstanding := echo0.outstanding && !hit)
      && rtt == rtt0 + (if hit then [time - echo0.sentAt] else [])
      && stats == stats0.(echoesReturned := stats0.echoesReturned + if hit then 1 else 0)
      && ledger == ledger0.(answered := ledger.answered)
    }

    /** The recv loop of `drain_replies`. */
    method ReceiveReplies(chunks: seq<seq<byte>>)
      requires |replyBuf| <= REPLY_LIMIT
      modifies `replyBuf
      ensures replyBuf == Buffered(old(replyBuf), chunks) && |replyBuf| <= REPLY_LIMIT
    {
      assert chunks[0..] == chunks;
      for i := 0 to |chunks|
        invariant |replyBuf| <= REPLY_LIMIT
        invariant Buffered(replyBuf, chunks[i..]) == Buffered(old(replyBuf), chunks)
      {
        assert chunks[i..][1..] == chunks[i + 1..];
        replyBuf := replyBuf + chunks[i];
        if |replyBuf| > REPLY_LIMIT {
          replyBuf := [];
        }
      }
      assert chunks[|chunks|..] == [];
    }

    /** `drain_replies`. */
    method DrainReplies(chunks: seq<seq<byte>>, time: u64)
      requires EchoOk() && |replyBuf| <= REPLY_LIMIT
      modifies `replyBuf, `rtt, `echo, `stats, `ledger
      ensures EchoOk() && |replyBuf| <= REPLY_LIMIT
      ensures var scan := ScanReplies(Buffered(old(replyBuf), chunks));
              replyBuf == scan.rest && Scored(old(echo), old(rtt), old(stats), old(ledger), scan.frames, time)
    {
      hide GoodRecords;
      hide DecodeHeader;
      hide ScanReplies;
      hide EchoBalanced;
      hide Answers;
      ReceiveReplies(chunks);
      NothingAnswered(echo.nonce);
      ghost var all, seen := replyBuf, [];
      var left := replyBuf;   // replyBuf from offset `off` on
      while |left| >= HEADER_SIZE
        invariant EchoOk() && |left| <= |all|
        invariant ScanReplies(all) == Scan(seen + ScanReplies(left).frames, ScanReplies(left).rest)
        invariant Scored(old(echo), old(rtt), old(stats), old(ledger), seen, time)
        decreases |left|
      {
        ScanStep(left);
        match DecodeHeader(left[..HEADER_SIZE]) {
          case Err(_) =>
            replyBuf := [];
            assert seen + [] == seen;
            return;
          case Ok(header) =>
            var n := HEADER_SIZE + header.payloadLen;
            if |left| < n {
              break;
            }
            var payload := left[HEADER_SIZE..n];
            ghost var good := GoodRecords(payload);
            AnswersConcat(seen, good, echo.nonce);
            ConsiderAll(payload, header.count, time);
            assert seen + (good + ScanReplies(left[n..]).frames) == (seen + good) + ScanReplies(left[n..]).frames;
            seen := seen + good;
            left := left[n..];
        }
      }
      ScanStep(left);
      assert seen + [] == seen;
      replyBuf := left;
    }

    /** The first `pop_batch` and `coalesce`, with its counter. */
    method Coalesce(pops: seq<seq<Frame>>) returns (frames: seq<Frame>)
      modifies `stats
      ensures frames == Coalesced(pops, lingers, maxFrames)
      ensures stats == old(stats).(lingered := old(stats).lingered + if Joins(pops, lingers, maxFrames) then 1 else 0)
      ensures old(Valid()) ==> Valid()
    {
      hide WireFits;
      hide BytesBalanced;
      hide CountsBalanced;
      hide Paced;
      hide EchoBalanced;
      hide Chained;
      hide Coalesced;
      hide Joins;
      var waited;
      frames, waited := JoinPops(pops, lingers, maxFrames);
      if waited {
        stats := stats.(lingered := stats.lingered + 1);
      }
    }

    /** Markers, probe and encoding: the round is noted and its batch pending. */
    method Prepare(frames: seq<Frame>, now: u64)
      requires Valid() && connected && pending == []
      requires 0 < |frames| <= maxFrames && forall i | 0 <= i < |frames| :: Acceptable(frames[i])
      requires echo.nonce + 1 < 0x1_0000_0000_0000_0000
      modifies `outgoing, `stats, `sender, `echo, `pending, `offset, `link
      ensures pending != [] && offset == 0 && WireFits(link, pending, 0)
      ensures sender == SenderAfter(link.start, link.rounds)
      ensures var r := Round(frames, now, Due(echoInterval, old(echo), now));
              link == old(link).(rounds := old(link).rounds + [r]) && pending == RoundBytes(old(sender), r)
      ensures EchoOk() && old(echo).nonce <= echo.nonce <= old(echo).nonce + 1
      ensures echo == if Due(echoInterval, old(echo), now) == [] then old(echo)
                      else Probe(old(echo).nonce + 1, now, true, now + echoInterval)
      ensures stats.bytesSent == old(stats).bytesSent && stats.batchesSent == old(stats).batchesSent
      ensures stats.framesSent == old(stats).framesSent
      ensures stats.gapsSent == old(stats).gapsSent + |Marker(old(sender), frames, now)|
      ensures stats.framesLost == old(stats).framesLost + Overrun(old(sender), frames)
      ensures stats.connects == old(stats).connects && stats.disconnects == old(stats).disconnects
      ensures stats.lingered == old(stats).lingered
    {
      hide WireFits;
      hide BytesBalanced;
      hide CountsBalanced;
      hide Paced;
      hide Overrun;
      hide RoundRecords;
      hide BatchBytes;
      hide EchoBalanced;
      hide MakeEcho;
      hide Marker;
      hide SenderAfter;
      hide Filled;
      hide Acceptable;
      ghost var before, from := link, sender;
      NoteGap(frames, now);
      ghost var probes := MaybeSendEcho(now);
      ghost var r := Round(frames, now, probes);
      EchoesAreEchoes(probes, old(echo).nonce + 1, now);
      RoundRecordsAre(from, r);
      RoundIsPrintable(from, r);
      RoundStarts(before, r);
      hide Due;
      EncodeBatch(outgoing);
      link := link.(rounds := link.rounds + [r]);
    }

    /** The part of a pass that serves a connected client a popped batch. */
    method Serve(frames: seq<Frame>, now: u64, sends: seq<SendEvent>) returns (result: FlushResult)
      requires Valid() && connected && pending == []
      requires 0 < |frames| <= maxFrames && forall i | 0 <= i < |frames| :: Acceptable(frames[i])
      requires echo.nonce + 1 < 0x1_0000_0000_0000_0000
      modifies `outgoing, `stats, `sender, `echo, `pending, `offset, `link
      ensures Valid() && (result.Flushed? <==> pending == [])
      ensures old(echo).nonce <= echo.nonce <= old(echo).nonce + 1
      ensures var r := Round(frames, now, Due(echoInterval, old(echo), now));
              var bytes := RoundBytes(old(sender), r);
              var fate := FlushFate(sends, |bytes|);
              && result == fate.result
              && link == Link(old(link).start, old(link).rounds + [r], old(link).wire + bytes[..fate.written])
      ensures stats.framesSent == old(stats).framesSent + if result.Flushed? then |frames| else 0
      ensures stats.lingered == old(stats).lingered
      ensures Handled() == old(Handled()) + [frames]
    {
      hide WireFits;
      hide CountsBalanced;
      hide Paced;
      hide Marker;
      hide Overrun;
      hide PastsOk;
      hide EchoBalanced;
      hide SenderAfter;
      hide TotalSent;
      hide TotalWhole;
      hide Due;
      hide RoundBytes;
      hide FlushFate;
      Prepare(frames, now);
      ghost var ready, batch := link, pending;
      result := FlushPending(sends);
      ghost var k := if result.Flushed? then |batch| else offset;
      assert batch[0..] == batch == batch[..|batch|] && batch[0..k] == batch[..k];
      RoundProceeds(ready, batch, k);
      ghost var r, counted := ready.rounds[|ready.rounds| - 1], Counted(old(stats));
      CountsAfterNote(ledger.past, ready.start, old(link).rounds, r, counted);
      HandledAfterNote(ledger.past, old(link).rounds, r);
      ghost var earlier := RoundsBefore(ledger.past);
      PacedOn(echoInterval, earlier + old(link).rounds, old(echo), r);
      assert earlier + (old(link).rounds + [r]) == (earlier + old(link).rounds) + [r];
      if result.Flushed? {
        CountsAfterFlush(ledger.past, ready.start, ready.rounds, Counted(stats));
        stats := stats.(framesSent := stats.framesSent + |frames|, batchesSent := stats.batchesSent + 1);
      }
    }

    /** The probe that is out is answered by what these chunks complete. */
    ghost predicate Answered(chunks: seq<seq<byte>>)
      reads this
    {
      echo.outstanding && Answers(ScanReplies(Buffered(replyBuf, chunks)).frames, echo.nonce)
    }

    /** One pass of the run loop, from the top. Nothing is pending there: the
        retry of a pending buffer at the top of the loop is never needed. What
        the feed handed over is noted once, whatever becomes of the connection. */
    method Pass(turn: Turn) returns (after: After)
      requires Valid() && pending == [] && PopsFit(turn.pops, maxFrames) && echo.nonce + 1 < 0x1_0000_0000_0000_0000
      modifies this
      ensures Valid() && (after.Continue? ==> pending == [])
      ensures old(ledger).past <= ledger.past
      ensures old(echo).nonce <= echo.nonce <= old(echo).nonce + 1
      ensures Handled() == old(Handled()) + if old(connected) || !turn.stop then Taken(turn, lingers, maxFrames) else []
      ensures rtt == old(rtt) +
                     if (old(connected) || !turn.stop) && !turn.gone && old(Answered(turn.replies))
                     then [turn.repliedAt - old(echo).sentAt] else []
      ensures !old(connected) && turn.stop ==>
                after.Return? && !connected && link == old(link) && ledger == old(ledger) && stats == old(stats)
      ensures (old(connected) || !turn.stop) && turn.gone ==>
                after.Continue? && !connected && ledger.past == old(ledger).past + [old(Current())]
      ensures (old(connected) || !turn.stop) && !turn.gone && Taken(turn, lingers, maxFrames) == [] ==>
                && connected && link == old(link) && ledger.past == old(ledger).past && pending == []
                && (after.Return? <==> turn.closed)
      ensures (old(connected) || !turn.stop) && after.Return? && Taken(turn, lingers, maxFrames) != [] ==> pending != []
      ensures (old(connected) || !turn.stop) && Taken(turn, lingers, maxFrames) != [] ==>
                Outcome(old(link), old(ledger).past, old(sender), turn.sends,
                        Noted(turn, lingers, maxFrames, echoInterval, old(echo)), after, connected, link, ledger.past)
    {
      hide WireFits;
      hide BytesBalanced;
      hide CountsBalanced;
      hide Paced;
      hide EchoBalanced;
      hide Coalesced;
      hide PopsFit;
      hide BatchesBefore;
      hide BatchesOf;
      hide ScanReplies;
      hide Buffered;
      hide Answers;
      hide Outcome;
      hide Noted;
      hide Chained;
      assert Handled() + [] == Handled() && rtt + [] == rtt;
      if !connected {
        if turn.stop {
          return Return;
        }
        connected := true;
        stats := stats.(connects := stats.connects + 1);
      }
      if turn.gone {
        DropClient();
        return Continue;
      }
      after := Exchange(turn);
    }

    /** The pass once a client is known to be there. */
    method Exchange(turn: Turn) returns (after: After)
      requires Valid() && connected && !turn.gone && pending == []
      requires PopsFit(turn.pops, maxFrames) && echo.nonce + 1 < 0x1_0000_0000_0000_0000
      modifies this
      ensures Valid() && (after.Continue? ==> pending == [])
      ensures old(ledger).past <= ledger.past
      ensures old(echo).nonce <= echo.nonce <= old(echo).nonce + 1
      ensures Handled() == old(Handled()) + Taken(turn, lingers, maxFrames)
      ensures rtt == old(rtt) + if old(Answered(turn.replies)) then [turn.repliedAt - old(echo).sentAt] else []
      ensures Taken(turn, lingers, maxFrames) == [] ==>
                && connected && link == old(link) && ledger.past == old(ledger).past && pending == []
                && (after.Return? <==> turn.closed)
      ensures after.Return? && Taken(turn, lingers, maxFrames) != [] ==> pending != []
      ensures Taken(turn, lingers, maxFrames) != [] ==>
                Outcome(old(link), old(ledger).past, old(sender), turn.sends,
                        Noted(turn, lingers, maxFrames, echoInterval, old(echo)), after, connected, link, ledger.past)
      ensures stats.lingered == old(stats).lingered + if Joins(turn.pops, lingers, maxFrames) then 1 else 0
    {
      hide WireFits;
      hide BytesBalanced;
      hide CountsBalanced;
      hide Paced;
      hide EchoBalanced;
      hide ScanReplies;
      hide Buffered;
      hide Answers;
      hide Coalesced;
      hide PopsFit;
      hide BatchesBefore;
      hide BatchesOf;
      hide Due;
      hide RoundBytes;
      hide FlushFate;
      hide Joins;
      hide Outcome;
      hide Noted;
      hide Taken;
      DrainReplies(turn.replies, turn.repliedAt);
      DueAgain(turn, lingers, maxFrames, echoInterval, old(echo), echo);
      after := ServeFeed(turn);
    }

    /** The pass from `pop_batch` on. */
    method ServeFeed(turn: Turn) returns (after: After)
      requires Valid() && connected && !turn.gone && pending == []
      requires PopsFit(turn.pops, maxFrames) && echo.nonce + 1 < 0x1_0000_0000_0000_0000
      modifies this
      ensures Valid() && (after.Continue? ==> pending == [])
      ensures old(ledger).past <= ledger.past
      ensures old(echo).nonce <= echo.nonce <= old(echo).nonce + 1
      ensures Handled() == old(Handled()) + Taken(turn, lingers, maxFrames) && rtt == old(rtt)
      ensures Taken(turn, lingers, maxFrames) == [] ==>
                && connected && link == old(link) && ledger.past == old(ledger).past && pending == []
                && (after.Return? <==> turn.closed)
      ensures after.Return? && Taken(turn, lingers, maxFrames) != [] ==> pending != []
      ensures Taken(turn, lingers, maxFrames) != [] ==>
                Outcome(old(link), old(ledger).past, old(sender), turn.sends,
                        Noted(turn, lingers, maxFrames, echoInterval, old(echo)), after, connected, link, ledger.past)
      ensures stats.lingered == old(stats).lingered + if Joins(turn.pops, lingers, maxFrames) then 1 else 0
    {
      hide Egress.Valid;
      hide Coalesced;
      hide PopsFit;
      hide BatchesBefore;
      hide BatchesOf;
      hide Due;
      hide RoundBytes;
      hide FlushFate;
      hide Joins;
      hide Outcome;
      hide Noted;
      hide Taken;
      var frames := Coalesce(turn.pops);
      CoalescedFits(turn.pops, lingers, maxFrames);
      TakenIs(turn, lingers, maxFrames, echoInterval, echo, frames);
      if frames == [] {
        assert Handled() + [] == Handled();
        return if turn.closed then Return else Continue;
      }
      ghost var r := Round(frames, turn.now, Due(echoInterval, echo, turn.now));
      var result := Serve(frames, turn.now, turn.sends);
      match result {
        case Flushed => after := Continue;
        case Lost => DropClient(); after := Continue;
        case Blocked => after := Return;
      }
      OutcomeIs(old(link), old(ledger).past, old(sender), turn.sends, r, after, connected, link, ledger.past);
    }

    /** `run`, or any prefix of it: the batches noted are exactly those the
        first `n` passes took from the feed, in order, across all reconnects. */
    method Run(turns: seq<Turn>) returns (ghost n: nat)
      requires Valid() && pending == []
      requires forall i | 0 <= i < |turns| :: PopsFit(turns[i].pops, maxFrames)
      requires echo.nonce + |turns| < 0x1_0000_0000_0000_0000
      modifies this
      ensures Valid()
      ensures old(ledger).past <= ledger.past
      ensures n <= |turns| && Handled() == old(Handled()) + TakenAll(turns[..n], lingers, maxFrames)
      ensures n < |turns| ==> pending != [] || turns[n].stop || (n > 0 && turns[n - 1].closed)
      ensures Rising(Concat(Handled()), 0) ==> AllOrderly(Connections())
    {
      hide WireFits;
      hide BytesBalanced;
      hide CountsBalanced;
      hide Paced;
      hide EchoBalanced;
      hide Taken;
      hide TakenAll;
      hide SenderAfter;
      hide Whole;
      hide PopsFit;
      hide BatchesBefore;
      hide BatchesOf;
      hide Answers;
      hide ScanReplies;
      hide Buffered;
      hide WireBatches;
      hide Filled;
      hide AllPrintable;
      hide Outcome;
      hide Noted;
      hide Due;
      hide Chained;
      hide Rising;
      hide Concat;
      hide AllOrderly;
      n := 0;
      NothingTaken(turns[..0], lingers, maxFrames);
      assert Handled() + [] == Handled();
      for i := 0 to |turns|
        invariant Valid() && pending == []
        invariant echo.nonce <= old(echo).nonce + i
        invariant old(ledger).past <= ledger.past
        invariant n == i && Handled() == old(Handled()) + TakenAll(turns[..i], lingers, maxFrames)
      {
        TakenOneMore(turns, i, lingers, maxFrames);
        ghost var stopping := !connected && turns[i].stop;
        var after := Pass(turns[i]);
        if !stopping {
          n := i + 1;
        }
        if after.Return? {
          OrderlyIfRising(this);
          return;
        }
      }
      assert turns[..|turns|] == turns;
      OrderlyIfRising(this);
    }
  }

  // ---------------------------------------------------------------------
  // What the counters add up to, and what a cut connection costs

  function RecordTotal(bs: seq<seq<Frame>>): nat {
    if bs == [] then 0 else RecordTotal(bs[..|bs| - 1]) + |bs[|bs| - 1]|
  }

  lemma {:induction false} StreamLength(bs: seq<seq<Frame>>)
    requires AllPrintable(bs)
    ensures |StreamBytes(bs)| == HEADER_SIZE * |bs| + 40 * RecordTotal(bs)
  {
    hide BatchBytes;
    if bs != [] {
      StreamInitPrintable(bs);
      StreamLength(bs[..|bs| - 1]);
    }
  }

  ghost function WholeRecords(p: Past): nat
    requires PastOk(p)
  {
    RecordTotal(WireBatches(p.start, p.rounds)[..p.whole])
  }

  /** The bytes of the batch that was being written when the connection ended. */
  ghost function CutBytes(p: Past): int
    requires PastOk(p)
  {
    |p.sent| - (16 * p.whole + 40 * WholeRecords(p))
  }

  /** A connection carried sixteen bytes per whole batch, forty per record of
      those, and less than one further batch - nothing, unless it was cut. */
  lemma {:induction false} CutIsPartial(p: Past)
    requires PastOk(p)
    ensures 0 <= CutBytes(p) && (p.whole == |p.rounds| ==> CutBytes(p) == 0)
    ensures p.whole < |p.rounds| ==> CutBytes(p) < 16 + 40 * |WireBatches(p.start, p.rounds)[p.whole]|
  {
    var bs := WireBatches(p.start, p.rounds);
    hide WireBatches;
    hide StreamBytes;
    hide RecordTotal;
    if p.whole == |bs| {
      assert bs[..p.whole] == bs;
      StreamLength(bs);
    } else {
      StreamLength(bs[..p.whole]);
      var cut :| p.sent == StreamBytes(bs[..p.whole]) + cut && cut < BatchBytes(bs[p.whole]);
    }
  }

  ghost function TotalRecords(ps: seq<Past>): nat
    requires PastsOk(ps)
  {
    if ps == [] then 0 else TotalRecords(ps[..|ps| - 1]) + WholeRecords(ps[|ps| - 1])
  }

  ghost function TotalCut(ps: seq<Past>): int
    requires PastsOk(ps)
  {
    if ps == [] then 0 else TotalCut(ps[..|ps| - 1]) + CutBytes(ps[|ps| - 1])
  }

  /** In any valid state: if what was taken from the feed are rising bus frames,
      every connection so far carried orderly rounds, the current one included. */
  lemma {:induction false} OrderlyIfRising(e: Egress)
    requires e.Valid()
    ensures Rising(Concat(e.Handled()), 0) ==> AllOrderly(e.Connections())
  {
    hide Orderly;
    hide EchoBalanced;
    hide CountsBalanced;
    hide Paced;
    hide Rising;
    hide PastOk;
    if Rising(Concat(e.Handled()), 0) {
      var past, rounds := e.ledger.past, e.link.rounds;
      ConcatAppend(BatchesBefore(past), BatchesOf(rounds));
      ConcatOfPasts(past);
      ConcatOfRounds(rounds);
      FilledByFit(e.link, e.pending, e.offset);
      hide WireFits;
      ChainIsOrderly(past, e.link.start, rounds);
      var all := e.Connections();
      forall i | 0 <= i < |all| ensures Orderly(all[i].start, all[i].rounds) {
        if i < |past| { assert all[i] == past[i]; }
      }
    }
  }

  /** All connections so far are whole batches and at most one cut each. */
  lemma {:induction false} ConnectionsAreOk(e: Egress)
    requires e.Valid()
    ensures PastsOk(e.Connections()) && Chained(e.ledger.past, e.link.start)
    ensures e.stats.bytesSent == TotalSent(e.Connections()) && e.stats.batchesSent == TotalWhole(e.Connections())
    ensures TalliedBefore(e.Connections()) == Tally(e.stats.framesSent, e.stats.gapsSent, e.stats.framesLost)
  {
    hide EchoBalanced;
    hide WireFits;
    hide PastOk;
    hide Tallied;
    PastIsOk(e.link, e.pending, e.offset);
    PastAppend(e.ledger.past, e.Current());
    assert e.Connections()[..|e.ledger.past|] == e.ledger.past;
  }

  /** At any point of any run: bytes sent are sixteen per batch sent, forty per
      record of these, plus the bytes of batches that were cut or are in flight. */
  lemma {:induction false} BytesSentAddUp(e: Egress)
    requires e.Valid()
    ensures PastsOk(e.Connections())
    ensures e.stats.bytesSent ==
            16 * e.stats.batchesSent + 40 * TotalRecords(e.Connections()) + TotalCut(e.Connections())
  {
    hide EchoBalanced;
    hide WireFits;
    hide PastOk;
    ConnectionsAreOk(e);
    BytesAddUp(e.Connections());
  }

  /** Over any connections: bytes sent are sixteen per batch, forty per record,
      plus the bytes of the truncated last batches. */
  lemma {:induction false} BytesAddUp(ps: seq<Past>)
    requires PastsOk(ps)
    ensures TotalSent(ps) == 16 * TotalWhole(ps) + 40 * TotalRecords(ps) + TotalCut(ps)
  {
    hide PastOk;
    hide WholeRecords;
    if ps != [] { BytesAddUp(ps[..|ps| - 1]); }
  }

  /** Loss accounting holds per connection and no further. Whatever the next
      connection reports begins at `SenderAfter` all noted rounds, so the frames
      of a batch whose flush failed are behind it and no marker ever covers them.
      The two connections' books meet exactly when no batch was cut. */
  lemma {:induction false} CutBatchIsNeverAccounted(p: Past, later: seq<Round>)
    requires PastOk(p) && Orderly(p.start, p.rounds) && p.rounds != []
    requires later != [] && Orderly(SenderAfter(p.start, p.rounds).(reconnected := true), later)
    ensures var resumed := SenderAfter(p.start, p.rounds).(reconnected := true);
            Filled(p.rounds[..p.whole]) &&
            var reached := SenderAfter(p.start, p.rounds[..p.whole]).nextSeq;
            && (p.start.have || p.whole > 0 ==> (FirstSeq(resumed, later) == reached <==> p.whole == |p.rounds|))
            && (p.whole < |p.rounds| ==>
                  var cut := p.rounds[p.whole].batch;
                  forall i | 0 <= i < |cut| :: cut[i].seqNo < FirstSeq(resumed, later))
  {
    ProbesOfPast(p);
    hide PastOk;
    hide Orderly;
    hide Records;
    hide RoundRecords;
    if p.whole == |p.rounds| {
      assert p.rounds[..p.whole] == p.rounds;
    } else {
      var init, last := p.rounds[..p.whole], p.rounds[p.whole];
      assert init + [last] == p.rounds;
      OrderlyAppend(p.start, init, last);
      OrderlyRound(SenderAfter(p.start, init), last);
      BatchBelowLast(last.batch);
    }
  }

  lemma {:induction false} OrderlyRound(s: Sender, r: Round)
    requires Orderly(s, [r])
    ensures BusBatch(r.batch) && (s.have ==> r.batch[0].seqNo >= s.nextSeq)
  {}

  lemma {:induction false} BatchBelowLast(fs: seq<Frame>)
    requires BusBatch(fs)
    ensures forall i | 0 <= i < |fs| :: fs[i].seqNo <= LastSeq(fs)
    decreases |fs|
  {
    if |fs| > 1 {
      var rest := fs[1..];
      BusBatchTail(fs);
      BatchBelowLast(rest);
      forall i | 0 <= i < |fs| ensures fs[i].seqNo <= LastSeq(fs) {
        if i == 0 { assert fs[0].seqNo < fs[1].seqNo && fs[1] == rest[0]; } else { assert fs[i] == rest[i - 1]; }
      }
    }
  }

  lemma {:induction false} EchoesAreEchoes(probes: seq<Frame>, nonce: u64, now: u64)
    requires probes == [] || probes == [MakeEcho(nonce, now)]
    ensures |probes| <= 1 && OnlyEchoes(probes) && forall i | 0 <= i < |probes| :: Acceptable(probes[i])
  {}

  lemma {:induction false} RoundRecordsAre(s: Sender, r: Round)
    requires r.batch != []
    ensures RoundRecords(s, r) == Marker(s, r.batch, r.now) + r.batch + r.probes
  {}

  lemma {:induction false} GoodRecordAt(b: seq<byte>, i: nat, n: nat)
    requires i < n && |b| == 40 * n
    ensures GoodRecords(b[40 * i..]) ==
            (match DecodeFrame(b[40 * i..40 * i + RECORD_SIZE]) case Ok(f) => [f] case Err(_) => []) +
            GoodRecords(b[40 * i + RECORD_SIZE..])
  {
    hide DecodeFrame;
    var tail := b[40 * i..];
    assert tail[..RECORD_SIZE] == b[40 * i..40 * i + RECORD_SIZE];
    assert tail[RECORD_SIZE..] == b[40 * i + RECORD_SIZE..];
  }

  lemma {:induction false} NoGoodRecords(b: seq<byte>)
    requires b == []
    ensures GoodRecords(b) == []
  {}

  /** One message of a reply buffer, or the reason to stop. */
  lemma {:induction false} ScanStep(b: seq<byte>)
    ensures ScanReplies(b) ==
            if |b| < HEADER_SIZE then Scan([], b)
            else match DecodeHeader(b[..HEADER_SIZE])
                 case Err(_) => Scan([], [])
                 case Ok(h) =>
                   var n := HEADER_SIZE + h.payloadLen;
                   if |b| < n then Scan([], b)
                   else Scan(GoodRecords(b[HEADER_SIZE..n]) + ScanReplies(b[n..]).frames, ScanReplies(b[n..]).rest)
  {
    hide DecodeHeader;
    hide GoodRecords;
  }
}
