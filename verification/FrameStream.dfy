/** The consumer's incremental reader of the wire protocol. */
module FrameStream {
  import opened Wire
  import opened BatchStream

  datatype Option<+T> = None | Some(value: T)

  datatype Poll = Readable | TimedOut | PollInterrupted | PollFailed

  /** One thing the socket does when it is read from. Chunks are how the bytes
      happen to arrive; a read takes no more than it asked for and leaves the
      rest of the chunk. `Again` is EAGAIN and what happens next: the deadline
      may have passed already, or poll runs. */
  datatype SocketEvent =
    | Arrive(bytes: seq<byte>)
    | Eof
    | Interrupted
    | Failed
    | Again(deadlinePassed: bool, poll: Poll)

  function Arriving(events: seq<SocketEvent>): seq<byte> {
    if events == [] then [] else Chunk(events[0]) + Arriving(events[1..])
  }

  function Chunk(event: SocketEvent): seq<byte> {
    if event.Arrive? then event.bytes else []
  }

  /** The socket after a read that took `n` bytes of its first chunk. */
  function AfterRead(events: seq<SocketEvent>, n: nat): seq<SocketEvent>
    requires events != [] && n <= |Chunk(events[0])|
  {
    if n == |Chunk(events[0])| then events[1..] else [Arrive(Chunk(events[0])[n..])] + events[1..]
  }

  lemma {:induction false} ChunkOfArrival(bytes: seq<byte>)
    ensures Chunk(Arrive(bytes)) == bytes
  {}

  lemma {:induction false} ArrivingFirst(event: SocketEvent, later: seq<SocketEvent>)
    ensures Arriving([event] + later) == Chunk(event) + Arriving(later)
  {
    assert ([event] + later)[1..] == later;
  }

  lemma {:induction false} ReadTakesFromFront(events: seq<SocketEvent>, n: nat)
    requires events != [] && n <= |Chunk(events[0])|
    ensures Arriving(events) == Chunk(events[0])[..n] + Arriving(AfterRead(events, n))
  {
    hide Arriving;
    hide Chunk;
    var chunk, later := Chunk(events[0]), events[1..];
    assert events == [events[0]] + later;
    ArrivingFirst(events[0], later);
    if n < |chunk| {
      ArrivingFirst(Arrive(chunk[n..]), later);
      ChunkOfArrival(chunk[n..]);
      var rest := Arriving(later);
      assert chunk + rest == chunk[..n] + (chunk[n..] + rest);
    }
  }

  /** A read either takes bytes or uses up an event. */
  lemma {:induction false} ReadShrinks(events: seq<SocketEvent>, n: nat, max: nat)
    requires events != [] && max > 0 && n == (if |Chunk(events[0])| < max then |Chunk(events[0])| else max)
    ensures n == 0 ==> |AfterRead(events, n)| < |events|
  {}

  lemma {:induction false} Splice(buf: seq<byte>, got: nat, x: seq<byte>)
    requires got + |x| <= |buf|
    ensures var after := buf[..got] + x + buf[got + |x|..];
            |after| == |buf| && after[..got + |x|] == buf[..got] + x
  {}

  datatype Status = Complete | Timeout | Closed | ProtocolError

  // ---------------------------------------------------------------------
  // Why a call stops

  /** The peer is gone, the read failed or polling did. A read of no bytes is an
      orderly shutdown. */
  predicate Closes(event: SocketEvent) {
    || event.Eof? || event.Failed? || event == Arrive([])
    || (event.Again? && !event.deadlinePassed && event.poll.PollFailed?)
  }

  /** Nothing to read, and the deadline is reached. */
  predicate TimesOut(event: SocketEvent) { event.Again? && (event.deadlinePassed || event.poll.TimedOut?) }

  /** None of the first `k` events is a reason to stop. */
  predicate Quiet(events: seq<SocketEvent>, k: nat) {
    k <= |events| && forall i | 0 <= i < k :: !Closes(events[i]) && !TimesOut(events[i])
  }

  /** What is left of a chunk that was cut into. */
  predicate TailOf(part: SocketEvent, whole: SocketEvent) {
    && part.Arrive? && whole.Arrive? && 0 < |part.bytes| < |whole.bytes|
    && part.bytes == whole.bytes[|whole.bytes| - |part.bytes|..]
  }

  lemma {:induction false} TailAgain(part: SocketEvent, whole: SocketEvent, n: nat)
    requires part.Arrive? && (part == whole || TailOf(part, whole)) && 0 < n < |part.bytes|
    ensures TailOf(Arrive(part.bytes[n..]), whole)
  {
    Suffix(whole.bytes, |whole.bytes| - |part.bytes|, n);
  }

  lemma {:induction false} TailArrives(part: SocketEvent, whole: SocketEvent)
    requires TailOf(part, whole)
    ensures part.Arrive? && whole.Arrive? && part.bytes != [] && whole.bytes != []
  {}

  lemma {:induction false} Suffix(x: seq<byte>, m: nat, n: nat)
    requires m + n <= |x|
    ensures x[m..][n..] == x[m + n..]
  {}

  /** The first `k` events of `before` are used up, and perhaps the start of a chunk. */
  predicate ReadUpTo(before: seq<SocketEvent>, after: seq<SocketEvent>, k: nat) {
    && Quiet(before, k)
    && (|| after == before[k..]
        || (k < |before| && after != [] && TailOf(after[0], before[k]) && after[1..] == before[k + 1..]))
  }

  /** What the status of a call says about the events it used up: it is Closed
      exactly at the first event that closes, Timeout exactly at the first that
      times out or when nothing more happens, and otherwise no event was either. */
  predicate StoppedAt(before: seq<SocketEvent>, after: seq<SocketEvent>, k: nat, status: Status) {
    match status
    case Timeout =>
      Quiet(before, k) && if k == |before| then after == [] else TimesOut(before[k]) && after == before[k + 1..]
    case Closed => Quiet(before, k) && k < |before| && Closes(before[k]) && after == before[k + 1..]
    case _ => ReadUpTo(before, after, k)
  }

  /** An event that is a reason to stop carries no bytes. */
  lemma {:induction false} StopsEmpty(event: SocketEvent)
    ensures Closes(event) || TimesOut(event) ==> Chunk(event) == []
    ensures !(Closes(event) && TimesOut(event))
  {}

  /** The next event, after `k`, used up or cut into. */
  lemma {:induction false} ReadOn(before: seq<SocketEvent>, after: seq<SocketEvent>, k: nat, n: nat)
    requires ReadUpTo(before, after, k) && after != [] && n <= |Chunk(after[0])|
    requires n < |Chunk(after[0])| ==> n > 0
    ensures k < |before|
    ensures Closes(after[0]) ==> StoppedAt(before, AfterRead(after, n), k, Closed)
    ensures TimesOut(after[0]) ==> StoppedAt(before, AfterRead(after, n), k, Timeout)
    ensures !Closes(after[0]) && !TimesOut(after[0]) ==>
              ReadUpTo(before, AfterRead(after, n), if n == |Chunk(after[0])| then k + 1 else k)
  {
    StopsEmpty(after[0]);
    assert before[k..] != [] ==> before[k..][0] == before[k] && before[k..][1..] == before[k + 1..];
    assert after[1..] == before[k + 1..];
    if n < |Chunk(after[0])| {
      CutOn(before, after, k, n);
    } else if !Closes(after[0]) && !TimesOut(after[0]) {
      assert Quiet(before, k + 1);
    }
  }

  lemma {:induction false} CutOn(before: seq<SocketEvent>, after: seq<SocketEvent>, k: nat, n: nat)
    requires ReadUpTo(before, after, k) && after != [] && 0 < n < |Chunk(after[0])|
    requires k < |before| && after[1..] == before[k + 1..]
    ensures ReadUpTo(before, AfterRead(after, n), k)
  {
    hide TailOf;
    if after == before[k..] {
      assert after[0] == before[k];
    }
    TailAgain(after[0], before[k], n);
    var rest := AfterRead(after, n);
    assert rest == [Arrive(after[0].bytes[n..])] + after[1..];
    assert rest[0] == Arrive(after[0].bytes[n..]) && rest[1..] == after[1..];
  }

  /** Two calls, or the two halves of one. */
  lemma {:induction false} StopsLater(
    a: seq<SocketEvent>, b: seq<SocketEvent>, c: seq<SocketEvent>, k: nat, j: nat, status: Status)
    requires ReadUpTo(a, b, k) && StoppedAt(b, c, j, status)
    ensures StoppedAt(a, c, k + j, status)
  {
    assert |b| == |a| - k;
    if b != a[k..] { TailArrives(b[0], a[k]); }
    hide TailOf;
    forall i | 0 <= i < |b| ensures
      && a[k + i].Arrive? == b[i].Arrive? && (i > 0 || !b[i].Arrive? ==> a[k + i] == b[i])
      && (Closes(a[k + i]) <==> Closes(b[i])) && (TimesOut(a[k + i]) <==> TimesOut(b[i]))
    {
      if b == a[k..] { assert b[i] == a[k + i]; } else if i > 0 { assert b[i] == b[1..][i - 1] == a[k + i]; }
    }
    assert Quiet(a, k + j) by {
      forall i | 0 <= i < k + j ensures !Closes(a[i]) && !TimesOut(a[i]) {
        if i >= k { assert !Closes(b[i - k]) && !TimesOut(b[i - k]); }
      }
    }
    if j < |b| { TailsAgree(a, b, k, j + 1); }
    if j > 0 { TailsAgree(a, b, k, j); }
  }

  lemma {:induction false} TailsAgree(a: seq<SocketEvent>, b: seq<SocketEvent>, k: nat, i: nat)
    requires ReadUpTo(a, b, k) && 0 < i <= |b|
    ensures k + i <= |a| && b[i..] == a[k + i..]
  {
    if b == a[k..] {
    } else {
      assert b[i..] == b[1..][i - 1..] && a[k + i..] == a[k + 1..][i - 1..];
    }
  }
  datatype ReaderState = InHeader | InPayload

  /** How the header half of `read_batch` ends. */
  datatype HeaderStep = NotYet(why: Status) | BadHeader | EmptyBatch | Announced

  class Reader {
    var state: ReaderState
    var buf: seq<byte>
    var got: nat
    var need: nat
    var records: nat
    var lastError: Option<DecodeError>
    var socket: seq<SocketEvent>      // what the socket will still do
    ghost var taken: seq<byte>        // every byte read so far
    ghost var results: seq<Message>   // every message returned so far

    /** The bytes of the message being received. The header was overwritten in
        `buf`, but an accepted header is determined by its record count. */
    ghost function Pending(): seq<byte>
      reads this
      requires got <= |buf| && records <= MAX_COUNT
    {
      (if state.InHeader? then [] else HeaderBytes(records)) + buf[..got]
    }

    ghost predicate Shaped()
      reads this
    {
      && got <= |buf| && records <= MAX_COUNT
      && (if state.InHeader? then got <= HEADER_SIZE else records > 0 && need == 40 * records && got <= need)
    }

    /** The reader is always exactly where a one-shot parse of everything read
        so far would be, however the bytes were split. */
    ghost predicate Valid()
      reads this
    {
      && Shaped()
      && (state.InPayload? ==> got < need && lastError.None?)
      && Parse(taken) == Parsed(results, Pending())
    }

    constructor (events: seq<SocketEvent>)
      ensures Valid() && taken == [] && results == [] && socket == events
    {
      state, buf, got, need, records, lastError := InHeader, seq(HEADER_SIZE, i => 0), 0, HEADER_SIZE, 0, None;
      socket, taken, results := events, [], [];
    }

    /** One `read` of at most `max` bytes, appended to what is buffered. */
    method Receive(max: nat) returns (event: SocketEvent)
      requires got <= |buf| && max <= |buf| - got && max > 0 && socket != []
      modifies `buf, `got, `taken, `socket
      ensures event == old(socket)[0] && got - old(got) <= |Chunk(event)|
      ensures got < old(got) + max ==> got - old(got) == |Chunk(event)|
      ensures socket == AfterRead(old(socket), got - old(got))
      ensures |buf| == old(|buf|) && old(got) <= got <= old(got) + max
      ensures old(taken) <= taken && buf[..got] == old(buf[..got]) + taken[|old(taken)|..]
      ensures taken + Arriving(socket) == old(taken) + old(Arriving(socket))
      ensures || |Arriving(socket)| < old(|Arriving(socket)|)
              || (|Arriving(socket)| == old(|Arriving(socket)|) && |socket| < old(|socket|))
      ensures !event.Arrive? ==> got == old(got)
    {
      hide Arriving;
      hide AfterRead;
      event := socket[0];
      var n := if |Chunk(event)| < max then |Chunk(event)| else max;
      var x := Chunk(event)[..n];
      ReadTakesFromFront(socket, n);
      Splice(buf, got, x);
      ReadShrinks(socket, n, max);
      socket := AfterRead(socket, n);
      buf := buf[..got] + x + buf[got + n..];
      got := got + n;
      taken := taken + x;
    }

    static lemma {:induction false} NothingTaken(taken: seq<byte>, held: seq<byte>)
      ensures held == held + taken[|taken|..]
    {}

    /** What was read before and what was read since. */
    static lemma {:induction false} TakenOn(first: seq<byte>, before: seq<byte>, after: seq<byte>, held: seq<byte>)
      requires first <= before <= after
      ensures first <= after && (held + before[|first|..]) + after[|before|..] == held + after[|first|..]
    {
      assert after[|first|..] == before[|first|..] + after[|before|..];
    }

    /** `fill`: read until `want` bytes are buffered or there is a reason to stop. */
    method Fill(want: nat) returns (status: Status, ghost k: nat)
      requires got <= |buf| && got <= want
      modifies `buf, `got, `taken, `socket
      ensures old(got) <= got <= |buf| && got <= want
      ensures old(taken) <= taken && buf[..got] == old(buf[..got]) + taken[|old(taken)|..]
      ensures taken + Arriving(socket) == old(taken) + old(Arriving(socket))
      ensures status.Complete? <==> got == want
      ensures status.Complete? || status.Timeout? || status.Closed?
      ensures StoppedAt(old(socket), socket, k, status)
    {
      hide Arriving;
      hide AfterRead;
      hide ReadUpTo;
      k := 0;
      NothingReadYet(socket);
      if |buf| < want {
        buf := buf + seq(want - |buf|, i => 0);
      }
      assert buf[..got] == old(buf[..got]);
      NothingTaken(old(taken), buf[..got]);
      while got < want
        invariant old(got) <= got <= want <= |buf|
        invariant old(taken) <= taken && buf[..got] == old(buf[..got]) + taken[|old(taken)|..]
        invariant taken + Arriving(socket) == old(taken) + old(Arriving(socket))
        invariant ReadUpTo(old(socket), socket, k)
        decreases |Arriving(socket)|, |socket|
      {
        if socket == [] {
          AllReadUpTo(old(socket), k);
          return Timeout, |old(socket)|;  // nothing more happens before the deadline
        }
        ghost var before, was := taken, got;
        ghost var events := socket;
        var event := Receive(want - got);
        TakenOn(old(taken), before, taken, old(buf[..got]));
        StopsEmpty(event);
        ReadOn(old(socket), events, k, got - was);
        match event {
          case Arrive(bytes) =>
            if bytes == [] {
              return Closed, k;  // a read of no bytes: orderly shutdown by the peer
            }
          case Eof => return Closed, k;
          case Interrupted =>
          case Failed => return Closed, k;
          case Again(deadlinePassed, poll) =>
            if deadlinePassed {
              return Timeout, k;
            }
            match poll {
              case PollFailed => return Closed, k;
              case TimedOut => return Timeout, k;
              case PollInterrupted =>
              case Readable =>
            }
        }
        k := if got - was == |Chunk(event)| then k + 1 else k;
      }
      return Complete, k;
    }

    static lemma {:induction false} NothingReadYet(events: seq<SocketEvent>)
      ensures ReadUpTo(events, events, 0)
    {}

    static lemma {:induction false} AllReadUpTo(before: seq<SocketEvent>, k: nat)
      requires ReadUpTo(before, [], k)
      ensures StoppedAt(before, [], |before|, Timeout)
    {}

    /** The reader sits on a complete header that does not decode. */
    ghost predicate Refused()
      reads this
    {
      Shaped() && state.InHeader? && |Pending()| == HEADER_SIZE && DecodeHeader(Pending()).Err?
    }

    /** `read_batch`. Whatever it returns, no byte is lost, invented or taken
        out of turn, and the reader stands where the one-shot parse stands. */
    method ReadBatch() returns (status: Status, out: seq<Frame>, ghost k: nat)
      requires Valid()
      modifies this
      ensures Valid()
      ensures old(taken) <= taken
      ensures taken + Arriving(socket) == old(taken) + old(Arriving(socket))
      ensures status.Complete? ==> results == old(results) + [Batch(out)]
      ensures status.Timeout? || status.Closed? ==> results == old(results) && out == []
      ensures status.ProtocolError? ==>
                && lastError.Some?
                && (|| results == old(results) + [BadRecord(out, lastError.value)]
                    || (&& results == old(results) && out == [] && state.InHeader?
                        && |Pending()| == HEADER_SIZE && DecodeHeader(Pending()) == Err(lastError.value)))
      ensures old(Refused()) ==> status.ProtocolError? && taken == old(taken) && Refused()
      ensures StoppedAt(old(socket), socket, k, status)
      ensures status.Complete? ==> lastError.None?
    {
      hide Parse;
      hide HeaderBytes;
      hide DecodeHeader;
      hide Arriving;
      hide ReadUpTo;
      out, k := [], 0;
      NothingReadYet(socket);
      ghost var mid := socket;
      if state.InHeader? {
        var step;
        step, k := ReadHeader();
        mid := socket;
        match step {
          case NotYet(why) => return why, [], k;
          case BadHeader => return ProtocolError, [], k;
          case EmptyBatch => return Complete, [], k;
          case Announced =>
        }
      }
      ghost var j;
      status, out, j := ReadPayload();
      StopsLater(old(socket), mid, socket, k, j, status);
      k := k + j;
    }

    /** The first half of `read_batch`: the header. */
    method ReadHeader() returns (step: HeaderStep, ghost k: nat)
      requires Valid() && state.InHeader?
      modifies this
      ensures Valid() && old(taken) <= taken
      ensures taken + Arriving(socket) == old(taken) + old(Arriving(socket))
      ensures match step
              case NotYet(why) => results == old(results) && (why.Timeout? || why.Closed?)
              case BadHeader =>
                && results == old(results) && lastError.Some? && state.InHeader?
                && |Pending()| == HEADER_SIZE && DecodeHeader(Pending()) == Err(lastError.value)
              case EmptyBatch => results == old(results) + [Batch([])]
              case Announced => results == old(results) && state.InPayload?
      ensures old(Refused()) ==> step.BadHeader? && taken == old(taken)
      ensures StoppedAt(old(socket), socket, k, if step.NotYet? then step.why else Complete)
      ensures step.EmptyBatch? ==> lastError.None?
    {
      hide Parse;
      hide HeaderBytes;
      hide DecodeHeader;
      hide Arriving;
      ghost var was, had, pending := results, taken, Pending();
      hide ReadUpTo;
      var status;
      status, k := Fill(HEADER_SIZE);
      var bytes := buf[..got];
      Resume(had, was, pending, taken[|had|..]);
      assert had + taken[|had|..] == taken && pending + taken[|had|..] == bytes;
      ParseUpToHeader(bytes);
      assert was + [] == was;
      if !status.Complete? {
        return NotYet(status), k;
      }
      assert |pending| == HEADER_SIZE ==> taken == had && bytes == pending;
      match DecodeHeader(bytes) {
        case Err(e) =>
          lastError := Some(e);
          return BadHeader, k;
        case Ok(header) =>
          EncodeHeaderAfterDecode(bytes);
          lastError, records, need, got, state := None, header.count, header.payloadLen, 0, InPayload;
          if need == 0 {
            state, need := InHeader, HEADER_SIZE;
            results := results + [Batch([])];
            return EmptyBatch, k;
          }
          assert Pending() == bytes;
          return Announced, k;
      }
    }

    static lemma {:induction false} NoRecords(b: seq<byte>)
      requires b == []
      ensures DecodeRecords(b) == Batch([])
    {}

    /** Reading on is parsing on. */
    static lemma {:induction false} Resume(had: seq<byte>, was: seq<Message>, pending: seq<byte>, x: seq<byte>)
      requires Parse(had) == Parsed(was, pending)
      ensures Parse(had + x) == Then(Parsed(was, []), Parse(pending + x))
    {
      ParseResumes(had, x);
    }

    /** The second half of `read_batch`: the payload behind an accepted header. */
    method ReadPayload() returns (status: Status, out: seq<Frame>, ghost k: nat)
      requires Valid() && state.InPayload?
      modifies this
      ensures Valid()
      ensures old(taken) <= taken
      ensures taken + Arriving(socket) == old(taken) + old(Arriving(socket))
      ensures status.Complete? ==> results == old(results) + [Batch(out)]
      ensures status.Timeout? || status.Closed? ==> results == old(results) && out == []
      ensures status.ProtocolError? ==> lastError.Some? && results == old(results) + [BadRecord(out, lastError.value)]
      ensures StoppedAt(old(socket), socket, k, status)
      ensures status.Complete? ==> lastError.None?
    {
      hide ReadUpTo;
      hide Parse;
      hide HeaderBytes;
      hide Arriving;
      hide DecodeRecords;
      ghost var had, before := taken, buf[..got];
      status, k := Fill(need);
      var payload := buf[..got];
      assert had + taken[|had|..] == taken;
      ResumePayload(had, results, records, before, taken[|had|..]);
      if !status.Complete? {
        return status, [], k;
      }
      status, out := DecodeAll(payload);
      results := results + [DecodeRecords(payload)];
      state, got, need := InHeader, 0, HEADER_SIZE;
    }

    static lemma {:induction false} ResumePayload(
      had: seq<byte>, was: seq<Message>, records: nat, before: seq<byte>, x: seq<byte>)
      requires 0 < records <= MAX_COUNT && |before + x| <= 40 * records
      requires Parse(had) == Parsed(was, HeaderBytes(records) + before)
      ensures Parse(had + x) ==
              if |before + x| == 40 * records then Parsed(was + [DecodeRecords(before + x)], [])
              else Parsed(was, HeaderBytes(records) + (before + x))
    {
      hide Parse;
      hide HeaderBytes;
      hide DecodeRecords;
      ParseResumes(had, x);
      assert (HeaderBytes(records) + before) + x == HeaderBytes(records) + (before + x);
      ParseUpToPayload(records, before + x);
      assert was + [] == was;
    }

    /** The record loop. */
    method DecodeAll(payload: seq<byte>) returns (status: Status, out: seq<Frame>)
      requires |payload| == 40 * records
      modifies `lastError
      ensures match DecodeRecords(payload)
              case Batch(fs) => status.Complete? && out == fs && lastError == old(lastError)
              case BadRecord(fs, e) => status.ProtocolError? && out == fs && lastError == Some(e)
    {
      hide DecodeRecords;
      hide DecodeFrame;
      out := [];
      assert payload[40 * 0..] == payload;
      assert Prepend([], DecodeRecords(payload)) == DecodeRecords(payload);
      for i := 0 to records
        invariant lastError == old(lastError)
        invariant DecodeRecords(payload) == Prepend(out, DecodeRecords(payload[40 * i..]))
      {
        DecodeRecordAt(payload, i, records);
        match DecodeFrame(payload[40 * i..40 * i + RECORD_SIZE]) {
          case Err(e) =>
            lastError := Some(e);
            return ProtocolError, out;
          case Ok(f) =>
            PrependTwice(out, [f], DecodeRecords(payload[40 * i + RECORD_SIZE..]));
            out := out + [f];
        }
      }
      NoRecords(payload[40 * records..]);
      status := Complete;
    }
  }
}
