/** The two interchangeable feeds, and what the consumer's books say under either. */
module Feeds {
  import opened BroadcastRing
  import opened BoundedQueue
  import opened SequentialRing

  /** One event of a sequential history: fan-out or ingest offers a batch, or the
      consumer asks for at most `room` frames. */
  datatype Op = Push(frames: seq<Words>) | Pop(room: nat)

  /** A queue feed: its queue's contents and counters. */
  datatype QueueView = QueueView(contents: seq<Words>, pushed: nat, popped: nat, dropped: nat)

  /** A ring feed: the ring's log, this consumer's cursor, and what it delivered. */
  datatype RingView = RingView(log: seq<Words>, cursor: Cursor, delivered: nat)

  datatype Step<V> = Step(view: V, out: seq<Words>)

  function QueueStep(q: QueueView, cap: nat, op: Op): Step<QueueView> {
    match op
    case Push(frames) =>
      Step(q.(contents := Newest(q.contents + StampAll(frames, q.pushed), cap),
              pushed := q.pushed + |frames|,
              dropped := q.dropped + Excess(|q.contents| + |frames|, cap)), [])
    case Pop(room) =>
      var n := Min(room, |q.contents|);
      Step(q.(contents := q.contents[n..], popped := q.popped + n), q.contents[..n])
  }

  function RingStep(r: RingView, cap: nat, op: Op): Step<RingView>
    requires r.cursor.next <= |r.log|
  {
    match op
    case Push(frames) => Step(r.(log := r.log + StampAll(frames, |r.log|)), [])
    case Pop(room) =>
      var lo := ResumeAt(r.cursor.next, |r.log|, cap, room);
      var n := Min(room, |r.log| - lo);
      Step(r.(cursor := Cursor(lo + n, r.cursor.missed + (lo - r.cursor.next)), delivered := r.delivered + n),
           r.log[lo..lo + n])
  }

  datatype Ran<V> = Ran(view: V, outs: seq<seq<Words>>)

  function QueueRun(cap: nat, ops: seq<Op>): Ran<QueueView> {
    if ops == [] then Ran(QueueView([], 0, 0, 0), [])
    else
      var before := QueueRun(cap, ops[..|ops| - 1]);
      var step := QueueStep(before.view, cap, ops[|ops| - 1]);
      Ran(step.view, before.outs + [step.out])
  }

  function RingRun(cap: nat, ops: seq<Op>): (r: Ran<RingView>)
    ensures r.view.cursor.next <= |r.view.log|
  {
    if ops == [] then Ran(RingView([], Cursor(0, 0), 0), [])
    else
      var before := RingRun(cap, ops[..|ops| - 1]);
      var step := RingStep(before.view, cap, ops[|ops| - 1]);
      Ran(step.view, before.outs + [step.out])
  }

  // ---------------------------------------------------------------------
  // The feeds are observationally equal

  /** The first position this reader can still get. */
  function Front(r: RingView, cap: nat): (lo: nat)
    ensures lo == r.cursor.next || lo == OldestOf(|r.log|, cap)
  {
    if r.cursor.next < OldestOf(|r.log|, cap) then OldestOf(|r.log|, cap) else r.cursor.next
  }

  /** What ties the two: the queue holds the part of the log the ring still has
      and the cursor has not passed. */
  predicate Mirrored(q: QueueView, r: RingView, cap: nat) {
    var w, next, lo := |r.log|, r.cursor.next, Front(r, cap);
    && next <= w && next == r.delivered + r.cursor.missed
    && q.pushed == w
    && q.contents == r.log[lo..]
    && q.popped == r.delivered
    && q.dropped == r.cursor.missed + (lo - next)
    && Numbered(r.log)
  }

  predicate Numbered(log: seq<Words>) { forall p | 0 <= p < |log| :: log[p][0] == p }

  lemma {:induction false} NewestOfTail(log: seq<Words>, lo: nat, cap: nat)
    requires lo <= |log|
    ensures Newest(log[lo..], cap) == log[if |log| - lo <= cap then lo else |log| - cap..]
  {
    var tail := log[lo..];
    if |tail| > cap { assert tail[|tail| - cap..] == log[|log| - cap..]; }
  }

  lemma {:induction false} PushMirrors(q: QueueView, r: RingView, cap: nat, frames: seq<Words>)
    requires cap > 0 && Mirrored(q, r, cap)
    ensures Mirrored(QueueStep(q, cap, Push(frames)).view, RingStep(r, cap, Push(frames)).view, cap)
  {
    var lo := Front(r, cap);
    var more := StampAll(frames, |r.log|);
    PushContents(r.log, lo, more, cap);
    StampedIsNumbered(r.log, frames);
    FrontAfterPush(r, r.log + more, cap);
    hide Numbered;
    hide Newest;
    hide StampAll;
    hide Front;
  }

  lemma {:induction false} PushContents(log: seq<Words>, lo: nat, more: seq<Words>, cap: nat)
    requires lo <= |log|
    ensures Newest(log[lo..] + more, cap) == (log + more)[if |log + more| - lo <= cap then lo else |log + more| - cap..]
  {
    assert log[lo..] + more == (log + more)[lo..];
    NewestOfTail(log + more, lo, cap);
  }

  lemma {:induction false} StampedIsNumbered(log: seq<Words>, frames: seq<Words>)
    requires Numbered(log)
    ensures Numbered(log + StampAll(frames, |log|))
  {}

  lemma {:induction false} FrontAfterPush(r: RingView, log: seq<Words>, cap: nat)
    requires cap > 0 && r.log <= log && r.cursor.next <= |r.log|
    ensures var lo := Front(r, cap);
            Front(r.(log := log), cap) == if |log| - lo <= cap then lo else |log| - cap
  {}

  lemma {:induction false} PopMirrors(q: QueueView, r: RingView, cap: nat, room: nat)
    requires cap > 0 && Mirrored(q, r, cap)
    ensures Mirrored(QueueStep(q, cap, Pop(room)).view, RingStep(r, cap, Pop(room)).view, cap)
    ensures QueueStep(q, cap, Pop(room)).out == RingStep(r, cap, Pop(room)).out
  {
    hide Numbered;
    hide Newest;
    hide StampAll;
    var lo := Front(r, cap);
    var n := Min(room, |r.log| - lo);
    var tail := r.log[lo..];
    assert q.contents == tail;
    TailSplits(r.log, lo, n);
    if room == 0 {
      PopNothing(q, r, cap);
    } else {
      PopSome(q, r, cap, lo, n);
      assert ResumeAt(r.cursor.next, |r.log|, cap, room) == lo;
    }
  }

  lemma {:induction false} TailSplits(log: seq<Words>, lo: nat, n: nat)
    requires lo + n <= |log|
    ensures |log[lo..]| == |log| - lo && log[lo..][..n] == log[lo..lo + n] && log[lo..][n..] == log[lo + n..]
  {}

  lemma {:induction false} PopNothing(q: QueueView, r: RingView, cap: nat)
    requires r.cursor.next <= |r.log|
    ensures QueueStep(q, cap, Pop(0)) == Step(q, []) && RingStep(r, cap, Pop(0)) == Step(r, [])
  {
    assert q.contents[0..] == q.contents;
  }

  /** The mirror after a pop that had room. */
  lemma {:induction false} PopSome(q: QueueView, r: RingView, cap: nat, lo: nat, n: nat)
    requires cap > 0 && Mirrored(q, r, cap) && lo == Front(r, cap) && lo + n <= |r.log|
    ensures Mirrored(q.(contents := r.log[lo + n..], popped := q.popped + n),
                     r.(cursor := Cursor(lo + n, r.cursor.missed + (lo - r.cursor.next)),
                        delivered := r.delivered + n), cap)
  {
    hide Numbered;
  }

  /** After every history of pushes and pops, queue feed and ring feed of the
      same capacity have handed over identical frames in identical batches, and
      the queue's drop count is the ring reader's missed count plus what the ring
      has already overwritten ahead of its cursor. */
  lemma {:induction false} FeedsAgree(cap: nat, ops: seq<Op>)
    requires cap > 0
    ensures var q, r := QueueRun(cap, ops), RingRun(cap, ops);
            && q.outs == r.outs
            && q.view.popped == r.view.delivered
            && q.view.dropped == r.view.cursor.missed + Excess(|r.view.log|, cap + r.view.cursor.next)
            && Mirrored(q.view, r.view, cap)
  {
    hide QueueStep;
    hide RingStep;
    if ops == [] {
      StartMirrored(cap);
    } else {
      var init, last := ops[..|ops| - 1], ops[|ops| - 1];
      FeedsAgree(cap, init);
      hide Mirrored;
      StepMirrors(QueueRun(cap, init).view, RingRun(cap, init).view, cap, last);
    }
    MirroredCounts(QueueRun(cap, ops).view, RingRun(cap, ops).view, cap);
  }

  lemma {:induction false} StartMirrored(cap: nat)
    ensures Mirrored(QueueRun(cap, []).view, RingRun(cap, []).view, cap)
  {}

  lemma {:induction false} MirroredCounts(q: QueueView, r: RingView, cap: nat)
    requires Mirrored(q, r, cap)
    ensures q.popped == r.delivered && q.dropped == r.cursor.missed + Excess(|r.log|, cap + r.cursor.next)
  {
    hide Numbered;
  }

  lemma {:induction false} StepMirrors(q: QueueView, r: RingView, cap: nat, op: Op)
    requires cap > 0 && Mirrored(q, r, cap)
    ensures Mirrored(QueueStep(q, cap, op).view, RingStep(r, cap, op).view, cap)
    ensures QueueStep(q, cap, op).out == RingStep(r, cap, op).out
  {
    match op {
      case Push(frames) => PushMirrors(q, r, cap, frames);
      case Pop(room) => PopMirrors(q, r, cap, room);
    }
  }

  // ---------------------------------------------------------------------
  // The code refines the views

  /** `QueueFeed` forwards to its queue; this runs one operation on it. A closed
      queue refuses pushes and is still drained by pops. */
  method RunQueue(queue: Queue<Words>, ghost q: QueueView, op: Op) returns (out: seq<Words>)
    requires queue.Valid() && queue.Contents() == q.contents
    requires queue.pushed == q.pushed && queue.popped == q.popped && queue.dropped == q.dropped
    modifies queue`head, queue`count, queue`pushed, queue`popped, queue`dropped, queue.buf
    ensures queue.Valid()
    ensures var step := if queue.closed && op.Push? then Step(q, []) else QueueStep(q, queue.capacity, op);
            && out == step.out && queue.Contents() == step.view.contents
            && queue.pushed == step.view.pushed && queue.popped == step.view.popped
            && queue.dropped == step.view.dropped
  {
    out := [];
    match op {
      case Push(frames) =>
        var _ := queue.PushBatch(StampAll(frames, queue.pushed));
      case Pop(room) =>
        out := queue.PopBatch(room);
    }
  }

  /** A pop that returns nothing leaves the view as it was. */
  lemma {:induction false} EmptyPopStays(view: RingView, cap: nat, room: nat)
    requires cap > 0 && view.cursor.next <= |view.log| && RingStep(view, cap, Pop(room)).out == []
    ensures RingStep(view, cap, Pop(room)).view == view
  {}

  lemma {:induction false} PushAppends(view: RingView, cap: nat, frames: seq<Words>)
    requires view.cursor.next <= |view.log|
    ensures RingStep(view, cap, Push(frames)).view == view.(log := view.log + StampAll(frames, |view.log|))
  {}

  /** `RingFeed`: a private cursor and the counters mirrored for reporting. */
  class RingFeed {
    const ring: Ring
    var cursor: Cursor
    var delivered: nat
    var missed: nat
    var position: nat

    constructor (ring: Ring)
      requires ring.Valid()
      ensures this.ring == ring && delivered == 0 && missed == 0 && position == 0
      ensures cursor.missed == 0 && ring.writePos - cursor.next == Min(ring.writePos, ring.capacity)
    {
      this.ring := ring;
      cursor := Cursor(OldestOf(ring.writePos, ring.capacity), 0);
      delivered, missed, position := 0, 0, 0;
    }

    /** `pop_batch`: read, and when that yields nothing and the ring is open, wait
        and read once more. `arriving` is what producers publish during the wait. */
    method PopBatch(room: nat, arriving: seq<Words>) returns (out: seq<Words>)
      requires ring.Valid() && cursor.next <= ring.writePos
      modifies this, ring`inconsistent, ring`writePos, ring`log, ring.marks, ring.words
      ensures ring.Valid() && cursor.next <= ring.writePos
      ensures var view := RingView(old(ring.log), old(cursor), old(delivered));
              var first := RingStep(view, ring.capacity, Pop(room));
              var waits := first.out == [] && !ring.closed;
              var after := if waits then RingStep(view, ring.capacity, Push(arriving)).view else view;
              var step := RingStep(after, ring.capacity, Pop(room));
              ring.log == after.log && out == step.out && cursor == step.view.cursor && delivered == step.view.delivered
      ensures out != [] || !ring.closed ==> missed == cursor.missed && position == cursor.next
    {
      hide RingStep;
      hide StampAll;
      ghost var view := RingView(ring.log, cursor, delivered);
      out := Read(room);
      if out != [] {
        PublishStats(|out|);
        return;
      }
      if ring.closed {
        return;
      }
      EmptyPopStays(view, ring.capacity, room);
      PushAppends(view, ring.capacity, arriving);
      var _ := ring.PublishBatch(arriving);
      out := Read(room);
      PublishStats(|out|);
    }

    /** The cursor's half of the ring feed's step; the counters follow. */
    method Read(room: nat) returns (out: seq<Words>)
      requires ring.Valid() && cursor.next <= ring.writePos
      modifies `cursor, ring`inconsistent
      ensures ring.Valid() && cursor.next <= ring.writePos
      ensures var step := RingStep(RingView(ring.log, old(cursor), delivered), ring.capacity, Pop(room));
              out == step.out && cursor == step.view.cursor && delivered + |out| == step.view.delivered
    {
      cursor, out := ring.ReadBatch(cursor, room);
    }

    method PublishStats(n: nat)
      modifies `delivered, `missed, `position
      ensures delivered == old(delivered) + n && missed == cursor.missed && position == cursor.next
    {
      delivered, missed, position := delivered + n, cursor.missed, cursor.next;
    }
  }
}
