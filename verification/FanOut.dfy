/** Topology A's producer: one thread numbers every batch and copies it to every sink. */
module FanOut {
  import opened BroadcastRing
  import opened BoundedQueue
  import opened SequentialRing

  /** Sinks are separate queues with separate buffers. */
  ghost predicate Separate(sinks: seq<Queue<Words>>) {
    forall i, j | 0 <= i < j < |sinks| :: sinks[i] != sinks[j] && sinks[i].buf != sinks[j].buf
  }

  /** A sink that took the numbered batch, or refused it because it is closed. */
  twostate predicate Took(q: Queue<Words>, batch: seq<Words>)
    requires old(q.Valid()) && q.Valid()
    reads q, q.buf
  {
    q.closed == old(q.closed) && q.popped == old(q.popped) &&
    if q.closed then q.Contents() == old(q.Contents()) && q.pushed == old(q.pushed) && q.dropped == old(q.dropped)
    else
      && q.Contents() == Newest(old(q.Contents()) + batch, q.capacity)
      && q.pushed == old(q.pushed) + |batch|
      && q.dropped == old(q.dropped) + Excess(old(q.count) + |batch|, q.capacity)
  }

  class Thread {
    const sinks: seq<Queue<Words>>
    var nextSeq: nat
    var frames: nat
    var batches: nat

    constructor (sinks: seq<Queue<Words>>)
      ensures this.sinks == sinks && nextSeq == 0 && frames == 0 && batches == 0
    {
      this.sinks, nextSeq, frames, batches := sinks, 0, 0, 0;
    }

    /** Every open sink was offered exactly the sequence numbers given out so far,
        which is what lets a feed number its frames by its own push count. */
    ghost predicate InStep()
      reads this, sinks
    {
      forall i | 0 <= i < |sinks| :: !sinks[i].closed ==> sinks[i].pushed == nextSeq
    }

    /** One drained batch: dense sequence numbers, then every sink gets a copy.
        No sink, full or closed, changes what the others get. */
    method Produce(drained: seq<Words>)
      requires drained != [] && Separate(sinks)
      requires forall i | 0 <= i < |sinks| :: sinks[i].Valid()
      modifies `nextSeq, `frames, `batches
      modifies set q | q in sinks :: q, set q | q in sinks :: q.buf
      ensures nextSeq == old(nextSeq) + |drained| && frames == old(frames) + |drained| && batches == old(batches) + 1
      ensures forall i | 0 <= i < |sinks| :: sinks[i].Valid() && Took(sinks[i], StampAll(drained, old(nextSeq)))
      ensures old(InStep()) ==> InStep()
    {
      var base := nextSeq;
      var produced: seq<Words> := [];
      for k := 0 to |drained|
        invariant produced == StampAll(drained, base)[..k]
        invariant nextSeq == base
      {
        produced := produced + [Stamp(drained[k], base + k)];
      }
      assert produced == StampAll(drained, base);
      nextSeq := base + |drained|;
      hide StampAll;
      hide Newest;
      hide Queue.Contents;
      for i := 0 to |sinks|
        invariant nextSeq == base + |drained| && frames == old(frames) && batches == old(batches)
        invariant forall j | 0 <= j < i :: sinks[j].Valid() && Took(sinks[j], produced)
        invariant forall j | i <= j < |sinks| :: unchanged(sinks[j]) && unchanged(sinks[j].buf)
      {
        var _ := sinks[i].PushBatch(produced);
      }
      frames, batches := frames + |drained|, batches + 1;
    }
  }
}
