/** From the concurrent ring to the books of a consumer through all its reconnects. */
module EndToEnd {
  import opened Layout
  import opened BroadcastRing
  import opened RingTheorems
  import opened RingToBooks
  import opened Egress
  import opened Settlement

  /** What the sender took from its feed are the frames reader `r` accepted. */
  ghost predicate Takes(e: Egress, delivered: seq<Delivery>)
    reads e
  {
    var fs := Concat(e.Handled());
    |fs| == |delivered| && forall i | 0 <= i < |fs| :: FrameWords(fs[i]) == delivered[i].words
  }

  /** In every interleaving of the ring, every run of the sender on one of its
      readers and every chain of reconnects: the frames counted as sent are the
      frames received, and every position the reader delivered or missed is one of
      these - missed before the first frame, received, reported, absent, silently
      lost, part of a batch that was cut, or missed behind the last frame. */
  lemma {:induction false} EveryPositionIsAccounted(states: seq<State>, steps: seq<Step>, n: nat, r: nat, e: Egress)
    requires Behavior(states, steps) && n < |states| && r < |states[n].readers| && BusLog(states[n].core.log)
    requires e.Valid() && Takes(e, states[n].readers[r].delivered) && states[n].readers[r].delivered != []
    ensures FedInOrder(e) && PastsOk(e.Connections())
    ensures e.stats.framesSent == FramesReceived(e.Connections())
    ensures var rd := states[n].readers[r];
            |rd.delivered| + rd.missed ==
            (rd.delivered[0].pos - rd.start)
            + Booked(LifeBooks(e.Connections())) + CutSpans(e.Connections())
            + (rd.next - e.sender.nextSeq)
  {
    hide *;
    var fs := Concat(e.Handled());
    TakesFrames(e, states[n].readers[r].delivered);
    DeliveriesRise(states, steps, n, r, fs);
    FedBy(e, e.Handled());
    FramesSentIsFramesReceived(e);
    LifetimeBooks(e);
    CursorBooksBalance(states, steps, n, r);
  }

  lemma {:induction false} TakesFrames(e: Egress, delivered: seq<Delivery>)
    requires Takes(e, delivered)
    ensures var fs := Concat(e.Handled());
            |fs| == |delivered| && forall i | 0 <= i < |fs| :: FrameWords(fs[i]) == delivered[i].words
  {}
}
