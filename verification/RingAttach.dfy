/** Where a reader that attaches to a running ring begins. */
module RingAttach {
  import opened BroadcastRing
  import opened RingInvariant
  import opened RingTheorems
  import opened RingHole

  /** The cell of position `p` holds exactly the frame `p` was issued for. */
  ghost predicate Held(c: Core, p: nat)
    requires |c.cells| > 0
  {
    p < |c.log| && c.cells[CellOf(c, p)] == Cell(2 * p + 2, Stamp(c.log[p].frame, p))
  }

  /** A position no issued ticket overwrites is held as soon as it is published. */
  lemma {:induction false} HeldWhenPublished(c: Core, p: nat)
    requires CoreInv(c) && p < c.writePos <= p + |c.cells|
    ensures Mark(c, p) <= 2 * p + 2 && (Published(c, p) <==> Held(c, p))
  {
    var m := Mark(c, p);
    assert CellOk(c, CellOf(c, p));
    if m != 0 && (m - 1) / 2 > p { SameCell(|c.cells|, p, (m - 1) / 2); }
  }

  /** A position whose overwriting ticket was issued is held exactly as long as it is
      published and that ticket has not claimed the cell. */
  lemma {:induction false} HeldUntilClaimed(c: Core, p: nat)
    requires CoreInv(c) && p + |c.cells| < c.writePos
    ensures Held(c, p) <==> Published(c, p) && Mark(c, p + |c.cells|) <= 2 * (p + |c.cells|)
  {
    var cap := |c.cells|;
    assert Slot(cap, p + cap) == Slot(cap, p);
    var m := Mark(c, p);
    assert CellOk(c, CellOf(c, p));
    if Published(c, p) && m <= 2 * (p + cap) && (m - 1) / 2 > p {
      SameCell(cap, p, (m - 1) / 2);
    }
  }

  /** Every step of every run that adds a reader. It starts with nothing missed and
      nothing delivered, a ring's capacity behind the write position or at 0: no
      position before it is safe from being overwritten, and every position from it
      on is held as soon as it is published. So it reports no gap for what was
      published before it existed. */
  lemma {:induction false} FreshReader(states: seq<State>, steps: seq<Step>, n: nat)
    requires Behavior(states, steps) && n < |steps| && |states[n + 1].readers| > |states[n].readers|
    ensures |states[n].core.cells| >= 2 && states[n + 1].core == states[n].core
    ensures |states[n + 1].readers| == |states[n].readers| + 1
    ensures states[n + 1].readers[..|states[n].readers|] == states[n].readers
    ensures var c, rd := states[n].core, states[n + 1].readers[|states[n].readers|];
            && rd.missed == 0 && rd.delivered == [] && rd.start == rd.next && !rd.call.outcome.Running?
            && c.writePos - rd.next == (if c.writePos < |c.cells| then c.writePos else |c.cells|)
            && (forall p: nat :: p < rd.next <==> Overwritten(c, p))
            && (forall p: nat | rd.next <= p < c.writePos :: Published(c, p) <==> Held(c, p))
  {
    BehaviorKeeps(states, steps, n);
    var c := states[n].core;
    var rd := states[n + 1].readers[|states[n].readers|];
    forall p: nat ensures p < rd.next <==> Overwritten(c, p) {
      assert Slot(|c.cells|, p + |c.cells|) == Slot(|c.cells|, p);
    }
    forall p: nat | rd.next <= p < c.writePos ensures Published(c, p) <==> Held(c, p) {
      HeldWhenPublished(c, p);
    }
  }

  /** Once all issued tickets are published, nothing before a fresh cursor is held. */
  lemma {:induction false} NothingHeldBefore(states: seq<State>, steps: seq<Step>, n: nat, p: nat)
    requires Behavior(states, steps) && n < |steps| && |states[n + 1].readers| > |states[n].readers|
    requires |states[n].core.cells| > 0 && forall t: nat | t < states[n].core.writePos :: Published(states[n].core, t)
    requires p < states[n + 1].readers[|states[n].readers|].next
    ensures !Held(states[n].core, p)
  {
    FreshReader(states, steps, n);
    BehaviorKeeps(states, steps, n);
    var c := states[n].core;
    assert Overwritten(c, p) && Published(c, p + |c.cells|);
    HeldUntilClaimed(c, p);
  }

  /** Before that, a position the cursor passes over may still be held: two frames are
      published on a ring of two, ticket 2 is issued and not claimed, and a reader
      attaches at 1 while the cell of 0 still holds it. */
  lemma {:induction false} StillHeldBehindFreshCursor() returns (states: seq<State>, steps: seq<Step>)
    ensures Behavior(states, steps) && |steps| > 0 && steps[|steps| - 1] == Attach
    ensures var s := states[|steps|];
            && |s.core.cells| > 0 && Held(s.core, 0)
            && |s.readers| == 2 && s.readers[1].next == 1
  {
    hide Apply;
    hide Inv;
    var s, st0, t0 := Opening();
    var st1, t1 := PublishBatchRun(t0, 0, [BLANK, BLANK]);
    var t2, t3 := OneMoreTicket(t1);
    RunsThen(s, st0, t0, st1, t1);
    RunsOne(t1, TakeTickets(0, [BLANK]));
    RunsThen(s, st0 + st1, t1, [TakeTickets(0, [BLANK])], t2);
    RunsOne(t2, Attach);
    RunsThen(s, st0 + st1 + [TakeTickets(0, [BLANK])], t2, [Attach], t3);
    steps := st0 + st1 + [TakeTickets(0, [BLANK])] + [Attach];
    states := RunsIsBehavior(s, steps, t3);
  }

  lemma {:induction false} OneMoreTicket(s: State) returns (t: State, u: State)
    requires Inv(s) && |s.core.cells| == 2 && s.core.writePos == 2 && |s.readers| == 1
    requires |s.core.producers| == 1 && s.core.producers[0].Idle? && Published(s.core, 0)
    ensures Enabled(s, TakeTickets(0, [BLANK])) && t == Apply(s, TakeTickets(0, [BLANK]))
    ensures Enabled(t, Attach) && u == Apply(t, Attach)
    ensures |u.core.cells| == 2 && Held(u.core, 0) && |u.readers| == 2 && u.readers[1].next == 1
  {
    HeldWhenPublished(s.core, 0);
    t := Apply(s, TakeTickets(0, [BLANK]));
    u := Apply(t, Attach);
  }
}
