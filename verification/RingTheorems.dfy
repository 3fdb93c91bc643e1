/** What the broadcast ring guarantees in every interleaving. */
module RingTheorems {
  import opened BroadcastRing
  import opened RingInvariant

  // ---------------------------------------------------------------------
  // Reads

  /** No read is ever torn: at any point of any run, everything any reader
      accepted is exactly the frame its position was issued for, stamped with
      that position, in strictly increasing order; the diagnostic counter of
      inconsistent reads is still zero. */
  lemma {:induction false} NoTornReads(states: seq<State>, steps: seq<Step>, n: nat, r: nat)
    requires Behavior(states, steps) && n < |states| && r < |states[n].readers|
    ensures states[n].inconsistent == 0
    ensures var log, got := states[n].core.log, states[n].readers[r].delivered;
            forall k | 0 <= k < |got| ::
              && got[k].pos < |log|
              && got[k].words == Stamp(log[got[k].pos].frame, got[k].pos)
              && got[k].words[0] == got[k].pos
              && (k > 0 ==> got[k - 1].pos < got[k].pos)
  {
    BehaviorKeeps(states, steps, n);
    assert ReaderOk(states[n].core, states[n].readers[r]);
  }

  /** The step at which `try_read` returns kOk hands out the frame at the
      cursor: one more delivery, at the old `next`, and the cursor moves by one. */
  lemma {:induction false} AcceptedReadIsAtCursor(states: seq<State>, steps: seq<Step>, n: nat)
    requires Behavior(states, steps) && n < |steps| && steps[n].Recheck?
    ensures var before, after := states[n].readers[steps[n].r], states[n + 1].readers[steps[n].r];
            if after.phase.Ready? then
              && Published(states[n].core, before.next) && before.next < |states[n].core.log|
              && after.delivered ==
                 before.delivered + [Delivery(before.next, Stamp(states[n].core.log[before.next].frame, before.next))]
              && after.next == before.next + 1 && after.missed == before.missed
            else
              after == before.(phase := Lapping)
  {
    BehaviorKeeps(states, steps, n);
    var c, rd := states[n].core, states[n].readers[steps[n].r];
    assert ReaderOk(c, rd);
    var want := Stamp(c.log[rd.next].frame, rd.next);
    assert want[..5] == want;
  }

  /** The ticket that overwrites position `p` has been issued. */
  predicate Overwritten(c: Core, p: nat)
    requires |c.cells| > 0
  {
    p + |c.cells| < |c.log| && CellOf(c, p + |c.cells|) == CellOf(c, p)
  }

  /** Lapping is exact. The cursor only ever jumps over positions whose
      overwriting ticket was already issued, never while its own position is
      unpublished, and the "skip one" branch of `lap` is dead code. */
  lemma {:induction false} LapIsExact(states: seq<State>, steps: seq<Step>, n: nat)
    requires Behavior(states, steps) && n < |steps| && steps[n].LoadOldest?
    ensures var c, before, after := states[n].core, states[n].readers[steps[n].r], states[n + 1].readers[steps[n].r];
            && |c.cells| > 0 && Published(c, before.next)
            && Oldest(c) > before.next
            && after.next == c.writePos - |c.cells|
            && after.missed == before.missed + (after.next - before.next)
            && after.delivered == before.delivered
            && forall p: nat | before.next <= p < after.next :: Overwritten(c, p)
  {
    BehaviorKeeps(states, steps, n);
    assert ReaderOk(states[n].core, states[n].readers[steps[n].r]);
  }

  /** Every position between the attach point and the cursor was either
      delivered or counted as missed, once. */
  lemma {:induction false} CursorBooksBalance(states: seq<State>, steps: seq<Step>, n: nat, r: nat)
    requires Behavior(states, steps) && n < |states| && r < |states[n].readers|
    ensures var rd := states[n].readers[r];
            && rd.start <= rd.next <= states[n].core.writePos
            && rd.next == rd.start + |rd.delivered| + rd.missed
  {
    BehaviorKeeps(states, steps, n);
    assert ReaderOk(states[n].core, states[n].readers[r]);
  }

  /** `read_batch` terminates relative to producer progress: its iterations are
      bounded by the room it was given plus what the write position grew by
      between entry and its latest `oldest()` load; a ring that stood still
      laps a reader at most once per call. */
  lemma {:induction false} BatchIsBounded(states: seq<State>, steps: seq<Step>, n: nat, r: nat)
    requires Behavior(states, steps) && n < |states| && r < |states[n].readers|
    ensures var call := states[n].readers[r].call;
            && call.entry <= call.seen <= states[n].core.writePos
            && call.count <= call.room
            && call.iterations <= call.room + 1 + (call.seen - call.entry)
            && (call.seen == call.entry ==> call.laps <= 1)
  {
    BehaviorKeeps(states, steps, n);
    assert ReaderOk(states[n].core, states[n].readers[r]);
  }

  // ---------------------------------------------------------------------
  // The cell word

  /** The word after `m` in a cell's life: 0, 2p+1, 2p+2, 2(p+cap)+1, ... */
  function NextMark(cap: nat, at: nat, m: nat): nat {
    if m == 0 then 2 * at + 1
    else if m % 2 == 1 then m + 1
    else 2 * ((m - 2) / 2 + cap) + 1
  }

  /** In every step of every run each cell's word stays put or walks to the
      next word of its life; no word is ever skipped or revisited. */
  lemma {:induction false} CellsWalk(states: seq<State>, steps: seq<Step>, n: nat, at: nat)
    requires Behavior(states, steps) && n < |steps| && at < |states[n].core.cells|
    ensures |states[n + 1].core.cells| == |states[n].core.cells|
    ensures var m, m' := states[n].core.cells[at].mark, states[n + 1].core.cells[at].mark;
            m' == m || m' == NextMark(|states[n].core.cells|, at, m)
  {
    BehaviorKeeps(states, steps, n);
    var c, step := states[n].core, steps[n];
    if step.Cas? || step.Publish? {
      assert ProducerOk(c, step.j);
    }
  }

  /** At most one producer is between claim and publish on a cell. */
  lemma {:induction false} OneWriterPerCell(states: seq<State>, steps: seq<Step>, n: nat, j: nat, k: nat)
    requires Behavior(states, steps) && n < |states|
    requires j < |states[n].core.producers| && k < |states[n].core.producers|
    requires states[n].core.producers[j].Storing? && states[n].core.producers[k].Storing?
    requires |states[n].core.cells| > 0
    requires var c := states[n].core;
             CellOf(c, c.producers[j].base + c.producers[j].i) == CellOf(c, c.producers[k].base + c.producers[k].i)
    ensures j == k
  {
    BehaviorKeeps(states, steps, n);
    var c := states[n].core;
    assert ProducerOk(c, j) && ProducerOk(c, k);
    var pos := c.producers[j].base + c.producers[j].i;
    assert pos == c.producers[k].base + c.producers[k].i;
    if j != k { OthersHoldOtherTickets(c, j, k, pos); }
  }

  /** Step `n` is a CAS that succeeds in claiming `pos`. */
  ghost predicate ClaimsAt(states: seq<State>, steps: seq<Step>, n: nat, pos: nat)
    requires Behavior(states, steps) && n < |steps|
  {
    && steps[n].Cas?
    && states[n].core.producers[steps[n].j].base + states[n].core.producers[steps[n].j].i == pos
    && states[n + 1].core != states[n].core
  }

  lemma {:induction false} ClaimLasts(states: seq<State>, steps: seq<Step>, m: nat, n: nat, pos: nat)
    requires Behavior(states, steps) && m < n < |states| && ClaimsAt(states, steps, m, pos)
    ensures |states[n].core.cells| > 0 && Mark(states[n].core, pos) > 2 * pos
    ensures |states[n].core.cells| == |states[m].core.cells|
  {
    BehaviorLater(states, steps, m + 1, n);
    var b, c := states[m + 1].core, states[n].core;
    assert Mark(b, pos) == 2 * pos + 1;
    assert b.cells[CellOf(b, pos)].mark <= c.cells[CellOf(b, pos)].mark;
  }

  /** Over a whole run every position is claimed, hence written, at most once. */
  lemma {:induction false} ClaimedAtMostOnce(states: seq<State>, steps: seq<Step>, m: nat, n: nat, pos: nat)
    requires Behavior(states, steps) && m < |steps| && n < |steps|
    requires ClaimsAt(states, steps, m, pos) && ClaimsAt(states, steps, n, pos)
    ensures m == n
  {
    if m < n {
      ClaimLasts(states, steps, m, n, pos);
    } else if n < m {
      ClaimLasts(states, steps, n, m, pos);
    }
  }

  // ---------------------------------------------------------------------
  // Producers make progress

  /** The word in the cell of an unclaimed, issued ticket is the one its CAS
      expects, exactly when the previous lap's ticket has been published. So a
      CAS that fails without being spurious waits for an earlier ticket of the
      same cell - which may be mid-write or not even claimed yet. */
  lemma {:induction false} CasSucceedsIffPreviousLapPublished(c: Core, j: nat)
    requires CoreInv(c) && j < |c.producers| && c.producers[j].Claiming?
    ensures var pos, cap := c.producers[j].base + c.producers[j].i, |c.cells|;
            Mark(c, pos) == Expected(cap, pos) <==> (pos < cap || Published(c, pos - cap))
  {
    var pos, cap := c.producers[j].base + c.producers[j].i, |c.cells|;
    assert ProducerOk(c, j);
    var at := CellOf(c, pos);
    assert CellOk(c, at);
    var m := c.cells[at].mark;
    if m != 0 {
      SameCell(cap, (m - 1) / 2, pos);
    }
    if pos >= cap { assert Slot(cap, pos) == Slot(cap, pos - cap); }
  }

  /** The smallest unpublished ticket is being stored, or its CAS is enabled. */
  lemma {:induction false} SmallestTicketCanMove(c: Core, t: nat) returns (j: nat)
    requires CoreInv(c) && t < c.writePos && !Published(c, t)
    requires forall u: nat | u < t :: Published(c, u)
    ensures j < |c.producers| && !c.producers[j].Idle? && c.producers[j].base + c.producers[j].i == t
    ensures c.producers[j].Claiming? ==> Mark(c, t) == Expected(|c.cells|, t)
  {
    assert TicketOk(c, t);
    j := c.log[t].owner;
    assert ProducerOk(c, j);
    var u := c.producers[j].base + c.producers[j].i;
    assert !Published(c, u);
    if c.producers[j].Claiming? { CasSucceedsIffPreviousLapPublished(c, j); }
  }

  /** A schedule of producer steps. */
  ghost predicate Executes(c: Core, steps: seq<Step>, d: Core)
    requires |c.cells| > 0
    decreases |steps|
  {
    if steps == [] then c == d
    else ProducerEnabled(c, steps[0]) && |ApplyProducer(c, steps[0]).cells| > 0
         && Executes(ApplyProducer(c, steps[0]), steps[1..], d)
  }

  /** Only steps that finish what was already issued. */
  predicate Finishing(steps: seq<Step>) {
    forall i | 0 <= i < |steps| :: steps[i].Cas? || steps[i].StoreWord? || steps[i].Publish?
  }

  lemma {:induction false} ExecutesThen(c: Core, a: seq<Step>, d: Core, b: seq<Step>, e: Core)
    requires |c.cells| > 0 && Executes(c, a, d) && |d.cells| > 0 && Executes(d, b, e)
    ensures Executes(c, a + b, e)
    decreases |a|
  {
    if a == [] {
      assert a + b == b;
    } else {
      assert (a + b)[1..] == a[1..] + b;
      ExecutesThen(ApplyProducer(c, a[0]), a[1..], d, b, e);
    }
  }

  /** What the holder of a ticket does next, when nothing stands in its way. */
  function NextMove(p: Producer, j: nat): Step
    requires !p.Idle?
  {
    if p.Claiming? then Cas(j, false) else if p.k < 5 then StoreWord(j) else Publish(j)
  }

  lemma {:induction false} HolderMoves(c: Core, j: nat, t: nat) returns (e: Core)
    requires CoreInv(c) && j < |c.producers| && !c.producers[j].Idle? && c.producers[j].base + c.producers[j].i == t
    requires c.producers[j].Claiming? ==> Mark(c, t) == Expected(|c.cells|, t)
    ensures ProducerEnabled(c, NextMove(c.producers[j], j)) && e == ApplyProducer(c, NextMove(c.producers[j], j))
    ensures CoreInv(e) && Later(c, e) && e.log == c.log && |e.producers| == |c.producers|
    ensures var p := c.producers[j];
            if p.Claiming? then e.producers[j] == Storing(p.base, p.frames, p.i, 0)
            else if p.k < 5 then e.producers[j] == p.(k := p.k + 1)
            else Published(e, t)
  {
    assert ProducerOk(c, j);
    var step := NextMove(c.producers[j], j);
    e := ApplyProducer(c, step);
    ProducerStepKeeps(c, step);
  }

  /** Left to run alone, the holder of ticket `t` publishes it in at most seven steps. */
  lemma {:induction false} HolderCanFinish(c: Core, j: nat, t: nat) returns (steps: seq<Step>, d: Core)
    requires CoreInv(c) && j < |c.producers| && !c.producers[j].Idle? && c.producers[j].base + c.producers[j].i == t
    requires c.producers[j].Claiming? ==> Mark(c, t) == Expected(|c.cells|, t)
    ensures Executes(c, steps, d) && Finishing(steps) && |steps| <= 7
    ensures c.producers[j].Storing? ==> |steps| <= 6 - c.producers[j].k
    ensures CoreInv(d) && Later(c, d) && d.log == c.log && Published(d, t)
    decreases if c.producers[j].Claiming? then 7 else 6 - c.producers[j].k
  {
    assert ProducerOk(c, j);
    var step := NextMove(c.producers[j], j);
    var e := HolderMoves(c, j, t);
    if step.Publish? {
      steps, d := [step], e;
      assert Executes(e, steps[1..], e);
    } else {
      var rest;
      rest, d := HolderCanFinish(e, j, t);
      steps := [step] + rest;
      assert steps[1..] == rest;
      LaterTwice(c, e, d);
    }
  }

  lemma {:induction false} LaterTwice(a: Core, b: Core, c: Core)
    requires Later(a, b) && Later(b, c)
    ensures Later(a, c)
  {
    forall at | 0 <= at < |a.cells| ensures a.cells[at].mark <= b.cells[at].mark <= c.cells[at].mark {}
  }

  /** Producers cannot deadlock: from every reachable state the tickets already
      issued can all be published, without a new ticket and without any reader's
      help, in at most seven steps each - also when a batch is larger than the ring. */
  lemma {:induction false} CanPublishEverything(c: Core, done: nat) returns (steps: seq<Step>, d: Core)
    requires CoreInv(c) && done <= c.writePos && forall t: nat | t < done :: Published(c, t)
    ensures Executes(c, steps, d) && Finishing(steps) && |steps| <= 7 * (c.writePos - done)
    ensures CoreInv(d) && d.log == c.log
    ensures forall t: nat | t < c.writePos :: Published(d, t)
    ensures forall j | 0 <= j < |d.producers| :: d.producers[j].Idle?
    decreases c.writePos - done
  {
    if done == c.writePos {
      steps, d := [], c;
      forall j | 0 <= j < |d.producers| ensures d.producers[j].Idle? {
        assert ProducerOk(d, j);
        assert !d.producers[j].Idle? ==> Published(d, d.producers[j].base + d.producers[j].i);
      }
    } else if Published(c, done) {
      steps, d := CanPublishEverything(c, done + 1);
    } else {
      var j := SmallestTicketCanMove(c, done);
      var first, e := HolderCanFinish(c, j, done);
      forall t: nat | t <= done ensures Published(e, t) {
        assert t < done ==> Published(c, t);
        assert c.cells[CellOf(c, t)].mark <= e.cells[CellOf(c, t)].mark;
      }
      var rest;
      rest, d := CanPublishEverything(e, done + 1);
      ExecutesThen(c, first, e, rest, d);
      steps := first + rest;
    }
  }

  /** No deadlock, for runs. */
  lemma {:induction false} NoDeadlock(states: seq<State>, steps: seq<Step>, n: nat) returns (rest: seq<Step>, d: Core)
    requires Behavior(states, steps) && n < |states|
    ensures |states[n].core.cells| > 0 && Executes(states[n].core, rest, d) && Finishing(rest)
    ensures |d.cells| > 0 && d.log == states[n].core.log
    ensures forall t: nat | t < |d.log| :: Published(d, t)
    ensures forall j | 0 <= j < |d.producers| :: d.producers[j].Idle?
  {
    BehaviorKeeps(states, steps, n);
    rest, d := CanPublishEverything(states[n].core, 0);
  }

  // ---------------------------------------------------------------------
  // Per-source order

  /** Everything source thread `j` handed to `publish_batch`, in order. */
  function Submitted(steps: seq<Step>, j: nat): seq<Words> {
    if steps == [] then []
    else
      var last := steps[|steps| - 1];
      Submitted(steps[..|steps| - 1], j) + if last.TakeTickets? && last.j == j then last.frames else []
  }

  /** The logged frames of source `j`, in position order. */
  function FramesOf(log: seq<Entry>, j: nat): seq<Words> {
    if log == [] then []
    else
      var last := log[|log| - 1];
      FramesOf(log[..|log| - 1], j) + if last.owner == j then [last.frame] else []
  }

  /** The log entries of a batch. */
  function Entries(frames: seq<Words>, owner: nat): (es: seq<Entry>)
    ensures |es| == |frames|
  {
    seq(|frames|, n requires 0 <= n < |frames| => Entry(frames[n], owner))
  }

  lemma {:induction false} FramesOfSnoc(log: seq<Entry>, e: Entry, j: nat)
    ensures FramesOf(log + [e], j) == FramesOf(log, j) + if e.owner == j then [e.frame] else []
  {
    assert (log + [e])[..|log|] == log;
  }

  lemma {:induction false} EntriesSnoc(frames: seq<Words>, owner: nat)
    requires frames != []
    ensures Entries(frames, owner) ==
            Entries(frames[..|frames| - 1], owner) + [Entry(frames[|frames| - 1], owner)]
  {}

  lemma {:induction false} FramesOfAppend(log: seq<Entry>, frames: seq<Words>, owner: nat, j: nat)
    ensures FramesOf(log + Entries(frames, owner), j) == FramesOf(log, j) + if owner == j then frames else []
    decreases |frames|
  {
    hide FramesOf;
    hide Entries;
    if frames == [] {
      assert log + Entries(frames, owner) == log;
      assert FramesOf(log, j) + [] == FramesOf(log, j);
    } else {
      var init, last := frames[..|frames| - 1], frames[|frames| - 1];
      EntriesSnoc(frames, owner);
      FramesOfAppend(log, init, owner, j);
      FramesOfSnoc(log + Entries(init, owner), Entry(last, owner), j);
      assert log + Entries(frames, owner) == (log + Entries(init, owner)) + [Entry(last, owner)];
      Regroup(FramesOf(log, j), init, last, owner == j);
    }
  }

  lemma {:induction false} Regroup(a: seq<Words>, init: seq<Words>, last: Words, mine: bool)
    ensures (a + if mine then init else []) + (if mine then [last] else []) == a + if mine then init + [last] else []
  {
    assert (a + init) + [last] == a + (init + [last]);
  }

  lemma {:induction false} LogStep(s: State, step: Step, j: nat)
    requires Enabled(s, step)
    ensures FramesOf(Apply(s, step).core.log, j) ==
            FramesOf(s.core.log, j) + if step.TakeTickets? && step.j == j then step.frames else []
  {
    hide FramesOf;
    if step.TakeTickets? {
      assert Apply(s, step).core.log == s.core.log + Entries(step.frames, step.j);
      FramesOfAppend(s.core.log, step.frames, step.j, j);
    } else {
      assert FramesOf(s.core.log, j) + [] == FramesOf(s.core.log, j);
    }
  }

  /** In every run the log holds, for each source, exactly its output in order. */
  lemma {:induction false} LogKeepsSourceOrder(states: seq<State>, steps: seq<Step>, n: nat, j: nat)
    requires Behavior(states, steps) && n < |states|
    ensures FramesOf(states[n].core.log, j) == Submitted(steps[..n], j)
  {
    if n > 0 {
      LogKeepsSourceOrder(states, steps, n - 1, j);
      assert steps[..n][..n - 1] == steps[..n - 1];
      LogStep(states[n - 1], steps[n - 1], j);
      hide FramesOf;
      hide Apply;
    }
  }

  /** How many earlier positions belong to source `j`. */
  function Rank(log: seq<Entry>, j: nat, pos: nat): nat
    requires pos <= |log|
  {
    |FramesOf(log[..pos], j)|
  }

  lemma {:induction false} RankFindsFrame(log: seq<Entry>, j: nat, pos: nat)
    requires pos < |log| && log[pos].owner == j
    ensures Rank(log, j, pos) < |FramesOf(log, j)| && FramesOf(log, j)[Rank(log, j, pos)] == log[pos].frame
  {
    var init := log[..|log| - 1];
    if pos == |log| - 1 {
    } else {
      RankFindsFrame(init, j, pos);
      assert init[..pos] == log[..pos];
    }
  }

  lemma {:induction false} RankGrows(log: seq<Entry>, j: nat, a: nat, b: nat)
    requires a < b < |log| && log[a].owner == j
    ensures Rank(log, j, a) < Rank(log, j, b)
  {
    assert log[..b][..b - 1] == log[..b - 1];
    if a < b - 1 { RankGrows(log, j, a, b - 1); }
  }

  /** Per-source FIFO over all schedules: of the frames a reader accepted, those
      of source `j` are frames of that source's output, found there at strictly
      increasing places, whatever was lost in between. */
  lemma {:induction false} SourceFifo(states: seq<State>, steps: seq<Step>, n: nat, r: nat, j: nat, a: nat, b: nat)
    requires Behavior(states, steps) && n < |states| && r < |states[n].readers|
    requires a < b < |states[n].readers[r].delivered|
    ensures var log, got := states[n].core.log, states[n].readers[r].delivered;
            got[a].pos < got[b].pos < |log|
    ensures var log, got, out := states[n].core.log, states[n].readers[r].delivered, Submitted(steps[..n], j);
            log[got[a].pos].owner == j && log[got[b].pos].owner == j ==>
              var ia, ib := Rank(log, j, got[a].pos), Rank(log, j, got[b].pos);
              && ia < ib < |out|
              && got[a].words == Stamp(out[ia], got[a].pos)
              && got[b].words == Stamp(out[ib], got[b].pos)
  {
    NoTornReads(states, steps, n, r);
    BehaviorKeeps(states, steps, n);
    assert ReaderOk(states[n].core, states[n].readers[r]);
    LogKeepsSourceOrder(states, steps, n, j);
    var log, got := states[n].core.log, states[n].readers[r].delivered;
    if log[got[a].pos].owner == j && log[got[b].pos].owner == j {
      RankFindsFrame(log, j, got[a].pos);
      RankFindsFrame(log, j, got[b].pos);
      RankGrows(log, j, got[a].pos, got[b].pos);
    }
  }
}
