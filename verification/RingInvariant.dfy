/** The inductive invariant of the broadcast ring and its preservation by every step. */
module RingInvariant {
  import opened BroadcastRing

  predicate Holds(p: Producer, t: nat) {
    !p.Idle? && p.base + p.i <= t < p.base + |p.frames|
  }

  /** A cell's word is 0, or names an issued position of this cell; an even
      word vouches for all five payload words. */
  ghost predicate CellOk(c: Core, at: nat)
    requires |c.log| == c.writePos && at < |c.cells|
  {
    var m := c.cells[at].mark;
    m == 0 ||
    (var p := (m - 1) / 2;
     && p < c.writePos
     && CellOf(c, p) == at
     && (m % 2 == 0 ==> c.cells[at].words == Stamp(c.log[p].frame, p)))
  }

  /** Positions `lo` up to `hi` have not been claimed. */
  ghost predicate Unclaimed(c: Core, lo: nat, hi: nat)
    requires |c.cells| > 0
  {
    forall t: nat | lo <= t < hi :: Mark(c, t) <= 2 * t
  }

  /** Producer `j` was issued the positions of its batch from frame `i` on. */
  ghost predicate Issued(c: Core, j: nat, base: nat, frames: seq<Words>, i: nat)
    requires i <= |frames| && base + |frames| <= |c.log|
  {
    forall t: nat | base + i <= t < base + |frames| :: c.log[t] == Entry(frames[t - base], j)
  }

  /** What producer `j` still has to write is logged as its own and unclaimed,
      except for the position it is storing right now. */
  ghost predicate ProducerOk(c: Core, j: nat)
    requires |c.log| == c.writePos && |c.cells| > 0 && j < |c.producers|
  {
    var p := c.producers[j];
    !p.Idle? ==>
      && p.i < |p.frames|
      && p.base + |p.frames| <= c.writePos
      && Issued(c, j, p.base, p.frames, p.i)
      && Unclaimed(c, p.base + p.i + 1, p.base + |p.frames|)
      && (var pos := p.base + p.i;
          if p.Claiming? then Mark(c, pos) <= 2 * pos
          else p.k <= 5 && Mark(c, pos) == 2 * pos + 1
               && c.cells[CellOf(c, pos)].words[..p.k] == Stamp(p.frames[p.i], pos)[..p.k])
  }

  predicate Published(c: Core, t: nat)
    requires |c.cells| > 0
  {
    Mark(c, t) >= 2 * t + 2
  }

  ghost predicate TicketOk(c: Core, t: nat)
    requires |c.cells| > 0 && t < |c.log|
  {
    var j := c.log[t].owner;
    j < |c.producers| && (Holds(c.producers[j], t) || Published(c, t))
  }

  ghost predicate CoreInv(c: Core) {
    && |c.cells| >= 2
    && |c.log| == c.writePos
    && (forall at | 0 <= at < |c.cells| :: CellOk(c, at))
    && (forall j | 0 <= j < |c.producers| :: ProducerOk(c, j))
    && (forall t | 0 <= t < |c.log| :: TicketOk(c, t))
  }

  /** A reader delivered logged frames from `start` up to `next`, in order. */
  ghost predicate DeliveredOk(log: seq<Entry>, start: nat, next: nat, delivered: seq<Delivery>) {
    && (forall n | 0 <= n < |delivered| ::
          var d := delivered[n];
          start <= d.pos < next && d.pos < |log| && d.words == Stamp(log[d.pos].frame, d.pos))
    && (forall m, n | 0 <= m < n < |delivered| :: delivered[m].pos < delivered[n].pos)
  }

  ghost predicate CallOk(writePos: nat, cap: nat, next: nat, call: Call) {
    && call.entry <= call.seen <= writePos
    && call.iterations == call.count + call.laps + (if call.outcome.RanDry? then 1 else 0)
    && (if call.outcome.Full? then call.count == call.room else call.count < call.room)
    && (if call.laps == 0 then call.seen == call.entry
        else call.laps <= 1 + call.seen - call.entry && call.seen <= next + cap)
  }

  ghost predicate ReaderOk(c: Core, rd: Reader)
    requires |c.cells| > 0 && |c.log| == c.writePos
  {
    && rd.start <= rd.next <= c.writePos
    && rd.next - rd.start == |rd.delivered| + rd.missed
    && DeliveredOk(c.log, rd.start, rd.next, rd.delivered)
    && CallOk(c.writePos, |c.cells|, rd.next, rd.call)
    && (!rd.phase.Ready? ==> rd.call.outcome.Running?)
    && match rd.phase
       case Ready => true
       case Copying(s1, got) =>
         && s1 == 2 * rd.next + 2 <= Mark(c, rd.next)
         && rd.next < c.writePos
         && |got| <= 5
         && (Mark(c, rd.next) == s1 ==> got == Stamp(c.log[rd.next].frame, rd.next)[..|got|])
       case Lapping => rd.next + |c.cells| < c.writePos && Published(c, rd.next)
  }

  ghost predicate Inv(s: State) {
    && CoreInv(s.core)
    && (forall r | 0 <= r < |s.readers| :: ReaderOk(s.core, s.readers[r]))
    && s.inconsistent == 0
  }

  // ---------------------------------------------------------------------
  // Arithmetic of laps

  /** Two different positions of one cell are at least a capacity apart. */
  lemma {:induction false} SameCell(cap: nat, a: nat, b: nat)
    requires cap > 0 && Slot(cap, a) == Slot(cap, b) && a < b
    ensures a + cap <= b
  {
    if a >= cap {
      SameCell(cap, a - cap, b - cap);
    }
  }

  // ---------------------------------------------------------------------
  // Producer steps

  /** How shared memory may move: words of the log are never rewritten, marks
      never go back, and a published payload is frozen while its mark stands. */
  ghost predicate Later(a: Core, b: Core) {
    && |a.cells| == |b.cells| > 0
    && a.writePos <= b.writePos
    && a.log <= b.log
    && forall at | 0 <= at < |a.cells| ::
         && a.cells[at].mark <= b.cells[at].mark
         && (a.cells[at].mark == b.cells[at].mark && a.cells[at].mark % 2 == 0 ==> a.cells[at] == b.cells[at])
  }

  lemma {:induction false} JoinKeeps(c: Core)
    requires CoreInv(c)
    ensures CoreInv(ApplyProducer(c, Join)) && Later(c, ApplyProducer(c, Join))
  {
    var d := ApplyProducer(c, Join);
    forall j | 0 <= j < |d.producers| ensures ProducerOk(d, j) {
      if j < |c.producers| { assert ProducerOk(c, j); SameCellsSameClaims(c, d, j); }
    }
    forall at | 0 <= at < |d.cells| ensures CellOk(d, at) { assert CellOk(c, at); }
    forall t | 0 <= t < |d.log| ensures TicketOk(d, t) { assert TicketOk(c, t); }
  }

  lemma {:induction false} SameCellsSameClaims(c: Core, d: Core, j: nat)
    requires CoreInv(c) && j < |c.producers|
    requires d.cells == c.cells && c.log <= d.log && |d.log| == d.writePos
    requires j < |d.producers| && d.producers[j] == c.producers[j]
    ensures ProducerOk(d, j)
  {
    assert ProducerOk(c, j);
    var p := c.producers[j];
    if !p.Idle? {
      forall t: nat | p.base + p.i < t < p.base + |p.frames| ensures Mark(d, t) <= 2 * t {
        assert Mark(c, t) <= 2 * t;
      }
    }
  }

  lemma {:induction false} TakeTicketsKeeps(c: Core, j: nat, frames: seq<Words>)
    requires CoreInv(c) && ProducerEnabled(c, TakeTickets(j, frames))
    ensures CoreInv(ApplyProducer(c, TakeTickets(j, frames))) && Later(c, ApplyProducer(c, TakeTickets(j, frames)))
  {
    var d := ApplyProducer(c, TakeTickets(j, frames));
    forall t: nat | c.writePos <= t < d.writePos ensures Mark(d, t) <= 2 * t {
      assert CellOk(c, CellOf(c, t));
    }
    forall k | 0 <= k < |d.producers| ensures ProducerOk(d, k) {
      if k != j { SameCellsSameClaims(c, d, k); }
    }
    forall at | 0 <= at < |d.cells| ensures CellOk(d, at) { assert CellOk(c, at); }
    forall t | 0 <= t < |d.log| ensures TicketOk(d, t) {
      if t < |c.log| { assert TicketOk(c, t); }
    }
  }

  /** Tickets are never shared: the log names one owner. */
  lemma {:induction false} OthersHoldOtherTickets(c: Core, j: nat, k: nat, t: nat)
    requires CoreInv(c) && j < |c.producers| && k < |c.producers| && j != k && Holds(c.producers[j], t)
    ensures !Holds(c.producers[k], t)
  {
    assert ProducerOk(c, j) && ProducerOk(c, k);
    assert c.log[t].owner == j;
  }

  /** The two legal reasons for producer `j` to touch the cell of its current
      position: it just claimed it from the word the last lap left, or it already
      held the claim. */
  ghost predicate OwnsCell(c: Core, j: nat)
    requires |c.cells| > 0 && j < |c.producers| && !c.producers[j].Idle?
  {
    var pos := c.producers[j].base + c.producers[j].i;
    Mark(c, pos) == 2 * pos + 1 || Mark(c, pos) == Expected(|c.cells|, pos)
  }

  /** `d` is `c` after producer `j` changed its own cell to `x` and itself to `q`. */
  ghost predicate TouchesOwnCell(c: Core, d: Core, j: nat, x: Cell, q: Producer)
    requires CoreInv(c) && j < |c.producers| && !c.producers[j].Idle?
  {
    var p := c.producers[j];
    var pos := p.base + p.i;
    && p.i < |p.frames|
    && OwnsCell(c, j)
    && d == c.(cells := c.cells[CellOf(c, pos) := x], producers := c.producers[j := q])
    && x.mark >= Mark(c, pos)
    && (x.mark == 2 * pos + 1 || (x.mark == 2 * pos + 2 && x.words == Stamp(p.frames[p.i], pos)))
    && (!q.Idle? ==> q.base == p.base && q.frames == p.frames && p.i <= q.i <= p.i + 1)
    && (if x.mark == 2 * pos + 1 then !q.Idle? && q.i == p.i
        else if q.Idle? then p.i + 1 == |p.frames| else q.i == p.i + 1)
  }

  /** Every other outstanding ticket of the cell is younger than the claim. */
  lemma {:induction false} OtherTicketsUntouched(c: Core, d: Core, j: nat, x: Cell, q: Producer, t: nat)
    requires CoreInv(c) && j < |c.producers| && !c.producers[j].Idle? && TouchesOwnCell(c, d, j, x, q)
    requires t != c.producers[j].base + c.producers[j].i
    ensures Mark(c, t) <= 2 * t ==> Mark(d, t) <= 2 * t
    ensures Mark(c, t) == 2 * t + 1 ==> d.cells[CellOf(d, t)] == c.cells[CellOf(c, t)]
  {
    var pos := c.producers[j].base + c.producers[j].i;
    assert CellOf(d, t) == CellOf(c, t) && CellOf(d, pos) == CellOf(c, pos);
    if CellOf(c, t) == CellOf(c, pos) && t < pos { SameCell(|c.cells|, t, pos); }
  }

  lemma {:induction false} OtherProducersKeep(c: Core, d: Core, j: nat, x: Cell, q: Producer, k: nat)
    requires CoreInv(c) && j < |c.producers| && !c.producers[j].Idle? && TouchesOwnCell(c, d, j, x, q)
    requires k < |c.producers| && k != j
    ensures ProducerOk(d, k)
  {
    var p := c.producers[k];
    assert ProducerOk(c, k);
    if !p.Idle? {
      forall t: nat | p.base + p.i <= t < p.base + |p.frames|
        ensures Mark(c, t) <= 2 * t ==> Mark(d, t) <= 2 * t
        ensures Mark(c, t) == 2 * t + 1 ==> d.cells[CellOf(d, t)] == c.cells[CellOf(c, t)]
      {
        assert !Holds(c.producers[j], t) by { OthersHoldOtherTickets(c, k, j, t); }
        OtherTicketsUntouched(c, d, j, x, q, t);
      }
    }
  }

  lemma {:induction false} CellsKeep(c: Core, d: Core, j: nat, x: Cell, q: Producer)
    requires CoreInv(c) && j < |c.producers| && !c.producers[j].Idle? && TouchesOwnCell(c, d, j, x, q)
    ensures Later(c, d) && forall at | 0 <= at < |d.cells| :: CellOk(d, at)
  {
    hide Slot;
    hide Unclaimed;
    var p := c.producers[j];
    assert ProducerOk(c, j);
    assert c.log[p.base + p.i] == Entry(p.frames[p.i], j);
    forall at | 0 <= at < |d.cells| ensures CellOk(d, at) { assert CellOk(c, at); }
  }

  lemma {:induction false} TicketsKeep(c: Core, d: Core, j: nat, x: Cell, q: Producer, t: nat)
    requires CoreInv(c) && j < |c.producers| && !c.producers[j].Idle? && TouchesOwnCell(c, d, j, x, q)
    requires t < |c.log|
    ensures TicketOk(d, t)
  {
    assert TicketOk(c, t);
    assert CellOf(d, t) == CellOf(c, t);
  }

  lemma {:induction false} TouchKeeps(c: Core, d: Core, j: nat, x: Cell, q: Producer)
    requires CoreInv(c) && j < |c.producers| && !c.producers[j].Idle? && TouchesOwnCell(c, d, j, x, q)
    requires ProducerOk(d, j)
    ensures CoreInv(d) && Later(c, d)
  {
    CellsKeep(c, d, j, x, q);
    forall k | 0 <= k < |d.producers| ensures ProducerOk(d, k) {
      if k != j { OtherProducersKeep(c, d, j, x, q, k); }
    }
    forall t | 0 <= t < |d.log| ensures TicketOk(d, t) { TicketsKeep(c, d, j, x, q, t); }
  }

  lemma {:induction false} CasKeeps(c: Core, step: Step)
    requires CoreInv(c) && ProducerEnabled(c, step) && step.Cas?
    ensures CoreInv(ApplyProducer(c, step)) && Later(c, ApplyProducer(c, step))
  {
    var d := ApplyProducer(c, step);
    var j := step.j;
    var p := c.producers[j];
    var pos := p.base + p.i;
    var at := CellOf(c, pos);
    assert ProducerOk(c, j);
    if d != c {
      var x, q := c.cells[at].(mark := 2 * pos + 1), Storing(p.base, p.frames, p.i, 0);
      assert TouchesOwnCell(c, d, j, x, q);
      RestStaysUnclaimed(c, d, j, x, q);
      TouchKeeps(c, d, j, x, q);
    }
  }

  /** The rest of producer `j`'s own batch stays unclaimed. */
  lemma {:induction false} RestStaysUnclaimed(c: Core, d: Core, j: nat, x: Cell, q: Producer)
    requires CoreInv(c) && j < |c.producers| && !c.producers[j].Idle? && TouchesOwnCell(c, d, j, x, q)
    ensures Unclaimed(d, c.producers[j].base + c.producers[j].i + 1, c.producers[j].base + |c.producers[j].frames|)
  {
    var p := c.producers[j];
    assert ProducerOk(c, j);
    forall t: nat | p.base + p.i < t < p.base + |p.frames| ensures Mark(d, t) <= 2 * t {
      OtherTicketsUntouched(c, d, j, x, q, t);
    }
  }

  lemma {:induction false} StoreKeeps(c: Core, step: Step)
    requires CoreInv(c) && ProducerEnabled(c, step) && step.StoreWord?
    ensures CoreInv(ApplyProducer(c, step)) && Later(c, ApplyProducer(c, step))
  {
    var d := ApplyProducer(c, step);
    var j := step.j;
    var p := c.producers[j];
    var pos := p.base + p.i;
    var at := CellOf(c, pos);
    assert ProducerOk(c, j);
    var want := Stamp(p.frames[p.i], pos);
    assert d.cells[at].words[..p.k + 1] == c.cells[at].words[..p.k] + [want[p.k]] == want[..p.k + 1];
    RestStaysUnclaimed(c, d, j, d.cells[at], d.producers[j]);
    TouchKeeps(c, d, j, d.cells[at], d.producers[j]);
  }

  lemma {:induction false} PublishKeeps(c: Core, step: Step)
    requires CoreInv(c) && ProducerEnabled(c, step) && step.Publish?
    ensures CoreInv(ApplyProducer(c, step)) && Later(c, ApplyProducer(c, step))
  {
    var d := ApplyProducer(c, step);
    var j := step.j;
    var p := c.producers[j];
    var pos := p.base + p.i;
    var at := CellOf(c, pos);
    assert ProducerOk(c, j);
    var want := Stamp(p.frames[p.i], pos);
    assert d.cells[at].words == d.cells[at].words[..5] == want[..5] == want;
    RestStaysUnclaimed(c, d, j, d.cells[at], d.producers[j]);
    TouchKeeps(c, d, j, d.cells[at], d.producers[j]);
  }

  lemma {:induction false} ProducerStepKeeps(c: Core, step: Step)
    requires CoreInv(c) && ProducerEnabled(c, step)
    ensures CoreInv(ApplyProducer(c, step)) && Later(c, ApplyProducer(c, step))
  {
    match step {
      case Join => JoinKeeps(c);
      case TakeTickets(j, frames) => TakeTicketsKeeps(c, j, frames);
      case Cas(_, _) => CasKeeps(c, step);
      case StoreWord(_) => StoreKeeps(c, step);
      case Publish(_) => PublishKeeps(c, step);
    }
  }

  // ---------------------------------------------------------------------
  // Reader steps

  /** Nothing a producer does can spoil what a reader has already established. */
  lemma {:induction false} ReaderStable(c: Core, d: Core, rd: Reader)
    requires CoreInv(c) && CoreInv(d) && Later(c, d) && ReaderOk(c, rd)
    ensures ReaderOk(d, rd)
  {
    assert CellOf(c, rd.next) == CellOf(d, rd.next);
    forall n | 0 <= n < |rd.delivered| ensures c.log[rd.delivered[n].pos] == d.log[rd.delivered[n].pos] {}
  }

  lemma {:induction false} LoadMarkKeeps(c: Core, rd: Reader, step: Step)
    requires CoreInv(c) && ReaderOk(c, rd) && ReaderEnabled(rd, step) && step.LoadMark?
    ensures ReaderOk(c, ApplyReader(c, rd, step))
  {
    hide Slot;
    hide DeliveredOk;
    assert CellOk(c, CellOf(c, rd.next));
    var s1 := Mark(c, rd.next);
    if s1 != 0 && (s1 - 1) / 2 > rd.next {
      SameCell(|c.cells|, rd.next, (s1 - 1) / 2);
    }
  }

  lemma {:induction false} DeliverOne(log: seq<Entry>, start: nat, next: nat, delivered: seq<Delivery>)
    requires DeliveredOk(log, start, next, delivered) && start <= next < |log|
    ensures DeliveredOk(log, start, next + 1, delivered + [Delivery(next, Stamp(log[next].frame, next))])
  {
    var more := delivered + [Delivery(next, Stamp(log[next].frame, next))];
    forall n | 0 <= n < |more|
      ensures var d := more[n]; start <= d.pos < next + 1 && d.pos < |log| && d.words == Stamp(log[d.pos].frame, d.pos)
    {
      if n < |delivered| { assert more[n] == delivered[n]; }
    }
  }

  lemma {:induction false} CopyKeeps(c: Core, rd: Reader, step: Step)
    requires CoreInv(c) && ReaderOk(c, rd) && ReaderEnabled(rd, step) && (step.LoadWord? || step.Recheck?)
    ensures ReaderOk(c, ApplyReader(c, rd, step)) && !Inconsistent(c, rd, step)
  {
    hide Slot;
    hide DeliveredOk;
    assert CellOk(c, CellOf(c, rd.next));
    var m := Mark(c, rd.next);
    var want := Stamp(c.log[rd.next].frame, rd.next);
    if m == rd.phase.s1 {
      if step.LoadWord? {
        assert want[..|rd.phase.got| + 1] == want[..|rd.phase.got|] + [want[|rd.phase.got|]];
      } else {
        assert want[..5] == want;
        DeliverOne(c.log, rd.start, rd.next, rd.delivered);
      }
    } else {
      assert (m - 1) / 2 > rd.next;
      SameCell(|c.cells|, rd.next, (m - 1) / 2);
    }
  }

  lemma {:induction false} ReaderStepKeeps(c: Core, rd: Reader, step: Step)
    requires CoreInv(c) && ReaderOk(c, rd) && ReaderEnabled(rd, step)
    ensures ReaderOk(c, ApplyReader(c, rd, step)) && !Inconsistent(c, rd, step)
  {
    match step {
      case LoadMark(_) => LoadMarkKeeps(c, rd, step);
      case LoadWord(_) => CopyKeeps(c, rd, step);
      case Recheck(_) => CopyKeeps(c, rd, step);
      case BeginBatch(_, _) =>
      case LoadOldest(_) =>
    }
  }

  // ---------------------------------------------------------------------
  // Every step, and whole runs

  lemma {:induction false} StepKeeps(s: State, step: Step)
    requires Inv(s) && Enabled(s, step)
    ensures Inv(Apply(s, step)) && Later(s.core, Apply(s, step).core)
  {
    var s' := Apply(s, step);
    if step.Attach? {
    } else if IsReaderStep(step) {
      ReaderStepKeeps(s.core, s.readers[step.r], step);
    } else {
      ProducerStepKeeps(s.core, step);
      forall r | 0 <= r < |s'.readers| ensures ReaderOk(s'.core, s'.readers[r]) {
        ReaderStable(s.core, s'.core, s.readers[r]);
      }
    }
  }

  lemma {:induction false} BehaviorKeeps(states: seq<State>, steps: seq<Step>, n: nat)
    requires Behavior(states, steps) && n < |states|
    ensures Inv(states[n])
  {
    if n > 0 {
      BehaviorKeeps(states, steps, n - 1);
      StepKeeps(states[n - 1], steps[n - 1]);
    }
  }

  lemma {:induction false} BehaviorLater(states: seq<State>, steps: seq<Step>, m: nat, n: nat)
    requires Behavior(states, steps) && m <= n < |states|
    ensures Later(states[m].core, states[n].core)
    decreases n - m
  {
    BehaviorKeeps(states, steps, m);
    if m < n {
      BehaviorLater(states, steps, m + 1, n);
      StepKeeps(states[m], steps[m]);
      forall at | 0 <= at < |states[m].core.cells|
        ensures states[m].core.cells[at].mark <= states[m + 1].core.cells[at].mark <= states[n].core.cells[at].mark
      {}
    }
  }
}
