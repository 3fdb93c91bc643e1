/** A hole can open inside one batch: `read_batch` carries on after a lap, so the
    frames it returns need not be consecutive, and nothing tells its caller where. */
module RingHole {
  import opened BroadcastRing
  import opened RingInvariant
  import opened RingTheorems

  /** Taking `steps` leads from `s` to `t`. */
  ghost predicate Runs(s: State, steps: seq<Step>, t: State)
    decreases |steps|
  {
    if steps == [] then s == t
    else Enabled(s, steps[0]) && Runs(Apply(s, steps[0]), steps[1..], t)
  }

  lemma {:induction false} RunsOne(s: State, step: Step)
    requires Enabled(s, step)
    ensures Runs(s, [step], Apply(s, step))
  {
    var t := Apply(s, step);
    assert Runs(t, [], t) && [step][1..] == [];
  }

  lemma {:induction false} RunsThen(s: State, a: seq<Step>, t: State, b: seq<Step>, u: State)
    requires Runs(s, a, t) && Runs(t, b, u)
    ensures Runs(s, a + b, u)
    decreases |a|
  {
    if a == [] {
      assert a + b == b;
    } else {
      hide Apply;
      assert (a + b)[0] == a[0] && (a + b)[1..] == a[1..] + b;
      RunsThen(Apply(s, a[0]), a[1..], t, b, u);
    }
  }

  lemma {:induction false} RunsKeeps(s: State, steps: seq<Step>, t: State)
    requires Inv(s) && Runs(s, steps, t)
    ensures Inv(t)
    decreases |steps|
  {
    if steps != [] {
      StepKeeps(s, steps[0]);
      hide Inv;
      hide Apply;
      RunsKeeps(Apply(s, steps[0]), steps[1..], t);
    }
  }

  /** A run from the start is a behaviour. */
  lemma {:induction false} RunsIsBehavior(s: State, steps: seq<Step>, t: State) returns (states: seq<State>)
    requires Runs(s, steps, t)
    ensures |states| == |steps| + 1 && states[0] == s && states[|steps|] == t
    ensures forall n | 0 <= n < |steps| :: Enabled(states[n], steps[n]) && states[n + 1] == Apply(states[n], steps[n])
    decreases |steps|
  {
    if steps == [] {
      states := [s];
    } else {
      hide Apply;
      hide Enabled;
      var rest := RunsIsBehavior(Apply(s, steps[0]), steps[1..], t);
      states := [s] + rest;
      forall n | 0 <= n < |steps| ensures Enabled(states[n], steps[n]) && states[n + 1] == Apply(states[n], steps[n]) {
        if n > 0 { assert steps[n] == steps[1..][n - 1] && states[n] == rest[n - 1] && states[n + 1] == rest[n]; }
      }
    }
  }

  /** Producers finishing on their own are a run of the whole ring. */
  lemma {:induction false} ProducersRun(s: State, steps: seq<Step>, d: Core)
    requires |s.core.cells| > 0 && Executes(s.core, steps, d) && Finishing(steps)
    ensures Runs(s, steps, s.(core := d))
    decreases |steps|
  {
    if steps == [] {
      assert s.(core := d) == s;
    } else {
      var c := ApplyProducer(s.core, steps[0]);
      hide ApplyProducer;
      hide ProducerEnabled;
      assert Finishing(steps[1..]) by {
        forall i | 0 <= i < |steps[1..]| ensures steps[1..][i] == steps[i + 1] {}
      }
      ProducersRun(s.(core := c), steps[1..], d);
    }
  }

  /** From any state in which producer `j` is idle, whatever the others are in the
      middle of, there is a run in which it publishes a batch and all finish. */
  lemma {:induction false} PublishBatchRun(s: State, j: nat, frames: seq<Words>) returns (steps: seq<Step>, t: State)
    requires Inv(s) && j < |s.core.producers| && s.core.producers[j].Idle? && frames != []
    ensures Runs(s, steps, t) && Inv(t) && t == s.(core := t.core)
    ensures t.core.writePos == s.core.writePos + |frames| && |t.core.cells| == |s.core.cells|
    ensures |t.core.producers| == |s.core.producers|
    ensures forall k | 0 <= k < |t.core.producers| :: t.core.producers[k].Idle?
    ensures forall p: nat | p < t.core.writePos :: Published(t.core, p)
    ensures s.core.log <= t.core.log
    ensures |t.core.log| == |s.core.log| + |frames|
    ensures forall n | 0 <= n < |frames| :: t.core.log[|s.core.log| + n] == Entry(frames[n], j)
  {
    var take := TakeTickets(j, frames);
    var issued := Apply(s, take);
    StepKeeps(s, take);
    RunsOne(s, take);
    var finish, d := CanPublishEverything(issued.core, 0);
    ExecutesKeepsShape(issued.core, finish, d);
    hide Apply;
    hide CoreInv;
    ProducersRun(issued, finish, d);
    t := issued.(core := d);
    RunsThen(s, [take], issued, finish, t);
    steps := [take] + finish;
    RunsKeeps(issued, finish, t);
  }

  lemma {:induction false} ExecutesKeepsShape(c: Core, steps: seq<Step>, d: Core)
    requires |c.cells| > 0 && Executes(c, steps, d) && Finishing(steps)
    ensures |d.cells| == |c.cells| && |d.producers| == |c.producers| && d.writePos == c.writePos
    decreases |steps|
  {
    if steps != [] {
      assert Finishing(steps[1..]) by {
        forall i | 0 <= i < |steps[1..]| ensures steps[1..][i] == steps[i + 1] {}
      }
      var e := ApplyProducer(c, steps[0]);
      assert |e.cells| == |c.cells| && |e.producers| == |c.producers| && e.writePos == c.writePos;
      hide ApplyProducer;
      ExecutesKeepsShape(e, steps[1..], d);
    }
  }

  function Set(s: State, r: nat, rd: Reader): State
    requires r < |s.readers|
  {
    s.(readers := s.readers[r := rd])
  }

  /** The published frame of a position. */
  function Image(c: Core, pos: nat): Words
    requires pos < |c.log|
  {
    Stamp(c.log[pos].frame, pos)
  }

  /** Reader `r` can read its next frame: it is published and not overtaken. */
  ghost predicate CanRead(s: State, r: nat) {
    && Inv(s) && r < |s.readers|
    && s.readers[r].call.outcome.Running?
    && s.readers[r].next < s.core.writePos
    && Mark(s.core, s.readers[r].next) == 2 * s.readers[r].next + 2
  }

  /** The cell holds what the reader is after. */
  lemma {:induction false} HoldsImage(s: State, r: nat)
    requires CanRead(s, r)
    ensures var next := s.readers[r].next;
            next < |s.core.log| && s.core.cells[CellOf(s.core, next)].words == Image(s.core, next)
  {
    assert CellOk(s.core, CellOf(s.core, s.readers[r].next));
  }

  lemma {:induction false} LastStep(s: State, r: nat)
    requires CanRead(s, r)
    requires var rd := s.readers[r]; rd.phase == Copying(2 * rd.next + 2, Image(s.core, rd.next)[..5])
    ensures Enabled(s, Recheck(r))
    ensures Apply(s, Recheck(r)) == Set(s, r, ReturnOk(s.readers[r], Image(s.core, s.readers[r].next)))
  {
    HoldsImage(s, r);
    hide CoreInv;
    var want := Image(s.core, s.readers[r].next);
    assert want[..5] == want;
  }

  lemma {:induction false} WordStep(s: State, r: nat, k: nat)
    requires CanRead(s, r) && k < 5
    requires var rd := s.readers[r]; rd.phase == Copying(2 * rd.next + 2, Image(s.core, rd.next)[..k])
    ensures Enabled(s, LoadWord(r))
    ensures var rd := s.readers[r];
            Apply(s, LoadWord(r)) ==
            Set(s, r, rd.(phase := Copying(2 * rd.next + 2, Image(s.core, rd.next)[..k + 1])))
  {
    HoldsImage(s, r);
    hide CoreInv;
    var want := Image(s.core, s.readers[r].next);
    assert want[..k + 1] == want[..k] + [want[k]];
  }

  lemma {:induction false} StillReadable(s: State, r: nat, rd: Reader)
    requires CanRead(s, r) && Inv(Set(s, r, rd)) && rd.next == s.readers[r].next && rd.call == s.readers[r].call
    ensures CanRead(Set(s, r, rd), r)
  {
    hide Inv;
  }

  /** From `k` words copied to the accepted read. */
  lemma {:induction false} CopyOn(s: State, r: nat, k: nat) returns (steps: seq<Step>)
    requires CanRead(s, r) && k <= 5
    requires var rd := s.readers[r]; rd.phase == Copying(2 * rd.next + 2, Image(s.core, rd.next)[..k])
    ensures Runs(s, steps, Set(s, r, ReturnOk(s.readers[r], Image(s.core, s.readers[r].next))))
    decreases 5 - k
  {
    var rd := s.readers[r];
    var want := Image(s.core, rd.next);
    if k == 5 {
      steps := [Recheck(r)];
      LastStep(s, r);
      hide Apply;
      hide Inv;
      RunsOne(s, Recheck(r));
    } else {
      var step := LoadWord(r);
      var t := Apply(s, step);
      WordStep(s, r, k);
      StepKeeps(s, step);
      var rd' := rd.(phase := Copying(2 * rd.next + 2, want[..k + 1]));
      StillReadable(s, r, rd');
      hide Apply;
      hide Inv;
      hide Enabled;
      RunsOne(s, step);
      var rest := CopyOn(t, r, k + 1);
      var end := Set(s, r, ReturnOk(rd, want));
      assert Set(t, r, ReturnOk(rd', want)) == end;
      RunsThen(s, [step], t, rest, end);
      steps := [step] + rest;
    }
  }

  lemma {:induction false} ReadOne(s: State, r: nat) returns (steps: seq<Step>, t: State)
    requires CanRead(s, r) && s.readers[r].phase.Ready?
    ensures t == Set(s, r, ReturnOk(s.readers[r], Image(s.core, s.readers[r].next)))
    ensures Runs(s, steps, t) && Inv(t)
  {
    var rd := s.readers[r];
    var step := LoadMark(r);
    var started := Apply(s, step);
    var want := Image(s.core, rd.next);
    assert want[..0] == [];
    var rd' := rd.(phase := Copying(2 * rd.next + 2, []));
    assert started == Set(s, r, rd');
    StepKeeps(s, step);
    RunsOne(s, step);
    var rest := CopyOn(started, r, 0);
    t := Set(s, r, ReturnOk(rd, want));
    assert Set(started, r, ReturnOk(rd', want)) == t;
    RunsThen(s, [step], started, rest, t);
    steps := [step] + rest;
    RunsKeeps(s, steps, t);
  }

  /** Overtaken: the two steps of a lap. */
  lemma {:induction false} LapOnce(s: State, r: nat) returns (steps: seq<Step>, t: State)
    requires Inv(s) && r < |s.readers| && s.readers[r].phase.Ready? && s.readers[r].call.outcome.Running?
    requires Mark(s.core, s.readers[r].next) > 2 * s.readers[r].next + 2
    ensures t == Set(s, r, ReturnLapped(s.core, s.readers[r].(phase := Lapping)))
    ensures Runs(s, steps, t) && Inv(t)
  {
    var look := LoadMark(r);
    var seen := Apply(s, look);
    assert seen == Set(s, r, s.readers[r].(phase := Lapping));
    StepKeeps(s, look);
    RunsOne(s, look);
    RunsOne(seen, LoadOldest(r));
    t := Apply(seen, LoadOldest(r));
    RunsThen(s, [look], seen, [LoadOldest(r)], t);
    steps := [look] + [LoadOldest(r)];
    RunsKeeps(s, steps, t);
  }

  const BLANK: Words := [0, 0, 0, 0, 0]

  /** Two cells, one producer, one reader asking for two frames. */
  lemma {:induction false} Opening() returns (s: State, steps: seq<Step>, t: State)
    ensures Init(s) && Inv(s) && Runs(s, steps, t) && Inv(t)
    ensures |t.core.cells| == 2 && t.core.writePos == 0 && |t.core.producers| == 1 && t.core.producers[0].Idle?
    ensures t.readers == [Reader(0, 0, 0, Ready, Call(2, 0, 0, 0, 0, 0, Running), [])]
  {
    s := State(Core(0, [Cell(0, BLANK), Cell(0, BLANK)], [], []), [], 0);
    var a := Apply(s, Join);
    var b := Apply(a, Attach);
    t := Apply(b, BeginBatch(0, 2));
    RunsOne(s, Join);
    RunsOne(a, Attach);
    RunsOne(b, BeginBatch(0, 2));
    RunsThen(s, [Join], a, [Attach], b);
    RunsThen(s, [Join] + [Attach], b, [BeginBatch(0, 2)], t);
    steps := [Join] + [Attach] + [BeginBatch(0, 2)];
    RunsKeeps(s, steps, t);
  }

  /** With everything published, the cell of one of the last `capacity` positions holds it. */
  lemma {:induction false} HoldsNewest(c: Core, pos: nat)
    requires CoreInv(c) && pos < c.writePos <= pos + |c.cells| && Published(c, pos)
    ensures Mark(c, pos) == 2 * pos + 2
  {
    var m := Mark(c, pos);
    assert CellOk(c, CellOf(c, pos));
    if (m - 1) / 2 > pos { SameCell(|c.cells|, pos, (m - 1) / 2); }
  }

  /** There is a run in which a single `read_batch` call returns positions 0 and
      2: frame 1 was overtaken between two iterations of its loop. */
  lemma {:induction false} HoleInsideOneBatch() returns (states: seq<State>, steps: seq<Step>)
    ensures Behavior(states, steps)
    ensures |states[|steps|].readers| == 1
    ensures var rd := states[|steps|].readers[0];
            && rd.call.outcome.Full? && rd.call.count == 2
            && |rd.delivered| == 2 && rd.delivered[0].pos == 0 && rd.delivered[1].pos == 2
  {
    hide Apply;
    hide Inv;
    var s, st0, t0 := Opening();
    var st1, t1 := PublishBatchRun(t0, 0, [BLANK]);
    FirstRead(t1);
    var st2, t2 := ReadOne(t1, 0);
    var st3, t3 := PublishBatchRun(t2, 0, [BLANK, BLANK, BLANK]);
    Overtaken(t3);
    var st4, t4 := LapOnce(t3, 0);
    SecondRead(t4);
    var st5, t5 := ReadOne(t4, 0);
    RunsThen(s, st0, t0, st1, t1);
    RunsThen(s, st0 + st1, t1, st2, t2);
    RunsThen(s, st0 + st1 + st2, t2, st3, t3);
    RunsThen(s, st0 + st1 + st2 + st3, t3, st4, t4);
    RunsThen(s, st0 + st1 + st2 + st3 + st4, t4, st5, t5);
    steps := st0 + st1 + st2 + st3 + st4 + st5;
    states := RunsIsBehavior(s, steps, t5);
  }

  lemma {:induction false} FirstRead(t: State)
    requires Inv(t) && |t.core.cells| == 2 && t.core.writePos == 1 && Published(t.core, 0)
    requires |t.readers| == 1 && t.readers[0].next == 0 && t.readers[0].call.outcome.Running?
    ensures CanRead(t, 0) && |t.core.log| == 1
  {
    HoldsNewest(t.core, 0);
  }

  lemma {:induction false} SecondRead(t: State)
    requires Inv(t) && |t.core.cells| == 2 && t.core.writePos == 4 && Published(t.core, 2)
    requires |t.readers| == 1 && t.readers[0].next == 2 && t.readers[0].call.outcome.Running?
    ensures CanRead(t, 0) && |t.core.log| == 4
  {
    HoldsNewest(t.core, 2);
  }

  lemma {:induction false} Overtaken(t: State)
    requires Inv(t) && |t.core.cells| == 2 && Published(t.core, 3)
    ensures Mark(t.core, 1) > 4
  {
    assert Slot(2, 3) == Slot(2, 1);
  }

  /** A CAS can fail while nobody is writing: ticket 0 of a two-cell ring is issued
      and not yet claimed when ticket 2 finds its cell without the word it expects. */
  lemma {:induction false} CasFailsWithNobodyWriting() returns (states: seq<State>, steps: seq<Step>)
    ensures Behavior(states, steps) && |steps| == 5 && steps[4] == Cas(1, false)
    ensures states[5] == states[4]
    ensures forall k | 0 <= k < |states[4].core.producers| :: !states[4].core.producers[k].Storing?
  {
    hide Apply;
    hide Enabled;
    hide Mark;
    var cells := [Cell(0, BLANK), Cell(0, BLANK)];
    var s0 := State(Core(0, cells, [], []), [], 0);
    var s1 := State(Core(0, cells, [Idle], []), [], 0);
    var s2 := State(Core(0, cells, [Idle, Idle], []), [], 0);
    JoinsTo(s0, s1);
    JoinsTo(s1, s2);
    var one, two := TakeTickets(0, [BLANK, BLANK]), TakeTickets(1, [BLANK]);
    var s3, s4 := TwoQueued(s2);
    FailedCas(s4, 1);
    states := [s0, s1, s2, s3, s4, s4];
    steps := [Join, Join, one, two, Cas(1, false)];
    forall n | 0 <= n < 5 ensures Enabled(states[n], steps[n]) && states[n + 1] == Apply(states[n], steps[n]) {}
  }

  lemma {:induction false} JoinsTo(s: State, t: State)
    requires |s.core.cells| > 0 && t == s.(core := s.core.(producers := s.core.producers + [Idle]))
    ensures Enabled(s, Join) && Apply(s, Join) == t
  {}

  lemma {:induction false} TwoQueued(s: State) returns (t: State, u: State)
    requires |s.core.cells| == 2 && s.core.cells[0].mark == 0
    requires s.core.writePos == 0 && s.core.producers == [Idle, Idle]
    ensures Enabled(s, TakeTickets(0, [BLANK, BLANK])) && t == Apply(s, TakeTickets(0, [BLANK, BLANK]))
    ensures Enabled(t, TakeTickets(1, [BLANK])) && u == Apply(t, TakeTickets(1, [BLANK]))
    ensures |u.core.cells| == 2 && |u.core.producers| == 2
    ensures u.core.producers[0].Claiming? && u.core.producers[1] == Claiming(2, [BLANK], 0) && Mark(u.core, 2) == 0
  {
    t := Apply(s, TakeTickets(0, [BLANK, BLANK]));
    u := Apply(t, TakeTickets(1, [BLANK]));
    assert Slot(2, 2) == Slot(2, 0) == 0;
  }

  lemma {:induction false} FailedCas(s: State, j: nat)
    requires |s.core.cells| > 0 && j < |s.core.producers| && s.core.producers[j].Claiming?
    requires var pos := s.core.producers[j].base + s.core.producers[j].i;
             Mark(s.core, pos) != Expected(|s.core.cells|, pos)
    ensures Enabled(s, Cas(j, false)) && Apply(s, Cas(j, false)) == s
  {}
}
