/** Batches joined by lingering: the second way a hole gets into a batch. */
module Lingering {
  import opened Wire
  import opened Layout
  import opened BroadcastRing
  import opened BoundedQueue
  import opened SequentialRing
  import opened Feeds
  import opened GapTracker
  import opened LossAccounting
  import opened Connection
  import opened Topologies
  import opened Egress

  /** What the pops of `later` return, after the history `earlier`. */
  function Popped(cap: nat, earlier: seq<Op>, later: seq<Op>): seq<Words> {
    if later == [] then []
    else
      var init, last := later[..|later| - 1], later[|later| - 1];
      Popped(cap, earlier, init) + RingStep(RingRun(cap, earlier + init).view, cap, last).out
  }

  /** Consecutive sequence fields. */
  predicate Unbroken(ws: seq<Words>) {
    forall i | 0 < i < |ws| :: ws[i][0] == ws[i - 1][0] + 1
  }

  /** A batch so far ends just before the cursor. */
  predicate EndsAt(ws: seq<Words>, next: nat) { ws != [] && ws[|ws| - 1][0] + 1 == next }

  lemma {:induction false} UnbrokenJoin(a: seq<Words>, b: seq<Words>)
    requires a != [] && b != []
    ensures Unbroken(a + b) <==> Unbroken(a) && Unbroken(b) && b[0][0] == a[|a| - 1][0] + 1
  {
    var ab := a + b;
    if Unbroken(ab) {
      forall i | 0 < i < |a| ensures a[i][0] == a[i - 1][0] + 1 { assert ab[i] == a[i] && ab[i - 1] == a[i - 1]; }
      forall i | 0 < i < |b| ensures b[i][0] == b[i - 1][0] + 1 {
        assert ab[|a| + i] == b[i] && ab[|a| + i - 1] == b[i - 1];
      }
      assert ab[|a|] == b[0] && ab[|a| - 1] == a[|a| - 1];
    }
    if Unbroken(a) && Unbroken(b) && b[0][0] == a[|a| - 1][0] + 1 {
      forall i | 0 < i < |ab| ensures ab[i][0] == ab[i - 1][0] + 1 {
        if i > |a| { assert ab[i] == b[i - |a|] && ab[i - 1] == b[i - |a| - 1]; }
      }
    }
  }

  /** One more operation of the feed, seen from the batch being joined. */
  lemma {:induction false} JoinStep(cap: nat, r: RingView, op: Op, batch: seq<Words>)
    requires cap > 0 && r.cursor.next <= |r.log| && Numbered(r.log) && EndsAt(batch, r.cursor.next)
    ensures var step := RingStep(r, cap, op);
            && EndsAt(batch + step.out, step.view.cursor.next)
            && step.view.cursor.missed >= r.cursor.missed
            && (Unbroken(batch + step.out) <==> Unbroken(batch) && step.view.cursor.missed == r.cursor.missed)
  {
    var out := RingStep(r, cap, op).out;
    if out == [] {
      assert batch + out == batch;
      if op.Pop? { EmptyPopStays(r, cap, op.room); }
    } else {
      var lo, hi := PopIsSlice(cap, r, op);
      hide RingStep;
      assert out == r.log[lo..hi];
      assert out[0] == r.log[lo] && out[|out| - 1] == r.log[hi - 1];
      assert Unbroken(out) by {
        forall i | 0 < i < |out| ensures out[i][0] == out[i - 1][0] + 1 {
          assert out[i] == r.log[lo + i] && out[i - 1] == r.log[lo + i - 1];
        }
      }
      UnbrokenJoin(batch, out);
    }
  }

  lemma {:induction false} RunOneMore(cap: nat, ops: seq<Op>, op: Op)
    ensures RingRun(cap, ops + [op]).view == RingStep(RingRun(cap, ops).view, cap, op).view
  {
    hide RingStep;
    assert (ops + [op])[..|ops|] == ops;
  }

  /** Let a batch hold what was popped up to some moment and go on joining pops to
      it, with pushes in between as they come. It stays unbroken exactly when the
      feed loses nothing meanwhile. */
  lemma {:induction false} JoinedIffNothingMissed(cap: nat, earlier: seq<Op>, later: seq<Op>, batch: seq<Words>)
    requires cap > 0 && Unbroken(batch) && EndsAt(batch, RingRun(cap, earlier).view.cursor.next)
    ensures var r0, r1 := RingRun(cap, earlier).view, RingRun(cap, earlier + later).view;
            && EndsAt(batch + Popped(cap, earlier, later), r1.cursor.next)
            && r1.cursor.missed >= r0.cursor.missed
            && (Unbroken(batch + Popped(cap, earlier, later)) <==> r1.cursor.missed == r0.cursor.missed)
    decreases |later|
  {
    hide RingRun;
    hide RingStep;
    hide Unbroken;
    hide EndsAt;
    hide Mirrored;
    if later == [] {
      assert earlier + later == earlier && batch + [] == batch;
    } else {
      var init, last := later[..|later| - 1], later[|later| - 1];
      JoinedIffNothingMissed(cap, earlier, init, batch);
      assert earlier + later == (earlier + init) + [last];
      RunOneMore(cap, earlier + init, last);
      LogIsNumbered(cap, earlier + init);
      JoinStep(cap, RingRun(cap, earlier + init).view, last, batch + Popped(cap, earlier, init));
      var out := RingStep(RingRun(cap, earlier + init).view, cap, last).out;
      assert (batch + Popped(cap, earlier, init)) + out == batch + (Popped(cap, earlier, init) + out);
    }
  }

  lemma {:induction false} LogIsNumbered(cap: nat, ops: seq<Op>)
    requires cap > 0
    ensures Numbered(RingRun(cap, ops).view.log)
  {
    FeedsAgree(cap, ops);
  }

  /** A pop that returned something starts an unbroken batch and leaves the cursor
      behind it, not overtaken. */
  lemma {:induction false} FirstPop(cap: nat, history: seq<Op>, room: nat)
    requires cap > 0 && Popped(cap, history, [Pop(room)]) != []
    ensures var batch, r := Popped(cap, history, [Pop(room)]), RingRun(cap, history + [Pop(room)]).view;
            Unbroken(batch) && EndsAt(batch, r.cursor.next) && Front(r, cap) == r.cursor.next
  {
    var r := RingRun(cap, history).view;
    var op := Pop(room);
    OnePop(cap, history, op);
    RunOneMore(cap, history, op);
    LogIsNumbered(cap, history);
    hide RingRun;
    hide Popped;
    hide Unbroken;
    hide EndsAt;
    hide Front;
    hide Numbered;
    var lo, hi := PopIsSlice(cap, r, op);
    PopNotOvertaken(cap, r, op);
    hide RingStep;
    SliceUnbroken(r.log, lo, hi);
  }

  lemma {:induction false} SliceUnbroken(log: seq<Words>, lo: nat, hi: nat)
    requires Numbered(log) && lo < hi <= |log|
    ensures Unbroken(log[lo..hi]) && EndsAt(log[lo..hi], hi)
  {
    var batch := log[lo..hi];
    forall i | 0 <= i < |batch| ensures batch[i][0] == lo + i { assert batch[i] == log[lo + i]; }
  }

  lemma {:induction false} PopNotOvertaken(cap: nat, r: RingView, op: Op)
    requires cap > 0 && r.cursor.next <= |r.log| && RingStep(r, cap, op).out != []
    ensures Front(RingStep(r, cap, op).view, cap) == RingStep(r, cap, op).view.cursor.next
  {}

  lemma {:induction false} OnePop(cap: nat, history: seq<Op>, op: Op)
    ensures Popped(cap, history, [op]) == RingStep(RingRun(cap, history).view, cap, op).out
  {
    hide RingStep;
    hide RingRun;
    assert [op][..0] == [] && history + [] == history;
    assert Popped(cap, history, [op]) == [] + RingStep(RingRun(cap, history).view, cap, op).out;
  }

  lemma {:induction false} UnbrokenFrames(ws: seq<Words>)
    requires AllBus(ws)
    ensures Unbroken(ws) <==> Contiguous(FramesOfWords(ws))
  {
    var fs := FramesOfWords(ws);
    forall i | 0 <= i < |ws| ensures fs[i].seqNo == ws[i][0] { assert fs[i] == WordsFrame(ws[i]); }
  }

  lemma {:induction false} CoalescedIsAll(pops: seq<seq<Frame>>, room: nat)
    requires PopsFit(pops, room) && AllFilled(pops)
    ensures Coalesced(pops, true, room) == Concat(pops)
    decreases |pops|
  {
    hide Concat;
    if pops == [] {
      ConcatOne([]);
    } else {
      var first, rest := pops[0], pops[1..];
      assert pops == [first] + rest;
      ConcatAppend([first], rest);
      ConcatOne(first);
      CoalescedStart(pops, true, room);
      if |first| < room {
        CoalescedIsAll(rest, room - |first|);
      } else {
        NoRoomNoPops(rest);
        ConcatOne([]);
        assert first + [] == first;
      }
    }
  }

  lemma {:induction false} NoRoomNoPops(pops: seq<seq<Frame>>)
    requires PopsFit(pops, 0) && AllFilled(pops)
    ensures pops == []
  {}

  /** What a pass with linger puts into a batch: a first pop that returned something,
      and the pops joined to it while pushes went on. The batch handed to `note_gap`
      is contiguous exactly when the feed lost nothing after the first pop - by
      the ring cursor's missed count and, while the cursor is not overtaken again,
      by the queue's drop count just as well. */
  lemma {:induction false} JoinedBatchHasHoleIffFeedLost(
    cap: nat, history: seq<Op>, room: nat, later: seq<Op>, pops: seq<seq<Frame>>, limit: nat)
    requires cap > 0 && Popped(cap, history, [Pop(room)]) != []
    requires var ws := Popped(cap, history, [Pop(room)]) + Popped(cap, history + [Pop(room)], later);
             AllBus(ws) && Concat(pops) == FramesOfWords(ws)
    requires PopsFit(pops, limit) && AllFilled(pops)
    ensures var first := history + [Pop(room)];
            var r0, r1 := RingRun(cap, first).view, RingRun(cap, first + later).view;
            && (Contiguous(Coalesced(pops, true, limit)) <==> r1.cursor.missed == r0.cursor.missed)
            && (Front(r1, cap) == r1.cursor.next ==>
                  (Contiguous(Coalesced(pops, true, limit)) <==>
                   QueueRun(cap, first + later).view.dropped == QueueRun(cap, first).view.dropped))
  {
    var first := history + [Pop(room)];
    FirstPop(cap, history, room);
    JoinedIffNothingMissed(cap, first, later, Popped(cap, history, [Pop(room)]));
    hide Popped;
    hide RingRun;
    hide QueueRun;
    UnbrokenFrames(Popped(cap, history, [Pop(room)]) + Popped(cap, first, later));
    CoalescedIsAll(pops, limit);
    FeedsAgree(cap, first);
    FeedsAgree(cap, first + later);
    hide Numbered;
    hide AllBus;
    hide Contiguous;
    hide Unbroken;
    hide Coalesced;
    hide Concat;
    hide PopsFit;
    hide FramesOfWords;
  }

  // ---------------------------------------------------------------------
  // A lingering history with a hole

  function Image(n: u64): Words { FrameWords(BusFrame(n)) }

  lemma {:induction false} StampOfImage(n: u64)
    ensures Stamp(Image(0), n) == Image(n)
  {
    hide LoadLe;
    hide StoreLe;
  }

  lemma {:induction false} QueueOneMore(cap: nat, ops: seq<Op>, op: Op)
    ensures var before := QueueRun(cap, ops);
            var step := QueueStep(before.view, cap, op);
            QueueRun(cap, ops + [op]) == Ran(step.view, before.outs + [step.out])
  {
    hide QueueStep;
    assert (ops + [op])[..|ops|] == ops;
  }

  /** Three frames pushed onto an empty queue of two, popped at once. */
  lemma {:induction false} PushThreePopTwo(q: QueueView)
    requires q.contents == [] && q.pushed == 1
    ensures var pushed := QueueStep(q, 2, Push([Image(0), Image(0), Image(0)]));
            var popped := QueueStep(pushed.view, 2, Pop(2));
            pushed.out == [] && popped.out == [Image(2), Image(3)] && popped.view.dropped == q.dropped + 1
  {
    ThreeStamped();
    hide Image;
    hide StampAll;
    hide Newest;
    var more := StampAll([Image(0), Image(0), Image(0)], 1);
    assert [] + more == more;
    NewestTwo(Image(1), Image(2), Image(3));
  }

  lemma {:induction false} ThreeStamped()
    ensures StampAll([Image(0), Image(0), Image(0)], 1) == [Image(1), Image(2), Image(3)]
  {
    StampOfImage(1);
    StampOfImage(2);
    StampOfImage(3);
    hide Image;
    hide Stamp;
  }

  lemma {:induction false} NewestTwo(a: Words, b: Words, c: Words)
    ensures Newest([a, b, c], 2) == [b, c] && [b, c][..2] == [b, c]
  {}

  lemma {:induction false} PushOnePopOne(q: QueueView)
    requires q == QueueView([], 0, 0, 0)
    ensures var pushed := QueueStep(q, 2, Push([Image(0)]));
            var popped := QueueStep(pushed.view, 2, Pop(1));
            pushed.out == [] && popped.out == [Image(0)] && popped.view == QueueView([], 1, 1, 0)
  {
    var more := StampAll([Image(0)], 0);
    StampOfImage(0);
    hide Image;
    hide Stamp;
    assert [] + more == [Image(0)];
  }

  /** A pop, three pushes that overflow the queue, a pop. */
  const OVERFLOW: seq<Op> := [Push([Image(0)])] + [Pop(1)] + [Push([Image(0), Image(0), Image(0)])] + [Pop(2)]

  lemma {:induction false} OverflowRun()
    ensures QueueRun(2, OVERFLOW).outs == [[], [Image(0)], [], [Image(2), Image(3)]]
    ensures QueueRun(2, OVERFLOW).view.dropped == 1
  {
    var a: seq<Op> := [Push([Image(0)])];
    var b := a + [Pop(1)];
    var c := b + [Push([Image(0), Image(0), Image(0)])];
    assert [] + a == a;
    QueueOneMore(2, [], a[0]);
    QueueOneMore(2, a, Pop(1));
    QueueOneMore(2, b, Push([Image(0), Image(0), Image(0)]));
    QueueOneMore(2, c, Pop(2));
    assert QueueRun(2, []) == Ran(QueueView([], 0, 0, 0), []);
    hide QueueRun;
    PushOnePopOne(QueueRun(2, []).view);
    PushThreePopTwo(QueueRun(2, b).view);
    hide QueueStep;
    hide Image;
  }

  lemma {:induction false} JoinedTwo()
    ensures var pops := [[BusFrame(0)], [BusFrame(2), BusFrame(3)]];
            PopsFit(pops, 3) && Coalesced(pops, true, 3) == [BusFrame(0), BusFrame(2), BusFrame(3)]
  {
    var pops := [[BusFrame(0)], [BusFrame(2), BusFrame(3)]];
    var rest := pops[1..];
    assert rest == [[BusFrame(2), BusFrame(3)]] && rest[1..] == [];
    assert PopsFit([], 0);
    assert PopsFit(rest, 2);
    CoalescedStart(rest, true, 2);
    CoalescedStart(pops, true, 3);
  }

  /** A queue of two, a consumer that lingers: frame 0 is popped, three more frames
      push frame 1 out, and the next pop joins frames 2 and 3 to the batch. The
      consumer sees a silent jump and no marker, and no reader was ever lapped. */
  lemma {:induction false} LingeringMakesAHole() returns (pops: seq<seq<Frame>>)
    ensures QueueRun(2, OVERFLOW).outs == [[], [Image(0)], [], [Image(2), Image(3)]]
    ensures pops == [[BusFrame(0)], [BusFrame(2), BusFrame(3)]] && PopsFit(pops, 3)
    ensures var rounds := [Round(Coalesced(pops, true, 3), 0, [])];
            && Orderly(FIRST_CONNECTION, rounds)
            && (var books := ObservedAll(EMPTY, Records(FIRST_CONNECTION, rounds));
                books.silentJumps > 0 && books.markers == 0)
  {
    pops := [[BusFrame(0)], [BusFrame(2), BusFrame(3)]];
    OverflowRun();
    JoinedTwo();
    hide QueueRun;
    hide PopsFit;
    hide Coalesced;
    hide ObservedAll;
    hide Records;
    hide Orderly;
    var r := Round([BusFrame(0), BusFrame(2), BusFrame(3)], 0, []);
    OneRound(r);
    HoleIsSilent(r);
  }

  lemma {:induction false} OneRound(r: Round)
    requires r == Round([BusFrame(0), BusFrame(2), BusFrame(3)], 0, [])
    ensures Orderly(FIRST_CONNECTION, [r])
  {
    assert [r][1..] == [];
  }

  lemma {:induction false} HoleIsSilent(r: Round)
    requires Orderly(FIRST_CONNECTION, [r]) && |r.batch| == 3 && r.batch[1].seqNo == r.batch[0].seqNo + 2
    ensures var books := ObservedAll(EMPTY, Records(FIRST_CONNECTION, [r])); books.silentJumps > 0 && books.markers == 0
  {
    hide ObservedAll;
    assert !Contiguous(r.batch);
    assert !AllContiguous([r]) by { assert [r][0] == r; }
    SilentLossIffBatchHasHole(FIRST_CONNECTION, EMPTY, [r]);
    BooksAfterRound(FIRST_CONNECTION, EMPTY, r);
    assert [r][1..] == [];
    var records := RoundRecords(FIRST_CONNECTION, r);
    assert Records(FIRST_CONNECTION, [r]) == records + [] == records;
    assert Marker(FIRST_CONNECTION, r.batch, r.now) == [];
  }
}
