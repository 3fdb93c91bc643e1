/** Consumer-side loss accounting. */
module GapTracker {
  import opened Wire

  datatype Books = Books(
    frames: nat, markers: nat, reportedLost: nat, silentJumps: nat, silentLost: nat,
    overrunMarkers: nat, ingestMarkers: nat, absentMarkers: nat, absentFrames: nat, echoes: nat,
    next: nat, have: bool)

  const EMPTY: Books := Books(0, 0, 0, 0, 0, 0, 0, 0, 0, 0, 0, false)

  /** The books after one more record. */
  function Observed(b: Books, f: Frame): Books {
    if IsEcho(f) then b.(echoes := b.echoes + 1)
    else if IsGap(f) then
      var n := GapCount(f);
      var counted :=
        if f.srcId == CONSUMER_ABSENT then b.(absentMarkers := b.absentMarkers + 1, absentFrames := b.absentFrames + n)
        else if f.srcId == INGEST_LOSS then b.(ingestMarkers := b.ingestMarkers + 1, reportedLost := b.reportedLost + n)
        else b.(overrunMarkers := b.overrunMarkers + 1, reportedLost := b.reportedLost + n);
      counted.(markers := b.markers + 1, next := f.seqNo + n, have := true)
    else
      var jumped := b.have && f.seqNo > b.next;
      b.(silentJumps := b.silentJumps + if jumped then 1 else 0,
         silentLost := b.silentLost + if jumped then f.seqNo - b.next else 0,
         next := f.seqNo + 1, have := true, frames := b.frames + 1)
  }

  function ObservedAll(b: Books, fs: seq<Frame>): Books
    decreases |fs|
  {
    if fs == [] then b else ObservedAll(Observed(b, fs[0]), fs[1..])
  }

  function TotalLoss(b: Books): nat { b.reportedLost + b.silentLost }

  lemma {:induction false} ObservedConcat(b: Books, fs: seq<Frame>, gs: seq<Frame>)
    ensures ObservedAll(b, fs + gs) == ObservedAll(ObservedAll(b, fs), gs)
    decreases |fs|
  {
    if fs == [] {
      assert fs + gs == gs;
    } else {
      assert (fs + gs)[1..] == fs[1..] + gs;
      ObservedConcat(Observed(b, fs[0]), fs[1..], gs);
    }
  }

  class Tracker {
    var frames: nat
    var markers: nat
    var reportedLost: nat
    var silentJumps: nat
    var silentLost: nat
    var overrunMarkers: nat
    var ingestMarkers: nat
    var absentMarkers: nat
    var absentFrames: nat
    var echoes: nat
    var next: nat
    var have: bool

    ghost function Value(): Books
      reads this
    {
      Books(frames, markers, reportedLost, silentJumps, silentLost,
            overrunMarkers, ingestMarkers, absentMarkers, absentFrames, echoes, next, have)
    }

    constructor ()
      ensures Value() == EMPTY
    {
      frames, markers, reportedLost, silentJumps, silentLost := 0, 0, 0, 0, 0;
      overrunMarkers, ingestMarkers, absentMarkers, absentFrames, echoes := 0, 0, 0, 0, 0;
      next, have := 0, false;
    }

    method Observe(f: Frame) returns (isFrame: bool)
      modifies this
      ensures Value() == Observed(old(Value()), f)
      ensures isFrame == !IsControl(f)
    {
      hide IsEcho;
      hide IsGap;
      hide GapCount;
      if IsEcho(f) {
        echoes := echoes + 1;
        return false;
      }
      if IsGap(f) {
        ObserveGap(f);
        return false;
      }
      if have && f.seqNo > next {
        silentJumps, silentLost := silentJumps + 1, silentLost + (f.seqNo - next);
      }
      next, have, frames := f.seqNo + 1, true, frames + 1;
      return true;
    }

    method ObserveGap(f: Frame)
      requires IsGap(f) && !IsEcho(f)
      modifies `markers, `absentMarkers, `absentFrames, `ingestMarkers, `overrunMarkers, `reportedLost, `next, `have
      ensures Value() == Observed(old(Value()), f)
    {
      hide IsEcho;
      hide IsGap;
      hide GapCount;
      var n := GapCount(f);
      markers := markers + 1;
      if f.srcId == CONSUMER_ABSENT {
        absentMarkers, absentFrames := absentMarkers + 1, absentFrames + n;
      } else if f.srcId == INGEST_LOSS {
        ingestMarkers, reportedLost := ingestMarkers + 1, reportedLost + n;
      } else {
        overrunMarkers, reportedLost := overrunMarkers + 1, reportedLost + n;
      }
      next, have := f.seqNo + n, true;
    }

    /** A consumer feeding a whole batch, as every consumer's read loop does. */
    method ObserveBatch(fs: seq<Frame>)
      modifies this
      ensures Value() == ObservedAll(old(Value()), fs)
    {
      ghost var start := Value();
      assert fs[..0] == [];
      for i := 0 to |fs|
        invariant Value() == ObservedAll(start, fs[..i])
      {
        assert fs[..i + 1] == fs[..i] + [fs[i]];
        ObservedConcat(start, fs[..i], [fs[i]]);
        assert [fs[i]][1..] == [];
        var _ := Observe(fs[i]);
      }
      assert fs[..|fs|] == fs;
    }

    method Reset()
      modifies `have
      ensures Value() == old(Value()).(have := false)
    {
      have := false;
    }

    method TotalLost() returns (n: nat)
      ensures n == TotalLoss(Value())
    {
      n := reportedLost + silentLost;
    }
  }
}
