/** What the monitor's reading of its history means, in terms of the frames, markers
    and resets in it. */
module CadenceLaws {
  import opened Wire
  import opened Cadence

  /** Places `i` and `j` hold neighbouring frames of `id`. */
  ghost predicate Neighbours(h: seq<Event>, id: u32, i: nat, j: nat) {
    && i < j < |h| && FrameOf(h[i], id) && FrameOf(h[j], id)
    && forall k | i < k < j :: !FrameOf(h[k], id)
  }

  /** Nothing but frames, or in a monitor that ignores gaps also markers, lies between. */
  ghost predicate Undisturbed(cfg: Config, h: seq<Event>, i: nat, j: nat)
    requires j <= |h|
  {
    forall k | i < k < j :: h[k].Record? && (cfg.gapAware ==> !IsGap(h[k].f))
  }

  /** Time from one frame to another, none if the clock went back. */
  function Elapsed(a: Frame, b: Frame): nat { if b.tIngest > a.tIngest then b.tIngest - a.tIngest else 0 }

  // ---------------------------------------------------------------------
  // When a frame is late

  /** Place `j` holds the latest frame of `id`. */
  ghost predicate Latest(h: seq<Event>, id: u32, j: nat) {
    j < |h| && FrameOf(h[j], id) && forall k | j < k < |h| :: !FrameOf(h[k], id)
  }

  lemma {:induction false} LatestIsLast(h: seq<Event>, id: u32, j: nat)
    ensures Latest(h, id, j) <==> LastOf(h, id) == j
  {}

  /** More time than expected passed from the frame at place `j` to `f`, undisturbed. */
  ghost predicate Overdue(cfg: Config, h: seq<Event>, f: Frame, j: nat, median: int) {
    && Latest(h, f.canId, j) && Undisturbed(cfg, h, j, |h|)
    && (f.tIngest - h[j].f.tIngest) as real > cfg.factor * median as real
  }

  /** A frame is late exactly if a frame of its id came before it, nothing disturbed
      the time since, enough clean intervals are known, and the time since exceeds
      the factor times the median of the first ones. */
  lemma {:induction false} LateMeans(cfg: Config, h: seq<Event>, f: Frame)
    requires cfg.calibrate > 0 && cfg.factor >= 0.0
    ensures Late(cfg, h, f) <==>
            && |CleanIntervals(cfg, h, f.canId)| >= cfg.calibrate
            && exists j: nat :: Overdue(cfg, h, f, j, Median(CleanIntervals(cfg, h, f.canId)[..cfg.calibrate]))
  {
    LateIsBeyondFactor(cfg, h, f);
    hide CleanIntervals;
    hide Late;
    hide Clean;
    hide Overdue;
    if |CleanIntervals(cfg, h, f.canId)| >= cfg.calibrate {
      var median := Median(CleanIntervals(cfg, h, f.canId)[..cfg.calibrate]);
      MedianIsNat(CleanIntervals(cfg, h, f.canId)[..cfg.calibrate]);
      hide Median;
      forall j: nat ensures Overdue(cfg, h, f, j, median) <==>
                            && LastOf(h, f.canId) == j && Clean(cfg, h, f)
                            && Interval(h, f) as real > cfg.factor * median as real
      {
        OverdueAt(cfg, h, f, j, median);
      }
      CleanFollows(cfg, h, f);
      if Late(cfg, h, f) {
        var j: nat := LastOf(h, f.canId);
        assert Overdue(cfg, h, f, j, median);
      }
      if j: nat :| Overdue(cfg, h, f, j, median) {
        assert Late(cfg, h, f);
      }
    }
  }

  lemma {:induction false} CleanFollows(cfg: Config, h: seq<Event>, f: Frame)
    ensures Clean(cfg, h, f) ==> LastOf(h, f.canId) >= 0
  {}

  lemma {:induction false} OverdueAt(cfg: Config, h: seq<Event>, f: Frame, j: nat, median: int)
    requires cfg.factor >= 0.0 && median >= 0
    ensures Clean(cfg, h, f) ==> HasPrevious(h, f)
    ensures Overdue(cfg, h, f, j, median) <==>
            LastOf(h, f.canId) == j && Clean(cfg, h, f) && Interval(h, f) as real > cfg.factor * median as real
  {
    LatestIsLast(h, f.canId, j);
    Product(cfg.factor, median as real);
    if LastOf(h, f.canId) == j { UndisturbedIsUnbroken(cfg, h, j); }
    hide Undisturbed;
    hide Unbroken;
    hide LastOf;
  }

  lemma {:induction false} MedianIsNat(s: seq<nat>)
    requires s != []
    ensures Median(s) >= 0
  {}

  lemma {:induction false} Product(x: real, y: real)
    requires x >= 0.0 && y >= 0.0
    ensures x * y >= 0.0
  {}

  lemma {:induction false} UndisturbedIsUnbroken(cfg: Config, h: seq<Event>, j: nat)
    requires j < |h|
    ensures Undisturbed(cfg, h, j, |h|) <==> Unbroken(cfg, h, j)
  {
    forall k | j < k < |h| ensures Discontinuity(cfg, h[k]) <==> !(h[k].Record? && (cfg.gapAware ==> !IsGap(h[k].f))) {}
  }

  // ---------------------------------------------------------------------
  // What is counted

  /** Every frame of an id but its first ends either a clean interval or one that
      straddles a discontinuity. */
  lemma {:induction false} EveryIntervalCounted(cfg: Config, h: seq<Event>, id: u32)
    ensures FrameCount(h, id) ==
            |CleanIntervals(cfg, h, id)| + StraddleCount(cfg, h, id) + if LastOf(h, id) >= 0 then 1 else 0
  {
    if h != [] {
      hide Interval;
      EveryIntervalCounted(cfg, h[..|h| - 1], id);
    }
  }

  /** Every clean interval is the time between two neighbouring frames with nothing
      disturbing in between. */
  lemma {:induction false} CleanIntervalIs(cfg: Config, h: seq<Event>, id: u32, n: nat) returns (i: nat, j: nat)
    requires n < |CleanIntervals(cfg, h, id)|
    ensures Neighbours(h, id, i, j) && Undisturbed(cfg, h, i, j)
    ensures CleanIntervals(cfg, h, id)[n] == Elapsed(h[i].f, h[j].f)
  {
    var init, last := h[..|h| - 1], h[|h| - 1];
    if n < |CleanIntervals(cfg, init, id)| {
      i, j := CleanIntervalIs(cfg, init, id, n);
      forall k | 0 <= k < |init| ensures h[k] == init[k] {}
    } else {
      i, j := LastOf(init, id), |h| - 1;
      UndisturbedIsUnbroken(cfg, init, i);
      forall k | 0 <= k < |init| ensures h[k] == init[k] {}
    }
  }

  /** The frame at place `j` came late, after `d`. */
  ghost predicate LateBy(cfg: Config, h: seq<Event>, id: u32, j: nat, d: nat)
    requires cfg.calibrate > 0
  {
    j < |h| && FrameOf(h[j], id) && Late(cfg, h[..j], h[j].f) && Interval(h[..j], h[j].f) == d
  }

  lemma {:induction false} LateBySnoc(cfg: Config, init: seq<Event>, e: Event, id: u32, j: nat, d: nat)
    requires cfg.calibrate > 0
    ensures j < |init| ==> (LateBy(cfg, init + [e], id, j, d) <==> LateBy(cfg, init, id, j, d))
    ensures LateBy(cfg, init + [e], id, |init|, d) <==>
            FrameOf(e, id) && Late(cfg, init, e.f) && Interval(init, e.f) == d
  {
    hide Interval;
    hide CleanIntervals;
    var h := init + [e];
    assert h[..|init|] == init && h[|init|] == e;
    if j < |init| { assert h[..j] == init[..j] && h[j] == init[j]; }
  }

  /** The worst figure is the longest late interval, or 0 if there is none. */
  lemma {:induction false} WorstIsLongest(cfg: Config, h: seq<Event>, id: u32)
    requires cfg.calibrate > 0
    ensures forall j: nat, d: nat | LateBy(cfg, h, id, j, d) :: d <= Worst(cfg, h, id)
    ensures Worst(cfg, h, id) != 0 ==> exists j: nat :: LateBy(cfg, h, id, j, Worst(cfg, h, id))
  {
    if h != [] {
      var init, last := h[..|h| - 1], h[|h| - 1];
      WorstIsLongest(cfg, init, id);
      assert init + [last] == h;
      var w, v := Worst(cfg, init, id), Worst(cfg, h, id);
      var late := FrameOf(last, id) && Late(cfg, init, last.f);
      assert v == if late && Interval(init, last.f) > w then Interval(init, last.f) else w;
      forall j: nat, d: nat | LateBy(cfg, h, id, j, d) ensures d <= v { LateBySnoc(cfg, init, last, id, j, d); }
      hide Late;
      hide LateBy;
      hide Worst;
      LateBySnoc(cfg, init, last, id, |init|, v);
      if v != 0 && v == w {
        var j: nat :| LateBy(cfg, init, id, j, w);
        LateByPlace(cfg, init, id, j, w);
        LateBySnoc(cfg, init, last, id, j, w);
      }
    }
  }

  lemma {:induction false} LateByPlace(cfg: Config, h: seq<Event>, id: u32, j: nat, d: nat)
    requires cfg.calibrate > 0 && LateBy(cfg, h, id, j, d)
    ensures j < |h|
  {}

  /** The places of the late frames of `id`. */
  ghost function LatePlaces(cfg: Config, h: seq<Event>, id: u32): set<nat>
    requires cfg.calibrate > 0
  {
    set j: nat | j < |h| && FrameOf(h[j], id) && Late(cfg, h[..j], h[j].f)
  }

  /** The late figure is how many frames of the id came late. */
  lemma {:induction false} LateCountIs(cfg: Config, h: seq<Event>, id: u32)
    requires cfg.calibrate > 0
    ensures LateCount(cfg, h, id) == |LatePlaces(cfg, h, id)|
  {
    hide Late;
    if h == [] {
      assert LatePlaces(cfg, h, id) == {};
    } else {
      var init, last := h[..|h| - 1], h[|h| - 1];
      LateCountIs(cfg, init, id);
      assert init + [last] == h;
      PlacesSnoc(cfg, init, last, id);
      hide LatePlaces;
    }
  }

  lemma {:induction false} PlacesSnoc(cfg: Config, init: seq<Event>, e: Event, id: u32)
    requires cfg.calibrate > 0
    ensures |init| !in LatePlaces(cfg, init, id)
    ensures LatePlaces(cfg, init + [e], id) ==
            LatePlaces(cfg, init, id) + if FrameOf(e, id) && Late(cfg, init, e.f) then {|init|} else {}
  {
    hide Late;
    var h := init + [e];
    var here: set<nat> := if FrameOf(e, id) && Late(cfg, init, e.f) then {|init|} else {};
    assert h[..|init|] == init && h[|init|] == e;
    forall j: nat ensures j in LatePlaces(cfg, h, id) <==> j in LatePlaces(cfg, init, id) + here {
      if j < |init| { assert h[j] == init[j] && h[..j] == init[..j]; }
    }
  }

  // ---------------------------------------------------------------------
  // What a reset and a marker do

  /** After a reset the next frame of an id seen before is unmeasurable: never late,
      always suppressed. */
  lemma {:induction false} ResetSuppresses(cfg: Config, h: seq<Event>, f: Frame)
    requires cfg.calibrate > 0 && HasPrevious(h, f)
    ensures Straddles(cfg, h + [Restart], f) && !Late(cfg, h + [Restart], f)
  {
    assert (h + [Restart])[..|h|] == h && (h + [Restart])[|h|] == Restart;
  }

  /** A marker does the same in a monitor that knows about gaps, and nothing at all in
      one that does not. */
  lemma {:induction false} MarkerSuppresses(cfg: Config, h: seq<Event>, g: Frame, f: Frame)
    requires cfg.calibrate > 0 && IsGap(g) && HasPrevious(h, f)
    ensures cfg.gapAware ==> Straddles(cfg, h + [Record(g)], f) && !Late(cfg, h + [Record(g)], f)
    ensures !cfg.gapAware ==> (Late(cfg, h + [Record(g)], f) <==> Late(cfg, h, f))
    ensures !cfg.gapAware ==> (Straddles(cfg, h + [Record(g)], f) <==> Straddles(cfg, h, f))
  {
    var all := h + [Record(g)];
    assert all[..|h|] == h && all[|h|] == Record(g);
    OtherEvent(cfg, h, Record(g), f.canId);
    UnbrokenSnoc(cfg, h, Record(g), LastOf(h, f.canId));
    assert CleanIntervals(cfg, all, f.canId) == CleanIntervals(cfg, h, f.canId) + [];
    assert all[LastOf(h, f.canId)] == h[LastOf(h, f.canId)];
  }
}
