/** The cadence monitor against a declarative reading of its whole history. */
module Cadence {
  import opened Wire
  import opened Sorting

  /** `observe` was called with a record, or `reset_all` was called. */
  datatype Event = Record(f: Frame) | Restart

  datatype Config = Config(calibrate: nat, factor: real, gapAware: bool)

  // ---------------------------------------------------------------------
  // What the history says

  predicate FrameOf(e: Event, id: u32) { e.Record? && !IsGap(e.f) && e.f.canId == id }

  /** After one of these, the next interval of every id is unmeasurable. */
  predicate Discontinuity(cfg: Config, e: Event) {
    e.Restart? || (cfg.gapAware && e.Record? && IsGap(e.f))
  }

  /** The place of the latest frame of `id`, or -1. */
  function LastOf(h: seq<Event>, id: u32): (j: int)
    ensures -1 <= j < |h|
    ensures j >= 0 ==> FrameOf(h[j], id)
    ensures forall k | j < k < |h| :: !FrameOf(h[k], id)
  {
    if h == [] then -1
    else if FrameOf(h[|h| - 1], id) then |h| - 1
    else LastOf(h[..|h| - 1], id)
  }

  /** Nothing discontinuous happened after place `j`. */
  predicate Unbroken(cfg: Config, h: seq<Event>, j: int)
    requires -1 <= j
  {
    forall k | j < k < |h| :: !Discontinuity(cfg, h[k])
  }

  /** Frame `f` arriving after `h` has a previous frame of its id ... */
  predicate HasPrevious(h: seq<Event>, f: Frame) { LastOf(h, f.canId) >= 0 }

  /** ... with nothing discontinuous in between, */
  predicate Clean(cfg: Config, h: seq<Event>, f: Frame) {
    HasPrevious(h, f) && Unbroken(cfg, h, LastOf(h, f.canId))
  }

  /** ... or with a discontinuity in between. */
  predicate Straddles(cfg: Config, h: seq<Event>, f: Frame) {
    HasPrevious(h, f) && !Unbroken(cfg, h, LastOf(h, f.canId))
  }

  function Interval(h: seq<Event>, f: Frame): nat
    requires HasPrevious(h, f)
  {
    var last := h[LastOf(h, f.canId)].f.tIngest;
    if f.tIngest > last then f.tIngest - last else 0
  }

  /** The clean intervals of `id`, in order. */
  function CleanIntervals(cfg: Config, h: seq<Event>, id: u32): seq<nat> {
    if h == [] then []
    else
      var init, last := h[..|h| - 1], h[|h| - 1];
      CleanIntervals(cfg, init, id) +
      if FrameOf(last, id) && Clean(cfg, init, last.f) then [Interval(init, last.f)] else []
  }

  function Median(s: seq<nat>): (m: int)
    requires s != []
    ensures m in s
  {
    RankOf(s, |s| / 2);
    Sorted(s)[|s| / 2]
  }

  /** The longest interval that is still on time, once calibrated. */
  function Limit(cfg: Config, median: int): int { (cfg.factor * median as real).Floor }

  /** The frame is late: its interval is clean, enough clean intervals came
      before it, and it exceeds the factor times the median of the first ones. */
  predicate Late(cfg: Config, h: seq<Event>, f: Frame)
    requires cfg.calibrate > 0
  {
    && Clean(cfg, h, f)
    && |CleanIntervals(cfg, h, f.canId)| >= cfg.calibrate
    && Interval(h, f) > Limit(cfg, Median(CleanIntervals(cfg, h, f.canId)[..cfg.calibrate]))
  }

  /** A whole number exceeds a real rounded down exactly if it exceeds the real. */
  lemma {:induction false} AboveFloor(n: int, x: real)
    ensures n > x.Floor <==> n as real > x
  {}

  /** Late, in plain terms: a clean interval, after enough others to know what to
      expect, that is longer than the factor times their median. */
  lemma {:induction false} LateIsBeyondFactor(cfg: Config, h: seq<Event>, f: Frame)
    requires cfg.calibrate > 0
    ensures Late(cfg, h, f) <==>
            && Clean(cfg, h, f)
            && |CleanIntervals(cfg, h, f.canId)| >= cfg.calibrate
            && Interval(h, f) as real > cfg.factor * Median(CleanIntervals(cfg, h, f.canId)[..cfg.calibrate]) as real
  {
    hide CleanIntervals;
    hide Median;
    hide Interval;
    hide Unbroken;
    if Clean(cfg, h, f) && |CleanIntervals(cfg, h, f.canId)| >= cfg.calibrate {
      AboveFloor(Interval(h, f), cfg.factor * Median(CleanIntervals(cfg, h, f.canId)[..cfg.calibrate]) as real);
    }
  }

  /** A larger factor never makes a frame late. */
  lemma {:induction false} LargerFactorFewerLate(a: Config, b: Config, median: nat, interval: nat)
    requires a.factor <= b.factor && interval > Limit(b, median)
    ensures interval > Limit(a, median)
  {
    var m := median as real;
    Scales(a.factor, b.factor, m);
    AboveFloor(interval, b.factor * m);
    AboveFloor(interval, a.factor * m);
  }

  lemma {:induction false} Scales(x: real, y: real, m: real)
    requires x <= y && m >= 0.0
    ensures x * m <= y * m
  {}

  function FrameCount(h: seq<Event>, id: u32): nat {
    if h == [] then 0 else FrameCount(h[..|h| - 1], id) + if FrameOf(h[|h| - 1], id) then 1 else 0
  }

  function LateCount(cfg: Config, h: seq<Event>, id: u32): nat
    requires cfg.calibrate > 0
  {
    if h == [] then 0
    else
      var init, last := h[..|h| - 1], h[|h| - 1];
      LateCount(cfg, init, id) + if FrameOf(last, id) && Late(cfg, init, last.f) then 1 else 0
  }

  function StraddleCount(cfg: Config, h: seq<Event>, id: u32): nat {
    if h == [] then 0
    else
      var init, last := h[..|h| - 1], h[|h| - 1];
      StraddleCount(cfg, init, id) + if FrameOf(last, id) && Straddles(cfg, init, last.f) then 1 else 0
  }

  function Worst(cfg: Config, h: seq<Event>, id: u32): nat
    requires cfg.calibrate > 0
  {
    if h == [] then 0
    else
      var init, last := h[..|h| - 1], h[|h| - 1];
      var w := Worst(cfg, init, id);
      if FrameOf(last, id) && Late(cfg, init, last.f) && Interval(init, last.f) > w then Interval(init, last.f) else w
  }

  // ---------------------------------------------------------------------
  // What the monitor keeps per id

  datatype IdState = IdState(
    lastNs: nat, resync: bool, samples: seq<nat>,
    frames: nat, expectedNs: int, anomalies: nat, suppressed: nat, worstNs: nat)

  /** The state of an id, from its last timestamp, whether a discontinuity
      followed, its clean intervals and its tallies. */
  function StateFrom(
    cfg: Config, lastNs: nat, broken: bool, clean: seq<nat>,
    frames: nat, late: nat, straddling: nat, worst: nat): IdState
    requires cfg.calibrate > 0
  {
    if |clean| < cfg.calibrate
    then IdState(lastNs, broken, clean, frames, 0, late, straddling, worst)
    else
      var first := clean[..cfg.calibrate];
      IdState(lastNs, broken, first, frames, Median(first), late, straddling, worst)
  }

  /** The state of `id` that the history calls for. */
  function View(cfg: Config, h: seq<Event>, id: u32): IdState
    requires cfg.calibrate > 0 && LastOf(h, id) >= 0
  {
    StateFrom(cfg, h[LastOf(h, id)].f.tIngest, !Unbroken(cfg, h, LastOf(h, id)), CleanIntervals(cfg, h, id),
              FrameCount(h, id), LateCount(cfg, h, id), StraddleCount(cfg, h, id), Worst(cfg, h, id))
  }

  lemma {:induction false} UnbrokenSnoc(cfg: Config, h: seq<Event>, e: Event, j: int)
    requires -1 <= j < |h|
    ensures Unbroken(cfg, h + [e], j) <==> Unbroken(cfg, h, j) && !Discontinuity(cfg, e)
  {
    var all := h + [e];
    if Unbroken(cfg, all, j) {
      assert !Discontinuity(cfg, all[|h|]);
      forall k | j < k < |h| ensures !Discontinuity(cfg, h[k]) { assert all[k] == h[k]; }
    }
  }

  /** Anything but a frame of `id` changes at most its resync mark. */
  lemma {:induction false} OtherEvent(cfg: Config, h: seq<Event>, e: Event, id: u32)
    requires cfg.calibrate > 0 && !FrameOf(e, id)
    ensures LastOf(h + [e], id) == LastOf(h, id)
    ensures LastOf(h, id) >= 0 ==>
              View(cfg, h + [e], id) ==
              var s := View(cfg, h, id); s.(resync := s.resync || Discontinuity(cfg, e))
  {
    assert (h + [e])[..|h|] == h;
    assert CleanIntervals(cfg, h, id) + [] == CleanIntervals(cfg, h, id);
    if LastOf(h, id) >= 0 { UnbrokenSnoc(cfg, h, e, LastOf(h, id)); }
  }

  /** The very first frame of an id: nothing was counted for it before. */
  lemma {:induction false} NothingBefore(cfg: Config, h: seq<Event>, id: u32)
    requires cfg.calibrate > 0 && LastOf(h, id) < 0
    ensures CleanIntervals(cfg, h, id) == [] && FrameCount(h, id) == 0
    ensures LateCount(cfg, h, id) == 0 && StraddleCount(cfg, h, id) == 0 && Worst(cfg, h, id) == 0
  {
    if h != [] { NothingBefore(cfg, h[..|h| - 1], id); }
  }

  /** One more frame, read off the definitions. */
  lemma {:induction false} FrameSnoc(cfg: Config, h: seq<Event>, f: Frame)
    requires cfg.calibrate > 0 && !IsGap(f)
    ensures var all, id := h + [Record(f)], f.canId;
            && LastOf(all, id) == |h| && Unbroken(cfg, all, |h|)
            && CleanIntervals(cfg, all, id) ==
               CleanIntervals(cfg, h, id) + (if Clean(cfg, h, f) then [Interval(h, f)] else [])
            && FrameCount(all, id) == FrameCount(h, id) + 1
            && LateCount(cfg, all, id) == LateCount(cfg, h, id) + (if Late(cfg, h, f) then 1 else 0)
            && StraddleCount(cfg, all, id) == StraddleCount(cfg, h, id) + (if Straddles(cfg, h, f) then 1 else 0)
            && Worst(cfg, all, id) ==
               (if Late(cfg, h, f) && Interval(h, f) > Worst(cfg, h, id) then Interval(h, f) else Worst(cfg, h, id))
  {
    hide Late;
    hide Clean;
    hide Straddles;
    hide Interval;
    var all := h + [Record(f)];
    assert all[..|h|] == h && all[|h|] == Record(f);
  }

  lemma {:induction false} FirstFrame(cfg: Config, h: seq<Event>, f: Frame)
    requires cfg.calibrate > 0 && !IsGap(f) && !HasPrevious(h, f)
    ensures !Late(cfg, h, f) && LastOf(h + [Record(f)], f.canId) == |h|
    ensures View(cfg, h + [Record(f)], f.canId) == IdState(f.tIngest, false, [], 1, 0, 0, 0, 0)
  {
    hide CleanIntervals;
    hide FrameCount;
    hide LateCount;
    hide StraddleCount;
    hide Worst;
    hide Unbroken;
    hide LastOf;
    FrameSnoc(cfg, h, f);
    NothingBefore(cfg, h, f.canId);
    assert (h + [Record(f)])[|h|] == Record(f);
  }

  /** What `observe` does to the state of an id it has seen before. */
  function NextState(cfg: Config, s: IdState, now: nat): IdState {
    var dt := if now > s.lastNs then now - s.lastNs else 0;
    var t := s.(frames := s.frames + 1, lastNs := now);
    if s.resync then t.(resync := false, suppressed := s.suppressed + 1)
    else if |s.samples| < cfg.calibrate then
      var samples := s.samples + [dt];
      t.(samples := samples, expectedNs := if |samples| == cfg.calibrate then Median(samples) else s.expectedNs)
    else if dt > Limit(cfg, s.expectedNs) then
      t.(anomalies := s.anomalies + 1, worstNs := if s.worstNs < dt then dt else s.worstNs)
    else t
  }

  function Flags(cfg: Config, s: IdState, now: nat): bool {
    && !s.resync && |s.samples| >= cfg.calibrate
    && (if now > s.lastNs then now - s.lastNs else 0) > Limit(cfg, s.expectedNs)
  }

  /** The incremental step on such a state. */
  lemma {:induction false} StateSteps(
    cfg: Config, lastNs: nat, broken: bool, clean: seq<nat>,
    frames: nat, late: nat, straddling: nat, worst: nat, now: nat)
    requires cfg.calibrate > 0
    ensures var s := StateFrom(cfg, lastNs, broken, clean, frames, late, straddling, worst);
            var dt := if now > lastNs then now - lastNs else 0;
            var flag := !broken && |clean| >= cfg.calibrate && dt > Limit(cfg, Median(clean[..cfg.calibrate]));
            && Flags(cfg, s, now) == flag
            && NextState(cfg, s, now) ==
               StateFrom(cfg, now, false, clean + (if broken then [] else [dt]), frames + 1,
                         late + (if flag then 1 else 0), straddling + (if broken then 1 else 0),
                         if flag && dt > worst then dt else worst)
  {
    hide Median;
    hide Limit;
    var dt := if now > lastNs then now - lastNs else 0;
    var more := clean + [dt];
    assert clean + [] == clean;
    if |clean| < cfg.calibrate {
      assert |more| == cfg.calibrate ==> more[..cfg.calibrate] == more;
    } else {
      assert more[..cfg.calibrate] == clean[..cfg.calibrate];
    }
  }

  lemma {:induction false} FrameFacts(cfg: Config, h: seq<Event>, f: Frame)
    requires cfg.calibrate > 0 && HasPrevious(h, f)
    ensures var last, clean := h[LastOf(h, f.canId)].f.tIngest, CleanIntervals(cfg, h, f.canId);
            var unbroken := Unbroken(cfg, h, LastOf(h, f.canId));
            && Clean(cfg, h, f) == unbroken && Straddles(cfg, h, f) == !unbroken
            && Interval(h, f) == (if f.tIngest > last then f.tIngest - last else 0)
            && Late(cfg, h, f) ==
               (&& unbroken && |clean| >= cfg.calibrate
                && Interval(h, f) > Limit(cfg, Median(clean[..cfg.calibrate])))
  {
    hide CleanIntervals;
    hide Median;
    hide Limit;
  }

  /** A further frame of an id: the incremental step is the declarative one. */
  lemma {:induction false} FurtherFrame(cfg: Config, h: seq<Event>, f: Frame)
    requires cfg.calibrate > 0 && !IsGap(f) && HasPrevious(h, f)
    ensures LastOf(h + [Record(f)], f.canId) == |h|
    ensures View(cfg, h + [Record(f)], f.canId) == NextState(cfg, View(cfg, h, f.canId), f.tIngest)
    ensures Late(cfg, h, f) <==> Flags(cfg, View(cfg, h, f.canId), f.tIngest)
  {
    hide CleanIntervals;
    hide FrameCount;
    hide LateCount;
    hide StraddleCount;
    hide Worst;
    hide Unbroken;
    hide LastOf;
    hide Median;
    hide Limit;
    hide StateFrom;
    hide NextState;
    hide Flags;
    hide Clean;
    hide Straddles;
    hide Interval;
    hide Late;
    var id := f.canId;
    FrameFacts(cfg, h, f);
    FrameSnoc(cfg, h, f);
    assert (h + [Record(f)])[|h|] == Record(f);
    StateSteps(cfg, h[LastOf(h, id)].f.tIngest, !Unbroken(cfg, h, LastOf(h, id)), CleanIntervals(cfg, h, id),
               FrameCount(h, id), LateCount(cfg, h, id), StraddleCount(cfg, h, id), Worst(cfg, h, id), f.tIngest);
  }

  class Monitor {
    const cfg: Config
    var ids: map<u32, IdState>
    var frames: nat
    var anomalies: nat
    var suppressed: nat
    var markers: nat
    var reportedLost: nat
    ghost var history: seq<Event>

    /** Every id's state is what the whole history calls for. */
    ghost predicate Valid()
      reads this
    {
      && cfg.calibrate >= 2 && cfg.factor >= 1.0
      && (forall id: u32 :: id in ids <==> LastOf(history, id) >= 0)
      && (forall id: u32 | id in ids :: ids[id] == View(cfg, history, id))
    }

    constructor (calibration: nat, factor: real, gapAware: bool)
      ensures Valid() && history == []
      ensures cfg == Config(if calibration < 2 then 2 else calibration, if factor < 1.0 then 1.0 else factor, gapAware)
    {
      cfg := Config(if calibration < 2 then 2 else calibration, if factor < 1.0 then 1.0 else factor, gapAware);
      ids, frames, anomalies, suppressed, markers, reportedLost, history := map[], 0, 0, 0, 0, 0, [];
    }

    /** The loop over all ids in `observe` and `reset_all`. */
    method ResyncAll()
      modifies `ids
      ensures ids.Keys == old(ids).Keys
      ensures forall id | id in ids :: ids[id] == old(ids)[id].(resync := true)
    {
      var todo := ids.Keys;
      while todo != {}
        invariant ids.Keys == old(ids).Keys && todo <= ids.Keys
        invariant forall id | id in ids :: ids[id] == if id in todo then old(ids)[id] else old(ids)[id].(resync := true)
        decreases |todo|
      {
        var id :| id in todo;
        ids := ids[id := ids[id].(resync := true)];
        todo := todo - {id};
      }
    }

    /** `observe` flags a frame exactly when the history says it is late. */
    method Observe(f: Frame) returns (flagged: bool)
      requires Valid()
      modifies this
      ensures Valid() && history == old(history) + [Record(f)]
      ensures flagged <==> !IsGap(f) && Late(cfg, old(history), f)
      ensures frames == old(frames) + (if IsGap(f) then 0 else 1)
      ensures anomalies == old(anomalies) + (if flagged then 1 else 0)
      ensures suppressed == old(suppressed) + (if !IsGap(f) && Straddles(cfg, old(history), f) then 1 else 0)
      ensures markers == old(markers) + (if IsGap(f) then 1 else 0)
      ensures reportedLost == old(reportedLost) + (if IsGap(f) then GapCount(f) else 0)
    {
      hide View;
      hide Late;
      hide Straddles;
      hide LastOf;
      hide IsGap;
      hide GapCount;
      if IsGap(f) {
        ObserveGap(f);
        return false;
      }
      frames := frames + 1;
      if f.canId !in ids {
        ObserveFirst(f);
        return false;
      }
      flagged := ObserveFurther(f);
    }

    /** What a frame leaves untouched: every other id. */
    lemma {:induction false} OthersStay(f: Frame)
      requires Valid() && !IsGap(f)
      ensures forall id: u32 | id != f.canId :: LastOf(history + [Record(f)], id) == LastOf(history, id)
      ensures forall id: u32 | id in ids && id != f.canId ::
                View(cfg, history + [Record(f)], id) == View(cfg, history, id)
    {
      hide View;
      hide LastOf;
      forall id: u32 | id != f.canId
        ensures LastOf(history + [Record(f)], id) == LastOf(history, id)
        ensures id in ids ==> View(cfg, history + [Record(f)], id) == View(cfg, history, id)
      {
        OtherEvent(cfg, history, Record(f), id);
      }
    }

    /** The branch of `observe` for an id not seen before. */
    method ObserveFirst(f: Frame)
      requires Valid() && !IsGap(f) && f.canId !in ids
      modifies `ids, `history
      ensures Valid() && history == old(history) + [Record(f)]
      ensures !Late(cfg, old(history), f) && !Straddles(cfg, old(history), f)
    {
      OthersStay(f);
      FirstFrame(cfg, history, f);
      hide View;
      hide Late;
      hide LastOf;
      ids := ids[f.canId := IdState(f.tIngest, false, [], 1, 0, 0, 0, 0)];
      history := history + [Record(f)];
    }

    /** The branch of `observe` for an id seen before. */
    method ObserveFurther(f: Frame) returns (flagged: bool)
      requires Valid() && !IsGap(f) && f.canId in ids
      modifies `ids, `history, `anomalies, `suppressed
      ensures Valid() && history == old(history) + [Record(f)]
      ensures flagged <==> Late(cfg, old(history), f)
      ensures anomalies == old(anomalies) + (if flagged then 1 else 0)
      ensures suppressed == old(suppressed) + (if Straddles(cfg, old(history), f) then 1 else 0)
    {
      hide View;
      hide Late;
      hide LastOf;
      hide NextState;
      hide Flags;
      hide Straddles;
      OthersStay(f);
      FurtherFrame(cfg, history, f);
      ResyncMeansStraddle(cfg, history, f);
      flagged := Advance(f.canId, f.tIngest);
      history := history + [Record(f)];
    }

    /** The marker branch of `observe`. */
    method ObserveGap(f: Frame)
      requires Valid() && IsGap(f)
      modifies `ids, `markers, `reportedLost, `history
      ensures Valid() && history == old(history) + [Record(f)]
      ensures markers == old(markers) + 1 && reportedLost == old(reportedLost) + GapCount(f)
    {
      hide View;
      ghost var h := history;
      forall id: u32 ensures LastOf(h + [Record(f)], id) == LastOf(h, id) { OtherEvent(cfg, h, Record(f), id); }
      forall id: u32 | id in ids
        ensures View(cfg, h + [Record(f)], id) == View(cfg, h, id).(resync := View(cfg, h, id).resync || cfg.gapAware)
      {
        OtherEvent(cfg, h, Record(f), id);
      }
      markers, reportedLost := markers + 1, reportedLost + GapCount(f);
      if cfg.gapAware {
        ResyncAll();
      }
      history := history + [Record(f)];
    }

    /** The part of `observe` for an id seen before. */
    method Advance(id: u32, now: nat) returns (flagged: bool)
      requires id in ids && cfg.calibrate > 0
      modifies `ids, `anomalies, `suppressed
      ensures ids == old(ids)[id := NextState(cfg, old(ids)[id], now)]
      ensures flagged == Flags(cfg, old(ids)[id], now)
      ensures anomalies == old(anomalies) + (if flagged then 1 else 0)
      ensures suppressed == old(suppressed) + (if old(ids)[id].resync then 1 else 0)
    {
      hide Median;
      hide Limit;
      var s := ids[id].(frames := ids[id].frames + 1);
      var dt := if now > s.lastNs then now - s.lastNs else 0;
      s := s.(lastNs := now);
      flagged := false;
      if s.resync {
        s := s.(resync := false, suppressed := s.suppressed + 1);
        suppressed := suppressed + 1;
      } else if |s.samples| < cfg.calibrate {
        s := s.(samples := s.samples + [dt]);
        if |s.samples| == cfg.calibrate {
          s := s.(expectedNs := Median(s.samples));
        }
      } else if dt > Limit(cfg, s.expectedNs) {
        s := s.(anomalies := s.anomalies + 1, worstNs := if s.worstNs < dt then dt else s.worstNs);
        anomalies := anomalies + 1;
        flagged := true;
      }
      ids := ids[id := s];
    }

    /** `reset_all`. */
    method ResetAll()
      requires Valid()
      modifies `ids, `history
      ensures Valid() && history == old(history) + [Restart]
    {
      hide View;
      ghost var h := history;
      forall id: u32 ensures LastOf(h + [Restart], id) == LastOf(h, id) { OtherEvent(cfg, h, Restart, id); }
      forall id: u32 | id in ids ensures View(cfg, h + [Restart], id) == View(cfg, h, id).(resync := true) {
        OtherEvent(cfg, h, Restart, id);
      }
      ResyncAll();
      history := history + [Restart];
    }
  }

  lemma {:induction false} ResyncMeansStraddle(cfg: Config, h: seq<Event>, f: Frame)
    requires cfg.calibrate > 0 && HasPrevious(h, f)
    ensures View(cfg, h, f.canId).resync <==> Straddles(cfg, h, f)
  {}

  /** The per-id figures a report reads off the states mean what they say. */
  lemma {:induction false} ReportedFigures(m: Monitor, id: u32)
    requires m.Valid() && id in m.ids
    ensures m.ids[id].frames == FrameCount(m.history, id)
    ensures m.ids[id].anomalies == LateCount(m.cfg, m.history, id)
    ensures m.ids[id].suppressed == StraddleCount(m.cfg, m.history, id)
    ensures m.ids[id].worstNs == Worst(m.cfg, m.history, id)
  {}

  /** The median is a middle value by count: at most half of the calibration
      intervals are shorter, more than half are no longer. */
  lemma {:induction false} MedianIsMiddle(s: seq<nat>)
    requires s != []
    ensures CountBelow(s, Median(s)) <= |s| / 2 < CountAtMost(s, Median(s))
  {
    RankOf(s, |s| / 2);
  }
}
