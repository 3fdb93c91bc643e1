/** The queue between its two threads. The buffer changes under the lock; the
    counters are bumped afterwards, one atomic add at a time, so a reader of the
    statistics can catch them out of step - but only by what is in flight. */
module QueueSteps {
  import opened BoundedQueue

  /** What the pushing thread still has to add, in program order. */
  datatype Pusher = PushIdle | OwesPushed(n: nat, d: nat) | OwesDropped(d: nat)
  datatype Popper = PopIdle | OwesPopped(n: nat)

  /** `offered` is everything ever pushed, `next` the place after the last item
      popped: history variables. */
  datatype State<T> = State(
    cap: nat, contents: seq<T>, pushed: nat, popped: nat, dropped: nat,
    closed: bool, pusher: Pusher, popper: Popper, offered: seq<T>, next: int, taken: nat)

  datatype Step<T> =
    | PushLocked(items: seq<T>)
    | PushRefused(items: seq<T>)   // the queue is closed
    | AddPushed
    | AddDropped
    | PopLocked(room: nat)
    | AddPopped
    | Close

  predicate Init<T(==)>(s: State<T>) {
    s.cap > 0 && s == State(s.cap, [], 0, 0, 0, false, PushIdle, PopIdle, [], 0, 0)
  }

  predicate Enabled<T>(s: State<T>, step: Step<T>) {
    match step
    case PushLocked(items) => s.pusher.PushIdle? && items != [] && !s.closed
    case PushRefused(items) => s.pusher.PushIdle? && items != [] && s.closed
    case AddPushed => s.pusher.OwesPushed?
    case AddDropped => s.pusher.OwesDropped?
    case PopLocked(room) => s.popper.PopIdle? && room > 0 && (s.contents != [] || s.closed)
    case AddPopped => s.popper.OwesPopped?
    case Close => true
  }

  function Apply<T>(s: State<T>, step: Step<T>): State<T>
    requires Enabled(s, step)
  {
    match step
    case PushLocked(items) =>
      s.(contents := Newest(s.contents + items, s.cap), offered := s.offered + items,
         pusher := OwesPushed(|items|, Excess(|s.contents| + |items|, s.cap)))
    case PushRefused(_) => s
    case AddPushed => s.(pushed := s.pushed + s.pusher.n, pusher := OwesDropped(s.pusher.d))
    case AddDropped => s.(dropped := s.dropped + s.pusher.d, pusher := PushIdle)
    case PopLocked(room) =>
      var n := if |s.contents| < room then |s.contents| else room;
      s.(contents := s.contents[n..], popper := OwesPopped(n),
         next := |s.offered| - |s.contents| + n, taken := s.taken + n)
    case AddPopped => s.(popped := s.popped + s.popper.n, popper := PopIdle)
    case Close => s.(closed := true)
  }

  function InFlightPushed(p: Pusher): nat { if p.OwesPushed? then p.n else 0 }
  function InFlightDropped(p: Pusher): nat { if p.PushIdle? then 0 else p.d }
  function InFlightPopped(p: Popper): nat { if p.OwesPopped? then p.n else 0 }

  ghost predicate Inv<T>(s: State<T>) {
    && s.cap > 0
    && 0 <= s.next <= |s.offered|
    && s.contents == Newest(s.offered[s.next..], s.cap)
    && s.pushed + InFlightPushed(s.pusher) == |s.offered|
    && s.popped + InFlightPopped(s.popper) == s.taken
    && s.dropped + InFlightDropped(s.pusher) + s.taken + |s.contents| == |s.offered|
  }

  lemma {:induction false} NewestThenMore<T>(a: seq<T>, items: seq<T>, cap: nat)
    ensures Newest(Newest(a, cap) + items, cap) == Newest(a + items, cap)
  {
    if |a| > cap {
      var kept := a[|a| - cap..];
      var l, r := (kept + items)[|items|..], (a + items)[|a| + |items| - cap..];
      forall i | 0 <= i < cap ensures l[i] == r[i] {
        assert l[i] == (kept + items)[|items| + i];
      }
      assert l == r;
      if items == [] { assert kept + items == kept; }
    }
  }

  lemma {:induction false} PushKeeps<T>(s: State<T>, items: seq<T>)
    requires Inv(s) && Enabled(s, PushLocked(items))
    ensures Inv(Apply(s, PushLocked(items)))
  {
    NewestThenMore(s.offered[s.next..], items, s.cap);
    assert s.offered[s.next..] + items == (s.offered + items)[s.next..];
    assert |Newest(s.contents + items, s.cap)| == |s.contents| + |items| - Excess(|s.contents| + |items|, s.cap);
    hide Newest;
  }

  lemma {:induction false} PopKeeps<T>(s: State<T>, room: nat)
    requires Inv(s) && Enabled(s, PopLocked(room))
    ensures Inv(Apply(s, PopLocked(room)))
  {
    var t := Apply(s, PopLocked(room));
    var n := t.taken - s.taken;
    var lo := |s.offered| - |s.contents|;
    assert s.contents == s.offered[lo..];
    assert t.contents == s.contents[n..] == s.offered[lo + n..];
  }

  lemma {:induction false} StepKeeps<T>(s: State<T>, step: Step<T>)
    requires Inv(s) && Enabled(s, step)
    ensures Inv(Apply(s, step))
  {
    match step {
      case PushLocked(items) => PushKeeps(s, items);
      case PushRefused(_) =>
      case Close =>
      case PopLocked(room) => PopKeeps(s, room);
      case AddPushed =>
      case AddDropped =>
      case AddPopped =>
    }
  }

  ghost predicate Behavior<T>(states: seq<State<T>>, steps: seq<Step<T>>) {
    && |states| == |steps| + 1
    && Init(states[0])
    && forall n | 0 <= n < |steps| :: Enabled(states[n], steps[n]) && states[n + 1] == Apply(states[n], steps[n])
  }

  lemma {:induction false} BehaviorKeeps<T>(states: seq<State<T>>, steps: seq<Step<T>>, n: nat)
    requires Behavior(states, steps) && n < |states|
    ensures Inv(states[n])
  {
    if n > 0 {
      BehaviorKeeps(states, steps, n - 1);
      StepKeeps(states[n - 1], steps[n - 1]);
    }
  }

  /** At any moment of any interleaving the queue holds the newest unpopped
      items, as many as fit, in order; and what the counters say is conserved
      once the updates in flight are added back - exactly, when both threads rest. */
  lemma {:induction false} CountersConserve<T>(states: seq<State<T>>, steps: seq<Step<T>>, n: nat)
    requires Behavior(states, steps) && n < |states|
    ensures var s := states[n];
            && 0 <= s.next <= |s.offered| && s.contents == Newest(s.offered[s.next..], s.cap)
            && s.pushed + InFlightPushed(s.pusher) ==
               s.popped + InFlightPopped(s.popper) + s.dropped + InFlightDropped(s.pusher) + |s.contents|
            && (s.pusher.PushIdle? && s.popper.PopIdle? ==> s.pushed == s.popped + s.dropped + |s.contents|)
  {
    BehaviorKeeps(states, steps, n);
  }
}
