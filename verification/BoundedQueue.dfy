/** The per-consumer queue: circular, drop-oldest, never blocking the producer. */
module BoundedQueue {

  /** The newest `cap` items of a sequence. */
  function Newest<T>(s: seq<T>, cap: nat): seq<T> {
    if |s| <= cap then s else s[|s| - cap..]
  }

  function Excess(n: nat, cap: nat): nat { if n <= cap then 0 else n - cap }

  lemma {:induction false} NewestOfNewest<T>(a: seq<T>, x: T, cap: nat)
    ensures Newest(Newest(a, cap) + [x], cap) == Newest(a + [x], cap)
  {}

  lemma {:induction false} NewestSize<T>(s: seq<T>, cap: nat)
    ensures |Newest(s, cap)| == |s| - Excess(|s|, cap)
  {}

  lemma {:induction false} NewestStep<T>(was: seq<T>, items: seq<T>, i: nat, cap: nat)
    requires i < |items|
    ensures Newest(Newest(was + items[..i], cap) + [items[i]], cap) == Newest(was + items[..i + 1], cap)
    ensures |Newest(was + items[..i], cap)| == |was| + i - Excess(|was| + i, cap)
  {
    NewestOfNewest(was + items[..i], items[i], cap);
    assert (was + items[..i]) + [items[i]] == was + items[..i + 1];
  }

  /** The slot of the item `i` places behind the head. */
  function At(head: nat, i: nat, cap: nat): (k: nat)
    requires head < cap && i <= cap
    ensures k < cap
  {
    if head + i < cap then head + i else head + i - cap
  }

  lemma {:induction false} ModIsWrap(head: nat, i: nat, cap: nat)
    requires head < cap && i <= cap
    ensures (head + i) % cap == At(head, i, cap)
  {
    var x := head + i;
    var q, m := x / cap, x % cap;
    assert x == q * cap + m;
    OnceAround(x, q, m, cap);
  }

  /** A place less than two laps from the start is on the first lap or the second. */
  lemma {:induction false} OnceAround(x: int, q: int, m: int, cap: int)
    requires x == q * cap + m && 0 <= m < cap && 0 <= x < 2 * cap
    ensures m == if x < cap then x else x - cap
  {
    Laps(q, cap);
  }

  lemma {:induction false} Laps(q: int, cap: int)
    requires cap > 0
    ensures (q >= 2 ==> q * cap >= 2 * cap) && (q < 0 ==> q * cap <= -cap)
    ensures (q == 0 ==> q * cap == 0) && (q == 1 ==> q * cap == cap)
  {
    if q >= 2 {
      Times(q - 2, cap);
      assert q * cap == (q - 2) * cap + 2 * cap;
    } else if q < 0 {
      Times(-1 - q, cap);
      assert q * cap == -cap - (-1 - q) * cap;
    }
  }

  lemma {:induction false} Times(a: int, b: int)
    requires a >= 0 && b >= 0
    ensures a * b >= 0
  {}

  class Queue<T(0)> {
    const capacity: nat
    const buf: array<T>
    var head: nat
    var count: nat
    var closed: bool
    var pushed: nat
    var popped: nat
    var dropped: nat

    ghost predicate Valid()
      reads this
    {
      0 < capacity == buf.Length && head < capacity && count <= capacity
    }

    ghost function Contents(): (s: seq<T>)
      reads this, buf
      requires Valid()
      ensures |s| == count
    {
      seq(count, i requires 0 <= i < count && Valid() reads this, buf => buf[At(head, i, capacity)])
    }

    /** Everything offered is handed out, dropped, or still here. */
    ghost predicate Balanced()
      reads this
    {
      pushed == popped + dropped + count
    }

    constructor (capacity: nat)
      ensures Valid() && Contents() == [] && Balanced() && !closed && fresh(buf)
      ensures this.capacity == (if capacity == 0 then 1 else capacity) && pushed == popped == dropped == 0
    {
      this.capacity := if capacity == 0 then 1 else capacity;
      buf := new T[if capacity == 0 then 1 else capacity];
      head, count, closed, pushed, popped, dropped := 0, 0, false, 0, 0, 0;
    }

    /** A full queue gives up its oldest item. */
    method MakeRoom() returns (lost: nat)
      requires Valid()
      modifies `head, `count
      ensures Valid() && count < capacity
      ensures lost == (if old(count) == capacity then 1 else 0) && Contents() == old(Contents())[lost..]
    {
      lost := 0;
      ghost var was := Contents();
      assert was[0..] == was;
      if count == capacity {
        ModIsWrap(head, 1, capacity);
        head := (head + 1) % capacity;
        count := count - 1;
        lost := 1;
        assert Contents() == was[1..];
      }
    }

    /** An item goes behind the newest one. */
    method Append(item: T)
      requires Valid() && count < capacity
      modifies `count, buf
      ensures Valid() && Contents() == old(Contents()) + [item]
    {
      ghost var was := Contents();
      ModIsWrap(head, count, capacity);
      buf[(head + count) % capacity] := item;
      count := count + 1;
      assert Contents()[..|was|] == was;
    }

    /** One turn of the push loop. */
    method PushOne(item: T) returns (lost: nat)
      requires Valid()
      modifies `head, `count, buf
      ensures Valid() && Contents() == Newest(old(Contents()) + [item], capacity)
      ensures lost == Excess(old(count) + 1, capacity)
    {
      ghost var was := Contents();
      lost := MakeRoom();
      Append(item);
      assert was[lost..] + [item] == (was + [item])[lost..];
    }

    /** `push_batch`: never blocks; a closed queue refuses everything. */
    method PushBatch(items: seq<T>) returns (lost: nat)
      requires Valid()
      modifies `head, `count, `pushed, `dropped, buf
      ensures Valid() && (old(Balanced()) ==> Balanced())
      ensures if closed
              then lost == 0 && Contents() == old(Contents()) && pushed == old(pushed) && dropped == old(dropped)
              else && lost == Excess(old(count) + |items|, capacity)
                   && Contents() == Newest(old(Contents()) + items, capacity)
                   && pushed == old(pushed) + |items| && dropped == old(dropped) + lost
    {
      lost := 0;
      assert old(Contents()) + [] == old(Contents());
      if items == [] || closed {
        return;
      }
      ghost var was := Contents();
      assert was + items[..0] == was && |was| == count;
      hide Newest;
      hide Queue.Contents;
      for i := 0 to |items|
        invariant Valid() && Contents() == Newest(was + items[..i], capacity)
        invariant lost == Excess(|was| + i, capacity)
        invariant pushed == old(pushed) && dropped == old(dropped)
      {
        NewestStep(was, items, i, capacity);
        var one := PushOne(items[i]);
        lost := lost + one;
      }
      assert items[..|items|] == items;
      NewestSize(was + items, capacity);
      pushed := pushed + |items|;
      dropped := dropped + lost;
    }

    /** `pop_batch`; an empty open queue is the timed-out wait. */
    method PopBatch(room: nat) returns (out: seq<T>)
      requires Valid()
      modifies `head, `count, `popped
      ensures Valid() && (old(Balanced()) ==> Balanced())
      ensures var n := if room < old(count) then room else old(count);
              out == old(Contents())[..n] && Contents() == old(Contents())[n..] && popped == old(popped) + n
    {
      out := [];
      ghost var was := Contents();
      if room == 0 || (count == 0 && !closed) {
        assert was[..0] == [] && was[0..] == was;
        return;
      }
      var n := if count < room then count else room;
      for i := 0 to n
        invariant head == old(head) && count == old(count) && popped == old(popped)
        invariant out == was[..i]
      {
        ModIsWrap(head, i, capacity);
        out := out + [buf[(head + i) % capacity]];
      }
      ModIsWrap(head, n, capacity);
      head := (head + n) % capacity;
      count := count - n;
      popped := popped + n;
      assert Contents() == was[n..];
    }

    method Close()
      modifies `closed
      ensures closed
    {
      closed := true;
    }
  }
}
