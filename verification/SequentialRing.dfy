/** The broadcast ring run by one thread at a time: the code of `publish_batch`,
    `write_at`, `try_read`, `lap` and `read_batch` on its arrays, and the ring
    feed on top of it. Interleavings are the business of `BroadcastRing`. */
module SequentialRing {
  import opened BroadcastRing
  import opened RingInvariant

  datatype Cursor = Cursor(next: nat, missed: nat)
  datatype ReadStatus = ReadOk | ReadEmpty | ReadLapped

  function OldestOf(written: nat, cap: nat): nat { if written > cap then written - cap else 0 }

  /** Where a reader that is given room resumes: at its cursor, or at the oldest
      position still held if it was overtaken. */
  function ResumeAt(next: nat, written: nat, cap: nat, room: nat): nat {
    if room > 0 && next < OldestOf(written, cap) then OldestOf(written, cap) else next
  }

  function Min(a: nat, b: nat): nat { if a < b then a else b }

  lemma {:induction false} SlotsDiffer(cap: nat, a: nat, b: nat)
    requires cap > 0 && a < b < a + cap
    ensures Slot(cap, a) != Slot(cap, b)
  {
    if Slot(cap, a) == Slot(cap, b) { SameCell(cap, a, b); }
  }

  class Ring {
    const capacity: nat
    const marks: array<nat>
    const words: array<Words>
    var writePos: nat
    var closed: bool
    var inconsistent: nat
    ghost var log: seq<Words>   // stamped frames by position

    /** Positions below `done` are published, the newest `capacity` of them held. */
    ghost predicate Written(done: nat)
      reads this, marks, words
    {
      && 2 <= capacity == marks.Length == words.Length
      && |log| == done
      && (forall p: nat | OldestOf(done, capacity) <= p < done ::
            marks[Slot(capacity, p)] == 2 * p + 2 && words[Slot(capacity, p)] == log[p] && log[p][0] == p)
      && (forall at: nat | done <= at < capacity :: marks[at] == 0)
    }

    ghost predicate Valid()
      reads this, marks, words
    {
      Written(writePos) && inconsistent == 0
    }

    constructor (capacity: nat)
      requires capacity >= 2
      ensures Valid() && log == [] && this.capacity == capacity && !closed && fresh(marks) && fresh(words)
    {
      this.capacity := capacity;
      marks := new nat[capacity](i => 0);
      words := new Words[capacity](i => [0, 0, 0, 0, 0]);
      writePos, closed, inconsistent, log := 0, false, 0, [];
    }

    /** The store loop of `write_at`: one word at a time. */
    method StoreWords(at: nat, stamped: Words)
      requires at < words.Length
      modifies words
      ensures words[at] == stamped
      ensures forall i | 0 <= i < words.Length && i != at :: words[i] == old(words[i])
    {
      for k := 0 to 5
        invariant forall i | 0 <= i < words.Length && i != at :: words[i] == old(words[i])
        invariant words[at][..k] == stamped[..k]
      {
        words[at] := words[at][k := stamped[k]];
        assert words[at][..k + 1] == words[at][..k] + [stamped[k]] == stamped[..k + 1];
      }
      assert words[at] == words[at][..5] == stamped[..5] == stamped;
    }

    /** `write_at`. With nobody in between, the claim succeeds at the first try. */
    method WriteAt(pos: nat, frame: Words)
      requires Written(pos)
      modifies `log, marks, words
      ensures Written(pos + 1) && log == old(log) + [Stamp(frame, pos)]
    {
      var at := Slot(capacity, pos);
      assert pos >= capacity ==> at == Slot(capacity, pos - capacity);
      assert marks[at] == Expected(capacity, pos);
      marks[at] := 2 * pos + 1;
      var stamped := Stamp(frame, pos);
      StoreWords(at, stamped);
      marks[at] := 2 * pos + 2;
      log := log + [stamped];
      forall p: nat | OldestOf(pos + 1, capacity) <= p < pos ensures Slot(capacity, p) != at {
        SlotsDiffer(capacity, p, pos);
      }
    }

    /** `publish_batch`: one fetch_add for the whole batch, however large. */
    method PublishBatch(frames: seq<Words>) returns (base: nat)
      requires Valid()
      modifies `writePos, `log, marks, words
      ensures Valid() && base == old(writePos) && writePos == old(writePos) + |frames|
      ensures log == old(log) + StampAll(frames, base)
    {
      base := writePos;
      if frames == [] {
        assert log + StampAll(frames, base) == log;
        return;
      }
      writePos := writePos + |frames|;
      for i := 0 to |frames|
        invariant Written(base + i) && writePos == base + |frames|
        invariant log == old(log) + StampAll(frames, base)[..i]
      {
        WriteAt(base + i, frames[i]);
      }
      assert StampAll(frames, base)[..|frames|] == StampAll(frames, base);
    }

    /** `lap`, with its "skip one" fallback, which no call from `TryRead` reaches. */
    method Lap(c: Cursor) returns (d: Cursor)
      ensures var oldest := OldestOf(writePos, capacity);
              && d.next > c.next && d.next - c.next == d.missed - c.missed
              && (if oldest > c.next then d.next == oldest else d.next == c.next + 1)
    {
      var target := if writePos > capacity then writePos - capacity else 0;
      if target > c.next {
        d := Cursor(target, c.missed + (target - c.next));
      } else {
        d := Cursor(c.next + 1, c.missed + 1);
      }
    }

    /** The end of `try_read`: the re-check of the sequence word against `s2` and
        the comparison of word 0. In a ring that is not valid all three ends are
        reached; `TryRead` shows that a valid one always accepts. */
    method Accept(c: Cursor, s1: nat, s2: nat, copy: Words) returns (status: ReadStatus, d: Cursor)
      modifies `inconsistent
      ensures status.ReadOk? <==> s2 == s1 && copy[0] == c.next
      ensures status.ReadOk? ==> d == c.(next := c.next + 1)
      ensures !status.ReadOk? ==> status.ReadLapped? && d.next > c.next && d.next - c.next == d.missed - c.missed
      ensures inconsistent == old(inconsistent) + if s2 == s1 && copy[0] != c.next then 1 else 0
    {
      if s2 != s1 {
        d := Lap(c);
        return ReadLapped, d;
      }
      if copy[0] != c.next {
        inconsistent := inconsistent + 1;
        d := Lap(c);
        return ReadLapped, d;
      }
      return ReadOk, c.(next := c.next + 1);
    }

    /** `try_read`. */
    method TryRead(c: Cursor) returns (status: ReadStatus, d: Cursor, out: Words)
      requires Valid() && c.next <= writePos
      modifies `inconsistent
      ensures Valid()
      ensures if c.next == writePos then status.ReadEmpty? && d == c
              else if c.next < OldestOf(writePos, capacity) then
                var oldest := OldestOf(writePos, capacity);
                status.ReadLapped? && d == Cursor(oldest, c.missed + (oldest - c.next))
              else status.ReadOk? && d == c.(next := c.next + 1) && out == log[c.next]
    {
      out := [0, 0, 0, 0, 0];
      var at := Slot(capacity, c.next);
      var s1 := marks[at];
      ghost var held := CellHolds(c.next);
      if s1 == 0 || (s1 - 1) / 2 < c.next {
        return ReadEmpty, c, out;
      }
      if (s1 - 1) / 2 > c.next {
        d := Lap(c);
        return ReadLapped, d, out;
      }
      if s1 % 2 == 1 {
        return ReadEmpty, c, out;
      }
      var copy: seq<nat> := [];
      for k := 0 to 5
        invariant copy == words[at][..k]
      {
        copy := copy + [words[at][k]];
      }
      assert copy == words[at];
      status, d := Accept(c, s1, marks[at], copy);
      out := copy;
    }

    /** The position found in the cell of `next`: itself, or the one that overtook it. */
    ghost method CellHolds(next: nat) returns (p: int)
      requires Valid() && next <= writePos
      ensures marks[Slot(capacity, next)] == 2 * p + 2 || (p == -1 && marks[Slot(capacity, next)] == 0)
      ensures p == -1 || OldestOf(writePos, capacity) <= p < writePos
      ensures OldestOf(writePos, capacity) <= next < writePos ==> p == next
      ensures next < OldestOf(writePos, capacity) ==> p > next
      ensures next == writePos ==> p < next
    {
      if next >= OldestOf(writePos, capacity) {
        if next < writePos {
          p := next;
        } else if writePos >= capacity {
          p := writePos - capacity;
        } else {
          p := -1;
        }
      } else {
        p := next + capacity;
        while p < OldestOf(writePos, capacity)
          invariant next < p < writePos && Slot(capacity, p) == Slot(capacity, next)
          decreases writePos - p
        {
          p := p + capacity;
        }
      }
    }

    /** `read_batch`. */
    method ReadBatch(c: Cursor, room: nat) returns (d: Cursor, out: seq<Words>)
      requires Valid() && c.next <= writePos
      modifies `inconsistent
      ensures Valid()
      ensures var lo := ResumeAt(c.next, writePos, capacity, room);
              var n := Min(room, writePos - lo);
              out == log[lo..lo + n] && d == Cursor(lo + n, c.missed + (lo - c.next))
    {
      assert |log| == writePos && capacity > 0;
      hide Ring.Written;
      hide Slot;
      hide SoFar;
      hide ResumeAt;
      hide OldestOf;
      d, out := c, [];
      ghost var lo := ResumeAt(c.next, writePos, capacity, room);
      ReadStarts(log, capacity, c, room);
      while |out| < room
        invariant |out| <= room && d.next <= writePos && Valid()
        invariant SoFar(log, c, lo, d, out)
        decreases room - |out|, if d.next < OldestOf(writePos, capacity) then 1 else 0
      {
        ReadsOn(log, capacity, c, room, d, out);
        var status, e, frame := TryRead(d);
        match status {
          case ReadOk => out, d := out + [frame], e;
          case ReadLapped => d := e;
          case ReadEmpty => break;
        }
      }
      ReadEnds(log, capacity, c, room, d, out);
    }
  }

  /** Where a `read_batch` call stands: still at its start, or with an unbroken
      slice of the log from its resume point `lo`. */
  ghost predicate SoFar(log: seq<Words>, c: Cursor, lo: nat, d: Cursor, out: seq<Words>) {
    || (d == c && out == [])
    || (&& c.next <= lo && lo + |out| <= |log|
        && d == Cursor(lo + |out|, c.missed + (lo - c.next)) && out == log[lo..lo + |out|])
  }

  lemma {:induction false} ReadStarts(log: seq<Words>, cap: nat, c: Cursor, room: nat)
    ensures SoFar(log, c, ResumeAt(c.next, |log|, cap, room), c, [])
  {}

  /** What either kind of progress makes of it. */
  lemma {:induction false} ReadsOn(log: seq<Words>, cap: nat, c: Cursor, room: nat, d: Cursor, out: seq<Words>)
    requires c.next <= |log| && d.next <= |log| && cap > 0 && |out| < room
    requires SoFar(log, c, ResumeAt(c.next, |log|, cap, room), d, out)
    ensures var lo, oldest := ResumeAt(c.next, |log|, cap, room), OldestOf(|log|, cap);
            && (oldest <= d.next < |log| ==> SoFar(log, c, lo, d.(next := d.next + 1), out + [log[d.next]]))
            && oldest <= |log|
            && (d.next < oldest ==> SoFar(log, c, lo, Cursor(oldest, d.missed + (oldest - d.next)), out))
  {
    var lo := ResumeAt(c.next, |log|, cap, room);
    if lo + |out| < |log| { SliceGrows(log, lo, lo + |out|); }
  }

  lemma {:induction false} SliceGrows(log: seq<Words>, lo: nat, hi: nat)
    requires lo <= hi < |log|
    ensures log[lo..hi + 1] == log[lo..hi] + [log[hi]]
  {}

  lemma {:induction false} ReadEnds(log: seq<Words>, cap: nat, c: Cursor, room: nat, d: Cursor, out: seq<Words>)
    requires c.next <= |log| && d.next <= |log| && cap > 0 && |out| <= room
    requires SoFar(log, c, ResumeAt(c.next, |log|, cap, room), d, out)
    requires |out| == room || d.next == |log|
    ensures var lo := ResumeAt(c.next, |log|, cap, room);
            var n := Min(room, |log| - lo);
            out == log[lo..lo + n] && d == Cursor(lo + n, c.missed + (lo - c.next))
  {}

  /** What fan-out and ring both do to a batch: consecutive sequence numbers. */
  function StampAll(frames: seq<Words>, base: nat): (r: seq<Words>)
    ensures |r| == |frames|
    ensures forall i | 0 <= i < |r| :: r[i] == Stamp(frames[i], base + i)
  {
    seq(|frames|, i requires 0 <= i < |frames| => Stamp(frames[i], base + i))
  }
}
