/** Why the ring's capacity is a power of two: the index is a mask. */
module RingSize {
  import opened BroadcastRing

  function Pow2(k: nat): (p: nat)
    ensures p > 0
  {
    if k == 0 then 1 else 2 * Pow2(k - 1)
  }

  /** Bitwise and, one bit at a time. */
  function BitAnd(a: nat, b: nat): nat {
    if a == 0 || b == 0 then 0 else (a % 2) * (b % 2) + 2 * BitAnd(a / 2, b / 2)
  }

  /** `round_up_pow2`: the smallest power of two that is at least `v`. */
  method RoundUpPow2(v: nat) returns (p: nat, ghost k: nat)
    ensures p == Pow2(k) && p >= v
    ensures forall j: nat | Pow2(j) >= v :: p <= Pow2(j)
    ensures v <= 0x8000_0000_0000_0000 ==> p <= 0x8000_0000_0000_0000
  {
    TopBit();
    p, k := 1, 0;
    while p < v
      invariant p == Pow2(k)
      invariant forall j: nat | Pow2(j) >= v :: p <= Pow2(j)
      decreases v - p
    {
      forall j: nat | Pow2(j) >= v ensures 2 * p <= Pow2(j) {
        Pow2Mono(k, j);
      }
      p, k := 2 * p, k + 1;
    }
  }

  /** The largest power of two in 64 bits: up to here no shift overflows. */
  lemma {:induction false} TopBit()
    ensures Pow2(63) == 0x8000_0000_0000_0000
  {
    SmallPowers();
    hide Pow2;
    Pow2Adds(4, 4);
    Pow2Adds(8, 8);
    Pow2Adds(16, 16);
    Pow2Adds(32, 32);
    Pow2Adds(1, 63);
  }

  lemma {:induction false} SmallPowers()
    ensures Pow2(1) == 2 && Pow2(4) == 16
  {
    assert Pow2(4) == 2 * Pow2(3) == 4 * Pow2(2) == 8 * Pow2(1) == 16 * Pow2(0);
  }

  lemma {:induction false} Doubles(k: nat)
    ensures Pow2(k) == if k == 0 then 1 else 2 * Pow2(k - 1)
  {}

  lemma {:induction false} Pow2Adds(a: nat, b: nat)
    ensures Pow2(a + b) == Pow2(a) * Pow2(b)
    decreases a
  {
    hide Pow2;
    Doubles(a);
    Doubles(a + b);
    if a > 0 {
      Pow2Adds(a - 1, b);
      var x, y := Pow2(a - 1), Pow2(b);
      assert 2 * (x * y) == (2 * x) * y;
    } else {
      assert 1 * Pow2(b) == Pow2(b);
    }
  }

  lemma {:induction false} Pow2Mono(k: nat, j: nat)
    requires Pow2(k) < Pow2(j)
    ensures k < j && 2 * Pow2(k) <= Pow2(j)
    decreases k + j
  {
    if k > 0 && j > 0 { Pow2Mono(k - 1, j - 1); }
  }

  lemma {:induction false} SlotHalves(half: nat, pos: nat)
    requires half > 0
    ensures Slot(2 * half, pos) == 2 * Slot(half, pos / 2) + pos % 2
    decreases pos
  {
    if pos >= 2 * half { SlotHalves(half, pos - 2 * half); }
  }

  lemma {:induction false} SlotOfOne(pos: nat)
    ensures Slot(1, pos) == 0
  {}

  /** The lowest bit of an odd mask, and the others. */
  lemma {:induction false} BitAndOdd(a: nat, c: nat)
    ensures BitAnd(a, 2 * c + 1) == a % 2 + 2 * BitAnd(a / 2, c)
  {
    var b := 2 * c + 1;
    assert b / 2 == c && b % 2 == 1;
    if a == 0 { assert BitAnd(0, c) == 0; }
  }

  /** On a power-of-two ring, the cell of a position is `pos & (capacity - 1)`. */
  lemma {:induction false} SlotIsMask(k: nat, pos: nat)
    ensures Slot(Pow2(k), pos) == BitAnd(pos, Pow2(k) - 1)
    decreases k
  {
    hide BitAnd;
    hide Slot;
    hide Pow2;
    Doubles(k);
    if k == 0 {
      SlotOfOne(pos);
      NoMask(pos);
    } else {
      var half := Pow2(k - 1);
      SlotHalves(half, pos);
      SlotIsMask(k - 1, pos / 2);
      BitAndOdd(pos, half - 1);
      assert 2 * (half - 1) + 1 == Pow2(k) - 1;
    }
  }

  lemma {:induction false} NoMask(pos: nat)
    ensures BitAnd(pos, 0) == 0
  {}
}
