/** Arithmetic of the ring's counters: slot indices, and 64-bit wrap-around. */
module RingCounters {
  const WORD: nat := 0x1_0000_0000_0000_0000

  lemma MultipleBounds(d: int, cap: nat)
    ensures d >= 1 ==> d * cap >= cap
    ensures d <= 0 ==> d * cap <= 0
  {
    if d >= 1 {
      assert d * cap == (d - 1) * cap + cap;
    }
  }

  lemma DivMod(a: nat, cap: nat)
    requires cap > 0
    ensures a == (a / cap) * cap + a % cap && 0 <= a % cap < cap
  {}

  /** `a % cap` is the only remainder in range. */
  lemma ModUnique(a: nat, q: int, r: nat, cap: nat)
    requires r < cap && a == q * cap + r
    ensures a % cap == r
  {
    DivMod(a, cap);
    var d := a / cap - q;
    assert d * cap == (a / cap) * cap - q * cap;
    MultipleBounds(d, cap);
    MultipleBounds(-d, cap);
    assert (-d) * cap == -(d * cap);
  }

  /** The slot of counter `i`.  The recursion keeps division out of the proofs about slots;
      `SlotIsRemainder` says what it computes. */
  ghost function Slot(i: nat, cap: nat): (r: nat)
    requires cap > 0
    ensures r < cap
  {
    if i < cap then i else Slot(i - cap, cap)
  }

  lemma {:induction false} SlotIsRemainder(i: nat, cap: nat)
    requires cap > 0
    ensures Slot(i, cap) == i % cap
  {
    if i < cap {
      ModUnique(i, 0, i, cap);
    } else {
      SlotIsRemainder(i - cap, cap);
      DivMod(i - cap, cap);
      ModUnique(i, (i - cap) / cap + 1, (i - cap) % cap, cap);
    }
  }

  /** The two ranges of a batch copy: from the slot of `a` to the end, then from slot zero. */
  lemma {:induction false} SlotRanges(a: nat, k: nat, cap: nat)
    requires k < cap
    ensures Slot(a + k, cap) == if Slot(a, cap) + k < cap then Slot(a, cap) + k else Slot(a, cap) + k - cap
  {
    if a >= cap {
      SlotRanges(a - cap, k, cap);
    }
  }

  /** Two counters less than a capacity apart use different slots. */
  lemma SlotDistinct(a: nat, b: nat, cap: nat)
    requires a < b < a + cap
    ensures Slot(a, cap) != Slot(b, cap)
  {
    SlotRanges(a, b - a, cap);
  }

  lemma NestedQuotient(x: int, word: int, w: int, cap: int, q: int, r: int)
    requires word == w * cap
    ensures x * word + (q * cap + r) == (x * w + q) * cap + r
  {
    assert x * word == x * (w * cap) == (x * w) * cap;
    assert (x * w + q) * cap == (x * w) * cap + q * cap;
  }

  /** What a 64-bit register holds of `i`. */
  function Wrap(i: int): (r: nat)
    ensures r < WORD
  {
    i % WORD
  }

  /** A counter kept modulo 2^64 names the same slot, because the capacity divides 2^64. */
  lemma WrappedSlot(a: nat, cap: nat)
    requires cap > 0 && WORD % cap == 0
    ensures Wrap(a) % cap == Slot(a, cap)
  {
    SlotIsRemainder(a, cap);
    var x, y := a / WORD, a % WORD;
    var q, r := y / cap, y % cap;
    var w := WORD / cap;
    DivMod(a, WORD);
    DivMod(WORD, cap);
    DivMod(y, cap);
    NestedQuotient(x, WORD, w, cap, q, r);
    ModUnique(a, x * w + q, r, cap);
  }

  /** Subtracting wrapped counters gives the true distance while it fits in a word. */
  lemma WrappedDistance(h: nat, t: nat)
    requires t <= h < t + WORD
    ensures Wrap(Wrap(h) - Wrap(t)) == h - t
  {
    DivMod(h, WORD);
    DivMod(t, WORD);
    assert h - t == (h / WORD - t / WORD) * WORD + (Wrap(h) - Wrap(t));
  }

  /** Advancing a wrapped counter is wrapping the advanced counter. */
  lemma WrappedAdd(a: nat, n: nat)
    ensures Wrap(Wrap(a) + n) == Wrap(a + n)
  {}

  /** Two counters less than 2^64 apart are equal exactly if their wrapped values are. */
  lemma SameWrapped(a: nat, b: nat)
    requires b <= a < b + WORD
    ensures Wrap(a) == Wrap(b) <==> a == b
  {
    WrappedDistance(a, b);
  }
}
