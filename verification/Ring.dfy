/** Single-producer single-consumer descriptor rings with free-running 32-bit counters. */
module Ring {
  import opened Core

  const RING_SIZE: nat := 1024
  const WRAP: nat := 0x1_0000_0000

  /** `wrapping_add`. */
  function Plus(a: U32, n: nat): (r: U32) {
    (a + n) % WRAP
  }

  /** `wrapping_sub`: how far `to` is ahead of `from`. */
  function Ahead(to: U32, from: U32): (r: nat)
    ensures r < WRAP
  {
    if to >= from then to - from else to + WRAP - from
  }

  /** The slot of a counter value. */
  function Slot(counter: U32): (r: nat)
    ensures r < RING_SIZE
  {
    counter % RING_SIZE
  }

  lemma {:induction false} PlusAhead(a: U32, n: nat)
    requires n < WRAP
    ensures Ahead(Plus(a, n), a) == n
  {
    if a + n >= WRAP {
      assert (a + n) % WRAP == a + n - WRAP;
    }
  }

  lemma {:induction false} AheadPlus(to: U32, from: U32)
    ensures Plus(from, Ahead(to, from)) == to
  {
    if to < from {
      assert (to + WRAP) % WRAP == to;
    }
  }

  lemma {:induction false} PlusPlus(a: U32, m: nat, n: nat)
    requires m + n < WRAP
    ensures Plus(Plus(a, m), n) == Plus(a, m + n)
  {
    if a + m >= WRAP {
      assert Plus(a, m) == a + m - WRAP;
    }
  }

  lemma {:induction false} SlotPlus(a: U32, n: nat)
    requires n < WRAP
    ensures Slot(Plus(a, n)) == (a + n) % RING_SIZE
  {
    if a + n >= WRAP {
      assert Plus(a, n) == a + n - WRAP;
      assert (a + n - WRAP) % RING_SIZE == (a + n) % RING_SIZE;
    }
  }

  /** Counters less than a ring apart never share a slot. */
  lemma {:induction false} SlotsDiffer(a: U32, m: nat, n: nat)
    requires m < n < WRAP && n - m < RING_SIZE
    ensures Slot(Plus(a, m)) != Slot(Plus(a, n))
  {
    hide Plus, Slot;
    SlotPlus(a, m);
    SlotPlus(a, n);
    Residues(a + m, n - m);
  }

  lemma {:induction false} Residues(x: nat, d: nat)
    requires 0 < d < RING_SIZE
    ensures x % RING_SIZE != (x + d) % RING_SIZE
  {
    var q := x / RING_SIZE;
    var y := x % RING_SIZE;
    assert x == RING_SIZE * q + y;
    if y + d < RING_SIZE {
      assert (x + d) % RING_SIZE == y + d;
    } else {
      assert (x + d) % RING_SIZE == y + d - RING_SIZE;
    }
  }

  /** What the ring holds from counter `from` up to counter `to`. */
  ghost function Between<T>(slots: seq<T>, from: U32, to: U32): (r: seq<T>)
    requires |slots| == RING_SIZE
  {
    seq(Ahead(to, from), i requires 0 <= i < Ahead(to, from) => slots[Slot(Plus(from, i))])
  }

  lemma {:induction false} AheadNext(to: U32, from: U32)
    requires Ahead(to, from) < WRAP - 1
    ensures Ahead(Plus(to, 1), from) == Ahead(to, from) + 1
  {
    hide Plus, Ahead;
    var n := Ahead(to, from);
    AheadPlus(to, from);
    PlusPlus(from, n, 1);
    PlusAhead(from, n + 1);
  }

  lemma {:induction false} AheadTake(to: U32, from: U32, n: nat)
    requires n <= Ahead(to, from)
    ensures Ahead(to, Plus(from, n)) == Ahead(to, from) - n
  {
    hide Plus, Ahead;
    var d := Ahead(to, from);
    AheadPlus(to, from);
    PlusPlus(from, n, d - n);
    PlusAhead(Plus(from, n), d - n);
  }

  /** Writing at the producer's slot appends, as long as the ring is not full. */
  lemma {:induction false} Push<T>(slots: seq<T>, from: U32, to: U32, x: T)
    requires |slots| == RING_SIZE && Ahead(to, from) < RING_SIZE
    ensures Between(slots[Slot(to) := x], from, Plus(to, 1)) == Between(slots, from, to) + [x]
  {
    hide Plus, Ahead, Slot;
    var n := Ahead(to, from);
    var written := slots[Slot(to) := x];
    AheadNext(to, from);
    AheadPlus(to, from);
    forall i | 0 <= i < n ensures written[Slot(Plus(from, i))] == slots[Slot(Plus(from, i))] {
      SlotsDiffer(from, i, n);
    }
  }

  /** Advancing the consumer drops from the front. */
  lemma {:induction false} Drop<T>(slots: seq<T>, from: U32, to: U32, n: nat)
    requires |slots| == RING_SIZE && n <= Ahead(to, from)
    ensures Between(slots, Plus(from, n), to) == Between(slots, from, to)[n..]
  {
    hide Plus, Ahead, Slot;
    AheadTake(to, from, n);
    forall i | 0 <= i < Ahead(to, from) - n ensures Plus(Plus(from, n), i) == Plus(from, n + i) {
      PlusPlus(from, n, i);
    }
  }

  /** The element `n` places ahead of the consumer. */
  lemma {:induction false} At<T>(slots: seq<T>, from: U32, to: U32, n: nat)
    requires |slots| == RING_SIZE && n < Ahead(to, from)
    ensures Between(slots, from, to)[n] == slots[Slot(Plus(from, n))]
  {
  }
}
