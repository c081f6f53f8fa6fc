/** The provided-buffer ring: slots addressed by a wrapping 16-bit tail. */
module BufRing {
  import Buffers

  const U16: int := 0x1_0000

  // ---------------------------------------------------------------- masks and remainders

  function Pow2(k: nat): (r: nat)
    ensures r > 0
  {
    if k == 0 then 1 else 2 * Pow2(k - 1)
  }

  /** Bitwise and. */
  function BitAnd(a: nat, b: nat): nat
    decreases a
  {
    if a == 0 || b == 0 then 0 else (a % 2) * (b % 2) + 2 * BitAnd(a / 2, b / 2)
  }

  lemma ModDouble(a: nat, half: nat)
    requires half > 0
    ensures a % (2 * half) == 2 * (a / 2 % half) + a % 2
  {
    var q, r := a / 2 / half, a / 2 % half;
    assert a / 2 == half * q + r;
    DoubleProduct(half, q);
    Buffers.ModUnique(a, 2 * half, q, 2 * r + a % 2);
  }

  lemma DoubleProduct(half: nat, q: nat)
    ensures 2 * half * q == 2 * (half * q)
  {
  }

  /** Masking with a power of two less one is the remainder. */
  lemma {:induction false} MaskIsMod(a: nat, k: nat)
    ensures BitAnd(a, Pow2(k) - 1) == a % Pow2(k)
    decreases k
  {
    if k > 0 {
      var half := Pow2(k - 1);
      ModDouble(a, half);
      if a > 0 {
        HalfMask(half);
        MaskIsMod(a / 2, k - 1);
        assert BitAnd(a, 2 * half - 1) == a % 2 * 1 + 2 * BitAnd(a / 2, half - 1);
      } else {
        Buffers.ModUnique(0, Pow2(k), 0, 0);
      }
    }
  }

  lemma HalfMask(half: nat)
    requires half > 0
    ensures (2 * half - 1) / 2 == half - 1 && (2 * half - 1) % 2 == 1
  {
  }

  lemma {:induction false} Pow2Splits(k: nat, n: nat)
    requires k <= n
    ensures Pow2(n) == Pow2(k) * Pow2(n - k)
    decreases n
  {
    if k < n {
      Pow2Splits(k, n - 1);
      assert Pow2(k) * (2 * Pow2(n - 1 - k)) == 2 * (Pow2(k) * Pow2(n - 1 - k));
    }
  }

  lemma ModMod(x: nat, e: nat, f: nat)
    requires e > 0 && f > 0 && e * f > 0
    ensures x % (e * f) % e == x % e
  {
    var q, r := x / (e * f), x % (e * f);
    var q', r' := r / e, r % e;
    assert x == e * f * q + r && r == e * q' + r';
    Regroup(e, f, q, q');
    Buffers.ModUnique(x, e, f * q + q', r');
  }

  lemma Regroup(e: nat, f: nat, q: nat, q': nat)
    ensures e * f * q + e * q' == e * (f * q + q')
  {
  }

  /** The 16-bit wrap of a position does not change its slot. */
  lemma WrapKeepsSlot(pos: nat, k: nat)
    requires k <= 15
    ensures (pos % U16) % Pow2(k) == pos % Pow2(k)
  {
    Pow2Splits(k, 16);
    assert Pow2(16) == U16 by {
      assert Pow2(4) == 16;
      Pow2Splits(4, 8);
      Pow2Splits(8, 16);
    }
    ModMod(pos, Pow2(k), Pow2(16 - k));
  }

  /** The slot of a position counted from the start. */
  function Slot(pos: nat, entries: nat): nat
    requires entries > 0
  {
    pos % entries
  }

  /** Positions less than a ring apart use different slots. */
  lemma SlotsDiffer(p: nat, q: nat, e: nat)
    requires p < q < p + e
    ensures Slot(p, e) != Slot(q, e)
  {
    var d := q - p;
    if p % e == q % e {
      assert q == e * (q / e) + q % e && p == e * (p / e) + p % e;
      assert d == e * (q / e) - e * (p / e);
      if q / e > p / e {
        Buffers.MulAtLeast(e, q / e, p / e);
      } else if q / e < p / e {
        Buffers.MulAtLeast(e, p / e, q / e);
      }
      assert false;
    }
  }

  // ---------------------------------------------------------------- the ring

  /** The worker's side adds buffers at the tail; the kernel takes them at a head of its own. */
  class Ring {
    const bits: nat
    const entries: nat
    /** Buffer id in each slot. */
    var slots: seq<nat>
    /** The 16-bit tail. */
    var tail: nat
    /** Positions added and taken since the start, and who holds a taken buffer. */
    ghost var added: nat
    ghost var taken: nat
    ghost var queue: seq<nat>
    ghost var held: set<nat>

    /** Every id is in the ring, ready for the kernel, or held by one handler; never both, never twice. */
    ghost predicate Conserved()
      reads this
    {
      && Buffers.Distinct(queue)
      && (forall i :: 0 <= i < |queue| ==> queue[i] < entries && queue[i] !in held)
      && (forall b :: b in held ==> b < entries)
      && |queue| + |held| == entries
    }

    ghost predicate Valid()
      reads this
    {
      && bits <= 15 && entries == Pow2(bits) && |slots| == entries
      && tail == added % U16 && added == taken + |queue|
      && |queue| <= entries
      && (forall p: nat :: taken <= p < added ==> slots[Slot(p, entries)] == queue[p - taken])
    }

    /** `BufRing::new`: rejects nothing here, since `bits` makes the entry count a power of two. */
    constructor (bits: nat)
      requires bits <= 15
      ensures Valid() && Conserved() && entries == Pow2(bits) && this.bits == bits
      ensures queue == seq(entries, i => i) && held == {}
    {
      this.bits := bits;
      entries := Pow2(bits);
      slots := seq(Pow2(bits), _ => 0);
      tail, added, taken, queue, held := 0, 0, 0, [], {};
      new;
      for i := 0 to entries
        invariant Valid() && |queue| == i && held == {} && this.bits == bits && entries == Pow2(bits)
        invariant forall j :: 0 <= j < i ==> queue[j] == j
      {
        AddBuffer(i);
      }
    }

    /** `add_buffer`: write the slot at the masked tail, advance the tail with wrap-around.
        A free position is all it needs not to overwrite an entry the kernel has not taken. */
    method AddBuffer(bid: nat)
      requires Valid() && |queue| < entries
      modifies this`slots, this`tail, this`added, this`queue
      ensures Valid() && queue == old(queue) + [bid]
      ensures taken == old(taken)
    {
      var idx := BitAnd(tail, entries - 1);
      MaskIsMod(tail, bits);
      WrapKeepsSlot(added, bits);
      assert idx == Slot(added, entries);
      forall p: nat | taken <= p < added
        ensures Slot(p, entries) != idx
      {
        SlotsDiffer(p, added, entries);
      }
      slots := slots[idx := bid];
      TailAdvances(added);
      tail := (tail + 1) % U16;
      added := added + 1;
      queue := queue + [bid];
    }

    /** The kernel picks the next buffer for a receive. */
    ghost method KernelTakes() returns (bid: nat)
      requires Valid() && Conserved() && queue != []
      modifies this`taken, this`queue, this`held
      ensures Valid() && Conserved()
      ensures bid == old(queue)[0] == slots[Slot(old(taken), entries)]
      ensures queue == old(queue)[1..] && held == old(held) + {bid} && bid !in old(held)
    {
      bid := queue[0];
      ghost var before := queue;
      taken, queue, held := taken + 1, queue[1..], held + {bid};
      forall i | 0 <= i < |queue|
        ensures queue[i] !in held
      {
        assert queue[i] == before[i + 1] && before[0] != before[i + 1];
      }
    }

    /** `recycle_buffer`: a handler gives back the id it holds. */
    method Recycle(bid: nat)
      requires Valid() && Conserved() && bid in held
      modifies this
      ensures Valid() && Conserved()
      ensures queue == old(queue) + [bid] && held == old(held) - {bid}
    {
      assert held != {} && |held| > 0;
      AddBuffer(bid);
      held := held - {bid};
    }
  }

  lemma TailAdvances(added: nat)
    ensures (added % U16 + 1) % U16 == (added + 1) % U16
  {
  }
}
