/**
 The AF_XDP rings of `src/device/backend/af_xdp/umem.rs` and `socket.rs`.

 A ring is shared with the kernel: one side advances a 32-bit producer index, the other a 32-bit
 consumer index, and an entry lives in the slot its index selects. The program keeps copies of the
 indices, of which the copy of the other side's index may be out of date. The history of everything
 ever put into the ring, counted in unbounded numbers, is what the ring must hand out.
 */
module XdpRings {
  import opened Prelude
  import opened SequenceNumbers

  predicate PowerOfTwo(n: nat) { n == 1 || (n > 0 && n % 2 == 0 && PowerOfTwo(n / 2)) }

  /** `validate_ring_size`. */
  predicate RingSize(entries: nat) { 0 < entries <= 0x4000_0000 && PowerOfTwo(entries) }

  lemma {:induction false} PowersDivide(n: nat, m: nat)
    requires PowerOfTwo(n) && PowerOfTwo(m) && n <= m
    ensures m % n == 0
  {
    if n > 1 {
      PowersDivide(n / 2, m / 2);
      var h := n / 2;
      var q := m / 2 / h;
      hide PowerOfTwo;
      assert m / 2 == q * h;
      assert q * n == 2 * (q * h);
      RemainderOf(m, n, q, 0);
    }
  }

  lemma Doubled(n: nat)
    requires PowerOfTwo(n)
    ensures PowerOfTwo(2 * n)
  {}

  lemma {:induction false} PowerTimes(n: nat, m: nat)
    requires PowerOfTwo(n) && PowerOfTwo(m)
    ensures PowerOfTwo(n * m)
  {
    if n > 1 {
      var h := n / 2;
      PowerTimes(h, m);
      hide PowerOfTwo;
      Doubled(h * m);
      Twice(h, m);
    }
  }

  lemma Twice(h: nat, m: nat)
    ensures 2 * h * m == 2 * (h * m)
  {}

  lemma SequenceSpaceIsPower()
    ensures PowerOfTwo(0x1_0000_0000)
  {
    assert PowerOfTwo(2);
    PowerTimes(2, 2);
    PowerTimes(4, 4);
    PowerTimes(16, 16);
    PowerTimes(0x100, 0x100);
    PowerTimes(0x1_0000, 0x1_0000);
  }

  /** The slot of an index: the mask of the source, for a power of two. */
  function Slot(i: u32, entries: nat): nat
    requires RingSize(entries)
  {
    i % entries
  }

  lemma Regroup(q: nat, turns: nat, entries: nat, a: nat, r: nat)
    ensures q * (turns * entries) + (a * entries + r) == (q * turns + a) * entries + r
  {
    assert q * (turns * entries) == (q * turns) * entries;
  }

  lemma Exact(m: nat, d: nat)
    requires d > 0 && m % d == 0
    ensures m == m / d * d
  {}

  lemma WholeTurns(entries: nat)
    requires RingSize(entries)
    ensures 0x1_0000_0000 == 0x1_0000_0000 / entries * entries
  {
    SequenceSpaceIsPower();
    hide PowerOfTwo;
    PowersDivide(entries, 0x1_0000_0000);
    Exact(0x1_0000_0000, entries);
  }

  /** Index wrap does not disturb the slots: an entry's slot depends on its number alone. */
  lemma SlotOf(k: nat, entries: nat)
    requires RingSize(entries)
    ensures Slot(Wrap(k), entries) == k % entries
  {
    hide PowerOfTwo;
    WholeTurns(entries);
    var turns, q, w := 0x1_0000_0000 / entries, k / 0x1_0000_0000, Wrap(k);
    var a, r := w / entries, w % entries;
    hide Wrap;
    Regroup(q, turns, entries, a, r);
    RemainderOf(k, entries, q * turns + a, r);
  }

  /** Entries less than a ring apart never share a slot. */
  lemma SlotsDiffer(i: nat, k: nat, entries: nat)
    requires 0 < entries && i < k < i + entries
    ensures i % entries != k % entries
  {
    var a, b := i / entries, k / entries;
    assert (b - a) * entries == b * entries - a * entries;
    MulBounds(b - a, entries);
  }

  // ---------------------------------------------------------------- rings the program fills

  /** The fill ring and the TX ring. */
  class ProducerRing<T(0)> {
    const entries: nat
    const slots: array<T>
    var producer: u32
    var consumer: u32
    var cachedProducer: u32
    var cachedConsumer: u32
    /** Everything ever pushed, how much of it the kernel has taken, and how much of that was known
        when the consumer index was last read. */
    ghost var history: seq<T>
    ghost var taken: nat
    ghost var seen: nat

    ghost predicate Valid()
      reads this, slots
    {
      && RingSize(entries) && slots.Length == entries
      && seen <= taken <= |history| <= seen + entries
      && producer == cachedProducer == Wrap(|history|)
      && consumer == Wrap(taken)
      && cachedConsumer == Wrap(seen + entries)
      && forall k :: taken <= k < |history| ==> slots[k % entries] == history[k]
    }

    constructor (entries: nat)
      requires RingSize(entries)
      ensures Valid() && history == [] && taken == 0 && this.entries == entries && fresh(slots)
    {
      this.entries := entries;
      slots := new T[entries];
      producer, consumer, cachedProducer := 0, 0, 0;
      cachedConsumer := entries;
      history, taken, seen := [], 0, 0;
    }

    /** Room in the ring as far as is known; the consumer index is read again only if that is not enough. */
    method FreeSlots(needed: nat) returns (free: nat)
      requires Valid()
      modifies this`cachedConsumer, this`seen
      ensures Valid() && free == seen + entries - |history|
      ensures free <= entries - (|history| - taken)
      ensures free < needed ==> free == entries - (|history| - taken)
    {
      hide PowerOfTwo, Wrap, WrappingAdd, WrappingSub;
      WrapSub(seen + entries, |history|);
      free := WrappingSub(cachedConsumer, cachedProducer);
      if free < needed {
        WrapAdd(taken, entries);
        cachedConsumer := WrappingAdd(consumer, entries);
        seen := taken;
        WrapSub(seen + entries, |history|);
        free := WrappingSub(cachedConsumer, cachedProducer);
      }
    }

    /** Pushes as many items as there is room for, in order; no entry still in the ring is overwritten. */
    method Push(items: seq<T>) returns (n: nat)
      requires Valid()
      modifies this`cachedConsumer, this`seen, this`cachedProducer, this`producer, this`history, slots
      ensures Valid()
      ensures n == Min(|items|, entries - (|old(history)| - taken))
      ensures history == old(history) + items[..n]
    {
      hide PowerOfTwo, Wrap, WrappingAdd;
      var free := FreeSlots(|items|);
      n := if |items| <= free then |items| else free;
      Store(items, n);
      ghost var before := |history|;
      history := history + items[..n];
      WrapAdd(before, n);
      cachedProducer := WrappingAdd(cachedProducer, n);
      if n > 0 { producer := cachedProducer; } else { assert history == old(history); }
    }

    method Store(items: seq<T>, n: nat)
      requires Valid() && n <= |items| && |history| + n <= seen + entries
      modifies slots
      ensures forall k :: taken <= k < |history| ==> slots[k % entries] == history[k]
      ensures forall k :: |history| <= k < |history| + n ==> slots[k % entries] == items[k - |history|]
    {
      hide Wrap, WrappingAdd, PowerOfTwo;
      for i := 0 to n
        invariant Valid()
        invariant forall k :: |history| <= k < |history| + i ==> slots[k % entries] == items[k - |history|]
      {
        var at := |history| + i;
        assert Slot(WrappingAdd(cachedProducer, i), entries) == at % entries by {
          WrapAdd(|history|, i);
          SlotOf(at, entries);
        }
        forall k | taken <= k < at ensures k % entries != at % entries { SlotsDiffer(k, at, entries); }
        slots[Slot(WrappingAdd(cachedProducer, i), entries)] := items[i];
      }
    }

    /** The kernel takes entries in index order. */
    method KernelTake(n: nat) returns (out: seq<T>)
      requires Valid() && n <= |history| - taken
      modifies this`consumer, this`taken
      ensures Valid() && taken == old(taken) + n
      ensures out == history[old(taken)..taken]
    {
      hide PowerOfTwo, Wrap, WrappingAdd;
      out := [];
      for i := 0 to n
        invariant Valid() && taken == old(taken) + i
        invariant out == history[old(taken)..taken]
      {
        SlotOf(taken, entries);
        out := out + [slots[Slot(consumer, entries)]];
        WrapAdd(taken, 1);
        consumer := WrappingAdd(consumer, 1);
        taken := taken + 1;
      }
    }
  }

  /** The transmit path reserves slots, then pushes: whatever the kernel takes in between, exactly
      the reserved number of descriptors goes out. */
  method ReserveThenPush<T(0)>(ring: ProducerRing<T>, items: seq<T>, between: nat) returns (pushed: nat)
    requires ring.Valid() && between <= |ring.history| - ring.taken
    modifies ring, ring.slots
    ensures ring.Valid()
    ensures pushed == Min(|items|, ring.entries - (|old(ring.history)| - old(ring.taken)))
    ensures ring.history == old(ring.history) + items[..pushed]
  {
    var free := ring.FreeSlots(|items|);
    var n := if |items| <= free then |items| else free;
    var _ := ring.KernelTake(between);
    pushed := ring.Push(items[..n]);
    assert pushed == n;
  }

  // ---------------------------------------------------------------- rings the kernel fills

  /** The completion ring and the RX ring. */
  class ConsumerRing<T(0)> {
    const entries: nat
    const slots: array<T>
    var producer: u32
    var consumer: u32
    var cachedConsumer: u32
    ghost var history: seq<T>
    ghost var taken: nat

    ghost predicate Valid()
      reads this, slots
    {
      && RingSize(entries) && slots.Length == entries
      && taken <= |history| <= taken + entries
      && producer == Wrap(|history|)
      && consumer == cachedConsumer == Wrap(taken)
      && forall k :: taken <= k < |history| ==> slots[k % entries] == history[k]
    }

    constructor (entries: nat)
      requires RingSize(entries)
      ensures Valid() && history == [] && taken == 0 && this.entries == entries && fresh(slots)
    {
      this.entries := entries;
      slots := new T[entries];
      producer, consumer, cachedConsumer := 0, 0, 0;
      history, taken := [], 0;
    }

    /** The kernel adds an entry behind those it has added before, in a slot that is free. */
    method KernelPut(item: T)
      requires Valid() && |history| < taken + entries
      modifies this`producer, this`history, slots
      ensures Valid() && history == old(history) + [item]
    {
      hide PowerOfTwo, Wrap, WrappingAdd;
      var at := |history|;
      forall k | taken <= k < at ensures k % entries != at % entries { SlotsDiffer(k, at, entries); }
      SlotOf(at, entries);
      slots[Slot(producer, entries)] := item;
      WrapAdd(at, 1);
      producer := WrappingAdd(producer, 1);
      history := history + [item];
    }

    /** Entries come out once and in order: the completion ring's loop. */
    method Pop(max: nat) returns (out: seq<T>)
      requires Valid()
      modifies this`consumer, this`cachedConsumer, this`taken
      ensures Valid()
      ensures |out| == Min(max, |history| - old(taken))
      ensures taken == old(taken) + |out| && out == history[old(taken)..taken]
    {
      hide PowerOfTwo, Wrap, WrappingAdd;
      var prod := producer;
      out := [];
      WrapInjective(|history|, taken);
      while cachedConsumer != prod && |out| < max
        invariant RingSize(entries) && prod == Wrap(|history|)
        invariant |out| <= max && taken <= |history| <= old(taken) + entries
        invariant taken == old(taken) + |out| && cachedConsumer == Wrap(taken)
        invariant out == history[old(taken)..taken]
        invariant cachedConsumer != prod <==> taken < |history|
        decreases max - |out|
        modifies this`cachedConsumer, this`taken
      {
        SlotOf(taken, entries);
        out := out + [slots[Slot(cachedConsumer, entries)]];
        WrapAdd(taken, 1);
        cachedConsumer := WrappingAdd(cachedConsumer, 1);
        taken := taken + 1;
        WrapInjective(|history|, taken);
      }
      if |out| > 0 { consumer := cachedConsumer; }
    }

    /** The same for the RX ring, which computes the number of entries first. */
    method PopBatch(max: nat) returns (out: seq<T>)
      requires Valid()
      modifies this`consumer, this`cachedConsumer, this`taken
      ensures Valid()
      ensures |out| == Min(max, |history| - old(taken))
      ensures taken == old(taken) + |out| && out == history[old(taken)..taken]
    {
      hide PowerOfTwo, Wrap, WrappingAdd, WrappingSub;
      WrapSub(|history|, taken);
      var n := WrappingSub(producer, cachedConsumer);
      if max < n { n := max; }
      out := [];
      for i := 0 to n
        invariant out == history[taken..taken + i]
        modifies {}
      {
        WrapAdd(taken, i);
        SlotOf(taken + i, entries);
        out := out + [slots[Slot(WrappingAdd(cachedConsumer, i), entries)]];
      }
      WrapAdd(taken, n);
      cachedConsumer := WrappingAdd(cachedConsumer, n);
      taken := taken + n;
      if n > 0 { consumer := cachedConsumer; }
    }
  }
}
