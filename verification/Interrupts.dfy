/** Dispatching of interrupts by their status words (board/ftintc.c). */
module Interrupts {
  import opened Arithmetic
  import opened Words

  ghost predicate BitSet(w: nat, k: nat) {
    w / Pow2(k) % 2 == 1
  }

  /** The numbers of the set bits of w, from the lowest on, when bit 0 has number base. */
  function Slots(w: nat, base: nat): seq<nat>
    decreases w
  {
    if w == 0 then []
    else (if w % 2 == 1 then [base] else []) + Slots(w / 2, base + 1)
  }

  /** The number of set bits. */
  function Ones(w: nat): nat
    decreases w
  {
    if w == 0 then 0 else w % 2 + Ones(w / 2)
  }

  lemma {:induction false} SlotsCount(w: nat, base: nat)
    ensures |Slots(w, base)| == Ones(w)
    decreases w
  {
    if w > 0 {
      SlotsCount(w / 2, base + 1);
    }
  }

  /** The slots are in strictly ascending order. */
  lemma {:induction false} SlotsAscend(w: nat, base: nat)
    ensures forall i :: 0 <= i < |Slots(w, base)| ==> base <= Slots(w, base)[i]
    ensures forall i, j :: 0 <= i < j < |Slots(w, base)| ==> Slots(w, base)[i] < Slots(w, base)[j]
    decreases w
  {
    if w > 0 {
      SlotsAscend(w / 2, base + 1);
    }
  }

  lemma HalfBit(w: nat, k: nat)
    requires k > 0
    ensures BitSet(w, k) <==> BitSet(w / 2, k - 1)
  {
    var p := Pow2(k - 1);
    HalfTwice(w, p);
  }

  lemma HalfTwice(w: nat, p: nat)
    requires p > 0
    ensures w / (2 * p) == w / 2 / p
  {
    var h, b := DivDef(w, 2);
    var q, r := DivDef(h, p);
    Distribute(q, p, r, 2);
    assert w == q * (2 * p) + (r * 2 + b);
    Div(q, r * 2 + b, 2 * p);
  }

  /** There is a slot for exactly each set bit. */
  lemma {:induction false} SlotsAreBits(w: nat, base: nat, k: nat)
    ensures base + k in Slots(w, base) <==> BitSet(w, k)
    decreases w
  {
    hide BitSet, Slots;
    SlotsCases(w, base);
    var rest := Slots(w / 2, base + 1);
    if w == 0 {
      ZeroBits(k);
    } else if k > 0 {
      HalfBit(w, k);
      SlotsAreBits(w / 2, base + 1, k - 1);
      assert base + k in Slots(w, base) <==> base + k in rest;
    } else {
      LowBit(w);
      SlotsAscend(w / 2, base + 1);
      assert base !in rest;
    }
  }

  lemma SlotsCases(w: nat, base: nat)
    ensures Slots(0, base) == []
    ensures w > 0 ==> Slots(w, base) == (if w % 2 == 1 then [base] else []) + Slots(w / 2, base + 1)
  {
  }

  lemma ZeroBits(k: nat)
    ensures !BitSet(0, k)
  {
    Div(0, 0, Pow2(k));
  }

  lemma LowBit(w: nat)
    ensures BitSet(w, 0) <==> w % 2 == 1
  {
    assert Pow2(0) == 1;
  }

  /** Shifting out zeros renumbers the bits. */
  lemma {:induction false} SlotsShift(w: nat, base: nat, k: nat)
    requires w % Pow2(k) == 0
    ensures Slots(w, base) == Slots(w / Pow2(k), base + k)
    decreases k
  {
    if k == 0 {
      assert w / 1 == w;
    } else {
      var p := Pow2(k - 1);
      var q, _ := DivDef(w, 2 * p);
      Distribute(0, 0, q * p, 2);
      assert w == q * p * 2;
      Div(q * p, 0, 2);
      Div(q, 0, p);
      SlotsShift(w / 2, base + 1, k - 1);
      HalfTwice(w, p);
    }
  }

  /** The slots beyond 32 bits do not exist. */
  lemma {:induction false} SlotsBelow(w: nat, base: nat, n: nat)
    requires w < Pow2(n)
    ensures forall i :: 0 <= i < |Slots(w, base)| ==> base <= Slots(w, base)[i] < base + n
    decreases n
  {
    if w > 0 && n > 0 {
      SlotsBelow(w / 2, base + 1, n - 1);
    }
  }

  /** A handler with its private argument, or none. */
  datatype Slot = Empty | Installed(handler: nat, arg: nat)

  /** What happens for an interrupt: its handler runs, or a message says that there is none. */
  datatype Event = Handled(irq: nat, handler: nat, arg: nat) | NoHandler(irq: nat)

  function EventOf(vector: seq<Slot>, irq: nat): Event
    requires irq < |vector|
  {
    if vector[irq] == Empty then NoHandler(irq) else Handled(irq, vector[irq].handler, vector[irq].arg)
  }

  function EventsOf(vector: seq<Slot>, slots: seq<nat>): (r: seq<Event>)
    requires forall i :: 0 <= i < |slots| ==> slots[i] < |vector|
    ensures |r| == |slots| && forall i :: 0 <= i < |slots| ==> r[i] == EventOf(vector, slots[i])
  {
    seq(|slots|, i requires 0 <= i < |slots| => EventOf(vector, slots[i]))
  }

  /** One halving step: if the low k bits of a value are all zero, they are shifted out and counted. */
  method ShiftOut(flags0: u32, IRQ0: nat, k: nat, p: nat) returns (flags: u32, IRQ: nat)
    requires p == Pow2(k) && flags0 % (p * p) != 0
    ensures flags % p != 0 && Slots(flags, IRQ) == Slots(flags0, IRQ0)
  {
    hide Slots, Pow2;
    flags, IRQ := flags0, IRQ0;
    if flags % p == 0 {
      SlotsShift(flags, IRQ, k);
      HighPart(flags, p);
      IRQ, flags := IRQ + k, flags / p;
    }
  }

  lemma HighPart(w: nat, p: nat)
    requires p > 0 && w % p == 0
    ensures w / p <= w
    ensures w % (p * p) != 0 ==> w / p % p != 0
  {
    var q, _ := DivDef(w, p);
    var a, b := DivDef(q, p);
    MulMono(1, p, q);
    Distribute(a, p, b, p);
    if b == 0 {
      Div(a, 0, p * p);
    }
  }

  /** The steps that shift the lowest set bit to bit 0, and count. */
  method FindLowest(flags0: u32, IRQ0: nat) returns (flags: u32, IRQ: nat)
    requires flags0 != 0
    ensures flags % 2 == 1 && Slots(flags, IRQ) == Slots(flags0, IRQ0)
  {
    hide Slots, Pow2;
    Powers();
    flags, IRQ := ShiftOut(flags0, IRQ0, 16, 0x1_0000);
    flags, IRQ := ShiftOut(flags, IRQ, 8, 0x100);
    flags, IRQ := ShiftOut(flags, IRQ, 4, 0x10);
    flags, IRQ := ShiftOut(flags, IRQ, 2, 4);
    flags, IRQ := ShiftOut(flags, IRQ, 1, 2);
  }

  ghost predicate InVector(slots: seq<nat>, size: nat) {
    forall i :: 0 <= i < |slots| ==> slots[i] < size
  }

  /** An odd status word: the first slot is that of bit 0, and clearing the bit leaves the others. */
  lemma LowestSlot(w: nat, base: nat)
    requires w % 2 == 1
    ensures Slots(w, base) == [base] + Slots(w - 1, base)
    ensures Ones(w) == Ones(w - 1) + 1
  {
  }

  /** `while (flags != 0)`: the loop of DispatchIRQ over one status word. */
  method ServeAll(status: u32, base: nat, vector: array<Slot>) returns (events: seq<Event>)
    requires InVector(Slots(status, base), vector.Length)
    ensures events == EventsOf(vector[..], Slots(status, base))
  {
    hide Slots, Ones;
    var flags, IRQ := status, base;
    events := [];
    NoSlots(base);
    ghost var done: seq<nat> := [];
    while flags != 0
      invariant 0 <= flags < 0x1_0000_0000 && 0 <= IRQ
      invariant done + Slots(flags, IRQ) == Slots(status, base) && InVector(done, vector.Length)
      invariant events == EventsOf(vector[..], done)
      decreases Ones(flags)
    {
      SlotsCount(flags, IRQ);
      flags, IRQ := FindLowest(flags, IRQ);
      SlotsCount(flags, IRQ);
      LowestSlot(flags, IRQ);
      assert Slots(status, base)[|done|] == IRQ;
      if vector[IRQ] == Empty {
        events := events + [NoHandler(IRQ)];
      } else {
        events := events + [Handled(IRQ, vector[IRQ].handler, vector[IRQ].arg)];
      }
      done := done + [IRQ];
      flags := flags - flags % 2;
    }
    NoSlots(IRQ);
  }

  lemma NoSlots(base: nat)
    ensures Slots(0, base) == []
  {
  }

  /** The loop of DispatchFIQ over one status word, which clears all flags after the first. */
  method ServeLowest(status: u32, base: nat, vector: array<Slot>) returns (events: seq<Event>)
    requires InVector(Slots(status, base), vector.Length)
    ensures events == EventsOf(vector[..], FirstOf(Slots(status, base)))
  {
    hide Slots, Ones;
    var flags, FIQ := status, base;
    events := [];
    NoSlots(base);
    while flags != 0
      invariant 0 <= flags < 0x1_0000_0000 && 0 <= FIQ
      invariant flags != 0 ==> flags == status && FIQ == base && events == []
      invariant flags == 0 ==> events == EventsOf(vector[..], FirstOf(Slots(status, base)))
      decreases flags
    {
      flags, FIQ := FindLowest(flags, FIQ);
      LowestSlot(flags, FIQ);
      assert Slots(status, base)[0] == FIQ;
      if vector[FIQ] == Empty {
        events := events + [NoHandler(FIQ)];
      } else {
        events := events + [Handled(FIQ, vector[FIQ].handler, vector[FIQ].arg)];
      }
      flags := 0;
    }
  }

  function FirstOf(slots: seq<nat>): (r: seq<nat>)
    ensures |r| <= 1 && r <= slots
  {
    if |slots| == 0 then [] else [slots[0]]
  }

  /** The interrupts that the two status words announce. */
  function Pending(status: u32, estatus: u32): seq<nat> {
    Slots(status, 0) + Slots(estatus, 32)
  }

  /** The lowest interrupt of each word. */
  function Lowest(status: u32, estatus: u32): seq<nat> {
    FirstOf(Slots(status, 0)) + FirstOf(Slots(estatus, 32))
  }

  /** Each set bit of the two words stands for one interrupt, and they come in ascending order. */
  lemma PendingMeaning(status: u32, estatus: u32)
    ensures forall k: nat :: k in Pending(status, estatus) <==>
      (k < 32 && BitSet(status, k)) || (32 <= k < 64 && BitSet(estatus, k - 32))
    ensures forall i, j :: 0 <= i < j < |Pending(status, estatus)| ==> Pending(status, estatus)[i] < Pending(status, estatus)[j]
    ensures |Pending(status, estatus)| == Ones(status) + Ones(estatus)
  {
    hide Slots, Ones, BitSet, Pow2;
    Powers();
    SlotsCount(status, 0);
    SlotsCount(estatus, 32);
    SlotsAscend(status, 0);
    SlotsAscend(estatus, 32);
    SlotsBelow(status, 0, 32);
    SlotsBelow(estatus, 32, 32);
    forall k: nat
      ensures k in Pending(status, estatus) <==> (k < 32 && BitSet(status, k)) || (32 <= k < 64 && BitSet(estatus, k - 32))
    {
      SlotsAreBits(status, 0, k);
      if k >= 32 {
        SlotsAreBits(estatus, 32, k - 32);
      }
    }
  }

  /** Interrupt k is pending: bit k of the first word or, from 32 on, bit k - 32 of the second. */
  ghost predicate Announced(status: u32, estatus: u32, k: nat) {
    (k < 32 && BitSet(status, k)) || (32 <= k < 64 && BitSet(estatus, k - 32))
  }

  lemma PendingIs(status: u32, estatus: u32)
    ensures Pending(status, estatus) == Slots(status, 0) + Slots(estatus, 32)
  {
  }

  lemma EventsAnnounced(status: u32, estatus: u32, vector: seq<Slot>)
    requires InVector(Pending(status, estatus), |vector|)
    ensures var events := EventsOf(vector, Pending(status, estatus));
            forall k: nat :: Announced(status, estatus, k) <==> exists i :: 0 <= i < |events| && events[i].irq == k
  {
    hide Pending, BitSet;
    PendingMeaning(status, estatus);
    var slots, events := Pending(status, estatus), EventsOf(vector, Pending(status, estatus));
    forall k: nat
      ensures Announced(status, estatus, k) <==> exists i :: 0 <= i < |events| && events[i].irq == k
    {
      if k in slots {
        var i :| 0 <= i < |slots| && slots[i] == k;
        assert events[i].irq == k;
      }
    }
  }

  method DispatchIRQ(status: u32, estatus: u32, vector: array<Slot>) returns (events: seq<Event>)
    requires InVector(Pending(status, estatus), vector.Length)
    ensures events == EventsOf(vector[..], Pending(status, estatus))
    // one event for each set bit of the two words, in ascending order
    ensures forall k: nat :: Announced(status, estatus, k) <==> exists i :: 0 <= i < |events| && events[i].irq == k
    ensures forall i, j :: 0 <= i < j < |events| ==> events[i].irq < events[j].irq
    // the handler of the interrupt runs if there is one
    ensures forall i :: 0 <= i < |events| ==> events[i].irq < vector.Length
    ensures forall i :: 0 <= i < |events| ==>
      match vector[events[i].irq]
      case Empty => events[i].NoHandler?
      case Installed(handler, arg) => events[i].Handled? && events[i].handler == handler && events[i].arg == arg
  {
    hide Slots, Pending, Announced;
    PendingIs(status, estatus);
    PendingMeaning(status, estatus);
    EventsAnnounced(status, estatus, vector[..]);
    InBoth(Slots(status, 0), Slots(estatus, 32), vector.Length);
    events := ServeAll(status, 0, vector);
    var more := ServeAll(estatus, 32, vector);
    events := events + more;
  }

  lemma InBoth(a: seq<nat>, b: seq<nat>, size: nat)
    requires InVector(a + b, size)
    ensures InVector(a, size) && InVector(b, size)
  {
    forall i | 0 <= i < |a|
      ensures a[i] < size
    {
      assert (a + b)[i] == a[i];
    }
    forall i | 0 <= i < |b|
      ensures b[i] < size
    {
      assert (a + b)[|a| + i] == b[i];
    }
  }

  ghost predicate IsLowest(w: nat, k: nat) {
    BitSet(w, k) && forall j: nat :: j < k ==> !BitSet(w, j)
  }

  /** A word has a lowest set bit exactly if it is not zero. */
  lemma {:induction false} HasLowest(w: nat) returns (k: nat)
    requires w > 0
    ensures IsLowest(w, k)
    decreases w
  {
    hide Pow2;
    LowBit(w);
    if w % 2 == 1 {
      k := 0;
    } else {
      var half := HasLowest(w / 2);
      k := half + 1;
      forall j: nat | 0 < j <= k
        ensures BitSet(w, j) <==> BitSet(w / 2, j - 1)
      {
        HalfBit(w, j);
      }
    }
  }

  /** The first slot is that of the lowest set bit; there is none if no bit is set. */
  lemma LowestIsFirst(w: nat, base: nat)
    ensures |Slots(w, base)| > 0 <==> w > 0
    ensures forall k: nat :: IsLowest(w, k) ==> |Slots(w, base)| > 0 && Slots(w, base)[0] == base + k
  {
    hide Slots, BitSet;
    if w > 0 {
      var k := HasLowest(w);
      SlotsAreBits(w, base, k);
    } else {
      NoSlots(base);
    }
    forall k: nat | IsLowest(w, k)
      ensures |Slots(w, base)| > 0 && Slots(w, base)[0] == base + k
    {
      SlotsAreBits(w, base, k);
      SlotsAscend(w, base);
      var first := Slots(w, base)[0];
      SlotsAreBits(w, base, first - base);
    }
  }

  method DispatchFIQ(status: u32, estatus: u32, vector: array<Slot>) returns (events: seq<Event>)
    requires InVector(Pending(status, estatus), vector.Length)
    ensures InVector(Lowest(status, estatus), vector.Length) && events == EventsOf(vector[..], Lowest(status, estatus))
    // one event for each word that is not zero, that of its lowest set bit
    ensures |events| == (if status != 0 then 1 else 0) + (if estatus != 0 then 1 else 0)
    ensures forall k: nat :: IsLowest(status, k) ==> |events| > 0 && events[0].irq == k
    ensures forall k: nat :: IsLowest(estatus, k) ==> |events| > 0 && events[|events| - 1].irq == 32 + k
    // the handler of the interrupt runs if there is one
    ensures forall i :: 0 <= i < |events| ==> events[i].irq < vector.Length
    ensures forall i :: 0 <= i < |events| ==>
      match vector[events[i].irq]
      case Empty => events[i].NoHandler?
      case Installed(handler, arg) => events[i].Handled? && events[i].handler == handler && events[i].arg == arg
  {
    hide Slots, IsLowest;
    LowestIsFirst(status, 0);
    LowestIsFirst(estatus, 32);
    InBoth(Slots(status, 0), Slots(estatus, 32), vector.Length);
    events := ServeLowest(status, 0, vector);
    var more := ServeLowest(estatus, 32, vector);
    events := events + more;
  }

  /** DispatchFIQ serves every pending interrupt exactly if no word has more than one bit set. */
  lemma FIQServesAll(status: u32, estatus: u32)
    ensures Lowest(status, estatus) == Pending(status, estatus)
       <==> Ones(status) <= 1 && Ones(estatus) <= 1
  {
    hide Slots, Ones;
    SlotsCount(status, 0);
    SlotsCount(estatus, 32);
    FirstIsAll(Slots(status, 0));
    FirstIsAll(Slots(estatus, 32));
  }

  lemma FirstIsAll(slots: seq<nat>)
    ensures |slots| <= 1 ==> FirstOf(slots) == slots
  {
  }
}
