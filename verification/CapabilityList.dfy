/** The register bytes hold a sequence: walking them yields exactly what was added, in order. */
module CapabilityList {
  import opened Basics
  import opened Bits
  import opened RegisterBlock
  import opened ConfigSpace
  import opened Capabilities

  /** An added capability and where its header starts. */
  datatype Slot = Slot(start: nat, cap: Capability)

  function End(slot: Slot): nat {
    slot.start + 2 + |slot.cap.registers|
  }

  /** Where the next capability will start. */
  function NextStart(slots: seq<Slot>): nat {
    if slots == [] then DEVICE_START else Align4(End(slots[|slots| - 1]))
  }

  /** Slot `i` starts at the first dword boundary behind its predecessor and ends inside the device area. */
  ghost predicate Seated(slots: seq<Slot>, i: nat)
    requires i < |slots|
  {
    && CapabilityArgument(slots[i].cap)
    && End(slots[i]) <= DEVICE_END
    && slots[i].start == if i == 0 then DEVICE_START else Align4(End(slots[i - 1]))
  }

  ghost predicate Layout(slots: seq<Slot>) {
    forall i :: 0 <= i < |slots| ==> Seated(slots, i)
  }

  /** The start of slot `i`, or 0 past the end: what the pointer before it must hold. */
  function StartOf(slots: seq<Slot>, i: nat): nat {
    if i < |slots| then slots[i].start else 0
  }

  /** The header of slot `i` is in place and points at slot `i + 1`. */
  ghost predicate Linked(regs: Bytes, slots: seq<Slot>, i: nat)
    requires |regs| == SPACE_SIZE && i < |slots|
  {
    && End(slots[i]) <= DEVICE_END
    && regs[slots[i].start] == slots[i].cap.id
    && Val(regs[slots[i].start + 1]) == StartOf(slots, i + 1)
  }

  /** The bytes the iterator reads: the pointers and the headers. */
  ghost predicate Chain(regs: Bytes, slots: seq<Slot>) {
    && |regs| == SPACE_SIZE && Layout(slots)
    && Val(regs[CAP_POINTER]) == StartOf(slots, 0)
    && forall i :: 0 <= i < |slots| ==> Linked(regs, slots, i)
  }

  /** Data and writable bits of a slot as stored; the guest may have changed writable bits. */
  ghost predicate Stored(s: Space, slot: Slot)
    requires WellFormed(s)
  {
    && CapabilityArgument(slot.cap) && End(slot) <= DEVICE_END
    && s.writable[slot.start] == s.writable[slot.start + 1] == ZERO_BYTE
    && s.writable[slot.start + 2..End(slot)] == slot.cap.writable
    && SameReadOnlyBits(slot.cap.writable, slot.cap.registers, s.regs[slot.start + 2..End(slot)])
  }

  ghost predicate Contents(s: Space, slots: seq<Slot>)
    requires WellFormed(s)
  {
    && s.writable[CAP_POINTER] == ZERO_BYTE
    && (forall i :: 0 <= i < |slots| ==> Stored(s, slots[i]))
    && (slots != [] ==> s.lastCapSize == |slots[|slots| - 1].cap.registers|)
    && (forall j :: NextStart(slots) <= j < SPACE_SIZE ==> s.writable[j] == ZERO_BYTE)
  }

  ghost predicate Holds(s: Space, slots: seq<Slot>) {
    WellFormed(s) && Chain(s.regs, slots) && Contents(s, slots)
  }

  /** What the iterator should yield for slot `i`. */
  function ItemOf(slots: seq<Slot>, i: nat): Item
    requires i < |slots|
  {
    Item(slots[i].cap.id, StartOf(slots, i + 1), slots[i].start + 2)
  }

  function Items(slots: seq<Slot>): seq<Item> {
    seq(|slots|, i requires 0 <= i < |slots| => ItemOf(slots, i))
  }

  lemma {:induction false} Start(slots: seq<Slot>, i: nat)
    requires Layout(slots) && i < |slots|
    ensures slots[i].start >= DEVICE_START + 4 * i && slots[i].start % 4 == 0
    ensures CapabilityArgument(slots[i].cap) && End(slots[i]) <= DEVICE_END
  {
    assert Seated(slots, i);
    if i > 0 {
      Start(slots, i - 1);
    }
  }

  /** Starts are strictly increasing with disjoint extents. */
  lemma {:induction false} Ordered(slots: seq<Slot>, i: nat, k: nat)
    requires Layout(slots) && i < k < |slots|
    ensures Align4(End(slots[i])) <= slots[k].start
  {
    assert Seated(slots, k);
    if k > i + 1 {
      Ordered(slots, i, k - 1);
    }
  }

  lemma PointerByte(n: nat)
    requires n < 256
    ensures Val(ToByte(n)) == n
  {
    assert Pow2(8) == 256;
    ValToBits(n, 8);
  }

  lemma {:induction false} AlignedPointer(b: Byte)
    requires Val(b) % 4 == 0
    ensures From(b, 2) == b
  {
    assert Pow2(2) == 4;
    ToBitsVal(b);
    AlignedBits(Val(b), 2, 8);
  }

  /** The iterator pointer that leads to slot `i`. */
  function PointerTo(slots: seq<Slot>, i: nat): nat
    requires i <= |slots|
  {
    if i == 0 then CAP_POINTER else slots[i - 1].start + 1
  }

  lemma PointerHolds(regs: Bytes, slots: seq<Slot>, i: nat)
    requires Chain(regs, slots) && i <= |slots|
    ensures PointerTo(slots, i) < SPACE_SIZE && Val(regs[PointerTo(slots, i)]) == StartOf(slots, i)
    ensures PointerTo(slots, i) > 1 && (i < |slots| ==> PointerTo(slots, i) < slots[i].start)
  {
    if i > 0 {
      Start(slots, i - 1);
      assert Linked(regs, slots, i - 1);
    }
    if i < |slots| {
      assert Seated(slots, i);
    }
  }

  lemma NextIs(regs: Bytes, slots: seq<Slot>, i: nat)
    requires Chain(regs, slots) && i <= |slots| && PointerTo(slots, i) < SPACE_SIZE
    ensures IterNext(regs, PointerTo(slots, i)) == if i < |slots| then Some(ItemOf(slots, i)) else None
  {
    PointerHolds(regs, slots, i);
    if i < |slots| {
      Start(slots, i);
      assert Linked(regs, slots, i);
      if i + 1 < |slots| {
        Ordered(slots, i, i + 1);
      }
    }
    AlignedPointer(regs[PointerTo(slots, i)]);
  }

  /** From slot `i`, any number of iterator calls that suffices yields the rest of the sequence and then stops. */
  lemma {:induction false} WalkYields(regs: Bytes, slots: seq<Slot>, i: nat, calls: nat)
    requires Chain(regs, slots) && i <= |slots| && |slots| - i < calls && PointerTo(slots, i) < SPACE_SIZE
    ensures Walk(regs, PointerTo(slots, i), calls) == Items(slots)[i..]
    decreases |slots| - i
  {
    NextIs(regs, slots, i);
    if i < |slots| {
      PointerHolds(regs, slots, i + 1);
      WalkYields(regs, slots, i + 1, calls - 1);
      assert Items(slots)[i..] == [ItemOf(slots, i)] + Items(slots)[i + 1..];
    }
  }

  /** The whole walk: the added capabilities, in order, at the returned offsets, and nothing more. */
  lemma {:induction false} WholeWalk(regs: Bytes, slots: seq<Slot>, calls: nat)
    requires Chain(regs, slots) && calls >= |regs|
    ensures Walk(regs, CAP_POINTER, calls) == Items(slots)
  {
    if slots != [] {
      Start(slots, |slots| - 1);
    }
    WalkYields(regs, slots, 0, calls);
  }

  /**
   A list of two that points back at itself ends, after one element, however often the iterator is called; reserved
   low bits of the pointers are ignored.
   */
  lemma {:induction false} BackPointerEnds(regs: Bytes, a: nat, b: nat, calls: nat)
    requires |regs| == SPACE_SIZE && DEVICE_START <= a < b && b + 4 <= SPACE_SIZE && calls >= 2
    requires Val(From(regs[CAP_POINTER], 2)) == a && Val(From(regs[a + 1], 2)) == b && Val(regs[b + 1]) == a
    requires Val(regs[a + 1]) + 1 != CAP_POINTER
    ensures Walk(regs, CAP_POINTER, calls) == [Item(regs[a], Val(regs[a + 1]), a + 2)]
  {
    hide Val, From;
    assert IterNext(regs, CAP_POINTER) == Some(Item(regs[a], Val(regs[a + 1]), a + 2));
    assert IterNext(regs, a + 1).None?;
    assert Walk(regs, a + 1, calls - 1) == [];
  }

  function LastStart(slots: seq<Slot>): nat {
    if slots == [] then 0 else slots[|slots| - 1].start
  }

  lemma AppendPointIs(s: Space, slots: seq<Slot>)
    requires WellFormed(s) && Chain(s.regs, slots)
    requires slots != [] ==> s.lastCapSize == |slots[|slots| - 1].cap.registers|
    ensures AppendPoint(s) == (NextStart(slots), LastStart(slots))
  {
    WholeWalk(s.regs, slots, |s.regs|);
    AppendAtItems(slots, s.lastCapSize);
  }

  lemma AppendAtItems(slots: seq<Slot>, size: nat)
    requires Layout(slots) && (slots != [] ==> size == |slots[|slots| - 1].cap.registers|)
    requires slots != [] ==> DEVICE_START + 2 <= Items(slots)[|Items(slots)| - 1].data <= SPACE_SIZE - 2
    ensures AppendAt(Items(slots), size) == (NextStart(slots), LastStart(slots))
  {
  }

  /** `add_capability` succeeds exactly when the capability fits, and then appends one element to the sequence. */
  lemma AddAppends(s: Space, slots: seq<Slot>, cap: Capability)
    requires Holds(s, slots) && CapabilityArgument(cap)
    ensures AddCapability(s, cap).Ok? <==> NextStart(slots) + 2 + |cap.registers| <= DEVICE_END
    ensures AddCapability(s, cap).Ok? ==>
              && AddCapability(s, cap).value.1 == NextStart(slots) + 2
              && Holds(AddCapability(s, cap).value.0, slots + [Slot(NextStart(slots), cap)])
  {
    AppendPointFor(s, slots);
    hide Holds, AppendPoint, Append;
    if NextStart(slots) + 2 + |cap.registers| <= DEVICE_END {
      AppendHolds(s, slots, cap);
    }
  }

  lemma AppendPointFor(s: Space, slots: seq<Slot>)
    requires Holds(s, slots)
    ensures WellFormed(s) && AppendPoint(s) == (NextStart(slots), LastStart(slots))
  {
    AppendPointIs(s, slots);
  }

  lemma AppendHolds(s: Space, slots: seq<Slot>, cap: Capability)
    requires Holds(s, slots) && CapabilityArgument(cap)
    requires NextStart(slots) + 2 + |cap.registers| <= DEVICE_END
    ensures LastStart(slots) + 4 <= SPACE_SIZE
    ensures Holds(Append(s, cap, NextStart(slots), LastStart(slots)), slots + [Slot(NextStart(slots), cap)])
  {
    if slots != [] {
      Start(slots, |slots| - 1);
    }
    AppendChain(s, slots, cap, Append(s, cap, NextStart(slots), LastStart(slots)));
    AppendContents(s, slots, cap, Append(s, cap, NextStart(slots), LastStart(slots)));
  }

  lemma AppendLayout(slots: seq<Slot>, cap: Capability)
    requires Layout(slots) && CapabilityArgument(cap)
    requires NextStart(slots) + 2 + |cap.registers| <= DEVICE_END
    ensures Layout(slots + [Slot(NextStart(slots), cap)])
  {
    var more := slots + [Slot(NextStart(slots), cap)];
    forall i | 0 <= i < |more| ensures Seated(more, i) {
      if i < |slots| {
        assert Seated(slots, i);
      }
    }
  }

  lemma AppendChain(s: Space, slots: seq<Slot>, cap: Capability, t: Space)
    requires WellFormed(s) && Chain(s.regs, slots) && CapabilityArgument(cap)
    requires NextStart(slots) + 2 + |cap.registers| <= DEVICE_END && LastStart(slots) + 4 <= SPACE_SIZE
    requires t == Append(s, cap, NextStart(slots), LastStart(slots))
    ensures Chain(t.regs, slots + [Slot(NextStart(slots), cap)])
  {
    hide Append, Linked, Layout;
    var more := slots + [Slot(NextStart(slots), cap)];
    AppendLayout(slots, cap);
    FirstPointer(s, slots, cap, t);
    forall i | 0 <= i < |more| ensures Linked(t.regs, more, i) {
      if i < |slots| {
        KeptLink(s, slots, cap, t, i);
      } else {
        LastLink(s, slots, cap, t);
      }
    }
  }

  /** The capability pointer leads to the first slot. */
  lemma FirstPointer(s: Space, slots: seq<Slot>, cap: Capability, t: Space)
    requires WellFormed(s) && Chain(s.regs, slots) && CapabilityArgument(cap)
    requires NextStart(slots) + 2 + |cap.registers| <= DEVICE_END && LastStart(slots) + 4 <= SPACE_SIZE
    requires t == Append(s, cap, NextStart(slots), LastStart(slots))
    ensures |t.regs| == SPACE_SIZE && Val(t.regs[CAP_POINTER]) == StartOf(slots + [Slot(NextStart(slots), cap)], 0)
  {
    hide Linked, Seated;
    PointerByte(DEVICE_START);
    if slots != [] {
      Before(slots, cap, 0);
      Before(slots, cap, |slots| - 1);
    }
  }

  /** The new header ends the list. */
  lemma LastLink(s: Space, slots: seq<Slot>, cap: Capability, t: Space)
    requires WellFormed(s) && Layout(slots) && CapabilityArgument(cap)
    requires NextStart(slots) + 2 + |cap.registers| <= DEVICE_END && LastStart(slots) + 4 <= SPACE_SIZE
    requires t == Append(s, cap, NextStart(slots), LastStart(slots))
    ensures Linked(t.regs, slots + [Slot(NextStart(slots), cap)], |slots|)
  {
    assert ZERO_BYTE == Zeros(8);
    ZerosVal(8);
    if slots != [] {
      Before(slots, cap, |slots| - 1);
    }
  }

  lemma KeptLink(s: Space, slots: seq<Slot>, cap: Capability, t: Space, i: nat)
    requires WellFormed(s) && Chain(s.regs, slots) && CapabilityArgument(cap) && i < |slots|
    requires NextStart(slots) + 2 + |cap.registers| <= DEVICE_END && LastStart(slots) + 4 <= SPACE_SIZE
    requires t == Append(s, cap, NextStart(slots), LastStart(slots))
    ensures Linked(t.regs, slots + [Slot(NextStart(slots), cap)], i)
  {
    Before(slots, cap, i);
    Before(slots, cap, |slots| - 1);
    assert Linked(s.regs, slots, i);
    PointerByte(NextStart(slots));
    var j := slots[i].start;
    assert t.regs[j] == s.regs[j];
    assert t.regs[j + 1] == if i + 1 < |slots| then s.regs[j + 1] else ToByte(NextStart(slots));
  }

  /** Slot `i` lies before the place of the next capability, and before the last slot unless it is the last. */
  lemma Before(slots: seq<Slot>, cap: Capability, i: nat)
    requires Layout(slots) && i < |slots|
    ensures DEVICE_START <= slots[i].start && End(slots[i]) <= NextStart(slots)
    ensures CapabilityArgument(slots[i].cap) && End(slots[i]) <= DEVICE_END
    ensures i + 1 < |slots| ==> End(slots[i]) <= LastStart(slots)
  {
    Start(slots, i);
    if i + 1 < |slots| {
      Ordered(slots, i, |slots| - 1);
    }
  }

  lemma AppendContents(s: Space, slots: seq<Slot>, cap: Capability, t: Space)
    requires WellFormed(s) && Layout(slots) && Contents(s, slots) && CapabilityArgument(cap)
    requires NextStart(slots) + 2 + |cap.registers| <= DEVICE_END && LastStart(slots) + 4 <= SPACE_SIZE
    requires t == Append(s, cap, NextStart(slots), LastStart(slots))
    ensures Contents(t, slots + [Slot(NextStart(slots), cap)])
  {
    var more := slots + [Slot(NextStart(slots), cap)];
    AppendLayout(slots, cap);
    Start(more, |slots|);
    forall i | 0 <= i < |more| ensures Stored(t, more[i]) {
      if i < |slots| {
        KeptSlot(s, slots, cap, t, i);
      } else {
        NewSlot(s, Slot(NextStart(slots), cap), LastStart(slots), t);
      }
    }
  }

  lemma KeptSlot(s: Space, slots: seq<Slot>, cap: Capability, t: Space, i: nat)
    requires WellFormed(s) && Layout(slots) && CapabilityArgument(cap) && i < |slots| && Stored(s, slots[i])
    requires NextStart(slots) + 2 + |cap.registers| <= DEVICE_END && LastStart(slots) + 4 <= SPACE_SIZE
    requires t == Append(s, cap, NextStart(slots), LastStart(slots))
    ensures Stored(t, slots[i])
    ensures t.regs[slots[i].start + 2..End(slots[i])] == s.regs[slots[i].start + 2..End(slots[i])]
  {
    Before(slots, cap, i);
    var a, e := slots[i].start + 2, End(slots[i]);
    assert t.writable[a..e] == s.writable[a..e];
    assert t.regs[a..e] == s.regs[a..e];
  }

  lemma NewSlot(s: Space, slot: Slot, last: nat, t: Space)
    requires WellFormed(s) && CapabilityArgument(slot.cap) && End(slot) <= DEVICE_END
    requires DEVICE_START <= slot.start && last + 2 <= slot.start
    requires s.writable[slot.start] == s.writable[slot.start + 1] == ZERO_BYTE
    requires t == Append(s, slot.cap, slot.start, last)
    ensures Stored(t, slot) && t.regs[slot.start + 2..End(slot)] == slot.cap.registers
  {
    var a, e := slot.start + 2, End(slot);
    assert t.writable[a..e] == slot.cap.writable;
    assert t.regs[a..e] == slot.cap.registers;
  }
}
