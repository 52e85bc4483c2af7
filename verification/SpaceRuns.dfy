/**
 Every configuration space that can arise: any interleaving of header stores, BAR and
 capability additions (accepted or rejected), interrupt set-up, interrupt status changes
 and guest writes of any width.
 */
module SpaceRuns {
  import opened Basics
  import opened Bits
  import opened RegisterBlock
  import opened ConfigSpace
  import opened Bars
  import opened Capabilities
  import opened CapabilityList
  import Intx

  /** `init_intx`: pin number, writable Interrupt Disable bit and interrupt line register. */
  function InitIntx(s: Space, pin: Byte): (r: Space)
    requires WellFormed(s)
    ensures WellFormed(r)
  {
    var t := AllowCommandBit(s, INTERRUPT_DISABLE);
    t.(regs := t.regs[INTERRUPT_PIN := pin], writable := t.writable[INTERRUPT_LINE := ONES_BYTE])
  }

  datatype Op =
    | NewBar(bar: Bar)
    | NewCapability(cap: Capability)
    | AllowBusMaster
    | UseIntx(pin: Byte)
    | HeaderByte(offset: nat, value: Byte, writable: Byte)
    | IntxStatus(level: bool)
    | Guest(offset: nat, data: Bytes)

  /**
   The header bytes a builder stores at will: ids, class, header type, cache line, subsystem and
   the like. Command, Status, the BARs and the capability pointer have their own operations.
   */
  predicate IsHeaderByte(j: nat) {
    && j < DEVICE_START && j != CAP_POINTER
    && !(COMMAND <= j < STATUS + 2) && !(BAR0 <= j < BarOffset(NUM_BARS))
  }

  function StoreHeader(s: Space, offset: nat, value: Byte, writable: Byte): (r: Space)
    requires WellFormed(s) && IsHeaderByte(offset)
    ensures WellFormed(r)
  {
    s.(regs := s.regs[offset := value], writable := s.writable[offset := writable])
  }

  predicate OpArgument(op: Op) {
    match op
    case NewBar(bar) => BarArgument(bar)
    case NewCapability(cap) => CapabilityArgument(cap)
    case HeaderByte(offset, _, _) => IsHeaderByte(offset)
    case _ => true
  }

  function Apply(s: Space, op: Op): (r: Space)
    requires WellFormed(s) && OpArgument(op)
    ensures WellFormed(r)
  {
    match op
    case NewBar(bar) => if AddBar(s, bar).Ok? then PlaceBar(s, bar) else s
    case NewCapability(cap) => if AddCapability(s, cap).Ok? then AddCapability(s, cap).value.0 else s
    case AllowBusMaster => AllowCommandBit(s, BUS_MASTER)
    case UseIntx(pin) => InitIntx(s, pin)
    case HeaderByte(offset, value, writable) => StoreHeader(s, offset, value, writable)
    case IntxStatus(level) => Intx.SetStatus(s, level)
    case Guest(offset, data) => GuestWrite(s, offset, data)
  }

  function Run(s: Space, ops: seq<Op>): (r: Space)
    requires WellFormed(s) && forall i :: 0 <= i < |ops| ==> OpArgument(ops[i])
    ensures WellFormed(r)
    decreases |ops|
  {
    if ops == [] then s else Run(Apply(s, ops[0]), ops[1..])
  }

  /** The capability an operation added, with the offset returned for its data. */
  function Appended(s: Space, op: Op): seq<Slot>
    requires WellFormed(s) && OpArgument(op)
  {
    if op.NewCapability? && AddCapability(s, op.cap).Ok? then [Slot(AddCapability(s, op.cap).value.1 - 2, op.cap)] else []
  }

  /** The accepted capabilities of a run, in order. */
  function Accepts(s: Space, ops: seq<Op>): seq<Slot>
    requires WellFormed(s) && forall i :: 0 <= i < |ops| ==> OpArgument(ops[i])
    decreases |ops|
  {
    if ops == [] then [] else Appended(s, ops[0]) + Accepts(Apply(s, ops[0]), ops[1..])
  }

  /** The list lives in the capability pointer and the device area; nothing else matters to it. */
  lemma HoldsLocal(s: Space, t: Space, slots: seq<Slot>)
    requires Holds(s, slots) && WellFormed(t) && t.lastCapSize == s.lastCapSize
    requires t.regs[CAP_POINTER] == s.regs[CAP_POINTER] && t.writable[CAP_POINTER] == s.writable[CAP_POINTER]
    requires t.regs[DEVICE_START..] == s.regs[DEVICE_START..] && t.writable[DEVICE_START..] == s.writable[DEVICE_START..]
    ensures Holds(t, slots)
  {
    TailBytes(s, t);
    forall i | 0 <= i < |slots| ensures Linked(t.regs, slots, i) && Stored(t, slots[i]) {
      SlotLocal(s, t, slots, i);
    }
    if slots != [] {
      Start(slots, |slots| - 1);
    }
  }

  lemma TailBytes(s: Space, t: Space)
    requires WellFormed(s) && WellFormed(t)
    requires t.regs[DEVICE_START..] == s.regs[DEVICE_START..] && t.writable[DEVICE_START..] == s.writable[DEVICE_START..]
    ensures forall j :: DEVICE_START <= j < SPACE_SIZE ==> t.regs[j] == s.regs[j] && t.writable[j] == s.writable[j]
  {
    forall j | DEVICE_START <= j < SPACE_SIZE ensures t.regs[j] == s.regs[j] && t.writable[j] == s.writable[j] {
      assert t.regs[j] == t.regs[DEVICE_START..][j - DEVICE_START];
      assert t.writable[j] == t.writable[DEVICE_START..][j - DEVICE_START];
    }
  }

  lemma SlotLocal(s: Space, t: Space, slots: seq<Slot>, i: nat)
    requires Holds(s, slots) && WellFormed(t) && i < |slots|
    requires forall j :: DEVICE_START <= j < SPACE_SIZE ==> t.regs[j] == s.regs[j] && t.writable[j] == s.writable[j]
    ensures Linked(t.regs, slots, i) && Stored(t, slots[i])
  {
    Start(slots, i);
    assert Linked(s.regs, slots, i) && Stored(s, slots[i]);
    var a, e := slots[i].start + 2, End(slots[i]);
    assert t.writable[a..e] == s.writable[a..e];
    assert t.regs[a..e] == s.regs[a..e];
  }

  /** Guest writes cannot unlink, move or retype a capability. */
  lemma HoldsGuest(s: Space, t: Space, slots: seq<Slot>)
    requires Holds(s, slots) && WellFormed(t) && GuestFrame(s, t)
    ensures Holds(t, slots)
  {
    ReadOnlyByte(s, t, CAP_POINTER);
    forall i | 0 <= i < |slots| ensures Linked(t.regs, slots, i) && Stored(t, slots[i]) {
      assert Linked(s.regs, slots, i) && Stored(s, slots[i]);
      ReadOnlyByte(s, t, slots[i].start);
      ReadOnlyByte(s, t, slots[i].start + 1);
      StoredGuest(s, t, slots[i]);
    }
  }

  lemma StoredGuest(s: Space, t: Space, slot: Slot)
    requires WellFormed(s) && WellFormed(t) && GuestFrame(s, t) && Stored(s, slot)
    ensures Stored(t, slot)
  {
    var a, e := slot.start + 2, End(slot);
    var w, old_, new_ := slot.cap.writable, s.regs[a..e], t.regs[a..e];
    forall i, j | 0 <= i < |w| && 0 <= j < 8 && !w[i][j] ensures slot.cap.registers[i][j] == new_[i][j] {
      assert w[i] == s.writable[a + i];
      assert old_[i] == s.regs[a + i] && new_[i] == t.regs[a + i];
    }
  }

  /** A new capability leaves the BAR registers alone. */
  lemma AddCapabilityKeepsBars(s: Space, slots: seq<Slot>, cap: Capability)
    requires BarsInvariant(s) && Holds(s, slots) && CapabilityArgument(cap) && AddCapability(s, cap).Ok?
    ensures BarsInvariant(AddCapability(s, cap).value.0)
  {
    hide BarsInvariant, Append, Holds, AppendPoint;
    AppendPlace(s, slots);
    AppendHeader(s, cap, NextStart(slots), LastStart(slots));
    BarsInvariantLocal(s, AddCapability(s, cap).value.0);
  }

  lemma AppendPlace(s: Space, slots: seq<Slot>)
    requires Holds(s, slots)
    ensures WellFormed(s) && AppendPoint(s) == (NextStart(slots), LastStart(slots))
    ensures NextStart(slots) >= DEVICE_START && (LastStart(slots) == 0 || DEVICE_START <= LastStart(slots))
    ensures LastStart(slots) + 4 <= SPACE_SIZE
  {
    AppendPointIs(s, slots);
    if slots != [] {
      Start(slots, |slots| - 1);
    }
  }

  /** The stores of `add_capability` stay away from the BAR registers. */
  lemma AppendHeader(s: Space, cap: Capability, start: nat, last: nat)
    requires WellFormed(s) && CapabilityArgument(cap) && DEVICE_START <= start && start + 2 + |cap.registers| <= DEVICE_END
    requires (last == 0 || DEVICE_START <= last) && last + 2 <= SPACE_SIZE
    ensures var t := Append(s, cap, start, last);
            && t.bars == s.bars
            && forall j :: BAR0 <= j < BarOffset(NUM_BARS) ==> t.writable[j] == s.writable[j] && t.regs[j] == s.regs[j]
  {
  }

  /** A new BAR leaves the list alone. */
  lemma AddBarKeepsList(s: Space, slots: seq<Slot>, bar: Bar)
    requires Holds(s, slots) && BarArgument(bar) && AddBar(s, bar).Ok?
    ensures Holds(PlaceBar(s, bar), slots)
  {
    PlaceBarFrame(s, bar);
    SameTail(s, PlaceBar(s, bar));
    HoldsLocal(s, PlaceBar(s, bar), slots);
  }

  lemma SameTail(s: Space, t: Space)
    requires WellFormed(s) && WellFormed(t)
    requires forall j :: DEVICE_START <= j < SPACE_SIZE ==> t.regs[j] == s.regs[j] && t.writable[j] == s.writable[j]
    ensures t.regs[DEVICE_START..] == s.regs[DEVICE_START..] && t.writable[DEVICE_START..] == s.writable[DEVICE_START..]
  {
  }

  lemma ApplyKeepsBars(s: Space, slots: seq<Slot>, op: Op)
    requires WellFormed(s) && BarsInvariant(s) && Holds(s, slots) && OpArgument(op)
    ensures BarsInvariant(Apply(s, op))
  {
    hide BarsInvariant, Holds, PlaceBar, CheckBar, Append, AppendPoint;
    match op
    case NewBar(bar) =>
      if AddBar(s, bar).Ok? {
        AddBarKeepsInvariant(s, bar);
      }
    case NewCapability(cap) =>
      if AddCapability(s, cap).Ok? {
        AddCapabilityKeepsBars(s, slots, cap);
      }
    case AllowBusMaster => BarsInvariantLocal(s, Apply(s, op));
    case UseIntx(pin) => BarsInvariantLocal(s, Apply(s, op));
    case HeaderByte(_, _, _) => BarsInvariantLocal(s, Apply(s, op));
    case IntxStatus(_) => BarsInvariantLocal(s, Apply(s, op));
    case Guest(offset, data) =>
      GuestWriteFrame(s, offset, data);
      BarsInvariantGuest(s, Apply(s, op));
  }

  lemma ApplyKeepsList(s: Space, slots: seq<Slot>, op: Op)
    requires WellFormed(s) && Holds(s, slots) && OpArgument(op)
    ensures Holds(Apply(s, op), slots + Appended(s, op))
  {
    hide Holds, PlaceBar, CheckBar, Append, Walk;
    assert slots + [] == slots;
    match op
    case NewBar(bar) =>
      if AddBar(s, bar).Ok? {
        AddBarKeepsList(s, slots, bar);
      }
    case NewCapability(cap) => AddAppends(s, slots, cap);
    case AllowBusMaster =>
      SameTail(s, Apply(s, op));
      HoldsLocal(s, Apply(s, op), slots);
    case UseIntx(pin) =>
      SameTail(s, Apply(s, op));
      HoldsLocal(s, Apply(s, op), slots);
    case HeaderByte(_, _, _) =>
      SameTail(s, Apply(s, op));
      HoldsLocal(s, Apply(s, op), slots);
    case IntxStatus(_) =>
      SameTail(s, Apply(s, op));
      HoldsLocal(s, Apply(s, op), slots);
    case Guest(offset, data) =>
      GuestWriteFrame(s, offset, data);
      HoldsGuest(s, Apply(s, op), slots);
  }

  lemma {:induction false} RunKeeps(s: Space, slots: seq<Slot>, ops: seq<Op>)
    requires WellFormed(s) && BarsInvariant(s) && Holds(s, slots)
    requires forall i :: 0 <= i < |ops| ==> OpArgument(ops[i])
    ensures BarsInvariant(Run(s, ops))
    ensures Holds(Run(s, ops), slots + Accepts(s, ops))
    decreases |ops|
  {
    hide Apply, Appended, Holds, BarsInvariant;
    if ops == [] {
      assert slots + Accepts(s, ops) == slots;
    } else {
      var t, more := Apply(s, ops[0]), Appended(s, ops[0]);
      ApplyKeepsBars(s, slots, ops[0]);
      ApplyKeepsList(s, slots, ops[0]);
      RunKeeps(t, slots + more, ops[1..]);
      assert slots + Accepts(s, ops) == (slots + more) + Accepts(t, ops[1..]);
    }
  }

  /**
   The list refines a sequence. After any run from an empty space, walking it yields
   exactly the accepted capabilities, in order, at the offsets `add_capability`
   returned, however often the iterator is called, with strictly increasing, dword
   aligned, disjoint extents inside the device area.
   */
  lemma {:induction false} ListRefinesSequence(ops: seq<Op>, calls: nat)
    requires forall i :: 0 <= i < |ops| ==> OpArgument(ops[i])
    requires calls >= SPACE_SIZE
    ensures var s, slots := Run(NewSpace(), ops), Accepts(NewSpace(), ops);
            && Walk(s.regs, CAP_POINTER, calls) == Items(slots)
            && (slots != [] ==> s.lastCapSize == |slots[|slots| - 1].cap.registers|)
            && (forall i :: 0 <= i < |slots| ==>
                  && slots[i].start % 4 == 0 && DEVICE_START <= slots[i].start && End(slots[i]) <= DEVICE_END)
            && (forall i, k :: 0 <= i < k < |slots| ==> End(slots[i]) <= slots[k].start)
  {
    hide Run, Accepts, Walk, Holds, BarsInvariant;
    var s, slots := Run(NewSpace(), ops), Accepts(NewSpace(), ops);
    NewSpaceBars();
    EmptyList();
    RunKeeps(NewSpace(), [], ops);
    assert [] + slots == slots;
    HoldsSequence(s, slots, calls);
  }

  /** What a space that holds a sequence of capabilities looks like from outside. */
  lemma {:induction false} HoldsSequence(s: Space, slots: seq<Slot>, calls: nat)
    requires WellFormed(s) && Holds(s, slots) && calls >= SPACE_SIZE
    ensures Walk(s.regs, CAP_POINTER, calls) == Items(slots)
    ensures slots != [] ==> s.lastCapSize == |slots[|slots| - 1].cap.registers|
    ensures forall i :: 0 <= i < |slots| ==>
              slots[i].start % 4 == 0 && DEVICE_START <= slots[i].start && End(slots[i]) <= DEVICE_END
    ensures forall i, k :: 0 <= i < k < |slots| ==> End(slots[i]) <= slots[k].start
  {
    hide Walk;
    WholeWalk(s.regs, slots, calls);
    forall i | 0 <= i < |slots|
      ensures slots[i].start % 4 == 0 && DEVICE_START <= slots[i].start && End(slots[i]) <= DEVICE_END
    {
      Start(slots, i);
    }
    forall i, k | 0 <= i < k < |slots| ensures End(slots[i]) <= slots[k].start {
      Ordered(slots, i, k);
    }
  }

  lemma EmptyList()
    ensures Holds(NewSpace(), [])
  {
    assert ZERO_BYTE == Zeros(8);
    ZerosVal(8);
  }

  /** After any run no register has two owners, and every owned register is one of the six. */
  lemma {:induction false} OneOwnerPerRegister(ops: seq<Op>, i: nat, k: nat, r: nat)
    requires forall n :: 0 <= n < |ops| ==> OpArgument(ops[n])
    requires i < NUM_BARS && k < NUM_BARS
    requires Owns(Run(NewSpace(), ops), i, r) && Owns(Run(NewSpace(), ops), k, r)
    ensures i == k && r < NUM_BARS
  {
    NewSpaceBars();
    EmptyList();
    RunKeeps(NewSpace(), [], ops);
    UniqueOwner(Run(NewSpace(), ops), i, k, r);
  }

  lemma UniqueOwner(s: Space, i: nat, k: nat, r: nat)
    requires BarsInvariant(s) && i < NUM_BARS && k < NUM_BARS && Owns(s, i, r) && Owns(s, k, r)
    ensures i == k && r < NUM_BARS
  {
    if s.bars[i].value.kind.Mem64? {
      UpperFree(s, i);
    }
    if s.bars[k].value.kind.Mem64? {
      UpperFree(s, k);
    }
  }
}
