/**
 The header over every run of set-up calls and guest writes: which Command bits the guest can set, what it takes
 to turn a BAR on, and what Status shows.
 */
module HeaderRuns {
  import opened Basics
  import opened Bits
  import opened RegisterBlock
  import opened ConfigSpace
  import opened Bars
  import opened BarDecoding
  import opened Capabilities
  import opened CapabilityList
  import opened SpaceRuns
  import opened Reachable
  import Intx
  import Notify

  /** The enable bit of every placed BAR is writable; Status is read-only and shows whether there is a list. */
  ghost predicate HeaderInv(s: Space, slots: seq<Slot>) {
    && WellFormed(s)
    && (forall i :: 0 <= i < NUM_BARS && s.bars[i].Some? ==> s.writable[0x04][EnableBit(s.bars[i].value.kind)])
    && s.writable[STATUS] == ZERO_BYTE
    && (s.regs[STATUS][4] <==> slots != [])
  }

  /** Command bits once writable stay writable. */
  predicate MaskGrows(s: Space, t: Space) {
    && WellFormed(s) && WellFormed(t)
    && (forall b :: 0 <= b < 8 && s.writable[0x04][b] ==> t.writable[0x04][b])
    && (forall b :: 0 <= b < 8 && s.writable[0x05][b] ==> t.writable[0x05][b])
  }

  lemma AllowGrows(s: Space, i: nat)
    requires WellFormed(s) && i < 16
    ensures MaskGrows(s, AllowCommandBit(s, i))
    ensures i < 8 ==> AllowCommandBit(s, i).writable[0x04][i]
    ensures i >= 8 ==> AllowCommandBit(s, i).writable[0x05][i - 8]
  {
    var r := AllowCommandBit(s, i);
    assert forall b :: 0 <= b < 8 ==> r.writable[0x04][b] == Word(r.writable, COMMAND)[b] && s.writable[0x04][b] == Word(s.writable, COMMAND)[b];
    assert forall b :: 0 <= b < 8 ==> r.writable[0x05][b] == Word(r.writable, COMMAND)[b + 8] && s.writable[0x05][b] == Word(s.writable, COMMAND)[b + 8];
    assert i >= 8 ==> Word(r.writable, COMMAND)[i - 8 + 8];
  }

  /** What adding a capability does to the header: only the list flag and the capability pointer. */
  lemma AppendFlags(s: Space, slots: seq<Slot>, cap: Capability)
    requires WellFormed(s) && Holds(s, slots) && CapabilityArgument(cap) && AddCapability(s, cap).Ok?
    ensures var t := AddCapability(s, cap).value.0;
            && t.bars == s.bars && t.writable[0x04] == s.writable[0x04] && t.writable[0x05] == s.writable[0x05]
            && t.writable[STATUS] == s.writable[STATUS]
            && t.regs[STATUS][4] == (slots == [] || s.regs[STATUS][4])
  {
    hide Holds, AppendPoint;
    AppendPlace(s, slots);
    LastStartZero(s, slots);
  }

  lemma LastStartZero(s: Space, slots: seq<Slot>)
    requires Holds(s, slots)
    ensures LastStart(slots) == 0 <==> slots == []
  {
    if slots != [] {
      Start(slots, |slots| - 1);
    }
  }

  lemma ApplyHeader(s: Space, slots: seq<Slot>, op: Op)
    requires HeaderInv(s, slots) && Holds(s, slots) && OpArgument(op)
    ensures HeaderInv(Apply(s, op), slots + Appended(s, op)) && MaskGrows(s, Apply(s, op))
  {
    hide Holds, Append, AppendPoint, PlaceBar, CheckBar, AllowCommandBit, GuestWrite;
    match op
    case NewBar(bar) =>
      if AddBar(s, bar).Ok? {
        PlaceBarCommand(s, bar);
        PlacedTable(s, bar);
      }
    case NewCapability(cap) =>
      AddAppends(s, slots, cap);
      if AddCapability(s, cap).Ok? {
        AppendFlags(s, slots, cap);
      }
    case AllowBusMaster => AllowGrows(s, BUS_MASTER);
    case UseIntx(_) => AllowGrows(s, INTERRUPT_DISABLE);
    case HeaderByte(_, _, _) =>
    case IntxStatus(_) =>
    case Guest(offset, data) =>
      GuestWriteFrame(s, offset, data);
      ReadOnlyByte(s, GuestWrite(s, offset, data), STATUS);
  }

  lemma PlacedTable(s: Space, bar: Bar)
    requires WellFormed(s) && BarArgument(bar) && CheckBar(s, bar).Ok?
    ensures PlaceBar(s, bar).bars == s.bars[bar.index := Some(bar)]
  {
  }

  lemma {:induction false} RunHeader(s: Space, slots: seq<Slot>, ops: seq<Op>)
    requires HeaderInv(s, slots) && Holds(s, slots) && Arguments(ops)
    ensures HeaderInv(Run(s, ops), slots + Accepts(s, ops)) && MaskGrows(s, Run(s, ops))
    decreases |ops|
  {
    hide Apply, Appended, Holds;
    if ops == [] {
      assert slots + Accepts(s, ops) == slots;
    } else {
      var t, more := Apply(s, ops[0]), Appended(s, ops[0]);
      ApplyHeader(s, slots, ops[0]);
      ApplyKeepsList(s, slots, ops[0]);
      RunHeader(t, slots + more, ops[1..]);
      assert slots + Accepts(s, ops) == (slots + more) + Accepts(t, ops[1..]);
    }
  }

  lemma {:induction false} ReachableHeader(ops: seq<Op>)
    requires Arguments(ops)
    ensures HeaderInv(Run(NewSpace(), ops), Accepts(NewSpace(), ops))
  {
    hide Run, Accepts, Holds;
    EmptyList();
    RunHeader(NewSpace(), [], ops);
    assert [] + Accepts(NewSpace(), ops) == Accepts(NewSpace(), ops);
  }

  // ---------- what follows ----------

  /** The Capabilities List bit of Status is set if and only if a capability was accepted, after every run. */
  lemma {:induction false} ListFlag(ops: seq<Op>)
    requires Arguments(ops)
    ensures Run(NewSpace(), ops).regs[0x06][4] <==> Accepts(NewSpace(), ops) != []
  {
    hide Run, Accepts;
    ReachableHeader(ops);
  }

  /** The guest's write that turns a BAR's space on. */
  function TurnOn(s: Space, kind: BarKind): (r: Space)
    requires WellFormed(s)
    ensures WellFormed(r)
  {
    GuestWrite(s, 0x04, [s.regs[0x04][EnableBit(kind) := true]])
  }

  lemma TurnedOn(s: Space, kind: BarKind)
    requires WellFormed(s) && s.writable[0x04][EnableBit(kind)]
    ensures TurnOn(s, kind).regs[0x04][EnableBit(kind)]
  {
    assert Accepted(0x04, 1);
  }

  /**
   End to end, for any BAR of any reachable space: the guest writes the enable bit, then an aligned non-zero address,
   and `get_bar` reports that address, unless it is the probe value.
   */
  lemma {:induction false} GuestTurnsOn(ops: seq<Op>, i: nat, f: Bits)
    requires Arguments(ops) && i < NUM_BARS && Run(NewSpace(), ops).bars[i].Some?
    requires var bar := Run(NewSpace(), ops).bars[i].value;
             |f| == Width(bar.kind) && bar.size > 0 && Val(f) > 0 && Val(f) % bar.size == 0
    ensures var s := Run(NewSpace(), ops);
            var bar := s.bars[i].value;
            && (bar.kind.Mem64? ==> i + 1 < NUM_BARS)
            && var t := WriteBack(TurnOn(s, bar.kind), i, bar.kind, AddressBytes(f));
               && BarTable(t)
               && GetBar(t, i) == if Val(f) == Val(ProbeBits(bar)) then None else Some(bar.(address := Some(Val(f))))
  {
    hide Run, Holds, BarInvariant, WriteBack, GuestWrite, Val, GetBar, ProbeBits, AddressBytes;
    var s := Run(NewSpace(), ops);
    ReachableInvariant(ops);
    ReachableHeader(ops);
    BarWidth(s, i);
    var kind := s.bars[i].value.kind;
    TurnedOn(s, kind);
    GuestWriteFrame(s, 0x04, [s.regs[0x04][EnableBit(kind) := true]]);
    BarsInvariantGuest(s, TurnOn(s, kind));
    ProgrammedAddress(TurnOn(s, kind), i, f);
  }

  /** The device's notification copy, for any reachable function: right in all runs exactly for a prompt BAR. */
  lemma {:induction false} ReachableCoherence(ops: seq<Op>, n: Notify.Region, d: Notify.Device)
    requires Arguments(ops) && d.space == Run(NewSpace(), ops)
    requires Notify.RegionOk(n) && d.space.bars[n.bar].Some? && Notify.MultiplierFixed(n, d.space)
    requires BarTable(d.space) && Notify.Coherent(n, d)
    ensures (forall run: seq<Access> :: Notify.Coherent(n, Notify.Run(n, d, run))) <==> Notify.Prompt(d.space.bars[n.bar].value)
  {
    hide Run, Holds, BarInvariant, Notify.Coherent, Notify.Run, Notify.MultiplierFixed;
    ReachableInvariant(ops);
    ReachableHeader(ops);
    if d.space.bars[n.bar].value.kind.Mem64? {
      Notify.CoherenceIffPrompt(n, d);
    } else {
      forall run: seq<Access> ensures Notify.Coherent(n, Notify.Run(n, d, run)) {
        Notify.RunKeeps(n, d, run);
      }
    }
  }

  /** Bus Master and Interrupt Disable are the guest's to write once `allow_bus_master` and `init_intx` were called. */
  lemma {:induction false} GuestBits(s: Space, slots: seq<Slot>, ops: seq<Op>, k: nat)
    requires HeaderInv(s, slots) && Holds(s, slots) && Arguments(ops) && k < |ops|
    ensures ops[k].AllowBusMaster? ==> Run(s, ops).writable[0x04][2]
    ensures ops[k].UseIntx? ==> Intx.IntxWritable(Run(s, ops))
    decreases k
  {
    hide Appended, Holds, AllowCommandBit;
    var t, more := Apply(s, ops[0]), Appended(s, ops[0]);
    ApplyHeader(s, slots, ops[0]);
    ApplyKeepsList(s, slots, ops[0]);
    if k > 0 {
      GuestBits(t, slots + more, ops[1..], k - 1);
    } else {
      RunHeader(t, slots + more, ops[1..]);
      AllowGrows(s, BUS_MASTER);
      AllowGrows(s, INTERRUPT_DISABLE);
    }
  }

  /** `init_intx` stores the pin, lets firmware write the line register, and adds just Interrupt Disable to the Command mask. */
  lemma IntxRegisters(s: Space, pin: Byte)
    requires WellFormed(s)
    ensures var t := InitIntx(s, pin);
            && t.regs == s.regs[0x3D := pin] && t.writable[0x3C] == ONES_BYTE
            && t.writable[0x04] == s.writable[0x04] && t.writable[0x05] == s.writable[0x05][2 := true]
            && forall j :: 0 <= j < SPACE_SIZE && j != 0x3C && j != 0x04 && j != 0x05 ==> t.writable[j] == s.writable[j]
  {
    var r := AllowCommandBit(s, INTERRUPT_DISABLE);
    assert forall b :: 0 <= b < 8 ==> r.writable[0x04][b] == Word(r.writable, COMMAND)[b] && s.writable[0x04][b] == Word(s.writable, COMMAND)[b];
    assert forall b :: 0 <= b < 8 ==> r.writable[0x05][b] == Word(r.writable, COMMAND)[b + 8] && s.writable[0x05][b] == Word(s.writable, COMMAND)[b + 8];
  }

  /** After `init_intx` anywhere in a run the guest can write Interrupt Disable and not Interrupt Status. */
  lemma {:induction false} ReachableIntx(ops: seq<Op>, k: nat)
    requires Arguments(ops) && k < |ops|
    ensures ops[k].UseIntx? ==> Intx.IntxWritable(Run(NewSpace(), ops))
    ensures ops[k].AllowBusMaster? ==> Run(NewSpace(), ops).writable[0x04][2]
  {
    hide Run, Holds;
    EmptyList();
    GuestBits(NewSpace(), [], ops, k);
  }
}
