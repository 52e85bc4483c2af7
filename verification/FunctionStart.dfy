/** Where runs of a whole function start: whatever the set-up calls build satisfies the invariant of all runs. */
module FunctionStart {
  import opened Basics
  import opened Bits
  import opened RegisterBlock
  import opened ConfigSpace
  import opened Bars
  import opened Capabilities
  import opened CapabilityList
  import opened SpaceRuns
  import opened Reachable
  import opened MsixCore
  import opened MsiCore
  import opened MsiConfig
  import opened WholeFunction
  import FunctionRuns
  import MsiRuns
  import MsixRuns
  import MsixLedger
  import MsixTable
  import Notify

  // ---------- spaces no guest has touched ----------

  /** Set-up only: no guest write. */
  ghost predicate SetUp(ops: seq<Op>) {
    Arguments(ops) && forall i :: 0 <= i < |ops| ==> !ops[i].Guest?
  }

  /** The capability's registers hold exactly what it put there. */
  ghost predicate Exact(s: Space, slot: Slot)
    requires WellFormed(s)
  {
    End(slot) <= DEVICE_END && s.regs[slot.start + 2..End(slot)] == slot.cap.registers
  }

  /** Command is clear and every capability as it was added. */
  ghost predicate Pristine(s: Space, slots: seq<Slot>) {
    && Holds(s, slots) && BarsInvariant(s)
    && s.regs[COMMAND] == ZERO_BYTE && s.regs[COMMAND + 1] == ZERO_BYTE
    && forall i :: 0 <= i < |slots| ==> Exact(s, slots[i])
  }

  /** Stores outside Command and the device area do not matter to it. */
  lemma PristineLocal(s: Space, t: Space, slots: seq<Slot>)
    requires Pristine(s, slots) && Holds(t, slots) && BarsInvariant(t)
    requires t.regs[COMMAND] == s.regs[COMMAND] && t.regs[COMMAND + 1] == s.regs[COMMAND + 1]
    requires forall j :: DEVICE_START <= j < SPACE_SIZE ==> t.regs[j] == s.regs[j]
    ensures Pristine(t, slots)
  {
    hide BarsInvariant, Holds;
    LayoutOf(s, slots);
    LayoutOf(t, slots);
    forall i | 0 <= i < |slots| ensures Exact(t, slots[i]) {
      assert Exact(s, slots[i]);
      Start(slots, i);
      ExactLocal(s, t, slots[i]);
    }
  }

  lemma ExactLocal(s: Space, t: Space, slot: Slot)
    requires WellFormed(s) && WellFormed(t) && Exact(s, slot) && slot.start >= DEVICE_START
    requires forall j :: DEVICE_START <= j < SPACE_SIZE ==> t.regs[j] == s.regs[j]
    ensures Exact(t, slot)
  {
    var a, e := slot.start + 2, End(slot);
    assert t.regs[a..e] == s.regs[a..e];
  }

  lemma AppendPristine(s: Space, slots: seq<Slot>, cap: Capability)
    requires Pristine(s, slots) && CapabilityArgument(cap)
    requires NextStart(slots) + 2 + |cap.registers| <= DEVICE_END && LastStart(slots) + 4 <= SPACE_SIZE
    requires var t := Append(s, cap, NextStart(slots), LastStart(slots));
             Holds(t, slots + [Slot(NextStart(slots), cap)]) && BarsInvariant(t)
    ensures Pristine(Append(s, cap, NextStart(slots), LastStart(slots)), slots + [Slot(NextStart(slots), cap)])
  {
    hide BarsInvariant, Chain;
    var t, more := Append(s, cap, NextStart(slots), LastStart(slots)), slots + [Slot(NextStart(slots), cap)];
    LayoutOf(s, slots);
    forall i | 0 <= i < |more| ensures Exact(t, more[i]) {
      if i < |slots| {
        assert Exact(s, slots[i]);
        KeptSlot(s, slots, cap, t, i);
      } else {
        AppendedSlot(s, slots, cap);
      }
    }
    AppendCommand(s, slots, cap);
  }

  lemma LayoutOf(s: Space, slots: seq<Slot>)
    requires Holds(s, slots)
    ensures WellFormed(s) && Layout(slots)
  {
  }

  lemma AppendedSlot(s: Space, slots: seq<Slot>, cap: Capability)
    requires Holds(s, slots) && CapabilityArgument(cap)
    requires NextStart(slots) + 2 + |cap.registers| <= DEVICE_END && LastStart(slots) + 4 <= SPACE_SIZE
    ensures Exact(Append(s, cap, NextStart(slots), LastStart(slots)), Slot(NextStart(slots), cap))
  {
    AppendRoom(s, slots);
    hide Holds, Append;
    NewSlot(s, Slot(NextStart(slots), cap), LastStart(slots), Append(s, cap, NextStart(slots), LastStart(slots)));
  }

  /** The place of the next capability: behind the last one, with nothing writable. */
  lemma AppendRoom(s: Space, slots: seq<Slot>)
    requires Holds(s, slots) && NextStart(slots) + 2 <= DEVICE_END
    ensures WellFormed(s) && NextStart(slots) >= DEVICE_START && LastStart(slots) + 2 <= NextStart(slots)
    ensures LastStart(slots) == 0 || LastStart(slots) >= DEVICE_START
    ensures s.writable[NextStart(slots)] == s.writable[NextStart(slots) + 1] == ZERO_BYTE
  {
    hide Chain;
    ChainLayout(s, slots);
    if slots != [] {
      Start(slots, |slots| - 1);
    }
  }

  lemma ChainLayout(s: Space, slots: seq<Slot>)
    requires Holds(s, slots)
    ensures Layout(slots)
  {
  }

  lemma AppendCommand(s: Space, slots: seq<Slot>, cap: Capability)
    requires Holds(s, slots) && CapabilityArgument(cap)
    requires NextStart(slots) + 2 + |cap.registers| <= DEVICE_END && LastStart(slots) + 4 <= SPACE_SIZE
    ensures var t := Append(s, cap, NextStart(slots), LastStart(slots));
            t.regs[COMMAND] == s.regs[COMMAND] && t.regs[COMMAND + 1] == s.regs[COMMAND + 1]
  {
    hide Holds;
    AppendRoom(s, slots);
  }

  lemma SetUpStep(s: Space, slots: seq<Slot>, op: Op)
    requires WellFormed(s) && Pristine(s, slots) && OpArgument(op) && !op.Guest?
    ensures Pristine(Apply(s, op), slots + Appended(s, op))
  {
    hide Holds, BarsInvariant, Append, PlaceBar, CheckBar, Exact, AppendPoint;
    ApplyKeepsBars(s, slots, op);
    ApplyKeepsList(s, slots, op);
    assert slots + [] == slots;
    match op
    case NewBar(bar) =>
      if AddBar(s, bar).Ok? {
        PlaceBarCommand(s, bar);
        PlaceBarFrame(s, bar);
        PristineLocal(s, Apply(s, op), slots);
      }
    case NewCapability(cap) =>
      AddAppends(s, slots, cap);
      AppendPointFor(s, slots);
      if AddCapability(s, cap).Ok? {
        AppendPristine(s, slots, cap);
      }
    case AllowBusMaster => PristineLocal(s, Apply(s, op), slots);
    case UseIntx(_) => PristineLocal(s, Apply(s, op), slots);
    case HeaderByte(_, _, _) => PristineLocal(s, Apply(s, op), slots);
    case IntxStatus(_) => PristineLocal(s, Apply(s, op), slots);
  }

  lemma {:induction false} SetUpRun(s: Space, slots: seq<Slot>, ops: seq<Op>)
    requires WellFormed(s) && Pristine(s, slots) && SetUp(ops)
    ensures Pristine(Run(s, ops), slots + Accepts(s, ops))
    decreases |ops|
  {
    hide Apply, Appended, Pristine;
    if ops == [] {
      assert slots + Accepts(s, ops) == slots;
    } else {
      SetUpStep(s, slots, ops[0]);
      var more := Appended(s, ops[0]);
      SetUpRun(Apply(s, ops[0]), slots + more, ops[1..]);
      assert slots + Accepts(s, ops) == (slots + more) + Accepts(Apply(s, ops[0]), ops[1..]);
    }
  }

  lemma EmptyPristine()
    ensures Pristine(NewSpace(), [])
  {
    NewSpaceBars();
    EmptyList();
  }

  // ---------- any function the set-up calls build ----------

  /** The notification capability: slot `k` of the list, with its multiplier register read-only. */
  ghost predicate NotifySlot(n: Notify.Region, slots: seq<Slot>, k: nat) {
    && n.bar < NUM_BARS && k < |slots| && n.cap == slots[k].start + 2
    && |slots[k].cap.registers| == |slots[k].cap.writable| == 18
    && forall i :: 14 <= i < 18 ==> slots[k].cap.writable[i] == ZERO_BYTE
  }

  /** MSI and MSI-X of `f` are capabilities of the list, and the parts start with nothing pending or cached. */
  ghost predicate Wired(f: Fn, p: Plan)
  {
    && (f.msi.Some? ==>
          && p.msi < |p.slots| && SetupOk(p.setup) && p.slots[p.msi].cap == MsiCapability(p.setup)
          && f.msi.value.o == p.slots[p.msi].start + 2)
    && (f.msix.Some? ==>
          && p.msix < |p.slots| && |p.slots[p.msix].cap.registers| >= 2
          && f.msix.value.cap == p.slots[p.msix].start + 2
          && Valid(f.msix.value.msix) && MsixRuns.OneWord(f.msix.value.msix) && MsixLedger.NonePending(f.msix.value.msix.pba))
    && (f.msi.Some? && f.msix.Some? ==> p.msi != p.msix)
    && f.info == None && f.messages == map[]
  }

  lemma MultiplierReadOnly(s: Space, slots: seq<Slot>, n: Notify.Region, k: nat)
    requires Holds(s, slots) && NotifySlot(n, slots, k)
    ensures Notify.RegionOk(n) && Notify.MultiplierFixed(n, s)
  {
    Start(slots, k);
    assert Stored(s, slots[k]);
    forall i | n.cap + 14 <= i < n.cap + 18 ensures s.writable[i] == ZERO_BYTE {
      assert s.writable[i] == s.writable[slots[k].start + 2..End(slots[k])][i - n.cap];
    }
  }

  lemma PristineSound(f: Fn, p: Plan)
    requires Pristine(f.space, p.slots) && Wired(f, p)
    ensures Sound(f) && Planned(f, p)
  {
    hide BarInvariant, Exact;
    if f.msi.Some? {
      assert Stored(f.space, p.slots[p.msi]);
      StoredIsReady(f.space, p.slots[p.msi], p.setup);
      MsiRuns.ReadyFits(f.space, f.msi.value.o, p.setup);
    }
    if f.msix.Some? {
      Start(p.slots, p.msix);
    }
  }

  lemma PristineMsi(f: Fn, p: Plan)
    requires Pristine(f.space, p.slots) && Wired(f, p) && Sound(f) && f.msi.Some? && HasMasking(Control(f.space, f.msi.value.o))
    ensures PendingBits(f.space, f.msi.value.o) == Zeros(32)
  {
    var s, o, slot := f.space, f.msi.value.o, p.slots[p.msi];
    assert Exact(s, slot);
    var at := o + PendingOffset(Control(s, o));
    assert CapSize(Control(s, o)) == |slot.cap.registers| by {
      hide BarsInvariant, Exact;
      MsiSize(f, p);
    }
    ZeroBytes(s, slot, p.setup, at);
  }

  lemma MsiSize(f: Fn, p: Plan)
    requires Pristine(f.space, p.slots) && Wired(f, p) && Sound(f) && f.msi.Some?
    ensures CapSize(Control(f.space, f.msi.value.o)) == |p.slots[p.msi].cap.registers|
  {
    hide BarsInvariant, Exact;
    PristineSound(f, p);
    ReadySize(f, p);
  }

  lemma ZeroBytes(s: Space, slot: Slot, m: MsiSetup, at: nat)
    requires WellFormed(s) && Exact(s, slot) && slot.cap == MsiCapability(m)
    requires slot.start + 4 <= at && at + 4 <= End(slot)
    ensures Dword(s.regs, at) == Zeros(32)
  {
    var a, e := slot.start + 2, End(slot);
    forall i | at <= i < at + 4 ensures s.regs[i] == ZERO_BYTE {
      assert s.regs[i] == s.regs[a..e][i - a];
    }
  }

  /** With Command clear no BAR is decoded. */
  lemma NothingDecoded(s: Space, i: nat)
    requires BarTable(s) && i < NUM_BARS && s.regs[COMMAND] == ZERO_BYTE
    ensures GetBar(s, i).None?
  {
  }

  /**
   Whatever set-up calls built it, with whatever capabilities, BARs and header contents, and
   whatever the INTx flag: a function whose MSI, MSI-X and notification parts are capabilities
   of its list satisfies the invariant that all its runs keep.
   */
  lemma {:induction false} SetUpFunction(ops: seq<Op>, n: Notify.Region, k: nat, f: Fn, p: Plan)
    requires SetUp(ops) && f.space == Run(NewSpace(), ops) && p.slots == Accepts(NewSpace(), ops)
    requires Wired(f, p) && NotifySlot(n, p.slots, k)
    requires f.space.bars[n.bar].Some? ==> Notify.Prompt(f.space.bars[n.bar].value)
    ensures FunctionRuns.RunInv(n, f, p)
  {
    hide Run, Accepts, Pristine, GetBar, NotifySlot, Holds, BarsInvariant;
    EmptyPristine();
    SetUpRun(NewSpace(), [], ops);
    assert [] + p.slots == p.slots;
    PristineInv(n, k, f, p);
  }

  lemma PristineInv(n: Notify.Region, k: nat, f: Fn, p: Plan)
    requires Pristine(f.space, p.slots) && Wired(f, p) && NotifySlot(n, p.slots, k)
    requires f.space.bars[n.bar].Some? ==> Notify.Prompt(f.space.bars[n.bar].value)
    ensures FunctionRuns.RunInv(n, f, p)
  {
    hide GetBar, Holds, BarsInvariant, Exact, NotifySlot, Planned, MsixTable.Coherent;
    PristineSound(f, p);
    MultiplierReadOnly(f.space, p.slots, n, k);
    if f.msi.Some? && HasMasking(Control(f.space, f.msi.value.o)) {
      PristineMsi(f, p);
    }
    NothingDecoded(f.space, n.bar);
    FunctionRuns.IdleMsi(f);
    NothingCached(f);
    FunctionRuns.IdleMsix(f);
  }

  lemma NothingCached(f: Fn)
    requires Sound(f) && f.messages == map[]
    ensures f.msix.Some? ==> MsixTable.Coherent(f.msix.value.msix, f.messages)
  {
  }

  // ---------- the virtio function ----------

  const VIRTIO_BAR: Bar := Bar(None, 0x8000, 0, Mem32(false))

  /** The builder's stores of ids, class and cache line; the header type stays 0. */
  ghost predicate HeaderStores(ops: seq<Op>) {
    forall i :: 0 <= i < |ops| ==> ops[i].HeaderByte? && IsHeaderByte(ops[i].offset) && ops[i].offset != HEADER_TYPE
  }

  function Additions(caps: seq<Capability>): (ops: seq<Op>)
    ensures |ops| == |caps| && forall i :: 0 <= i < |caps| ==> ops[i] == NewCapability(caps[i])
  {
    seq(|caps|, i requires 0 <= i < |caps| => NewCapability(caps[i]))
  }

  /** The set-up calls in their order: header, BAR 0, five virtio capabilities, Bus Master, MSI-X (and MSI, if any), INTx. */
  function VirtioSetUp(header: seq<Op>, caps: seq<Capability>, pin: Byte): seq<Op>
    requires |caps| >= 5
  {
    header + ([NewBar(VIRTIO_BAR)] + (Additions(caps[..5]) + ([AllowBusMaster] + (Additions(caps[5..]) + [UseIntx(pin)]))))
  }

  /** Sizes of the common, ISR, device, notification, access-window and MSI-X capabilities, and an MSI capability if wanted. */
  predicate VirtioCaps(caps: seq<Capability>, m: MsiSetup) {
    && (|caps| == 6 || (|caps| == 7 && caps[6] == MsiCapability(m)))
    && (forall i :: 0 <= i < |caps| ==> CapabilityArgument(caps[i]))
    && |caps[0].registers| == |caps[1].registers| == |caps[2].registers| == 14
    && |caps[3].registers| == |caps[4].registers| == 18 && |caps[5].registers| == 10
    && forall i :: 0 <= i < 18 ==> caps[3].writable[i] == ZERO_BYTE
  }

  lemma {:induction false} RunConcat(s: Space, a: seq<Op>, b: seq<Op>)
    requires WellFormed(s) && SetUp(a) && SetUp(b)
    ensures SetUp(a + b) && Run(s, a + b) == Run(Run(s, a), b)
    ensures Accepts(s, a + b) == Accepts(s, a) + Accepts(Run(s, a), b)
    decreases |a|
  {
    hide Apply, Appended;
    if a == [] {
      assert a + b == b;
    } else {
      RunConcat(Apply(s, a[0]), a[1..], b);
      assert (a + b)[1..] == a[1..] + b;
    }
  }

  /** The starts `add_capability` gives a sequence of capabilities. */
  function Seats(start: nat, caps: seq<Capability>): seq<Slot>
    decreases |caps|
  {
    if caps == [] then [] else [Slot(start, caps[0])] + Seats(Align4(start + 2 + |caps[0].registers|), caps[1..])
  }

  predicate AllFit(start: nat, caps: seq<Capability>)
    decreases |caps|
  {
    caps == [] || (start + 2 + |caps[0].registers| <= DEVICE_END && AllFit(Align4(start + 2 + |caps[0].registers|), caps[1..]))
  }

  /** Capabilities that fit are all accepted, one behind the other. */
  lemma {:induction false} AllAccepted(s: Space, slots: seq<Slot>, caps: seq<Capability>)
    requires WellFormed(s) && Holds(s, slots) && AllFit(NextStart(slots), caps)
    requires forall i :: 0 <= i < |caps| ==> CapabilityArgument(caps[i])
    ensures SetUp(Additions(caps)) && Accepts(s, Additions(caps)) == Seats(NextStart(slots), caps)
    ensures Holds(Run(s, Additions(caps)), slots + Seats(NextStart(slots), caps))
    decreases |caps|
  {
    hide Holds, Append, AppendPoint;
    if caps == [] {
      assert slots + [] == slots;
    } else {
      var op, slot := NewCapability(caps[0]), Slot(NextStart(slots), caps[0]);
      AddAppends(s, slots, caps[0]);
      assert Appended(s, op) == [slot];
      assert Additions(caps)[1..] == Additions(caps[1..]);
      AllAccepted(Apply(s, op), slots + [slot], caps[1..]);
      assert slots + Seats(NextStart(slots), caps) == (slots + [slot]) + Seats(NextStart(slots + [slot]), caps[1..]);
    }
  }

  /** Header stores leave the empty list, the empty BAR table and header type 0. */
  lemma {:induction false} HeaderRun(s: Space, header: seq<Op>)
    requires WellFormed(s) && HeaderStores(header) && s.regs[HEADER_TYPE] == ZERO_BYTE && s.bars == seq(NUM_BARS, _ => None)
    ensures SetUp(header) && Accepts(s, header) == []
    ensures Run(s, header).regs[HEADER_TYPE] == ZERO_BYTE && Run(s, header).bars == s.bars
    decreases |header|
  {
    if header != [] {
      HeaderRun(Apply(s, header[0]), header[1..]);
    }
  }

  /** On an empty BAR table with header type 0 the virtio BAR is accepted. */
  lemma BarAccepted(s: Space)
    requires WellFormed(s) && s.regs[HEADER_TYPE] == ZERO_BYTE && s.bars == seq(NUM_BARS, _ => None)
    ensures BarArgument(VIRTIO_BAR) && AddBar(s, VIRTIO_BAR).Ok? && PlaceBar(s, VIRTIO_BAR).bars[0] == Some(VIRTIO_BAR)
  {
    hide SetDword, LowRegister, LowWritable, SizeMask, AddressBits;
    assert ZERO_BYTE == Zeros(8);
    ZerosVal(8);
    assert Pow2(8) == 256;
    Pow2Add(8, 7);
    assert Pow2(15) == 0x8000;
  }

  /** Operations other than `NewBar` keep the BAR table. */
  lemma {:induction false} SameBars(s: Space, ops: seq<Op>)
    requires WellFormed(s) && SetUp(ops) && forall i :: 0 <= i < |ops| ==> !ops[i].NewBar?
    ensures Run(s, ops).bars == s.bars
    decreases |ops|
  {
    hide AppendPoint;
    if ops != [] {
      SameBars(Apply(s, ops[0]), ops[1..]);
    }
  }

  lemma {:induction false} One(s: Space, op: Op)
    requires WellFormed(s) && OpArgument(op) && !op.Guest?
    ensures SetUp([op]) && Run(s, [op]) == Apply(s, op) && Accepts(s, [op]) == Appended(s, op)
  {
    hide Apply, Appended;
    assert [op][1..] == [];
    assert Appended(s, op) + [] == Appended(s, op);
  }

  /** The end of the set-up: MSI-X (and MSI) behind the virtio capabilities, then INTx. */
  lemma {:induction false} TailAccepted(s: Space, slots: seq<Slot>, caps: seq<Capability>, pin: Byte)
    requires WellFormed(s) && Holds(s, slots) && AllFit(NextStart(slots), caps)
    requires forall i :: 0 <= i < |caps| ==> CapabilityArgument(caps[i])
    ensures var ops := [AllowBusMaster] + (Additions(caps) + [UseIntx(pin)]);
            SetUp(ops) && Accepts(s, ops) == Seats(NextStart(slots), caps) && Run(s, ops).bars == s.bars
  {
    hide Holds, Run, Accepts, Seats, AllFit;
    var s1 := Apply(s, AllowBusMaster);
    One(s, AllowBusMaster);
    ApplyKeepsList(s, slots, AllowBusMaster);
    assert slots + [] == slots;
    AllAccepted(s1, slots, caps);
    var s2 := Run(s1, Additions(caps));
    One(s2, UseIntx(pin));
    RunConcat(s1, Additions(caps), [UseIntx(pin)]);
    RunConcat(s, [AllowBusMaster], Additions(caps) + [UseIntx(pin)]);
    SameBars(s, [AllowBusMaster] + (Additions(caps) + [UseIntx(pin)]));
    assert Seats(NextStart(slots), caps) + [] == Seats(NextStart(slots), caps);
    assert [] + Seats(NextStart(slots), caps) == Seats(NextStart(slots), caps);
  }

  /** Everything behind the BAR: all capabilities, one behind the other from 0x40. */
  lemma {:induction false} CapabilitiesAccepted(s: Space, caps: seq<Capability>, pin: Byte)
    requires WellFormed(s) && Holds(s, []) && |caps| >= 5 && AllFit(DEVICE_START, caps[..5])
    requires AllFit(NextStart(Seats(DEVICE_START, caps[..5])), caps[5..])
    requires forall i :: 0 <= i < |caps| ==> CapabilityArgument(caps[i])
    ensures var ops := Additions(caps[..5]) + ([AllowBusMaster] + (Additions(caps[5..]) + [UseIntx(pin)]));
            var first := Seats(DEVICE_START, caps[..5]);
            SetUp(ops) && Accepts(s, ops) == first + Seats(NextStart(first), caps[5..]) && Run(s, ops).bars == s.bars
  {
    hide Holds, Run, Accepts, Seats, AllFit;
    var first := Seats(DEVICE_START, caps[..5]);
    AllAccepted(s, [], caps[..5]);
    assert [] + first == first;
    var s1 := Run(s, Additions(caps[..5]));
    var rest := [AllowBusMaster] + (Additions(caps[5..]) + [UseIntx(pin)]);
    TailAccepted(s1, first, caps[5..], pin);
    RunConcat(s, Additions(caps[..5]), rest);
    SameBars(s, Additions(caps[..5]) + rest);
  }

  lemma AlignedSizes()
    ensures Align4(0x50) == 0x50 && Align4(0x60) == 0x60 && Align4(0x70) == 0x70
    ensures Align4(0x84) == 0x84 && Align4(0x98) == 0x98 && Align4(0xA4) == 0xA4
  {
  }

  /** Where they come to lie. */
  lemma {:induction false} VirtioSeats(caps: seq<Capability>, m: MsiSetup)
    requires VirtioCaps(caps, m)
    ensures AllFit(DEVICE_START, caps[..5])
    ensures var first := Seats(DEVICE_START, caps[..5]);
            && NextStart(first) == 0x98 && AllFit(0x98, caps[5..])
            && |first| == 5 && first[3] == Slot(0x70, caps[3])
            && |Seats(0x98, caps[5..])| == |caps| - 5
            && Seats(0x98, caps[5..])[0] == Slot(0x98, caps[5])
            && (|caps| == 7 ==> Seats(0x98, caps[5..])[1] == Slot(0xA4, caps[6]))
  {
    hide Seats, AllFit, Align4, MsiCapability;
    FirstSeats(caps[..5]);
    LastSeats(caps[5..], m);
  }

  lemma {:induction false} FirstSeats(a: seq<Capability>)
    requires |a| == 5 && |a[0].registers| == |a[1].registers| == |a[2].registers| == 14
    requires |a[3].registers| == |a[4].registers| == 18
    ensures AllFit(DEVICE_START, a) && |Seats(DEVICE_START, a)| == 5 && NextStart(Seats(DEVICE_START, a)) == 0x98
    ensures Seats(DEVICE_START, a)[3] == Slot(0x70, a[3])
  {
    hide Seats, AllFit, Align4;
    AlignedSizes();
    SeatsEnd(0x98, a[5..]);
    SeatNext(0x84, a, 4);
    SeatNext(0x70, a, 3);
    SeatNext(0x60, a, 2);
    SeatNext(0x50, a, 1);
    SeatNext(0x40, a, 0);
    assert a[0..] == a;
  }

  lemma {:induction false} LastSeats(b: seq<Capability>, m: MsiSetup)
    requires |b| == 1 || (|b| == 2 && b[1] == MsiCapability(m))
    requires |b[0].registers| == 10
    ensures AllFit(0x98, b) && |Seats(0x98, b)| == |b| && Seats(0x98, b)[0] == Slot(0x98, b[0])
    ensures |b| == 2 ==> Seats(0x98, b)[1] == Slot(0xA4, b[1])
  {
    hide Seats, AllFit, Align4, MsiCapability;
    AlignedSizes();
    if |b| == 2 {
      SeatsEnd(Align4(0xA6 + |b[1].registers|), b[2..]);
      SeatNext(0xA4, b, 1);
    } else {
      SeatsEnd(0xA4, b[1..]);
    }
    SeatNext(0x98, b, 0);
    assert b[0..] == b;
  }

  lemma {:induction false} SeatsEnd(start: nat, caps: seq<Capability>)
    requires caps == []
    ensures Seats(start, caps) == [] && AllFit(start, caps)
  {
  }

  /** One more capability in front. */
  lemma {:induction false} SeatNext(start: nat, caps: seq<Capability>, i: nat)
    requires i < |caps| && start + 2 + |caps[i].registers| <= DEVICE_END
    requires AllFit(Align4(start + 2 + |caps[i].registers|), caps[i + 1..])
    ensures AllFit(start, caps[i..])
    ensures Seats(start, caps[i..]) == [Slot(start, caps[i])] + Seats(Align4(start + 2 + |caps[i].registers|), caps[i + 1..])
  {
    assert caps[i..][1..] == caps[i + 1..];
  }

  /**
   The virtio function, with the INTx flag set as `build` leaves it, satisfies the invariant: BAR 0
   is placed, the notification capability is at 0x70, MSI-X at 0x98, and MSI, if there is one, at 0xA4.
   */
  lemma VirtioFunction(header: seq<Op>, caps: seq<Capability>, pin: Byte, m: MsiSetup, msix: Msix)
    requires HeaderStores(header) && VirtioCaps(caps, m) && SetupOk(m)
    requires Valid(msix) && Vectors(msix) <= 64 && MsixLedger.NonePending(msix.pba)
    ensures SetUp(VirtioSetUp(header, caps, pin))
    ensures var ops := VirtioSetUp(header, caps, pin);
            var s, slots := Run(NewSpace(), ops), Accepts(NewSpace(), ops);
            var f := Fn(s, true, false, if |caps| == 7 then Some(MsiPart(0xA6, [])) else None,
                        Some(MsixPart(0x9A, msix, [])), None, map[]);
            && s.bars[0] == Some(VIRTIO_BAR)
            && FunctionRuns.RunInv(Notify.Region(0, 0x3000, 0x1000, 0x72), f, Plan(slots, 6, 5, m))
  {
    hide Run, Accepts, Seats, AllFit, PlaceBar, VirtioSetUp, Holds, FunctionRuns.RunInv;
    VirtioSeats(caps, m);
    VirtioRun(header, caps, pin);
    var ops := VirtioSetUp(header, caps, pin);
    var s, slots := Run(NewSpace(), ops), Accepts(NewSpace(), ops);
    var f := Fn(s, true, false, if |caps| == 7 then Some(MsiPart(0xA6, [])) else None, Some(MsixPart(0x9A, msix, [])), None, map[]);
    assert slots[3] == Slot(0x70, caps[3]) && slots[5] == Slot(0x98, caps[5]) && (|caps| == 7 ==> slots[6] == Slot(0xA4, caps[6]));
    SetUpFunction(ops, Notify.Region(0, 0x3000, 0x1000, 0x72), 3, f, Plan(slots, 6, 5, m));
  }

  lemma VirtioRun(header: seq<Op>, caps: seq<Capability>, pin: Byte)
    requires HeaderStores(header) && |caps| >= 5 && AllFit(DEVICE_START, caps[..5])
    requires AllFit(NextStart(Seats(DEVICE_START, caps[..5])), caps[5..])
    requires forall i :: 0 <= i < |caps| ==> CapabilityArgument(caps[i])
    ensures SetUp(VirtioSetUp(header, caps, pin))
    ensures var ops, first := VirtioSetUp(header, caps, pin), Seats(DEVICE_START, caps[..5]);
            && Accepts(NewSpace(), ops) == first + Seats(NextStart(first), caps[5..])
            && Run(NewSpace(), ops).bars[0] == Some(VIRTIO_BAR)
  {
    hide Run, Accepts, Seats, AllFit, PlaceBar, CheckBar, Holds, BarsInvariant;
    var s0 := NewSpace();
    HeaderRun(s0, header);
    var s1 := Run(s0, header);
    EmptyPristine();
    assert Holds(s1, []) by { HeaderHolds(header); }
    BarAccepted(s1);
    var s2 := Apply(s1, NewBar(VIRTIO_BAR));
    One(s1, NewBar(VIRTIO_BAR));
    ApplyKeepsList(s1, [], NewBar(VIRTIO_BAR));
    assert [] + Appended(s1, NewBar(VIRTIO_BAR)) == [];
    CapabilitiesAccepted(s2, caps, pin);
    var rest := Additions(caps[..5]) + ([AllowBusMaster] + (Additions(caps[5..]) + [UseIntx(pin)]));
    RunConcat(s1, [NewBar(VIRTIO_BAR)], rest);
    RunConcat(s0, header, [NewBar(VIRTIO_BAR)] + rest);
    var slots := Accepts(s2, rest);
    assert [] + ([] + slots) == slots;
  }

  lemma {:induction false} HeaderHolds(header: seq<Op>)
    requires HeaderStores(header)
    ensures SetUp(header) && Holds(Run(NewSpace(), header), [])
  {
    hide Run, Accepts, Exact, Holds, BarsInvariant;
    EmptyPristine();
    HeaderRun(NewSpace(), header);
    SetUpRun(NewSpace(), [], header);
    var none: seq<Slot> := [];
    assert none + Accepts(NewSpace(), header) == none;
  }
}
