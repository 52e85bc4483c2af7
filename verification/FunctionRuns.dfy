/**
 Every run of a whole function: configuration writes, table writes, device signals and
 ISR reads in any order keep all the invariants of its parts at once.
 */
module FunctionRuns {
  import opened Basics
  import opened Bits
  import opened RegisterBlock
  import opened ConfigSpace
  import opened Bars
  import opened Capabilities
  import opened CapabilityList
  import opened MsixCore
  import opened MsiCore
  import opened MsiConfig
  import opened WholeFunction
  import MsiEvaluation
  import MsiRuns
  import SpaceRuns
  import Intx
  import MsixRuns
  import MsixTable
  import MsixLedger
  import Notify

  datatype Op =
    | ConfigWrite(offset: nat, data: Bytes)
    | WriteTable(offset: nat, data: Bytes)
    | SignalMessage(vector: nat)
    | SignalLine(level: bool)
    | IsrRead

  predicate MsixEnabled(f: Fn)
    requires Sound(f)
  {
    f.msix.Some? && MsixRuns.Gated(Machine(f.space, f.msix.value)).enabled
  }

  predicate MsiEnabled(f: Fn)
    requires Sound(f)
  {
    f.msi.Some? && Control(f.space, f.msi.value.o)[0]
  }

  /** `signal` with a message interrupt: MSI-X first, then MSI; INTx refuses it. */
  function SendMessage(f: Fn, v: nat): Fn
    requires Sound(f)
  {
    if MsixEnabled(f) then
      var p := f.msix.value;
      var x := MsixRuns.Step(Machine(f.space, p), MsixRuns.Signal(v));
      f.(msix := Some(p.(msix := x.msix, sent := x.sent)))
    else if MsiEnabled(f) && v < 32 then
      var p := f.msi.value;
      var x := MsiRuns.Step(MsiRuns.Machine(f.space, p.o, p.sent), MsiRuns.Signal(v));
      f.(space := x.space, msi := Some(p.(sent := x.sent)))
    else f
  }

  /** `signal` with a line level: refused while messages are enabled, dropped while INTx is disabled. */
  function DriveLine(f: Fn, level: bool): Fn
    requires Sound(f)
  {
    var x := Intx.Step(Intx.Line(f.space, f.cached, f.level), Intx.DeviceSignal(level, MsixEnabled(f) || MsiEnabled(f)));
    f.(space := x.space, cached := x.cached, level := x.level)
  }

  function StoreTable(f: Fn, offset: nat, data: Bytes): Fn
    requires Sound(f)
  {
    if f.msix.None? then f
    else
      var p := f.msix.value;
      var w := TableWrite(p.msix, MsixRuns.Gated(Machine(f.space, p)), offset, data, p.sent);
      f.(msix := Some(p.(msix := w.msix, sent := w.sent)), messages := MsixTable.Store(f.messages, w.update))
  }

  function Step(n: Notify.Region, f: Fn, op: Op): Fn
    requires Notify.RegionOk(n) && Sound(f)
  {
    match op
    case ConfigWrite(offset, data) => WriteConfig(n, f, offset, data).0
    case WriteTable(offset, data) => StoreTable(f, offset, data)
    case SignalMessage(v) => SendMessage(f, v)
    case SignalLine(level) => DriveLine(f, level)
    case IsrRead => DriveLine(f, false)
  }

  // ---------- the invariant ----------

  /** Capability list, BAR registers and the wiring of the parts. */
  ghost predicate Shaped(n: Notify.Region, f: Fn, p: Plan) {
    && Notify.RegionOk(n) && Sound(f) && Planned(f, p) && BarsInvariant(f.space)
    && Notify.MultiplierFixed(n, f.space)
    && (f.space.bars[n.bar].Some? ==> Notify.Prompt(f.space.bars[n.bar].value))
  }

  /** MSI holds nothing deliverable back. */
  ghost predicate MsiOk(f: Fn)
    requires Sound(f)
  {
    f.msi.Some? && HasMasking(Control(f.space, f.msi.value.o)) ==> MsiRuns.Calm(f.space, f.msi.value.o)
  }

  /** MSI-X holds nothing deliverable back, and the device's copy of its messages is right. */
  ghost predicate MsixOk(f: Fn)
    requires Sound(f)
  {
    f.msix.Some? ==>
      var x := Machine(f.space, f.msix.value);
      && MsixRuns.InTable(x.msix) && MsixRuns.OneWord(x.msix) && MsixRuns.Quiet(x)
      && MsixTable.Coherent(x.msix, f.messages)
  }

  /** The notification address the device stored is the current one. */
  ghost predicate NotifyOk(n: Notify.Region, f: Fn)
    requires Notify.RegionOk(n) && Sound(f)
  {
    Notify.Coherent(n, Notify.Device(f.space, f.info))
  }

  ghost predicate Inv(n: Notify.Region, f: Fn, p: Plan) {
    Shaped(n, f, p) && MsiOk(f) && MsixOk(f) && NotifyOk(n, f)
  }

  /** What the driver must respect: no write to MSI's pending dword, table writes inside one entry. */
  predicate Regular(f: Fn, op: Op)
    requires Sound(f)
  {
    match op
    case ConfigWrite(offset, data) =>
      f.msi.Some? ==>
        var o := f.msi.value.o;
        HasMasking(Control(f.space, o)) ==> !RangeOverlaps(offset, |data|, o + PendingOffset(Control(f.space, o)), 4)
    case WriteTable(offset, data) => data != [] && MsixTable.WithinEntry(offset, |data|)
    case _ => true
  }

  // ---------- transfer between spaces ----------

  /** `t` has the header of `s` and differs from it in writable bits only. */
  ghost predicate SameHeader(s: Space, t: Space) {
    && WellFormed(s) && WellFormed(t) && GuestFrame(s, t)
    && forall i :: 0 <= i < DEVICE_START ==> t.regs[i] == s.regs[i]
  }

  /** The function with another space. */
  function WithSpace(f: Fn, s: Space): Fn {
    f.(space := s)
  }

  lemma ShapedGuest(n: Notify.Region, f: Fn, p: Plan, t: Space)
    requires Shaped(n, f, p) && WellFormed(t) && GuestFrame(f.space, t)
    ensures Shaped(n, WithSpace(f, t), p)
  {
    hide Holds, BarsInvariant, MsiReady;
    SpaceRuns.HoldsGuest(f.space, t, p.slots);
    BarsInvariantGuest(f.space, t);
    assert BarTable(t);
    if f.msi.Some? {
      ReadySize(f, p);
      ReadyFrame(f.space, t, f.msi.value.o, p.setup);
      MsiRuns.ReadyFits(t, f.msi.value.o, p.setup);
    }
  }

  /** The same BARs are decoded when Command and the BAR registers agree. */
  lemma DecodeTransfer(s: Space, t: Space, i: nat)
    requires BarTable(s) && BarTable(t) && t.bars == s.bars && i < NUM_BARS
    requires t.regs[COMMAND] == s.regs[COMMAND] && t.regs[COMMAND + 1] == s.regs[COMMAND + 1]
    requires forall j :: BAR0 <= j < BarOffset(NUM_BARS) ==> t.regs[j] == s.regs[j]
    ensures GetBar(t, i) == GetBar(s, i)
  {
    if s.bars[i].Some? {
      var bar := s.bars[i].value;
      assert Word(t.regs, COMMAND) == Word(s.regs, COMMAND);
      assert Dword(t.regs, BarOffset(i)) == Dword(s.regs, BarOffset(i));
      assert bar.kind.Mem64? ==> Dword(t.regs, BarOffset(i) + 4) == Dword(s.regs, BarOffset(i) + 4);
    }
  }

  lemma NotifyTransfer(n: Notify.Region, f: Fn, g: Fn)
    requires Notify.RegionOk(n) && Sound(f) && Sound(g) && NotifyOk(n, f) && g.info == f.info && g.space.bars == f.space.bars
    requires g.space.regs[COMMAND] == f.space.regs[COMMAND] && g.space.regs[COMMAND + 1] == f.space.regs[COMMAND + 1]
    requires forall j :: BAR0 <= j < BarOffset(NUM_BARS) ==> g.space.regs[j] == f.space.regs[j]
    requires Dword(g.space.regs, n.cap + 14) == Dword(f.space.regs, n.cap + 14)
    ensures NotifyOk(n, g)
  {
    hide GetBar;
    DecodeTransfer(f.space, g.space, n.bar);
  }

  lemma MultiplierGuest(n: Notify.Region, s: Space, t: Space)
    requires Notify.RegionOk(n) && WellFormed(s) && WellFormed(t) && GuestFrame(s, t) && Notify.MultiplierFixed(n, s)
    ensures Dword(t.regs, n.cap + 14) == Dword(s.regs, n.cap + 14)
  {
    forall i | n.cap + 14 <= i < n.cap + 18 ensures t.regs[i] == s.regs[i] {
      ReadOnlyByte(s, t, i);
    }
  }

  /** MSI-X reads Bus Master and its own control word only. */
  lemma MsixTransfer(f: Fn, g: Fn)
    requires Sound(f) && Sound(g) && MsixOk(f) && g.msix == f.msix && g.messages == f.messages
    requires f.msix.Some? ==> GateOf(g.space, f.msix.value.cap) == GateOf(f.space, f.msix.value.cap)
    ensures MsixOk(g)
  {
  }

  /** MSI reads its own capability only. */
  lemma MsiTransfer(f: Fn, g: Fn)
    requires Sound(f) && Sound(g) && MsiOk(f) && (g.msi.Some? <==> f.msi.Some?) && (f.msi.Some? ==> g.msi.value.o == f.msi.value.o)
    requires f.msi.Some? ==> forall i :: f.msi.value.o <= i < SPACE_SIZE ==> g.space.regs[i] == f.space.regs[i]
    ensures MsiOk(g)
  {
    if f.msi.Some? {
      var s, t, o := f.space, g.space, f.msi.value.o;
      assert Control(t, o) == Control(s, o);
      if HasMasking(Control(s, o)) {
        assert MaskBits(t, o) == MaskBits(s, o) && PendingBits(t, o) == PendingBits(s, o);
        MsiRuns.SameCalm(s, t, o);
      }
    }
  }

  // ---------- configuration writes ----------

  /** The result of a configuration write, apart from what the device notices: all handlers have seen the write. */
  lemma WriteParts(n: Notify.Region, f: Fn, p: Plan, offset: nat, data: Bytes)
    requires Notify.RegionOk(n) && Sound(f) && Planned(f, p) && Accepted(offset, |data|)
    ensures var f1 := MsiHandler(AfterStore(f, offset, data), offset, |data|).0;
            var g := WriteConfig(n, f, offset, data).0;
            g == MsixHandler(f1, offset, |data|).(info := g.info)
  {
    hide MsiHandler, MsixHandler, AfterStore, Planned, Notify.BarUpdateForWrite, Notify.SpaceBitsChanged;
    EarlyReturnsLoseNothing(n, f, p, offset, data);
    var (f1, message) := MsiHandler(AfterStore(f, offset, data), offset, |data|);
    HandlersKeepBars(f, offset, data);
    NoticesInfo(n, MsixHandler(f1, offset, |data|), WriteConfigFully(n, f, offset, data).1);
  }

  lemma {:induction false} NoticesInfo(n: Notify.Region, f: Fn, events: seq<Event>)
    requires Notify.RegionOk(n) && BarTable(f.space)
    ensures NoticeAll(n, f, events) == f.(info := NoticeAll(n, f, events).info)
    decreases |events|
  {
    if events != [] {
      NoticesInfo(n, Notice(n, f, events[0]), events[1..]);
    }
  }

  /** The space after a configuration write: the store, then MSI's own changes inside its capability. */
  lemma WriteSpaces(n: Notify.Region, f: Fn, p: Plan, offset: nat, data: Bytes)
    requires Shaped(n, f, p) && Accepted(offset, |data|)
    ensures var t, s := GuestWrite(f.space, offset, data), WriteConfig(n, f, offset, data).0.space;
            && GuestFrame(f.space, t) && GuestFrame(f.space, s) && SameHeader(t, s)
            && (f.msix.Some? ==> f.msix.value.cap + 2 <= SPACE_SIZE && GateOf(s, f.msix.value.cap) == GateOf(t, f.msix.value.cap))
  {
    hide MsiHandler, MsixHandler, WriteConfig, BarsInvariant;
    WriteParts(n, f, p, offset, data);
    HandlersKeepBars(f, offset, data);
    HeaderIsStore(f, p, offset, data);
    GuestWriteFrame(f.space, offset, data);
    if f.msix.Some? {
      ControlKept(f, p, offset, data);
    }
  }

  /** MSI's stores leave MSI-X's control word alone. */
  lemma ControlKept(f: Fn, p: Plan, offset: nat, data: Bytes)
    requires Sound(f) && Planned(f, p) && f.msix.Some?
    ensures var t, s, cap := GuestWrite(f.space, offset, data), MsiHandler(AfterStore(f, offset, data), offset, |data|).0.space, f.msix.value.cap;
            GateOf(s, cap) == GateOf(t, cap)
  {
    hide MsiOnWrite, GuestWrite;
    HeaderIsStore(f, p, offset, data);
    var f1, cap := AfterStore(f, offset, data), f.msix.value.cap;
    if f1.msi.Some? {
      AfterStorePlanned(f, p, offset, data);
      ReadySize(f1, p);
      MsiLocal(f1.space, f1.msi.value.o, p.setup, offset, |data|, f1.msi.value.sent);
      CapabilitiesApart(p.slots, p.msi, p.msix);
    }
  }

  lemma CapabilitiesApart(slots: seq<Slot>, i: nat, k: nat)
    requires Layout(slots) && i < |slots| && k < |slots| && i != k
    ensures End(slots[i]) <= slots[k].start || End(slots[k]) <= slots[i].start
  {
    if i < k {
      Ordered(slots, i, k);
    } else {
      Ordered(slots, k, i);
    }
  }

  lemma WriteShaped(n: Notify.Region, f: Fn, p: Plan, offset: nat, data: Bytes)
    requires Shaped(n, f, p) && Accepted(offset, |data|)
    ensures Shaped(n, WriteConfig(n, f, offset, data).0, p)
  {
    hide MsiOnWrite, MsixRuns.OnWrite, BarsInvariant, Holds, WriteConfig, Fits;
    WriteParts(n, f, p, offset, data);
    WriteSpaces(n, f, p, offset, data);
    var g := WriteConfig(n, f, offset, data).0;
    ShapedGuest(n, f, p, g.space);
  }

  /** For MSI a configuration write of the function is a step of its own machine. */
  lemma MsiProjection(n: Notify.Region, f: Fn, p: Plan, offset: nat, data: Bytes)
    requires Notify.RegionOk(n) && Sound(f) && Planned(f, p) && Accepted(offset, |data|) && Regular(f, ConfigWrite(offset, data))
    requires f.msi.Some? && HasMasking(Control(f.space, f.msi.value.o))
    ensures var x := MsiRuns.Machine(f.space, f.msi.value.o, f.msi.value.sent);
            var g, y := WriteConfig(n, f, offset, data).0, MsiRuns.Step(x, MsiRuns.ConfigWrite(offset, data));
            g.space == y.space && g.msi == Some(MsiPart(x.o, y.sent))
  {
    hide MsiOnWrite, MsixHandler, WriteConfig, MsiReady, GuestWrite, Planned;
    WriteParts(n, f, p, offset, data);
    AfterStorePlanned(f, p, offset, data);
    var f1 := AfterStore(f, offset, data);
    ReadySize(f1, p);
    MsiRuns.ReadyFits(f1.space, f.msi.value.o, p.setup);
  }

  lemma WriteMsi(n: Notify.Region, f: Fn, p: Plan, offset: nat, data: Bytes)
    requires Shaped(n, f, p) && MsiOk(f) && Accepted(offset, |data|) && Regular(f, ConfigWrite(offset, data))
    requires Sound(WriteConfig(n, f, offset, data).0)
    requires CommandBit(WriteConfig(n, f, offset, data).0.space, BUS_MASTER)
    ensures MsiOk(WriteConfig(n, f, offset, data).0)
  {
    if f.msi.Some? && p.setup.masking {
      hide Planned, BarsInvariant, WriteConfig, Fits, MsiReady, MsiRuns.Calm, MsiRuns.Step;
      ReadySize(f, p);
      MsiStart(f, p);
      MsiRuns.ReadyFits(f.space, f.msi.value.o, p.setup);
      MsiProjection(n, f, p, offset, data);
      MsiRuns.ConfigWriteKeeps(MsiRuns.Machine(f.space, f.msi.value.o, f.msi.value.sent), p.setup, offset, data);
    } else if f.msi.Some? {
      hide WriteConfig;
      MsiPlain(n, f, p, offset, data);
    } else {
      hide WriteConfig, Planned;
      WriteParts(n, f, p, offset, data);
    }
  }

  lemma MsiPlain(n: Notify.Region, f: Fn, p: Plan, offset: nat, data: Bytes)
    requires Shaped(n, f, p) && Accepted(offset, |data|) && f.msi.Some? && !p.setup.masking
    requires Sound(WriteConfig(n, f, offset, data).0)
    ensures MsiOk(WriteConfig(n, f, offset, data).0)
  {
    hide WriteConfig, MsiReady, Shaped, Planned, Sound;
    ShapedSound(n, f, p);
    WriteShaped(n, f, p, offset, data);
    var g := WriteConfig(n, f, offset, data).0;
    ShapedSound(n, g, p);
    if g.msi.Some? {
      ReadySize(g, p);
      MsiRuns.ReadyFits(g.space, g.msi.value.o, p.setup);
    }
  }

  lemma SameOnWrite(x: MsixRuns.Machine, y: MsixRuns.Machine, offset: nat, size: nat)
    requires MsixRuns.Sound(x) && MsixRuns.Sound(y) && MsixRuns.Gated(x) == MsixRuns.Gated(y)
    requires y == x.(space := y.space)
    ensures var a, b := MsixRuns.OnWrite(x, offset, size), MsixRuns.OnWrite(y, offset, size);
            a.msix == b.msix && a.sent == b.sent && a.msix.table == x.msix.table && a.space == x.space && a.cap == x.cap
  {
  }

  lemma SameQuiet(x: MsixRuns.Machine, y: MsixRuns.Machine)
    requires MsixRuns.Sound(x) && MsixRuns.Sound(y) && MsixRuns.Gated(x) == MsixRuns.Gated(y) && x.msix == y.msix
    requires MsixRuns.Quiet(x)
    ensures MsixRuns.Quiet(y)
  {
  }

  lemma SameMessages(m: Msix, t: Msix, cache: MsixTable.Cache)
    requires Valid(m) && Valid(t) && t.table == m.table && MsixTable.Coherent(m, cache)
    ensures MsixTable.Coherent(t, cache)
  {
  }

  /** For MSI-X a configuration write of the function is a step of its own machine, with the same gate afterwards. */
  lemma MsixProjection(n: Notify.Region, f: Fn, p: Plan, offset: nat, data: Bytes)
    requires Shaped(n, f, p) && Accepted(offset, |data|) && f.msix.Some?
    ensures var x, g := Machine(f.space, f.msix.value), WriteConfig(n, f, offset, data).0;
            var y := MsixRuns.Step(x, MsixRuns.ConfigWrite(offset, data));
            && g.msix == Some(f.msix.value.(msix := y.msix, sent := y.sent)) && g.messages == f.messages
            && WellFormed(g.space) && GateOf(g.space, x.cap) == MsixRuns.Gated(y) && y.msix.table == x.msix.table
  {
    hide MsiHandler, BarsInvariant, Planned, WriteConfig, Fits, GuestWrite, MsixRuns.OnWrite, GateOf;
    WriteParts(n, f, p, offset, data);
    WriteSpaces(n, f, p, offset, data);
    var g, t := WriteConfig(n, f, offset, data).0, GuestWrite(f.space, offset, data);
    SameOnWrite(Machine(t, f.msix.value), Machine(g.space, f.msix.value), offset, |data|);
  }

  lemma WriteMsix(n: Notify.Region, f: Fn, p: Plan, offset: nat, data: Bytes)
    requires Shaped(n, f, p) && MsixOk(f) && Accepted(offset, |data|)
    requires Sound(WriteConfig(n, f, offset, data).0)
    requires CommandBit(WriteConfig(n, f, offset, data).0.space, BUS_MASTER)
    ensures MsixOk(WriteConfig(n, f, offset, data).0)
  {
    if f.msix.Some? {
      hide BarsInvariant, Planned, WriteConfig, MsixRuns.Step, MsixRuns.Quiet, MsixRuns.InTable, MsixRuns.OneWord,
           MsixTable.Coherent, GateOf;
      MsixProjection(n, f, p, offset, data);
      MachineKeeps(Machine(f.space, f.msix.value), offset, data, WriteConfig(n, f, offset, data).0.space, f.messages);
    } else {
      hide WriteConfig, Planned;
      WriteParts(n, f, p, offset, data);
    }
  }

  lemma MachineKeeps(x: MsixRuns.Machine, offset: nat, data: Bytes, s: Space, messages: MsixTable.Cache)
    requires MsixRuns.Sound(x) && MsixRuns.InTable(x.msix) && MsixRuns.OneWord(x.msix) && MsixRuns.Quiet(x)
    requires MsixTable.Coherent(x.msix, messages) && WellFormed(s) && CommandBit(s, BUS_MASTER)
    requires var y := MsixRuns.Step(x, MsixRuns.ConfigWrite(offset, data));
             GateOf(s, x.cap) == MsixRuns.Gated(y) && y.msix.table == x.msix.table
    ensures var y := MsixRuns.Step(x, MsixRuns.ConfigWrite(offset, data));
            var z := MsixRuns.Machine(s, x.cap, y.msix, y.sent);
            && MsixRuns.Sound(z) && MsixRuns.InTable(z.msix) && MsixRuns.OneWord(z.msix) && MsixRuns.Quiet(z)
            && MsixTable.Coherent(z.msix, messages)
  {
    hide MsixRuns.Step, MsixRuns.Quiet, MsixRuns.InTable, MsixRuns.OneWord, MsixTable.Coherent, GateOf;
    var op := MsixRuns.ConfigWrite(offset, data);
    var y := MsixRuns.Step(x, op);
    BusMasterGate(s, y, x.cap);
    MsixRuns.ConfigWriteKeeps(x, offset, data);
    MsixRuns.SameWords(x, [op]);
    OneStep(x, op);
    SameQuiet(y, MsixRuns.Machine(s, x.cap, y.msix, y.sent));
    SameMessages(x.msix, y.msix, messages);
  }

  lemma BusMasterGate(s: Space, y: MsixRuns.Machine, cap: nat)
    requires WellFormed(s) && MsixRuns.Sound(y) && CommandBit(s, BUS_MASTER)
    requires cap + 2 <= SPACE_SIZE && GateOf(s, cap) == MsixRuns.Gated(y)
    ensures MsixRuns.Gated(y).busMaster
  {
  }

  lemma {:induction false} OneStep(x: MsixRuns.Machine, op: MsixRuns.Op)
    requires MsixRuns.Sound(x)
    ensures MsixRuns.Run(x, [op]) == MsixRuns.Step(x, op)
  {
    hide MsixRuns.Step;
    assert [op][1..] == [];
  }

  /** What the device notices is what the BAR and space-bit checks alone would tell it. */
  lemma NoticedInfo(n: Notify.Region, f: Fn, p: Plan, offset: nat, data: Bytes)
    requires Shaped(n, f, p) && Accepted(offset, |data|) && BarTable(WriteConfig(n, f, offset, data).0.space)
    ensures var g := WriteConfig(n, f, offset, data).0;
            g.info == Notify.AfterWrite(n, f.space, g.space, offset, f.info)
  {
    hide MsiHandler, MsixHandler, AfterStore, Planned, Notify.SpaceBitsChanged, BarsInvariant, GetBar;
    var f0 := AfterStore(f, offset, data);
    var (f1, message) := MsiHandler(f0, offset, |data|);
    HandlersKeepBars(f, offset, data);
    SameInfo(f, offset, data);
    if message.Some? {
      AfterStorePlanned(f, p, offset, data);
      ReportsOnlyIfPresent(f0, offset, |data|);
      MsiEventMeans(f0, p, offset, |data|);
      SpaceBitsMean(f, p, offset, data);
    }
  }

  lemma SameInfo(f: Fn, offset: nat, data: Bytes)
    requires Sound(f)
    ensures AfterStore(f, offset, data).info == f.info
  {
  }

  lemma SameNotice(n: Notify.Region, before: Space, t: Space, s: Space, offset: nat, info: Option<Notify.Info>)
    requires Notify.RegionOk(n) && WellFormed(before) && BarTable(t) && BarTable(s) && SameHeader(t, s)
    requires Dword(s.regs, n.cap + 14) == Dword(t.regs, n.cap + 14)
    ensures Notify.AfterWrite(n, before, s, offset, info) == Notify.AfterWrite(n, before, t, offset, info)
  {
    hide GetBar;
    forall i | 0 <= i < NUM_BARS ensures GetBar(s, i) == GetBar(t, i) {
      DecodeTransfer(t, s, i);
    }
    assert Word(s.regs, COMMAND) == Word(t.regs, COMMAND);
  }

  lemma WriteNotify(n: Notify.Region, f: Fn, p: Plan, offset: nat, data: Bytes)
    requires Shaped(n, f, p) && NotifyOk(n, f) && Accepted(offset, |data|)
    requires Sound(WriteConfig(n, f, offset, data).0)
    ensures NotifyOk(n, WriteConfig(n, f, offset, data).0)
  {
    hide Planned, WriteConfig, BarsInvariant, GuestWrite, Notify.AfterWrite, Fits, GetBar;
    WriteSpaces(n, f, p, offset, data);
    NoticedInfo(n, f, p, offset, data);
    var g, t := WriteConfig(n, f, offset, data).0, GuestWrite(f.space, offset, data);
    MultiplierGuest(n, f.space, t);
    MultiplierGuest(n, f.space, g.space);
    SameNotice(n, f.space, t, g.space, offset, f.info);
    Notify.StepKeeps(n, Notify.Device(f.space, f.info), offset, data);
    DecodeTransfer(t, g.space, n.bar);
  }

  // ---------- the other actions ----------

  lemma TableKeeps(n: Notify.Region, f: Fn, p: Plan, offset: nat, data: Bytes)
    requires Inv(n, f, p) && Regular(f, WriteTable(offset, data)) && CommandBit(f.space, BUS_MASTER)
    ensures Inv(n, StoreTable(f, offset, data), p)
  {
    if f.msix.Some? {
      hide Planned, BarsInvariant, TableWrite, MsixRuns.Quiet, MsixRuns.InTable, MsixTable.Coherent, Fits, GateOf;
      var x := Machine(f.space, f.msix.value);
      var op := MsixRuns.WriteTable(offset, data);
      BusMasterGate(f.space, x, x.cap);
      MsixRuns.TableWriteKeeps(x, offset, data);
      MsixTable.KeepsCoherence(x.msix, MsixRuns.Gated(x), offset, data, x.sent, f.messages);
      MsixRuns.SameWords(x, [op]);
      OneStep(x, op);
      var g := StoreTable(f, offset, data);
      assert Machine(g.space, g.msix.value) == MsixRuns.Step(x, op);
      assert Planned(g, p) by { SamePlan(f, g, p); }
    }
  }

  lemma SamePlan(f: Fn, g: Fn, p: Plan)
    requires Planned(f, p) && g.space == f.space
    requires (g.msi.Some? <==> f.msi.Some?) && (f.msi.Some? ==> g.msi.value.o == f.msi.value.o)
    requires (g.msix.Some? <==> f.msix.Some?) && (f.msix.Some? ==> g.msix.value.cap == f.msix.value.cap)
    ensures Planned(g, p)
  {
  }

  lemma MsixSignalKeeps(n: Notify.Region, f: Fn, p: Plan, v: nat)
    requires Inv(n, f, p) && MsixEnabled(f)
    ensures Inv(n, SendMessage(f, v), p)
  {
    hide Planned, BarsInvariant, MsixRuns.Quiet, MsixRuns.InTable, MsixTable.Coherent, Fits, GateOf;
    var x := Machine(f.space, f.msix.value);
    var op := MsixRuns.Signal(v);
    MsixRuns.SignalKeeps(x, v);
    MsixRuns.SameWords(x, [op]);
    OneStep(x, op);
    var g := SendMessage(f, v);
    var y := MsixRuns.Step(x, op);
    assert Machine(g.space, g.msix.value) == y;
    SameMessages(x.msix, y.msix, f.messages);
    assert Planned(g, p) by { SamePlan(f, g, p); }
  }

  lemma MsiSignalKeeps(n: Notify.Region, f: Fn, p: Plan, v: nat)
    requires Inv(n, f, p) && !MsixEnabled(f) && MsiEnabled(f) && v < 32 && CommandBit(f.space, BUS_MASTER)
    ensures Inv(n, SendMessage(f, v), p)
  {
    hide Planned, BarsInvariant, MsixRuns.Quiet, MsixRuns.InTable, MsixTable.Coherent, MsiTryGenerate, MsiReady, MsiRuns.Calm;
    var o := f.msi.value.o;
    MsiSignalSpace(f, p, v);
    var g := SendMessage(f, v);
    var h := WithSpace(f, g.space);
    ShapedGuest(n, f, p, g.space);
    assert Planned(g, p) by { SamePlan(h, g, p); }
    MultiplierGuest(n, f.space, g.space);
    NotifyTransfer(n, f, g);
    MsixTransfer(f, g);
    ReadySize(f, p);
    ReadySize(g, p);
    MsiStart(f, p);
    MsiRuns.ReadyFits(f.space, o, p.setup);
    MsiRuns.ReadyFits(g.space, o, p.setup);
    if p.setup.masking {
      MsiRuns.SignalKeeps(MsiRuns.Machine(f.space, o, f.msi.value.sent), p.setup, v);
    }
  }

  /** A signal through MSI changes pending bits of its capability and nothing else. */
  lemma MsiSignalSpace(f: Fn, p: Plan, v: nat)
    requires Sound(f) && Planned(f, p) && !MsixEnabled(f) && MsiEnabled(f) && v < 32 && CommandBit(f.space, BUS_MASTER)
    ensures SameHeader(f.space, SendMessage(f, v).space)
    ensures f.msix.Some? ==> GateOf(SendMessage(f, v).space, f.msix.value.cap) == GateOf(f.space, f.msix.value.cap)
  {
    hide MsiTryGenerate, MsiReady, Planned, GateOf;
    var s, o := f.space, f.msi.value.o;
    var t := MsiTryGenerate(s, o, v).space;
    MsiEvaluation.AttemptFits(s, o, v);
    MsiStart(f, p);
    ReadySize(f, p);
    MsiRuns.ReadyFits(s, o, p.setup);
    SignalBytes(s, o, v, p.setup);
    if f.msix.Some? {
      MsixApart(f, p);
      SameGate(s, t, f.msix.value.cap);
    }
  }

  lemma MsixApart(f: Fn, p: Plan)
    requires Sound(f) && Planned(f, p) && f.msi.Some? && f.msix.Some?
    ensures var o, cap := f.msi.value.o, f.msix.value.cap;
            cap + 2 <= o || o + CapSize(Control(f.space, o)) <= cap
  {
    ReadySize(f, p);
    CapabilitiesApart(p.slots, p.msi, p.msix);
  }

  lemma SameGate(s: Space, t: Space, cap: nat)
    requires WellFormed(s) && WellFormed(t) && cap + 2 <= SPACE_SIZE
    requires t.regs[COMMAND] == s.regs[COMMAND] && t.regs[COMMAND + 1] == s.regs[COMMAND + 1]
    requires t.regs[cap] == s.regs[cap] && t.regs[cap + 1] == s.regs[cap + 1]
    ensures GateOf(t, cap) == GateOf(s, cap)
  {
  }

  lemma SignalBytes(s: Space, o: nat, v: nat, m: MsiSetup)
    requires MsiReady(s, o, m) && v < 32 && CanSend(s, o)
    ensures forall i :: 0 <= i < SPACE_SIZE && !(o <= i < o + CapSize(Control(s, o))) ==>
              MsiTryGenerate(s, o, v).space.regs[i] == s.regs[i]
  {
    hide MsiReady;
    MsiRuns.ReadyFits(s, o, m);
    if m.masking {
      MsiRuns.SignalMeans(s, o, v);
      hide MsiTryGenerate, PendingBits, VectorMasked;
    }
  }

  /** A line signal touches the Status byte, the cached flag and the line only. */
  lemma LineEffect(f: Fn, level: bool)
    requires Sound(f)
    ensures var g := DriveLine(f, level);
            OnlyStatus(f.space, g.space) && g == f.(space := g.space, cached := g.cached, level := g.level)
  {
    hide MsixEnabled, MsiEnabled, Fits, MsixRuns.Sound;
  }

  lemma LineKeeps(n: Notify.Region, f: Fn, p: Plan, level: bool)
    requires Inv(n, f, p)
    ensures Inv(n, DriveLine(f, level), p)
  {
    hide DriveLine, MsiOk, MsixOk, NotifyOk, Planned, BarsInvariant, GateOf, Fits;
    LineEffect(f, level);
    var g := DriveLine(f, level);
    StatusShaped(n, f, g, p);
    assert Dword(g.space.regs, n.cap + 14) == Dword(f.space.regs, n.cap + 14);
    NotifyTransfer(n, f, g);
    SameGates(f, g);
    MsixTransfer(f, g);
    if f.msi.Some? {
      MsiStart(f, p);
    }
    MsiTransfer(f, g);
  }

  /** The two spaces differ in the Status byte at most. */
  ghost predicate OnlyStatus(s: Space, t: Space) {
    && WellFormed(s) && WellFormed(t) && t.writable == s.writable && t.bars == s.bars && t.lastCapSize == s.lastCapSize
    && forall i :: 0 <= i < SPACE_SIZE && i != STATUS ==> t.regs[i] == s.regs[i]
  }

  lemma SameGates(f: Fn, g: Fn)
    requires Sound(f) && OnlyStatus(f.space, g.space)
    ensures f.msix.Some? ==> GateOf(g.space, f.msix.value.cap) == GateOf(f.space, f.msix.value.cap)
  {
  }

  lemma StatusShaped(n: Notify.Region, f: Fn, g: Fn, p: Plan)
    requires Shaped(n, f, p) && OnlyStatus(f.space, g.space) && g.msi == f.msi && g.msix == f.msix
    ensures Shaped(n, g, p)
  {
    hide Holds, BarsInvariant;
    SpaceRuns.SameTail(f.space, g.space);
    SpaceRuns.HoldsLocal(f.space, g.space, p.slots);
    BarsInvariantLocal(f.space, g.space);
    if f.msi.Some? {
      MsiStart(f, p);
      assert Control(g.space, f.msi.value.o) == Control(f.space, f.msi.value.o);
    }
  }

  // ---------- every run ----------

  /** Bus Master is set. */
  predicate Master(f: Fn) {
    WellFormed(f.space) && CommandBit(f.space, BUS_MASTER)
  }

  lemma WriteKeeps(n: Notify.Region, f: Fn, p: Plan, offset: nat, data: Bytes)
    requires Inv(n, f, p) && Regular(f, ConfigWrite(offset, data)) && Master(WriteConfig(n, f, offset, data).0)
    ensures Inv(n, WriteConfig(n, f, offset, data).0, p)
  {
    hide Shaped, MsiOk, MsixOk, NotifyOk, WriteConfig;
    ShapedSound(n, f, p);
    if Accepted(offset, |data|) {
      WriteShaped(n, f, p, offset, data);
      ShapedSound(n, WriteConfig(n, f, offset, data).0, p);
      WriteMsi(n, f, p, offset, data);
      WriteMsix(n, f, p, offset, data);
      WriteNotify(n, f, p, offset, data);
    } else {
      Refused(n, f, offset, data);
    }
  }

  lemma MessageKeeps(n: Notify.Region, f: Fn, p: Plan, v: nat)
    requires Inv(n, f, p) && Master(f)
    ensures Inv(n, SendMessage(f, v), p)
  {
    hide Shaped, MsiOk, MsixOk, NotifyOk, MsixEnabled, MsiEnabled;
    ShapedSound(n, f, p);
    if MsixEnabled(f) {
      MsixSignalKeeps(n, f, p, v);
    } else if MsiEnabled(f) && v < 32 {
      MsiSignalKeeps(n, f, p, v);
    }
  }

  lemma StepKeeps(n: Notify.Region, f: Fn, p: Plan, op: Op)
    requires Inv(n, f, p) && Regular(f, op) && Master(f) && Master(Step(n, f, op))
    ensures Inv(n, Step(n, f, op), p)
  {
    hide Inv, WriteConfig, StoreTable, SendMessage, DriveLine, Sound, Planned;
    assert Notify.RegionOk(n) && Sound(f) by { InvSound(n, f, p); }
    match op
    case ConfigWrite(offset, data) => WriteKeeps(n, f, p, offset, data);
    case WriteTable(offset, data) => TableKeeps(n, f, p, offset, data);
    case SignalMessage(v) => MessageKeeps(n, f, p, v);
    case SignalLine(level) => LineKeeps(n, f, p, level);
    case IsrRead => LineKeeps(n, f, p, false);
  }

  lemma InvSound(n: Notify.Region, f: Fn, p: Plan)
    requires Inv(n, f, p)
    ensures Notify.RegionOk(n) && Sound(f)
  {
  }

  // ---------- before Bus Master is set ----------

  /** No interrupt is held back anywhere. */
  ghost predicate NothingPending(f: Fn)
    requires Sound(f)
  {
    && (f.msix.Some? ==> MsixLedger.NonePending(f.msix.value.msix.pba))
    && (f.msi.Some? && HasMasking(Control(f.space, f.msi.value.o)) ==> PendingBits(f.space, f.msi.value.o) == Zeros(32))
  }

  /** Then MSI-X is quiet. */
  lemma IdleMsix(f: Fn)
    requires Sound(f) && (f.msix.Some? ==> MsixLedger.NonePending(f.msix.value.msix.pba))
    requires f.msix.Some? ==> MsixRuns.OneWord(f.msix.value.msix) && MsixTable.Coherent(f.msix.value.msix, f.messages)
    ensures MsixOk(f)
  {
  }

  lemma IdleMsi(f: Fn)
    requires Sound(f)
    requires f.msi.Some? && HasMasking(Control(f.space, f.msi.value.o)) ==> PendingBits(f.space, f.msi.value.o) == Zeros(32)
    ensures MsiOk(f)
  {
    hide PendingBits, MaskBits;
  }

  lemma IdleWriteMsix(n: Notify.Region, f: Fn, p: Plan, offset: nat, data: Bytes)
    requires Shaped(n, f, p) && MsixOk(f) && NothingPending(f) && Accepted(offset, |data|)
    requires Sound(WriteConfig(n, f, offset, data).0)
    ensures MsixOk(WriteConfig(n, f, offset, data).0)
    ensures f.msix.Some? ==> WriteConfig(n, f, offset, data).0.msix.Some? && WriteConfig(n, f, offset, data).0.msix.value.msix == f.msix.value.msix
    ensures f.msix.None? ==> WriteConfig(n, f, offset, data).0.msix.None?
  {
    hide Planned, WriteConfig, BarsInvariant, Fits, GateOf, Evaluate, MsixTable.Coherent, GuestWrite;
    if f.msix.Some? {
      MsixProjection(n, f, p, offset, data);
      var x := Machine(f.space, f.msix.value);
      forall g: Gate ensures Evaluate(x.msix, g, x.sent) == Evaluation(x.msix, x.sent) {
        MsixLedger.NothingToEvaluate(x.msix, g, x.sent);
      }
      IdleMsix(WriteConfig(n, f, offset, data).0);
    } else {
      WriteParts(n, f, p, offset, data);
    }
  }

  lemma IdleWriteMsi(n: Notify.Region, f: Fn, p: Plan, offset: nat, data: Bytes)
    requires Shaped(n, f, p) && NothingPending(f) && Accepted(offset, |data|) && Regular(f, ConfigWrite(offset, data))
    requires Sound(WriteConfig(n, f, offset, data).0)
    ensures var g := WriteConfig(n, f, offset, data).0;
            g.msi.Some? && HasMasking(Control(g.space, g.msi.value.o)) ==> PendingBits(g.space, g.msi.value.o) == Zeros(32)
  {
    if f.msi.Some? && p.setup.masking {
      hide Planned, BarsInvariant, WriteConfig, MsiReady, MsiRuns.Step;
      ReadySize(f, p);
      MsiStart(f, p);
      MsiRuns.ReadyFits(f.space, f.msi.value.o, p.setup);
      MsiProjection(n, f, p, offset, data);
      IdleMachine(MsiRuns.Machine(f.space, f.msi.value.o, f.msi.value.sent), p.setup, offset, data);
    } else if f.msi.Some? {
      hide WriteConfig, MsiReady, Shaped, Planned, Sound;
      ShapedSound(n, f, p);
      WriteShaped(n, f, p, offset, data);
      var g := WriteConfig(n, f, offset, data).0;
      ShapedSound(n, g, p);
      if g.msi.Some? {
        ReadySize(g, p);
        MsiRuns.ReadyFits(g.space, g.msi.value.o, p.setup);
      }
    } else {
      hide WriteConfig, Planned;
      WriteParts(n, f, p, offset, data);
    }
  }

  lemma IdleMachine(x: MsiRuns.Machine, m: MsiSetup, offset: nat, data: Bytes)
    requires MsiRuns.Sound(x, m) && Accepted(offset, |data|) && MsiRuns.Regular(x, MsiRuns.ConfigWrite(offset, data))
    requires PendingBits(x.space, x.o) == Zeros(32)
    ensures var y := MsiRuns.Step(x, MsiRuns.ConfigWrite(offset, data));
            Fits(y.space, x.o) && HasMasking(Control(y.space, x.o)) && PendingBits(y.space, x.o) == Zeros(32)
  {
    hide GuestWrite, WritePending, MsiReady, MsiRuns.Step, MsiRuns.Evaluates, Control, PendingBits, MsiRuns.Fixed;
    MsiRuns.ReadyFits(x.space, x.o, m);
    MsiRuns.WriteMeans(x, m, offset, data);
    var s := MsiRuns.Fixed(x, offset, data);
    MsiRuns.ReadyFits(s, x.o, m);
    if MsiRuns.Evaluates(s, x.o, offset, |data|) {
      MsiRuns.Stored(s, x.o, MsiEvaluation.Remaining(s, x.o, 0));
      assert MsiEvaluation.Remaining(s, x.o, 0) == Zeros(32);
    }
  }

  lemma IdleWrite(n: Notify.Region, f: Fn, p: Plan, offset: nat, data: Bytes)
    requires Inv(n, f, p) && NothingPending(f) && Regular(f, ConfigWrite(offset, data))
    ensures Inv(n, WriteConfig(n, f, offset, data).0, p) && NothingPending(WriteConfig(n, f, offset, data).0)
  {
    hide Shaped, MsiOk, MsixOk, NotifyOk, WriteConfig;
    ShapedSound(n, f, p);
    if Accepted(offset, |data|) {
      var g := WriteConfig(n, f, offset, data).0;
      WriteShaped(n, f, p, offset, data);
      ShapedSound(n, g, p);
      WriteNotify(n, f, p, offset, data);
      IdleWriteMsi(n, f, p, offset, data);
      IdleMsi(g);
      IdleWriteMsix(n, f, p, offset, data);
    } else {
      Refused(n, f, offset, data);
    }
  }

  lemma IdleTable(n: Notify.Region, f: Fn, p: Plan, offset: nat, data: Bytes)
    requires Inv(n, f, p) && NothingPending(f) && Regular(f, WriteTable(offset, data))
    ensures Inv(n, StoreTable(f, offset, data), p) && NothingPending(StoreTable(f, offset, data))
  {
    if f.msix.Some? {
      hide Shaped, StoreTable, MsiOk, MsixOk, NotifyOk, NothingPending, Sound;
      ShapedSound(n, f, p);
      var g := StoreTable(f, offset, data);
      IdleTableParts(f, offset, data);
      SameSpaceKeeps(n, f, g, p);
      ShapedSound(n, g, p);
      IdleTableMsix(f, g);
    }
  }

  /** What an idle table write changes: the table and the device's messages, coherently. */
  lemma IdleTableParts(f: Fn, offset: nat, data: Bytes)
    requires Sound(f) && MsixOk(f) && NothingPending(f) && Regular(f, WriteTable(offset, data)) && f.msix.Some?
    ensures var g := StoreTable(f, offset, data);
            && g == f.(msix := g.msix, messages := g.messages) && g.msix.Some? && g.msix.value.cap == f.msix.value.cap
            && Valid(g.msix.value.msix) && g.msix.value.msix.pba == f.msix.value.msix.pba
            && Vectors(g.msix.value.msix) == Vectors(f.msix.value.msix)
            && MsixTable.Coherent(g.msix.value.msix, g.messages)
  {
    hide TableWrite, MsixTable.Coherent, GateOf, MsixLedger.NonePending, Fits, BarTable;
    var m, gate, sent := f.msix.value.msix, MsixRuns.Gated(Machine(f.space, f.msix.value)), f.msix.value.sent;
    MsixTable.KeepsCoherence(m, gate, offset, data, sent, f.messages);
    IdleTableEffect(m, gate, offset, data, sent);
  }

  lemma IdleTableMsix(f: Fn, g: Fn)
    requires Sound(f) && Sound(g) && MsixOk(f) && NothingPending(f) && f.msix.Some? && g.msix.Some?
    requires g.space == f.space && g.msi == f.msi && g.msix.value.msix.pba == f.msix.value.msix.pba
    requires Vectors(g.msix.value.msix) == Vectors(f.msix.value.msix) && MsixTable.Coherent(g.msix.value.msix, g.messages)
    ensures MsixOk(g) && NothingPending(g)
  {
    hide MsixTable.Coherent, MsixLedger.NonePending, Fits, BarTable;
    IdleMsix(g);
  }

  /** What does not concern MSI-X depends on the space and on the other parts only. */
  lemma SameSpaceKeeps(n: Notify.Region, f: Fn, g: Fn, p: Plan)
    requires Inv(n, f, p) && g == f.(msix := g.msix, messages := g.messages) && f.msix.Some? && g.msix.Some?
    requires g.msix.value.cap == f.msix.value.cap && Valid(g.msix.value.msix)
    ensures Shaped(n, g, p) && MsiOk(g) && NotifyOk(n, g)
  {
    hide BarsInvariant, Holds, MsixOk, Fits, GetBar;
  }

  lemma IdleTableEffect(m: Msix, gate: Gate, offset: nat, data: Bytes, sent: seq<Delivery>)
    requires Valid(m) && MsixLedger.NonePending(m.pba)
    ensures var r := TableWrite(m, gate, offset, data, sent); r.msix.pba == m.pba && |r.msix.table| == |m.table|
  {
    hide Evaluate, MessageFor;
    if offset + |data| <= |m.table| {
      MsixLedger.NothingToEvaluate(m.(table := Set(m.table, offset, data)), gate, sent);
    }
  }

  /** Without Bus Master a signal is refused before anything is recorded. */
  lemma IdleMessage(f: Fn, v: nat)
    requires Sound(f) && !Master(f)
    ensures SendMessage(f, v) == f
  {
    if MsixEnabled(f) {
      assert f.msix.value.sent + [] == f.msix.value.sent;
    } else if MsiEnabled(f) && v < 32 {
      MsiRuns.ClosedSignal(MsiRuns.Machine(f.space, f.msi.value.o, f.msi.value.sent), v);
    }
  }

  lemma IdleLine(n: Notify.Region, f: Fn, p: Plan, level: bool)
    requires Inv(n, f, p) && NothingPending(f)
    ensures Inv(n, DriveLine(f, level), p) && NothingPending(DriveLine(f, level))
  {
    LineKeeps(n, f, p, level);
    LineEffect(f, level);
    hide DriveLine, MsiOk, MsixOk, NotifyOk, BarsInvariant;
    var g := DriveLine(f, level);
    if f.msi.Some? {
      MsiStart(f, p);
      SamePending(f.space, g.space, f.msi.value.o);
    }
  }

  lemma SamePending(s: Space, t: Space, o: nat)
    requires Fits(s, o) && OnlyStatus(s, t) && o >= DEVICE_START
    ensures Fits(t, o) && Control(t, o) == Control(s, o)
    ensures HasMasking(Control(s, o)) ==> PendingBits(t, o) == PendingBits(s, o)
  {
    assert Control(t, o) == Control(s, o);
  }

  lemma IdleStep(n: Notify.Region, f: Fn, p: Plan, op: Op)
    requires Inv(n, f, p) && NothingPending(f) && Regular(f, op) && !Master(f)
    ensures Inv(n, Step(n, f, op), p) && NothingPending(Step(n, f, op))
  {
    hide Inv, WriteConfig, StoreTable, SendMessage, DriveLine, Sound, Planned, NothingPending, Master;
    assert Notify.RegionOk(n) && Sound(f) by { InvSound(n, f, p); }
    match op
    case ConfigWrite(offset, data) => IdleWrite(n, f, p, offset, data);
    case WriteTable(offset, data) => IdleTable(n, f, p, offset, data);
    case SignalMessage(v) => IdleMessage(f, v);
    case SignalLine(level) => IdleLine(n, f, p, level);
    case IsrRead => IdleLine(n, f, p, false);
  }

  // ---------- runs ----------

  /** A run in which every action is regular and Bus Master, once set, stays set. */
  ghost predicate Held(n: Notify.Region, f: Fn, ops: seq<Op>)
    decreases |ops|
  {
    && Notify.RegionOk(n) && Sound(f)
    && (ops != [] ==>
          && Regular(f, ops[0]) && (Master(f) ==> Master(Step(n, f, ops[0])))
          && Held(n, Step(n, f, ops[0]), ops[1..]))
  }

  function Run(n: Notify.Region, f: Fn, ops: seq<Op>): Fn
    requires Held(n, f, ops)
    decreases |ops|
  {
    if ops == [] then f else Run(n, Step(n, f, ops[0]), ops[1..])
  }

  /** The invariant of all runs: until Bus Master is set nothing is held back at all. */
  ghost predicate RunInv(n: Notify.Region, f: Fn, p: Plan) {
    Inv(n, f, p) && (Master(f) || NothingPending(f))
  }

  lemma StepRunInv(n: Notify.Region, f: Fn, p: Plan, op: Op)
    requires RunInv(n, f, p) && Regular(f, op) && (Master(f) ==> Master(Step(n, f, op)))
    ensures RunInv(n, Step(n, f, op), p)
  {
    hide Inv, Step, Sound, Master, Regular, NothingPending;
    InvSound(n, f, p);
    if Master(f) {
      StepKeeps(n, f, p, op);
    } else {
      IdleStep(n, f, p, op);
    }
  }

  /**
   All invariants at once, in every state of every run: the capability list and the BAR
   registers are intact, nothing deliverable is held back by MSI or MSI-X, and the device's
   copies of its MSI-X messages and of the notification address agree with the registers.
   */
  lemma {:induction false} RunKeeps(n: Notify.Region, f: Fn, p: Plan, ops: seq<Op>)
    requires RunInv(n, f, p) && Held(n, f, ops)
    ensures RunInv(n, Run(n, f, ops), p)
    decreases |ops|
  {
    hide RunInv, Step, Sound, Master;
    if ops != [] {
      StepRunInv(n, f, p, ops[0]);
      RunKeeps(n, Step(n, f, ops[0]), p, ops[1..]);
    }
  }

  lemma ShapedSound(n: Notify.Region, f: Fn, p: Plan)
    requires Shaped(n, f, p)
    ensures Notify.RegionOk(n) && Sound(f) && Planned(f, p)
  {
  }

  lemma Refused(n: Notify.Region, f: Fn, offset: nat, data: Bytes)
    requires Notify.RegionOk(n) && Sound(f) && !Accepted(offset, |data|)
    ensures WriteConfig(n, f, offset, data).0 == f && WriteConfig(n, f, offset, data).1.Err?
  {
  }
}
