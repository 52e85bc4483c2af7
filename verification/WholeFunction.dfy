/**
 A whole function (function.rs, interrupt.rs): one configuration write goes through the
 store, the INTx, MSI and MSI-X handlers and the BAR and space-bit checks, and the first
 event found is reported and ends the call.
 */
module WholeFunction {
  import opened Basics
  import opened Bits
  import opened RegisterBlock
  import opened ConfigSpace
  import opened Bars
  import opened Capabilities
  import opened CapabilityList
  import opened MsixCore
  import opened MsiCore
  import opened MsiEvaluation
  import opened MsiConfig
  import MsiRuns
  import SpaceRuns
  import Intx
  import MsixRuns
  import MsixTable
  import Notify

  /** MSI-X as part of a function: where its Message Control word is, its state and what it sent. */
  datatype MsixPart = MsixPart(cap: nat, msix: Msix, sent: seq<Delivery>)

  /** MSI as part of a function: the offset of its capability's data and what it sent. */
  datatype MsiPart = MsiPart(o: nat, sent: seq<Delivery>)

  /** `info` and `messages` are what the device remembers of notification address and MSI-X messages. */
  datatype Fn = Fn(space: Space, cached: bool, level: bool, msi: Option<MsiPart>, msix: Option<MsixPart>,
                   info: Option<Notify.Info>, messages: MsixTable.Cache)

  predicate Sound(f: Fn) {
    && BarTable(f.space)
    && (f.msi.Some? ==> Fits(f.space, f.msi.value.o))
    && (f.msix.Some? ==> MsixRuns.Sound(Machine(f.space, f.msix.value)))
  }

  function Machine(s: Space, p: MsixPart): MsixRuns.Machine {
    MsixRuns.Machine(s, p.cap, p.msix, p.sent)
  }

  datatype Event = MessageChanged(message: Message) | BarChanged(bar: Bar) | SpaceChanged

  // ---------- the handlers ----------

  /** The store and the INTx handler, which reports nothing. */
  function AfterStore(f: Fn, offset: nat, data: Bytes): (r: Fn)
    requires Sound(f)
    ensures WellFormed(r.space)
  {
    var x := Intx.OnWrite(Intx.Line(GuestWrite(f.space, offset, data), f.cached, f.level), offset, |data|);
    f.(space := x.space, cached := x.cached, level := x.level)
  }

  predicate MsiPresent(f: Fn) {
    f.msi.Some? && Fits(f.space, f.msi.value.o)
  }

  function MsiHandler(f: Fn, offset: nat, size: nat): (r: (Fn, Option<Message>))
    requires WellFormed(f.space)
    ensures WellFormed(r.0.space)
    ensures r.0 == f.(space := r.0.space, msi := r.0.msi)
  {
    if !MsiPresent(f) then (f, None)
    else
      var p := f.msi.value;
      var w := MsiOnWrite(f.space, p.o, offset, size, p.sent);
      (f.(space := w.space, msi := Some(p.(sent := w.sent))), w.update)
  }

  function MsixHandler(f: Fn, offset: nat, size: nat): (r: Fn)
    requires WellFormed(f.space)
    ensures r == f.(msix := r.msix)
  {
    if f.msix.None? || !MsixRuns.Sound(Machine(f.space, f.msix.value)) then f
    else
      var p := f.msix.value;
      var x := MsixRuns.OnWrite(Machine(f.space, p), offset, size);
      f.(msix := Some(p.(msix := x.msix, sent := x.sent)))
  }

  /** `on_config_update` of the virtio device. */
  function Notice(n: Notify.Region, f: Fn, e: Event): (r: Fn)
    requires Notify.RegionOk(n) && BarTable(f.space)
    ensures r == f.(info := r.info)
  {
    match e
    case MessageChanged(_) => f
    case BarChanged(bar) => f.(info := Notify.OnBarChanged(n, f.space, bar, f.info))
    case SpaceChanged => f.(info := Notify.OnSpaceChanged(n, f.space, f.info))
  }

  /** `write_config`: the new state and the event it returns. Each event found ends the call. */
  function WriteConfig(n: Notify.Region, f: Fn, offset: nat, data: Bytes): (r: (Fn, Result<Option<Event>, Error>))
    requires Notify.RegionOk(n) && Sound(f)
  {
    match ValidateAccess(offset, |data|)
    case Err(e) => (f, Err(e))
    case Ok(_) =>
      var (f1, message) := MsiHandler(AfterStore(f, offset, data), offset, |data|);
      HandlersKeepBars(f, offset, data);
      if message.Some? then (Notice(n, f1, MessageChanged(message.value)), Ok(Some(MessageChanged(message.value))))
      else
        var f2 := MsixHandler(f1, offset, |data|);
        var bar := Notify.BarUpdateForWrite(f2.space, offset);
        if bar.Some? then (Notice(n, f2, BarChanged(bar.value)), Ok(Some(BarChanged(bar.value))))
        else if Notify.SpaceBitsChanged(f.space, f2.space) then (Notice(n, f2, SpaceChanged), Ok(Some(SpaceChanged)))
        else (f2, Ok(None))
  }

  lemma HandlersKeepBars(f: Fn, offset: nat, data: Bytes)
    requires Sound(f)
    ensures var s := MsiHandler(AfterStore(f, offset, data), offset, |data|).0.space;
            BarTable(s) && GuestFrame(f.space, s)
  {
    hide MsiOnWrite;
    var f1 := AfterStore(f, offset, data);
    if Accepted(offset, |data|) {
      WriteKeepsReadOnly(f.space.regs, f.space.writable, offset, data);
    }
    if MsiPresent(f1) {
      MsiOnWriteFrame(f1.space, f1.msi.value.o, offset, |data|, f1.msi.value.sent);
    }
  }

  // ---------- the same without early returns ----------

  /** Every event the write gives rise to. */
  function Events(before: Space, message: Option<Message>, after: Space, offset: nat): seq<Event>
    requires WellFormed(before) && BarTable(after)
  {
    (if message.Some? then [MessageChanged(message.value)] else [])
    + (var bar := Notify.BarUpdateForWrite(after, offset); if bar.Some? then [BarChanged(bar.value)] else [])
    + (if Notify.SpaceBitsChanged(before, after) then [SpaceChanged] else [])
  }

  function NoticeAll(n: Notify.Region, f: Fn, events: seq<Event>): (r: Fn)
    requires Notify.RegionOk(n) && BarTable(f.space)
    decreases |events|
  {
    if events == [] then f else NoticeAll(n, Notice(n, f, events[0]), events[1..])
  }

  /** Every handler sees the write and every event is noticed. */
  function WriteConfigFully(n: Notify.Region, f: Fn, offset: nat, data: Bytes): (r: (Fn, seq<Event>))
    requires Notify.RegionOk(n) && Sound(f) && Accepted(offset, |data|)
  {
    var (f1, message) := MsiHandler(AfterStore(f, offset, data), offset, |data|);
    HandlersKeepBars(f, offset, data);
    var f2 := MsixHandler(f1, offset, |data|);
    var events := Events(f.space, message, f2.space, offset);
    (NoticeAll(n, f2, events), events)
  }

  // ---------- the layout behind it ----------

  /** Which capabilities are MSI and MSI-X. */
  datatype Plan = Plan(slots: seq<Slot>, msi: nat, msix: nat, setup: MsiSetup)

  /** MSI and MSI-X sit in two different capabilities of a list built by `add_capability`. */
  ghost predicate Planned(f: Fn, p: Plan) {
    && Holds(f.space, p.slots)
    && (f.msi.Some? ==>
          && p.msi < |p.slots| && SetupOk(p.setup) && p.slots[p.msi].cap == MsiCapability(p.setup)
          && f.msi.value.o == p.slots[p.msi].start + 2)
    && (f.msix.Some? ==>
          && p.msix < |p.slots| && |p.slots[p.msix].cap.registers| >= 2
          && f.msix.value.cap == p.slots[p.msix].start + 2)
    && (f.msi.Some? && f.msix.Some? ==> p.msi != p.msix)
  }

  /** An accepted write that touches the data of one capability misses every other one. */
  lemma OneCapability(slots: seq<Slot>, i: nat, k: nat, offset: nat, size: nat)
    requires Layout(slots) && i < |slots| && k < |slots| && i != k && Accepted(offset, size)
    requires RangeOverlaps(offset, size, slots[i].start + 2, |slots[i].cap.registers|)
    ensures !RangeOverlaps(offset, size, slots[k].start, 2 + |slots[k].cap.registers|)
  {
    Start(slots, i);
    Start(slots, k);
    AcceptedInOneDword(offset, size);
    if i < k {
      Ordered(slots, i, k);
      Apart(offset, size, End(slots[i]), slots[k].start);
    } else {
      Ordered(slots, k, i);
      assert offset >= slots[i].start;
    }
  }

  lemma Apart(offset: nat, size: nat, end: nat, start: nat)
    requires offset + size <= offset / 4 * 4 + 4 && offset < end && Align4(end) <= start
    ensures offset + size <= start
  {
  }

  /** The MSI handler reports only for writes to its own capability, far from BARs and Command. */
  lemma MsiEventMeans(f: Fn, p: Plan, offset: nat, size: nat)
    requires Planned(f, p) && MsiPresent(f) && Accepted(offset, size)
    requires MsiHandler(f, offset, size).1.Some?
    ensures RangeOverlaps(offset, size, p.slots[p.msi].start + 2, |p.slots[p.msi].cap.registers|)
    ensures offset >= DEVICE_START
  {
    hide MsiEvaluateFrom, FixControl, Holds, SetupControl, MsiCapability;
    var o := f.msi.value.o;
    assert MsiStored(f, p) by { MsiSlot(f, p); }
    ReadySize(f, p);
    MsiStart(f, p);
    AcceptedInOneDword(offset, size);
  }

  ghost predicate MsiStored(f: Fn, p: Plan) {
    WellFormed(f.space) && p.msi < |p.slots| && Stored(f.space, p.slots[p.msi])
  }

  lemma MsiSlot(f: Fn, p: Plan)
    requires Planned(f, p) && f.msi.Some?
    ensures MsiStored(f, p)
  {
  }

  lemma MsiStart(f: Fn, p: Plan)
    requires Planned(f, p) && f.msi.Some?
    ensures p.slots[p.msi].start >= DEVICE_START && p.slots[p.msi].start % 4 == 0 && f.msi.value.o == p.slots[p.msi].start + 2
  {
    Start(p.slots, p.msi);
  }

  lemma ReadySize(f: Fn, p: Plan)
    requires Planned(f, p) && f.msi.Some?
    ensures MsiReady(f.space, f.msi.value.o, p.setup)
    ensures CapSize(Control(f.space, f.msi.value.o)) == |p.slots[p.msi].cap.registers|
  {
    MsiSlot(f, p);
    StoredIsReady(f.space, p.slots[p.msi], p.setup);
  }

  // ---------- early returns lose nothing ----------

  /** The handler's stores stay inside the MSI capability. */
  lemma MsiLocal(s: Space, o: nat, m: MsiSetup, offset: nat, size: nat, sent: seq<Delivery>)
    requires MsiReady(s, o, m)
    ensures forall i :: 0 <= i < SPACE_SIZE && !(o <= i < o + CapSize(Control(s, o))) ==>
              MsiOnWrite(s, o, offset, size, sent).space.regs[i] == s.regs[i]
  {
    hide MsiEvaluateFrom, MsiReady, Remaining, MsiReports;
    assert Fits(s, o) && WellFormed(s) by { MsiRuns.ReadyFits(s, o, m); }
    hide FixControl, WritePending;
    var t := if RangeOverlaps(offset, size, o, 2) then FixControl(s, o) else s;
    ReadyFrame(s, t, o, m);
    MsiRuns.SameLayout(s, t, o, m);
    MsiRuns.ReadyFits(t, o, m);
    MsiRuns.FixBytes(s, o);
    if m.masking {
      MsiEvaluateExact(t, o, 0, sent);
      PendingBytes(t, o, Remaining(t, o, 0));
    }
  }

  /** A store of pending bits touches the pending dword only. */
  lemma PendingBytes(s: Space, o: nat, f: Bits)
    requires Fits(s, o) && HasMasking(Control(s, o)) && |f| == 32
    ensures forall i :: 0 <= i < SPACE_SIZE && !(o <= i < o + CapSize(Control(s, o))) ==> WritePending(s, o, f).regs[i] == s.regs[i]
  {
  }

  lemma AfterStorePlanned(f: Fn, p: Plan, offset: nat, data: Bytes)
    requires Sound(f) && Planned(f, p)
    ensures Planned(AfterStore(f, offset, data), p)
  {
    hide Holds;
    GuestWriteFrame(f.space, offset, data);
    SpaceRuns.HoldsGuest(f.space, GuestWrite(f.space, offset, data), p.slots);
  }

  /** The header, BARs and Command included, holds after the handlers what the store left in it. */
  lemma HeaderIsStore(f: Fn, p: Plan, offset: nat, data: Bytes)
    requires Sound(f) && Planned(f, p)
    ensures var s := MsiHandler(AfterStore(f, offset, data), offset, |data|).0.space;
            forall i :: 0 <= i < DEVICE_START ==> s.regs[i] == GuestWrite(f.space, offset, data).regs[i]
  {
    hide MsiOnWrite, GuestWrite, Holds;
    AfterStorePlanned(f, p, offset, data);
    var f1 := AfterStore(f, offset, data);
    if f1.msi.Some? {
      ReadySize(f1, p);
      MsiStart(f1, p);
      MsiLocal(f1.space, f1.msi.value.o, p.setup, offset, |data|, f1.msi.value.sent);
    }
  }

  /** Space bits change only by a write to the Command dword. */
  lemma SpaceBitsMean(f: Fn, p: Plan, offset: nat, data: Bytes)
    requires Sound(f) && Planned(f, p) && Accepted(offset, |data|) && offset / 4 * 4 != COMMAND
    ensures !Notify.SpaceBitsChanged(f.space, MsiHandler(AfterStore(f, offset, data), offset, |data|).0.space)
  {
    hide MsiHandler, Planned;
    HeaderIsStore(f, p, offset, data);
    Notify.CommandUntouched(f.space, offset, data);
    var s, t := MsiHandler(AfterStore(f, offset, data), offset, |data|).0.space, GuestWrite(f.space, offset, data);
    assert s.regs[COMMAND] == t.regs[COMMAND];
  }

  /** A write MSI reports does not concern MSI-X. */
  lemma MsixUnconcerned(f: Fn, p: Plan, offset: nat, size: nat)
    requires Planned(f, p) && MsiPresent(f) && Accepted(offset, size) && MsiHandler(f, offset, size).1.Some?
    ensures MsixHandler(MsiHandler(f, offset, size).0, offset, size) == MsiHandler(f, offset, size).0
  {
    MsiEventMeans(f, p, offset, size);
    hide MsiHandler;
    if f.msix.Some? {
      OneCapability(p.slots, p.msi, p.msix, offset, size);
      assert !RangeOverlaps(offset, size, f.msix.value.cap, 2);
    }
  }

  lemma {:induction false} NoticeOne(n: Notify.Region, f: Fn, e: Event)
    requires Notify.RegionOk(n) && BarTable(f.space)
    ensures NoticeAll(n, f, [e]) == Notice(n, f, e) && NoticeAll(n, f, []) == f
  {
    assert [e][1..] == [];
  }

  /**
   First-match reporting is as good as running everything: an accepted write gives rise to
   at most one event, that event is the one returned, and the state is the same as if every
   handler had seen the write. In particular MSI's return never hides MSI-X handling.
   */
  lemma EarlyReturnsLoseNothing(n: Notify.Region, f: Fn, p: Plan, offset: nat, data: Bytes)
    requires Notify.RegionOk(n) && Sound(f) && Planned(f, p) && Accepted(offset, |data|)
    ensures var (all, events) := WriteConfigFully(n, f, offset, data);
            && |events| <= 1
            && WriteConfig(n, f, offset, data) == (all, Ok(if events == [] then None else Some(events[0])))
  {
    hide MsiHandler, MsixHandler, Planned, AfterStore, Notice, NoticeAll, Notify.SpaceBitsChanged;
    var f0 := AfterStore(f, offset, data);
    var (f1, message) := MsiHandler(f0, offset, |data|);
    HandlersKeepBars(f, offset, data);
    var f2 := MsixHandler(f1, offset, |data|);
    AfterStorePlanned(f, p, offset, data);
    var bar := Notify.BarUpdateForWrite(f2.space, offset);
    if message.Some? {
      ReportsOnlyIfPresent(f0, offset, |data|);
      MsiEventMeans(f0, p, offset, |data|);
      MsixUnconcerned(f0, p, offset, |data|);
      SpaceBitsMean(f, p, offset, data);
      assert Events(f.space, message, f2.space, offset) == [MessageChanged(message.value)];
      NoticeOne(n, f2, MessageChanged(message.value));
    } else if bar.Some? {
      SpaceBitsMean(f, p, offset, data);
      assert Events(f.space, message, f2.space, offset) == [BarChanged(bar.value)];
      NoticeOne(n, f2, BarChanged(bar.value));
    } else {
      var changed := Notify.SpaceBitsChanged(f.space, f2.space);
      assert Events(f.space, message, f2.space, offset) == if changed then [SpaceChanged] else [];
      NoticeOne(n, f2, SpaceChanged);
    }
  }

  lemma ReportsOnlyIfPresent(f: Fn, offset: nat, size: nat)
    requires WellFormed(f.space) && MsiHandler(f, offset, size).1.Some?
    ensures MsiPresent(f)
  {
  }
}
