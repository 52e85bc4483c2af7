/** What a signal does to a whole function, and that none is lost over its runs. */
module FunctionSignals {
  import opened Basics
  import opened Bits
  import opened RegisterBlock
  import opened ConfigSpace
  import opened Bars
  import opened MsixCore
  import opened MsixEvaluation
  import opened MsiCore
  import opened MsiConfig
  import opened WholeFunction
  import opened FunctionRuns
  import FunctionLine
  import MsiEvaluation
  import MsiRuns
  import Intx
  import MsixRuns
  import MsixTable
  import Ledger = MsixLedger
  import Notify

  // ---------- one signal ----------

  /**
   With MSI-X enabled and Bus Master set, whether or not MSI is enabled too: an unmasked vector adds exactly one
   message, with its entry's address and data, to MSI-X's log; one masked by its entry or by the function becomes
   pending; nothing else in the function moves.
   */
  lemma MsixSignalMeans(n: Notify.Region, f: Fn, v: nat)
    requires Notify.RegionOk(n) && Sound(f) && MsixEnabled(f) && Master(f)
    ensures var p, g := f.msix.value, Step(n, f, SignalMessage(v));
            var masked := f.space.regs[p.cap + 1][6] || (v < Vectors(p.msix) && EntryMasked(p.msix, v));
            && g.msix.Some? && g == f.(msix := g.msix) && g.msix.value.msix.table == p.msix.table
            && (forall u: nat :: u != v ==> (Pending(g.msix.value.msix.pba, u) <==> Pending(p.msix.pba, u)))
            && (v < Vectors(p.msix) && v / 64 < |p.msix.pba| ==>
                  && g.msix.value.sent == p.sent + (if masked then [] else [Delivery(v, MessageFor(p.msix, v))])
                  && (Pending(g.msix.value.msix.pba, v) <==> masked))
            && (v >= Vectors(p.msix) || v / 64 >= |p.msix.pba| ==> g.msix.value.sent == p.sent)
  {
    hide MessageFor, EntryMasked;
    MsixGeneratesIff(f.msix.value.msix, MsixRuns.Gated(Machine(f.space, f.msix.value)), v);
  }

  /**
   With MSI-X off and MSI on, MSI's log grows by that vector's message exactly if Bus Master is set, the capability
   has per-vector masking and the vector is implemented and unmasked; a masked one becomes pending instead.
   */
  lemma MsiSignalMeans(n: Notify.Region, f: Fn, p: Plan, v: nat)
    requires Notify.RegionOk(n) && Sound(f) && Planned(f, p) && !MsixEnabled(f) && MsiEnabled(f) && v < 32
    ensures var s, o, g := f.space, f.msi.value.o, Step(n, f, SignalMessage(v));
            var taken := CommandBit(s, BUS_MASTER) && HasMasking(Control(s, o));
            && g.msi.Some? && g == f.(space := g.space, msi := g.msi) && g.msi.value.o == o
            && g.msi.value.sent == f.msi.value.sent +
                 (if taken && !MaskBits(s, o)[v] && v < CapableVectors(Control(s, o)) then [Delivery(v, MsiMessage(s, o, v))] else [])
            && Fits(g.space, o) && Control(g.space, o) == Control(s, o)
            && (taken ==> PendingBits(g.space, o) == PendingBits(s, o)[v := MaskBits(s, o)[v]])
            && (!taken ==> g.space == s)
  {
    hide MsiTryGenerate, MsiMessage, MsiReady, Planned, WritePending, CapableVectors;
    var s, o := f.space, f.msi.value.o;
    ReadySize(f, p);
    MsiRuns.ReadyFits(s, o, p.setup);
    if CommandBit(s, BUS_MASTER) && HasMasking(Control(s, o)) {
      MsiRuns.SignalMeans(s, o, v);
      MsiRuns.Stored(s, o, PendingBits(s, o)[v := VectorMasked(s, o, v)]);
    } else {
      Refuses(s, o, v);
    }
  }

  lemma Refuses(s: Space, o: nat, v: nat)
    requires Fits(s, o) && v < 32 && !(CommandBit(s, BUS_MASTER) && HasMasking(Control(s, o)))
    ensures MsiTryGenerate(s, o, v).space == s && MsiSent(MsiTryGenerate(s, o, v), v) == []
  {
  }

  /** With both off a message signal changes nothing. */
  lemma NoMessages(n: Notify.Region, f: Fn, v: nat)
    requires Notify.RegionOk(n) && Sound(f) && !MsixEnabled(f) && !MsiEnabled(f)
    ensures Step(n, f, SignalMessage(v)) == f
  {
  }

  /**
   A line signal, and an ISR read as a signal low, sets the status bit and the line of a synchronised function
   whose messages are off and whose INTx is not disabled; in any other state it changes nothing.
   */
  lemma LineSignalMeans(n: Notify.Region, f: Fn, level: bool)
    requires Notify.RegionOk(n) && Sound(f) && FunctionLine.LineInv(f)
    ensures var g := Step(n, f, SignalLine(level));
            if MsixEnabled(f) || MsiEnabled(f) || Intx.Disabled(f.space) then g == f
            else Intx.Asserted(g.space) == level && g.level == level && g == f.(space := g.space, cached := g.cached, level := g.level)
    ensures Step(n, f, IsrRead) == Step(n, f, SignalLine(false))
  {
    hide MsixEnabled, MsiEnabled, Fits, MsixRuns.Sound;
    Intx.SignalReachesLine(FunctionLine.LineOf(f), level, MsixEnabled(f) || MsiEnabled(f));
  }

  /** A table write inside one entry stores its bytes, and the device learns the entry's message if address or data is touched. */
  lemma TableWriteMeans(n: Notify.Region, f: Fn, offset: nat, data: Bytes)
    requires Notify.RegionOk(n) && Sound(f) && f.msix.Some? && data != [] && MsixTable.WithinEntry(offset, |data|)
    ensures var m, v, g := f.msix.value.msix, offset / ENTRY_SIZE, Step(n, f, WriteTable(offset, data));
            && g.msix.Some? && g == f.(msix := g.msix, messages := g.messages)
            && (offset + |data| > |m.table| ==> g == f)
            && (offset + |data| <= |m.table| ==>
                  && g.msix.value.msix.table == Set(m.table, offset, data)
                  && v < Vectors(g.msix.value.msix)
                  && g.messages == if exists b :: offset <= b < offset + |data| && MsixTable.InfoByte(b, v)
                                   then f.messages[v := MessageFor(g.msix.value.msix, v)] else f.messages)
  {
    hide Evaluate, MessageFor, GateOf;
    var p := f.msix.value;
    if offset + |data| <= |p.msix.table| {
      MsixTable.ReportedExactly(p.msix, MsixRuns.Gated(Machine(f.space, p)), offset, data, p.sent);
    }
  }

  /**
   An accepted configuration write is the masked store in every byte outside the MSI capability, whose own handler may
   correct its control word and clear pending bits; a rejected one changes nothing.
   */
  lemma ConfigWriteMeans(n: Notify.Region, f: Fn, p: Plan, offset: nat, data: Bytes)
    requires Shaped(n, f, p)
    ensures var g := Step(n, f, ConfigWrite(offset, data));
            && (!Accepted(offset, |data|) ==> g == f)
            && (Accepted(offset, |data|) ==>
                  && GuestFrame(f.space, g.space)
                  && forall j :: 0 <= j < SPACE_SIZE && (f.msi.Some? ==> !InMsi(f, p, j)) ==>
                       g.space.regs[j] == Write(f.space.regs, f.space.writable, offset, data)[j])
  {
    hide Planned, WriteConfig, BarsInvariant, MsiOnWrite, MsixHandler, Write;
    if Accepted(offset, |data|) {
      WriteParts(n, f, p, offset, data);
      WriteSpaces(n, f, p, offset, data);
      AfterStorePlanned(f, p, offset, data);
      var f1 := AfterStore(f, offset, data);
      if f1.msi.Some? {
        MsiSlot(f1, p);
        ReadySize(f1, p);
        MsiStart(f1, p);
        MsiRuns.ReadyFits(f1.space, f1.msi.value.o, p.setup);
        MsiLocal(f1.space, f1.msi.value.o, p.setup, offset, |data|, f1.msi.value.sent);
      }
    } else {
      Refused(n, f, offset, data);
    }
  }

  /** Byte `j` belongs to the data of the MSI capability. */
  predicate InMsi(f: Fn, p: Plan, j: nat)
    requires f.msi.Some?
  {
    p.msi < |p.slots| && f.msi.value.o <= j < f.msi.value.o + |p.slots[p.msi].cap.registers|
  }

  // ---------- the ledger of MSI-X ----------

  /** Messages MSI-X sent for `v`, plus one if it is pending. */
  function MsixAccount(f: Fn, v: nat): nat {
    if f.msix.None? then 0
    else Ledger.SentFor(f.msix.value.sent, v) + if Pending(f.msix.value.msix.pba, v) then 1 else 0
  }

  /** A signal MSI-X takes, decided by its gates, that finds the pending bit clear. */
  predicate MsixFresh(f: Fn, op: Op, v: nat)
    requires Sound(f)
  {
    op == SignalMessage(v) && MsixTakes(f, v) && !Pending(f.msix.value.msix.pba, v)
  }

  predicate MsixTakes(f: Fn, v: nat)
    requires Sound(f)
  {
    MsixEnabled(f) && Master(f) && v < Vectors(f.msix.value.msix) && v / 64 < |f.msix.value.msix.pba|
  }

  lemma MsixWriteBalances(n: Notify.Region, f: Fn, p: Plan, offset: nat, data: Bytes, v: nat)
    requires Shaped(n, f, p) && MsixOk(f)
    ensures MsixAccount(WriteConfig(n, f, offset, data).0, v) == MsixAccount(f, v)
  {
    hide Planned, WriteConfig, BarsInvariant, MsixRuns.Step, Fits, MsixRuns.Quiet, MsixTable.Coherent, GateOf;
    if !Accepted(offset, |data|) {
      Refused(n, f, offset, data);
    } else if f.msix.Some? {
      MsixProjection(n, f, p, offset, data);
      Ledger.StepBalances(Machine(f.space, f.msix.value), MsixRuns.ConfigWrite(offset, data), v);
    } else {
      WriteParts(n, f, p, offset, data);
    }
  }

  lemma MsixTableBalances(f: Fn, offset: nat, data: Bytes, v: nat)
    requires Sound(f) && MsixOk(f)
    ensures MsixAccount(StoreTable(f, offset, data), v) == MsixAccount(f, v)
  {
    if f.msix.Some? {
      hide TableWrite, MsixRuns.Quiet, MsixRuns.InTable, MsixTable.Coherent, Fits, GateOf, BarTable;
      Ledger.StepBalances(Machine(f.space, f.msix.value), MsixRuns.WriteTable(offset, data), v);
    }
  }

  lemma MsixSignalBalances(f: Fn, u: nat, v: nat)
    requires Sound(f) && MsixOk(f)
    ensures MsixAccount(SendMessage(f, u), v) == MsixAccount(f, v) + if MsixFresh(f, SignalMessage(u), v) then 1 else 0
  {
    hide MsiRuns.Step, Fits, BarTable, MsixTable.Coherent, MsixRuns.Quiet, MsixRuns.InTable;
    if MsixEnabled(f) {
      Ledger.SignalBalances(Machine(f.space, f.msix.value), u, v);
    }
  }

  lemma MsixLineBalances(f: Fn, level: bool, v: nat)
    requires Sound(f)
    ensures MsixAccount(DriveLine(f, level), v) == MsixAccount(f, v)
  {
    hide MsixEnabled, MsiEnabled;
    LineEffect(f, level);
  }

  /** Each action of a whole function keeps the ledger of every MSI-X vector. */
  lemma MsixStepBalances(n: Notify.Region, f: Fn, p: Plan, op: Op, v: nat)
    requires Inv(n, f, p)
    ensures MsixAccount(Step(n, f, op), v) == MsixAccount(f, v) + if MsixFresh(f, op, v) then 1 else 0
  {
    hide Shaped, MsiOk, MsixOk, NotifyOk, Sound, WriteConfig, StoreTable, SendMessage, DriveLine, MsixAccount, MsixTakes;
    ShapedSound(n, f, p);
    match op
    case ConfigWrite(offset, data) => MsixWriteBalances(n, f, p, offset, data, v);
    case WriteTable(offset, data) => MsixTableBalances(f, offset, data, v);
    case SignalMessage(u) => MsixSignalBalances(f, u, v);
    case SignalLine(level) => MsixLineBalances(f, level, v);
    case IsrRead => MsixLineBalances(f, false, v);
  }

  ghost function MsixFreshCount(n: Notify.Region, f: Fn, ops: seq<Op>, v: nat): nat
    requires Held(n, f, ops)
    decreases |ops|
  {
    if ops == [] then 0 else (if MsixFresh(f, ops[0], v) then 1 else 0) + MsixFreshCount(n, Step(n, f, ops[0]), ops[1..], v)
  }

  /** Over every run of a whole function: MSI-X messages sent plus pending grow by exactly the fresh signals taken. */
  lemma {:induction false} MsixLedger(n: Notify.Region, f: Fn, p: Plan, ops: seq<Op>, v: nat)
    requires RunInv(n, f, p) && Held(n, f, ops)
    ensures MsixAccount(Run(n, f, ops), v) == MsixAccount(f, v) + MsixFreshCount(n, f, ops, v)
    decreases |ops|
  {
    hide Inv, Step, Sound, Master, MsixFresh, MsixAccount, NothingPending;
    if ops != [] {
      MsixStepBalances(n, f, p, ops[0], v);
      StepRunInv(n, f, p, ops[0]);
      MsixLedger(n, Step(n, f, ops[0]), p, ops[1..], v);
    }
  }

  /**
   No MSI-X interrupt is lost in a whole function. Signal a vector the function takes anywhere in a run; by any
   later state in which MSI-X is enabled and the vector not masked, a message for it has left since.
   */
  lemma {:induction false} NoLostMsix(n: Notify.Region, f: Fn, p: Plan, before: seq<Op>, v: nat, after: seq<Op>)
    requires RunInv(n, f, p) && Held(n, f, before)
    requires Sound(Run(n, f, before)) && MsixTakes(Run(n, f, before), v)
    requires Held(n, Step(n, Run(n, f, before), SignalMessage(v)), after)
    ensures var y := Run(n, f, before);
            var z := Run(n, Step(n, y, SignalMessage(v)), after);
            && Sound(z)
            && (MsixEnabled(z) && !IsMasked(z.msix.value.msix, MsixRuns.Gated(Machine(z.space, z.msix.value)), v) ==>
                  Ledger.SentFor(z.msix.value.sent, v) > Ledger.SentFor(y.msix.value.sent, v))
  {
    hide Run, Inv, Held, MsixFreshCount, Sound, IsMasked, WriteConfig;
    RunKeeps(n, f, p, before);
    var y := Run(n, f, before);
    InvSound(n, y, p);
    var w := Step(n, y, SignalMessage(v));
    StaysMaster(y, v);
    StepRunInv(n, y, p, SignalMessage(v));
    MsixStepBalances(n, y, p, SignalMessage(v), v);
    RunKeeps(n, w, p, after);
    MsixLedger(n, w, p, after, v);
    var z := Run(n, w, after);
    InvSound(n, z, p);
    if MsixEnabled(z) && !IsMasked(z.msix.value.msix, MsixRuns.Gated(Machine(z.space, z.msix.value)), v) {
      QuietMeans(n, z, p, v);
    }
  }

  /** A signal does not touch Bus Master. */
  lemma StaysMaster(f: Fn, v: nat)
    requires Sound(f) && MsixTakes(f, v)
    ensures Master(SendMessage(f, v)) && Master(f)
  {
    hide MsixRuns.Step, Fits;
  }

  lemma QuietMeans(n: Notify.Region, f: Fn, p: Plan, v: nat)
    requires Inv(n, f, p) && Sound(f) && MsixEnabled(f)
    requires !IsMasked(f.msix.value.msix, MsixRuns.Gated(Machine(f.space, f.msix.value)), v)
    ensures !Pending(f.msix.value.msix.pba, v)
  {
    hide Shaped, MsiOk, NotifyOk, IsMasked;
  }

  // ---------- the ledger of MSI ----------

  /** The function has MSI with per-vector masking and the vector is implemented. */
  ghost predicate Implements(f: Fn, p: Plan, v: nat) {
    f.msi.Some? && p.setup.masking && v < Pow2(p.setup.vectors) && v < 32
  }

  lemma MsiFacts(f: Fn, p: Plan)
    requires Sound(f) && Planned(f, p) && f.msi.Some? && p.setup.masking
    ensures MsiRuns.Sound(MsiMachine(f), p.setup) && HasMasking(Control(f.space, f.msi.value.o))
    ensures CapableVectors(Control(f.space, f.msi.value.o)) == Pow2(p.setup.vectors)
  {
    hide MsiReady, Planned;
    ReadySize(f, p);
    MsiStart(f, p);
    MsiRuns.ReadyFits(f.space, f.msi.value.o, p.setup);
    ReadyVectors(f.space, f.msi.value.o, p.setup);
  }

  function MsiMachine(f: Fn): MsiRuns.Machine
    requires f.msi.Some?
  {
    MsiRuns.Machine(f.space, f.msi.value.o, f.msi.value.sent)
  }

  /** Messages MSI sent for `v`, plus one if it is pending. */
  ghost function MsiAccount(f: Fn, v: nat): nat
    requires v < 32
  {
    if f.msi.None? || !Fits(f.space, f.msi.value.o) || !HasMasking(Control(f.space, f.msi.value.o)) then 0
    else Ledger.SentFor(f.msi.value.sent, v) + if PendingBits(f.space, f.msi.value.o)[v] then 1 else 0
  }

  /** MSI is the active interrupt and Bus Master is set. */
  predicate MsiTakes(f: Fn)
    requires Sound(f)
  {
    !MsixEnabled(f) && MsiEnabled(f) && Master(f)
  }

  predicate MsiFresh(f: Fn, op: Op, v: nat)
    requires Sound(f) && v < 32
  {
    op == SignalMessage(v) && MsiTakes(f) && HasMasking(Control(f.space, f.msi.value.o)) && !PendingBits(f.space, f.msi.value.o)[v]
  }

  lemma MsiWriteBalances(n: Notify.Region, f: Fn, p: Plan, offset: nat, data: Bytes, v: nat)
    requires Shaped(n, f, p) && Implements(f, p, v) && Regular(f, ConfigWrite(offset, data))
    ensures MsiAccount(WriteConfig(n, f, offset, data).0, v) == MsiAccount(f, v)
  {
    hide Planned, WriteConfig, BarsInvariant, MsiRuns.Step, MsiReady, CapableVectors;
    MsiFacts(f, p);
    if Accepted(offset, |data|) {
      MsiProjection(n, f, p, offset, data);
      MsiRuns.WriteBalances(MsiMachine(f), p.setup, offset, data, v);
      MsiRuns.ReadyFits(WriteConfig(n, f, offset, data).0.space, f.msi.value.o, p.setup);
    } else {
      Refused(n, f, offset, data);
    }
  }

  lemma MsiTakenBalances(f: Fn, p: Plan, u: nat, v: nat)
    requires Sound(f) && Planned(f, p) && Implements(f, p, v) && !MsixEnabled(f) && MsiEnabled(f) && u < 32
    ensures MsiAccount(SendMessage(f, u), v) == MsiAccount(f, v) + if MsiFresh(f, SignalMessage(u), v) then 1 else 0
  {
    hide Planned, MsiRuns.Step, MsiReady, CapableVectors, MsiTryGenerate;
    MsiFacts(f, p);
    var x := MsiMachine(f);
    MsiRuns.SignalBalances(x, p.setup, u, v);
    MsiRuns.NoDiscard(x, p.setup, u, v);
    MsiRuns.ReadyFits(MsiRuns.Step(x, MsiRuns.Signal(u)).space, x.o, p.setup);
  }

  lemma MsiSignalBalances(f: Fn, p: Plan, u: nat, v: nat)
    requires Sound(f) && Planned(f, p) && Implements(f, p, v)
    ensures MsiAccount(SendMessage(f, u), v) == MsiAccount(f, v) + if MsiFresh(f, SignalMessage(u), v) then 1 else 0
  {
    hide MsixRuns.Step, MsiRuns.Step, Planned, MsixEnabled, MsiEnabled;
    if !MsixEnabled(f) && MsiEnabled(f) && u < 32 {
      MsiTakenBalances(f, p, u, v);
    }
  }

  lemma MsiLineBalances(f: Fn, p: Plan, level: bool, v: nat)
    requires Sound(f) && Planned(f, p) && Implements(f, p, v)
    ensures MsiAccount(DriveLine(f, level), v) == MsiAccount(f, v)
  {
    hide MsixEnabled, MsiEnabled, DriveLine;
    LineEffect(f, level);
    MsiStart(f, p);
    SamePending(f.space, DriveLine(f, level).space, f.msi.value.o);
  }

  lemma MsiTableBalances(f: Fn, offset: nat, data: Bytes, v: nat)
    requires Sound(f) && v < 32
    ensures MsiAccount(StoreTable(f, offset, data), v) == MsiAccount(f, v)
  {
    hide TableWrite;
  }

  lemma MsiStepBalances(n: Notify.Region, f: Fn, p: Plan, op: Op, v: nat)
    requires Inv(n, f, p) && Implements(f, p, v) && Regular(f, op)
    ensures MsiAccount(Step(n, f, op), v) == MsiAccount(f, v) + if MsiFresh(f, op, v) then 1 else 0
    ensures Step(n, f, op).msi.Some?
  {
    hide Shaped, MsiOk, MsixOk, NotifyOk, Sound, WriteConfig, StoreTable, SendMessage, DriveLine, MsiAccount, MsiTakes, Planned;
    ShapedSound(n, f, p);
    StillMsi(n, f, p, op);
    match op
    case ConfigWrite(offset, data) => MsiWriteBalances(n, f, p, offset, data, v);
    case WriteTable(offset, data) => MsiTableBalances(f, offset, data, v);
    case SignalMessage(u) => MsiSignalBalances(f, p, u, v);
    case SignalLine(level) => MsiLineBalances(f, p, level, v);
    case IsrRead => MsiLineBalances(f, p, false, v);
  }

  lemma StillMsi(n: Notify.Region, f: Fn, p: Plan, op: Op)
    requires Notify.RegionOk(n) && Sound(f) && Planned(f, p) && f.msi.Some?
    ensures Step(n, f, op).msi.Some?
  {
    hide Planned, WriteConfig, TableWrite, MsixRuns.Step, MsiRuns.Step, Intx.Step;
    match op
    case ConfigWrite(offset, data) =>
      if Accepted(offset, |data|) {
        WriteParts(n, f, p, offset, data);
      } else {
        Refused(n, f, offset, data);
      }
    case _ =>
  }

  ghost function MsiFreshCount(n: Notify.Region, f: Fn, ops: seq<Op>, v: nat): nat
    requires Held(n, f, ops) && v < 32
    decreases |ops|
  {
    if ops == [] then 0 else (if MsiFresh(f, ops[0], v) then 1 else 0) + MsiFreshCount(n, Step(n, f, ops[0]), ops[1..], v)
  }

  /** Over every run of a whole function: MSI messages sent plus pending grow by exactly the fresh signals taken. */
  lemma {:induction false} MsiLedger(n: Notify.Region, f: Fn, p: Plan, ops: seq<Op>, v: nat)
    requires RunInv(n, f, p) && Held(n, f, ops) && Implements(f, p, v)
    ensures Run(n, f, ops).msi.Some?
    ensures MsiAccount(Run(n, f, ops), v) == MsiAccount(f, v) + MsiFreshCount(n, f, ops, v)
    decreases |ops|
  {
    hide Inv, Step, Sound, Master, MsiFresh, MsiAccount, NothingPending, Regular;
    if ops != [] {
      MsiStepBalances(n, f, p, ops[0], v);
      StepRunInv(n, f, p, ops[0]);
      MsiLedger(n, Step(n, f, ops[0]), p, ops[1..], v);
    }
  }

  /** No MSI interrupt is lost in a whole function, in the same sense. */
  lemma {:induction false} NoLostMsi(n: Notify.Region, f: Fn, p: Plan, before: seq<Op>, v: nat, after: seq<Op>)
    requires RunInv(n, f, p) && Held(n, f, before) && Implements(f, p, v)
    requires Sound(Run(n, f, before)) && MsiTakes(Run(n, f, before))
    requires Held(n, Step(n, Run(n, f, before), SignalMessage(v)), after)
    ensures var y := Run(n, f, before);
            var z := Run(n, Step(n, y, SignalMessage(v)), after);
            && Sound(z) && z.msi.Some? && Fits(z.space, z.msi.value.o) && HasMasking(Control(z.space, z.msi.value.o))
            && (MsiEnabled(z) && !MaskBits(z.space, z.msi.value.o)[v] ==>
                  Ledger.SentFor(z.msi.value.sent, v) > Ledger.SentFor(y.msi.value.sent, v))
  {
    hide Run, Inv, Held, MsiFreshCount, Sound, WriteConfig, Step, MsiAccount, MsiFresh, NothingPending, Regular, Control, MaskBits, Fits;
    RunKeeps(n, f, p, before);
    MsiLedger(n, f, p, before, v);
    var y := Run(n, f, before);
    InvSound(n, y, p);
    MsiRegular(y, v);
    var w := Step(n, y, SignalMessage(v));
    MsiSignalled(n, y, p, v);
    StepRunInv(n, y, p, SignalMessage(v));
    RunKeeps(n, w, p, after);
    MsiLedger(n, w, p, after, v);
    var z := Run(n, w, after);
    MsiSettled(n, z, p, v);
  }

  lemma MsiRegular(f: Fn, v: nat)
    requires Sound(f)
    ensures Regular(f, SignalMessage(v))
  {
  }

  /** After a signal MSI takes, there is one message or pending bit more than messages before it. */
  lemma {:induction false} MsiSignalled(n: Notify.Region, f: Fn, p: Plan, v: nat)
    requires Inv(n, f, p) && Sound(f) && Implements(f, p, v) && MsiTakes(f)
    ensures var w := Step(n, f, SignalMessage(v));
            MsiAccount(w, v) == Ledger.SentFor(f.msi.value.sent, v) + 1 && w.msi.Some? && Master(w)
  {
    hide Shaped, MsiOk, MsixOk, NotifyOk, Planned, SendMessage, CapableVectors;
    ShapedSound(n, f, p);
    MsiFacts(f, p);
    MsiStepBalances(n, f, p, SignalMessage(v), v);
    MsiSignalSpace(f, p, v);
    StillMaster(f.space, SendMessage(f, v).space);
  }

  lemma StillMaster(s: Space, t: Space)
    requires SameHeader(s, t) && CommandBit(s, BUS_MASTER)
    ensures CommandBit(t, BUS_MASTER)
  {
    assert Word(t.regs, COMMAND) == Word(s.regs, COMMAND);
  }

  /** With MSI enabled and the vector unmasked, its account is all messages. */
  lemma {:induction false} MsiSettled(n: Notify.Region, f: Fn, p: Plan, v: nat)
    requires Inv(n, f, p) && Implements(f, p, v)
    ensures Sound(f) && Fits(f.space, f.msi.value.o) && HasMasking(Control(f.space, f.msi.value.o))
    ensures MsiEnabled(f) && !MaskBits(f.space, f.msi.value.o)[v] ==> MsiAccount(f, v) == Ledger.SentFor(f.msi.value.sent, v)
  {
    hide Shaped, MsixOk, NotifyOk, Planned, CapableVectors, PendingBits, MaskBits;
    ShapedSound(n, f, p);
    MsiFacts(f, p);
    if MsiEnabled(f) && !MaskBits(f.space, f.msi.value.o)[v] {
      assert !MsiRuns.Due(f.space, f.msi.value.o, v);
    }
  }
}
