/** The interrupt line of a whole function, over every run of it. */
module FunctionLine {
  import opened Basics
  import opened Bits
  import opened RegisterBlock
  import opened ConfigSpace
  import opened Bars
  import opened CapabilityList
  import opened MsixCore
  import opened MsiCore
  import opened MsiConfig
  import opened WholeFunction
  import opened FunctionRuns
  import Intx
  import MsixRuns
  import Notify

  /** The line with its status and disable bits and the cached flag, as part of the function. */
  function LineOf(f: Fn): Intx.Line {
    Intx.Line(f.space, f.cached, f.level)
  }

  ghost predicate LineInv(f: Fn) {
    WellFormed(f.space) && Intx.IntxWritable(f.space) && Intx.Synchronised(LineOf(f))
  }

  /** The line sees Command and Status only. */
  lemma LineTransfer(f: Fn, g: Fn)
    requires LineInv(f) && SameHeader(f.space, g.space) && g.cached == f.cached && g.level == f.level
    ensures LineInv(g)
  {
    assert Word(g.space.regs, COMMAND) == Word(f.space.regs, COMMAND);
    assert Word(g.space.regs, STATUS) == Word(f.space.regs, STATUS);
  }

  /** For the line a configuration write of the function is a step of its own machine, seen through the handlers' stores. */
  lemma WriteLine(n: Notify.Region, f: Fn, p: Plan, offset: nat, data: Bytes)
    requires Shaped(n, f, p) && LineInv(f) && Accepted(offset, |data|)
    ensures LineInv(WriteConfig(n, f, offset, data).0)
  {
    hide MsiHandler, MsixHandler, BarsInvariant, Holds, WriteConfig, Fits, Intx.OnWrite;
    WriteParts(n, f, p, offset, data);
    WriteSpaces(n, f, p, offset, data);
    Intx.StepKeeps(LineOf(f), Intx.ConfigWrite(offset, data));
    var y := Intx.Step(LineOf(f), Intx.ConfigWrite(offset, data));
    LineTransfer(f.(space := y.space, cached := y.cached, level := y.level), WriteConfig(n, f, offset, data).0);
  }

  lemma WriteStep(n: Notify.Region, f: Fn, p: Plan, offset: nat, data: Bytes)
    requires Shaped(n, f, p) && LineInv(f)
    ensures Shaped(n, WriteConfig(n, f, offset, data).0, p) && LineInv(WriteConfig(n, f, offset, data).0)
  {
    hide Shaped, LineInv, WriteConfig;
    ShapedSound(n, f, p);
    if Accepted(offset, |data|) {
      WriteShaped(n, f, p, offset, data);
      WriteLine(n, f, p, offset, data);
    } else {
      Refused(n, f, offset, data);
    }
  }

  lemma TableStep(n: Notify.Region, f: Fn, p: Plan, offset: nat, data: Bytes)
    requires Shaped(n, f, p) && LineInv(f)
    ensures Shaped(n, StoreTable(f, offset, data), p) && LineInv(StoreTable(f, offset, data))
  {
    hide TableWrite, BarsInvariant, Planned, Fits, GateOf;
    assert Planned(StoreTable(f, offset, data), p) by { SamePlan(f, StoreTable(f, offset, data), p); }
  }

  lemma MessageStep(n: Notify.Region, f: Fn, p: Plan, v: nat)
    requires Shaped(n, f, p) && LineInv(f)
    ensures Shaped(n, SendMessage(f, v), p) && LineInv(SendMessage(f, v))
  {
    hide Planned, BarsInvariant, LineInv, MsiTryGenerate, Fits, MsixRuns.Step;
    if !Master(f) {
      IdleMessage(f, v);
    } else if MsixEnabled(f) {
      assert Planned(SendMessage(f, v), p) by { SamePlan(f, SendMessage(f, v), p); }
      SameLine(f, SendMessage(f, v));
    } else if MsiEnabled(f) && v < 32 {
      MsiSignalSpace(f, p, v);
      MsiMessageStep(n, f, p, v);
    }
  }

  lemma SameLine(f: Fn, g: Fn)
    requires LineInv(f) && LineOf(g) == LineOf(f)
    ensures LineInv(g)
  {
  }

  lemma MsiMessageStep(n: Notify.Region, f: Fn, p: Plan, v: nat)
    requires Shaped(n, f, p) && LineInv(f) && !MsixEnabled(f) && MsiEnabled(f) && v < 32
    requires SameHeader(f.space, SendMessage(f, v).space)
    ensures Shaped(n, SendMessage(f, v), p) && LineInv(SendMessage(f, v))
  {
    hide Planned, BarsInvariant, LineInv, MsiTryGenerate, Fits;
    var g := SendMessage(f, v);
    ShapedGuest(n, f, p, g.space);
    assert Planned(g, p) by { SamePlan(WithSpace(f, g.space), g, p); }
    LineTransfer(f, g);
  }

  lemma LineStep(n: Notify.Region, f: Fn, p: Plan, level: bool)
    requires Shaped(n, f, p) && LineInv(f)
    ensures Shaped(n, DriveLine(f, level), p) && LineInv(DriveLine(f, level))
  {
    hide MsixEnabled, MsiEnabled, Fits, BarsInvariant, Planned, MsixRuns.Sound;
    Intx.StepKeeps(LineOf(f), Intx.DeviceSignal(level, MsixEnabled(f) || MsiEnabled(f)));
    LineEffect(f, level);
    StatusShaped(n, f, DriveLine(f, level), p);
  }

  lemma StepKeepsLine(n: Notify.Region, f: Fn, p: Plan, op: Op)
    requires Shaped(n, f, p) && LineInv(f)
    ensures Shaped(n, Step(n, f, op), p) && LineInv(Step(n, f, op))
  {
    hide Shaped, LineInv, WriteConfig, StoreTable, SendMessage, DriveLine, Sound;
    ShapedSound(n, f, p);
    match op
    case ConfigWrite(offset, data) => WriteStep(n, f, p, offset, data);
    case WriteTable(offset, data) => TableStep(n, f, p, offset, data);
    case SignalMessage(v) => MessageStep(n, f, p, v);
    case SignalLine(level) => LineStep(n, f, p, level);
    case IsrRead => LineStep(n, f, p, false);
  }

  /** Any run at all, whatever the driver does to Bus Master, pending bits or table entries. */
  function AnyRun(n: Notify.Region, f: Fn, ops: seq<Op>): Fn
    requires Notify.RegionOk(n)
    decreases |ops|
  {
    if ops == [] || !Sound(f) then f else AnyRun(n, Step(n, f, ops[0]), ops[1..])
  }

  /**
   From a synchronised state the line of the whole function is high exactly while Interrupt
   Status is set and Interrupt Disable clear, in every state of every run.
   */
  lemma {:induction false} LineFollows(n: Notify.Region, f: Fn, p: Plan, ops: seq<Op>)
    requires Shaped(n, f, p) && LineInv(f)
    ensures Notify.RegionOk(n) && LineInv(AnyRun(n, f, ops)) && Intx.Agrees(LineOf(AnyRun(n, f, ops)))
    decreases |ops|
  {
    hide Shaped, LineInv, Step, Sound;
    ShapedSound(n, f, p);
    if ops != [] {
      StepKeepsLine(n, f, p, ops[0]);
      LineFollows(n, Step(n, f, ops[0]), p, ops[1..]);
    } else {
      InvAgrees(f);
    }
  }

  lemma InvAgrees(f: Fn)
    requires LineInv(f)
    ensures WellFormed(f.space) && Intx.Agrees(LineOf(f))
  {
  }
}
