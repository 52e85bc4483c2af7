/**
 `PciFunctionWithInterrupts` as an object: one configuration space of byte arrays shared by the INTx and MSI
 handlers, an MSI-X handler with its own table and pending array, and `write_config`, which runs them one
 after the other and returns at the first event.
 */
module FunctionObject {
  import opened Basics
  import opened Bits
  import opened RegisterBlock
  import opened ConfigSpace
  import opened Bars
  import opened MsixCore
  import opened MsiCore
  import opened MsiConfig
  import opened WholeFunction
  import opened SpaceObject
  import Objects = InterruptObjects
  import Intx
  import MsixRuns
  import MsixTable
  import MsiRuns
  import Notify

  class PciFunction {
    const notify: Notify.Region
    const config: ConfigurationSpace
    const intx: Objects.IntxHandler
    const msi: Objects.MsiHandler?
    const msix: Objects.MsixHandler?
    const cap: nat
    var info: Option<Notify.Info>
    var messages: MsixTable.Cache

    /** `cap` is the offset of the MSI-X Message Control word. */
    constructor (notify: Notify.Region, config: ConfigurationSpace, intx: Objects.IntxHandler,
                 msi: Objects.MsiHandler?, msix: Objects.MsixHandler?, cap: nat)
      requires intx.config == config && (msi != null ==> msi.config == config)
      requires msix != null ==> Separate(config, msix)
      requires config.Valid()
      ensures Valid() && this.notify == notify && this.config == config && this.intx == intx && this.msi == msi && this.msix == msix && this.cap == cap
      ensures info == None && messages == map[]
    {
      this.notify, this.config, this.intx, this.msi, this.msix, this.cap := notify, config, intx, msi, msix, cap;
      info, messages := None, map[];
    }

    /** The handlers share the configuration space and nothing else is shared. */
    ghost predicate Valid()
      reads this, config
    {
      && config.Valid() && intx.config == config && (msi != null ==> msi.config == config)
      && (msix != null ==> Separate(config, msix))
    }

    ghost function MsiPartOf(): Option<MsiPart>
      reads this, msi
    {
      if msi == null then None else Some(MsiPart(msi.o, msi.sent))
    }

    ghost function MsixPartOf(): Option<MsixPart>
      reads this, msix, if msix == null then {} else {msix.table as object, msix.pba}
    {
      if msix == null then None else Some(MsixPart(cap, msix.View(), msix.sent))
    }

    ghost function State(): Fn
      reads this, config, config.registers, config.writableBits, intx, msi, msix, if msix == null then {} else {msix.table as object, msix.pba}
      requires Valid()
    {
      Fn(config.View(), intx.disabled, intx.level, MsiPartOf(), MsixPartOf(), info, messages)
    }

    /** The store and INTx's reaction to it. */
    method StoreAndIntx(offset: nat, data: Bytes)
      requires Valid() && Sound(State())
      modifies config.registers, intx
      ensures Valid() && State() == AfterStore(old(State()), offset, data)
    {
      hide Intx.OnWrite, GuestWrite;
      var _ := config.WriteChecked(offset, data);
      intx.OnWriteConfig(offset, |data|);
    }

    method RunMsi(offset: nat, size: nat) returns (update: Option<Message>)
      requires Valid() && (msi != null ==> Fits(config.View(), msi.o))
      modifies config.registers, msi
      ensures Valid() && (State(), update) == MsiHandler(old(State()), offset, size)
    {
      hide MsiOnWrite, Fits;
      if msi == null {
        return None;
      }
      update := msi.OnWriteConfig(offset, size);
    }

    method RunMsix(offset: nat, size: nat)
      requires Valid() && (msix != null ==> MsixRuns.Sound(Machine(config.View(), MsixPartOf().value)))
      modifies msix, if msix == null then {} else {msix.pba}
      ensures Valid() && State() == MsixHandler(old(State()), offset, size)
    {
      hide Evaluate;
      if msix != null {
        var gate := GateOf(config.View(), cap);
        if RangeOverlaps(offset, size, cap, 2) && !gate.fnMasked {
          msix.EvaluatePendingInterrupts(gate);
        }
      }
    }

    /**
     `write_config`. A rejected write reports the first failing check and changes nothing. For an accepted one,
     on a space whose MSI and MSI-X capabilities were added by `add_capability`, returning at the first event is
     as good as running every handler and collecting every event: the objects end up in the same state, and the
     event returned is the only one.
     */
    method WriteConfig(offset: nat, data: Bytes, ghost p: Plan) returns (r: Result<Option<Event>, Error>)
      requires Notify.RegionOk(notify) && Valid() && Sound(State()) && Planned(State(), p)
      modifies this`info, config.registers, intx, msi, msix, if msix == null then {} else {msix.pba}
      ensures Valid()
      ensures !Accepted(offset, |data|) ==> State() == old(State()) && r == Err(ValidateAccess(offset, |data|).error)
      ensures Accepted(offset, |data|) ==>
                var (all, events) := WriteConfigFully(notify, old(State()), offset, data);
                && State() == all && |events| <= 1
                && r == Ok(if events == [] then None else Some(events[0]))
    {
      hide AfterStore, MsiHandler, MsixHandler, Notify.BarUpdateForWrite, Notify.SpaceBitsChanged, GetBar, Planned, WriteConfigFully;
      var checked := ValidateAccess(offset, |data|);
      if checked.Err? {
        return Err(checked.error);
      }
      ghost var f := State();
      EarlyReturnsLoseNothing(notify, f, p, offset, data);
      HandlersKeepBars(f, offset, data);
      PartsSurvive(f, p, offset, data);
      var before := config.View();
      StoreAndIntx(offset, data);
      var message := RunMsi(offset, |data|);
      if message.Some? {
        return Ok(Some(MessageChanged(message.value)));
      }
      RunMsix(offset, |data|);
      var bar := Notify.BarUpdateForWrite(config.View(), offset);
      if bar.Some? {
        info := Notify.OnBarChanged(notify, config.View(), bar.value, info);
        return Ok(Some(BarChanged(bar.value)));
      }
      if Notify.SpaceBitsChanged(before, config.View()) {
        info := Notify.OnSpaceChanged(notify, config.View(), info);
        return Ok(Some(SpaceChanged));
      }
      return Ok(None);
    }
  }

  /** The MSI-X arrays are not those of the configuration space, nor each other. */
  ghost predicate Separate(config: ConfigurationSpace, msix: Objects.MsixHandler) {
    && msix.table != config.registers && msix.table != config.writableBits
    && (msix.pba as object) != config.registers && (msix.pba as object) != config.writableBits
    && (msix.table as object) != msix.pba
  }

  /** The store leaves both handlers usable. */
  lemma PartsSurvive(f: Fn, p: Plan, offset: nat, data: Bytes)
    requires Sound(f) && Planned(f, p)
    ensures var f1 := AfterStore(f, offset, data);
            && (f1.msi.Some? ==> Fits(f1.space, f1.msi.value.o))
            && var f2 := MsiHandler(f1, offset, |data|).0;
               f2.msix.Some? ==> MsixRuns.Sound(Machine(f2.space, f2.msix.value))
  {
    hide MsiOnWrite, GuestWrite, Planned, Intx.OnWrite;
    var f1 := AfterStore(f, offset, data);
    AfterStorePlanned(f, p, offset, data);
    if f1.msi.Some? {
      ReadySize(f1, p);
      MsiRuns.ReadyFits(f1.space, f1.msi.value.o, p.setup);
    }
  }
}
