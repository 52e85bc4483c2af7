/**
 The MSI-X and MSI handlers as objects: pending bits, table and register bytes change in
 place, and the search and evaluation loops are proved to compute what the model says.
 */
module InterruptObjects {
  import opened Basics
  import opened Bits
  import opened RegisterBlock
  import opened ConfigSpace
  import opened MsixCore
  import opened MsixEvaluation
  import opened MsiCore
  import opened MsiEvaluation
  import opened MsiConfig
  import opened SpaceObject
  import Intx

  /** `PciMsiX` with the messages the interrupt controller received. */
  class MsixHandler {
    const table: array<Byte>
    const pba: array<PbaWord>
    var sent: seq<Delivery>

    constructor (table: array<Byte>, pba: array<PbaWord>)
      ensures this.table == table && this.pba == pba && sent == []
    {
      this.table, this.pba, sent := table, pba, [];
    }

    ghost predicate Usable()
      reads table
    {
      Valid(Msix(table[..], []))
    }

    ghost function View(): (m: Msix)
      reads table, pba
    {
      Msix(table[..], pba[..])
    }

    /** `PbaTable::set_pending_bit`. */
    method SetPendingBit(v: nat, on: bool) returns (r: Result<(), Error>)
      modifies pba
      ensures var spec := SetPending(old(pba[..]), v, on);
              && r.Ok? == spec.Ok? && (r.Err? ==> r.error == spec.error)
              && pba[..] == (if spec.Ok? then spec.value else old(pba[..]))
    {
      var index := v / 64;
      if index >= pba.Length {
        return Err(InvalidMsiXVector(v));
      }
      var word := pba[index][v % 64 := on];
      pba[index] := word;
      return Ok(());
    }

    /** `find_pending_vector`: the least vector at or behind `since` whose bit in its word is not below `since`'s. */
    method FindPendingVector(since: nat) returns (r: Option<nat>)
      ensures r == FindPending(pba[..], since)
      ensures r.Some? ==> Eligible(pba[..], since, r.value) && since <= r.value < 64 * pba.Length
      ensures r.Some? ==> forall v: nat :: Eligible(pba[..], since, v) ==> r.value <= v
      ensures r.None? ==> forall v: nat :: !Eligible(pba[..], since, v)
    {
      var i := since / 64;
      while i < pba.Length
        invariant since / 64 <= i
        invariant FindPending(pba[..], since) == FindFrom(pba[..], i, since % 64)
      {
        var bit := Lowest(From(pba[i], since % 64), 0);
        if bit < 64 {
          return Some(64 * i + bit);
        }
        i := i + 1;
      }
      return None;
    }

    /** `try_generate_message`. */
    method TryGenerateMessage(g: Gate, v: nat) returns (r: Result<Generation, Error>)
      requires Usable()
      modifies pba
      ensures Attempt(View(), r) == TryGenerate(old(View()), g, v)
      ensures var m := old(View());
              var reached := g.busMaster && g.enabled && v < Vectors(m) && v / 64 < |m.pba|;
              && ((r.Ok? && r.value.Generated?) <==> reached && !g.fnMasked && !EntryMasked(m, v))
              && (reached ==> (Pending(pba[..], v) <==> g.fnMasked || EntryMasked(m, v)))
    {
      MsixGeneratesIff(View(), g, v);
      if !g.busMaster {
        return Err(NotBusMaster);
      }
      if !g.enabled {
        return Err(MsiDisabled);
      }
      var entries := Msix(table[..], []);
      if IsMasked(entries, g, v) {
        var done := SetPendingBit(v, true);
        return if done.Err? then Err(done.error) else Ok(Masked);
      }
      var done := SetPendingBit(v, false);
      if done.Err? {
        return Err(done.error);
      }
      return if v < Vectors(entries) then Ok(Generated(MessageFor(entries, v))) else Err(InvalidMsiXVector(v));
    }

    /** `evaluate_pending_interrupts`. */
    method EvaluatePendingInterrupts(g: Gate)
      requires Usable()
      modifies this`sent, pba
      ensures Evaluation(View(), sent) == Evaluate(old(View()), g, old(sent))
    {
      hide FindPending, TryGenerate, Valid;
      assert Valid(View()) by { ValidTable(View()); }
      var start := 0;
      var next := FindPendingVector(start);
      while next.Some?
        invariant Usable() && Valid(View()) && next == FindPending(pba[..], start)
        invariant EvaluateFrom(View(), g, start, sent) == Evaluate(old(View()), g, old(sent))
        decreases 64 * pba.Length - start
      {
        var v := next.value;
        EvaluateUnfolds(View(), g, start, sent);
        ghost var a, log := TryGenerate(View(), g, v), sent;
        var outcome := TryGenerateMessage(g, v);
        if outcome.Ok? && outcome.value.Generated? {
          sent := sent + [Delivery(v, outcome.value.message)];
        }
        assert a == Attempt(View(), outcome) && sent == log + Sent(a, v);
        start := v + 1;
        next := FindPendingVector(start);
      }
    }

    /** `write_bar` on the table region. */
    method WriteTable(g: Gate, offset: nat, data: Bytes) returns (update: Option<MessageUpdate>)
      requires Usable() && (table as object) != pba
      modifies this`sent, table, pba
      ensures TableResult(View(), sent, update) == TableWrite(old(View()), g, offset, data, old(sent))
    {
      hide Evaluate, MessageFor;
      if offset + |data| > table.Length {
        return None;
      }
      SetInPlace(table, offset, data);
      if TargetsVectorControl(offset, |data|) {
        EvaluatePendingInterrupts(g);
      }
      var v := offset / ENTRY_SIZE;
      if TargetsMessageInfo(offset, |data|) && v < table.Length / ENTRY_SIZE {
        SameMessage(View(), v);
        return Some(MessageUpdate(v, MessageFor(Msix(table[..], []), v)));
      }
      return None;
    }
  }

  lemma ValidTable(m: Msix)
    requires Valid(Msix(m.table, []))
    ensures Valid(m)
  {
  }

  lemma SameMessage(m: Msix, v: nat)
    requires Valid(m) && v < Vectors(m)
    ensures Valid(Msix(m.table, [])) && MessageFor(Msix(m.table, []), v) == MessageFor(m, v)
  {
  }

  /** One turn of the MSI-X loop. */
  lemma EvaluateUnfolds(m: Msix, g: Gate, start: nat, sent: seq<Delivery>)
    requires Valid(m) && FindPending(m.pba, start).Some?
    ensures var v := FindPending(m.pba, start).value;
            var a := TryGenerate(m, g, v);
            EvaluateFrom(m, g, start, sent) == EvaluateFrom(a.msix, g, v + 1, sent + Sent(a, v))
  {
  }

  /** One turn of the MSI loop. */
  lemma MsiEvaluateUnfolds(s: Space, o: nat, start: nat, sent: seq<Delivery>)
    requires Fits(s, o) && NextPendingVector(s, o, start).Some?
    ensures var v := NextPendingVector(s, o, start).value;
            var a := MsiTryGenerate(s, o, v);
            && start <= v < 32 && Fits(a.space, o)
            && MsiEvaluateFrom(s, o, start, sent) == MsiEvaluateFrom(a.space, o, v + 1, sent + MsiSent(a, v))
  {
    hide MsiTryGenerate, NextPendingVector;
    AttemptFits(s, o, NextPendingVector(s, o, start).value);
  }

  lemma {:induction false} MsiEvaluateMeans(s: Space, o: nat, sent: seq<Delivery>)
    requires Fits(s, o)
    ensures HasMasking(Control(s, o)) && PendingWritable(s, o) ==>
              MsiEvaluateFrom(s, o, 0, sent) == MsiResult(WritePending(s, o, Remaining(s, o, 0)), sent + Leaving(s, o, 0))
  {
    if HasMasking(Control(s, o)) && PendingWritable(s, o) {
      MsiEvaluateExact(s, o, 0, sent);
    }
  }

  lemma {:induction false} MsiEvaluateEnds(s: Space, o: nat, start: nat, sent: seq<Delivery>)
    requires Fits(s, o) && NextPendingVector(s, o, start).None?
    ensures MsiEvaluateFrom(s, o, start, sent) == MsiResult(s, sent)
  {
  }

  /** `PciMsi`: all its state lives in the register bytes of the configuration space. */
  class MsiHandler {
    const config: ConfigurationSpace
    const o: nat
    var sent: seq<Delivery>

    constructor (config: ConfigurationSpace, o: nat)
      ensures this.config == config && this.o == o && sent == []
    {
      this.config, this.o, sent := config, o, [];
    }

    /** The capability lies inside the space. */
    ghost predicate Usable()
      reads this, config, config.registers, config.writableBits
    {
      config.Valid() && Fits(config.View(), o)
    }

    /** `set_pending_bit`, in place. */
    method SetPendingBit(v: nat, on: bool) returns (r: Result<(), Error>)
      requires Usable() && v < 32
      modifies config.registers
      ensures config.Valid()
      ensures var spec := MsiCore.SetPendingBit(old(config.View()), o, v, on);
              && r.Ok? == spec.Ok? && (r.Err? ==> r.error == spec.error)
              && config.View() == (if spec.Ok? then spec.value else old(config.View()))
    {
      hide Write, PendingBits, MaskBits;
      var s := config.View();
      if !HasMasking(Control(s, o)) {
        return Err(NotSupported);
      }
      if on && !VectorMasked(s, o, v) {
        return Err(VectorNotMasked(v));
      }
      config.Store(o + PendingOffset(Control(s, o)), DwordBytes(PendingBits(s, o)[v := on]));
      return Ok(());
    }

    /** `try_generate_message`: a message leaves exactly if all gates are open, the capability has masking and the vector is implemented and unmasked. */
    method TryGenerateMessage(v: nat) returns (r: Result<Generation, Error>)
      requires Usable() && v < 32
      modifies config.registers
      ensures config.Valid()
      ensures MsiAttempt(config.View(), r) == MsiTryGenerate(old(config.View()), o, v)
      ensures var s := old(config.View());
              (r.Ok? && r.value.Generated?) <==>
                CanSend(s, o) && HasMasking(Control(s, o)) && !MaskBits(s, o)[v] && v < CapableVectors(Control(s, o))
    {
      MsiGeneratesIff(config.View(), o, v);
      hide MsiCore.SetPendingBit, MsiMessage, VectorMasked;
      var s := config.View();
      if !CommandBit(s, BUS_MASTER) {
        return Err(NotBusMaster);
      }
      if !Control(s, o)[0] {
        return Err(MsiDisabled);
      }
      var masked := VectorMasked(s, o, v);
      var done := SetPendingBit(v, masked);
      if done.Err? {
        return Err(done.error);
      }
      if masked {
        return Ok(Masked);
      }
      return if v < CapableVectors(Control(s, o)) then Ok(Generated(MsiMessage(s, o, v))) else Err(InvalidMsiVector(v));
    }

    /**
     `evaluate_pending_interrupts`. The loop ends because the vector grows and stays below 32. Where the pending
     dword is writable, as the capability sets it up, exactly the leaving vectors are sent, in ascending order,
     and exactly their bits are cleared.
     */
    method EvaluatePendingInterrupts()
      requires Usable()
      modifies this`sent, config.registers
      ensures Usable()
      ensures MsiResult(config.View(), sent) == MsiEvaluateFrom(old(config.View()), o, 0, old(sent))
      ensures var s := old(config.View());
              HasMasking(Control(s, o)) && PendingWritable(s, o) ==>
                config.View() == WritePending(s, o, Remaining(s, o, 0)) && sent == old(sent) + Leaving(s, o, 0)
    {
      hide NextPendingVector, MsiTryGenerate, MsiEvaluateFrom, PendingBits, HasMasking, Control, CapableVectors, Fits;
      var start := 0;
      var next := NextPendingVector(config.View(), o, start);
      while next.Some?
        invariant start <= 32 && Usable() && next == NextPendingVector(config.View(), o, start)
        invariant MsiEvaluateFrom(config.View(), o, start, sent) == MsiEvaluateFrom(old(config.View()), o, 0, old(sent))
        decreases 32 - start
      {
        var v := next.value;
        MsiEvaluateUnfolds(config.View(), o, start, sent);
        ghost var a, log := MsiTryGenerate(config.View(), o, v), sent;
        var outcome := TryGenerateMessage(v);
        if outcome.Ok? && outcome.value.Generated? {
          sent := sent + [Delivery(v, outcome.value.message)];
        }
        assert a == MsiAttempt(config.View(), outcome) && sent == log + MsiSent(a, v);
        start := v + 1;
        next := NextPendingVector(config.View(), o, start);
      }
      MsiEvaluateEnds(config.View(), o, start, sent);
      MsiEvaluateMeans(old(config.View()), o, old(sent));
    }

    /** `on_write_config`, after the write itself was stored. */
    method OnWriteConfig(offset: nat, size: nat) returns (update: Option<Message>)
      requires Usable()
      modifies this`sent, config.registers
      ensures Usable()
      ensures MsiWrite(config.View(), sent, update) == MsiOnWrite(old(config.View()), o, offset, size, old(sent))
    {
      hide MsiEvaluateFrom, MsiMessage, PendingBits, Write;
      if !MsiHandles(config.View(), o, offset, size) {
        return None;
      }
      var onControl := RangeOverlaps(offset, size, o, 2);
      if onControl {
        FixInPlace();
      }
      var c := Control(config.View(), o);
      if (onControl && c[0] && HasMasking(c)) || (HasMasking(c) && RangeOverlaps(offset, size, o + MaskOffset(c), 4)) {
        EvaluatePendingInterrupts();
      }
      return if MsiReports(c, o, offset, size) then Some(MsiMessage(config.View(), o, 0)) else None;
    }

    /** The control-register part: an illegal vector count falls back to one, a legal one stays. */
    method FixInPlace()
      requires Usable()
      modifies config.registers
      ensures Usable() && config.View() == FixControl(old(config.View()), o)
    {
      hide Write, EnableLegal;
      ghost var s := config.View();
      var c := Control(config.View(), o);
      if !EnableLegal(c) {
        config.Store(o, WordBytes(ClearEnable(c)));
      }
      assert config.View() == FixControl(s, o);
    }
  }

  /** `PciIntx` with the line it drives. */
  class IntxHandler {
    const config: ConfigurationSpace
    var disabled: bool
    var level: bool

    /** As `build` leaves it, with the flag set. */
    constructor (config: ConfigurationSpace)
      ensures this.config == config && disabled && !level
    {
      this.config, disabled, level := config, true, false;
    }

    ghost function State(): Intx.Line
      reads this, config, config.registers, config.writableBits
      requires config.Valid()
    {
      Intx.Line(config.View(), disabled, level)
    }

    /** `signal_intx`: the status bit takes the level; with interrupts enabled a synchronised line follows it. */
    method SignalIntx(high: bool)
      requires config.Valid()
      modifies this`level, config.registers
      ensures config.Valid() && State() == Intx.Signal(old(State()), high)
      ensures Intx.Asserted(config.View()) == high
      ensures old(Intx.Synchronised(State()) && !Intx.Disabled(config.View())) ==> Intx.Synchronised(State()) && level == high
    {
      var current := Intx.Asserted(config.View());
      var status := config.registers[STATUS][INTERRUPT_STATUS := high];
      config.SetByte(STATUS, status);
      if !Intx.Disabled(config.View()) && current != high {
        level := high;
      }
    }

    /** `on_write_config`, after the write itself was stored. */
    method OnWriteConfig(offset: nat, size: nat)
      requires config.Valid()
      modifies this`disabled, this`level
      ensures State() == Intx.OnWrite(old(State()), offset, size)
    {
      if !RangeOverlaps(COMMAND, 2, offset, size) {
        return;
      }
      var now := Intx.Disabled(config.View());
      if now != disabled && Intx.Asserted(config.View()) {
        disabled := now;
        level := !now;
      }
    }

    /** A guest write followed by the handler: from a synchronised state the line goes on following its bits. */
    method GuestWrites(offset: nat, data: Bytes) returns (r: Result<(), Error>)
      requires config.Valid()
      modifies this`disabled, this`level, config.registers
      ensures config.Valid() && State() == Intx.Step(old(State()), Intx.ConfigWrite(offset, data))
      ensures old(Intx.IntxWritable(config.View()) && Intx.Synchronised(State())) ==>
                Intx.Synchronised(State()) && level == (Intx.Asserted(config.View()) && !Intx.Disabled(config.View()))
    {
      hide Intx.OnWrite, Write;
      ghost var before := State();
      r := config.WriteChecked(offset, data);
      if r.Ok? {
        OnWriteConfig(offset, |data|);
      }
      if Intx.IntxWritable(before.space) && Intx.Synchronised(before) {
        Intx.StepKeeps(before, Intx.ConfigWrite(offset, data));
      }
    }
  }
}
