/**
 The INTx line (intx.rs): the Interrupt Status bit, the Interrupt Disable bit, the
 handler's cached copy of the latter, and the level driven onto a fixed line.
 */
module Intx {
  import opened Basics
  import opened Bits
  import opened RegisterBlock
  import opened ConfigSpace

  /** `cached` is the `disabled` field of `PciIntx`; `level` is the line as the controller last saw it. */
  datatype Line = Line(space: Space, cached: bool, level: bool)

  predicate Disabled(s: Space)
    requires WellFormed(s)
  {
    CommandBit(s, INTERRUPT_DISABLE)
  }

  predicate Asserted(s: Space)
    requires WellFormed(s)
  {
    StatusBit(s, INTERRUPT_STATUS)
  }

  /** `update_interrupt_status`: a plain store, past the writable bits. */
  function SetStatus(s: Space, level: bool): (r: Space)
    requires WellFormed(s)
    ensures WellFormed(r)
    ensures Asserted(r) == level && Disabled(r) == Disabled(s)
  {
    s.(regs := s.regs[STATUS := s.regs[STATUS][INTERRUPT_STATUS := level]])
  }

  /** `signal_intx`. */
  function Signal(x: Line, level: bool): (r: Line)
    requires WellFormed(x.space)
    ensures WellFormed(r.space)
  {
    var changed := Asserted(x.space) != level;
    var s := SetStatus(x.space, level);
    Line(s, x.cached, if !Disabled(s) && changed then level else x.level)
  }

  /** `on_write_config`, after the write itself was stored. */
  function OnWrite(x: Line, offset: nat, size: nat): (r: Line)
    requires WellFormed(x.space)
    ensures r.space == x.space
  {
    if !RangeOverlaps(COMMAND, 2, offset, size) then x
    else
      var disabled := Disabled(x.space);
      if disabled != x.cached && Asserted(x.space) then x.(cached := disabled, level := !disabled) else x
  }

  /** What can happen to the line: the device signals, the guest reads the ISR register or writes configuration space. */
  datatype Event = DeviceSignal(level: bool, messages: bool) | IsrRead(messages: bool) | ConfigWrite(offset: nat, data: Bytes)

  /**
   One event at function level. `messages` says that MSI or MSI-X is enabled: it then takes
   priority and an INTx signal is refused; with INTx disabled nothing is signalled.
   */
  function Step(x: Line, e: Event): (r: Line)
    requires WellFormed(x.space)
    ensures WellFormed(r.space)
  {
    match e
    case DeviceSignal(level, messages) => if messages || Disabled(x.space) then x else Signal(x, level)
    case IsrRead(messages) => if messages || Disabled(x.space) then x else Signal(x, false)
    case ConfigWrite(offset, data) =>
      if Accepted(offset, |data|) then OnWrite(x.(space := GuestWrite(x.space, offset, data)), offset, |data|) else x
  }

  function Run(x: Line, events: seq<Event>): (r: Line)
    requires WellFormed(x.space)
    ensures WellFormed(r.space)
    decreases |events|
  {
    if events == [] then x else Run(Step(x, events[0]), events[1..])
  }

  // ---------- line agreement ----------

  /** The line is high exactly while the status bit is set and interrupts are not disabled. */
  predicate Agrees(x: Line)
    requires WellFormed(x.space)
  {
    x.level == (Asserted(x.space) && !Disabled(x.space))
  }

  /** The cached flag is set exactly while an asserted interrupt is being held back. */
  predicate Synchronised(x: Line)
    requires WellFormed(x.space)
  {
    Agrees(x) && x.cached == (Disabled(x.space) && Asserted(x.space))
  }

  /** As `init_intx` leaves it: the guest can write Interrupt Disable and cannot write Interrupt Status. */
  predicate IntxWritable(s: Space)
    requires WellFormed(s)
  {
    s.writable[COMMAND + 1][2] && !s.writable[STATUS][INTERRUPT_STATUS]
  }

  /** A guest write that misses the Command register leaves both bits alone; one that hits it leaves the status bit alone. */
  lemma WriteBits(s: Space, offset: nat, data: Bytes)
    requires WellFormed(s) && IntxWritable(s) && Accepted(offset, |data|)
    ensures IntxWritable(GuestWrite(s, offset, data))
    ensures Asserted(GuestWrite(s, offset, data)) == Asserted(s)
    ensures !RangeOverlaps(COMMAND, 2, offset, |data|) ==> Disabled(GuestWrite(s, offset, data)) == Disabled(s)
  {
    var t := GuestWrite(s, offset, data);
    assert t.regs[STATUS][INTERRUPT_STATUS] == s.regs[STATUS][INTERRUPT_STATUS];
    if !RangeOverlaps(COMMAND, 2, offset, |data|) {
      assert t.regs[COMMAND + 1] == s.regs[COMMAND + 1];
    }
  }

  lemma StepKeeps(x: Line, e: Event)
    requires WellFormed(x.space) && IntxWritable(x.space) && Synchronised(x)
    ensures IntxWritable(Step(x, e).space) && Synchronised(Step(x, e))
  {
    if e.ConfigWrite? && Accepted(e.offset, |e.data|) {
      WriteBits(x.space, e.offset, e.data);
    }
  }

  lemma {:induction false} RunKeeps(x: Line, events: seq<Event>)
    requires WellFormed(x.space) && IntxWritable(x.space) && Synchronised(x)
    ensures Synchronised(Run(x, events))
    decreases |events|
  {
    if events != [] {
      StepKeeps(x, events[0]);
      RunKeeps(Step(x, events[0]), events[1..]);
    }
  }

  /** The guest write that sets Interrupt Disable to `on` and nothing else. */
  function SetDisable(s: Space, on: bool): Event
    requires WellFormed(s)
  {
    ConfigWrite(COMMAND + 1, [s.regs[COMMAND + 1][2 := on]])
  }

  lemma DisableWritten(x: Line, on: bool)
    requires WellFormed(x.space) && IntxWritable(x.space)
    ensures var e := SetDisable(x.space, on);
            var t := GuestWrite(x.space, e.offset, e.data);
            && Step(x, e) == OnWrite(x.(space := t), e.offset, 1)
            && RangeOverlaps(COMMAND, 2, e.offset, 1)
            && Disabled(t) == on && Asserted(t) == Asserted(x.space) && IntxWritable(t)
  {
    var e := SetDisable(x.space, on);
    assert Accepted(e.offset, 1);
    WriteBits(x.space, e.offset, e.data);
    var t := GuestWrite(x.space, e.offset, e.data);
    assert t.regs[COMMAND + 1][2] == on;
  }

  /** From a state that agrees but is not synchronised, some run breaks the agreement. */
  lemma Breaks(x: Line) returns (events: seq<Event>)
    requires WellFormed(x.space) && IntxWritable(x.space) && Agrees(x) && !Synchronised(x)
    ensures !Agrees(Run(x, events))
  {
    if Disabled(x.space) {
      var e := SetDisable(x.space, false);
      DisableWritten(x, false);
      var y := Step(x, e);
      if Asserted(x.space) {
        events := [e];
        assert Run(x, events) == Run(y, []);
      } else {
        var rest := BreaksEnabled(y);
        events := [e] + rest;
      }
    } else {
      events := BreaksEnabled(x);
    }
  }

  lemma BreaksEnabled(x: Line) returns (events: seq<Event>)
    requires WellFormed(x.space) && IntxWritable(x.space) && Agrees(x) && !Disabled(x.space) && x.cached
    ensures events != [] && !Agrees(Run(x, events))
  {
    var raise := DeviceSignal(true, false);
    var y := Step(x, raise);
    assert y.level && y.cached && Asserted(y.space) && !Disabled(y.space);
    var e := SetDisable(y.space, true);
    DisableWritten(y, true);
    var z := Step(y, e);
    assert z.level;
    events := [raise, e];
    assert events[1..] == [e] && events[1..][1..] == [];
    assert Run(x, events) == Run(y, [e]) == Run(z, []);
  }

  /**
   The line follows the status and disable bits in every run from `x` if and only if
   `x` is synchronised.
   */
  lemma {:induction false} AgreementIffSynchronised(x: Line)
    requires WellFormed(x.space) && IntxWritable(x.space)
    ensures (forall events: seq<Event> :: Agrees(Run(x, events))) <==> Synchronised(x)
  {
    if Synchronised(x) {
      forall events: seq<Event> ensures Agrees(Run(x, events)) {
        RunKeeps(x, events);
      }
    } else if Agrees(x) {
      var events := Breaks(x);
      assert !Agrees(Run(x, events));
    } else {
      AlreadyWrong(x);
    }
  }

  lemma {:induction false} AlreadyWrong(x: Line)
    requires WellFormed(x.space) && !Agrees(x)
    ensures exists events: seq<Event> :: !Agrees(Run(x, events))
  {
    var none: seq<Event> := [];
    assert Run(x, none) == x;
    assert !Agrees(Run(x, none));
  }

  /** The state `PciIntxConfig::build` leaves behind, flag set and interrupts enabled, is not synchronised. */
  lemma {:induction false} BuildIsNotSynchronised(s: Space)
    requires WellFormed(s) && IntxWritable(s) && !Disabled(s) && !Asserted(s)
    ensures Agrees(Line(s, true, false)) && exists events: seq<Event> :: !Agrees(Run(Line(s, true, false), events))
  {
    AgreementIffSynchronised(Line(s, true, false));
  }

  /**
   A signal the function takes (messages off, INTx not disabled) sets status and line to its
   level; any other signal changes nothing. Clearing Interrupt Disable raises the line again
   for an interrupt that was held back.
   */
  lemma SignalReachesLine(x: Line, level: bool, messages: bool)
    requires WellFormed(x.space) && Synchronised(x)
    ensures var y := Step(x, DeviceSignal(level, messages));
            if messages || Disabled(x.space) then y == x else Asserted(y.space) == level && y.level == level
    ensures Step(x, IsrRead(messages)) == Step(x, DeviceSignal(false, messages))
  {
  }

  lemma HeldBackIsRaised(x: Line)
    requires WellFormed(x.space) && IntxWritable(x.space) && Synchronised(x) && Disabled(x.space)
    ensures Step(x, SetDisable(x.space, false)).level == Asserted(x.space)
  {
    DisableWritten(x, false);
  }
}
