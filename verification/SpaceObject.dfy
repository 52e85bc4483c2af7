/**
 `PciConfigurationSpace` as the object it is: byte arrays changed in place. Every method
 is proved to do to the arrays what the functions of the model do to values.
 */
module SpaceObject {
  import opened Basics
  import opened Bits
  import opened RegisterBlock
  import opened ConfigSpace
  import opened Bars
  import opened Capabilities
  import opened CapabilityList

  lemma HoldsMeans(s: Space, slots: seq<Slot>)
    requires Holds(s, slots)
    ensures Chain(s.regs, slots) && (slots != [] ==> s.lastCapSize == |slots[|slots| - 1].cap.registers|)
  {
  }

  class ConfigurationSpace {
    const registers: array<Byte>
    const writableBits: array<Byte>
    var bars: seq<Option<Bar>>
    var lastCapSize: nat

    predicate Valid()
      reads this
    {
      registers.Length == writableBits.Length == SPACE_SIZE && registers != writableBits && |bars| == NUM_BARS
    }

    /** The object as a value. */
    function View(): (s: Space)
      reads this, registers, writableBits
      requires Valid()
      ensures WellFormed(s)
    {
      Space(registers[..], writableBits[..], bars, lastCapSize)
    }

    constructor ()
      ensures Valid() && fresh(registers) && fresh(writableBits) && View() == NewSpace()
    {
      registers := new Byte[SPACE_SIZE](i => if i < 2 then ONES_BYTE else ZERO_BYTE);
      writableBits := new Byte[SPACE_SIZE](_ => ZERO_BYTE);
      bars := seq(NUM_BARS, _ => None);
      lastCapSize := 0;
    }

    /** `write_checked`: a masked store, or an error and no change. */
    method WriteChecked(offset: nat, data: Bytes) returns (r: Result<(), Error>)
      requires Valid()
      modifies registers
      ensures Valid() && View() == GuestWrite(old(View()), offset, data)
      ensures r == ValidateAccess(offset, |data|)
    {
      r := ValidateAccess(offset, |data|);
      if r.Ok? {
        WriteInPlace(registers, writableBits, offset, data);
      }
    }

    /** The unchecked masked store handlers use for their own registers. */
    method Store(offset: nat, data: Bytes)
      requires Valid() && offset + |data| <= SPACE_SIZE
      modifies registers
      ensures Valid() && View() == old(View()).(regs := Write(old(registers[..]), writableBits[..], offset, data))
    {
      WriteInPlace(registers, writableBits, offset, data);
    }

    /** `add_writable_word(PCI_COMMAND, ..)`. */
    method AddWritableCommand(bit: nat)
      requires Valid() && bit < 16
      modifies writableBits
      ensures Valid() && View() == AllowCommandBit(old(View()), bit)
    {
      var word := WordBytes(Word(writableBits[..], COMMAND)[bit := true]);
      SetInPlace(writableBits, COMMAND, word);
    }

    /** One BAR register: its writable bits and its contents. */
    method SetBarRegister(offset: nat, writable: Bits, contents: Bits)
      requires Valid() && offset + 4 <= SPACE_SIZE && |writable| == |contents| == 32
      modifies registers, writableBits
      ensures Valid()
      ensures View() == old(View()).(writable := SetDword(old(writableBits[..]), offset, writable),
                                     regs := SetDword(old(registers[..]), offset, contents))
    {
      SetInPlace(writableBits, offset, DwordBytes(writable));
      SetInPlace(registers, offset, DwordBytes(contents));
    }

    /** The checks of `add_bar`, in order. */
    method Check(bar: Bar) returns (r: Result<(), Error>)
      requires Valid() && BarArgument(bar)
      ensures r == CheckBar(View(), bar)
    {
      hide IsPow2;
      var header := Val(registers[HEADER_TYPE]);
      if header != 0 && header != 1 {
        return Err(UnsupportedHeader(header));
      }
      var i := bar.index;
      if i >= (if header == 0 then 6 else 2) {
        return Err(InvalidBarIndex(i));
      }
      if !SizeOk(bar) {
        return Err(InvalidBarSize(bar.size));
      }
      if ValidateRegion(bar).Err? {
        return ValidateRegion(bar);
      }
      if bars[i].Some? {
        return Err(BarInUse(i));
      }
      if i > 0 && bars[i - 1].Some? && bars[i - 1].value.kind.Mem64? {
        return Err(BarInUse(i));
      }
      if bar.kind.Mem64? {
        if i + 1 >= NUM_BARS {
          return Err(InvalidBarIndex(i));
        }
        if bars[i + 1].Some? {
          return Err(BarInUse(i));
        }
      }
      return Ok(());
    }

    /**
     `add_bar`: accepts exactly the BARs that are legal and have room; on any error nothing has changed; otherwise the
     BAR is placed and just its enable bit joins the Command mask.
     */
    method AddBar(bar: Bar) returns (r: Result<(), Error>)
      requires Valid() && BarArgument(bar)
      modifies this`bars, registers, writableBits
      ensures Valid()
      ensures r == CheckBar(old(View()), bar)
      ensures View() == if r.Ok? then PlaceBar(old(View()), bar) else old(View())
      ensures r.Ok? <==> HeaderHas(old(View()), bar.index) && LegalSize(bar) && bar.size > 0 && LegalAddress(bar) && RoomFor(old(View()), bar)
      ensures r.Ok? ==> writableBits[0x04] == old(writableBits[0x04])[EnableBit(bar.kind) := true] && writableBits[0x05] == old(writableBits[0x05])
    {
      hide LegalSize, RoomFor, HeaderHas, LegalAddress, CheckBar, PlaceBar;
      ghost var before := View();
      BarAcceptedIff(before, bar);
      r := Check(bar);
      if r.Ok? {
        PlaceBarCommand(before, bar);
        Place(bar, before);
      }
    }

    /** The stores of `add_bar`. */
    method Place(bar: Bar, ghost before: Space)
      requires Valid() && BarArgument(bar) && before == View() && CheckBar(before, bar).Ok?
      modifies this`bars, registers, writableBits
      ensures Valid() && View() == PlaceBar(before, bar)
    {
      hide CheckBar, SetDword, AddressBits, LowWritable, LowRegister, SizeMask, AllowCommandBit;
      assert bar.size > 0 && (bar.kind.Mem64? ==> bar.index + 1 < NUM_BARS) by { CheckedBar(before, bar); }
      var o := BarOffset(bar.index);
      AddWritableCommand(if bar.kind.Io? then IO_SPACE else MEM_SPACE);
      if bar.kind.Mem64? {
        SetBarRegister(o + 4, SizeMask(bar.size)[32..], AddressBits(bar)[32..]);
      }
      SetBarRegister(o, LowWritable(bar), LowRegister(bar));
      bars := bars[bar.index := Some(bar)];
    }

    /**
     The iterator run to its end: where the next capability goes and where the last one
     starts. On a chain built by `AddCapability` the loop ends.
     */
    method FindEnd(ghost slots: seq<Slot>) returns (start: nat, last: nat)
      requires Valid() && Holds(View(), slots)
      ensures (start, last) == AppendPoint(View()) == (NextStart(slots), LastStart(slots))
    {
      hide Chain, Holds, Contents, Walk, IterNext, AppendPoint;
      HoldsMeans(View(), slots);
      var pointer := CAP_POINTER;
      start, last := DEVICE_START, 0;
      ghost var i := 0;
      PointerHolds(registers[..], slots, 0);
      NextIs(registers[..], slots, 0);
      var next := IterNext(registers[..], pointer);
      while next.Some?
        invariant i <= |slots| && pointer == PointerTo(slots, i) && pointer < SPACE_SIZE
        invariant next == IterNext(registers[..], pointer)
        invariant next == if i < |slots| then Some(ItemOf(slots, i)) else None
        invariant i == 0 ==> start == DEVICE_START && last == 0
        invariant i > 0 ==> last == slots[i - 1].start && start == last + 2 + lastCapSize
        decreases |slots| - i
      {
        last := next.value.data - 2;
        start := next.value.data + lastCapSize;
        pointer := next.value.data - 1;
        i := i + 1;
        PointerHolds(registers[..], slots, i);
        NextIs(registers[..], slots, i);
        next := IterNext(registers[..], pointer);
      }
      AppendPointIs(View(), slots);
      start := Align4(start);
    }

    /** `add_capability`: appends to the list, or fails without any change. */
    method AddCapability(cap: Capability, ghost slots: seq<Slot>) returns (r: Result<nat, Error>)
      requires Valid() && CapabilityArgument(cap) && Holds(View(), slots)
      modifies this`lastCapSize, registers, writableBits
      ensures Valid()
      ensures r.Ok? <==> NextStart(slots) + 2 + |cap.registers| <= DEVICE_END
      ensures r.Ok? ==> r.value == NextStart(slots) + 2 && Holds(View(), slots + [Slot(NextStart(slots), cap)])
      ensures r.Err? ==> View() == old(View())
      ensures var spec := Capabilities.AddCapability(old(View()), cap);
              if r.Ok? then spec == Ok((View(), r.value)) else spec == Err(r.error)
    {
      hide Holds, Append, Walk, AppendPoint;
      AddAppends(View(), slots, cap);
      var start, last := FindEnd(slots);
      var end := CapEnd(start + 2, |cap.registers|);
      if end.Err? {
        return Err(end.error);
      }
      AppendInPlace(cap, start, last);
      return Ok(start + 2);
    }

    /** The stores of `add_capability`. */
    method AppendInPlace(cap: Capability, start: nat, last: nat)
      requires Valid() && CapabilityArgument(cap) && start + 2 + |cap.registers| <= DEVICE_END && last + 2 <= SPACE_SIZE
      modifies this`lastCapSize, registers, writableBits
      ensures Valid() && View() == Append(old(View()), cap, start, last)
    {
      hide Set, ToByte;
      SetInPlace(registers, start + 2, cap.registers);
      SetInPlace(writableBits, start + 2, cap.writable);
      lastCapSize := |cap.registers|;
      SetByte(start, cap.id);
      SetByte(start + 1, ZERO_BYTE);
      if last == 0 {
        SetByte(CAP_POINTER, ToByte(DEVICE_START));
        SetByte(STATUS, registers[STATUS][CAP_LIST := true]);
      } else {
        SetByte(last + 1, ToByte(start));
      }
    }

    method SetByte(offset: nat, value: Byte)
      requires Valid() && offset < SPACE_SIZE
      modifies registers
      ensures Valid() && registers[..] == old(registers[..])[offset := value]
    {
      registers[offset] := value;
    }
  }
}
