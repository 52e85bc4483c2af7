/** `VirtioPciCommonCfg` as an object: the shadow registers are an array changed in place. */
module CommonCfgObject {
  import opened Basics
  import opened Bits
  import opened RegisterBlock
  import opened CommonCfg

  class CommonCfgRegion {
    const registers: array<Byte>
    const writableBits: array<Byte>
    var device: Device

    ghost predicate Valid()
      reads this, writableBits
    {
      && registers.Length == writableBits.Length == SIZE && registers != writableBits
      && writableBits[..] == WritableBytes() && |device.shown| == SIZE
    }

    ghost function View(): (c: Common)
      reads this, registers, writableBits
      requires Valid()
      ensures WellFormed(c)
    {
      Common(registers[..], device)
    }

    constructor (device: Device)
      requires |device.shown| == SIZE
      ensures Valid() && fresh(registers) && fresh(writableBits) && View() == Common(seq(SIZE, _ => ZERO_BYTE), device)
    {
      registers := new Byte[SIZE](_ => ZERO_BYTE);
      writableBits := new Byte[SIZE](i => if IsWritable(i) then ONES_BYTE else ZERO_BYTE);
      this.device := device;
    }

    /** `set_config_data_invalid`: byte by byte, up to the end of the block. */
    method SetConfigDataInvalid(offset: nat, size: nat)
      requires Valid()
      modifies registers
      ensures Valid() && View() == old(View()).(regs := Invalidate(old(registers[..]), offset, size))
    {
      var i := offset;
      while i < offset + size && i < SIZE
        invariant offset <= i <= offset + size
        invariant forall j :: 0 <= j < SIZE ==> registers[j] == if offset <= j < i then ZERO_BYTE else old(registers[j])
      {
        registers[i] := ZERO_BYTE;
        i := i + 1;
      }
    }

    /** `write_registers`; an out-of-bounds store is dropped. */
    method WriteRegisters(offset: nat, input: Bytes)
      requires Valid() && |input| == 8
      modifies registers
      ensures Valid() && View() == old(View()).(regs := StoreShadow(old(registers[..]), offset, input))
    {
      if offset + 8 <= SIZE {
        WriteInPlace(registers, writableBits, offset, input);
      }
    }

    /** `write_bar`: pads, stores, then acts on what the shadow now holds. */
    method WriteBar(offset: nat, data: Bytes) returns (r: Result<(), Error>)
      requires Valid()
      modifies this`device, registers
      ensures Valid()
      ensures r == if |data| <= 8 then Ok(()) else Err(InvalidIoSize(|data|))
      ensures View() == Step(old(View()), WriteAt(offset, data))
    {
      if |data| > 8 {
        return Err(InvalidIoSize(|data|));
      }
      WriteRegisters(offset, Pad(data));
      ProcessRegisterWrite(offset, |data|);
      return Ok(());
    }

    /** `process_write`. */
    method ProcessRegisterWrite(offset: nat, size: nat)
      requires Valid()
      modifies this`device, registers
      ensures Valid() && View() == ProcessWrite(old(View()), offset, size)
    {
      hide QueueField, WritableBytes;
      if RegisterSize(offset) == 0 {
        SetConfigDataInvalid(offset, size);
      } else if offset == QUEUE_SELECT {
        device := device.(select := Word(registers[..], offset));
      } else if IsQueueField(offset) {
        var i := Val(Word(registers[..], QUEUE_SELECT));
        if i < |device.queues| {
          device := device.(queues := device.queues[i := QueueField(device.queues[i], registers[..], offset, size)]);
        }
        if offset == QUEUE_RESET && Val(Word(registers[..], offset)) == 1 {
          SetInPlace(registers, offset, [ZERO_BYTE, ZERO_BYTE]);
        }
      } else {
        device := device.(calls := device.calls + CallsFor(registers[..], offset));
      }
    }

    /** `read_bar`. */
    method ReadBar(offset: nat, size: nat) returns (r: Result<Bytes, Error>)
      requires Valid()
      modifies registers
      ensures Valid() && (View(), r) == CommonCfg.ReadBar(old(View()), offset, size)
    {
      hide Fresh, WritableBytes;
      if Unfinished(offset) {
        return Err(NotSupported);
      }
      if RegisterSize(offset) == 0 {
        SetConfigDataInvalid(offset, size);
      } else {
        var (at, bytes) := Fresh(Common(registers[..], device), offset);
        SetInPlace(registers, at, bytes);
      }
      if offset + size > SIZE {
        return Err(AccessBounds(offset, size));
      }
      if size !in {1, 2, 4, 8} {
        return Err(InvalidIoSize(size));
      }
      return Ok(registers[offset..offset + size]);
    }
  }

  /** The device calls of the registers that concern no queue record. */
  function CallsFor(regs: Bytes, offset: nat): seq<Call>
    requires |regs| == SIZE
  {
    if offset == DRIVER_FEATURE then [DriverFeatures(Dword(regs, DRIVER_FEATURE_SELECT), Dword(regs, offset))]
    else if offset == CONFIG_VECTOR then [ConfigVector(Word(regs, offset))]
    else if offset == DEVICE_STATUS then [Status(regs[offset])]
    else if offset == QUEUE_VECTOR then [QueueVector(Word(regs, offset))]
    else []
  }
}
