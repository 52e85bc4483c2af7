/**
 The configuration space (configuration_space.rs) as a value: registers, writable
 bits, the BAR table and the size of the last capability. Type-0 layout, 256 bytes.
 */
module ConfigSpace {
  import opened Basics
  import opened Bits
  import opened RegisterBlock

  const SPACE_SIZE: nat := 256
  const COMMAND: nat := 0x04
  const STATUS: nat := 0x06
  const HEADER_TYPE: nat := 0x0E
  const BAR0: nat := 0x10
  const NUM_BARS: nat := 6
  const CAP_POINTER: nat := 0x34
  const INTERRUPT_LINE: nat := 0x3C
  const INTERRUPT_PIN: nat := 0x3D
  const DEVICE_START: nat := 0x40
  const DEVICE_END: nat := 0xFF

  // Bit numbers in the Command and Status registers.
  const IO_SPACE: nat := 0
  const MEM_SPACE: nat := 1
  const BUS_MASTER: nat := 2
  const INTERRUPT_DISABLE: nat := 10
  const INTERRUPT_STATUS: nat := 3
  const CAP_LIST: nat := 4

  datatype BarKind = Io | Mem32(prefetchable: bool) | Mem64(prefetchable: bool)

  datatype Bar = Bar(address: Option<nat>, size: nat, index: nat, kind: BarKind)

  datatype Space = Space(regs: Bytes, writable: Bytes, bars: seq<Option<Bar>>, lastCapSize: nat)

  predicate WellFormed(s: Space) {
    |s.regs| == |s.writable| == SPACE_SIZE && |s.bars| == NUM_BARS
  }

  /** A BAR as callers can build it: the index is a `PciBarIndex`, size and address are `u64`. */
  predicate BarArgument(bar: Bar) {
    && bar.index < NUM_BARS
    && bar.size < WORD_LIMIT
    && (bar.address.Some? ==> bar.address.value < WORD_LIMIT)
  }

  function NewSpace(): (s: Space)
    ensures WellFormed(s)
    ensures s.regs[0] == s.regs[1] == ONES_BYTE && forall j :: 2 <= j < 256 ==> s.regs[j] == ZERO_BYTE
    ensures forall j :: 0 <= j < 256 ==> s.writable[j] == ZERO_BYTE
    ensures forall i :: 0 <= i < 6 ==> s.bars[i].None?
  {
    Space(seq(SPACE_SIZE, i => if i < 2 then ONES_BYTE else ZERO_BYTE),
          seq(SPACE_SIZE, _ => ZERO_BYTE), seq(NUM_BARS, _ => None), 0)
  }

  predicate CommandBit(s: Space, i: nat)
    requires WellFormed(s) && i < 16
  {
    Word(s.regs, COMMAND)[i]
  }

  predicate StatusBit(s: Space, i: nat)
    requires WellFormed(s) && i < 16
  {
    Word(s.regs, STATUS)[i]
  }

  /** `add_writable_word(PCI_COMMAND, 1 << i)`. */
  function AllowCommandBit(s: Space, i: nat): (r: Space)
    requires WellFormed(s) && i < 16
    ensures WellFormed(r) && r.regs == s.regs && r.bars == s.bars && r.lastCapSize == s.lastCapSize
    ensures forall j :: 0 <= j < SPACE_SIZE && j != COMMAND && j != COMMAND + 1 ==> r.writable[j] == s.writable[j]
    ensures forall b :: 0 <= b < 16 ==> Word(r.writable, COMMAND)[b] == (b == i || Word(s.writable, COMMAND)[b])
  {
    s.(writable := Set(s.writable, COMMAND, WordBytes(Word(s.writable, COMMAND)[i := true])))
  }

  // ---------- guest writes ----------

  /** `validate_write_access`: size, then natural alignment, then bounds. */
  function ValidateAccess(offset: nat, size: nat): Result<(), Error> {
    if size != 1 && size != 2 && size != 4 then Err(InvalidIoSize(size))
    else if offset % size != 0 then Err(InvalidAccessAlignment(offset, size))
    else if offset + size > SPACE_SIZE then Err(AccessBounds(offset, size))
    else Ok(())
  }

  predicate Accepted(offset: nat, size: nat) {
    ValidateAccess(offset, size).Ok?
  }

  /** `write_checked`: a rejected write leaves the space as it was. */
  function GuestWrite(s: Space, offset: nat, data: Bytes): (r: Space)
    requires WellFormed(s)
    ensures WellFormed(r)
  {
    if Accepted(offset, |data|) then s.(regs := Write(s.regs, s.writable, offset, data)) else s
  }

  /** Exactly the naturally aligned accesses of one, two or four bytes inside the space are accepted. */
  lemma AcceptedIff(offset: nat, size: nat)
    ensures Accepted(offset, size) <==> (exists k :: 0 <= k < 3 && size == Pow2(k)) && (exists q :: offset == q * size) && offset + size <= 256
  {
    assert Pow2(0) == 1 && Pow2(1) == 2 && Pow2(2) == 4;
    if Accepted(offset, size) {
      assert offset == (offset / size) * size;
    }
  }

  /** Which error a rejected access gets: size first, then alignment, then bounds. */
  lemma AccessErrors(offset: nat, size: nat)
    ensures var r := ValidateAccess(offset, size);
            if size !in {1, 2, 4} then r == Err(InvalidIoSize(size))
            else if (exists b :: 0 <= b < 2 && size > Pow2(b) && (offset / Pow2(b)) % 2 == 1) then r == Err(InvalidAccessAlignment(offset, size))
            else if offset + size > 256 then r == Err(AccessBounds(offset, size))
            else r == Ok(())
  {
    assert Pow2(0) == 1 && Pow2(1) == 2;
    if size == 2 {
      assert (offset % 2 != 0) == ((offset / Pow2(0)) % 2 == 1);
    } else if size == 4 {
      assert (offset % 4 != 0) == ((offset / Pow2(0)) % 2 == 1 || (offset / Pow2(1)) % 2 == 1);
    }
  }

  /** An accepted access stays inside one dword. */
  lemma AcceptedInOneDword(offset: nat, size: nat)
    requires Accepted(offset, size)
    ensures offset / 4 * 4 <= offset && offset + size <= offset / 4 * 4 + 4
  {
  }

  /** A guest write to fully writable bytes stores exactly its data. */
  lemma Stores(s: Space, p: nat, data: Bytes)
    requires WellFormed(s) && Accepted(p, |data|) && forall i :: p <= i < p + |data| ==> s.writable[i] == ONES_BYTE
    ensures GuestWrite(s, p, data) == s.(regs := Set(s.regs, p, data))
  {
    FullyWritable(s.regs, s.writable, p, data);
  }

  datatype Access = Access(offset: nat, data: Bytes)

  /** Any sequence of guest writes, of any width, accepted or not. */
  function GuestRun(s: Space, run: seq<Access>): (r: Space)
    requires WellFormed(s)
    ensures WellFormed(r)
    decreases |run|
  {
    if run == [] then s else GuestRun(GuestWrite(s, run[0].offset, run[0].data), run[1..])
  }

  /** What guest writes can never change. */
  ghost predicate GuestFrame(s: Space, t: Space)
  {
    && SameReadOnlyBits(s.writable, s.regs, t.regs)
    && t.writable == s.writable && t.bars == s.bars && t.lastCapSize == s.lastCapSize
  }

  lemma GuestWriteFrame(s: Space, offset: nat, data: Bytes)
    requires WellFormed(s)
    ensures GuestFrame(s, GuestWrite(s, offset, data))
  {
    if Accepted(offset, |data|) {
      WriteKeepsReadOnly(s.regs, s.writable, offset, data);
    }
  }

  /** A byte without writable bits stays as it is. */
  lemma ReadOnlyByte(s: Space, t: Space, j: nat)
    requires WellFormed(s) && WellFormed(t) && GuestFrame(s, t) && j < SPACE_SIZE && s.writable[j] == ZERO_BYTE
    ensures t.regs[j] == s.regs[j]
  {
    assert forall b :: 0 <= b < 8 ==> !s.writable[j][b];
  }

  lemma {:induction false} GuestRunFrame(s: Space, run: seq<Access>)
    requires WellFormed(s)
    ensures GuestFrame(s, GuestRun(s, run))
    decreases |run|
  {
    if run != [] {
      var a := run[0];
      GuestWriteFrame(s, a.offset, a.data);
      GuestRunFrame(GuestWrite(s, a.offset, a.data), run[1..]);
    }
  }
}
