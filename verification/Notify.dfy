/**
 The notification address a virtio device caches (pci_notify_cfg.rs), kept up to date by
 the BAR and space-bit events of configuration writes (function.rs).
 */
module Notify {
  import opened Basics
  import opened Bits
  import opened RegisterBlock
  import opened ConfigSpace
  import opened Bars
  import opened BarDecoding

  /** `bar_update_for_write`: the BAR to report for a write at `offset`; a 64-bit BAR waits for its upper half. */
  function BarUpdateForWrite(s: Space, offset: nat): (r: Option<Bar>)
    requires BarTable(s)
  {
    if offset < BAR0 || offset >= BarOffset(NUM_BARS) then None
    else
      var reg := (offset - BAR0) / 4;
      if s.bars[reg].Some? then
        if s.bars[reg].value.kind.Mem64? then None else GetBar(s, reg)
      else if reg > 0 && s.bars[reg - 1].Some? && s.bars[reg - 1].value.kind.Mem64? then GetBar(s, reg - 1)
      else None
  }

  /** The I/O or memory space bit differs. */
  predicate SpaceBitsChanged(s: Space, t: Space)
    requires WellFormed(s) && WellFormed(t)
  {
    CommandBit(s, IO_SPACE) != CommandBit(t, IO_SPACE) || CommandBit(s, MEM_SPACE) != CommandBit(t, MEM_SPACE)
  }

  /** The notification region: its BAR, place and length, and the offset of the capability's data. */
  datatype Region = Region(bar: nat, offset: nat, length: nat, cap: nat)

  predicate RegionOk(n: Region) {
    n.bar < NUM_BARS && DEVICE_START <= n.cap && n.cap + 18 <= SPACE_SIZE
  }

  /** `VirtioPciNotifyCfgInfo` as stored by the device. */
  datatype Info = Info(base: nat, length: nat, multiplier: nat)

  function InfoFor(n: Region, s: Space, address: nat): Info
    requires RegionOk(n) && WellFormed(s)
  {
    Info(address + n.offset, n.length, Val(Dword(s.regs, n.cap + 14)))
  }

  /** `on_bar_changed`. */
  function OnBarChanged(n: Region, s: Space, bar: Bar, info: Option<Info>): Option<Info>
    requires RegionOk(n) && WellFormed(s)
  {
    if bar.index != n.bar || bar.address.None? then info else Some(InfoFor(n, s, bar.address.value))
  }

  /** `on_space_changed`. */
  function OnSpaceChanged(n: Region, s: Space, info: Option<Info>): Option<Info>
    requires RegionOk(n) && BarTable(s)
  {
    match GetBar(s, n.bar)
    case None => info
    case Some(bar) => if bar.address.Some? then Some(InfoFor(n, s, bar.address.value)) else info
  }

  /** The BAR and space-bit part of `write_config`, with its early return. */
  function AfterWrite(n: Region, before: Space, after: Space, offset: nat, info: Option<Info>): Option<Info>
    requires RegionOk(n) && WellFormed(before) && BarTable(after)
  {
    match BarUpdateForWrite(after, offset)
    case Some(bar) => OnBarChanged(n, after, bar, info)
    case None => if SpaceBitsChanged(before, after) then OnSpaceChanged(n, after, info) else info
  }

  datatype Device = Device(space: Space, info: Option<Info>)

  function Step(n: Region, d: Device, offset: nat, data: Bytes): (r: Device)
    requires RegionOk(n) && BarTable(d.space)
    ensures BarTable(r.space)
  {
    var t := GuestWrite(d.space, offset, data);
    if Accepted(offset, |data|) then Device(t, AfterWrite(n, d.space, t, offset, d.info)) else d
  }

  function Run(n: Region, d: Device, run: seq<Access>): (r: Device)
    requires RegionOk(n) && BarTable(d.space)
    ensures BarTable(r.space)
    decreases |run|
  {
    if run == [] then d else Run(n, Step(n, d, run[0].offset, run[0].data), run[1..])
  }

  /** Whenever the notification BAR is decoded, the stored base is its current address plus the region offset. */
  predicate Coherent(n: Region, d: Device)
    requires RegionOk(n) && BarTable(d.space)
  {
    match GetBar(d.space, n.bar)
    case None => true
    case Some(bar) =>
      && bar.address.Some?
      && d.info == Some(Info(bar.address.value + n.offset, n.length, Val(Dword(d.space.regs, n.cap + 14))))
  }

  /** The multiplier register is read-only. */
  predicate MultiplierFixed(n: Region, s: Space)
    requires RegionOk(n) && WellFormed(s)
  {
    forall i :: n.cap + 14 <= i < n.cap + 18 ==> s.writable[i] == ZERO_BYTE
  }

  /** No store changes the low register of the BAR without an event: it is not 64-bit, or its low half is constant. */
  predicate Prompt(bar: Bar) {
    !bar.kind.Mem64? || bar.size >= 0x1_0000_0000
  }

  // ---------- preservation ----------

  /** The bytes `GetBar` reads besides the Command register. */
  predicate SameRegisters(s: Space, t: Space, i: nat)
    requires WellFormed(s) && WellFormed(t) && i < NUM_BARS
  {
    s.bars[i].Some? ==>
      && s.regs[BarOffset(i)..BarOffset(i) + 4] == t.regs[BarOffset(i)..BarOffset(i) + 4]
      && (s.bars[i].value.kind.Mem64? && i + 1 < NUM_BARS ==>
            s.regs[BarOffset(i + 1)..BarOffset(i + 1) + 4] == t.regs[BarOffset(i + 1)..BarOffset(i + 1) + 4])
  }

  lemma SliceDword(a: Bytes, b: Bytes, o: nat)
    requires |a| == |b| && o + 4 <= |a| && a[o..o + 4] == b[o..o + 4]
    ensures Dword(a, o) == Dword(b, o)
  {
    assert forall i :: o <= i < o + 4 ==> a[i] == a[o..o + 4][i - o] && b[i] == b[o..o + 4][i - o];
  }

  lemma SameDecode(s: Space, t: Space, i: nat)
    requires BarTable(s) && BarTable(t) && t.bars == s.bars && i < NUM_BARS
    requires !SpaceBitsChanged(s, t) && SameRegisters(s, t, i)
    ensures GetBar(t, i) == GetBar(s, i)
  {
    if s.bars[i].Some? {
      SliceDword(s.regs, t.regs, BarOffset(i));
      if s.bars[i].value.kind.Mem64? {
        SliceDword(s.regs, t.regs, BarOffset(i + 1));
      }
    }
  }

  /** An accepted write changes bytes of one dword only. */
  lemma OneDword(s: Space, offset: nat, data: Bytes, o: nat)
    requires WellFormed(s) && Accepted(offset, |data|) && o % 4 == 0 && o + 4 <= SPACE_SIZE && offset / 4 * 4 != o
    ensures GuestWrite(s, offset, data).regs[o..o + 4] == s.regs[o..o + 4]
  {
    AcceptedInOneDword(offset, |data|);
    var t := GuestWrite(s, offset, data);
    assert forall j :: o <= j < o + 4 ==> t.regs[j] == s.regs[j];
  }

  lemma CommandUntouched(s: Space, offset: nat, data: Bytes)
    requires WellFormed(s) && Accepted(offset, |data|) && offset / 4 * 4 != COMMAND
    ensures !SpaceBitsChanged(s, GuestWrite(s, offset, data))
  {
    OneDword(s, offset, data, COMMAND);
    var t := GuestWrite(s, offset, data);
    assert t.regs[COMMAND] == t.regs[COMMAND..COMMAND + 4][0] && s.regs[COMMAND] == s.regs[COMMAND..COMMAND + 4][0];
  }

  /** A constant low register: all its bits are read-only. */
  lemma ConstantLow(s: Space, i: nat, offset: nat, data: Bytes)
    requires BarsInvariant(s) && i < NUM_BARS && s.bars[i].Some?
    requires s.bars[i].value.kind.Mem64? && s.bars[i].value.size >= 0x1_0000_0000
    requires Accepted(offset, |data|)
    ensures GuestWrite(s, offset, data).regs[BarOffset(i)..BarOffset(i) + 4] == s.regs[BarOffset(i)..BarOffset(i) + 4]
  {
    hide BarRegisters, GuestWrite, Pow2;
    var k := LargeExponent(s, i);
    var o, t := BarOffset(i), GuestWrite(s, offset, data);
    GuestWriteFrame(s, offset, data);
    forall b | o <= b < o + 4 ensures t.regs[b] == s.regs[b] {
      ReadOnlyLowByte(s, i, s.bars[i].value, k, b);
      ReadOnlyByte(s, t, b);
    }
  }

  lemma LargeExponent(s: Space, i: nat) returns (k: nat)
    requires BarsInvariant(s) && i < NUM_BARS && s.bars[i].Some? && s.bars[i].value.size >= 0x1_0000_0000
    ensures k >= 32 && BarRegisters(s, i, s.bars[i].value, k)
  {
    assert BarInvariant(s, i);
    k :| 4 <= k <= 38 && BarRegisters(s, i, s.bars[i].value, k);
    hide MaskFrom, FlagsBelow;
    Pow32();
    ExponentRange(k, 32, k);
  }

  lemma ReadOnlyLowByte(s: Space, i: nat, bar: Bar, k: nat, b: nat)
    requires WellFormed(s) && i < NUM_BARS && BarRegisters(s, i, bar, k) && k >= 32 && BarOffset(i) <= b < BarOffset(i) + 4
    ensures s.writable[b] == ZERO_BYTE
  {
    forall j | 0 <= j < 8 ensures !s.writable[b][j] {
      var n := 8 * (b - BarOffset(i)) + j;
      BarBitAt(s.writable, i, bar.kind, n);
      assert n / 8 == b - BarOffset(i) && n % 8 == j;
    }
  }

  /** One configuration write keeps the cache coherent. */
  lemma StepKeeps(n: Region, d: Device, offset: nat, data: Bytes)
    requires RegionOk(n) && BarsInvariant(d.space) && MultiplierFixed(n, d.space) && Coherent(n, d)
    requires d.space.bars[n.bar].Some? ==> Prompt(d.space.bars[n.bar].value)
    ensures Coherent(n, Step(n, d, offset, data))
  {
    if Accepted(offset, |data|) {
      var s, t := d.space, GuestWrite(d.space, offset, data);
      MultiplierSame(n, s, offset, data);
      if GetBar(t, n.bar).Some? {
        Refreshed(n, d, offset, data);
      }
    }
  }

  lemma MultiplierSame(n: Region, s: Space, offset: nat, data: Bytes)
    requires RegionOk(n) && WellFormed(s) && MultiplierFixed(n, s) && Accepted(offset, |data|)
    ensures Dword(GuestWrite(s, offset, data).regs, n.cap + 14) == Dword(s.regs, n.cap + 14)
  {
    var t, o := GuestWrite(s, offset, data), n.cap + 14;
    GuestWriteFrame(s, offset, data);
    forall b | o <= b < o + 4 ensures t.regs[b] == s.regs[b] {
      ReadOnlyByte(s, t, b);
    }
  }

  /** The BAR is decoded as before and nobody reports it, or its own event reports it, or a space change does. */
  predicate Noticed(n: Region, s: Space, t: Space, offset: nat)
    requires RegionOk(n) && BarTable(s) && BarTable(t)
  {
    var u := BarUpdateForWrite(t, offset);
    || (GetBar(t, n.bar) == GetBar(s, n.bar) && (u.Some? ==> u.value.index != n.bar))
    || (u == GetBar(t, n.bar) && (u.Some? ==> u.value.index == n.bar))
    || (u.None? && SpaceBitsChanged(s, t))
  }

  lemma WriteNoticed(n: Region, s: Space, offset: nat, data: Bytes)
    requires RegionOk(n) && BarTable(s) && BarsInvariant(s) && Accepted(offset, |data|) && s.bars[n.bar].Some?
    requires Prompt(s.bars[n.bar].value) && GetBar(GuestWrite(s, offset, data), n.bar).Some?
    ensures Noticed(n, s, GuestWrite(s, offset, data), offset)
  {
    hide GetBar, BarUpdateForWrite, SpaceBitsChanged, BarsInvariant;
    var t := GuestWrite(s, offset, data);
    StillDecoded(t, n.bar);
    if offset / 4 * 4 == COMMAND {
      NoBarEvent(t, offset);
      if !SpaceBitsChanged(s, t) {
        UntouchedRegisters(s, offset, data, n.bar);
        SameDecode(s, t, n.bar);
      }
    } else {
      CommandUntouched(s, offset, data);
      BarWriteNoticed(n, s, offset, data);
    }
  }

  lemma BarWriteNoticed(n: Region, s: Space, offset: nat, data: Bytes)
    requires RegionOk(n) && BarTable(s) && BarsInvariant(s) && Accepted(offset, |data|) && s.bars[n.bar].Some?
    requires Prompt(s.bars[n.bar].value) && GetBar(GuestWrite(s, offset, data), n.bar).Some?
    requires !SpaceBitsChanged(s, GuestWrite(s, offset, data))
    ensures Noticed(n, s, GuestWrite(s, offset, data), offset)
  {
    hide GetBar, BarUpdateForWrite, SpaceBitsChanged, BarsInvariant;
    var t := GuestWrite(s, offset, data);
    StillDecoded(t, n.bar);
    if OwnRegister(s, n.bar, offset) {
      OwnEvent(s, t, n.bar, offset);
    } else if offset / 4 * 4 == BarOffset(n.bar) {
      UpperFree(s, n.bar);
      ConstantLow(s, n.bar, offset, data);
      OneDword(s, offset, data, BarOffset(n.bar + 1));
      SameDecode(s, t, n.bar);
      LowerHalfSilent(s, t, n.bar, offset);
    } else {
      UntouchedRegisters(s, offset, data, n.bar);
      SameDecode(s, t, n.bar);
      OtherEvent(n, s, t, offset);
    }
  }

  /** If the BAR is decoded after the write, either it was decoded the same before or an event refreshed the cache. */
  lemma Refreshed(n: Region, d: Device, offset: nat, data: Bytes)
    requires RegionOk(n) && BarTable(d.space) && BarsInvariant(d.space) && Accepted(offset, |data|) && Coherent(n, d)
    requires d.space.bars[n.bar].Some? ==> Prompt(d.space.bars[n.bar].value)
    requires var t := GuestWrite(d.space, offset, data);
             Dword(t.regs, n.cap + 14) == Dword(d.space.regs, n.cap + 14) && GetBar(t, n.bar).Some?
    ensures Coherent(n, Step(n, d, offset, data))
  {
    hide GetBar, BarUpdateForWrite, SpaceBitsChanged, BarsInvariant, Val, Dword;
    StillDecoded(GuestWrite(d.space, offset, data), n.bar);
    WriteNoticed(n, d.space, offset, data);
  }

  lemma StillDecoded(t: Space, i: nat)
    requires BarTable(t) && i < NUM_BARS && GetBar(t, i).Some?
    ensures t.bars[i].Some? && GetBar(t, i).value.address.Some? && GetBar(t, i).value.index == t.bars[i].value.index
  {
  }

  lemma NoBarEvent(t: Space, offset: nat)
    requires BarTable(t) && offset / 4 * 4 == COMMAND
    ensures BarUpdateForWrite(t, offset).None?
  {
  }

  /** The register whose write reports BAR `i`: its only one, or the upper one of a 64-bit BAR. */
  predicate OwnRegister(s: Space, i: nat, offset: nat)
    requires WellFormed(s) && i < NUM_BARS && s.bars[i].Some?
  {
    offset / 4 * 4 == if s.bars[i].value.kind.Mem64? then BarOffset(i + 1) else BarOffset(i)
  }

  lemma OwnEvent(s: Space, t: Space, i: nat, offset: nat)
    requires BarsInvariant(s) && BarTable(t) && t.bars == s.bars && i < NUM_BARS && s.bars[i].Some?
    requires OwnRegister(s, i, offset)
    ensures BarUpdateForWrite(t, offset) == GetBar(t, i) && s.bars[i].value.index == i
  {
    hide GetBar;
    assert BarInvariant(s, i);
    if s.bars[i].value.kind.Mem64? {
      UpperFree(s, i);
    }
  }

  lemma LowerHalfSilent(s: Space, t: Space, i: nat, offset: nat)
    requires BarTable(t) && t.bars == s.bars && i < NUM_BARS && s.bars[i].Some? && s.bars[i].value.kind.Mem64?
    requires offset / 4 * 4 == BarOffset(i)
    ensures BarUpdateForWrite(t, offset).None?
  {
  }

  lemma UntouchedRegisters(s: Space, offset: nat, data: Bytes, i: nat)
    requires BarTable(s) && Accepted(offset, |data|) && i < NUM_BARS && offset / 4 * 4 != BarOffset(i)
    requires s.bars[i].Some? && s.bars[i].value.kind.Mem64? ==> offset / 4 * 4 != BarOffset(i + 1)
    ensures SameRegisters(s, GuestWrite(s, offset, data), i)
  {
    OneDword(s, offset, data, BarOffset(i));
    if s.bars[i].Some? && s.bars[i].value.kind.Mem64? {
      OneDword(s, offset, data, BarOffset(i + 1));
    }
  }

  /** A write to somebody else's register reports somebody else's BAR. */
  lemma OtherEvent(n: Region, s: Space, t: Space, offset: nat)
    requires RegionOk(n) && BarsInvariant(s) && BarTable(t) && t.bars == s.bars && s.bars[n.bar].Some?
    requires offset / 4 * 4 != BarOffset(n.bar)
    requires s.bars[n.bar].value.kind.Mem64? ==> offset / 4 * 4 != BarOffset(n.bar + 1)
    ensures BarUpdateForWrite(t, offset).Some? ==> BarUpdateForWrite(t, offset).value.index != n.bar
  {
    hide GetBar, BarRegisters, BarInvariant;
    var u := BarUpdateForWrite(t, offset);
    if u.Some? {
      var reg := (offset - BAR0) / 4;
      var i := if s.bars[reg].Some? then reg else reg - 1;
      StillDecoded(t, i);
      OwnIndex(s, i);
    }
  }

  lemma OwnIndex(s: Space, i: nat)
    requires BarsInvariant(s) && i < NUM_BARS && s.bars[i].Some?
    ensures s.bars[i].value.index == i
  {
    assert BarInvariant(s, i);
  }

  lemma {:induction false} RunKeeps(n: Region, d: Device, run: seq<Access>)
    requires RegionOk(n) && BarsInvariant(d.space) && MultiplierFixed(n, d.space) && Coherent(n, d)
    requires d.space.bars[n.bar].Some? ==> Prompt(d.space.bars[n.bar].value)
    ensures Coherent(n, Run(n, d, run))
    decreases |run|
  {
    hide Coherent, AfterWrite;
    if run != [] {
      var a := run[0];
      StepKeeps(n, d, a.offset, a.data);
      GuestWriteFrame(d.space, a.offset, a.data);
      BarsInvariantGuest(d.space, GuestWrite(d.space, a.offset, a.data));
      RunKeeps(n, Step(n, d, a.offset, a.data), run[1..]);
    }
  }

  // ---------- the 64-bit exception ----------

  const ZERO_DWORD: Bytes := [ZERO_BYTE, ZERO_BYTE, ZERO_BYTE, ZERO_BYTE]

  /** The guest can turn memory space on, as `add_bar` arranges. */
  predicate MemWritable(s: Space)
    requires WellFormed(s)
  {
    s.writable[COMMAND][MEM_SPACE]
  }

  lemma DwordWritten(s: Space, o: nat, data: Bytes, j: nat)
    requires WellFormed(s) && o % 4 == 0 && o + 4 <= SPACE_SIZE && |data| == 4 && j < 32
    ensures Dword(GuestWrite(s, o, data).regs, o)[j] ==
            if Dword(s.writable, o)[j] then Dword(data, 0)[j] else Dword(s.regs, o)[j]
  {
    DwordBit(GuestWrite(s, o, data).regs, o, j);
    DwordBit(s.writable, o, j);
    DwordBit(s.regs, o, j);
    DwordBit(data, 0, j);
  }

  /** Memory on, low half to zero, high half to ones, then the low half to ones: the last write goes unreported. */
  function StaleRun(s: Space, i: nat): seq<Access>
    requires WellFormed(s)
  {
    [Access(COMMAND, [s.regs[COMMAND][MEM_SPACE := true]]),
     Access(BarOffset(i), ZERO_DWORD), Access(BarOffset(i + 1), ONES), Access(BarOffset(i), ONES)]
  }

  lemma {:induction false} StaleRunBreaks(n: Region, d: Device)
    requires RegionOk(n) && BarsInvariant(d.space) && MemWritable(d.space)
    requires d.space.bars[n.bar].Some? && !Prompt(d.space.bars[n.bar].value)
    ensures !Coherent(n, Run(n, d, StaleRun(d.space, n.bar)))
  {
    var i, run := n.bar, StaleRun(d.space, n.bar);
    var d1 := Step(n, d, COMMAND, run[0].data);
    var d2 := Step(n, d1, BarOffset(i), ZERO_DWORD);
    var d3 := Step(n, d2, BarOffset(i + 1), ONES);
    var d4 := Step(n, d3, BarOffset(i), ONES);
    assert Run(n, d, run) == d4 by {
      hide Step;
      assert run[1..][1..][1..][1..] == [];
      assert Run(n, d, run) == Run(n, d1, run[1..]);
      assert run[1..][0] == run[1] && Run(n, d1, run[1..]) == Run(n, d2, run[1..][1..]);
      assert run[1..][1..][0] == run[2] && Run(n, d2, run[1..][1..]) == Run(n, d3, run[1..][1..][1..]);
      assert run[1..][1..][1..][0] == run[3] && Run(n, d3, run[1..][1..][1..]) == Run(n, d4, []);
    }
    StaleStates(n, d, d1, d2, d3, d4);
  }

  lemma StaleStates(n: Region, d: Device, d1: Device, d2: Device, d3: Device, d4: Device)
    requires RegionOk(n) && BarsInvariant(d.space) && MemWritable(d.space)
    requires d.space.bars[n.bar].Some? && !Prompt(d.space.bars[n.bar].value)
    requires d1 == Step(n, d, COMMAND, [d.space.regs[COMMAND][MEM_SPACE := true]])
    requires d2 == Step(n, d1, BarOffset(n.bar), ZERO_DWORD)
    requires d3 == Step(n, d2, BarOffset(n.bar + 1), ONES)
    requires d4 == Step(n, d3, BarOffset(n.bar), ONES)
    ensures !Coherent(n, d4)
  {
    hide AfterWrite, GetBar, BarsInvariant;
    var i := n.bar;
    LowWritableBit(d.space, i);
    assert Accepted(COMMAND, 1) && Accepted(BarOffset(i), 4) && Accepted(BarOffset(i + 1), 4);
    StaleSpaces(d.space, i);
    var s3, s4 := d3.space, d4.space;
    HighDecodes(s3, i);
    HighDecodes(s4, i);
    Distinct(DecodedBits(s3, i, d.space.bars[i].value.kind), DecodedBits(s4, i, d.space.bars[i].value.kind), 31);
    LastWrites(n, d2, d3, d4);
  }

  /** The four spaces of the stale run: bit 31 of the address flips in the last step, bit 63 stays set. */
  lemma StaleSpaces(s0: Space, i: nat)
    requires WellFormed(s0) && MemWritable(s0) && i + 1 < NUM_BARS
    requires Dword(s0.writable, BarOffset(i))[31] && Dword(s0.writable, BarOffset(i + 1))[31]
    ensures var s1 := GuestWrite(s0, COMMAND, [s0.regs[COMMAND][MEM_SPACE := true]]);
            var s2 := GuestWrite(s1, BarOffset(i), ZERO_DWORD);
            var s3 := GuestWrite(s2, BarOffset(i + 1), ONES);
            var s4 := GuestWrite(s3, BarOffset(i), ONES);
            && CommandBit(s3, MEM_SPACE) && CommandBit(s4, MEM_SPACE) && !SpaceBitsChanged(s3, s4)
            && Dword(s3.regs, BarOffset(i + 1))[31] && Dword(s4.regs, BarOffset(i + 1))[31]
            && !Dword(s3.regs, BarOffset(i))[31] && Dword(s4.regs, BarOffset(i))[31]
  {
    hide GuestWrite, Dword, SpaceBitsChanged;
    var lo, hi := BarOffset(i), BarOffset(i + 1);
    var s1 := GuestWrite(s0, COMMAND, [s0.regs[COMMAND][MEM_SPACE := true]]);
    MemoryOn(s0);
    var s2 := GuestWrite(s1, lo, ZERO_DWORD);
    MemoryStays(s1, lo, ZERO_DWORD);
    DwordWritten(s1, lo, ZERO_DWORD, 31);
    var s3 := GuestWrite(s2, hi, ONES);
    MemoryStays(s2, hi, ONES);
    DwordWritten(s2, hi, ONES, 31);
    Apart(s2, hi, ONES, lo);
    MemoryStays(s3, lo, ONES);
    DwordWritten(s3, lo, ONES, 31);
    Apart(s3, lo, ONES, hi);
    TopBits();
  }

  lemma TopBits()
    ensures Dword(ONES, 0)[31] && !Dword(ZERO_DWORD, 0)[31]
  {
  }

  lemma MemoryOn(s: Space)
    requires WellFormed(s) && MemWritable(s)
    ensures var t := GuestWrite(s, COMMAND, [s.regs[COMMAND][MEM_SPACE := true]]);
            CommandBit(t, MEM_SPACE) && t.writable == s.writable
  {
    var t := GuestWrite(s, COMMAND, [s.regs[COMMAND][MEM_SPACE := true]]);
    assert t.regs[COMMAND][MEM_SPACE];
  }

  lemma MemoryStays(s: Space, offset: nat, data: Bytes)
    requires WellFormed(s) && Accepted(offset, |data|) && offset / 4 * 4 != COMMAND && CommandBit(s, MEM_SPACE)
    ensures var t := GuestWrite(s, offset, data);
            CommandBit(t, MEM_SPACE) && !SpaceBitsChanged(s, t) && t.writable == s.writable
  {
    CommandUntouched(s, offset, data);
  }

  /** After the upper half the stored base is the decoded one; after the lower half it is stale. */
  lemma LastWrites(n: Region, d2: Device, d3: Device, d4: Device)
    requires RegionOk(n) && BarTable(d2.space) && BarTable(d3.space) && n.bar + 1 < NUM_BARS
    requires d3 == Step(n, d2, BarOffset(n.bar + 1), ONES) && d4 == Step(n, d3, BarOffset(n.bar), ONES)
    requires d2.space.bars[n.bar].Some? && d2.space.bars[n.bar].value.kind.Mem64? && d2.space.bars[n.bar].value.index == n.bar
    requires d2.space.bars[n.bar + 1].None? && !SpaceBitsChanged(d3.space, d4.space)
    requires d3.space.bars == d2.space.bars && d4.space.bars == d2.space.bars
    requires GetBar(d3.space, n.bar).Some? && GetBar(d4.space, n.bar).Some?
    requires GetBar(d3.space, n.bar).value.address != GetBar(d4.space, n.bar).value.address
    ensures !Coherent(n, d4)
  {
    hide GetBar, GuestWrite, SpaceBitsChanged;
    StillDecoded(d3.space, n.bar);
    StillDecoded(d4.space, n.bar);
    assert BarUpdateForWrite(d3.space, BarOffset(n.bar + 1)) == GetBar(d3.space, n.bar);
    assert BarUpdateForWrite(d4.space, BarOffset(n.bar)).None?;
  }

  lemma LowWritableBit(s: Space, i: nat)
    requires BarsInvariant(s) && i < NUM_BARS && s.bars[i].Some? && !Prompt(s.bars[i].value)
    ensures i + 1 < NUM_BARS && s.bars[i].value.index == i && s.bars[i + 1].None?
    ensures Dword(s.writable, BarOffset(i))[31] && Dword(s.writable, BarOffset(i + 1))[31]
  {
    assert BarInvariant(s, i);
    var bar := s.bars[i].value;
    var k :| 4 <= k <= 38 && BarRegisters(s, i, bar, k);
    UpperFree(s, i);
    Pow32();
    if k >= 32 {
      Pow2Monotone(32, k);
    }
    var w := BarBits(s.writable, i, bar.kind);
    assert w[31] == Dword(s.writable, BarOffset(i))[31] && w[63] == Dword(s.writable, BarOffset(i + 1))[31];
  }

  lemma Apart(s: Space, o: nat, data: Bytes, other: nat)
    requires WellFormed(s) && o % 4 == 0 && o + 4 <= SPACE_SIZE && |data| == 4
    requires other % 4 == 0 && other + 4 <= SPACE_SIZE && other != o
    ensures Dword(GuestWrite(s, o, data).regs, other) == Dword(s.regs, other)
  {
    OneDword(s, o, data, other);
    SliceDword(s.regs, GuestWrite(s, o, data).regs, other);
  }

  /** With the top address bit set a 64-bit BAR is decoded. */
  lemma HighDecodes(s: Space, i: nat)
    requires BarTable(s) && i + 1 < NUM_BARS && s.bars[i].Some? && s.bars[i].value.kind.Mem64?
    requires CommandBit(s, MEM_SPACE) && Dword(s.regs, BarOffset(i + 1))[31]
    ensures GetBar(s, i).Some?
    ensures GetBar(s, i).value.address == Some(Val(DecodedBits(s, i, s.bars[i].value.kind)))
    ensures DecodedBits(s, i, s.bars[i].value.kind)[31] == Dword(s.regs, BarOffset(i))[31]
  {
    var bar := s.bars[i].value;
    var f := DecodedBits(s, i, bar.kind);
    assert f[63];
    Distinct(f, ProbeBits(bar), 63);
    ZerosVal(64);
    Distinct(f, Zeros(64), 63);
  }

  /**
   The stored notification address follows the BAR through every run of configuration
   writes, in whatever order address and enable bits are programmed, if and only if the
   BAR is not a 64-bit one with a writable low half.
   */
  lemma {:induction false} CoherenceIffPrompt(n: Region, d: Device)
    requires RegionOk(n) && BarsInvariant(d.space) && MultiplierFixed(n, d.space) && MemWritable(d.space)
    requires d.space.bars[n.bar].Some? && Coherent(n, d)
    ensures (forall run: seq<Access> :: Coherent(n, Run(n, d, run))) <==> Prompt(d.space.bars[n.bar].value)
  {
    if Prompt(d.space.bars[n.bar].value) {
      forall run: seq<Access> ensures Coherent(n, Run(n, d, run)) {
        RunKeeps(n, d, run);
      }
    } else {
      StaleRunBreaks(n, d);
    }
  }
}
