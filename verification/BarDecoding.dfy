/**
 What a driver sees of a BAR: the size-probe protocol and the decoded address, in
 every state the guest can reach.
 */
module BarDecoding {
  import opened Basics
  import opened Bits
  import opened RegisterBlock
  import opened ConfigSpace
  import opened Bars

  const ONES: Bytes := [ONES_BYTE, ONES_BYTE, ONES_BYTE, ONES_BYTE]

  function BarBytes(kind: BarKind): nat {
    if kind.Mem64? then 8 else 4
  }

  /** Step one of the probe: all ones to every register of the BAR. */
  function WriteOnes(s: Space, i: nat, kind: BarKind): (r: Space)
    requires WellFormed(s) && i < NUM_BARS && (kind.Mem64? ==> i + 1 < NUM_BARS)
    ensures WellFormed(r)
  {
    var low := GuestWrite(s, BarOffset(i), ONES);
    if kind.Mem64? then GuestWrite(low, BarOffset(i + 1), ONES) else low
  }

  /** Step two: read back, clear the flag bits, take the two's complement. */
  function ReadSize(s: Space, i: nat, kind: BarKind): nat
    requires WellFormed(s) && i < NUM_BARS && (kind.Mem64? ==> i + 1 < NUM_BARS)
  {
    Val(Not(DecodedBits(s, i, kind)[..Width(kind)])) + 1
  }

  /** Step three: write the saved register contents back. */
  function WriteBack(s: Space, i: nat, kind: BarKind, saved: Bytes): (r: Space)
    requires WellFormed(s) && i < NUM_BARS && (kind.Mem64? ==> i + 1 < NUM_BARS)
    requires |saved| == BarBytes(kind)
    ensures WellFormed(r)
  {
    var low := GuestWrite(s, BarOffset(i), saved[..4]);
    if kind.Mem64? then GuestWrite(low, BarOffset(i + 1), saved[4..]) else low
  }

  /** Two dword writes side by side are one masked store of eight bytes. */
  lemma AdjacentWrites(s: Space, offset: nat, a: Bytes, b: Bytes)
    requires WellFormed(s) && offset % 4 == 0 && offset + 8 <= SPACE_SIZE && |a| == |b| == 4
    ensures GuestWrite(GuestWrite(s, offset, a), offset + 4, b).regs == Write(s.regs, s.writable, offset, a + b)
  {
  }

  lemma WriteOnesIsOneStore(s: Space, i: nat, kind: BarKind)
    requires WellFormed(s) && i < NUM_BARS && (kind.Mem64? ==> i + 1 < NUM_BARS)
    ensures WriteOnes(s, i, kind) ==
            s.(regs := Write(s.regs, s.writable, BarOffset(i), seq(BarBytes(kind), _ => ONES_BYTE)))
  {
    hide Write;
    if kind.Mem64? {
      AdjacentWrites(s, BarOffset(i), ONES, ONES);
      assert ONES + ONES == seq(8, _ => ONES_BYTE);
    } else {
      assert ONES == seq(4, _ => ONES_BYTE);
    }
  }

  /** After the ones are written, every writable bit reads one and every other bit is unchanged. */
  lemma ProbedBits(s: Space, i: nat, kind: BarKind, j: nat)
    requires WellFormed(s) && i < NUM_BARS && (kind.Mem64? ==> i + 1 < NUM_BARS) && j < Width(kind)
    ensures BarBits(WriteOnes(s, i, kind).regs, i, kind)[j] ==
            (BarBits(s.writable, i, kind)[j] || BarBits(s.regs, i, kind)[j])
  {
    hide BarBits, WriteOnes;
    WriteOnesIsOneStore(s, i, kind);
    BarBitAt(WriteOnes(s, i, kind).regs, i, kind, j);
    BarBitAt(s.writable, i, kind, j);
    BarBitAt(s.regs, i, kind, j);
    OnesStored(s.regs, s.writable, BarOffset(i), BarBytes(kind), BarOffset(i) + j / 8, j % 8);
  }

  /** A store of ones sets exactly the writable bits. */
  lemma OnesStored(regs: Bytes, writable: Bytes, offset: nat, n: nat, b: nat, t: nat)
    requires |regs| == |writable| && offset + n <= |regs| && offset <= b < offset + n && t < 8
    ensures Write(regs, writable, offset, seq(n, _ => ONES_BYTE))[b][t] == (writable[b][t] || regs[b][t])
  {
  }

  lemma BarBitAt(b: Bytes, i: nat, kind: BarKind, j: nat)
    requires |b| == SPACE_SIZE && i < NUM_BARS && (kind.Mem64? ==> i + 1 < NUM_BARS) && j < Width(kind)
    ensures BarBits(b, i, kind)[j] == b[BarOffset(i) + j / 8][j % 8]
  {
    if j < 32 {
      DwordBit(b, BarOffset(i), j);
    } else {
      DwordBit(b, BarOffset(i + 1), j - 32);
      assert (j - 32) / 8 == j / 8 - 4 && (j - 32) % 8 == j % 8;
    }
  }

  lemma DecodedFromBarBits(s: Space, i: nat, kind: BarKind, j: nat)
    requires WellFormed(s) && i < NUM_BARS && (kind.Mem64? ==> i + 1 < NUM_BARS) && j < Width(kind)
    ensures DecodedBits(s, i, kind)[j] == (j >= FlagBits(kind) && BarBits(s.regs, i, kind)[j])
  {
  }

  /** The probe reads exactly the BAR size and writing the saved value back undoes it. */
  lemma ProbeRoundTrip(s: Space, i: nat)
    requires BarsInvariant(s) && i < NUM_BARS && s.bars[i].Some?
    ensures var kind := s.bars[i].value.kind;
            var probed := WriteOnes(s, i, kind);
            && ReadSize(probed, i, kind) == s.bars[i].value.size
            && WriteBack(probed, i, kind, s.regs[BarOffset(i)..BarOffset(i) + BarBytes(kind)]) == s
  {
    var bar := s.bars[i].value;
    assert BarInvariant(s, i);
    var k :| 4 <= k <= 38 && BarRegisters(s, i, bar, k);
    hide BarRegisters, WriteOnes, WriteBack, ReadSize, BarsInvariant;
    ProbeReadsSize(s, i, bar, k);
    ProbeRestores(s, i, bar.kind);
  }

  lemma ProbeReadsSize(s: Space, i: nat, bar: Bar, k: nat)
    requires WellFormed(s) && i < NUM_BARS && BarRegisters(s, i, bar, k)
    ensures ReadSize(WriteOnes(s, i, bar.kind), i, bar.kind) == bar.size
  {
    hide WriteOnes, DecodedBits, BarBits, MaskFrom, FlagsBelow;
    var w := Width(bar.kind);
    forall j | 0 <= j < w ensures DecodedBits(WriteOnes(s, i, bar.kind), i, bar.kind)[j] == (j >= k) {
      ProbedDecode(s, i, bar, k, j);
    }
    NotAbove(DecodedBits(WriteOnes(s, i, bar.kind), i, bar.kind)[..w], k);
    ZeroExtend(Ones(k), w - k);
    OnesVal(k);
  }

  /** The complement of ones from `k` up is ones below `k`. */
  lemma NotAbove(f: Bits, k: nat)
    requires k <= |f| && forall j :: 0 <= j < |f| ==> f[j] == (j >= k)
    ensures Not(f) == Ones(k) + Zeros(|f| - k)
  {
  }

  lemma ProbedDecode(s: Space, i: nat, bar: Bar, k: nat, j: nat)
    requires WellFormed(s) && i < NUM_BARS && BarRegisters(s, i, bar, k) && j < Width(bar.kind)
    ensures DecodedBits(WriteOnes(s, i, bar.kind), i, bar.kind)[j] == (j >= k)
  {
    ProbedBits(s, i, bar.kind, j);
    DecodedFromBarBits(WriteOnes(s, i, bar.kind), i, bar.kind, j);
  }

  lemma ProbeRestores(s: Space, i: nat, kind: BarKind)
    requires WellFormed(s) && i < NUM_BARS && (kind.Mem64? ==> i + 1 < NUM_BARS)
    ensures WriteBack(WriteOnes(s, i, kind), i, kind, s.regs[BarOffset(i)..BarOffset(i) + BarBytes(kind)]) == s
  {
    var o, n := BarOffset(i), BarBytes(kind);
    var probed := WriteOnes(s, i, kind);
    var saved := s.regs[o..o + n];
    WriteOnesIsOneStore(s, i, kind);
    WriteKeepsReadOnly(s.regs, s.writable, o, seq(n, _ => ONES_BYTE));
    WriteRestores(probed.regs, s.regs, s.writable, o, n);
    if kind.Mem64? {
      AdjacentWrites(probed, o, saved[..4], saved[4..]);
      assert saved[..4] + saved[4..] == saved;
    } else {
      assert saved[..4] == saved;
    }
  }

  // ---------- programming an address ----------

  /** A full store takes every writable bit from the data. */
  lemma StoredBit(regs: Bytes, writable: Bytes, offset: nat, data: Bytes, b: nat, t: nat)
    requires |regs| == |writable| && offset + |data| <= |regs| && offset <= b < offset + |data| && t < 8
    ensures Write(regs, writable, offset, data)[b][t] == if writable[b][t] then data[b - offset][t] else regs[b][t]
  {
  }

  lemma WriteBackIsOneStore(s: Space, i: nat, kind: BarKind, data: Bytes)
    requires WellFormed(s) && i < NUM_BARS && (kind.Mem64? ==> i + 1 < NUM_BARS) && |data| == BarBytes(kind)
    ensures WriteBack(s, i, kind, data) == s.(regs := Write(s.regs, s.writable, BarOffset(i), data))
  {
    hide Write;
    if kind.Mem64? {
      AdjacentWrites(s, BarOffset(i), data[..4], data[4..]);
      assert data[..4] + data[4..] == data;
    } else {
      assert data[..4] == data;
    }
  }

  /** Bit `j` of little-endian bytes. */
  function DataBit(data: Bytes, j: nat): bool
    requires j < 8 * |data|
  {
    data[j / 8][j % 8]
  }

  /**
   Whatever a driver writes to the registers of a BAR of size `2^k`, the decoded address is
   the written value with its low `k` bits cleared.
   */
  lemma ProgrammedBits(s: Space, i: nat, data: Bytes, k: nat, j: nat)
    requires WellFormed(s) && i < NUM_BARS && s.bars[i].Some? && BarRegisters(s, i, s.bars[i].value, k)
    requires |data| == BarBytes(s.bars[i].value.kind) && j < Width(s.bars[i].value.kind)
    ensures var kind := s.bars[i].value.kind;
            DecodedBits(WriteBack(s, i, kind, data), i, kind)[j] == (j >= k && DataBit(data, j))
  {
    hide WriteBack, DecodedBits, BarBits;
    var bar := s.bars[i].value;
    WriteBackIsOneStore(s, i, bar.kind, data);
    var t := WriteBack(s, i, bar.kind, data);
    DecodedFromBarBits(t, i, bar.kind, j);
    BarBitAt(t.regs, i, bar.kind, j);
    BarBitAt(s.regs, i, bar.kind, j);
    BarBitAt(s.writable, i, bar.kind, j);
    StoredBit(s.regs, s.writable, BarOffset(i), data, BarOffset(i) + j / 8, j % 8);
    FlagsAreLow(bar.kind, k, j);
  }

  /** Flags sit in the flag bits only, and those are below the size. */
  lemma FlagsAreLow(kind: BarKind, k: nat, j: nat)
    ensures j < 32 && KindBits(kind)[j] ==> j < FlagBits(kind)
  {
  }

  /** The register bytes of an address as wide as the BAR's registers. */
  function AddressBytes(f: Bits): (b: Bytes)
    requires |f| == 32 || |f| == 64
    ensures 8 * |b| == |f|
  {
    if |f| == 32 then DwordBytes(f) else DwordBytes(f[..32]) + DwordBytes(f[32..])
  }

  lemma AddressBit(f: Bits, j: nat)
    requires (|f| == 32 || |f| == 64) && j < |f|
    ensures DataBit(AddressBytes(f), j) == f[j]
  {
    if |f| == 32 {
      DwordBit(DwordBytes(f), 0, j);
    } else if j < 32 {
      DwordBit(DwordBytes(f[..32]), 0, j);
    } else {
      DwordBit(DwordBytes(f[32..]), 0, j - 32);
      assert j / 8 == (j - 32) / 8 + 4 && j % 8 == (j - 32) % 8;
    }
  }

  /**
   Programming an aligned non-zero address into an enabled BAR of any kind, 64-bit ones through both
   registers: `get_bar` decodes exactly that address, if and only if it is not the probe value.
   */
  lemma {:induction false} ProgrammedAddress(s: Space, i: nat, f: Bits)
    requires BarTable(s) && BarsInvariant(s) && i < NUM_BARS && s.bars[i].Some?
    requires s.regs[0x04][EnableBit(s.bars[i].value.kind)] && |f| == Width(s.bars[i].value.kind)
    requires Val(f) > 0 && Val(f) % s.bars[i].value.size == 0
    ensures var bar := s.bars[i].value;
            var t := WriteBack(s, i, bar.kind, AddressBytes(f));
            && BarTable(t)
            && GetBar(t, i) == if Val(f) == Val(ProbeBits(bar)) then None else Some(bar.(address := Some(Val(f))))
  {
    hide WriteBack, DecodedBits, ProbeBits, BarsInvariant, BarRegisters, AddressBytes, Val;
    var bar := s.bars[i].value;
    var t := WriteBack(s, i, bar.kind, AddressBytes(f));
    WriteBackIsOneStore(s, i, bar.kind, AddressBytes(f));
    SameCommand(s, i, AddressBytes(f));
    DecodedIsWritten(s, i, f);
    ZeroExtend(f, 64 - |f|);
    DecodedIff(t, i);
  }

  lemma SameCommand(s: Space, i: nat, data: Bytes)
    requires WellFormed(s) && BarOffset(i) + |data| <= SPACE_SIZE
    ensures Word(Write(s.regs, s.writable, BarOffset(i), data), COMMAND) == Word(s.regs, COMMAND)
    ensures Write(s.regs, s.writable, BarOffset(i), data)[0x04] == s.regs[0x04]
  {
  }

  /** An initial address given to `add_bar` is the address in the registers. */
  lemma InitialAddress(s: Space, bar: Bar)
    requires WellFormed(s) && BarArgument(bar) && AddBar(s, bar).Ok? && bar.address.Some?
    ensures bar.kind.Mem64? ==> bar.index + 1 < NUM_BARS
    ensures Val(DecodedBits(PlaceBar(s, bar), bar.index, bar.kind)) == bar.address.value
  {
    hide PlaceBar, CheckBar, SizeOk, DecodedBits, LowRegister, LowWritable, SizeMask, AddressBits, BarBits, KindBits, BaseMask;
    CheckedBar(s, bar);
    PlaceBarEffect(s, bar);
    var k := SizeExponent(bar);
    DecodedInitial(PlaceBar(s, bar), bar, k);
  }

  lemma {:induction false} DecodedInitial(t: Space, bar: Bar, k: nat)
    requires WellFormed(t) && BarArgument(bar) && bar.address.Some? && Exponent(bar, k) && ValidateRegion(bar).Ok?
    requires bar.kind.Mem64? ==> bar.index + 1 < NUM_BARS
    requires BarBits(t.regs, bar.index, bar.kind) == LowRegister(bar) + (if bar.kind.Mem64? then AddressBits(bar)[32..] else [])
    ensures Val(DecodedBits(t, bar.index, bar.kind)) == bar.address.value
  {
    hide DecodedBits, LowRegister, AddressBits, BarBits, KindBits, BaseMask;
    var a, f := bar.address.value, DecodedBits(t, bar.index, bar.kind);
    AlignedBits(a, k, 64);
    if !bar.kind.Mem64? {
      Pow32();
      SmallBits(a, 32, 64);
    }
    forall j | 0 <= j < 64 ensures f[j] == ToBits(a, 64)[j] {
      InitialBit(t, bar, k, j);
    }
    assert f == ToBits(a, 64);
    Pow64();
    ValToBits(a, 64);
  }

  lemma InitialBit(t: Space, bar: Bar, k: nat, j: nat)
    requires WellFormed(t) && BarArgument(bar) && bar.address.Some? && Exponent(bar, k) && j < 64
    requires bar.kind.Mem64? ==> bar.index + 1 < NUM_BARS
    requires BarBits(t.regs, bar.index, bar.kind) == LowRegister(bar) + (if bar.kind.Mem64? then AddressBits(bar)[32..] else [])
    requires forall i :: 0 <= i < k ==> !ToBits(bar.address.value, 64)[i]
    requires !bar.kind.Mem64? ==> ToBits(bar.address.value, 64) == ToBits(bar.address.value, 32) + Zeros(32)
    ensures DecodedBits(t, bar.index, bar.kind)[j] == ToBits(bar.address.value, 64)[j]
  {
    if j < Width(bar.kind) {
      DecodedFromBarBits(t, bar.index, bar.kind, j);
      FlagsAreLow(bar.kind, k, j);
    } else {
      UpperClear(t, bar.index, bar.kind);
    }
  }

  lemma {:induction false} DecodedIsWritten(s: Space, i: nat, f: Bits)
    requires BarTable(s) && BarsInvariant(s) && i < NUM_BARS && s.bars[i].Some? && |f| == Width(s.bars[i].value.kind)
    requires Val(f) % s.bars[i].value.size == 0
    ensures var kind := s.bars[i].value.kind;
            DecodedBits(WriteBack(s, i, kind, AddressBytes(f)), i, kind) == f + Zeros(64 - |f|)
  {
    var bar, w := s.bars[i].value, |f|;
    assert BarInvariant(s, i);
    var k :| 4 <= k <= 38 && BarRegisters(s, i, bar, k);
    hide WriteBack, DecodedBits, MaskFrom, FlagsBelow, AddressBytes, BarBits;
    var t := WriteBack(s, i, bar.kind, AddressBytes(f));
    ToBitsVal(f);
    AlignedBits(Val(f), k, w);
    forall j | 0 <= j < w ensures DecodedBits(t, i, bar.kind)[j] == f[j] {
      ProgrammedBits(s, i, AddressBytes(f), k, j);
      AddressBit(f, j);
    }
    UpperClear(t, i, bar.kind);
    PartsMeet(DecodedBits(t, i, bar.kind), f);
  }

  lemma PartsMeet(g: Bits, f: Bits)
    requires |g| == 64 && |f| <= 64 && (forall j :: |f| <= j < 64 ==> !g[j]) && forall j :: 0 <= j < |f| ==> g[j] == f[j]
    ensures g == f + Zeros(64 - |f|)
  {
  }

  lemma UpperClear(s: Space, i: nat, kind: BarKind)
    requires WellFormed(s) && i < NUM_BARS && (kind.Mem64? ==> i + 1 < NUM_BARS)
    ensures forall j :: Width(kind) <= j < 64 ==> !DecodedBits(s, i, kind)[j]
  {
  }

  /**
   The probe value of a BAR of size `2^k` is 4 GiB minus its size, also for a 64-bit BAR, which is therefore
   hidden when programmed there; above 4 GiB it is 0 and hides nothing.
   */
  lemma {:induction false} ProbeValue(bar: Bar, k: nat)
    requires Exponent(bar, k)
    ensures Val(ProbeBits(bar)) == if k <= 32 then 0x1_0000_0000 - bar.size else 0
  {
    WritableMask(bar, k);
    var w := LowWritable(bar);
    ZeroExtend(w, 32);
    Pow32();
    if k <= 32 {
      NotAbove(w, k);
      NotVal(w);
      ZeroExtend(Ones(k), 32 - k);
      OnesVal(k);
    } else {
      assert w == Zeros(32);
      ZerosVal(32);
    }
  }

  // ---------- decoded addresses ----------

  lemma DecodedLowBits(s: Space, i: nat, bar: Bar, k: nat)
    requires WellFormed(s) && i < NUM_BARS && BarRegisters(s, i, bar, k)
    ensures forall j :: 0 <= j < k ==> !DecodedBits(s, i, bar.kind)[j]
  {
    forall j | 0 <= j < k ensures !DecodedBits(s, i, bar.kind)[j] {
      if j < Width(bar.kind) {
        DecodedFromBarBits(s, i, bar.kind, j);
      }
    }
  }

  /** Whatever the guest wrote, a decoded BAR has a non-zero address that is a multiple of its size. */
  lemma DecodedAligned(s: Space, i: nat)
    requires BarsInvariant(s) && i < NUM_BARS && GetBar(s, i).Some?
    ensures var bar := GetBar(s, i).value;
            && bar == s.bars[i].value.(address := bar.address)
            && bar.address.Some? && bar.address.value > 0
            && bar.size > 0 && bar.address.value % bar.size == 0
            && bar.address.value < WORD_LIMIT
  {
    assert BarInvariant(s, i);
    var bar := s.bars[i].value;
    var k :| 4 <= k <= 38 && BarRegisters(s, i, bar, k);
    DecodedLowBits(s, i, bar, k);
    LowZerosMultiple(DecodedBits(s, i, bar.kind), k);
    ValBound(DecodedBits(s, i, bar.kind));
    Pow64();
  }

  /** A decoded 32-bit or I/O BAR ends a full size below 4 GiB: the top slot is the probe value. */
  lemma DecodedBelow4G(s: Space, i: nat)
    requires BarsInvariant(s) && i < NUM_BARS && GetBar(s, i).Some? && !s.bars[i].value.kind.Mem64?
    ensures var bar := GetBar(s, i).value;
            bar.address.value + 2 * bar.size <= 0x1_0000_0000
  {
    assert BarInvariant(s, i);
    var bar := s.bars[i].value;
    var k :| 4 <= k <= 38 && BarRegisters(s, i, bar, k);
    var low := And(Dword(s.regs, BarOffset(i)), BaseMask(bar.kind));
    DecodedLowBits(s, i, bar, k);
    assert DecodedBits(s, i, bar.kind) == low + Zeros(32);
    assert forall j :: 0 <= j < k ==> low[j] == DecodedBits(s, i, bar.kind)[j];
    BelowTopSlot(bar, k, low);
  }

  /** A 32-bit string, clear below `k` and different from the probe value, leaves room for two more sizes. */
  lemma {:induction false} BelowTopSlot(bar: Bar, k: nat, low: Bits)
    requires Exponent(bar, k) && k <= 31 && |low| == 32
    requires forall j :: 0 <= j < k ==> !low[j]
    requires Val(low + Zeros(32)) != Val(ProbeBits(bar))
    ensures Val(low + Zeros(32)) + 2 * Pow2(k) <= 0x1_0000_0000
  {
    ZeroExtend(low, 32);
    if Val(low[k..]) == Pow2(32 - k) - 1 {
      TopIsProbe(bar, k, low);
    }
    RoomBelowTop(low, k);
  }

  lemma RoomBelowTop(low: Bits, k: nat)
    requires |low| == 32 && k <= 31
    requires forall j :: 0 <= j < k ==> !low[j]
    requires Val(low[k..]) != Pow2(32 - k) - 1
    ensures Val(low) + 2 * Pow2(k) <= 0x1_0000_0000
  {
    LowZerosFactor(low, k);
    ValBound(low[k..]);
    Room(Val(low), Pow2(k), Val(low[k..]), Pow2(32 - k));
    Pow2Add(k, 32 - k);
    Pow32();
  }

  lemma {:induction false} TopIsProbe(bar: Bar, k: nat, low: Bits)
    requires Exponent(bar, k) && k <= 31 && |low| == 32
    requires forall j :: 0 <= j < k ==> !low[j]
    requires Val(low[k..]) == Pow2(32 - k) - 1
    ensures low == LowWritable(bar)
  {
    OnesVal(32 - k);
    ValInjective(low[k..], Ones(32 - k));
    AllOnesAbove(low, k);
    WritableMask(bar, k);
  }

  lemma AllOnesAbove(low: Bits, k: nat)
    requires k <= |low| && low[k..] == Ones(|low| - k)
    ensures forall j :: k <= j < |low| ==> low[j]
  {
    forall j | k <= j < |low| ensures low[j] {
      assert low[j] == low[k..][j - k];
    }
  }

  lemma Room(v: nat, d: nat, t: nat, n: nat)
    requires v == d * t && t + 2 <= n
    ensures v + 2 * d <= d * n
  {
    var e := n - t - 2;
    assert d * n == d * t + 2 * d + d * e;
  }

  /** While every writable bit of a 32-bit or I/O BAR is one, it is not decoded. */
  lemma HiddenWhileProbed(s: Space, i: nat)
    requires BarsInvariant(s) && i < NUM_BARS && s.bars[i].Some? && !s.bars[i].value.kind.Mem64?
    requires forall j :: 0 <= j < 32 && Dword(s.writable, BarOffset(i))[j] ==> Dword(s.regs, BarOffset(i))[j]
    ensures GetBar(s, i).None?
  {
    assert BarInvariant(s, i);
    var bar := s.bars[i].value;
    var k :| 4 <= k <= 38 && BarRegisters(s, i, bar, k);
    DecodedLowBits(s, i, bar, k);
    WritableMask(bar, k);
    assert DecodedBits(s, i, bar.kind) == ProbeBits(bar);
  }

  /**
   A 64-bit BAR is different: `get_bar` compares against the low 32 bits of the mask
   only. With both registers at all ones it is decoded at the very top, where
   address + size wraps past the last 64-bit address.
   */
  lemma Probed64IsDecoded(s: Space, i: nat)
    requires BarsInvariant(s) && i < NUM_BARS && s.bars[i].Some? && s.bars[i].value.kind.Mem64?
    requires CommandBit(s, MEM_SPACE)
    ensures var probed := WriteOnes(s, i, s.bars[i].value.kind);
            && BarTable(probed) && GetBar(probed, i).Some?
            && GetBar(probed, i).value.address.Some?
            && GetBar(probed, i).value.address.value + GetBar(probed, i).value.size == WORD_LIMIT
  {
    hide WriteOnes, DecodedBits, ProbeBits, BarRegisters, BarInvariant, Val, Write;
    var k := SizeBit(s, i);
    var bar := s.bars[i].value;
    UpperFree(s, i);
    WriteOnesIsOneStore(s, i, bar.kind);
    SameCommand(s, i, seq(BarBytes(bar.kind), _ => ONES_BYTE));
    ProbedTop(s, i, bar, k);
  }

  lemma ProbedTop(s: Space, i: nat, bar: Bar, k: nat)
    requires WellFormed(s) && i < NUM_BARS && BarRegisters(s, i, bar, k) && bar.kind.Mem64?
    ensures var f := DecodedBits(WriteOnes(s, i, bar.kind), i, bar.kind);
            && Val(f) + bar.size == WORD_LIMIT && Val(f) != 0 && Val(f) != Val(ProbeBits(bar))
  {
    var probed := WriteOnes(s, i, bar.kind);
    var f := DecodedBits(probed, i, bar.kind);
    ProbeReadsSize(s, i, bar, k);
    assert f[..64] == f;
    NotVal(f);
    Pow64();
    ProbedBits(s, i, bar.kind, 63);
    DecodedFromBarBits(probed, i, bar.kind, 63);
    Distinct(f, ProbeBits(bar), 63);
    ZerosVal(64);
    Distinct(f, Zeros(64), 63);
  }

  lemma {:induction false} Distinct(f: Bits, g: Bits, j: nat)
    requires |f| == |g| && j < |f| && f[j] != g[j]
    ensures Val(f) != Val(g)
  {
    if Val(f) == Val(g) {
      ValInjective(f, g);
    }
  }
}
