/**
 Base address registers: the allocator `add_bar`, the decoder `get_bar`, and what
 every guest write keeps of them.
 */
module Bars {
  import opened Basics
  import opened Bits
  import opened RegisterBlock
  import opened ConfigSpace

  predicate IsPow2(n: nat) {
    exists k :: 0 <= k < 64 && Pow2(k) == n
  }

  function MinSize(kind: BarKind): nat {
    if kind.Io? then 16 else 128
  }

  function MaxSize(kind: BarKind): nat {
    match kind
    case Io => 256
    case Mem32(_) => 0x8000_0000
    case Mem64(_) => 0x40_0000_0000
  }

  /** `validate_bar_size`. */
  predicate SizeOk(bar: Bar) {
    IsPow2(bar.size) && MinSize(bar.kind) <= bar.size <= MaxSize(bar.kind)
  }

  /** `validate_bar_region` after the size check. */
  function ValidateRegion(bar: Bar): Result<(), Error>
    requires bar.size > 0
  {
    match bar.address
    case None => Ok(())
    case Some(address) =>
      if address == 0 then Err(InvalidBarAddress(address))
      else if address % bar.size != 0 then Err(InvalidBarAlignment(address, bar.size))
      else if address + bar.size >= WORD_LIMIT then Err(BarRegionOverflow(address, bar.size))
      else if !bar.kind.Mem64? && address + bar.size > 0xFFFF_FFFF then Err(BarRegionOverflow(address, bar.size))
      else Ok(())
  }

  /** `max_num_bars` as a function of the header type byte. */
  function MaxNumBars(s: Space): Result<nat, Error>
    requires WellFormed(s)
  {
    var header := Val(s.regs[HEADER_TYPE]);
    if header == 0 then Ok(6) else if header == 1 then Ok(2) else Err(UnsupportedHeader(header))
  }

  /** `!(size - 1)` as a `u64`. */
  function SizeMask(size: nat): (f: Bits)
    requires size > 0
    ensures |f| == 64
  {
    Not(ToBits(size - 1, 64))
  }

  /** The low bits of a BAR register that hold flags rather than address. */
  function FlagBits(kind: BarKind): nat {
    if kind.Io? then 2 else 4
  }

  /** The base-address mask of the low register. */
  function BaseMask(kind: BarKind): (f: Bits)
    ensures |f| == 32
  {
    From(Ones(32), FlagBits(kind))
  }

  /** `PciBarType::bits`. */
  function KindBits(kind: BarKind): (f: Bits)
    ensures |f| == 32
  {
    match kind
    case Io => Zeros(32)[0 := true]
    case Mem32(p) => Zeros(32)[3 := p]
    case Mem64(p) => Zeros(32)[2 := true][3 := p]
  }

  function BarOffset(index: nat): nat {
    BAR0 + 4 * index
  }

  /** The checks of `add_bar`, in order. */
  function CheckBar(s: Space, bar: Bar): Result<(), Error>
    requires WellFormed(s) && BarArgument(bar)
  {
    var i := bar.index;
    match MaxNumBars(s)
    case Err(e) => Err(e)
    case Ok(max) =>
      if i >= max then Err(InvalidBarIndex(i))
      else if !SizeOk(bar) then Err(InvalidBarSize(bar.size))
      else if ValidateRegion(bar).Err? then ValidateRegion(bar)
      else if s.bars[i].Some? then Err(BarInUse(i))
      else if i > 0 && s.bars[i - 1].Some? && s.bars[i - 1].value.kind.Mem64? then Err(BarInUse(i))
      else if bar.kind.Mem64? && i + 1 >= NUM_BARS then Err(InvalidBarIndex(i))
      else if bar.kind.Mem64? && s.bars[i + 1].Some? then Err(BarInUse(i))
      else Ok(())
  }

  /** The sizes a BAR of each kind can have. */
  ghost predicate LegalSize(bar: Bar) {
    exists k: nat :: Exponent(bar, k)
  }

  /** The initial address, if any: not 0, aligned to the size, the BAR ending inside 64 bits and a narrow one below 4 GiB. */
  predicate LegalAddress(bar: Bar)
    requires bar.size > 0
  {
    bar.address.Some? ==>
      var a := bar.address.value;
      && a != 0 && a % bar.size == 0 && a + bar.size < 0x1_0000_0000_0000_0000
      && (!bar.kind.Mem64? ==> a + bar.size <= 0xFFFF_FFFF)
  }

  /** Registers the BAR would occupy. */
  predicate Needs(bar: Bar, r: nat) {
    r == bar.index || (bar.kind.Mem64? && r == bar.index + 1)
  }

  /** Register `r` belongs to BAR `i`, counting the upper half of a 64-bit BAR. */
  predicate Owns(s: Space, i: nat, r: nat)
    requires WellFormed(s) && i < NUM_BARS
  {
    s.bars[i].Some? && (r == i || (s.bars[i].value.kind.Mem64? && r == i + 1))
  }

  /** Every register it needs exists and is free. */
  ghost predicate RoomFor(s: Space, bar: Bar)
    requires WellFormed(s)
  {
    && (forall r: nat :: Needs(bar, r) ==> r < NUM_BARS)
    && (forall r: nat, i: nat :: Needs(bar, r) && i < NUM_BARS ==> !Owns(s, i, r))
  }

  /** The header type has a BAR register of that number: six for type 0, two for type 1. */
  predicate HeaderHas(s: Space, index: nat)
    requires WellFormed(s)
  {
    (s.regs[0x0E] == ZERO_BYTE && index < 6) || (Val(s.regs[0x0E]) == 1 && index < 2)
  }

  /**
   `add_bar` accepts a BAR if and only if the header type has a register of that number, the size is a power of two
   in the range of its kind, the address is legal, and no register it needs is missing or taken.
   */
  lemma BarAcceptedIff(s: Space, bar: Bar)
    requires WellFormed(s) && BarArgument(bar)
    ensures AddBar(s, bar).Ok? <==>
              HeaderHas(s, bar.index) && LegalSize(bar) && bar.size > 0 && LegalAddress(bar) && RoomFor(s, bar)
  {
    hide SizeOk, LegalSize, RoomFor, Val, PlaceBar, LegalAddress, ValidateRegion, SlotFree, HeaderHas;
    HeaderHasIff(s, bar.index);
    SizeOkIff(bar);
    SlotFreeIff(s, bar);
    if bar.size > 0 {
      LegalAddressIff(bar);
    }
    CheckPasses(s, bar);
  }

  /** Which error a rejected BAR gets: the first of these that applies. */
  lemma BarErrors(s: Space, bar: Bar)
    requires WellFormed(s) && BarArgument(bar)
    ensures var header, i, r := Val(s.regs[0x0E]), bar.index, AddBar(s, bar);
            if header != 0 && header != 1 then r == Err(UnsupportedHeader(header))
            else if header == 1 && i >= 2 then r == Err(InvalidBarIndex(i))
            else if !LegalSize(bar) then r == Err(InvalidBarSize(bar.size))
            else if bar.address == Some(0) then r == Err(InvalidBarAddress(0))
            else if bar.size > 0 && bar.address.Some? && bar.address.value % bar.size != 0 then r == Err(InvalidBarAlignment(bar.address.value, bar.size))
            else if bar.size > 0 && !LegalAddress(bar) then r == Err(BarRegionOverflow(bar.address.value, bar.size))
            else if exists j :: 0 <= j < NUM_BARS && Owns(s, j, i) then r == Err(BarInUse(i))
            else if bar.kind.Mem64? && i == 5 then r == Err(InvalidBarIndex(i))
            else if bar.kind.Mem64? && s.bars[i + 1].Some? then r == Err(BarInUse(i))
            else r.Ok?
  {
    SizeOkIff(bar);
    OwnedIff(s, bar.index);
    hide LegalSize, SizeOk, Val, PlaceBar;
  }

  /** A register is owned exactly if a BAR starts there or a 64-bit one right before it. */
  lemma OwnedIff(s: Space, r: nat)
    requires WellFormed(s) && r < NUM_BARS
    ensures (exists j :: 0 <= j < NUM_BARS && Owns(s, j, r)) <==>
              s.bars[r].Some? || (r > 0 && s.bars[r - 1].Some? && s.bars[r - 1].value.kind.Mem64?)
  {
    if s.bars[r].Some? {
      assert Owns(s, r, r);
    }
    if r > 0 && s.bars[r - 1].Some? && s.bars[r - 1].value.kind.Mem64? {
      assert Owns(s, r - 1, r);
    }
  }

  lemma LegalAddressIff(bar: Bar)
    requires bar.size > 0
    ensures ValidateRegion(bar).Ok? <==> LegalAddress(bar)
  {
  }

  lemma HeaderHasIff(s: Space, index: nat)
    requires WellFormed(s)
    ensures HeaderHas(s, index) <==> MaxNumBars(s).Ok? && index < MaxNumBars(s).value
  {
    HeaderZero(s.regs[HEADER_TYPE]);
  }

  /** The checks in order, put together. */
  lemma CheckPasses(s: Space, bar: Bar)
    requires WellFormed(s) && BarArgument(bar)
    ensures CheckBar(s, bar).Ok? <==>
              && MaxNumBars(s).Ok? && bar.index < MaxNumBars(s).value && SizeOk(bar) && bar.size > 0
              && ValidateRegion(bar).Ok? && SlotFree(s, bar)
  {
    hide IsPow2, ValidateRegion, MaxNumBars;
  }

  lemma {:induction false} HeaderZero(b: Byte)
    ensures b == ZERO_BYTE <==> Val(b) == 0
  {
    assert ZERO_BYTE == Zeros(8);
    ZerosVal(8);
    if Val(b) == 0 {
      ValInjective(b, ZERO_BYTE);
    }
  }

  lemma SizeOkIff(bar: Bar)
    ensures SizeOk(bar) <==> LegalSize(bar)
    ensures SizeOk(bar) ==> bar.size > 0
  {
    if SizeOk(bar) {
      var k := SizeExponent(bar);
      assert Exponent(bar, k);
    }
    if LegalSize(bar) {
      var k: nat :| Exponent(bar, k);
      Pow2Monotone(MinExponent(bar.kind), k);
      Pow2Monotone(k, MaxExponent(bar.kind));
      assert 0 <= k < 64 && Pow2(k) == bar.size;
    }
  }

  lemma SlotFreeIff(s: Space, bar: Bar)
    requires WellFormed(s) && BarArgument(bar)
    ensures SlotFree(s, bar) <==> RoomFor(s, bar)
  {
    if RoomFor(s, bar) {
      RoomIsFree(s, bar);
    }
    if SlotFree(s, bar) {
      forall r: nat, i: nat | Needs(bar, r) && i < NUM_BARS ensures !Owns(s, i, r) {
        FreeIsUnowned(s, bar, r, i);
      }
    }
  }

  lemma RoomIsFree(s: Space, bar: Bar)
    requires WellFormed(s) && BarArgument(bar) && RoomFor(s, bar)
    ensures SlotFree(s, bar)
  {
    var b := bar.index;
    assert Needs(bar, b) && !Owns(s, b, b);
    if b > 0 {
      assert !Owns(s, b - 1, b);
    }
    if bar.kind.Mem64? {
      assert Needs(bar, b + 1) && !Owns(s, 0, b + 1);
      assert !Owns(s, b + 1, b + 1);
    }
  }

  lemma FreeIsUnowned(s: Space, bar: Bar, r: nat, i: nat)
    requires WellFormed(s) && BarArgument(bar) && SlotFree(s, bar) && Needs(bar, r) && i < NUM_BARS
    ensures r < NUM_BARS && !Owns(s, i, r)
  {
  }

  /** No register the BAR needs is owned by another BAR. */
  predicate SlotFree(s: Space, bar: Bar)
    requires WellFormed(s) && bar.index < NUM_BARS
  {
    var i := bar.index;
    && s.bars[i].None?
    && (i > 0 && s.bars[i - 1].Some? ==> !s.bars[i - 1].value.kind.Mem64?)
    && (bar.kind.Mem64? ==> i + 1 < NUM_BARS && s.bars[i + 1].None?)
  }

  lemma CheckedBar(s: Space, bar: Bar)
    requires WellFormed(s) && BarArgument(bar) && CheckBar(s, bar).Ok?
    ensures SizeOk(bar) && ValidateRegion(bar).Ok? && SlotFree(s, bar)
  {
  }

  function LowWritable(bar: Bar): (f: Bits)
    requires bar.size > 0
    ensures |f| == 32
  {
    And(SizeMask(bar.size)[..32], BaseMask(bar.kind))
  }

  function AddressBits(bar: Bar): (f: Bits)
    ensures |f| == 64
  {
    ToBits(if bar.address.Some? then bar.address.value else 0, 64)
  }

  function LowRegister(bar: Bar): (f: Bits)
    ensures |f| == 32
  {
    Or(And(AddressBits(bar)[..32], BaseMask(bar.kind)), KindBits(bar.kind))
  }

  /** The stores of `add_bar` once every check has passed. */
  function PlaceBar(s: Space, bar: Bar): (r: Space)
    requires WellFormed(s) && BarArgument(bar) && CheckBar(s, bar).Ok?
    ensures WellFormed(r)
  {
    var o := BarOffset(bar.index);
    var s1 := AllowCommandBit(s, if bar.kind.Io? then IO_SPACE else MEM_SPACE);
    var s2 := if bar.kind.Mem64? then
                s1.(writable := SetDword(s1.writable, o + 4, SizeMask(bar.size)[32..]),
                    regs := SetDword(s1.regs, o + 4, AddressBits(bar)[32..]))
              else s1;
    s2.(writable := SetDword(s2.writable, o, LowWritable(bar)),
        regs := SetDword(s2.regs, o, LowRegister(bar)),
        bars := s2.bars[bar.index := Some(bar)])
  }

  /** `add_bar`. */
  function AddBar(s: Space, bar: Bar): Result<Space, Error>
    requires WellFormed(s) && BarArgument(bar)
  {
    match CheckBar(s, bar)
    case Err(e) => Err(e)
    case Ok(_) => Ok(PlaceBar(s, bar))
  }

  /** The register bits of a BAR: one dword, or two for a 64-bit BAR. */
  function BarBits(b: Bytes, index: nat, kind: BarKind): (f: Bits)
    requires |b| == SPACE_SIZE && index < NUM_BARS && (kind.Mem64? ==> index + 1 < NUM_BARS)
    ensures |f| == Width(kind)
  {
    if kind.Mem64? then Dword(b, BarOffset(index)) + Dword(b, BarOffset(index + 1)) else Dword(b, BarOffset(index))
  }

  function Width(kind: BarKind): nat {
    if kind.Mem64? then 64 else 32
  }

  /** The address held by the registers: everything but the flag bits. */
  function DecodedBits(s: Space, index: nat, kind: BarKind): (f: Bits)
    requires WellFormed(s) && index < NUM_BARS && (kind.Mem64? ==> index + 1 < NUM_BARS)
    ensures |f| == 64
  {
    var o := BarOffset(index);
    And(Dword(s.regs, o), BaseMask(kind)) + (if kind.Mem64? then Dword(s.regs, o + 4) else Zeros(32))
  }

  /** The value `get_bar` takes for a size probe in progress: only the low 32 bits of the mask. */
  function ProbeBits(bar: Bar): (f: Bits)
    requires bar.size > 0
    ensures |f| == 64
  {
    LowWritable(bar) + Zeros(32)
  }

  function SpaceBit(kind: BarKind): nat {
    if kind.Io? then IO_SPACE else MEM_SPACE
  }

  /** A stored BAR has a positive size, and a 64-bit one has an upper register. */
  predicate BarTable(s: Space) {
    && WellFormed(s)
    && forall i :: 0 <= i < NUM_BARS && s.bars[i].Some? ==>
         s.bars[i].value.size > 0 && (s.bars[i].value.kind.Mem64? ==> i + 1 < NUM_BARS)
  }

  /** `get_bar`. */
  function GetBar(s: Space, index: nat): Option<Bar>
    requires BarTable(s) && index < NUM_BARS
  {
    match s.bars[index]
    case None => None
    case Some(bar) =>
      if !CommandBit(s, SpaceBit(bar.kind)) then None
      else
        var address := Val(DecodedBits(s, index, bar.kind));
        if address == 0 || address == Val(ProbeBits(bar)) then None
        else Some(bar.(address := Some(address)))
  }

  /** The bit of the byte at 0x04 that turns a BAR of this kind on: bit 0 for I/O, bit 1 for memory. */
  function EnableBit(kind: BarKind): nat {
    match kind
    case Io => 0
    case Mem32(_) => 1
    case Mem64(_) => 1
  }

  /**
   A BAR is decoded if and only if it exists, its space is enabled in the Command byte, and the address in its
   registers is neither 0 nor the probe value; then the address reported is that one.
   */
  lemma DecodedIff(s: Space, i: nat)
    requires BarTable(s) && i < NUM_BARS
    ensures GetBar(s, i).Some? <==>
              && s.bars[i].Some? && s.regs[0x04][EnableBit(s.bars[i].value.kind)]
              && Val(DecodedBits(s, i, s.bars[i].value.kind)) != 0
              && Val(DecodedBits(s, i, s.bars[i].value.kind)) != Val(ProbeBits(s.bars[i].value))
    ensures GetBar(s, i).Some? ==>
              GetBar(s, i).value == s.bars[i].value.(address := Some(Val(DecodedBits(s, i, s.bars[i].value.kind))))
  {
    hide DecodedBits, ProbeBits, Val;
  }

  // ---------- the invariant of the BAR registers ----------

  /** Bit `j` is set exactly from `k` up. */
  predicate MaskFrom(f: Bits, k: nat) {
    forall j :: 0 <= j < |f| ==> f[j] == (j >= k)
  }

  /** Below `k`, only the flags of the kind. */
  predicate FlagsBelow(f: Bits, kind: BarKind, k: nat) {
    forall j :: 0 <= j < |f| && j < k ==> f[j] == (j < 32 && KindBits(kind)[j])
  }

  predicate Exponent(bar: Bar, k: nat) {
    && bar.size == Pow2(k)
    && (bar.kind.Io? ==> 4 <= k <= 8)
    && (bar.kind.Mem32? ==> 7 <= k <= 31)
    && (bar.kind.Mem64? ==> 7 <= k <= 38)
  }

  /** Writable and constant bits of a placed BAR of size `2^k`. */
  predicate BarRegisters(s: Space, i: nat, bar: Bar, k: nat)
    requires WellFormed(s) && i < NUM_BARS
  {
    && bar.index == i && Exponent(bar, k)
    && (bar.kind.Mem64? ==> i + 1 < NUM_BARS && s.bars[i + 1].None?)
    && MaskFrom(BarBits(s.writable, i, bar.kind), k)
    && FlagsBelow(BarBits(s.regs, i, bar.kind), bar.kind, k)
  }

  ghost predicate BarInvariant(s: Space, i: nat)
    requires WellFormed(s) && i < NUM_BARS
  {
    s.bars[i].Some? ==> exists k :: 4 <= k <= 38 && BarRegisters(s, i, s.bars[i].value, k)
  }

  ghost predicate BarsInvariant(s: Space) {
    BarTable(s) && forall i :: 0 <= i < NUM_BARS ==> BarInvariant(s, i)
  }

  /** The invariant reads the six BAR registers and the BAR table only. */
  lemma BarsInvariantLocal(s: Space, t: Space)
    requires BarsInvariant(s) && WellFormed(t) && t.bars == s.bars
    requires forall i :: BAR0 <= i < BarOffset(NUM_BARS) ==> t.writable[i] == s.writable[i] && t.regs[i] == s.regs[i]
    ensures BarsInvariant(t)
  {
    forall i | 0 <= i < NUM_BARS ensures BarInvariant(t, i) {
      assert BarInvariant(s, i);
      if s.bars[i].Some? {
        var bar := s.bars[i].value;
        var k :| 4 <= k <= 38 && BarRegisters(s, i, bar, k);
        SameBarBits(s.regs, t.regs, i, bar.kind);
        SameBarBits(s.writable, t.writable, i, bar.kind);
        assert BarRegisters(t, i, bar, k);
      }
    }
  }

  lemma SameBarBits(a: Bytes, b: Bytes, i: nat, kind: BarKind)
    requires |a| == |b| == SPACE_SIZE && i < NUM_BARS && (kind.Mem64? ==> i + 1 < NUM_BARS)
    requires forall j :: BarOffset(i) <= j < BarOffset(i) + (if kind.Mem64? then 8 else 4) ==> a[j] == b[j]
    ensures BarBits(a, i, kind) == BarBits(b, i, kind)
  {
  }

  /** No guest write, of any width, disturbs it. */
  lemma BarsInvariantGuest(s: Space, t: Space)
    requires BarsInvariant(s) && WellFormed(t) && GuestFrame(s, t)
    ensures BarsInvariant(t)
  {
    forall i | 0 <= i < NUM_BARS ensures BarInvariant(t, i) {
      assert BarInvariant(s, i);
      if s.bars[i].Some? {
        var bar := s.bars[i].value;
        var k :| 4 <= k <= 38 && BarRegisters(s, i, bar, k);
        ReadOnlyBarBits(s, t, i, bar.kind);
        assert BarRegisters(t, i, bar, k);
      }
    }
  }

  lemma ReadOnlyBarBits(s: Space, t: Space, i: nat, kind: BarKind)
    requires WellFormed(s) && WellFormed(t) && GuestFrame(s, t)
    requires i < NUM_BARS && (kind.Mem64? ==> i + 1 < NUM_BARS)
    ensures forall j :: 0 <= j < Width(kind) && !BarBits(s.writable, i, kind)[j] ==>
              BarBits(t.regs, i, kind)[j] == BarBits(s.regs, i, kind)[j]
  {
  }

  /** The register behind a 64-bit BAR holds no BAR of its own. */
  lemma UpperFree(s: Space, i: nat)
    requires BarsInvariant(s) && i < NUM_BARS && s.bars[i].Some? && s.bars[i].value.kind.Mem64?
    ensures i + 1 < NUM_BARS && s.bars[i + 1].None?
  {
    assert BarInvariant(s, i);
  }

  /** A new space has no BARs. */
  lemma NewSpaceBars()
    ensures BarsInvariant(NewSpace())
  {
  }

  /** A size accepted by the size check is a power of two in the range of its kind. */
  lemma SizeExponent(bar: Bar) returns (k: nat)
    requires SizeOk(bar)
    ensures Exponent(bar, k)
  {
    k :| 0 <= k < 64 && Pow2(k) == bar.size;
    ExponentRange(k, MinExponent(bar.kind), MaxExponent(bar.kind));
  }

  function MinExponent(kind: BarKind): (k: nat)
    ensures Pow2(k) == MinSize(kind)
  {
    assert Pow2(4) == 16 && Pow2(7) == 128;
    if kind.Io? then 4 else 7
  }

  function MaxExponent(kind: BarKind): (k: nat)
    ensures Pow2(k) == MaxSize(kind)
  {
    assert Pow2(8) == 256;
    assert Pow2(16) == 0x1_0000;
    Pow2Add(16, 15);
    Pow2Add(22, 16);
    assert Pow2(31) == 0x8000_0000;
    assert Pow2(38) == 0x40_0000_0000;
    match kind
    case Io => 8
    case Mem32(_) => 31
    case Mem64(_) => 38
  }

  lemma {:induction false} ExponentRange(k: nat, lo: nat, hi: nat)
    requires Pow2(lo) <= Pow2(k) <= Pow2(hi)
    ensures lo <= k <= hi
  {
    StrictlyIncreasing(k, lo);
    StrictlyIncreasing(hi, k);
  }

  lemma {:induction false} StrictlyIncreasing(a: nat, b: nat)
    ensures a < b ==> Pow2(a) < Pow2(b)
  {
    if a < b {
      Pow2Monotone(a + 1, b);
    }
  }

  /** What `add_bar` does to the BAR registers and the BAR table. */
  ghost predicate Placed(s: Space, bar: Bar, t: Space)
    requires WellFormed(s) && BarArgument(bar) && bar.size > 0 && (bar.kind.Mem64? ==> bar.index + 1 < NUM_BARS)
  {
    && WellFormed(t)
    && t.bars == s.bars[bar.index := Some(bar)]
    && BarBits(t.writable, bar.index, bar.kind) ==
         LowWritable(bar) + (if bar.kind.Mem64? then SizeMask(bar.size)[32..] else [])
    && BarBits(t.regs, bar.index, bar.kind) ==
         LowRegister(bar) + (if bar.kind.Mem64? then AddressBits(bar)[32..] else [])
    && forall j :: BAR0 <= j < BarOffset(NUM_BARS) && !OwnByte(bar, j) ==>
         t.regs[j] == s.regs[j] && t.writable[j] == s.writable[j]
  }

  predicate OwnByte(bar: Bar, j: nat) {
    BarOffset(bar.index) <= j < BarOffset(bar.index) + (if bar.kind.Mem64? then 8 else 4)
  }

  lemma PlaceBarEffect(s: Space, bar: Bar)
    requires WellFormed(s) && BarArgument(bar) && CheckBar(s, bar).Ok?
    ensures Placed(s, bar, PlaceBar(s, bar))
  {
    hide SetDword, LowWritable, LowRegister, SizeMask, AddressBits, AllowCommandBit, Dword;
    var o, t := BarOffset(bar.index), PlaceBar(s, bar);
    assert Dword(t.writable, o) == LowWritable(bar);
    assert Dword(t.regs, o) == LowRegister(bar);
    if bar.kind.Mem64? {
      var s1 := AllowCommandBit(s, MEM_SPACE);
      DwordElsewhere(SetDword(s1.writable, o + 4, SizeMask(bar.size)[32..]), o, LowWritable(bar), o + 4);
      DwordElsewhere(SetDword(s1.regs, o + 4, AddressBits(bar)[32..]), o, LowRegister(bar), o + 4);
    }
  }

  /** `add_bar` makes exactly the enable bit of the BAR's kind writable in Command. */
  lemma PlaceBarCommand(s: Space, bar: Bar)
    requires WellFormed(s) && BarArgument(bar) && CheckBar(s, bar).Ok?
    ensures var t := PlaceBar(s, bar);
            && t.writable[0x04] == s.writable[0x04][EnableBit(bar.kind) := true] && t.writable[0x05] == s.writable[0x05]
            && t.regs[0x04] == s.regs[0x04] && t.regs[0x05] == s.regs[0x05]
            && t.regs[STATUS] == s.regs[STATUS] && t.writable[STATUS] == s.writable[STATUS]
  {
    hide SetDword, LowRegister, LowWritable, SizeMask, AddressBits;
    var r := AllowCommandBit(s, if bar.kind.Io? then IO_SPACE else MEM_SPACE);
    assert forall b :: 0 <= b < 8 ==> r.writable[0x04][b] == Word(r.writable, COMMAND)[b] && s.writable[0x04][b] == Word(s.writable, COMMAND)[b];
    assert forall b :: 0 <= b < 8 ==> r.writable[0x05][b] == Word(r.writable, COMMAND)[b + 8] && s.writable[0x05][b] == Word(s.writable, COMMAND)[b + 8];
  }

  /** Outside the Command register and the BAR registers nothing moves. */
  lemma PlaceBarFrame(s: Space, bar: Bar)
    requires WellFormed(s) && BarArgument(bar) && CheckBar(s, bar).Ok?
    ensures PlaceBar(s, bar).lastCapSize == s.lastCapSize
    ensures forall j :: BarOffset(NUM_BARS) <= j < SPACE_SIZE ==>
              PlaceBar(s, bar).regs[j] == s.regs[j] && PlaceBar(s, bar).writable[j] == s.writable[j]
  {
    hide SetDword, LowRegister, LowWritable, SizeMask, AddressBits;
  }

  lemma DwordElsewhere(regs: Bytes, offset: nat, f: Bits, other: nat)
    requires offset + 4 <= |regs| && |f| == 32 && other + 4 <= |regs|
    requires other + 4 <= offset || offset + 4 <= other
    ensures Dword(SetDword(regs, offset, f), other) == Dword(regs, other)
  {
  }

  /** A placed BAR satisfies its own register invariant. */
  lemma PlacedBar(s: Space, bar: Bar, t: Space)
    requires WellFormed(s) && BarArgument(bar) && SizeOk(bar) && ValidateRegion(bar).Ok? && SlotFree(s, bar)
    requires Placed(s, bar, t)
    ensures BarInvariant(t, bar.index)
  {
    var k := SizeExponent(bar);
    WritableMask(bar, k);
    InitialRegister(bar, k);
    assert LowWritable(bar) + [] == LowWritable(bar);
    assert LowRegister(bar) + [] == LowRegister(bar);
    assert BarRegisters(t, bar.index, bar, k);
  }

  /** The writable bits set up for a BAR of size `2^k` are those from `k` up. */
  lemma WritableMask(bar: Bar, k: nat)
    requires Exponent(bar, k)
    ensures MaskFrom(LowWritable(bar), k)
    ensures MaskFrom(LowWritable(bar) + SizeMask(bar.size)[32..], k)
  {
    PredecessorBits(k, 64);
    assert MaskFrom(SizeMask(bar.size), k);
  }

  /** The register contents set up for a BAR: flags below `k`, the address above. */
  lemma InitialRegister(bar: Bar, k: nat)
    requires Exponent(bar, k) && ValidateRegion(bar).Ok?
    ensures FlagsBelow(LowRegister(bar), bar.kind, k)
    ensures FlagsBelow(LowRegister(bar) + AddressBits(bar)[32..], bar.kind, k)
  {
    if bar.address.Some? {
      AlignedBits(bar.address.value, k, 64);
    } else {
      ZeroAligned(Pow2(k));
      AlignedBits(0, k, 64);
    }
  }

  lemma ZeroAligned(d: nat)
    requires d > 0
    ensures 0 % d == 0
  {
  }

  /** `add_bar` keeps the invariant of every BAR, old and new. */
  lemma AddBarKeepsInvariant(s: Space, bar: Bar)
    requires BarsInvariant(s) && BarArgument(bar) && AddBar(s, bar).Ok?
    ensures BarsInvariant(AddBar(s, bar).value)
  {
    CheckedBar(s, bar);
    PlaceBarEffect(s, bar);
    PlacingKeepsInvariant(s, bar, PlaceBar(s, bar));
  }

  lemma PlacingKeepsInvariant(s: Space, bar: Bar, t: Space)
    requires BarsInvariant(s) && BarArgument(bar) && SizeOk(bar) && ValidateRegion(bar).Ok? && SlotFree(s, bar)
    requires Placed(s, bar, t)
    ensures BarsInvariant(t)
  {
    PlacedBar(s, bar, t);
    forall i | 0 <= i < NUM_BARS && i != bar.index && s.bars[i].Some? ensures BarInvariant(t, i) {
      OtherBar(s, bar, t, i);
    }
  }

  lemma OtherBar(s: Space, bar: Bar, t: Space, i: nat)
    requires BarsInvariant(s) && BarArgument(bar) && bar.size > 0 && SlotFree(s, bar) && Placed(s, bar, t)
    requires i < NUM_BARS && i != bar.index && s.bars[i].Some?
    ensures BarInvariant(t, i)
  {
    hide BarBits, MaskFrom, FlagsBelow, SizeMask, LowWritable, LowRegister, AddressBits, BarInvariant, Exponent;
    var k := SizeBit(s, i);
    var other := s.bars[i].value;
    assert other.kind.Mem64? ==> i + 1 != bar.index;
    assert bar.kind.Mem64? ==> i != bar.index + 1;
    SameBarBits(s.regs, t.regs, i, other.kind);
    SameBarBits(s.writable, t.writable, i, other.kind);
    assert BarRegisters(t, i, other, k);
    InvariantHolds(t, i, k);
  }

  /** The exponent of a placed BAR's size. */
  lemma SizeBit(s: Space, i: nat) returns (k: nat)
    requires BarsInvariant(s) && i < NUM_BARS && s.bars[i].Some?
    ensures 4 <= k <= 38 && BarRegisters(s, i, s.bars[i].value, k)
  {
    hide BarRegisters;
    assert BarInvariant(s, i);
    k :| 4 <= k <= 38 && BarRegisters(s, i, s.bars[i].value, k);
  }

  lemma InvariantHolds(s: Space, i: nat, k: nat)
    requires WellFormed(s) && i < NUM_BARS && s.bars[i].Some? && 4 <= k <= 38 && BarRegisters(s, i, s.bars[i].value, k)
    ensures BarInvariant(s, i)
  {
    hide BarRegisters;
  }
}
