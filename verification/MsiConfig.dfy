/** MSI as a capability: how it is set up, how its handler reacts to guest writes, what messages look like. */
module MsiConfig {
  import opened Basics
  import opened Bits
  import opened RegisterBlock
  import opened ConfigSpace
  import opened Capabilities
  import opened CapabilityList
  import opened MsixCore
  import opened MsiCore
  import opened MsiEvaluation

  /** `PciMsiCapability`: address width, log2 of the vector count, per-vector masking. */
  datatype MsiSetup = MsiSetup(is64: bool, vectors: nat, masking: bool)

  /** `to_message_control`. */
  function SetupControl(m: MsiSetup): (c: Bits)
    ensures |c| == 16
  {
    [false] + ToBits(m.vectors, 3) + [false, false, false] + [m.is64, m.masking] + Zeros(7)
  }

  /** The byte of the `writable_bits` function at data offset `i`. */
  function SetupWritable(m: MsiSetup, i: nat): Byte {
    var d := DataOffset(SetupControl(m));
    if i == 0 then [true, false, false, false, true, true, true, false]   // MSI Enable, Multiple Message Enable
    else if i == ADDRESS then From(ONES_BYTE, 2)
    else if ADDRESS < i < d + 2 then ONES_BYTE                            // address and message data
    else if m.masking && d + 4 <= i < d + 12 then ONES_BYTE               // mask and pending bits
    else ZERO_BYTE
  }

  function MsiCapability(m: MsiSetup): (cap: Capability)
    ensures CapabilityArgument(cap) && |cap.registers| == CapSize(SetupControl(m))
  {
    var n := CapSize(SetupControl(m));
    Capability(ToByte(5), WordBytes(SetupControl(m)) + seq(n - 2, _ => ZERO_BYTE), seq(n, i requires 0 <= i < n => SetupWritable(m, i)))
  }

  /** A legal setup: at most 32 vectors. */
  predicate SetupOk(m: MsiSetup) {
    m.vectors <= 5
  }

  /** What a space holding the capability at data offset `o` guarantees, whatever the guest wrote. */
  ghost predicate MsiReady(s: Space, o: nat, m: MsiSetup) {
    && Fits(s, o) && SetupOk(m)
    && Is64(Control(s, o)) == m.is64 && HasMasking(Control(s, o)) == m.masking
    && Control(s, o)[1..4] == ToBits(m.vectors, 3)
    && PendingWritable(s, o)
    && s.writable[o] == SetupWritable(m, 0) && s.writable[o + 1] == ZERO_BYTE
    && s.writable[o + ADDRESS] == SetupWritable(m, ADDRESS)
    && !Dword(s.regs, o + ADDRESS)[0] && !Dword(s.regs, o + ADDRESS)[1]
  }

  /** Every reachable space with the MSI capability in its list is ready. */
  lemma StoredIsReady(s: Space, slot: Slot, m: MsiSetup)
    requires WellFormed(s) && SetupOk(m) && slot.cap == MsiCapability(m) && Stored(s, slot)
    ensures MsiReady(s, slot.start + 2, m)
  {
    var o := slot.start + 2;
    var n := CapSize(SetupControl(m));
    forall i | 0 <= i < n ensures s.writable[o + i] == SetupWritable(m, i) {
      assert s.writable[o + i] == s.writable[o..End(slot)][i];
    }
    ReadOnlyParts(s, slot, m);
    assert forall i :: o <= i < o + n ==> s.writable[i] == SetupWritable(m, i - o);
  }

  /**
   What the guest can write of a stored MSI capability: MSI Enable and Multiple Message Enable, the address from bit 2 up,
   the data and, with masking, the mask and pending bits; nothing else.
   */
  lemma StoredWritable(s: Space, slot: Slot, m: MsiSetup)
    requires WellFormed(s) && slot.cap == MsiCapability(m) && Stored(s, slot)
    ensures var o, d := slot.start + 2, slot.start + 2 + (if m.is64 then 10 else 6);
            && s.writable[o] == [true, false, false, false, true, true, true, false] && s.writable[o + 1] == ZERO_BYTE
            && s.writable[o + 2] == From(ONES_BYTE, 2)
            && (forall i :: o + 2 < i < d + 2 ==> s.writable[i] == ONES_BYTE)
            && (m.masking ==> s.writable[d + 2] == s.writable[d + 3] == ZERO_BYTE)
            && (m.masking ==> forall i :: d + 4 <= i < d + 12 ==> s.writable[i] == ONES_BYTE)
  {
    WritableIs(s, slot, m);
    SetupShape(m);
    hide MsiCapability, Stored, SetupControl, SetupWritable;
  }

  lemma WritableIs(s: Space, slot: Slot, m: MsiSetup)
    requires WellFormed(s) && slot.cap == MsiCapability(m) && Stored(s, slot)
    ensures End(slot) <= DEVICE_END && |slot.cap.registers| == 8 + (if m.masking then 10 else 0) + (if m.is64 then 4 else 0)
    ensures forall i :: slot.start + 2 <= i < End(slot) ==> s.writable[i] == SetupByte(m, i - (slot.start + 2))
  {
    hide SetupWritable, SetupByte;
    var o := slot.start + 2;
    SetupShape(m);
    forall i | o <= i < End(slot) ensures s.writable[i] == SetupByte(m, i - o) {
      assert s.writable[i] == s.writable[o..End(slot)][i - o];
      SetupBytesAre(m, i - o);
    }
  }

  /** The writable bits by offset, for each address width. */
  function SetupByte(m: MsiSetup, i: nat): Byte {
    var d := if m.is64 then 10 else 6;
    if i == 0 then [true, false, false, false, true, true, true, false]
    else if i == 2 then From(ONES_BYTE, 2)
    else if 2 < i < d + 2 || (m.masking && d + 4 <= i < d + 12) then ONES_BYTE
    else ZERO_BYTE
  }

  lemma SetupBytesAre(m: MsiSetup, i: nat)
    ensures SetupWritable(m, i) == SetupByte(m, i)
  {
    SetupShape(m);
  }

  lemma SetupShape(m: MsiSetup)
    ensures Is64(SetupControl(m)) == m.is64 && HasMasking(SetupControl(m)) == m.masking
    ensures Val(MsiCapability(m).id) == 5
  {
    var k := SetupControl(m);
    assert k[7] == m.is64 && k[8] == m.masking;
    assert Pow2(8) == 256;
    ValToBits(5, 8);
  }

  lemma ReadOnlyParts(s: Space, slot: Slot, m: MsiSetup)
    requires WellFormed(s) && slot.cap == MsiCapability(m) && Stored(s, slot)
    ensures var o := slot.start + 2;
            && Is64(Control(s, o)) == m.is64 && HasMasking(Control(s, o)) == m.masking
            && Control(s, o)[1..4] == ToBits(m.vectors, 3)
            && !Dword(s.regs, o + ADDRESS)[0] && !Dword(s.regs, o + ADDRESS)[1]
  {
    hide SetupWritable, SetupControl, Stored;
    var o := slot.start + 2;
    StoredByte(s, slot, 0);
    StoredByte(s, slot, 1);
    StoredByte(s, slot, 2);
    SetupBytes(m);
    ControlBits(s, o, m, slot.cap.registers);
    AddressFlags(s, o, m);
  }

  /** The read-only bits of a stored byte are those of the capability. */
  lemma StoredByte(s: Space, slot: Slot, i: nat)
    requires WellFormed(s) && Stored(s, slot) && i < |slot.cap.registers|
    ensures End(slot) <= DEVICE_END && i < |slot.cap.writable|
    ensures forall j :: 0 <= j < 8 && !slot.cap.writable[i][j] ==> s.regs[slot.start + 2 + i][j] == slot.cap.registers[i][j]
  {
    assert s.regs[slot.start + 2 + i] == s.regs[slot.start + 2..End(slot)][i];
  }

  lemma SetupBytes(m: MsiSetup)
    ensures var cap := MsiCapability(m);
            && (forall i :: 0 <= i < 3 ==> cap.writable[i] == SetupWritable(m, i))
            && cap.registers[0] == SetupControl(m)[..8] && cap.registers[1] == SetupControl(m)[8..]
            && cap.registers[2] == ZERO_BYTE
  {
  }

  lemma AddressFlags(s: Space, o: nat, m: MsiSetup)
    requires WellFormed(s) && o + ADDRESS + 4 <= SPACE_SIZE
    requires forall j :: 0 <= j < 8 && !SetupWritable(m, ADDRESS)[j] ==> s.regs[o + ADDRESS][j] == ZERO_BYTE[j]
    ensures !Dword(s.regs, o + ADDRESS)[0] && !Dword(s.regs, o + ADDRESS)[1]
  {
    assert !SetupWritable(m, ADDRESS)[0] && !SetupWritable(m, ADDRESS)[1];
  }

  lemma ControlBits(s: Space, o: nat, m: MsiSetup, registers: Bytes)
    requires WellFormed(s) && o + 2 <= SPACE_SIZE && |registers| >= 2
    requires registers[0] == SetupControl(m)[..8] && registers[1] == SetupControl(m)[8..]
    requires forall j :: 0 <= j < 8 && !SetupWritable(m, 0)[j] ==> s.regs[o][j] == registers[0][j]
    requires forall j :: 0 <= j < 8 && !SetupWritable(m, 1)[j] ==> s.regs[o + 1][j] == registers[1][j]
    ensures Is64(Control(s, o)) == m.is64 && HasMasking(Control(s, o)) == m.masking
    ensures Control(s, o)[1..4] == ToBits(m.vectors, 3)
  {
    hide SetupWritable, SetupControl, Val;
    LowWritableBits(m);
    SetupBits(m);
    var c, v := Control(s, o), ToBits(m.vectors, 3);
    assert c[1] == s.regs[o][1] && c[2] == s.regs[o][2] && c[3] == s.regs[o][3];
    assert c[7] == s.regs[o][7] && c[8] == s.regs[o + 1][0];
    assert c[1..4] == [c[1], c[2], c[3]] && v == [v[0], v[1], v[2]];
  }

  /** The read-only bits of the control word: vector capability, 64-bit flag and masking flag. */
  lemma LowWritableBits(m: MsiSetup)
    ensures var w := SetupWritable(m, 0); !w[1] && !w[2] && !w[3] && !w[7]
    ensures !SetupWritable(m, 1)[0]
  {
  }

  lemma SetupBits(m: MsiSetup)
    ensures var k, v := SetupControl(m), ToBits(m.vectors, 3);
            && k[..8][1] == v[0] && k[..8][2] == v[1] && k[..8][3] == v[2] && k[..8][7] == m.is64 && k[8..][0] == m.masking
  {
  }

  lemma ReadyVectors(s: Space, o: nat, m: MsiSetup)
    requires MsiReady(s, o, m)
    ensures Capable(Control(s, o)) == m.vectors
  {
    assert Pow2(3) == 8;
    ValToBits(m.vectors, 3);
  }

  // ---------- the write handler ----------

  /** The Multiple Message Enable field is a legal count not above the capable one. */
  predicate EnableLegal(c: Bits)
    requires IsControl(c)
  {
    Val(c[4..7]) <= 5 && Val(c[4..7]) <= Capable(c)
  }

  function ClearEnable(c: Bits): (r: Bits)
    requires IsControl(c)
    ensures IsControl(r)
  {
    c[4 := false][5 := false][6 := false]
  }

  datatype MsiWrite = MsiWrite(space: Space, sent: seq<Delivery>, update: Option<Message>)

  predicate MsiHandles(s: Space, o: nat, offset: nat, size: nat)
    requires Fits(s, o)
  {
    RangeOverlaps(offset, size, o, CapSize(Control(s, o)))
  }

  /** The control-register part of `on_write_config`: an illegal vector count falls back to one. */
  function FixControl(s: Space, o: nat): (r: Space)
    requires Fits(s, o)
    ensures Fits(r, o) && GuestFrame(s, r)
  {
    var c := Control(s, o);
    if EnableLegal(c) then s
    else
      WriteKeepsReadOnly(s.regs, s.writable, o, WordBytes(ClearEnable(c)));
      FixedControl(s, o);
      s.(regs := Write(s.regs, s.writable, o, WordBytes(ClearEnable(c))))
  }

  /** Storing the corrected word can only clear the three enable bits. */
  lemma FixedControl(s: Space, o: nat)
    requires Fits(s, o)
    ensures var t := s.(regs := Write(s.regs, s.writable, o, WordBytes(ClearEnable(Control(s, o)))));
            && (forall i :: 0 <= i < 16 && !(4 <= i < 7) ==> Control(t, o)[i] == Control(s, o)[i])
            && (forall i :: 4 <= i < 7 ==> Control(t, o)[i] == (!s.writable[o][i] && Control(s, o)[i]))
  {
    var w := WordBytes(ClearEnable(Control(s, o)));
    var t := Write(s.regs, s.writable, o, w);
    assert t[o] == Update(s.regs[o], w[0], s.writable[o]);
    assert t[o + 1] == Update(s.regs[o + 1], w[1], s.writable[o + 1]);
    assert forall i :: 0 <= i < 8 ==> w[0][i] == (s.regs[o][i] && !(4 <= i < 7));
    assert w[1] == s.regs[o + 1];
  }

  predicate MsiReports(c: Bits, o: nat, offset: nat, size: nat)
    requires IsControl(c)
  {
    || RangeOverlaps(offset, size, o + ADDRESS, if Is64(c) then 8 else 4)
    || RangeOverlaps(offset, size, o + DataOffset(c), 2)
  }

  /** `on_write_config` of MSI, after the write itself was stored. */
  function MsiOnWrite(s: Space, o: nat, offset: nat, size: nat, sent: seq<Delivery>): (r: MsiWrite)
    requires Fits(s, o)
    ensures Fits(r.space, o)
  {
    if !MsiHandles(s, o, offset, size) then MsiWrite(s, sent, None)
    else
      var onControl := RangeOverlaps(offset, size, o, 2);
      var s1 := if onControl then FixControl(s, o) else s;
      var c := Control(s1, o);
      var evaluate := || (onControl && c[0] && HasMasking(c))
                      || (HasMasking(c) && RangeOverlaps(offset, size, o + MaskOffset(c), 4));
      var e := if evaluate then MsiEvaluateFrom(s1, o, 0, sent) else MsiResult(s1, sent);
      MsiWrite(e.space, e.sent, if MsiReports(c, o, offset, size) then Some(MsiMessage(e.space, o, 0)) else None)
  }

  /** The handler's own stores obey the writable bits: whatever guest writes keep, it keeps. */
  lemma MsiOnWriteFrame(s: Space, o: nat, offset: nat, size: nat, sent: seq<Delivery>)
    requires Fits(s, o)
    ensures GuestFrame(s, MsiOnWrite(s, o, offset, size, sent).space)
  {
    hide MsiMessage;
    if MsiHandles(s, o, offset, size) {
      var s1 := if RangeOverlaps(offset, size, o, 2) then FixControl(s, o) else s;
      EvaluateFrame(s1, o, 0, sent);
    }
  }

  lemma {:induction false} EvaluateFrame(s: Space, o: nat, start: nat, sent: seq<Delivery>)
    requires Fits(s, o)
    ensures GuestFrame(s, MsiEvaluateFrom(s, o, start, sent).space)
    decreases 32 - start
  {
    hide MsiTryGenerate, MsiSent;
    var n := NextPendingVector(s, o, start);
    if n.Some? {
      AttemptFits(s, o, n.value);
      var a := MsiTryGenerate(s, o, n.value);
      EvaluateFrame(a.space, o, n.value + 1, sent + MsiSent(a, n.value));
    }
  }

  /** Whatever guest and handler write, the layout and the writable bits of the capability stay. */
  lemma ReadyFrame(s: Space, t: Space, o: nat, m: MsiSetup)
    requires MsiReady(s, o, m) && WellFormed(t) && GuestFrame(s, t)
    ensures MsiReady(t, o, m)
  {
    assert SetupWritable(m, 0) == [true, false, false, false, true, true, true, false];
    assert SetupWritable(m, ADDRESS) == From(ONES_BYTE, 2);
    var a, b := Control(s, o), Control(t, o);
    assert a[1] == b[1] && a[2] == b[2] && a[3] == b[3] && a[7] == b[7];
    assert a[8] == b[8];
    assert a[1..4] == b[1..4];
  }

  // ---------- messages ----------

  /** After every write that touches the control word the enabled vector count is legal and at most the capable one. */
  lemma EnableAlwaysLegal(s: Space, o: nat, m: MsiSetup)
    requires MsiReady(s, o, m)
    ensures EnableLegal(Control(FixControl(s, o), o))
    ensures EnableLegal(Control(s, o)) ==> FixControl(s, o) == s
    ensures !EnableLegal(Control(s, o)) ==> Enabled(Control(FixControl(s, o), o)) == 0
  {
    hide EnableLegal, Write;
    if !EnableLegal(Control(s, o)) {
      FixedControl(s, o);
      var t := FixControl(s, o);
      assert SetupWritable(m, 0) == [true, false, false, false, true, true, true, false];
      assert Control(t, o)[4..7] == Zeros(3);
      ZeroIsLegal(Control(t, o));
    }
  }

  lemma ZeroIsLegal(c: Bits)
    requires IsControl(c) && c[4..7] == Zeros(3)
    ensures EnableLegal(c) && Enabled(c) == 0
  {
    ZerosVal(3);
  }

  /** The message for a vector below the enabled count: upper data bits from the guest, the vector in the low bits. */
  lemma DataEncoding(c: Bits, data: Bits, v: nat)
    requires IsControl(c) && |data| == 16 && v < Pow2(Enabled(c))
    ensures DataFor(c, data, v)[Enabled(c)..] == data[Enabled(c)..]
    ensures Val(DataFor(c, data, v)[..Enabled(c)]) == v
  {
    var e, f := Enabled(c), DataFor(c, data, v);
    SmallBits(v, e, 16);
    assert f[..e] == ToBits(v, e);
    ValToBits(v, e);
  }

  /** Messages are dword-aligned, and distinct vectors below the enabled count give distinct messages. */
  lemma MessageEncoding(s: Space, o: nat, m: MsiSetup, v: nat, w: nat)
    requires MsiReady(s, o, m)
    requires v < Pow2(Enabled(Control(s, o))) && w < Pow2(Enabled(Control(s, o)))
    ensures MsiMessage(s, o, v).address % 4 == 0
    ensures MsiMessage(s, o, v).address == MsiMessage(s, o, w).address
    ensures MsiMessage(s, o, v).data == MsiMessage(s, o, w).data ==> v == w
  {
    var c := Control(s, o);
    var a := Dword(s.regs, o + ADDRESS) + (if Is64(c) then Dword(s.regs, o + ADDRESS_UPPER) else []);
    assert Pow2(2) == 4;
    assert !a[0] && !a[1];
    LowZerosMultiple(a, 2);
    var data := Word(s.regs, o + DataOffset(c));
    DataEncoding(c, data, v);
    DataEncoding(c, data, w);
    if MsiMessage(s, o, v).data == MsiMessage(s, o, w).data {
      ValInjective(DataFor(c, data, v), DataFor(c, data, w));
    }
  }

  /** Writing the address register: the message carries what was written, rounded down to a dword. */
  lemma ProgrammedAddress(s: Space, o: nat, m: MsiSetup, f: Bits, v: nat)
    requires MsiReady(s, o, m) && o % 4 == 2 && |f| == 32
    requires forall i :: o + ADDRESS < i < o + ADDRESS + 4 ==> s.writable[i] == ONES_BYTE
    ensures var t := GuestWrite(s, o + ADDRESS, DwordBytes(f));
            && Fits(t, o) && Control(t, o) == Control(s, o)
            && MsiMessage(t, o, v).address ==
                 Val(From(f, 2)) + (if m.is64 then 0x1_0000_0000 * Val(Dword(s.regs, o + ADDRESS_UPPER)) else 0)
            && MsiMessage(t, o, v).data == MsiMessage(s, o, v).data
  {
    hide MsiReady, GuestWrite, Val, DwordBytes;
    AddressReady(s, o, m);
    var a, t, c := o + ADDRESS, GuestWrite(s, o + ADDRESS, DwordBytes(f)), Control(s, o);
    AddressElsewhere(s, o, DwordBytes(f));
    assert Dword(t.regs, a) == From(f, 2) by {
      forall j | 0 <= j < 32 ensures Dword(t.regs, a)[j] == From(f, 2)[j] {
        AddressBit(s, a, f, j);
      }
    }
    assert From(f, 2) + [] == From(f, 2);
    ValConcat(From(f, 2), Dword(s.regs, o + ADDRESS_UPPER));
    Pow32();
  }

  lemma AddressReady(s: Space, o: nat, m: MsiSetup)
    requires MsiReady(s, o, m)
    ensures Is64(Control(s, o)) == m.is64 && Fits(s, o) && s.writable[o + ADDRESS] == From(ONES_BYTE, 2)
    ensures !Dword(s.regs, o + ADDRESS)[0] && !Dword(s.regs, o + ADDRESS)[1]
  {
  }

  /** The other message fields are elsewhere. */
  lemma AddressElsewhere(s: Space, o: nat, data: Bytes)
    requires Fits(s, o) && |data| == 4
    ensures var t, c := GuestWrite(s, o + ADDRESS, data), Control(s, o);
            && Fits(t, o) && Control(t, o) == c && Word(t.regs, o + DataOffset(c)) == Word(s.regs, o + DataOffset(c))
            && (Is64(c) ==> Dword(t.regs, o + ADDRESS_UPPER) == Dword(s.regs, o + ADDRESS_UPPER))
  {
    var t, c := GuestWrite(s, o + ADDRESS, data), Control(s, o);
    assert forall i :: 0 <= i < SPACE_SIZE && !(o + ADDRESS <= i < o + ADDRESS + 4) ==> t.regs[i] == s.regs[i];
    assert Control(t, o) == c;
  }

  lemma AddressBit(s: Space, a: nat, f: Bits, j: nat)
    requires WellFormed(s) && a + 4 <= SPACE_SIZE && a % 4 == 0 && |f| == 32 && j < 32
    requires s.writable[a] == From(ONES_BYTE, 2) && !Dword(s.regs, a)[0] && !Dword(s.regs, a)[1]
    requires forall i :: a < i < a + 4 ==> s.writable[i] == ONES_BYTE
    ensures Dword(GuestWrite(s, a, DwordBytes(f)).regs, a)[j] == From(f, 2)[j]
  {
    hide Dword, DwordBytes, From;
    DwordBit(GuestWrite(s, a, DwordBytes(f)).regs, a, j);
    DwordBit(DwordBytes(f), 0, j);
    DwordBit(s.regs, a, j);
    KeptBits(s.writable[a], f, j);
  }

  lemma KeptBits(w: Byte, f: Bits, j: nat)
    requires w == From(ONES_BYTE, 2) && |f| == 32 && j < 32
    ensures From(f, 2)[j] == (j >= 2 && f[j]) && (j < 8 ==> w[j] == (j >= 2))
  {
  }

  // ---------- reporting ----------

  /** The message registers: address, upper address if there is one, and data, one behind the other. */
  predicate MessageByte(o: nat, is64: bool, x: int) {
    o + 2 <= x < o + if is64 then 12 else 8
  }

  /** The handler reports exactly the writes that touch a message register, with the message of vector 0 as it now is. */
  lemma ReportsIff(s: Space, o: nat, m: MsiSetup, offset: nat, size: nat, sent: seq<Delivery>)
    requires MsiReady(s, o, m) && size > 0 && offset + size <= SPACE_SIZE
    ensures var r := MsiOnWrite(s, o, offset, size, sent);
            && (r.update.Some? <==> exists x :: InRange(x, offset, size) && MessageByte(o, m.is64, x))
            && (r.update.Some? ==> r.update.value == MsiMessage(r.space, o, 0))
  {
    hide MsiEvaluateFrom, MsiMessage;
    var t := FixControl(s, o);
    ReadyFrame(s, t, o, m);
    var start := if offset <= o + 2 then o + 2 else offset;
    if exists x :: InRange(x, offset, size) && MessageByte(o, m.is64, x) {
      assert InRange(start, offset, size) && MessageByte(o, m.is64, start);
    }
    if MsiOnWrite(s, o, offset, size, sent).update.Some? {
      assert InRange(start, offset, size) && MessageByte(o, m.is64, start);
    }
  }

  /** A write to a message register alone sends nothing and changes nothing further. */
  lemma MessageWriteIsQuiet(s: Space, o: nat, m: MsiSetup, offset: nat, size: nat, sent: seq<Delivery>)
    requires MsiReady(s, o, m) && size > 0 && offset + size <= SPACE_SIZE
    requires o + 2 <= offset && offset + size <= o + if m.is64 then 14 else 10
    ensures MsiOnWrite(s, o, offset, size, sent).space == s && MsiOnWrite(s, o, offset, size, sent).sent == sent
  {
    hide MsiEvaluateFrom, MsiMessage;
  }

  /** Writing the address register reports the message with the new address. */
  lemma AddressReported(s: Space, o: nat, m: MsiSetup, f: Bits, sent: seq<Delivery>)
    requires MsiReady(s, o, m) && o % 4 == 2 && |f| == 32
    requires forall i :: o + ADDRESS < i < o + ADDRESS + 4 ==> s.writable[i] == ONES_BYTE
    ensures var t := GuestWrite(s, o + 2, DwordBytes(f));
            && Fits(t, o)
            && MsiOnWrite(t, o, o + 2, 4, sent).update ==
                 Some(Message(Val(From(f, 2)) + (if m.is64 then 0x1_0000_0000 * Val(Dword(s.regs, o + 6)) else 0), MsiMessage(s, o, 0).data))
  {
    hide GuestWrite, MsiMessage, Val, MsiOnWrite, DwordBytes;
    AddressReady(s, o, m);
    ProgrammedAddress(s, o, m, f, 0);
    var t := GuestWrite(s, o + 2, DwordBytes(f));
    GuestWriteFrame(s, o + 2, DwordBytes(f));
    ReadyFrame(s, t, o, m);
    assert InRange(o + 2, o + 2, 4) && MessageByte(o, m.is64, o + 2);
    ReportsIff(t, o, m, o + 2, 4, sent);
    MessageWriteIsQuiet(t, o, m, o + 2, 4, sent);
  }

  /** Writing the data register reports the message with the new data, its low bits cleared for vector 0. */
  lemma DataReported(s: Space, o: nat, m: MsiSetup, w: Bits, sent: seq<Delivery>)
    requires MsiReady(s, o, m) && o % 4 == 2 && |w| == 16
    requires var d := o + (if m.is64 then 10 else 6); s.writable[d] == s.writable[d + 1] == ONES_BYTE
    ensures var t := GuestWrite(s, o + (if m.is64 then 10 else 6), WordBytes(w));
            && Fits(t, o)
            && MsiOnWrite(t, o, o + (if m.is64 then 10 else 6), 2, sent).update ==
                 Some(Message(MsiMessage(s, o, 0).address, Val(From(w, Enabled(Control(s, o))))))
  {
    var d := o + if m.is64 then 10 else 6;
    var t := GuestWrite(s, d, WordBytes(w));
    GuestWriteFrame(s, d, WordBytes(w));
    ReadyFrame(s, t, o, m);
    DataStored(s, o, m, w);
    assert InRange(d, d, 2) && MessageByte(o, m.is64, d);
    ReportsIff(t, o, m, d, 2, sent);
    MessageWriteIsQuiet(t, o, m, d, 2, sent);
  }

  lemma DataStored(s: Space, o: nat, m: MsiSetup, w: Bits)
    requires MsiReady(s, o, m) && o % 4 == 2 && |w| == 16
    requires var d := o + (if m.is64 then 10 else 6); s.writable[d] == s.writable[d + 1] == ONES_BYTE
    requires Fits(GuestWrite(s, o + (if m.is64 then 10 else 6), WordBytes(w)), o)
    ensures var t := GuestWrite(s, o + (if m.is64 then 10 else 6), WordBytes(w));
            MsiMessage(t, o, 0) == Message(MsiMessage(s, o, 0).address, Val(From(w, Enabled(Control(s, o)))))
  {
    hide MsiReady, GuestWrite, Val, WordBytes, DataFor;
    AddressReady(s, o, m);
    var d, c := o + (if m.is64 then 10 else 6), Control(s, o);
    DataBytes(s, o, w);
    DataForZero(c, w);
  }

  /** The store itself: the data word is the one written, the other message fields are elsewhere. */
  lemma DataBytes(s: Space, o: nat, w: Bits)
    requires Fits(s, o) && o % 4 == 2 && |w| == 16
    requires var d := o + DataOffset(Control(s, o)); s.writable[d] == s.writable[d + 1] == ONES_BYTE
    ensures var c := Control(s, o);
            var t := GuestWrite(s, o + DataOffset(c), WordBytes(w));
            && Word(t.regs, o + DataOffset(c)) == w && Control(t, o) == c
            && Dword(t.regs, o + ADDRESS) == Dword(s.regs, o + ADDRESS)
            && (Is64(c) ==> Dword(t.regs, o + ADDRESS_UPPER) == Dword(s.regs, o + ADDRESS_UPPER))
  {
    hide GuestWrite, Set, Word, WordBytes;
    var d := o + DataOffset(Control(s, o));
    Stores(s, d, WordBytes(w));
    SetWordAt(s.regs, d, w);
    SetElsewhere(s.regs, d, WordBytes(w), o);
    SetElsewhere(s.regs, d, WordBytes(w), o + 2);
    SetElsewhere(s.regs, d, WordBytes(w), o + 4);
    if Is64(Control(s, o)) {
      SetElsewhere(s.regs, d, WordBytes(w), o + 6);
      SetElsewhere(s.regs, d, WordBytes(w), o + 8);
    }
  }

  lemma DataForZero(c: Bits, w: Bits)
    requires IsControl(c) && |w| == 16
    ensures DataFor(c, w, 0) == From(w, Enabled(c))
  {
    ZeroBits(16);
  }

  lemma {:induction false} ZeroBits(width: nat)
    ensures ToBits(0, width) == Zeros(width)
  {
    if width > 0 {
      ZeroBits(width - 1);
    }
  }
}
