/**
 The PCI configuration access window (pci_cfg_cap.rs): BAR accesses through four bytes
 of configuration space. The function behind the window is any state `D` with any
 `read_bar`/`write_bar`, given as transition functions over the whole function state.
 */
module Window {
  import opened Basics
  import opened Bits
  import opened RegisterBlock
  import opened ConfigSpace
  import opened Bars
  import opened Capabilities
  import opened CapabilityList
  import opened BarDecoding
  import opened Routing

  // Offsets inside the capability's data.
  const REG_BAR: nat := 2
  const REG_OFFSET: nat := 6
  const REG_LENGTH: nat := 10
  const REG_DATA: nat := 14

  datatype Fn<D> = Fn(space: Space, device: D)

  /** `read_bar(bar, offset, &mut data[..len])`: the new state and the bytes read. */
  type Reader<!D> = (Fn<D>, nat, nat, nat) -> (Fn<D>, Result<Bytes, Error>)

  type Writer<!D> = (Fn<D>, nat, nat, Bytes) -> Fn<D>

  predicate Usable<D>(f: Fn<D>, o: nat) {
    BarTable(f.space) && DEVICE_START <= o && o + 18 <= SPACE_SIZE
  }

  /** The window's four data bytes take stores unmasked, as the capability sets them up. */
  predicate DataWritable(s: Space, o: nat)
    requires WellFormed(s) && o + 18 <= SPACE_SIZE
  {
    forall i :: o + REG_DATA <= i < o + REG_DATA + 4 ==> s.writable[i] == ONES_BYTE
  }

  /** The bytes a guest reads from `pci_cfg_data`. */
  function WindowData(s: Space, o: nat): Bytes
    requires WellFormed(s) && o + 18 <= SPACE_SIZE
  {
    s.regs[o + REG_DATA..o + REG_DATA + 4]
  }

  /** `update_pci_cfg_data`. */
  function SetData<D>(f: Fn<D>, o: nat, data: Bytes): (r: Fn<D>)
    requires WellFormed(f.space) && o + 18 <= SPACE_SIZE && |data| == 4
    ensures WellFormed(r.space) && r.device == f.device
  {
    f.(space := f.space.(regs := Write(f.space.regs, f.space.writable, o + REG_DATA, data)))
  }

  /** The BAR number, offset and length the driver programmed. */
  function Selected(s: Space, o: nat): (r: (nat, nat, nat))
    requires WellFormed(s) && o + 18 <= SPACE_SIZE
  {
    (Val(s.regs[o + REG_BAR]), Val(Dword(s.regs, o + REG_OFFSET)), Val(Dword(s.regs, o + REG_LENGTH)))
  }

  /** `find_bar`: no BAR for an index that is not one of the six. */
  function SelectedBar(s: Space, o: nat): Option<Bar>
    requires BarTable(s) && o + 18 <= SPACE_SIZE
  {
    if Selected(s, o).0 < NUM_BARS then GetBar(s, Selected(s, o).0) else None
  }

  predicate Handles(o: nat, offset: nat, size: nat) {
    RangeOverlaps(offset, size, o + REG_DATA, 4)
  }

  /** The window access: which BAR access it becomes, if any. */
  function Resolve(s: Space, o: nat): (r: Option<Target>)
    requires BarTable(s) && o + 18 <= SPACE_SIZE
    ensures r.Some? ==> r.value.bar < NUM_BARS && Selected(s, o).2 <= 4
  {
    var (_, offset, length) := Selected(s, o);
    match SelectedBar(s, o)
    case None => None
    case Some(bar) =>
      if length > 4 || bar.address.None? then None
      else
        var address := bar.address.value + offset;
        if bar.kind.Io? && address > 0xFFFF then None
        else Route(s, address, length, !bar.kind.Io?)
  }

  /** Short reads are padded with ones. */
  function Padded(b: Bytes): (r: Bytes)
    requires |b| <= 4
    ensures |r| == 4
  {
    b + seq(4 - |b|, _ => ONES_BYTE)
  }

  /** `prepare_read`: all ones unless a BAR access succeeds. */
  function PrepareRead<D>(f: Fn<D>, o: nat, read: Reader<D>, offset: nat, size: nat): Fn<D>
    requires Usable(f, o)
  {
    if !Handles(o, offset, size) then f
    else
      var f1 := SetData(f, o, ONES);
      match Resolve(f1.space, o)
      case None => f1
      case Some(t) =>
        var length := Selected(f1.space, o).2;
        var (f2, result) := read(f1, t.bar, t.offset, length);
        if !WellFormed(f2.space) then f2
        else if result.Ok? && |result.value| == length then SetData(f2, o, Padded(result.value))
        else SetData(f2, o, ONES)
  }

  /** `process_write`, after the write to `pci_cfg_data` itself was stored. */
  function ProcessWrite<D>(f: Fn<D>, o: nat, write: Writer<D>, offset: nat, size: nat): Fn<D>
    requires Usable(f, o)
  {
    if !Handles(o, offset, size) then f
    else match Resolve(f.space, o)
      case None => f
      case Some(t) => write(f, t.bar, t.offset, WindowData(f.space, o)[..Selected(f.space, o).2])
  }

  /** The driver selected a decoded BAR and a window of one to four bytes inside it. */
  ghost predicate InWindow(s: Space, o: nat)
    requires BarTable(s) && o + 18 <= SPACE_SIZE
  {
    var (_, offset, length) := Selected(s, o);
    match SelectedBar(s, o)
    case None => false
    case Some(bar) => 1 <= length <= 4 && offset + length <= bar.size && bar.address.Some?
  }

  /** The driver selected a decoded BAR and one to four bytes somewhere. */
  predicate Chosen(s: Space, o: nat)
    requires BarTable(s) && o + 18 <= SPACE_SIZE
  {
    match SelectedBar(s, o)
    case None => false
    case Some(bar) => bar.address.Some? && 1 <= Selected(s, o).2 <= 4
  }

  /** I/O accesses start at a 16-bit port. */
  predicate Portable(bar: Bar, offset: nat) {
    bar.kind.Io? && bar.address.Some? ==> bar.address.value + offset <= 0xFFFF
  }

  /**
   The access stays in the selected BAR, at the selected offset, if and only if it lies inside the BAR, the BAR does
   not wrap past the last 64-bit address and, for I/O, it starts at a 16-bit port.
   */
  lemma ResolvesToSelection(s: Space, o: nat)
    requires BarTable(s) && o + 18 <= SPACE_SIZE && Chosen(s, o) && DisjointBars(s, !SelectedBar(s, o).value.kind.Io?)
    ensures var bar, (i, offset, length) := SelectedBar(s, o).value, Selected(s, o);
            Resolve(s, o) == Some(Target(i, offset)) <==>
            offset + length <= bar.size && bar.address.value + bar.size < WORD_LIMIT && Portable(bar, offset)
  {
    hide GetBar, DisjointBars, RouteFrom;
    var (i, offset, length) := Selected(s, o);
    var bar := SelectedBar(s, o).value;
    if offset + length <= bar.size {
      InRangeRoutes(s, i, offset, length);
    } else {
      NeverHit(s, 0, i, bar.address.value + offset, length, !bar.kind.Io?);
    }
  }

  /**
   The window goes by address, not by BAR: a selected offset that runs past the selected BAR into another
   decoded BAR of the same kind accesses that one.
   */
  lemma ResolvesToNeighbour(s: Space, o: nat, j: nat)
    requires BarTable(s) && o + 18 <= SPACE_SIZE && Chosen(s, o) && j < NUM_BARS
    requires var bar := SelectedBar(s, o).value;
             && DisjointBars(s, !bar.kind.Io?) && Portable(bar, Selected(s, o).1)
             && Hits(s, j, bar.address.value + Selected(s, o).1, Selected(s, o).2, !bar.kind.Io?)
    ensures var address := SelectedBar(s, o).value.address.value + Selected(s, o).1;
            Resolve(s, o) == Some(Target(j, address - GetBar(s, j).value.address.value))
  {
    hide GetBar, DisjointBars, RouteFrom;
    var (_, offset, length) := Selected(s, o);
    var bar := SelectedBar(s, o).value;
    RouteUnique(s, 0, j, bar.address.value + offset, length, !bar.kind.Io?);
  }

  /** The selection is in range of a decoded BAR that does not wrap, among disjoint BARs. */
  ghost predicate Reachable(s: Space, o: nat)
    requires BarTable(s) && o + 18 <= SPACE_SIZE
  {
    && InWindow(s, o)
    && var bar := SelectedBar(s, o).value;
       DisjointBars(s, !bar.kind.Io?) && bar.address.value + bar.size < WORD_LIMIT && Portable(bar, Selected(s, o).1)
  }

  lemma SelectedRead<D>(f: Fn<D>, o: nat, read: Reader<D>, offset: nat, size: nat)
    requires Usable(f, o) && DataWritable(f.space, o) && Handles(o, offset, size) && Reachable(f.space, o)
    ensures var f1 := SetData(f, o, ONES);
            var (i, at, length) := Selected(f.space, o);
            var (f2, result) := read(f1, i, at, length);
            WellFormed(f2.space) && f2.space.writable == f1.space.writable && (result.Ok? ==> |result.value| == length) ==>
              var g := PrepareRead(f, o, read, offset, size);
              && WellFormed(g.space) && g.device == f2.device
              && WindowData(g.space, o) == (if result.Ok? then Padded(result.value) else ONES)
              && OnlyData(f2.space, g.space, o)
  {
    hide GetBar, Selected, SelectedBar, InWindow, DisjointBars;
    var f1 := SetData(f, o, ONES);
    DataStored(f, o, ONES);
    SameSelection(f.space, f1.space, o);
    WindowLength(f.space, o);
    SameDisjoint(f.space, f1.space, !SelectedBar(f.space, o).value.kind.Io?);
    ResolvesToSelection(f1.space, o);
    var (i, at, length) := Selected(f1.space, o);
    var (f2, result) := read(f1, i, at, length);
    if WellFormed(f2.space) && f2.space.writable == f1.space.writable && (result.Ok? ==> |result.value| == length) {
      DataStored(f2, o, if result.Ok? then Padded(result.value) else ONES);
    }
  }

  lemma WindowLength(s: Space, o: nat)
    requires BarTable(s) && o + 18 <= SPACE_SIZE && InWindow(s, o)
    ensures 1 <= Selected(s, o).2 <= 4 && SelectedBar(s, o).Some? && SelectedBar(s, o).value.address.Some?
    ensures Selected(s, o).1 + Selected(s, o).2 <= SelectedBar(s, o).value.size
  {
  }

  /** The two spaces differ in the window's data bytes only. */
  ghost predicate OnlyData(s: Space, t: Space, o: nat)
    requires WellFormed(s) && WellFormed(t)
  {
    && t.writable == s.writable && t.bars == s.bars && t.lastCapSize == s.lastCapSize
    && forall i :: 0 <= i < SPACE_SIZE && !(o + REG_DATA <= i < o + REG_DATA + 4) ==> t.regs[i] == s.regs[i]
  }

  lemma DataStored<D>(f: Fn<D>, o: nat, data: Bytes)
    requires WellFormed(f.space) && o + 18 <= SPACE_SIZE && |data| == 4 && DataWritable(f.space, o)
    ensures WindowData(SetData(f, o, data).space, o) == data
    ensures OnlyData(f.space, SetData(f, o, data).space, o)
  {
    FullyWritable(f.space.regs, f.space.writable, o + REG_DATA, data);
  }

  lemma SelectedWrite<D>(f: Fn<D>, o: nat, write: Writer<D>, offset: nat, size: nat)
    requires Usable(f, o) && Handles(o, offset, size) && Reachable(f.space, o)
    ensures var (i, at, length) := Selected(f.space, o);
            && length <= 4
            && ProcessWrite(f, o, write, offset, size) == write(f, i, at, WindowData(f.space, o)[..length])
  {
    hide GetBar, Selected, SelectedBar, InWindow, DisjointBars;
    WindowLength(f.space, o);
    ResolvesToSelection(f.space, o);
  }

  /** The driver's selection is unusable: bad BAR number, BAR not decoded, or a length outside 1..4. */
  predicate BadSelection(s: Space, o: nat)
    requires BarTable(s) && o + 18 <= SPACE_SIZE
  {
    SelectedBar(s, o).None? || Selected(s, o).2 == 0 || Selected(s, o).2 > 4
  }

  /** Then nothing is accessed: a read shows all ones and a write has no effect. */
  lemma BadSelectionIsInert<D>(f: Fn<D>, o: nat, read: Reader<D>, write: Writer<D>, offset: nat, size: nat)
    requires Usable(f, o) && DataWritable(f.space, o) && Handles(o, offset, size)
    requires BadSelection(f.space, o)
    ensures ProcessWrite(f, o, write, offset, size) == f
    ensures PrepareRead(f, o, read, offset, size) == SetData(f, o, ONES)
    ensures WindowData(PrepareRead(f, o, read, offset, size).space, o) == ONES
  {
    DataStored(f, o, ONES);
    var f1 := SetData(f, o, ONES);
    SameSelection(f.space, f1.space, o);
    Unresolved(f.space, o);
    Unresolved(f1.space, o);
  }

  lemma Unresolved(s: Space, o: nat)
    requires BarTable(s) && o + 18 <= SPACE_SIZE && BadSelection(s, o)
    ensures Resolve(s, o).None?
  {
    hide GetBar, Selected;
    if SelectedBar(s, o).Some? && Selected(s, o).2 == 0 {
      var bar := SelectedBar(s, o).value;
      if bar.address.Some? {
        EmptyRoutesNowhere(s, 0, bar.address.value + Selected(s, o).1, !bar.kind.Io?);
      }
    }
  }

  lemma {:induction false} EmptyRoutesNowhere(s: Space, i: nat, address: nat, mem: bool)
    requires BarTable(s) && i <= NUM_BARS
    ensures RouteFrom(s, i, address, 0, mem).None?
    decreases NUM_BARS - i
  {
    if i < NUM_BARS {
      EmptyRoutesNowhere(s, i + 1, address, mem);
    }
  }

  /** The data bytes are not part of the selection, the BARs or the Command register. */
  lemma SameSelection(s: Space, t: Space, o: nat)
    requires BarTable(s) && WellFormed(t) && o + 18 <= SPACE_SIZE && o >= DEVICE_START && OnlyData(s, t, o)
    ensures BarTable(t) && Selected(t, o) == Selected(s, o) && SelectedBar(t, o) == SelectedBar(s, o)
  {
    assert t.regs[o + REG_BAR] == s.regs[o + REG_BAR];
    assert Dword(t.regs, o + REG_OFFSET) == Dword(s.regs, o + REG_OFFSET);
    assert Dword(t.regs, o + REG_LENGTH) == Dword(s.regs, o + REG_LENGTH);
    var i := Selected(s, o).0;
    if i < NUM_BARS {
      SameBar(s, t, i);
    }
  }

  lemma SameDisjoint(s: Space, t: Space, mem: bool)
    requires BarTable(s) && BarTable(t) && t.bars == s.bars && DisjointBars(s, mem)
    requires forall j :: 0 <= j < DEVICE_START ==> t.regs[j] == s.regs[j]
    ensures DisjointBars(t, mem)
  {
    hide GetBar;
    forall i, j | 0 <= i < NUM_BARS && 0 <= j < NUM_BARS && i != j ensures Apart(t, i, j, mem) {
      assert Apart(s, i, j, mem);
      SameBar(s, t, i);
      SameBar(s, t, j);
    }
  }

  lemma SameBar(s: Space, t: Space, i: nat)
    requires BarTable(s) && BarTable(t) && t.bars == s.bars && i < NUM_BARS
    requires forall j :: 0 <= j < DEVICE_START ==> t.regs[j] == s.regs[j]
    ensures GetBar(t, i) == GetBar(s, i)
  {
    if s.bars[i].Some? {
      var bar := s.bars[i].value;
      assert Word(t.regs, COMMAND) == Word(s.regs, COMMAND);
      assert Dword(t.regs, BarOffset(i)) == Dword(s.regs, BarOffset(i));
      assert bar.kind.Mem64? ==> Dword(t.regs, BarOffset(i) + 4) == Dword(s.regs, BarOffset(i) + 4);
    }
  }

  // ---------- driving the window ----------

  /** BAR number, offset and length take guest writes unmasked, as the capability sets them up. */
  predicate SelectorWritable(s: Space, o: nat)
    requires WellFormed(s) && o + 18 <= SPACE_SIZE
  {
    s.writable[o + 2] == ONES_BYTE && forall i :: o + 6 <= i < o + 14 ==> s.writable[i] == ONES_BYTE
  }

  /** The writable bits of the window capability: BAR number, offset, length and data. */
  predicate WindowCapability(cap: Capability) {
    && |cap.registers| == |cap.writable| == 18
    && cap.writable[2] == ONES_BYTE && forall i :: 6 <= i < 18 ==> cap.writable[i] == ONES_BYTE
  }

  /** Every reachable space with the window capability in its list can be driven. */
  lemma StoredWindow(s: Space, slot: Slot)
    requires WellFormed(s) && Stored(s, slot) && WindowCapability(slot.cap)
    ensures SelectorWritable(s, slot.start + 2) && DataWritable(s, slot.start + 2)
  {
    var o := slot.start + 2;
    forall i | 0 <= i < 18 ensures s.writable[o + i] == slot.cap.writable[i] {
      assert s.writable[o + i] == s.writable[o..End(slot)][i];
    }
    assert forall i :: o <= i < o + 18 ==> s.writable[i] == slot.cap.writable[i - o];
  }

  /** The driver's three writes: BAR number, offset, length. */
  function Program(s: Space, o: nat, b: Byte, at: Bits, n: Bits): (r: Space)
    requires WellFormed(s) && |at| == |n| == 32
    ensures WellFormed(r)
  {
    GuestWrite(GuestWrite(GuestWrite(s, o + 2, [b]), o + 6, DwordBytes(at)), o + 10, DwordBytes(n))
  }

  lemma Programmed(s: Space, o: nat, b: Byte, at: Bits, n: Bits)
    requires BarTable(s) && DEVICE_START <= o && o + 18 <= SPACE_SIZE && o % 4 == 2 && |at| == |n| == 32 && SelectorWritable(s, o)
    ensures var t := Program(s, o, b, at, n);
            && BarTable(t) && t.bars == s.bars && t.writable == s.writable
            && t.regs[o + 2] == b && Dword(t.regs, o + 6) == at && Dword(t.regs, o + 10) == n
            && (forall j :: 0 <= j < DEVICE_START ==> t.regs[j] == s.regs[j])
            && (forall j :: o + 14 <= j < o + 18 ==> t.regs[j] == s.regs[j])
  {
    hide GuestWrite, DwordBytes;
    var s1 := GuestWrite(s, o + 2, [b]);
    Stores(s, o + 2, [b]);
    var s2 := GuestWrite(s1, o + 6, DwordBytes(at));
    Stores(s1, o + 6, DwordBytes(at));
    var s3 := GuestWrite(s2, o + 10, DwordBytes(n));
    Stores(s2, o + 10, DwordBytes(n));
    SetDwordAt(s1.regs, o + 6, at);
    SetDwordAt(s2.regs, o + 10, n);
    assert forall j :: o + 6 <= j < o + 10 ==> s3.regs[j] == s2.regs[j];
  }

  lemma SetDwordAt(regs: Bytes, p: nat, f: Bits)
    requires p + 4 <= |regs| && |f| == 32
    ensures Dword(Set(regs, p, DwordBytes(f)), p) == f
  {
    var r := Set(regs, p, DwordBytes(f));
    assert r[p] == DwordBytes(f)[0] && r[p + 1] == DwordBytes(f)[1] && r[p + 2] == DwordBytes(f)[2] && r[p + 3] == DwordBytes(f)[3];
  }

  /** What was written is what is selected, and the BARs are decoded as before. */
  lemma {:induction false} ProgrammedSelection(s: Space, o: nat, b: Byte, at: Bits, n: Bits)
    requires BarTable(s) && DEVICE_START <= o && o + 18 <= SPACE_SIZE && o % 4 == 2 && |at| == |n| == 32 && SelectorWritable(s, o)
    ensures var t := Program(s, o, b, at, n);
            && BarTable(t) && Selected(t, o) == (Val(b), Val(at), Val(n))
            && SelectedBar(t, o) == (if Val(b) < NUM_BARS then GetBar(s, Val(b)) else None)
            && forall mem: bool :: DisjointBars(s, mem) ==> DisjointBars(t, mem)
  {
    hide GetBar, Program, DisjointBars, Val, Dword;
    Programmed(s, o, b, at, n);
    var t := Program(s, o, b, at, n);
    if Val(b) < NUM_BARS {
      SameBar(s, t, Val(b));
    }
    forall mem: bool | DisjointBars(s, mem) ensures DisjointBars(t, mem) {
      SameDisjoint(s, t, mem);
    }
  }

  /** BAR `b` is decoded and `n` bytes at `at` lie in it, one to four; it does not wrap and an I/O access starts at a port. */
  predicate Inside(s: Space, b: nat, at: nat, n: nat)
    requires BarTable(s)
  {
    && b < NUM_BARS && 1 <= n <= 4
    && match GetBar(s, b)
       case None => false
       case Some(bar) =>
         bar.address.Some? && at + n <= bar.size && bar.address.value + bar.size < WORD_LIMIT && Portable(bar, at)
  }

  /**
   From what the driver writes: after byte `b`, dword `at` and dword `n` go to the BAR, offset and length registers of
   the window, with disjoint BARs and one to four bytes of a decoded BAR selected, the window resolves to BAR `b` at
   offset `at` if and only if the access lies inside that BAR.
   */
  lemma {:induction false} ProgrammedWindow(s: Space, o: nat, b: Byte, at: Bits, n: Bits)
    requires BarTable(s) && DEVICE_START <= o && o + 18 <= SPACE_SIZE && o % 4 == 2 && |at| == |n| == 32 && SelectorWritable(s, o)
    requires DisjointBars(s, true) && DisjointBars(s, false)
    requires Val(b) < NUM_BARS && GetBar(s, Val(b)).Some? && GetBar(s, Val(b)).value.address.Some? && 1 <= Val(n) <= 4
    ensures BarTable(Program(s, o, b, at, n))
    ensures Resolve(Program(s, o, b, at, n), o) == Some(Target(Val(b), Val(at))) <==> Inside(s, Val(b), Val(at), Val(n))
  {
    hide GetBar, Program, DisjointBars, Val, Resolve, Selected, SelectedBar;
    ProgrammedSelection(s, o, b, at, n);
    ResolvesToSelection(Program(s, o, b, at, n), o);
  }

  /** A programmed window inside a decoded BAR can be reached. */
  lemma {:induction false} ProgrammedReachable(s: Space, o: nat, b: Byte, at: Bits, n: Bits)
    requires BarTable(s) && DEVICE_START <= o && o + 18 <= SPACE_SIZE && o % 4 == 2 && |at| == |n| == 32 && SelectorWritable(s, o)
    requires DisjointBars(s, true) && DisjointBars(s, false) && Inside(s, Val(b), Val(at), Val(n))
    ensures BarTable(Program(s, o, b, at, n)) && Reachable(Program(s, o, b, at, n), o)
    ensures Selected(Program(s, o, b, at, n), o) == (Val(b), Val(at), Val(n))
  {
    hide GetBar, Program, DisjointBars, Val, Selected, SelectedBar;
    ProgrammedSelection(s, o, b, at, n);
  }

  /**
   Reading through the window: the driver writes BAR, offset and length and reads `pci_cfg_data`. That is `read_bar` of
   `n` bytes at BAR `b`, offset `at`: same data in the bytes the guest reads, unread bytes all ones, same effect on the
   function, nothing else changed.
   */
  lemma {:induction false} WindowReadRefines<D>(f: Fn<D>, o: nat, read: Reader<D>, b: Byte, at: Bits, n: Bits, offset: nat, size: nat)
    requires Usable(f, o) && DataWritable(f.space, o) && SelectorWritable(f.space, o) && o % 4 == 2 && |at| == |n| == 32
    requires DisjointBars(f.space, true) && DisjointBars(f.space, false) && Inside(f.space, Val(b), Val(at), Val(n))
    requires Handles(o, offset, size)
    ensures var f0 := f.(space := Program(f.space, o, b, at, n));
            var f1 := SetData(f0, o, ONES);
            var (f2, result) := read(f1, Val(b), Val(at), Val(n));
            && Usable(f0, o)
            && (WellFormed(f2.space) && f2.space.writable == f1.space.writable && (result.Ok? ==> |result.value| == Val(n)) ==>
                  var g := PrepareRead(f0, o, read, offset, size);
                  && WellFormed(g.space) && g.device == f2.device
                  && (result.Ok? ==> g.space.regs[o + 14..o + 14 + Val(n)] == result.value)
                  && (forall j :: o + 14 + (if result.Ok? then Val(n) else 0) <= j < o + 18 ==> g.space.regs[j] == ONES_BYTE)
                  && OnlyData(f2.space, g.space, o))
  {
    hide GetBar, Program, DisjointBars, Val, Selected, SelectedBar, Inside, Reachable, PrepareRead, SetData, OnlyData;
    ProgrammedReachable(f.space, o, b, at, n);
    StillWritable(f.space, o, b, at, n);
    var f0 := f.(space := Program(f.space, o, b, at, n));
    SelectedRead(f0, o, read, offset, size);
    var (f2, result) := read(SetData(f0, o, ONES), Val(b), Val(at), Val(n));
    if WellFormed(f2.space) && f2.space.writable == SetData(f0, o, ONES).space.writable && (result.Ok? ==> |result.value| == Val(n)) {
      DataMeans(PrepareRead(f0, o, read, offset, size).space, o, if result.Ok? then result.value else []);
    }
  }

  /** Padded data, byte by byte: what was read, then ones. */
  lemma DataMeans(s: Space, o: nat, value: Bytes)
    requires WellFormed(s) && o + 18 <= SPACE_SIZE && |value| <= 4 && WindowData(s, o) == Padded(value)
    ensures s.regs[o + 14..o + 14 + |value|] == value
    ensures forall j :: o + 14 + |value| <= j < o + 18 ==> s.regs[j] == ONES_BYTE
  {
    var d := WindowData(s, o);
    assert forall j :: o + 14 <= j < o + 18 ==> s.regs[j] == d[j - (o + 14)];
  }

  lemma StillWritable(s: Space, o: nat, b: Byte, at: Bits, n: Bits)
    requires BarTable(s) && DEVICE_START <= o && o + 18 <= SPACE_SIZE && o % 4 == 2 && |at| == |n| == 32 && SelectorWritable(s, o) && DataWritable(s, o)
    ensures DataWritable(Program(s, o, b, at, n), o)
  {
    hide Program;
    Programmed(s, o, b, at, n);
  }

  /**
   Writing through the window: the driver writes BAR, offset and length and then a dword of data. That is `write_bar` of
   the first `n` bytes of the data at BAR `b`, offset `at`.
   */
  lemma {:induction false} WindowWriteRefines<D>(f: Fn<D>, o: nat, write: Writer<D>, b: Byte, at: Bits, n: Bits, data: Bytes)
    requires Usable(f, o) && DataWritable(f.space, o) && SelectorWritable(f.space, o) && o % 4 == 2 && |at| == |n| == 32 && |data| == 4
    requires DisjointBars(f.space, true) && DisjointBars(f.space, false) && Inside(f.space, Val(b), Val(at), Val(n))
    ensures var s := GuestWrite(Program(f.space, o, b, at, n), o + 14, data);
            && Usable(f.(space := s), o) && Val(n) <= 4
            && ProcessWrite(f.(space := s), o, write, o + 14, 4) == write(f.(space := s), Val(b), Val(at), data[..Val(n)])
  {
    hide GetBar, Program, DisjointBars, Val, Selected, SelectedBar, Reachable, ProcessWrite;
    var s0 := Program(f.space, o, b, at, n);
    ProgrammedReachable(f.space, o, b, at, n);
    StillWritable(f.space, o, b, at, n);
    var f0 := f.(space := s0);
    Stores(s0, o + 14, data);
    var f1 := f.(space := GuestWrite(s0, o + 14, data));
    DataStored(f0, o, data);
    assert f1 == SetData(f0, o, data) by { FullyWritable(s0.regs, s0.writable, o + 14, data); }
    DataKeepsReachable(s0, f1.space, o);
    SelectedWrite(f1, o, write, o + 14, 4);
  }

  lemma DataKeepsReachable(s: Space, t: Space, o: nat)
    requires BarTable(s) && WellFormed(t) && o + 18 <= SPACE_SIZE && o >= DEVICE_START && OnlyData(s, t, o) && Reachable(s, o)
    ensures BarTable(t) && Reachable(t, o) && Selected(t, o) == Selected(s, o)
  {
    hide GetBar, DisjointBars, Selected, SelectedBar;
    SameSelection(s, t, o);
    WindowLength(s, o);
    SameDisjoint(s, t, !SelectedBar(s, o).value.kind.Io?);
  }

  /** An access concerns the window exactly if it touches one of the four data bytes; any other causes no BAR access. */
  lemma OnlyDataBytes<D>(f: Fn<D>, o: nat, read: Reader<D>, write: Writer<D>, offset: nat, size: nat)
    requires Usable(f, o) && size > 0 && offset + size < WORD_LIMIT
    ensures Handles(o, offset, size) <==> exists x :: InRange(x, offset, size) && InRange(x, o + 14, 4)
    ensures (forall x :: InRange(x, offset, size) ==> !InRange(x, o + 14, 4)) ==>
              PrepareRead(f, o, read, offset, size) == f && ProcessWrite(f, o, write, offset, size) == f
  {
    if Handles(o, offset, size) {
      var x := if offset <= o + 14 then o + 14 else offset;
      assert InRange(x, offset, size) && InRange(x, o + 14, 4);
    }
  }
}
