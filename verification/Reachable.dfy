/**
 What holds of every configuration space that can arise, from the empty space through any
 interleaving of set-up calls and guest writes, and what no run of guest writes can change.
 */
module Reachable {
  import opened Basics
  import opened Bits
  import opened RegisterBlock
  import opened ConfigSpace
  import opened Bars
  import opened BarDecoding
  import opened Capabilities
  import opened CapabilityList
  import opened SpaceRuns
  import opened MsiCore
  import opened MsiConfig
  import MsiRuns

  ghost predicate Arguments(ops: seq<Op>) {
    forall i :: 0 <= i < |ops| ==> OpArgument(ops[i])
  }

  lemma {:induction false} ReachableInvariant(ops: seq<Op>)
    requires Arguments(ops)
    ensures BarsInvariant(Run(NewSpace(), ops)) && Holds(Run(NewSpace(), ops), Accepts(NewSpace(), ops))
  {
    NewSpaceBars();
    EmptyList();
    RunKeeps(NewSpace(), [], ops);
    assert [] + Accepts(NewSpace(), ops) == Accepts(NewSpace(), ops);
  }

  /** In every reachable space the size probe of every BAR reads its size and can be undone. */
  lemma {:induction false} ReachableProbe(ops: seq<Op>, s: Space, i: nat)
    requires Arguments(ops) && s == Run(NewSpace(), ops) && i < NUM_BARS && s.bars[i].Some?
    ensures var bar := s.bars[i].value;
            && (bar.kind.Mem64? ==> i + 1 < NUM_BARS)
            && ReadSize(WriteOnes(s, i, bar.kind), i, bar.kind) == bar.size
            && WriteBack(WriteOnes(s, i, bar.kind), i, bar.kind, s.regs[BarOffset(i)..BarOffset(i) + BarBytes(bar.kind)]) == s
  {
    hide Run, Holds, BarsInvariant, NewSpace, WriteOnes, WriteBack, ReadSize, DecodedBits;
    ReachableInvariant(ops);
    ProbeFacts(s, i);
  }

  lemma ProbeFacts(s: Space, i: nat)
    requires WellFormed(s) && BarsInvariant(s) && i < NUM_BARS && s.bars[i].Some?
    ensures var bar := s.bars[i].value;
            && (bar.kind.Mem64? ==> i + 1 < NUM_BARS)
            && ReadSize(WriteOnes(s, i, bar.kind), i, bar.kind) == bar.size
            && WriteBack(WriteOnes(s, i, bar.kind), i, bar.kind, s.regs[BarOffset(i)..BarOffset(i) + BarBytes(bar.kind)]) == s
  {
    hide BarInvariant, WriteOnes, WriteBack, ReadSize;
    BarWidth(s, i);
    ProbeRoundTrip(s, i);
  }

  lemma BarWidth(s: Space, i: nat)
    requires BarsInvariant(s) && i < NUM_BARS && s.bars[i].Some?
    ensures s.bars[i].value.kind.Mem64? ==> i + 1 < NUM_BARS
  {
  }

  /** In every reachable space a decoded BAR is non-zero and aligned, and a narrow one ends below 4 GiB. */
  lemma {:induction false} ReachableDecode(ops: seq<Op>, i: nat)
    requires Arguments(ops) && i < NUM_BARS
    ensures var s := Run(NewSpace(), ops);
            && BarTable(s)
            && (GetBar(s, i).Some? ==>
                  var bar := GetBar(s, i).value;
                  && bar.address.Some? && bar.address.value > 0 && bar.size > 0 && bar.address.value % bar.size == 0
                  && (!bar.kind.Mem64? ==> bar.address.value + 2 * bar.size <= 0x1_0000_0000))
  {
    hide GetBar, BarInvariant, Run, Holds;
    ReachableInvariant(ops);
    var s := Run(NewSpace(), ops);
    if GetBar(s, i).Some? {
      DecodedAligned(s, i);
      if !GetBar(s, i).value.kind.Mem64? {
        DecodedBelow4G(s, i);
      }
    }
  }

  // ---------- runs of guest writes ----------

  /** No run of guest writes changes what the iterator yields or the kind of a BAR. */
  lemma {:induction false} GuestRunKeepsLayout(s: Space, slots: seq<Slot>, run: seq<Access>, calls: nat)
    requires WellFormed(s) && Holds(s, slots) && BarsInvariant(s) && calls >= SPACE_SIZE
    ensures var t := GuestRun(s, run);
            && Holds(t, slots) && BarsInvariant(t) && t.bars == s.bars
            && Walk(t.regs, CAP_POINTER, calls) == Walk(s.regs, CAP_POINTER, calls) == Items(slots)
            && t.regs[CAP_POINTER] == s.regs[CAP_POINTER]
            && forall i :: 0 <= i < |slots| ==> SameCapHeader(s, t, slots[i].start)
  {
    hide Holds, BarsInvariant, Walk, SameCapHeader, GuestFrame;
    var t := GuestRun(s, run);
    GuestRunFrame(s, run);
    assert t.bars == s.bars && t.regs[CAP_POINTER] == s.regs[CAP_POINTER] by { HeadersKept(s, t, slots); }
    HoldsGuest(s, t, slots);
    BarsInvariantGuest(s, t);
    assert Walk(s.regs, CAP_POINTER, calls) == Items(slots) by { HoldsWalk(s, slots, calls); }
    assert Walk(t.regs, CAP_POINTER, calls) == Items(slots) by { HoldsWalk(t, slots, calls); }
    HeadersKept(s, t, slots);
  }

  lemma {:induction false} HoldsWalk(s: Space, slots: seq<Slot>, calls: nat)
    requires Holds(s, slots) && calls >= SPACE_SIZE
    ensures Walk(s.regs, CAP_POINTER, calls) == Items(slots)
  {
    WholeWalk(s.regs, slots, calls);
  }

  lemma HeadersKept(s: Space, t: Space, slots: seq<Slot>)
    requires Holds(s, slots) && WellFormed(t) && GuestFrame(s, t)
    ensures t.bars == s.bars && t.regs[CAP_POINTER] == s.regs[CAP_POINTER]
    ensures forall i :: 0 <= i < |slots| ==> SameCapHeader(s, t, slots[i].start)
  {
    ReadOnlyByte(s, t, CAP_POINTER);
    forall i | 0 <= i < |slots| ensures SameCapHeader(s, t, slots[i].start) {
      assert Stored(s, slots[i]);
      ReadOnlyByte(s, t, slots[i].start);
      ReadOnlyByte(s, t, slots[i].start + 1);
    }
  }

  /** Id and next pointer of the capability at `start` are the same. */
  predicate SameCapHeader(s: Space, t: Space, start: nat) {
    && start + 2 <= |s.regs| && start + 2 <= |t.regs|
    && t.regs[start] == s.regs[start] && t.regs[start + 1] == s.regs[start + 1]
  }

  /** The flag bits of every BAR register stay what its kind prescribes. */
  lemma {:induction false} GuestRunKeepsBarKind(s: Space, run: seq<Access>, i: nat, j: nat)
    requires BarsInvariant(s) && i < NUM_BARS && s.bars[i].Some? && j < FlagBits(s.bars[i].value.kind)
    ensures Dword(GuestRun(s, run).regs, BarOffset(i))[j] == KindBits(s.bars[i].value.kind)[j]
  {
    var t := GuestRun(s, run);
    GuestRunFrame(s, run);
    BarsInvariantGuest(s, t);
    assert BarInvariant(t, i);
    var bar := t.bars[i].value;
    var k :| 4 <= k <= 38 && BarRegisters(t, i, bar, k);
    assert BarBits(t.regs, i, bar.kind)[j] == Dword(t.regs, BarOffset(i))[j];
  }

  /** The MSI capability keeps its shape, so every computed field offset stays where it was. */
  lemma {:induction false} GuestRunKeepsMsiLayout(s: Space, slots: seq<Slot>, i: nat, m: MsiSetup, run: seq<Access>)
    requires Holds(s, slots) && BarsInvariant(s) && i < |slots| && SetupOk(m) && slots[i].cap == MsiCapability(m)
    ensures var o, t := slots[i].start + 2, GuestRun(s, run);
            && Fits(s, o) && Fits(t, o)
            && Is64(Control(t, o)) == m.is64 && HasMasking(Control(t, o)) == m.masking && Capable(Control(t, o)) == m.vectors
            && DataOffset(Control(t, o)) == DataOffset(Control(s, o))
            && MaskOffset(Control(t, o)) == MaskOffset(Control(s, o))
            && PendingOffset(Control(t, o)) == PendingOffset(Control(s, o))
            && CapSize(Control(t, o)) == CapSize(Control(s, o))
  {
    hide MsiCapability, BarsInvariant, Chain;
    var t := GuestRun(s, run);
    GuestRunFrame(s, run);
    StoredIsReady(s, slots[i], m);
    ReadyFrame(s, t, slots[i].start + 2, m);
    MsiRuns.SameLayout(s, t, slots[i].start + 2, m);
    ReadyVectors(t, slots[i].start + 2, m);
  }
}
