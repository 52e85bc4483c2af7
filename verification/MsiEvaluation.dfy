/** What the MSI evaluation loop does, for every mask, pending and capability setting. */
module MsiEvaluation {
  import opened Basics
  import opened Bits
  import opened RegisterBlock
  import opened ConfigSpace
  import opened MsixCore
  import opened MsiCore

  /** Storing pending bits moves nothing but the pending dword. */
  lemma PendingFrame(s: Space, o: nat, f: Bits)
    requires Fits(s, o) && HasMasking(Control(s, o)) && |f| == 32
    ensures var t := WritePending(s, o, f);
            && Fits(t, o) && Control(t, o) == Control(s, o)
            && GuestFrame(s, t) && CommandBit(t, BUS_MASTER) == CommandBit(s, BUS_MASTER)
            && MaskBits(t, o) == MaskBits(s, o)
            && forall v: nat :: MsiMessage(t, o, v) == MsiMessage(s, o, v)
  {
    var t := WritePending(s, o, f);
    var p := o + PendingOffset(Control(s, o));
    WriteKeepsReadOnly(s.regs, s.writable, p, DwordBytes(f));
    assert forall i :: 0 <= i < p ==> t.regs[i] == s.regs[i];
    assert Word(t.regs, COMMAND) == Word(s.regs, COMMAND) by {
      CommandApart(s, o, f);
    }
    assert Word(t.regs, o) == Word(s.regs, o);
    SameFields(s, t, o);
  }

  lemma CommandApart(s: Space, o: nat, f: Bits)
    requires Fits(s, o) && HasMasking(Control(s, o)) && |f| == 32
    ensures Word(WritePending(s, o, f).regs, COMMAND) == Word(s.regs, COMMAND)
  {
    assert o + PendingOffset(Control(s, o)) >= 14;
  }

  lemma SameFields(s: Space, t: Space, o: nat)
    requires Fits(s, o) && HasMasking(Control(s, o)) && WellFormed(t)
    requires Control(t, o) == Control(s, o)
    requires forall i :: 0 <= i < o + PendingOffset(Control(s, o)) ==> t.regs[i] == s.regs[i]
    ensures Fits(t, o) && MaskBits(t, o) == MaskBits(s, o)
    ensures forall v: nat :: MsiMessage(t, o, v) == MsiMessage(s, o, v)
  {
    var c := Control(s, o);
    assert Dword(t.regs, o + ADDRESS) == Dword(s.regs, o + ADDRESS);
    assert Is64(c) ==> Dword(t.regs, o + ADDRESS_UPPER) == Dword(s.regs, o + ADDRESS_UPPER);
    assert Word(t.regs, o + DataOffset(c)) == Word(s.regs, o + DataOffset(c));
  }

  lemma AttemptFits(s: Space, o: nat, v: nat)
    requires Fits(s, o) && v < 32
    ensures Fits(MsiTryGenerate(s, o, v).space, o)
    ensures GuestFrame(s, MsiTryGenerate(s, o, v).space)
  {
    hide WritePending, MsiMessage;
    if HasMasking(Control(s, o)) {
      PendingFrame(s, o, PendingBits(s, o)[v := VectorMasked(s, o, v)]);
    }
  }

  /**
   A message leaves if and only if Bus Master and MSI Enable are set, the capability has per-vector masking,
   and the vector is implemented and not masked. So MSI without per-vector masking never sends.
   */
  lemma MsiGeneratesIff(s: Space, o: nat, v: nat)
    requires Fits(s, o) && v < 32
    ensures var r := MsiTryGenerate(s, o, v).outcome;
            && ((r.Ok? && r.value.Generated?) <==>
                  CanSend(s, o) && HasMasking(Control(s, o)) && !MaskBits(s, o)[v] && v < CapableVectors(Control(s, o)))
            && (r.Ok? && r.value.Generated? ==> r.value.message == MsiMessage(s, o, v))
            && (!CommandBit(s, BUS_MASTER) ==> r == Err(NotBusMaster))
            && (CommandBit(s, BUS_MASTER) && !Control(s, o)[0] ==> r == Err(MsiDisabled))
            && (CanSend(s, o) && !HasMasking(Control(s, o)) ==> r == Err(NotSupported))
            && (CanSend(s, o) && HasMasking(Control(s, o)) && MaskBits(s, o)[v] ==> r == Ok(Masked))
            && (CanSend(s, o) && HasMasking(Control(s, o)) && !MaskBits(s, o)[v] && v >= CapableVectors(Control(s, o)) ==>
                  r == Err(InvalidMsiVector(v)))
  {
    hide WritePending, MsiMessage;
  }

  datatype MsiResult = MsiResult(space: Space, sent: seq<Delivery>)

  /** `evaluate_pending_interrupts` from vector `start` on; the search ends by itself when `start` reaches 32. */
  function MsiEvaluateFrom(s: Space, o: nat, start: nat, sent: seq<Delivery>): (r: MsiResult)
    requires Fits(s, o)
    ensures Fits(r.space, o)
    decreases 32 - start
  {
    match NextPendingVector(s, o, start)
    case None => MsiResult(s, sent)
    case Some(v) =>
      AttemptFits(s, o, v);
      var a := MsiTryGenerate(s, o, v);
      MsiEvaluateFrom(a.space, o, v + 1, sent + MsiSent(a, v))
  }

  /** The pending dword takes stores unmasked, as the capability sets it up. */
  predicate PendingWritable(s: Space, o: nat)
    requires Fits(s, o)
  {
    HasMasking(Control(s, o)) ==>
      forall i :: o + PendingOffset(Control(s, o)) <= i < o + PendingOffset(Control(s, o)) + 4 ==> s.writable[i] == ONES_BYTE
  }

  /** Then a store is exact, and only the last one counts. */
  lemma PendingStored(s: Space, o: nat, f: Bits)
    requires Fits(s, o) && HasMasking(Control(s, o)) && |f| == 32 && PendingWritable(s, o)
    ensures WritePending(s, o, f) == s.(regs := SetDword(s.regs, o + PendingOffset(Control(s, o)), f))
    ensures Fits(WritePending(s, o, f), o) && PendingWritable(WritePending(s, o, f), o)
    ensures PendingBits(WritePending(s, o, f), o) == f
  {
    PendingFrame(s, o, f);
    FullyWritable(s.regs, s.writable, o + PendingOffset(Control(s, o)), DwordBytes(f));
  }

  lemma LastStoreCounts(s: Space, o: nat, f: Bits, g: Bits)
    requires Fits(s, o) && HasMasking(Control(s, o)) && |f| == |g| == 32 && PendingWritable(s, o)
    ensures Fits(WritePending(s, o, f), o) && HasMasking(Control(WritePending(s, o, f), o))
    ensures WritePending(WritePending(s, o, f), o, g) == WritePending(s, o, g)
  {
    PendingFrame(s, o, f);
    PendingStored(s, o, f);
    PendingStored(s, o, g);
    PendingStored(WritePending(s, o, f), o, g);
    SetTwice(s.regs, o + PendingOffset(Control(s, o)), DwordBytes(f), DwordBytes(g));
  }

  // ---------- the meaning of one evaluation ----------

  /** Vector `i` leaves: pending, implemented, unmasked, and messages can be sent. */
  predicate Leaves(s: Space, o: nat, i: nat)
    requires Fits(s, o) && i < 32
  {
    && HasMasking(Control(s, o)) && CanSend(s, o)
    && PendingBits(s, o)[i] && i < CapableVectors(Control(s, o)) && !MaskBits(s, o)[i]
  }

  /** The pending bits that stay, of those from `start` on. */
  function Remaining(s: Space, o: nat, start: nat): (f: Bits)
    requires Fits(s, o) && HasMasking(Control(s, o))
    ensures |f| == 32
  {
    seq(32, i requires 0 <= i < 32 => PendingBits(s, o)[i] && !(i >= start && Leaves(s, o, i)))
  }

  /** One message for each leaving vector from `start` on, in ascending order. */
  function Leaving(s: Space, o: nat, start: nat): seq<Delivery>
    requires Fits(s, o)
    decreases 32 - start
  {
    if start >= 32 then []
    else (if Leaves(s, o, start) then [Delivery(start, MsiMessage(s, o, start))] else []) + Leaving(s, o, start + 1)
  }

  /** Nothing leaves between `start` and the next pending vector. */
  lemma {:induction false} SkipTo(s: Space, o: nat, start: nat, v: nat)
    requires Fits(s, o) && start <= v <= 32
    requires forall i :: start <= i < v ==> !Leaves(s, o, i)
    ensures Leaving(s, o, start) == Leaving(s, o, v)
    decreases v - start
  {
    hide Leaves, MsiMessage, Fits;
    if start < v {
      SkipTo(s, o, start + 1, v);
    }
  }

  lemma {:induction false} LeavingAgrees(s: Space, t: Space, o: nat, start: nat)
    requires Fits(s, o) && Fits(t, o)
    requires forall i :: start <= i < 32 ==> (Leaves(s, o, i) <==> Leaves(t, o, i))
    requires forall v: nat :: MsiMessage(t, o, v) == MsiMessage(s, o, v)
    ensures Leaving(s, o, start) == Leaving(t, o, start)
    decreases 32 - start
  {
    if start < 32 {
      LeavingAgrees(s, t, o, start + 1);
    }
  }

  /** One step of the loop: `v`'s bit becomes its mask bit when messages can be sent, and stays otherwise. */
  lemma AttemptStep(s: Space, o: nat, v: nat)
    requires Fits(s, o) && HasMasking(Control(s, o)) && PendingWritable(s, o)
    requires v < CapableVectors(Control(s, o)) && PendingBits(s, o)[v]
    ensures MsiSent(MsiTryGenerate(s, o, v), v) == if Leaves(s, o, v) then [Delivery(v, MsiMessage(s, o, v))] else []
    ensures MsiTryGenerate(s, o, v).space == WritePending(s, o, PendingBits(s, o)[v := !Leaves(s, o, v)])
  {
    hide MsiMessage;
    PendingStored(s, o, PendingBits(s, o));
    assert PendingBits(s, o)[v := true] == PendingBits(s, o);
    UnchangedStore(s, o);
  }

  lemma UnchangedStore(s: Space, o: nat)
    requires Fits(s, o) && HasMasking(Control(s, o)) && PendingWritable(s, o)
    ensures WritePending(s, o, PendingBits(s, o)) == s
  {
    PendingStored(s, o, PendingBits(s, o));
    StoreSame(s.regs, o + PendingOffset(Control(s, o)));
  }

  /**
   One evaluation, whatever the masks, pending bits and vector counts: the leaving
   vectors are sent once each in ascending order, exactly they lose their pending bit,
   and nothing else in the space moves.
   */
  lemma {:induction false} MsiEvaluateExact(s: Space, o: nat, start: nat, sent: seq<Delivery>)
    requires Fits(s, o) && HasMasking(Control(s, o)) && PendingWritable(s, o)
    ensures MsiEvaluateFrom(s, o, start, sent) ==
            MsiResult(WritePending(s, o, Remaining(s, o, start)), sent + Leaving(s, o, start))
    decreases 32 - start
  {
    hide MsiTryGenerate, MsiMessage, WritePending, MsiSent, NextPendingVector, Leaves, Remaining, Leaving, PendingWritable,
         Control, PendingBits, MaskBits, CapableVectors, CommandBit;
    var n := NextPendingVector(s, o, start);
    if n.None? {
      NothingLeaves(s, o, start);
    } else {
      var v := n.value;
      var f := PendingBits(s, o)[v := !Leaves(s, o, v)];
      var t := WritePending(s, o, f);
      AttemptStep(s, o, v);
      PendingFrame(s, o, f);
      PendingStored(s, o, f);
      MsiEvaluateExact(t, o, v + 1, sent + MsiSent(MsiTryGenerate(s, o, v), v));
      StepAgrees(s, t, o, start, v);
      LastStoreCounts(s, o, f, Remaining(s, o, start));
    }
  }

  /** What is left to do after visiting `v` is what was to be done, minus `v`. */
  lemma StepAgrees(s: Space, t: Space, o: nat, start: nat, v: nat)
    requires Fits(s, o) && Fits(t, o) && HasMasking(Control(s, o)) && Control(t, o) == Control(s, o)
    requires CommandBit(t, BUS_MASTER) == CommandBit(s, BUS_MASTER) && MaskBits(t, o) == MaskBits(s, o)
    requires start <= v < 32 && PendingBits(t, o) == PendingBits(s, o)[v := !Leaves(s, o, v)] && PendingBits(s, o)[v]
    requires forall i :: start <= i < v ==> !PendingBits(s, o)[i]
    requires forall u: nat :: MsiMessage(t, o, u) == MsiMessage(s, o, u)
    ensures Remaining(t, o, v + 1) == Remaining(s, o, start)
    ensures Leaving(s, o, start) ==
            (if Leaves(s, o, v) then [Delivery(v, MsiMessage(s, o, v))] else []) + Leaving(t, o, v + 1)
  {
    hide MsiMessage, PendingBits, MaskBits, Control;
    SkipTo(s, o, start, v);
    LeavingAgrees(s, t, o, v + 1);
    var a, b := Remaining(t, o, v + 1), Remaining(s, o, start);
    forall i | 0 <= i < 32 ensures a[i] == b[i] {
      assert i > v ==> (Leaves(s, o, i) <==> Leaves(t, o, i));
    }
  }

  lemma {:induction false} NothingLeaves(s: Space, o: nat, start: nat)
    requires Fits(s, o) && HasMasking(Control(s, o)) && PendingWritable(s, o)
    requires NextPendingVector(s, o, start).None?
    ensures Leaving(s, o, start) == [] && WritePending(s, o, Remaining(s, o, start)) == s
  {
    if start < 32 {
      SkipTo(s, o, start, 32);
    }
    assert Remaining(s, o, start) == PendingBits(s, o);
    UnchangedStore(s, o);
  }

  /** Disabled, not bus master, or without per-vector masking, an evaluation does nothing. */
  lemma {:induction false} MsiClosed(s: Space, o: nat, sent: seq<Delivery>)
    requires Fits(s, o) && PendingWritable(s, o) && !(HasMasking(Control(s, o)) && CanSend(s, o))
    ensures MsiEvaluateFrom(s, o, 0, sent) == MsiResult(s, sent)
  {
    if HasMasking(Control(s, o)) {
      MsiEvaluateExact(s, o, 0, sent);
      SkipTo(s, o, 0, 32);
      assert Remaining(s, o, 0) == PendingBits(s, o);
      UnchangedStore(s, o);
    }
  }

  /** The number of set bits from `i` on. */
  function Count(f: Bits, i: nat): nat
    decreases |f| - i
  {
    if i >= |f| then 0 else (if f[i] then 1 else 0) + Count(f, i + 1)
  }

  /** Conservation: every pending bit is either still pending or has become exactly one message. */
  lemma {:induction false} NothingLost(s: Space, o: nat, start: nat)
    requires Fits(s, o) && HasMasking(Control(s, o)) && start <= 32
    ensures |Leaving(s, o, start)| + Count(Remaining(s, o, 0), start) == Count(PendingBits(s, o), start)
    decreases 32 - start
  {
    if start < 32 {
      NothingLost(s, o, start + 1);
    }
  }
}
