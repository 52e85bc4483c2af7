/**
 MSI with per-vector masking over whole runs of device signals and configuration writes:
 nothing deliverable stays behind, and every signal is accounted for.
 */
module MsiRuns {
  import opened Basics
  import opened Bits
  import opened RegisterBlock
  import opened ConfigSpace
  import opened MsixCore
  import MsixLedger
  import opened MsiCore
  import opened MsiEvaluation
  import opened MsiConfig

  /** `o` is the offset of the capability's data; `sent` is what the interrupt controller received. */
  datatype Machine = Machine(space: Space, o: nat, sent: seq<Delivery>)

  /** A space that holds the capability `m`, with masking, whatever the guest wrote. */
  ghost predicate Sound(x: Machine, m: MsiSetup) {
    MsiReady(x.space, x.o, m) && m.masking && DEVICE_START <= x.o
  }

  datatype Op = ConfigWrite(offset: nat, data: Bytes) | Signal(vector: nat)

  /** Vector numbers fit the 32-bit registers, and the guest leaves the pending dword alone. */
  predicate Regular(x: Machine, op: Op)
    requires Fits(x.space, x.o)
  {
    match op
    case ConfigWrite(offset, data) => !RangeOverlaps(offset, |data|, x.o + PendingOffset(Control(x.space, x.o)), 4)
    case Signal(v) => v < 32
  }

  function Step(x: Machine, op: Op): (r: Machine)
    requires Fits(x.space, x.o) && Regular(x, op)
    ensures r.o == x.o
  {
    match op
    case ConfigWrite(offset, data) =>
      var s := GuestWrite(x.space, offset, data);
      if Accepted(offset, |data|) && Fits(s, x.o) then
        var w := MsiOnWrite(s, x.o, offset, |data|, x.sent);
        x.(space := w.space, sent := w.sent)
      else x
    case Signal(v) =>
      if !Control(x.space, x.o)[0] then x
      else
        var a := MsiTryGenerate(x.space, x.o, v);
        x.(space := a.space, sent := x.sent + MsiSent(a, v))
  }

  // ---------- the layout survives ----------

  lemma WrittenReady(x: Machine, m: MsiSetup, offset: nat, data: Bytes)
    requires Sound(x, m) && Accepted(offset, |data|)
    ensures MsiReady(GuestWrite(x.space, offset, data), x.o, m)
  {
    WriteKeepsReadOnly(x.space.regs, x.space.writable, offset, data);
    ReadyFrame(x.space, GuestWrite(x.space, offset, data), x.o, m);
  }

  lemma StepSound(x: Machine, m: MsiSetup, op: Op)
    requires Sound(x, m) && Regular(x, op)
    ensures Sound(Step(x, op), m)
  {
    hide MsiOnWrite, MsiTryGenerate, MsiReady, GuestWrite;
    assert Fits(x.space, x.o) by { ReadyFits(x.space, x.o, m); }
    match op
    case ConfigWrite(offset, data) =>
      if Accepted(offset, |data|) {
        var s := GuestWrite(x.space, offset, data);
        WrittenReady(x, m, offset, data);
        ReadyFits(s, x.o, m);
        MsiOnWriteFrame(s, x.o, offset, |data|, x.sent);
        ReadyFrame(s, MsiOnWrite(s, x.o, offset, |data|, x.sent).space, x.o, m);
      }
    case Signal(v) =>
      AttemptFits(x.space, x.o, v);
      ReadyFrame(x.space, MsiTryGenerate(x.space, x.o, v).space, x.o, m);
  }

  lemma ReadyFits(s: Space, o: nat, m: MsiSetup)
    requires MsiReady(s, o, m)
    ensures Fits(s, o) && HasMasking(Control(s, o)) == m.masking && Is64(Control(s, o)) == m.is64 && PendingWritable(s, o)
  {
  }

  // ---------- what one configuration write does ----------

  /** Vectors that are implemented, pending and not masked. */
  predicate Due(s: Space, o: nat, v: nat)
    requires Fits(s, o) && HasMasking(Control(s, o)) && v < 32
  {
    v < CapableVectors(Control(s, o)) && PendingBits(s, o)[v] && !MaskBits(s, o)[v]
  }

  /** With MSI enabled nothing is due: whatever is pending is masked. */
  ghost predicate Calm(s: Space, o: nat)
    requires Fits(s, o) && HasMasking(Control(s, o))
  {
    Control(s, o)[0] ==> forall v :: 0 <= v < 32 ==> !Due(s, o, v)
  }

  ghost predicate Quiet(x: Machine, m: MsiSetup)
    requires Sound(x, m)
  {
    Calm(x.space, x.o)
  }

  /** A guest write that misses control and masks, and leaves the pending dword alone, changes none of them. */
  lemma Untouched(x: Machine, m: MsiSetup, offset: nat, data: Bytes)
    requires Sound(x, m) && Accepted(offset, |data|) && Regular(x, ConfigWrite(offset, data))
    ensures var s, o := GuestWrite(x.space, offset, data), x.o;
            && Fits(s, o) && HasMasking(Control(s, o)) && PendingBits(s, o) == PendingBits(x.space, o)
            && (!RangeOverlaps(offset, |data|, o, 2) ==> Control(s, o) == Control(x.space, o))
            && (!RangeOverlaps(offset, |data|, o + MaskOffset(Control(x.space, o)), 4) ==> MaskBits(s, o) == MaskBits(x.space, o))
  {
    hide GuestWrite, MsiReady, Dword, Word;
    ReadyFits(x.space, x.o, m);
    WrittenReady(x, m, offset, data);
    var s, o := GuestWrite(x.space, offset, data), x.o;
    ReadyFits(s, o, m);
    SameLayout(x.space, s, o, m);
    Missed(x.space, offset, data, o + PendingOffset(Control(x.space, o)));
    if !RangeOverlaps(offset, |data|, o + MaskOffset(Control(x.space, o)), 4) {
      Missed(x.space, offset, data, o + MaskOffset(Control(x.space, o)));
    }
    if !RangeOverlaps(offset, |data|, o, 2) {
      MissedWord(x.space, offset, data, o);
    }
  }

  lemma MissedWord(s: Space, offset: nat, data: Bytes, at: nat)
    requires WellFormed(s) && Accepted(offset, |data|) && at + 2 <= SPACE_SIZE && !RangeOverlaps(offset, |data|, at, 2)
    ensures Word(GuestWrite(s, offset, data).regs, at) == Word(s.regs, at)
  {
    var t := GuestWrite(s, offset, data);
    assert t.regs[at] == s.regs[at] && t.regs[at + 1] == s.regs[at + 1];
  }

  lemma SameLayout(s: Space, t: Space, o: nat, m: MsiSetup)
    requires MsiReady(s, o, m) && MsiReady(t, o, m)
    ensures MaskOffset(Control(t, o)) == MaskOffset(Control(s, o))
    ensures PendingOffset(Control(t, o)) == PendingOffset(Control(s, o))
    ensures CapableVectors(Control(t, o)) == CapableVectors(Control(s, o))
    ensures CapSize(Control(t, o)) == CapSize(Control(s, o))
  {
  }

  lemma Missed(s: Space, offset: nat, data: Bytes, at: nat)
    requires WellFormed(s) && Accepted(offset, |data|) && at + 4 <= SPACE_SIZE && !RangeOverlaps(offset, |data|, at, 4)
    ensures Dword(GuestWrite(s, offset, data).regs, at) == Dword(s.regs, at)
  {
    var t := GuestWrite(s, offset, data);
    assert forall i :: at <= i < at + 4 ==> t.regs[i] == s.regs[i];
  }

  /** Correcting the control word moves nothing else. */
  lemma FixFrame(s: Space, o: nat, m: MsiSetup)
    requires MsiReady(s, o, m) && m.masking
    ensures var t := FixControl(s, o);
            && MsiReady(t, o, m)
            && PendingBits(t, o) == PendingBits(s, o) && MaskBits(t, o) == MaskBits(s, o)
            && Control(t, o)[0] == Control(s, o)[0]
            && Word(t.regs, COMMAND) == Word(s.regs, COMMAND)
    requires DEVICE_START <= o
  {
    hide FixControl, MsiReady, Dword, Word;
    ReadyFits(s, o, m);
    var t := FixControl(s, o);
    ReadyFrame(s, t, o, m);
    ReadyFits(t, o, m);
    SameLayout(s, t, o, m);
    FixBytes(s, o);
    SameDword(s, t, o + PendingOffset(Control(s, o)));
    SameDword(s, t, o + MaskOffset(Control(s, o)));
    SameCommand(s, t);
  }

  /** Only the two control bytes can change, and MSI Enable does not. */
  lemma FixBytes(s: Space, o: nat)
    requires Fits(s, o)
    ensures var t := FixControl(s, o);
            && (forall i :: 0 <= i < SPACE_SIZE && i != o && i != o + 1 ==> t.regs[i] == s.regs[i])
            && Control(t, o)[0] == Control(s, o)[0]
  {
    if !EnableLegal(Control(s, o)) {
      FixedControl(s, o);
    }
  }

  lemma SameDword(s: Space, t: Space, at: nat)
    requires WellFormed(s) && WellFormed(t) && at + 4 <= SPACE_SIZE && forall i :: at <= i < at + 4 ==> t.regs[i] == s.regs[i]
    ensures Dword(t.regs, at) == Dword(s.regs, at)
  {
  }

  lemma SameCommand(s: Space, t: Space)
    requires WellFormed(s) && WellFormed(t)
    requires t.regs[COMMAND] == s.regs[COMMAND] && t.regs[COMMAND + 1] == s.regs[COMMAND + 1]
    ensures Word(t.regs, COMMAND) == Word(s.regs, COMMAND)
  {
  }

  /** The state the handler sees after correcting the control word. */
  function Fixed(x: Machine, offset: nat, data: Bytes): (s: Space)
    requires WellFormed(x.space) && Fits(GuestWrite(x.space, offset, data), x.o)
    ensures Fits(s, x.o)
  {
    var s := GuestWrite(x.space, offset, data);
    if RangeOverlaps(offset, |data|, x.o, 2) then FixControl(s, x.o) else s
  }

  predicate Evaluates(s: Space, o: nat, offset: nat, size: nat)
    requires Fits(s, o)
  {
    || (RangeOverlaps(offset, size, o, 2) && Control(s, o)[0])
    || RangeOverlaps(offset, size, o + MaskOffset(Control(s, o)), 4)
  }

  /** What a configuration write amounts to: the store, the correction and, where needed, one exact evaluation. */
  lemma WriteMeans(x: Machine, m: MsiSetup, offset: nat, data: Bytes)
    requires Sound(x, m) && Accepted(offset, |data|) && Regular(x, ConfigWrite(offset, data))
    ensures Fits(GuestWrite(x.space, offset, data), x.o)
    ensures var s, o, y := Fixed(x, offset, data), x.o, Step(x, ConfigWrite(offset, data));
            && MsiReady(s, o, m) && PendingBits(s, o) == PendingBits(x.space, o)
            && (if Evaluates(s, o, offset, |data|)
                then y.space == WritePending(s, o, Remaining(s, o, 0)) && y.sent == x.sent + Leaving(s, o, 0)
                else y.space == s && y.sent == x.sent)
            && (!Evaluates(s, o, offset, |data|) && Control(s, o)[0] ==>
                  Control(s, o) == Control(x.space, o) && MaskBits(s, o) == MaskBits(x.space, o))
  {
    hide MsiEvaluateFrom, MsiMessage, GuestWrite, FixControl, WritePending, Remaining, Leaving, MsiReports;
    WrittenReady(x, m, offset, data);
    var s0 := GuestWrite(x.space, offset, data);
    Untouched(x, m, offset, data);
    FixFrame(s0, x.o, m);
    var s := Fixed(x, offset, data);
    ReadyFits(s, x.o, m);
    SameLayout(x.space, s, x.o, m);
    SameLayout(s0, s, x.o, m);
    MsiEvaluateExact(s, x.o, 0, x.sent);
  }

  // ---------- nothing deliverable stays behind ----------

  lemma BusMaster(x: Machine, m: MsiSetup, offset: nat, data: Bytes)
    requires Sound(x, m) && Accepted(offset, |data|) && Regular(x, ConfigWrite(offset, data))
    requires CommandBit(Step(x, ConfigWrite(offset, data)).space, BUS_MASTER)
    ensures Fits(GuestWrite(x.space, offset, data), x.o)
    ensures CommandBit(Fixed(x, offset, data), BUS_MASTER)
  {
    hide GuestWrite, WritePending, FixControl, MsiOnWrite;
    WriteMeans(x, m, offset, data);
    var s := Fixed(x, offset, data);
    ReadyFits(s, x.o, m);
    PendingFrame(s, x.o, Remaining(s, x.o, 0));
  }

  /** The pending dword after an evaluation or a signal, with everything else as before. */
  lemma Stored(s: Space, o: nat, f: Bits)
    requires Fits(s, o) && HasMasking(Control(s, o)) && PendingWritable(s, o) && |f| == 32
    ensures var t := WritePending(s, o, f);
            && Fits(t, o) && Control(t, o) == Control(s, o) && MaskBits(t, o) == MaskBits(s, o) && PendingBits(t, o) == f
  {
    PendingFrame(s, o, f);
    PendingStored(s, o, f);
  }

  lemma EvaluatedCalm(s: Space, o: nat, t: Space)
    requires Fits(s, o) && HasMasking(Control(s, o)) && PendingWritable(s, o) && CommandBit(s, BUS_MASTER)
    requires t == WritePending(s, o, Remaining(s, o, 0))
    ensures Fits(t, o) && HasMasking(Control(t, o)) && Calm(t, o)
  {
    Stored(s, o, Remaining(s, o, 0));
    hide WritePending, PendingBits, MaskBits, Control;
  }

  lemma SameCalm(s: Space, t: Space, o: nat)
    requires Fits(s, o) && HasMasking(Control(s, o)) && Fits(t, o) && HasMasking(Control(t, o)) && Calm(s, o)
    requires PendingBits(t, o) == PendingBits(s, o)
    requires Control(t, o)[0] ==> Control(t, o) == Control(s, o) && MaskBits(t, o) == MaskBits(s, o)
    ensures Calm(t, o)
  {
    hide PendingBits, MaskBits, Control, CapableVectors;
    forall v | 0 <= v < 32 && Control(t, o)[0] ensures !Due(t, o, v) {
      assert !Due(s, o, v);
    }
  }

  lemma ConfigWriteKeeps(x: Machine, m: MsiSetup, offset: nat, data: Bytes)
    requires Sound(x, m) && Quiet(x, m) && Regular(x, ConfigWrite(offset, data))
    requires WellFormed(Step(x, ConfigWrite(offset, data)).space)
    requires CommandBit(Step(x, ConfigWrite(offset, data)).space, BUS_MASTER)
    ensures Sound(Step(x, ConfigWrite(offset, data)), m) && Quiet(Step(x, ConfigWrite(offset, data)), m)
  {
    StepSound(x, m, ConfigWrite(offset, data));
    if Accepted(offset, |data|) {
      WriteMeans(x, m, offset, data);
      BusMaster(x, m, offset, data);
      hide GuestWrite, WritePending, FixControl, Fixed, MsiReady, Step, Calm, Control, Evaluates, Remaining, Leaving;
      var s, y := Fixed(x, offset, data), Step(x, ConfigWrite(offset, data));
      ReadyFits(s, x.o, m);
      ReadyFits(x.space, x.o, m);
      ReadyFits(y.space, x.o, m);
      if Evaluates(s, x.o, offset, |data|) {
        EvaluatedCalm(s, x.o, y.space);
      } else {
        SameCalm(x.space, s, x.o);
      }
    }
  }

  /** What a signal amounts to while messages can be sent: the bit becomes the mask, and an unmasked vector leaves. */
  lemma SignalMeans(s: Space, o: nat, v: nat)
    requires Fits(s, o) && HasMasking(Control(s, o)) && v < 32 && CanSend(s, o)
    ensures var a := MsiTryGenerate(s, o, v);
            && a.space == WritePending(s, o, PendingBits(s, o)[v := VectorMasked(s, o, v)])
            && MsiSent(a, v) == if !VectorMasked(s, o, v) && v < CapableVectors(Control(s, o)) then [Delivery(v, MsiMessage(s, o, v))] else []
  {
    hide WritePending, MsiMessage;
  }

  lemma SignalledCalm(s: Space, o: nat, v: nat, t: Space)
    requires Fits(s, o) && HasMasking(Control(s, o)) && PendingWritable(s, o) && v < 32 && Calm(s, o)
    requires t == WritePending(s, o, PendingBits(s, o)[v := VectorMasked(s, o, v)])
    ensures Fits(t, o) && HasMasking(Control(t, o)) && Calm(t, o)
  {
    Stored(s, o, PendingBits(s, o)[v := VectorMasked(s, o, v)]);
    hide WritePending, PendingBits, MaskBits, Control, CapableVectors;
    forall u | 0 <= u < 32 && Control(t, o)[0] ensures !Due(t, o, u) {
      assert !Due(s, o, u);
    }
  }

  lemma SignalKeeps(x: Machine, m: MsiSetup, v: nat)
    requires Sound(x, m) && Quiet(x, m) && v < 32 && CommandBit(x.space, BUS_MASTER)
    ensures Sound(Step(x, Signal(v)), m) && Quiet(Step(x, Signal(v)), m)
  {
    hide MsiMessage, WritePending, MsiReady, MsiTryGenerate, MsiSent, Calm;
    ReadyFits(x.space, x.o, m);
    StepSound(x, m, Signal(v));
    var y := Step(x, Signal(v));
    ReadyFits(y.space, x.o, m);
    if Control(x.space, x.o)[0] {
      SignalMeans(x.space, x.o, v);
      SignalledCalm(x.space, x.o, v, y.space);
    }
  }

  /** Runs in which every action is regular and Bus Master stays set. */
  ghost predicate Held(x: Machine, ops: seq<Op>)
    decreases |ops|
  {
    && Fits(x.space, x.o) && CommandBit(x.space, BUS_MASTER)
    && (ops != [] ==> Regular(x, ops[0]) && Held(Step(x, ops[0]), ops[1..]))
  }

  function Run(x: Machine, ops: seq<Op>): (r: Machine)
    requires Held(x, ops)
    decreases |ops|
  {
    if ops == [] then x else Run(Step(x, ops[0]), ops[1..])
  }

  /** No run leaves an unmasked pending vector behind while MSI is enabled. */
  lemma {:induction false} RunQuiet(x: Machine, m: MsiSetup, ops: seq<Op>)
    requires Sound(x, m) && Quiet(x, m) && Held(x, ops)
    ensures Sound(Run(x, ops), m) && Quiet(Run(x, ops), m)
    decreases |ops|
  {
    hide Step, Sound, Quiet, Fits, CommandBit;
    if ops != [] {
      var y := Step(x, ops[0]);
      HeldHead(y, ops[1..]);
      match ops[0] {
        case ConfigWrite(offset, data) => ConfigWriteKeeps(x, m, offset, data);
        case Signal(v) => SignalKeeps(x, m, v);
      }
      RunQuiet(y, m, ops[1..]);
    }
  }

  lemma {:induction false} HeldHead(x: Machine, ops: seq<Op>)
    requires Held(x, ops)
    ensures WellFormed(x.space) && Fits(x.space, x.o) && CommandBit(x.space, BUS_MASTER)
  {
  }

  // ---------- the ledger ----------

  /** Messages that left for `v`, plus one if it is still pending. */
  ghost function Account(x: Machine, m: MsiSetup, v: nat): nat
    requires Sound(x, m) && v < 32
  {
    MsixLedger.SentFor(x.sent, v) + if PendingBits(x.space, x.o)[v] then 1 else 0
  }

  /** The deliveries of one evaluation contain `v` once if it leaves, and not at all otherwise. */
  lemma {:induction false} LeavesOnce(s: Space, o: nat, start: nat, v: nat)
    requires Fits(s, o) && v < 32
    ensures MsixLedger.SentFor(Leaving(s, o, start), v) == if start <= v && Leaves(s, o, v) then 1 else 0
    decreases 32 - start
  {
    hide Leaves, MsiMessage;
    if start < 32 {
      LeavesOnce(s, o, start + 1, v);
      var head := if Leaves(s, o, start) then [Delivery(start, MsiMessage(s, o, start))] else [];
      MsixLedger.SentForConcat(head, Leaving(s, o, start + 1), v);
      assert head != [] ==> head[1..] == [];
    }
  }

  /** A signal for `v` that is accepted (MSI enabled, Bus Master set, vector implemented) and finds it not pending. */
  ghost predicate FreshSignal(x: Machine, m: MsiSetup, op: Op, v: nat)
    requires Sound(x, m) && v < 32
  {
    op == Signal(v) && CanSend(x.space, x.o) && !PendingBits(x.space, x.o)[v]
    && (v < CapableVectors(Control(x.space, x.o)) || VectorMasked(x.space, x.o, v))
  }

  /** A signal the source answers with an error while clearing the bit of a vector that is not implemented. */
  ghost predicate Discards(x: Machine, m: MsiSetup, op: Op, v: nat)
    requires Sound(x, m) && v < 32
  {
    op == Signal(v) && CanSend(x.space, x.o) && PendingBits(x.space, x.o)[v]
    && v >= CapableVectors(Control(x.space, x.o)) && !VectorMasked(x.space, x.o, v)
  }

  lemma SignalBalances(x: Machine, m: MsiSetup, u: nat, v: nat)
    requires Sound(x, m) && u < 32 && v < 32
    ensures Sound(Step(x, Signal(u)), m)
    ensures Account(Step(x, Signal(u)), m, v) ==
            Account(x, m, v) + (if FreshSignal(x, m, Signal(u), v) then 1 else 0) - (if Discards(x, m, Signal(u), v) then 1 else 0)
  {
    hide MsiMessage, WritePending, MsiReady, MsiTryGenerate, MsiSent;
    var s, o := x.space, x.o;
    ReadyFits(s, o, m);
    StepSound(x, m, Signal(u));
    ReadyFits(Step(x, Signal(u)).space, o, m);
    if CanSend(s, o) {
      SignalMeans(s, o, u);
      Stored(s, o, PendingBits(s, o)[u := VectorMasked(s, o, u)]);
      MsixLedger.SentForConcat(x.sent, MsiSent(MsiTryGenerate(s, o, u), u), v);
      OneMessage(s, o, u, v);
    } else {
      ClosedSignal(x, u);
    }
  }

  lemma {:induction false} OneMessage(s: Space, o: nat, u: nat, v: nat)
    requires Fits(s, o) && HasMasking(Control(s, o)) && u < 32
    ensures MsixLedger.SentFor([Delivery(u, MsiMessage(s, o, u))], v) == if u == v then 1 else 0
    ensures MsixLedger.SentFor([], v) == 0
  {
    assert [Delivery(u, MsiMessage(s, o, u))][1..] == [];
  }

  lemma ClosedSignal(x: Machine, u: nat)
    requires Fits(x.space, x.o) && u < 32 && !CanSend(x.space, x.o)
    ensures Step(x, Signal(u)) == x
  {
    assert x.sent + [] == x.sent;
  }

  lemma WriteBalances(x: Machine, m: MsiSetup, offset: nat, data: Bytes, v: nat)
    requires Sound(x, m) && Regular(x, ConfigWrite(offset, data)) && v < 32
    ensures Sound(Step(x, ConfigWrite(offset, data)), m)
    ensures Account(Step(x, ConfigWrite(offset, data)), m, v) == Account(x, m, v)
  {
    StepSound(x, m, ConfigWrite(offset, data));
    if Accepted(offset, |data|) {
      WriteMeans(x, m, offset, data);
      hide GuestWrite, WritePending, FixControl, Fixed, MsiReady, Step, Control, Evaluates, Remaining, Leaving, Leaves;
      var s := Fixed(x, offset, data);
      ReadyFits(s, x.o, m);
      if Evaluates(s, x.o, offset, |data|) {
        EvaluationBalances(s, x.o, x.sent, v);
      }
    }
  }

  lemma {:induction false} EvaluationBalances(s: Space, o: nat, sent: seq<Delivery>, v: nat)
    requires Fits(s, o) && HasMasking(Control(s, o)) && PendingWritable(s, o) && v < 32
    ensures var t := WritePending(s, o, Remaining(s, o, 0));
            && Fits(t, o) && HasMasking(Control(t, o))
            && MsixLedger.SentFor(sent + Leaving(s, o, 0), v) + (if PendingBits(t, o)[v] then 1 else 0) ==
               MsixLedger.SentFor(sent, v) + (if PendingBits(s, o)[v] then 1 else 0)
  {
    hide WritePending;
    Stored(s, o, Remaining(s, o, 0));
    LeavesOnce(s, o, 0, v);
    MsixLedger.SentForConcat(sent, Leaving(s, o, 0), v);
  }

  /** Fresh signals for `v` in a run. */
  ghost function FreshSignals(x: Machine, m: MsiSetup, ops: seq<Op>, v: nat): nat
    requires Held(x, ops) && Sound(x, m) && v < 32
    decreases |ops|
  {
    if ops == [] then 0
    else
      StepSound(x, m, ops[0]);
      (if FreshSignal(x, m, ops[0], v) then 1 else 0) + FreshSignals(Step(x, ops[0]), m, ops[1..], v)
  }

  /**
   The ledger of every implemented vector balances in every run: each accepted signal that
   is not merged into one already pending is exactly one message, sent or still pending.
   */
  lemma {:induction false} LedgerBalances(x: Machine, m: MsiSetup, ops: seq<Op>, v: nat)
    requires Sound(x, m) && Held(x, ops) && v < Pow2(m.vectors) && v < 32
    ensures Sound(Run(x, ops), m)
    ensures Account(Run(x, ops), m, v) == Account(x, m, v) + FreshSignals(x, m, ops, v)
    decreases |ops|
  {
    hide Step, Sound, Account, FreshSignal, Fits, CommandBit, Discards;
    if ops != [] {
      StepSound(x, m, ops[0]);
      match ops[0] {
        case ConfigWrite(offset, data) =>
          WriteBalances(x, m, offset, data, v);
          NotSignal(x, m, ops[0], v);
        case Signal(u) =>
          SignalBalances(x, m, u, v);
          NoDiscard(x, m, u, v);
      }
      LedgerBalances(Step(x, ops[0]), m, ops[1..], v);
    }
  }

  lemma NotSignal(x: Machine, m: MsiSetup, op: Op, v: nat)
    requires Sound(x, m) && v < 32 && op.ConfigWrite?
    ensures !FreshSignal(x, m, op, v)
  {
  }

  lemma NoDiscard(x: Machine, m: MsiSetup, u: nat, v: nat)
    requires Sound(x, m) && v < 32 && v < Pow2(m.vectors)
    ensures !Discards(x, m, Signal(u), v)
  {
    ReadyVectors(x.space, x.o, m);
  }

  // ---------- the enabled vector count ----------

  /**
   The Multiple Message Enable field is legal and at most the capable one after every
   control write, and stays so through signals and all other writes.
   */
  lemma EnableStaysLegal(x: Machine, m: MsiSetup, op: Op)
    requires Sound(x, m) && Regular(x, op)
    requires EnableLegal(Control(x.space, x.o)) || (op.ConfigWrite? && Accepted(op.offset, |op.data|) && RangeOverlaps(op.offset, |op.data|, x.o, 2))
    ensures Sound(Step(x, op), m) && EnableLegal(Control(Step(x, op).space, x.o))
  {
    StepSound(x, m, op);
    match op
    case ConfigWrite(offset, data) =>
      if Accepted(offset, |data|) {
        WriteLegal(x, m, offset, data);
      }
    case Signal(v) =>
      hide MsiMessage, WritePending, MsiReady, MsiTryGenerate, EnableLegal;
      ReadyFits(x.space, x.o, m);
      if CanSend(x.space, x.o) {
        SignalMeans(x.space, x.o, v);
        Stored(x.space, x.o, PendingBits(x.space, x.o)[v := VectorMasked(x.space, x.o, v)]);
      } else {
        ClosedSignal(x, v);
      }
  }

  lemma WriteLegal(x: Machine, m: MsiSetup, offset: nat, data: Bytes)
    requires Sound(x, m) && Accepted(offset, |data|) && Regular(x, ConfigWrite(offset, data))
    requires EnableLegal(Control(x.space, x.o)) || RangeOverlaps(offset, |data|, x.o, 2)
    requires Sound(Step(x, ConfigWrite(offset, data)), m)
    ensures EnableLegal(Control(Step(x, ConfigWrite(offset, data)).space, x.o))
  {
    hide EnableLegal, GuestWrite, WritePending, FixControl, MsiReady, Step, Control, Evaluates, Remaining, Leaving;
    ReadyFits(x.space, x.o, m);
    WriteMeans(x, m, offset, data);
    WrittenReady(x, m, offset, data);
    Untouched(x, m, offset, data);
    EnableAlwaysLegal(GuestWrite(x.space, offset, data), x.o, m);
    var s := Fixed(x, offset, data);
    ReadyFits(s, x.o, m);
    if Evaluates(s, x.o, offset, |data|) {
      Stored(s, x.o, Remaining(s, x.o, 0));
    }
  }
}
