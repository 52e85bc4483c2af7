/**
 MSI-X bookkeeping over whole runs: an exact ledger of signals and messages for each
 vector, and the exact layouts for which nothing deliverable is ever left behind.
 */
module MsixLedger {
  import opened Basics
  import opened Bits
  import opened RegisterBlock
  import opened ConfigSpace
  import opened MsixCore
  import opened MsixEvaluation
  import opened MsixRuns

  // ---------- every fresh signal becomes one message or stays pending ----------

  /** How many messages left for vector `v`. */
  function SentFor(sent: seq<Delivery>, v: nat): nat {
    if sent == [] then 0 else (if sent[0].vector == v then 1 else 0) + SentFor(sent[1..], v)
  }

  lemma {:induction false} SentForConcat(a: seq<Delivery>, b: seq<Delivery>, v: nat)
    ensures SentFor(a + b, v) == SentFor(a, v) + SentFor(b, v)
  {
    if a == [] {
      assert a + b == b;
    } else {
      SentForConcat(a[1..], b, v);
      assert (a + b)[1..] == a[1..] + b;
    }
  }

  predicate Ascending(vs: seq<nat>) {
    forall i, j :: 0 <= i < j < |vs| ==> vs[i] < vs[j]
  }

  /** Along ascending visits a vector is delivered once if it is visited and deliverable, and otherwise not at all. */
  lemma {:induction false} DeliveredOnce(m: Msix, g: Gate, vs: seq<nat>, v: nat)
    requires Valid(m) && Ascending(vs)
    ensures SentFor(Deliveries(m, g, vs), v) == if v in vs && Delivers(m, g, v) then 1 else 0
  {
    if vs != [] {
      DeliveredOnce(m, g, vs[1..], v);
      var head := if Delivers(m, g, vs[0]) then [Delivery(vs[0], MessageFor(m, vs[0]))] else [];
      SentForConcat(head, Deliveries(m, g, vs[1..]), v);
      assert forall j :: 0 < j < |vs| ==> vs[0] < vs[j];
    }
  }

  /** Messages that left for `v`, plus one if it is still pending. */
  function Account(x: Machine, v: nat): nat {
    SentFor(x.sent, v) + if Pending(x.msix.pba, v) then 1 else 0
  }

  /** Evaluation moves entries from "pending" to "sent" and creates none. */
  lemma {:induction false} EvaluateBalances(m: Msix, g: Gate, sent: seq<Delivery>, v: nat)
    requires Valid(m) && InTable(m)
    ensures var r := Evaluate(m, g, sent);
            SentFor(r.sent, v) + (if Pending(r.msix.pba, v) then 1 else 0) ==
            SentFor(sent, v) + (if Pending(m.pba, v) then 1 else 0)
  {
    hide FindPending, IsMasked, MessageFor;
    EvaluateExact(m, g, 0, sent);
    var vs := Visits(m.pba, 0);
    forall i, j | 0 <= i < j < |vs| ensures vs[i] < vs[j] {
      VisitsAscend(m.pba, 0, j);
    }
    DeliveredOnce(m, g, vs, v);
    SentForConcat(sent, Deliveries(m, g, vs), v);
    if v in vs {
      VisitedIsPending(m.pba, 0, v);
    }
  }

  /** An accepted signal for `v` that finds its pending bit clear. */
  predicate FreshSignal(x: Machine, op: Op, v: nat)
    requires Sound(x)
  {
    op == Signal(v) && AcceptsSignal(x, v) && !Pending(x.msix.pba, v)
  }

  lemma SignalBalances(x: Machine, u: nat, v: nat)
    requires Sound(x) && InTable(x.msix)
    ensures Account(Step(x, Signal(u)), v) == Account(x, v) + if FreshSignal(x, Signal(u), v) then 1 else 0
  {
    hide GateOf, EntryMasked, MessageFor;
    if Gated(x).enabled {
      MsixGeneratesIff(x.msix, Gated(x), u);
      var a := TryGenerate(x.msix, Gated(x), u);
      SentForConcat(x.sent, Sent(a, u), v);
      assert Sent(a, u) != [] ==> Sent(a, u)[1..] == [];
    }
  }

  lemma StepBalances(x: Machine, op: Op, v: nat)
    requires Sound(x) && InTable(x.msix)
    ensures Account(Step(x, op), v) == Account(x, v) + if FreshSignal(x, op, v) then 1 else 0
  {
    hide Evaluate, GateOf, AcceptsSignal;
    match op
    case ConfigWrite(offset, data) =>
      if Accepted(offset, |data|) {
        EvaluateBalances(x.msix, Gated(x.(space := GuestWrite(x.space, offset, data))), x.sent, v);
      }
    case WriteTable(offset, data) =>
      if offset + |data| <= |x.msix.table| {
        var stored := x.msix.(table := Set(x.msix.table, offset, data));
        assert InTable(stored);
        EvaluateBalances(stored, Gated(x), x.sent, v);
      }
    case WritePba(_, _) =>
    case Signal(u) => SignalBalances(x, u, v);
  }

  /** The number of fresh signals for `v` in a run. */
  function FreshSignals(x: Machine, ops: seq<Op>, v: nat): nat
    requires Sound(x)
    decreases |ops|
  {
    if ops == [] then 0 else (if FreshSignal(x, ops[0], v) then 1 else 0) + FreshSignals(Step(x, ops[0]), ops[1..], v)
  }

  /**
   The ledger balances in every run, for any pending-bit array and whatever happens to
   Bus Master: each accepted signal that is not merged into one already pending accounts
   for exactly one message, sent or still pending.
   */
  lemma {:induction false} LedgerBalances(x: Machine, ops: seq<Op>, v: nat)
    requires Sound(x) && InTable(x.msix)
    ensures Account(Run(x, ops), v) == Account(x, v) + FreshSignals(x, ops, v)
    decreases |ops|
  {
    hide Step, InTable, Account, FreshSignal;
    if ops != [] {
      StepBalances(x, ops[0], v);
      StepInTable(x, ops[0]);
      LedgerBalances(Step(x, ops[0]), ops[1..], v);
    }
  }

  lemma StepInTable(x: Machine, op: Op)
    requires Sound(x) && InTable(x.msix)
    ensures InTable(Step(x, op).msix)
  {
    hide Evaluate, GateOf;
    match op
    case ConfigWrite(offset, data) =>
      if Accepted(offset, |data|) {
        EvaluateInTable(x.msix, Gated(x.(space := GuestWrite(x.space, offset, data))), x.sent);
      }
    case WriteTable(offset, data) =>
      if offset + |data| <= |x.msix.table| {
        var stored := x.msix.(table := Set(x.msix.table, offset, data));
        assert InTable(stored);
        EvaluateInTable(stored, Gated(x), x.sent);
      }
    case WritePba(_, _) =>
    case Signal(_) =>
  }

  // ---------- the layouts that leave nothing behind ----------

  ghost predicate NonePending(pba: Pba) {
    forall v: nat :: !Pending(pba, v)
  }

  /** The guest can write MSI-X Enable and Function Mask, as the capability sets them up. */
  predicate ControlWritable(x: Machine)
    requires Sound(x)
  {
    x.space.writable[x.cap + 1][6] && x.space.writable[x.cap + 1][7]
  }

  /** A guest write of MSI-X Enable and Function Mask. */
  function SetControl(x: Machine, fnMask: bool): Op
    requires Sound(x)
  {
    ConfigWrite(x.cap + 1, [x.space.regs[x.cap + 1][6 := fnMask][7 := true]])
  }

  lemma ControlWritten(x: Machine, fnMask: bool)
    requires Sound(x) && ControlWritable(x) && Gated(x).busMaster
    ensures var op := SetControl(x, fnMask);
            var y := x.(space := GuestWrite(x.space, op.offset, op.data));
            && Sound(y) && ControlWritable(y) && Gated(y) == Gate(true, true, fnMask)
            && Step(x, op) == OnWrite(y, op.offset, 1) && RangeOverlaps(op.offset, 1, x.cap, 2)
  {
    var op := SetControl(x, fnMask);
    var s := GuestWrite(x.space, op.offset, op.data);
    assert Accepted(op.offset, 1);
    assert s.regs[x.cap + 1][6] == fnMask && s.regs[x.cap + 1][7];
    assert Word(s.regs, COMMAND) == Word(x.space.regs, COMMAND);
  }

  lemma NothingToEvaluate(m: Msix, g: Gate, sent: seq<Delivery>)
    requires Valid(m) && NonePending(m.pba)
    ensures Evaluate(m, g, sent) == Evaluation(m, sent)
  {
    assert FindPending(m.pba, 0).None?;
  }

  /** A guest write that unmasks the entry of vector `v`. */
  function Unmask(v: nat): Op {
    WriteTable(ENTRY_SIZE * v + 12, [ZERO_BYTE, ZERO_BYTE, ZERO_BYTE, ZERO_BYTE])
  }

  lemma Unmasked(x: Machine, v: nat)
    requires Sound(x) && NonePending(x.msix.pba) && v < Vectors(x.msix)
    ensures var y := Step(x, Unmask(v));
            && y.space == x.space && y.cap == x.cap && y.msix.pba == x.msix.pba && |y.msix.table| == |x.msix.table|
            && !EntryMasked(y.msix, v)
  {
    hide Evaluate, GateOf;
    var op := Unmask(v);
    var stored := x.msix.(table := Set(x.msix.table, op.offset, op.data));
    NothingToEvaluate(stored, Gated(x), x.sent);
    assert stored.table[op.offset] == ZERO_BYTE;
  }

  /** With the function masked, a signal only sets the pending bit. */
  lemma HeldBack(x: Machine, v: nat)
    requires Sound(x) && Gated(x) == Gate(true, true, true) && v < Vectors(x.msix) && v / 64 < |x.msix.pba|
    ensures var y := Step(x, Signal(v));
            && y.space == x.space && y.cap == x.cap && y.msix.table == x.msix.table && |y.msix.pba| == |x.msix.pba|
            && forall u: nat :: Pending(y.msix.pba, u) <==> u == v || Pending(x.msix.pba, u)
  {
  }

  /** With exactly 5 and 64 pending, the search never comes to 64. */
  lemma {:induction false} Overlooked(pba: Pba)
    requires forall u: nat :: Pending(pba, u) <==> u == 5 || u == 64
    ensures 64 !in Visits(pba, 0)
  {
    hide FindPending;
    assert Eligible(pba, 0, 5);
    assert FindPending(pba, 0) == Some(5);
    assert forall u: nat :: !Eligible(pba, 6, u);
    assert Visits(pba, 6) == [];
  }

  lemma {:induction false} RunCons(x: Machine, op: Op, rest: seq<Op>)
    requires Sound(x)
    ensures Run(x, [op] + rest) == Run(Step(x, op), rest)
    ensures Held(x, [op] + rest) <==> Gated(x).busMaster && Held(Step(x, op), rest)
  {
    hide Step, Gated;
    assert ([op] + rest)[1..] == rest;
  }

  predicate Large(m: Msix) {
    Vectors(m) > 64 && |m.pba| > 1
  }

  /** Enable and mask the function, unmask entry 64, signal 5 and 64, unmask the function: 64 is stranded. */
  lemma Strands(x: Machine) returns (ops: seq<Op>)
    requires Sound(x) && NonePending(x.msix.pba) && Gated(x).busMaster && ControlWritable(x) && !OneWord(x.msix)
    ensures Held(x, ops) && !Quiet(Run(x, ops))
  {
    hide Step, Evaluate, Gated, Quiet;
    var op := SetControl(x, true);
    ControlWritten(x, true);
    SameGate(x.(space := GuestWrite(x.space, op.offset, op.data)), Step(x, op));
    var rest := StrandsMasked(Step(x, op));
    ops := [op] + rest;
    RunCons(x, op, rest);
  }

  lemma StrandsMasked(x: Machine) returns (ops: seq<Op>)
    requires Sound(x) && NonePending(x.msix.pba) && ControlWritable(x) && Large(x.msix)
    requires Gated(x) == Gate(true, true, true)
    ensures Held(x, ops) && !Quiet(Run(x, ops))
  {
    hide Step, Evaluate, Gated, Quiet;
    var y := Step(x, Unmask(64));
    Unmasked(x, 64);
    SameGate(x, y);
    var z := Step(y, Signal(5));
    HeldBack(y, 5);
    SameGate(y, z);
    SameEntry(y.msix, z.msix, 64);
    var rest := StrandsPending(z);
    RunCons(y, Signal(5), rest);
    ops := [Unmask(64)] + ([Signal(5)] + rest);
    RunCons(x, Unmask(64), [Signal(5)] + rest);
  }

  lemma SameEntry(m: Msix, t: Msix, v: nat)
    requires Valid(m) && Valid(t) && m.table == t.table && v < Vectors(m)
    ensures EntryMasked(m, v) == EntryMasked(t, v)
  {
  }

  lemma StrandsPending(x: Machine) returns (ops: seq<Op>)
    requires Sound(x) && ControlWritable(x) && Large(x.msix) && !EntryMasked(x.msix, 64)
    requires Gated(x) == Gate(true, true, true)
    requires forall u: nat :: Pending(x.msix.pba, u) <==> u == 5
    ensures Held(x, ops) && !Quiet(Run(x, ops))
  {
    hide Step, Evaluate, Gated, Quiet;
    var y := Step(x, Signal(64));
    HeldBack(x, 64);
    SameGate(x, y);
    SameEntry(x.msix, y.msix, 64);
    var op := SetControl(y, false);
    var z := Step(y, op);
    Stranded(y, z);
    assert Run(z, []) == z && Held(z, []);
    RunCons(y, op, []);
    RunCons(x, Signal(64), [op] + []);
    ops := [Signal(64)] + ([op] + []);
  }

  lemma SameGate(x: Machine, y: Machine)
    requires Sound(x) && Sound(y) && x.space == y.space && x.cap == y.cap
    ensures Gated(x) == Gated(y)
  {
  }

  lemma Stranded(x: Machine, y: Machine)
    requires Sound(x) && ControlWritable(x) && Gated(x).busMaster && 64 < Vectors(x.msix) && !EntryMasked(x.msix, 64)
    requires forall u: nat :: Pending(x.msix.pba, u) <==> u == 5 || u == 64
    requires y == Step(x, SetControl(x, false))
    ensures Gated(y).busMaster && !Quiet(y)
  {
    hide FindPending, GateOf;
    ControlWritten(x, false);
    var g := Gate(true, true, false);
    EvaluateExact(x.msix, g, 0, x.sent);
    Overlooked(x.msix.pba);
    assert Gated(y) == g;
    assert Pending(y.msix.pba, 64) && !IsMasked(y.msix, g, 64);
  }

  /**
   From a fresh function, every run with Bus Master held leaves only masked vectors
   pending if and only if all vectors of the table fit into one word of the array.
   */
  lemma {:induction false} QuietIffOneWord(x: Machine)
    requires Sound(x) && NonePending(x.msix.pba) && Gated(x).busMaster && ControlWritable(x)
    ensures (forall ops: seq<Op> :: Held(x, ops) ==> Quiet(Run(x, ops))) <==> OneWord(x.msix)
  {
    hide Step, Run, Held;
    if OneWord(x.msix) {
      forall ops: seq<Op> | Held(x, ops) ensures Quiet(Run(x, ops)) {
        RunQuiet(x, ops);
      }
    } else {
      var ops := Strands(x);
      assert Held(x, ops) && !Quiet(Run(x, ops));
    }
  }
}
