/**
 MSI-X over whole runs: device signals, table writes, pending-array writes and
 configuration writes in any order. Nothing accepted is lost, nothing leaves while
 masked, and nothing deliverable stays behind.
 */
module MsixRuns {
  import opened Basics
  import opened Bits
  import opened RegisterBlock
  import opened ConfigSpace
  import opened MsixCore
  import opened MsixEvaluation
  import opened MsixTable

  /** `cap` is the offset of the Message Control word; `sent` is what the interrupt controller received. */
  datatype Machine = Machine(space: Space, cap: nat, msix: Msix, sent: seq<Delivery>)

  predicate Sound(x: Machine) {
    WellFormed(x.space) && DEVICE_START <= x.cap && x.cap + 2 <= SPACE_SIZE && Valid(x.msix)
  }

  function Gated(x: Machine): Gate
    requires Sound(x)
  {
    GateOf(x.space, x.cap)
  }

  datatype Op =
    | ConfigWrite(offset: nat, data: Bytes)
    | WriteTable(offset: nat, data: Bytes)
    | WritePba(offset: nat, data: Bytes)
    | Signal(vector: nat)

  /** `on_write_config` of MSI-X, after the write itself was stored. */
  function OnWrite(x: Machine, offset: nat, size: nat): (r: Machine)
    requires Sound(x)
    ensures Sound(r)
  {
    if RangeOverlaps(offset, size, x.cap, 2) && !Gated(x).fnMasked then
      var e := Evaluate(x.msix, Gated(x), x.sent);
      x.(msix := e.msix, sent := e.sent)
    else x

  }

  /** One action. The pending array ignores guest writes; a signal counts only while MSI-X is enabled. */
  function Step(x: Machine, op: Op): (r: Machine)
    requires Sound(x)
    ensures Sound(r)
  {
    match op
    case ConfigWrite(offset, data) =>
      if Accepted(offset, |data|) then OnWrite(x.(space := GuestWrite(x.space, offset, data)), offset, |data|) else x
    case WriteTable(offset, data) =>
      var w := TableWrite(x.msix, Gated(x), offset, data, x.sent);
      x.(msix := w.msix, sent := w.sent)
    case WritePba(_, _) => x
    case Signal(v) =>
      if !Gated(x).enabled then x
      else
        var a := TryGenerate(x.msix, Gated(x), v);
        x.(msix := a.msix, sent := x.sent + Sent(a, v))
  }

  function Run(x: Machine, ops: seq<Op>): (r: Machine)
    requires Sound(x)
    ensures Sound(r)
    decreases |ops|
  {
    if ops == [] then x else Run(Step(x, ops[0]), ops[1..])
  }

  /** Bus Master stays set throughout the run. */
  predicate Held(x: Machine, ops: seq<Op>)
    requires Sound(x)
    decreases |ops|
  {
    Gated(x).busMaster && (ops != [] ==> Held(Step(x, ops[0]), ops[1..]))
  }

  /** Only vectors of the table are ever pending. */
  ghost predicate InTable(m: Msix)
    requires Valid(m)
  {
    forall v: nat :: Pending(m.pba, v) ==> v < Vectors(m)
  }

  /** With MSI-X enabled, whatever is pending is masked: nothing deliverable was left behind. */
  ghost predicate Quiet(x: Machine)
    requires Sound(x)
  {
    Gated(x).enabled ==> forall v: nat :: Pending(x.msix.pba, v) ==> IsMasked(x.msix, Gated(x), v)
  }

  /** All pending bits fit into one word of the array. */
  predicate OneWord(m: Msix) {
    Vectors(m) <= 64 || |m.pba| <= 1
  }

  lemma OneWordNoStranded(m: Msix)
    requires Valid(m) && InTable(m) && OneWord(m)
    ensures NoStranded(m.pba)
  {
    forall u: nat, v: nat | Adjacent(m.pba, u, v) ensures Reaches(u, v) {
      assert v < 64;
    }
  }

  // ---------- one action at a time ----------

  /** An evaluation leaves only masked vectors pending. */
  lemma EvaluateQuiets(m: Msix, g: Gate, sent: seq<Delivery>)
    requires Valid(m) && InTable(m) && OneWord(m) && Open(g)
    ensures var r := Evaluate(m, g, sent);
            InTable(r.msix) && forall v: nat :: Pending(r.msix.pba, v) ==> IsMasked(r.msix, g, v)
  {
    hide Evaluate;
    OneWordNoStranded(m);
    EvaluateComplete(m, g, sent);
    var r := Evaluate(m, g, sent);
    forall v: nat | Pending(r.msix.pba, v) ensures IsMasked(r.msix, g, v) {
      MaskIgnoresPba(m, r.msix, g, v);
    }
  }

  lemma MaskIgnoresPba(m: Msix, t: Msix, g: Gate, v: nat)
    requires Valid(m) && Valid(t) && m.table == t.table
    ensures IsMasked(m, g, v) == IsMasked(t, g, v)
  {
  }

  /** Whatever the gate, an evaluation makes nothing new pending. */
  lemma EvaluateInTable(m: Msix, g: Gate, sent: seq<Delivery>)
    requires Valid(m) && InTable(m)
    ensures InTable(Evaluate(m, g, sent).msix)
  {
    EvaluateExact(m, g, 0, sent);
  }

  lemma ConfigWriteKeeps(x: Machine, offset: nat, data: Bytes)
    requires Sound(x) && InTable(x.msix) && OneWord(x.msix) && Quiet(x)
    requires Gated(Step(x, ConfigWrite(offset, data))).busMaster
    ensures InTable(Step(x, ConfigWrite(offset, data)).msix) && Quiet(Step(x, ConfigWrite(offset, data)))
  {
    hide Evaluate, IsMasked;
    if Accepted(offset, |data|) {
      var y := x.(space := GuestWrite(x.space, offset, data));
      if RangeOverlaps(offset, |data|, x.cap, 2) {
        if Gated(y).fnMasked {
          FnMasked(y);
        } else {
          EvaluateInTable(y.msix, Gated(y), y.sent);
          if Gated(y).enabled {
            EvaluateQuiets(y.msix, Gated(y), y.sent);
          }
        }
      } else {
        assert Word(y.space.regs, x.cap) == Word(x.space.regs, x.cap);
        forall v: nat ensures IsMasked(y.msix, Gated(y), v) == IsMasked(x.msix, Gated(x), v) {
          MaskGate(x.msix, Gated(x), Gated(y), v);
        }
      }
    }
  }

  /**
   A configuration write evaluates the pending vectors, under the gate it leaves behind, exactly if it touches the control
   word and does not leave the function masked; any other write sends nothing and leaves every pending bit alone.
   */
  lemma ControlWriteEvaluates(x: Machine, offset: nat, data: Bytes)
    requires Sound(x) && Accepted(offset, |data|)
    ensures var y := x.(space := GuestWrite(x.space, offset, data));
            Step(x, ConfigWrite(offset, data)) ==
              if (exists j :: InRange(j, offset, |data|) && InRange(j, x.cap, 2)) && !Word(y.space.regs, x.cap)[14]
              then var e := Evaluate(x.msix, Gated(y), x.sent); y.(msix := e.msix, sent := e.sent)
              else y
  {
    hide Evaluate, GuestWrite;
    OverlapsMeansSharedAddress(offset, |data|, x.cap, 2);
  }

  lemma FnMasked(x: Machine)
    requires Sound(x) && InTable(x.msix) && Gated(x).fnMasked
    ensures Quiet(x)
  {
  }

  lemma MaskGate(m: Msix, g: Gate, h: Gate, v: nat)
    requires Valid(m) && g.fnMasked == h.fnMasked
    ensures IsMasked(m, g, v) == IsMasked(m, h, v)
  {
  }

  lemma TableWriteKeeps(x: Machine, offset: nat, data: Bytes)
    requires Sound(x) && InTable(x.msix) && OneWord(x.msix) && Quiet(x) && Gated(x).busMaster
    ensures InTable(Step(x, WriteTable(offset, data)).msix) && Quiet(Step(x, WriteTable(offset, data)))
  {
    hide Evaluate, GateOf;
    if offset + |data| <= |x.msix.table| {
      var stored := x.msix.(table := Set(x.msix.table, offset, data));
      assert InTable(stored);
      if TargetsVectorControl(offset, |data|) {
        EvaluateInTable(stored, Gated(x), x.sent);
        if Gated(x).enabled {
          EvaluateQuiets(stored, Gated(x), x.sent);
        }
      } else {
        forall v: nat | v < Vectors(stored) ensures EntryMasked(stored, v) == EntryMasked(x.msix, v) {
          MasksUnchanged(x.msix, offset, data, v);
        }
      }
    }
  }

  lemma SignalKeeps(x: Machine, v: nat)
    requires Sound(x) && InTable(x.msix) && Quiet(x)
    ensures InTable(Step(x, Signal(v)).msix) && Quiet(Step(x, Signal(v)))
  {
  }

  lemma StepKeeps(x: Machine, op: Op)
    requires Sound(x) && InTable(x.msix) && OneWord(x.msix) && Quiet(x)
    requires Gated(x).busMaster && Gated(Step(x, op)).busMaster
    ensures InTable(Step(x, op).msix) && OneWord(Step(x, op).msix) && Quiet(Step(x, op))
  {
    match op
    case ConfigWrite(offset, data) => ConfigWriteKeeps(x, offset, data);
    case WriteTable(offset, data) => TableWriteKeeps(x, offset, data);
    case WritePba(_, _) =>
    case Signal(v) => SignalKeeps(x, v);
  }

  /** Nothing deliverable is ever left behind. */
  lemma {:induction false} RunQuiet(x: Machine, ops: seq<Op>)
    requires Sound(x) && InTable(x.msix) && OneWord(x.msix) && Quiet(x) && Held(x, ops)
    ensures InTable(Run(x, ops).msix) && Quiet(Run(x, ops))
    decreases |ops|
  {
    hide Step, InTable, Quiet, OneWord, Gated;
    if ops != [] {
      HeldNext(x, ops);
      StepKeeps(x, ops[0]);
      RunQuiet(Step(x, ops[0]), ops[1..]);
    }
  }

  lemma {:induction false} HeldNext(x: Machine, ops: seq<Op>)
    requires Sound(x) && Held(x, ops) && ops != []
    ensures Gated(x).busMaster && Gated(Step(x, ops[0])).busMaster && Held(Step(x, ops[0]), ops[1..])
  {
  }

  // ---------- nothing accepted is lost ----------

  /** Between `x` and `y` a message left for vector `v`. */
  ghost predicate SentSince(x: Machine, y: Machine, v: nat) {
    exists i :: |x.sent| <= i < |y.sent| && y.sent[i].vector == v
  }

  /** A visited vector that delivers shows up among the deliveries. */
  lemma {:induction false} DeliveryExists(m: Msix, g: Gate, vs: seq<nat>, v: nat)
    requires Valid(m) && v in vs && Delivers(m, g, v)
    ensures exists i :: 0 <= i < |Deliveries(m, g, vs)| && Deliveries(m, g, vs)[i].vector == v
  {
    var ds := Deliveries(m, g, vs);
    var rest := Deliveries(m, g, vs[1..]);
    if vs[0] == v {
      assert ds[0].vector == v;
    } else {
      DeliveryExists(m, g, vs[1..], v);
      var i :| 0 <= i < |rest| && rest[i].vector == v;
      assert ds[|ds| - |rest| + i] == rest[i];
    }
  }

  /** Only visited, deliverable vectors appear, each with its entry's message, in the order of the visits. */
  lemma {:induction false} DeliverySound(m: Msix, g: Gate, vs: seq<nat>, i: nat)
    requires Valid(m) && i < |Deliveries(m, g, vs)|
    ensures var d := Deliveries(m, g, vs)[i];
            d.vector in vs && Delivers(m, g, d.vector) && d.message == MessageFor(m, d.vector)
  {
    var ds := Deliveries(m, g, vs);
    if vs != [] {
      var head := |ds| - |Deliveries(m, g, vs[1..])|;
      if i >= head {
        DeliverySound(m, g, vs[1..], i - head);
        assert ds[i] == Deliveries(m, g, vs[1..])[i - head];
      }
    }
  }

  lemma EvaluateLosesNothing(m: Msix, g: Gate, sent: seq<Delivery>, v: nat)
    requires Valid(m) && InTable(m) && Pending(m.pba, v)
    ensures var r := Evaluate(m, g, sent);
            && sent <= r.sent
            && (Pending(r.msix.pba, v) || exists i :: |sent| <= i < |r.sent| && r.sent[i].vector == v)
  {
    EvaluateExact(m, g, 0, sent);
    var r := Evaluate(m, g, sent);
    var ds := Deliveries(m, g, Visits(m.pba, 0));
    if !Pending(r.msix.pba, v) {
      DeliveryExists(m, g, Visits(m.pba, 0), v);
      var i :| 0 <= i < |ds| && ds[i].vector == v;
      assert r.sent[|sent| + i] == ds[i];
    }
  }

  /** A pending vector stays pending until a message for it leaves. */
  lemma StepLosesNothing(x: Machine, op: Op, v: nat)
    requires Sound(x) && InTable(x.msix) && Pending(x.msix.pba, v)
    ensures InTable(Step(x, op).msix) && x.sent <= Step(x, op).sent
    ensures Pending(Step(x, op).msix.pba, v) || SentSince(x, Step(x, op), v)
  {
    hide Evaluate, GateOf;
    match op
    case ConfigWrite(offset, data) =>
      if Accepted(offset, |data|) {
        var y := x.(space := GuestWrite(x.space, offset, data));
        EvaluateInTable(x.msix, Gated(y), x.sent);
        EvaluateLosesNothing(x.msix, Gated(y), x.sent, v);
      }
    case WriteTable(offset, data) =>
      if offset + |data| <= |x.msix.table| {
        var stored := x.msix.(table := Set(x.msix.table, offset, data));
        assert InTable(stored);
        EvaluateInTable(stored, Gated(x), x.sent);
        EvaluateLosesNothing(stored, Gated(x), x.sent, v);
      }
    case WritePba(_, _) =>
    case Signal(u) =>
      if Gated(x).enabled && u == v {
        AttemptEffect(x.msix, Gated(x), v);
        var a := TryGenerate(x.msix, Gated(x), v);
        if !Pending(a.msix.pba, v) {
          assert (x.sent + Sent(a, v))[|x.sent|].vector == v;
        }
      }
  }

  lemma {:induction false} RunLosesNothing(x: Machine, ops: seq<Op>, v: nat)
    requires Sound(x) && InTable(x.msix) && Pending(x.msix.pba, v)
    ensures Pending(Run(x, ops).msix.pba, v) || SentSince(x, Run(x, ops), v)
    decreases |ops|
  {
    hide Step, InTable, Pending;
    if ops != [] {
      var y := Step(x, ops[0]);
      StepLosesNothing(x, ops[0], v);
      if Pending(y.msix.pba, v) {
        RunLosesNothing(y, ops[1..], v);
      } else {
        RunExtends(y, ops[1..]);
      }
    }
  }

  /** Messages that left are never taken back. */
  lemma {:induction false} RunExtends(x: Machine, ops: seq<Op>)
    requires Sound(x)
    ensures x.sent <= Run(x, ops).sent
    decreases |ops|
  {
    hide Step;
    if ops != [] {
      StepExtends(x, ops[0]);
      RunExtends(Step(x, ops[0]), ops[1..]);
    }
  }

  lemma StepExtends(x: Machine, op: Op)
    requires Sound(x)
    ensures x.sent <= Step(x, op).sent
  {
    hide GateOf;
    match op
    case ConfigWrite(offset, data) =>
      if Accepted(offset, |data|) {
        EvaluateExact(x.msix, Gated(x.(space := GuestWrite(x.space, offset, data))), 0, x.sent);
      }
    case WriteTable(offset, data) =>
      if offset + |data| <= |x.msix.table| {
        EvaluateExact(x.msix.(table := Set(x.msix.table, offset, data)), Gated(x), 0, x.sent);
      }
    case WritePba(_, _) =>
    case Signal(_) =>
  }

  /** A signal the function takes: MSI-X is enabled, Bus Master set, and the vector has an entry and a pending bit. */
  predicate AcceptsSignal(x: Machine, v: nat)
    requires Sound(x)
  {
    Gated(x).busMaster && Gated(x).enabled && v < Vectors(x.msix) && v / 64 < |x.msix.pba|
  }

  /**
   No lost interrupt. Take any run from a quiet state with Bus Master held, an accepted
   signal for `v` somewhere in it, and any continuation: if at the end MSI-X is enabled
   and `v` is not masked, a message for `v` has left since the signal.
   */
  lemma {:induction false} NoLostInterrupt(x: Machine, before: seq<Op>, v: nat, after: seq<Op>)
    requires Sound(x) && InTable(x.msix) && OneWord(x.msix) && Quiet(x) && Held(x, before)
    requires AcceptsSignal(Run(x, before), v) && Held(Step(Run(x, before), Signal(v)), after)
    ensures var y := Run(x, before);
            var z := Run(Step(y, Signal(v)), after);
            Gated(z).enabled && !IsMasked(z.msix, Gated(z), v) ==> SentSince(y, z, v)
  {
    hide Quiet, InTable, Step, Run, Gated, OneWord, IsMasked, Pending, AcceptsSignal;
    RunQuiet(x, before);
    SameWords(x, before);
    var y := Run(x, before);
    var w := Step(y, Signal(v));
    SignalKeeps(y, v);
    SignalRegisters(y, v);
    var z := Run(w, after);
    RunExtends(w, after);
    if Pending(w.msix.pba, v) {
      DeliveredAfter(w, after, v);
      if SentSince(w, z, v) {
        var i :| |w.sent| <= i < |z.sent| && z.sent[i].vector == v;
        assert |y.sent| <= i;
      }
    } else {
      assert z.sent[|y.sent|].vector == v;
    }
  }

  /** A pending vector has left by the time it is unmasked and MSI-X enabled. */
  lemma {:induction false} DeliveredAfter(x: Machine, ops: seq<Op>, v: nat)
    requires Sound(x) && InTable(x.msix) && OneWord(x.msix) && Quiet(x) && Held(x, ops) && Pending(x.msix.pba, v)
    ensures var z := Run(x, ops);
            Gated(z).enabled && !IsMasked(z.msix, Gated(z), v) ==> SentSince(x, z, v)
  {
    hide Step, Run, Held;
    RunQuiet(x, ops);
    RunLosesNothing(x, ops, v);
  }

  /** An accepted signal is either sent at once or left pending. */
  lemma SignalRegisters(x: Machine, v: nat)
    requires Sound(x) && AcceptsSignal(x, v)
    ensures var y := Step(x, Signal(v));
            && OneWord(y.msix) == OneWord(x.msix) && x.sent <= y.sent
            && (Pending(y.msix.pba, v) || (|y.sent| == |x.sent| + 1 && y.sent[|x.sent|].vector == v))
  {
  }

  lemma {:induction false} SameWords(x: Machine, ops: seq<Op>)
    requires Sound(x)
    ensures OneWord(Run(x, ops).msix) == OneWord(x.msix) && |Run(x, ops).msix.table| == |x.msix.table|
    decreases |ops|
  {
    hide Evaluate, GateOf, Gated;
    if ops != [] {
      SameWords(Step(x, ops[0]), ops[1..]);
    }
  }

  /**
   Nothing leaves that should not: every message sent in a step is for a vector that was
   pending or is being signalled, that is enabled and unmasked in the state reached, and
   carries that entry's current address and data.
   */
  lemma SentIsDue(x: Machine, op: Op, i: nat)
    requires Sound(x) && |x.sent| <= i < |Step(x, op).sent|
    ensures var y := Step(x, op);
            var d := y.sent[i];
            && (Pending(x.msix.pba, d.vector) || op == Signal(d.vector))
            && Delivers(y.msix, Gated(y), d.vector)
            && d.message == MessageFor(y.msix, d.vector)
  {
    hide GateOf;
    match op
    case ConfigWrite(offset, data) =>
      EvaluationDue(x.msix, Gated(x.(space := GuestWrite(x.space, offset, data))), x.sent, i);
    case WriteTable(offset, data) =>
      EvaluationDue(x.msix.(table := Set(x.msix.table, offset, data)), Gated(x), x.sent, i);
    case Signal(v) =>
  }

  lemma EvaluationDue(m: Msix, g: Gate, sent: seq<Delivery>, i: nat)
    requires Valid(m) && |sent| <= i < |Evaluate(m, g, sent).sent|
    ensures var r := Evaluate(m, g, sent);
            var d := r.sent[i];
            Pending(m.pba, d.vector) && Delivers(r.msix, g, d.vector) && d.message == MessageFor(r.msix, d.vector)
  {
    EvaluateExact(m, g, 0, sent);
    var vs := Visits(m.pba, 0);
    DeliverySound(m, g, vs, i - |sent|);
    VisitedIsPending(m.pba, 0, Deliveries(m, g, vs)[i - |sent|].vector);
  }
}
