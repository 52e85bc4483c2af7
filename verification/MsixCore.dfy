/**
 MSI-X (msix.rs): the vector table, the pending-bit array, the search for the next
 pending vector and the evaluation loop that delivers what was held back.
 */
module MsixCore {
  import opened Basics
  import opened Bits
  import opened RegisterBlock
  import opened ConfigSpace

  const ENTRY_SIZE: nat := 16

  /** One 64-bit word of the pending-bit array. */
  type PbaWord = f: Bits | |f| == 64 witness Zeros(64)

  type Pba = seq<PbaWord>

  /** The device side of MSI-X: the raw bytes of the vector table and the pending bits. */
  datatype Msix = Msix(table: Bytes, pba: Pba)

  /** Whole entries, and no more than the eleven-bit Table Size field can announce. */
  predicate Valid(m: Msix) {
    |m.table| % ENTRY_SIZE == 0 && |m.table| <= ENTRY_SIZE * 2048
  }

  function Vectors(m: Msix): nat {
    |m.table| / ENTRY_SIZE
  }

  /** The register bits that decide whether messages may leave. */
  datatype Gate = Gate(busMaster: bool, enabled: bool, fnMasked: bool)

  /** Read from the Command register and the Message Control word of the capability at `cap`. */
  function GateOf(s: Space, cap: nat): Gate
    requires WellFormed(s) && cap + 2 <= SPACE_SIZE
  {
    Gate(CommandBit(s, BUS_MASTER), Word(s.regs, cap)[15], Word(s.regs, cap)[14])
  }

  /** A message that left, together with the vector it was sent for. */
  datatype Delivery = Delivery(vector: nat, message: Message)

  // ---------- table entries ----------

  function MessageFor(m: Msix, v: nat): Message
    requires Valid(m) && v < Vectors(m)
  {
    var e := ENTRY_SIZE * v;
    Message(Val(From(Dword(m.table, e), 2) + Dword(m.table, e + 4)), Val(Dword(m.table, e + 8)))
  }

  predicate EntryMasked(m: Msix, v: nat)
    requires Valid(m) && v < Vectors(m)
  {
    Dword(m.table, ENTRY_SIZE * v + 12)[0]
  }

  /** `is_masked`: a vector outside the table counts as unmasked. */
  predicate IsMasked(m: Msix, g: Gate, v: nat)
    requires Valid(m)
  {
    v < Vectors(m) && (g.fnMasked || EntryMasked(m, v))
  }

  // ---------- pending bits ----------

  predicate Pending(pba: Pba, v: nat) {
    v / 64 < |pba| && pba[v / 64][v % 64]
  }

  function SetPending(pba: Pba, v: nat, on: bool): (r: Result<Pba, Error>)
    ensures r.Ok? <==> v / 64 < |pba|
    ensures r.Ok? ==> |r.value| == |pba|
    ensures r.Ok? ==> forall u: nat :: Pending(r.value, u) <==> if u == v then on else Pending(pba, u)
  {
    if v / 64 < |pba| then Ok(pba[v / 64 := pba[v / 64][v % 64 := on]]) else Err(InvalidMsiXVector(v))
  }

  /** What the search can see: words from `word` on, but in each of them only bits from `bit` up. */
  predicate Visible(pba: Pba, word: nat, bit: nat, v: nat) {
    Pending(pba, v) && v / 64 >= word && v % 64 >= bit
  }

  /** `find_pending_vector`, resumed at word `word` with the bit bound `bit` applied to every word. */
  function FindFrom(pba: Pba, word: nat, bit: nat): (r: Option<nat>)
    requires bit < 64
    ensures r.None? ==> forall v: nat :: !Visible(pba, word, bit, v)
    ensures r.Some? ==> Visible(pba, word, bit, r.value)
    ensures r.Some? ==> forall v: nat :: Visible(pba, word, bit, v) ==> r.value <= v
    decreases |pba| - word
  {
    if word >= |pba| then None
    else
      var b := Lowest(From(pba[word], bit), 0);
      assert forall v: nat :: Visible(pba, word, bit, v) ==>
        if v / 64 == word then v % 64 >= b else Visible(pba, word + 1, bit, v)
      by { forall v: nat | Visible(pba, word, bit, v) && v / 64 == word ensures v % 64 >= b { InWord(pba[word], bit, v % 64); } }
      if b < 64 then
        assert From(pba[word], bit)[b];
        assert (64 * word + b) / 64 == word && (64 * word + b) % 64 == b;
        Some(64 * word + b)
      else FindFrom(pba, word + 1, bit)
  }

  lemma InWord(w: PbaWord, bit: nat, i: nat)
    requires bit <= i < 64 && w[i]
    ensures Lowest(From(w, bit), 0) <= i
  {
    assert From(w, bit)[i];
  }

  /** What a search from vector `since` can see. */
  predicate Eligible(pba: Pba, since: nat, v: nat) {
    Visible(pba, since / 64, since % 64, v)
  }

  /** The least eligible vector: exactly what `find_pending_vector` returns. */
  function FindPending(pba: Pba, since: nat): (r: Option<nat>)
    ensures r.None? ==> forall v: nat :: !Eligible(pba, since, v)
    ensures r.Some? ==> Eligible(pba, since, r.value) && since <= r.value < 64 * |pba|
    ensures r.Some? ==> forall v: nat :: Eligible(pba, since, v) ==> r.value <= v
  {
    FindFrom(pba, since / 64, since % 64)
  }

  // ---------- message generation ----------

  datatype Generation = Masked | Generated(message: Message)

  datatype Attempt = Attempt(msix: Msix, outcome: Result<Generation, Error>)

  /** `try_generate_message`. */
  function TryGenerate(m: Msix, g: Gate, v: nat): (r: Attempt)
    requires Valid(m)
    ensures Valid(r.msix) && r.msix.table == m.table && |r.msix.pba| == |m.pba|
  {
    if !g.busMaster then Attempt(m, Err(NotBusMaster))
    else if !g.enabled then Attempt(m, Err(MsiDisabled))
    else
      var masked := IsMasked(m, g, v);
      match SetPending(m.pba, v, masked)
      case Err(e) => Attempt(m, Err(e))
      case Ok(pba) =>
        var m' := m.(pba := pba);
        if masked then Attempt(m', Ok(Masked))
        else if v < Vectors(m) then Attempt(m', Ok(Generated(MessageFor(m, v))))
        else Attempt(m', Err(InvalidMsiXVector(v)))
  }

  /** What an attempt adds to the messages that left. */
  function Sent(a: Attempt, v: nat): seq<Delivery> {
    if a.outcome.Ok? && a.outcome.value.Generated? then [Delivery(v, a.outcome.value.message)] else []
  }

  datatype Evaluation = Evaluation(msix: Msix, sent: seq<Delivery>)

  /** `evaluate_pending_interrupts` from vector `start` on. */
  function EvaluateFrom(m: Msix, g: Gate, start: nat, sent: seq<Delivery>): (r: Evaluation)
    requires Valid(m)
    ensures Valid(r.msix) && r.msix.table == m.table && |r.msix.pba| == |m.pba|
    decreases 64 * |m.pba| - start
  {
    match FindPending(m.pba, start)
    case None => Evaluation(m, sent)
    case Some(v) =>
      var a := TryGenerate(m, g, v);
      EvaluateFrom(a.msix, g, v + 1, sent + Sent(a, v))
  }

  function Evaluate(m: Msix, g: Gate, sent: seq<Delivery>): (r: Evaluation)
    requires Valid(m)
    ensures Valid(r.msix) && r.msix.table == m.table && |r.msix.pba| == |m.pba|
  {
    EvaluateFrom(m, g, 0, sent)
  }

  // ---------- table writes ----------

  predicate TargetsVectorControl(offset: nat, size: nat) {
    RangeOverlaps(offset % ENTRY_SIZE, size, 12, 4)
  }

  predicate TargetsMessageInfo(offset: nat, size: nat) {
    || RangeOverlaps(offset % ENTRY_SIZE, size, 0, 8)
    || RangeOverlaps(offset % ENTRY_SIZE, size, 8, 4)
  }

  /** A reported `MsiXMessage(vector, message)` update. */
  datatype MessageUpdate = MessageUpdate(vector: nat, message: Message)

  datatype TableResult = TableResult(msix: Msix, sent: seq<Delivery>, update: Option<MessageUpdate>)

  /** `write_bar` on the table region: out-of-bounds writes are dropped. */
  function TableWrite(m: Msix, g: Gate, offset: nat, data: Bytes, sent: seq<Delivery>): (r: TableResult)
    requires Valid(m)
    ensures Valid(r.msix) && |r.msix.table| == |m.table| && |r.msix.pba| == |m.pba|
  {
    if offset + |data| > |m.table| then TableResult(m, sent, None)
    else
      var stored := m.(table := Set(m.table, offset, data));
      var e := if TargetsVectorControl(offset, |data|) then Evaluate(stored, g, sent) else Evaluation(stored, sent);
      var v := offset / ENTRY_SIZE;
      var update := if TargetsMessageInfo(offset, |data|) && v < Vectors(e.msix) then Some(MessageUpdate(v, MessageFor(e.msix, v))) else None;
      TableResult(e.msix, e.sent, update)
  }
}
