/** Guest writes to the MSI-X table and the device's cached copy of its messages. */
module MsixTable {
  import opened Basics
  import opened Bits
  import opened RegisterBlock
  import opened MsixCore

  /** A write that does not target Vector Control changes no vector's mask, however many entries it spans. */
  lemma MasksUnchanged(m: Msix, offset: nat, data: Bytes, v: nat)
    requires Valid(m) && offset + |data| <= |m.table| && v < Vectors(m)
    requires !TargetsVectorControl(offset, |data|)
    ensures EntryMasked(m.(table := Set(m.table, offset, data)), v) == EntryMasked(m, v)
  {
    var b := ENTRY_SIZE * v + 12;
    assert Set(m.table, offset, data)[b] == m.table[b];
  }

  /**
   A write inside one entry evaluates the pending vectors, with its bytes already stored, exactly if it touches the
   entry's Vector Control; any other write inside an entry sends nothing and leaves every pending bit alone.
   */
  lemma EvaluatesExactly(m: Msix, g: Gate, offset: nat, data: Bytes, sent: seq<Delivery>)
    requires Valid(m) && data != [] && offset + |data| <= |m.table| && WithinEntry(offset, |data|)
    ensures var stored := m.(table := Set(m.table, offset, data));
            var r := TableWrite(m, g, offset, data, sent);
            Evaluation(r.msix, r.sent) ==
              if exists b :: offset <= b < offset + |data| && b % 16 >= 12 then Evaluate(stored, g, sent) else Evaluation(stored, sent)
  {
    hide Evaluate, MessageFor, Set;
    ControlTouched(offset, |data|);
  }

  /** A range inside one entry reaches Vector Control exactly if one of its bytes does. */
  lemma ControlTouched(offset: nat, n: nat)
    requires n > 0 && WithinEntry(offset, n)
    ensures TargetsVectorControl(offset, n) <==> exists b :: offset <= b < offset + n && b % 16 >= 12
  {
    var last := offset + n - 1;
    LastByte(offset, n, last);
    if exists b :: offset <= b < offset + n && b % 16 >= 12 {
      var b :| offset <= b < offset + n && b % 16 >= 12;
      LastByte(offset, n, b);
    }
  }

  lemma LastByte(offset: nat, n: nat, b: nat)
    requires WithinEntry(offset, n) && offset <= b < offset + n
    ensures b % 16 == offset % 16 + (b - offset)
  {
  }

  // ---------- the device's message map ----------

  type Cache = map<nat, Message>

  ghost predicate Coherent(m: Msix, cache: Cache)
    requires Valid(m)
  {
    forall v :: v in cache ==> v < Vectors(m) && cache[v] == MessageFor(m, v)
  }

  /** `set_msi_message` on a reported update. */
  function Store(cache: Cache, update: Option<MessageUpdate>): Cache {
    match update
    case None => cache
    case Some(u) => cache[u.vector := u.message]
  }

  /** The write stays inside one entry. */
  predicate WithinEntry(offset: nat, size: nat) {
    offset % ENTRY_SIZE + size <= ENTRY_SIZE
  }

  lemma NaturalAccess(offset: nat, size: nat)
    requires size == 1 || size == 2 || size == 4 || size == 8
    requires offset % size == 0
    ensures WithinEntry(offset, size)
  {
  }

  /** Byte `b` of the table belongs to the message address or data of vector `v`. */
  predicate InfoByte(b: nat, v: nat) {
    ENTRY_SIZE * v <= b < ENTRY_SIZE * v + 12
  }

  /** A write that touches no address or data byte of `v` leaves its message alone. */
  lemma MessageUnchanged(m: Msix, t: Msix, offset: nat, data: Bytes, v: nat)
    requires Valid(m) && Valid(t) && v < Vectors(m)
    requires offset + |data| <= |m.table| && t.table == Set(m.table, offset, data)
    requires forall b :: offset <= b < offset + |data| ==> !InfoByte(b, v)
    ensures MessageFor(t, v) == MessageFor(m, v)
  {
    var e := ENTRY_SIZE * v;
    SameDword(m, t, offset, data, v, e);
    SameDword(m, t, offset, data, v, e + 4);
    SameDword(m, t, offset, data, v, e + 8);
  }

  lemma SameDword(m: Msix, t: Msix, offset: nat, data: Bytes, v: nat, o: nat)
    requires offset + |data| <= |m.table| && t.table == Set(m.table, offset, data)
    requires forall b :: offset <= b < offset + |data| ==> !InfoByte(b, v)
    requires ENTRY_SIZE * v <= o && o + 4 <= ENTRY_SIZE * v + 12 && o + 4 <= |m.table|
    ensures Dword(t.table, o) == Dword(m.table, o)
  {
    forall b | o <= b < o + 4 ensures t.table[b] == m.table[b] {
      assert InfoByte(b, v);
    }
  }

  /** An update is reported exactly when the access touches address or data of its entry, and carries the new message. */
  lemma ReportedExactly(m: Msix, g: Gate, offset: nat, data: Bytes, sent: seq<Delivery>)
    requires Valid(m) && data != [] && offset + |data| <= |m.table| && WithinEntry(offset, |data|)
    ensures var r, v := TableWrite(m, g, offset, data, sent), offset / ENTRY_SIZE;
            && v < Vectors(m) && r.msix.table == Set(m.table, offset, data)
            && (r.update.Some? <==> exists b :: offset <= b < offset + |data| && InfoByte(b, v))
            && (r.update.Some? ==> r.update.value == MessageUpdate(v, MessageFor(r.msix, v)))
  {
    var v := offset / ENTRY_SIZE;
    assert InfoByte(offset, v) <==> offset % ENTRY_SIZE < 12;
  }

  lemma KeepsCoherence(m: Msix, g: Gate, offset: nat, data: Bytes, sent: seq<Delivery>, cache: Cache)
    requires Valid(m) && data != [] && WithinEntry(offset, |data|) && Coherent(m, cache)
    ensures KeptBy(m, g, offset, data, sent, cache)
  {
    hide MessageFor, Evaluate;
    var r := TableWrite(m, g, offset, data, sent);
    if offset + |data| <= |m.table| {
      ReportedExactly(m, g, offset, data, sent);
      forall v | v in cache && (r.update.None? || v != r.update.value.vector)
        ensures MessageFor(r.msix, v) == MessageFor(m, v)
      {
        Untouched(offset, |data|, v, r.update.Some?);
        MessageUnchanged(m, r.msix, offset, data, v);
      }
    }
  }

  lemma Untouched(offset: nat, n: nat, v: nat, reported: bool)
    requires WithinEntry(offset, n)
    requires reported <==> exists b :: offset <= b < offset + n && InfoByte(b, offset / ENTRY_SIZE)
    requires !reported || v != offset / ENTRY_SIZE
    ensures forall b :: offset <= b < offset + n ==> !InfoByte(b, v)
  {
    forall b | offset <= b < offset + n ensures !InfoByte(b, v) {
      OneEntry(offset, n, b, v);
    }
  }

  lemma OneEntry(offset: nat, n: nat, b: nat, v: nat)
    requires WithinEntry(offset, n) && offset <= b < offset + n
    ensures InfoByte(b, v) ==> v == offset / ENTRY_SIZE
  {
  }

  lemma AddressDiffers(m: Msix, t: Msix, v: nat)
    requires Valid(m) && Valid(t) && v < Vectors(m) && v < Vectors(t)
    requires m.table[ENTRY_SIZE * v] == ZERO_BYTE && t.table[ENTRY_SIZE * v] == ONES_BYTE
    ensures MessageFor(m, v) != MessageFor(t, v)
  {
    var e := ENTRY_SIZE * v;
    var before := From(Dword(m.table, e), 2) + Dword(m.table, e + 4);
    var after := From(Dword(t.table, e), 2) + Dword(t.table, e + 4);
    assert !before[2] && after[2];
    if Val(before) == Val(after) {
      ValInjective(before, after);
    }
  }

  lemma LosesCoherence(size: nat, pba: Pba, g: Gate, offset: nat, n: nat, sent: seq<Delivery>)
    returns (m: Msix, data: Bytes, cache: Cache)
    requires size % ENTRY_SIZE == 0 && size <= ENTRY_SIZE * 2048 && offset + n <= size && n > 0
    requires !WithinEntry(offset, n)
    ensures Valid(m) && |m.table| == size && m.pba == pba && |data| == n && Coherent(m, cache)
    ensures !KeptBy(m, g, offset, data, sent, cache)
  {
    hide MessageFor, Evaluate;
    m := Msix(seq(size, _ => ZERO_BYTE), pba);
    data := seq(n, _ => ONES_BYTE);
    var v := offset / ENTRY_SIZE + 1;
    cache := map[v := MessageFor(m, v)];
    var r := TableWrite(m, g, offset, data, sent);
    assert offset <= ENTRY_SIZE * v < offset + n;
    assert r.msix.table == Set(m.table, offset, data);
    AddressDiffers(m, r.msix, v);
    assert v in Store(cache, r.update) && Store(cache, r.update)[v] == cache[v];
  }

  /**
   A table write of `n` bytes at `offset` keeps every cached message equal to the table,
   in all states, if and only if it stays inside one entry.
   */
  lemma CoherenceIffWithinEntry(size: nat, pba: Pba, g: Gate, offset: nat, n: nat, sent: seq<Delivery>)
    requires size % ENTRY_SIZE == 0 && size <= ENTRY_SIZE * 2048 && offset + n <= size && n > 0
    ensures (forall m: Msix, data: Bytes, cache: Cache ::
               Valid(m) && |m.table| == size && m.pba == pba && |data| == n && Coherent(m, cache) ==>
                 KeptBy(m, g, offset, data, sent, cache))
            <==> WithinEntry(offset, n)
  {
    if WithinEntry(offset, n) {
      forall m: Msix, data: Bytes, cache: Cache |
        Valid(m) && |m.table| == size && m.pba == pba && |data| == n && Coherent(m, cache)
        ensures KeptBy(m, g, offset, data, sent, cache)
      {
        KeepsCoherence(m, g, offset, data, sent, cache);
      }
    } else {
      var m, data, cache := LosesCoherence(size, pba, g, offset, n, sent);
      assert !KeptBy(m, g, offset, data, sent, cache);
    }
  }

  ghost predicate KeptBy(m: Msix, g: Gate, offset: nat, data: Bytes, sent: seq<Delivery>, cache: Cache)
    requires Valid(m)
  {
    var r := TableWrite(m, g, offset, data, sent);
    Coherent(r.msix, Store(cache, r.update))
  }

  // ---------- what a programmed entry means ----------

  /** The sixteen bytes of an entry: address, upper address, data, vector control. */
  function EntryBytes(low: Bits, high: Bits, data: Bits, control: Bits): (b: Bytes)
    requires |low| == |high| == |data| == |control| == 32
    ensures |b| == ENTRY_SIZE
  {
    DwordBytes(low) + DwordBytes(high) + DwordBytes(data) + DwordBytes(control)
  }

  lemma EntryField(table: Bytes, e: nat, b: Bytes, k: nat)
    requires |b| == ENTRY_SIZE && e + ENTRY_SIZE <= |table| && k + 4 <= ENTRY_SIZE
    ensures Dword(Set(table, e, b), e + k) == Dword(b, k)
  {
    var t := Set(table, e, b);
    assert t[e + k] == b[k] && t[e + k + 1] == b[k + 1] && t[e + k + 2] == b[k + 2] && t[e + k + 3] == b[k + 3];
  }

  lemma EntryParts(low: Bits, high: Bits, data: Bits, control: Bits)
    requires |low| == |high| == |data| == |control| == 32
    ensures var b := EntryBytes(low, high, data, control);
            Dword(b, 0) == low && Dword(b, 4) == high && Dword(b, 8) == data && Dword(b, 12) == control
  {
    var b := EntryBytes(low, high, data, control);
    assert forall k :: 0 <= k < 4 ==> b[k] == DwordBytes(low)[k];
    assert forall k :: 4 <= k < 8 ==> b[k] == DwordBytes(high)[k - 4];
    assert forall k :: 8 <= k < 12 ==> b[k] == DwordBytes(data)[k - 8];
    assert forall k :: 12 <= k < 16 ==> b[k] == DwordBytes(control)[k - 12];
  }

  /**
   Programming an entry and reading it back: the message has the 64-bit address with its two
   low bits cleared, so it is dword aligned, and the data; the mask is bit 0 of Vector Control.
   */
  lemma {:induction false} ProgrammedEntry(m: Msix, v: nat, low: Bits, high: Bits, data: Bits, control: Bits)
    requires Valid(m) && v < Vectors(m) && |low| == |high| == |data| == |control| == 32
    ensures var t := m.(table := Set(m.table, ENTRY_SIZE * v, EntryBytes(low, high, data, control)));
            && MessageFor(t, v).address == Val(From(low, 2)) + 0x1_0000_0000 * Val(high)
            && MessageFor(t, v).address % 4 == 0
            && MessageFor(t, v).data == Val(data)
            && EntryMasked(t, v) == control[0]
  {
    hide EntryBytes, Dword, Val;
    var e, b := ENTRY_SIZE * v, EntryBytes(low, high, data, control);
    EntryParts(low, high, data, control);
    EntryField(m.table, e, b, 0);
    EntryField(m.table, e, b, 4);
    EntryField(m.table, e, b, 8);
    EntryField(m.table, e, b, 12);
    ValConcat(From(low, 2), high);
    Pow32();
    LowZerosMultiple(From(low, 2) + high, 2);
    assert Pow2(2) == 4;
  }
}
