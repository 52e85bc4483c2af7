/**
 MSI (msi.rs): the capability layout, message generation and the evaluation loop. All
 MSI state lives in the configuration space, behind the capability header; `o` is the
 offset of the capability's data.
 */
module MsiCore {
  import opened Basics
  import opened Bits
  import opened RegisterBlock
  import opened ConfigSpace
  import opened Capabilities
  import opened MsixCore

  // ---------- Message Control ----------

  function Control(s: Space, o: nat): (c: Bits)
    requires WellFormed(s) && o + 2 <= SPACE_SIZE
    ensures |c| == 16
  {
    Word(s.regs, o)
  }

  predicate IsControl(c: Bits) {
    |c| == 16
  }

  predicate Is64(c: Bits)
    requires IsControl(c)
  {
    c[7]
  }

  predicate HasMasking(c: Bits)
    requires IsControl(c)
  {
    c[8]
  }

  /** `MsiMultipleMessage::decode`: the three-bit field, when it is a legal count. */
  function Decode(field: Bits): Option<nat> {
    if Val(field) <= 5 then Some(Val(field)) else None
  }

  /** log2 of the number of vectors the function is capable of; an illegal field counts as one vector. */
  function Capable(c: Bits): (e: nat)
    requires IsControl(c)
    ensures e <= 5
  {
    match Decode(c[1..4])
    case Some(e) => e
    case None => 0
  }

  /** log2 of the number of vectors software enabled. */
  function Enabled(c: Bits): (e: nat)
    requires IsControl(c)
    ensures e <= 5
  {
    match Decode(c[4..7])
    case Some(e) => e
    case None => 0
  }

  function CapableVectors(c: Bits): (n: nat)
    requires IsControl(c)
    ensures 1 <= n <= 32
  {
    assert Pow2(5) == 32;
    Pow2Monotone(Capable(c), 5);
    Pow2(Capable(c))
  }

  // ---------- layout ----------

  const ADDRESS: nat := 2
  const ADDRESS_UPPER: nat := 6

  function DataOffset(c: Bits): nat
    requires IsControl(c)
  {
    if Is64(c) then 10 else 6
  }

  function MaskOffset(c: Bits): nat
    requires IsControl(c)
  {
    DataOffset(c) + 4
  }

  function PendingOffset(c: Bits): nat
    requires IsControl(c)
  {
    DataOffset(c) + 8
  }

  function CapSize(c: Bits): nat
    requires IsControl(c)
  {
    8 + (if HasMasking(c) then 10 else 0) + (if Is64(c) then 4 else 0)
  }

  /** The capability lies inside the space. */
  predicate Fits(s: Space, o: nat) {
    WellFormed(s) && o + 2 <= SPACE_SIZE && o + CapSize(Control(s, o)) <= SPACE_SIZE
  }

  function MaskBits(s: Space, o: nat): (f: Bits)
    requires Fits(s, o) && HasMasking(Control(s, o))
    ensures |f| == 32
  {
    Dword(s.regs, o + MaskOffset(Control(s, o)))
  }

  function PendingBits(s: Space, o: nat): (f: Bits)
    requires Fits(s, o) && HasMasking(Control(s, o))
    ensures |f| == 32
  {
    Dword(s.regs, o + PendingOffset(Control(s, o)))
  }

  predicate CanSend(s: Space, o: nat)
    requires Fits(s, o)
  {
    CommandBit(s, BUS_MASTER) && Control(s, o)[0]
  }

  /** `is_masked`; a vector number is below 32 (a larger one would overflow the shift). */
  predicate VectorMasked(s: Space, o: nat, v: nat)
    requires Fits(s, o) && v < 32
  {
    HasMasking(Control(s, o)) && MaskBits(s, o)[v]
  }

  /** `write_dword` of the pending bits: a masked store like any other. */
  function WritePending(s: Space, o: nat, f: Bits): (r: Space)
    requires Fits(s, o) && HasMasking(Control(s, o)) && |f| == 32
    ensures WellFormed(r)
  {
    s.(regs := Write(s.regs, s.writable, o + PendingOffset(Control(s, o)), DwordBytes(f)))
  }

  /** `set_pending_bit`. */
  function SetPendingBit(s: Space, o: nat, v: nat, on: bool): (r: Result<Space, Error>)
    requires Fits(s, o) && v < 32
    ensures r.Ok? ==> WellFormed(r.value)
  {
    if !HasMasking(Control(s, o)) then Err(NotSupported)
    else if on && !VectorMasked(s, o, v) then Err(VectorNotMasked(v))
    else Ok(WritePending(s, o, PendingBits(s, o)[v := on]))
  }

  /** `get_message_data_for`: the low bits of the guest's data are replaced by the vector. */
  function DataFor(c: Bits, data: Bits, v: nat): (f: Bits)
    requires IsControl(c) && |data| == 16
    ensures |f| == 16
  {
    Or(From(data, Enabled(c)), ToBits(v, 16))
  }

  /** `get_message_for` for a valid vector. */
  function MsiMessage(s: Space, o: nat, v: nat): Message
    requires Fits(s, o)
  {
    var c := Control(s, o);
    Message(Val(Dword(s.regs, o + ADDRESS) + (if Is64(c) then Dword(s.regs, o + ADDRESS_UPPER) else [])),
            Val(DataFor(c, Word(s.regs, o + DataOffset(c)), v)))
  }

  datatype MsiAttempt = MsiAttempt(space: Space, outcome: Result<Generation, Error>)

  /** `try_generate_message` for MSI. */
  function MsiTryGenerate(s: Space, o: nat, v: nat): (r: MsiAttempt)
    requires Fits(s, o) && v < 32
    ensures WellFormed(r.space)
  {
    if !CommandBit(s, BUS_MASTER) then MsiAttempt(s, Err(NotBusMaster))
    else if !Control(s, o)[0] then MsiAttempt(s, Err(MsiDisabled))
    else
      var masked := VectorMasked(s, o, v);
      match SetPendingBit(s, o, v, masked)
      case Err(e) => MsiAttempt(s, Err(e))
      case Ok(t) =>
        if masked then MsiAttempt(t, Ok(Masked))
        else if v < CapableVectors(Control(s, o)) then MsiAttempt(t, Ok(Generated(MsiMessage(s, o, v))))
        else MsiAttempt(t, Err(InvalidMsiVector(v)))
  }

  function MsiSent(a: MsiAttempt, v: nat): seq<Delivery> {
    if a.outcome.Ok? && a.outcome.value.Generated? then [Delivery(v, a.outcome.value.message)] else []
  }

  /** `next_pending_vector`. */
  function NextPendingVector(s: Space, o: nat, since: nat): (r: Option<nat>)
    requires Fits(s, o)
    ensures r.Some? ==> HasMasking(Control(s, o)) && since <= r.value < CapableVectors(Control(s, o))
    ensures r.Some? ==> PendingBits(s, o)[r.value] && forall i :: since <= i < r.value ==> !PendingBits(s, o)[i]
    ensures r.None? && HasMasking(Control(s, o)) ==>
              forall i :: since <= i < CapableVectors(Control(s, o)) ==> !PendingBits(s, o)[i]
  {
    if !HasMasking(Control(s, o)) then None
    else
      var f := From(PendingBits(s, o), since);
      var v := Lowest(f, 0);
      assert v < 32 ==> f[v];
      assert forall i :: since <= i < v ==> f[i] == PendingBits(s, o)[i];
      if v < CapableVectors(Control(s, o)) then Some(v) else None
  }
}
