/**
 The capability list: a linked list threaded through the register bytes, the
 iterator over it, and `add_capability`, which walks to the last element and
 appends behind it.
 */
module Capabilities {
  import opened Basics
  import opened Bits
  import opened RegisterBlock
  import opened ConfigSpace

  /** A `PciCapability`: its id and the bytes and writable bits it stores after the two-byte header. */
  datatype Capability = Capability(id: Byte, registers: Bytes, writable: Bytes)

  predicate CapabilityArgument(cap: Capability) {
    |cap.registers| == |cap.writable|
  }

  /** What the iterator yields: the header bytes and the offset of the data behind them. */
  datatype Item = Item(id: Byte, next: nat, data: nat)

  function ToByte(n: nat): Byte {
    ToBits(n, 8)
  }

  /** `next_cap`: the pointer with its reserved low bits cleared, or 0 when it leaves the device area. */
  function NextCap(regs: Bytes, pointer: nat): (n: nat)
    requires |regs| == SPACE_SIZE && pointer < SPACE_SIZE
    ensures n == 0 || (DEVICE_START <= n && n + 4 <= SPACE_SIZE)
  {
    var n := Val(From(regs[pointer], 2));
    ClearedPointer(regs[pointer]);
    if n < DEVICE_START then 0 else n
  }

  lemma ClearedPointer(b: Byte)
    ensures Val(From(b, 2)) % 4 == 0 && Val(From(b, 2)) <= 252
  {
    var f := From(b, 2);
    ValBound(f);
    assert Pow2(8) == 256 && Pow2(2) == 4;
    LowZerosMultiple(f, 2);
  }

  /** `PciCapabilitiesList::next`, with the iterator's `next_pointer` as argument. */
  function IterNext(regs: Bytes, pointer: nat): (r: Option<Item>)
    requires |regs| == SPACE_SIZE && pointer < SPACE_SIZE
    ensures r.Some? ==> DEVICE_START + 2 <= r.value.data <= SPACE_SIZE - 2
  {
    var n := NextCap(regs, pointer);
    if n == 0 then None
    else if Val(regs[n + 1]) + 1 == pointer then None  // the element points back at the one before it
    else Some(Item(regs[n], Val(regs[n + 1]), n + 2))
  }

  /** The items of at most `calls` calls of the iterator. */
  function Walk(regs: Bytes, pointer: nat, calls: nat): (items: seq<Item>)
    requires |regs| == SPACE_SIZE && pointer < SPACE_SIZE
    ensures forall i :: 0 <= i < |items| ==> DEVICE_START + 2 <= items[i].data <= SPACE_SIZE - 2
    decreases calls
  {
    if calls == 0 then []
    else match IterNext(regs, pointer)
      case None => []
      case Some(item) => [item] + Walk(regs, item.data - 1, calls - 1)
  }

  function Align4(n: nat): (r: nat)
    ensures n <= r < n + 4 && r % 4 == 0
  {
    (n + 3) / 4 * 4
  }

  /** Where the next capability goes, and the start of the current last one (0 when there is none). */
  function AppendAt(items: seq<Item>, lastCapSize: nat): (r: (nat, nat))
    requires items != [] ==> DEVICE_START + 2 <= items[|items| - 1].data <= SPACE_SIZE - 2
    ensures r.1 + 4 <= SPACE_SIZE
  {
    if items == [] then (DEVICE_START, 0)
    else
      var last := items[|items| - 1];
      (Align4(last.data + lastCapSize), last.data - 2)
  }

  function AppendPoint(s: Space): (r: (nat, nat))
    requires WellFormed(s)
    ensures r.1 + 4 <= SPACE_SIZE
  {
    AppendAt(Walk(s.regs, CAP_POINTER, |s.regs|), s.lastCapSize)
  }

  /** `cap_end_offset`. */
  function CapEnd(data: nat, size: nat): Result<nat, Error> {
    if data + size >= WORD_LIMIT then Err(ConfigurationSpaceBounds(SPACE_SIZE))
    else if data + size > DEVICE_END then Err(DeviceAreaBounds(data + size, DEVICE_END))
    else Ok(data + size)
  }

  /** The stores of `add_capability`. */
  function Append(s: Space, cap: Capability, start: nat, last: nat): (r: Space)
    requires WellFormed(s) && CapabilityArgument(cap)
    requires start + 2 + |cap.registers| <= DEVICE_END && last + 2 <= SPACE_SIZE
    ensures WellFormed(r)
  {
    var regs1 := Set(s.regs, start + 2, cap.registers);
    var regs2 := regs1[start := cap.id][start + 1 := ZERO_BYTE];
    var regs3 := if last == 0 then
                   regs2[CAP_POINTER := ToByte(DEVICE_START)][STATUS := regs2[STATUS][CAP_LIST := true]]
                 else regs2[last + 1 := ToByte(start)];
    s.(regs := regs3, writable := Set(s.writable, start + 2, cap.writable), lastCapSize := |cap.registers|)
  }

  /** `add_capability`: the new space and the offset of the capability's data. */
  function AddCapability(s: Space, cap: Capability): (r: Result<(Space, nat), Error>)
    requires WellFormed(s) && CapabilityArgument(cap)
    ensures r.Ok? ==> WellFormed(r.value.0) && 2 <= r.value.1 <= DEVICE_END
  {
    var (start, last) := AppendPoint(s);
    match CapEnd(start + 2, |cap.registers|)
    case Err(e) => Err(e)
    case Ok(_) => Ok((Append(s, cap, start, last), start + 2))
  }
}
