/**
 The virtio common configuration region (pci_common_cfg.rs): 64 shadow register bytes in
 front of the device. Every write is padded to eight bytes before it is stored, the
 field is then read back from the shadow, and queue fields go to the queue the shadow
 queue-select names, while reads go to the queue the device has selected.
 */
module CommonCfg {
  import opened Basics
  import opened Bits
  import opened RegisterBlock

  const SIZE: nat := 64
  const DRIVER_FEATURE_SELECT: nat := 8
  const DRIVER_FEATURE: nat := 12
  const CONFIG_VECTOR: nat := 16
  const DEVICE_STATUS: nat := 20
  const QUEUE_SELECT: nat := 22
  const QUEUE_SIZE: nat := 24
  const QUEUE_VECTOR: nat := 26
  const QUEUE_ENABLE: nat := 28
  const QUEUE_NOTIFY_OFF: nat := 30
  const QUEUE_DESC: nat := 32
  const QUEUE_DRIVER: nat := 40
  const QUEUE_DEVICE: nat := 48
  const QUEUE_RESET: nat := 58

  type Address = f: Bits | |f| == 64 witness Zeros(64)
  type Half = f: Bits | |f| == 32 witness Zeros(32)
  type Short = f: Bits | |f| == 16 witness Zeros(16)

  datatype Queue = Queue(maxSize: Short, size: Short, ready: bool, desc: Address, avail: Address, used: Address)

  /** Calls into the device that concern no queue record. */
  datatype Call = DriverFeatures(page: Half, value: Half) | ConfigVector(vector: Short) | Status(status: Byte) | QueueVector(vector: Short)

  /** `shown` holds what the device currently answers for the registers that are not queue fields. */
  datatype Device = Device(select: Short, queues: seq<Queue>, calls: seq<Call>, shown: Bytes)

  datatype Common = Common(regs: Bytes, device: Device)

  predicate WellFormed(c: Common) {
    |c.regs| == SIZE && |c.device.shown| == SIZE
  }

  /** The width of the register that starts at `offset`, or 0 if none does. */
  function RegisterSize(offset: nat): (n: nat)
    ensures n > 0 ==> offset + n <= SIZE
    ensures n > 0 && offset != QUEUE_SELECT ==> offset + n <= QUEUE_SELECT || QUEUE_SIZE <= offset
  {
    if offset in {0, 4, 8, 12, 36, 44, 52} then 4
    else if offset in {16, 18, 22, 24, 26, 28, 30, 56, 58, 60, 62} then 2
    else if offset in {20, 21} then 1
    else if offset in {32, 40, 48} then 8
    else 0
  }

  predicate IsWritable(i: nat) {
    i < 4 || 8 <= i < 18 || i == 20 || 22 <= i < 30 || 32 <= i < 56 || 58 <= i < 60
  }

  /** The writable bits `new` sets up. */
  function WritableBytes(): (r: Bytes)
    ensures |r| == SIZE
  {
    seq(SIZE, i requires 0 <= i < SIZE => if IsWritable(i) then ONES_BYTE else ZERO_BYTE)
  }

  /** The eight bytes of a 64-bit field. */
  function QwordBytes(f: Address): (b: Bytes)
    ensures |b| == 8 && Qword(b, 0) == f
  {
    DwordBytes(f[..32]) + DwordBytes(f[32..])
  }

  function Qword(regs: Bytes, offset: nat): Address
    requires offset + 8 <= |regs|
  {
    Dword(regs, offset) + Dword(regs, offset + 4)
  }

  // ---------- writes ----------

  /** Data padded with zeros to eight bytes. */
  function Pad(data: Bytes): (b: Bytes)
    requires |data| <= 8
    ensures |b| == 8
    ensures forall i :: 0 <= i < 8 ==> b[i] == if i < |data| then data[i] else ZERO_BYTE
  {
    data + seq(8 - |data|, _ => ZERO_BYTE)
  }

  /** `write_registers`, with an out-of-bounds store dropped. */
  function StoreShadow(regs: Bytes, offset: nat, input: Bytes): (r: Bytes)
    requires |regs| == SIZE && |input| == 8
    ensures |r| == SIZE
    ensures forall i :: 0 <= i < SIZE ==>
              r[i] == if offset + 8 <= SIZE && offset <= i < offset + 8 && IsWritable(i) then input[i - offset] else regs[i]
  {
    if offset + 8 > SIZE then regs
    else
      var r := Write(regs, WritableBytes(), offset, input);
      assert forall i :: offset <= i < offset + 8 ==>
        Update(regs[i], input[i - offset], WritableBytes()[i]) == if IsWritable(i) then input[i - offset] else regs[i];
      r
  }

  /** `set_config_data_invalid`: zeros, as far as the block reaches. */
  function Invalidate(regs: Bytes, offset: nat, size: nat): (r: Bytes)
    requires |regs| == SIZE
    ensures |r| == SIZE
  {
    seq(SIZE, i requires 0 <= i < SIZE => if offset <= i < offset + size then ZERO_BYTE else regs[i])
  }

  /** `address_parts`: a store of more than four bytes sets both halves. */
  function AddressParts(f: Address, size: nat): (r: (Option<Half>, Option<Half>)) {
    (Some(f[..32]), if size > 4 then Some(f[32..]) else None)
  }

  /** The half updates of a queue address. */
  function SetHalves(a: Address, low: Option<Half>, high: Option<Half>): Address {
    (if low.Some? then low.value else a[..32]) + (if high.Some? then high.value else a[32..])
  }

  function ResetQueue(q: Queue): Queue {
    Queue(q.maxSize, q.maxSize, false, Zeros(64), Zeros(64), Zeros(64))
  }

  /** What a write to a queue register does to the queue, reading the field from the shadow. */
  function QueueField(q: Queue, regs: Bytes, offset: nat, size: nat): Queue
    requires |regs| == SIZE
  {
    if offset == QUEUE_SIZE then q.(size := Word(regs, offset))
    else if offset == QUEUE_ENABLE then (if Val(Word(regs, offset)) == 1 then q.(ready := true) else q)
    else if offset == QUEUE_DESC then
      var p := AddressParts(Qword(regs, offset), size); q.(desc := SetHalves(q.desc, p.0, p.1))
    else if offset == QUEUE_DESC + 4 then q.(desc := SetHalves(q.desc, None, Some(Dword(regs, offset))))
    else if offset == QUEUE_DRIVER then
      var p := AddressParts(Qword(regs, offset), size); q.(avail := SetHalves(q.avail, p.0, p.1))
    else if offset == QUEUE_DRIVER + 4 then q.(avail := SetHalves(q.avail, None, Some(Dword(regs, offset))))
    else if offset == QUEUE_DEVICE then
      var p := AddressParts(Qword(regs, offset), size); q.(used := SetHalves(q.used, p.0, p.1))
    else if offset == QUEUE_DEVICE + 4 then q.(used := SetHalves(q.used, None, Some(Dword(regs, offset))))
    else if offset == QUEUE_RESET && Val(Word(regs, offset)) == 1 then ResetQueue(q)
    else q
  }

  predicate IsQueueField(offset: nat) {
    offset in {QUEUE_SIZE, QUEUE_ENABLE, 32, 36, 40, 44, 48, 52, QUEUE_RESET}
  }

  /** `with_queue_mut`: the queue the shadow register names, if there is one. */
  function WithQueue(c: Common, offset: nat, size: nat): seq<Queue>
    requires WellFormed(c)
  {
    var i := Val(Word(c.regs, QUEUE_SELECT));
    if i < |c.device.queues| then c.device.queues[i := QueueField(c.device.queues[i], c.regs, offset, size)] else c.device.queues
  }

  function ProcessWrite(c: Common, offset: nat, size: nat): (r: Common)
    requires WellFormed(c)
    ensures WellFormed(r)
  {
    var d := c.device;
    if RegisterSize(offset) == 0 then c.(regs := Invalidate(c.regs, offset, size))
    else if offset == DRIVER_FEATURE then
      c.(device := d.(calls := d.calls + [DriverFeatures(Dword(c.regs, DRIVER_FEATURE_SELECT), Dword(c.regs, offset))]))
    else if offset == CONFIG_VECTOR then c.(device := d.(calls := d.calls + [ConfigVector(Word(c.regs, offset))]))
    else if offset == DEVICE_STATUS then c.(device := d.(calls := d.calls + [Status(c.regs[offset])]))
    else if offset == QUEUE_VECTOR then c.(device := d.(calls := d.calls + [QueueVector(Word(c.regs, offset))]))
    else if offset == QUEUE_SELECT then c.(device := d.(select := Word(c.regs, offset)))
    else if IsQueueField(offset) then
      var c1 := c.(device := d.(queues := WithQueue(c, offset, size)));
      if offset == QUEUE_RESET && Val(Word(c.regs, offset)) == 1 then c1.(regs := Set(c.regs, offset, [ZERO_BYTE, ZERO_BYTE])) else c1
    else c
  }

  /** `write_bar`. */
  function WriteBar(c: Common, offset: nat, data: Bytes): (r: Result<Common, Error>)
    requires WellFormed(c)
    ensures r.Ok? <==> |data| <= 8
    ensures r.Ok? ==> WellFormed(r.value)
  {
    if |data| > 8 then Err(InvalidIoSize(|data|))
    else Ok(ProcessWrite(c.(regs := StoreShadow(c.regs, offset, Pad(data))), offset, |data|))
  }

  // ---------- reads ----------

  /** `with_queue`: a field of the queue the device has selected, or zeros. */
  function Selected(d: Device): Option<Queue> {
    var i := Val(d.select);
    if i < |d.queues| then Some(d.queues[i]) else None
  }

  /** The bytes a read of register `offset` puts into the shadow first, and where they go. */
  function Fresh(c: Common, offset: nat): (r: (nat, Bytes))
    requires WellFormed(c) && RegisterSize(offset) > 0
    ensures r.0 + |r.1| <= SIZE
    ensures offset != QUEUE_SELECT ==> r.0 + |r.1| <= QUEUE_SELECT || QUEUE_SIZE <= r.0
  {
    var q := Selected(c.device);
    if offset == QUEUE_SELECT then (offset, WordBytes(c.device.select))
    else if offset == QUEUE_SIZE then (offset, WordBytes(if q.Some? then q.value.size else Zeros(16)))
    else if offset == QUEUE_ENABLE then (offset, WordBytes(Zeros(16)[0 := q.Some? && q.value.ready]))
    else if offset == QUEUE_NOTIFY_OFF then
      (offset, if Val(Word(c.regs, QUEUE_SELECT)) < |c.device.queues| then WordBytes(Word(c.regs, QUEUE_SELECT)) else [ZERO_BYTE, ZERO_BYTE])
    else if offset in {32, 36} then (QUEUE_DESC, QwordBytes(if q.Some? then q.value.desc else Zeros(64)))
    else if offset in {40, 44} then (QUEUE_DRIVER, QwordBytes(if q.Some? then q.value.avail else Zeros(64)))
    else if offset in {48, 52} then (QUEUE_DEVICE, QwordBytes(if q.Some? then q.value.used else Zeros(64)))
    else if offset in {0, 8} then (offset, [])
    else (offset, c.device.shown[offset..offset + RegisterSize(offset)])
  }

  /** Registers whose read is not implemented in the source. */
  predicate Unfinished(offset: nat) {
    offset in {56, 58, 60, 62}
  }

  function PrepareRead(c: Common, offset: nat, size: nat): (r: Common)
    requires WellFormed(c)
    ensures WellFormed(r) && r.device == c.device
  {
    if RegisterSize(offset) == 0 then c.(regs := Invalidate(c.regs, offset, size))
    else if Unfinished(offset) then c
    else var (at, bytes) := Fresh(c, offset); c.(regs := Set(c.regs, at, bytes))
  }

  /** `read_bar`: the new state and the bytes read. */
  function ReadBar(c: Common, offset: nat, size: nat): (r: (Common, Result<Bytes, Error>))
    requires WellFormed(c)
    ensures WellFormed(r.0) && r.0.device == c.device
  {
    if Unfinished(offset) then (c, Err(NotSupported))
    else
      var c1 := PrepareRead(c, offset, size);
      if offset + size > SIZE then (c1, Err(AccessBounds(offset, size)))
      else if size !in {1, 2, 4, 8} then (c1, Err(InvalidIoSize(size)))
      else (c1, Ok(c1.regs[offset..offset + size]))
  }

  // ---------- programming a queue ----------

  /** What a driver means by a write of `data` to a queue register, without any shadow. */
  function Programs(q: Queue, offset: nat, data: Bytes): Queue
    requires |data| <= 8
  {
    var b := Pad(data);
    if offset == QUEUE_SIZE then q.(size := Word(b, 0))
    else if offset == QUEUE_ENABLE then q.(ready := q.ready || Val(Word(b, 0)) == 1)
    else if offset == QUEUE_DESC then q.(desc := Programmed(q.desc, b, |data|))
    else if offset == QUEUE_DRIVER then q.(avail := Programmed(q.avail, b, |data|))
    else if offset == QUEUE_DEVICE then q.(used := Programmed(q.used, b, |data|))
    else if offset == QUEUE_DESC + 4 then q.(desc := q.desc[..32] + Dword(b, 0))
    else if offset == QUEUE_DRIVER + 4 then q.(avail := q.avail[..32] + Dword(b, 0))
    else if offset == QUEUE_DEVICE + 4 then q.(used := q.used[..32] + Dword(b, 0))
    else q
  }

  /** Up to four bytes replace the low half, more replace the whole address. */
  function Programmed(a: Address, b: Bytes, size: nat): Address
    requires |b| == 8
  {
    if size <= 4 then Dword(b, 0) + a[32..] else Qword(b, 0)
  }

  datatype Access = WriteAt(offset: nat, data: Bytes) | ReadAt(offset: nat, size: nat)

  /** A rejected write leaves everything as it was. */
  function Step(c: Common, a: Access): (r: Common)
    requires WellFormed(c)
    ensures WellFormed(r)
  {
    match a
    case WriteAt(offset, data) => if |data| <= 8 then WriteBar(c, offset, data).value else c
    case ReadAt(offset, size) => ReadBar(c, offset, size).0
  }

  function Run(c: Common, run: seq<Access>): (r: Common)
    requires WellFormed(c)
    ensures WellFormed(r)
    decreases |run|
  {
    if run == [] then c else Run(Step(c, run[0]), run[1..])
  }

  /** The eight bytes stored for a write at `offset` reach the queue-select register. */
  predicate ClobbersSelect(offset: nat) {
    QUEUE_SELECT < offset + 8 && offset < QUEUE_SIZE
  }

  /** Leaves the shadow queue-select alone. */
  predicate Steady(a: Access) {
    match a
    case WriteAt(offset, _) => !ClobbersSelect(offset)
    case ReadAt(offset, size) => RegisterSize(offset) > 0 || offset + size <= QUEUE_SELECT || QUEUE_SIZE <= offset
  }

  /** Driver and device agree on the selected queue. */
  predicate InStep(c: Common)
    requires WellFormed(c)
  {
    Word(c.regs, QUEUE_SELECT) == c.device.select
  }

  /** A queue-select write brings them in step, from any state. */
  lemma SelectBringsInStep(c: Common, data: Bytes)
    requires WellFormed(c) && |data| == 2
    ensures var r := Step(c, WriteAt(QUEUE_SELECT, data));
            InStep(r) && r.device == c.device.(select := Word(data, 0))
  {
    var regs := StoreShadow(c.regs, QUEUE_SELECT, Pad(data));
    assert regs[QUEUE_SELECT] == data[0] && regs[QUEUE_SELECT + 1] == data[1];
  }

  /** The shadow holds the padded data of a queue-field write. */
  lemma FieldStored(regs: Bytes, offset: nat, data: Bytes)
    requires |regs| == SIZE && |data| <= 8 && IsQueueField(offset) && offset != QUEUE_RESET
    ensures var r, b := StoreShadow(regs, offset, Pad(data)), Pad(data);
            && Word(r, offset) == Word(b, 0)
            && (offset >= QUEUE_DESC ==> Dword(r, offset) == Dword(b, 0))
            && (offset in {QUEUE_DESC, QUEUE_DRIVER, QUEUE_DEVICE} ==> Qword(r, offset) == Qword(b, 0))
  {
    hide StoreShadow, Pad, Word;
    var r, b := StoreShadow(regs, offset, Pad(data)), Pad(data);
    SameWord(r, offset, b, 0);
    if offset >= QUEUE_DESC {
      SameWord(r, offset + 2, b, 2);
    }
    if offset in {QUEUE_DESC, QUEUE_DRIVER, QUEUE_DEVICE} {
      SameWord(r, offset + 4, b, 4);
      SameWord(r, offset + 6, b, 6);
    }
  }

  lemma SameWord(r: Bytes, i: nat, b: Bytes, j: nat)
    requires i + 2 <= |r| && j + 2 <= |b| && r[i] == b[j] && r[i + 1] == b[j + 1]
    ensures Word(r, i) == Word(b, j)
  {
  }

  /** Despite the shadow, a queue-field write means what the driver means by it. */
  lemma FieldMeans(q: Queue, regs: Bytes, offset: nat, data: Bytes)
    requires |regs| == SIZE && |data| <= 8 && IsQueueField(offset) && offset != QUEUE_RESET
    ensures QueueField(q, StoreShadow(regs, offset, Pad(data)), offset, |data|) == Programs(q, offset, data)
  {
    hide StoreShadow, Pad;
    FieldStored(regs, offset, data);
  }

  // ---------- the reset latch ----------

  /** What the shadow holds for the reset register. */
  function Latch(regs: Bytes): (l: Bytes)
    requires |regs| == SIZE
    ensures |l| == 2 && l[0] == regs[QUEUE_RESET] && l[1] == regs[QUEUE_RESET + 1]
  {
    [regs[QUEUE_RESET], regs[QUEUE_RESET + 1]]
  }

  predicate Armed(latch: Bytes)
    requires |latch| == 2
  {
    Val(Word(latch, 0)) == 1
  }

  /**
   How an access changes byte `i` of the latch. The padded eight bytes of a write at the reset register
   itself do not fit the block and are dropped; a wide enough write in front of it gets through.
   */
  function LatchByte(latch: Bytes, a: Access, i: nat): Byte
    requires |latch| == 2 && i < 2
  {
    var b := QUEUE_RESET + i;
    match a
    case WriteAt(offset, data) =>
      if |data| > 8 then latch[i]
      else if offset == QUEUE_RESET then (if Armed(latch) then ZERO_BYTE else latch[i])
      else if RegisterSize(offset) == 0 && offset <= b < offset + |data| then ZERO_BYTE
      else if offset + 8 <= SIZE && offset <= b < offset + 8 then Pad(data)[b - offset]
      else latch[i]
    case ReadAt(offset, size) => if RegisterSize(offset) == 0 && offset <= b < offset + size then ZERO_BYTE else latch[i]
  }

  function LatchAfter(latch: Bytes, a: Access): (l: Bytes)
    requires |latch| == 2
    ensures |l| == 2
  {
    [LatchByte(latch, a, 0), LatchByte(latch, a, 1)]
  }

  /** The latch follows these rules through every access, from every state. */
  lemma StepLatch(c: Common, a: Access)
    requires WellFormed(c)
    ensures Latch(Step(c, a).regs) == LatchAfter(Latch(c.regs), a)
  {
    hide LatchByte, ProcessWrite, StoreShadow, Fresh, Invalidate;
    match a
    case WriteAt(offset, data) =>
      if |data| <= 8 {
        WriteLatch(c, offset, data);
      } else {
        LatchKept(Latch(c.regs), a);
      }
    case ReadAt(offset, size) => ReadLatch(c, offset, size);
  }

  lemma LatchKept(latch: Bytes, a: Access)
    requires |latch| == 2 && a.WriteAt? && |a.data| > 8
    ensures LatchAfter(latch, a) == latch
  {
  }

  lemma ReadLatch(c: Common, offset: nat, size: nat)
    requires WellFormed(c)
    ensures Latch(Step(c, ReadAt(offset, size)).regs) == LatchAfter(Latch(c.regs), ReadAt(offset, size))
  {
    if RegisterSize(offset) > 0 && !Unfinished(offset) {
      hide Fresh;
      var (at, bytes) := Fresh(c, offset);
      FreshBelow(c, offset);
      var r := Set(c.regs, at, bytes);
      assert r[QUEUE_RESET] == c.regs[QUEUE_RESET] && r[QUEUE_RESET + 1] == c.regs[QUEUE_RESET + 1];
    }
  }

  /** No implemented read refreshes anything behind the ring addresses. */
  lemma FreshBelow(c: Common, offset: nat)
    requires WellFormed(c) && RegisterSize(offset) > 0 && !Unfinished(offset)
    ensures Fresh(c, offset).0 + |Fresh(c, offset).1| <= QUEUE_RESET
  {
  }

  lemma WriteLatch(c: Common, offset: nat, data: Bytes)
    requires WellFormed(c) && |data| <= 8
    ensures Latch(Step(c, WriteAt(offset, data)).regs) == LatchAfter(Latch(c.regs), WriteAt(offset, data))
  {
    hide StoreShadow, Pad, WithQueue, Val;
    var regs := StoreShadow(c.regs, offset, Pad(data));
    if offset == QUEUE_RESET {
      assert regs == c.regs;
      SameWord(regs, QUEUE_RESET, Latch(c.regs), 0);
    }
  }

  /** A reset write resets the selected queue exactly when the latch holds 1 already: the data written does not matter. */
  lemma ResetIffArmed(c: Common, data: Bytes)
    requires WellFormed(c) && |data| <= 8
    ensures var d, i := c.device, Val(Word(c.regs, QUEUE_SELECT));
            Step(c, WriteAt(QUEUE_RESET, data)).device.queues ==
              if Armed(Latch(c.regs)) && i < |d.queues| then d.queues[i := ResetQueue(d.queues[i])] else d.queues
  {
    hide StoreShadow, Pad, Val;
    assert StoreShadow(c.regs, QUEUE_RESET, Pad(data)) == c.regs;
    SameWord(c.regs, QUEUE_RESET, Latch(c.regs), 0);
    var i := Val(Word(c.regs, QUEUE_SELECT));
    assert i < |c.device.queues| ==> c.device.queues[i := c.device.queues[i]] == c.device.queues;
  }

  /** The data of the write does not run into the reset register from below. */
  predicate EndsBeforeReset(a: Access) {
    a.WriteAt? ==> a.offset + |a.data| <= QUEUE_RESET || a.offset >= QUEUE_RESET
  }

  /** From a clear latch, no run of writes at their register's width ever resets a queue. */
  lemma {:induction false} NarrowNeverResets(c: Common, run: seq<Access>, data: Bytes)
    requires WellFormed(c) && Latch(c.regs) == [ZERO_BYTE, ZERO_BYTE] && |data| <= 8
    requires forall i :: 0 <= i < |run| ==> EndsBeforeReset(run[i])
    ensures Latch(Run(c, run).regs) == [ZERO_BYTE, ZERO_BYTE]
    ensures Step(Run(c, run), WriteAt(QUEUE_RESET, data)).device.queues == Run(c, run).device.queues
    decreases |run|
  {
    hide Step, Latch;
    if run == [] {
      ResetIffArmed(c, data);
      ClearIsUnarmed();
    } else {
      StepLatch(c, run[0]);
      ClearIsUnarmed();
      LatchStaysClear(run[0]);
      NarrowNeverResets(Step(c, run[0]), run[1..], data);
    }
  }

  lemma ClearIsUnarmed()
    ensures !Armed([ZERO_BYTE, ZERO_BYTE])
  {
    assert Word([ZERO_BYTE, ZERO_BYTE], 0) == Zeros(16);
    ZerosVal(16);
  }

  lemma LatchStaysClear(a: Access)
    requires EndsBeforeReset(a)
    ensures LatchAfter([ZERO_BYTE, ZERO_BYTE], a) == [ZERO_BYTE, ZERO_BYTE]
  {
  }

  // ---------- whole runs ----------

  /** What an access means for the queue that is selected, given the reset latch. */
  function ProgramOne(q: Queue, latch: Bytes, a: Access): Queue
    requires |latch| == 2
  {
    if a.ReadAt? || |a.data| > 8 then q
    else if a.offset == QUEUE_RESET then (if Armed(latch) then ResetQueue(q) else q)
    else Programs(q, a.offset, a.data)
  }

  /** The driver's view of a run: its writes, one after the other, to one queue. */
  function ProgramAll(q: Queue, latch: Bytes, run: seq<Access>): Queue
    requires |latch| == 2
    decreases |run|
  {
    if run == [] then q else ProgramAll(ProgramOne(q, latch, run[0]), LatchAfter(latch, run[0]), run[1..])
  }

  /** The queues after an access, seen from the selected one. */
  function Reprogram(c: Common, a: Access): seq<Queue>
    requires WellFormed(c)
  {
    var i := Val(c.device.select);
    if i < |c.device.queues| then c.device.queues[i := ProgramOne(c.device.queues[i], Latch(c.regs), a)] else c.device.queues
  }

  lemma WriteInStep(c: Common, offset: nat, data: Bytes)
    requires WellFormed(c) && InStep(c) && |data| <= 8 && !ClobbersSelect(offset) && offset != QUEUE_RESET
    ensures var r := Step(c, WriteAt(offset, data));
            && InStep(r) && r.device.select == c.device.select
            && r.device.queues == Reprogram(c, WriteAt(offset, data))
  {
    hide StoreShadow, Pad, QueueField, Programs, Val, Word;
    var regs, i := StoreShadow(c.regs, offset, Pad(data)), Val(c.device.select);
    SameWord(regs, QUEUE_SELECT, c.regs, QUEUE_SELECT);
    SelectUntouched(c, offset, data);
    SameQueue(c);
    if IsQueueField(offset) && i < |c.device.queues| {
      FieldMeans(c.device.queues[i], c.regs, offset, data);
    } else if i < |c.device.queues| {
      NotAField(c.device.queues[i], offset, data);
    }
  }

  lemma NotAField(q: Queue, offset: nat, data: Bytes)
    requires |data| <= 8 && !IsQueueField(offset)
    ensures Programs(q, offset, data) == q
  {
  }

  lemma ResetInStep(c: Common, data: Bytes)
    requires WellFormed(c) && InStep(c) && |data| <= 8
    ensures var r := Step(c, WriteAt(QUEUE_RESET, data));
            && InStep(r) && r.device.select == c.device.select
            && r.device.queues == Reprogram(c, WriteAt(QUEUE_RESET, data))
  {
    ResetIffArmed(c, data);
    SelectUntouched(c, QUEUE_RESET, data);
    var i := Val(c.device.select);
    assert i < |c.device.queues| ==> c.device.queues[i := c.device.queues[i]] == c.device.queues;
  }

  lemma ReadInStep(c: Common, offset: nat, size: nat)
    requires WellFormed(c) && InStep(c) && Steady(ReadAt(offset, size))
    ensures InStep(Step(c, ReadAt(offset, size)))
  {
    if RegisterSize(offset) > 0 && !Unfinished(offset) {
      var (at, bytes) := Fresh(c, offset);
      var r := Set(c.regs, at, bytes);
      if offset == QUEUE_SELECT {
        assert bytes == WordBytes(c.device.select);
      }
    }
  }

  lemma StepInStep(c: Common, a: Access)
    requires WellFormed(c) && InStep(c) && Steady(a)
    ensures var r := Step(c, a);
            InStep(r) && r.device.select == c.device.select && r.device.queues == Reprogram(c, a)
  {
    match a
    case WriteAt(offset, data) =>
      if |data| > 8 {
        SameQueue(c);
      } else if offset == QUEUE_RESET {
        ResetInStep(c, data);
      } else {
        WriteInStep(c, offset, data);
      }
    case ReadAt(offset, size) =>
      ReadInStep(c, offset, size);
      SameQueue(c);
  }

  lemma SameQueue(c: Common)
    ensures var i := Val(c.device.select); i < |c.device.queues| ==> c.device.queues[i := c.device.queues[i]] == c.device.queues
  {
  }

  ghost predicate SteadyRun(run: seq<Access>) {
    forall i :: 0 <= i < |run| ==> Steady(run[i])
  }

  /**
   From a queue-select write on, as long as no access reaches the select register again,
   the whole run of reads and writes programs exactly the selected queue, field by field,
   and no other.
   */
  lemma {:induction false} RunProgramsSelected(c: Common, run: seq<Access>)
    requires WellFormed(c) && InStep(c) && SteadyRun(run)
    ensures var r, i := Run(c, run), Val(c.device.select);
            && InStep(r) && r.device.select == c.device.select
            && r.device.queues == (if i < |c.device.queues|
                                   then c.device.queues[i := ProgramAll(c.device.queues[i], Latch(c.regs), run)]
                                   else c.device.queues)
    decreases |run|
  {
    hide Step, ProgramOne, InStep, Val, Latch, LatchAfter;
    if run == [] {
      SameQueue(c);
    } else {
      StepInStep(c, run[0]);
      StepLatch(c, run[0]);
      RunProgramsSelected(Step(c, run[0]), run[1..]);
    }
  }

  // ---------- which writes lose the selection ----------

  /** A write at `offset` of `n` bytes leaves the shadow select alone, whatever the state and the data. */
  ghost predicate KeepsSelect(offset: nat, n: nat)
    requires n <= 8
  {
    forall c: Common, data: Bytes :: WellFormed(c) && |data| == n ==>
      Word(Step(c, WriteAt(offset, data)).regs, QUEUE_SELECT) == Word(c.regs, QUEUE_SELECT)
  }

  /**
   A write keeps the selection if and only if it starts at least eight bytes below the
   queue-select register or behind it. So a write to the configuration vector or the
   device status silently redirects later queue writes to queue 0.
   */
  lemma KeepsSelectIff(offset: nat, n: nat)
    requires 1 <= n <= 8
    ensures KeepsSelect(offset, n) <==> !ClobbersSelect(offset)
  {
    hide Step, Word;
    if ClobbersSelect(offset) {
      var ones := Common(seq(SIZE, _ => ONES_BYTE), Device(Zeros(16), [], [], seq(SIZE, _ => ZERO_BYTE)));
      var data: Bytes := seq(n, _ => ZERO_BYTE);
      Clobbered(ones, offset, data);
      assert WellFormed(ones) && |data| == n;
      assert Word(Step(ones, WriteAt(offset, data)).regs, QUEUE_SELECT) != Word(ones.regs, QUEUE_SELECT);
    } else {
      forall c: Common, data: Bytes | WellFormed(c) && |data| == n
        ensures Word(Step(c, WriteAt(offset, data)).regs, QUEUE_SELECT) == Word(c.regs, QUEUE_SELECT)
      {
        SelectUntouched(c, offset, data);
      }
    }
  }

  lemma SelectUntouched(c: Common, offset: nat, data: Bytes)
    requires WellFormed(c) && |data| <= 8 && !ClobbersSelect(offset)
    ensures Word(Step(c, WriteAt(offset, data)).regs, QUEUE_SELECT) == Word(c.regs, QUEUE_SELECT)
  {
    var regs := StoreShadow(c.regs, offset, Pad(data));
    assert regs[QUEUE_SELECT] == c.regs[QUEUE_SELECT] && regs[QUEUE_SELECT + 1] == c.regs[QUEUE_SELECT + 1];
  }

  lemma Clobbered(c: Common, offset: nat, data: Bytes)
    requires WellFormed(c) && ClobbersSelect(offset) && 1 <= |data| <= 8
    requires forall i :: 0 <= i < SIZE ==> c.regs[i] == ONES_BYTE
    requires forall i :: 0 <= i < |data| ==> data[i] == ZERO_BYTE
    ensures Word(Step(c, WriteAt(offset, data)).regs, QUEUE_SELECT) != Word(c.regs, QUEUE_SELECT)
  {
    var regs := StoreShadow(c.regs, offset, Pad(data));
    var k := if offset <= QUEUE_SELECT then QUEUE_SELECT else QUEUE_SELECT + 1;
    assert regs[k] == ZERO_BYTE && c.regs[k] == ONES_BYTE;
    var after := Step(c, WriteAt(offset, data)).regs;
    assert after[k] == ZERO_BYTE;
    var bit := if k == QUEUE_SELECT then 0 else 8;
    assert !Word(after, QUEUE_SELECT)[bit] && Word(c.regs, QUEUE_SELECT)[bit];
  }

  /**
   For instance: a two-byte write to the configuration vector zeroes the shadow select while
   the device keeps its own, so the next queue-field write programs queue 0.
   */
  lemma VectorWriteRedirects(c: Common, vector: Bytes, field: Bytes)
    requires WellFormed(c) && |vector| == 2 && |field| == 2 && |c.device.queues| > 0
    ensures var r := Step(c, WriteAt(CONFIG_VECTOR, vector));
            && r.device.select == c.device.select && Val(Word(r.regs, QUEUE_SELECT)) == 0
            && Step(r, WriteAt(QUEUE_SIZE, field)).device.queues ==
                 c.device.queues[0 := c.device.queues[0].(size := Word(field, 0))]
  {
    var r := Step(c, WriteAt(CONFIG_VECTOR, vector));
    assert r.regs == StoreShadow(c.regs, CONFIG_VECTOR, Pad(vector));
    assert r.regs[QUEUE_SELECT] == ZERO_BYTE && r.regs[QUEUE_SELECT + 1] == ZERO_BYTE;
    assert Word(r.regs, QUEUE_SELECT) == Zeros(16);
    ZerosVal(16);
    var regs := StoreShadow(r.regs, QUEUE_SIZE, Pad(field));
    assert regs[QUEUE_SELECT] == ZERO_BYTE && regs[QUEUE_SELECT + 1] == ZERO_BYTE;
    assert Word(regs, QUEUE_SELECT) == Zeros(16);
    FieldMeans(c.device.queues[0], r.regs, QUEUE_SIZE, field);
  }

  /** The feature page written last is the page the features written next go to. */
  lemma {:induction false} FeaturePaging(c: Common, page: Bytes, features: Bytes)
    requires WellFormed(c) && |page| == |features| == 4
    ensures var r := Run(c, [WriteAt(DRIVER_FEATURE_SELECT, page), WriteAt(DRIVER_FEATURE, features)]);
            r.device == c.device.(calls := c.device.calls + [DriverFeatures(Dword(page, 0), Dword(features, 0))])
  {
    hide StoreShadow, Pad, Step;
    var w1, w2 := WriteAt(DRIVER_FEATURE_SELECT, page), WriteAt(DRIVER_FEATURE, features);
    assert [w1, w2][1..] == [w2] && [w2][1..] == [];
    var c1 := Step(c, w1);
    assert Run(c, [w1, w2]) == Run(c1, [w2]) == Run(Step(c1, w2), []);
    SelectPage(c, page);
    WriteFeatures(c1, page, features);
  }

  lemma SelectPage(c: Common, page: Bytes)
    requires WellFormed(c) && |page| == 4
    ensures var r := Step(c, WriteAt(DRIVER_FEATURE_SELECT, page));
            r.device == c.device && Dword(r.regs, DRIVER_FEATURE_SELECT) == Dword(page, 0)
  {
    hide StoreShadow, Pad;
    var r := StoreShadow(c.regs, DRIVER_FEATURE_SELECT, Pad(page));
    SameWord(r, 8, page, 0);
    SameWord(r, 10, page, 2);
  }

  lemma WriteFeatures(c: Common, page: Bytes, features: Bytes)
    requires WellFormed(c) && |page| == |features| == 4 && Dword(c.regs, DRIVER_FEATURE_SELECT) == Dword(page, 0)
    ensures Step(c, WriteAt(DRIVER_FEATURE, features)).device ==
            c.device.(calls := c.device.calls + [DriverFeatures(Dword(page, 0), Dword(features, 0))])
  {
    hide StoreShadow, Pad, Word;
    var r := StoreShadow(c.regs, DRIVER_FEATURE, Pad(features));
    SameWord(r, 8, c.regs, 8);
    SameWord(r, 10, c.regs, 10);
    SameWord(r, 12, features, 0);
    SameWord(r, 14, features, 2);
  }

  /** Vector and status writes reach the device with the value written. */
  lemma CallsCarryData(c: Common, data: Bytes)
    requires WellFormed(c) && |data| == 2
    ensures Step(c, WriteAt(CONFIG_VECTOR, data)).device == c.device.(calls := c.device.calls + [ConfigVector(Word(data, 0))])
    ensures Step(c, WriteAt(QUEUE_VECTOR, data)).device == c.device.(calls := c.device.calls + [QueueVector(Word(data, 0))])
    ensures Step(c, WriteAt(DEVICE_STATUS, data[..1])).device == c.device.(calls := c.device.calls + [Status(data[0])])
  {
    hide StoreShadow, Pad;
    SameWord(StoreShadow(c.regs, CONFIG_VECTOR, Pad(data)), CONFIG_VECTOR, data, 0);
    SameWord(StoreShadow(c.regs, QUEUE_VECTOR, Pad(data)), QUEUE_VECTOR, data, 0);
  }

  // ---------- ring addresses ----------

  predicate IsRing(offset: nat) {
    offset in {QUEUE_DESC, QUEUE_DRIVER, QUEUE_DEVICE}
  }

  function Ring(q: Queue, offset: nat): Address
    requires IsRing(offset)
  {
    if offset == QUEUE_DESC then q.desc else if offset == QUEUE_DRIVER then q.avail else q.used
  }

  /** Programming a ring address by halves, in either order, is programming it at once. */
  lemma HalvesAreWhole(q: Queue, offset: nat, low: Bytes, high: Bytes)
    requires IsRing(offset) && |low| == |high| == 4
    ensures var both := Programs(q, offset, low + high);
            && Programs(Programs(q, offset, low), offset + 4, high) == both
            && Programs(Programs(q, offset + 4, high), offset, low) == both
            && Ring(both, offset) == Dword(low, 0) + Dword(high, 0)
  {
    HalfBytes(low, high);
    var b := Pad(low + high);
    hide Pad;
    var a := Ring(q, offset);
    assert (Dword(low, 0) + a[32..])[..32] == Dword(low, 0);
    assert (a[..32] + Dword(high, 0))[32..] == Dword(high, 0);
  }

  lemma HalfBytes(low: Bytes, high: Bytes)
    requires |low| == |high| == 4
    ensures Dword(Pad(low), 0) == Dword(low, 0) && Dword(Pad(high), 0) == Dword(high, 0)
    ensures Qword(Pad(low + high), 0) == Dword(low, 0) + Dword(high, 0)
  {
    var b := Pad(low + high);
    assert b[0] == low[0] && b[1] == low[1] && b[2] == low[2] && b[3] == low[3];
    assert b[4] == high[0] && b[5] == high[1] && b[6] == high[2] && b[7] == high[3];
  }

  /**
   On the device: after low and high half in either order, or one eight-byte write, the same
   queues, and an eight-byte read gives back exactly the bytes written.
   */
  lemma AddressRoundTrip(c: Common, offset: nat, low: Bytes, high: Bytes)
    requires WellFormed(c) && InStep(c) && IsRing(offset) && |low| == |high| == 4
    ensures var lh := Run(c, [WriteAt(offset, low), WriteAt(offset + 4, high)]);
            var hl := Run(c, [WriteAt(offset + 4, high), WriteAt(offset, low)]);
            var whole := Run(c, [WriteAt(offset, low + high)]);
            && lh.device.queues == hl.device.queues == whole.device.queues
            && (Val(c.device.select) < |c.device.queues| ==>
                  && ReadBar(lh, offset, 8).1 == Ok(low + high) && ReadBar(hl, offset, 8).1 == Ok(low + high)
                  && ReadBar(whole, offset, 8).1 == Ok(low + high))
  {
    hide Step, Programs, ReadBar, Val, Latch, ProgramOne;
    var r1 := [WriteAt(offset, low), WriteAt(offset + 4, high)];
    var r2 := [WriteAt(offset + 4, high), WriteAt(offset, low)];
    var r3 := [WriteAt(offset, low + high)];
    RunProgramsSelected(c, r1);
    RunProgramsSelected(c, r2);
    RunProgramsSelected(c, r3);
    var i := Val(c.device.select);
    if i < |c.device.queues| {
      var q, latch := c.device.queues[i], Latch(c.regs);
      TwoWrites(q, latch, offset, low, offset + 4, high);
      TwoWrites(q, latch, offset + 4, high, offset, low);
      OneWrite(q, latch, offset, low + high);
      HalvesAreWhole(q, offset, low, high);
      ReadsRing(Run(c, r1), offset, low, high);
      ReadsRing(Run(c, r2), offset, low, high);
      ReadsRing(Run(c, r3), offset, low, high);
    }
  }

  lemma {:induction false} OneWrite(q: Queue, latch: Bytes, offset: nat, data: Bytes)
    requires |latch| == 2 && |data| <= 8 && offset != QUEUE_RESET
    ensures ProgramAll(q, latch, [WriteAt(offset, data)]) == Programs(q, offset, data)
  {
    hide Programs, LatchAfter;
    var run := [WriteAt(offset, data)];
    assert run[0] == WriteAt(offset, data) && run[1..] == [];
    assert ProgramOne(q, latch, run[0]) == Programs(q, offset, data);
  }

  lemma {:induction false} TwoWrites(q: Queue, latch: Bytes, o1: nat, d1: Bytes, o2: nat, d2: Bytes)
    requires |latch| == 2 && |d1| <= 8 && |d2| <= 8 && o1 != QUEUE_RESET && o2 != QUEUE_RESET
    ensures ProgramAll(q, latch, [WriteAt(o1, d1), WriteAt(o2, d2)]) == Programs(Programs(q, o1, d1), o2, d2)
  {
    hide Programs, LatchAfter;
    var run := [WriteAt(o1, d1), WriteAt(o2, d2)];
    assert run[0] == WriteAt(o1, d1) && run[1..] == [WriteAt(o2, d2)];
    assert ProgramOne(q, latch, run[0]) == Programs(q, o1, d1);
    OneWrite(Programs(q, o1, d1), LatchAfter(latch, run[0]), o2, d2);
  }

  lemma ReadsRing(c: Common, offset: nat, low: Bytes, high: Bytes)
    requires WellFormed(c) && IsRing(offset) && |low| == |high| == 4 && Val(c.device.select) < |c.device.queues|
    requires Ring(c.device.queues[Val(c.device.select)], offset) == Dword(low, 0) + Dword(high, 0)
    ensures ReadBar(c, offset, 8).1 == Ok(low + high)
  {
    var f := Ring(c.device.queues[Val(c.device.select)], offset);
    assert Fresh(c, offset) == (offset, QwordBytes(f));
    assert f[..32] == Dword(low, 0) && f[32..] == Dword(high, 0);
    SameBytes(low);
    SameBytes(high);
    assert QwordBytes(f) == low + high;
    var r := Set(c.regs, offset, low + high);
    assert r[offset..offset + 8] == low + high;
    assert PrepareRead(c, offset, 8).regs == r && !Unfinished(offset);
  }

  lemma SameBytes(b: Bytes)
    requires |b| == 4
    ensures DwordBytes(Dword(b, 0)) == b
  {
    var c := DwordBytes(Dword(b, 0));
    assert c[0] == b[0] && c[1] == b[1] && c[2] == b[2] && c[3] == b[3];
  }

  // ---------- reading back ----------

  /** A read of a whole register gives what the device supplies for it. */
  lemma ReadsFresh(c: Common, offset: nat)
    requires WellFormed(c) && RegisterSize(offset) > 0 && !Unfinished(offset) && Fresh(c, offset).0 == offset
    requires |Fresh(c, offset).1| == RegisterSize(offset)
    ensures ReadBar(c, offset, RegisterSize(offset)).1 == Ok(Fresh(c, offset).1)
  {
    hide Fresh;
    var n, bytes := RegisterSize(offset), Fresh(c, offset).1;
    var r := Set(c.regs, offset, bytes);
    assert r[offset..offset + n] == bytes;
  }

  /** The queue size written to the selected queue is the size read. */
  lemma SizeReadBack(c: Common, data: Bytes)
    requires WellFormed(c) && InStep(c) && |data| == 2 && Val(c.device.select) < |c.device.queues|
    ensures ReadBar(Step(c, WriteAt(QUEUE_SIZE, data)), QUEUE_SIZE, 2).1 == Ok(data)
  {
    hide Step, InStep;
    StepInStep(c, WriteAt(QUEUE_SIZE, data));
    ReadsFresh(Step(c, WriteAt(QUEUE_SIZE, data)), QUEUE_SIZE);
    WordRoundTrip(data);
    SameWord(Pad(data), 0, data, 0);
  }

  lemma WordRoundTrip(data: Bytes)
    requires |data| == 2
    ensures WordBytes(Word(data, 0)) == data
  {
    var b := WordBytes(Word(data, 0));
    assert b[0] == data[0] && b[1] == data[1];
  }

  const ONE: Bytes := [ZERO_BYTE[0 := true], ZERO_BYTE]

  /** Enabling the selected queue reads back as 1; before that a queue that is not ready reads 0. */
  lemma EnableReadBack(c: Common)
    requires WellFormed(c) && InStep(c) && Val(c.device.select) < |c.device.queues|
    ensures ReadBar(Step(c, WriteAt(QUEUE_ENABLE, ONE)), QUEUE_ENABLE, 2).1 == Ok(ONE)
    ensures !c.device.queues[Val(c.device.select)].ready ==> ReadBar(c, QUEUE_ENABLE, 2).1 == Ok([ZERO_BYTE, ZERO_BYTE])
  {
    hide Step, InStep;
    StepInStep(c, WriteAt(QUEUE_ENABLE, ONE));
    ReadsFresh(Step(c, WriteAt(QUEUE_ENABLE, ONE)), QUEUE_ENABLE);
    ReadsFresh(c, QUEUE_ENABLE);
    OneIsOne();
  }

  lemma OneIsOne()
    ensures Val(Word(Pad(ONE), 0)) == 1
    ensures WordBytes(Zeros(16)[0 := true]) == ONE && WordBytes(Zeros(16)[0 := false]) == [ZERO_BYTE, ZERO_BYTE]
  {
    var w := Word(Pad(ONE), 0);
    assert w[1..] == Zeros(15);
    ZerosVal(15);
    var b, z := WordBytes(Zeros(16)[0 := true]), WordBytes(Zeros(16)[0 := false]);
    assert b[0] == ONE[0] && b[1] == ONE[1];
    assert z[0] == ZERO_BYTE && z[1] == ZERO_BYTE;
  }

  /** The selected queue number reads back, and is the queue's notify offset if there is such a queue. */
  lemma SelectReadBack(c: Common, data: Bytes)
    requires WellFormed(c) && |data| == 2
    ensures var r := Step(c, WriteAt(QUEUE_SELECT, data));
            && ReadBar(r, QUEUE_SELECT, 2).1 == Ok(data)
            && ReadBar(r, QUEUE_NOTIFY_OFF, 2).1 == Ok(if Val(Word(data, 0)) < |c.device.queues| then data else [ZERO_BYTE, ZERO_BYTE])
  {
    hide Step;
    SelectBringsInStep(c, data);
    var r := Step(c, WriteAt(QUEUE_SELECT, data));
    ReadsFresh(r, QUEUE_SELECT);
    ReadsFresh(r, QUEUE_NOTIFY_OFF);
    WordRoundTrip(data);
  }

  /** Without a selected queue every queue field reads as zeros. */
  lemma NoQueueReadsZero(c: Common, offset: nat)
    requires WellFormed(c) && Val(c.device.select) >= |c.device.queues|
    requires offset in {QUEUE_SIZE, QUEUE_ENABLE, QUEUE_DESC, QUEUE_DRIVER, QUEUE_DEVICE}
    ensures ReadBar(c, offset, RegisterSize(offset)).1 == Ok(seq(RegisterSize(offset), _ => ZERO_BYTE))
  {
    ReadsFresh(c, offset);
    ZeroFields();
  }

  lemma ZeroFields()
    ensures WordBytes(Zeros(16)) == seq(2, _ => ZERO_BYTE) && WordBytes(Zeros(16)[0 := false]) == seq(2, _ => ZERO_BYTE)
    ensures QwordBytes(Zeros(64)) == seq(8, _ => ZERO_BYTE)
  {
    assert Zeros(16)[0 := false] == Zeros(16);
    var w, q := WordBytes(Zeros(16)), QwordBytes(Zeros(64));
    assert w[0] == ZERO_BYTE && w[1] == ZERO_BYTE;
    var d := DwordBytes(Zeros(32));
    assert Zeros(64)[..32] == Zeros(32) && Zeros(64)[32..] == Zeros(32);
    assert d[0] == ZERO_BYTE && d[1] == ZERO_BYTE && d[2] == ZERO_BYTE && d[3] == ZERO_BYTE;
  }

  /** The other registers show what the device answers for them. */
  lemma ShownReadBack(c: Common, offset: nat)
    requires WellFormed(c) && offset in {4, 12, 16, 18, 20, 21, 26}
    ensures ReadBar(c, offset, RegisterSize(offset)).1 == Ok(c.device.shown[offset..offset + RegisterSize(offset)])
  {
    ReadsFresh(c, offset);
  }

  /** An access at an offset where no register starts reads zeros and leaves zeros behind. */
  lemma NoRegisterIsZero(c: Common, offset: nat, size: nat)
    requires WellFormed(c) && RegisterSize(offset) == 0 && size in {1, 2, 4, 8} && offset + size <= SIZE
    ensures ReadBar(c, offset, size).1 == Ok(seq(size, _ => ZERO_BYTE))
    ensures ReadBar(c, offset, size).0.device == c.device
    ensures forall data: Bytes, j :: |data| == size && offset <= j < offset + size ==> Step(c, WriteAt(offset, data)).regs[j] == ZERO_BYTE
    ensures forall data: Bytes :: |data| == size ==> Step(c, WriteAt(offset, data)).device == c.device
  {
    hide StoreShadow, Pad;
    var r := Invalidate(c.regs, offset, size);
    assert r[offset..offset + size] == seq(size, _ => ZERO_BYTE);
  }
}
