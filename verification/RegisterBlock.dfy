/**
 Register blocks (utils/register_block.rs): a byte array, a parallel array of
 writable bits, and little-endian multi-byte fields.
 */
module RegisterBlock {
  import opened Bits

  type Bytes = seq<Byte>

  const ZERO_BYTE: Byte := [false, false, false, false, false, false, false, false]
  const ONES_BYTE: Byte := [true, true, true, true, true, true, true, true]

  /** The bits of a 16-bit register. */
  function Word(regs: Bytes, offset: nat): (f: Bits)
    requires offset + 2 <= |regs|
    ensures |f| == 16
  {
    var low: Bits := regs[offset];
    low + regs[offset + 1]
  }

  /** The bits of a 32-bit register. */
  function Dword(regs: Bytes, offset: nat): (f: Bits)
    requires offset + 4 <= |regs|
    ensures |f| == 32
  {
    Word(regs, offset) + Word(regs, offset + 2)
  }

  /** Bit `j` of a dword lives in byte `j / 8`. */
  lemma DwordBit(regs: Bytes, offset: nat, j: nat)
    requires offset + 4 <= |regs| && j < 32
    ensures Dword(regs, offset)[j] == regs[offset + j / 8][j % 8]
  {
    if j < 8 {
    } else if j < 16 {
      assert j / 8 == 1 && j % 8 == j - 8;
    } else if j < 24 {
      assert j / 8 == 2 && j % 8 == j - 16;
    } else {
      assert j / 8 == 3 && j % 8 == j - 24;
    }
  }

  function WordBytes(f: Bits): (b: Bytes)
    requires |f| == 16
    ensures |b| == 2
  {
    [f[..8], f[8..]]
  }

  function DwordBytes(f: Bits): (b: Bytes)
    requires |f| == 32
    ensures |b| == 4
    ensures Dword(b, 0) == f
  {
    [f[..8], f[8..16], f[16..24], f[24..]]
  }

  /** `update_register`: keeps the read-only bits of `current`, takes the writable bits of `wanted`. */
  function Update(current: Byte, wanted: Byte, writable: Byte): Byte {
    seq(8, i requires 0 <= i < 8 => if writable[i] then wanted[i] else current[i])
  }

  /** `set`: copies `data` over the block at `offset`. */
  function Set(regs: Bytes, offset: nat, data: Bytes): (r: Bytes)
    requires offset + |data| <= |regs|
    ensures |r| == |regs|
    ensures forall i :: 0 <= i < |regs| ==> r[i] == if offset <= i < offset + |data| then data[i - offset] else regs[i]
  {
    regs[..offset] + data + regs[offset + |data|..]
  }

  /** `write`: masked store of `data` at `offset`. */
  function Write(regs: Bytes, writable: Bytes, offset: nat, data: Bytes): (r: Bytes)
    requires |regs| == |writable|
    requires offset + |data| <= |regs|
    ensures |r| == |regs|
  {
    seq(|regs|, i requires 0 <= i < |regs| =>
      if offset <= i < offset + |data| then Update(regs[i], data[i - offset], writable[i]) else regs[i])
  }

  function SetDword(regs: Bytes, offset: nat, f: Bits): (r: Bytes)
    requires offset + 4 <= |regs| && |f| == 32
    ensures |r| == |regs|
    ensures Dword(r, offset) == f
    ensures forall i :: 0 <= i < |regs| && !(offset <= i < offset + 4) ==> r[i] == regs[i]
  {
    var r := Set(regs, offset, DwordBytes(f));
    assert forall j :: 0 <= j < 4 ==> r[offset + j] == DwordBytes(f)[j];
    r
  }

  lemma SetWordAt(regs: Bytes, offset: nat, f: Bits)
    requires offset + 2 <= |regs| && |f| == 16
    ensures Word(Set(regs, offset, WordBytes(f)), offset) == f
  {
    var r := Set(regs, offset, WordBytes(f));
    assert r[offset] == f[..8] && r[offset + 1] == f[8..];
  }

  lemma SetElsewhere(regs: Bytes, offset: nat, data: Bytes, at: nat)
    requires offset + |data| <= |regs| && at + 2 <= |regs| && (at + 2 <= offset || offset + |data| <= at)
    ensures Word(Set(regs, offset, data), at) == Word(regs, at)
  {
  }

  lemma SetTwice(regs: Bytes, offset: nat, a: Bytes, b: Bytes)
    requires |a| == |b| && offset + |a| <= |regs|
    ensures Set(Set(regs, offset, a), offset, b) == Set(regs, offset, b)
  {
  }

  /** Where every bit is writable, a masked store is a plain copy. */
  lemma FullyWritable(regs: Bytes, writable: Bytes, offset: nat, data: Bytes)
    requires |regs| == |writable| && offset + |data| <= |regs|
    requires forall i :: offset <= i < offset + |data| ==> writable[i] == ONES_BYTE
    ensures Write(regs, writable, offset, data) == Set(regs, offset, data)
  {
    var a, b := Write(regs, writable, offset, data), Set(regs, offset, data);
    forall i | 0 <= i < |regs| ensures a[i] == b[i] {
      if offset <= i < offset + |data| {
        assert writable[i] == ONES_BYTE;
        assert Update(regs[i], data[i - offset], ONES_BYTE) == data[i - offset];
      }
    }
  }

  /** Storing a dword's own bits changes nothing. */
  lemma StoreSame(regs: Bytes, offset: nat)
    requires offset + 4 <= |regs|
    ensures Set(regs, offset, DwordBytes(Dword(regs, offset))) == regs
  {
    var b := DwordBytes(Dword(regs, offset));
    assert b[0] == regs[offset] && b[1] == regs[offset + 1] && b[2] == regs[offset + 2] && b[3] == regs[offset + 3];
  }

  /** The two blocks differ in writable bits only. */
  ghost predicate SameReadOnlyBits(writable: Bytes, before: Bytes, after: Bytes)
  {
    && |before| == |after| == |writable|
    && forall i, j :: 0 <= i < |writable| && 0 <= j < 8 && !writable[i][j] ==> before[i][j] == after[i][j]
  }

  /** No store changes a read-only bit, whatever its width and data. */
  lemma WriteKeepsReadOnly(regs: Bytes, writable: Bytes, offset: nat, data: Bytes)
    requires |regs| == |writable| && offset + |data| <= |regs|
    ensures SameReadOnlyBits(writable, regs, Write(regs, writable, offset, data))
  {
  }

  /** A block agreeing on the read-only bits is restored by writing the wanted bytes back. */
  lemma WriteRestores(current: Bytes, wanted: Bytes, writable: Bytes, offset: nat, size: nat)
    requires SameReadOnlyBits(writable, wanted, current)
    requires offset + size <= |wanted|
    requires forall i :: 0 <= i < |wanted| && !(offset <= i < offset + size) ==> current[i] == wanted[i]
    ensures Write(current, writable, offset, wanted[offset..offset + size]) == wanted
  {
    var r := Write(current, writable, offset, wanted[offset..offset + size]);
    forall i | 0 <= i < |wanted| ensures r[i] == wanted[i] {
      if offset <= i < offset + size {
        assert forall j :: 0 <= j < 8 ==> r[i][j] == wanted[i][j];
      }
    }
  }

  /** The element-wise store loop over a byte array, proved to be `Write`. */
  method WriteInPlace(regs: array<Byte>, writable: array<Byte>, offset: nat, data: Bytes)
    requires regs.Length == writable.Length && regs != writable
    requires offset + |data| <= regs.Length
    modifies regs
    ensures regs[..] == Write(old(regs[..]), writable[..], offset, data)
  {
    for k := 0 to |data|
      invariant forall i :: 0 <= i < regs.Length ==>
        regs[i] == if offset <= i < offset + k then Update(old(regs[i]), data[i - offset], writable[i]) else old(regs[i])
    {
      regs[offset + k] := Update(regs[offset + k], data[k], writable[offset + k]);
    }
  }

  /** The plain copy loop over a byte array, proved to be `Set`. */
  method SetInPlace(regs: array<Byte>, offset: nat, data: Bytes)
    requires offset + |data| <= regs.Length
    modifies regs
    ensures regs[..] == Set(old(regs[..]), offset, data)
  {
    for k := 0 to |data|
      invariant forall i :: 0 <= i < regs.Length ==>
        regs[i] == if offset <= i < offset + k then data[i - offset] else old(regs[i])
    {
      regs[offset + k] := data[k];
    }
  }
}
