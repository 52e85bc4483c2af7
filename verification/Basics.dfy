/** Result types, error values and the interval tests shared by the whole model. */
module Basics {

  datatype Option<+T> = None | Some(value: T)

  datatype Result<+T, +E> = Ok(value: T) | Err(error: E)

  /** The errors of the PCI crate that some modelled operation can return. */
  datatype Error =
    | BarInUse(index: nat)
    | BarNotFound
    | BarRegionOverflow(address: nat, size: nat)
    | InvalidBarAlignment(address: nat, size: nat)
    | InvalidBarIndex(index: nat)
    | InvalidBarSize(size: nat)
    | InvalidBarAddress(address: nat)
    | InvalidIoSize(ioSize: nat)
    | InvalidAccessAlignment(offset: nat, accessSize: nat)
    | AccessBounds(offset: nat, accessSize: nat)
    | UnsupportedHeader(headerType: nat)
    | NotSupported
    | ConfigurationSpaceBounds(limit: nat)
    | DeviceAreaBounds(offset: nat, limit: nat)
    | InvalidMsiVector(vector: nat)
    | InvalidMsiXVector(vector: nat)
    | MsiDisabled
    | NotBusMaster
    | InterruptTypeMismatch
    | VectorNotMasked(vector: nat)

  /** A message-signalled interrupt as handed to the interrupt controller. */
  datatype Message = Message(address: nat, data: nat)

  /** One past the largest `usize`/`u64`. */
  const WORD_LIMIT: nat := 0x1_0000_0000_0000_0000

  /** Checked-add interval overlap on machine words. */
  predicate RangeOverlaps(start1: nat, size1: nat, start2: nat, size2: nat)
  {
    && start1 + size1 < WORD_LIMIT
    && start2 + size2 < WORD_LIMIT
    && !(start1 >= start2 + size2 || start2 >= start1 + size1)
  }

  /** Checked-add interval containment on machine words; an empty range contains and is contained in nothing. */
  predicate RangeContains(start1: nat, size1: nat, start2: nat, size2: nat)
  {
    && size1 != 0 && size2 != 0
    && start1 + size1 < WORD_LIMIT
    && start2 + size2 < WORD_LIMIT
    && start2 >= start1 && start2 + size2 <= start1 + size1
  }

  /** Containment means exactly that every accessed address lies in the range. */
  lemma ContainsMeansEveryAddress(start1: nat, size1: nat, start2: nat, size2: nat)
    requires size1 != 0 && size2 != 0
    requires start1 + size1 < WORD_LIMIT && start2 + size2 < WORD_LIMIT
    ensures RangeContains(start1, size1, start2, size2) <==>
            forall x :: InRange(x, start2, size2) ==> InRange(x, start1, size1)
  {
    if forall x :: InRange(x, start2, size2) ==> InRange(x, start1, size1) {
      assert InRange(start2, start2, size2);
      assert InRange(start2 + size2 - 1, start2, size2);
    }
  }

  /** Overlap of two non-empty ranges means a shared address. */
  lemma OverlapsMeansSharedAddress(start1: nat, size1: nat, start2: nat, size2: nat)
    requires size1 != 0 && size2 != 0
    requires start1 + size1 < WORD_LIMIT && start2 + size2 < WORD_LIMIT
    ensures RangeOverlaps(start1, size1, start2, size2) <==> exists x :: InRange(x, start1, size1) && InRange(x, start2, size2)
  {
    if RangeOverlaps(start1, size1, start2, size2) {
      var x := if start1 <= start2 then start2 else start1;
      assert InRange(x, start1, size1) && InRange(x, start2, size2);
    }
  }

  predicate InRange(x: int, start: nat, size: nat) {
    start <= x < start + size
  }
}
