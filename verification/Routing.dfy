/** Address routing: which BAR an access hits (function.rs), and which region inside it (bar_region.rs). */
module Routing {
  import opened Basics
  import opened Bits
  import opened RegisterBlock
  import opened ConfigSpace
  import opened Bars
  import opened BarDecoding

  /** BAR `i` is decoded, of the right kind, and contains the whole access. */
  predicate Hits(s: Space, i: nat, address: nat, size: nat, mem: bool)
    requires BarTable(s) && i < NUM_BARS
  {
    match GetBar(s, i)
    case None => false
    case Some(bar) => mem == !bar.kind.Io? && bar.address.Some? && RangeContains(bar.address.value, bar.size, address, size)
  }

  datatype Target = Target(bar: nat, offset: nat)

  /** The search from BAR `i` on. */
  function RouteFrom(s: Space, i: nat, address: nat, size: nat, mem: bool): (r: Option<Target>)
    requires BarTable(s) && i <= NUM_BARS
    ensures r.Some? ==> i <= r.value.bar < NUM_BARS
    decreases NUM_BARS - i
  {
    if i == NUM_BARS then None
    else if Hits(s, i, address, size, mem) then Some(Target(i, address - GetBar(s, i).value.address.value))
    else RouteFrom(s, i + 1, address, size, mem)
  }

  function Route(s: Space, address: nat, size: nat, mem: bool): (r: Option<Target>)
    requires BarTable(s)
    ensures r.Some? ==> r.value.bar < NUM_BARS
  {
    RouteFrom(s, 0, address, size, mem)
  }

  /** `find_bar_and_offset`: sound, complete, and the lowest index wins. */
  method FindBarAndOffset(s: Space, address: nat, size: nat, mem: bool) returns (r: Option<Target>)
    requires BarTable(s)
    ensures r == Route(s, address, size, mem)
    ensures r.None? <==> forall i :: 0 <= i < NUM_BARS ==> !Hits(s, i, address, size, mem)
    ensures r.Some? ==>
              && r.value.bar < NUM_BARS && Hits(s, r.value.bar, address, size, mem)
              && (forall i :: 0 <= i < r.value.bar ==> !Hits(s, i, address, size, mem))
              && GetBar(s, r.value.bar).value.address.value + r.value.offset == address
              && r.value.offset + size <= GetBar(s, r.value.bar).value.size
  {
    hide GetBar;
    for i := 0 to NUM_BARS
      invariant forall j :: 0 <= j < i ==> !Hits(s, j, address, size, mem)
      invariant Route(s, address, size, mem) == RouteFrom(s, i, address, size, mem)
    {
      var bar := GetBar(s, i);
      if bar.Some? && mem == !bar.value.kind.Io? && bar.value.address.Some?
         && RangeContains(bar.value.address.value, bar.value.size, address, size) {
        return Some(Target(i, address - bar.value.address.value));
      }
    }
    return None;
  }

  /** Decoded BARs of one kind do not overlap. */
  ghost predicate DisjointBars(s: Space, mem: bool)
    requires BarTable(s)
  {
    forall i, j :: 0 <= i < NUM_BARS && 0 <= j < NUM_BARS && i != j ==> Apart(s, i, j, mem)
  }

  ghost predicate Apart(s: Space, i: nat, j: nat, mem: bool)
    requires BarTable(s) && i < NUM_BARS && j < NUM_BARS
  {
    GetBar(s, i).Some? && GetBar(s, j).Some? ==>
      var a, b := GetBar(s, i).value, GetBar(s, j).value;
      mem == !a.kind.Io? && mem == !b.kind.Io? && a.address.Some? && b.address.Some? ==>
        a.address.value + a.size <= b.address.value || b.address.value + b.size <= a.address.value
  }

  lemma {:induction false} RouteUnique(s: Space, i: nat, j: nat, address: nat, size: nat, mem: bool)
    requires BarTable(s) && i <= j < NUM_BARS && DisjointBars(s, mem) && Hits(s, j, address, size, mem)
    ensures RouteFrom(s, i, address, size, mem) == Some(Target(j, address - GetBar(s, j).value.address.value))
    decreases j - i
  {
    hide GetBar;
    if i < j {
      assert Apart(s, i, j, mem);
      RouteUnique(s, i + 1, j, address, size, mem);
    }
  }

  /**
   With disjoint BARs an in-range access to a decoded BAR is routed to that BAR at that
   offset, if and only if the BAR's end does not wrap past the last 64-bit address; a
   BAR that does wrap is never hit.
   */
  lemma InRangeRoutes(s: Space, i: nat, offset: nat, size: nat)
    requires BarTable(s) && i < NUM_BARS && GetBar(s, i).Some? && GetBar(s, i).value.address.Some?
    requires size > 0 && offset + size <= GetBar(s, i).value.size
    requires DisjointBars(s, !GetBar(s, i).value.kind.Io?)
    ensures var bar := GetBar(s, i).value;
            Route(s, bar.address.value + offset, size, !bar.kind.Io?) == Some(Target(i, offset)) <==>
            bar.address.value + bar.size < WORD_LIMIT
  {
    hide GetBar, DisjointBars, RouteFrom;
    var bar := GetBar(s, i).value;
    var mem := !bar.kind.Io?;
    if bar.address.value + bar.size < WORD_LIMIT {
      RouteUnique(s, 0, i, bar.address.value + offset, size, mem);
    } else {
      NeverHit(s, 0, i, bar.address.value + offset, size, mem);
    }
  }

  lemma {:induction false} NeverHit(s: Space, j: nat, i: nat, address: nat, size: nat, mem: bool)
    requires BarTable(s) && j <= NUM_BARS && i < NUM_BARS && !Hits(s, i, address, size, mem)
    ensures RouteFrom(s, j, address, size, mem).Some? ==> RouteFrom(s, j, address, size, mem).value.bar != i
    decreases NUM_BARS - j
  {
    hide GetBar;
    if j < NUM_BARS {
      NeverHit(s, j + 1, i, address, size, mem);
    }
  }

  /** In every reachable space a 32-bit or I/O BAR cannot wrap, so routing to it is always exact. */
  lemma NarrowBarsRoute(s: Space, i: nat, offset: nat, size: nat)
    requires BarsInvariant(s) && i < NUM_BARS && GetBar(s, i).Some? && !GetBar(s, i).value.kind.Mem64?
    requires size > 0 && offset + size <= GetBar(s, i).value.size
    requires DisjointBars(s, !GetBar(s, i).value.kind.Io?)
    ensures var bar := GetBar(s, i).value;
            bar.address.Some? && Route(s, bar.address.value + offset, size, !bar.kind.Io?) == Some(Target(i, offset))
  {
    DecodedAligned(s, i);
    DecodedBelow4G(s, i);
    InRangeRoutes(s, i, offset, size);
  }

  /** `find_pio_region`: ports are 16 bits wide. */
  function RoutePort(s: Space, port: nat, size: nat): (r: Option<Target>)
    requires BarTable(s) && port < 0x1_0000
  {
    Route(s, port, size, false)
  }

  /** Some port reaches this place of an I/O BAR if and only if it lies in the first 64 KiB. */
  lemma PortsReachLow(s: Space, i: nat, offset: nat, size: nat)
    requires BarsInvariant(s) && i < NUM_BARS && GetBar(s, i).Some? && GetBar(s, i).value.kind.Io?
    requires size > 0 && offset + size <= GetBar(s, i).value.size && DisjointBars(s, false)
    ensures GetBar(s, i).value.address.Some?
    ensures (exists port: nat :: port < 0x1_0000 && RoutePort(s, port, size) == Some(Target(i, offset))) <==>
            GetBar(s, i).value.address.value + offset < 0x1_0000
  {
    NarrowBarsRoute(s, i, offset, size);
    hide GetBar, BarsInvariant, DisjointBars;
    var at := GetBar(s, i).value.address.value + offset;
    if at < 0x1_0000 {
      assert RoutePort(s, at, size) == Some(Target(i, offset));
    }
    forall port: nat | port < 0x1_0000 && RoutePort(s, port, size) == Some(Target(i, offset)) ensures port == at {
      RouteOffset(s, 0, port, size, false);
    }
  }

  /** A routed address is the BAR's address plus the offset. */
  lemma {:induction false} RouteOffset(s: Space, i: nat, address: nat, size: nat, mem: bool)
    requires BarTable(s) && i <= NUM_BARS && RouteFrom(s, i, address, size, mem).Some?
    ensures var t := RouteFrom(s, i, address, size, mem).value;
            && GetBar(s, t.bar).Some? && GetBar(s, t.bar).value.address.Some?
            && address == GetBar(s, t.bar).value.address.value + t.offset
    decreases NUM_BARS - i
  {
    hide GetBar;
    if i < NUM_BARS && !Hits(s, i, address, size, mem) {
      RouteOffset(s, i + 1, address, size, mem);
    }
  }

  // ---------- regions inside a BAR ----------

  datatype Region = Region(bar: nat, offset: nat, length: nat)

  /** `access_targets_region`. */
  predicate Targets(r: Region, bar: nat, offset: nat, size: nat) {
    r.bar == bar && RangeContains(r.offset, r.length, offset, size)
  }

  /** First-match dispatch: the region that handles the access and the offset inside it. */
  function Dispatch(regions: seq<Region>, bar: nat, offset: nat, size: nat): (d: Option<(Region, nat)>) {
    if regions == [] then None
    else if Targets(regions[0], bar, offset, size) then Some((regions[0], offset - regions[0].offset))
    else Dispatch(regions[1..], bar, offset, size)
  }

  predicate Disjoint(a: Region, b: Region) {
    a.bar != b.bar || a.offset + a.length <= b.offset || b.offset + b.length <= a.offset
  }

  ghost predicate PairwiseDisjoint(regions: seq<Region>) {
    forall a, b :: a in regions && b in regions && a != b ==> Disjoint(a, b)
  }

  /** With disjoint regions dispatch means membership: the one region that contains the access, or none. */
  lemma {:induction false} DispatchMeans(regions: seq<Region>, bar: nat, offset: nat, size: nat)
    requires PairwiseDisjoint(regions)
    ensures forall r :: r in regions && Targets(r, bar, offset, size) ==>
              Dispatch(regions, bar, offset, size) == Some((r, offset - r.offset))
    ensures Dispatch(regions, bar, offset, size).Some? ==>
              var r := Dispatch(regions, bar, offset, size).value.0; r in regions && Targets(r, bar, offset, size)
  {
    if regions != [] {
      DispatchMeans(regions[1..], bar, offset, size);
      forall r | r in regions && Targets(r, bar, offset, size)
        ensures Dispatch(regions, bar, offset, size) == Some((r, offset - r.offset))
      {
        assert Disjoint(r, regions[0]) || r == regions[0];
      }
    }
  }

  /** The order in which handlers are asked does not matter. */
  lemma {:induction false} OrderIrrelevant(p: seq<Region>, q: seq<Region>, bar: nat, offset: nat, size: nat)
    requires PairwiseDisjoint(p) && PairwiseDisjoint(q) && (forall r :: r in p <==> r in q)
    ensures Dispatch(p, bar, offset, size) == Dispatch(q, bar, offset, size)
  {
    DispatchMeans(p, bar, offset, size);
    DispatchMeans(q, bar, offset, size);
  }

  /** The regions of the virtio function in BAR 0, in the order they are asked. */
  const VIRTIO_REGIONS: seq<Region> := [
    Region(0, 0x4000, 0x1000),  // MSI-X table
    Region(0, 0x5000, 0x1000),  // pending bits
    Region(0, 0x0000, 64),      // common configuration
    Region(0, 0x2000, 0x1000),  // device configuration
    Region(0, 0x3000, 0x1000),  // notifications
    Region(0, 0x1000, 1)        // ISR status
  ]

  lemma VirtioRegionsDisjoint()
    ensures PairwiseDisjoint(VIRTIO_REGIONS)
    ensures forall r :: r in VIRTIO_REGIONS ==> r.offset + r.length <= 0x8000
  {
  }
}
