/** Notification addresses end to end: what the device computes from its stored copy is where the guest's writes arrive. */
module NotifyRouting {
  import opened Basics
  import opened Bits
  import opened RegisterBlock
  import opened ConfigSpace
  import opened Bars
  import opened BarDecoding
  import Notify
  import Routing

  /** `notification_gpa`: the address of queue `q`'s doorbell, if it lies inside the region. */
  function NotificationGpa(info: Notify.Info, q: nat): Option<nat> {
    var gpa := info.base + info.multiplier * q;
    if gpa < info.base + info.length then Some(gpa) else None
  }

  /**
   With a coherent copy, a guest write of `size` bytes to the address computed for queue `q`
   is routed to the notification BAR and, whatever other disjoint regions are asked before it,
   dispatched to the notification region at multiplier times `q`.
   */
  lemma {:induction false} DoorbellArrives(n: Notify.Region, d: Notify.Device, regions: seq<Routing.Region>, q: nat, size: nat)
    requires Notify.RegionOk(n) && BarTable(d.space) && BarsInvariant(d.space) && Notify.Coherent(n, d)
    requires GetBar(d.space, n.bar).Some? && !GetBar(d.space, n.bar).value.kind.Io?
    requires var bar := GetBar(d.space, n.bar).value;
             n.offset + n.length <= bar.size && (bar.address.Some? ==> bar.address.value + bar.size < WORD_LIMIT)
    requires Routing.DisjointBars(d.space, true)
    requires Routing.PairwiseDisjoint(regions) && Routing.Region(n.bar, n.offset, n.length) in regions
    requires var at := Val(Dword(d.space.regs, n.cap + 14)) * q; size > 0 && at + size <= n.length
    ensures var at := Val(Dword(d.space.regs, n.cap + 14)) * q;
            && d.info.Some? && NotificationGpa(d.info.value, q).Some?
            && var gpa := NotificationGpa(d.info.value, q).value;
               && Routing.Route(d.space, gpa, size, true) == Some(Routing.Target(n.bar, n.offset + at))
               && Routing.Dispatch(regions, n.bar, n.offset + at, size) ==
                    Some((Routing.Region(n.bar, n.offset, n.length), at))
  {
    hide GetBar, BarsInvariant, Routing.DisjointBars, Val, Routing.Dispatch, Routing.PairwiseDisjoint;
    var m := Val(Dword(d.space.regs, n.cap + 14));
    DecodedAligned(d.space, n.bar);
    var at := m * q;
    Routing.InRangeRoutes(d.space, n.bar, n.offset + at, size);
    Routing.DispatchMeans(regions, n.bar, n.offset + at, size);
  }

  /** A queue has a doorbell if and only if its offset lies inside the region. */
  lemma DoorbellIff(info: Notify.Info, q: nat)
    ensures NotificationGpa(info, q).Some? <==> info.multiplier * q < info.length
    ensures NotificationGpa(info, q).Some? ==> InRange(NotificationGpa(info, q).value, info.base, info.length)
  {
  }

  /** Different queues have different doorbells, as long as the multiplier is not zero. */
  lemma DoorbellsDistinct(info: Notify.Info, p: nat, q: nat)
    requires NotificationGpa(info, p).Some? && NotificationGpa(info, p) == NotificationGpa(info, q)
    ensures info.multiplier == 0 || p == q
  {
    assert info.multiplier * p == info.multiplier * q;
    assert info.multiplier * (p - q) == 0;
  }
}
