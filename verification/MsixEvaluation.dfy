/** What the MSI-X evaluation loop does, for every pending-bit array, and when it is complete. */
module MsixEvaluation {
  import opened Basics
  import opened Bits
  import opened RegisterBlock
  import opened MsixCore

  /**
   What `try_generate_message` does, for every vector and whatever is pending: an unmasked vector of the table
   leaves with its entry's message and its bit clear, one masked by its entry or by the function is left pending,
   and without Bus Master or enable nothing changes. The array has to have a bit for the vector.
   */
  lemma MsixGeneratesIff(m: Msix, g: Gate, v: nat)
    requires Valid(m)
    ensures var r := TryGenerate(m, g, v);
            var reached := g.busMaster && g.enabled && v < Vectors(m) && v / 64 < |m.pba|;
            && (r.outcome == Ok(Masked) <==> reached && (g.fnMasked || EntryMasked(m, v)))
            && ((r.outcome.Ok? && r.outcome.value.Generated?) <==> reached && !g.fnMasked && !EntryMasked(m, v))
            && (reached && !g.fnMasked && !EntryMasked(m, v) ==> r.outcome == Ok(Generated(MessageFor(m, v))))
            && (reached ==> (Pending(r.msix.pba, v) <==> g.fnMasked || EntryMasked(m, v)))
            && (forall u: nat :: u != v ==> (Pending(r.msix.pba, u) <==> Pending(m.pba, u)))
            && (!g.busMaster ==> r == Attempt(m, Err(NotBusMaster)))
            && (g.busMaster && !g.enabled ==> r == Attempt(m, Err(MsiDisabled)))
            && (g.busMaster && g.enabled && !reached ==> r.outcome == Err(InvalidMsiXVector(v)))
  {
    hide MessageFor, EntryMasked;
  }

  /** Messages can leave at all. */
  predicate Open(g: Gate) {
    g.busMaster && g.enabled
  }

  /** The vectors the loop looks at, in order. */
  function Visits(pba: Pba, start: nat): seq<nat>
    decreases 64 * |pba| - start
  {
    match FindPending(pba, start)
    case None => []
    case Some(v) => [v] + Visits(pba, v + 1)
  }

  /** Visits are pending, strictly increasing and never repeat. */
  lemma {:induction false} VisitsAscend(pba: Pba, start: nat, i: nat)
    requires i < |Visits(pba, start)|
    ensures Pending(pba, Visits(pba, start)[i]) && Visits(pba, start)[i] >= start
    ensures forall j :: 0 <= j < i ==> Visits(pba, start)[j] < Visits(pba, start)[i]
    decreases i
  {
    hide FindPending;
    var v := FindPending(pba, start).value;
    if i > 0 {
      VisitsAscend(pba, v + 1, i - 1);
      forall j | 0 <= j < i ensures Visits(pba, start)[j] < Visits(pba, start)[i] {
        assert Visits(pba, start)[i] == Visits(pba, v + 1)[i - 1];
        if j > 0 {
          assert Visits(pba, start)[j] == Visits(pba, v + 1)[j - 1];
        }
      }
    }
  }

  lemma {:induction false} VisitedIsPending(pba: Pba, start: nat, v: nat)
    requires v in Visits(pba, start)
    ensures Pending(pba, v) && v >= start
  {
    var i :| 0 <= i < |Visits(pba, start)| && Visits(pba, start)[i] == v;
    VisitsAscend(pba, start, i);
  }

  /** The loop only ever changes bits it has passed, which the search no longer sees. */
  lemma {:induction false} VisitsAgree(p: Pba, q: Pba, start: nat)
    requires |p| == |q|
    requires forall v: nat :: v >= start ==> (Pending(p, v) <==> Pending(q, v))
    ensures Visits(p, start) == Visits(q, start)
    decreases 64 * |p| - start
  {
    hide FindPending;
    SameFind(p, q, start);
    var a := FindPending(p, start);
    if a.Some? {
      VisitsAgree(p, q, a.value + 1);
    }
  }

  lemma SameFind(p: Pba, q: Pba, start: nat)
    requires |p| == |q|
    requires forall v: nat :: v >= start ==> (Pending(p, v) <==> Pending(q, v))
    ensures FindPending(p, start) == FindPending(q, start)
  {
    hide FindPending;
    forall v: nat ensures Eligible(p, start, v) <==> Eligible(q, start, v) {
      if v < start {
        assert !Eligible(p, start, v) && !Eligible(q, start, v);
      }
    }
  }

  /** Vector `v` leaves when it is looked at. */
  predicate Delivers(m: Msix, g: Gate, v: nat)
    requires Valid(m)
  {
    Open(g) && v < Vectors(m) && !IsMasked(m, g, v)
  }

  /** One delivery, with the entry's current address and data, for each visited vector that may leave. */
  function Deliveries(m: Msix, g: Gate, vs: seq<nat>): seq<Delivery>
    requires Valid(m)
  {
    if vs == [] then []
    else (if Delivers(m, g, vs[0]) then [Delivery(vs[0], MessageFor(m, vs[0]))] else []) + Deliveries(m, g, vs[1..])
  }

  lemma {:induction false} DeliveriesIgnorePba(m: Msix, pba: Pba, g: Gate, vs: seq<nat>)
    requires Valid(m)
    ensures Deliveries(m.(pba := pba), g, vs) == Deliveries(m, g, vs)
  {
    if vs != [] {
      DeliveriesIgnorePba(m, pba, g, vs[1..]);
    }
  }

  /** Visiting `v` clears its bit exactly when it is not masked and messages can leave. */
  predicate Clears(m: Msix, g: Gate, v: nat)
    requires Valid(m)
  {
    Open(g) && !IsMasked(m, g, v)
  }

  lemma {:induction false} AttemptEffect(m: Msix, g: Gate, v: nat)
    requires Valid(m) && Pending(m.pba, v)
    ensures Sent(TryGenerate(m, g, v), v) == Deliveries(m, g, [v])
    ensures forall u: nat :: Pending(TryGenerate(m, g, v).msix.pba, u) <==>
              Pending(m.pba, u) && !(u == v && Clears(m, g, v))
  {
    assert [v][1..] == [];
  }

  lemma ClearsIgnorePba(m: Msix, pba: Pba, g: Gate, v: nat)
    requires Valid(m)
    ensures Clears(m.(pba := pba), g, v) == Clears(m, g, v)
  {
  }

  lemma {:induction false} DeliveriesCons(m: Msix, g: Gate, v: nat, rest: seq<nat>)
    requires Valid(m)
    ensures Deliveries(m, g, [v] + rest) == Deliveries(m, g, [v]) + Deliveries(m, g, rest)
  {
    assert ([v] + rest)[1..] == rest;
    assert [v][1..] == [];
  }

  lemma {:induction false} EvaluateSends(m: Msix, g: Gate, start: nat, sent: seq<Delivery>)
    requires Valid(m)
    ensures EvaluateFrom(m, g, start, sent).sent == sent + Deliveries(m, g, Visits(m.pba, start))
    decreases 64 * |m.pba| - start
  {
    hide FindPending, TryGenerate, Sent, Delivers, Clears, Pending, Valid, Deliveries;
    var f := FindPending(m.pba, start);
    if f.Some? {
      var v := f.value;
      assert Eligible(m.pba, start, v) && Visible(m.pba, start / 64, start % 64, v);
      var a := TryGenerate(m, g, v);
      AttemptEffect(m, g, v);
      EvaluateSends(a.msix, g, v + 1, sent + Sent(a, v));
      VisitsAgree(m.pba, a.msix.pba, v + 1);
      var rest := Visits(m.pba, v + 1);
      assert m.(pba := a.msix.pba) == a.msix;
      DeliveriesIgnorePba(m, a.msix.pba, g, rest);
      DeliveriesCons(m, g, v, rest);
    } else {
      NoDeliveries(m, g);
    }
  }

  lemma {:induction false} NoDeliveries(m: Msix, g: Gate)
    requires Valid(m)
    ensures Deliveries(m, g, []) == []
  {
  }

  lemma {:induction false} EvaluateClears(m: Msix, g: Gate, start: nat, sent: seq<Delivery>, u: nat)
    requires Valid(m)
    ensures Pending(EvaluateFrom(m, g, start, sent).msix.pba, u) <==>
              Pending(m.pba, u) && !(u in Visits(m.pba, start) && Clears(m, g, u))
    decreases 64 * |m.pba| - start
  {
    hide FindPending, TryGenerate, Sent, Delivers, Clears, Pending;
    var f := FindPending(m.pba, start);
    if f.Some? {
      var v := f.value;
      assert Eligible(m.pba, start, v) && Visible(m.pba, start / 64, start % 64, v);
      var a := TryGenerate(m, g, v);
      AttemptEffect(m, g, v);
      EvaluateClears(a.msix, g, v + 1, sent + Sent(a, v), u);
      VisitsAgree(m.pba, a.msix.pba, v + 1);
      assert m.(pba := a.msix.pba) == a.msix;
      ClearsIgnorePba(m, a.msix.pba, g, u);
    }
  }

  /**
   The loop, for any pending-bit array: messages go out for the visited vectors only,
   once each, in ascending order, never for a masked one, and exactly the delivered
   (or undeliverable, out-of-table) visited bits are cleared.
   */
  lemma {:induction false} EvaluateExact(m: Msix, g: Gate, start: nat, sent: seq<Delivery>)
    requires Valid(m)
    ensures var r := EvaluateFrom(m, g, start, sent);
            && r.sent == sent + Deliveries(m, g, Visits(m.pba, start))
            && forall u: nat :: Pending(r.msix.pba, u) <==>
                 Pending(m.pba, u) && !(u in Visits(m.pba, start) && Clears(m, g, u))
  {
    EvaluateSends(m, g, start, sent);
    forall u: nat
      ensures Pending(EvaluateFrom(m, g, start, sent).msix.pba, u) <==>
                Pending(m.pba, u) && !(u in Visits(m.pba, start) && Clears(m, g, u))
    {
      EvaluateClears(m, g, start, sent, u);
    }
  }

  // ---------- completeness ----------

  /** `v` is the next pending vector after `u`. */
  ghost predicate Adjacent(pba: Pba, u: nat, v: nat) {
    Pending(pba, u) && Pending(pba, v) && u < v && forall w: nat :: u < w < v ==> !Pending(pba, w)
  }

  /** From `u` the search finds its successor: `u` is in the last bit of its word or `v` sits in a higher bit. */
  predicate Reaches(u: nat, v: nat) {
    u % 64 == 63 || u % 64 < v % 64
  }

  ghost predicate NoStranded(pba: Pba) {
    forall u: nat, v: nat :: Adjacent(pba, u, v) ==> Reaches(u, v)
  }

  ghost predicate Complete(pba: Pba) {
    forall v: nat :: Pending(pba, v) ==> v in Visits(pba, 0)
  }

  /** If `Reaches` holds at `u`, the search from `u + 1` returns exactly the next pending vector. */
  lemma FindsAdjacent(pba: Pba, u: nat, v: nat)
    requires Adjacent(pba, u, v) && Reaches(u, v)
    ensures FindPending(pba, u + 1) == Some(v)
  {
    assert Eligible(pba, u + 1, v);
    var f := FindPending(pba, u + 1).value;
    assert Pending(pba, f) && u < f <= v;
  }

  lemma {:induction false} VisitedAfter(pba: Pba, start: nat, u: nat, v: nat)
    requires u in Visits(pba, start) && v in Visits(pba, u + 1)
    ensures v in Visits(pba, start)
    decreases 64 * |pba| - start
  {
    hide FindPending;
    var f := FindPending(pba, start).value;
    if u != f {
      VisitedAfter(pba, f + 1, u, v);
    }
  }

  /** Everything visited after `u` is visited from `u + 1`. */
  lemma {:induction false} VisitedFrom(pba: Pba, start: nat, u: nat, v: nat)
    requires u in Visits(pba, start) && v in Visits(pba, start) && u < v
    ensures v in Visits(pba, u + 1)
    decreases 64 * |pba| - start
  {
    hide FindPending;
    var f := FindPending(pba, start).value;
    if u != f {
      if v == f {
        VisitedIsPending(pba, f + 1, u);
      }
      VisitedFrom(pba, f + 1, u, v);
    }
  }

  lemma {:induction false} AllVisited(pba: Pba, v: nat)
    requires NoStranded(pba) && Pending(pba, v)
    ensures v in Visits(pba, 0)
    decreases v
  {
    assert Eligible(pba, 0, v);
    var f := FindPending(pba, 0).value;
    if f < v {
      var u := PreviousPending(pba, f, v);
      AllVisited(pba, u);
      assert Reaches(u, v);
      FindsAdjacent(pba, u, v);
      VisitedAfter(pba, 0, u, v);
    }
  }

  /** The pending vector right before `v`. */
  lemma {:induction false} PreviousPending(pba: Pba, lo: nat, v: nat) returns (u: nat)
    requires Pending(pba, lo) && lo < v && Pending(pba, v)
    ensures Adjacent(pba, u, v)
    decreases v - lo
  {
    if exists w: nat :: lo < w < v && Pending(pba, w) {
      var w: nat :| lo < w < v && Pending(pba, w);
      u := PreviousPending(pba, w, v);
    } else {
      u := lo;
    }
  }

  /**
   The loop looks at every pending vector if and only if each pending vector reaches
   its successor: the bit bound of the search carries over into later words.
   */
  lemma CompleteIffNoStranded(pba: Pba)
    ensures Complete(pba) <==> NoStranded(pba)
  {
    if NoStranded(pba) {
      forall v: nat | Pending(pba, v) ensures v in Visits(pba, 0) {
        AllVisited(pba, v);
      }
    }
    if Complete(pba) {
      forall u: nat, v: nat | Adjacent(pba, u, v) ensures Reaches(u, v) {
        VisitedFrom(pba, 0, u, v);
        NextVisited(pba, u, v);
      }
    }
  }

  lemma {:induction false} NextVisited(pba: Pba, u: nat, v: nat)
    requires Adjacent(pba, u, v) && v in Visits(pba, u + 1)
    ensures Reaches(u, v)
  {
    hide FindPending;
    var f := FindPending(pba, u + 1).value;
    assert Pending(pba, f) && f > u;
    if f != v {
      VisitedIsPending(pba, f + 1, v);
    }
  }

  /** A one-word array, the shipped layout, strands nothing. */
  lemma OneWordComplete(pba: Pba)
    requires |pba| <= 1
    ensures NoStranded(pba) && Complete(pba)
  {
    forall u: nat, v: nat | Adjacent(pba, u, v) ensures Reaches(u, v) {
      assert u / 64 == 0 && v / 64 == 0;
    }
    CompleteIffNoStranded(pba);
  }

  /** Two words can: with vectors 5 and 66 pending, 66 is never looked at. */
  lemma TwoWordsCanStrand()
    ensures var pba: Pba := [Zeros(64)[5 := true], Zeros(64)[2 := true]];
            Pending(pba, 66) && 66 !in Visits(pba, 0)
  {
    var pba: Pba := [Zeros(64)[5 := true], Zeros(64)[2 := true]];
    assert Pending(pba, 5) && Pending(pba, 66);
    assert Adjacent(pba, 5, 66);
    assert Eligible(pba, 0, 5);
    var f := FindPending(pba, 0).value;
    assert f == 5;
    assert forall v: nat :: !Eligible(pba, 6, v);
  }

  /**
   With a complete search the result is the obvious one: every pending vector that may
   leave is sent once, in ascending order, and exactly the masked ones stay pending.
   */
  lemma {:induction false} EvaluateComplete(m: Msix, g: Gate, sent: seq<Delivery>)
    requires Valid(m) && NoStranded(m.pba)
    ensures var r, vs := Evaluate(m, g, sent), Visits(m.pba, 0);
            && (forall v: nat :: v in vs <==> Pending(m.pba, v))
            && (forall i, j :: 0 <= i < j < |vs| ==> vs[i] < vs[j])
            && r.sent == sent + Deliveries(m, g, vs)
            && (forall v: nat :: Pending(r.msix.pba, v) <==> Pending(m.pba, v) && (Open(g) ==> IsMasked(m, g, v)))
  {
    EvaluateExact(m, g, 0, sent);
    CompleteIffNoStranded(m.pba);
    var vs := Visits(m.pba, 0);
    forall v: nat | v in vs ensures Pending(m.pba, v) {
      VisitedIsPending(m.pba, 0, v);
    }
    forall i, j | 0 <= i < j < |vs| ensures vs[i] < vs[j] {
      VisitsAscend(m.pba, 0, j);
    }
  }
}
