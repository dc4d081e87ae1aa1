/**
  The caps and negative amounts.  Between policy changes, and with nothing booked, the amount reserved
  over a cap can grow all the same: a negative reservation that leaves uncovers the others.  Exactly when
  it can is stated per component, for any ledger.
*/
module RiskExcess {
  import opened RiskLedger
  import opened RiskSweep
  import opened RiskAccounting
  import opened RiskRuns
  import opened RiskPolicies
  import opened RiskSigns

  function CapOf(c: Component, p: Policy): real {
    if c == Notional then p.maxNotional else p.maxMargin
  }

  /** How far the reserved entries, re-summed, are over the cap. */
  ghost function Excess(c: Component, l: Ledger): real {
    OverBy(CapOf(c, l.policy), l.policy.safetyBuffer, Of(c, Reserves(l.reservations)))
  }

  function ReservedPart(m: Reservations): Reservations {
    map k | k in m && m[k].status == Reserved :: m[k]
  }

  lemma PartWithout(m: Reservations, k: string)
    requires k in m
    ensures ReservedPart(m - {k}) == if m[k].status == Reserved then ReservedPart(m) - {k} else ReservedPart(m)
    ensures m[k].status == Reserved ==> k in ReservedPart(m) && ReservedPart(m)[k] == m[k]
  {
  }

  lemma NotCounted(r: Reservation, t: Totals)
    requires r.status != Reserved
    ensures Plus(Weight(r, {Reserved}), t) == t
  {
  }

  lemma {:induction false} ReservesOfPart(m: Reservations)
    ensures Reserves(m) == Reserves(ReservedPart(m))
    decreases |m|
  {
    if m == map[] {
      assert ReservedPart(m) == map[];
    } else {
      var k :| k in m;
      var rest, part := m - {k}, ReservedPart(m);
      assert |rest| < |m|;
      ReservesOfPart(rest);
      PartWithout(m, k);
      SumRemove(m, k, {Reserved});
      if m[k].status == Reserved {
        SumRemove(part, k, {Reserved});
      } else {
        NotCounted(m[k], Reserves(rest));
      }
    }
  }

  predicate PartOf(d': Reservations, d: Reservations) {
    forall k :: k in d' ==> k in d && d'[k] == d[k]
  }

  /** No part sums to more than the non-negative entries do. */
  lemma {:induction false} PartSum(c: Component, d: Reservations, d': Reservations)
    requires AllReserved(d) && PartOf(d', d)
    ensures SumOf(c, d') <= SumOf(c, NotNegative(c, d))
    decreases |d|
  {
    if d == map[] {
      assert d' == map[] && NotNegative(c, d) == map[];
    } else {
      var k := AnyKey(d);
      var rest, rest' := d - {k}, d' - {k};
      assert |rest| < |d|;
      PartSum(c, rest, rest');
      TakeOutNotNegative(c, d, k);
      if k in d' {
        TakeOut(c, d', k);
      } else {
        assert rest' == d';
      }
    }
  }

  /** With a negative entry among them, all entries sum to less than the non-negative ones. */
  lemma NegativeLowers(c: Component, d: Reservations, k: string)
    requires AllReserved(d) && k in d && Amount(c, d[k]) < 0.0
    ensures SumOf(c, d) < SumOf(c, NotNegative(c, d))
  {
    TakeOut(c, d, k);
    TakeOutNotNegative(c, d, k);
    PartSum(c, d - {k}, d - {k});
  }

  // ------------------------------------------------------------------ requests that neither book nor change the policy

  predicate OnlyDepartures(reqs: seq<Request>) {
    forall i :: 0 <= i < |reqs| ==> !reqs[i].Reserve? && !reqs[i].Upsert?
  }

  lemma ServeThins(l: Ledger, req: Request)
    requires !req.Reserve? && !req.Upsert?
    ensures Serve(l, req).0.policy == l.policy
    ensures PartOf(ReservedPart(Serve(l, req).0.reservations), ReservedPart(l.reservations))
  {
    ServePolicy(l, req);
    ServeExtends(l, req);
    var m, m' := l.reservations, Serve(l, req).0.reservations;
    forall k | k in ReservedPart(m') ensures k in ReservedPart(m) && m'[k] == m[k] {
      assert k in m && SameOrder(m[k], m'[k]);
    }
  }

  lemma {:induction false} ServeAllThins(l: Ledger, reqs: seq<Request>)
    requires OnlyDepartures(reqs)
    ensures ServeAll(l, reqs).policy == l.policy
    ensures PartOf(ReservedPart(ServeAll(l, reqs).reservations), ReservedPart(l.reservations))
    decreases |reqs|
  {
    if reqs != [] {
      ServeThins(l, reqs[0]);
      ServeAllThins(Serve(l, reqs[0]).0, reqs[1..]);
    }
  }

  lemma {:induction false} ReleaseAllLeaves(l: Ledger, ids: seq<string>)
    ensures ReleaseAll(l, ids).policy == l.policy
    ensures ReservedPart(ReleaseAll(l, ids).reservations) == ReservedPart(l.reservations) - set i | i in ids
    decreases |ids|
  {
    if ids != [] {
      var l1 := ReleaseIn(l, ids[0], false);
      assert ReservedPart(l1.reservations) == ReservedPart(l.reservations) - {ids[0]};
      ReleaseAllLeaves(l1, ids[1..]);
      assert ids == [ids[0]] + ids[1..];
    }
  }

  // ------------------------------------------------------------------ exactly when the excess can grow

  lemma Over(c: Component, p: Policy, x: real, y: real)
    ensures CapOf(c, p) <= 0.0 ==> OverBy(CapOf(c, p), p.safetyBuffer, x) == 0.0
    ensures x <= y ==> OverBy(CapOf(c, p), p.safetyBuffer, x) <= OverBy(CapOf(c, p), p.safetyBuffer, y)
    ensures x <= CapOf(c, p) - p.safetyBuffer ==> OverBy(CapOf(c, p), p.safetyBuffer, x) == 0.0
    ensures CapOf(c, p) > 0.0 && x > y && x > CapOf(c, p) - p.safetyBuffer ==>
              OverBy(CapOf(c, p), p.safetyBuffer, x) > OverBy(CapOf(c, p), p.safetyBuffer, y)
  {
  }

  /** The cap is not set, or the non-negative amounts fit under it by themselves, or there is no negative one. */
  ghost predicate CapSafe(c: Component, p: Policy, d: Reservations) {
    || CapOf(c, p) <= 0.0
    || SumOf(c, NotNegative(c, d)) <= CapOf(c, p) - p.safetyBuffer
    || forall k :: k in d ==> Amount(c, d[k]) >= 0.0
  }

  lemma SafeExcess(c: Component, l: Ledger, reqs: seq<Request>)
    requires CapSafe(c, l.policy, ReservedPart(l.reservations)) && OnlyDepartures(reqs)
    ensures Excess(c, ServeAll(l, reqs)) <= Excess(c, l)
  {
    var l' := ServeAll(l, reqs);
    var d, d' := ReservedPart(l.reservations), ReservedPart(l'.reservations);
    ServeAllThins(l, reqs);
    ReservesOfPart(l.reservations);
    ReservesOfPart(l'.reservations);
    PartSum(c, d, d');
    Over(c, l.policy, SumOf(c, d'), SumOf(c, d));
    if forall k :: k in d ==> Amount(c, d[k]) >= 0.0 {
      assert NotNegative(c, d) == d;
    }
  }

  lemma UnsafeExcess(c: Component, l: Ledger) returns (reqs: seq<Request>)
    requires !CapSafe(c, l.policy, ReservedPart(l.reservations))
    ensures OnlyDepartures(reqs) && Excess(c, ServeAll(l, reqs)) > Excess(c, l)
  {
    var d := ReservedPart(l.reservations);
    var k :| k in d && Amount(c, d[k]) < 0.0;
    var ids := Listed(NegativeKeys(c, d));
    reqs := Releases(ids);
    var l' := ReleaseAll(l, ids);
    ReleasesServed(l, ids);
    ReleaseAllLeaves(l, ids);
    assert ReservedPart(l'.reservations) == NotNegative(c, d);
    ReservesOfPart(l.reservations);
    ReservesOfPart(l'.reservations);
    NegativeLowers(c, d, k);
    Over(c, l.policy, SumOf(c, NotNegative(c, d)), SumOf(c, d));
  }

  /**
    Over all sequences of requests that neither book an order nor change the policy, the amount reserved
    over the cap never grows if and only if the cap is not set, or the non-negative reserved amounts fit
    under it by themselves, or no reserved amount is negative.
  */
  lemma ExcessNeverGrowsIff(c: Component, l: Ledger)
    ensures (forall reqs: seq<Request> :: OnlyDepartures(reqs) ==> Excess(c, ServeAll(l, reqs)) <= Excess(c, l)) <==>
            CapSafe(c, l.policy, ReservedPart(l.reservations))
  {
    if CapSafe(c, l.policy, ReservedPart(l.reservations)) {
      forall reqs: seq<Request> | OnlyDepartures(reqs) ensures Excess(c, ServeAll(l, reqs)) <= Excess(c, l) {
        SafeExcess(c, l, reqs);
      }
    } else {
      var reqs := UnsafeExcess(c, l);
    }
  }

  // ------------------------------------------------------------------ runs that end over an unchanged cap

  /** A policy with a cap on the notional only. */
  predicate CapsNotional(p: Policy) {
    && p.accountId == "a" && p.version != 0 && p.enabled && p.validUntil == 0
    && p.maxNotional > 0.0 && p.maxMargin == 0.0 && p.maxOpenOrders == 0
  }

  /** Two orders whose notional fits together, because the first is negative, but not without it. */
  predicate FitsTogetherOnly(p: Policy, x: Request, y: Request) {
    && x.Reserve? && y.Reserve? && x.account == y.account == "a" && x.now == y.now && x.ttlMs > 0
    && x.riskConfigVersion == y.riskConfigVersion == 0
    && x.intent.orderId != "" && y.intent.orderId != "" && x.intent.orderId != y.intent.orderId
    && NotionalOf(x.intent) <= p.maxNotional - p.safetyBuffer
    && NotionalOf(x.intent) + NotionalOf(y.intent) <= p.maxNotional - p.safetyBuffer < NotionalOf(y.intent)
  }

  /** Two approved orders within the cap; releasing `x` leaves `y` over it, under the same policy. */
  ghost predicate GrowsOver(s: State, p: Policy, x: string, y: string) {
    && s.Keys == {"a"} && s["a"].policy == p && WithinCaps(p, Reserves(s["a"].reservations))
    && ReservedIds(s["a"].reservations) == {x, y}
    && var s' := Step(s, Release("a", x, false)).0;
       s'.Keys == {"a"} && s'["a"].policy == p && !WithinCaps(p, Reserves(s'["a"].reservations))
  }

  lemma UncoversOther(p: Policy, l: Ledger, x: string, y: string)
    requires CapsNotional(p) && l.policy == p && Exact(l) && WithinCaps(p, l.totals)
    requires x != y && x != "" && ReservedIds(l.reservations) == {x, y}
    requires x in l.reservations && y in l.reservations
    requires l.reservations[y].notional > p.maxNotional - p.safetyBuffer
    ensures GrowsOver(map["a" := l], p, x, y)
  {
    var l' := Close(l, x, Released);
    assert x in ReservedIds(l.reservations);
    assert ReservedIds(l'.reservations) == {x, y} - {x};
    OnlyOneReserved(l'.reservations, y);
    assert Step(map["a" := l], Release("a", x, false)).0 == map["a" := l'];
  }

  lemma BothHeld(p: Policy, l0: Ledger, l1: Ledger, l2: Ledger, j: string, x: Reservation, k: string, y: Reservation)
    requires CapsNotional(p) && l0 == Ledger(p, ZERO, map[]) && x.status == y.status == Reserved && j != k && j != ""
    requires x.notional + y.notional <= p.maxNotional - p.safetyBuffer < y.notional
    requires l1 == Book(l0, j, x) && l2 == Book(l1, k, y)
    ensures GrowsOver(map["a" := l2], p, j, k)
  {
    BookedTwiceExactly(l0, l1, l2, j, x, k, y);
    assert ReservedIds(l2.reservations) == {j, k};
    UncoversOther(p, l2, j, k);
  }

  /**
    The excess can grow with no policy change and no booking.  Under a cap on the notional, any two
    orders that fit only together are both approved, each within the cap; releasing the first then
    leaves the second reserved over it.
  */
  lemma ReleaseExceedsCap(p: Policy, x: Request, y: Request)
    requires CapsNotional(p) && FitsTogetherOnly(p, x, y)
    ensures GrowsOver(Run(map[], [Upsert(p), x, y]).0, p, x.intent.orderId, y.intent.orderId)
  {
    var rx, ry := NewReservation(x.intent, x.ttlMs, x.now), NewReservation(y.intent, y.ttlMs, y.now);
    var l0 := Ledger(p, ZERO, map[]);
    var l1 := Book(l0, x.intent.orderId, rx);
    var l2 := Book(l1, y.intent.orderId, ry);
    BookedTwice(p, l0, l1, l2, x, y);
    BothHeld(p, l0, l1, l2, x.intent.orderId, rx, y.intent.orderId, ry);
  }

  /** There are such orders: -100 and then 100 under a cap of 10. */
  lemma SuchOrdersExist()
    ensures var p := Policy("a", 1, 0, 10.0, 0.0, 0.0, 0, 0.0, true);
            var x := Reserve("a", Intent("n", -100.0, 1, 0.0, 0.0), 0, 1, 0, []);
            var y := Reserve("a", Intent("p", 0.0, 0, 100.0, 0.0), 0, 1, 0, []);
            CapsNotional(p) && FitsTogetherOnly(p, x, y)
  {
  }
}
