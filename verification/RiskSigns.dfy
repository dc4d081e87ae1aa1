/**
  What negative prices and margins do to a sweep.  The code does not check their sign; the clamp then
  makes the totals depend on the order in which the hash map hands out the due entries.  Exactly when
  it does is stated per component, for any totals and any amounts.
*/
module RiskSigns {
  import opened RiskLedger
  import opened RiskSweep
  import opened RiskAccounting
  import opened RiskRuns

  datatype Component = Notional | Margin

  function Of(c: Component, t: Totals): real {
    if c == Notional then t.notional else t.margin
  }

  function Amount(c: Component, r: Reservation): real {
    if c == Notional then r.notional else r.margin
  }

  // ------------------------------------------------------------------ sums of one component

  predicate AllReserved(d: Reservations) {
    forall k :: k in d ==> d[k].status == Reserved
  }

  ghost function SumOf(c: Component, d: Reservations): real {
    Of(c, Reserves(d))
  }

  function NotNegative(c: Component, d: Reservations): Reservations {
    map k | k in d && Amount(c, d[k]) >= 0.0 :: d[k]
  }

  lemma SumNone(c: Component)
    ensures SumOf(c, map[]) == 0.0
  {
    SumEmpty({Reserved});
  }

  lemma TakeOut(c: Component, d: Reservations, k: string)
    requires AllReserved(d) && k in d
    ensures SumOf(c, d) == Amount(c, d[k]) + SumOf(c, d - {k})
  {
    SumRemove(d, k, {Reserved});
    WeightByStatus(d[k]);
  }

  lemma {:induction false} SumSigns(c: Component, d: Reservations)
    requires AllReserved(d)
    ensures (forall k :: k in d ==> Amount(c, d[k]) >= 0.0) ==> SumOf(c, d) >= 0.0
    ensures (forall k :: k in d ==> Amount(c, d[k]) < 0.0) && d != map[] ==> SumOf(c, d) < 0.0
    decreases |d|
  {
    SumNone(c);
    if d != map[] {
      var k := AnyKey(d);
      var rest := d - {k};
      assert |rest| < |d|;
      TakeOut(c, d, k);
      SumSigns(c, rest);
    }
  }

  lemma TakeOutNotNegative(c: Component, d: Reservations, k: string)
    requires AllReserved(d) && k in d
    ensures SumOf(c, NotNegative(c, d)) >= 0.0 && SumOf(c, NotNegative(c, d - {k})) >= 0.0
    ensures SumOf(c, NotNegative(c, d)) ==
            (if Amount(c, d[k]) >= 0.0 then Amount(c, d[k]) else 0.0) + SumOf(c, NotNegative(c, d - {k}))
  {
    SumSigns(c, NotNegative(c, d));
    SumSigns(c, NotNegative(c, d - {k}));
    if Amount(c, d[k]) >= 0.0 {
      TakeOut(c, NotNegative(c, d), k);
      assert NotNegative(c, d) - {k} == NotNegative(c, d - {k});
    } else {
      assert NotNegative(c, d) == NotNegative(c, d - {k});
    }
  }

  // ------------------------------------------------------------------ one entry of a sweep

  /** Visiting `k` takes it out of what is due and, if it was due, takes its amount out of the total. */
  lemma Visited(c: Component, l: Ledger, todo: set<string>, k: string, now: int)
    requires k in todo && todo <= l.reservations.Keys
    ensures var d, l' := DueIn(l.reservations, todo, now), ExpireOne(l, k, now);
            && DueIn(l'.reservations, todo - {k}, now) == d - {k}
            && (k !in d ==> d - {k} == d && l' == l)
            && (k in d ==> d[k] == l.reservations[k] && |d - {k}| == |d| - 1
                           && Of(c, l'.totals) == Max0(Of(c, l.totals) - Amount(c, d[k]))
                           && l'.totals.orders == if l.totals.orders > 0 then l.totals.orders - 1 else 0)
  {
    var d := DueIn(l.reservations, todo, now);
    if k in d {
      assert (d - {k}).Keys == d.Keys - {k};
    }
  }

  // ------------------------------------------------------------------ totals that do not depend on the order

  /** A total that covers the non-negative amounts is never clamped. */
  lemma {:induction false} NeverClamped(c: Component, l: Ledger, todo: set<string>, visit: seq<string>, now: int)
    requires todo <= l.reservations.Keys
    requires Of(c, l.totals) >= SumOf(c, NotNegative(c, DueIn(l.reservations, todo, now)))
    ensures Of(c, SweepFrom(l, todo, visit, now).totals) ==
            Of(c, l.totals) - SumOf(c, DueIn(l.reservations, todo, now))
    decreases |todo|
  {
    var d := DueIn(l.reservations, todo, now);
    if todo == {} {
      assert d == map[];
      SumNone(c);
    } else {
      var k := NextKey(todo, visit);
      Visited(c, l, todo, k, now);
      var l' := ExpireOne(l, k, now);
      if k in d {
        TakeOut(c, d, k);
        TakeOutNotNegative(c, d, k);
        assert Of(c, l'.totals) == Of(c, l.totals) - Amount(c, d[k]);
      }
      NeverClamped(c, l', todo - {k}, Rest(visit), now);
    }
  }

  /** Non-negative amounts are subtracted together and clamped once. */
  lemma {:induction false} ClampedOnce(c: Component, l: Ledger, todo: set<string>, visit: seq<string>, now: int)
    requires todo <= l.reservations.Keys
    requires forall k :: k in DueIn(l.reservations, todo, now) ==> Amount(c, l.reservations[k]) >= 0.0
    ensures var d := DueIn(l.reservations, todo, now);
            Of(c, SweepFrom(l, todo, visit, now).totals) ==
            if d == map[] then Of(c, l.totals) else Max0(Of(c, l.totals) - SumOf(c, d))
    decreases |todo|
  {
    var d := DueIn(l.reservations, todo, now);
    if todo == {} {
      assert d == map[];
    } else {
      var k := NextKey(todo, visit);
      Visited(c, l, todo, k, now);
      if k in d {
        TakeOut(c, d, k);
        SumSigns(c, d - {k});
        SumNone(c);
      }
      ClampedOnce(c, ExpireOne(l, k, now), todo - {k}, Rest(visit), now);
    }
  }

  /** A negative total is lifted to at least zero by the first due entry if no due amount exceeds it. */
  lemma {:induction false} LiftedAtOnce(c: Component, l: Ledger, todo: set<string>, visit: seq<string>, now: int)
    requires todo <= l.reservations.Keys && Of(c, l.totals) < 0.0
    requires forall k :: k in DueIn(l.reservations, todo, now) ==> Amount(c, l.reservations[k]) <= Of(c, l.totals)
    ensures Of(c, SweepFrom(l, todo, visit, now).totals) ==
            Of(c, l.totals) - SumOf(c, DueIn(l.reservations, todo, now))
    decreases |todo|
  {
    var d := DueIn(l.reservations, todo, now);
    if todo == {} {
      assert d == map[];
      SumNone(c);
    } else {
      var k := NextKey(todo, visit);
      var l' := ExpireOne(l, k, now);
      Visited(c, l, todo, k, now);
      if k in d {
        TakeOut(c, d, k);
        assert NotNegative(c, d - {k}) == map[];
        SumNone(c);
        NeverClamped(c, l', todo - {k}, Rest(visit), now);
      } else {
        LiftedAtOnce(c, l', todo - {k}, Rest(visit), now);
      }
    }
  }

  /** `n` clamped subtractions of the same amount. */
  function Repeated(t: real, a: real, n: nat): real
    decreases n
  {
    if n == 0 then t else Repeated(Max0(t - a), a, n - 1)
  }

  lemma {:induction false} EqualAmounts(c: Component, l: Ledger, todo: set<string>, visit: seq<string>, now: int, a: real)
    requires todo <= l.reservations.Keys
    requires forall k :: k in DueIn(l.reservations, todo, now) ==> Amount(c, l.reservations[k]) == a
    ensures Of(c, SweepFrom(l, todo, visit, now).totals) ==
            Repeated(Of(c, l.totals), a, |DueIn(l.reservations, todo, now)|)
    decreases |todo|
  {
    if todo == {} {
      assert DueIn(l.reservations, todo, now) == map[];
    } else {
      var k := NextKey(todo, visit);
      Visited(c, l, todo, k, now);
      EqualAmounts(c, ExpireOne(l, k, now), todo - {k}, Rest(visit), now, a);
    }
  }

  lemma {:induction false} OrdersLeft(l: Ledger, todo: set<string>, visit: seq<string>, now: int)
    requires todo <= l.reservations.Keys
    ensures var n := |DueIn(l.reservations, todo, now)|;
            SweepFrom(l, todo, visit, now).totals.orders == if l.totals.orders >= n then l.totals.orders - n else 0
    decreases |todo|
  {
    if todo == {} {
      assert DueIn(l.reservations, todo, now) == map[];
    } else {
      var k := NextKey(todo, visit);
      Visited(Notional, l, todo, k, now);
      OrdersLeft(ExpireOne(l, k, now), todo - {k}, Rest(visit), now);
    }
  }

  // ------------------------------------------------------------------ exactly when the order matters

  ghost function DueNow(l: Ledger, now: int): Reservations {
    DueIn(l.reservations, l.reservations.Keys, now)
  }

  /**
    No due amount is negative; or the total covers the non-negative ones, so nothing is ever clamped;
    or, for a negative total, no due amount exceeds it; or the due amounts are all the same.
  */
  ghost predicate OrderSafe(c: Component, total: real, due: Reservations) {
    || (forall k :: k in due ==> Amount(c, due[k]) >= 0.0)
    || total >= SumOf(c, NotNegative(c, due))
    || (total < 0.0 && forall k :: k in due ==> Amount(c, due[k]) <= total)
    || (forall j, k :: j in due && k in due ==> Amount(c, due[j]) == Amount(c, due[k]))
  }

  lemma SafeOrder(c: Component, l: Ledger, v0: seq<string>, v1: seq<string>, now: int)
    requires OrderSafe(c, Of(c, l.totals), DueNow(l, now))
    ensures Of(c, Sweep(l, v0, now).totals) == Of(c, Sweep(l, v1, now).totals)
  {
    var keys, d := l.reservations.Keys, DueNow(l, now);
    if forall k :: k in d ==> Amount(c, d[k]) >= 0.0 {
      ClampedOnce(c, l, keys, v0, now);
      ClampedOnce(c, l, keys, v1, now);
    } else if Of(c, l.totals) >= SumOf(c, NotNegative(c, d)) {
      NeverClamped(c, l, keys, v0, now);
      NeverClamped(c, l, keys, v1, now);
    } else if Of(c, l.totals) < 0.0 && forall k :: k in d ==> Amount(c, d[k]) <= Of(c, l.totals) {
      LiftedAtOnce(c, l, keys, v0, now);
      LiftedAtOnce(c, l, keys, v1, now);
    } else {
      var j :| j in d;
      EqualAmounts(c, l, keys, v0, now, Amount(c, d[j]));
      EqualAmounts(c, l, keys, v1, now, Amount(c, d[j]));
    }
  }

  /** Some order visits all of `first` before everything else. */
  lemma {:induction false} VisitFirst(l: Ledger, todo: set<string>, first: set<string>, now: int) returns (visit: seq<string>)
    requires first <= todo <= l.reservations.Keys
    ensures first <= SweepFrom(l, first, [], now).reservations.Keys == l.reservations.Keys
    ensures SweepFrom(l, todo, visit, now) == SweepFrom(SweepFrom(l, first, [], now), todo - first, [], now)
    decreases |first|
  {
    SweepFromEntries(l, first, [], now);
    if first == {} {
      visit := [];
      assert todo - first == todo;
    } else {
      var k := NextKey(first, []);
      var rest := VisitFirst(ExpireOne(l, k, now), todo - {k}, first - {k}, now);
      visit := [k] + rest;
      assert Rest(visit) == rest && NextKey(todo, visit) == k;
      assert (todo - {k}) - (first - {k}) == todo - first;
    }
  }

  /** After `first` has been visited, what else is due is as before. */
  lemma StillDue(l: Ledger, first: set<string>, now: int)
    requires first <= l.reservations.Keys
    ensures var l1, others := SweepFrom(l, first, [], now), l.reservations.Keys - first;
            && l1.reservations.Keys == l.reservations.Keys
            && DueIn(l1.reservations, others, now) == DueIn(l.reservations, others, now)
  {
    SweepFromEntries(l, first, [], now);
  }

  /** From a negative total, negative amounts lift it by less than their sum. */
  lemma {:induction false} LiftedByLess(c: Component, l: Ledger, todo: set<string>, visit: seq<string>, now: int)
    requires todo <= l.reservations.Keys && Of(c, l.totals) < 0.0 && DueIn(l.reservations, todo, now) != map[]
    requires forall k :: k in DueIn(l.reservations, todo, now) ==> Amount(c, l.reservations[k]) < 0.0
    ensures Of(c, SweepFrom(l, todo, visit, now).totals) < -SumOf(c, DueIn(l.reservations, todo, now))
    decreases |todo|
  {
    var d := DueIn(l.reservations, todo, now);
    assert todo != {};
    var k := NextKey(todo, visit);
    var l' := ExpireOne(l, k, now);
    Visited(c, l, todo, k, now);
    if k in d {
      TakeOut(c, d, k);
      assert NotNegative(c, d - {k}) == map[];
      SumNone(c);
      NeverClamped(c, l', todo - {k}, Rest(visit), now);
    } else {
      LiftedByLess(c, l', todo - {k}, Rest(visit), now);
    }
  }

  function NegativeKeys(c: Component, d: Reservations): set<string> {
    set k | k in d && Amount(c, d[k]) < 0.0
  }

  /** Due amounts of both signs and a total that does not cover the others: negative ones last leaves exactly their sum. */
  lemma NegativesLast(c: Component, l: Ledger, now: int) returns (visit: seq<string>)
    requires var d := DueNow(l, now);
             && NotNegative(c, d) != map[] && Of(c, l.totals) < SumOf(c, NotNegative(c, d))
    ensures var negatives := NegativeKeys(c, DueNow(l, now));
            Of(c, Sweep(l, visit, now).totals) == -SumOf(c, DueIn(l.reservations, negatives, now))
  {
    var keys, d := l.reservations.Keys, DueNow(l, now);
    var negatives := NegativeKeys(c, d);
    var first := keys - negatives;
    visit := VisitFirst(l, keys, first, now);
    var l1 := SweepFrom(l, first, [], now);
    StillDue(l, first, now);
    assert keys - first == negatives;
    assert DueIn(l.reservations, first, now) == NotNegative(c, d);
    ClampedOnce(c, l, first, [], now);
    assert NotNegative(c, DueIn(l1.reservations, negatives, now)) == map[];
    SumNone(c);
    NeverClamped(c, l1, negatives, [], now);
  }

  /** Negative ones first leaves less than that. */
  lemma NegativesFirst(c: Component, l: Ledger, now: int) returns (visit: seq<string>)
    requires var d := DueNow(l, now);
             && NegativeKeys(c, d) != {} && NotNegative(c, d) != map[]
             && Of(c, l.totals) < SumOf(c, NotNegative(c, d))
    ensures var negatives := NegativeKeys(c, DueNow(l, now));
            Of(c, Sweep(l, visit, now).totals) < -SumOf(c, DueIn(l.reservations, negatives, now))
  {
    var keys, d := l.reservations.Keys, DueNow(l, now);
    var negatives := NegativeKeys(c, d);
    var dn := DueIn(l.reservations, negatives, now);
    visit := VisitFirst(l, keys, negatives, now);
    var l1 := SweepFrom(l, negatives, [], now);
    StillDue(l, negatives, now);
    assert DueIn(l.reservations, keys - negatives, now) == NotNegative(c, d);
    var k :| k in negatives;
    assert k in dn;
    SumSigns(c, dn);
    SumSigns(c, NotNegative(c, d));
    if Of(c, l.totals) < 0.0 {
      LiftedByLess(c, l, negatives, [], now);
    } else {
      assert NotNegative(c, dn) == map[];
      SumNone(c);
      NeverClamped(c, l, negatives, [], now);
    }
    ClampedOnce(c, l1, keys - negatives, [], now);
  }

  /** With only negative due amounts, what is left tells how the total and the first amount compare. */
  lemma StartingWith(c: Component, l: Ledger, k: string, now: int) returns (visit: seq<string>)
    requires k in DueNow(l, now) && NotNegative(c, DueNow(l, now)) == map[]
    ensures var d := DueNow(l, now);
            Of(c, Sweep(l, visit, now).totals) ==
            Max0(Of(c, l.totals) - Amount(c, d[k])) + Amount(c, d[k]) - SumOf(c, d)
  {
    var keys, d := l.reservations.Keys, DueNow(l, now);
    visit := VisitFirst(l, keys, {k}, now);
    var l1 := ExpireOne(l, k, now);
    Visited(c, l, keys, k, now);
    assert SweepFrom(l, {k}, [], now) == l1 by {
      assert {k} - {k} == {};
      assert SweepFrom(l, {k}, [], now) == SweepFrom(l1, {}, [], now);
    }
    TakeOut(c, d, k);
    assert NotNegative(c, d - {k}) == map[] by {
      assert forall j :: j in NotNegative(c, d - {k}) ==> j in NotNegative(c, d);
    }
    SumNone(c);
    NeverClamped(c, l1, keys - {k}, [], now);
  }

  lemma UnsafeOrder(c: Component, l: Ledger, now: int) returns (v0: seq<string>, v1: seq<string>)
    requires !OrderSafe(c, Of(c, l.totals), DueNow(l, now))
    ensures Of(c, Sweep(l, v0, now).totals) != Of(c, Sweep(l, v1, now).totals)
  {
    var d := DueNow(l, now);
    if NotNegative(c, d) != map[] {
      var k :| k in d && Amount(c, d[k]) < 0.0;
      assert k in NegativeKeys(c, d);
      v0 := NegativesLast(c, l, now);
      v1 := NegativesFirst(c, l, now);
    } else {
      SumNone(c);
      var x :| x in d && Amount(c, d[x]) > Of(c, l.totals);
      var y :| y in d && Amount(c, d[y]) != Amount(c, d[x]);
      assert x !in NotNegative(c, d) && y !in NotNegative(c, d);
      v0 := StartingWith(c, l, x, now);
      v1 := StartingWith(c, l, y, now);
    }
  }

  /**
    A sweep's result does not depend on the hash map's order if and only if notional and margin are
    each order-safe, whatever the totals and the amounts.
  */
  lemma OrderIrrelevantIff(l: Ledger, now: int)
    ensures (forall v0: seq<string>, v1: seq<string> :: Sweep(l, v0, now) == Sweep(l, v1, now)) <==>
            forall c: Component :: OrderSafe(c, Of(c, l.totals), DueNow(l, now))
  {
    if forall c: Component :: OrderSafe(c, Of(c, l.totals), DueNow(l, now)) {
      forall v0: seq<string>, v1: seq<string> ensures Sweep(l, v0, now) == Sweep(l, v1, now) {
        SafeOrder(Notional, l, v0, v1, now);
        SafeOrder(Margin, l, v0, v1, now);
        OrdersLeft(l, l.reservations.Keys, v0, now);
        OrdersLeft(l, l.reservations.Keys, v1, now);
        SweepEntries(l, v0, now);
        SweepEntries(l, v1, now);
      }
    } else {
      var c: Component :| !OrderSafe(c, Of(c, l.totals), DueNow(l, now));
      var v0, v1 := UnsafeOrder(c, l, now);
      assert Sweep(l, v0, now) != Sweep(l, v1, now);
    }
  }

  // ------------------------------------------------------------------ two sweeps, whatever the signs

  /** Visiting entries that are not due changes nothing, so an order can leave them out. */
  lemma {:induction false} LeaveOut(l: Ledger, todo: set<string>, idle: set<string>, visit: seq<string>, now: int)
    returns (visit': seq<string>)
    requires idle <= todo <= l.reservations.Keys && forall k :: k in idle ==> !Due(l.reservations[k], now)
    ensures SweepFrom(l, todo, visit, now) == SweepFrom(l, todo - idle, visit', now)
    decreases |todo|
  {
    if todo == {} {
      visit' := visit;
      assert todo - idle == todo;
    } else {
      var k := NextKey(todo, visit);
      var l' := ExpireOne(l, k, now);
      var rest := LeaveOut(l', todo - {k}, idle - {k}, Rest(visit), now);
      assert (todo - {k}) - (idle - {k}) == (todo - idle) - {k};
      if k in idle {
        visit' := rest;
        assert (todo - idle) - {k} == todo - idle;
      } else {
        visit' := [k] + rest;
        assert Rest(visit') == rest && NextKey(todo - idle, visit') == k;
      }
    }
  }

  function DueKeys(l: Ledger, todo: set<string>, now: int): set<string> {
    set k | k in todo && k in l.reservations && Due(l.reservations[k], now)
  }

  lemma DueKeysStep(l: Ledger, todo: set<string>, all: set<string>, k: string, now: int)
    requires k in todo && todo <= all <= l.reservations.Keys
    ensures var l' := ExpireOne(l, k, now);
            && l'.reservations.Keys == l.reservations.Keys
            && if Due(l.reservations[k], now)
               then (all - {k}) - DueKeys(l', todo - {k}, now) == all - DueKeys(l, todo, now)
               else DueKeys(l', todo - {k}, now) == DueKeys(l, todo, now)
  {
  }

  /** A sweep at a later reading can begin with all that an earlier one did. */
  lemma {:induction false} BeginWith(l: Ledger, todo: set<string>, all: set<string>, visit: seq<string>,
                                     t1: int, t2: int, more: seq<string>)
    returns (visit': seq<string>)
    requires todo <= all <= l.reservations.Keys && t1 <= t2
    ensures SweepFrom(l, todo, visit, t1).reservations.Keys == l.reservations.Keys
    ensures SweepFrom(l, all, visit', t2) ==
            SweepFrom(SweepFrom(l, todo, visit, t1), all - DueKeys(l, todo, t1), more, t2)
    decreases |todo|
  {
    SweepFromEntries(l, todo, visit, t1);
    if todo == {} {
      visit' := more;
      assert all - DueKeys(l, todo, t1) == all;
    } else {
      var k := NextKey(todo, visit);
      var l' := ExpireOne(l, k, t1);
      DueKeysStep(l, todo, all, k, t1);
      if Due(l.reservations[k], t1) {
        var rest := BeginWith(l', todo - {k}, all - {k}, Rest(visit), t1, t2, more);
        visit' := [k] + rest;
        assert Rest(visit') == rest && NextKey(all, visit') == k;
      } else {
        visit' := BeginWith(l', todo - {k}, all, Rest(visit), t1, t2, more);
      }
    }
  }

  /**
    Sweeping at `t1` and then at `t2`, whatever the amounts, is one sweep at the later of the two in some
    order of the hash map.
  */
  lemma SweepTwiceInSomeOrder(l: Ledger, visit1: seq<string>, t1: int, visit2: seq<string>, t2: int)
    returns (visit: seq<string>)
    ensures Sweep(Sweep(l, visit1, t1), visit2, t2) == Sweep(l, visit, if t1 <= t2 then t2 else t1)
  {
    var keys, s1 := l.reservations.Keys, Sweep(l, visit1, t1);
    SweepEntries(l, visit1, t1);
    if t1 <= t2 {
      var gone := DueKeys(l, keys, t1);
      var more := LeaveOut(s1, keys, gone, visit2, t2);
      visit := BeginWith(l, keys, keys, visit1, t1, t2, more);
    } else {
      visit := visit1;
      SweepFromNothing(s1, s1.reservations.Keys, visit2, t2);
    }
  }

  // ------------------------------------------------------------------ runs with a negative price

  /** A policy that caps nothing. */
  predicate Uncapped(p: Policy) {
    && p.accountId == "a" && p.version != 0 && p.enabled && p.validUntil == 0
    && p.maxNotional == 0.0 && p.maxMargin == 0.0 && p.maxOpenOrders == 0
  }

  /** Two orders due at the same time, the second one negative and no larger than the first. */
  predicate OppositeSigns(x: Request, y: Request) {
    && x.Reserve? && y.Reserve? && x.account == y.account == "a" && x.now == y.now && x.ttlMs == y.ttlMs > 0
    && x.riskConfigVersion == y.riskConfigVersion == 0
    && x.intent.orderId != "" && y.intent.orderId != "" && x.intent.orderId != y.intent.orderId
    && NotionalOf(y.intent) < 0.0 <= NotionalOf(x.intent) + NotionalOf(y.intent)
  }

  /** Two bookings on a fresh ledger, whatever their amounts. */
  lemma BookedTwice(p: Policy, l0: Ledger, l1: Ledger, l2: Ledger, x: Request, y: Request)
    requires l0 == Ledger(p, ZERO, map[]) && p.accountId == "a" && p.version != 0 && x.Reserve? && y.Reserve? && x.account == y.account == "a"
    requires x.intent.orderId != "" && y.intent.orderId != "" && x.intent.orderId != y.intent.orderId
    requires x.ttlMs > 0 && x.now == y.now
    requires PolicyRefusal(p, x.riskConfigVersion, x.now) == PolicyRefusal(p, y.riskConfigVersion, y.now) == NoReason
    requires CapRefusal(p, ZERO, NotionalOf(x.intent), x.intent.estimatedMargin) == NoReason
    requires CapRefusal(p, l1.totals, NotionalOf(y.intent), y.intent.estimatedMargin) == NoReason
    requires l1 == Book(l0, x.intent.orderId, NewReservation(x.intent, x.ttlMs, x.now))
    requires l2 == Book(l1, y.intent.orderId, NewReservation(y.intent, y.ttlMs, y.now))
    ensures Run(map[], [Upsert(p), x, y]).0 == map["a" := l2]
  {
    RunOfThree(map[], Upsert(p), x, y);
    assert Step(map[], Upsert(p)).0 == map["a" := l0];
    BooksNew("a", l0, x);
    BooksNew("a", l1, y);
  }

  lemma BookedTwiceExactly(l0: Ledger, l1: Ledger, l2: Ledger, j: string, x: Reservation, k: string, y: Reservation)
    requires l0.totals == ZERO && l0.reservations == map[] && j != k && x.status == y.status == Reserved
    requires l1 == Book(l0, j, x) && l2 == Book(l1, k, y)
    ensures Exact(l2)
  {
    SumEmpty({Reserved});
    BookKeeps(l0, j, x);
    BookKeeps(l1, k, y);
  }

  /** The ledger after both are booked. */
  lemma OppositeBooked(p: Policy, x: Request, y: Request) returns (l: Ledger)
    requires Uncapped(p) && OppositeSigns(x, y)
    ensures Run(map[], [Upsert(p), x, y]).0 == map["a" := l] && Exact(l)
    ensures l.reservations == map[x.intent.orderId := NewReservation(x.intent, x.ttlMs, x.now),
                                  y.intent.orderId := NewReservation(y.intent, y.ttlMs, y.now)]
    ensures l.totals.notional == NotionalOf(x.intent) + NotionalOf(y.intent)
  {
    var rx, ry := NewReservation(x.intent, x.ttlMs, x.now), NewReservation(y.intent, y.ttlMs, y.now);
    var l0 := Ledger(p, ZERO, map[]);
    var l1 := Book(l0, x.intent.orderId, rx);
    l := Book(l1, y.intent.orderId, ry);
    BookedTwice(p, l0, l1, l, x, y);
    BookedTwiceExactly(l0, l1, l, x.intent.orderId, rx, y.intent.orderId, ry);
  }

  /** Two entries due, one of them negative and the other more than the total: the order matters. */
  lemma TwoDueMatter(l: Ledger, p: string, n: string, now: int) returns (v0: seq<string>, v1: seq<string>)
    requires p in l.reservations && n in l.reservations && p != n
    requires DueNow(l, now) == map[p := l.reservations[p], n := l.reservations[n]]
    requires l.reservations[n].notional < 0.0 <= l.totals.notional < l.reservations[p].notional
    ensures Sweep(l, v0, now) != Sweep(l, v1, now)
  {
    var d := DueNow(l, now);
    var notNegative := NotNegative(Notional, d);
    assert notNegative == map[p := l.reservations[p]];
    TakeOut(Notional, notNegative, p);
    assert notNegative - {p} == map[];
    SumNone(Notional);
    assert d[n] == l.reservations[n] && d[p] == l.reservations[p];
    v0, v1 := UnsafeOrder(Notional, l, now);
  }

  lemma ListingSweeps(l: Ledger, now: int, visit: seq<string>)
    ensures Step(map["a" := l], ListActive("a", now, visit)).0["a"] == Sweep(l, visit, now)
  {
  }

  /** What the next sweep leaves depends on the order in which it visits the account's entries. */
  ghost predicate OrderMatters(s: State, now: int) {
    exists v0: seq<string>, v1: seq<string> ::
      Step(s, ListActive("a", now, v0)).0 != Step(s, ListActive("a", now, v1)).0
  }

  lemma SweepsDiffer(l: Ledger, j: string, k: string, now: int)
    requires j in l.reservations && k in l.reservations && j != k
    requires DueNow(l, now) == map[j := l.reservations[j], k := l.reservations[k]]
    requires l.reservations[k].notional < 0.0 <= l.totals.notional < l.reservations[j].notional
    ensures OrderMatters(map["a" := l], now)
  {
    var v0, v1 := TwoDueMatter(l, j, k, now);
    ListingSweeps(l, now, v0);
    ListingSweeps(l, now, v1);
    assert Step(map["a" := l], ListActive("a", now, v0)).0 != Step(map["a" := l], ListActive("a", now, v1)).0;
  }

  /** Runs after which the next sweep leaves different totals for different orders of the hash map. */
  lemma NegativeAmountMakesOrderMatter(p: Policy, x: Request, y: Request)
    requires Uncapped(p) && OppositeSigns(x, y)
    ensures OrderMatters(Run(map[], [Upsert(p), x, y]).0, x.now + x.ttlMs)
  {
    var now, j, k := x.now + x.ttlMs, x.intent.orderId, y.intent.orderId;
    var l := OppositeBooked(p, x, y);
    assert DueNow(l, now) == map[j := l.reservations[j], k := l.reservations[k]];
    SweepsDiffer(l, j, k, now);
  }

  /** Of two reserved entries, releasing the other leaves a negative one under totals of at least zero. */
  lemma LeavesNegative(l: Ledger, p: string, n: string)
    requires p != n && ReservedIds(l.reservations) == {p, n}
    requires p in l.reservations && n in l.reservations && l.reservations[n].notional < 0.0
    ensures !Exact(Close(l, p, Released))
  {
    var l' := Close(l, p, Released);
    assert ReservedIds(l'.reservations) == {p, n} - {p};
    OnlyOneReserved(l'.reservations, n);
  }

  lemma ReleaseLeavesNegative(s: State, l: Ledger, p: string, n: string)
    requires s == map["a" := l] && Exact(l) && p != "" && p != n && ReservedIds(l.reservations) == {p, n}
    requires p in l.reservations && n in l.reservations && l.reservations[n].notional < 0.0
    ensures s.Keys == {"a"} && Exact(s["a"])
    ensures var s' := Step(s, Release("a", p, false)).0; s'.Keys == {"a"} && !Exact(s'["a"])
  {
    assert p in ReservedIds(l.reservations);
    LeavesNegative(l, p, n);
  }

  /** Runs after which releasing one order leaves totals that are not the sums over the reserved entries. */
  lemma NegativeAmountBreaksTotals(p: Policy, x: Request, y: Request)
    requires Uncapped(p) && OppositeSigns(x, y)
    ensures var s := Run(map[], [Upsert(p), x, y]).0;
            && s.Keys == {"a"} && Exact(s["a"])
            && var s' := Step(s, Release("a", x.intent.orderId, false)).0;
               s'.Keys == {"a"} && !Exact(s'["a"])
  {
    var l := OppositeBooked(p, x, y);
    assert ReservedIds(l.reservations) == {x.intent.orderId, y.intent.orderId};
    ReleaseLeavesNegative(Run(map[], [Upsert(p), x, y]).0, l, x.intent.orderId, y.intent.orderId);
  }

  /** There are such orders: 5 and then -5. */
  lemma OppositeOrdersExist()
    ensures Uncapped(Policy("a", 1, 0, 0.0, 0.0, 0.0, 0, 0.0, true))
    ensures OppositeSigns(Reserve("a", Intent("p", 0.0, 0, 5.0, 0.0), 0, 1, 0, []),
                          Reserve("a", Intent("n", -5.0, 1, 0.0, 0.0), 0, 1, 0, []))
  {
  }
}
