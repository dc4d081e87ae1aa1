/**
  What the running totals mean: after every step of every run they are the sums over the entries
  still reserved and no clamp ever fires, as long as no negative amount is booked; and exactly when
  they stay exact with negative amounts.
*/
module RiskAccounting {
  import opened RiskLedger
  import opened RiskSweep

  /** The cached totals are the sums over the reserved entries. */
  ghost predicate Exact(l: Ledger) {
    l.totals == Reserves(l.reservations)
  }

  ghost predicate OrdersExact(l: Ledger) {
    l.totals.orders == Reserves(l.reservations).orders
  }

  ghost predicate Good(l: Ledger) {
    Exact(l) && NonNegative(l.reservations)
  }

  function AmountsOf(r: Reservation): Totals {
    Totals(r.notional, r.margin, 1)
  }

  /** The requests that can only book non-negative amounts. */
  predicate BooksNonNegative(req: Request) {
    req.Reserve? ==>
      (req.intent.estimatedNotional > 0.0 || req.intent.price >= 0.0) && req.intent.estimatedMargin >= 0.0
  }

  lemma BooksNonNegativeNotional(i: Intent)
    requires i.estimatedNotional > 0.0 || i.price >= 0.0
    ensures NotionalOf(i) >= 0.0
  {
  }

  // ------------------------------------------------------------------ one entry at a time

  lemma WeightByStatus(r: Reservation)
    ensures Weight(r, {Reserved}) == if r.status == Reserved then AmountsOf(r) else ZERO
  {
  }

  lemma CloseSums(l: Ledger, k: string, status: Status)
    requires k in l.reservations && l.reservations[k].status == Reserved && status != Reserved
    ensures Reserves(l.reservations) ==
            Plus(AmountsOf(l.reservations[k]), Reserves(Close(l, k, status).reservations))
  {
    var m, r := l.reservations, l.reservations[k];
    SumRemove(m, k, {Reserved});
    SumPut(m, k, r.(status := status), {Reserved});
    WeightByStatus(r);
    WeightByStatus(r.(status := status));
    PlusAlgebra(Reserves(m - {k}), ZERO, ZERO);
  }

  /** On a good ledger both subtractions stay non-negative and the order count is positive. */
  lemma ClampNeverFires(l: Ledger, k: string)
    requires Good(l) && k in l.reservations && l.reservations[k].status == Reserved
    ensures l.totals.notional - l.reservations[k].notional >= 0.0
    ensures l.totals.margin - l.reservations[k].margin >= 0.0
    ensures l.totals.orders > 0
  {
    CloseSums(l, k, Expired);
    SumNonNegative(Close(l, k, Expired).reservations, {Reserved});
  }

  lemma CloseKeeps(l: Ledger, k: string, status: Status)
    requires k in l.reservations && l.reservations[k].status == Reserved && status != Reserved
    ensures OrdersExact(l) ==> OrdersExact(Close(l, k, status))
    ensures Good(l) ==> Good(Close(l, k, status))
  {
    CloseSums(l, k, status);
    if Good(l) {
      ClampNeverFires(l, k);
    }
  }

  lemma {:induction false} SweepFromKeeps(l: Ledger, todo: set<string>, visit: seq<string>, now: int)
    requires todo <= l.reservations.Keys
    ensures OrdersExact(l) ==> OrdersExact(SweepFrom(l, todo, visit, now))
    ensures Good(l) ==> Good(SweepFrom(l, todo, visit, now))
    decreases |todo|
  {
    if todo != {} {
      var k := NextKey(todo, visit);
      if Due(l.reservations[k], now) {
        CloseKeeps(l, k, Expired);
      }
      SweepFromKeeps(ExpireOne(l, k, now), todo - {k}, Rest(visit), now);
    }
  }

  lemma BookKeeps(l: Ledger, orderId: string, r: Reservation)
    requires orderId !in l.reservations && r.status == Reserved
    ensures OrdersExact(l) ==> OrdersExact(Book(l, orderId, r))
    ensures Exact(l) ==> Exact(Book(l, orderId, r))
    ensures Good(l) && r.notional >= 0.0 && r.margin >= 0.0 ==> Good(Book(l, orderId, r))
  {
    SumAdd(l.reservations, orderId, r, {Reserved});
  }

  // ------------------------------------------------------------------ every request, every run

  lemma ServeKeeps(l: Ledger, req: Request)
    ensures OrdersExact(l) ==> OrdersExact(Serve(l, req).0)
    ensures Good(l) && BooksNonNegative(req) ==> Good(Serve(l, req).0)
  {
    match req
    case Reserve(_, i, _, ttlMs, now, visit) =>
      SweepFromKeeps(l, l.reservations.Keys, visit, now);
      var s := Sweep(l, visit, now);
      if i.orderId !in s.reservations {
        BookKeeps(s, i.orderId, NewReservation(i, ttlMs, now));
        if BooksNonNegative(req) {
          BooksNonNegativeNotional(i);
        }
      }
    case Query(_, _, now, visit) => SweepFromKeeps(l, l.reservations.Keys, visit, now);
    case ListActive(_, now, visit) => SweepFromKeeps(l, l.reservations.Keys, visit, now);
    case Release(_, orderId, settled) =>
      if ReleaseIn(l, orderId, settled) != l {
        CloseKeeps(l, orderId, if settled then Settled else Released);
      }
    case _ =>
  }

  ghost predicate GoodAt(s: State, account: string) {
    account in s ==> Good(s[account])
  }

  ghost predicate OrdersExactAt(s: State, account: string) {
    account in s ==> OrdersExact(s[account])
  }

  /** The requests for the account book only non-negative amounts; others may book what they like. */
  predicate AccountBooksNonNegative(reqs: seq<Request>, account: string) {
    forall i :: 0 <= i < |reqs| && AccountOf(reqs[i]) == account ==> BooksNonNegative(reqs[i])
  }

  lemma StepKeeps(s: State, req: Request, account: string)
    ensures OrdersExactAt(s, account) ==> OrdersExactAt(Step(s, req).0, account)
    ensures GoodAt(s, account) && (AccountOf(req) == account ==> BooksNonNegative(req)) ==>
              GoodAt(Step(s, req).0, account)
  {
    if AccountOf(req) == account {
      ServeKeeps(if account in s then s[account] else EMPTY_LEDGER, req);
    }
  }

  /**
    Exact accounting.  From the empty service, after any run (hence after every step of every run)
    an account's open-order count is the number of its reserved entries, and if no request for it books
    a negative amount its reserved notional and margin are the sums over its reserved entries.
  */
  lemma {:induction false} ExactAccounting(s: State, reqs: seq<Request>, account: string)
    ensures OrdersExactAt(s, account) ==> OrdersExactAt(Run(s, reqs).0, account)
    ensures GoodAt(s, account) && AccountBooksNonNegative(reqs, account) ==> GoodAt(Run(s, reqs).0, account)
    decreases |reqs|
  {
    if reqs != [] {
      StepKeeps(s, reqs[0], account);
      ExactAccounting(Step(s, reqs[0]).0, reqs[1..], account);
    }
  }

  // ------------------------------------------------------------------ whatever the signs

  /** The cached totals err only upwards, and the order count not at all. */
  ghost predicate Covers(l: Ledger) {
    && l.totals.notional >= Reserves(l.reservations).notional
    && l.totals.margin >= Reserves(l.reservations).margin
    && OrdersExact(l)
  }

  lemma CloseCovers(l: Ledger, k: string, status: Status)
    requires Covers(l) && k in l.reservations && l.reservations[k].status == Reserved && status != Reserved
    ensures Covers(Close(l, k, status))
  {
    CloseSums(l, k, status);
  }

  lemma {:induction false} SweepFromCovers(l: Ledger, todo: set<string>, visit: seq<string>, now: int)
    requires Covers(l) && todo <= l.reservations.Keys
    ensures Covers(SweepFrom(l, todo, visit, now))
    decreases |todo|
  {
    if todo != {} {
      var k := NextKey(todo, visit);
      if Due(l.reservations[k], now) {
        CloseCovers(l, k, Expired);
      }
      SweepFromCovers(ExpireOne(l, k, now), todo - {k}, Rest(visit), now);
    }
  }

  lemma BookCovers(l: Ledger, orderId: string, r: Reservation)
    requires Covers(l) && orderId !in l.reservations && r.status == Reserved
    ensures Covers(Book(l, orderId, r))
  {
    SumAdd(l.reservations, orderId, r, {Reserved});
    WeightByStatus(r);
  }

  lemma ServeCovers(l: Ledger, req: Request)
    requires Covers(l)
    ensures Covers(Serve(l, req).0)
  {
    match req
    case Reserve(_, i, _, ttlMs, now, visit) =>
      SweepFromCovers(l, l.reservations.Keys, visit, now);
      var s := Sweep(l, visit, now);
      if i.orderId !in s.reservations {
        BookCovers(s, i.orderId, NewReservation(i, ttlMs, now));
      }
    case Query(_, _, now, visit) => SweepFromCovers(l, l.reservations.Keys, visit, now);
    case ListActive(_, now, visit) => SweepFromCovers(l, l.reservations.Keys, visit, now);
    case Release(_, orderId, settled) =>
      if ReleaseIn(l, orderId, settled) != l {
        CloseCovers(l, orderId, if settled then Settled else Released);
      }
    case _ =>
  }

  ghost predicate CoversAt(s: State, account: string) {
    account in s ==> Covers(s[account])
  }

  /**
    Whatever the signs of prices and margins, after every run an account's reserved notional and margin
    are at least the sums over its reserved entries, and its order count is their number.
  */
  lemma {:induction false} TotalsErrUpwards(s: State, reqs: seq<Request>, account: string)
    requires CoversAt(s, account)
    ensures CoversAt(Run(s, reqs).0, account)
    decreases |reqs|
  {
    if reqs != [] {
      var s1 := Step(s, reqs[0]).0;
      if AccountOf(reqs[0]) == account {
        SumEmpty({Reserved});
        ServeCovers(if account in s then s[account] else EMPTY_LEDGER, reqs[0]);
      }
      TotalsErrUpwards(s1, reqs[1..], account);
    }
  }

  // ------------------------------------------------------------------ exactly when it stays exact

  /** Releases the given orders one after the other. */
  function ReleaseAll(l: Ledger, ids: seq<string>): Ledger
    decreases |ids|
  {
    if ids == [] then l else ReleaseAll(ReleaseIn(l, ids[0], false), ids[1..])
  }

  function ReservedIds(m: Reservations): set<string> {
    set k | k in m && m[k].status == Reserved
  }

  predicate ReservedNonNegative(m: Reservations) {
    forall k :: k in ReservedIds(m) ==> m[k].notional >= 0.0 && m[k].margin >= 0.0
  }

  lemma {:induction false} ReservesNonNegative(m: Reservations)
    requires ReservedNonNegative(m)
    ensures AtMost(ZERO, Reserves(m))
    decreases |m|
  {
    if m != map[] {
      var k := AnyKey(m);
      SumRemove(m, k, {Reserved});
      assert forall j :: j in ReservedIds(m - {k}) ==> j in ReservedIds(m);
      ReservesNonNegative(m - {k});
    }
  }

  lemma {:induction false} NothingReserved(m: Reservations)
    requires ReservedIds(m) == {}
    ensures Reserves(m) == ZERO
    decreases |m|
  {
    if m != map[] {
      var k := AnyKey(m);
      SumRemove(m, k, {Reserved});
      WeightByStatus(m[k]);
      assert k !in ReservedIds(m);
      assert forall j :: j in ReservedIds(m - {k}) ==> j in ReservedIds(m);
      NothingReserved(m - {k});
      PlusAlgebra(ZERO, ZERO, ZERO);
    }
  }

  ghost predicate Robust(l: Ledger) {
    ReservedNonNegative(l.reservations) || |ReservedIds(l.reservations)| <= 1
  }

  /** Closing one reserved entry keeps exact totals exact. */
  lemma RobustClose(l: Ledger, id: string, status: Status)
    requires Exact(l) && Robust(l) && id in ReservedIds(l.reservations) && status != Reserved
    ensures Exact(Close(l, id, status)) && Robust(Close(l, id, status))
  {
    var m, m' := l.reservations, Close(l, id, status).reservations;
    assert ReservedIds(m') == ReservedIds(m) - {id};
    CloseSums(l, id, status);
    if ReservedNonNegative(m) {
      ReservesNonNegative(m');
    } else {
      assert ReservedIds(m') == {};
      NothingReserved(m');
    }
  }

  lemma {:induction false} RobustSweep(l: Ledger, todo: set<string>, visit: seq<string>, now: int)
    requires Exact(l) && Robust(l) && todo <= l.reservations.Keys
    ensures Exact(SweepFrom(l, todo, visit, now)) && Robust(SweepFrom(l, todo, visit, now))
    decreases |todo|
  {
    if todo != {} {
      var k := NextKey(todo, visit);
      if Due(l.reservations[k], now) {
        RobustClose(l, k, Expired);
      }
      RobustSweep(ExpireOne(l, k, now), todo - {k}, Rest(visit), now);
    }
  }

  /** Serves the given requests one after the other. */
  ghost function ServeAll(l: Ledger, reqs: seq<Request>): Ledger
    decreases |reqs|
  {
    if reqs == [] then l else ServeAll(Serve(l, reqs[0]).0, reqs[1..])
  }

  /** No request books an order. */
  predicate BooksNothing(reqs: seq<Request>) {
    forall i :: 0 <= i < |reqs| ==> !reqs[i].Reserve?
  }

  lemma RobustServe(l: Ledger, req: Request)
    requires Exact(l) && Robust(l) && !req.Reserve?
    ensures Exact(Serve(l, req).0) && Robust(Serve(l, req).0)
  {
    match req
    case Query(_, _, now, visit) => RobustSweep(l, l.reservations.Keys, visit, now);
    case ListActive(_, now, visit) => RobustSweep(l, l.reservations.Keys, visit, now);
    case Release(_, id, settled) =>
      if id in ReservedIds(l.reservations) {
        RobustClose(l, id, if settled then Settled else Released);
      }
    case _ =>
  }

  lemma {:induction false} RobustRun(l: Ledger, reqs: seq<Request>)
    requires Exact(l) && Robust(l) && BooksNothing(reqs)
    ensures Exact(ServeAll(l, reqs))
    decreases |reqs|
  {
    if reqs != [] {
      RobustServe(l, reqs[0]);
      RobustRun(Serve(l, reqs[0]).0, reqs[1..]);
    }
  }

  function Releases(ids: seq<string>): seq<Request> {
    seq(|ids|, i requires 0 <= i < |ids| => Release("", ids[i], false))
  }

  lemma {:induction false} ReleasesServed(l: Ledger, ids: seq<string>)
    ensures ServeAll(l, Releases(ids)) == ReleaseAll(l, ids)
    decreases |ids|
  {
    if ids != [] {
      assert Releases(ids)[1..] == Releases(ids[1..]);
      ReleasesServed(ReleaseIn(l, ids[0], false), ids[1..]);
    }
  }

  /** Releasing orders other than `k` leaves `k`'s entry alone and, once one took effect, totals of at least zero. */
  lemma {:induction false} ReleaseOthers(l: Ledger, ids: seq<string>, k: string)
    requires k in ReservedIds(l.reservations) && k !in ids
    ensures var l' := ReleaseAll(l, ids);
            && k in l'.reservations && l'.reservations[k] == l.reservations[k]
            && ReservedIds(l'.reservations) == ReservedIds(l.reservations) - (set i | i in ids)
            && ((exists i :: i in ids && i in ReservedIds(l.reservations)) ||
                (l.totals.notional >= 0.0 && l.totals.margin >= 0.0) ==>
                  l'.totals.notional >= 0.0 && l'.totals.margin >= 0.0)
    decreases |ids|
  {
    if ids != [] {
      var l1 := ReleaseIn(l, ids[0], false);
      assert ReservedIds(l1.reservations) == ReservedIds(l.reservations) - {ids[0]};
      assert ids == [ids[0]] + ids[1..];
      ReleaseOthers(l1, ids[1..], k);
    }
  }

  ghost function Listed(ids: set<string>): (q: seq<string>)
    ensures forall i :: i in q <==> i in ids
    decreases |ids|
  {
    if ids == {} then [] else
    var i :| i in ids;
    var rest := Listed(ids - {i});
    assert forall j :: j in [i] + rest <==> j == i || j in rest;
    [i] + rest
  }

  lemma {:induction false} OnlyOneReserved(m: Reservations, k: string)
    requires ReservedIds(m) == {k}
    ensures Reserves(m) == AmountsOf(m[k])
  {
    assert k in ReservedIds(m);
    SumRemove(m, k, {Reserved});
    assert forall j :: j in ReservedIds(m - {k}) ==> j in ReservedIds(m) && j != k;
    NothingReserved(m - {k});
  }

  lemma NegativeEntryBreaks(l: Ledger, k: string) returns (ids: seq<string>)
    requires k in ReservedIds(l.reservations) && |ReservedIds(l.reservations)| > 1
    requires l.reservations[k].notional < 0.0 || l.reservations[k].margin < 0.0
    ensures !Exact(ReleaseAll(l, ids))
  {
    var others := ReservedIds(l.reservations) - {k};
    ids := Listed(others);
    assert others != {} by {
      assert ReservedIds(l.reservations) == others + {k};
    }
    var i :| i in others;
    ReleaseOthers(l, ids, k);
    var l' := ReleaseAll(l, ids);
    assert ReservedIds(l'.reservations) == {k};
    OnlyOneReserved(l'.reservations, k);
  }

  /**
    The code does not check the sign of price or margin.  The totals of an exact ledger survive every
    sequence of releases, sweeps and other requests that book nothing, if and only if no reserved entry
    is negative or at most one is reserved.
  */
  lemma StaysExactIff(l: Ledger)
    requires Exact(l)
    ensures (forall reqs: seq<Request> :: BooksNothing(reqs) ==> Exact(ServeAll(l, reqs))) <==>
            ReservedNonNegative(l.reservations) || |ReservedIds(l.reservations)| <= 1
  {
    if Robust(l) {
      forall reqs: seq<Request> | BooksNothing(reqs) ensures Exact(ServeAll(l, reqs)) {
        RobustRun(l, reqs);
      }
    } else {
      var k :| k in ReservedIds(l.reservations) &&
               !(l.reservations[k].notional >= 0.0 && l.reservations[k].margin >= 0.0);
      var ids := NegativeEntryBreaks(l, k);
      ReleasesServed(l, ids);
      assert BooksNothing(Releases(ids));
    }
  }
}
