/**
  Lazy expiry refines eager expiry.  The ideal ledger keeps no totals and never sweeps: an order is
  alive until it is released or its deadline passes, and every decision sums the orders alive now.
  The clock is read before the ledger lock is taken, so readings can go back; exactly when the two
  agree is stated without any order of the readings, and ordered readings are one way to get there.
*/
module RiskEager {
  import opened Wrappers
  import opened RiskLedger
  import opened RiskSweep
  import opened RiskAccounting
  import opened RiskPolicies
  import opened RiskRuns

  datatype Order = Order(reservationId: string, notional: real, margin: real, deadline: int, closed: bool)

  datatype IdealLedger = IdealLedger(policy: Policy, orders: map<string, Order>)

  predicate Alive(o: Order, now: int) {
    !o.closed && now < o.deadline
  }

  /** The ideal orders as reservations, with the status they have at `now`. */
  function AsOf(orders: map<string, Order>, now: int): Reservations {
    map k | k in orders ::
      var o := orders[k];
      Reservation(o.reservationId, if Alive(o, now) then Reserved else Expired, o.notional, o.margin, o.deadline)
  }

  // ------------------------------------------------------------------ the ideal service

  function IdFor(orderId: string): string {
    "RSV-" + orderId
  }

  ghost function IdealServe(l: IdealLedger, req: Request): (IdealLedger, Reply) {
    match req
    case Reserve(_, i, version, ttlMs, now, _) =>
      var live := AsOf(l.orders, now);
      var refusal := PolicyRefusal(l.policy, version, now);
      if refusal != NoReason then (l, Decided(Rejected, refusal, l.policy.version, "", 0))
      else if i.orderId in l.orders then
        var o := l.orders[i.orderId];
        (l, if Alive(o, now)
            then Decided(Approved, NoReason, l.policy.version, o.reservationId, o.deadline)
            else Decided(Rejected, OrderIdAlreadyTerminal, l.policy.version, o.reservationId, o.deadline))
      else
        var notional := if i.estimatedNotional > 0.0 then i.estimatedNotional else i.price * (i.quantity as real);
        var over := CapRefusal(l.policy, Reserves(live), notional, i.estimatedMargin);
        if over != NoReason then (l, Decided(Rejected, over, l.policy.version, "", 0)) else
        var o := Order(IdFor(i.orderId), notional, i.estimatedMargin,
                       if ttlMs > 0 then now + ttlMs else now + 300000, false);
        (l.(orders := l.orders[i.orderId := o]),
         Decided(Approved, NoReason, l.policy.version, o.reservationId, o.deadline))
    case Query(_, orderId, now, _) =>
      (l, if orderId in l.orders then Found(ViewOf(orderId, AsOf(l.orders, now)[orderId])) else NotFound)
    case Release(_, orderId, _) =>
      (if orderId in l.orders then l.(orders := l.orders[orderId := l.orders[orderId].(closed := true)]) else l,
       ReleaseReply(true, NoReason))
    case ListActive(_, now, _) => (l, Active(ActiveViews(AsOf(l.orders, now))))
    case GetPolicy(_) => (l, PolicyIs(l.policy))
    case Upsert(p) => if l.policy.version > p.version then (l, FailedPrecondition) else (l.(policy := p), Done)
  }

  type IdealState = map<string, IdealLedger>

  ghost function IdealStep(s: IdealState, req: Request): (IdealState, Reply) {
    var a := AccountOf(req);
    if Malformed(req) then (s, InvalidArgument)
    else if a in s || req.Upsert? then
      var (l, reply) := IdealServe(if a in s then s[a] else IdealLedger(DEFAULT_POLICY, map[]), req);
      (s[a := l], reply)
    else (s, NoLedgerReply(req))
  }

  ghost function IdealRun(s: IdealState, reqs: seq<Request>): (r: (IdealState, seq<Reply>))
    ensures |r.1| == |reqs|
    decreases |reqs|
  {
    if reqs == [] then (s, []) else
    var (s1, reply) := IdealStep(s, reqs[0]);
    var (s2, replies) := IdealRun(s1, reqs[1..]);
    (s2, [reply] + replies)
  }

  // ------------------------------------------------------------------ what the two have in common

  /** Equal replies, except that the label of a terminal order may differ. */
  predicate Agrees(r: Reply, ideal: Reply) {
    || r == ideal
    || (r.Found? && ideal.Found? && r.view.status != Reserved && ideal.view.status != Reserved
        && r.view == ideal.view.(status := r.view.status))
  }

  predicate Says(reply: Reply, decision: Decision) {
    reply.Decided? && reply.decision == decision
  }

  /** The same order on both sides; what differs is when its expiry shows. */
  predicate Matches(r: Reservation, o: Order) {
    && r.reservationId == o.reservationId && r.notional == o.notional && r.margin == o.margin
    && r.expiresAt == o.deadline
    && (o.closed ==> r.status != Reserved)
    && (r.status == Released || r.status == Settled ==> o.closed)
  }

  ghost predicate Linked(l: Ledger, i: IdealLedger) {
    && l.policy == i.policy && l.reservations.Keys == i.orders.Keys
    && forall k :: k in l.reservations ==> Matches(l.reservations[k], i.orders[k])
  }

  /** Every open order that some sweep marked expired has a deadline that `now` has reached. */
  predicate NoneExpiredEarly(l: Ledger, i: IdealLedger, now: int) {
    forall k :: k in l.reservations && k in i.orders && l.reservations[k].status == Expired && !i.orders[k].closed ==>
      l.reservations[k].expiresAt <= now
  }

  // ------------------------------------------------------------------ exactly when they agree

  lemma SweptLinked(l: Ledger, i: IdealLedger, visit: seq<string>, now: int)
    requires Linked(l, i)
    ensures Linked(Sweep(l, visit, now), i)
    ensures NoneExpiredEarly(Sweep(l, visit, now), i, now) <==> NoneExpiredEarly(l, i, now)
  {
    SweepEntries(l, visit, now);
    forall k | k in l.reservations
      ensures ExpireEntry(l.reservations[k], now).status == Expired && l.reservations[k].status != Expired ==>
                l.reservations[k].expiresAt <= now
    {
    }
    if NoneExpiredEarly(Sweep(l, visit, now), i, now) {
      forall k | k in l.reservations && l.reservations[k].status == Expired && !i.orders[k].closed
        ensures l.reservations[k].expiresAt <= now
      {
        assert Sweep(l, visit, now).reservations[k] == l.reservations[k];
      }
    }
  }

  /** An order not expired too early is reserved after a sweep exactly if it is alive. */
  lemma SweptLiving(l: Ledger, i: IdealLedger, visit: seq<string>, now: int, k: string)
    requires Linked(l, i) && k in l.reservations
    requires l.reservations[k].status == Expired && !i.orders[k].closed ==> l.reservations[k].expiresAt <= now
    ensures var s := Sweep(l, visit, now);
            && k in s.reservations && Matches(s.reservations[k], i.orders[k])
            && (s.reservations[k].status == Reserved <==> Alive(i.orders[k], now))
  {
    SweepEntries(l, visit, now);
    assert Matches(l.reservations[k], i.orders[k]);
  }

  lemma ViewsCongruent(m: Reservations, n: Reservations)
    requires m.Keys == n.Keys
    requires forall k :: k in m && m[k].status == Reserved ==> ViewOf(k, m[k]) == ViewOf(k, n[k])
    ensures ActiveViews(m) <= ActiveViews(n)
  {
    forall v | v in ActiveViews(m) ensures v in ActiveViews(n) {
      var k :| k in m && m[k].status == Reserved && v == ViewOf(k, m[k]);
      assert ViewOf(k, n[k]) == v;
    }
  }

  /** A swept ledger shows what the ideal one shows: the same live orders and the same sums. */
  lemma SweptShows(l: Ledger, i: IdealLedger, visit: seq<string>, now: int)
    requires Linked(l, i) && NoneExpiredEarly(l, i, now)
    ensures ActiveViews(Sweep(l, visit, now).reservations) == ActiveViews(AsOf(i.orders, now))
    ensures Reserves(Sweep(l, visit, now).reservations) == Reserves(AsOf(i.orders, now))
  {
    var s, live := Sweep(l, visit, now), AsOf(i.orders, now);
    SweepEntries(l, visit, now);
    forall k | k in s.reservations
      ensures s.reservations[k].status == Reserved <==> live[k].status == Reserved
      ensures Matches(s.reservations[k], i.orders[k])
      ensures Weight(s.reservations[k], {Reserved}) == Weight(live[k], {Reserved})
    {
      SweptLiving(l, i, visit, now, k);
      WeightByStatus(s.reservations[k]);
      WeightByStatus(live[k]);
    }
    SumCongruent(s.reservations, live, {Reserved});
    ViewsCongruent(s.reservations, live);
    ViewsCongruent(live, s.reservations);
  }

  /** The active list is the ideal one if and only if no open order was marked expired too early for this reading. */
  lemma ActiveListAgreesIff(l: Ledger, i: IdealLedger, visit: seq<string>, now: int)
    requires Linked(l, i)
    ensures ActiveViews(Sweep(l, visit, now).reservations) == ActiveViews(AsOf(i.orders, now)) <==>
            NoneExpiredEarly(l, i, now)
  {
    if NoneExpiredEarly(l, i, now) {
      SweptShows(l, i, visit, now);
    } else {
      SweepEntries(l, visit, now);
      var k :| k in l.reservations && l.reservations[k].status == Expired && !i.orders[k].closed
               && l.reservations[k].expiresAt > now;
      var live := AsOf(i.orders, now);
      assert Matches(l.reservations[k], i.orders[k]) && live[k].status == Reserved;
      assert ViewOf(k, live[k]) in ActiveViews(live);
      assert ViewOf(k, live[k]) !in ActiveViews(Sweep(l, visit, now).reservations);
    }
  }

  function ClockOf(req: Request): Option<int> {
    match req
    case Reserve(_, _, _, _, now, _) => Some(now)
    case Query(_, _, now, _) => Some(now)
    case ListActive(_, now, _) => Some(now)
    case _ => None
  }

  lemma ReserveAgrees(l: Ledger, i: IdealLedger, req: Request)
    requires Linked(l, i) && Good(l) && req.Reserve? && NoneExpiredEarly(l, i, req.now)
    ensures Serve(l, req).1 == IdealServe(i, req).1
  {
    var id := req.intent.orderId;
    SweptShows(l, i, req.visit, req.now);
    SweepEntries(l, req.visit, req.now);
    SweepFromKeeps(l, l.reservations.Keys, req.visit, req.now);
    if id in l.reservations {
      SweptLiving(l, i, req.visit, req.now, id);
    }
  }

  /** Requests without a reading always agree; the others do unless an order was expired too early. */
  lemma ReplyAgrees(l: Ledger, i: IdealLedger, req: Request)
    requires Linked(l, i) && Good(l)
    requires ClockOf(req).Some? ==> NoneExpiredEarly(l, i, ClockOf(req).value)
    ensures Agrees(Serve(l, req).1, IdealServe(i, req).1)
  {
    match req
    case Reserve(_, _, _, _, _, _) => ReserveAgrees(l, i, req);
    case Query(_, orderId, now, visit) =>
      SweepEntries(l, visit, now);
      if orderId in l.reservations {
        SweptLiving(l, i, visit, now, orderId);
      }
    case ListActive(_, now, visit) => SweptShows(l, i, visit, now);
    case _ =>
  }

  /**
    At any reading the lazy ledger answers every request as the ideal one if and only if no open order
    is marked expired whose deadline is later than the reading.
  */
  lemma AgreeIff(l: Ledger, i: IdealLedger, now: int)
    requires Linked(l, i) && Good(l)
    ensures (forall req: Request :: ClockOf(req) == Some(now) ==> Agrees(Serve(l, req).1, IdealServe(i, req).1)) <==>
            NoneExpiredEarly(l, i, now)
  {
    if NoneExpiredEarly(l, i, now) {
      forall req: Request | ClockOf(req) == Some(now) ensures Agrees(Serve(l, req).1, IdealServe(i, req).1) {
        ReplyAgrees(l, i, req);
      }
    } else {
      var listing := ListActive("", now, []);
      ActiveListAgreesIff(l, i, [], now);
      assert ClockOf(listing) == Some(now) && !Agrees(Serve(l, listing).1, IdealServe(i, listing).1);
    }
  }

  // ------------------------------------------------------------------ exactly when they stay linked

  lemma ReserveLinks(l: Ledger, i: IdealLedger, req: Request)
    requires Linked(l, i) && req.Reserve?
    ensures Linked(Serve(l, req).0, IdealServe(i, req).0) <==>
            (req.intent.orderId in i.orders || Serve(l, req).1.decision == IdealServe(i, req).1.decision)
  {
    var id := req.intent.orderId;
    SweptLinked(l, i, req.visit, req.now);
    SweepEntries(l, req.visit, req.now);
    var l', i' := Serve(l, req).0, IdealServe(i, req).0;
    assert id !in l.reservations ==> (id in l'.reservations <==> Serve(l, req).1.decision == Approved);
    assert id !in i.orders ==> (id in i'.orders <==> IdealServe(i, req).1.decision == Approved);
  }

  lemma LinkedIfAlike(l: Ledger, i: IdealLedger, req: Request)
    requires Linked(l, i)
    ensures Linked(Serve(l, req).0, IdealServe(i, req).0) <==>
            (req.Reserve? && req.intent.orderId !in i.orders ==>
               Serve(l, req).1.decision == IdealServe(i, req).1.decision)
  {
    match req
    case Reserve(_, _, _, _, _, _) => ReserveLinks(l, i, req);
    case Query(_, _, now, visit) => SweptLinked(l, i, visit, now);
    case ListActive(_, now, visit) => SweptLinked(l, i, visit, now);
    case Release(_, id, _) => assert id in l.reservations ==> Matches(l.reservations[id], i.orders[id]);
    case _ =>
  }

  // ------------------------------------------------------------------ what was expired too early, and what it costs

  /** The orders alive at `now` that are marked expired: the lazy side has forgotten them. */
  function Early(l: Ledger, i: IdealLedger, now: int): Reservations {
    map k | k in l.reservations && k in i.orders && l.reservations[k].status == Expired && Alive(i.orders[k], now) ::
      AsOf(i.orders, now)[k]
  }

  lemma EarlyIff(l: Ledger, i: IdealLedger, now: int)
    requires Linked(l, i)
    ensures Early(l, i, now) == map[] <==> NoneExpiredEarly(l, i, now)
  {
    forall k | k in l.reservations ensures k in Early(l, i, now) <==>
      l.reservations[k].status == Expired && !i.orders[k].closed && l.reservations[k].expiresAt > now
    {
      assert Matches(l.reservations[k], i.orders[k]);
    }
  }

  function WeightAt(e: Reservations, k: string): Totals {
    if k in e then Weight(e[k], {Reserved}) else ZERO
  }

  lemma TakeAt(e: Reservations, k: string)
    ensures Reserves(e) == Plus(WeightAt(e, k), Reserves(e - {k}))
  {
    if k in e {
      SumRemove(e, k, {Reserved});
    } else {
      assert e - {k} == e;
      NothingAdded(Reserves(e));
    }
  }

  lemma Recombine(a: Totals, wa: Totals, ra: Totals, b: Totals, wb: Totals, rb: Totals, e: Totals, we: Totals, re: Totals)
    requires a == Plus(wa, ra) && b == Plus(wb, rb) && e == Plus(we, re)
    requires wa == Plus(wb, we) && ra == Plus(rb, re)
    ensures a == Plus(b, e)
  {
  }

  lemma NothingAdded(a: Totals)
    ensures Plus(a, ZERO) == a && Plus(ZERO, a) == a
  {
  }

  /** The same amounts; what is reserved in `a` is reserved in `b` or comes from `e`, not both. */
  predicate SplitsAt(a: Reservations, b: Reservations, e: Reservations, k: string) {
    && k in a && k in b && AmountsOf(a[k]) == AmountsOf(b[k]) && (k in e ==> e[k] == a[k])
    && (a[k].status == Reserved <==> (k in e || b[k].status == Reserved))
    && !(k in e && b[k].status == Reserved)
  }

  lemma EntryCounts(a: Reservations, b: Reservations, e: Reservations, k: string)
    requires SplitsAt(a, b, e, k)
    ensures WeightAt(a, k) == Plus(WeightAt(b, k), WeightAt(e, k))
  {
    WeightByStatus(a[k]);
    WeightByStatus(b[k]);
    NothingAdded(WeightAt(a, k));
  }

  /** The entries of `a` are counted either in `b` or in `e`. */
  lemma {:induction false} SumSplit(a: Reservations, b: Reservations, e: Reservations)
    requires a.Keys == b.Keys && e.Keys <= a.Keys && forall k :: k in a ==> SplitsAt(a, b, e, k)
    ensures Reserves(a) == Plus(Reserves(b), Reserves(e))
    decreases |a|
  {
    if a == map[] {
      SplitNothing(b, e);
    } else {
      var k :| k in a;
      var a', b', e' := a - {k}, b - {k}, e - {k};
      assert |a'| < |a|;
      forall j | j in a' ensures SplitsAt(a', b', e', j) {
        assert SplitsAt(a, b, e, j);
      }
      SumSplit(a', b', e');
      SumSplitStep(a, b, e, k);
    }
  }

  lemma SumSplitStep(a: Reservations, b: Reservations, e: Reservations, k: string)
    requires SplitsAt(a, b, e, k) && Reserves(a - {k}) == Plus(Reserves(b - {k}), Reserves(e - {k}))
    ensures Reserves(a) == Plus(Reserves(b), Reserves(e))
  {
    EntryCounts(a, b, e, k);
    TakeAt(a, k);
    TakeAt(b, k);
    TakeAt(e, k);
    Recombine(Reserves(a), WeightAt(a, k), Reserves(a - {k}), Reserves(b), WeightAt(b, k), Reserves(b - {k}),
              Reserves(e), WeightAt(e, k), Reserves(e - {k}));
  }

  lemma SplitNothing(b: Reservations, e: Reservations)
    requires b == map[] && e == map[]
    ensures Reserves(map[]) == Plus(Reserves(b), Reserves(e))
  {
    SumEmpty({Reserved});
    NothingAdded(ZERO);
  }

  /** An order alive on the ideal side is reserved after the lazy sweep, or forgotten. */
  lemma EntryStatus(l: Ledger, i: IdealLedger, visit: seq<string>, now: int, k: string)
    requires Linked(l, i) && k in l.reservations
    ensures SplitsAt(AsOf(i.orders, now), Sweep(l, visit, now).reservations, Early(l, i, now), k)
  {
    SweepEntries(l, visit, now);
    assert Matches(l.reservations[k], i.orders[k]);
  }

  /** What the ideal ledger counts at a reading is what the lazy one counts after its sweep, and what it has forgotten. */
  lemma IdealSums(l: Ledger, i: IdealLedger, visit: seq<string>, now: int)
    requires Linked(l, i)
    ensures Reserves(AsOf(i.orders, now)) ==
            Plus(Reserves(Sweep(l, visit, now).reservations), Reserves(Early(l, i, now)))
  {
    var a, b, e := AsOf(i.orders, now), Sweep(l, visit, now).reservations, Early(l, i, now);
    SweptLinked(l, i, visit, now);
    forall k | k in a ensures SplitsAt(a, b, e, k) {
      EntryStatus(l, i, visit, now, k);
    }
    SumSplit(a, b, e);
  }

  /** The reservations alive after the lazy sweep, and those it has forgotten. */
  ghost function Counted(l: Ledger, i: IdealLedger, req: Request): Totals
    requires req.Reserve?
  {
    Plus(Reserves(Sweep(l, req.visit, req.now).reservations), Reserves(Early(l, i, req.now)))
  }

  lemma Unrefused(p: Policy, t: Totals, i: Intent, version: nat, now: int)
    ensures PolicyRefusal(p, version, now) == NoReason <==> Permits(p, version, now)
    ensures CapRefusal(p, t, NotionalOf(i), i.estimatedMargin) == NoReason <==> Fits(p, t, i)
  {
  }

  lemma LazyDecides(l: Ledger, req: Request)
    requires req.Reserve? && req.intent.orderId !in l.reservations
    ensures Serve(l, req).1.Decided?
    ensures Says(Serve(l, req).1, Approved) <==>
            Permits(l.policy, req.riskConfigVersion, req.now) &&
            Fits(l.policy, Sweep(l, req.visit, req.now).totals, req.intent)
  {
    var s := Sweep(l, req.visit, req.now);
    SweepEntries(l, req.visit, req.now);
    Unrefused(l.policy, s.totals, req.intent, req.riskConfigVersion, req.now);
  }

  lemma IdealDecides(i: IdealLedger, req: Request)
    requires req.Reserve? && req.intent.orderId !in i.orders
    ensures IdealServe(i, req).1.Decided?
    ensures Says(IdealServe(i, req).1, Approved) <==>
            Permits(i.policy, req.riskConfigVersion, req.now) &&
            Fits(i.policy, Reserves(AsOf(i.orders, req.now)), req.intent)
  {
    Unrefused(i.policy, Reserves(AsOf(i.orders, req.now)), req.intent, req.riskConfigVersion, req.now);
  }

  lemma DecisionsIff(l: Ledger, i: IdealLedger, req: Request)
    requires Linked(l, i) && req.Reserve? && req.intent.orderId !in i.orders
    ensures Serve(l, req).1.Decided? && IdealServe(i, req).1.Decided?
    ensures Says(Serve(l, req).1, Approved) <==>
            Permits(l.policy, req.riskConfigVersion, req.now) &&
            Fits(l.policy, Sweep(l, req.visit, req.now).totals, req.intent)
    ensures Says(IdealServe(i, req).1, Approved) <==>
            Permits(l.policy, req.riskConfigVersion, req.now) && Fits(l.policy, Counted(l, i, req), req.intent)
  {
    LazyDecides(l, req);
    IdealDecides(i, req);
    IdealSums(l, i, req.visit, req.now);
  }

  /**
    Whatever the readings and the amounts, a step keeps the two ledgers linked if and only if it does not
    bring a permitted new order that fits on top of only one of: the lazy totals after the sweep, and the
    live reservations together with those expired too early.
  */
  lemma LinkKeptIff(l: Ledger, i: IdealLedger, req: Request)
    requires Linked(l, i)
    ensures Linked(Serve(l, req).0, IdealServe(i, req).0) <==>
            (req.Reserve? && req.intent.orderId !in i.orders && Permits(l.policy, req.riskConfigVersion, req.now) ==>
               (Fits(l.policy, Sweep(l, req.visit, req.now).totals, req.intent) <==>
                Fits(l.policy, Counted(l, i, req), req.intent)))
  {
    LinkedIfAlike(l, i, req);
    if req.Reserve? && req.intent.orderId !in i.orders {
      DecisionsIff(l, i, req);
    }
  }

  lemma EarlyNonNegative(l: Ledger, i: IdealLedger, now: int)
    requires Linked(l, i) && NonNegative(l.reservations)
    ensures AtMost(ZERO, Reserves(Early(l, i, now)))
  {
    forall k | k in Early(l, i, now) ensures Early(l, i, now)[k].notional >= 0.0 && Early(l, i, now)[k].margin >= 0.0 {
      assert Matches(l.reservations[k], i.orders[k]);
    }
    SumNonNegative(Early(l, i, now), {Reserved});
  }

  lemma FitsLess(p: Policy, t: Totals, e: Totals, i: Intent)
    requires AtMost(ZERO, e) && Fits(p, Plus(t, e), i)
    ensures Fits(p, t, i)
  {
  }

  /**
    With non-negative amounts the lazy service is never the stricter of the two, and they decide alike
    about a new order exactly if one that is permitted and fits on top of the live reservations still fits
    with those expired too early.
  */
  lemma NeverStricter(l: Ledger, i: IdealLedger, req: Request)
    requires Linked(l, i) && Good(l) && req.Reserve? && req.intent.orderId !in i.orders
    ensures Says(IdealServe(i, req).1, Approved) ==> Says(Serve(l, req).1, Approved)
    ensures (Says(IdealServe(i, req).1, Approved) <==> Says(Serve(l, req).1, Approved)) <==>
            (Permits(l.policy, req.riskConfigVersion, req.now) &&
             Fits(l.policy, Reserves(Sweep(l, req.visit, req.now).reservations), req.intent) ==>
               Fits(l.policy, Counted(l, i, req), req.intent))
  {
    DecisionsIff(l, i, req);
    SweepFromKeeps(l, l.reservations.Keys, req.visit, req.now);
    EarlyNonNegative(l, i, req.now);
    if Fits(l.policy, Counted(l, i, req), req.intent) {
      FitsLess(l.policy, Reserves(Sweep(l, req.visit, req.now).reservations), Reserves(Early(l, i, req.now)), req.intent);
    }
  }

  // ------------------------------------------------------------------ runs

  ghost predicate LinkedAt(s: State, t: IdealState, account: string) {
    && (account in s <==> account in t)
    && (account in s ==> Linked(s[account], t[account]) && Good(s[account]))
  }

  /** If the request brings the account a reading, none of its orders was expired too early for it. */
  predicate NotEarlyFor(s: State, t: IdealState, req: Request, account: string) {
    AccountOf(req) == account && ClockOf(req).Some? && account in s && account in t ==>
      NoneExpiredEarly(s[account], t[account], ClockOf(req).value)
  }

  ghost predicate NeverEarly(s: State, t: IdealState, reqs: seq<Request>, account: string)
    decreases |reqs|
  {
    reqs != [] ==>
      NotEarlyFor(s, t, reqs[0], account) && NeverEarly(Step(s, reqs[0]).0, IdealStep(t, reqs[0]).0, reqs[1..], account)
  }

  lemma EmptyLinked()
    ensures Linked(EMPTY_LEDGER, IdealLedger(DEFAULT_POLICY, map[])) && Good(EMPTY_LEDGER)
    ensures forall now: int :: NoneExpiredEarly(EMPTY_LEDGER, IdealLedger(DEFAULT_POLICY, map[]), now)
  {
    SumEmpty({Reserved});
  }

  lemma StepElsewhere(s: State, t: IdealState, req: Request, account: string)
    requires AccountOf(req) != account
    ensures account in Step(s, req).0 <==> account in s
    ensures account in IdealStep(t, req).0 <==> account in t
    ensures account in s ==> Step(s, req).0[account] == s[account]
    ensures account in t ==> IdealStep(t, req).0[account] == t[account]
  {
  }

  lemma StepAgrees(s: State, t: IdealState, req: Request, account: string)
    requires LinkedAt(s, t, account) && NotEarlyFor(s, t, req, account)
    requires AccountOf(req) == account ==> BooksNonNegative(req)
    ensures LinkedAt(Step(s, req).0, IdealStep(t, req).0, account)
    ensures AccountOf(req) == account ==> Agrees(Step(s, req).1, IdealStep(t, req).1)
  {
    if AccountOf(req) != account {
      StepElsewhere(s, t, req, account);
    } else if !Malformed(req) && (account in s || req.Upsert?) {
      var l := if account in s then s[account] else EMPTY_LEDGER;
      var i := if account in t then t[account] else IdealLedger(DEFAULT_POLICY, map[]);
      EmptyLinked();
      ReplyAgrees(l, i, req);
      LinkedIfAlike(l, i, req);
      ServeKeeps(l, req);
      assert Step(s, req) == (s[account := Serve(l, req).0], Serve(l, req).1);
      assert IdealStep(t, req) == (t[account := IdealServe(i, req).0], IdealServe(i, req).1);
    }
  }

  /** Every reply of a run agrees as long as no order is expired too early for a later reading. */
  lemma {:induction false} RunAgrees(s: State, t: IdealState, reqs: seq<Request>, account: string)
    requires LinkedAt(s, t, account) && AccountBooksNonNegative(reqs, account) && NeverEarly(s, t, reqs, account)
    ensures forall j :: 0 <= j < |reqs| && AccountOf(reqs[j]) == account ==>
              Agrees(Run(s, reqs).1[j], IdealRun(t, reqs).1[j])
    decreases |reqs|
  {
    if reqs != [] {
      var s1, t1 := Step(s, reqs[0]).0, IdealStep(t, reqs[0]).0;
      StepAgrees(s, t, reqs[0], account);
      RunAgrees(s1, t1, reqs[1..], account);
      forall j | 0 <= j < |reqs| && AccountOf(reqs[j]) == account
        ensures Agrees(Run(s, reqs).1[j], IdealRun(t, reqs).1[j])
      {
        if j > 0 {
          assert Agrees(Run(s1, reqs[1..]).1[j - 1], IdealRun(t1, reqs[1..]).1[j - 1]);
        }
      }
    }
  }

  // ------------------------------------------------------------------ ordered readings

  /** The latest reading for the account. */
  function Later(clock: int, req: Request, account: string): int {
    if AccountOf(req) == account && ClockOf(req).Some? then ClockOf(req).value else clock
  }

  /** The account's readings start at `clock` or later and never go back. */
  predicate NonDecreasing(clock: int, reqs: seq<Request>, account: string)
    decreases |reqs|
  {
    reqs != [] ==>
      clock <= Later(clock, reqs[0], account) && NonDecreasing(Later(clock, reqs[0], account), reqs[1..], account)
  }

  predicate NoneEarlyAt(s: State, t: IdealState, clock: int, account: string) {
    account in s && account in t ==> NoneExpiredEarly(s[account], t[account], clock)
  }

  /** A step at a reading marks nothing expired that this reading has not reached. */
  lemma ServeNotEarly(l: Ledger, i: IdealLedger, clock: int, req: Request)
    requires Linked(l, i) && Linked(Serve(l, req).0, IdealServe(i, req).0)
    requires NoneExpiredEarly(l, i, clock)
    requires ClockOf(req).Some? ==> clock <= ClockOf(req).value
    ensures NoneExpiredEarly(Serve(l, req).0, IdealServe(i, req).0,
                             if ClockOf(req).Some? then ClockOf(req).value else clock)
  {
    match req
    case Reserve(_, _, _, _, now, visit) =>
      SweptLinked(l, i, visit, now);
      SweepEntries(l, visit, now);
    case Query(_, _, now, visit) => SweptLinked(l, i, visit, now);
    case ListActive(_, now, visit) => SweptLinked(l, i, visit, now);
    case _ =>
  }

  lemma StepNotEarly(s: State, t: IdealState, clock: int, req: Request, account: string)
    requires LinkedAt(s, t, account) && LinkedAt(Step(s, req).0, IdealStep(t, req).0, account)
    requires NoneEarlyAt(s, t, clock, account) && clock <= Later(clock, req, account)
    ensures NoneEarlyAt(Step(s, req).0, IdealStep(t, req).0, Later(clock, req, account), account)
  {
    if AccountOf(req) != account {
      StepElsewhere(s, t, req, account);
    } else if !Malformed(req) && (account in s || req.Upsert?) {
      var l := if account in s then s[account] else EMPTY_LEDGER;
      var i := if account in t then t[account] else IdealLedger(DEFAULT_POLICY, map[]);
      EmptyLinked();
      assert Step(s, req) == (s[account := Serve(l, req).0], Serve(l, req).1);
      assert IdealStep(t, req) == (t[account := IdealServe(i, req).0], IdealServe(i, req).1);
      ServeNotEarly(l, i, clock, req);
    }
  }

  lemma {:induction false} OrderedNeverEarly(s: State, t: IdealState, clock: int, reqs: seq<Request>, account: string)
    requires LinkedAt(s, t, account) && AccountBooksNonNegative(reqs, account)
    requires NoneEarlyAt(s, t, clock, account) && NonDecreasing(clock, reqs, account)
    ensures NeverEarly(s, t, reqs, account)
    decreases |reqs|
  {
    if reqs != [] {
      StepAgrees(s, t, reqs[0], account);
      StepNotEarly(s, t, clock, reqs[0], account);
      OrderedNeverEarly(Step(s, reqs[0]).0, IdealStep(t, reqs[0]).0, Later(clock, reqs[0], account), reqs[1..], account);
    }
  }

  /**
    Lazy expiry refines eager expiry: if an account's readings never go back and its amounts are not
    negative, every reply to it, in any run over any accounts from the empty service, is the ideal
    service's reply, up to the label of a terminal order.
  */
  lemma LazyRefinesEager(reqs: seq<Request>, account: string, clock: int)
    requires AccountBooksNonNegative(reqs, account) && NonDecreasing(clock, reqs, account)
    ensures forall j :: 0 <= j < |reqs| && AccountOf(reqs[j]) == account ==>
              Agrees(Run(map[], reqs).1[j], IdealRun(map[], reqs).1[j])
  {
    OrderedNeverEarly(map[], map[], clock, reqs, account);
    RunAgrees(map[], map[], reqs, account);
  }

  // ------------------------------------------------------------------ a run whose readings go back

  const CAPPED := Policy("a", 1, 0, 10.0, 0.0, 0.0, 0, 0.0, true)
  const FIRST := Reserve("a", Intent("x", 0.0, 0, 6.0, 0.0), 0, 5, 0, [])
  const LATE := ListActive("a", 10, [])
  const SECOND := Reserve("a", Intent("y", 0.0, 0, 6.0, 0.0), 0, 5, 3, [])

  lemma SweepSingle(l: Ledger, k: string, visit: seq<string>, now: int)
    requires l.reservations.Keys == {k}
    ensures Sweep(l, visit, now) == ExpireOne(l, k, now)
  {
    assert {k} - {k} == {};
    assert Sweep(l, visit, now) == SweepFrom(ExpireOne(l, k, now), {}, Rest(visit), now);
  }

  /** The lazy side: an order is booked, expired by a late reading, and forgotten at an earlier one. */
  lemma LazyForgets(l0: Ledger, l1: Ledger, l2: Ledger, r: Reservation)
    requires l0 == Ledger(CAPPED, ZERO, map[]) && r == NewReservation(FIRST.intent, 5, 0) && r.notional == 6.0
    requires l1 == Book(l0, "x", r) && l2 == Close(l1, "x", Expired)
    ensures Run(map[], [Upsert(CAPPED), FIRST, LATE]).0 == map["a" := l2]
    ensures Says(Step(map["a" := l2], SECOND).1, Approved)
  {
    RunOfThree(map[], Upsert(CAPPED), FIRST, LATE);
    assert Step(map[], Upsert(CAPPED)).0 == map["a" := l0];
    BooksNew("a", l0, FIRST);
    SweepSingle(l1, "x", [], 10);
    assert (map["a" := l1])["a" := l2] == map["a" := l2];
    BooksNew("a", l2, SECOND);
  }

  lemma ForgetsExactly(l0: Ledger, l1: Ledger, l2: Ledger, r: Reservation)
    requires l0.reservations == map[] && l1 == Book(l0, "x", r) && l2 == Close(l1, "x", Expired)
    ensures l2.policy == l0.policy && l2.reservations == map["x" := r.(status := Expired)]
  {
  }

  lemma IdealRunOfThree(t: IdealState, x: Request, y: Request, z: Request)
    ensures IdealRun(t, [x, y, z]).0 == IdealStep(IdealStep(IdealStep(t, x).0, y).0, z).0
  {
    var t1 := IdealStep(t, x).0;
    var t2 := IdealStep(t1, y).0;
    assert [x, y, z][1..] == [y, z] && [y, z][1..] == [z] && [z][1..] == [];
    assert IdealRun(t2, [z]).0 == IdealStep(t2, z).0;
    assert IdealRun(t1, [y, z]).0 == IdealRun(t2, [z]).0;
  }

  lemma IdealBooksNew(account: string, i: IdealLedger, req: Request, o: Order)
    requires req.Reserve? && !Malformed(req) && req.account == account && req.intent.orderId !in i.orders
    requires PolicyRefusal(i.policy, req.riskConfigVersion, req.now) == NoReason && req.ttlMs > 0
    requires CapRefusal(i.policy, Reserves(AsOf(i.orders, req.now)), NotionalOf(req.intent), req.intent.estimatedMargin)
             == NoReason
    requires o == Order(IdFor(req.intent.orderId), NotionalOf(req.intent), req.intent.estimatedMargin,
                        req.now + req.ttlMs, false)
    ensures IdealStep(map[account := i], req).0 == map[account := i.(orders := i.orders[req.intent.orderId := o])]
  {
    var i' := i.(orders := i.orders[req.intent.orderId := o]);
    var id := req.intent.orderId;
    assert id in IdealServe(i, req).0.orders;
    assert IdealServe(i, req).0.orders[id] == o by {
      assert IdealServe(i, req).0.orders[id].reservationId == o.reservationId;
      assert IdealServe(i, req).0.orders[id].notional == o.notional;
    }
    assert IdealServe(i, req).0 == i';
    assert (map[account := i])[account := i'] == map[account := i'];
  }

  lemma NothingReservedYet()
    ensures Reserves(AsOf(map[], 0)) == ZERO
  {
    assert AsOf(map[], 0) == map[];
    SumEmpty({Reserved});
  }

  /** The ideal side: the order is alive at the earlier reading and uses up the cap. */
  lemma IdealRemembers(i0: IdealLedger, i1: IdealLedger, o: Order)
    requires i0 == IdealLedger(CAPPED, map[]) && i1 == i0.(orders := i0.orders["x" := o])
    requires o == Order(IdFor("x"), 6.0, 0.0, 5, false)
    ensures IdealRun(map[], [Upsert(CAPPED), FIRST, LATE]).0 == map["a" := i1]
    ensures Says(IdealStep(map["a" := i1], SECOND).1, Rejected)
  {
    IdealRunOfThree(map[], Upsert(CAPPED), FIRST, LATE);
    assert IdealStep(map[], Upsert(CAPPED)).0 == map["a" := i0];
    NothingReservedYet();
    IdealBooksNew("a", i0, FIRST, o);
    assert (map["a" := i1])["a" := i1] == map["a" := i1];
    assert ReservedIds(AsOf(i1.orders, 3)) == {"x"};
    OnlyOneReserved(AsOf(i1.orders, 3), "x");
  }

  /** What the two sides have come to: `l` has forgotten an order that `i` still counts. */
  ghost predicate Forgotten(s: State, t: IdealState) {
    && s.Keys == t.Keys == {"a"} && Linked(s["a"], t["a"]) && !NoneExpiredEarly(s["a"], t["a"], 3)
    && Says(Step(s, SECOND).1, Approved) && Says(IdealStep(t, SECOND).1, Rejected)
  }

  /** The lazy side of the run, as far as the disagreement needs it. */
  lemma LazySide(l0: Ledger, l1: Ledger, r: Reservation) returns (l: Ledger)
    requires l0 == Ledger(CAPPED, ZERO, map[]) && r == NewReservation(FIRST.intent, 5, 0) && l1 == Book(l0, "x", r)
    requires r.status == Reserved && r.notional == 6.0 && r.margin == 0.0
    ensures Run(map[], [Upsert(CAPPED), FIRST, LATE]).0 == map["a" := l]
    ensures l.policy == CAPPED && l.reservations == map["x" := r.(status := Expired)]
    ensures Says(Step(map["a" := l], SECOND).1, Approved)
  {
    assert "x" in l1.reservations;
    l := Close(l1, "x", Expired);
    LazyForgets(l0, l1, l, r);
    ForgetsExactly(l0, l1, l, r);
  }

  lemma FirstIs(r: Reservation, o: Order)
    requires r == NewReservation(FIRST.intent, 5, 0) && o == Order(IdFor("x"), 6.0, 0.0, 5, false)
    ensures r.status == Reserved && r.notional == 6.0 && r.margin == 0.0 && Matches(r, o)
  {
  }

  lemma IdealSide(o: Order) returns (i: IdealLedger)
    requires o == Order(IdFor("x"), 6.0, 0.0, 5, false)
    ensures IdealRun(map[], [Upsert(CAPPED), FIRST, LATE]).0 == map["a" := i]
    ensures i.policy == CAPPED && i.orders == map["x" := o]
    ensures Says(IdealStep(map["a" := i], SECOND).1, Rejected)
  {
    var i0 := IdealLedger(CAPPED, map[]);
    i := i0.(orders := i0.orders["x" := o]);
    IdealRemembers(i0, i, o);
  }

  lemma IsForgotten(l: Ledger, i: IdealLedger, r: Reservation, o: Order)
    requires l.policy == i.policy && l.reservations == map["x" := r.(status := Expired)]
    requires i.orders == map["x" := o] && Matches(r, o) && o.deadline > 3 && !o.closed
    requires Says(Step(map["a" := l], SECOND).1, Approved)
    requires Says(IdealStep(map["a" := i], SECOND).1, Rejected)
    ensures Forgotten(map["a" := l], map["a" := i])
  {
    assert "x" in l.reservations;
  }

  /**
    A run whose readings go back.  A sweep at 10 expires an order with deadline 5; at reading 3 the
    lazy service then approves an order that the ideal one rejects for want of room.
  */
  lemma BackwardClockDisagrees()
    ensures Forgotten(Run(map[], [Upsert(CAPPED), FIRST, LATE]).0, IdealRun(map[], [Upsert(CAPPED), FIRST, LATE]).0)
  {
    var r, o := NewReservation(FIRST.intent, 5, 0), Order(IdFor("x"), 6.0, 0.0, 5, false);
    FirstIs(r, o);
    var l0 := Ledger(CAPPED, ZERO, map[]);
    var l := LazySide(l0, Book(l0, "x", r), r);
    var i := IdealSide(o);
    IsForgotten(l, i, r, o);
  }
}
