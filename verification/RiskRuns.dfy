/** Properties of whole runs of the account risk service: entries are never lost or revived, approved amounts are conserved. */
module RiskRuns {
  import opened RiskLedger
  import opened RiskSweep
  import opened RiskAccounting

  // ------------------------------------------------------------------ entries only move forward

  predicate SameOrder(r: Reservation, r': Reservation) {
    && r'.reservationId == r.reservationId && r'.notional == r.notional
    && r'.margin == r.margin && r'.expiresAt == r.expiresAt
  }

  /** No entry is removed or altered, except that a reserved one may have reached a terminal status. */
  predicate Extends(m: Reservations, m': Reservations) {
    forall k :: k in m ==>
      k in m' && SameOrder(m[k], m'[k]) && (m[k].status != Reserved ==> m'[k].status == m[k].status)
  }

  /** The only order a request can create an entry for. */
  predicate Creates(req: Request, orderId: string) {
    req.Reserve? && req.intent.orderId == orderId
  }

  lemma ServeExtends(l: Ledger, req: Request)
    ensures Extends(l.reservations, Serve(l, req).0.reservations)
    ensures forall k :: k in Serve(l, req).0.reservations && k !in l.reservations ==>
              Creates(req, k) && Serve(l, req).0.reservations[k] == NewReservation(req.intent, req.ttlMs, req.now)
  {
    match req
    case Reserve(_, _, _, _, now, visit) => SweepEntries(l, visit, now);
    case Query(_, _, now, visit) => SweepEntries(l, visit, now);
    case ListActive(_, now, visit) => SweepEntries(l, visit, now);
    case _ =>
  }

  function Entries(s: State, account: string): Reservations {
    if account in s then s[account].reservations else map[]
  }

  lemma StepExtends(s: State, req: Request, account: string)
    ensures Extends(Entries(s, account), Entries(Step(s, req).0, account))
  {
    ServeExtends(if AccountOf(req) in s then s[AccountOf(req)] else EMPTY_LEDGER, req);
  }

  /** Terminal absorption: over any run entries stay, keep id, amounts and deadline, and terminal statuses stick. */
  lemma {:induction false} RunExtends(s: State, reqs: seq<Request>, account: string)
    ensures Extends(Entries(s, account), Entries(Run(s, reqs).0, account))
    decreases |reqs|
  {
    if reqs != [] {
      StepExtends(s, reqs[0], account);
      RunExtends(Step(s, reqs[0]).0, reqs[1..], account);
    }
  }

  lemma RunOfThree(s: State, x: Request, y: Request, z: Request)
    ensures Run(s, [x, y, z]).0 == Step(Step(Step(s, x).0, y).0, z).0
  {
    var s1 := Step(s, x).0;
    var s2 := Step(s1, y).0;
    assert [x, y, z][1..] == [y, z] && [y, z][1..] == [z] && [z][1..] == [];
    assert Run(s2, [z]).0 == Step(s2, z).0;
    assert Run(s1, [y, z]).0 == Run(s2, [z]).0;
  }

  /** A new order that nothing speaks against is booked, and approved. */
  lemma BooksNew(account: string, l: Ledger, req: Request)
    requires req.Reserve? && !Malformed(req) && req.account == account && req.intent.orderId !in l.reservations
    requires forall k :: k in l.reservations ==> !Due(l.reservations[k], req.now)
    requires PolicyRefusal(l.policy, req.riskConfigVersion, req.now) == NoReason
    requires CapRefusal(l.policy, l.totals, NotionalOf(req.intent), req.intent.estimatedMargin) == NoReason
    ensures var r := NewReservation(req.intent, req.ttlMs, req.now);
            Step(map[account := l], req) ==
            (map[account := Book(l, req.intent.orderId, r)],
             Decided(Approved, NoReason, l.policy.version, r.reservationId, r.expiresAt))
  {
    SweepFromNothing(l, l.reservations.Keys, req.visit, req.now);
    var l' := Book(l, req.intent.orderId, NewReservation(req.intent, req.ttlMs, req.now));
    assert Sweep(l, req.visit, req.now) == l && Serve(l, req).0 == l';
    assert (map[account := l])[account := l'] == map[account := l'];
  }

  // ------------------------------------------------------------------ conservation

  /** What the answer to one request newly approved for `account`. */
  ghost function NewlyApproved(s: State, req: Request, account: string): Totals {
    var reply := Step(s, req).1;
    if req.Reserve? && req.account == account && req.intent.orderId !in Entries(s, account) &&
       reply.Decided? && reply.decision == Approved
    then Totals(NotionalOf(req.intent), req.intent.estimatedMargin, 1)
    else ZERO
  }

  ghost function Approvals(s: State, reqs: seq<Request>, account: string): Totals
    decreases |reqs|
  {
    if reqs == [] then ZERO
    else Plus(NewlyApproved(s, reqs[0], account), Approvals(Step(s, reqs[0]).0, reqs[1..], account))
  }

  lemma WeightAll(r: Reservation)
    ensures Weight(r, ALL) == AmountsOf(r)
  {
    match r.status {
      case Reserved =>
      case Released =>
      case Settled =>
      case Expired =>
    }
  }

  lemma SumAllExtends(m: Reservations, m': Reservations)
    requires m.Keys == m'.Keys && Extends(m, m')
    ensures Sum(m', ALL) == Sum(m, ALL)
  {
    forall k | k in m ensures Weight(m[k], ALL) == Weight(m'[k], ALL) {
      WeightAll(m[k]);
      WeightAll(m'[k]);
    }
    SumCongruent(m, m', ALL);
  }

  lemma SweepConserves(l: Ledger, visit: seq<string>, now: int)
    ensures Sum(Sweep(l, visit, now).reservations, ALL) == Sum(l.reservations, ALL)
    ensures Sweep(l, visit, now).reservations.Keys == l.reservations.Keys
  {
    SweepEntries(l, visit, now);
    SumAllExtends(l.reservations, Swept(l.reservations, now));
  }

  lemma BookConserves(l: Ledger, orderId: string, r: Reservation)
    requires orderId !in l.reservations
    ensures Sum(Book(l, orderId, r).reservations, ALL) == Plus(AmountsOf(r), Sum(l.reservations, ALL))
  {
    SumAdd(l.reservations, orderId, r, ALL);
    WeightAll(r);
  }

  lemma AdmitBooks(l: Ledger, i: Intent, version: nat, ttlMs: int, now: int)
    ensures var (l', reply) := Admit(l, i, version, ttlMs, now);
            reply.Decided? &&
            if i.orderId !in l.reservations && reply.decision == Approved
            then l' == Book(l, i.orderId, NewReservation(i, ttlMs, now))
            else l' == l
  {
  }

  lemma ServeConserves(l: Ledger, req: Request)
    requires !req.Reserve?
    ensures Sum(Serve(l, req).0.reservations, ALL) == Sum(l.reservations, ALL)
  {
    match req
    case Query(_, _, now, visit) => SweepConserves(l, visit, now);
    case ListActive(_, now, visit) => SweepConserves(l, visit, now);
    case Release(_, orderId, settled) => SumAllExtends(l.reservations, ReleaseIn(l, orderId, settled).reservations);
    case _ =>
  }

  lemma ReserveConserves(s: State, req: Request)
    requires req.Reserve? && !Malformed(req) && req.account in s
    ensures Sum(Entries(Step(s, req).0, req.account), ALL) ==
            Plus(NewlyApproved(s, req, req.account), Sum(s[req.account].reservations, ALL))
  {
    var l, i := s[req.account], req.intent;
    var swept, r := Sweep(l, req.visit, req.now), NewReservation(i, req.ttlMs, req.now);
    SweepConserves(l, req.visit, req.now);
    AdmitBooks(swept, i, req.riskConfigVersion, req.ttlMs, req.now);
    var l' := Admit(swept, i, req.riskConfigVersion, req.ttlMs, req.now).0;
    assert Entries(Step(s, req).0, req.account) == l'.reservations;
    if l' == swept {
      assert NewlyApproved(s, req, req.account) == ZERO by {
        assert l' != Book(swept, i.orderId, r) || i.orderId in l.reservations;
      }
      PlusAlgebra(Sum(l.reservations, ALL), ZERO, ZERO);
    } else {
      BookConserves(swept, i.orderId, r);
    }
  }

  lemma OtherConserves(s: State, req: Request, account: string)
    requires !(req.Reserve? && !Malformed(req) && req.account == account && account in s)
    ensures Sum(Entries(Step(s, req).0, account), ALL) == Sum(Entries(s, account), ALL)
    ensures NewlyApproved(s, req, account) == ZERO
  {
    if AccountOf(req) == account && !Malformed(req) && (account in s || req.Upsert?) {
      ServeConserves(if account in s then s[account] else EMPTY_LEDGER, req);
    } else {
      assert Entries(Step(s, req).0, account) == Entries(s, account);
    }
  }

  lemma StepConserves(s: State, req: Request, account: string)
    ensures Sum(Entries(Step(s, req).0, account), ALL) ==
            Plus(NewlyApproved(s, req, account), Sum(Entries(s, account), ALL))
  {
    if req.Reserve? && !Malformed(req) && req.account == account && account in s {
      ReserveConserves(s, req);
    } else {
      OtherConserves(s, req, account);
      PlusAlgebra(Sum(Entries(s, account), ALL), ZERO, ZERO);
    }
  }

  lemma {:induction false} SumByStatus(m: Reservations)
    ensures Sum(m, ALL) ==
            Plus(Plus(Sum(m, {Reserved}), Sum(m, {Released})), Plus(Sum(m, {Settled}), Sum(m, {Expired})))
    decreases |m|
  {
    if m == map[] {
      Regroup(ZERO, ZERO, ZERO);
    } else {
      var k := AnyKey(m);
      var rest := m - {k};
      SumByStatus(rest);
      SumRemove(m, k, ALL);
      SumRemove(m, k, {Reserved});
      SumRemove(m, k, {Released});
      SumRemove(m, k, {Settled});
      SumRemove(m, k, {Expired});
      SplitWeight(m[k], Sum(rest, {Reserved}), Sum(rest, {Released}), Sum(rest, {Settled}), Sum(rest, {Expired}));
    }
  }

  lemma SplitWeight(r: Reservation, a: Totals, b: Totals, c: Totals, d: Totals)
    ensures Plus(Weight(r, ALL), Plus(Plus(a, b), Plus(c, d))) ==
            Plus(Plus(Plus(Weight(r, {Reserved}), a), Plus(Weight(r, {Released}), b)),
                 Plus(Plus(Weight(r, {Settled}), c), Plus(Weight(r, {Expired}), d)))
  {
    WeightIn(r, ALL);
    WeightIn(r, {Reserved});
    WeightIn(r, {Released});
    WeightIn(r, {Settled});
    WeightIn(r, {Expired});
  }

  lemma WeightIn(r: Reservation, statuses: set<Status>)
    ensures Weight(r, statuses) == if r.status in statuses then AmountsOf(r) else ZERO
  {
  }

  /**
    Conservation: everything approved for an account along a run from the empty service is accounted
    for by its active, released, settled and expired entries.
  */
  lemma Conservation(reqs: seq<Request>, account: string)
    ensures var m := Entries(Run(map[], reqs).0, account);
            Approvals(map[], reqs, account) ==
            Plus(Plus(Sum(m, {Reserved}), Sum(m, {Released})), Plus(Sum(m, {Settled}), Sum(m, {Expired})))
  {
    RunConserves(map[], reqs, account);
    SumByStatus(Entries(Run(map[], reqs).0, account));
    assert Sum(Entries(map[], account), ALL) == ZERO;
    PlusAlgebra(Approvals(map[], reqs, account), ZERO, ZERO);
  }

  lemma {:induction false} RunConserves(s: State, reqs: seq<Request>, account: string)
    ensures Sum(Entries(Run(s, reqs).0, account), ALL) ==
            Plus(Sum(Entries(s, account), ALL), Approvals(s, reqs, account))
    decreases |reqs|
  {
    PlusAlgebra(Sum(Entries(s, account), ALL), ZERO, ZERO);
    if reqs != [] {
      var s1 := Step(s, reqs[0]).0;
      StepConserves(s, reqs[0], account);
      RunConserves(s1, reqs[1..], account);
      Regroup(NewlyApproved(s, reqs[0], account), Sum(Entries(s, account), ALL), Approvals(s1, reqs[1..], account));
    } else {
      Regroup(ZERO, Sum(Entries(s, account), ALL), ZERO);
    }
  }

  lemma Regroup(a: Totals, b: Totals, c: Totals)
    ensures Plus(Plus(a, b), c) == Plus(b, Plus(a, c))
    ensures Plus(b, ZERO) == b
  {
  }
}
