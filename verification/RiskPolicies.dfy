/**
  The policy side of the account risk service: policies only move forward, entries are created only
  under a policy that allows it, and what the caps guarantee when limits are lowered.
*/
module RiskPolicies {
  import opened RiskLedger
  import opened RiskSweep
  import opened RiskAccounting
  import opened RiskRuns

  // ------------------------------------------------------------------ policy history

  /** Every ledger is filed under its policy's account and holds a real version. */
  ghost predicate Filed(s: State) {
    forall a :: a in s ==> a != "" && s[a].policy.accountId == a && s[a].policy.version != 0
  }

  function VersionOf(s: State, account: string): nat {
    if account in s then s[account].policy.version else 0
  }

  lemma ServePolicy(l: Ledger, req: Request)
    ensures !req.Upsert? ==> Serve(l, req).0.policy == l.policy
    ensures req.Upsert? ==> Serve(l, req).0.policy == (if l.policy.version > req.policy.version then l.policy else req.policy)
  {
    match req
    case Reserve(_, _, _, _, now, visit) => SweepEntries(l, visit, now);
    case Query(_, _, now, visit) => SweepEntries(l, visit, now);
    case ListActive(_, now, visit) => SweepEntries(l, visit, now);
    case _ =>
  }

  lemma StepPolicies(s: State, req: Request, account: string)
    ensures Filed(s) ==> Filed(Step(s, req).0)
    ensures VersionOf(s, account) <= VersionOf(Step(s, req).0, account)
  {
    ServePolicy(if AccountOf(req) in s then s[AccountOf(req)] else EMPTY_LEDGER, req);
  }

  /** Policy history: ledgers stay filed under their policy's account, and no account's version ever decreases. */
  lemma {:induction false} PolicyHistory(s: State, reqs: seq<Request>, account: string)
    ensures Filed(s) ==> Filed(Run(s, reqs).0)
    ensures VersionOf(s, account) <= VersionOf(Run(s, reqs).0, account)
    decreases |reqs|
  {
    if reqs != [] {
      StepPolicies(s, reqs[0], account);
      PolicyHistory(Step(s, reqs[0]).0, reqs[1..], account);
    }
  }

  predicate Permits(p: Policy, riskConfigVersion: nat, now: int) {
    && p.enabled
    && (p.validUntil > 0 ==> now <= p.validUntil)
    && (riskConfigVersion != 0 ==> riskConfigVersion == p.version)
  }

  /** A new entry appears exactly when a reserve request for its order is approved, and then the policy permits it. */
  lemma CreatedOnlyWhenPermitted(s: State, req: Request, orderId: string)
    requires orderId !in Entries(s, AccountOf(req))
    ensures var (s', reply) := Step(s, req);
            orderId in Entries(s', AccountOf(req)) <==>
            Creates(req, orderId) && reply.Decided? && reply.decision == Approved
    ensures orderId in Entries(Step(s, req).0, AccountOf(req)) ==>
              req.account in s && Permits(s[req.account].policy, req.riskConfigVersion, req.now)
  {
    var l := if AccountOf(req) in s then s[AccountOf(req)] else EMPTY_LEDGER;
    ServeExtends(l, req);
    if req.Reserve? {
      SweepEntries(l, req.visit, req.now);
    }
  }

  // ------------------------------------------------------------------ caps

  predicate WithinCaps(p: Policy, t: Totals) {
    && !OverCap(p.maxNotional, p.safetyBuffer, t.notional)
    && !OverCap(p.maxMargin, p.safetyBuffer, t.margin)
    && (p.maxOpenOrders > 0 ==> t.orders <= p.maxOpenOrders)
  }

  /** The account's entries that are still reserved at `now`. */
  function LiveEntries(s: State, account: string, now: int): Reservations {
    Swept(Entries(s, account), now)
  }

  ghost predicate IsApproval(s: State, req: Request) {
    req.Reserve? && Step(s, req).1.Decided? && Step(s, req).1.decision == Approved
  }

  /** What an approved reserve request did: retried a known order, or booked a new one that passed the caps. */
  lemma ApprovalEffect(s: State, req: Request)
    requires IsApproval(s, req) && CoversAt(s, req.account)
    ensures req.account in s && req.account in Step(s, req).0 && Covers(Step(s, req).0[req.account])
    ensures req.intent.orderId in Entries(s, req.account) ==>
              Entries(Step(s, req).0, req.account) == LiveEntries(s, req.account, req.now)
    ensures req.intent.orderId !in Entries(s, req.account) ==>
              WithinCaps(s[req.account].policy, Step(s, req).0[req.account].totals)
  {
    ServeCovers(s[req.account], req);
    SweepEntries(s[req.account], req.visit, req.now);
  }

  /**
    Limit safety.  In every reachable state, whatever was booked, an approval leaves the reserved
    notional, margin and order count, re-summed from the entries, within the caps in force if and only if
    the order is new, or the reservations still alive were within those caps already: a retried order is
    answered without looking at the caps.
  */
  lemma ApprovalWithinCapsIff(reqs: seq<Request>, req: Request)
    requires IsApproval(Run(map[], reqs).0, req)
    ensures var s := Run(map[], reqs).0;
            && req.account in s
            && (WithinCaps(s[req.account].policy, Reserves(Entries(Step(s, req).0, req.account))) <==>
                req.intent.orderId !in Entries(s, req.account) ||
                WithinCaps(s[req.account].policy, Reserves(LiveEntries(s, req.account, req.now))))
  {
    TotalsErrUpwards(map[], reqs, req.account);
    ApprovalEffect(Run(map[], reqs).0, req);
  }

  /** The order, at its estimate or else its price, fits on top of `live` under each cap that is set, less the buffer. */
  predicate Fits(p: Policy, live: Totals, i: Intent) {
    && (p.maxNotional > 0.0 ==>
          live.notional + (if i.estimatedNotional > 0.0 then i.estimatedNotional else i.price * (i.quantity as real)) <=
          p.maxNotional - p.safetyBuffer)
    && (p.maxMargin > 0.0 ==> live.margin + i.estimatedMargin <= p.maxMargin - p.safetyBuffer)
    && (p.maxOpenOrders > 0 ==> live.orders < p.maxOpenOrders)
  }

  /** Whatever the signs, a new order is approved only if it fits on top of the reservations alive, re-summed. */
  lemma ApprovedFits(reqs: seq<Request>, req: Request)
    requires IsApproval(Run(map[], reqs).0, req)
    ensures var s := Run(map[], reqs).0;
            req.intent.orderId !in Entries(s, req.account) ==>
              && req.account in s && Permits(s[req.account].policy, req.riskConfigVersion, req.now)
              && Fits(s[req.account].policy, Reserves(LiveEntries(s, req.account, req.now)), req.intent)
  {
    var s := Run(map[], reqs).0;
    TotalsErrUpwards(map[], reqs, req.account);
    var l := s[req.account];
    SweepEntries(l, req.visit, req.now);
    SweepFromCovers(l, l.reservations.Keys, req.visit, req.now);
  }

  /**
    Exactly which new orders are approved: the policy permits them, and they fit on top of the totals
    cached after the sweep; where no negative amount was booked, these are the reservations alive at
    `now`, re-summed from the entries.
  */
  lemma NewOrderApprovedIff(s: State, req: Request)
    requires req.Reserve? && !Malformed(req) && req.intent.orderId !in Entries(s, req.account)
    ensures IsApproval(s, req) <==>
            && req.account in s && Permits(s[req.account].policy, req.riskConfigVersion, req.now)
            && Fits(s[req.account].policy, Sweep(s[req.account], req.visit, req.now).totals, req.intent)
    ensures req.account in s && Good(s[req.account]) ==>
              Sweep(s[req.account], req.visit, req.now).totals == Reserves(LiveEntries(s, req.account, req.now))
  {
    if req.account in s {
      var l := s[req.account];
      SweepEntries(l, req.visit, req.now);
      SweepFromKeeps(l, l.reservations.Keys, req.visit, req.now);
    }
  }

  const WIDE := Policy("a", 1, 0, 10.0, 0.0, 0.0, 0, 0.0, true)
  const TIGHT := Policy("a", 2, 0, 1.0, 0.0, 0.0, 0, 0.0, true)
  const ORDER := Reserve("a", Intent("o", 0.0, 0, 5.0, 0.0), 0, 100, 0, [])
  const BOOKED := Reservation("RSV-o", Reserved, 5.0, 0.0, 100)

  lemma OrderBooked()
    ensures Step(map["a" := Ledger(WIDE, ZERO, map[])], ORDER).0 ==
            map["a" := Ledger(WIDE, Totals(5.0, 0.0, 1), map["o" := BOOKED])]
  {
    var l := Ledger(WIDE, ZERO, map[]);
    SweepEntries(l, [], 0);
    SweepTotals(l, [], 0);
    assert Sweep(l, [], 0) == l;
    assert NewReservation(ORDER.intent, 100, 0) == BOOKED;
  }

  lemma OrderRetried(l: Ledger)
    requires l == Ledger(TIGHT, Totals(5.0, 0.0, 1), map["o" := BOOKED])
    ensures Step(map["a" := l], ORDER) == (map["a" := l], Decided(Approved, NoReason, 2, "RSV-o", 100))
    ensures !WithinCaps(TIGHT, Reserves(l.reservations))
  {
    SweepEntries(l, [], 0);
    SweepTotals(l, [], 0);
    assert Sweep(l, [], 0) == l;
    OnlyOneReserved(l.reservations, "o");
    assert (map["a" := l])["a" := l] == map["a" := l];
  }

  lemma PoliciesSet(l: Ledger)
    requires l.policy == WIDE
    ensures Step(map[], Upsert(WIDE)).0 == map["a" := Ledger(WIDE, ZERO, map[])]
    ensures Step(map["a" := l], Upsert(TIGHT)).0 == map["a" := l.(policy := TIGHT)]
  {
    assert (map["a" := l])["a" := l.(policy := TIGHT)] == map["a" := l.(policy := TIGHT)];
  }

  lemma LoweredWhileBooked()
    ensures Run(map[], [Upsert(WIDE), ORDER, Upsert(TIGHT)]).0 ==
            map["a" := Ledger(TIGHT, Totals(5.0, 0.0, 1), map["o" := BOOKED])]
  {
    RunOfThree(map[], Upsert(WIDE), ORDER, Upsert(TIGHT));
    OrderBooked();
    PoliciesSet(Ledger(WIDE, Totals(5.0, 0.0, 1), map["o" := BOOKED]));
  }

  /** A run in which a retry is approved although it leaves a lowered cap exceeded. */
  lemma RetryApprovedOverCap()
    ensures var s := Run(map[], [Upsert(WIDE), ORDER, Upsert(TIGHT)]).0;
            && GoodAt(s, "a") && IsApproval(s, ORDER) && s.Keys == {"a"} && s["a"].policy == TIGHT
            && !WithinCaps(TIGHT, Reserves(Entries(Step(s, ORDER).0, "a")))
  {
    var l := Ledger(TIGHT, Totals(5.0, 0.0, 1), map["o" := BOOKED]);
    LoweredWhileBooked();
    OrderRetried(l);
    assert Good(l) by {
      OnlyOneReserved(l.reservations, "o");
    }
  }

  // ------------------------------------------------------------------ what is left over a lowered cap

  function OverBy(cap: real, buffer: real, total: real): real {
    if cap > 0.0 then Max0(total - (cap - buffer)) else 0.0
  }

  function OrdersOver(cap: nat, orders: nat): nat {
    if cap > 0 && orders > cap then orders - cap else 0
  }

  /** No component of `u` exceeds its cap by more than that of `t`. */
  predicate NoFurtherOver(p: Policy, t: Totals, u: Totals) {
    && OverBy(p.maxNotional, p.safetyBuffer, u.notional) <= OverBy(p.maxNotional, p.safetyBuffer, t.notional)
    && OverBy(p.maxMargin, p.safetyBuffer, u.margin) <= OverBy(p.maxMargin, p.safetyBuffer, t.margin)
    && OrdersOver(p.maxOpenOrders, u.orders) <= OrdersOver(p.maxOpenOrders, t.orders)
  }

  lemma SweepFrees(l: Ledger, visit: seq<string>, now: int)
    requires Good(l)
    ensures AtMost(Sweep(l, visit, now).totals, l.totals)
  {
    SweepTotals(l, visit, now);
    SumNonNegative(l.reservations, {Reserved});
    SumNonNegative(DueIn(l.reservations, l.reservations.Keys, now), {Reserved});
  }

  lemma ServeNoFurtherOver(l: Ledger, req: Request)
    requires Good(l) && !req.Upsert?
    ensures NoFurtherOver(l.policy, l.totals, Serve(l, req).0.totals)
  {
    match req
    case Reserve(_, _, _, _, now, visit) =>
      SweepFrees(l, visit, now);
      SweepEntries(l, visit, now);
    case Query(_, _, now, visit) => SweepFrees(l, visit, now);
    case ListActive(_, now, visit) => SweepFrees(l, visit, now);
    case Release(_, _, _) => SumNonNegative(l.reservations, {Reserved});
    case _ =>
  }

  /**
    Between two policy changes, and with no negative amount booked, what a lowered cap left over it never
    grows.  RiskExcess says exactly what negative amounts change.
  */
  lemma {:induction false} ExcessNeverGrows(s: State, reqs: seq<Request>, account: string)
    requires account in s && GoodAt(s, account) && AccountBooksNonNegative(reqs, account)
    requires forall i :: 0 <= i < |reqs| && AccountOf(reqs[i]) == account ==> !reqs[i].Upsert?
    ensures var s' := Run(s, reqs).0;
            && account in s' && s'[account].policy == s[account].policy
            && NoFurtherOver(s[account].policy, Reserves(s[account].reservations), Reserves(s'[account].reservations))
    decreases |reqs|
  {
    ExactAccounting(s, reqs, account);
    if reqs != [] {
      var s1 := Step(s, reqs[0]).0;
      StepKeeps(s, reqs[0], account);
      if AccountOf(reqs[0]) == account {
        ServeNoFurtherOver(s[account], reqs[0]);
        ServePolicy(s[account], reqs[0]);
      }
      ExcessNeverGrows(s1, reqs[1..], account);
    }
  }

  lemma ServeOrdersNoFurtherOver(l: Ledger, req: Request)
    requires OrdersExact(l) && !req.Upsert?
    ensures OrdersExact(Serve(l, req).0)
    ensures OrdersOver(l.policy.maxOpenOrders, Serve(l, req).0.totals.orders) <=
            OrdersOver(l.policy.maxOpenOrders, l.totals.orders)
  {
    ServeKeeps(l, req);
    match req
    case Reserve(_, _, _, _, now, visit) =>
      SweepEntries(l, visit, now);
      SweepFewerOrders(l, l.reservations.Keys, visit, now);
    case Query(_, _, now, visit) => SweepFewerOrders(l, l.reservations.Keys, visit, now);
    case ListActive(_, now, visit) => SweepFewerOrders(l, l.reservations.Keys, visit, now);
    case _ =>
  }

  lemma {:induction false} SweepFewerOrders(l: Ledger, todo: set<string>, visit: seq<string>, now: int)
    requires todo <= l.reservations.Keys
    ensures SweepFrom(l, todo, visit, now).totals.orders <= l.totals.orders
    decreases |todo|
  {
    if todo != {} {
      var k := NextKey(todo, visit);
      SweepFewerOrders(ExpireOne(l, k, now), todo - {k}, Rest(visit), now);
    }
  }

  /** The order count keeps this for amounts of any sign. */
  lemma {:induction false} OrderExcessNeverGrows(s: State, reqs: seq<Request>, account: string)
    requires account in s && OrdersExactAt(s, account)
    requires forall i :: 0 <= i < |reqs| && AccountOf(reqs[i]) == account ==> !reqs[i].Upsert?
    ensures var s' := Run(s, reqs).0;
            && account in s' && s'[account].policy == s[account].policy && OrdersExactAt(s', account)
            && OrdersOver(s[account].policy.maxOpenOrders, Reserves(s'[account].reservations).orders) <=
               OrdersOver(s[account].policy.maxOpenOrders, Reserves(s[account].reservations).orders)
    decreases |reqs|
  {
    if reqs != [] {
      var s1 := Step(s, reqs[0]).0;
      StepKeeps(s, reqs[0], account);
      if AccountOf(reqs[0]) == account {
        ServeOrdersNoFurtherOver(s[account], reqs[0]);
        ServePolicy(s[account], reqs[0]);
      }
      OrderExcessNeverGrows(s1, reqs[1..], account);
    }
  }
}
