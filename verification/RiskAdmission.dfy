/** Retries are safe, and an order that could be admitted stays admissible when other orders leave. */
module RiskAdmission {
  import opened RiskLedger
  import opened RiskSweep
  import opened RiskAccounting
  import opened RiskRuns
  import opened RiskPolicies

  // ------------------------------------------------------------------ retries

  lemma ApprovedIsEntered(s: State, req: Request)
    requires IsApproval(s, req)
    ensures var m := Entries(Step(s, req).0, req.account);
            && req.intent.orderId in m
            && m[req.intent.orderId].reservationId == Step(s, req).1.reservationId
            && m[req.intent.orderId].expiresAt == Step(s, req).1.expiresAt
    ensures !Malformed(req) && req.account in s
  {
    SweepEntries(if req.account in s then s[req.account] else EMPTY_LEDGER, req.visit, req.now);
  }

  /**
    Retry safety.  Once an order was approved, whatever happened since, reserving it again changes the
    ledger only as a sweep would; unless the policy refuses, the answer carries the original id and
    deadline and is an approval exactly if the order is still reserved after the sweep.
  */
  lemma RetrySafety(s: State, first: Request, between: seq<Request>, again: Request)
    requires IsApproval(s, first)
    requires again.Reserve? && again.account == first.account && again.intent.orderId == first.intent.orderId
    ensures var a, o := first.account, first.intent.orderId;
            var s2 := Run(Step(s, first).0, between).0;
            && a in s2
            && var swept := Sweep(s2[a], again.visit, again.now);
               var (s3, reply) := Step(s2, again);
               && s3 == s2[a := swept]
               && o in swept.reservations
               && if Permits(s2[a].policy, again.riskConfigVersion, again.now)
                  then reply.Decided?
                       && reply.reservationId == Step(s, first).1.reservationId
                       && reply.expiresAt == Step(s, first).1.expiresAt
                       && (reply.decision == Approved <==> swept.reservations[o].status == Reserved)
                  else reply.Decided? && reply.decision == Rejected
  {
    var a := first.account;
    ApprovedIsEntered(s, first);
    RunExtends(Step(s, first).0, between, a);
    var s2 := Run(Step(s, first).0, between).0;
    SweepEntries(s2[a], again.visit, again.now);
  }

  /** Releasing an order a second time, after anything else, changes nothing and is confirmed again. */
  lemma ReleaseOnce(s: State, first: Request, between: seq<Request>, again: Request)
    requires first.Release? && first.orderId in Entries(s, first.account) && !Malformed(first)
    requires again.Release? && again.account == first.account && again.orderId == first.orderId
    ensures var s2 := Run(Step(s, first).0, between).0;
            Step(s2, again) == (s2, ReleaseReply(true, NoReason))
  {
    var a := first.account;
    RunExtends(Step(s, first).0, between, a);
    var s2 := Run(Step(s, first).0, between).0;
    assert first.orderId in Entries(s2, a) && Entries(s2, a)[first.orderId].status != Reserved;
    assert s2[a := s2[a]] == s2;
  }

  // ------------------------------------------------------------------ admission is monotone

  /** An order leaving the book: released, settled or expired. */
  datatype Departure = Departure(orderId: string, status: Status)

  function Depart(l: Ledger, d: Departure): Ledger {
    if d.orderId in l.reservations && l.reservations[d.orderId].status == Reserved && d.status != Reserved
    then Close(l, d.orderId, d.status) else l
  }

  function DepartAll(l: Ledger, ds: seq<Departure>): Ledger
    decreases |ds|
  {
    if ds == [] then l else DepartAll(Depart(l, ds[0]), ds[1..])
  }

  /** Same orders, and nothing reserved that was not reserved before. */
  predicate Freed(m: Reservations, m': Reservations) {
    && m.Keys == m'.Keys
    && forall k :: k in m ==> SameOrder(m[k], m'[k]) && (m'[k].status == Reserved ==> m[k].status == Reserved)
  }

  lemma {:induction false} FreedReserves(m: Reservations, m': Reservations)
    requires Freed(m, m') && NonNegative(m)
    ensures AtMost(Reserves(m'), Reserves(m))
    decreases |m|
  {
    if m == map[] {
      assert m' == map[];
    } else {
      var k := AnyKey(m);
      SumRemove(m, k, {Reserved});
      SumRemove(m', k, {Reserved});
      WeightByStatus(m[k]);
      WeightByStatus(m'[k]);
      FreedReserves(m - {k}, m' - {k});
    }
  }

  lemma {:induction false} DepartAllFrees(l: Ledger, ds: seq<Departure>, keep: string)
    requires Good(l) && forall d :: d in ds ==> d.orderId != keep
    ensures var l' := DepartAll(l, ds);
            && Good(l') && l'.policy == l.policy && Freed(l.reservations, l'.reservations)
            && (keep in l.reservations ==> l'.reservations[keep] == l.reservations[keep])
    decreases |ds|
  {
    if ds != [] {
      if Depart(l, ds[0]) != l {
        CloseKeeps(l, ds[0].orderId, ds[0].status);
      }
      assert ds[0] in ds && forall d :: d in ds[1..] ==> d in ds;
      DepartAllFrees(Depart(l, ds[0]), ds[1..], keep);
    }
  }

  lemma AdmitMonotone(l: Ledger, l': Ledger, i: Intent, i': Intent, version: nat, ttl: int, ttl': int, now: int)
    requires l.policy == l'.policy && AtMost(l'.totals, l.totals) && i.orderId == i'.orderId
    requires l.reservations.Keys == l'.reservations.Keys
    requires i.orderId in l.reservations ==> l.reservations[i.orderId] == l'.reservations[i.orderId]
    requires NotionalOf(i') <= NotionalOf(i) && i'.estimatedMargin <= i.estimatedMargin
    requires Admit(l, i, version, ttl, now).1.decision == Approved
    ensures Admit(l', i', version, ttl', now).1.decision == Approved
  {
    if i.orderId !in l.reservations {
      var t, t' := l.totals, l'.totals;
      assert t'.notional + NotionalOf(i') <= t.notional + NotionalOf(i);
      assert t'.margin + i'.estimatedMargin <= t.margin + i.estimatedMargin;
      assert CapRefusal(l'.policy, t', NotionalOf(i'), i'.estimatedMargin) == NoReason;
    }
  }

  /**
    Admission monotonicity.  An order approvable in a reachable ledger stays approvable, under the
    same policy and clock, after any departures of other orders and for any smaller amounts.
  */
  lemma AdmissionMonotone(l: Ledger, req: Request, ds: seq<Departure>, req': Request)
    requires Good(l) && req.Reserve? && req'.Reserve?
    requires Serve(l, req).1.decision == Approved
    requires forall d :: d in ds ==> d.orderId != req.intent.orderId
    requires req'.intent.orderId == req.intent.orderId && req'.now == req.now
    requires req'.riskConfigVersion == req.riskConfigVersion
    requires NotionalOf(req'.intent) <= NotionalOf(req.intent)
    requires req'.intent.estimatedMargin <= req.intent.estimatedMargin
    ensures Serve(DepartAll(l, ds), req').1.decision == Approved
  {
    var l' := DepartAll(l, ds);
    DepartAllFrees(l, ds, req.intent.orderId);
    var s, s' := Sweep(l, req.visit, req.now), Sweep(l', req'.visit, req'.now);
    SweepEntries(l, req.visit, req.now);
    SweepEntries(l', req'.visit, req'.now);
    SweepFromKeeps(l, l.reservations.Keys, req.visit, req.now);
    SweepFromKeeps(l', l'.reservations.Keys, req'.visit, req'.now);
    assert Freed(s.reservations, s'.reservations);
    FreedReserves(s.reservations, s'.reservations);
    AdmitMonotone(s, s', req.intent, req'.intent, req.riskConfigVersion, req.ttlMs, req'.ttlMs, req.now);
  }
}
