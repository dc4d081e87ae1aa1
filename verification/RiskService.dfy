/**
  AccountRiskGrpcService as a program: ledgers are objects updated in place, and every RPC runs under
  the global mutex, hence as one atomic step.  Each method is proved to take exactly the step that
  RiskLedger specifies, for the order in which its loop happened to visit the hash map.
*/
module RiskService {
  import opened RiskLedger

  class LedgerState {
    var policy: Policy
    var reservedNotional: real
    var reservedMargin: real
    var reservedOpenOrders: nat
    var reservations: Reservations

    ghost function Value(): Ledger
      reads this
    {
      Ledger(policy, Totals(reservedNotional, reservedMargin, reservedOpenOrders), reservations)
    }

    constructor ()
      ensures Value() == EMPTY_LEDGER
    {
      policy := DEFAULT_POLICY;
      reservedNotional, reservedMargin, reservedOpenOrders := 0.0, 0.0, 0;
      reservations := map[];
    }

    /** Marks entry `k` with a terminal status and subtracts its amounts, clamped at zero. */
    method Subtract(k: string, status: Status)
      requires k in reservations
      modifies this
      ensures Value() == Close(old(Value()), k, status)
    {
      var r := reservations[k];
      reservations := reservations[k := r.(status := status)];
      reservedNotional := Max0(reservedNotional - r.notional);
      reservedMargin := Max0(reservedMargin - r.margin);
      if reservedOpenOrders > 0 {
        reservedOpenOrders := reservedOpenOrders - 1;
      }
    }

    /** Books a new reservation and adds its amounts to the totals. */
    method Add(orderId: string, r: Reservation)
      modifies this
      ensures Value() == Book(old(Value()), orderId, r)
    {
      reservedNotional := reservedNotional + r.notional;
      reservedMargin := reservedMargin + r.margin;
      reservedOpenOrders := reservedOpenOrders + 1;
      reservations := reservations[orderId := r];
    }

    /** Visits every entry once, in the order the hash map hands them out, and expires the due ones. */
    method ExpireReservations(now: int) returns (ghost visit: seq<string>)
      modifies this
      ensures Value() == Sweep(old(Value()), visit, now)
    {
      var todo := reservations.Keys;
      visit := [];
      VisitNone(Value(), now);
      while todo != {}
        invariant todo <= reservations.Keys
        invariant Underway(old(Value()), visit, Value(), todo, now)
        decreases |todo|
      {
        var k :| k in todo;
        VisitNext(old(Value()), visit, Value(), todo, k, now);
        if reservations[k].status == Reserved && reservations[k].expiresAt <= now {
          Subtract(k, Expired);
        }
        todo := todo - {k};
        visit := visit + [k];
      }
      VisitedAll(old(Value()), visit, Value(), now);
    }

    /** Lists every reserved entry once, in the order the hash map hands them out. */
    method ListReserved() returns (listing: seq<View>)
      ensures (set v | v in listing) == ActiveViews(reservations)
      ensures forall i, j :: 0 <= i < j < |listing| ==> listing[i].orderId != listing[j].orderId
    {
      listing := [];
      var todo := reservations.Keys;
      while todo != {}
        invariant todo <= reservations.Keys && Listed(listing, reservations, todo)
        decreases |todo|
      {
        var k :| k in todo;
        ListNext(listing, reservations, todo, k);
        todo := todo - {k};
        var state := reservations[k];
        if state.status != Reserved {
          continue;
        }
        listing := listing + [View(k, state.reservationId, state.status, state.expiresAt)];
      }
      ListedAll(listing, reservations);
    }
  }

  /** `l` is where a sweep of `start` stands after visiting `visit`, with `todo` still to come. */
  ghost predicate Underway(start: Ledger, visit: seq<string>, l: Ledger, todo: set<string>, now: int) {
    todo <= l.reservations.Keys &&
    forall rest: seq<string> ::
      SweepFrom(start, start.reservations.Keys, visit + rest, now) == SweepFrom(l, todo, rest, now)
  }

  lemma VisitNone(start: Ledger, now: int)
    ensures Underway(start, [], start, start.reservations.Keys, now)
  {
    assert forall rest: seq<string> :: [] + rest == rest;
  }

  lemma VisitedAll(start: Ledger, visit: seq<string>, l: Ledger, now: int)
    requires Underway(start, visit, l, {}, now)
    ensures Sweep(start, visit, now) == l
  {
    assert visit + [] == visit;
    assert SweepFrom(start, start.reservations.Keys, visit + [], now) == SweepFrom(l, {}, [], now);
  }

  lemma VisitNext(start: Ledger, visit: seq<string>, l: Ledger, todo: set<string>, k: string, now: int)
    requires Underway(start, visit, l, todo, now) && k in todo
    ensures Underway(start, visit + [k], ExpireOne(l, k, now), todo - {k}, now)
  {
    forall rest: seq<string>
      ensures SweepFrom(start, start.reservations.Keys, (visit + [k]) + rest, now) ==
              SweepFrom(ExpireOne(l, k, now), todo - {k}, rest, now)
    {
      assert (visit + [k]) + rest == visit + ([k] + rest);
      assert Rest([k] + rest) == rest;
    }
  }

  /** `listing` holds the reserved entries visited so far, each once; `todo` is still to come. */
  predicate Listed(listing: seq<View>, m: Reservations, todo: set<string>) {
    && (forall v :: v in listing ==>
          v.orderId in m && v.orderId !in todo && m[v.orderId].status == Reserved && v == ViewOf(v.orderId, m[v.orderId]))
    && (forall k :: k in m && k !in todo && m[k].status == Reserved ==> ViewOf(k, m[k]) in listing)
    && (forall i, j :: 0 <= i < j < |listing| ==> listing[i].orderId != listing[j].orderId)
  }

  lemma ListNext(listing: seq<View>, m: Reservations, todo: set<string>, k: string)
    requires Listed(listing, m, todo) && k in todo && k in m
    ensures m[k].status == Reserved ==> Listed(listing + [ViewOf(k, m[k])], m, todo - {k})
    ensures m[k].status != Reserved ==> Listed(listing, m, todo - {k})
  {
    forall i | 0 <= i < |listing| ensures listing[i].orderId != k {
      assert listing[i] in listing;
    }
  }

  lemma ListedAll(listing: seq<View>, m: Reservations)
    requires Listed(listing, m, {})
    ensures (set v | v in listing) == ActiveViews(m)
  {
  }

  class AccountRiskGrpcService {
    var ledgers: map<string, LedgerState>

    ghost predicate Valid()
      reads this
    {
      forall a, b :: a in ledgers && b in ledgers && a != b ==> ledgers[a] != ledgers[b]
    }

    ghost function Value(): State
      reads this, ledgers.Values
    {
      map a | a in ledgers :: ledgers[a].Value()
    }

    /** Writing back what is there changes nothing. */
    static lemma Unchanged(s: State, account: string)
      ensures account in s ==> s[account := s[account]] == s
    {
    }

    constructor ()
      ensures Valid() && Value() == map[] && fresh(ledgers.Values)
    {
      ledgers := map[];
    }

    /** Admission proper, on a ledger whose due entries have been expired. */
    static method Decide(ledger: LedgerState, intent: Intent, riskConfigVersion: nat, ttlMs: int, now: int)
      returns (reply: Reply)
      modifies ledger
      ensures (ledger.Value(), reply) == Admit(old(ledger.Value()), intent, riskConfigVersion, ttlMs, now)
    {
      var policy := ledger.policy;
      if !policy.enabled || (policy.validUntil > 0 && now > policy.validUntil) {
        reply := Decided(Rejected, if policy.enabled then PolicyExpired else PolicyDisabled, policy.version, "", 0);
        return;
      }
      if riskConfigVersion != 0 && riskConfigVersion != policy.version {
        reply := Decided(Rejected, VersionMismatch, policy.version, "", 0);
        return;
      }
      if intent.orderId in ledger.reservations {
        var existing := ledger.reservations[intent.orderId];
        var reserved := existing.status == Reserved;
        reply := Decided(if reserved then Approved else Rejected,
                         if reserved then NoReason else OrderIdAlreadyTerminal,
                         policy.version, existing.reservationId, existing.expiresAt);
        return;
      }
      var notional := if intent.estimatedNotional > 0.0 then intent.estimatedNotional
                      else intent.price * (intent.quantity as real);
      var margin := intent.estimatedMargin;
      var notionalExceeded :=
        policy.maxNotional > 0.0 && ledger.reservedNotional + notional > policy.maxNotional - policy.safetyBuffer;
      var marginExceeded :=
        policy.maxMargin > 0.0 && ledger.reservedMargin + margin > policy.maxMargin - policy.safetyBuffer;
      var ordersExceeded := policy.maxOpenOrders > 0 && ledger.reservedOpenOrders + 1 > policy.maxOpenOrders;
      if notionalExceeded || marginExceeded || ordersExceeded {
        reply := Decided(Rejected,
                         if notionalExceeded then MaxNotionalExceeded
                         else if marginExceeded then MaxMarginExceeded else MaxOpenOrdersExceeded,
                         policy.version, "", 0);
        return;
      }
      var ttl := if ttlMs > 0 then ttlMs else DEFAULT_TTL_MS;
      var reservation := Reservation(RESERVATION_ID_PREFIX + intent.orderId, Reserved, notional, margin, now + ttl);
      ledger.Add(intent.orderId, reservation);
      reply := Decided(Approved, NoReason, policy.version, reservation.reservationId, reservation.expiresAt);
    }

    method ReserveOrder(account: string, intent: Intent, riskConfigVersion: nat, ttlMs: int, now: int)
      returns (reply: Reply, ghost visit: seq<string>)
      requires Valid()
      modifies ledgers.Values
      ensures Valid()
      ensures (Value(), reply) == Step(old(Value()), Reserve(account, intent, riskConfigVersion, ttlMs, now, visit))
    {
      ghost var s := Value();
      Unchanged(s, account);
      visit := [];
      if account == "" || intent.orderId == "" {
        return InvalidArgument, visit;
      }
      if account !in ledgers {
        return Decided(Rejected, PolicyNotFound, 0, "", 0), visit;
      }
      var ledger := ledgers[account];
      visit := ledger.ExpireReservations(now);
      assert Value() == s[account := Sweep(s[account], visit, now)];
      reply := Decide(ledger, intent, riskConfigVersion, ttlMs, now);
      assert Value() == s[account := ledger.Value()];
    }

    method QueryReservation(account: string, orderId: string, now: int)
      returns (reply: Reply, ghost visit: seq<string>)
      requires Valid()
      modifies ledgers.Values
      ensures Valid()
      ensures (Value(), reply) == Step(old(Value()), Query(account, orderId, now, visit))
    {
      ghost var s := Value();
      Unchanged(s, account);
      visit := [];
      if account == "" || orderId == "" {
        return InvalidArgument, visit;
      }
      if account !in ledgers {
        return NotFound, visit;
      }
      var ledger := ledgers[account];
      visit := ledger.ExpireReservations(now);
      assert Value() == s[account := Sweep(s[account], visit, now)];
      if orderId !in ledger.reservations {
        reply := NotFound;
        return;
      }
      var r := ledger.reservations[orderId];
      reply := Found(View(orderId, r.reservationId, r.status, r.expiresAt));
    }

    method ReleaseOrder(account: string, orderId: string, settled: bool) returns (reply: Reply)
      requires Valid()
      modifies ledgers.Values
      ensures Valid()
      ensures (Value(), reply) == Step(old(Value()), Release(account, orderId, settled))
    {
      ghost var s := Value();
      Unchanged(s, account);
      if account == "" || orderId == "" {
        return InvalidArgument;
      }
      if account !in ledgers {
        return ReleaseReply(false, PolicyNotFound);
      }
      var ledger := ledgers[account];
      if orderId !in ledger.reservations {
        return ReleaseReply(true, NoReason);
      }
      if ledger.reservations[orderId].status == Reserved {
        ledger.Subtract(orderId, if settled then Settled else Released);
        assert Value() == s[account := ledger.Value()];
      }
      reply := ReleaseReply(true, NoReason);
    }

    /** The listing comes in hash map order: every active order once. */
    method ListActiveReservations(account: string, now: int) returns (listing: seq<View>, ghost visit: seq<string>)
      requires Valid()
      modifies ledgers.Values
      ensures Valid()
      ensures (Value(), Active(set v | v in listing)) == Step(old(Value()), ListActive(account, now, visit))
      ensures forall i, j :: 0 <= i < j < |listing| ==> listing[i].orderId != listing[j].orderId
    {
      ghost var s := Value();
      listing, visit := [], [];
      assert (set v | v in listing) == {};
      if account !in ledgers {
        return;
      }
      var ledger := ledgers[account];
      visit := ledger.ExpireReservations(now);
      assert Value() == s[account := Sweep(s[account], visit, now)];
      listing := ledger.ListReserved();
    }

    method GetAccountRiskPolicy(account: string) returns (reply: Reply)
      requires Valid()
      ensures (Value(), reply) == Step(old(Value()), GetPolicy(account))
    {
      Unchanged(Value(), account);
      if account !in ledgers {
        return NotFound;
      }
      reply := PolicyIs(ledgers[account].policy);
    }

    /** The ledger filed under `account`, default-constructed on first use. */
    method LedgerFor(account: string) returns (ledger: LedgerState)
      requires Valid()
      modifies this
      ensures Valid() && account in ledgers && ledger == ledgers[account]
      ensures fresh(ledgers.Values - old(ledgers.Values))
      ensures ledger.Value() == if account in old(Value()) then old(Value())[account] else EMPTY_LEDGER
      ensures Value() == old(Value())[account := ledger.Value()]
    {
      Unchanged(Value(), account);
      if account !in ledgers {
        var created := new LedgerState();
        ledgers := ledgers[account := created];
      }
      ledger := ledgers[account];
    }

    method UpsertAccountRiskPolicy(policy: Policy) returns (reply: Reply)
      requires Valid()
      modifies this, ledgers.Values
      ensures Valid() && fresh(ledgers.Values - old(ledgers.Values))
      ensures (Value(), reply) == Step(old(Value()), Upsert(policy))
    {
      ghost var s := Value();
      Unchanged(s, policy.accountId);
      if policy.accountId == "" || policy.version == 0 {
        return InvalidArgument;
      }
      var ledger := LedgerFor(policy.accountId);
      ghost var l := ledger.Value();
      if ledger.policy.version > policy.version {
        return FailedPrecondition;
      }
      ledger.policy := policy;
      assert Value() == s[policy.accountId := l.(policy := policy)];
      reply := Done;
    }
  }
}
