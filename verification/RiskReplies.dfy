/**
  What each request to the account risk service leaves behind and is answered with, in terms of its own
  fields and the entries it finds.
*/
module RiskReplies {
  import opened RiskLedger
  import opened RiskSweep
  import opened RiskRuns
  import opened RiskPolicies
  import opened Wrappers

  // ------------------------------------------------------------------ what an approved order is

  /** The entry of a new order as its request describes it. */
  predicate IsOrderOf(r: Reservation, req: Request)
    requires req.Reserve?
  {
    var i := req.intent;
    && r.reservationId == "RSV-" + i.orderId
    && r.notional == (if i.estimatedNotional > 0.0 then i.estimatedNotional else i.price * (i.quantity as real))
    && r.margin == i.estimatedMargin
    && r.expiresAt == req.now + (if req.ttlMs > 0 then req.ttlMs else 300000)
  }

  /** An approved new order is entered as its request describes it, and answered with its id and deadline. */
  lemma ApprovedOrderIs(s: State, req: Request)
    requires IsApproval(s, req) && req.intent.orderId !in Entries(s, req.account)
    ensures var m, reply := Entries(Step(s, req).0, req.account), Step(s, req).1;
            && req.intent.orderId in m && m[req.intent.orderId].status == Reserved
            && IsOrderOf(m[req.intent.orderId], req)
            && reply.reservationId == m[req.intent.orderId].reservationId
            && reply.expiresAt == m[req.intent.orderId].expiresAt
            && reply.reason == NoReason && req.account in s && reply.policyVersion == s[req.account].policy.version
    ensures forall k :: k in Entries(Step(s, req).0, req.account) && k != req.intent.orderId ==>
              k in Entries(s, req.account)
  {
    SweepEntries(s[req.account], req.visit, req.now);
  }

  /** An approved new order stays as its request describes it in every later state. */
  lemma ApprovedOrderStays(s: State, req: Request, later: seq<Request>)
    requires IsApproval(s, req) && req.intent.orderId !in Entries(s, req.account)
    ensures var m := Entries(Run(Step(s, req).0, later).0, req.account);
            req.intent.orderId in m && IsOrderOf(m[req.intent.orderId], req)
  {
    ApprovedOrderIs(s, req);
    RunExtends(Step(s, req).0, later, req.account);
  }

  // ------------------------------------------------------------------ how an order ends

  /** The request makes the account expire what is due at its reading. */
  function SweepsAt(req: Request, account: string): Option<int> {
    match req
    case Reserve(a, i, _, _, now, _) => if a == account && a != "" && i.orderId != "" then Some(now) else None
    case Query(a, orderId, now, _) => if a == account && a != "" && orderId != "" then Some(now) else None
    case ListActive(a, now, _) => if a == account then Some(now) else None
    case _ => None
  }

  predicate ReleasesOrder(req: Request, account: string, orderId: string) {
    req.Release? && req.account == account && req.orderId == orderId && account != "" && orderId != ""
  }

  /** What the request makes of a reserved order of the account. */
  function Fate(r: Reservation, req: Request, account: string, orderId: string): Status {
    if ReleasesOrder(req, account, orderId) then (if req.settled then Settled else Released)
    else if SweepsAt(req, account).Some? && r.expiresAt <= SweepsAt(req, account).value then Expired
    else Reserved
  }

  lemma StepFate(s: State, req: Request, account: string, orderId: string)
    requires orderId in Entries(s, account)
    ensures var r, m' := Entries(s, account)[orderId], Entries(Step(s, req).0, account);
            orderId in m' && SameOrder(r, m'[orderId])
            && m'[orderId].status == if r.status == Reserved then Fate(r, req, account, orderId) else r.status
  {
    StepExtends(s, req, account);
    if AccountOf(req) == account {
      match req
      case Reserve(_, _, _, _, now, visit) => SweepEntries(s[account], visit, now);
      case Query(_, _, now, visit) => SweepEntries(s[account], visit, now);
      case ListActive(_, now, visit) => SweepEntries(s[account], visit, now);
      case _ =>
    }
  }

  /**
    How a release ends an order: one still reserved at a well-formed release is, in every later state,
    settled if that release said so and released if not.
  */
  lemma ReleaseEndsAs(s: State, req: Request, later: seq<Request>)
    requires req.Release? && ReleasesOrder(req, req.account, req.orderId)
    requires req.orderId in Entries(s, req.account) && Entries(s, req.account)[req.orderId].status == Reserved
    ensures var m := Entries(Run(Step(s, req).0, later).0, req.account);
            req.orderId in m && m[req.orderId].status == if req.settled then Settled else Released
  {
    StepFate(s, req, req.account, req.orderId);
    RunExtends(Step(s, req).0, later, req.account);
  }

  /** In the run, some sweep at or after the order's deadline comes before any release of it. */
  predicate SweptInTime(r: Reservation, reqs: seq<Request>, account: string, orderId: string)
    decreases |reqs|
  {
    reqs != [] &&
    if ReleasesOrder(reqs[0], account, orderId) then false
    else if SweepsAt(reqs[0], account).Some? && r.expiresAt <= SweepsAt(reqs[0], account).value then true
    else SweptInTime(r, reqs[1..], account, orderId)
  }

  /** An order reserved now is expired after a run if and only if a sweep of the run found it due while still reserved. */
  lemma {:induction false} ExpiredIff(s: State, reqs: seq<Request>, account: string, orderId: string)
    requires orderId in Entries(s, account) && Entries(s, account)[orderId].status == Reserved
    ensures var m := Entries(Run(s, reqs).0, account);
            orderId in m &&
            (m[orderId].status == Expired <==> SweptInTime(Entries(s, account)[orderId], reqs, account, orderId))
    decreases |reqs|
  {
    if reqs != [] {
      var s1 := Step(s, reqs[0]).0;
      var r := Entries(s, account)[orderId];
      StepFate(s, reqs[0], account, orderId);
      if Entries(s1, account)[orderId].status == Reserved {
        assert Entries(s1, account)[orderId] == r;
        ExpiredIff(s1, reqs[1..], account, orderId);
      } else {
        RunExtends(s1, reqs[1..], account);
      }
    }
  }

  // ------------------------------------------------------------------ what queries show

  /** A query shows the order's id, its reservation and deadline, and the status it has at the reading. */
  lemma QueryShows(s: State, account: string, orderId: string, now: int, visit: seq<string>)
    requires account in s && account != "" && orderId != ""
    ensures var m, reply := Entries(s, account), Step(s, Query(account, orderId, now, visit)).1;
            if orderId !in m then reply == NotFound
            else && reply.Found? && reply.view.orderId == orderId
                 && reply.view.reservationId == m[orderId].reservationId
                 && reply.view.expiresAt == m[orderId].expiresAt
                 && reply.view.status ==
                    if m[orderId].status == Reserved && m[orderId].expiresAt <= now then Expired else m[orderId].status
  {
    SweepEntries(s[account], visit, now);
  }

  /** The listing shows exactly the reserved orders whose deadline is later than the reading. */
  lemma ListingShows(s: State, account: string, now: int, visit: seq<string>, v: View)
    requires account in s
    ensures var m, reply := Entries(s, account), Step(s, ListActive(account, now, visit)).1;
            reply.Active? &&
            (v in reply.views <==>
               && v.orderId in m && m[v.orderId].status == Reserved && m[v.orderId].expiresAt > now
               && v.reservationId == m[v.orderId].reservationId && v.expiresAt == m[v.orderId].expiresAt
               && v.status == Reserved)
  {
    var m := Sweep(s[account], visit, now).reservations;
    SweepEntries(s[account], visit, now);
    if v.orderId in m {
      assert ViewOf(v.orderId, m[v.orderId]) in ActiveViews(m) <==> m[v.orderId].status == Reserved by {
        if ViewOf(v.orderId, m[v.orderId]) in ActiveViews(m) {
          var k :| k in m && m[k].status == Reserved && ViewOf(k, m[k]) == ViewOf(v.orderId, m[v.orderId]);
        }
      }
    }
  }

  /** From approval to query: what a client sees of its order after any run. */
  lemma OrderSeen(s: State, req: Request, between: seq<Request>, now: int, visit: seq<string>)
    requires IsApproval(s, req) && req.intent.orderId !in Entries(s, req.account) && req.intent.orderId != "" && req.account != ""
    ensures var s2 := Run(Step(s, req).0, between).0;
            var reply := Step(s2, Query(req.account, req.intent.orderId, now, visit)).1;
            && reply.Found? && reply.view.orderId == req.intent.orderId
            && reply.view.reservationId == "RSV-" + req.intent.orderId
            && reply.view.expiresAt == req.now + if req.ttlMs > 0 then req.ttlMs else 300000
  {
    ApprovedOrderStays(s, req, between);
    QueryShows(Run(Step(s, req).0, between).0, req.account, req.intent.orderId, now, visit);
  }

  // ------------------------------------------------------------------ refusals and errors

  /** Why a reserve request is rejected: the first of the checks, in this order, that speaks against it. */
  lemma RejectedBecause(s: State, req: Request)
    requires req.Reserve? && req.account in s && req.account != "" && req.intent.orderId != ""
    requires Step(s, req).1.Decided? && Step(s, req).1.decision == Rejected
    ensures var p, i, reply := s[req.account].policy, req.intent, Step(s, req).1;
            var t := Sweep(s[req.account], req.visit, req.now).totals;
            var amount := if i.estimatedNotional > 0.0 then i.estimatedNotional else i.price * (i.quantity as real);
            && reply.policyVersion == p.version
            && reply.reason ==
               if !p.enabled then PolicyDisabled
               else if p.validUntil > 0 && req.now > p.validUntil then PolicyExpired
               else if req.riskConfigVersion != 0 && req.riskConfigVersion != p.version then VersionMismatch
               else if i.orderId in Entries(s, req.account) then OrderIdAlreadyTerminal
               else if p.maxNotional > 0.0 && t.notional + amount > p.maxNotional - p.safetyBuffer then MaxNotionalExceeded
               else if p.maxMargin > 0.0 && t.margin + i.estimatedMargin > p.maxMargin - p.safetyBuffer then MaxMarginExceeded
               else MaxOpenOrdersExceeded
  {
    SweepEntries(s[req.account], req.visit, req.now);
  }

  /** Malformed requests, and only they, are answered as such and change nothing. */
  lemma InvalidIff(s: State, req: Request)
    ensures Step(s, req).1 == InvalidArgument <==>
            || (req.Reserve? && (req.account == "" || req.intent.orderId == ""))
            || (req.Query? && (req.account == "" || req.orderId == ""))
            || (req.Release? && (req.account == "" || req.orderId == ""))
            || (req.Upsert? && (req.policy.accountId == "" || req.policy.version == 0))
    ensures Step(s, req).1 == InvalidArgument ==> Step(s, req).0 == s
  {
    var a := AccountOf(req);
    if a in s {
      assert s[a := s[a]] == s;
    }
  }

  /** What a request for an account without a policy is answered; it changes nothing. */
  lemma NoPolicyYet(s: State, req: Request)
    requires !req.Upsert? && req.account !in s && Step(s, req).1 != InvalidArgument
    ensures Step(s, req).0 == s
    ensures Step(s, req).1 ==
            match req {
              case Reserve(_, _, _, _, _, _) => Decided(Rejected, PolicyNotFound, 0, "", 0)
              case Release(_, _, _) => ReleaseReply(false, PolicyNotFound)
              case ListActive(_, _, _) => Active({})
              case _ => NotFound
            }
  {
    InvalidIff(s, req);
  }

  /** A well-formed policy replaces an older one or one of its own version, and nothing but the policy changes. */
  lemma PolicyReplaced(s: State, p: Policy)
    requires p.accountId != "" && p.version != 0
    ensures var (s', reply) := Step(s, Upsert(p));
            if p.accountId in s && s[p.accountId].policy.version > p.version then s' == s && reply == FailedPrecondition
            else
              && reply == Done && s'.Keys == s.Keys + {p.accountId}
              && s'[p.accountId].policy == p && Entries(s', p.accountId) == Entries(s, p.accountId)
              && s'[p.accountId].totals == (if p.accountId in s then s[p.accountId].totals else Totals(0.0, 0.0, 0))
              && forall a :: a in s && a != p.accountId ==> s'[a] == s[a]
  {
    if p.accountId in s {
      assert s[p.accountId := s[p.accountId]] == s;
    }
  }
}
