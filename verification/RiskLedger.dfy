/**
  The account risk ledger on values: what each RPC of AccountRiskGrpcService does to the ledger of
  one account and what it answers.  `double` amounts are modelled as `real`, 64-bit counters and
  clock readings as unbounded integers.

  Two inputs come from the environment: the clock reading `now`, and `visit`, the order in which the
  hash map hands out its entries while a sweep iterates over it.
*/
module RiskLedger {
  import opened Wrappers

  datatype Status = Reserved | Released | Settled | Expired

  datatype Reservation = Reservation(
    reservationId: string, status: Status, notional: real, margin: real, expiresAt: int)

  datatype Policy = Policy(
    accountId: string, version: nat, validUntil: int, maxNotional: real, maxMargin: real,
    maxGrossExposure: real, maxOpenOrders: nat, safetyBuffer: real, enabled: bool)

  datatype Totals = Totals(notional: real, margin: real, orders: nat)

  type Reservations = map<string, Reservation>

  datatype Ledger = Ledger(policy: Policy, totals: Totals, reservations: Reservations)

  /** The default-constructed protobuf policy and ledger. */
  const DEFAULT_POLICY := Policy("", 0, 0, 0.0, 0.0, 0.0, 0, 0.0, false)
  const ZERO := Totals(0.0, 0.0, 0)
  const EMPTY_LEDGER := Ledger(DEFAULT_POLICY, ZERO, map[])

  const DEFAULT_TTL_MS := 300000
  const RESERVATION_ID_PREFIX := "RSV-"

  // ------------------------------------------------------------------ requests and replies

  datatype Intent = Intent(
    orderId: string, price: real, quantity: nat, estimatedNotional: real, estimatedMargin: real)

  datatype Request =
    | Reserve(account: string, intent: Intent, riskConfigVersion: nat, ttlMs: int, now: int, visit: seq<string>)
    | Query(account: string, orderId: string, now: int, visit: seq<string>)
    | Release(account: string, orderId: string, settled: bool)
    | ListActive(account: string, now: int, visit: seq<string>)
    | GetPolicy(account: string)
    | Upsert(policy: Policy)

  datatype Decision = Approved | Rejected

  datatype Reason =
    | NoReason
    | PolicyNotFound
    | PolicyDisabled
    | PolicyExpired
    | VersionMismatch
    | OrderIdAlreadyTerminal
    | MaxNotionalExceeded
    | MaxMarginExceeded
    | MaxOpenOrdersExceeded

  datatype View = View(orderId: string, reservationId: string, status: Status, expiresAt: int)

  datatype Reply =
    | InvalidArgument
    | NotFound
    | FailedPrecondition
    | Decided(decision: Decision, reason: Reason, policyVersion: nat, reservationId: string, expiresAt: int)
    | Found(view: View)
    | ReleaseReply(released: bool, rejectReason: Reason)
    | Active(views: set<View>)
    | PolicyIs(policy: Policy)
    | Done

  function AccountOf(req: Request): string {
    if req.Upsert? then req.policy.accountId else req.account
  }

  // ------------------------------------------------------------------ amounts

  function NotionalOf(i: Intent): real {
    if i.estimatedNotional > 0.0 then i.estimatedNotional else i.price * (i.quantity as real)
  }

  function Max0(x: real): real {
    if x > 0.0 then x else 0.0
  }

  /** The clamped subtraction of one reservation from the running totals. */
  function ClampMinus(t: Totals, r: Reservation): Totals {
    Totals(Max0(t.notional - r.notional), Max0(t.margin - r.margin), if t.orders > 0 then t.orders - 1 else 0)
  }

  function Plus(s: Totals, t: Totals): Totals {
    Totals(s.notional + t.notional, s.margin + t.margin, s.orders + t.orders)
  }

  // ------------------------------------------------------------------ closing and sweeping

  /** Moves a reservation to a terminal status and takes its amounts out of the totals. */
  function Close(l: Ledger, k: string, status: Status): Ledger
    requires k in l.reservations
  {
    var r := l.reservations[k];
    l.(totals := ClampMinus(l.totals, r), reservations := l.reservations[k := r.(status := status)])
  }

  predicate Due(r: Reservation, now: int) {
    r.status == Reserved && r.expiresAt <= now
  }

  function ExpireOne(l: Ledger, k: string, now: int): Ledger
    requires k in l.reservations
  {
    if Due(l.reservations[k], now) then Close(l, k, Expired) else l
  }

  /** The next key the iteration hands out: the one `visit` announces, or some key still to come. */
  ghost function NextKey(todo: set<string>, visit: seq<string>): (k: string)
    requires todo != {}
    ensures k in todo
  {
    if visit != [] && visit[0] in todo then visit[0] else var k :| k in todo; k
  }

  function Rest(visit: seq<string>): seq<string> {
    if visit == [] then [] else visit[1..]
  }

  ghost function SweepFrom(l: Ledger, todo: set<string>, visit: seq<string>, now: int): Ledger
    requires todo <= l.reservations.Keys
    decreases |todo|
  {
    if todo == {} then l else
    var k := NextKey(todo, visit);
    SweepFrom(ExpireOne(l, k, now), todo - {k}, Rest(visit), now)
  }

  /** One pass of the expiry loop over all entries, in the order given by `visit`. */
  ghost function Sweep(l: Ledger, visit: seq<string>, now: int): Ledger {
    SweepFrom(l, l.reservations.Keys, visit, now)
  }

  // ------------------------------------------------------------------ the six RPCs on one ledger

  function PolicyRefusal(p: Policy, riskConfigVersion: nat, now: int): Reason {
    if !p.enabled then PolicyDisabled
    else if p.validUntil > 0 && now > p.validUntil then PolicyExpired
    else if riskConfigVersion != 0 && riskConfigVersion != p.version then VersionMismatch
    else NoReason
  }

  predicate OverCap(cap: real, buffer: real, total: real) {
    cap > 0.0 && total > cap - buffer
  }

  function CapRefusal(p: Policy, t: Totals, notional: real, margin: real): Reason {
    if OverCap(p.maxNotional, p.safetyBuffer, t.notional + notional) then MaxNotionalExceeded
    else if OverCap(p.maxMargin, p.safetyBuffer, t.margin + margin) then MaxMarginExceeded
    else if p.maxOpenOrders > 0 && t.orders + 1 > p.maxOpenOrders then MaxOpenOrdersExceeded
    else NoReason
  }

  function Refused(l: Ledger, reason: Reason): Reply {
    Decided(Rejected, reason, l.policy.version, "", 0)
  }

  function NewReservation(i: Intent, ttlMs: int, now: int): Reservation {
    Reservation(RESERVATION_ID_PREFIX + i.orderId, Reserved, NotionalOf(i), i.estimatedMargin,
                now + if ttlMs > 0 then ttlMs else DEFAULT_TTL_MS)
  }

  function Book(l: Ledger, orderId: string, r: Reservation): Ledger {
    Ledger(l.policy, Plus(l.totals, Totals(r.notional, r.margin, 1)), l.reservations[orderId := r])
  }

  /** The answer to a repeated order id. */
  function Retry(l: Ledger, r: Reservation): Reply {
    if r.status == Reserved
    then Decided(Approved, NoReason, l.policy.version, r.reservationId, r.expiresAt)
    else Decided(Rejected, OrderIdAlreadyTerminal, l.policy.version, r.reservationId, r.expiresAt)
  }

  /** ReserveOrder on a ledger that has just been swept. */
  function Admit(l: Ledger, i: Intent, riskConfigVersion: nat, ttlMs: int, now: int): (Ledger, Reply) {
    var refusal := PolicyRefusal(l.policy, riskConfigVersion, now);
    if refusal != NoReason then (l, Refused(l, refusal))
    else if i.orderId in l.reservations then (l, Retry(l, l.reservations[i.orderId]))
    else
      var r := NewReservation(i, ttlMs, now);
      var over := CapRefusal(l.policy, l.totals, r.notional, r.margin);
      if over != NoReason then (l, Refused(l, over))
      else (Book(l, i.orderId, r),
            Decided(Approved, NoReason, l.policy.version, r.reservationId, r.expiresAt))
  }

  function ViewOf(orderId: string, r: Reservation): View {
    View(orderId, r.reservationId, r.status, r.expiresAt)
  }

  function ActiveViews(m: Reservations): set<View> {
    set k | k in m && m[k].status == Reserved :: ViewOf(k, m[k])
  }

  function ReleaseIn(l: Ledger, orderId: string, settled: bool): Ledger {
    if orderId in l.reservations && l.reservations[orderId].status == Reserved
    then Close(l, orderId, if settled then Settled else Released)
    else l
  }

  predicate Malformed(req: Request) {
    match req
    case Reserve(account, i, _, _, _, _) => account == "" || i.orderId == ""
    case Query(account, orderId, _, _) => account == "" || orderId == ""
    case Release(account, orderId, _) => account == "" || orderId == ""
    case ListActive(_, _, _) => false
    case GetPolicy(_) => false
    case Upsert(p) => p.accountId == "" || p.version == 0
  }

  /** The answer when the account has no ledger (Upsert creates one instead). */
  function NoLedgerReply(req: Request): Reply
    requires !req.Upsert?
  {
    match req
    case Reserve(_, _, _, _, _, _) => Decided(Rejected, PolicyNotFound, 0, "", 0)
    case Release(_, _, _) => ReleaseReply(false, PolicyNotFound)
    case ListActive(_, _, _) => Active({})
    case _ => NotFound
  }

  function UpsertIn(l: Ledger, p: Policy): (Ledger, Reply) {
    if l.policy.version > p.version then (l, FailedPrecondition) else (l.(policy := p), Done)
  }

  /** A well-formed request against an existing ledger. */
  ghost function Serve(l: Ledger, req: Request): (Ledger, Reply) {
    match req
    case Reserve(_, i, version, ttlMs, now, visit) => Admit(Sweep(l, visit, now), i, version, ttlMs, now)
    case Query(_, orderId, now, visit) =>
      var s := Sweep(l, visit, now);
      (s, if orderId in s.reservations then Found(ViewOf(orderId, s.reservations[orderId])) else NotFound)
    case Release(_, orderId, settled) => (ReleaseIn(l, orderId, settled), ReleaseReply(true, NoReason))
    case ListActive(_, now, visit) =>
      var s := Sweep(l, visit, now);
      (s, Active(ActiveViews(s.reservations)))
    case GetPolicy(_) => (l, PolicyIs(l.policy))
    case Upsert(p) => UpsertIn(l, p)
  }

  /** Any request against the slot of its account. */
  ghost function AccountStep(slot: Option<Ledger>, req: Request): (Option<Ledger>, Reply) {
    if Malformed(req) then (slot, InvalidArgument)
    else if slot.Some? || req.Upsert? then
      var (l, reply) := Serve(if slot.Some? then slot.value else EMPTY_LEDGER, req);
      (Some(l), reply)
    else (None, NoLedgerReply(req))
  }

  // ------------------------------------------------------------------ the whole service

  type State = map<string, Ledger>

  function Slot(s: State, account: string): Option<Ledger> {
    if account in s then Some(s[account]) else None
  }

  ghost function Step(s: State, req: Request): (State, Reply) {
    var a := AccountOf(req);
    var (slot, reply) := AccountStep(Slot(s, a), req);
    (if slot.Some? then s[a := slot.value] else s, reply)
  }

  ghost function Run(s: State, reqs: seq<Request>): (r: (State, seq<Reply>))
    ensures |r.1| == |reqs|
    decreases |reqs|
  {
    if reqs == [] then (s, []) else
    var (s1, reply) := Step(s, reqs[0]);
    var (s2, replies) := Run(s1, reqs[1..]);
    (s2, [reply] + replies)
  }
}
