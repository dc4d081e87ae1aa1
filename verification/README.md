# qtrade services: model and proofs

Dafny models of the three stateful parts of the qtrade services, and proofs about them. Check with
`dafny verify dfyconfig.toml`.

**1. The account risk ledger** (`Risk*.dfy`). Per account the service keeps a policy, a map from order
id to reservation, and running totals of notional, margin and open orders. `RiskLedger` is the
specification: a step function on values. `RiskService` is the program: ledgers are objects updated in
place, and each RPC is proved to take exactly that step. The other modules prove properties of the
step and of every run: `RiskSweep` (the expiry loop), `RiskAccounting` (the totals are a correct
cache), `RiskRuns` (nothing is lost), `RiskPolicies` (policies and caps), `RiskAccounts` (accounts do
not interfere), `RiskEager` (lazy expiry refines eager expiry), `RiskAdmission` (retries, monotone
admission), `RiskSigns` and `RiskExcess` (negative amounts), `RiskReplies` (what each request
leaves behind and is answered with).

**2. SQL text and the account RPCs above it** (`Sql*.dfy`, `Account*.dfy`, `Decimal.dfy`). `SqlText` holds the loops
that print literals, assignment lists and WHERE clauses; `SqlParser` a reader for the printed
fragment; `SqlRoundTrip` the agreement of the two; `SqlSpelled` the printed text letter by letter; `SqlEngine` a database that executes such text,
with transactions and calls that may fail, and the DML helpers. On top, `AccountDao`, `AccountTables`
and `AccountService` are the DAO calls and the handlers of AddAccount, UpdateAccount and GetCredential,
proved against the plain map of `AccountStore`; `AccountRuns` looks at whole histories.
`HandlerPipeline` is the staged `Run` that surrounds such handlers.

**3. Completion-queue call tags** (`CallTag*.dfy`, `ConfigScope.dfy`). `CallTags` is the state machine
of any number of self-owning tags and the multiset of their outstanding operations; the environment
completes operations one at a time, in any order, with any `ok`. `CallTagProgram` is the program, with
tags as objects that create their successors and delete themselves, proved to take the same steps.
`CallTagStreams` proves what clients see and that somebody listens; `CallTagObserved` states the
stream property on the delivered completions alone; `CallTagAnswers` says what each completion does for
the client. `ConfigScope` is the query behind each poll.

## What the model assumes

- `double` amounts are `real`; counters, versions and times are unbounded integers.
- The clock reading is an input of each RPC. Each RPC body is one atomic step (one mutex guards all
  ledgers), but readings may arrive in any order unless a lemma says otherwise.
- The order in which the hash map is iterated is an input (`visit`), or the method's own choice.
- A reservation without a requested lifetime lives for the constant 300000 ms of
  `src/qtrade_service/service/account_risk_service/grpc/account_risk_grpc_service.cpp:158`; the
  configured default (`src/qtrade_service/common/config/qtrade_account_risk_service_bootstrap_config.cpp:37`)
  does not reach that code.
- SQL literals have no backslash escapes (character string literal, section 5.3 of ISO/IEC 9075-2),
  table and column names are plain identifiers, strings compare exactly, cells are text.
- Transactions run one after the other, a transaction that is not committed leaves nothing behind
  (also when the commit or the rollback itself reports failure), and an UPDATE reports the rows it
  matched. Every database call may fail; the ghost flag `faulted` says whether one did.
- Completions are delivered one at a time (one poller thread). What a tag reads while it handles a
  completion - the request, the polled version, whether the database is ready - comes with the event.
  `delete this` removes the tag from the handler's table of live tags.

## What the proofs found

- A retried order id is approved without looking at the caps, so after a limit was lowered an
  approval can leave it exceeded (`RetryApprovedOverCap`; `ApprovalWithinCapsIff` says exactly when).
  Without negative amounts the excess never grows (`ExcessNeverGrows`).
- The sign of price and margin is not checked. With a negative amount the clamp can make the totals
  wrong (`NegativeAmountBreaksTotals` gives runs): they survive every sequence of requests that book
  nothing if and only if no reserved entry is negative or at most one is reserved (`StaysExactIff`).
  A sweep's result can then depend on the hash map's order (`NegativeAmountMakesOrderMatter` gives
  runs; `OrderIrrelevantIff` says exactly when). The totals err only upwards (`TotalsErrUpwards`), so an
  approval of a new order still respects the caps. But the account need not stay within them: a
  negative reservation makes room for a large one, and releasing it leaves the large one over the cap
  with no policy change (`ReleaseExceedsCap`, for instance -100 and then 100 under a cap of 10;
  `ExcessNeverGrowsIff` says exactly when the excess can grow).
- The clock is read before the lock is taken, so readings can go back. At a reading the service
  answers as an eager rule would if and only if no open order is marked expired whose deadline is
  later than the reading (`AgreeIff`); after a run where that fails it approves an order for which
  the eager rule has no room (`BackwardClockDisagrees`).
- A WHERE clause leaves out empty values, so a list of only empty values selects every row
  (`SelectsEverythingIff`). The handlers' validation of the account id keeps them away from that.
- A row that cannot be fetched reads as the end of the result, so a select can succeed with too few
  rows (`SelectTradingAccounts`, `SelectCredentials`); the handlers then answer that nothing was found.
- UpdateAccount with an empty status makes the account active again, a disabled one included: the
  same default as for a new account (`ReadAfterUpdate`).
- Listening does not recover. A listener is lost when an operation of the waiting subscribe tag or of
  the GetEngineConfig tag completes with `ok` false, or when the database is down at the moment its
  successor is spawned; the listener is then gone for good. Nothing else costs a listener, failing
  streams in particular (`ListenerAvailableIff`, `SilenceStays`).
- A subscribe tag whose Finish operation completes with `ok` false is never deleted: it stays live
  with no operation outstanding (`FailedFinishStays`). This is the only exception to tag ownership
  (`QueueOwnership`).
- A notification that throws makes the whole request fail, although one that returns an error does
  not (`SuccessIff`).

## Model

| member | source | states |
|---|---|---|
| RiskService.LedgerState.ExpireReservations | src/qtrade_service/service/account_risk_service/grpc/account_risk_grpc_service.cpp:67-78 | the loop over the hash map, in whatever order, is the specified sweep for that order |
| RiskService.LedgerState.Subtract | src/qtrade_service/service/account_risk_service/grpc/account_risk_grpc_service.cpp:222-228 | one entry becomes terminal and its amounts leave the totals, clamped at zero; nothing else changes |
| RiskService.LedgerState.Add | src/qtrade_service/service/account_risk_service/grpc/account_risk_grpc_service.cpp:164-167 | one entry is booked and its amounts enter the totals |
| RiskService.AccountRiskGrpcService.Decide | src/qtrade_service/service/account_risk_service/grpc/account_risk_grpc_service.cpp:114-172 | policy checks, retry, cap checks and booking take the specified admission step, reply included |
| RiskService.AccountRiskGrpcService.ReserveOrder | src/qtrade_service/service/account_risk_service/grpc/account_risk_grpc_service.cpp:96-173 | the RPC takes the specified step on the whole service, every error reply included |
| RiskService.AccountRiskGrpcService.QueryReservation | src/qtrade_service/service/account_risk_service/grpc/account_risk_grpc_service.cpp:175-199 | the RPC takes the specified step; it sweeps before it looks |
| RiskService.AccountRiskGrpcService.ReleaseOrder | src/qtrade_service/service/account_risk_service/grpc/account_risk_grpc_service.cpp:201-232 | the RPC takes the specified step; it does not sweep |
| RiskService.AccountRiskGrpcService.ListActiveReservations | src/qtrade_service/service/account_risk_service/grpc/account_risk_grpc_service.cpp:234-255 | the listing holds every order still reserved after the sweep, each exactly once |
| RiskService.AccountRiskGrpcService.GetAccountRiskPolicy | src/qtrade_service/service/account_risk_service/grpc/account_risk_grpc_service.cpp:257-268 | answers with the policy in force and changes nothing |
| RiskService.AccountRiskGrpcService.LedgerFor | src/qtrade_service/service/account_risk_service/grpc/account_risk_grpc_service.cpp:279 | a missing ledger is created default-constructed, the others stay as they were |
| RiskService.AccountRiskGrpcService.UpsertAccountRiskPolicy | src/qtrade_service/service/account_risk_service/grpc/account_risk_grpc_service.cpp:270-285 | the RPC takes the specified step; a version never decreases |
| RiskReplies.ApprovedOrderIs | src/qtrade_service/service/account_risk_service/grpc/account_risk_grpc_service.cpp:140-172 | an approved new order is entered at its estimate if positive and else price times quantity, with its margin, the id "RSV-" and order id, and a deadline after the requested lifetime or 300000 ms; the answer carries id and deadline |
| RiskReplies.ApprovedOrderStays | src/qtrade_service/service/account_risk_service/grpc/account_risk_grpc_service.cpp:140-172 | the same in every later state |
| RiskReplies.OrderSeen | src/qtrade_service/service/account_risk_service/grpc/account_risk_grpc_service.cpp:158-198 | any later query of an approved order shows that id and deadline |
| RiskReplies.RejectedBecause | src/qtrade_service/service/account_risk_service/grpc/account_risk_grpc_service.cpp:116-156 | the reason and policy version of a rejection: the first check, in the source's order, that speaks against the order |
| RiskReplies.StepFate | src/qtrade_service/service/account_risk_service/grpc/account_risk_grpc_service.cpp:67-232 | what every request makes of every reserved order: settled or released by its release, expired by a sweep at or after its deadline, else still reserved |
| RiskReplies.ReleaseEndsAs | src/qtrade_service/service/account_risk_service/grpc/account_risk_grpc_service.cpp:221-229 | an order reserved at its release is, in every later state, settled if the release said so and released if not |
| RiskReplies.ExpiredIff | src/qtrade_service/service/account_risk_service/grpc/account_risk_grpc_service.cpp:67-78 | an order is expired after a run if and only if a sweep of the run found it due while still reserved |
| RiskReplies.QueryShows | src/qtrade_service/service/account_risk_service/grpc/account_risk_grpc_service.cpp:187-198 | a query shows order id, reservation id, deadline and the status at the reading |
| RiskReplies.ListingShows | src/qtrade_service/service/account_risk_service/grpc/account_risk_grpc_service.cpp:243-253 | the listing shows exactly the reserved orders with a later deadline, field by field |
| RiskReplies.InvalidIff | src/qtrade_service/service/account_risk_service/grpc/account_risk_grpc_service.cpp:99-101 | exactly the malformed requests are answered as invalid, and they change nothing |
| RiskReplies.NoPolicyYet | src/qtrade_service/service/account_risk_service/grpc/account_risk_grpc_service.cpp:105-110 | what each request for an account without a policy is answered; it changes nothing |
| RiskReplies.PolicyReplaced | src/qtrade_service/service/account_risk_service/grpc/account_risk_grpc_service.cpp:274-284 | a policy replaces one of at most its version, and nothing but the policy changes |
| RiskSweep.SweepEntries | src/qtrade_service/service/account_risk_service/grpc/account_risk_grpc_service.cpp:67-70 | a sweep expires exactly the due entries, whatever the order and the amounts |
| RiskSweep.SweepTotals | src/qtrade_service/service/account_risk_service/grpc/account_risk_grpc_service.cpp:71-75 | the entry-by-entry clamped loop subtracts the sum of the due entries, clamped once |
| RiskSweep.SweepOrderIrrelevant | src/qtrade_service/service/account_risk_service/grpc/account_risk_grpc_service.cpp:67-78 | with non-negative amounts the result does not depend on the iteration order |
| RiskSweep.SweepTwice | src/qtrade_service/service/account_risk_service/grpc/account_risk_grpc_service.cpp:67-78 | sweeping at t1 and then at t2 is one sweep at the later of the two |
| RiskSigns.SweepTwiceInSomeOrder | src/qtrade_service/service/account_risk_service/grpc/account_risk_grpc_service.cpp:67-78 | the same for amounts of any sign, for some order of the hash map |
| RiskSweep.SweepLeavesOnlyLive | src/qtrade_service/service/account_risk_service/grpc/account_risk_grpc_service.cpp:67-78 | after a sweep every active reservation expires strictly later than now |
| RiskSigns.OrderIrrelevantIff | src/qtrade_service/service/account_risk_service/grpc/account_risk_grpc_service.cpp:67-78 | for any totals and amounts, a sweep's result is independent of the iteration order if and only if, for notional and margin each, no due amount is negative, or the total covers the non-negative ones, or no due amount exceeds a negative total, or the due amounts are all equal |
| RiskSigns.NegativeAmountMakesOrderMatter | src/qtrade_service/service/account_risk_service/grpc/account_risk_grpc_service.cpp:67-78 | runs from the empty service, one for every two orders of opposite sign due together, after which the next sweep leaves different totals for different orders |
| RiskSigns.NegativeAmountBreaksTotals | src/qtrade_service/service/account_risk_service/grpc/account_risk_grpc_service.cpp:140-143 | runs from the empty service, one for every such two orders, after which a release leaves totals that are not the sums over the reserved entries |
| RiskAccounting.ClampNeverFires | src/qtrade_service/service/account_risk_service/grpc/account_risk_grpc_service.cpp:224-228 | on an exact ledger with non-negative amounts no subtraction goes below zero |
| RiskAccounting.ExactAccounting | src/qtrade_service/service/account_risk_service/grpc/account_risk_grpc_service.cpp:67-232 | after every run an account's order count is the number of its reserved entries, and if no request for it books a negative amount its notional and margin are their sums |
| RiskAccounting.TotalsErrUpwards | src/qtrade_service/service/account_risk_service/grpc/account_risk_grpc_service.cpp:67-232 | whatever the signs, after every run an account's notional and margin are at least the sums over its reserved entries, and its order count is their number |
| RiskAccounting.StaysExactIff | src/qtrade_service/service/account_risk_service/grpc/account_risk_grpc_service.cpp:67-78 | exact totals survive every sequence of releases, sweeps and other requests that book nothing if and only if no reserved entry is negative or at most one is reserved |
| RiskRuns.RunExtends | src/qtrade_service/service/account_risk_service/grpc/account_risk_grpc_service.cpp:67-232 | over any run entries are never removed, keep id, amounts and deadline, and terminal statuses stick |
| RiskRuns.RunConserves | src/qtrade_service/service/account_risk_service/grpc/account_risk_grpc_service.cpp:159-167 | over any run the sums over all entries grow by exactly what was newly approved |
| RiskRuns.Conservation | src/qtrade_service/service/account_risk_service/grpc/account_risk_grpc_service.cpp:67-232 | everything ever approved is active, released, settled or expired, amount by amount |
| RiskPolicies.PolicyHistory | src/qtrade_service/service/account_risk_service/grpc/account_risk_grpc_service.cpp:275-283 | ledgers are filed under their policy's account with a non-zero version, and no version ever decreases |
| RiskPolicies.CreatedOnlyWhenPermitted | src/qtrade_service/service/account_risk_service/grpc/account_risk_grpc_service.cpp:114-167 | an entry appears if and only if a reserve request for it is approved, and then the policy was enabled, unexpired and of the requested version |
| RiskPolicies.NewOrderApprovedIff | src/qtrade_service/service/account_risk_service/grpc/account_risk_grpc_service.cpp:112-172 | a new order is approved if and only if the policy permits it and it fits under every cap on top of the totals cached after the sweep, which are the live reservations re-summed where no negative amount was booked |
| RiskPolicies.ApprovedFits | src/qtrade_service/service/account_risk_service/grpc/account_risk_grpc_service.cpp:112-172 | in every reachable state, whatever the signs, an approved new order fits on top of the live reservations, re-summed |
| RiskPolicies.ApprovalWithinCapsIff | src/qtrade_service/service/account_risk_service/grpc/account_risk_grpc_service.cpp:127-156 | in every reachable state, whatever the signs, an approval leaves the re-summed amounts and count within the caps if and only if the order is new or the live reservations were within them before |
| RiskPolicies.RetryApprovedOverCap | src/qtrade_service/service/account_risk_service/grpc/account_risk_grpc_service.cpp:128-138 | a run of three requests after which a retry is approved over a lowered cap |
| RiskPolicies.ExcessNeverGrows | src/qtrade_service/service/account_risk_service/grpc/account_risk_grpc_service.cpp:144-167 | between policy changes the excess over a lowered cap never grows, bookings included, where no negative amount is booked |
| RiskPolicies.OrderExcessNeverGrows | src/qtrade_service/service/account_risk_service/grpc/account_risk_grpc_service.cpp:148-149 | the order count keeps this for amounts of any sign |
| RiskExcess.ReleaseExceedsCap | src/qtrade_service/service/account_risk_service/grpc/account_risk_grpc_service.cpp:140-156 | runs from the empty service: under a cap on the notional any two orders that fit only together are both approved within it, and releasing the negative one leaves the other over it |
| RiskExcess.ExcessNeverGrowsIff | src/qtrade_service/service/account_risk_service/grpc/account_risk_grpc_service.cpp:67-78 | over all sequences without bookings and policy changes, the excess of the re-summed notional or margin never grows if and only if the cap is not set, or the non-negative reserved amounts fit under it by themselves, or no reserved amount is negative |
| RiskAccounts.SerialProjection | src/qtrade_service/service/account_risk_service/grpc/account_risk_grpc_service.cpp:96-285 | the final ledger and all replies of an account in an interleaved run equal those of its requests run alone |
| RiskEager.ActiveListAgreesIff | src/qtrade_service/service/account_risk_service/grpc/account_risk_grpc_service.cpp:234-255 | whatever the earlier readings, the active list at a reading is the ideal eager one if and only if no open order is marked expired whose deadline is later than the reading |
| RiskEager.AgreeIff | src/qtrade_service/service/account_risk_service/grpc/account_risk_grpc_service.cpp:96-255 | the same condition is exact for all replies: at a reading every request is answered as the ideal ledger answers it, if and only if it holds |
| RiskEager.EarlyIff | src/qtrade_service/service/account_risk_service/grpc/account_risk_grpc_service.cpp:67-78 | the condition in terms of amounts: nothing alive at the reading is marked expired |
| RiskEager.IdealSums | src/qtrade_service/service/account_risk_service/grpc/account_risk_grpc_service.cpp:67-78 | at a reading the ideal ledger counts what the lazy one counts after its sweep, plus the orders alive that are marked expired |
| RiskEager.LinkKeptIff | src/qtrade_service/service/account_risk_service/grpc/account_risk_grpc_service.cpp:96-285 | whatever the readings and amounts, a step keeps the two ledgers linked order by order if and only if no permitted new order fits on top of only one of: the lazy totals after the sweep, and the live reservations with those expired too early |
| RiskEager.NeverStricter | src/qtrade_service/service/account_risk_service/grpc/account_risk_grpc_service.cpp:140-156 | with non-negative amounts the lazy service approves whatever the ideal one does, and they decide alike exactly if an order that fits on the live reservations still fits with those expired too early |
| RiskEager.RunAgrees | src/qtrade_service/service/account_risk_service/grpc/account_risk_grpc_service.cpp:67-285 | every reply to an account in a run agrees as long as the condition holds at each of its readings |
| RiskEager.LazyRefinesEager | src/qtrade_service/service/account_risk_service/grpc/account_risk_grpc_service.cpp:67-255 | from the empty service, if an account's readings never go back and its amounts are not negative, every reply to it in any run equals that of an ideal ledger that kills orders at their deadline and re-sums the live ones; only the label of a terminal order may differ |
| RiskEager.BackwardClockDisagrees | src/qtrade_service/service/account_risk_service/grpc/account_risk_grpc_service.cpp:103-112 | a run from the empty service with readings out of order after which a new order is approved that the ideal ledger rejects |
| RiskAdmission.RetrySafety | src/qtrade_service/service/account_risk_service/grpc/account_risk_grpc_service.cpp:112-138 | reserving an approved order again, after anything, changes the ledger only as a sweep does and answers with the original id and deadline, approved exactly if still reserved |
| RiskAdmission.ReleaseOnce | src/qtrade_service/service/account_risk_service/grpc/account_risk_grpc_service.cpp:214-231 | a second release, after anything, changes nothing and is confirmed |
| RiskAdmission.AdmissionMonotone | src/qtrade_service/service/account_risk_service/grpc/account_risk_grpc_service.cpp:140-156 | an approvable order stays approvable after any departures of others and for smaller amounts |
| SqlText.EscapeSqlLiteral | src/qtrade_service/framework/dao/sql_utils.cpp:10-21 | the loop doubles every quote and copies the rest, which BodyReads and BodyInverse show to be reversible |
| SqlText.AppendStringEq | src/qtrade_service/framework/dao/sql_utils.cpp:23-30 | an empty value appends nothing; any other appends its keyword and condition and sets the flag |
| SqlText.BuildAssignments | src/qtrade_service/framework/dao/dml_utils.cpp:18-27 | the loop prints all assignments, comma-separated, in order |
| SqlText.BuildInsertColumns | src/qtrade_service/framework/dao/dml_utils.cpp:32-46 | the loop prints the columns and, in the same order, their literals |
| SqlText.BuildWhereSql | src/qtrade_service/framework/dao/dml_utils.cpp:110-121 | the loop prints exactly the conditions with non-empty values, joined by AND, in order |
| SqlRoundTrip.BodyReads | src/qtrade_service/framework/dao/sql_utils.cpp:10-21 | for any value, a reader finds the literal's own closing quote and gets the value back |
| SqlRoundTrip.BodyInverse | src/qtrade_service/framework/dao/sql_utils.cpp:10-21 | whatever is read as a literal is the escaped form of the value read |
| SqlRoundTrip.WhereReads | src/qtrade_service/framework/dao/dml_utils.cpp:110-121 | a printed WHERE clause reads back as exactly its conditions |
| SqlRoundTrip.RenderedReadsBack | src/qtrade_service/framework/dao/dml_utils.cpp:123-217 | every rendered INSERT, UPDATE, DELETE, COUNT and SELECT reads back as itself, for arbitrary value strings |
| SqlRoundTrip.ParseExactly | src/qtrade_service/framework/dao/dml_utils.cpp:123-217 | a text is read as a statement if and only if it is that statement's rendering, so renderings are unambiguous |
| SqlSpelled.RenderSpelled | src/qtrade_service/framework/dao/dml_utils.cpp:123-217 | every statement sent to the database, letter by letter: heads, commas, " SET ", ") VALUES (", " WHERE ", " = '" and doubled quotes |
| SqlSpelled.WhereSpelled | src/qtrade_service/framework/dao/sql_utils.cpp:23-30 | the clause is " WHERE " and the conditions column = 'value', joined by " AND " |
| SqlSpelled.PasswordClause | src/qtrade_service/service/account_service/handler/get_credential_handler.cpp:64-66 | the WHERE of every credential read and update requires the account and the password type |
| SqlSpelled.AccountColumns | src/qtrade_service/dao/account_service/trading_account.cpp:55-62 | the columns written for an account by name, with the default status |
| SqlSpelled.CredentialColumns | src/qtrade_service/dao/account_service/account_credential.cpp:55-64 | the columns written for a credential by name, with type 1 and the stub key |
| SqlEngine.SelectsExactly | src/qtrade_service/framework/dao/dml_utils.cpp:110-121 | a condition list selects exactly the rows that agree with each of its non-empty values |
| SqlEngine.SelectsEverythingIff | src/qtrade_service/framework/dao/dml_utils.cpp:110-172 | it selects every possible row if and only if all its values are empty |
| SqlEngine.DeletePartitions | src/qtrade_service/framework/dao/dml_utils.cpp:139-154 | DELETE removes exactly the selected rows and loses no other |
| SqlEngine.RowsInOrder | src/qtrade_service/framework/dao/dml_utils.cpp:139-217 | selected and kept rows stay in table order |
| SqlEngine.UpdateTouchesExactly | src/qtrade_service/framework/dao/dml_utils.cpp:156-172 | UPDATE sets exactly the listed columns, each to the value listed last for it, in exactly the selected rows |
| SqlEngine.InsertRow | src/qtrade_service/framework/dao/dml_utils.cpp:123-137 | the executed text appends one row with the given columns, or fails and changes nothing |
| SqlEngine.DeleteRows | src/qtrade_service/framework/dao/dml_utils.cpp:139-154 | the executed text removes the rows that match the non-empty conditions and reports their number |
| SqlEngine.UpdateRows | src/qtrade_service/framework/dao/dml_utils.cpp:156-172 | the executed text overwrites the columns of the matching rows only and reports their number |
| SqlEngine.CountRows | src/qtrade_service/framework/dao/dml_utils.cpp:174-198 | the number read from the one-row result is the number of matching rows; every failing step, down to a missing row or cell, is a failure |
| Decimal.IntReads | src/qtrade_service/framework/dao/dml_utils.cpp:70-74 | an integer printed into a statement reads back as itself |
| SqlEngine.SelectRows | src/qtrade_service/framework/dao/dml_utils.cpp:200-217 | returns the matching rows in table order |
| AccountDao.Insert | src/qtrade_service/dao/account_service/trading_account.cpp:64-84 | inserts record by record; on a failure exactly the records before it are in |
| AccountDao.TradingRecordRoundTrip | src/qtrade_service/dao/account_service/trading_account.cpp:55-62 | any record written to a row is read back as it was, absent fields included |
| AccountDao.CredentialRecordRoundTrip | src/qtrade_service/dao/account_service/account_credential.cpp:55-64 | any record written to a row is read back as it was, absent fields and credential type included |
| AccountDao.CountTradingAccounts | src/qtrade_service/dao/account_service/trading_account.cpp:110-113 | counts the rows that match the record's fields |
| AccountDao.SelectTradingAccounts | src/qtrade_service/dao/account_service/trading_account.cpp:115-128 | the matching rows as records, in order, up to the first that cannot be fetched; all of them unless a call failed |
| AccountDao.SelectCredentials | src/qtrade_service/dao/account_service/account_credential.cpp:118-131 | the matching rows as records, in order, up to the first that cannot be fetched; all of them unless a call failed |
| AccountTables.KeySelects | src/qtrade_service/service/account_service/handler/get_credential_handler.cpp:46-68 | the handlers' keys select the account's one row in either table, or none |
| AccountTables.KeyUpdates | src/qtrade_service/service/account_service/handler/update_account_handler.cpp:61-98 | updating both tables through these keys is replacing one account of the map |
| AccountTables.UpdateAccountRow | src/qtrade_service/dao/account_service/trading_account.cpp:99-108 | the account table then holds the updated map, the credential table the old one |
| AccountTables.UpdateCredential | src/qtrade_service/dao/account_service/account_credential.cpp:102-111 | both tables then hold the updated map |
| AccountTables.InsertAccount | src/qtrade_service/service/account_service/handler/add_account_handler.cpp:82-87 | the account table then holds the map with the new account, the credential table the old one |
| AccountTables.InsertCredential | src/qtrade_service/service/account_service/handler/add_account_handler.cpp:89-99 | both tables then hold the map with the new account |
| AccountTables.ColumnLists | src/qtrade_service/service/account_service/logic/trading_account_converter.cpp:10-18 | the columns written for a message are those of the account it stands for, with the default status |
| AccountTables.RecordsReadBack | src/qtrade_service/dao/account_service/trading_account.hpp:113-121 | the rows of an account read back as its record and its password credential |
| AccountStore.RepresentsUnique | src/qtrade_service/dao/account_service/account_credential.cpp:55-64 | two tables represent at most one map: nothing of an account is lost in its rows |
| AccountStore.ExactlyOneRow | src/qtrade_service/service/account_service/handler/add_account_handler.cpp:61-99 | in every represented state each account has exactly one account row and one password row, and no other account has any |
| AccountStore.AddSucceedsIff | src/qtrade_service/service/account_service/handler/add_account_handler.cpp:37-106 | when adding succeeds, what it stores, and the code of every failure that is not the database's |
| AccountStore.UpdateSucceedsIff | src/qtrade_service/service/account_service/handler/update_account_handler.cpp:38-117 | when updating succeeds, what it stores, and the code of every failure that is not the database's |
| AccountStore.GetSucceedsIff | src/qtrade_service/service/account_service/handler/get_credential_handler.cpp:28-86 | when a credential is granted, what it shows, and the code of every refusal |
| AccountService.CodecRoundTrip | src/qtrade_service/service/account_service/logic/credential_codec.cpp:12-30 | whatever encrypts decrypts to itself, and only the empty password does not encrypt |
| AccountService.EncryptCredential | src/qtrade_service/service/account_service/logic/credential_codec.cpp:12-20 | computes the encryption of CodecRoundTrip, key id included, or fails |
| AccountService.DecryptCredential | src/qtrade_service/service/account_service/logic/credential_codec.cpp:22-30 | computes the decryption of CodecRoundTrip, or fails |
| AccountService.AccountGrpcService.AddAccount | src/qtrade_service/service/account_service/handler/add_account_handler.cpp:24-42 | takes the map's step, or fails and changes nothing; exactly the map's step if no database call failed |
| AccountService.AccountGrpcService.AddBusiness | src/qtrade_service/service/account_service/handler/add_account_handler.cpp:49-107 | success means the account was new and is now there with its password; any failure leaves the map as it was, and without a database fault it means a duplicate |
| AccountService.AccountGrpcService.UpdateAccount | src/qtrade_service/service/account_service/handler/update_account_handler.cpp:24-43 | takes the map's step, or fails and changes nothing; exactly the map's step if no database call failed |
| AccountService.AccountGrpcService.UpdateBusiness | src/qtrade_service/service/account_service/handler/update_account_handler.cpp:50-117 | success replaces record and, if one is given, password of an existing account, in both tables or neither |
| AccountService.AccountGrpcService.UpdatePassword | src/qtrade_service/service/account_service/handler/update_account_handler.cpp:77-109 | inside the transaction the credential table catches up with the account table |
| AccountService.AccountGrpcService.GetCredential | src/qtrade_service/service/account_service/handler/get_credential_handler.cpp:28-86 | changes nothing and answers as the map does, or with a failure |
| AccountRuns.ServeCalls | src/qtrade_service/service/account_service/handler/update_account_handler.cpp:50-117 | serving any calls over any represented tables, with the database failing anywhere, makes a history |
| AccountRuns.CredentialIsLastCommitted | src/qtrade_service/service/account_service/handler/get_credential_handler.cpp:40-86 | in any history a successful GetCredential returns the password of the last committed call that set it, or the one the account started with if none did |
| AccountRuns.ReadAfterUpdate | src/qtrade_service/service/account_service/handler/get_credential_handler.cpp:58-61 | in any history, a credential granted after a successful update, with only calls for other accounts in between, shows the update's fields and the password last set, and none is granted if the update disabled the account |
| AccountRuns.FailuresLeaveNothing | src/qtrade_service/service/account_service/handler/update_account_handler.cpp:50-117 | in any history the map is what the successful calls alone, served without failures, produce |
| HandlerPipeline.Run | include/qtrade/grpc/grpc_handler_interface.hpp:128-246 | the staged code with its flag and exceptions produces the deserved result and trace for any handler |
| HandlerPipeline.TryStages | include/qtrade/grpc/grpc_handler_interface.hpp:148-233 | how the try block ends, and that an escaping exception finds the flag set exactly if the stage needs undoing |
| HandlerPipeline.DeservedRollbacks | include/qtrade/grpc/grpc_handler_interface.hpp:190-244 | exactly how often rollback runs, for every stage that can stop a run |
| HandlerPipeline.RollbackDiscipline | include/qtrade/grpc/grpc_handler_interface.hpp:190-244 | stages in order, then rollbacks; none before the business or in the notification, two only if the first threw |
| HandlerPipeline.SuccessIff | include/qtrade/grpc/grpc_handler_interface.hpp:148-233 | success if and only if every stage but the notification succeeded and the notification did not throw |
| HandlerPipeline.StagesInOrder | include/qtrade/grpc/grpc_handler_interface.hpp:148-233 | the stages by name, in order |
| HandlerPipeline.FailureAnswers | include/qtrade/grpc/grpc_handler_interface.hpp:148-245 | the code answered for every stage that can stop a run and every way it can |
| ConfigScope.MakeConfigScope | src/qtrade_service/service/config_service/grpc/config_scope.cpp:18-35 | the tenant is the default one, and the engine the requested one or, if none is, the default one |
| ConfigScope.QueryEngineConfig | src/qtrade_service/service/config_service/grpc/config_scope.cpp:37-70 | a failed query has version 0, a missing row version 1, and a configuration with a version names its engine |
| ConfigScope.GetEngineConfig | src/qtrade_service/service/config_service/grpc/config_grpc_async_handler.cpp:178-184 | whatever engine is asked for, a configuration with a version names one |
| CallTags.DeliverOwned | src/qtrade_service/service/config_service/grpc/config_grpc_async_handler.cpp:37-118 | every completion keeps the queue exactly as the live tags expect it |
| CallTags.QueueOwnership | src/qtrade_service/service/config_service/grpc/config_grpc_async_handler.cpp:37-118 | in every reachable state each live tag has exactly one outstanding operation (none if its Finish failed), no operation belongs to a deleted tag, and no pending alarm was cancelled |
| CallTagAnswers.FailureFinishes | src/qtrade_service/service/config_service/grpc/config_grpc_async_handler.cpp:38-41 | in every owned state a failed operation on an unfinished stream finishes it: history and version stay, exactly the Finish waits, no other tag is touched |
| CallTagAnswers.SuccessFinishesNone | src/qtrade_service/service/config_service/grpc/config_grpc_async_handler.cpp:43-79 | a successful completion never finishes a stream |
| CallTagAnswers.WriteAcknowledged | src/qtrade_service/service/config_service/grpc/config_grpc_async_handler.cpp:61-75 | a successful write moves the stream to the version written and sets exactly its alarm |
| CallTagAnswers.FinishDeletes | src/qtrade_service/service/config_service/grpc/config_grpc_async_handler.cpp:77-79 | a successful Finish deletes its tag and touches no other |
| CallTagAnswers.RequestAnswered | src/qtrade_service/framework/grpc/async/unary_call_tag.hpp:76-82 | a received GetEngineConfig request leaves its tag waiting for exactly the Finish of the answer |
| CallTagAnswers.AnswerRespawns | src/qtrade_service/framework/grpc/async/unary_call_tag.hpp:84-86 | an answered call's tag is gone and, with the database ready, a fresh one waits for exactly a request |
| CallTagAnswers.EveryRequestAnswered | src/qtrade_service/framework/grpc/async/unary_call_tag.hpp:63-87 | in every run as many answers are started as requests are received |
| CallTagStreams.PushedAreRunningMaxima | src/qtrade_service/service/config_service/grpc/config_grpc_async_handler.cpp:49-108 | the history of each live tag: its writes are exactly the strict running maxima of its polls above the client's version |
| CallTagObserved.WritesAreRunningMaxima | src/qtrade_service/service/config_service/grpc/config_grpc_async_handler.cpp:49-108 | for every stream, live or completed, observed from the delivered completions alone: the writes started are the strict running maxima of the polled versions above the requested one |
| CallTagObserved.GoneForGood | src/qtrade_service/service/config_service/grpc/config_grpc_async_handler.cpp:77-79 | a deleted subscribe tag never comes back |
| CallTagStreams.FailedQueriesKeepPolling | src/qtrade_service/service/config_service/grpc/config_grpc_async_handler.cpp:49-60 | as long as a stream's operations succeed and its queries fail, from the first poll on, nothing is written and exactly one operation, its alarm, waits for it in every later state |
| CallTagStreams.FailedFinishStays | src/qtrade_service/service/config_service/grpc/config_grpc_async_handler.cpp:37-41 | a tag whose Finish failed stays live with nothing outstanding in every later state |
| CallTagStreams.BothFail | src/qtrade_service/service/config_service/grpc/config_grpc_async_handler.cpp:37-41 | from the start, a failed request leaves no waiting subscribe tag, and if the Finish after it fails too the tag stays for good |
| CallTagStreams.ListenersLeft | src/qtrade_service/service/config_service/grpc/config_grpc_async_handler.cpp:154-193 | from any owned state, the waiting subscribe tags and the GetEngineConfig tags after a run are those before it less one for each completion that lost one |
| CallTagStreams.ListenerAvailableIff | src/qtrade_service/service/config_service/grpc/config_grpc_async_handler.cpp:37-193 | a run leaves exactly one listener of each kind if and only if no completion on a listener failed and none that spawns its successor found the database down; what happens on open streams does not matter |
| CallTagStreams.SilenceStays | src/qtrade_service/service/config_service/grpc/config_grpc_async_handler.cpp:154-193 | once no tag of a kind waits, no later run ever has one again |
| CallTagProgram.SubscribeConfigCallTag.constructor | src/qtrade_service/service/config_service/grpc/config_grpc_async_handler.cpp:30-35 | a new tag is live and waits for a request |
| CallTagProgram.SubscribeConfigCallTag.Proceed | src/qtrade_service/service/config_service/grpc/config_grpc_async_handler.cpp:37-80 | takes the specified step of the whole system |
| CallTagProgram.SubscribeConfigCallTag.SchedulePoll | src/qtrade_service/service/config_service/grpc/config_grpc_async_handler.cpp:86-93 | sets the alarm unless the call is finished |
| CallTagProgram.SubscribeConfigCallTag.PollAndMaybeWrite | src/qtrade_service/service/config_service/grpc/config_grpc_async_handler.cpp:96-108 | starts a write exactly for a newer version |
| CallTagProgram.SubscribeConfigCallTag.FinishCall | src/qtrade_service/service/config_service/grpc/config_grpc_async_handler.cpp:110-118 | finishes once, cancelling the alarm |
| CallTagProgram.UnaryCallTag.Proceed | src/qtrade_service/framework/grpc/async/unary_call_tag.hpp:63-87 | takes the specified step of the whole system |
| CallTagProgram.ConfigGrpcAsyncHandler.Start | src/qtrade_service/service/config_service/grpc/config_grpc_async_handler.cpp:154-163 | starts one tag of each kind, once, and only with the database ready |
| CallTagProgram.ConfigGrpcAsyncHandler.SpawnSubscribeEngineConfig | src/qtrade_service/service/config_service/grpc/config_grpc_async_handler.cpp:188-193 | adds one listening tag if the database is ready, and disturbs no other |
| CallTagProgram.ConfigGrpcAsyncHandler.SpawnGetEngineConfig | src/qtrade_service/service/config_service/grpc/config_grpc_async_handler.cpp:169-187 | adds one unary tag if the database is ready, and disturbs no other |
| CallTagProgram.ConfigGrpcAsyncHandler.Dispatch | src/qtrade_service/framework/grpc/async/completion_queue_loop.cpp:52-62 | a completed operation reaches a live tag, the system takes the specified step and ownership is kept |

## Left out

- gRPC transport, protobuf messages and their JSON conversion, real threads, the alarm clock, server shutdown, health checks and logging: foreign calls; what remains of them is "an operation is outstanding" and "an event arrives with `ok`".
- The real database (SOCI, MySQL, concurrent transactions, primary keys, column types and collations): replaced by the assumptions above.
- IEEE 754 rounding and 64-bit overflow, of `now + ttl` in particular: exactness is claimed over reals and unbounded integers.
- Exceptions thrown by database calls inside the account handlers, and the composition of the account handlers with `HandlerPipeline.Run`: their other stages do nothing, so the RPCs here are validation followed by the business stage.
- AccountService.AccountGrpcService.GetCredential: the response's other fields and the audit log line are not part of the model.
- AccountDao.SelectCredentials: cells are text here, so a credential type that does not fit 64 bits is cast like any other number.
- CallTagProgram.ConfigGrpcAsyncHandler.Start: Shutdown, which resets the started flag, belongs to the service life cycle and is not modelled; nor are null service or queue pointers.
- CallTagProgram.SubscribeConfigCallTag.Proceed: the branches are separate methods here, and the request handling of a unary call is only its completion.
- TruncateRows, BatchDelete and the delete calls of the two account DAOs: not used by the handlers modelled.
- Bootstrap, configuration files, process start, signal handling, connection pool manager and service life cycle: plumbing.
- The DDL-only DAO classes (risk policies, ledgers, reservations): constant strings whose columns the running ledger does not use.
- GetAccount and ListAccounts, and ToTradingAccountProto: plain reads that would add only easy members.
- Secrecy of credentials: the codec is a stub identity; only its round trip is modelled.
- Order intents have more fields (symbol, side, engine and others) and policies are replaced as a whole: the ledger reads only the fields modelled.
