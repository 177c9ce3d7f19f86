# ReckonFlow: protocols, folds and conservation laws

ReckonFlow is a travel-expense back office: requests are approved and paid into a double-entry ledger, bank
statements are imported and reconciled with expenses, and every mutating HTTP call passes an idempotency cache
and a rate limiter. This project models those parts and proves what they keep in every run, every interleaving
and for every input.

Check everything with `dafny verify dfyconfig.toml`.

## How it is organised

| file | what it models |
|---|---|
| `Idempotency.dfy` | any number of requests on one Redis key, one Redis call at a time, with expiries, lost replies, failed calls and foreign values |
| `IdempotencyDispatch.dfy` | the middleware's own control flow as methods on that shared world; other requests step in between any two calls |
| `Replies.dfy` | what callers receive, said of the handler's own responses, and where a request goes for each stored value and each failing call |
| `MemoryLimit.dfy` | the sliding-window deque against the full history of admissions |
| `RedisLimit.dfy` | the fixed window: INCR and EXPIRE as two calls, each of which may be delayed, lost, or lose its reply |
| `Ledger.dfy` | accounts, postings, balances, and the request schema's own balance check |
| `Travel.dfy` | approvals, expenses and payments over the ledger, as a state machine over whole runs |
| `Services.dfy` | the ledger and travel services as classes that update one session, each method proved against those functions |
| `Fusion.dfy`, `Sorting.dfy`, `Ranking.dfy` | reciprocal rank fusion, stable sorting, confidence, gates and the ranked list |
| `Signals.dfy` | prefilter arithmetic, amount, date and cosine scores; the evaluation script's prefilter |
| `Matching.dfy` | `confirm_match` and `flag_for_review` as transactions with row locks |
| `Reconcile.dfy` | the pipeline from prefilter to automatic match, and the service class |
| `Embeddings.dfy` | where missing embeddings and zero cosines stand in the ranking of real survivors |
| `BankImport.dfy` | validation with collected errors, both insertion loops, and imports running side by side |
| `Amounts.dfy` | both amount normalisers against every printed format |
| `Core.dfy`, `Reals.dfy` | shared types, string helpers, facts about real quotients |

Code that changes state in place is a class or a loop proved against a specification function; the theorems are
then lemmas about that function, so a changed branch in the loop breaks the method's contract and a changed
specification breaks the theorem.

## What holds

* **Idempotency.** Executions never exceed acknowledged claims plus fail-open passes, and claims never exceed
  removals of the key plus one. Without expiry, deletion and fail-open the handler runs at most once, whatever
  else fails. A request that ran under its claim gets its handler's status, the headers
  except transport ones, and the body as decoding and encoding leave it; a replay is a copy of such a reply but for
  the replay header.
* **Rate limits.** The deque equals the last closed minute of the admission history. Of the checks drawn by INCR in
  any closed minute the Redis window admits at most `2 * limit - 1`, and some run reaches that number.
* **Ledger and travel.** In every reachable state each currency's balances sum to zero; every PAID approval has
  exactly one payment transaction, for the sum of the expenses the run had recorded on the trip by then, or for its
  estimate without any. Its status says exactly which decisions were taken on it, and every status can be reached.
* **Money.** After any run every account holds exactly what was posted to it by hand, plus what was paid out if
  it is TRAVEL, less what was paid out if it is CASH. Any committed transaction can be reversed at any later time.
* **Matching.** Links are one-to-one and permanent in every interleaving, and confirming never deadlocks.
* **Ranking.** Which signal each ranking orders by; confidence lies between `(k+1)/(k+n)` and 1, both tight; a row
  better than another in text, in amount with date, and in cosine stands before it and is more confident.
* **Import.** Both database paths meet one specification; uploading a file again inserts exactly the valid lines
  whose identifier cell is absent or blank; concurrent uploads store each identifier once and their counts add up.
* **Amounts.** The exact set of printed formats each normaliser reads back as the number that was printed.

## What does not hold

Each of these is something the documentation, a comment or a name suggests and the code keeps only in part. The model
follows the code, a lemma exhibits the failure, and the exact condition is proved.

* *The same key runs the handler once while Redis is healthy* (docs/adr/003-redis-idempotency.md): entries that cannot be
  replayed are deleted unconditionally, so two requests that both read one such entry both run the handler, the
  second deletion removing the first one's claim (`ReclaimCanRunTwice`). Whatever foreign values may turn up under
  the key, and whenever, the promise holds exactly when no request would reclaim any of them
  (`AtMostOnceIffNoneReclaimable`).
* *"Limit is N requests per minute"* (the 429 body): on the Redis path true in every run iff N is at most one
  (`MinutePromiseIff`).
* *Retry-After: 60* (the 429 header): on the Redis path a retry that comes a minute after the refusal, with nobody
  else about, is admitted iff the limit is positive and the window's EXPIRE took effect strictly before the refusal;
  otherwise nothing that can happen gets any check admitted within that minute (`RedisLimit.RetryAfterIff`). It fails
  without any fault when opening, using up and refusing fall on one moment (`RedisLimit.RetryCanFail`). In the process
  the retry is admitted iff fewer than the limit were admitted at the very moment of the refusal
  (`MemoryLimit.RetryAfterIff`, with `MemoryLimit.RetryCanFail`).
* *A refused client gets in again*: if the single EXPIRE of a window is lost, the counter never resets
  (`LostExpireStrands` is such a run from the start). A client is never again admitted through Redis, whatever
  happens, exactly when that has happened and the limit is reached, or the limit is not positive (`LockedOutIff`).
* *Missing embeddings rank last*: `embedding_score or -1.0` also takes a cosine of exactly 0.0 for a missing one. Such
  a candidate ranks behind every negative cosine above -1, and behind a row without a vector that the query listed
  first (`OrthogonalRanksLast` has the vectors). The exact conditions are `KnownBeforeMissingIff`,
  `MissingRankLastIff` and `LargerCosineFirstIff`.
* *A matched expense stays matched*: `auto_reconcile` does not ask whether the expense is matched already. When the
  row it linked was the only survivor, running it again finds no candidate and parks the expense, so that MATCHED is
  gone while the link stays (`SecondRunUnmatches`; `PairIsUnmatched` has the tables). It leaves a matched expense alone exactly when some survivor is
  singled out, because the confirmation then refuses (`AutoKeepsMatchedIff`). Over whole runs of confirms and flags, a
  matched expense stays matched iff no flag's UPDATE reaches it (`StaysMatchedIff`). Confirming the same pair again
  restores the state exactly (`ReconfirmUndoesFlag`).
* *"Strip thousands separators"* (bank rows): `1,234.56` is read as `1.23456`. The bank normaliser is right iff the
  number is shorter than four digits, or not grouped by commas and, if grouped by dots, printed with decimals
  (`BankRoundTrip`). The receipt normaliser reads `1.234` as a decimal fraction and `1,234` as a group
  (`ReceiptRoundTrip`).

## Assumptions

* Redis runs commands one at a time and drops a key strictly after its deadline. Handlers are arbitrary: they
  may return anything, raise, or never return.
* Fingerprints are SHA-256 hex digests: 64 characters; equal fingerprints are taken to mean equal bodies. The
  two body codecs (decode with replacement, encode) are arbitrary functions; nothing depends on their inverting
  each other.
* Money is an integer count of 0.0001 and dates are day numbers; scores are exact reals. RapidFuzz scores and
  square roots are arbitrary functions, the latter with the defining property of a non-negative root.
* Identifiers of accounts, transactions, trips and approvals are positions in the order of creation.
* A transaction commits atomically, constraints included, and a locked SELECT reads the current row. Concurrent
  imports all commit, and ON CONFLICT waits for the other import's commit. Parking an expense always issues its
  UPDATE, whatever status the session had read.
* The monotonic clock does not go back. Callers create expenses and estimates with positive amounts, as the
  request schemas and the CHECK constraints demand.

## Model

| member | source | states |
|---|---|---|
| Idempotency.RunsAreAccounted | src/reckonflow/api/middleware/idempotency.py:99-141 | in every interleaving with any faults and expiries, the tallies of claims, removals and executions agree with the requests' states and the key's presence |
| Idempotency.ExecutionsAreBounded | src/reckonflow/api/middleware/idempotency.py:99-141 | executions <= acknowledged claims + fail-open passes, with equality once no request is pending; claims <= expiries + deletions + 1; with none of expiry, deletion and fail-open at most one execution, even when reads and final writes fail |
| Idempotency.ReplayFidelity | src/reckonflow/api/middleware/idempotency.py:173-204 | if only this middleware writes entries, every replayed response is the reply some execution with the same fingerprint gave its own caller, plus the replay header |
| Idempotency.OneExecutionServesAll | src/reckonflow/api/middleware/idempotency.py:108-141 | without expiry and fail-open, once one request has run, no other runs, and each other one that finishes got that request's very answer for the same body, or 409 |
| Idempotency.OtherBodyIsRefused | src/reckonflow/api/middleware/idempotency.py:173-177 | then a request with another body never runs and can only finish with 409 |
| Idempotency.FinishedIsFinal | src/reckonflow/api/middleware/idempotency.py:134-141 | no later step changes a finished request's outcome or a given answer |
| Idempotency.FirstRunStores | src/reckonflow/api/middleware/idempotency.py:134-141 | a claim that runs and stores leaves exactly the captured snapshot under the key and answers with its rebuilt form |
| Idempotency.StoredAnswerReplays | src/reckonflow/api/middleware/idempotency.py:192-194 | a stored snapshot is replayed to a request with the same body without running the handler or touching the entry |
| Idempotency.RetryReplays | src/reckonflow/api/middleware/idempotency.py:81-141 | round trip: first request, then retry with the same body: the retry gets the first one's reply and one execution in all |
| Idempotency.ReclaimCanRunTwice | src/reckonflow/api/middleware/idempotency.py:163-190 | for every reclaimable value and any two handler results there is a run of two requests, without expiry or fail-open, that executes twice, each request answering its own caller with its own result |
| Idempotency.NotReclaimableNeverRuns | src/reckonflow/api/middleware/idempotency.py:153-194 | a value no request would reclaim stays, and no request runs, in any run without expiry and fail-open |
| Idempotency.AtMostOnceIffNotReclaimable | src/reckonflow/api/middleware/idempotency.py:163-190 | a value left under the key keeps at-most-once in all such runs iff no fingerprint would reclaim it |
| Idempotency.AtMostOnceIffNoneReclaimable | src/reckonflow/api/middleware/idempotency.py:143-190 | for every set of foreign values that may be written under the key at any moments: at-most-once holds in all runs without expiry and fail-open iff no fingerprint would reclaim any of them |
| Idempotency.KeptHeadersAreTheLastValues | src/reckonflow/api/middleware/idempotency.py:233-237 | a header is captured iff present and not a transport header, with the value of its last occurrence |
| Idempotency.CaptureResponse | src/reckonflow/api/middleware/idempotency.py:222-243 | draining the iterator, byte and text chunks alike, or taking the body at hand, gives the snapshot of the whole body and the kept headers |
| IdempotencyDispatch.Middleware.SetNx | src/reckonflow/api/middleware/idempotency.py:99-119 | with anyone's steps before it, the call leaves the request invoking, reading, passed through or refused according to the reply or exception |
| IdempotencyDispatch.Middleware.HandleExisting | src/reckonflow/api/middleware/idempotency.py:143-194 | with others stepping between GET and DELETE, the returned response is the protocol's outcome, including the exception that values which are not objects or cannot be rebuilt raise, or None leaves the request to reclaim |
| IdempotencyDispatch.Middleware.CallNext | src/reckonflow/api/middleware/idempotency.py:134-136 | running the route leaves a claimed request about to store, its background work kept aside, an unclaimed one passed through, and a raising one finished with the error |
| IdempotencyDispatch.Middleware.Store | src/reckonflow/api/middleware/idempotency.py:137-141 | whether or not the write succeeds the caller receives the rebuilt snapshot with the background work |
| IdempotencyDispatch.Middleware.Dispatch | src/reckonflow/api/middleware/idempotency.py:92-141 | every path of a keyed request through the middleware is a run of the protocol, and its return value is the outcome the run records for this request |
| Replies.OwnRepliesAreFaithful | src/reckonflow/api/middleware/idempotency.py:134-141 | in every run with any faults and foreign values, a request that ran under a claim gets its handler's status, exactly the non-transport headers with their last values, the whole body (chunk after chunk if streamed) as decoding and encoding leave it, so byte for byte where that changes nothing, and the background work |
| Replies.PassedThroughIsUntouched | src/reckonflow/api/middleware/idempotency.py:99-106 | a request that ran unguarded gets exactly what its handler returned |
| Replies.ReplaysAreFaithful | src/reckonflow/api/middleware/idempotency.py:192-204 | if only this middleware writes entries, a replay has status, body and headers of the faithful reply some execution with the same fingerprint gave its caller, except that idempotency-replayed is "true" |
| Replies.UndisputedOutcome | src/reckonflow/api/middleware/idempotency.py:143-194 | for every stored value: with Redis answering and nobody else at work, whether the request claims the key, is replayed, refused with 409 or raises |
| Replies.ClaimFailureFailsOpen | src/reckonflow/api/middleware/idempotency.py:99-106 | a failing claim never stops a request: it runs once, unguarded, and its caller gets the response |
| Replies.LaterFailuresRefuse | src/reckonflow/api/middleware/idempotency.py:108-132 | once the key was found taken, a failing read leads to a second claim, and a failure of that or of the second read is a 409 without execution |
| Replies.VanishedKeyIsClaimed | src/reckonflow/api/middleware/idempotency.py:108-119 | a key that expires before it is read is claimed |
| Replies.LostClaimBlocks | src/reckonflow/api/middleware/idempotency.py:99-106 | a claim that took effect although its call raised lets its request run unguarded and refuses every later one while the key lives |
| Replies.StoreFaultsDecideRetries | src/reckonflow/api/middleware/idempotency.py:134-141 | whatever becomes of the final SET its caller gets the response; a retry is replayed that reply iff the SET took effect, and else refused |
| Replies.DeleteFaultsDecideClaims | src/reckonflow/api/middleware/idempotency.py:163-171 | a value that is not JSON is deleted and the key claimed iff the DELETE took effect; if not, it is read a second time |
| MemoryLimit.EveryMinuteHoldsTheLimit | src/reckonflow/api/middleware/rate_limit.py:106-115 | over every run with a monotone clock every closed minute admits at most the limit, none if the limit is not positive |
| MemoryLimit.TrimmedDeque | src/reckonflow/api/middleware/rate_limit.py:108-111 | trimming the kept deque gives the same as cutting the full history at the last minute, and its length counts that minute |
| MemoryLimit.Trim | src/reckonflow/api/middleware/rate_limit.py:110-111 | the popleft loop removes exactly the times older than the cutoff |
| MemoryLimit.CheckWindow | src/reckonflow/api/middleware/rate_limit.py:107-115 | a request is admitted iff the last closed minute of the whole history holds fewer than the limit, and the deque stays the history's cut |
| MemoryLimit.RateLimiter.CheckMemory | src/reckonflow/api/middleware/rate_limit.py:106-115 | per client: admission by the full history, the client's deque replaced by the cut history, other clients untouched |
| MemoryLimit.RateLimiter.MinuteBound | src/reckonflow/api/middleware/rate_limit.py:106-115 | for every client of a valid limiter every closed minute of the whole history holds at most the limit |
| MemoryLimit.RetryAfterIff | src/reckonflow/api/middleware/rate_limit.py:79-115 | the next check exactly a minute after a refused one is admitted iff fewer than the limit were admitted at the moment of the refusal |
| MemoryLimit.RetryCanFail | src/reckonflow/api/middleware/rate_limit.py:79-115 | for every positive limit a history at one moment is refused then and again a minute later |
| RedisLimit.BurstBound | src/reckonflow/api/middleware/rate_limit.py:89-104 | with INCR and EXPIRE interleaved, delayed or lost, at most 2 * limit - 1 of the checks drawn by INCR in any closed minute are admitted through Redis |
| RedisLimit.BurstBoundIsReached | src/reckonflow/api/middleware/rate_limit.py:89-104 | for every positive limit some run admits exactly 2 * limit - 1 of the checks drawn by INCR in one closed minute |
| RedisLimit.MinutePromiseIff | src/reckonflow/api/middleware/rate_limit.py:79-104 | in all runs at most the promised limit of the checks drawn by INCR in any closed minute is admitted, iff the limit is at most one |
| RedisLimit.StrandedForever | src/reckonflow/api/middleware/rate_limit.py:94-96 | a window whose EXPIRE was lost never ends and every later count is drawn from it |
| RedisLimit.LostExpireStrands | src/reckonflow/api/middleware/rate_limit.py:94-96 | for every positive limit some run from the start loses the EXPIRE of a window and then uses the window up |
| RedisLimit.LostExpireLocksOut | src/reckonflow/api/middleware/rate_limit.py:94-97 | from then on, with the counter at the limit, no later check is ever admitted through Redis |
| RedisLimit.LockedOutIff | src/reckonflow/api/middleware/rate_limit.py:89-104 | permanent lockout: in every reachable state no continuation ever admits another check through Redis iff the current window lost its EXPIRE and is used up, or the limit is not positive |
| RedisLimit.LostReplyUsesAPlace | src/reckonflow/api/middleware/rate_limit.py:89-104 | an INCR that took effect although its call raised uses up a place: the next check is refused where it would have been admitted |
| RedisLimit.LostReplyStillExpires | src/reckonflow/api/middleware/rate_limit.py:94-96 | an EXPIRE that raised ends the window after a minute iff it took effect |
| RedisLimit.RetryAfterIff | src/reckonflow/api/middleware/rate_limit.py:79-104 | in every reachable state with a check just refused: a lone retry a minute later is admitted through Redis iff the limit is positive and the window has a deadline less than a minute away, that is, its EXPIRE took effect before the refusal; otherwise no continuation admits any check within the minute |
| RedisLimit.RetryCanFail | src/reckonflow/api/middleware/rate_limit.py:79-104 | for every positive limit a run without faults ends in a refusal whose lone retry after a minute is refused |
| RedisLimit.FixedWindow.CheckRedis | src/reckonflow/api/middleware/rate_limit.py:89-104 | with others stepping between INCR and EXPIRE, the answer is the verdict the run records; a call that raised gives None |
| Ledger.PostKeepsSound | src/reckonflow/services/ledger.py:61-129 | a posting keeps every invariant of the books and only appends one transaction |
| Ledger.OpenKeepsSound | src/reckonflow/services/ledger.py:32-45 | opening an account keeps them and touches no transaction |
| Ledger.OpenOutcome | src/reckonflow/services/ledger.py:32-45 | opening succeeds iff no account has the code, and then adds exactly one account with that code and name and the upper-cased currency behind all earlier ones |
| Ledger.PostOutcome | src/reckonflow/services/ledger.py:112-129 | a posting writes one transaction with the given reference and description and one entry for each line, in order, with its account, amounts and memo and the account's currency |
| Ledger.ReadableIffParses | src/reckonflow/services/ledger.py:77-104 | the lines are accepted iff each is readable; otherwise the error is what is wrong with the first unreadable one, in the source's order of checks |
| Ledger.PostRefusals | src/reckonflow/services/ledger.py:61-110 | why a posting is refused: fewer than two lines, else the first unreadable line, else imbalance or a constraint |
| Ledger.ByAccountIsByEntry | src/reckonflow/services/ledger.py:144-156 | summing per account over all accounts of a currency equals debits minus credits over all entries of it |
| Ledger.TrialBalanceIsZero | src/reckonflow/services/ledger.py:106-110 | in every currency the balances of all accounts sum to exactly zero |
| Ledger.BalanceDropsNothing | src/reckonflow/services/ledger.py:144-156 | the currency filter of the balance query never drops an entry of the account |
| Ledger.PostMovesBalances | src/reckonflow/services/ledger.py:112-127 | a posting moves each account's balance by that posting's entries on it and nothing else |
| Ledger.AnyTransactionCanBeReversed | src/reckonflow/services/ledger.py:61-129 | any committed transaction, whatever was posted since, can be reversed under an unused reference, and that takes exactly its own effect off every balance |
| Ledger.ReversalRestoresBalances | src/reckonflow/services/ledger.py:61-129 | posting lines and reversing them next leaves every balance as before |
| Ledger.PostIffSchemaAccepts | src/reckonflow/schemas/ledger.py:27-88 | service and schema agree: a posting succeeds iff the schema accepts its lines, each line names an account in its currency, and the reference is new |
| Travel.TrialBalanceAlways | src/reckonflow/services/travel.py:126-210 | after any run of openings, postings, requests, expenses and decisions the balances of each currency sum to zero |
| Travel.RunsKeepInv | src/reckonflow/services/travel.py:52-210 | every reachable state has sound books, one approval per trip, positive estimates and expenses that fit their trips |
| Travel.DueIsPositive | src/reckonflow/services/travel.py:180-190 | the amount due is positive, and is the estimate exactly when the trip has no expense |
| Travel.SpendOutcome | src/reckonflow/services/travel.py:244-275 | in a reachable office an expense is accepted iff its amount is positive and its trip, if any, exists, is approved or paid and has its currency; then exactly it is added |
| Travel.RequestOutcome | src/reckonflow/services/travel.py:52-83 | a request with a positive estimate adds exactly the trip, its currency in capitals, and its pending approval |
| Travel.TransitionOutcome | src/reckonflow/services/travel.py:158-168 | a transition changes one approval: the target status, and reviewer and notes kept unless given |
| Travel.RecordMovesDue | src/reckonflow/services/travel.py:180-190 | recording an expense adds its amount to what is due for its trip, the estimate giving way to the first one, and moves no other trip's amount |
| Travel.DueIsRecorded | src/reckonflow/services/travel.py:180-190 | after any run the amount due for a trip is the sum of the expenses the run successfully recorded on it, or its estimate without any |
| Travel.PaidIsWhatWasRecorded | src/reckonflow/services/travel.py:176-210 | every PAID approval has the transaction PAY-id that debits TRAVEL and credits CASH by what the run had recorded on the trip when it was paid, or by the estimate |
| Travel.PaidIsReachable | src/reckonflow/services/travel.py:126-210 | for every trip with a positive estimate a run from the empty office opens CASH and TRAVEL, requests, approves and pays it |
| Travel.PayIffPayable | src/reckonflow/services/travel.py:150-210 | marking paid succeeds iff the trip is approved, CASH and TRAVEL exist in its currency and the reference is unused, and posts exactly the payment |
| Travel.DecideIff | src/reckonflow/services/travel.py:29-38 | approving or rejecting succeeds iff the request is pending, moves no money, and nothing leads back to PENDING |
| Travel.PaymentMovesMoney | src/reckonflow/services/travel.py:192-210 | a payment moves exactly the amount due from CASH to TRAVEL and no other balance |
| Travel.EveryStatusIsEarned | src/reckonflow/services/travel.py:29-38 | in every run an approval is APPROVED or PAID iff it was approved, REJECTED iff it was rejected, PAID iff it was paid, and then after it was approved |
| Travel.EachPaymentWasDue | src/reckonflow/services/travel.py:158-190 | every PAID approval was approved first, and at the paying step a positive amount was due |
| Travel.EachPaymentIsPostedOnce | src/reckonflow/services/travel.py:170-210 | every PAID approval has exactly one transaction with its reference, the payment computed from the state it was paid in, still in the books |
| Travel.UnpaidHasNoPayment | src/reckonflow/services/travel.py:192-195 | if nobody posts PAY- references by hand, an approval that is not PAID has no payment transaction |
| Travel.EveryBalanceIsExplained | src/reckonflow/services/travel.py:170-210 | after any run every account holds exactly the net of the successful postings by hand that name it, plus (TRAVEL) or less (CASH) the amounts due at the steps that marked trips paid |
| Travel.PaymentsAreConserved | src/reckonflow/services/travel.py:170-210 | in particular, without postings by hand CASH is short of, and TRAVEL holds, exactly what was paid out |
| Travel.FinalStays | src/reckonflow/services/travel.py:36-37 | no action changes a REJECTED or PAID approval |
| Travel.PayReferenceIsInjective | src/reckonflow/services/travel.py:194-194 | two approvals never share a payment reference |
| Services.AllBalanced | src/reckonflow/services/ledger.py:106-110 | the loop over the buckets accepts iff debits equal credits in every currency of the entries |
| Services.SchemaCheck | src/reckonflow/schemas/ledger.py:27-88 | the schema's two validators accept exactly the specified lines |
| Services.LedgerService.CreateAccount | src/reckonflow/services/ledger.py:32-45 | opens the account with an upper-cased currency, or rolls back and changes nothing when the code is taken |
| Services.LedgerService.ReadLines | src/reckonflow/services/ledger.py:77-104 | parses up to the first bad line, whose error it reports, and fills buckets that equal the per-currency sums |
| Services.LedgerService.CreateBalancedTransaction | src/reckonflow/services/ledger.py:61-129 | commits exactly the specified posting, or reports its error and leaves the session unchanged |
| Services.LedgerService.AccountBalance | src/reckonflow/services/ledger.py:144-156 | the loop's balance is the specified sum, or the account is reported missing |
| Services.TravelService.CreateTravelRequest | src/reckonflow/services/travel.py:52-83 | adds the trip and its pending approval together |
| Services.TravelService.PostPaymentLedger | src/reckonflow/services/travel.py:170-210 | posts the specified payment or nothing |
| Services.TravelService.TransitionApproval | src/reckonflow/services/travel.py:126-168 | makes exactly the specified transition including its payment, or reports the error and changes nothing |
| Services.TravelService.CreateExpense | src/reckonflow/services/travel.py:234-275 | adds the expense only to an approved or paid trip of its currency, or changes nothing |
| Fusion.ReciprocalRankFusion | src/reckonflow/services/reconciliation.py:45-62 | refuses iff k is not positive; otherwise its keys are the union of the ids in first-seen order and each score is the declarative sum of 1/(k+rank) |
| Fusion.ScoreIgnoresOrder | src/reckonflow/services/reconciliation.py:50-50 | the fused score does not depend on the order of the rankings |
| Fusion.TotalMass | src/reckonflow/services/reconciliation.py:58-61 | all scores together add up to the reciprocals of all places, nothing lost or invented |
| Fusion.AheadEverywhereScoresMore | src/reckonflow/services/reconciliation.py:45-62 | a candidate ahead in every ranking has a strictly larger score |
| Sorting.SortDescSorts | src/reckonflow/services/reconciliation.py:247-247 | the sort is a descending permutation that keeps the order of equal keys |
| Sorting.SortOrderIff | src/reckonflow/services/reconciliation.py:247-247 | of two different elements one precedes the other iff its key is larger, or the keys are equal and it came in first |
| Ranking.ConfidenceBounds | src/reckonflow/services/reconciliation.py:271-279 | (k+1)/(k+n) <= confidence <= 1, the clamp never acts, 1 iff first in every ranking, the lower bound when last in every ranking |
| Ranking.GateOpenIff | src/reckonflow/services/reconciliation.py:290-292 | every candidate of every list of n passes the confidence gate iff the threshold is at most (k+1)/(k+n) |
| Ranking.DefaultGate | src/reckonflow/core/config.py:50-53 | with the defaults that is n <= 24, where automatic matching is decided by the fuzzy floor alone |
| Ranking.FullRankingIsPermutation | src/reckonflow/services/reconciliation.py:276-297 | the list is a permutation of the graded candidates sorted by confidence, then fuzzy score |
| Ranking.WhatRankingsOrderBy | src/reckonflow/services/reconciliation.py:244-268 | the first ranking orders by text, the second by amount plus date, the third, there iff some candidate has a cosine, by cosine; the larger precedes, of equal ones the one listed first |
| Ranking.BetterSignalsRankFirst | src/reckonflow/services/reconciliation.py:242-298 | Pareto order on the signals: strictly better text, amount plus date, and cosine if there is any, means earlier in the list and more confident |
| Ranking.BestSignalsWin | src/reckonflow/services/reconciliation.py:242-298 | a candidate better than all others on every signal heads the list with confidence 1 |
| Ranking.ListOrderIff | src/reckonflow/services/reconciliation.py:297-297 | of two candidates the more confident precedes, of equally confident ones the better text, of those the one listed first |
| Ranking.ScoreOfPlaces | src/reckonflow/services/reconciliation.py:58-61 | a candidate's fused score is the sum of the weights of its places in the two or three rankings |
| Ranking.ConfidenceOfScore | src/reckonflow/services/reconciliation.py:271-279 | confidence times the best possible score is the fused score |
| Ranking.RankedOnce | src/reckonflow/services/reconciliation.py:276-297 | no candidate is listed twice |
| Ranking.AheadEverywhereRanksFirst | src/reckonflow/services/reconciliation.py:242-298 | a candidate ahead of another in every ranking has strictly larger confidence and precedes it in the output |
| Ranking.SmallerLimitIsPrefix | src/reckonflow/services/reconciliation.py:298-298 | a smaller limit yields a prefix of a larger one |
| Ranking.GateFused | src/reckonflow/services/reconciliation.py:276-295 | the result loop grades every fused candidate once, in order |
| Ranking.Fuse | src/reckonflow/services/reconciliation.py:238-298 | by dict, sorts, fusion and loop equal the declarative ranked list cut to the limit; refuses iff k is not positive |
| Signals.PrefiltersAgree | scripts/run_matching_evals.py:86-100 | the service's two signed intervals and the script's magnitude test agree for every amount, date, window and tolerance, also when the slack exceeds the amount |
| Signals.NearMeans | src/reckonflow/services/reconciliation.py:171-190 | a row is near iff within the window and, in magnitude, at most a cent or the tolerated share away; the same magnitude on the same day always is |
| Signals.KeptRowByRow | scripts/run_matching_evals.py:86-100 | a row is kept iff it is within the window and, in magnitude, a cent or the tolerated share away; kept rows stay in order |
| Signals.EvalPrefilter | scripts/run_matching_evals.py:86-100 | the script's loop keeps exactly the rows the service's conditions keep, in order |
| Signals.SurvivorScores | src/reckonflow/services/reconciliation.py:88-106 | a prefilter survivor scores at least 1 - slack/amount on amount, and its date score needs no clamp |
| Signals.AmountScoreMeaning | src/reckonflow/services/reconciliation.py:88-98 | signs and order do not matter, 1 less the share of the larger magnitude that they are apart, 1 iff equal magnitudes, 0 iff exactly one amount is zero |
| Signals.DateScoreMeaning | src/reckonflow/services/reconciliation.py:101-106 | 1 iff the same day, 0 iff at or beyond the window's edge, linear in between |
| Signals.CauchySchwarz | src/reckonflow/services/reconciliation.py:80-82 | the squared dot product is at most the product of the squared norms |
| Signals.CosineMeans | src/reckonflow/services/reconciliation.py:76-85 | for vectors of equal length the score times both norms is the dot product; otherwise it is 0 |
| Signals.ZeroScores | src/reckonflow/services/reconciliation.py:76-85 | a vector of norm zero scores 0 with any other |
| Signals.DotByParts | src/reckonflow/services/reconciliation.py:80-80 | the dot product is the sum of the products of the components |
| Signals.CosineIsBounded | src/reckonflow/services/reconciliation.py:76-85 | cosine scores lie in [-1, 1] for all vectors |
| Signals.CosineOfItself | src/reckonflow/services/reconciliation.py:76-85 | a non-zero vector has cosine 1 with itself, and the score is symmetric |
| Embeddings.ScoresAreCosines | src/reckonflow/services/reconciliation.py:205-210 | every scored embedding of the survivors lies in [-1, 1], and no survivor is scored twice |
| Embeddings.KnownBeforeMissingIff | src/reckonflow/services/reconciliation.py:260-268 | in the ranking a survivor with a cosine precedes one without iff its cosine is neither -1 nor 0, or the query listed it first |
| Embeddings.MissingRankLastIff | src/reckonflow/services/reconciliation.py:260-268 | survivors without an embedding all rank behind those with one iff each cosine of -1 or 0 was listed before all of them |
| Embeddings.LargerCosineFirstIff | src/reckonflow/services/reconciliation.py:260-268 | in the ranking the larger of two cosines precedes iff it is not zero, or the other is -1 and was listed later |
| Embeddings.OrthogonalRanksLast | src/reckonflow/services/reconciliation.py:265-265 | three concrete survivors: the one opposed to the expense first, the one without a vector second, the orthogonal one last |
| Matching.EveryReachableDeskIsSound | src/reckonflow/services/reconciliation.py:300-349 | in every interleaving of confirms and flags: links injective, a bank row MATCHED iff linked, every MATCHED expense with exactly one linked row |
| Matching.LinksAreForever | src/reckonflow/services/reconciliation.py:328-338 | a link once set is never cleared or re-pointed by any continuation of any run |
| Matching.CommitIsConfirm | src/reckonflow/services/reconciliation.py:310-340 | under the locks, deciding on the rows read earlier is deciding on the tables at commit; a refused confirm changes nothing |
| Matching.ReconfirmUndoesFlag | src/reckonflow/services/reconciliation.py:342-349 | flagging a matched expense overwrites its status but not its link, and confirming the pair again restores the state exactly |
| Matching.StepKeepsMatchedIff | src/reckonflow/services/reconciliation.py:342-349 | in any reachable state a step leaves a MATCHED expense matched iff it is not a flag's UPDATE of it |
| Matching.StaysMatchedIff | src/reckonflow/services/reconciliation.py:342-349 | through any run a MATCHED expense stays matched iff no step of the run flags it |
| Matching.FlagUnmatches | src/reckonflow/services/reconciliation.py:342-349 | from any such state with the expense unlocked a flag takes MATCHED away and leaves every bank row and the link |
| Matching.ConfirmOutcomes | src/reckonflow/services/reconciliation.py:328-339 | in a sound state a confirm succeeds iff the pair is unmatched on both sides or is the linked pair after a flag; the UNIQUE constraint decides iff a linked expense was flagged and another free row is confirmed |
| Matching.ConfirmRefusals | src/reckonflow/services/reconciliation.py:310-334 | in any state: not found iff a row is missing, a conflict iff the expense is matched or the bank row linked elsewhere |
| Matching.ConfirmationAlone | src/reckonflow/services/reconciliation.py:310-340 | an undisturbed transaction does in its three calls what confirming the pair does to the tables, and reports that outcome |
| Matching.MatchIsReachable | src/reckonflow/services/reconciliation.py:310-340 | from the empty tables a run matches any expense with any bank row |
| Matching.FlagOvertakesConfirmation | src/reckonflow/services/reconciliation.py:342-349 | a flag that comes while a confirmation is about to write is looked up at once, waits with its UPDATE, and then takes the status the confirmation gave, leaving the link |
| Matching.ConfirmedOnce | src/reckonflow/services/reconciliation.py:328-334 | after a confirm, neither side can be confirmed again, together or with another |
| Matching.SomeoneCanStep | src/reckonflow/services/reconciliation.py:303-326 | no deadlock: while a transaction is unfinished some transaction can make its next call |
| Matching.AllFinish | src/reckonflow/services/reconciliation.py:303-340 | from every state a schedule bounded by the work left finishes all transactions |
| Matching.NoScheduleIsLonger | src/reckonflow/services/reconciliation.py:303-340 | and every schedule of possible calls is bounded by the same measure |
| Reconcile.UnlinkedRowsSurvive | src/reckonflow/services/reconciliation.py:178-191 | in a sound state the open-status condition hides no unlinked row |
| Reconcile.ChosenIffSingled | src/reckonflow/services/reconciliation.py:357-372 | the rule on the top two rows picks a row iff among all survivors it is maximal by confidence then fuzzy score, clears both gates, and the best of the others fails one |
| Reconcile.BetterRowRanksFirst | src/reckonflow/services/reconciliation.py:196-298 | of two surviving rows, the one with the better text and the closer amount and date (and the larger cosine, if the expense has a vector) stands first and is more confident, whatever the others are |
| Reconcile.BestRowIsChosenIff | src/reckonflow/services/reconciliation.py:351-373 | a row that beats all other survivors heads the list with confidence 1 and is chosen iff it clears the fuzzy floor, the threshold is at most 1 and the runner-up fails a gate |
| Reconcile.AutoReconcileIsSound | src/reckonflow/services/reconciliation.py:351-373 | a returned bank id is an open, unclaimed survivor singled out by the ranking and exactly that pair is linked; None parks the expense, touches no bank row, and means no survivor is singled out; an error means one is, but the expense is matched or linked already |
| Reconcile.AutoKeepsMatchedIff | src/reckonflow/services/reconciliation.py:351-373 | auto-matching a MATCHED expense touches no bank row, and leaves it matched iff some survivor is singled out (or there are survivors and the fusion refuses its constant) |
| Reconcile.SecondRunUnmatches | src/reckonflow/services/reconciliation.py:357-372 | when the row linked by a first run was the only survivor, a second run parks the expense while the link stays |
| Reconcile.LoneSurvivorIff | src/reckonflow/services/reconciliation.py:357-372 | a lone survivor is chosen iff it clears the fuzzy floor and the threshold is at most 1: the confidence gate decides nothing |
| Reconcile.FirstRunLinksIff | src/reckonflow/services/reconciliation.py:357-373 | and is linked iff, besides, the expense is neither matched nor linked elsewhere |
| Reconcile.PairIsUnmatched | src/reckonflow/services/reconciliation.py:351-373 | concrete tables of one expense and one row on which the first run links and the second takes MATCHED away |
| Reconcile.ReconciliationService.Prefilter | src/reckonflow/services/reconciliation.py:163-194 | returns exactly the bank rows that satisfy the query, each once, by booking date |
| Reconcile.ReconciliationService.Score | src/reckonflow/services/reconciliation.py:196-236 | scores each row on every signal, an embedding only when both sides have a vector |
| Reconcile.ReconciliationService.SuggestMatches | src/reckonflow/services/reconciliation.py:131-161 | prefilter, scores and fusion compose to the declarative ranked list, empty without survivors |
| Reconcile.ReconciliationService.ConfirmMatch | src/reckonflow/services/reconciliation.py:300-340 | links exactly the pair or reports the refusal, in the source's order of checks, changing nothing |
| Reconcile.ReconciliationService.FlagForReview | src/reckonflow/services/reconciliation.py:342-349 | sets only the expense's status, or reports it missing |
| Reconcile.ReconciliationService.AutoReconcile | src/reckonflow/services/reconciliation.py:351-373 | the method does what the specification of the whole decision says for every desk, and nothing on error |
| BankImport.ImportKeepsUnique | src/reckonflow/services/bank.py:104-146 | adding a file's new rows keeps every identifier unique in the table |
| BankImport.NewRowsHoldNewKeys | src/reckonflow/services/bank.py:57-62 | the new rows hold exactly the file's identifiers that the table lacked |
| BankImport.BothOrdersImport | src/reckonflow/services/bank.py:104-176 | adding in file order and adding keyed rows first meet the same specification: same new rows, same counts |
| BankImport.ReimportInsertsNothingKeyed | src/reckonflow/services/bank.py:57-62 | after an import by either path the same file inserts exactly its rows without an identifier |
| BankImport.ImportKeepsIndex | src/reckonflow/schemas/bank.py:60-66 | because blank identifiers become NULL, an import never violates the partial unique index |
| BankImport.NothingIsLost | src/reckonflow/services/bank.py:77-87 | received = parsed + errors, and a line is reported with its number iff it is not blank and fails validation |
| BankImport.ValidLinesAreParsed | src/reckonflow/services/bank.py:77-87 | the parsed rows are, in order, those of exactly the lines that have content and pass the schema; a row's identifier is the one in its cell iff that has a non-blank character, else none |
| BankImport.InvalidLinesAreReported | src/reckonflow/services/bank.py:77-87 | the errors are, in order, those of exactly the lines that have content and fail the schema, with 1-based number and reason |
| BankImport.EnteringLines | src/reckonflow/services/bank.py:104-176 | the new rows are those of exactly the valid lines without identifier, or with one that neither the table nor an earlier valid line has |
| BankImport.ReuploadLines | src/reckonflow/services/bank.py:57-62 | importing the same file again, on either path, inserts exactly the valid lines whose identifier cell is absent or blank and skips exactly the other valid lines |
| BankImport.AloneIsHalfway | src/reckonflow/services/bank.py:106-143 | after any number of rows the ON CONFLICT loop has inserted the new keyed rows, holds back the new unkeyed ones, and has counted each row once |
| BankImport.ImportsSideBySide | src/reckonflow/services/bank.py:104-146 | for any row-level interleaving of committing imports: each identifier once, earlier rows untouched, each import's counts add up to its rows, and inserts total the new identifiers plus the rows without one |
| BankImport.BankService.InsertPostgres | src/reckonflow/services/bank.py:104-146 | the loop meets the import specification and leaves the keyed new rows, then the others, after the old table |
| BankImport.BankService.InsertSqliteSafe | src/reckonflow/services/bank.py:148-176 | the pre-check loop meets the same specification, in file order |
| BankImport.BankService.ExistingExternalIds | src/reckonflow/services/bank.py:178-186 | a candidate is returned iff it identifies some row of the table |
| BankImport.BankService.ImportCsv | src/reckonflow/services/bank.py:54-96 | received = inserted + skipped + errors, errors numbered, the table extended per specification on either database, the unique index kept; a file without header changes nothing |
| BankImport.BankService.ImportTwice | src/reckonflow/services/bank.py:54-96 | two calls of the import on one file: the second counts as inserted exactly the valid lines without a visible identifier, as skipped exactly the others, and reports the same errors |
| Amounts.ReceiptRoundTrip | src/reckonflow/ai/stub.py:49-63 | for every printed format and surrounding blanks, the receipt normaliser returns the plain string of the same number iff a stated condition on the format holds |
| Amounts.BankRoundTrip | src/reckonflow/schemas/bank.py:46-58 | the same for the bank normaliser with its own condition |
| Amounts.DocumentedStylesSurvive | src/reckonflow/ai/stub.py:50-62 | all documented styles with one or two decimals, and comma or space groups without, are read back, and normalising again changes nothing |
| Amounts.BankOnCommas | src/reckonflow/schemas/bank.py:53-55 | comma groups with a dot decimal lose their decimal mark: the groups become dots and the fraction is appended |
| Amounts.PlainStays | src/reckonflow/ai/stub.py:49-63 | a plain decimal string is a fixed point of both normalisers |

## Left out

- IdempotencyDispatch.Middleware.Dispatch: covers keyed requests with a mutating method; the others, and everything while the middleware is disabled, bypass it by one branch, as exempt paths bypass the rate limiter.
- Several idempotency keys: keys are independent, so the model has one.
- The mix of Redis and in-memory limiting across processes: the two limiters are proved separately.
- RedisLimit.BurstBound: dates an admission at its INCR, not at its reply, which may be delayed at will, and counts only requests admitted through Redis; those admitted by the fallback are not bounded by it.
- Float rounding: scores are exact reals, so a threshold comparison may differ from the program's by rounding; Decimal context and column overflow are out too.
- Matching: SQLite ignores FOR UPDATE; the interleaving theorems are for databases that honour it.
- Reconcile.AutoReconcileIsSound: the run is not interrupted by others. SQLAlchemy's identity map can serve rows read earlier in the session, which the locked-read assumption does not cover; the concurrent effect of an automatic match is that of its confirmation step.
- BankImport.ImportsSideBySide: deadlocks between imports with overlapping identifiers in different order, and rollbacks, are not modelled.
- CSV tokenising, header aliases, date formats and the remaining field rules of a row are one arbitrary validation function; extra cells beyond the header are not modelled.
- Ledger: length limits of strings and account or transaction deletion.
- Services.TravelService.TransitionApproval: row locking makes concurrent decisions serial, so they are modelled as a sequence.
- Core: case folding is ASCII only.
- Routers, health checks, logging, API keys, configuration, receipts and their background jobs, the language-model provider, text extraction beyond amounts, listings and seed data.
