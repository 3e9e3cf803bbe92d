# VS Mart money core: a Dafny model

A model of the money-carrying parts of the VS Mart backend, with proofs of what they keep true
over whole runs. Money is integer paise, dates are day ordinals of an explicit Gregorian
calendar, database tables are fields of classes (sequences of rows). Operations that update
stored rows are methods, each specified by a function on the row's value; the properties are
lemmas about those functions. Run `dafny verify dfyconfig.toml`.

## What is modelled

- **Clamped walks** (`ClampedWalk.dfy`). Three parts of the system raise the same running
  balance to zero at different moments. One closed form covers all of them: the balance is the
  raw sum minus the lowest of zero and the prefix sums at the clamping moments.
- **Credit ledger** (`CreditLedger.dfy`, `CreditInterleaving.dfy`). Posting under the row lock,
  the cached balance, the integrity check, limits; then many clients whose stale check and
  locked posting are separate steps.
- **Billing cycles** (`Calendar.dfy`, `Billing.dfy`, `BillingSchedule.dfy`, `BillingClamps.dfy`).
  Calendar windows, the capped and restartable loop that cuts statements, any schedule of runs
  against one uncapped run, and statements against the ledger.
- **Cash collections** (`Dispatch.dfy`, `Collections.dfy`, `CollectionRuns.dfy`,
  `CollectionOutcomes.dfy`). Who is offered
  a collection, the status machine, the amount-bound code with lockout and override, settlement,
  reassignment after a refusal, and payment at the counter.
- **General ledger** (`Journal.dfy`, `JournalChains.dfy`, `JournalReports.dfy`,
  `AccountLedger.dfy`, `JournalPosted.dfy`). Posting, reversal chains, trial balance, profit and
  loss, balance sheet, account ledger, and what all of them show of reversed entries.
- **Category tree** (`CategoryTree.dfy`, `CategoryCounts.dfy`, `CategoryDelete.dfy`). The bounded
  upward walk, the downward search, counts, stand-in pictures, deletion.
- **Cart and bill** (`Cart.dfy`, `CartQuote.dfy`, `Pricing.dfy`). Absolute replacement, capped
  adds, the bill arithmetic, and the stateless quote against the stored cart's bill.

## Where the code is not what its documentation says

Each is stated with the exact condition, and what fails is shown at one concrete input.

- `reconcile` is described as the invariant "sum of amounts equals outstanding". After any run of
  postings and integrity checks that holds exactly when the ledger was nowhere negative since the
  latest check (`SumIsOutstandingIff`); another check then leaves the balance alone exactly when,
  since that check, the ledger was never lower than where it ends, or than zero
  (`ReconcileNeverRaises`). Input: `OverpaymentBreaksTheSum`.
- A statement claims no more than the ledger recorded at its last entry, as long as the balances
  were only ever posted (`CoarseUnderApproximatesFine`). After an integrity check dropped a debt it
  may claim more; exactly when, `UnderApproximatesIff` says. Input: `StatementAboveTheRecord`.
- The comment above `_posted_lines` says a reversal and its original cancel in the reports. Only
  posted entries count, so the pair cancels in a report exactly when the entry nets to nothing on
  the account or the reversal is outside the report (`ReversalInReports`); over all chains the
  reports show every original, its sign turned by each reversal (`ReportsShowOriginals`). Input:
  `ReversedSaleShowsMinus`, the figure the repository's own tests expect.
- `auto_assign` stores the chosen agent before its transition is tried. It is refused exactly when
  someone could take the collection in a status no offer starts from, and then changes the row
  unless it had chosen the present agent (`RefusedAssignmentIsSavedIff`). Input:
  `RefusedAssignmentTakesOver`.
- The automatic pool may offer a collection to an agent whom the manual picker would refuse:
  exactly when the store has agents, none of them on duty, and a store-less agent is
  (`CandidatesAreAssignableIff`). Input: `OfferedButNotAssignable`.
- `AdminCategoryDetailView._subtree_ids` does not end on a category that is its own ancestor
  (`CycleNeverEnds`); on every other category it does (`SubtreeIds`). Input:
  `TwoCategoriesNeverEnd`.
- The upward and the downward walk of the category tree disagree exactly where the depth bound
  of 32 cuts the upward one (`WalksAgreeIff`). Input: `DeepCategoryMissesItsRoot`.
- Deleting a category whose subtree holds "Uncategorized" and a product moves the products and then
  refuses to delete (`NoProductIsLost`): the move is not undone, since the view is not atomic.
  Input: `StuckOnItsFallback`.
- The quote and the stored cart's bill agree exactly when no product-variant pair is asked for
  more than 99 times in total; the quote does not cap (`QuoteIsTheBillIff`). Input:
  `QuoteExceedsTheCart`.
- A larger basket can cost less than a smaller one. It never does exactly when, at the single paisa
  that reaches the free-delivery or the small-cart threshold, the fees that end are no more than
  the paisa, tax and percentage fee it adds, or nothing is owed there (`NeverFallsIff`); any fall is bounded by the fees lost (`InversionIsBounded`). Input:
  `LargerBasketCanCostLess`, with the default configuration.
- A locked code may still be a verified one: exactly when the third wrong code came after a good
  one or an override (`LockedAndVerifiedIff`). Input: `LockedMayBeVerified`.
- No service ever moves a collection to "cancelled", although the transition table allows it;
  `MoneySafeOverRuns` includes that no run reaches it.

## Model

| member | source | states |
|---|---|---|
| ClampedWalk.ClosedForm | apps/backend/credit/services.py:49-69 | a running balance raised to zero at any chosen moments equals the raw sum minus the low-water mark at those moments |
| ClampedWalk.LowIsMinimum | apps/backend/credit/services.py:54-55 | the low-water mark is the true minimum of zero and the prefix sums at the clamping moments: a lower bound, and attained |
| ClampedWalk.MoreCutsHigherBalance | apps/backend/credit/statement_services.py:83-85 | clamping at more moments can only raise the balance |
| ClampedWalk.CoarserAgreesIff | apps/backend/credit/statement_services.py:83-85 | clamping at fewer moments gives the entry-by-entry balance exactly when no prefix dips below the coarse low |
| ClampedWalk.NeverClampedIff | apps/backend/credit/services.py:54-55 | the balance is the plain sum exactly when no prefix of the ledger is negative |
| CreditLedger.CreditAccount.Post | apps/backend/credit/services.py:39-69 | one locked posting: refused over an enforced limit with nothing changed, else one entry appended carrying the new balance, which is cached |
| CreditLedger.CreditAccount.AssertCreditEligible | apps/backend/credit/services.py:72-86 | which of the three refusals a charge meets, in order, or none |
| CreditLedger.CreditAccount.DebitPurchase | apps/backend/credit/services.py:89-98 | exactly when a charge succeeds; on success the debt is within the limit, otherwise nothing changes |
| CreditLedger.CreditAccount.CapturePurchase | apps/backend/credit/services.py:101-113 | a delivered purchase is always recorded, whatever the limit or status |
| CreditLedger.CreditAccount.ApplyRepayment | apps/backend/credit/services.py:116-118 | a repayment posts the negated amount |
| CreditLedger.CreditAccount.ApplyRefund | apps/backend/credit/services.py:121-123 | a refund posts the negated amount |
| CreditLedger.CreditAccount.Adjust | apps/backend/credit/services.py:126-128 | an adjustment posts its signed amount |
| CreditLedger.CreditAccount.Reconcile | apps/backend/credit/services.py:131-138 | the cache becomes the ledger sum raised to zero once, and that is returned |
| CreditLedger.CreditAccount.SetCreditLimit | apps/backend/credit/services.py:344-363 | negative limits are refused untouched; otherwise both limits are set and credit is enabled exactly for a positive one |
| CreditLedger.PostingIsExact | apps/backend/credit/services.py:49-69 | exactly when a posting is refused, and the whole book after it: the entry as asked for with the balance it leaves, that balance cached, the limit as it was |
| CreditLedger.PostKeepsFaithful | apps/backend/credit/services.py:56-69 | every posting keeps the cache equal to the last stored balance and only appends |
| CreditLedger.LastBalanceIsFineWalk | apps/backend/credit/models.py:190-192 | each stored balance is the entry-by-entry clamped walk, in closed form |
| CreditLedger.OutstandingClosedForm | apps/backend/credit/services.py:49-69 | after any run the cached balance is the ledger total minus its low-water mark since the latest integrity check: with postings alone, minus the minimum of zero and all prefix sums |
| CreditLedger.ReconcileNeverRaises | apps/backend/credit/services.py:131-138 | after any run reconcile never raises the balance, and changes nothing exactly when no prefix since the check before it is below both zero and the whole sum |
| CreditLedger.SumIsOutstandingIff | apps/backend/credit/services.py:131-132 | after any run of postings and integrity checks the documented sum equality holds exactly when no prefix of the ledger since the latest check is negative |
| CreditLedger.CacheStaysInBand | apps/backend/credit/services.py:39-138 | over every run of postings, refusals and reconciliations the cache stays between the once-clamped and the entry-clamped ledger |
| CreditLedger.RunIsRecorded | apps/backend/credit/services.py:39-138 | in every run of postings and integrity checks, each stored balance is the ledger clamped at the latest check before it and at every entry since |
| CreditLedger.OverpaymentBreaksTheSum | apps/backend/credit/services.py:131-138 | a three-entry ledger on which the documented equality fails and reconcile would drop a real debt |
| CreditInterleaving.LimitKeptIff | apps/backend/credit/services.py:45-53 | the exact steps that can take the balance over the limit; a checked charge is never one, however stale its first check |
| CreditInterleaving.LimitHoldsOverRuns | apps/backend/credit/services.py:45-53 | any interleaving of any number of clients' charges, repayments, refunds, reconciliations and raised limits keeps the debt within the limit |
| CreditInterleaving.ChargeLandsWithinLimit | apps/backend/credit/services.py:89-98 | after a successful charge the debt is within the limit of that moment, whatever came before |
| CreditInterleaving.PassedOnlyByCheck | apps/backend/credit/services.py:93-97 | a client gets as far as the lock only by the check of an eligible account within what its own loaded balance left free |
| CreditInterleaving.NoLostUpdate | apps/backend/credit/services.py:45-49 | on every interleaving of postings the cache is the last stored balance and the ledger only grows |
| CreditInterleaving.StaleCheckAdmitsTwo | apps/backend/credit/tests.py:43-51 | two clients can both pass the early check; the lock refuses the second |
| Calendar.MonthlyWindowIsWholeMonth | apps/backend/credit/statement_services.py:34-36 | the 32-day step lands in the next month, so the window is the day's whole month, leap years and year ends included |
| Calendar.WindowOfMember | apps/backend/credit/statement_services.py:29-36 | a day is in its window, and every day of a window has that same window |
| Calendar.WindowsPartition | apps/backend/credit/statement_services.py:29-36 | two windows of one cycle are equal or disjoint |
| Calendar.NextWindowStarts | apps/backend/credit/statement_services.py:108 | the day after a window starts the next one |
| Calendar.GregorianYearStart | apps/backend/credit/statement_services.py:34-36 | the month starts of the model agree with the closed-form day count of the Gregorian calendar |
| Calendar.AWeekOfJuly2026 | apps/backend/billing/test_producers.py:139-150 | the weekly window of 7 July 2026 is the one the tests expect |
| Billing.CloseCyclesForAccount | apps/backend/credit/statement_services.py:57-109 | the loop ends and creates the first 24, or all, of the statements due from the restart point, and appends exactly those |
| Billing.MarkOverdue | apps/backend/credit/statement_services.py:112-119 | exactly the open or part-paid, past-due, positive statements become overdue, and they are counted |
| Billing.AgeingIsExact | apps/backend/credit/statement_services.py:115-119 | ageing turns overdue exactly the open or part-paid statements past due and not nil, changes nothing else, and the count is the number of statements changed |
| Billing.CloseBillingCycles | apps/backend/credit/statement_services.py:122-130 | every account with entries is billed on its own, then every statement is aged; ledgers and balances are untouched; the two counts are how many statements the tables grew by and how many became overdue |
| BillingSchedule.BillIgnoresLater | apps/backend/credit/statement_services.py:44-46 | entries dated on or after a run's day change none of its statements |
| BillingSchedule.Resume | apps/backend/credit/statement_services.py:61-64 | restarting after any statement continues the walk, on any earlier or later day, through re-visited skipped windows |
| BillingSchedule.RunKeepsOnTrack | apps/backend/credit/statement_services.py:57-109 | one capped run, on any day, leaves what exists as it stands and adds exactly the next at most 24 statements of the uncapped walk |
| BillingSchedule.AnyScheduleStands | apps/backend/credit/statement_services.py:57-130 | after any schedule of runs, postings, ageing and payments the statements are a beginning of one uncapped run, column by column: payments are the cut figure plus what was credited since, and the status is paid if nothing was owed or it was ever covered, else overdue once aged past due, else open |
| BillingSchedule.CutsArePrefix | apps/backend/credit/statement_services.py:57-109 | with postings and runs alone the stored statements are exactly a beginning of the uncapped run |
| BillingSchedule.ScheduleIndependence | apps/backend/credit/statement_services.py:57-109 | a run on the latest day creates nothing exactly when all statements of one uncapped run that day exist, each as payments and ageing left it; without those, exactly when the statements equal that run's |
| BillingSchedule.RepeatsConverge | apps/backend/credit/statement_services.py:74 | repeating the run adds exactly the missing statements of the uncapped run, 24 at a time, and then nothing |
| BillingSchedule.LateEntryIsNeverBilled | apps/backend/credit/statement_services.py:61-64 | why dates must not go backwards: an entry dated inside a billed window is never billed |
| BillingClamps.BillChains | apps/backend/credit/statement_services.py:83-107 | each opening is the previous closing across skipped windows, and no closing is negative |
| BillingClamps.StatementRollsUp | apps/backend/credit/statement_services.py:78-85 | each statement closes at its opening plus every amount in its own window, raised to zero |
| BillingClamps.StatementsReportTheirWindows | apps/backend/credit/statement_services.py:78-105 | purchases, payments and fees are the totals of their entry types in the window; due date and status follow from end and closing |
| BillingClamps.BilledIffWorthBilling | apps/backend/credit/statement_services.py:86-91 | a visited window has a statement exactly when something was owed at its start or the total of one of the five entry types in it is not nil |
| BillingClamps.VisitedCover | apps/backend/credit/statement_services.py:74-108 | from the cursor on, a day is in a visited window exactly when its own window is over |
| BillingClamps.VisitedInOrder | apps/backend/credit/statement_services.py:74-108 | visited windows follow each other without gap or overlap and all ended before the run |
| BillingClamps.ClosingIsCoarse | apps/backend/credit/statement_services.py:74-108 | every opening and closing is the ledger walked with one clamp per window |
| BillingClamps.CoarseUnderApproximatesFine | apps/backend/credit/statement_services.py:78-85 | a closing lies between the reconciled sum and the posted balance at its last entry, and equals the latter exactly when the ledger up to it is nowhere below its lowest window end |
| BillingClamps.UnderApproximatesIff | apps/backend/credit/services.py:131-138 | with integrity checks among the postings a closing is at most the recorded balance exactly when the ledger, from the latest check on, was as low as at some window end |
| BillingClamps.StatementAboveTheRecord | apps/backend/credit/services.py:131-138 | a five-step run after which a statement says 60 where the ledger recorded 10 |
| BillingClamps.NoOverpaymentAllAgree | apps/backend/credit/statement_services.py:83-85 | on a ledger that never went below zero up to the statement's end, closing, recorded balance and plain sum are one |
| BillingClamps.AnyScheduleChains | apps/backend/credit/statement_services.py:57-130 | after any schedule the stored statements are ordered and chained, and still roll up the ledger as it is now |
| BillingClamps.AnyScheduleUnderApproximates | apps/backend/credit/statement_services.py:57-109 | after any schedule, over posted or reconciled ledgers: each stored closing is at least the sum raised once; at most the posted balance at its period end; and with integrity checks at most the recorded one under the exact condition |
| Dispatch.ScopePool | apps/backend/agents/candidates.py:59-68 | the store's agents if any, else the store-less ones; everybody when no store is known |
| Dispatch.CandidateAgents | apps/backend/agents/candidates.py:51-68 | the scoping rule applied to on-duty agents |
| Dispatch.AssignableAgents | apps/backend/agents/candidates.py:71-97 | the scoping rule applied to all active agents |
| Dispatch.EligibleForStore | apps/backend/agents/candidates.py:100-106 | eligibility is membership in the assignable pool, or no store |
| Dispatch.CandidatesRespectStore | apps/backend/agents/candidates.py:13-21 | an offer goes to an on-duty agent of the store, or to a store-less one only when none of the store's is on duty |
| Dispatch.CandidatesExactly | apps/backend/agents/candidates.py:51-68 | exactly who may be offered a store's task, in the columns of the profile: the store's own on duty, or the store-less on duty when none of the store's is |
| Dispatch.CandidatesAreAssignableIff | apps/backend/agents/candidates.py:71-97 | everyone who may be offered a collection may also be picked by hand, exactly when an agent of the store is on duty, or it has none, or no store-less agent is on duty |
| Dispatch.OfferedButNotAssignable | apps/backend/agents/candidates.py:71-97 | two agents for whom the pools differ |
| Dispatch.RankForNewTask | apps/backend/agents/dispatch.py:42-55 | free agents in order, busy agents sorted by minutes remaining, stably |
| Dispatch.RankedByOpenWork | apps/backend/agents/dispatch.py:15-55 | free means no open delivery, collection or verification; the busy are ordered by the three together, at twelve minutes each |
| Dispatch.SortIsSoonestFirst | apps/backend/agents/dispatch.py:54 | the busy list is in order of finishing |
| Dispatch.SomeoneIsRanked | apps/backend/cashcollections/services.py:163-168 | the third selection branch is unreachable |
| Dispatch.ChosenIsBest | apps/backend/cashcollections/services.py:162-168 | the chosen agent is free if anyone is, then least loaded among the free; otherwise nobody finishes sooner |
| Dispatch.ChosenIsFirst | apps/backend/cashcollections/services.py:162-168 | which agent gets a new task, ties included: the first in the pool with nothing open, else the first of those with the least open |
| Collections.CashCollection.Transition | apps/backend/cashcollections/services.py:71-87 | moves along an allowed edge or in place, else is refused with nothing changed |
| Collections.CashCollection.RecordAssignment | apps/backend/cashcollections/services.py:125-127 | appends one assignment record |
| Collections.CashCollection.AutoAssign | apps/backend/cashcollections/services.py:141-174 | offers to the best unblocked candidate; the agent is saved even when the transition is refused |
| Collections.CashCollection.ManualAssign | apps/backend/cashcollections/services.py:177-189 | allowed from four statuses only; records whether it replaced an agent |
| Collections.CashCollection.Accept | apps/backend/cashcollections/services.py:213-218 | only the owner, only while on offer |
| Collections.CashCollection.Reject | apps/backend/cashcollections/services.py:221-230 | records the refusal, returns the collection to the pool and offers it on |
| Collections.CashCollection.Advance | apps/backend/cashcollections/services.py:233-245 | en route, reached, failed and disputed are owner-only transitions |
| Collections.CashCollection.RequestCollectionOtp | apps/backend/cashcollections/services.py:252-284 | binds a fresh code to a valid amount and clears any earlier verification |
| Collections.CashCollection.VerifyOtp | apps/backend/cashcollections/services.py:303-340 | ownership, lock, expiry, match and attempt counting in the order of the code |
| Collections.CashCollection.AmountToSettle | apps/backend/cashcollections/services.py:354-369 | the amount a settlement would post, or the refusal |
| Collections.CashCollection.Collect | apps/backend/cashcollections/services.py:343-400 | one repayment, one receipt, the collected amount and the closing status, or a refusal that changes nothing |
| Collections.CashCollection.ManualVerify | apps/backend/cashcollections/admin_views.py:254-268 | verifies without a code and clears a lock with its count |
| Collections.CashCollection.CollectCash | apps/backend/payments/services.py:170-227 | a payment at the counter settles whatever is outstanding from any status |
| CollectionOutcomes.StatusMoves | apps/backend/cashcollections/services.py:45-53 | every operation moves the status through one of twelve named pairs or not at all; only a counter payment may jump, to collected |
| CollectionOutcomes.FieldStepIff | apps/backend/cashcollections/services.py:213-245 | exactly when the owner may accept, set out, arrive, give up or dispute, and what each changes |
| CollectionOutcomes.ManualAssignmentIff | apps/backend/cashcollections/services.py:177-189 | exactly from where a person may assign, and the whole row after it |
| CollectionOutcomes.CodeAnswerIff | apps/backend/cashcollections/services.py:303-340 | which of six answers an entered code gets, by owner, code, lock, fifteen minutes, match and third attempt |
| CollectionOutcomes.RequestAnswerIff | apps/backend/cashcollections/services.py:256-262 | which refusal a request for a code meets first |
| CollectionOutcomes.CollectSettlesIff | apps/backend/cashcollections/services.py:344-400 | which amount a settlement takes, with or without a code, exactly when it goes through, and that exactly that amount is posted |
| CollectionOutcomes.PartAfterOverride | apps/backend/cashcollections/services.py:362-363 | a run: after an override, 30000 tendered of 100000 settles 30000 and leaves it partly collected |
| CollectionOutcomes.CounterPaymentTakesTheRest | apps/backend/payments/services.py:193-227 | a counter payment takes exactly the rest of an open collection, from any status; whose money it is; a second one takes nothing |
| CollectionRuns.RefusedAssignmentIsSavedIff | apps/backend/cashcollections/services.py:148-174 | exactly when an automatic assignment is refused, and exactly when the refusal changes the row |
| CollectionRuns.RefusedAssignmentTakesOver | apps/backend/cashcollections/services.py:169-171 | a run in which a refused assignment bars the agent at the door from collecting |
| CollectionRuns.RefusedChangesNothing | apps/backend/cashcollections/services.py:71-400 | every other refusal leaves the whole row as it was |
| CollectionRuns.MoneySafeOverRuns | apps/backend/cashcollections/services.py:343-400 | over every run from a fresh collection: at most one field and one counter settlement, collected amount within bounds and equal to receipts, counter payments and repayments, closing statuses exact, cancelled unreachable |
| CollectionRuns.SettledIsFinal | apps/backend/cashcollections/services.py:45-53 | after a settlement no collect succeeds and no service but the counter moves status or money |
| CollectionRuns.BoundOverRuns | apps/backend/cashcollections/services.py:303-370 | over every run the stored code, amount, time, attempts and lock are those of the latest request as an onlooker counts them, the count starting afresh when an override unlocks; until a field settlement the verified flag is exactly a good code or an override |
| CollectionRuns.CodeIsSingleUse | apps/backend/cashcollections/services.py:386-392 | over every run a partly settled collection is verified exactly by a good code or an override that came after the settlement |
| CollectionRuns.FlaggedWhileLockedOut | apps/backend/cashcollections/services.py:318-336 | over every run a collection is flagged for manual verification exactly while a lockout waits for an override or a good code |
| CollectionRuns.SettlementIsBound | apps/backend/cashcollections/services.py:354-370 | a successful collect settles exactly the latest requested amount, after a timely matching code before a third wrong one, or an override |
| CollectionRuns.AmountCheckCannotFail | apps/backend/cashcollections/services.py:364-365 | once a code exists the amount check can only refuse a figure the caller contradicts |
| CollectionRuns.OverrideUnblocks | apps/backend/cashcollections/admin_views.py:254-268 | an override ends a lockout and lets the agent settle at once |
| CollectionRuns.FreshCodeSettlesIff | apps/backend/cashcollections/services.py:252-400 | request, code, settlement: exactly which amounts an agent can settle through a fresh code when no earlier verification or code is still good, and that precisely the requested amount is settled; the floor never blocks clearing the whole balance |
| CollectionRuns.LockedAndVerifiedIff | apps/backend/cashcollections/services.py:316-338 | over every run until a field settlement, a code is locked and verified exactly when a third wrong code was counted and a good one or an override preceded it |
| CollectionRuns.LockedMayBeVerified | apps/backend/cashcollections/services.py:316-338 | a run from a fresh collection that ends locked, verified, and settles |
| CollectionRuns.NeverOfferedAgain | apps/backend/cashcollections/services.py:130-159 | nobody is assigned exactly when every candidate is blocked; otherwise the offer goes to a candidate who has not declined |
| CollectionRuns.DeclineStep | apps/backend/cashcollections/services.py:221-230 | one refusal moves the offer to an unasked candidate, or back to the pool unowned when there is none |
| CollectionRuns.DecliningTerminates | apps/backend/cashcollections/services.py:130-174 | refusals in a row number at most the unasked candidates and the present agent, and end in the pool with no agent |
| Journal.DecIsNearest | apps/backend/accounting/services.py:22-23 | amounts are rounded to the nearest paisa, ties to the even one |
| Journal.GeneralLedger.FindBooked | apps/backend/accounting/services.py:43-50 | the first entry holding a source slot, if any |
| Journal.GeneralLedger.PrepareLines | apps/backend/accounting/services.py:52-76 | the per-line checks in order, and both totals |
| Journal.GeneralLedger.PostEntry | apps/backend/accounting/services.py:26-107 | creates one balanced posted entry, returns the booked one, or refuses and changes nothing |
| Journal.GeneralLedger.AllOneSided | apps/backend/accounting/models.py:149-160 | the stored-line constraint holds of every line |
| Journal.GeneralLedger.ReverseEntry | apps/backend/accounting/services.py:110-147 | appends the mirror image of a posted entry and marks the original reversed, or refuses |
| JournalChains.BookedExactlyWhen | apps/backend/accounting/services.py:37-104 | exactly which requests make a new entry |
| JournalChains.RefusedForItsLines | apps/backend/accounting/services.py:52-89 | which refusal a request meets: its first bad line decides, then the totals, then the stored-line constraint |
| JournalChains.ReplayReturnsTheEntry | apps/backend/accounting/services.py:43-50 | a repeated source changes nothing and returns the existing entry |
| JournalChains.ReachableIsSound | apps/backend/accounting/services.py:26-147 | every reachable journal has balanced one-sided entries on known accounts, straight reversal chains and unique source slots |
| JournalChains.PostedHasNoReversal | apps/backend/accounting/services.py:121-123 | a posted entry never has a reversal, so the second guard is dead |
| JournalChains.ChainLines | apps/backend/accounting/services.py:137-142 | the n-th link of a chain has the original's lines with sides swapped n times, and its store |
| JournalChains.ChainHasOnePostedLink | apps/backend/accounting/services.py:118-144 | each chain has exactly one posted link, its deepest |
| JournalChains.ChainContribution | apps/backend/accounting/services.py:137-142 | the n-th link of a chain has the original's net on every account, its sign turned n times |
| JournalPosted.BookingInReports | apps/backend/accounting/services.py:91-104 | a booked request moves exactly the reports that cover its date and store, by the rounded amounts of its own lines |
| JournalPosted.ReversalInReports | apps/backend/accounting/services.py:150-163 | what reversing a posted entry does to any report: minus the entry where its date is covered, minus it again where the reversal's is; exactly when the pair cancels and when the report does not move |
| JournalPosted.ReportsShowOriginals | apps/backend/accounting/services.py:150-163 | in every reachable journal, for any period and store, the posted net of an account is the sum over originals whose chain has its posted link in the period, the sign turned once per reversal |
| JournalPosted.ClosingIsNet | apps/backend/accounting/services.py:272-308 | the account ledger closes at the account's posted net, in its own direction |
| JournalPosted.ReversedSaleShowsMinus | apps/backend/accounting/tests.py:145-159 | a sale of 1000 and its reversal leave the cash account at -1000 |
| JournalReports.SelectionBalances | apps/backend/accounting/services.py:150-163 | posted debits equal credits for every date range and store |
| JournalReports.GroupingConserves | apps/backend/accounting/services.py:169-174 | grouping by account loses nothing |
| JournalReports.TrialBalance | apps/backend/accounting/services.py:166-197 | totals of the groups, one netted row per account with lines, and the balanced flag |
| JournalReports.TrialRowsAreNets | apps/backend/accounting/services.py:176-190 | each row shows one account's net on the side where it lies and nothing on the other |
| JournalReports.TrialBalanceBalances | apps/backend/accounting/services.py:166-197 | in every reachable journal, any date and store, gross totals and netted rows balance |
| JournalReports.TotalsByType | apps/backend/accounting/services.py:200-222 | the total of some account types in their own direction, and the rows behind it |
| JournalReports.RowsAreExact | apps/backend/accounting/services.py:200-222 | the rows are exactly the accounts of those types that do not net to zero, each once, and add up to the total |
| JournalReports.ProfitAndLoss | apps/backend/accounting/services.py:225-240 | both sets of rows, both totals, and net profit as their difference |
| JournalReports.ProfitLossAddsUp | apps/backend/accounting/services.py:225-240 | income and expenses are each exactly their non-zero accounts and the sum of those; net profit is the one less the other |
| JournalReports.BalanceSheet | apps/backend/accounting/services.py:243-269 | the rows and figures of the sheet, all from one selection of lines |
| JournalReports.SheetAddsUp | apps/backend/accounting/services.py:243-269 | each part of the sheet is its non-zero accounts and their sum; equity also carries all profit so far |
| JournalReports.BalanceSheetBalances | apps/backend/accounting/services.py:243-269 | in every reachable journal, any date and store, assets equal liabilities plus equity plus retained earnings |
| AccountLedger.AccountLedger | apps/backend/accounting/services.py:272-308 | opening, rows with running balances in date order, and closing |
| AccountLedger.RowsShowLines | apps/backend/accounting/services.py:274-307 | the rows are the account's posted lines of the period and store, each once, by date and then as booked, each with its own columns and the balance after it |
| AccountLedger.SelectOrdered | apps/backend/accounting/services.py:274-279 | filtering and date ordering commute |
| AccountLedger.ClosingIgnoresStart | apps/backend/accounting/services.py:280-307 | a closing balance does not depend on where the period starts |
| AccountLedger.StatementsSplice | apps/backend/accounting/services.py:272-308 | neighbouring periods join row by row, running balances included |
| AccountLedger.ClosingMatchesTrialRow | apps/backend/accounting/services.py:166-197 | the drill-down's closing is the account's one row of the trial balance; an account without lines has no row and closes at zero |
| CategoryTree.ChainIsFirstAncestors | apps/backend/catalog/store_tree.py:38-45 | on any parent map, cyclic or not, the walk yields the first 32 ancestors once each |
| CategoryTree.LayerExact | apps/backend/catalog/admin_views.py:219-223 | the n-th level down holds exactly the categories whose n-th ancestor is the start |
| CategoryTree.SubtreeIds | apps/backend/catalog/admin_views.py:215-224 | the search ends and lists every descendant exactly once |
| CategoryTree.CycleNeverEnds | apps/backend/catalog/admin_views.py:219-223 | on a category that is its own ancestor no level is ever empty |
| CategoryTree.TwoCategoriesNeverEnd | apps/backend/catalog/admin_views.py:219-223 | two categories that are each other's parent never run out of levels |
| CategoryTree.WalksAgreeIff | apps/backend/catalog/store_tree.py:38-45 | looking up and looking down agree exactly when the depth bound did not cut the walk |
| CategoryTree.DeepCategoryMissesItsRoot | apps/backend/catalog/store_tree.py:38-45 | a category 32 levels below the root does not count towards it |
| CategoryCounts.AncestorChain | apps/backend/catalog/store_tree.py:38-45 | the loop yields the bounded walk |
| CategoryCounts.TreeFromProducts | apps/backend/catalog/store_tree.py:48-69 | counts are the products whose walk passes through a category, each once; visible means a positive count |
| CategoryCounts.CountPositiveIff | apps/backend/catalog/store_tree.py:51-53 | a category is visible exactly when some product's walk passes through it |
| CategoryCounts.CountIsSubtreeSize | apps/backend/catalog/store_tree.py:98-100 | with no product too deep, a count is the number of products in the subtree |
| CategoryCounts.CountAddsUp | apps/backend/catalog/store_tree.py:98-100 | a count is the direct products plus the counts of the children, nothing twice |
| CategoryCounts.VisibleIsClosedUpwards | apps/backend/catalog/store_tree.py:64-68 | the parent of a visible category is visible |
| CategoryCounts.RepresentativeImages | apps/backend/catalog/store_tree.py:119-145 | each category shows the first pictured product whose walk passes through it |
| CategoryCounts.PicturedIffCounted | apps/backend/catalog/store_tree.py:129-131 | a category has a picture exactly when some pictured product counts towards it |
| CategoryCounts.PictureIsTheFirst | apps/backend/catalog/store_tree.py:133-145 | the picture is that of the first pictured product that counts towards the category |
| CategoryDelete.Catalog.Destroy | apps/backend/catalog/admin_views.py:233-274 | what deleting a category does to categories, products and the fallback, in each outcome |
| CategoryDelete.NoProductIsLost | apps/backend/catalog/admin_views.py:185-200 | one delete: no product is lost or unfiled and the tables stay sound; exactly the subtree's rows go, the fallback's own among them; exactly when the delete is refused after the move |
| CategoryDelete.NoProductIsEverLost | apps/backend/catalog/admin_views.py:185-200 | after any run of deletes every product still exists and is filed under an existing category |
| CategoryDelete.StuckOnItsFallback | apps/backend/catalog/admin_views.py:248-256 | a delete refused after its products were moved |
| Cart.CartRow.UpsertItem | apps/backend/cart/services.py:90-122 | sets or removes one line at today's price; setting binds the cart to the serving store |
| Cart.UpsertExact | apps/backend/cart/services.py:90-122 | an upsert sets one key to exactly the quantity and price and touches no other |
| Cart.UpsertedRow | apps/backend/cart/services.py:96-122 | a set line costs the product's store price plus the surcharge of its variant |
| Cart.CartRow.ReplaceItems | apps/backend/cart/services.py:30-87 | merges the lines, drops stale rows, upserts the rest; the cart is bound to the serving store exactly when something is asked for |
| Cart.MergedIsCappedTotal | apps/backend/cart/services.py:55-75 | on validated lines the merge is the capped total of positive quantities, however split |
| Cart.ReplaceIsAbsolute | apps/backend/cart/services.py:40-45 | the cart becomes exactly the merged lines at today's prices, whatever it held, with unique keys |
| Cart.ReplacedRowPrice | apps/backend/cart/services.py:84-122 | every row of a replaced cart costs today's price of its product and variant |
| Cart.ReplaceIsIdempotent | apps/backend/cart/services.py:42-43 | a replay changes nothing and every quantity is within 1 and 99 |
| Cart.ReplaceIgnoresOrder | apps/backend/cart/services.py:55-75 | line order and previous carts do not matter |
| Cart.CartRow.AddItem | apps/backend/cart/views.py:219-230 | adds to what is there, zero meaning one, up to the cap |
| Cart.AddsAreCapped | apps/backend/cart/views.py:226-229 | any number of adds to any cart leaves, for each key added, the capped total of what was there and what was added, and every other key as it was |
| CartQuote.CartBill | apps/backend/cart/services.py:16-27 | subtotal, savings, count and bill of the stored rows |
| CartQuote.BillAddsUp | apps/backend/cart/services.py:16-27 | an empty cart comes to nothing; each row adds its price and its saving on the list price, times its quantity |
| CartQuote.OneLineBill | apps/backend/cart/services.py:16-122 | one line put into any cart is billed at the price of its product plus that of its variant |
| CartQuote.Quote | apps/backend/cart/views.py:113-144 | the same figures of the posted elements that survive the skips |
| CartQuote.QuoteAddsUp | apps/backend/cart/views.py:116-140 | exactly which elements are passed over; each other adds quantity times product price plus own-variant surcharge, and the non-negative saving on the list price |
| CartQuote.QuoteIsTheBillIff | apps/backend/cart/views.py:89-97 | quote and bill of the replaced cart agree on every figure exactly when no key exceeds the cap |
| CartQuote.QuoteExceedsTheCart | apps/backend/cart/views.py:113-143 | 120 quoted where the cart holds 99 |
| Pricing.RoundIsNearest | apps/backend/core/pricing.py:7-9 | rounding gives the nearest paisa, ties away from zero, and no other number is that |
| Pricing.GstRoundTrip | apps/backend/core/pricing.py:31-42 | both conversions are to the nearest unit, and a rate converted to a fraction and back is itself to two places |
| Pricing.PlatformFeeMonotone | apps/backend/core/pricing.py:66-75 | the fee never falls as the basket grows, through percentage, cap and rounding |
| Pricing.InversionIsBounded | apps/backend/core/pricing.py:78-134 | a larger basket costs at most the delivery fee and the small-cart fee less, each only if its threshold is crossed; the delivery fee it saves is the one its bill shows as waived |
| Pricing.PartsAddUp | apps/backend/core/pricing.py:111-132 | the itemised parts sum to the total with nothing lost in the two further roundings, whenever they come to at least zero, and the platform fee is the sum of its four parts |
| Pricing.BillIsExact | apps/backend/core/pricing.py:78-134 | every part of a bill, in exact paise and with the zone's own amounts where it has them: when it is charged and what it is the nearest whole number to |
| Pricing.OwnFeeIsExact | apps/backend/core/pricing.py:66-75 | the platform's own fee is nearest to the percentage of the subtotal, or the cap if less, or the flat fee; nothing on an empty basket |
| Pricing.NeverFallsIff | apps/backend/core/pricing.py:87-113 | a larger basket never costs less exactly when, at the paisa reaching the free-delivery or the small-cart threshold, the fees that end are at most the paisa, tax and percentage fee it adds, or nothing is owed there |
| Pricing.LargerBasketCanCostLess | apps/backend/siteconfig/models.py:17-48 | with the default configuration 498.99 costs 633.81 and 499.00 costs 588.82 |

## Left out

- Views, serializers, permissions, notifications, audit records, PDFs and SMS, except the steps listed above: input and output around the modelled state.
- `AdminCollectionUpdateView` writes any status directly and would break every run property of collections; it is not among the operations.
- Row-level concurrency outside `_post`: `collect` and the collection services lock no row, so each is one atomic step here.
- Changing an account's billing cycle: the cycle is constant, since a weekly window could otherwise start inside a billed month.
- Time zones: each ledger entry has one date, and `auto_now_add` makes the first entry the earliest.
- Credit applications, bureau scores, family groups and the lending partner.
- Collection timestamps, visit attempts, dunning and agent statistics: columns that no modelled decision reads.
- Price and stock look-ups, zone resolution and the platform configuration are inputs.
- The calendar has no last year; Python's ends with 9999.
- CategoryTree.SubtreeIds: requires that the category is not its own ancestor, because the loop does not end otherwise.
- CategoryCounts.CountIsSubtreeSize: asks that no product's category has a 32nd ancestor; beyond that the counts are cut as the upward walk is.
- Rounding of ledger inputs in the credit and collection services: amounts arrive in whole paise, except that a tendered collection amount may be finer and is then refused.
