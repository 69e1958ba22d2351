# Freshcart: verified model of stock reservations, payments and client protocols

The project models how the shop moves stock between shelf, reservations and sales, and proves what the
services promise about it over every run.

- `Counters.dfy`, `Reservations.dfy`, `BookKeeping.dfy`: the product counters with their guarded updates,
  the reservation rows, and the effect of each service call on counters, rows and orders taken as a whole.
- `OrderStatuses.dfy`, `Coupons.dfy`, `Database.dfy`: the status table, the discounts, and the complete
  effect of placing an order, opening a payment and handling a webhook.
- `Outcomes.dfy` and `Webhooks.dfy`: the replies and the effects of each call and of each kind of payment event,
  case by case and row by row.
- `Protocol.dfy`: what one call keeps. `Sweeping.dfy`: one sweep and its visiting orders. `Runs.dfy`: every
  interleaving of calls, with any number of sweeps under way. `Trails.dfy`: the statuses of one order along a
  run. `Stalling.dfy`: when the sweeper makes progress. `Witnesses.dfy`: runs that reach the failures which
  the exact conditions describe.
- `Store.dfy`: the store as a mutable object whose methods work row by row, with the loops, guards and
  transactions of the services. Each method is proved equal to the whole effect given in the files above.
  `Server.dfy` performs every step of a run by calling these methods and is proved to end in the state that
  the run theorems speak about.
- `RateLimit.dfy`, `StripeSignature.dfy`, `Paging.dfy`, `TokenRefresh.dfy`, `Cart.dfy`: the fixed-window rate
  limiter, the signature header, pagination, the web client's single-flight token refresh and its cached cart.
  `CartCodec.dfy` exhibits a codec with the one law that the cart asks of JSON.

## Where code and comments disagree

The model follows the code; the exact conditions are proved.

- A comment calls done and cancelled terminal (`internal/order/model/order.go:33-36`). Cancelled is. Done is
  not: `MarkOrderPaid` guards with its own list and takes New, InProgress and Done (back) to Paid.
- A comment leaves the stock of a canceled payment to the sweeper (`internal/payment/service/service.go:147-148`).
  The webhook cancels the order without releasing anything, and pay, cancel and sweep all refuse a
  cancelled order: its reservations stay active in every later run.
- The count a sweep returns includes the rows of groups it skipped (`internal/order/service/order.go:367-371`
  returns no error, so line 402 counts them).
- The sweeper is to release reservations past their TTL (`internal/order/service/order.go:22-24,43-44`). Its
  query does not look at orders, so expired rows of orders it passes over (failed payments, cancelled or paid
  by a status update) stay in the answer. It makes progress on every answer exactly when fewer than the batch
  limit of such rows exist; otherwise any number of sweeps may change nothing.
- A percentage coupon above one hundred can be created, which makes the final price negative.
- A success event that follows a failed attempt marks the payment succeeded but leaves the order in
  PaymentFailed; the event is recorded first, so redelivery does nothing.
- The rate limiter admits at most `2 * max - 1` requests in any interval as long as its window, one less than
  the usual `2 * max`; the bound is attained.

## Assumptions

- A service call is one serial, atomic step. The sweep is a snapshot step and one transaction per order;
  webhook handling keeps its event record when a later part fails. A failed transaction restores the store.
- What the code cannot choose is a parameter of the step: fresh ids, clock readings, the provider's answer,
  the rows a LIMIT without ORDER BY returns, Go's map order, and database faults in a sweep.
- Quantities are naturals that fit `int`. Amounts are exact reals. Reservation ids are insertion positions,
  coupons are keyed by their unique code and payments by their unique order id. Order rows are not deleted in
  runs; the missing-order branch of the sweep is covered by the lemmas on a single sweep.
- An admin edit of the stock figure is guarded by the table's CHECK constraints
  (`migrations/0001_init_schema.up.sql:120-122`).
- The HMAC of a webhook body is an uninterpreted function of its timestamp. The JSON codec of the cart is a
  parameter whose only law is that parsing undoes printing; prices in the cart are whole cents.

## Model

| member | source | states |
|---|---|---|
| OrderStatuses.PathsMoveForward | internal/order/model/order.go:33-59 | along any chain of accepted moves the phase never goes back, checkout is never re-entered, done and cancelled are never left, and Paid is entered from PendingPayment or PaymentFailed chains only |
| OrderStatuses.AcceptedMoves | internal/order/model/order.go:37-59 | the accepted moves listed by their target, both directions |
| OrderStatuses.FulfilmentPassesThroughPaid | internal/order/model/order.go:37-45 | a path from checkout, even one that may jump to Paid, is in fulfilment only after Paid and done only after in-progress |
| Trails.FulfilledWerePaid | internal/order/service/order.go:208-276 | in every run an order placed in it is in fulfilment only after it was Paid, and done only after in-progress |
| Trails.TrailIsPathExact | internal/order/service/order.go:208-250 | along every run the statuses of an order follow the transition table exactly when the run never pays the order in New, InProgress or Done |
| Trails.ForwardExact | internal/order/model/order.go:33-45 | for orders not in New, fulfilment never goes back along a run exactly under the same condition |
| Trails.OrdersMoveForward | internal/order/model/order.go:33-45 | in such runs, between any two states: no phase undone, checkout not re-entered, done and cancelled final, Paid only from checkout |
| Counters.FirstRefused | internal/order/service/order.go:139-147 | the demands before the reported one all fit together, and with the reported one its product's running total exceeds the slack |
| Counters.CoverStep | internal/order/repository/product.go:49-112 | a guarded row update after a prefix of updates takes effect exactly when the aggregate check still holds, and then the counters are those of one combined update |
| Counters.RefusedAt | internal/order/service/order.go:139-147 | the first guard that fires in list order is the reported refusal |
| Counters.OrderOfDemandsIrrelevant | internal/order/service/order.go:139-155 | acceptance and the resulting counters depend on the multiset of lines only |
| Counters.DrainIsRelease | internal/order/service/order.go:372-382 | when the counters cover the rows, the lenient release loop is the exact release and the drift branch is dead |
| Counters.DrainIsSafe | internal/order/service/order.go:372-382 | on any counters the lenient release keeps stock, never raises a reserved counter, never takes it below zero and never takes off more than asked |
| Counters.DrainExact | internal/order/service/order.go:372-382 | each lenient release takes its quantity off if the counter covers it and otherwise leaves the counter as it is |
| Reservations.FindActiveExact | internal/order/repository/reservation.go:34-43 | the query returns distinct current rows, exactly the active ones of the order |
| Reservations.HeldOfSettle | internal/order/repository/reservation.go:57-65 | settling distinct active rows moves exactly their quantities from the active sum of each product to the sum of the new status |
| Reservations.HeldOfInsert | internal/order/repository/reservation.go:27-32 | inserting the rows of an order raises only the active sums, by what its lines ask |
| BookKeeping.SettlementCovered | internal/order/repository/product.go:79-112 | from consistent books the commit and release guards hold for every list of distinct active rows |
| BookKeeping.SettleKeepsConsistent | internal/order/service/order.go:258-267 | committing or releasing active rows keeps every counter equal to the sum of its active rows and within stock |
| Protocol.SweepShape | internal/order/service/order.go:353-392 | however old the snapshot, a group that passes the status check holds only rows still active, its order exists, no counter is drained, and the transaction is an exact settlement |
| Protocol.DoKeepsInv | internal/order/service/order.go:87-433 | every call keeps the ledger, the links and the rule that an order in checkout holds all its rows; rows leave Active once and change nothing else |
| Protocol.PayOutcome | internal/order/service/order.go:240-276 | paying succeeds exactly for known orders not cancelled and not PaymentFailed; no counter guard ever refuses; afterwards the order is Paid, holds nothing, and all its rows are committed if it came from checkout |
| Protocol.CancelOutcome | internal/order/service/order.go:306-333 | cancelling succeeds exactly for the owner outside done, cancelled and paid; no counter guard ever refuses; afterwards the order is cancelled and holds nothing |
| Protocol.DoConserves | internal/order/service/order.go:258-269 | stock on the shelf plus committed units changes by restocks, edits, new products and direct decrements alone |
| Protocol.StatusMove | internal/order/service/order.go:208-250 | a call changes nothing of a stored order but its status, and leaves the transition table exactly when it pays an order in New, InProgress or Done |
| Protocol.HoldsAfter | internal/order/service/order.go:253-270 | an order holds stock after a call exactly when it did and was not settled as a whole, or was just placed |
| Protocol.CancelledAfter | internal/order/service/order.go:306-333 | which orders are cancelled after a call, both directions |
| Protocol.StrandingExact | internal/payment/service/service.go:146-155 | from books where cancelled orders hold nothing, a call breaks this exactly when it is a status update cancelling an order that holds rows or a sweep of a cut group |
| Protocol.StrandedForGood | internal/order/service/order.go:306-393 | no call ever changes an active row of a cancelled order |
| Protocol.SplitExact | internal/order/service/order.go:339-392 | a call splits the rows of an order exactly when it sweeps a group that misses some of them |
| Protocol.CommitSkipExact | internal/order/service/order.go:208-224 | orders in fulfilment keep all rows committed exactly unless a status update takes an order with rows out of checkout |
| Outcomes.StatusUpdateExact | internal/order/service/order.go:208-224 | which moves a status update accepts, by target and both directions, with its errors; nothing but the status of that order changes |
| Outcomes.PayReplies | internal/order/service/order.go:240-272 | the reply of MarkOrderPaid in each case; every refusal and the idempotent case leave the books as they are |
| Outcomes.PayEffect | internal/order/service/order.go:252-270 | paying commits exactly the active rows of the order, makes it Paid and takes the units off both counters |
| Outcomes.CancelReplies | internal/order/service/order.go:306-333 | the reply of CancelOrder in each case; every refusal leaves the books as they are |
| Outcomes.CancelEffect | internal/order/service/order.go:322-328 | cancelling releases exactly the active rows of the order, cancels it and takes the units off the reserved counters alone |
| Outcomes.GuardRefusals | internal/order/service/order.go:258-261 | a counter guard that fires refuses the whole settlement |
| Outcomes.GroupSweepExact | internal/order/service/order.go:356-392 | one group transaction on any books, drifted and orphaned ones included |
| Outcomes.SweepEffect | internal/order/service/order.go:347-392 | a whole sweep row by row: exactly the fetched rows whose order is missing, new or pending are released, exactly those existing orders cancelled, and the reserved counters drop by the units released |
| Sweeping.AnyVisitingOrder | internal/order/service/order.go:353-392 | visiting the groups in any order, with any failed groups left out, gives the one-shot update for the set of visited orders |
| Sweeping.VisitContinues | internal/order/service/order.go:356-392 | one more group transaction extends the one-shot update by that order |
| Sweeping.CountExcess | internal/order/service/order.go:393-402 | the returned count exceeds the rows released by exactly the rows of skipped groups |
| Sweeping.CountOfAll | internal/order/service/order.go:347-402 | without failures the count is the size of the fetched batch |
| Sweeping.SweepClears | internal/order/service/order.go:339-392 | after a sweep below its limit, rows still active and expired belong to orders the sweep passes over |
| Stalling.StalledExact | internal/order/service/order.go:353-392 | a sweep leaves the books unchanged exactly when every fetched row belongs to an order it passes over |
| Stalling.ProgressExact | internal/order/repository/reservation.go:45-55 | while an expired row could be released, every answer of the expiry query leads to progress exactly when fewer rows than the limit are expired and passed over |
| Stalling.StalledForever | internal/order/service/order.go:335-420 | with that many passed-over rows, any number of sweeps at any later times may one after the other change no table |
| Coupons.DiscountBounds | internal/order/service/coupon.go:71-80 | a discount is non-negative and is at most the total exactly unless it is a percentage above one hundred of a non-zero total |
| Coupons.ApplyRefusals | internal/order/service/coupon.go:54-69 | exactly when a coupon is refused and with which error: unknown, expired, used up, below the minimum, in this order |
| Coupons.AppliedAmount | internal/order/service/coupon.go:71-82 | the amount taken off: the value of a fixed coupon or the total if that is less; that part of the total for a percentage |
| Database.PlaceOrderExact | internal/order/service/order.go:87-170 | an order is accepted exactly when the quote succeeds and for every product the sum over all lines is available; otherwise every table is unchanged and a stock error names the first line whose running total is too large |
| Database.LineOrderIrrelevant | internal/order/service/order.go:97-155 | permuting the lines changes neither verdict, amounts nor counters |
| Outcomes.QuoteRefusals | internal/order/service/order.go:88-119 | what a request is refused for, with which error and precedence: validation, unknown product, coupon |
| Outcomes.QuoteExact | internal/order/service/order.go:92-123 | an accepted order carries its lines at current prices, their sum, the coupon's discount on it and the difference |
| Outcomes.PlaceEffect | internal/order/service/order.go:125-170 | an accepted order is stored with one fifteen-minute row per line and raises each reserved counter by the sum over its lines |
| Outcomes.PlaceCountsUse | internal/order/service/order.go:160-164 | placing counts exactly one use of the order's coupon |
| Outcomes.CutTowardsZero | internal/payment/service/service.go:76 | the charged amount is the cents cut towards zero |
| Outcomes.IntentExact | internal/payment/service/service.go:58-105 | what opening a payment refuses and why; the first call stores the provider's intent for the final price in cents, later calls store nothing |
| Runs.StepKeepsInv | internal/order/service/order.go:87-433 | every step, sweep snapshots and visits included, keeps ledger, order and row relations, coupon counts, prices and snapshot traceability |
| Runs.RunsKeepInv | internal/order/service/order.go:339-392 | over every run with any sweeps interleaved the invariant holds and each row leaves Active at most once, for good |
| Runs.EachRowSettledOnce | internal/order/service/order.go:339-392 | over every run the reserved counter falls by the quantity of each row that left Active, once per row, and rises by the added rows still held |
| Runs.RunsConserve | internal/order/service/order.go:258-269 | over every run shelf stock plus sold units follows the external flow, and sold plus held units never exceed what was supplied |
| Runs.RunsKeepOrders | internal/order/service/order.go:208-333 | over every run order rows stay, their other columns never change, cancelled is terminal and New never comes back |
| Runs.NewIsNeverStored | internal/order/service/order.go:130-137 | no reachable order is in New |
| Runs.StepStatusMove | internal/order/service/order.go:245-250 | a step obeys the transition table exactly unless it pays an order in New, InProgress or Done |
| Runs.StrandedForever | internal/order/service/order.go:306-393 | an active row of a cancelled order stays active in every later state |
| Runs.CancelledHoldNothingExact | internal/payment/service/service.go:146-155 | at the end of a run cancelled orders hold nothing exactly when no step of the run stranded stock |
| Runs.CanceledWebhookStrands | internal/payment/service/service.go:146-155 | after a canceled-intent webhook on an order in checkout its units stay reserved in every later run |
| Runs.UniformExact | internal/order/service/order.go:339-392 | at the end of a run all rows of each order share one status exactly when no sweep of the run split an order |
| Runs.FulfilledAreCommittedExact | internal/order/service/order.go:253-270 | throughout a run fulfilled orders have all rows committed exactly when no status update skipped the commit |
| Runs.BelowLimitKeepsOrdersWhole | internal/order/repository/reservation.go:45-55 | if no fetch reaches its limit, no order is split and only status updates to cancelled can strand stock |
| Runs.FinalPriceBounds | internal/order/repository/order.go:36-38 | a stored final price is at most the total, and non-negative exactly unless a percentage above one hundred applied to a non-zero total |
| Runs.PricedExact | internal/order/service/coupon.go:71-80 | the final price from total and coupon: fixed coupons take off their value down to zero, percentage coupons that part of the total |
| Runs.ReachablePrices | internal/order/repository/order.go:29-40 | the same for every order stored by a run from the empty database |
| Runs.RepeatsHaveNoEffect | internal/payment/service/service.go:113-119 | dropping every repeated delivery from any run changes neither legality nor final state, also when the first delivery failed after being recorded |
| Runs.DedupedAreFresh | internal/payment/service/service.go:113-119 | the deliveries kept carry distinct event ids, none seen before |
| Runs.SuccessEventExact | internal/payment/service/service.go:129-137 | a first success event marks the payment succeeded; the order ends Paid exactly when it was neither cancelled nor PaymentFailed; redelivery is silent |
| Webhooks.DroppedDeliveries | internal/payment/service/service.go:113-127 | repeated deliveries are silent; those without an order id or a payment are recorded and refused |
| Webhooks.DeliveryRecords | internal/payment/service/service.go:113-173 | a first delivery records its event and touches no payment but the status of its own |
| Webhooks.PaymentStatusAfter | internal/payment/service/service.go:129-172 | the payment status after each kind of event |
| Webhooks.QuietEvents | internal/payment/service/service.go:156-172 | processing, requires-action and unknown events leave orders, rows and counters alone |
| Webhooks.FailedEventExact | internal/payment/service/service.go:138-145 | a failed attempt ends in PaymentFailed exactly from PendingPayment or PaymentFailed; otherwise the books stay and the error is reported |
| Webhooks.CanceledEventExact | internal/payment/service/service.go:146-155 | a canceled intent cancels the order exactly unless it is done, and moves no row or counter |
| Webhooks.SucceededEventSkips | internal/payment/service/service.go:130-137 | a success leaves the books as they are for cancelled, failed and paid orders, with an error in the first two |
| Webhooks.SucceededEventPays | internal/payment/service/service.go:130-137 | in every other status the order becomes Paid and exactly its active rows are committed on both counters |
| Runs.RunsKeepPayments | internal/payment/service/service.go:58-105 | every payment belongs to a stored order and asks for its final price in cents |
| Runs.ReachableLedger | internal/order/repository/product.go:49-112 | from the empty database: reserved equals the active sum, lies between zero and stock, and stock plus sold units equals all inflow |
| Runs.ReachableOrders | internal/order/service/coupon.go:54-83 | from the empty database: prices recompute from lines and coupon, coupon use counts the orders that carry the code within the limit, payments match |
| Store.Shop.ReserveStock | internal/order/repository/product.go:66-77 | takes effect exactly when the available stock covers the quantity |
| Store.Shop.CommitReservation | internal/order/repository/product.go:79-93 | takes effect exactly when both counters cover the quantity, and lowers both |
| Store.Shop.ReleaseReservation | internal/order/repository/product.go:101-112 | takes effect exactly when the reserved counter covers the quantity |
| Store.Shop.DecrementStock | internal/product/repository/product.go:96-107 | takes effect exactly when the available stock covers the quantity |
| Store.Shop.AddStock | internal/product/service/product.go:88-97 | a positive restock of a known product raises its stock; errors change nothing |
| Store.Shop.EditStock | internal/product/service/product.go:99-136 | an edit of the stock figure is saved exactly when the CHECK constraints allow it |
| Store.Shop.CreateProduct | internal/product/service/product.go:60-83 | a valid product is inserted without reservations |
| Store.Shop.CreateCoupon | internal/order/service/coupon.go:36-52 | a coupon is stored exactly when it passes validation and its code is free |
| Store.Shop.SetRowStatus | internal/order/repository/reservation.go:57-65 | sets the status of exactly the named rows |
| Store.Shop.FindExpired | internal/order/repository/reservation.go:45-55 | distinct active expired rows, at most the limit, and all of them when the limit is not reached |
| Store.Shop.CreateOrder | internal/order/repository/order.go:29-52 | stores the order with the summed total and the final price |
| Store.Shop.ApplyCoupon | internal/order/service/coupon.go:54-83 | the checks in order and the discount |
| Store.Shop.PriceLines | internal/order/service/order.go:97-105 | succeeds exactly when every product is known, with the price of each line |
| Store.Shop.Total | internal/order/service/order.go:107-110 | the loop computes the sum of line prices |
| Store.Shop.ReserveLines | internal/order/service/order.go:139-155 | the reservation loop refuses exactly when the aggregate check fails, at the first line that does not fit; otherwise it makes the combined update and one row per line |
| Store.Shop.PrepareOrder | internal/order/service/order.go:87-123 | everything before the transaction gives the quote |
| Store.Shop.StoreOrder | internal/order/service/order.go:129-170 | order, reservations and coupon use are stored together, or the store is as before |
| Store.Shop.PlaceOrder | internal/order/service/order.go:87-188 | the method has exactly the effect and reply about which PlaceOrderExact speaks |
| Store.Shop.MarkOrderPaid | internal/order/service/order.go:240-276 | the commit loop with rollback has the whole effect of paying |
| Store.Shop.CancelOrder | internal/order/service/order.go:306-333 | the release loop with rollback has the whole effect of cancelling |
| Store.Shop.ReleaseActiveReservations | internal/order/service/order.go:422-433 | releases all active rows of the order exactly when the counters cover them |
| Store.Shop.UpdateOrderStatus | internal/order/service/order.go:208-238 | the status gate with its errors; rows and counters untouched |
| Store.Shop.GroupByOrder | internal/order/service/order.go:347-351 | one group per fetched order holding exactly its rows |
| Store.Shop.SweepOne | internal/order/service/order.go:355-392 | one group transaction, with the skip, missing-order and drained-counter branches |
| Store.Shop.VisitGroups | internal/order/service/order.go:353-418 | for any iteration order and any failing groups, the one-shot sweep effect and the returned count |
| Store.Shop.SweepExpiredReservations | internal/order/service/order.go:335-420 | a whole sweep: an expired batch within the limit; exactly its rows are released, except where the transaction failed or the order was passed over; the one-shot effect on counters and orders, and the count |
| Store.Shop.CreateIntentForOrder | internal/payment/service/service.go:58-105 | one payment row per pending order, at its final price; errors change nothing |
| Store.Shop.RecordProviderEvent | internal/payment/repository/payment.go:50-60 | reports whether the event is new and remembers it |
| Store.Shop.HandleWebhook | internal/payment/service/service.go:107-174 | the method has exactly the effect and error about which the webhook lemmas speak |
| Server.ShopServer.Perform | internal/order/service/order.go:87-433 | performing a step by calling the shop's methods has the effect of the step |
| Server.ShopServer.Serve | internal/order/service/order.go:87-433 | performing a list of steps ends in the state of the run, which keeps the system invariant if the run is legal |
| Witnesses.CheckoutIsReached | internal/order/service/order.go:87-188 | a two-line checkout from the empty database reaches the state from which the next two witnesses start |
| Witnesses.LimitSplitsOrder | internal/order/repository/reservation.go:45-55 | a batch limit of one splits that order; no later run repairs it |
| Witnesses.FailedOrderStallsSweeper | internal/order/service/order.go:339-371 | after one failed order a sweeper with a batch of one may never release the expired row of the next order, however often it runs |
| Witnesses.AdminPaidSkipsCommit | internal/order/service/order.go:208-224 | the admin move from PendingPayment to Paid leaves rows active on a paid order |
| Witnesses.DoneGoesBackToPaid | internal/order/service/order.go:245-250 | a finished order is taken back to Paid |
| Witnesses.PaymentIsReached | internal/payment/service/service.go:58-105 | checkout and payment creation from the empty database reach an order that awaits its payment |
| Witnesses.ChargedButNotPaidIsReached | internal/payment/service/service.go:129-145 | a run from the empty database ends with a succeeded payment on a PaymentFailed order |
| Witnesses.ChargedButNotPaid | internal/payment/service/service.go:129-145 | the same from any pending order with a payment, and redelivery has no effect |
| Witnesses.CanceledWebhookStrandsIsReached | internal/payment/service/service.go:146-155 | a run from the empty database, followed by a canceled-intent webhook and anything else, ends with the row active and its unit reserved |
| Witnesses.NegativeFinalPrice | internal/order/service/coupon.go:36-83 | a run from the empty database creates a coupon of 150 percent and stores an order with a negative final price |
| Paging.New | pkg/paging/paging.go:21-40 | the page count is the least that holds every row; size, current page and offset are clamped |
| Paging.CeilIsEnough | pkg/paging/paging.go:30-32 | the rounded-up quotient is a least sufficient page count |
| Paging.EnoughPagesUnique | pkg/paging/paging.go:30-32 | no other page count is |
| Paging.PagesPartition | pkg/paging/paging.go:30-39 | pages 1 to TotalPage in sequence are exactly the list |
| Paging.PageIsEmpty | pkg/paging/paging.go:30-39 | a page is empty exactly when its number exceeds TotalPage |
| RateLimit.Limiter.Incr | pkg/redis/redis.go:165-177 | INCR with EXPIRE on the first hit |
| RateLimit.Limiter.Admit | pkg/middleware/ratelimit.go:23-57 | the decision and the counters after it |
| RateLimit.DecideExact | pkg/middleware/ratelimit.go:29-55 | when a request passes uncounted, how it is counted otherwise, and that it passes exactly while the count is within the limit |
| RateLimit.ExemptExact | pkg/middleware/ratelimit.go:16-40 | exempt are exactly the paths that contain the webhook segment |
| RateLimit.IntervalBound | pkg/middleware/ratelimit.go:42-53 | over any trace, any interval as long as the window admits at most 2 * max - 1 limited requests per client |
| RateLimit.WindowAdmitsUpToMax | pkg/middleware/ratelimit.go:42-53 | one counter window admits exactly the lesser of its hits and max |
| RateLimit.BoundIsAttained | pkg/middleware/ratelimit.go:42-53 | the interval bound is reached for every limit and every window of at least two time units |
| RateLimit.WithoutDeadlineRefusedForever | pkg/redis/redis.go:173-175 | a counter whose EXPIRE was lost refuses its client for ever once it reached the limit |
| StripeSignature.ParseSignature | pkg/payment/stripe/stripe.go:193-219 | the parser loop, with its error exits |
| StripeSignature.VerifySignature | pkg/payment/stripe/stripe.go:143-167 | accepted exactly when the header parses, the timestamp is at most five minutes from the clock and one signature is the expected one |
| StripeSignature.RoundTrip | pkg/payment/stripe/stripe.go:193-219 | parsing the printed header returns timestamp and signatures exactly when the timestamp is non-zero and the list is non-empty with comma-free signatures that do not end in a space |
| StripeSignature.ParseOfFormat | pkg/payment/stripe/stripe.go:205-211 | parsing undoes printing for every 64-bit timestamp |
| StripeSignature.ReadSignaturesAreClean | pkg/payment/stripe/stripe.go:199-213 | whatever the header, no signature read has a comma or a trailing space |
| StripeSignature.UnknownFieldsIgnored | pkg/payment/stripe/stripe.go:199-214 | inserting an unknown field anywhere changes nothing |
| StripeSignature.SpacesIgnored | pkg/payment/stripe/stripe.go:200 | a space after every comma changes nothing |
| StripeSignature.MalformedTimestamp | pkg/payment/stripe/stripe.go:205-210 | a timestamp that is no number invalidates the header wherever it stands |
| StripeSignature.LaterTimestampWins | pkg/payment/stripe/stripe.go:205-217 | a further timestamp replaces the earlier one, and zero invalidates the header |
| StripeSignature.LaterSignatureAdded | pkg/payment/stripe/stripe.go:212-213 | a further signature is added at the end of the list |
| StripeSignature.ParsedNumbers | pkg/payment/stripe/stripe.go:207-210 | a timestamp is accepted only if it is an optional sign and digits and fits 64 bits |
| TokenRefresh.Interceptor.HandleUnauthorized | web/src/api/client.ts:62-98 | reject, wait or start a refresh, with the flags and the queue after it |
| TokenRefresh.Interceptor.ProcessQueue | web/src/api/client.ts:48-57 | every queued promise is settled once and the queue is emptied |
| TokenRefresh.Interceptor.HandleRefreshed | web/src/api/client.ts:100-113 | both tokens stored each in its place, queue resolved and emptied, flag cleared |
| TokenRefresh.Interceptor.HandleRefreshFailed | web/src/api/client.ts:106-113 | queue rejected, tokens cleared, flag cleared |
| TokenRefresh.SettleAllExact | web/src/api/client.ts:48-57 | exactly the queued promises gain exactly one settlement |
| TokenRefresh.UnauthorizedExact | web/src/api/client.ts:67-87 | exactly when a 401 answer is passed on, waits or starts a refresh, and what each leaves behind |
| TokenRefresh.RefreshEnds | web/src/api/client.ts:48-57 | the end of a refresh settles each queued promise once, resolved by new tokens and rejected by a failure, and moves its request accordingly |
| TokenRefresh.TokensAfterRefresh | web/src/api/client.ts:100-113 | the tokens of the answer are stored each in its place, a failure clears both, and the flag and the queue are reset |
| TokenRefresh.WaitersMoveExactly | web/src/api/client.ts:77-110 | waiting requests are resumed exactly by new tokens and answered exactly by a failure; the request that started the refresh likewise |
| TokenRefresh.OtherMoves | web/src/api/client.ts:67-116 | sending, resending and answering a request change nothing of any other request |
| TokenRefresh.SettledAsAnswered | web/src/api/client.ts:48-113 | in every run a settled promise was resolved exactly if the refresh it waited on brought tokens |
| TokenRefresh.StepKeepsInv | web/src/api/client.ts:67-113 | one refresh in flight at most, a queue only while one is, each promise settled once by the refresh it waited on |
| TokenRefresh.RunsKeepInv | web/src/api/client.ts:67-113 | the same in every run, with at most as many refreshes as distinct requests |
| TokenRefresh.NobodyLeftWaiting | web/src/api/client.ts:77-113 | with no refresh in flight every promise is settled and no request waits |
| TokenRefresh.LoadedClients | web/src/api/client.ts:41-46 | from the state at load time: refreshes bounded by requests, one in flight at most, and afterwards every promise settled once and nobody waiting |
| TokenRefresh.StepProgresses | web/src/api/client.ts:67-113 | each step lowers the lexicographic measure of unretried requests, refresh flag and distance |
| TokenRefresh.MeasureDrops | web/src/api/client.ts:67-113 | the same measure as one number |
| TokenRefresh.RefreshingTerminates | web/src/api/client.ts:67-113 | a run that issues no request makes a bounded number of protocol steps |
| Cart.ViewIsFresh | web/src/api/cart.ts:49-68 | over every interleaving with other tabs, get shows the items a fresh parse of storage gives |
| CartCodec.PrefixCodeIsLawful | web/src/api/cart.ts:31-41 | the law asked of the codec is met by an actual codec |
| CartCodec.EmptyTabStaysFresh | web/src/api/cart.ts:49-68 | with that codec, from any storage and an unused cache, get always shows a fresh parse |
| Cart.AddingExact | web/src/api/cart.ts:80-95 | adding raises the count by the amount, all on that product, with products kept distinct and the snapshot replaced |
| Cart.SettingExact | web/src/api/cart.ts:97-107 | setting leaves exactly that quantity, or none, and touches no other product |
| Cart.RemovingExact | web/src/api/cart.ts:109-114 | removing takes out every unit of the product and nothing else |
| Cart.ReadExact | web/src/api/cart.ts:31-41 | what counts as a stored cart and what as an empty one |
| Cart.AddStores | web/src/api/cart.ts:80-95 | after adding, a fresh parse finds the units of the product raised by the amount under the new snapshot, and every other item as it was |
| Cart.SetStores | web/src/api/cart.ts:97-107 | after setting, a fresh parse finds exactly that quantity under the old snapshot, or none, and every other item as it was |
| Cart.RemoveStores | web/src/api/cart.ts:109-114 | after removing, a fresh parse finds none of the product and every other item as it was |
| Cart.OtherOperationsStore | web/src/api/cart.ts:49-120 | clearing stores an empty list, looking stores nothing |
| Cart.CountIsSum | web/src/api/cart.ts:122-124 | the count is the sum of the quantities, item by item |
| Cart.CartStore.GetCart | web/src/api/cart.ts:52-59 | the same object while the bytes are unchanged, a new one otherwise |
| Cart.CartStore.ReadCart | web/src/api/cart.ts:31-41 | a new object holding the parsed cart, or an empty cart on every failure |
| Cart.CartStore.Write | web/src/api/cart.ts:61-68 | storage, cached bytes and cached object agree |
| Cart.CartStore.AddItem | web/src/api/cart.ts:80-95 | the cart after adding; no object handed out earlier is changed |
| Cart.CartStore.SetItemQuantity | web/src/api/cart.ts:97-107 | the cart after setting; no object handed out earlier is changed |
| Cart.CartStore.RemoveItem | web/src/api/cart.ts:109-114 | the cart after removing; no object handed out earlier is changed |
| Cart.CartStore.ClearCart | web/src/api/cart.ts:116-120 | an empty cart; no object handed out earlier is changed |
| Cart.CartStore.CountItems | web/src/api/cart.ts:122-124 | the loop computes the sum of quantities |

## Left out

- HTTP and gRPC handlers, routes, generated code and user interface: no state of their own.
- GORM, SQL and Redis internals, and the swap of the database handle in WithTransaction: each guarded update
  is modelled by its meaning, and transactions are serial.
- Guard reads taken outside a transaction, and whole-row product saves between them: a call is one step.
- Deleted orders under interleaved sweeps: no code of the order service deletes an order.
- Store.Shop.FindExpired: returns the first qualifying rows; the runs allow any answer of the query.
- Store.Shop.CreateOrder: leaves out the order's code and timestamps, which nothing here depends on.
- Store.Shop.RecordProviderEvent: does not tell a duplicate key from other database errors by their text.
- Paging.New: does not model 64-bit overflow or the rounding of large totals as floats.
- Runs.RunsKeepPayments: does not model how float rounding may change the cents before they are cut.
- Price edits of products, soft deletes, low-stock events and notifications: best effort or single-row changes.
- TokenRefresh.Interceptor.HandleUnauthorized: leaves out the redirect to the login page and the request headers.
- TokenRefresh.Interceptor.HandleRefreshFailed: leaves out the redirect to the login page.
- Store.Shop.EditStock: leaves out the other product columns an edit may change.
- Store.Shop.CreateProduct: leaves out the columns that carry no stock or price.
- StripeSignature.VerifySignature: leaves out decoding the body of an accepted delivery.
- Cart.CartStore.Write: leaves out subscribers and a storage that refuses the write.
- Token, OIDC and password handling, and the review, category, address, wishlist and preference domains.
