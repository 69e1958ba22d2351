/**
 Runs that reach the failures which the exact conditions rule out, so that none of those conditions is
 idle. Unless a lemma says otherwise the runs start from the empty shop.
 */
module Witnesses {
  import opened Common
  import opened OrderStatuses
  import opened Counters
  import opened Reservations
  import opened BookKeeping
  import opened Coupons
  import opened Database
  import opened Protocol
  import opened Sweeping
  import opened Runs
  import opened Stalling

  // ------------------------------------------------------------------ orders of one line

  // The order row for one line at the given unit price.
  function SingleOrder(req: PlaceReq, d: Demand, price: real, discount: real): Order {
    var total := price * d.quantity as real;
    Order(req.userId, [OrderLine(d.productId, d.quantity, total)], total, discount, total - discount, req.couponCode,
          PendingPayment)
  }

  lemma NeedOfSingle(d: Demand, id: string)
    ensures Need([d], id) == if id == d.productId then d.quantity else 0
  {
    assert [d][..0] == [];
    assert Need([], id) == 0;
  }

  lemma SumOfSingle(line: OrderLine)
    ensures SumPrices([line]) == line.price
  {
    assert [line][..0] == [];
    assert SumPrices([]) == 0.0;
  }

  lemma QuoteOfSingle(db: Db, req: PlaceReq, d: Demand, now: int, discount: real)
    requires ValidRequest(req) && req.lines == [d] && d.productId in db.books.products
    requires var total := db.books.products[d.productId].price * d.quantity as real;
             DiscountFor(db.coupons, req, total, now) == Ok(discount)
    ensures Quote(db, req, now) == Ok(SingleOrder(req, d, db.books.products[d.productId].price, discount))
  {
    var lines := [PricedLine(db.books.products, d)];
    assert req.lines[0] == d && AllKnown(db.books.products, req.lines);
    assert Priced(db.books.products, req.lines) == lines;
    SumOfSingle(lines[0]);
    var single := SingleOrder(req, d, db.books.products[d.productId].price, discount).lines;
    assert single[0] == lines[0];
    assert single == lines;
  }

  lemma SingleFits(ps: Products, d: Demand)
    requires d.productId in ps && d.quantity <= Available(ps[d.productId])
    ensures Coverable(Reserve, ps, [d])
  {
    NeedOfSingle(d, d.productId);
  }

  lemma PlaceOfSingle(s: Sys, req: PlaceReq, d: Demand, newId: string, now: int, discount: real)
    requires ValidRequest(req) && req.lines == [d]
    requires d.productId in s.db.books.products && d.quantity <= Available(s.db.books.products[d.productId])
    requires var total := s.db.books.products[d.productId].price * d.quantity as real;
             DiscountFor(s.db.coupons, req, total, now) == Ok(discount)
    ensures var after := Step(s, Place(req, newId, now)); var price := s.db.books.products[d.productId].price;
            && after.db.books.orders == s.db.books.orders[newId := SingleOrder(req, d, price, discount)]
            && after.db.books.rows == s.db.books.rows + NewRows(|s.db.books.rows|, newId, [d], now + RESERVATION_TTL)
            && after.sweeps == s.sweeps && after.db.payments == s.db.payments && after.db.events == s.db.events
  {
    QuoteOfSingle(s.db, req, d, now, discount);
    SingleFits(s.db.books.products, d);
  }

  // ------------------------------------------------------------------ a checkout of two lines

  const REQUEST := PlaceReq("u", "", [Demand("p", 1), Demand("p", 2)])

  const LINES := [OrderLine("p", 1, 10.0), OrderLine("p", 2, 20.0)]

  const ORDER := Order("u", LINES, 30.0, 0.0, 30.0, "", PendingPayment)

  const ROWS := [Reservation(0, "o", "p", 1, Active, 900), Reservation(1, "o", "p", 2, Active, 900)]

  const CHECKOUT := [CreateProduct("p", 10.0, 5), Place(REQUEST, "o", 0)]

  // One product with five units at ten each, and one order for three of them on two lines.
  ghost predicate CheckedOut(s: Sys) {
    && SysInv(s) && s.sweeps == map[]
    && s.db.payments == map[] && s.db.events == {} && s.db.coupons == map[]
    && s.db.books == Books(map["p" := Product(10.0, 5, 3)], map["o" := ORDER], ROWS)
  }

  lemma Stocked(s: Sys)
    requires s == EMPTY_SHOP
    ensures Step(s, CreateProduct("p", 10.0, 5))
            == Sys(Db(Books(map["p" := Product(10.0, 5, 0)], map[], []), map[], map[], {}), map[])
  {
  }

  lemma NeedOfRequest(ds: seq<Demand>, id: string)
    requires ds == [Demand("p", 1), Demand("p", 2)]
    ensures Need(ds, id) == if id == "p" then 3 else 0
  {
    NeedOfSingle(ds[0], id);
    assert ds[..1] == [ds[0]];
  }

  lemma QuoteOfRequest(db: Db)
    requires db.books.products == map["p" := Product(10.0, 5, 0)]
    ensures Quote(db, REQUEST, 0) == Ok(ORDER)
  {
    assert Priced(db.books.products, REQUEST.lines) == LINES;
    assert LINES[..1] == [OrderLine("p", 1, 10.0)] && LINES[..1][..0] == [];
    assert SumPrices([]) == 0.0;
    assert SumPrices(LINES[..1]) == 10.0;
    assert SumPrices(LINES) == 30.0;
  }

  lemma AcceptOfRequest(b: Books, ds: seq<Demand>)
    requires b == Books(map["p" := Product(10.0, 5, 0)], map[], []) && ds == [Demand("p", 1), Demand("p", 2)]
    ensures Coverable(Reserve, b.products, ds)
    ensures Accept(b, "o", ORDER, ds, 900) == Books(map["p" := Product(10.0, 5, 3)], map["o" := ORDER], ROWS)
  {
    NeedOfRequest(ds, "p");
    assert AllMoved(Reserve, b.products, ds) == map["p" := Product(10.0, 5, 3)];
    assert b.rows + NewRows(0, "o", ds, 900) == ROWS;
  }

  lemma PlaceOfRequest(s: Sys)
    requires s == Sys(Db(Books(map["p" := Product(10.0, 5, 0)], map[], []), map[], map[], {}), map[])
    ensures Step(s, Place(REQUEST, "o", 0)).db
            == Db(Books(map["p" := Product(10.0, 5, 3)], map["o" := ORDER], ROWS), map[], map[], {})
    ensures Step(s, Place(REQUEST, "o", 0)).sweeps == map[]
  {
    QuoteOfRequest(s.db);
    AcceptOfRequest(s.db.books, REQUEST.lines);
  }

  lemma TwoSteps(s: Sys, a: Op, b: Op)
    ensures Exec(s, [a, b]) == Step(Step(s, a), b)
    ensures Legal(s, [a, b]) <==> Enabled(s, a) && Enabled(Step(s, a), b)
  {
    assert [a, b][1..] == [b] && [b][1..] == [];
    assert Exec(Step(s, a), [b]) == Exec(Step(Step(s, a), b), []);
    assert Legal(Step(s, a), [b]) <==> Enabled(Step(s, a), b) && Legal(Step(Step(s, a), b), []);
  }

  lemma OneMoreStep(s: Sys, ops: seq<Op>, op: Op)
    ensures Exec(s, ops + [op]) == Step(Exec(s, ops), op)
    ensures Legal(s, ops + [op]) <==> Legal(s, ops) && Enabled(Exec(s, ops), op)
  {
    var t := Exec(s, ops);
    RunConcat(s, ops, [op]);
    assert [op][1..] == [];
    assert Exec(t, [op]) == Exec(Step(t, op), []);
    assert Legal(t, [op]) <==> Enabled(t, op) && Legal(Step(t, op), []);
  }

  lemma ThreeSteps(s: Sys, a: Op, b: Op, c: Op)
    ensures Exec(s, [a, b, c]) == Step(Step(Step(s, a), b), c)
    ensures Legal(s, [a, b, c]) <==> Enabled(s, a) && Enabled(Step(s, a), b) && Enabled(Step(Step(s, a), b), c)
  {
    assert [a, b, c][1..] == [b, c];
    TwoSteps(Step(s, a), b, c);
  }

  lemma CheckoutIsReached(s: Sys)
    requires s == EMPTY_SHOP
    ensures Legal(s, CHECKOUT) && CheckedOut(Exec(s, CHECKOUT))
  {
    var stock, place := CreateProduct("p", 10.0, 5), Place(REQUEST, "o", 0);
    EmptyShopIsFine(s);
    Stocked(s);
    PlaceOfRequest(Step(s, stock));
    TwoSteps(s, stock, place);
    RunsKeepInv(s, CHECKOUT);
  }

  // ------------------------------------------------------------------ a batch that cuts an order

  lemma FirstRowIsExpired(rows: Rows)
    requires |rows| == 2 && Numbered(rows) && rows[0].status == Active && rows[0].expiresAt == 900
    ensures IsExpiredBatch(rows, 1000, 1, [rows[0]])
    ensures Group([rows[0]], rows[0].orderId) == [rows[0]]
  {
    assert [rows[0]][..0] == [];
  }

  lemma SplitBySweep(b: Books, o: string)
    requires Inv(b) && |b.rows| == 2 && o in b.orders && b.orders[o].status == PendingPayment
    requires b.rows[0].orderId == o && b.rows[1].orderId == o
    ensures SplitPair(SweepGroup(b, o, [b.rows[0]]), 1, 0)
  {
    SweepShape(b, o, [b.rows[0]]);
    SettledRows(b.rows, [b.rows[0]], Released);
    assert b.rows[1] !in [b.rows[0]];
  }

  lemma SplitByVisit(s: Sys, o: string)
    requires SysInv(s) && |s.db.books.rows| == 2 && o in s.db.books.orders
    requires s.db.books.orders[o].status == PendingPayment
    requires s.db.books.rows[0].orderId == o && s.db.books.rows[1].orderId == o
    requires 0 in s.sweeps && s.sweeps[0] == [s.db.books.rows[0]] && Group(s.sweeps[0], o) == s.sweeps[0]
    ensures Enabled(s, Visit(0, o, false)) && SplitPair(Step(s, Visit(0, o, false)).db.books, 1, 0)
  {
    SplitBySweep(s.db.books, o);
  }

  // A batch limit of one splits the order: one row is released, the other is stranded on the cancelled
  // order, and no later run repairs either.
  lemma LimitSplitsOrder(s: Sys, later: seq<Op>)
    requires CheckedOut(s)
    requires Legal(Exec(s, [Fetch(0, 1000, 1, [ROWS[0]]), Visit(0, "o", false)]), later)
    ensures var sweep := [Fetch(0, 1000, 1, [ROWS[0]]), Visit(0, "o", false)];
            Legal(s, sweep) && SplitPair(Exec(Exec(s, sweep), later).db.books, 1, 0)
  {
    var fetch, visit := Fetch(0, 1000, 1, [ROWS[0]]), Visit(0, "o", false);
    FirstRowIsExpired(s.db.books.rows);
    TwoSteps(s, fetch, visit);
    StepKeepsInv(s, fetch);
    SplitByVisit(Step(s, fetch), "o");
    StepKeepsInv(Step(s, fetch), visit);
    SplitForever(Step(Step(s, fetch), visit), later, 1, 0);
  }

  // ------------------------------------------------------------------ status updates that skip a commit

  // A stored order that is still to be paid.
  ghost predicate IsPending(s: Sys, o: string) {
    SysInv(s) && o in s.db.books.orders && s.db.books.orders[o].status == PendingPayment
  }

  lemma CheckoutIsPending(s: Sys)
    requires CheckedOut(s)
    ensures IsPending(s, "o") && s.db.events == {}
    ensures |s.db.books.rows| == 2 && s.db.books.rows[0].orderId == "o" && s.db.books.rows[0].quantity == 1
  {
  }

  lemma RestatusTo(b: Books, o: string, st: OrderStatus)
    requires o in b.orders && st.IsValid() && b.orders[o].status.CanTransitionTo(st)
    ensures o in UpdateStatus(b, o, st).books.orders && UpdateStatus(b, o, st).books.orders[o].status == st
    ensures UpdateStatus(b, o, st).books.rows == b.rows
  {
  }

  lemma PaidFrom(b: Books, o: string)
    requires Inv(b) && o in b.orders && b.orders[o].status in {PendingPayment, OrderStatus.Done}
    ensures o in MarkPaid(b, o).books.orders && MarkPaid(b, o).books.orders[o].status == Paid
  {
    PayOutcome(b, o);
    StatusMove(b, Pay(o), o);
  }

  // From any pending order with rows: the admin move to Paid leaves the order paid and its rows active.
  lemma AdminPaidSkipsCommit(s: Sys, o: string, i: nat)
    requires IsPending(s, o) && i < |s.db.books.rows| && s.db.books.rows[i].orderId == o
    ensures var b := Step(s, SetStatus(o, Paid)).db.books;
            && o in b.orders && b.orders[o].status == Paid
            && b.rows == s.db.books.rows && b.rows[i].status == Active && !FulfilledAreCommitted(b)
  {
    RestatusTo(s.db.books, o, Paid);
  }

  // From any pending order: fulfilment reaches Done, and a MarkOrderPaid call takes it back to Paid.
  lemma DoneGoesBackToPaid(b: Books, o: string)
    requires Inv(b) && o in b.orders && b.orders[o].status == PendingPayment
    ensures var done := Do(Do(Do(b, Pay(o)), Restatus(o, InProgress)), Restatus(o, OrderStatus.Done));
            && o in done.orders && done.orders[o].status == OrderStatus.Done
            && o in Do(done, Pay(o)).orders && Do(done, Pay(o)).orders[o].status == Paid
            && !OrderStatus.Done.CanTransitionTo(Paid)
  {
    PaidFrom(b, o);
    DoKeepsInv(b, Pay(o));
    DoneFromPaid(Do(b, Pay(o)), o);
    PaidFrom(Do(Do(Do(b, Pay(o)), Restatus(o, InProgress)), Restatus(o, OrderStatus.Done)), o);
  }

  lemma DoneFromPaid(b: Books, o: string)
    requires Inv(b) && o in b.orders && b.orders[o].status == Paid
    ensures var done := Do(Do(b, Restatus(o, InProgress)), Restatus(o, OrderStatus.Done));
            Inv(done) && o in done.orders && done.orders[o].status == OrderStatus.Done
  {
    RestatusTo(b, o, InProgress);
    RestatusKeepsInv(b, o, InProgress);
    RestatusTo(Do(b, Restatus(o, InProgress)), o, OrderStatus.Done);
    RestatusKeepsInv(Do(b, Restatus(o, InProgress)), o, OrderStatus.Done);
  }

  // ------------------------------------------------------------------ webhooks

  const OPEN_PAYMENT := CreatePayment("o", Some("pi"))

  const PAYMENT_RUN := CHECKOUT + [OPEN_PAYMENT]

  lemma OpenPayment(s: Sys, o: string, intent: string)
    requires IsPending(s, o)
    ensures var after := Step(s, CreatePayment(o, Some(intent)));
            IsPending(after, o) && o in after.db.payments
            && after.db.books == s.db.books && after.db.events == s.db.events
  {
    StepKeepsInv(s, CreatePayment(o, Some(intent)));
  }

  // The checkout order with a payment row, before any delivery.
  ghost predicate AwaitsPayment(s: Sys) {
    && IsPending(s, "o") && "o" in s.db.payments && s.db.events == {}
    && |s.db.books.rows| == 2 && s.db.books.rows[0].orderId == "o" && s.db.books.rows[0].quantity == 1
  }

  lemma CheckoutOpensPayment(s: Sys)
    requires CheckedOut(s)
    ensures AwaitsPayment(Step(s, OPEN_PAYMENT))
  {
    CheckoutIsPending(s);
    OpenPayment(s, "o", "pi");
  }

  lemma PaymentIsReached(s: Sys)
    requires s == EMPTY_SHOP
    ensures Legal(s, PAYMENT_RUN) && AwaitsPayment(Exec(s, PAYMENT_RUN))
  {
    CheckoutIsReached(s);
    CheckoutOpensPayment(Exec(s, CHECKOUT));
    OneMoreStep(s, CHECKOUT, OPEN_PAYMENT);
  }

  lemma FailedAttempt(s: Sys, ev: Event)
    requires EventKey(PROVIDER, ev.id) !in s.db.events && ev.kind == IntentFailed && ev.orderId != ""
    requires ev.orderId in s.db.payments
    requires ev.orderId in s.db.books.orders && s.db.books.orders[ev.orderId].status == PendingPayment
    ensures var after := Step(s, Webhook(ev)).db;
            && after.events == s.db.events + {EventKey(PROVIDER, ev.id)} && ev.orderId in after.payments
            && ev.orderId in after.books.orders && after.books.orders[ev.orderId].status == PaymentFailed
  {
    RestatusTo(s.db.books, ev.orderId, PaymentFailed);
  }

  lemma RefusedPay(s: Sys, ev: Event)
    requires EventKey(PROVIDER, ev.id) !in s.db.events && ev.kind == IntentSucceeded && ev.orderId != ""
    requires ev.orderId in s.db.payments
    requires ev.orderId in s.db.books.orders && s.db.books.orders[ev.orderId].status == PaymentFailed
    ensures var after := Step(s, Webhook(ev)).db;
            && after.books == s.db.books
            && ev.orderId in after.payments && after.payments[ev.orderId].status == Succeeded
  {
  }

  // From any pending order with a payment row: a customer whose first attempt failed and whose second one
  // succeeds is charged, but the order stays in PaymentFailed, and redelivery changes nothing.
  lemma ChargedButNotPaid(s: Sys, failure: Event, success: Event)
    requires IsPending(s, success.orderId) && success.orderId != "" && success.orderId in s.db.payments
    requires failure == Event(failure.id, IntentFailed, success.orderId) && success.kind == IntentSucceeded
    requires failure.id != success.id
    requires EventKey(PROVIDER, failure.id) !in s.db.events && EventKey(PROVIDER, success.id) !in s.db.events
    ensures var after := Step(Step(s, Webhook(failure)), Webhook(success)); var o := success.orderId;
            && o in after.db.payments && after.db.payments[o].status == Succeeded
            && o in after.db.books.orders && after.db.books.orders[o].status == PaymentFailed
            && Step(after, Webhook(success)) == after
  {
    FailedAttempt(s, failure);
    var failed := Step(s, Webhook(failure));
    RefusedPay(failed, success);
    EventsAfter(failed, Webhook(success));
    EventsAfter(Step(failed, Webhook(success)), Webhook(success));
  }

  // Such an order is reached: checkout, payment, a failed attempt and a successful one.
  lemma ChargedButNotPaidIsReached(s: Sys)
    requires s == EMPTY_SHOP
    ensures var ops := PAYMENT_RUN + [Webhook(Event("e1", IntentFailed, "o")), Webhook(Event("e2", IntentSucceeded, "o"))];
            var db := Exec(s, ops).db;
            && Legal(s, ops)
            && "o" in db.payments && db.payments["o"].status == Succeeded
            && "o" in db.books.orders && db.books.orders["o"].status == PaymentFailed
  {
    var failure, success := Event("e1", IntentFailed, "o"), Event("e2", IntentSucceeded, "o");
    PaymentIsReached(s);
    var t := Exec(s, PAYMENT_RUN);
    ChargedButNotPaid(t, failure, success);
    TwoSteps(t, Webhook(failure), Webhook(success));
    RunConcat(s, PAYMENT_RUN, [Webhook(failure), Webhook(success)]);
  }

  // A canceled intent on the same order: whatever happens later, its first row keeps its unit reserved.
  lemma CanceledWebhookStrandsIsReached(s: Sys, later: seq<Op>)
    requires s == EMPTY_SHOP
    requires Legal(Step(Exec(s, PAYMENT_RUN), Webhook(Event("e", IntentCanceled, "o"))), later)
    ensures var canceled := Step(Exec(s, PAYMENT_RUN), Webhook(Event("e", IntentCanceled, "o")));
            var end := Exec(canceled, later).db.books;
            && Legal(s, PAYMENT_RUN)
            && "o" in end.orders && end.orders["o"].status == Cancelled
            && |end.rows| > 0 && end.rows[0].status == Active && end.rows[0].productId in end.products
            && end.products[end.rows[0].productId].reserved >= 1
  {
    PaymentIsReached(s);
    CanceledWebhookStrands(Exec(s, PAYMENT_RUN), Event("e", IntentCanceled, "o"), later, 0);
  }

  // ------------------------------------------------------------------ a negative price

  const GENEROUS := Coupon(Percentage, 150.0, 0.0, 0, 0, None)

  const WITH_COUPON := PlaceReq("u", "c", [Demand("p", 1)])

  // A percentage above one hundred passes the checks of coupon creation, and the order placed with it is
  // stored with a negative final price.
  lemma NegativeFinalPrice(s: Sys)
    requires s == EMPTY_SHOP
    ensures var ops := [CreateProduct("p", 10.0, 5), CreateCoupon("c", GENEROUS), Place(WITH_COUPON, "o", 0)];
            && Legal(s, ops)
            && "o" in Exec(s, ops).db.books.orders
            && Exec(s, ops).db.books.orders["o"].totalPrice == 10.0
            && Exec(s, ops).db.books.orders["o"].finalPrice == -5.0
  {
    var stock, coupon, place := CreateProduct("p", 10.0, 5), CreateCoupon("c", GENEROUS), Place(WITH_COUPON, "o", 0);
    Stocked(s);
    var offered := Step(Step(s, stock), coupon);
    assert offered.db.coupons == map["c" := GENEROUS];
    PlaceOfSingle(offered, WITH_COUPON, Demand("p", 1), "o", 0, 15.0);
    ThreeSteps(s, stock, coupon, place);
  }

  // ------------------------------------------------------------------ a sweeper that stalls

  const LATER_REQUEST := PlaceReq("u", "", [Demand("p", 1)])

  const FAIL_FIRST := SetStatus("o", PaymentFailed)

  const PLACE_SECOND := Place(LATER_REQUEST, "q", 1000)

  // The first order failed; the product has two units left.
  ghost predicate FirstFailed(t: Sys) {
    && SysInv(t) && t.sweeps == map[]
    && "p" in t.db.books.products && t.db.books.products["p"] == Product(10.0, 5, 3)
    && t.db.books.orders.Keys == {"o"} && t.db.books.orders["o"].status == PaymentFailed
    && t.db.books.rows == ROWS
  }

  lemma FailOrder(s: Sys, o: string)
    requires IsPending(s, o)
    ensures var t := Step(s, SetStatus(o, PaymentFailed));
            && SysInv(t) && t.sweeps == s.sweeps && t.db.books.products == s.db.books.products
            && t.db.books.orders.Keys == s.db.books.orders.Keys && t.db.books.orders[o].status == PaymentFailed
            && t.db.books.rows == s.db.books.rows
  {
    StepKeepsInv(s, SetStatus(o, PaymentFailed));
    RestatusTo(s.db.books, o, PaymentFailed);
  }

  lemma FailedFirst(s: Sys)
    requires CheckedOut(s)
    ensures FirstFailed(Step(s, FAIL_FIRST))
  {
    CheckoutIsPending(s);
    FailOrder(s, "o");
  }

  // Now the second order waits with one row, behind the rows of the failed one.
  ghost predicate SecondWaits(u: Sys) {
    && SysInv(u) && u.sweeps == map[]
    && |u.db.books.rows| == 3 && u.db.books.rows[0] == ROWS[0]
    && u.db.books.rows[2] == Reservation(2, "q", "p", 1, Active, 1900)
    && "o" in u.db.books.orders && u.db.books.orders["o"].status == PaymentFailed
    && "q" in u.db.books.orders && u.db.books.orders["q"].status == PendingPayment
  }

  lemma PlacedSecond(t: Sys)
    requires FirstFailed(t)
    ensures Enabled(t, PLACE_SECOND) && SecondWaits(Step(t, PLACE_SECOND))
  {
    PlaceOfSingle(t, LATER_REQUEST, Demand("p", 1), "q", 1000, 0.0);
    assert t.db.books.rows[0].orderId == "o" && t.db.books.rows[1].orderId == "o";
    StepKeepsInv(t, PLACE_SECOND);
  }

  lemma PassedOverFillsOne(b: Books, now: int, i: nat)
    requires Numbered(b.rows) && i < |b.rows| && IsPassedOver(b.orders, now, b.rows[i])
    ensures |PassedOver(b.rows, b.orders, now)| >= 1
  {
    PassedOverExact(b.rows, b.orders, now);
  }

  lemma StalledByOne(u: Sys, now: int, passed: nat, times: seq<int>)
    requires Numbered(u.db.books.rows) && u.sweeps == map[]
    requires passed < |u.db.books.rows| && IsPassedOver(u.db.books.orders, now, u.db.books.rows[passed])
    requires forall j :: 0 <= j < |times| ==> now <= times[j]
    ensures var sweeps := SweepsInTurn(0, times, 1, StallingBatch(u.db.books, now, 1));
            Legal(u, sweeps) && Exec(u, sweeps).db == u.db
  {
    PassedOverFillsOne(u.db.books, now, passed);
    StalledForever(u, now, 0, times, 1);
  }

  lemma SecondIsBehind(u: Sys)
    requires SecondWaits(u)
    ensures Numbered(u.db.books.rows) && u.sweeps == map[] && |u.db.books.rows| == 3
    ensures IsPassedOver(u.db.books.orders, 2000, u.db.books.rows[0])
    ensures IsReleasable(u.db.books, 2000, 2)
  {
  }

  // One failed order is enough to stop a sweeper with a batch of one: the second order expires, and any
  // number of sweeps at any later times may leave its row active and its unit off sale.
  lemma FailedOrderStallsSweeper(s: Sys, times: seq<int>)
    requires CheckedOut(s) && forall j :: 0 <= j < |times| ==> 2000 <= times[j]
    ensures var u := Exec(s, [FAIL_FIRST, PLACE_SECOND]);
            var sweeps := SweepsInTurn(0, times, 1, StallingBatch(u.db.books, 2000, 1));
            && Legal(s, [FAIL_FIRST, PLACE_SECOND])
            && Legal(u, sweeps) && Exec(u, sweeps).db == u.db
            && IsReleasable(Exec(u, sweeps).db.books, 2000, 2)
  {
    FailedFirst(s);
    PlacedSecond(Step(s, FAIL_FIRST));
    TwoSteps(s, FAIL_FIRST, PLACE_SECOND);
    SecondIsBehind(Exec(s, [FAIL_FIRST, PLACE_SECOND]));
    StalledByOne(Exec(s, [FAIL_FIRST, PLACE_SECOND]), 2000, 0, times);
  }
}
