/**
 The outcome of each call said out loud: replies by case, and every table row by row, in terms of the
 state before the call alone.
 */
module Outcomes {
  import opened Common
  import opened OrderStatuses
  import opened Counters
  import opened Reservations
  import opened BookKeeping
  import opened Coupons
  import opened Database
  import opened Protocol
  import opened Sweeping

  // ------------------------------------------------------------------ status updates

  // A status update succeeds exactly for a known order, a recognised target and an allowed move, and
  // changes the status of that order only; otherwise nothing changes.
  lemma StatusUpdateExact(b: Books, o: string, st: OrderStatus)
    ensures o !in b.orders ==> UpdateStatus(b, o, st) == Outcome(b, Err(RecordNotFound))
    ensures o in b.orders ==>
              var was := b.orders[o].status;
              var allowed :=
                match st
                case New => was == New
                case PendingPayment => was == PendingPayment || was == PaymentFailed
                case Paid => was == Paid || was == PendingPayment
                case InProgress => was == InProgress || was == New || was == Paid
                case Done => was == Done || was == InProgress
                case Cancelled => was in {Cancelled, New, PendingPayment, Paid, InProgress, PaymentFailed}
                case PaymentFailed => was == PaymentFailed || was == PendingPayment
                case Unrecognized(_) => false;
              var moved := b.orders[o].(status := st);
              UpdateStatus(b, o, st)
              == if allowed then Outcome(b.(orders := b.orders[o := moved]), Ok(moved)) else Outcome(b, Err(InvalidStatus))
  {
    if o in b.orders {
      AcceptedMoves(b.orders[o].status, st);
    }
  }

  // ------------------------------------------------------------------ settlements row by row

  // Units of a product that left Active between two states of the table.
  function Freed(before: Rows, after: Rows, p: string): int {
    Held(before, p, Active) - Held(after, p, Active)
  }

  // Exactly the active rows of the order took the new status.
  ghost predicate OrderRowsTook(before: Rows, after: Rows, o: string, st: ReservationStatus) {
    && |after| == |before|
    && forall i :: 0 <= i < |before| ==>
                     after[i] == if before[i].orderId == o && before[i].status == Active
                                 then before[i].(status := st) else before[i]
  }

  lemma SettledCounters(b: Books, m: Move, g: seq<Reservation>, st: ReservationStatus, p: string)
    requires Consistent(b) && Picks(b.rows, g) && AllActive(g) && p in b.products
    requires (m == Commit && st == Committed) || (m == Release && st == Released)
    ensures var after := Settle(b, m, g, st); var freed := Freed(b.rows, after.rows, p);
            && after.products.Keys == b.products.Keys
            && after.products[p].price == b.products[p].price
            && after.products[p].reserved == b.products[p].reserved - freed
            && after.products[p].stock == b.products[p].stock - if st == Committed then freed else 0
  {
    HeldOfSettle(b.rows, g, st, p, Active);
  }

  lemma WholeOrderTook(rows: Rows, o: string, st: ReservationStatus)
    requires Numbered(rows)
    ensures OrderRowsTook(rows, WithStatus(rows, Ids(FindActive(rows, o)), st), o, st)
  {
    FindActiveExact(rows, o);
    SettledRows(rows, FindActive(rows, o), st);
  }

  lemma WholeOrderCounters(b: Books, m: Move, st: ReservationStatus, o: string, p: string)
    requires Consistent(b) && p in b.products
    requires (m == Commit && st == Committed) || (m == Release && st == Released)
    ensures var after := Settle(b, m, FindActive(b.rows, o), st);
            var freed := Freed(b.rows, after.rows, p);
            && after.products.Keys == b.products.Keys
            && after.products[p] == Product(b.products[p].price,
                                            b.products[p].stock - (if st == Committed then freed else 0),
                                            b.products[p].reserved - freed)
  {
    FindActiveExact(b.rows, o);
    SettledCounters(b, m, FindActive(b.rows, o), st, p);
  }

  lemma WholeOrderSettled(b: Books, m: Move, st: ReservationStatus, o: string, status: OrderStatus, p: string)
    requires Consistent(b) && o in b.orders
    requires (m == Commit && st == Committed) || (m == Release && st == Released)
    ensures var after := Mark(Settle(b, m, FindActive(b.rows, o), st), o, status);
            var freed := Freed(b.rows, after.rows, p);
            && after.orders == b.orders[o := b.orders[o].(status := status)]
            && OrderRowsTook(b.rows, after.rows, o, st)
            && after.products.Keys == b.products.Keys
            && (p in b.products ==>
                  after.products[p] == Product(b.products[p].price,
                                               b.products[p].stock - (if st == Committed then freed else 0),
                                               b.products[p].reserved - freed))
  {
    WholeOrderTook(b.rows, o, st);
    if p in b.products {
      WholeOrderCounters(b, m, st, o, p);
    }
  }

  // The replies of MarkOrderPaid.
  lemma PayReplies(b: Books, o: string)
    requires Inv(b)
    ensures o !in b.orders ==> MarkPaid(b, o) == Outcome(b, Err(RecordNotFound))
    ensures o in b.orders && b.orders[o].status == Paid ==> MarkPaid(b, o) == Outcome(b, Ok(b.orders[o]))
    ensures o in b.orders && b.orders[o].status in {Cancelled, PaymentFailed} ==>
              MarkPaid(b, o) == Outcome(b, Err(InvalidStatus))
    ensures o in b.orders && b.orders[o].status !in {Paid, Cancelled, PaymentFailed} ==>
              MarkPaid(b, o).reply == Ok(b.orders[o].(status := Paid))
  {
    if o in b.orders && b.orders[o].status !in {Paid, Cancelled, PaymentFailed} {
      PayShape(b, o);
    }
  }

  // What paying changes: the order is Paid, its active rows are committed, and both counters of each
  // product drop by the units committed.
  lemma PayEffect(b: Books, o: string, p: string)
    requires Inv(b) && o in b.orders && b.orders[o].status !in {Paid, Cancelled, PaymentFailed}
    ensures var after := MarkPaid(b, o).books;
            && after.orders == b.orders[o := b.orders[o].(status := Paid)]
            && OrderRowsTook(b.rows, after.rows, o, Committed)
            && after.products.Keys == b.products.Keys
            && (p in b.products ==>
                  after.products[p] == Product(b.products[p].price,
                                               b.products[p].stock - Freed(b.rows, after.rows, p),
                                               b.products[p].reserved - Freed(b.rows, after.rows, p)))
  {
    PayShape(b, o);
    WholeOrderSettled(b, Commit, Committed, o, Paid, p);
  }

  lemma CancelReplies(b: Books, o: string, u: string)
    requires Inv(b)
    ensures o !in b.orders ==> Cancel(b, o, u) == Outcome(b, Err(RecordNotFound))
    ensures o in b.orders && u != b.orders[o].userId ==> Cancel(b, o, u) == Outcome(b, Err(Forbidden))
    ensures o in b.orders && u == b.orders[o].userId && b.orders[o].status in {Done, Cancelled, Paid} ==>
              Cancel(b, o, u) == Outcome(b, Err(InvalidStatus))
    ensures o in b.orders && u == b.orders[o].userId && b.orders[o].status !in {Done, Cancelled, Paid} ==>
              Cancel(b, o, u).reply == Ok(b.orders[o].(status := Cancelled))
  {
    if o in b.orders && u == b.orders[o].userId && b.orders[o].status !in {Done, Cancelled, Paid} {
      CancelShape(b, o, u);
    }
  }

  // What cancelling changes: the order is cancelled, its active rows are released, and the reserved
  // counters drop by the units released while the stock stays.
  lemma CancelEffect(b: Books, o: string, u: string, p: string)
    requires Inv(b) && o in b.orders && u == b.orders[o].userId && b.orders[o].status !in {Done, Cancelled, Paid}
    ensures var after := Cancel(b, o, u).books;
            && after.orders == b.orders[o := b.orders[o].(status := Cancelled)]
            && OrderRowsTook(b.rows, after.rows, o, Released)
            && after.products.Keys == b.products.Keys
            && (p in b.products ==>
                  after.products[p] == Product(b.products[p].price, b.products[p].stock,
                                               b.products[p].reserved - Freed(b.rows, after.rows, p)))
  {
    CancelShape(b, o, u);
    WholeOrderSettled(b, Release, Released, o, Cancelled, p);
  }

  // A counter guard that fires refuses the whole settlement. By PayReplies and CancelReplies this does not
  // happen in a reachable state.
  lemma GuardRefusals(b: Books, o: string, u: string)
    requires o in b.orders
    ensures b.orders[o].status !in {Paid, Cancelled, PaymentFailed}
            && !Coverable(Commit, b.products, DemandsOf(FindActive(b.rows, o))) ==>
              MarkPaid(b, o) == Outcome(b, Err(RowNotInExpectedState))
    ensures u == b.orders[o].userId && b.orders[o].status !in {Done, Cancelled, Paid}
            && !Coverable(Release, b.products, DemandsOf(FindActive(b.rows, o))) ==>
              Cancel(b, o, u) == Outcome(b, Err(ReservationAlreadyReleased))
  {
  }

  // One group transaction on any books, drifted ones included: an order past checkout is passed over;
  // otherwise exactly the named rows are released, the order is cancelled if it exists, and no stock and
  // no price changes.
  lemma GroupSweepExact(b: Books, o: string, g: seq<Reservation>, p: string)
    ensures var after := SweepGroup(b, o, g);
            if o in b.orders && b.orders[o].status != New && b.orders[o].status != PendingPayment then after == b
            else && |after.rows| == |b.rows|
                 && (forall i :: 0 <= i < |b.rows| ==>
                       after.rows[i] == if exists r :: r in g && r.id == i then b.rows[i].(status := Released)
                                        else b.rows[i])
                 && after.orders == (if o in b.orders then b.orders[o := b.orders[o].(status := Cancelled)] else b.orders)
                 && after.products == Drain(b.products, DemandsOf(g))
                 && (p in b.products ==>
                       && p in after.products && after.products[p].stock == b.products[p].stock
                       && after.products[p].price == b.products[p].price)
  {
    DrainIsSafe(b.products, DemandsOf(g));
    forall i | 0 <= i < |b.rows| ensures i in Ids(g) <==> exists r :: r in g && r.id == i {
      IdsOfMember(g, i);
    }
  }

  // ------------------------------------------------------------------ a whole sweep row by row

  lemma SweptRow(b: Books, batch: seq<Reservation>, visited: set<string>, i: nat)
    requires Numbered(b.rows) && Picks(b.rows, batch) && AllActive(batch) && i < |b.rows|
    ensures var r, o := b.rows[i], b.rows[i].orderId;
            SweepDone(b, batch, visited).rows[i]
            == if r in batch && o in visited && (o !in b.orders || b.orders[o].status in {New, PendingPayment})
               then r.(status := Released) else r
  {
    ReachedPicks(b, batch, visited);
    ReachedExact(b.orders, batch, visited);
    SettledRows(b.rows, Reached(b.orders, batch, visited), Released);
  }

  lemma SweptOrder(b: Books, batch: seq<Reservation>, visited: set<string>, o: string)
    requires o in b.orders
    ensures SweepDone(b, batch, visited).orders.Keys == b.orders.Keys
    ensures SweepDone(b, batch, visited).orders[o]
            == if o in visited && b.orders[o].status in {New, PendingPayment}
               then b.orders[o].(status := Cancelled) else b.orders[o]
  {
  }

  lemma SweptProduct(b: Books, batch: seq<Reservation>, visited: set<string>, p: string)
    requires Consistent(b) && Picks(b.rows, batch) && AllActive(batch) && p in b.products
    ensures SweepDone(b, batch, visited).products.Keys == b.products.Keys
    ensures SweepDone(b, batch, visited).products[p]
            == Product(b.products[p].price, b.products[p].stock,
                       b.products[p].reserved - Freed(b.rows, SweepDone(b, batch, visited).rows, p))
  {
    ReachedPicks(b, batch, visited);
    SettledCounters(b, Release, Reached(b.orders, batch, visited), Released, p);
  }

  // A sweep of the visited orders, in full: exactly the fetched rows whose order is missing, new or
  // pending are released, exactly those existing orders are cancelled, and the reserved counters drop by
  // the units released.
  lemma SweepEffect(b: Books, batch: seq<Reservation>, visited: set<string>, i: nat, o: string, p: string)
    requires Consistent(b) && Picks(b.rows, batch) && AllActive(batch)
    requires i < |b.rows| && o in b.orders && p in b.products
    ensures var after := SweepDone(b, batch, visited); var r := b.rows[i];
            && |after.rows| == |b.rows| && after.orders.Keys == b.orders.Keys && after.products.Keys == b.products.Keys
            && after.rows[i] == (if r in batch && r.orderId in visited
                                    && (r.orderId !in b.orders || b.orders[r.orderId].status in {New, PendingPayment})
                                 then r.(status := Released) else r)
            && after.orders[o] == (if o in visited && b.orders[o].status in {New, PendingPayment}
                                   then b.orders[o].(status := Cancelled) else b.orders[o])
            && after.products[p] == Product(b.products[p].price, b.products[p].stock,
                                            b.products[p].reserved - Freed(b.rows, after.rows, p))
  {
    SweptRow(b, batch, visited, i);
    SweptOrder(b, batch, visited, o);
    SweptProduct(b, batch, visited, p);
  }

  // ------------------------------------------------------------------ placing an order

  // What a request is refused for before the transaction, and with which error.
  lemma QuoteRefusals(db: Db, req: PlaceReq, now: int)
    ensures Quote(db, req, now) == Err(ValidationFailed) <==>
              || req.userId == "" || |req.lines| == 0 || |req.lines| > 5
              || exists i :: 0 <= i < |req.lines| && (req.lines[i].productId == "" || req.lines[i].quantity == 0)
    ensures Quote(db, req, now) != Err(ValidationFailed) ==>
              (Quote(db, req, now) == Err(RecordNotFound) <==>
                 exists i :: 0 <= i < |req.lines| && req.lines[i].productId !in db.books.products)
    ensures Quote(db, req, now) != Err(ValidationFailed) && AllKnown(db.books.products, req.lines) ==>
              var total := SumPrices(Priced(db.books.products, req.lines));
              var refused := req.couponCode != "" && Apply(db.coupons, req.couponCode, total, now).Err?;
              && (Quote(db, req, now).Err? <==> refused)
              && (refused ==> Quote(db, req, now).error == Apply(db.coupons, req.couponCode, total, now).error)
  {
    ApplyErrors(db.coupons, req.couponCode, now);
  }

  lemma ApplyErrors(coupons: Coupons, code: string, now: int)
    ensures forall total :: Apply(coupons, code, total, now).Err? ==>
                              Apply(coupons, code, total, now).error
                              in {CouponNotFound, CouponExpired, CouponMaxUsage, CouponMinOrder}
  {
  }

  // What an accepted order looks like: lines at current prices, their sum, the coupon's discount on it.
  lemma QuoteExact(db: Db, req: PlaceReq, now: int)
    requires Quote(db, req, now).Ok?
    ensures var order := Quote(db, req, now).value;
            && order.userId == req.userId && order.couponCode == req.couponCode && order.status == PendingPayment
            && |order.lines| == |req.lines|
            && (forall i :: 0 <= i < |req.lines| ==>
                  && req.lines[i].productId in db.books.products
                  && order.lines[i].productId == req.lines[i].productId
                  && order.lines[i].quantity == req.lines[i].quantity
                  && order.lines[i].price == db.books.products[req.lines[i].productId].price * req.lines[i].quantity as real)
            && order.totalPrice == SumPrices(order.lines)
            && order.finalPrice == order.totalPrice - order.discountAmount
            && (req.couponCode == "" ==> order.discountAmount == 0.0)
            && (req.couponCode != "" ==>
                  Apply(db.coupons, req.couponCode, order.totalPrice, now) == Ok(order.discountAmount))
  {
  }

  // The books after an accepted order.
  lemma AcceptEffect(b: Books, newId: string, order: Order, ds: seq<Demand>, expiresAt: int, p: string)
    ensures var after := Accept(b, newId, order, ds, expiresAt);
            && after.orders == b.orders[newId := order]
            && |after.rows| == |b.rows| + |ds| && after.rows[..|b.rows|] == b.rows
            && (forall i :: 0 <= i < |ds| ==>
                  after.rows[|b.rows| + i]
                  == Reservation(|b.rows| + i, newId, ds[i].productId, ds[i].quantity, Active, expiresAt))
            && after.products.Keys == b.products.Keys
            && (p in b.products ==>
                  after.products[p] == Product(b.products[p].price, b.products[p].stock,
                                               b.products[p].reserved + Need(ds, p)))
  {
  }

  // Placing an order, in full: one row of fifteen minutes per line, the reserved counter of each product
  // raised by the sum over its lines, and one more use of the coupon.
  lemma PlaceEffect(db: Db, req: PlaceReq, newId: string, now: int, p: string)
    requires PlaceOrder(db, req, newId, now).reply.Ok?
    ensures var out := PlaceOrder(db, req, newId, now);
            && out.reply == Quote(db, req, now)
            && out.db.payments == db.payments && out.db.events == db.events
            && out.db.books.orders == db.books.orders[newId := out.reply.value]
            && |out.db.books.rows| == |db.books.rows| + |req.lines|
            && out.db.books.rows[..|db.books.rows|] == db.books.rows
            && (forall i :: 0 <= i < |req.lines| ==>
                  out.db.books.rows[|db.books.rows| + i]
                  == Reservation(|db.books.rows| + i, newId, req.lines[i].productId, req.lines[i].quantity, Active,
                                 now + 900))
            && out.db.books.products.Keys == db.books.products.Keys
            && (p in db.books.products ==>
                  out.db.books.products[p] == Product(db.books.products[p].price, db.books.products[p].stock,
                                                      db.books.products[p].reserved + Need(req.lines, p)))
  {
    AcceptEffect(db.books, newId, Quote(db, req, now).value, req.lines, now + RESERVATION_TTL, p);
  }

  lemma PlaceCountsUse(db: Db, req: PlaceReq, newId: string, now: int, code: string)
    requires PlaceOrder(db, req, newId, now).reply.Ok?
    ensures var after := PlaceOrder(db, req, newId, now).db.coupons;
            && after.Keys == db.coupons.Keys
            && (code in db.coupons ==>
                  after[code] == if code == req.couponCode && code != ""
                                 then db.coupons[code].(usedCount := db.coupons[code].usedCount + 1) else db.coupons[code])
  {
  }

  // ------------------------------------------------------------------ opening a payment

  // The cut to whole cents: the nearest integer towards zero.
  lemma CutTowardsZero(x: real)
    ensures x >= 0.0 ==> 0 <= Truncated(x) && Truncated(x) as real <= x < Truncated(x) as real + 1.0
    ensures x < 0.0 ==> Truncated(x) <= 0 && Truncated(x) as real - 1.0 < x <= Truncated(x) as real
  {
  }

  // Opening a payment: what is refused and why; otherwise the first call stores the provider's intent for
  // the final price in cents, and later calls store nothing.
  lemma IntentExact(db: Db, o: string, intent: Option<string>)
    ensures o !in db.books.orders ==> CreateIntent(db, o, intent) == (db, Some(RecordNotFound))
    ensures o in db.books.orders && db.books.orders[o].status != PendingPayment ==>
              CreateIntent(db, o, intent) == (db, Some(NotPendingPayment))
    ensures o in db.books.orders && db.books.orders[o].status == PendingPayment && intent.None? ==>
              CreateIntent(db, o, intent) == (db, Some(ProviderFailure))
    ensures o in db.books.orders && db.books.orders[o].status == PendingPayment && intent.Some? ==>
              var (after, failure) := CreateIntent(db, o, intent);
              && failure == None
              && after == db.(payments := after.payments)
              && (o in db.payments ==> after == db)
              && (o !in db.payments ==>
                    && after.payments.Keys == db.payments.Keys + {o}
                    && (forall x :: x in db.payments ==> after.payments[x] == db.payments[x])
                    && after.payments[o].(amount := 0) == Payment("stripe", intent.value, 0, "usd", Pending)
                    && var cents := db.books.orders[o].finalPrice * 100.0;
                       cents >= 0.0 ==> after.payments[o].amount as real <= cents < after.payments[o].amount as real + 1.0)
  {
    if o in db.books.orders {
      CutTowardsZero(db.books.orders[o].finalPrice * 100.0);
    }
  }
}
