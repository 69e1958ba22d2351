/**
 Runs of the whole system. Each service call is one atomic step, except the sweep, which is a snapshot
 step followed by one step per order at any later time; any number of sweeps may be under way at once.
 */
module Runs {
  import opened Common
  import opened OrderStatuses
  import opened Counters
  import opened Reservations
  import opened BookKeeping
  import opened Coupons
  import opened Database
  import opened Protocol
  import opened Sweeping

  // `sweeps` holds, for each sweep under way, the fetched rows whose groups are still to be visited.
  datatype Sys = Sys(db: Db, sweeps: map<nat, seq<Reservation>>)

  // What the system cannot choose comes with the step: fresh ids, clock readings, provider answers, the
  // rows that a LIMIT without ORDER BY returns, the order in which Go visits a map, database faults.
  datatype Op =
    | Place(req: PlaceReq, newId: string, now: int)
    | PayOrder(orderId: string)
    | CancelOrder(orderId: string, userId: string)
    | SetStatus(orderId: string, status: OrderStatus)
    | Webhook(event: Event)
    | CreatePayment(orderId: string, intent: Option<string>)
    | CreateCoupon(code: string, coupon: Coupon)
    | AddUnits(productId: string, qty: int)
    | TakeUnits(productId: string, amount: nat)
    | EditUnits(productId: string, stock: int)
    | CreateProduct(productId: string, price: real, stock: int)
    | Fetch(sweep: nat, now: int, batchSize: int, batch: seq<Reservation>)
    | Visit(sweep: nat, orderId: string, fault: bool)

  function BatchLimit(batchSize: int): nat {
    if batchSize <= 0 then 100 else batchSize
  }

  function WithBooks(s: Sys, b: Books): Sys {
    s.(db := s.db.(books := b))
  }

  function Step(s: Sys, op: Op): Sys {
    match op
    case Place(req, newId, now) => s.(db := PlaceOrder(s.db, req, newId, now).db)
    case PayOrder(o) => WithBooks(s, MarkPaid(s.db.books, o).books)
    case CancelOrder(o, u) => WithBooks(s, Cancel(s.db.books, o, u).books)
    case SetStatus(o, st) => WithBooks(s, UpdateStatus(s.db.books, o, st).books)
    case Webhook(ev) => s.(db := HandleWebhook(s.db, ev).0)
    case CreatePayment(o, intent) => s.(db := CreateIntent(s.db, o, intent).0)
    case CreateCoupon(code, c) => s.(db := s.db.(coupons := Create(s.db.coupons, code, c)))
    case AddUnits(p, q) => WithBooks(s, Do(s.db.books, Restock(p, q)))
    case TakeUnits(p, q) => WithBooks(s, Do(s.db.books, Withdraw(p, q)))
    case EditUnits(p, v) => WithBooks(s, Do(s.db.books, Edit(p, v)))
    case CreateProduct(p, price, v) => WithBooks(s, Do(s.db.books, Launch(p, price, v)))
    case Fetch(k, now, size, batch) => s.(sweeps := s.sweeps[k := batch])
    case Visit(k, o, fault) =>
      if k !in s.sweeps then s
      else
        var after := if fault then s.db.books else SweepGroup(s.db.books, o, Group(s.sweeps[k], o));
        WithBooks(s, after).(sweeps := s.sweeps[k := Others(s.sweeps[k], o)])
  }

  // The effect of a step on products, orders and reservation rows.
  function CallOf(s: Sys, op: Op): Call {
    match op
    case Place(req, newId, now) =>
      var q := Quote(s.db, req, now);
      if q.Ok? && Coverable(Reserve, s.db.books.products, req.lines)
      then Accepted(newId, q.value, req.lines, now + RESERVATION_TTL)
      else Untouched
    case PayOrder(o) => Pay(o)
    case CancelOrder(o, u) => CancelBy(o, u)
    case SetStatus(o, st) => Restatus(o, st)
    case Webhook(ev) =>
      if EventKey(PROVIDER, ev.id) in s.db.events || ev.orderId == "" || ev.orderId !in s.db.payments then Untouched
      else OrderCallFor(ev)
    case AddUnits(p, q) => Restock(p, q)
    case TakeUnits(p, q) => Withdraw(p, q)
    case EditUnits(p, v) => Edit(p, v)
    case CreateProduct(p, price, v) => Launch(p, price, v)
    case Visit(k, o, fault) => if fault || k !in s.sweeps then Untouched else Sweep(o, Group(s.sweeps[k], o))
    case _ => Untouched
  }

  lemma StepIsCall(s: Sys, op: Op)
    ensures Step(s, op).db.books == Do(s.db.books, CallOf(s, op))
  {
    match op
    case Place(req, newId, now) => PlaceIsCall(s, req, newId, now);
    case Webhook(ev) => WebhookIsCall(s.db, ev);
    case Visit(k, o, fault) => VisitIsCall(s, k, o, fault);
    case _ =>
  }

  lemma VisitIsCall(s: Sys, k: nat, o: string, fault: bool)
    ensures Step(s, Visit(k, o, fault)).db.books == Do(s.db.books, CallOf(s, Visit(k, o, fault)))
  {
  }

  lemma PlaceIsCall(s: Sys, req: PlaceReq, newId: string, now: int)
    ensures PlaceOrder(s.db, req, newId, now).db.books == Do(s.db.books, CallOf(s, Place(req, newId, now)))
  {
  }

  lemma WebhookIsCall(db: Db, ev: Event)
    ensures HandleWebhook(db, ev).0.books
            == if EventKey(PROVIDER, ev.id) in db.events || ev.orderId == "" || ev.orderId !in db.payments then db.books
               else Do(db.books, OrderCallFor(ev))
  {
  }

  // Ids are fresh, a fetch returns what the expiry query may return, and a sweep visits an order of its
  // batch that it has not visited before.
  ghost predicate Enabled(s: Sys, op: Op) {
    match op
    case Place(_, newId, _) =>
      newId !in s.db.books.orders && forall i :: 0 <= i < |s.db.books.rows| ==> s.db.books.rows[i].orderId != newId
    case Fetch(k, now, size, batch) => k !in s.sweeps && IsExpiredBatch(s.db.books.rows, now, BatchLimit(size), batch)
    case Visit(k, o, _) => k in s.sweeps && Group(s.sweeps[k], o) != []
    case _ => true
  }

  function Exec(s: Sys, ops: seq<Op>): Sys
    decreases ops
  {
    if ops == [] then s else Exec(Step(s, ops[0]), ops[1..])
  }

  ghost predicate Legal(s: Sys, ops: seq<Op>)
    decreases ops
  {
    ops == [] || (Enabled(s, ops[0]) && Legal(Step(s, ops[0]), ops[1..]))
  }

  lemma {:induction false} RunConcat(s: Sys, a: seq<Op>, b: seq<Op>)
    ensures Exec(s, a + b) == Exec(Exec(s, a), b)
    ensures Legal(s, a + b) <==> Legal(s, a) && Legal(Exec(s, a), b)
    decreases a
  {
    if a == [] {
      assert a + b == b;
    } else {
      RunConcat(Step(s, a[0]), a[1..], b);
      assert (a + b)[0] == a[0] && (a + b)[1..] == a[1..] + b;
    }
  }

  // ------------------------------------------------------------------ the system invariant

  function Carriers(orders: Orders, code: string): set<string> {
    set o | o in orders && orders[o].couponCode == code
  }

  // Each use of a coupon is one stored order that carries its code, within the usage limit.
  ghost predicate CouponsCounted(db: Db) {
    && (forall code :: code in db.coupons ==>
          && code != ""
          && db.coupons[code].discountValue > 0.0
          && !db.coupons[code].discountType.OtherDiscount?
          && db.coupons[code].usedCount == |Carriers(db.books.orders, code)|
          && (db.coupons[code].maxUsage > 0 ==> db.coupons[code].usedCount <= db.coupons[code].maxUsage))
    && (forall o :: o in db.books.orders ==>
          db.books.orders[o].couponCode == "" || db.books.orders[o].couponCode in db.coupons)
  }

  // The amounts of an order row, recomputed from its lines and its coupon.
  ghost predicate WellPriced(coupons: Coupons, o: Order) {
    && o.totalPrice == SumPrices(o.lines) && o.totalPrice >= 0.0
    && o.finalPrice == o.totalPrice - o.discountAmount
    && (o.couponCode == "" ==> o.discountAmount == 0.0)
    && (o.couponCode != "" ==> o.couponCode in coupons && o.discountAmount == Discount(coupons[o.couponCode], o.totalPrice))
  }

  ghost predicate PricesAgree(db: Db) {
    && (forall p :: p in db.books.products ==> db.books.products[p].price >= 0.0)
    && (forall o :: o in db.books.orders ==> WellPriced(db.coupons, db.books.orders[o]))
  }

  ghost predicate SnapshotsTrace(s: Sys) {
    forall k :: k in s.sweeps ==> Stale(s.db.books.rows, s.sweeps[k]) && AllActive(s.sweeps[k])
  }

  ghost predicate SysInv(s: Sys) {
    Inv(s.db.books) && CouponsCounted(s.db) && PricesAgree(s.db) && SnapshotsTrace(s)
  }

  lemma CallsArePossible(s: Sys, op: Op)
    requires SysInv(s) && Enabled(s, op)
    ensures Possible(s.db.books, CallOf(s, op))
  {
    match op
    case Visit(k, o, fault) => GroupKeepsTrace(s.db.books.rows, s.sweeps[k], o);
    case _ =>
  }

  // ------------------------------------------------------------------ the invariant over runs

  lemma SumOfNonNegative(lines: seq<OrderLine>)
    requires forall i :: 0 <= i < |lines| ==> lines[i].price >= 0.0
    ensures SumPrices(lines) >= 0.0
  {
  }

  lemma QuoteIsWellPriced(db: Db, req: PlaceReq, now: int)
    requires PricesAgree(db) && Quote(db, req, now).Ok?
    ensures WellPriced(db.coupons, Quote(db, req, now).value)
  {
    var lines := Priced(db.books.products, req.lines);
    forall i | 0 <= i < |lines| ensures lines[i].price >= 0.0 {
      var line := req.lines[i];
      assert lines[i] == PricedLine(db.books.products, line);
      ProductSign(db.books.products[line.productId].price, line.quantity as real);
    }
    SumOfNonNegative(lines);
  }

  lemma SnapshotsKept(s: Sys, op: Op)
    requires SysInv(s) && Enabled(s, op)
    ensures SnapshotsTrace(Step(s, op))
  {
    CallsArePossible(s, op);
    StepIsCall(s, op);
    DoKeepsInv(s.db.books, CallOf(s, op));
    forall k | k in Step(s, op).sweeps
      ensures Stale(Step(s, op).db.books.rows, Step(s, op).sweeps[k]) && AllActive(Step(s, op).sweeps[k])
    {
      SnapshotKept(s, op, k);
    }
  }

  lemma SnapshotKept(s: Sys, op: Op, k: nat)
    requires SnapshotsTrace(s) && Enabled(s, op) && k in Step(s, op).sweeps
    requires OnlySettles(s.db.books.rows, Step(s, op).db.books.rows)
    ensures Stale(Step(s, op).db.books.rows, Step(s, op).sweeps[k]) && AllActive(Step(s, op).sweeps[k])
  {
    var rows := Step(s, op).db.books.rows;
    if k in s.sweeps {
      if op.Visit? && op.sweep == k {
        GroupKeepsTrace(s.db.books.rows, s.sweeps[k], op.orderId);
        StaleKept(s.db.books.rows, rows, Others(s.sweeps[k], op.orderId));
      } else {
        StaleKept(s.db.books.rows, rows, s.sweeps[k]);
      }
    }
  }

  // Apart from an accepted order, a step changes no more of the order table than statuses.
  ghost predicate OnlyStatuses(a: Orders, b: Orders) {
    a.Keys == b.Keys && forall o :: o in a ==> b[o] == a[o].(status := b[o].status)
  }

  lemma OrdersAfter(b: Books, c: Call)
    requires Inv(b) && Possible(b, c) && !c.Accepted?
    ensures OnlyStatuses(b.orders, Do(b, c).orders)
  {
    forall o | o in b.orders
      ensures o in Do(b, c).orders && Do(b, c).orders[o] == b.orders[o].(status := Do(b, c).orders[o].status)
    {
      StatusMove(b, c, o);
    }
    forall o | o in Do(b, c).orders ensures o in b.orders {
      if o !in b.orders {
        NewOrders(b, c, o);
      }
    }
  }

  lemma AcceptedCounted(db: Db, after: Db, newId: string, order: Order)
    requires CouponsCounted(db) && newId !in db.books.orders
    requires after.books.orders == db.books.orders[newId := order]
    requires order.couponCode == "" ==> after.coupons == db.coupons
    requires order.couponCode != "" ==>
               && order.couponCode in db.coupons
               && (db.coupons[order.couponCode].maxUsage > 0 ==>
                     db.coupons[order.couponCode].usedCount < db.coupons[order.couponCode].maxUsage)
               && after.coupons == IncrUsedCount(db.coupons, order.couponCode)
    ensures CouponsCounted(after)
  {
    forall x | x in db.coupons
      ensures |Carriers(after.books.orders, x)| == |Carriers(db.books.orders, x)| + if x == order.couponCode then 1 else 0
    {
      CarriersGrow(db.books.orders, newId, order, x);
    }
  }

  lemma CarriersGrow(orders: Orders, newId: string, order: Order, code: string)
    requires newId !in orders
    ensures |Carriers(orders[newId := order], code)| == |Carriers(orders, code)| + if code == order.couponCode then 1 else 0
  {
    var after := Carriers(orders[newId := order], code);
    if code == order.couponCode {
      assert after == Carriers(orders, code) + {newId};
    } else {
      assert after == Carriers(orders, code);
    }
  }

  lemma CountsKept(a: Db, b: Db)
    requires CouponsCounted(a) && b.coupons == a.coupons && OnlyStatuses(a.books.orders, b.books.orders)
    ensures CouponsCounted(b)
  {
    forall code | code in a.coupons ensures Carriers(b.books.orders, code) == Carriers(a.books.orders, code) {
    }
  }

  lemma PlaceCounted(db: Db, req: PlaceReq, newId: string, now: int)
    requires CouponsCounted(db) && newId !in db.books.orders
    ensures CouponsCounted(PlaceOrder(db, req, newId, now).db)
  {
    var out := PlaceOrder(db, req, newId, now);
    if out.reply.Ok? {
      AcceptedCounted(db, out.db, newId, out.reply.value);
    }
  }

  lemma CreateCounted(db: Db, code: string, c: Coupon)
    requires CouponsCounted(db)
    ensures CouponsCounted(db.(coupons := Create(db.coupons, code, c)))
  {
    if code !in db.coupons && Creatable(code, c) {
      assert Carriers(db.books.orders, code) == {};
    }
  }

  lemma OthersLeaveCoupons(s: Sys, op: Op)
    requires !op.Place? && !op.CreateCoupon?
    ensures Step(s, op).db.coupons == s.db.coupons
    ensures !CallOf(s, op).Accepted?
  {
  }

  lemma CouponsKept(s: Sys, op: Op)
    requires SysInv(s) && Enabled(s, op)
    ensures CouponsCounted(Step(s, op).db)
  {
    if op.Place? {
      PlaceCounted(s.db, op.req, op.newId, op.now);
    } else if op.CreateCoupon? {
      CreateCounted(s.db, op.code, op.coupon);
    } else {
      CallsArePossible(s, op);
      StepIsCall(s, op);
      OthersLeaveCoupons(s, op);
      OrdersAfter(s.db.books, CallOf(s, op));
      CountsKept(s.db, Step(s, op).db);
    }
  }

  // Coupons are added or counted up; what a discount depends on never changes.
  ghost predicate OnlyCounted(a: Coupons, b: Coupons) {
    forall code :: code in a ==> code in b && b[code] == a[code].(usedCount := b[code].usedCount)
  }

  lemma CouponsAfter(s: Sys, op: Op)
    ensures OnlyCounted(s.db.coupons, Step(s, op).db.coupons)
  {
    if op.Place? {
      PlaceCounts(s.db, op.req, op.newId, op.now);
    } else if !op.CreateCoupon? {
      OthersLeaveCoupons(s, op);
    }
  }

  lemma PlaceCounts(db: Db, req: PlaceReq, newId: string, now: int)
    ensures OnlyCounted(db.coupons, PlaceOrder(db, req, newId, now).db.coupons)
  {
  }

  lemma PricesKept(s: Sys, op: Op)
    requires SysInv(s) && Enabled(s, op)
    ensures PricesAgree(Step(s, op).db)
  {
    CallsArePossible(s, op);
    StepIsCall(s, op);
    CouponsAfter(s, op);
    var c, after := CallOf(s, op), Step(s, op).db;
    ProductPrices(s.db.books, c);
    forall o | o in after.books.orders ensures WellPriced(after.coupons, after.books.orders[o]) {
      if o in s.db.books.orders {
        StatusMove(s.db.books, c, o);
        WellPricedLater(s.db.coupons, after.coupons, s.db.books.orders[o]);
      } else {
        NewOrders(s.db.books, c, o);
        QuoteIsWellPriced(s.db, op.req, op.now);
        WellPricedLater(s.db.coupons, after.coupons, after.books.orders[o]);
      }
    }
  }

  lemma WellPricedLater(a: Coupons, b: Coupons, order: Order)
    requires WellPriced(a, order) && OnlyCounted(a, b)
    ensures WellPriced(b, order)
  {
  }

  lemma ProductPrices(b: Books, c: Call)
    requires Inv(b) && Possible(b, c) && forall p :: p in b.products ==> b.products[p].price >= 0.0
    ensures forall p :: p in Do(b, c).products ==> Do(b, c).products[p].price >= 0.0
  {
    if c.Pay? || c.CancelBy? || c.Sweep? {
      SettlementShape(b, c);
    } else if MovesStock(c) {
      StockPrices(b, c);
    } else if c.Restatus? {
      RestatusKeepsInv(b, c.orderId, c.status);
    }
  }

  lemma StockPrices(b: Books, c: Call)
    requires MovesStock(c) && forall p :: p in b.products ==> b.products[p].price >= 0.0
    ensures forall p :: p in Do(b, c).products ==> Do(b, c).products[p].price >= 0.0
  {
  }

  // Every enabled step keeps the system invariant: the ledger, the order and row relations, the coupon
  // counts, the prices and the traceability of all snapshots.
  lemma StepKeepsInv(s: Sys, op: Op)
    requires SysInv(s) && Enabled(s, op)
    ensures SysInv(Step(s, op))
    ensures OnlySettles(s.db.books.rows, Step(s, op).db.books.rows)
  {
    CallsArePossible(s, op);
    StepIsCall(s, op);
    DoKeepsInv(s.db.books, CallOf(s, op));
    SnapshotsKept(s, op);
    CouponsKept(s, op);
    PricesKept(s, op);
  }

  // Over every run, with any number of sweeps interleaved: the invariant holds throughout, and each
  // reservation row leaves Active at most once, for good, with its other columns unchanged.
  lemma {:induction false} RunsKeepInv(s: Sys, ops: seq<Op>)
    requires SysInv(s) && Legal(s, ops)
    ensures SysInv(Exec(s, ops))
    ensures OnlySettles(s.db.books.rows, Exec(s, ops).db.books.rows)
    decreases ops
  {
    if ops != [] {
      StepKeepsInv(s, ops[0]);
      RunsKeepInv(Step(s, ops[0]), ops[1..]);
      OnlySettlesTransitive(s.db.books.rows, Step(s, ops[0]).db.books.rows, Exec(s, ops).db.books.rows);
    }
  }

  function ReservedOf(b: Books, p: string): int {
    if p in b.products then b.products[p].reserved else 0
  }

  lemma ReservedIsHeld(b: Books, p: string)
    requires Inv(b)
    ensures ReservedOf(b, p) == Held(b.rows, p, Active)
  {
    if p !in b.products {
      HeldOfUnknown(b.rows, p, Active);
    }
  }

  // Over every run the reserved counter of a product falls by the quantity of each row that left Active,
  // counted once per row however often its order was paid, cancelled or swept, and rises by the rows
  // that were added and are still held.
  lemma EachRowSettledOnce(s: Sys, ops: seq<Op>, p: string)
    requires SysInv(s) && Legal(s, ops)
    ensures var before, after := s.db.books, Exec(s, ops).db.books;
            && |before.rows| <= |after.rows|
            && ReservedOf(after, p) == ReservedOf(before, p) - LeftActive(before.rows, after.rows, p)
                                       + Held(after.rows[|before.rows|..], p, Active)
  {
    RunsKeepInv(s, ops);
    var before, after := s.db.books, Exec(s, ops).db.books;
    ReservedIsHeld(before, p);
    ReservedIsHeld(after, p);
    HeldOfHistory(before.rows, after.rows, p);
  }

  // ------------------------------------------------------------------ conservation over runs

  // Units brought in by restocks, edits and new products, less units taken out directly.
  function TotalInflow(s: Sys, ops: seq<Op>, p: string): int
    decreases ops
  {
    if ops == [] then 0 else Inflow(s.db.books, CallOf(s, ops[0]), p) + TotalInflow(Step(s, ops[0]), ops[1..], p)
  }

  // Stock on the shelf plus units sold changes over a run by the external flow alone, so units sold and
  // units on hold together never exceed what was ever supplied.
  lemma {:induction false} RunsConserve(s: Sys, ops: seq<Op>, p: string)
    requires SysInv(s) && Legal(s, ops)
    ensures var before, after := s.db.books, Exec(s, ops).db.books;
            && Supplied(after, p) == Supplied(before, p) + TotalInflow(s, ops, p)
            && Held(after.rows, p, Committed) + Held(after.rows, p, Active)
               <= Supplied(before, p) + TotalInflow(s, ops, p)
    decreases ops
  {
    if ops == [] {
      if p !in s.db.books.products {
        HeldOfUnknown(s.db.books.rows, p, Active);
      }
    } else {
      CallsArePossible(s, ops[0]);
      StepIsCall(s, ops[0]);
      DoConserves(s.db.books, CallOf(s, ops[0]), p);
      StepKeepsInv(s, ops[0]);
      RunsConserve(Step(s, ops[0]), ops[1..], p);
    }
  }

  // ------------------------------------------------------------------ statuses over runs

  // No run brings back New, reopens a cancelled order or drops an order row; every other column of an
  // order row keeps its value.
  lemma {:induction false} RunsKeepOrders(s: Sys, ops: seq<Op>, o: string)
    requires SysInv(s) && Legal(s, ops) && o in s.db.books.orders
    ensures var before, after := s.db.books.orders[o], Exec(s, ops).db.books.orders;
            && o in after
            && after[o] == before.(status := after[o].status)
            && (before.status == Cancelled ==> after[o].status == Cancelled)
            && (after[o].status == New ==> before.status == New)
    decreases ops
  {
    if ops != [] {
      CallsArePossible(s, ops[0]);
      StepIsCall(s, ops[0]);
      StatusMove(s.db.books, CallOf(s, ops[0]), o);
      StepKeepsInv(s, ops[0]);
      RunsKeepOrders(Step(s, ops[0]), ops[1..], o);
    }
  }

  lemma {:induction false} NewIsNeverStored(s: Sys, ops: seq<Op>)
    requires SysInv(s) && Legal(s, ops)
    requires forall o :: o in s.db.books.orders ==> s.db.books.orders[o].status != New
    ensures forall o :: o in Exec(s, ops).db.books.orders ==> Exec(s, ops).db.books.orders[o].status != New
    decreases ops
  {
    if ops != [] {
      CallsArePossible(s, ops[0]);
      StepIsCall(s, ops[0]);
      StepKeepsInv(s, ops[0]);
      var next := Step(s, ops[0]);
      forall o | o in next.db.books.orders ensures next.db.books.orders[o].status != New {
        if o in s.db.books.orders {
          StatusMove(s.db.books, CallOf(s, ops[0]), o);
        } else {
          NewOrders(s.db.books, CallOf(s, ops[0]), o);
        }
      }
      NewIsNeverStored(next, ops[1..]);
    }
  }

  // The move a step makes on one order, and whether the transition table allows it: the exception is a
  // MarkOrderPaid call, from the service or from a webhook, on an order in New, InProgress or Done.
  lemma StepStatusMove(s: Sys, op: Op, o: string)
    requires SysInv(s) && Enabled(s, op) && o in s.db.books.orders
    ensures o in Step(s, op).db.books.orders
    ensures s.db.books.orders[o].status.CanTransitionTo(Step(s, op).db.books.orders[o].status)
            <==> !(CallOf(s, op) == Pay(o) && s.db.books.orders[o].status in {New, InProgress, Done})
  {
    CallsArePossible(s, op);
    StepIsCall(s, op);
    StatusMove(s.db.books, CallOf(s, op), o);
  }

  // ------------------------------------------------------------------ stranded stock over runs

  // The calls that break a relation between order status and row status.
  datatype Mishap = StrandsStock | StrandsByUpdate | SplitsOrder | SkipsCommitting | PaysOutOfTurn(orderId: string)

  ghost predicate Occurs(m: Mishap, b: Books, c: Call) {
    match m
    case StrandsStock => Strands(b, c)
    case StrandsByUpdate => c.Restatus? && Strands(b, c)
    case SplitsOrder => c.Sweep? && Sweepable(b.orders, c.orderId) && !Whole(b, c.orderId, c.group)
    case SkipsCommitting => SkipsCommit(b, c)
    case PaysOutOfTurn(o) => c == Pay(o) && o in b.orders && b.orders[o].status in {New, InProgress, Done}
  }

  ghost predicate Never(m: Mishap, s: Sys, ops: seq<Op>)
    decreases ops
  {
    ops == [] || (!Occurs(m, s.db.books, CallOf(s, ops[0])) && Never(m, Step(s, ops[0]), ops[1..]))
  }

  // A row stranded on a cancelled order stays active in every later state, so its quantity is held off
  // sale for ever.
  lemma {:induction false} StrandedForever(s: Sys, ops: seq<Op>, i: nat)
    requires SysInv(s) && Legal(s, ops) && Stranded(s.db.books, i)
    ensures Stranded(Exec(s, ops).db.books, i)
    ensures Exec(s, ops).db.books.rows[i] == s.db.books.rows[i]
    decreases ops
  {
    if ops != [] {
      CallsArePossible(s, ops[0]);
      StepIsCall(s, ops[0]);
      StrandedForGood(s.db.books, CallOf(s, ops[0]), i);
      StepKeepsInv(s, ops[0]);
      StrandedForever(Step(s, ops[0]), ops[1..], i);
    }
  }

  lemma {:induction false} ActiveRowIsReserved(rows: Rows, i: nat)
    requires i < |rows| && rows[i].status == Active
    ensures Held(rows, rows[i].productId, Active) >= rows[i].quantity
  {
    if i < |rows| - 1 {
      ActiveRowIsReserved(rows[..|rows| - 1], i);
    }
  }

  // The run-level exact condition: cancelled orders hold nothing at the end of a run exactly when no
  // step of the run stranded stock. There is no repair: not by paying, cancelling or sweeping.
  lemma {:induction false} CancelledHoldNothingExact(s: Sys, ops: seq<Op>)
    requires SysInv(s) && Legal(s, ops) && CancelledHoldNothing(s.db.books)
    ensures CancelledHoldNothing(Exec(s, ops).db.books) <==> Never(StrandsStock, s, ops)
    decreases ops
  {
    if ops != [] {
      var c, next := CallOf(s, ops[0]), Step(s, ops[0]);
      CallsArePossible(s, ops[0]);
      StepIsCall(s, ops[0]);
      StrandingExact(s.db.books, c);
      StepKeepsInv(s, ops[0]);
      if Strands(s.db.books, c) {
        var o :| o in next.db.books.orders && next.db.books.orders[o].status == Cancelled && HoldsStock(next.db.books, o);
        var i :| 0 <= i < |next.db.books.rows| && next.db.books.rows[i].orderId == o && next.db.books.rows[i].status == Active;
        StrandedForever(next, ops[1..], i);
        assert HoldsStock(Exec(s, ops).db.books, o);
      } else {
        CancelledHoldNothingExact(next, ops[1..]);
      }
    }
  }

  lemma CanceledWebhookStrandsNow(s: Sys, ev: Event, i: nat)
    requires SysInv(s) && ev.kind == IntentCanceled && EventKey(PROVIDER, ev.id) !in s.db.events
    requires ev.orderId != "" && ev.orderId in s.db.payments && ev.orderId in s.db.books.orders
    requires s.db.books.orders[ev.orderId].status in {PendingPayment, PaymentFailed}
    requires i < |s.db.books.rows| && s.db.books.rows[i].orderId == ev.orderId
    ensures Stranded(Step(s, Webhook(ev)).db.books, i) && Step(s, Webhook(ev)).db.books.rows == s.db.books.rows
  {
    WebhookIsCall(s.db, ev);
  }

  // What the comment on cancelled payments relies on does not happen: after a canceled-intent webhook
  // on an order in checkout, the stock of the order stays reserved in every later run.
  lemma CanceledWebhookStrands(s: Sys, ev: Event, ops: seq<Op>, i: nat)
    requires SysInv(s) && ev.kind == IntentCanceled && EventKey(PROVIDER, ev.id) !in s.db.events
    requires ev.orderId != "" && ev.orderId in s.db.payments && ev.orderId in s.db.books.orders
    requires s.db.books.orders[ev.orderId].status in {PendingPayment, PaymentFailed}
    requires i < |s.db.books.rows| && s.db.books.rows[i].orderId == ev.orderId
    requires Legal(Step(s, Webhook(ev)), ops)
    ensures var end := Exec(Step(s, Webhook(ev)), ops).db.books;
            && ev.orderId in end.orders && end.orders[ev.orderId].status == Cancelled
            && i < |end.rows| && end.rows[i].productId in end.products
            && end.rows[i].status == Active
            && end.products[end.rows[i].productId].reserved >= s.db.books.rows[i].quantity
  {
    CanceledWebhookStrandsNow(s, ev, i);
    StepKeepsInv(s, Webhook(ev));
    var next := Step(s, Webhook(ev));
    StrandedForever(next, ops, i);
    RunsKeepInv(next, ops);
    ActiveRowIsReserved(Exec(next, ops).db.books.rows, i);
  }

  // ------------------------------------------------------------------ all-or-nothing over runs

  lemma {:induction false} SplitForever(s: Sys, ops: seq<Op>, i: nat, j: nat)
    requires SysInv(s) && Legal(s, ops) && SplitPair(s.db.books, i, j)
    ensures SplitPair(Exec(s, ops).db.books, i, j)
    decreases ops
  {
    if ops != [] {
      CallsArePossible(s, ops[0]);
      StepIsCall(s, ops[0]);
      SplitForGood(s.db.books, CallOf(s, ops[0]), i, j);
      StepKeepsInv(s, ops[0]);
      SplitForever(Step(s, ops[0]), ops[1..], i, j);
    }
  }

  // All rows of each order share one status at the end of a run exactly when no sweep of the run
  // split an order.
  lemma {:induction false} UniformExact(s: Sys, ops: seq<Op>)
    requires SysInv(s) && Legal(s, ops) && Uniform(s.db.books)
    ensures Uniform(Exec(s, ops).db.books) <==> Never(SplitsOrder, s, ops)
    decreases ops
  {
    if ops != [] {
      var c, next := CallOf(s, ops[0]), Step(s, ops[0]);
      CallsArePossible(s, ops[0]);
      StepIsCall(s, ops[0]);
      SplitExact(s.db.books, c);
      StepKeepsInv(s, ops[0]);
      if Occurs(SplitsOrder, s.db.books, c) {
        var i, j := SplittingLeavesPair(s.db.books, c);
        SplitForever(next, ops[1..], i, j);
      } else {
        UniformExact(next, ops[1..]);
      }
    }
  }

  ghost predicate AlwaysCommitted(s: Sys, ops: seq<Op>)
    decreases ops
  {
    FulfilledAreCommitted(s.db.books) && (ops != [] ==> AlwaysCommitted(Step(s, ops[0]), ops[1..]))
  }

  // Orders in Paid, InProgress or Done have every row committed in all states of a run exactly when no
  // step of the run takes an order with reservations from checkout into fulfilment by a status update.
  lemma {:induction false} FulfilledAreCommittedExact(s: Sys, ops: seq<Op>)
    requires SysInv(s) && Legal(s, ops) && FulfilledAreCommitted(s.db.books)
    ensures AlwaysCommitted(s, ops) <==> Never(SkipsCommitting, s, ops)
    decreases ops
  {
    if ops != [] {
      CallsArePossible(s, ops[0]);
      StepIsCall(s, ops[0]);
      CommitSkipExact(s.db.books, CallOf(s, ops[0]));
      StepKeepsInv(s, ops[0]);
      var next := Step(s, ops[0]);
      if FulfilledAreCommitted(next.db.books) {
        FulfilledAreCommittedExact(next, ops[1..]);
      }
    }
  }

  // ------------------------------------------------------------------ when batches stay whole

  // Rows of one order share one deadline: they are inserted together.
  ghost predicate SharedDeadlines(rows: Rows) {
    forall i, j :: 0 <= i < |rows| && 0 <= j < |rows| && rows[i].orderId == rows[j].orderId
      ==> rows[i].expiresAt == rows[j].expiresAt
  }

  // Each pending snapshot that mentions an order still in checkout has every row of that order.
  ghost predicate SnapshotsWhole(s: Sys) {
    forall k, r, i :: k in s.sweeps && r in s.sweeps[k] && 0 <= i < |s.db.books.rows|
      && s.db.books.rows[i].orderId == r.orderId
      && r.orderId in s.db.books.orders && s.db.books.orders[r.orderId].status.IsOpen()
      ==> exists c :: c in s.sweeps[k] && c.id == i
  }

  // A fetch that stays below its limit cannot have cut an order.
  ghost predicate BelowLimit(op: Op) {
    op.Fetch? ==> |op.batch| < BatchLimit(op.batchSize)
  }

  lemma RowsAfter(b: Books, c: Call)
    requires Inv(b) && Possible(b, c)
    ensures OnlySettles(b.rows, Do(b, c).rows)
    ensures forall i :: |b.rows| <= i < |Do(b, c).rows| ==>
                          && c.Accepted? && Do(b, c).rows[i].orderId == c.newId && Do(b, c).rows[i].expiresAt == c.expiresAt
  {
    DoKeepsInv(b, c);
    if SettlementOf(b, c).Settlement? {
      SettlementShape(b, c);
    } else {
      RowsUnlessSettled(b, c);
    }
  }

  lemma DeadlinesKept(b: Books, c: Call)
    requires Inv(b) && Possible(b, c) && SharedDeadlines(b.rows)
    ensures SharedDeadlines(Do(b, c).rows)
  {
    RowsAfter(b, c);
    var after := Do(b, c).rows;
    forall i | 0 <= i < |b.rows|
      ensures after[i].orderId == b.rows[i].orderId && after[i].expiresAt == b.rows[i].expiresAt
      ensures c.Accepted? ==> after[i].orderId != c.newId
    {
      assert after[i] == b.rows[i].(status := after[i].status);
    }
  }

  // A copy whose order is in checkout after a call has its order in checkout before.
  lemma MentionedBefore(b: Books, c: Call, g: seq<Reservation>, r: Reservation)
    requires Inv(b) && Possible(b, c) && Stale(b.rows, g) && r in g
    requires r.orderId in Do(b, c).orders && Do(b, c).orders[r.orderId].status.IsOpen()
    ensures r.orderId in b.orders && b.orders[r.orderId].status.IsOpen()
    ensures !(c.Accepted? && c.newId == r.orderId)
  {
    StaleMember(b.rows, g, r);
    StatusMove(b, c, r.orderId);
  }

  lemma FetchIsWhole(s: Sys, op: Op, r: Reservation, i: nat)
    requires SysInv(s) && SharedDeadlines(s.db.books.rows) && op.Fetch? && Enabled(s, op) && BelowLimit(op)
    requires r in op.batch && i < |s.db.books.rows| && s.db.books.rows[i].orderId == r.orderId
    requires r.orderId in s.db.books.orders && s.db.books.orders[r.orderId].status.IsOpen()
    ensures s.db.books.rows[i] in op.batch
  {
    var j :| 0 <= j < |op.batch| && op.batch[j] == r;
    assert s.db.books.rows[r.id] == r;
    assert s.db.books.rows[i].expiresAt == r.expiresAt;
  }

  lemma CopyKept(s: Sys, op: Op, k: nat, r: Reservation, i: nat)
    requires SysInv(s) && Enabled(s, op) && SnapshotsWhole(s)
    requires k in s.sweeps && r in s.sweeps[k]
    requires i < |Step(s, op).db.books.rows| && Step(s, op).db.books.rows[i].orderId == r.orderId
    requires r.orderId in Step(s, op).db.books.orders && Step(s, op).db.books.orders[r.orderId].status.IsOpen()
    ensures exists c :: c in s.sweeps[k] && c.id == i && c.orderId == r.orderId
  {
    CallsArePossible(s, op);
    StepIsCall(s, op);
    var b, after := s.db.books, Do(s.db.books, CallOf(s, op));
    RowsAfter(b, CallOf(s, op));
    MentionedBefore(b, CallOf(s, op), s.sweeps[k], r);
    assert after.rows[i] == b.rows[i].(status := after.rows[i].status);
    var c :| c in s.sweeps[k] && c.id == i;
    var j :| 0 <= j < |s.sweeps[k]| && s.sweeps[k][j] == c;
    assert b.rows[i] == c.(status := b.rows[i].status);
  }

  lemma SnapshotsStayWhole(s: Sys, op: Op)
    requires SysInv(s) && Enabled(s, op) && SharedDeadlines(s.db.books.rows) && SnapshotsWhole(s) && BelowLimit(op)
    ensures SnapshotsWhole(Step(s, op))
  {
    var next := Step(s, op);
    var after := next.db.books;
    forall k, r, i | k in next.sweeps && r in next.sweeps[k] && 0 <= i < |after.rows|
                     && after.rows[i].orderId == r.orderId
                     && r.orderId in after.orders && after.orders[r.orderId].status.IsOpen()
      ensures exists c :: c in next.sweeps[k] && c.id == i
    {
      if op.Fetch? && op.sweep == k {
        FetchIsWhole(s, op, r, i);
      } else {
        if op.Visit? && op.sweep == k {
          GroupExact(s.sweeps[k], op.orderId);
        }
        CopyKept(s, op, k, r, i);
      }
    }
  }

  lemma WholeGroup(s: Sys, k: nat, o: string)
    requires SysInv(s) && SnapshotsWhole(s) && k in s.sweeps && Group(s.sweeps[k], o) != []
    requires o in s.db.books.orders && s.db.books.orders[o].status.IsOpen()
    ensures Whole(s.db.books, o, Group(s.sweeps[k], o))
  {
    var b, batch := s.db.books, s.sweeps[k];
    GroupExact(batch, o);
    var first := Group(batch, o)[0];
    assert first in batch && first.orderId == o;
    forall i | 0 <= i < |b.rows| && b.rows[i].orderId == o && b.rows[i].status == Active
      ensures b.rows[i] in Group(batch, o)
    {
      var x :| x in batch && x.id == i;
      var j :| 0 <= j < |batch| && batch[j] == x;
      assert b.rows[i] == x.(status := b.rows[i].status);
    }
  }

  lemma SweepOrderExists(b: Books, o: string, g: seq<Reservation>)
    requires Inv(b) && Possible(b, Sweep(o, g))
    ensures o in b.orders
  {
    assert b.rows[g[0].id] == g[0].(status := b.rows[g[0].id].status);
  }

  lemma WholeVisit(s: Sys, op: Op)
    requires SysInv(s) && Enabled(s, op) && SnapshotsWhole(s)
    ensures !Occurs(SplitsOrder, s.db.books, CallOf(s, op))
  {
    if op.Visit? && !op.fault {
      var k, o := op.sweep, op.orderId;
      CallsArePossible(s, op);
      if Sweepable(s.db.books.orders, o) {
        SweepOrderExists(s.db.books, o, Group(s.sweeps[k], o));
        WholeGroup(s, k, o);
      }
    }
  }

  // If no fetch of a run reaches its limit, no order is ever split: all rows of an order share one
  // status throughout, and the only way left to strand stock is a status update to Cancelled.
  lemma {:induction false} BelowLimitKeepsOrdersWhole(s: Sys, ops: seq<Op>)
    requires SysInv(s) && Legal(s, ops) && SharedDeadlines(s.db.books.rows) && SnapshotsWhole(s)
    requires forall j :: 0 <= j < |ops| ==> BelowLimit(ops[j])
    ensures Never(SplitsOrder, s, ops)
    ensures Uniform(s.db.books) ==> Uniform(Exec(s, ops).db.books)
    ensures Never(StrandsStock, s, ops) <==> Never(StrandsByUpdate, s, ops)
    decreases ops
  {
    if ops != [] {
      var op, next := ops[0], Step(s, ops[0]);
      CallsArePossible(s, op);
      StepIsCall(s, op);
      WholeVisit(s, op);
      NoSplitKeepsUniform(s.db.books, CallOf(s, op));
      DeadlinesKept(s.db.books, CallOf(s, op));
      SnapshotsStayWhole(s, op);
      StepKeepsInv(s, op);
      BelowLimitKeepsOrdersWhole(next, ops[1..]);
    }
  }

  lemma NoSplitKeepsUniform(b: Books, c: Call)
    requires Inv(b) && Possible(b, c)
    ensures Uniform(b) && !Occurs(SplitsOrder, b, c) ==> Uniform(Do(b, c))
  {
    if Uniform(b) {
      SplitExact(b, c);
    }
  }

  // ------------------------------------------------------------------ prices

  // Every stored final price is at most the total, and it is non-negative unless the order used a
  // percentage coupon above one hundred on a non-zero total.
  lemma FinalPriceBounds(s: Sys, o: string)
    requires SysInv(s) && o in s.db.books.orders
    ensures var order := s.db.books.orders[o];
            && order.finalPrice <= order.totalPrice
            && (0.0 <= order.finalPrice <==>
                  || order.couponCode == ""
                  || !s.db.coupons[order.couponCode].discountType.Percentage?
                  || s.db.coupons[order.couponCode].discountValue <= 100.0
                  || order.totalPrice == 0.0)
  {
    var order := s.db.books.orders[o];
    if order.couponCode != "" {
      DiscountBounds(s.db.coupons[order.couponCode], order.totalPrice);
    }
  }

  // The final price of an order from its total and its coupon. A fixed coupon takes its value off, but no
  // more than the total; a percentage coupon takes that part of the total off.
  lemma PricedExact(coupons: Coupons, order: Order)
    requires WellPriced(coupons, order)
    ensures order.totalPrice == SumPrices(order.lines) && order.finalPrice == order.totalPrice - order.discountAmount
    ensures order.couponCode == "" ==> order.finalPrice == order.totalPrice
    ensures order.couponCode != "" ==>
              var c := coupons[order.couponCode];
              && (c.discountType == Fixed ==>
                    order.finalPrice == if order.totalPrice < c.discountValue then 0.0
                                        else order.totalPrice - c.discountValue)
              && (c.discountType == Percentage ==>
                    order.discountAmount == order.totalPrice * c.discountValue / 100.0)
  {
  }

  // ------------------------------------------------------------------ webhook deliveries

  // The run without the deliveries whose event was seen before.
  function Deduped(seen: set<EventKey>, ops: seq<Op>): seq<Op>
    decreases ops
  {
    if ops == [] then []
    else if !ops[0].Webhook? then [ops[0]] + Deduped(seen, ops[1..])
    else
      var key := EventKey(PROVIDER, ops[0].event.id);
      if key in seen then Deduped(seen, ops[1..])
      else [ops[0]] + Deduped(seen + {key}, ops[1..])
  }

  lemma EventsAfter(s: Sys, op: Op)
    ensures Step(s, op).db.events == s.db.events + if op.Webhook? then {EventKey(PROVIDER, op.event.id)} else {}
    ensures op.Webhook? && EventKey(PROVIDER, op.event.id) in s.db.events ==> Step(s, op) == s
  {
  }

  lemma DedupedHead(seen: set<EventKey>, next: set<EventKey>, ops: seq<Op>)
    requires ops != []
    requires next == seen + if ops[0].Webhook? then {EventKey(PROVIDER, ops[0].event.id)} else {}
    ensures ops[0].Webhook? && EventKey(PROVIDER, ops[0].event.id) in seen ==>
              Deduped(seen, ops) == Deduped(seen, ops[1..])
    ensures !(ops[0].Webhook? && EventKey(PROVIDER, ops[0].event.id) in seen) ==>
              Deduped(seen, ops) == [ops[0]] + Deduped(next, ops[1..])
  {
    if !ops[0].Webhook? {
      assert next == seen;
    }
  }

  lemma RunCons(s: Sys, op: Op, rest: seq<Op>)
    ensures Exec(s, [op] + rest) == Exec(Step(s, op), rest)
    ensures Legal(s, [op] + rest) <==> Enabled(s, op) && Legal(Step(s, op), rest)
  {
    assert ([op] + rest)[1..] == rest;
  }

  // Leaving out every repeated delivery changes neither the legality of a run nor its final state,
  // also when the first delivery ended in an error after it was recorded.
  lemma {:induction false} RepeatsHaveNoEffect(s: Sys, ops: seq<Op>)
    ensures Exec(s, Deduped(s.db.events, ops)) == Exec(s, ops)
    ensures Legal(s, Deduped(s.db.events, ops)) <==> Legal(s, ops)
    decreases ops
  {
    if ops != [] {
      EventsAfter(s, ops[0]);
      RepeatsHaveNoEffect(Step(s, ops[0]), ops[1..]);
      DedupedHead(s.db.events, Step(s, ops[0]).db.events, ops);
      RunCons(s, ops[0], Deduped(Step(s, ops[0]).db.events, ops[1..]));
    }
  }

  // No event is handled twice: the kept deliveries carry distinct keys, none of them seen before.
  ghost predicate Fresh(seen: set<EventKey>, d: seq<Op>) {
    && (forall i :: 0 <= i < |d| && d[i].Webhook? ==> EventKey(PROVIDER, d[i].event.id) !in seen)
    && (forall i, j :: 0 <= i < j < |d| && d[i].Webhook? && d[j].Webhook? ==> d[i].event.id != d[j].event.id)
  }

  lemma {:induction false} DedupedAreFresh(seen: set<EventKey>, ops: seq<Op>)
    ensures Fresh(seen, Deduped(seen, ops))
    decreases ops
  {
    if ops != [] {
      if !ops[0].Webhook? {
        DedupedAreFresh(seen, ops[1..]);
        FreshCons(seen, seen, ops[0], Deduped(seen, ops[1..]));
      } else {
        var key := EventKey(PROVIDER, ops[0].event.id);
        if key in seen {
          DedupedAreFresh(seen, ops[1..]);
        } else {
          DedupedAreFresh(seen + {key}, ops[1..]);
          FreshCons(seen, seen + {key}, ops[0], Deduped(seen + {key}, ops[1..]));
        }
      }
    }
  }

  lemma FreshCons(seen: set<EventKey>, more: set<EventKey>, op: Op, rest: seq<Op>)
    requires Fresh(more, rest) && seen <= more
    requires op.Webhook? ==> EventKey(PROVIDER, op.event.id) !in seen && EventKey(PROVIDER, op.event.id) in more
    ensures Fresh(seen, [op] + rest)
  {
    var d := [op] + rest;
    assert forall i :: 0 < i < |d| ==> d[i] == rest[i - 1];
  }

  // A first success event marks the payment succeeded in any case, but the order becomes paid exactly
  // when it is not cancelled and not in PaymentFailed. In the remaining cases the error is reported
  // once and every redelivery is a silent no-op.
  lemma SuccessEventExact(s: Sys, ev: Event)
    requires SysInv(s) && ev.kind == IntentSucceeded && EventKey(PROVIDER, ev.id) !in s.db.events
    requires ev.orderId != "" && ev.orderId in s.db.payments && ev.orderId in s.db.books.orders
    ensures var after := Step(s, Webhook(ev)); var status := s.db.books.orders[ev.orderId].status;
            && after.db.payments[ev.orderId].status == Succeeded
            && ev.orderId in after.db.books.orders
            && (after.db.books.orders[ev.orderId].status == Paid <==> status !in {Cancelled, PaymentFailed})
            && (HandleWebhook(s.db, ev).1.Some? <==> status in {Cancelled, PaymentFailed})
            && Step(after, Webhook(ev)) == after
            && HandleWebhook(after.db, ev).1 == None
  {
    PayOutcome(s.db.books, ev.orderId);
    StatusMove(s.db.books, Pay(ev.orderId), ev.orderId);
  }

  // ------------------------------------------------------------------ payments over runs

  // A payment belongs to a stored order and asks for the order's final price in cents, cut to an integer.
  predicate PaymentAgrees(db: Db, o: string) {
    o in db.payments ==>
      o in db.books.orders && db.payments[o].amount == Truncated(db.books.orders[o].finalPrice * 100.0)
  }

  ghost predicate PaymentsAgree(db: Db) {
    forall o :: PaymentAgrees(db, o)
  }

  // A step adds a payment for a stored order at its final price, or changes no more than a status.
  lemma PaymentsAfter(db: Db, op: Op, s: Sys, o: string)
    requires s.db == db && o in Step(s, op).db.payments
    ensures o !in db.payments ==>
              o in db.books.orders
              && Step(s, op).db.payments[o].amount == Truncated(db.books.orders[o].finalPrice * 100.0)
    ensures o in db.payments ==>
              Step(s, op).db.payments[o] == db.payments[o].(status := Step(s, op).db.payments[o].status)
  {
    if !op.CreatePayment? && !op.Webhook? {
      OthersLeavePayments(s, op);
    }
  }

  lemma OthersLeavePayments(s: Sys, op: Op)
    requires !op.CreatePayment? && !op.Webhook?
    ensures Step(s, op).db.payments == s.db.payments
  {
  }

  lemma FinalPriceKept(s: Sys, op: Op, o: string)
    requires SysInv(s) && Enabled(s, op) && o in s.db.books.orders
    ensures o in Step(s, op).db.books.orders
    ensures Step(s, op).db.books.orders[o].finalPrice == s.db.books.orders[o].finalPrice
  {
    CallsArePossible(s, op);
    StepIsCall(s, op);
    StatusMove(s.db.books, CallOf(s, op), o);
  }

  lemma StepKeepsPayment(s: Sys, op: Op, o: string)
    requires SysInv(s) && Enabled(s, op) && PaymentAgrees(s.db, o)
    ensures PaymentAgrees(Step(s, op).db, o)
  {
    if o in Step(s, op).db.payments {
      PaymentsAfter(s.db, op, s, o);
    }
    if o in s.db.books.orders {
      FinalPriceKept(s, op, o);
    }
    AgreesLater(s.db, Step(s, op).db, o);
  }

  lemma AgreesLater(a: Db, b: Db, o: string)
    requires PaymentAgrees(a, o)
    requires o in b.payments && o !in a.payments ==>
               o in a.books.orders && b.payments[o].amount == Truncated(a.books.orders[o].finalPrice * 100.0)
    requires o in b.payments && o in a.payments ==> b.payments[o].amount == a.payments[o].amount
    requires o in a.books.orders ==>
               o in b.books.orders && b.books.orders[o].finalPrice == a.books.orders[o].finalPrice
    ensures PaymentAgrees(b, o)
  {
  }

  lemma {:induction false} RunsKeepPayments(s: Sys, ops: seq<Op>)
    requires SysInv(s) && Legal(s, ops) && PaymentsAgree(s.db)
    ensures PaymentsAgree(Exec(s, ops).db)
    decreases ops
  {
    if ops != [] {
      forall o ensures PaymentAgrees(Step(s, ops[0]).db, o) {
        StepKeepsPayment(s, ops[0], o);
      }
      StepKeepsInv(s, ops[0]);
      RunsKeepPayments(Step(s, ops[0]), ops[1..]);
    }
  }

  // ------------------------------------------------------------------ from the empty shop

  const EMPTY_SHOP := Sys(Db(Books(map[], map[], []), map[], map[], {}), map[])

  lemma EmptyShopIsFine(s: Sys)
    requires s == EMPTY_SHOP
    ensures SysInv(s) && PaymentsAgree(s.db) && s.db.books.orders == map[]
    ensures forall p :: Supplied(s.db.books, p) == 0
  {
    assert s.db.books.rows == [];
  }

  // Every state that the system reaches from an empty database: each counter is the sum of its active
  // rows, stays within the stock, and accounts with the sold units for all that came in.
  lemma ReachableLedger(s: Sys, ops: seq<Op>, p: string)
    requires s == EMPTY_SHOP && Legal(s, ops) && p in Exec(s, ops).db.books.products
    ensures var b := Exec(s, ops).db.books;
            && b.products[p].reserved == Held(b.rows, p, Active)
            && 0 <= b.products[p].reserved <= b.products[p].stock
            && b.products[p].stock + Held(b.rows, p, Committed) == TotalInflow(s, ops, p)
  {
    EmptyShopIsFine(s);
    RunsKeepInv(s, ops);
    RunsConserve(s, ops, p);
  }

  // In the same states coupons are counted within their limit, every stored price can be recomputed,
  // no order is stored in New, and each payment asks for the final price of its order.
  lemma ReachableOrders(s: Sys, ops: seq<Op>, o: string)
    requires s == EMPTY_SHOP && Legal(s, ops) && o in Exec(s, ops).db.books.orders
    ensures var db := Exec(s, ops).db; var order := db.books.orders[o];
            && WellPriced(db.coupons, order) && order.status != New
            && (o in db.payments ==> db.payments[o].amount == Truncated(order.finalPrice * 100.0))
            && (order.couponCode != "" ==>
                  && order.couponCode in db.coupons
                  && db.coupons[order.couponCode].usedCount == |Carriers(db.books.orders, order.couponCode)|
                  && (db.coupons[order.couponCode].maxUsage > 0 ==>
                        db.coupons[order.couponCode].usedCount <= db.coupons[order.couponCode].maxUsage))
  {
    ReachableState(s, ops);
    OrderInState(Exec(s, ops), o);
  }

  lemma ReachableState(s: Sys, ops: seq<Op>)
    requires s == EMPTY_SHOP && Legal(s, ops)
    ensures SysInv(Exec(s, ops)) && PaymentsAgree(Exec(s, ops).db)
    ensures forall o :: o in Exec(s, ops).db.books.orders ==> Exec(s, ops).db.books.orders[o].status != New
  {
    EmptyShopIsFine(s);
    RunsKeepInv(s, ops);
    NewIsNeverStored(s, ops);
    RunsKeepPayments(s, ops);
  }

  lemma OrderInState(t: Sys, o: string)
    requires SysInv(t) && PaymentsAgree(t.db) && o in t.db.books.orders
    ensures var db := t.db; var order := db.books.orders[o];
            && WellPriced(db.coupons, order)
            && (o in db.payments ==> db.payments[o].amount == Truncated(order.finalPrice * 100.0))
            && (order.couponCode != "" ==>
                  && order.couponCode in db.coupons
                  && db.coupons[order.couponCode].usedCount == |Carriers(db.books.orders, order.couponCode)|
                  && (db.coupons[order.couponCode].maxUsage > 0 ==>
                        db.coupons[order.couponCode].usedCount <= db.coupons[order.couponCode].maxUsage))
  {
    assert PaymentAgrees(t.db, o);
  }

  // The amounts of every order that a run from the empty database stores.
  lemma ReachablePrices(s: Sys, ops: seq<Op>, o: string)
    requires s == EMPTY_SHOP && Legal(s, ops) && o in Exec(s, ops).db.books.orders
    ensures var coupons, order := Exec(s, ops).db.coupons, Exec(s, ops).db.books.orders[o];
            && order.finalPrice == order.totalPrice - order.discountAmount
            && (order.couponCode == "" ==> order.finalPrice == order.totalPrice)
            && (order.couponCode != "" ==>
                  && order.couponCode in coupons
                  && var c := coupons[order.couponCode];
                     && (c.discountType == Fixed ==>
                           order.finalPrice == if order.totalPrice < c.discountValue then 0.0
                                               else order.totalPrice - c.discountValue)
                     && (c.discountType == Percentage ==>
                           order.discountAmount == order.totalPrice * c.discountValue / 100.0))
  {
    ReachableOrders(s, ops, o);
    PricedExact(Exec(s, ops).db.coupons, Exec(s, ops).db.books.orders[o]);
  }
}
