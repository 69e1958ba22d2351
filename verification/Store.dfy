/**
 The store as one mutable object: its tables are fields, and the service methods change them row by row
 with the loops, guards and transactions of the services. Each method is proved against the one-shot
 effect that BookKeeping.dfy, Database.dfy and Sweeping.dfy give for it.
 */
module Store {
  import opened Common
  import opened OrderStatuses
  import opened Counters
  import opened Reservations
  import opened BookKeeping
  import opened Coupons
  import opened Sweeping
  import D = Database
  import Outcomes

  class Shop {
    var products: Products
    var orders: Orders
    var rows: Rows
    var coupons: Coupons
    var payments: D.Payments
    var events: set<D.EventKey>

    constructor ()
      ensures View() == D.Db(Books(map[], map[], []), map[], map[], {})
    {
      products, orders, rows := map[], map[], [];
      coupons, payments, events := map[], map[], {};
    }

    function Ledgers(): Books
      reads this
    {
      Books(products, orders, rows)
    }

    function View(): D.Db
      reads this
    {
      D.Db(Ledgers(), coupons, payments, events)
    }

    // A transaction that returns an error leaves the store as it was when it began.
    method Rollback(begun: D.Db)
      modifies this
      ensures View() == begun
    {
      products, orders, rows := begun.books.products, begun.books.orders, begun.books.rows;
      coupons, payments, events := begun.coupons, begun.payments, begun.events;
    }

    // ---------------------------------------------------------------- guarded counter updates

    method ReserveStock(id: string, qty: nat) returns (affected: bool)
      modifies this`products
      ensures affected <==> id in old(products) && old(products)[id].stock - old(products)[id].reserved >= qty
      ensures affected == Affects(Reserve, old(products), id, qty)
      ensures affected ==> products == old(products)[id := old(products)[id].(reserved := old(products)[id].reserved + qty)]
      ensures products == if affected then old(products)[id := Moved(Reserve, old(products)[id], qty)] else old(products)
    {
      affected := id in products && products[id].stock - products[id].reserved >= qty;
      if affected {
        products := products[id := products[id].(reserved := products[id].reserved + qty)];
      }
    }

    method CommitReservation(id: string, qty: nat) returns (affected: bool)
      modifies this`products
      ensures affected <==> id in old(products) && old(products)[id].reserved >= qty && old(products)[id].stock >= qty
      ensures affected == Affects(Commit, old(products), id, qty)
      ensures affected ==>
                var p := old(products)[id];
                products == old(products)[id := Product(p.price, p.stock - qty, p.reserved - qty)]
      ensures products == if affected then old(products)[id := Moved(Commit, old(products)[id], qty)] else old(products)
    {
      affected := id in products && products[id].reserved >= qty && products[id].stock >= qty;
      if affected {
        products := products[id := products[id].(stock := products[id].stock - qty, reserved := products[id].reserved - qty)];
      }
    }

    method ReleaseReservation(id: string, qty: nat) returns (affected: bool)
      modifies this`products
      ensures affected <==> id in old(products) && old(products)[id].reserved >= qty
      ensures affected == Affects(Release, old(products), id, qty)
      ensures affected ==> products == old(products)[id := old(products)[id].(reserved := old(products)[id].reserved - qty)]
      ensures products == if affected then old(products)[id := Moved(Release, old(products)[id], qty)] else old(products)
    {
      affected := id in products && products[id].reserved >= qty;
      if affected {
        products := products[id := products[id].(reserved := products[id].reserved - qty)];
      }
    }

    method DecrementStock(id: string, qty: nat) returns (affected: bool)
      modifies this`products
      ensures affected <==> id in old(products) && old(products)[id].stock - old(products)[id].reserved >= qty
      ensures affected == Affects(Decrement, old(products), id, qty)
      ensures products == if affected then old(products)[id := old(products)[id].(stock := old(products)[id].stock - qty)]
                          else old(products)
      ensures products == BookKeeping.DecrementStock(old(products), id, qty)
    {
      affected := id in products && products[id].stock - products[id].reserved >= qty;
      if affected {
        products := products[id := products[id].(stock := products[id].stock - qty)];
      }
    }

    method AddStock(id: string, qty: int) returns (reply: Result<Product>)
      modifies this`products
      ensures products == BookKeeping.AddStock(old(products), id, qty)
      ensures products == if qty > 0 && id in old(products)
                          then old(products)[id := old(products)[id].(stock := old(products)[id].stock + qty)]
                          else old(products)
      ensures reply == if qty <= 0 then Err(ValidationFailed) else if id !in old(products) then Err(RecordNotFound)
                       else Ok(products[id])
    {
      if qty <= 0 {
        return Err(ValidationFailed);
      }
      if id !in products {
        return Err(RecordNotFound);
      }
      products := products[id := products[id].(stock := products[id].stock + qty)];
      return Ok(products[id]);
    }

    // The admin edit saves a new stock figure; the CHECK constraints may refuse the row.
    method EditStock(id: string, stock: int) returns (saved: bool)
      modifies this`products
      ensures saved <==> id in old(products) && 0 <= stock && old(products)[id].reserved <= stock
      ensures products == BookKeeping.EditStock(old(products), id, stock)
      ensures products == if saved then old(products)[id := old(products)[id].(stock := stock)] else old(products)
    {
      saved := id in products && stock >= 0 && products[id].reserved <= stock;
      if saved {
        products := products[id := products[id].(stock := stock)];
      }
    }

    // A product starts without reservations. The id is fresh unless the insert fails on the primary key.
    method CreateProduct(id: string, price: real, stock: int) returns (created: bool)
      modifies this`products
      ensures created <==> price > 0.0 && stock >= 0 && id !in old(products)
      ensures products == AddProduct(old(products), id, price, stock)
      ensures products == if created then old(products)[id := Product(price, stock, 0)] else old(products)
    {
      created := price > 0.0 && stock >= 0 && id !in products;
      if created {
        products := products[id := Product(price, stock, 0)];
      }
    }

    // ---------------------------------------------------------------- reservation rows

    method CreateMany(items: seq<Reservation>)
      modifies this`rows
      ensures rows == old(rows) + items
    {
      rows := rows + items;
    }

    method SetRowStatus(ids: seq<nat>, st: ReservationStatus)
      modifies this`rows
      ensures rows == WithStatus(old(rows), ids, st)
    {
      if |ids| == 0 {
        assert WithStatus(rows, ids, st) == rows;
        return;
      }
      rows := WithStatus(rows, ids, st);
    }

    // Any answer to the expiry query will do; this one takes the first rows that qualify.
    method FindExpired(now: int, limit: nat) returns (batch: seq<Reservation>)
      requires Numbered(rows)
      ensures IsExpiredBatch(rows, now, limit, batch)
      ensures forall r :: r in batch ==> r in rows && r.status == Active && r.expiresAt < now
      ensures |batch| <= limit
      ensures |batch| < limit ==> forall r :: r in rows && r.status == Active && r.expiresAt < now ==> r in batch
    {
      batch := [];
      var i := 0;
      while i < |rows| && |batch| < limit
        invariant 0 <= i <= |rows| && |batch| <= limit
        invariant Picks(rows, batch) && AllActive(batch)
        invariant forall j :: 0 <= j < |batch| ==> batch[j].expiresAt < now && batch[j].id < i
        invariant forall j :: 0 <= j < i && rows[j].status == Active && rows[j].expiresAt < now ==> rows[j] in batch
      {
        if rows[i].status == Active && rows[i].expiresAt < now {
          batch := batch + [rows[i]];
        }
        i := i + 1;
      }
    }

    // ---------------------------------------------------------------- orders and coupons

    method UpdateOrder(id: string, order: Order)
      modifies this`orders
      ensures orders == old(orders)[id := order]
    {
      orders := orders[id := order];
    }

    // The row is inserted in New; its caller moves it on before the transaction ends.
    method CreateOrder(newId: string, userId: string, lines: seq<OrderLine>, couponCode: string, discount: real)
      returns (order: Order)
      modifies this`orders
      ensures order == Order(userId, lines, D.SumPrices(lines), discount, D.SumPrices(lines) - discount, couponCode, New)
      ensures orders == old(orders)[newId := order]
    {
      var total := 0.0;
      for i := 0 to |lines|
        invariant total == D.SumPrices(lines[..i])
        invariant orders == old(orders)
      {
        assert lines[..i + 1][..i] == lines[..i];
        total := total + lines[i].price;
      }
      assert lines[..|lines|] == lines;
      order := Order(userId, lines, total, discount, total - discount, couponCode, New);
      orders := orders[newId := order];
    }

    method CreateCoupon(code: string, c: Coupon) returns (created: bool)
      modifies this`coupons
      ensures created <==>
                && code != "" && code !in old(coupons)
                && (c.discountType == Fixed || c.discountType == Percentage) && c.discountValue > 0.0
                && c.minOrderAmount >= 0.0 && c.maxUsage >= 0 && c.usedCount == 0
      ensures coupons == Create(old(coupons), code, c)
      ensures coupons == if created then old(coupons)[code := c] else old(coupons)
    {
      created := Creatable(code, c) && code !in coupons;
      if created {
        coupons := coupons[code := c];
      }
    }

    method ApplyCoupon(code: string, total: real, now: int) returns (reply: Result<real>)
      ensures reply == Apply(coupons, code, total, now)
    {
      if code !in coupons {
        return Err(CouponNotFound);
      }
      var c := coupons[code];
      if c.expiresAt.Some? && c.expiresAt.value < now {
        return Err(CouponExpired);
      }
      if c.maxUsage > 0 && c.usedCount >= c.maxUsage {
        return Err(CouponMaxUsage);
      }
      if total < c.minOrderAmount {
        return Err(CouponMinOrder);
      }
      var discount := 0.0;
      match c.discountType {
        case Fixed =>
          discount := c.discountValue;
          if discount > total {
            discount := total;
          }
        case Percentage =>
          discount := total * c.discountValue / 100.0;
          assert discount == Discount(c, total);
        case OtherDiscount(_) =>
      }
      return Ok(discount);
    }

    method CountUse(code: string)
      modifies this`coupons
      ensures coupons == IncrUsedCount(old(coupons), code)
      ensures coupons == if code !in old(coupons) then old(coupons)
                         else old(coupons)[code := old(coupons)[code].(usedCount := old(coupons)[code].usedCount + 1)]
    {
      if code in coupons {
        coupons := coupons[code := coupons[code].(usedCount := coupons[code].usedCount + 1)];
      }
    }

    // ---------------------------------------------------------------- placing an order

    // The first loops of PlaceOrder: each line looks up its product and takes its price.
    method PriceLines(req: seq<Demand>) returns (reply: Result<seq<OrderLine>>)
      ensures reply.Ok? <==> D.AllKnown(products, req)
      ensures reply.Ok? ==> reply.value == D.Priced(products, req)
      ensures reply.Err? ==> reply.error == RecordNotFound
    {
      var lines := [];
      for i := 0 to |req|
        invariant D.AllKnown(products, req[..i])
        invariant lines == D.Priced(products, req[..i])
      {
        if req[i].productId !in products {
          return Err(RecordNotFound);
        }
        assert req[..i + 1][..i] == req[..i];
        lines := lines + [D.PricedLine(products, req[i])];
      }
      assert req[..|req|] == req;
      return Ok(lines);
    }

    method Total(lines: seq<OrderLine>) returns (total: real)
      ensures total == D.SumPrices(lines)
    {
      total := 0.0;
      for i := 0 to |lines|
        invariant total == D.SumPrices(lines[..i])
      {
        assert lines[..i + 1][..i] == lines[..i];
        total := total + lines[i].price;
      }
      assert lines[..|lines|] == lines;
    }

    // The reservation loop. It stops at the first line that the remaining stock cannot cover.
    method ReserveLines(orderId: string, ds: seq<Demand>, expiresAt: int)
      returns (refused: Option<nat>, reservations: seq<Reservation>)
      modifies this`products
      ensures refused.None? <==> Coverable(Reserve, old(products), ds)
      ensures refused.None? ==>
                && products == AllMoved(Reserve, old(products), ds)
                && reservations == NewRows(|rows|, orderId, ds, expiresAt)
      ensures refused.Some? ==> refused.value < |ds| && refused.value == FirstRefused(Reserve, old(products), ds)
    {
      reservations := [];
      var i := 0;
      MovedByNone(Reserve, products);
      while i < |ds|
        invariant 0 <= i <= |ds|
        invariant Coverable(Reserve, old(products), ds[..i])
        invariant products == AllMoved(Reserve, old(products), ds[..i])
        invariant reservations == NewRows(|rows|, orderId, ds[..i], expiresAt)
      {
        var affected := ReserveStock(ds[i].productId, ds[i].quantity);
        CoverStep(Reserve, old(products), ds, i);
        if !affected {
          RefusedAt(Reserve, old(products), ds, i);
          return Some(i), reservations;
        }
        reservations := reservations
          + [Reservation(|rows| + i, orderId, ds[i].productId, ds[i].quantity, Active, expiresAt)];
        i := i + 1;
      }
      assert ds[..i] == ds;
      refused := None;
    }

    // Everything before the transaction.
    method PrepareOrder(req: D.PlaceReq, now: int) returns (reply: Result<Order>)
      ensures reply == D.Quote(View(), req, now)
    {
      if !D.ValidRequest(req) {
        return Err(ValidationFailed);
      }
      var priced := PriceLines(req.lines);
      if priced.Err? {
        return Err(priced.error);
      }
      var total := Total(priced.value);
      var discount := 0.0;
      if req.couponCode != "" {
        var applied := ApplyCoupon(req.couponCode, total, now);
        if applied.Err? {
          return Err(applied.error);
        }
        discount := applied.value;
      }
      return Ok(Order(req.userId, priced.value, total, discount, total - discount, req.couponCode, PendingPayment));
    }

    // The order row is created and moved on from New at once.
    method InsertPending(newId: string, quoted: Order)
      requires quoted.totalPrice == D.SumPrices(quoted.lines)
      requires quoted.finalPrice == quoted.totalPrice - quoted.discountAmount && quoted.status == PendingPayment
      modifies this`orders
      ensures orders == old(orders)[newId := quoted]
    {
      var order := CreateOrder(newId, quoted.userId, quoted.lines, quoted.couponCode, quoted.discountAmount);
      order := order.(status := PendingPayment);
      UpdateOrder(newId, order);
    }

    // The transaction: order row, reservations and coupon use together, or nothing.
    method StoreOrder(newId: string, quoted: Order, ds: seq<Demand>, expiresAt: int) returns (refused: Option<nat>)
      requires quoted.totalPrice == D.SumPrices(quoted.lines)
      requires quoted.finalPrice == quoted.totalPrice - quoted.discountAmount && quoted.status == PendingPayment
      modifies this
      ensures payments == old(payments) && events == old(events)
      ensures refused.None? <==> Coverable(Reserve, old(products), ds)
      ensures refused.None? ==>
                && Ledgers() == Accept(old(Ledgers()), newId, quoted, ds, expiresAt)
                && coupons == if quoted.couponCode == "" then old(coupons) else IncrUsedCount(old(coupons), quoted.couponCode)
      ensures refused.Some? ==> refused.value == FirstRefused(Reserve, old(products), ds) && View() == old(View())
    {
      var begun := View();
      InsertPending(newId, quoted);
      var reservations;
      refused, reservations := ReserveLines(newId, ds, expiresAt);
      if refused.Some? {
        Rollback(begun);
        return;
      }
      CreateMany(reservations);
      if quoted.couponCode != "" {
        CountUse(quoted.couponCode);
      }
    }

    method PlaceOrder(req: D.PlaceReq, newId: string, now: int) returns (reply: Result<Order>)
      modifies this
      ensures View() == D.PlaceOrder(old(View()), req, newId, now).db
      ensures reply == D.PlaceOrder(old(View()), req, newId, now).reply
    {
      reply := PrepareOrder(req, now);
      if reply.Err? {
        return;
      }
      var ds := req.lines;
      var refused := StoreOrder(newId, reply.value, ds, now + D.RESERVATION_TTL);
      if refused.Some? {
        return Err(InsufficientStock(ds[refused.value].productId, ds[refused.value].quantity));
      }
    }

    // ---------------------------------------------------------------- settling an order

    method MarkOrderPaid(orderId: string) returns (reply: Result<Order>)
      modifies this
      ensures Ledgers() == MarkPaid(old(Ledgers()), orderId).books
      ensures reply == MarkPaid(old(Ledgers()), orderId).reply
      ensures coupons == old(coupons) && payments == old(payments) && events == old(events)
    {
      if orderId !in orders {
        return Err(RecordNotFound);
      }
      var order := orders[orderId];
      if order.status == Paid {
        return Ok(order);
      }
      if order.status == Cancelled || order.status == PaymentFailed {
        return Err(InvalidStatus);
      }
      var begun := View();
      var reservations := FindActive(rows, orderId);
      ghost var ds := DemandsOf(reservations);
      var i := 0;
      MovedByNone(Commit, products);
      while i < |reservations|
        invariant 0 <= i <= |reservations|
        invariant Coverable(Commit, begun.books.products, ds[..i])
        invariant products == AllMoved(Commit, begun.books.products, ds[..i])
        invariant View() == begun.(books := begun.books.(products := products))
      {
        var affected := CommitReservation(reservations[i].productId, reservations[i].quantity);
        CoverStep(Commit, begun.books.products, ds, i);
        if !affected {
          RefusedAt(Commit, begun.books.products, ds, i);
          Rollback(begun);
          return Err(RowNotInExpectedState);
        }
        i := i + 1;
      }
      assert ds[..i] == ds;
      SetRowStatus(Ids(reservations), Committed);
      order := order.(status := Paid);
      UpdateOrder(orderId, order);
      return Ok(order);
    }

    method CancelOrder(orderId: string, userId: string) returns (reply: Result<Order>)
      modifies this
      ensures Ledgers() == Cancel(old(Ledgers()), orderId, userId).books
      ensures reply == Cancel(old(Ledgers()), orderId, userId).reply
      ensures coupons == old(coupons) && payments == old(payments) && events == old(events)
    {
      if orderId !in orders {
        return Err(RecordNotFound);
      }
      var order := orders[orderId];
      if userId != order.userId {
        return Err(Forbidden);
      }
      if order.status == Done || order.status == Cancelled || order.status == Paid {
        return Err(InvalidStatus);
      }
      var begun := View();
      var released := ReleaseActiveReservations(orderId);
      if !released {
        Rollback(begun);
        return Err(ReservationAlreadyReleased);
      }
      order := order.(status := Cancelled);
      UpdateOrder(orderId, order);
      return Ok(order);
    }

    method ReleaseActiveReservations(orderId: string) returns (released: bool)
      modifies this`products, this`rows
      ensures var g := FindActive(old(rows), orderId);
              && released == Coverable(Release, old(products), DemandsOf(g))
              && (released ==> Ledgers() == Settle(old(Ledgers()), Release, g, Released))
    {
      var reservations := FindActive(rows, orderId);
      ghost var ds := DemandsOf(reservations);
      var i := 0;
      MovedByNone(Release, products);
      while i < |reservations|
        invariant 0 <= i <= |reservations| && rows == old(rows)
        invariant Coverable(Release, old(products), ds[..i])
        invariant products == AllMoved(Release, old(products), ds[..i])
      {
        var affected := ReleaseReservation(reservations[i].productId, reservations[i].quantity);
        CoverStep(Release, old(products), ds, i);
        if !affected {
          RefusedAt(Release, old(products), ds, i);
          return false;
        }
        i := i + 1;
      }
      assert ds[..i] == ds;
      SetRowStatus(Ids(reservations), Released);
      released := true;
    }

    method UpdateOrderStatus(orderId: string, status: OrderStatus) returns (reply: Result<Order>)
      modifies this`orders
      ensures Ledgers() == UpdateStatus(old(Ledgers()), orderId, status).books
      ensures reply == UpdateStatus(old(Ledgers()), orderId, status).reply
    {
      if orderId !in orders {
        return Err(RecordNotFound);
      }
      var order := orders[orderId];
      if !status.IsValid() {
        return Err(InvalidStatus);
      }
      if !order.status.CanTransitionTo(status) {
        return Err(InvalidStatus);
      }
      order := order.(status := status);
      UpdateOrder(orderId, order);
      return Ok(order);
    }

    // ---------------------------------------------------------------- the sweeper

    method GroupByOrder(batch: seq<Reservation>) returns (byOrder: map<string, seq<Reservation>>)
      ensures byOrder.Keys == OrdersOf(batch)
      ensures forall o :: o in byOrder ==> byOrder[o] == Group(batch, o)
    {
      byOrder := map[];
      for i := 0 to |batch|
        invariant byOrder.Keys == OrdersOf(batch[..i])
        invariant forall o :: o in byOrder ==> byOrder[o] == Group(batch[..i], o)
      {
        var r := batch[i];
        assert batch[..i + 1] == batch[..i] + [r];
        EmptyGroup(batch[..i], r.orderId);
        byOrder := byOrder[r.orderId := (if r.orderId in byOrder then byOrder[r.orderId] else []) + [r]];
      }
      assert batch[..|batch|] == batch;
    }

    lemma EmptyGroup(batch: seq<Reservation>, o: string)
      ensures o !in OrdersOf(batch) ==> Group(batch, o) == []
    {
      GroupExact(batch, o);
      if Group(batch, o) != [] {
        assert Group(batch, o)[0] in batch;
      }
    }

    // The transaction for one group. A drained counter is skipped, the row is released all the same.
    method SweepOne(orderId: string, group: seq<Reservation>)
      modifies this`products, this`orders, this`rows
      ensures Ledgers() == SweepGroup(old(Ledgers()), orderId, group)
    {
      var orderMissing := orderId !in orders;
      if !orderMissing && orders[orderId].status != PendingPayment && orders[orderId].status != New {
        return;
      }
      var i := 0;
      while i < |group|
        invariant 0 <= i <= |group| && rows == old(rows) && orders == old(orders)
        invariant products == Drain(old(products), DemandsOf(group)[..i])
      {
        var affected := ReleaseReservation(group[i].productId, group[i].quantity);
        assert DemandsOf(group)[..i + 1][..i] == DemandsOf(group)[..i];
        i := i + 1;
      }
      assert DemandsOf(group)[..i] == DemandsOf(group);
      SetRowStatus(Ids(group), Released);
      if orderMissing {
        return;
      }
      UpdateOrder(orderId, orders[orderId].(status := Cancelled));
    }

    // What a sweep that began with the given books has done once it has settled the visited orders.
    ghost predicate Swept(begun: Books, batch: seq<Reservation>, visited: set<string>)
      reads this
    {
      && rows == WithStatus(begun.rows, Ids(Reached(begun.orders, batch, visited)), Released)
      && orders == CancelSwept(begun.orders, visited)
      && (Consistent(begun) ==> Ledgers() == SweepDone(begun, batch, visited))
    }

    ghost predicate OnlyDrained(begun: Products)
      reads this
    {
      && products.Keys == begun.Keys
      && forall p :: p in products ==>
                       products[p].stock == begun[p].stock && products[p].reserved <= begun[p].reserved
    }

    method VisitOrder(o: string, group: seq<Reservation>, ghost begun: Books, ghost batch: seq<Reservation>,
                      ghost visited: set<string>)
      requires Swept(begun, batch, visited) && OnlyDrained(begun.products)
      requires group == Group(batch, o) && o !in visited
      requires Picks(begun.rows, batch) && AllActive(batch)
      modifies this`products, this`orders, this`rows
      ensures Swept(begun, batch, visited + {o}) && OnlyDrained(begun.products)
    {
      VisitRows(begun, batch, visited, o);
      VisitOrders(begun.orders, visited, o);
      DrainIsSafe(products, DemandsOf(group));
      if Consistent(begun) {
        VisitContinues(begun, batch, visited, o);
      }
      SweepOne(o, group);
    }

    lemma NothingSwept(batch: seq<Reservation>)
      ensures Swept(Ledgers(), batch, {}) && OnlyDrained(products)
    {
      SweepOfNone(Ledgers(), batch);
    }

    // Each order of the batch is still to come, has been visited, or failed.
    ghost predicate Tracks(keys: set<string>, remaining: set<string>, down: set<string>, visited: set<string>) {
      && remaining <= keys && visited <= keys
      && forall o :: o in keys ==> (o in visited <==> o !in remaining && o !in down)
    }

    lemma TracksAll(keys: set<string>, down: set<string>, visited: set<string>)
      requires Tracks(keys, {}, down, visited)
      ensures visited == keys - down
    {
    }

    // The groups are taken in no particular order: the loop may pick any order that is left.
    method VisitGroups(keys: set<string>, byOrder: map<string, seq<Reservation>>, down: set<string>, ghost batch: seq<Reservation>)
      returns (released: nat)
      requires Picks(rows, batch) && AllActive(batch)
      requires forall o :: o in keys ==> o in byOrder && byOrder[o] == Group(batch, o)
      modifies this`products, this`orders, this`rows
      ensures released == CountedRows(batch, keys - down)
      ensures Swept(old(Ledgers()), batch, keys - down) && OnlyDrained(old(products))
    {
      var remaining := keys;
      ghost var begun := Ledgers();
      ghost var visited: set<string> := {};
      released := 0;
      NothingSwept(batch);
      NoneCounted(batch);
      while remaining != {}
        invariant Tracks(keys, remaining, down, visited)
        invariant released == CountedRows(batch, visited)
        invariant Swept(begun, batch, visited) && OnlyDrained(begun.products)
        decreases |remaining|
      {
        var o :| o in remaining;
        remaining := remaining - {o};
        if o !in down {
          CountOfVisit(batch, visited, o);
          VisitOrder(o, byOrder[o], begun, batch, visited);
          released := released + |byOrder[o]|;
          visited := visited + {o};
        }
      }
      TracksAll(keys, down, visited);
    }

    // One sweep without interleaving. `down` are the orders whose transaction fails at the database and
    // is rolled back. Whatever order the groups are taken in, the outcome is a function of the fetched
    // batch; the counters follow the one-shot release whenever they agreed with the rows.
    method SweepExpiredReservations(now: int, batchSize: int, down: set<string>)
      returns (released: nat, ghost batch: seq<Reservation>)
      requires Numbered(rows)
      modifies this`products, this`orders, this`rows
      ensures IsExpiredBatch(old(rows), now, if batchSize <= 0 then 100 else batchSize, batch)
      ensures released == CountedRows(batch, OrdersOf(batch) - down)
      ensures Swept(old(Ledgers()), batch, OrdersOf(batch) - down) && OnlyDrained(old(products))
      ensures |batch| <= if batchSize <= 0 then 100 else batchSize
      ensures |rows| == |old(rows)|
      ensures forall i :: 0 <= i < |old(rows)| ==>
                var r, was := old(rows)[i], old(orders);
                rows[i] == if r in batch && r.orderId !in down
                              && (r.orderId !in was || was[r.orderId].status in {New, PendingPayment})
                           then r.(status := Released) else r
    {
      var limit := if batchSize <= 0 then 100 else batchSize;
      var expired := FindExpired(now, limit);
      batch := expired;
      var byOrder := GroupByOrder(expired);
      released := VisitGroups(byOrder.Keys, byOrder, down, expired);
      SweptRows(old(Ledgers()), batch, down);
    }

    // The rows after a sweep: a fetched row was released unless its transaction failed or its order was
    // passed over.
    lemma SweptRows(b: Books, batch: seq<Reservation>, down: set<string>)
      requires Numbered(b.rows) && Picks(b.rows, batch) && AllActive(batch)
      ensures var after := WithStatus(b.rows, Ids(Reached(b.orders, batch, OrdersOf(batch) - down)), Released);
              forall i :: 0 <= i < |b.rows| ==>
                var r := b.rows[i];
                after[i] == if r in batch && r.orderId !in down
                               && (r.orderId !in b.orders || b.orders[r.orderId].status in {New, PendingPayment})
                            then r.(status := Released) else r
    {
      forall i | 0 <= i < |b.rows| ensures b.rows[i] in batch ==> b.rows[i].orderId in OrdersOf(batch) {
      }
      forall i | 0 <= i < |b.rows| {
        Outcomes.SweptRow(b, batch, OrdersOf(batch) - down, i);
      }
    }

    lemma NoneCounted(batch: seq<Reservation>)
      ensures CountedRows(batch, {}) == 0
    {
    }

    // ---------------------------------------------------------------- payments

    method CreateIntentForOrder(orderId: string, intent: Option<string>) returns (failure: Option<Error>)
      modifies this`payments
      ensures View() == D.CreateIntent(old(View()), orderId, intent).0
      ensures failure == D.CreateIntent(old(View()), orderId, intent).1
    {
      if orderId !in orders {
        return Some(RecordNotFound);
      }
      if orders[orderId].status != PendingPayment {
        return Some(NotPendingPayment);
      }
      var existing := orderId in payments;
      var amount := D.Truncated(orders[orderId].finalPrice * 100.0);
      if intent.None? {
        return Some(ProviderFailure);
      }
      if !existing {
        payments := payments[orderId := D.Payment(D.PROVIDER, intent.value, amount, "usd", D.Pending)];
      }
      return None;
    }

    // False when the key was there already: the unique index refuses the insert.
    method RecordProviderEvent(key: D.EventKey) returns (inserted: bool)
      modifies this`events
      ensures inserted == (key !in old(events))
      ensures events == old(events) + {key}
    {
      inserted := key !in events;
      events := events + {key};
    }

    method UpdatePayment(orderId: string, status: D.PaymentStatus)
      requires orderId in payments
      modifies this`payments
      ensures payments == old(payments)[orderId := old(payments)[orderId].(status := status)]
    {
      payments := payments[orderId := payments[orderId].(status := status)];
    }

    method HandleWebhook(ev: D.Event) returns (failure: Option<Error>)
      modifies this
      ensures View() == D.HandleWebhook(old(View()), ev).0
      ensures failure == D.HandleWebhook(old(View()), ev).1
    {
      var inserted := RecordProviderEvent(D.EventKey(D.PROVIDER, ev.id));
      if !inserted {
        assert events == old(events);
        return None;
      }
      if ev.orderId == "" {
        return Some(MissingOrderId);
      }
      if ev.orderId !in payments {
        return Some(RecordNotFound);
      }
      match ev.kind {
        case IntentSucceeded =>
          UpdatePayment(ev.orderId, D.Succeeded);
          var reply := MarkOrderPaid(ev.orderId);
          failure := D.ErrorOf(reply);
        case IntentFailed =>
          UpdatePayment(ev.orderId, D.Failed);
          var reply := UpdateOrderStatus(ev.orderId, PaymentFailed);
          failure := D.ErrorOf(reply);
        case IntentCanceled =>
          UpdatePayment(ev.orderId, D.Canceled);
          var reply := UpdateOrderStatus(ev.orderId, Cancelled);
          failure := D.ErrorOf(reply);
        case IntentProcessing =>
          UpdatePayment(ev.orderId, D.Processing);
          failure := None;
        case IntentRequiresAction =>
          UpdatePayment(ev.orderId, D.RequiresAction);
          failure := None;
        case OtherEvent(_) =>
          failure := None;
      }
    }
  }
}
