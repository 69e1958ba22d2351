/**
 The three tables that the reservation protocol moves together: product counters, orders and
 reservation rows. Each service call is specified here by its whole effect at once; the class in
 Store.dfy performs it row by row.
 */
module BookKeeping {
  import opened Common
  import opened OrderStatuses
  import opened Counters
  import opened Reservations

  datatype OrderLine = OrderLine(productId: string, quantity: nat, price: real)

  datatype Order = Order(
    userId: string, lines: seq<OrderLine>, totalPrice: real, discountAmount: real, finalPrice: real,
    couponCode: string, status: OrderStatus)

  type Orders = map<string, Order>

  datatype Books = Books(products: Products, orders: Orders, rows: Rows)

  datatype Outcome = Outcome(books: Books, reply: Result<Order>)

  // ------------------------------------------------------------------ effects

  function Settle(b: Books, m: Move, g: seq<Reservation>, st: ReservationStatus): Books {
    b.(products := AllMoved(m, b.products, DemandsOf(g)), rows := WithStatus(b.rows, Ids(g), st))
  }

  function Mark(b: Books, orderId: string, st: OrderStatus): Books
    requires orderId in b.orders
  {
    b.(orders := b.orders[orderId := b.orders[orderId].(status := st)])
  }

  // The accepted order: its stock is reserved, its row stored and one active reservation per line added.
  function Accept(b: Books, newId: string, order: Order, ds: seq<Demand>, expiresAt: int): Books {
    Books(AllMoved(Reserve, b.products, ds),
          b.orders[newId := order],
          b.rows + NewRows(|b.rows|, newId, ds, expiresAt))
  }

  function MarkPaid(b: Books, orderId: string): Outcome {
    if orderId !in b.orders then Outcome(b, Err(RecordNotFound))
    else if b.orders[orderId].status == Paid then Outcome(b, Ok(b.orders[orderId]))
    else if b.orders[orderId].status in {Cancelled, PaymentFailed} then Outcome(b, Err(InvalidStatus))
    else
      var g := FindActive(b.rows, orderId);
      if !Coverable(Commit, b.products, DemandsOf(g)) then Outcome(b, Err(RowNotInExpectedState))
      else
        var after := Mark(Settle(b, Commit, g, Committed), orderId, Paid);
        Outcome(after, Ok(after.orders[orderId]))
  }

  function Cancel(b: Books, orderId: string, userId: string): Outcome {
    if orderId !in b.orders then Outcome(b, Err(RecordNotFound))
    else if userId != b.orders[orderId].userId then Outcome(b, Err(Forbidden))
    else if b.orders[orderId].status in {Done, Cancelled, Paid} then Outcome(b, Err(InvalidStatus))
    else
      var g := FindActive(b.rows, orderId);
      if !Coverable(Release, b.products, DemandsOf(g)) then Outcome(b, Err(ReservationAlreadyReleased))
      else
        var after := Mark(Settle(b, Release, g, Released), orderId, Cancelled);
        Outcome(after, Ok(after.orders[orderId]))
  }

  function UpdateStatus(b: Books, orderId: string, st: OrderStatus): Outcome {
    if orderId !in b.orders then Outcome(b, Err(RecordNotFound))
    else if !st.IsValid() || !b.orders[orderId].status.CanTransitionTo(st) then Outcome(b, Err(InvalidStatus))
    else
      var after := Mark(b, orderId, st);
      Outcome(after, Ok(after.orders[orderId]))
  }

  // The sweeper acts on a group unless its order exists and has moved past checkout.
  predicate Sweepable(orders: Orders, orderId: string) {
    orderId in orders ==> orders[orderId].status in {PendingPayment, New}
  }

  // One per-order transaction of the sweeper, on a group of rows fetched earlier.
  function SweepGroup(b: Books, orderId: string, g: seq<Reservation>): Books {
    if !Sweepable(b.orders, orderId) then b
    else
      var drained := b.(products := Drain(b.products, DemandsOf(g)), rows := WithStatus(b.rows, Ids(g), Released));
      if orderId in b.orders then Mark(drained, orderId, Cancelled) else drained
  }

  function AddStock(ps: Products, id: string, qty: int): Products {
    if qty <= 0 || id !in ps then ps else ps[id := ps[id].(stock := ps[id].stock + qty)]
  }

  function DecrementStock(ps: Products, id: string, qty: nat): Products {
    if Affects(Decrement, ps, id, qty) then ps[id := Moved(Decrement, ps[id], qty)] else ps
  }

  // The admin edit saves the product row with a new stock figure; the table's CHECK constraint refuses
  // a figure below what is reserved.
  function EditStock(ps: Products, id: string, stock: int): Products {
    if stock < 0 || id !in ps || stock < ps[id].reserved then ps else ps[id := ps[id].(stock := stock)]
  }

  // A product row is created under a fresh id with a positive price and no reservations.
  function AddProduct(ps: Products, id: string, price: real, stock: int): Products {
    if price <= 0.0 || stock < 0 || id in ps then ps else ps[id := Product(price, stock, 0)]
  }

  // ------------------------------------------------------------------ calls

  // The effect that one step of the system has on the books.
  datatype Call =
    | Untouched
    | Accepted(newId: string, order: Order, ds: seq<Demand>, expiresAt: int)
    | Pay(orderId: string)
    | CancelBy(orderId: string, userId: string)
    | Restatus(orderId: string, status: OrderStatus)
    | Sweep(orderId: string, group: seq<Reservation>)
    | Restock(productId: string, qty: int)
    | Withdraw(productId: string, amount: nat)
    | Edit(productId: string, stock: int)
    | Launch(productId: string, price: real, stock: int)

  function Do(b: Books, c: Call): Books {
    match c
    case Untouched => b
    case Accepted(newId, order, ds, expiresAt) => Accept(b, newId, order, ds, expiresAt)
    case Pay(o) => MarkPaid(b, o).books
    case CancelBy(o, u) => Cancel(b, o, u).books
    case Restatus(o, st) => UpdateStatus(b, o, st).books
    case Sweep(o, g) => SweepGroup(b, o, g)
    case Restock(p, q) => b.(products := AddStock(b.products, p, q))
    case Withdraw(p, q) => b.(products := DecrementStock(b.products, p, q))
    case Edit(p, v) => b.(products := EditStock(b.products, p, v))
    case Launch(p, price, v) => b.(products := AddProduct(b.products, p, price, v))
  }

  // What the services guarantee about a call before they make it: an accepted order has a fresh id, is
  // pending payment and fits the available stock; a swept group holds copies of rows of one order
  // fetched at some earlier time.
  ghost predicate Possible(b: Books, c: Call) {
    match c
    case Accepted(newId, order, ds, _) =>
      && newId !in b.orders
      && (forall i :: 0 <= i < |b.rows| ==> b.rows[i].orderId != newId)
      && order.status == PendingPayment
      && (forall i :: 0 <= i < |ds| ==> ds[i].quantity > 0)
      && Coverable(Reserve, b.products, ds)
      && ds != []
    case Sweep(o, g) => g != [] && Stale(b.rows, g) && AllActive(g) && forall i :: 0 <= i < |g| ==> g[i].orderId == o
    case _ => true
  }

  // ------------------------------------------------------------------ invariants

  // Each reserved counter is the sum of its active rows and never exceeds the stock.
  ghost predicate Ledger(b: Books) {
    forall p :: p in b.products ==>
                  && b.products[p].reserved == Held(b.rows, p, Active)
                  && b.products[p].reserved <= b.products[p].stock
  }

  ghost predicate Consistent(b: Books) {
    && Numbered(b.rows)
    && (forall i :: 0 <= i < |b.rows| ==> b.rows[i].quantity > 0 && b.rows[i].productId in b.products)
    && Ledger(b)
  }

  // No row outlives its order, statuses are recognised values, and an order still in checkout holds
  // every one of its rows. The last clause is what makes a stale sweep safe.
  ghost predicate Linked(b: Books) {
    forall i :: 0 <= i < |b.rows| ==> b.rows[i].orderId in b.orders
  }

  ghost predicate OpenOrdersHoldAll(b: Books) {
    forall i :: 0 <= i < |b.rows| && b.rows[i].orderId in b.orders && b.orders[b.rows[i].orderId].status.IsOpen()
      ==> b.rows[i].status == Active
  }

  ghost predicate KnownStatuses(b: Books) {
    forall o :: o in b.orders ==> b.orders[o].status.IsValid()
  }

  ghost predicate Inv(b: Books) {
    Consistent(b) && Linked(b) && OpenOrdersHoldAll(b) && KnownStatuses(b)
  }

  // ------------------------------------------------------------------ settling

  // From consistent books the counters cover every list of distinct active rows, for committing and
  // for releasing alike, so no guard of a settlement loop can fire.
  lemma SettlementCovered(b: Books, g: seq<Reservation>)
    requires Consistent(b) && Picks(b.rows, g) && AllActive(g)
    ensures Coverable(Commit, b.products, DemandsOf(g)) && Coverable(Release, b.products, DemandsOf(g))
  {
    var ds := DemandsOf(g);
    forall i | 0 <= i < |ds|
      ensures ds[i].productId in b.products
      ensures Need(ds, ds[i].productId) <= Slack(Release, b.products[ds[i].productId])
      ensures Need(ds, ds[i].productId) <= Slack(Commit, b.products[ds[i].productId])
    {
      assert b.rows[g[i].id] == g[i];
      PickedFits(b.rows, g, ds[i].productId);
    }
  }

  lemma SettleKeepsConsistent(b: Books, m: Move, g: seq<Reservation>, st: ReservationStatus)
    requires Consistent(b) && Picks(b.rows, g) && AllActive(g)
    requires (m == Commit && st == Committed) || (m == Release && st == Released)
    ensures Consistent(Settle(b, m, g, st))
    ensures OnlySettles(b.rows, Settle(b, m, g, st).rows)
  {
    var after := Settle(b, m, g, st);
    forall p | p in after.products
      ensures after.products[p].reserved == Held(after.rows, p, Active)
      ensures after.products[p].reserved <= after.products[p].stock
    {
      HeldOfSettle(b.rows, g, st, p, Active);
    }
    SettledRows(b.rows, g, st);
  }

  lemma SettledRows(rows: Rows, g: seq<Reservation>, st: ReservationStatus)
    requires Numbered(rows) && Picks(rows, g) && AllActive(g)
    ensures forall i :: 0 <= i < |rows| ==>
                          WithStatus(rows, Ids(g), st)[i] == if rows[i] in g then rows[i].(status := st) else rows[i]
    ensures OnlySettles(rows, WithStatus(rows, Ids(g), st))
  {
    forall i | 0 <= i < |rows| ensures i in Ids(g) <==> rows[i] in g {
      IdsMember(g, i);
      if rows[i] in g {
        var j :| 0 <= j < |g| && g[j] == rows[i];
        assert g[j].id == i;
      }
    }
    forall i | 0 <= i < |rows| && rows[i] in g ensures rows[i].status == Active {
    }
  }

  // Stale copies of rows that are all still active are the current rows.
  lemma StaleButActive(rows: Rows, g: seq<Reservation>)
    requires Stale(rows, g) && AllActive(g)
    requires forall i :: 0 <= i < |g| ==> rows[g[i].id].status == Active
    ensures Picks(rows, g)
  {
    forall i | 0 <= i < |g| ensures rows[g[i].id] == g[i] {
      assert rows[g[i].id] == g[i].(status := rows[g[i].id].status);
    }
  }
}
