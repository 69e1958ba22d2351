/**
 What one service call keeps, for every call and every consistent state: the ledger, the one-way
 history of reservation rows, the conservation of stock, and the relations between order status and row
 status together with the exact calls that break them.
 */
module Protocol {
  import opened Common
  import opened OrderStatuses
  import opened Counters
  import opened Reservations
  import opened BookKeeping

  // ------------------------------------------------------------------ settlements

  // Paying, cancelling and sweeping have one shape: active rows of one order are settled on the
  // counters and the order moves out of checkout or fulfilment.
  datatype Settlement = Nothing | Settlement(
    orderId: string, move: Move, group: seq<Reservation>, rowStatus: ReservationStatus, orderStatus: OrderStatus)

  function SettlementOf(b: Books, c: Call): Settlement {
    match c
    case Pay(o) =>
      if o in b.orders && b.orders[o].status !in {Paid, Cancelled, PaymentFailed}
      then Settlement(o, Commit, FindActive(b.rows, o), Committed, Paid) else Nothing
    case CancelBy(o, u) =>
      if o in b.orders && u == b.orders[o].userId && b.orders[o].status !in {Done, Cancelled, Paid}
      then Settlement(o, Release, FindActive(b.rows, o), Released, Cancelled) else Nothing
    case Sweep(o, g) =>
      if o in b.orders && b.orders[o].status in {New, PendingPayment}
      then Settlement(o, Release, g, Released, Cancelled) else Nothing
    case _ => Nothing
  }

  ghost predicate Sound(b: Books, x: Settlement) {
    && x.Settlement?
    && x.orderId in b.orders && b.orders[x.orderId].status != Cancelled
    && Picks(b.rows, x.group) && AllActive(x.group)
    && (forall i :: 0 <= i < |x.group| ==> x.group[i].orderId == x.orderId)
    && ((x.move == Commit && x.rowStatus == Committed && x.orderStatus == Paid && Whole(b, x.orderId, x.group))
        || (x.move == Release && x.rowStatus == Released && x.orderStatus == Cancelled))
  }

  function Settled(b: Books, x: Settlement): Books
    requires x.Settlement? && x.orderId in b.orders
  {
    Mark(Settle(b, x.move, x.group, x.rowStatus), x.orderId, x.orderStatus)
  }

  // The swept group contains every row its order holds.
  ghost predicate Whole(b: Books, o: string, g: seq<Reservation>) {
    forall i :: 0 <= i < |b.rows| && b.rows[i].orderId == o && b.rows[i].status == Active ==> b.rows[i] in g
  }

  lemma PayShape(b: Books, o: string)
    requires Inv(b) && SettlementOf(b, Pay(o)).Settlement?
    ensures Sound(b, SettlementOf(b, Pay(o))) && Whole(b, o, SettlementOf(b, Pay(o)).group)
    ensures MarkPaid(b, o).books == Settled(b, SettlementOf(b, Pay(o)))
    ensures MarkPaid(b, o).reply == Ok(b.orders[o].(status := Paid))
  {
    FindActiveExact(b.rows, o);
    SettlementCovered(b, FindActive(b.rows, o));
  }

  lemma CancelShape(b: Books, o: string, u: string)
    requires Inv(b) && SettlementOf(b, CancelBy(o, u)).Settlement?
    ensures Sound(b, SettlementOf(b, CancelBy(o, u))) && Whole(b, o, SettlementOf(b, CancelBy(o, u)).group)
    ensures Cancel(b, o, u).books == Settled(b, SettlementOf(b, CancelBy(o, u)))
    ensures Cancel(b, o, u).reply == Ok(b.orders[o].(status := Cancelled))
  {
    FindActiveExact(b.rows, o);
    SettlementCovered(b, FindActive(b.rows, o));
  }

  // A group that passes the status check releases only rows that are still active, however old the
  // snapshot is: the order is still in checkout, and an order in checkout holds all its rows. Neither
  // the missing-order branch nor the drained-counter branch is taken.
  lemma SweepShape(b: Books, o: string, g: seq<Reservation>)
    requires Inv(b) && Possible(b, Sweep(o, g))
    ensures o in b.orders
    ensures Sweepable(b.orders, o) <==> SettlementOf(b, Sweep(o, g)).Settlement?
    ensures Sweepable(b.orders, o) ==>
              && Sound(b, SettlementOf(b, Sweep(o, g)))
              && SweepGroup(b, o, g) == Settled(b, SettlementOf(b, Sweep(o, g)))
  {
    assert b.rows[g[0].id] == g[0].(status := b.rows[g[0].id].status);
    if Sweepable(b.orders, o) {
      forall i | 0 <= i < |g| ensures b.rows[g[i].id].status == Active {
        assert b.rows[g[i].id] == g[i].(status := b.rows[g[i].id].status);
      }
      StaleButActive(b.rows, g);
      SettlementCovered(b, g);
      DrainIsRelease(b.products, DemandsOf(g));
    }
  }

  lemma SettlementShape(b: Books, c: Call)
    requires Inv(b) && Possible(b, c)
    ensures var x := SettlementOf(b, c); x.Settlement? ==> Sound(b, x) && Do(b, c) == Settled(b, x)
    ensures SettlementOf(b, c).Nothing? && (c.Pay? || c.CancelBy? || c.Sweep?) ==> Do(b, c) == b
    ensures c.Pay? || c.CancelBy? ==>
              var x := SettlementOf(b, c); x.Settlement? ==> Whole(b, x.orderId, x.group)
  {
    match c
    case Pay(o) => if SettlementOf(b, c).Settlement? { PayShape(b, o); }
    case CancelBy(o, u) => if SettlementOf(b, c).Settlement? { CancelShape(b, o, u); }
    case Sweep(o, g) => SweepShape(b, o, g);
    case _ =>
  }

  // ------------------------------------------------------------------ the invariant is kept

  lemma SettlingKeepsOpenOrders(b: Books, x: Settlement)
    requires Inv(b) && Sound(b, x)
    ensures OpenOrdersHoldAll(Settled(b, x))
  {
    var after := Settled(b, x);
    SettledRows(b.rows, x.group, x.rowStatus);
    forall i | 0 <= i < |after.rows| && after.rows[i].orderId in after.orders
               && after.orders[after.rows[i].orderId].status.IsOpen()
      ensures after.rows[i].status == Active
    {
      assert b.rows[i].orderId != x.orderId;
      assert b.rows[i] !in x.group;
    }
  }

  lemma SettlingKeepsInv(b: Books, x: Settlement)
    requires Inv(b) && Sound(b, x)
    ensures Inv(Settled(b, x)) && OnlySettles(b.rows, Settled(b, x).rows)
  {
    SettleKeepsConsistent(b, x.move, x.group, x.rowStatus);
    SettlingKeepsOpenOrders(b, x);
  }

  lemma AcceptKeepsLedger(b: Books, c: Call)
    requires Inv(b) && c.Accepted? && Possible(b, c)
    ensures Ledger(Accept(b, c.newId, c.order, c.ds, c.expiresAt))
  {
    var after := Accept(b, c.newId, c.order, c.ds, c.expiresAt);
    forall p | p in after.products
      ensures after.products[p].reserved == Held(after.rows, p, Active)
      ensures after.products[p].reserved <= after.products[p].stock
    {
      HeldOfInsert(b.rows, c.newId, c.ds, c.expiresAt, p, Active);
      TotalFits(Reserve, b.products, c.ds, p);
    }
  }

  lemma AcceptKeepsInv(b: Books, c: Call)
    requires Inv(b) && c.Accepted? && Possible(b, c)
    ensures Inv(Accept(b, c.newId, c.order, c.ds, c.expiresAt))
    ensures OnlySettles(b.rows, Accept(b, c.newId, c.order, c.ds, c.expiresAt).rows)
  {
    AcceptKeepsLedger(b, c);
  }

  lemma {:induction false} HeldOfUnknown(rows: Rows, p: string, st: ReservationStatus)
    requires forall i :: 0 <= i < |rows| ==> rows[i].productId != p
    ensures Held(rows, p, st) == 0
  {
    if rows != [] {
      HeldOfUnknown(rows[..|rows| - 1], p, st);
    }
  }

  predicate MovesStock(c: Call) {
    c.Restock? || c.Withdraw? || c.Edit? || c.Launch?
  }

  lemma StockKeepsInv(b: Books, c: Call)
    requires Inv(b) && MovesStock(c)
    ensures Inv(Do(b, c)) && Do(b, c).rows == b.rows && Do(b, c).orders == b.orders
  {
    if c.Launch? && c.productId !in b.products {
      HeldOfUnknown(b.rows, c.productId, Active);
    }
  }

  lemma RestatusKeepsInv(b: Books, o: string, st: OrderStatus)
    requires Inv(b)
    ensures Inv(UpdateStatus(b, o, st).books) && UpdateStatus(b, o, st).books.rows == b.rows
  {
    // Out of checkout there is no way back in, so the rows of every order in checkout are still held.
    assert forall s: OrderStatus :: s.CanTransitionTo(st) && st.IsOpen() ==> s.IsOpen();
  }

  // Every possible call keeps the whole invariant, and whatever it does to the reservation table is a
  // one-way settlement of active rows.
  lemma DoKeepsInv(b: Books, c: Call)
    requires Inv(b) && Possible(b, c)
    ensures Inv(Do(b, c))
    ensures OnlySettles(b.rows, Do(b, c).rows)
  {
    if SettlementOf(b, c).Settlement? {
      SettlementShape(b, c);
      SettlingKeepsInv(b, SettlementOf(b, c));
    } else if c.Pay? || c.CancelBy? || c.Sweep? {
      SettlementShape(b, c);
    } else if c.Accepted? {
      AcceptKeepsInv(b, c);
    } else if c.Restatus? {
      RestatusKeepsInv(b, c.orderId, c.status);
    } else if c.Untouched? {
    } else {
      StockKeepsInv(b, c);
    }
  }

  // ------------------------------------------------------------------ no guard fires

  // Paying succeeds exactly for the statuses the service lets through; a counter guard never refuses
  // it, and afterwards the order holds nothing.
  lemma PayOutcome(b: Books, o: string)
    requires Inv(b)
    ensures MarkPaid(b, o).reply.Ok? <==> o in b.orders && b.orders[o].status !in {Cancelled, PaymentFailed}
    ensures MarkPaid(b, o).reply != Err(RowNotInExpectedState)
    ensures MarkPaid(b, o).reply.Err? ==> MarkPaid(b, o).books == b
    ensures MarkPaid(b, o).reply.Ok? && b.orders[o].status != Paid ==>
              && MarkPaid(b, o).books.orders[o].status == Paid
              && !HoldsStock(MarkPaid(b, o).books, o)
    ensures MarkPaid(b, o).reply.Ok? && b.orders[o].status in {New, PendingPayment} ==>
              forall i :: 0 <= i < |b.rows| && b.rows[i].orderId == o ==> MarkPaid(b, o).books.rows[i].status == Committed
  {
    var x := SettlementOf(b, Pay(o));
    if x.Settlement? {
      PayShape(b, o);
      SettledRows(b.rows, x.group, Committed);
    }
  }

  lemma CancelOutcome(b: Books, o: string, u: string)
    requires Inv(b)
    ensures Cancel(b, o, u).reply.Ok? <==>
              o in b.orders && u == b.orders[o].userId && b.orders[o].status !in {Done, Cancelled, Paid}
    ensures Cancel(b, o, u).reply != Err(ReservationAlreadyReleased)
    ensures Cancel(b, o, u).reply.Err? ==> Cancel(b, o, u).books == b
    ensures Cancel(b, o, u).reply.Ok? ==>
              && Cancel(b, o, u).books.orders[o].status == Cancelled
              && !HoldsStock(Cancel(b, o, u).books, o)
  {
    var x := SettlementOf(b, CancelBy(o, u));
    if x.Settlement? {
      CancelShape(b, o, u);
      SettledRows(b.rows, x.group, Released);
    }
  }

  // ------------------------------------------------------------------ conservation of stock

  // Units on the shelf plus units sold.
  function Supplied(b: Books, p: string): int {
    (if p in b.products then b.products[p].stock else 0) + Held(b.rows, p, Committed)
  }

  // Units that a call brings in (positive) or takes out directly (negative).
  function Inflow(b: Books, c: Call, p: string): int {
    match c
    case Restock(id, qty) => if id == p && p in b.products && qty > 0 then qty else 0
    case Withdraw(id, amount) => if id == p && Affects(Decrement, b.products, p, amount) then 0 - (amount as int) else 0
    case Edit(id, stock) =>
      if id == p && p in b.products && 0 <= stock && b.products[p].reserved <= stock
      then stock - b.products[p].stock else 0
    case Launch(id, price, stock) => if id == p && p !in b.products && price > 0.0 && stock >= 0 then stock else 0
    case _ => 0
  }

  lemma SettlingConserves(b: Books, x: Settlement, p: string)
    requires Inv(b) && Sound(b, x)
    ensures Supplied(Settled(b, x), p) == Supplied(b, p)
  {
    HeldOfSettle(b.rows, x.group, x.rowStatus, p, Committed);
    if p !in b.products {
      forall i | 0 <= i < |x.group| ensures DemandsOf(x.group)[i].productId != p {
        assert b.rows[x.group[i].id] == x.group[i];
      }
      NeedOfAbsent(DemandsOf(x.group), p);
    }
  }

  // Placing, paying, cancelling and sweeping neither create nor lose a unit.
  lemma DoConserves(b: Books, c: Call, p: string)
    requires Inv(b) && Possible(b, c)
    ensures Supplied(Do(b, c), p) == Supplied(b, p) + Inflow(b, c, p)
  {
    if SettlementOf(b, c).Settlement? {
      SettlementShape(b, c);
      SettlingConserves(b, SettlementOf(b, c), p);
    } else if c.Pay? || c.CancelBy? || c.Sweep? {
      SettlementShape(b, c);
    } else if c.Accepted? {
      HeldOfInsert(b.rows, c.newId, c.ds, c.expiresAt, p, Committed);
    } else if MovesStock(c) {
      StockConserves(b, c, p);
    }
  }

  lemma StockConserves(b: Books, c: Call, p: string)
    requires Inv(b) && MovesStock(c)
    ensures Supplied(Do(b, c), p) == Supplied(b, p) + Inflow(b, c, p)
  {
    StockKeepsInv(b, c);
  }

  // ------------------------------------------------------------------ status moves

  // A call changes nothing of a stored order but its status, and that move is in the transition table
  // unless it is the one exception: MarkOrderPaid guards by its own list, which also lets orders in
  // New, InProgress and Done (back) into Paid. Done is therefore not terminal; Cancelled is.
  lemma StatusMove(b: Books, c: Call, o: string)
    requires Inv(b) && Possible(b, c) && o in b.orders
    ensures o in Do(b, c).orders
    ensures Do(b, c).orders[o] == b.orders[o].(status := Do(b, c).orders[o].status)
    ensures b.orders[o].status.CanTransitionTo(Do(b, c).orders[o].status)
            <==> !(c == Pay(o) && b.orders[o].status in {New, InProgress, Done})
    ensures c == Pay(o) && b.orders[o].status in {New, InProgress, Done} ==> Do(b, c).orders[o].status == Paid
    ensures b.orders[o].status == Cancelled ==> Do(b, c).orders[o].status == Cancelled
    ensures Do(b, c).orders[o].status == New ==> b.orders[o].status == New
  {
    SettlementShape(b, c);
  }

  // An order that a call creates starts out in PendingPayment.
  lemma NewOrders(b: Books, c: Call, o: string)
    requires Inv(b) && Possible(b, c) && o !in b.orders && o in Do(b, c).orders
    ensures c.Accepted? && c.newId == o && Do(b, c).orders[o].status == PendingPayment
  {
  }

  // ------------------------------------------------------------------ stock held by cancelled orders

  ghost predicate HoldsStock(b: Books, o: string) {
    exists i :: 0 <= i < |b.rows| && b.rows[i].orderId == o && b.rows[i].status == Active
  }

  ghost predicate CancelledHoldNothing(b: Books) {
    forall o :: o in b.orders && b.orders[o].status == Cancelled ==> !HoldsStock(b, o)
  }

  // The two ways to strand stock: a status update to Cancelled, which releases nothing, on an order
  // that still holds rows; and a sweep whose batch limit cut the rows of the order in two.
  ghost predicate Strands(b: Books, c: Call) {
    match c
    case Restatus(o, st) => st == Cancelled && UpdateStatus(b, o, st).reply.Ok? && HoldsStock(b, o)
    case Sweep(o, g) => Sweepable(b.orders, o) && !Whole(b, o, g)
    case _ => false
  }

  lemma SettlingHolds(b: Books, x: Settlement, o: string)
    requires Inv(b) && Sound(b, x)
    ensures HoldsStock(Settled(b, x), o) <==> HoldsStock(b, o) && (o == x.orderId ==> !Whole(b, o, x.group))
  {
    var after := Settled(b, x);
    SettledRows(b.rows, x.group, x.rowStatus);
    if HoldsStock(after, o) {
      var i :| 0 <= i < |after.rows| && after.rows[i].orderId == o && after.rows[i].status == Active;
      assert after.rows[i] == b.rows[i] && b.rows[i] !in x.group;
    }
    if HoldsStock(b, o) && o != x.orderId {
      var i :| 0 <= i < |b.rows| && b.rows[i].orderId == o && b.rows[i].status == Active;
      assert after.rows[i] == b.rows[i];
    }
    if o == x.orderId && !Whole(b, o, x.group) {
      var i :| 0 <= i < |b.rows| && b.rows[i].orderId == o && b.rows[i].status == Active && b.rows[i] !in x.group;
      assert after.rows[i] == b.rows[i];
    }
  }

  // Exactly which orders hold stock after a call: a settlement frees its order if the group is whole.
  lemma HoldsAfter(b: Books, c: Call, o: string)
    requires Inv(b) && Possible(b, c)
    ensures var x := SettlementOf(b, c);
            HoldsStock(Do(b, c), o) <==>
              || (HoldsStock(b, o) && !(x.Settlement? && x.orderId == o && Whole(b, o, x.group)))
              || (c.Accepted? && o == c.newId)
  {
    if SettlementOf(b, c).Settlement? {
      SettlementShape(b, c);
      SettlingHolds(b, SettlementOf(b, c), o);
    } else if c.Pay? || c.CancelBy? || c.Sweep? {
      SettlementShape(b, c);
    } else if c.Accepted? {
      HoldsAfterAccept(b, c, o);
    } else if MovesStock(c) {
      StockKeepsInv(b, c);
    } else if c.Restatus? {
      RestatusKeepsInv(b, c.orderId, c.status);
    }
  }

  lemma HoldsAfterAccept(b: Books, c: Call, x: string)
    requires Inv(b) && c.Accepted? && Possible(b, c)
    ensures HoldsStock(Do(b, c), x) <==> HoldsStock(b, x) || x == c.newId
  {
    var after := Do(b, c);
    if HoldsStock(b, x) {
      var i :| 0 <= i < |b.rows| && b.rows[i].orderId == x && b.rows[i].status == Active;
      assert after.rows[i] == b.rows[i];
    }
    if x == c.newId {
      assert after.rows[|b.rows|].orderId == x;
    }
    if HoldsStock(after, x) && x != c.newId {
      var i :| 0 <= i < |after.rows| && after.rows[i].orderId == x && after.rows[i].status == Active;
      assert i < |b.rows|;
      assert b.rows[i].orderId == x;
    }
  }

  // Which orders are cancelled after a call.
  lemma CancelledAfter(b: Books, c: Call, o: string)
    requires Inv(b) && Possible(b, c) && o in b.orders
    ensures o in Do(b, c).orders
    ensures var x := SettlementOf(b, c);
            Do(b, c).orders[o].status == Cancelled <==>
              || b.orders[o].status == Cancelled
              || (x.Settlement? && x.orderId == o && x.orderStatus == Cancelled)
              || (c.Restatus? && o == c.orderId && c.status == Cancelled && UpdateStatus(b, o, Cancelled).reply.Ok?)
  {
    SettlementShape(b, c);
  }

  // From a state in which cancelled orders hold nothing, a call keeps it so exactly when it is not one
  // of the two stranding calls.
  lemma StrandingExact(b: Books, c: Call)
    requires Inv(b) && Possible(b, c) && CancelledHoldNothing(b)
    ensures CancelledHoldNothing(Do(b, c)) <==> !Strands(b, c)
  {
    if Strands(b, c) {
      var o := c.orderId;
      if c.Sweep? {
        SweepShape(b, o, c.group);
        WholeIfNotHolding(b, o, c.group);
      }
      HoldsAfter(b, c, o);
      CancelledAfter(b, c, o);
    } else {
      SettlementShape(b, c);
      forall x | x in Do(b, c).orders && Do(b, c).orders[x].status == Cancelled
        ensures !HoldsStock(Do(b, c), x)
      {
        HoldsAfter(b, c, x);
        if x in b.orders {
          CancelledAfter(b, c, x);
        } else {
          NewOrders(b, c, x);
        }
      }
    }
  }

  lemma WholeIfNotHolding(b: Books, o: string, g: seq<Reservation>)
    ensures !HoldsStock(b, o) ==> Whole(b, o, g)
  {
  }

  // A row stranded on a cancelled order: pay, cancel, sweep and status updates all refuse the order, so
  // no call ever frees the row again.
  ghost predicate Stranded(b: Books, i: nat) {
    && i < |b.rows|
    && b.rows[i].status == Active
    && b.rows[i].orderId in b.orders
    && b.orders[b.rows[i].orderId].status == Cancelled
  }

  lemma StrandedForGood(b: Books, c: Call, i: nat)
    requires Inv(b) && Possible(b, c) && Stranded(b, i)
    ensures Stranded(Do(b, c), i) && Do(b, c).rows[i] == b.rows[i]
  {
    var o := b.rows[i].orderId;
    StatusMove(b, c, o);
    var x := SettlementOf(b, c);
    if x.Settlement? {
      SettlementShape(b, c);
      SettledRows(b.rows, x.group, x.rowStatus);
      assert b.rows[i] !in x.group;
    } else {
      RowsUnlessSettled(b, c);
    }
  }

  lemma RowsUnlessSettled(b: Books, c: Call)
    requires Inv(b) && Possible(b, c) && SettlementOf(b, c).Nothing?
    ensures b.rows <= Do(b, c).rows
    ensures forall i :: |b.rows| <= i < |Do(b, c).rows| ==>
                          && c.Accepted? && Do(b, c).rows[i].orderId == c.newId && Do(b, c).rows[i].expiresAt == c.expiresAt
                          && Do(b, c).rows[i].status == Active
  {
    if c.Pay? || c.CancelBy? || c.Sweep? {
      SettlementShape(b, c);
    } else if c.Restatus? {
      RestatusKeepsInv(b, c.orderId, c.status);
    } else if MovesStock(c) {
      StockKeepsInv(b, c);
    }
  }

  // ------------------------------------------------------------------ all-or-nothing settlement

  // All reservation rows of one order share one status.
  ghost predicate Uniform(b: Books) {
    forall i, j :: 0 <= i < |b.rows| && 0 <= j < |b.rows| && b.rows[i].orderId == b.rows[j].orderId
      ==> b.rows[i].status == b.rows[j].status
  }

  lemma WholeMeansAll(b: Books, x: Settlement, i: nat)
    requires Inv(b) && Uniform(b) && Sound(b, x) && x.group != [] && Whole(b, x.orderId, x.group) && i < |b.rows|
    ensures b.rows[i] in x.group <==> b.rows[i].orderId == x.orderId
  {
    assert b.rows[x.group[0].id] == x.group[0];
    if b.rows[i].orderId == x.orderId {
      assert b.rows[i].status == b.rows[x.group[0].id].status;
    }
  }

  lemma WholeKeepsUniform(b: Books, x: Settlement)
    requires Inv(b) && Uniform(b) && Sound(b, x) && x.group != [] && Whole(b, x.orderId, x.group)
    ensures Uniform(Settled(b, x))
  {
    SettledRows(b.rows, x.group, x.rowStatus);
    var after := Settled(b, x).rows;
    forall i | 0 <= i < |b.rows|
      ensures after[i].orderId == b.rows[i].orderId
      ensures after[i].status == if b.rows[i].orderId == x.orderId then x.rowStatus else b.rows[i].status
    {
      WholeMeansAll(b, x, i);
    }
  }

  lemma CutBreaksUniform(b: Books, x: Settlement)
    requires Inv(b) && Sound(b, x) && x.group != [] && !Whole(b, x.orderId, x.group)
    ensures !Uniform(Settled(b, x))
  {
    SettledRows(b.rows, x.group, x.rowStatus);
    var after, k := Settled(b, x).rows, x.group[0].id;
    assert b.rows[k] == x.group[0] && b.rows[k] in x.group;
    var i :| 0 <= i < |b.rows| && b.rows[i].orderId == x.orderId && b.rows[i].status == Active && b.rows[i] !in x.group;
    assert after[i].orderId == after[k].orderId && after[i].status != after[k].status;
  }

  lemma SettlingUniform(b: Books, x: Settlement)
    requires Inv(b) && Uniform(b) && Sound(b, x)
    ensures Uniform(Settled(b, x)) <==> x.group == [] || Whole(b, x.orderId, x.group)
  {
    if x.group == [] {
      assert WithStatus(b.rows, Ids(x.group), x.rowStatus) == b.rows;
    } else if Whole(b, x.orderId, x.group) {
      WholeKeepsUniform(b, x);
    } else {
      CutBreaksUniform(b, x);
    }
  }

  // A call splits the rows of an order exactly when it sweeps a group that misses some of them.
  lemma SplitExact(b: Books, c: Call)
    requires Inv(b) && Possible(b, c) && Uniform(b)
    ensures Uniform(Do(b, c)) <==> !(c.Sweep? && Sweepable(b.orders, c.orderId) && !Whole(b, c.orderId, c.group))
  {
    if c.Sweep? {
      SweepShape(b, c.orderId, c.group);
    }
    if SettlementOf(b, c).Settlement? {
      SettlementShape(b, c);
      SettlingUniform(b, SettlementOf(b, c));
    } else {
      RowsUnlessSettled(b, c);
    }
  }

  // Two rows of one order that went different ways.
  ghost predicate SplitPair(b: Books, i: nat, j: nat) {
    && Stranded(b, i)
    && j < |b.rows| && b.rows[j].orderId == b.rows[i].orderId && b.rows[j].status != Active
  }

  lemma SplitForGood(b: Books, c: Call, i: nat, j: nat)
    requires Inv(b) && Possible(b, c) && SplitPair(b, i, j)
    ensures SplitPair(Do(b, c), i, j)
  {
    StrandedForGood(b, c, i);
    DoKeepsInv(b, c);
  }

  // A sweep that splits an order leaves such a pair behind.
  lemma SplittingLeavesPair(b: Books, c: Call) returns (i: nat, j: nat)
    requires Inv(b) && Possible(b, c) && c.Sweep? && Sweepable(b.orders, c.orderId) && !Whole(b, c.orderId, c.group)
    ensures SplitPair(Do(b, c), i, j)
  {
    SweepShape(b, c.orderId, c.group);
    i, j := SettlingLeavesPair(b, SettlementOf(b, c));
  }

  lemma SettlingLeavesPair(b: Books, x: Settlement) returns (i: nat, j: nat)
    requires Inv(b) && Sound(b, x) && x.orderStatus == Cancelled && x.group != [] && !Whole(b, x.orderId, x.group)
    ensures SplitPair(Settled(b, x), i, j)
  {
    SettledRows(b.rows, x.group, x.rowStatus);
    i :| 0 <= i < |b.rows| && b.rows[i].orderId == x.orderId && b.rows[i].status == Active && b.rows[i] !in x.group;
    j := x.group[0].id;
    assert b.rows[j] == x.group[0] && b.rows[j] in x.group;
  }

  // Every order in fulfilment has all its rows committed.
  ghost predicate FulfilledAreCommitted(b: Books) {
    forall i :: 0 <= i < |b.rows| && b.rows[i].orderId in b.orders && b.orders[b.rows[i].orderId].status in {Paid, InProgress, Done}
      ==> b.rows[i].status == Committed
  }

  // A status update that takes an order with reservations straight from checkout into fulfilment: the
  // admin move PendingPayment to Paid, or New to InProgress. Neither commits a reservation.
  ghost predicate SkipsCommit(b: Books, c: Call) {
    && c.Restatus? && c.status in {Paid, InProgress}
    && UpdateStatus(b, c.orderId, c.status).reply.Ok?
    && b.orders[c.orderId].status.IsOpen()
    && exists i :: 0 <= i < |b.rows| && b.rows[i].orderId == c.orderId
  }

  lemma SettlingFulfilled(b: Books, x: Settlement)
    requires Inv(b) && FulfilledAreCommitted(b) && Sound(b, x)
    ensures FulfilledAreCommitted(Settled(b, x))
  {
    var after := Settled(b, x);
    SettledRows(b.rows, x.group, x.rowStatus);
    forall i | 0 <= i < |after.rows| && after.orders[after.rows[i].orderId].status in {Paid, InProgress, Done}
      ensures after.rows[i].status == Committed
    {
      if b.rows[i].orderId != x.orderId {
        assert b.rows[i] !in x.group;
      }
    }
  }

  lemma CommitSkipExact(b: Books, c: Call)
    requires Inv(b) && Possible(b, c) && FulfilledAreCommitted(b)
    ensures FulfilledAreCommitted(Do(b, c)) <==> !SkipsCommit(b, c)
  {
    if SettlementOf(b, c).Settlement? {
      SettlementShape(b, c);
      SettlingFulfilled(b, SettlementOf(b, c));
    } else if c.Pay? || c.CancelBy? || c.Sweep? {
      SettlementShape(b, c);
    } else if c.Restatus? {
      RestatusFulfilled(b, c.orderId, c.status);
    } else if MovesStock(c) {
      StockKeepsInv(b, c);
    } else if c.Accepted? {
      AcceptFulfilled(b, c);
    }
  }

  lemma AcceptFulfilled(b: Books, c: Call)
    requires Inv(b) && FulfilledAreCommitted(b) && c.Accepted? && Possible(b, c)
    ensures FulfilledAreCommitted(Accept(b, c.newId, c.order, c.ds, c.expiresAt))
  {
  }

  lemma RestatusFulfilled(b: Books, o: string, st: OrderStatus)
    requires Inv(b) && FulfilledAreCommitted(b)
    ensures FulfilledAreCommitted(UpdateStatus(b, o, st).books) <==> !SkipsCommit(b, Restatus(o, st))
  {
    var after := UpdateStatus(b, o, st).books;
    if SkipsCommit(b, Restatus(o, st)) {
      var i :| 0 <= i < |b.rows| && b.rows[i].orderId == o;
      assert after.rows[i].status == Active && after.orders[o].status == st;
    }
  }
}
