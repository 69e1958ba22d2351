/** What each kind of payment event does to the tables, and what is reported back to the provider. */
module Webhooks {
  import opened Common
  import opened OrderStatuses
  import opened Counters
  import opened Reservations
  import opened BookKeeping
  import opened Database
  import opened Protocol
  import opened Runs
  import opened Outcomes

  // A first delivery for a stored order with a payment row.
  predicate IsFirst(db: Db, ev: Event) {
    && EventKey("stripe", ev.id) !in db.events
    && ev.orderId != "" && ev.orderId in db.payments && ev.orderId in db.books.orders
  }

  // Deliveries that go no further: repeated ones are silent, the others are recorded and refused.
  lemma DroppedDeliveries(db: Db, ev: Event)
    ensures EventKey("stripe", ev.id) in db.events ==> HandleWebhook(db, ev) == (db, None)
    ensures EventKey("stripe", ev.id) !in db.events && ev.orderId == "" ==>
              HandleWebhook(db, ev) == (db.(events := db.events + {EventKey("stripe", ev.id)}), Some(MissingOrderId))
    ensures EventKey("stripe", ev.id) !in db.events && ev.orderId != "" && ev.orderId !in db.payments ==>
              HandleWebhook(db, ev) == (db.(events := db.events + {EventKey("stripe", ev.id)}), Some(RecordNotFound))
  {
  }

  // Every first delivery records its event, keeps the coupons and touches no payment but the order's,
  // which keeps everything but its status.
  lemma DeliveryRecords(s: Sys, ev: Event, o: string)
    requires IsFirst(s.db, ev) && o in s.db.payments
    ensures var after := Step(s, Webhook(ev)).db; var status := after.payments[ev.orderId].status;
            && after.events == s.db.events + {EventKey("stripe", ev.id)}
            && after.coupons == s.db.coupons
            && after.payments.Keys == s.db.payments.Keys
            && after.payments[o] == if o == ev.orderId then s.db.payments[o].(status := status) else s.db.payments[o]
  {
  }

  // The payment status after each kind of event.
  lemma PaymentStatusAfter(s: Sys, ev: Event)
    requires IsFirst(s.db, ev)
    ensures var after := Step(s, Webhook(ev)).db.payments;
            && ev.orderId in after
            && after[ev.orderId].status ==
                 match ev.kind
                 case IntentSucceeded => Succeeded
                 case IntentFailed => Failed
                 case IntentCanceled => Canceled
                 case IntentProcessing => Processing
                 case IntentRequiresAction => RequiresAction
                 case OtherEvent(_) => s.db.payments[ev.orderId].status
  {
  }

  // Processing, requires-action and unknown events leave orders, rows and counters alone.
  lemma QuietEvents(s: Sys, ev: Event)
    requires IsFirst(s.db, ev) && (ev.kind.IntentProcessing? || ev.kind.IntentRequiresAction? || ev.kind.OtherEvent?)
    ensures Step(s, Webhook(ev)).db.books == s.db.books && HandleWebhook(s.db, ev).1 == None
  {
  }

  // A failed attempt ends in PaymentFailed exactly from PendingPayment or PaymentFailed; from any other
  // status the books stay and the error is reported.
  lemma FailedEventExact(s: Sys, ev: Event)
    requires IsFirst(s.db, ev) && ev.kind == IntentFailed
    ensures var was := s.db.books.orders[ev.orderId]; var (after, failure) := HandleWebhook(s.db, ev);
            if was.status == PendingPayment || was.status == PaymentFailed
            then after.books == s.db.books.(orders := s.db.books.orders[ev.orderId := was.(status := PaymentFailed)])
                 && failure == None
            else after.books == s.db.books && failure == Some(InvalidStatus)
    ensures Step(s, Webhook(ev)).db == HandleWebhook(s.db, ev).0
  {
    StatusUpdateExact(s.db.books, ev.orderId, PaymentFailed);
  }

  // A canceled intent cancels the order exactly unless it is done; its rows and counters stay.
  lemma CanceledEventExact(s: Sys, ev: Event)
    requires SysInv(s) && IsFirst(s.db, ev) && ev.kind == IntentCanceled
    ensures var was := s.db.books.orders[ev.orderId]; var (after, failure) := HandleWebhook(s.db, ev);
            if was.status != Done
            then after.books == s.db.books.(orders := s.db.books.orders[ev.orderId := was.(status := Cancelled)])
                 && failure == None
            else after.books == s.db.books && failure == Some(InvalidStatus)
    ensures Step(s, Webhook(ev)).db == HandleWebhook(s.db, ev).0
  {
    assert s.db.books.orders[ev.orderId].status.IsValid();
    StatusUpdateExact(s.db.books, ev.orderId, Cancelled);
  }

  lemma SuccessPays(s: Sys, ev: Event)
    requires IsFirst(s.db, ev) && ev.kind == IntentSucceeded
    ensures HandleWebhook(s.db, ev).0.books == MarkPaid(s.db.books, ev.orderId).books
    ensures HandleWebhook(s.db, ev).1 == ErrorOf(MarkPaid(s.db.books, ev.orderId).reply)
    ensures Step(s, Webhook(ev)).db == HandleWebhook(s.db, ev).0
  {
  }

  // A success leaves the books as they are exactly for a cancelled or failed order, and then reports the
  // error, or for an order that is Paid already.
  lemma SucceededEventSkips(s: Sys, ev: Event)
    requires SysInv(s) && IsFirst(s.db, ev) && ev.kind == IntentSucceeded
    requires s.db.books.orders[ev.orderId].status in {Cancelled, PaymentFailed, Paid}
    ensures Step(s, Webhook(ev)).db.books == s.db.books
    ensures HandleWebhook(s.db, ev).1
            == if s.db.books.orders[ev.orderId].status == Paid then None else Some(InvalidStatus)
  {
    SuccessPays(s, ev);
    PayReplies(s.db.books, ev.orderId);
  }

  // In every other status the order becomes Paid, exactly its active rows are committed and both counters
  // drop by their units.
  lemma SucceededEventPays(s: Sys, ev: Event, p: string)
    requires SysInv(s) && IsFirst(s.db, ev) && ev.kind == IntentSucceeded
    requires s.db.books.orders[ev.orderId].status !in {Cancelled, PaymentFailed, Paid}
    ensures HandleWebhook(s.db, ev).1 == None
    ensures var b, after := s.db.books, Step(s, Webhook(ev)).db.books;
            && after.orders == b.orders[ev.orderId := b.orders[ev.orderId].(status := Paid)]
            && OrderRowsTook(b.rows, after.rows, ev.orderId, Committed)
            && after.products.Keys == b.products.Keys
            && (p in b.products ==>
                  after.products[p] == Product(b.products[p].price,
                                               b.products[p].stock - Freed(b.rows, after.rows, p),
                                               b.products[p].reserved - Freed(b.rows, after.rows, p)))
  {
    SuccessPays(s, ev);
    PayReplies(s.db.books, ev.orderId);
    PayEffect(s.db.books, ev.orderId, p);
  }
}
