/** All tables together, and the whole effect of each service call on them. */
module Database {
  import opened Common
  import opened OrderStatuses
  import opened Counters
  import opened Reservations
  import opened BookKeeping
  import opened Coupons

  datatype PaymentStatus = Pending | Processing | RequiresAction | Succeeded | Failed | Canceled

  datatype Payment = Payment(provider: string, intentId: string, amount: int, currency: string, status: PaymentStatus)

  // One payment per order: the order id is a unique column.
  type Payments = map<string, Payment>

  datatype EventKey = EventKey(provider: string, eventId: string)

  datatype Db = Db(books: Books, coupons: Coupons, payments: Payments, events: set<EventKey>)

  // ------------------------------------------------------------------ placing an order

  // The requested lines are demands: a product and a quantity each.
  datatype PlaceReq = PlaceReq(userId: string, couponCode: string, lines: seq<Demand>)

  const RESERVATION_TTL := 15 * 60

  predicate ValidRequest(req: PlaceReq) {
    && req.userId != ""
    && 0 < |req.lines| <= 5
    && forall i :: 0 <= i < |req.lines| ==> req.lines[i].productId != "" && req.lines[i].quantity > 0
  }

  predicate AllKnown(ps: Products, lines: seq<Demand>) {
    forall i :: 0 <= i < |lines| ==> lines[i].productId in ps
  }

  function PricedLine(ps: Products, line: Demand): OrderLine
    requires line.productId in ps
  {
    OrderLine(line.productId, line.quantity, ps[line.productId].price * line.quantity as real)
  }

  function Priced(ps: Products, lines: seq<Demand>): (r: seq<OrderLine>)
    requires AllKnown(ps, lines)
    ensures |r| == |lines|
    ensures forall i :: 0 <= i < |lines| ==> r[i] == PricedLine(ps, lines[i])
  {
    seq(|lines|, i requires 0 <= i < |lines| => PricedLine(ps, lines[i]))
  }

  function SumPrices(lines: seq<OrderLine>): real {
    if lines == [] then 0.0 else SumPrices(lines[..|lines| - 1]) + lines[|lines| - 1].price
  }

  function DiscountFor(coupons: Coupons, req: PlaceReq, total: real, now: int): Result<real> {
    if req.couponCode == "" then Ok(0.0) else Apply(coupons, req.couponCode, total, now)
  }

  // Everything PlaceOrder decides before its transaction: the order row it will store, or the error.
  function Quote(db: Db, req: PlaceReq, now: int): Result<Order> {
    if !ValidRequest(req) then Err(ValidationFailed)
    else if !AllKnown(db.books.products, req.lines) then Err(RecordNotFound)
    else
      var lines := Priced(db.books.products, req.lines);
      var total := SumPrices(lines);
      match DiscountFor(db.coupons, req, total, now)
      case Err(e) => Err(e)
      case Ok(discount) =>
        Ok(Order(req.userId, lines, total, discount, total - discount, req.couponCode, PendingPayment))
  }

  datatype DbOutcome = DbOutcome(db: Db, reply: Result<Order>)

  function PlaceOrder(db: Db, req: PlaceReq, newId: string, now: int): DbOutcome {
    match Quote(db, req, now)
    case Err(e) => DbOutcome(db, Err(e))
    case Ok(order) =>
      var ds := req.lines;
      if !Coverable(Reserve, db.books.products, ds) then
        var k := FirstRefused(Reserve, db.books.products, ds);
        DbOutcome(db, Err(InsufficientStock(ds[k].productId, ds[k].quantity)))
      else
        DbOutcome(db.(books := Accept(db.books, newId, order, ds, now + RESERVATION_TTL),
                      coupons := if req.couponCode == "" then db.coupons else IncrUsedCount(db.coupons, req.couponCode)),
                  Ok(order))
  }

  function Available(p: Product): int {
    p.stock - p.reserved
  }

  // For every product, the quantity summed over all lines fits the available stock.
  ghost predicate TotalsFit(ps: Products, ds: seq<Demand>) {
    forall id :: id in ps && Need(ds, id) > 0 ==> Need(ds, id) <= Available(ps[id])
  }

  // Line k is the first whose running total exceeds the available stock of its product.
  ghost predicate FirstShortage(ps: Products, ds: seq<Demand>, k: nat) {
    && k < |ds|
    && ds[k].productId in ps && Need(ds[..k + 1], ds[k].productId) > Available(ps[ds[k].productId])
    && forall j :: 0 <= j < k ==>
                     ds[j].productId in ps && Need(ds[..j + 1], ds[j].productId) <= Available(ps[ds[j].productId])
  }

  lemma LinesFitIffTotalsFit(ps: Products, ds: seq<Demand>)
    requires forall i :: 0 <= i < |ds| ==> ds[i].productId in ps && ds[i].quantity > 0
    ensures Coverable(Reserve, ps, ds) <==> TotalsFit(ps, ds)
  {
    if Coverable(Reserve, ps, ds) {
      forall id | id in ps && Need(ds, id) > 0 ensures Need(ds, id) <= Available(ps[id]) {
        TotalFits(Reserve, ps, ds, id);
      }
    }
    if TotalsFit(ps, ds) {
      forall i | 0 <= i < |ds|
        ensures ds[i].productId in ps && Need(ds, ds[i].productId) <= Slack(Reserve, ps[ds[i].productId])
      {
        NeedOfMember(ds, i);
      }
    }
  }

  lemma EarlierLineFits(ps: Products, ds: seq<Demand>, k: nat, j: nat)
    requires j < k <= |ds| && Coverable(Reserve, ps, ds[..k])
    ensures ds[j].productId in ps && Need(ds[..j + 1], ds[j].productId) <= Available(ps[ds[j].productId])
  {
    FitsInPrefix(Reserve, ps, ds, k, j);
  }

  lemma RefusalIsFirstShortage(ps: Products, ds: seq<Demand>, k: nat)
    requires k < |ds| && Coverable(Reserve, ps, ds[..k])
    requires ds[k].productId in ps && Need(ds[..k + 1], ds[k].productId) > Slack(Reserve, ps[ds[k].productId])
    ensures FirstShortage(ps, ds, k)
  {
    forall j | 0 <= j < k
      ensures ds[j].productId in ps && Need(ds[..j + 1], ds[j].productId) <= Available(ps[ds[j].productId])
    {
      EarlierLineFits(ps, ds, k, j);
    }
  }

  // PlaceOrder accepts an order exactly when the request is valid, every product exists, the coupon
  // applies and for every product the quantity summed over all lines fits the available stock.
  // Otherwise every table is unchanged, and a stock refusal names the product of the first line whose
  // running total is too large.
  lemma PlaceOrderExact(db: Db, req: PlaceReq, newId: string, now: int)
    ensures PlaceOrder(db, req, newId, now).reply.Ok? <==>
              Quote(db, req, now).Ok? && TotalsFit(db.books.products, req.lines)
    ensures PlaceOrder(db, req, newId, now).reply.Err? ==> PlaceOrder(db, req, newId, now).db == db
    ensures Quote(db, req, now).Ok? && PlaceOrder(db, req, newId, now).reply.Err? ==>
              var ds := req.lines; var k := FirstRefused(Reserve, db.books.products, ds);
              && FirstShortage(db.books.products, ds, k)
              && PlaceOrder(db, req, newId, now).reply.error == InsufficientStock(ds[k].productId, ds[k].quantity)
  {
    if Quote(db, req, now).Ok? {
      var ps, ds := db.books.products, req.lines;
      forall i | 0 <= i < |ds| ensures ds[i].productId in ps && ds[i].quantity > 0 {
        assert req.lines[i].productId in ps;
      }
      LinesFitIffTotalsFit(ps, ds);
      if !Coverable(Reserve, ps, ds) {
        RefusalIsFirstShortage(ps, ds, FirstRefused(Reserve, ps, ds));
      }
    }
  }

  // Reordering the lines changes neither the quote, but for the order of its lines, nor the stock
  // verdict, nor the counters afterwards.
  lemma LineOrderIrrelevant(db: Db, a: PlaceReq, b: PlaceReq, newId: string, now: int)
    requires a.userId == b.userId && a.couponCode == b.couponCode && multiset(a.lines) == multiset(b.lines)
    ensures PlaceOrder(db, a, newId, now).reply.Ok? <==> PlaceOrder(db, b, newId, now).reply.Ok?
    ensures PlaceOrder(db, a, newId, now).db.books.products == PlaceOrder(db, b, newId, now).db.books.products
    ensures PlaceOrder(db, a, newId, now).reply.Ok? ==>
              PlaceOrder(db, b, newId, now).reply.value
              == PlaceOrder(db, a, newId, now).reply.value.(lines := PlaceOrder(db, b, newId, now).reply.value.lines)
  {
    QuoteOfPermutation(db, a, b, now);
    OrderOfDemandsIrrelevant(Reserve, db.books.products, a.lines, b.lines);
  }

  lemma ValidOfPermutation(ps: Products, a: PlaceReq, b: PlaceReq)
    requires a.userId == b.userId && multiset(a.lines) == multiset(b.lines)
    ensures ValidRequest(a) ==> ValidRequest(b)
    ensures AllKnown(ps, a.lines) ==> AllKnown(ps, b.lines)
  {
    SameMembers(b.lines, a.lines);
  }

  lemma QuoteOfPermutation(db: Db, a: PlaceReq, b: PlaceReq, now: int)
    requires a.userId == b.userId && a.couponCode == b.couponCode && multiset(a.lines) == multiset(b.lines)
    ensures Quote(db, a, now).Ok? <==> Quote(db, b, now).Ok?
    ensures Quote(db, a, now).Ok? ==> Quote(db, b, now).value == Quote(db, a, now).value.(lines := Quote(db, b, now).value.lines)
  {
    ValidOfPermutation(db.books.products, a, b);
    ValidOfPermutation(db.books.products, b, a);
    if ValidRequest(a) && AllKnown(db.books.products, a.lines) {
      TotalOfPermutation(db.books.products, a.lines, b.lines);
    }
  }

  function Mapped<A, B>(f: A -> B, s: seq<A>): (r: seq<B>)
    ensures |r| == |s|
    ensures forall i :: 0 <= i < |s| ==> r[i] == f(s[i])
  {
    seq(|s|, i requires 0 <= i < |s| => f(s[i]))
  }

  lemma MultisetOfRemoved<T>(s: seq<T>, j: nat)
    requires j < |s|
    ensures multiset(s) == multiset(s[..j] + s[j + 1..]) + multiset{s[j]}
  {
    assert s == s[..j] + [s[j]] + s[j + 1..];
  }

  lemma MappedOfRemoved<A, B>(f: A -> B, s: seq<A>, j: nat)
    requires j < |s|
    ensures multiset(Mapped(f, s)) == multiset(Mapped(f, s[..j] + s[j + 1..])) + multiset{f(s[j])}
  {
    var m := Mapped(f, s);
    assert Mapped(f, s[..j] + s[j + 1..]) == m[..j] + m[j + 1..];
    MultisetOfRemoved(m, j);
  }

  lemma {:induction false} MappedOfPermutation<A, B>(f: A -> B, a: seq<A>, b: seq<A>)
    requires multiset(a) == multiset(b)
    ensures multiset(Mapped(f, a)) == multiset(Mapped(f, b))
  {
    SameMembers(a, b);
    if a != [] {
      var n := |a| - 1;
      var j := RemoveOne(a, b);
      MappedOfPermutation(f, a[..n], b[..j] + b[j + 1..]);
      MappedOfRemoved(f, a, n);
      MappedOfRemoved(f, b, j);
      assert a[..n] + a[n + 1..] == a[..n];
    }
  }

  lemma {:induction false} SumConcat(a: seq<OrderLine>, b: seq<OrderLine>)
    ensures SumPrices(a + b) == SumPrices(a) + SumPrices(b)
  {
    if b == [] {
      assert a + b == a;
    } else {
      SumConcat(a, b[..|b| - 1]);
      assert (a + b)[..|a + b| - 1] == a + b[..|b| - 1];
    }
  }

  lemma {:induction false} SumOfPermutation(a: seq<OrderLine>, b: seq<OrderLine>)
    requires multiset(a) == multiset(b)
    ensures SumPrices(a) == SumPrices(b)
  {
    SameMembers(a, b);
    if a != [] {
      var j := RemoveOne(a, b);
      SumOfPermutation(a[..|a| - 1], b[..j] + b[j + 1..]);
      SumConcat(b[..j], b[j + 1..]);
      SumConcat(b[..j + 1], b[j + 1..]);
      assert b == b[..j + 1] + b[j + 1..];
      assert b[..j + 1][..j] == b[..j];
    }
  }

  lemma TotalOfPermutation(ps: Products, a: seq<Demand>, b: seq<Demand>)
    requires multiset(a) == multiset(b) && AllKnown(ps, a) && AllKnown(ps, b)
    ensures SumPrices(Priced(ps, a)) == SumPrices(Priced(ps, b))
  {
    var f := (l: Demand) => if l.productId in ps then PricedLine(ps, l) else OrderLine("", 0, 0.0);
    MappedOfPermutation(f, a, b);
    assert Priced(ps, a) == Mapped(f, a) && Priced(ps, b) == Mapped(f, b);
    SumOfPermutation(Priced(ps, a), Priced(ps, b));
  }

  // ------------------------------------------------------------------ payments and webhooks

  datatype EventKind =
    | IntentSucceeded
    | IntentFailed
    | IntentCanceled
    | IntentProcessing
    | IntentRequiresAction
    | OtherEvent(text: string)

  datatype Event = Event(id: string, kind: EventKind, orderId: string)

  const PROVIDER := "stripe"

  // Conversion of a float to int64 cuts towards zero.
  function Truncated(x: real): int {
    if x >= 0.0 then x.Floor else -(-x).Floor
  }

  // `intent` is the provider's answer: the intent's id, or nothing when the provider call failed.
  function CreateIntent(db: Db, orderId: string, intent: Option<string>): (r: (Db, Option<Error>)) {
    if orderId !in db.books.orders then (db, Some(RecordNotFound))
    else if db.books.orders[orderId].status != PendingPayment then (db, Some(NotPendingPayment))
    else if intent.None? then (db, Some(ProviderFailure))
    else if orderId in db.payments then (db, None)
    else
      var amount := Truncated(db.books.orders[orderId].finalPrice * 100.0);
      (db.(payments := db.payments[orderId := Payment(PROVIDER, intent.value, amount, "usd", Pending)]), None)
  }

  function PaymentStatusFor(kind: EventKind): Option<PaymentStatus> {
    match kind
    case IntentSucceeded => Some(Succeeded)
    case IntentFailed => Some(Failed)
    case IntentCanceled => Some(Canceled)
    case IntentProcessing => Some(Processing)
    case IntentRequiresAction => Some(RequiresAction)
    case OtherEvent(_) => None
  }

  // What a verified event asks of the order service.
  function OrderCallFor(ev: Event): Call {
    match ev.kind
    case IntentSucceeded => Pay(ev.orderId)
    case IntentFailed => Restatus(ev.orderId, PaymentFailed)
    case IntentCanceled => Restatus(ev.orderId, Cancelled)
    case _ => Untouched
  }

  function OrderReplyFor(b: Books, ev: Event): Option<Error> {
    match ev.kind
    case IntentSucceeded => ErrorOf(MarkPaid(b, ev.orderId).reply)
    case IntentFailed => ErrorOf(UpdateStatus(b, ev.orderId, PaymentFailed).reply)
    case IntentCanceled => ErrorOf(UpdateStatus(b, ev.orderId, Cancelled).reply)
    case _ => None
  }

  function ErrorOf<T>(r: Result<T>): Option<Error> {
    match r
    case Ok(_) => None
    case Err(e) => Some(e)
  }

  // Handling is not one transaction: the event record survives a later error, and so does the payment
  // status when the order service refuses.
  function HandleWebhook(db: Db, ev: Event): (Db, Option<Error>) {
    var key := EventKey(PROVIDER, ev.id);
    if key in db.events then (db, None)
    else
      var recorded := db.(events := db.events + {key});
      if ev.orderId == "" then (recorded, Some(MissingOrderId))
      else if ev.orderId !in db.payments then (recorded, Some(RecordNotFound))
      else
        var status := PaymentStatusFor(ev.kind);
        if status.None? then (recorded, None)
        else
          var payment := db.payments[ev.orderId].(status := status.value);
          (recorded.(payments := db.payments[ev.orderId := payment], books := Do(db.books, OrderCallFor(ev))),
           OrderReplyFor(db.books, ev))
  }
}
