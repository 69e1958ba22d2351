/**
 The store with its callers: one object that performs the steps of Runs.dfy by calling the methods of the
 shop. It ties the methods to the step relation, so what is proved over runs holds of their executions.
 */
module Server {
  import opened Common
  import opened OrderStatuses
  import opened Counters
  import opened Reservations
  import opened BookKeeping
  import opened Sweeping
  import opened Runs
  import opened Store

  class ShopServer {
    const shop: Shop
    var sweeps: map<nat, seq<Reservation>>

    constructor ()
      ensures State() == EMPTY_SHOP && fresh(shop)
    {
      shop := new Shop();
      sweeps := map[];
    }

    function State(): Sys
      reads this, shop
    {
      Sys(shop.View(), sweeps)
    }

    // One group transaction of a sweep under way; `fault` is a database error, which rolls it back.
    method VisitOne(k: nat, o: string, fault: bool)
      modifies this, shop
      ensures State() == Step(old(State()), Visit(k, o, fault))
    {
      if k !in sweeps {
        return;
      }
      var batch := sweeps[k];
      sweeps := sweeps[k := Others(batch, o)];
      if fault {
        return;
      }
      shop.SweepOne(o, Group(batch, o));
    }

    method MoveStock(op: Op)
      requires op.AddUnits? || op.TakeUnits? || op.EditUnits? || op.CreateProduct? || op.CreateCoupon?
      modifies shop
      ensures State() == Step(old(State()), op)
    {
      match op {
        case AddUnits(id, qty) => var _ := shop.AddStock(id, qty);
        case TakeUnits(id, qty) => var _ := shop.DecrementStock(id, qty);
        case EditUnits(id, stock) => var _ := shop.EditStock(id, stock);
        case CreateProduct(id, price, stock) => var _ := shop.CreateProduct(id, price, stock);
        case CreateCoupon(code, c) => var _ := shop.CreateCoupon(code, c);
      }
    }

    method MoveOrder(op: Op)
      requires op.Place? || op.PayOrder? || op.CancelOrder? || op.SetStatus? || op.Webhook? || op.CreatePayment?
      modifies shop
      ensures State() == Step(old(State()), op)
    {
      match op {
        case Place(req, newId, now) => var _ := shop.PlaceOrder(req, newId, now);
        case PayOrder(o) => var _ := shop.MarkOrderPaid(o);
        case CancelOrder(o, u) => var _ := shop.CancelOrder(o, u);
        case SetStatus(o, st) => var _ := shop.UpdateOrderStatus(o, st);
        case Webhook(ev) => var _ := shop.HandleWebhook(ev);
        case CreatePayment(o, intent) => var _ := shop.CreateIntentForOrder(o, intent);
      }
    }

    method Perform(op: Op)
      modifies this, shop
      ensures State() == Step(old(State()), op)
    {
      if op.Fetch? {
        sweeps := sweeps[op.sweep := op.batch];
      } else if op.Visit? {
        VisitOne(op.sweep, op.orderId, op.fault);
      } else if op.Place? || op.PayOrder? || op.CancelOrder? || op.SetStatus? || op.Webhook? || op.CreatePayment? {
        MoveOrder(op);
      } else {
        MoveStock(op);
      }
    }

    // Performing the steps of a run one by one ends in the state that the run theorems speak about.
    method Serve(ops: seq<Op>)
      modifies this, shop
      ensures State() == Exec(old(State()), ops)
      ensures old(SysInv(State()) && Legal(State(), ops)) ==>
                SysInv(State()) && OnlySettles(old(shop.rows), shop.rows)
    {
      ghost var begun := State();
      var i := 0;
      while i < |ops|
        invariant 0 <= i <= |ops|
        invariant Exec(State(), ops[i..]) == Exec(begun, ops)
      {
        assert ops[i..][0] == ops[i] && ops[i..][1..] == ops[i + 1..];
        Perform(ops[i]);
        i := i + 1;
      }
      assert ops[i..] == [];
      if SysInv(begun) && Legal(begun, ops) {
        RunsKeepInv(begun, ops);
      }
    }
  }
}
