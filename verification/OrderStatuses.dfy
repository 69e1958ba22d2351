/** Order statuses and the table of allowed moves. */
module OrderStatuses {

  // Statuses are text columns; Unrecognized is any text outside the seven named values.
  datatype OrderStatus =
    | New
    | PendingPayment
    | Paid
    | InProgress
    | Done
    | Cancelled
    | PaymentFailed
    | Unrecognized(text: string)
  {
    predicate IsValid() {
      !Unrecognized?
    }

    // An idempotent move is always accepted, whatever the status.
    predicate CanTransitionTo(next: OrderStatus) {
      this == next || next in AllowedTransitions(this)
    }

    // Statuses in which the order still holds its reservations.
    predicate IsOpen() {
      New? || PendingPayment? || PaymentFailed?
    }
  }

  function AllowedTransitions(s: OrderStatus): set<OrderStatus> {
    match s
    case New => {InProgress, Cancelled}
    case PendingPayment => {Paid, PaymentFailed, Cancelled}
    case Paid => {InProgress, Cancelled}
    case InProgress => {Done, Cancelled}
    case PaymentFailed => {Cancelled, PendingPayment}
    case Done => {}
    case Cancelled => {}
    case Unrecognized(_) => {}
  }

  // How far fulfilment has progressed. The two checkout statuses share a level, because they form
  // the only cycle of the table.
  function Phase(s: OrderStatus): nat {
    match s
    case New => 0
    case PendingPayment => 0
    case PaymentFailed => 0
    case Paid => 1
    case InProgress => 2
    case Done => 3
    case Cancelled => 3
    case Unrecognized(_) => 0
  }

  ghost predicate IsPath(path: seq<OrderStatus>) {
    forall i :: 0 <= i < |path| - 1 ==> path[i].CanTransitionTo(path[i + 1])
  }

  // Along any chain of moves the table accepts: the phase never goes back, an order that left
  // checkout never reopens, a terminal status is never left, and Paid is only entered from
  // PendingPayment.
  lemma {:induction false} PathsMoveForward(path: seq<OrderStatus>, k: nat)
    requires IsPath(path) && k < |path|
    ensures Phase(path[0]) <= Phase(path[k])
    ensures !path[0].IsOpen() ==> !path[k].IsOpen()
    ensures path[0] in {Done, Cancelled} ==> path[k] == path[0]
    ensures path[k] in {PendingPayment, PaymentFailed} ==> path[0] in {PendingPayment, PaymentFailed}
    ensures path[k] == Paid && path[0] != Paid ==> path[0] in {PendingPayment, PaymentFailed}
    ensures path[0].IsValid() ==> path[k].IsValid()
  {
    if k > 0 {
      PathsMoveForward(path, k - 1);
      assert path[k - 1].CanTransitionTo(path[k - 1 + 1]);
    }
  }

  // The moves by their target. Staying put is always accepted.
  lemma AcceptedMoves(a: OrderStatus, b: OrderStatus)
    ensures a == b ==> a.CanTransitionTo(b)
    ensures a != b ==>
              (a.CanTransitionTo(b) <==>
                || (b == Paid && a == PendingPayment)
                || (b == InProgress && (a == New || a == Paid))
                || (b == Done && a == InProgress)
                || (b == PaymentFailed && a == PendingPayment)
                || (b == PendingPayment && a == PaymentFailed)
                || (b == Cancelled && (a == New || a == PendingPayment || a == Paid || a == InProgress || a == PaymentFailed)))
  {
  }

  // A path that may besides jump to Paid, as paying an order does.
  ghost predicate IsLoosePath(path: seq<OrderStatus>) {
    forall i :: 0 <= i < |path| - 1 ==> path[i].CanTransitionTo(path[i + 1]) || path[i + 1] == Paid
  }

  lemma {:induction false} NewIsNotReentered(path: seq<OrderStatus>, k: nat)
    requires IsLoosePath(path) && k < |path| && path[0] != New
    ensures path[k] != New
  {
    if k > 0 {
      NewIsNotReentered(path, k - 1);
      AcceptedMoves(path[k - 1], path[k]);
      assert path[k - 1].CanTransitionTo(path[k - 1 + 1]) || path[k - 1 + 1] == Paid;
    }
  }

  // No order leaves checkout for fulfilment without being paid, or is done without being in progress.
  lemma {:induction false} FulfilmentPassesThroughPaid(path: seq<OrderStatus>, k: nat)
    requires IsLoosePath(path) && k < |path| && path[0] in {PendingPayment, PaymentFailed}
    ensures path[k] in {InProgress, Done} ==> exists j :: 0 <= j < k && path[j] == Paid
    ensures path[k] == Done ==> exists j :: 0 <= j < k && path[j] == InProgress
  {
    if k > 0 {
      FulfilmentPassesThroughPaid(path, k - 1);
      NewIsNotReentered(path, k - 1);
      AcceptedMoves(path[k - 1], path[k]);
      assert path[k - 1].CanTransitionTo(path[k - 1 + 1]) || path[k - 1 + 1] == Paid;
    }
  }
}
