/** The statuses that one order goes through along a run, against the table of allowed moves. */
module Trails {
  import opened Common
  import opened OrderStatuses
  import opened BookKeeping
  import opened Protocol
  import opened Runs

  // The status of the order in every state of the run in which it is stored.
  function StatusTrail(s: Sys, ops: seq<Op>, o: string): seq<OrderStatus>
    decreases ops
  {
    (if o in s.db.books.orders then [s.db.books.orders[o].status] else [])
    + if ops == [] then [] else StatusTrail(Step(s, ops[0]), ops[1..], o)
  }

  ghost predicate Forward(trail: seq<OrderStatus>) {
    forall i :: 0 <= i < |trail| - 1 ==> Phase(trail[i]) <= Phase(trail[i + 1])
  }

  lemma PathCons(first: OrderStatus, rest: seq<OrderStatus>)
    requires rest != []
    ensures IsPath([first] + rest) <==> first.CanTransitionTo(rest[0]) && IsPath(rest)
    ensures Forward([first] + rest) <==> Phase(first) <= Phase(rest[0]) && Forward(rest)
  {
    var path := [first] + rest;
    assert forall i :: 0 <= i < |rest| ==> path[i + 1] == rest[i];
    if IsPath(path) {
      assert path[0].CanTransitionTo(path[0 + 1]);
      forall i | 0 <= i < |rest| - 1 ensures rest[i].CanTransitionTo(rest[i + 1]) {
        assert path[i + 1].CanTransitionTo(path[i + 1 + 1]);
      }
    }
    if Forward(path) {
      assert Phase(path[0]) <= Phase(path[0 + 1]);
      forall i | 0 <= i < |rest| - 1 ensures Phase(rest[i]) <= Phase(rest[i + 1]) {
        assert Phase(path[i + 1]) <= Phase(path[i + 1 + 1]);
      }
    }
  }

  ghost predicate NotNew(s: Sys, o: string) {
    o in s.db.books.orders ==> s.db.books.orders[o].status != New
  }

  lemma NotNewKept(s: Sys, op: Op, o: string)
    requires SysInv(s) && Enabled(s, op) && NotNew(s, o)
    ensures NotNew(Step(s, op), o)
  {
    CallsArePossible(s, op);
    StepIsCall(s, op);
    if o in s.db.books.orders {
      StatusMove(s.db.books, CallOf(s, op), o);
    } else if o in Step(s, op).db.books.orders {
      NewOrders(s.db.books, CallOf(s, op), o);
    }
  }

  lemma PaidOutOfTurn(s: Sys, op: Op, o: string)
    requires SysInv(s) && Enabled(s, op) && Occurs(PaysOutOfTurn(o), s.db.books, CallOf(s, op))
    ensures o in Step(s, op).db.books.orders && Step(s, op).db.books.orders[o].status == Paid
  {
    StepIsCall(s, op);
    StatusMove(s.db.books, Pay(o), o);
  }

  lemma TableMovesForward(a: OrderStatus, b: OrderStatus)
    ensures a.CanTransitionTo(b) ==> Phase(a) <= Phase(b)
    ensures a in {InProgress, Done} && b == Paid ==> Phase(b) < Phase(a)
  {
  }

  // One move goes back a phase exactly when it pays an order in InProgress or Done.
  lemma StepForward(s: Sys, op: Op, o: string)
    requires SysInv(s) && Enabled(s, op) && o in s.db.books.orders && s.db.books.orders[o].status != New
    ensures o in Step(s, op).db.books.orders && Step(s, op).db.books.orders[o].status != New
    ensures Phase(s.db.books.orders[o].status) <= Phase(Step(s, op).db.books.orders[o].status)
            <==> !Occurs(PaysOutOfTurn(o), s.db.books, CallOf(s, op))
  {
    NotNewKept(s, op, o);
    StepStatusMove(s, op, o);
    if Occurs(PaysOutOfTurn(o), s.db.books, CallOf(s, op)) {
      PaidOutOfTurn(s, op, o);
    }
    TableMovesForward(s.db.books.orders[o].status, Step(s, op).db.books.orders[o].status);
  }

  lemma TrailOfStored(s: Sys, ops: seq<Op>, o: string)
    requires ops != [] && o in s.db.books.orders && o in Step(s, ops[0]).db.books.orders
    ensures var a, b := s.db.books.orders[o].status, Step(s, ops[0]).db.books.orders[o].status;
            var trail, rest := StatusTrail(s, ops, o), StatusTrail(Step(s, ops[0]), ops[1..], o);
            && (IsPath(trail) <==> a.CanTransitionTo(b) && IsPath(rest))
            && (Forward(trail) <==> Phase(a) <= Phase(b) && Forward(rest))
  {
    PathCons(s.db.books.orders[o].status, StatusTrail(Step(s, ops[0]), ops[1..], o));
  }

  lemma TrailOfAbsent(s: Sys, ops: seq<Op>, o: string)
    requires ops != [] && o !in s.db.books.orders
    ensures StatusTrail(s, ops, o) == StatusTrail(Step(s, ops[0]), ops[1..], o)
    ensures !Occurs(PaysOutOfTurn(o), s.db.books, CallOf(s, ops[0]))
  {
  }

  lemma MoveOfStep(s: Sys, op: Op, o: string)
    requires SysInv(s) && Enabled(s, op) && o in s.db.books.orders
    ensures o in Step(s, op).db.books.orders
    ensures s.db.books.orders[o].status.CanTransitionTo(Step(s, op).db.books.orders[o].status)
            <==> !Occurs(PaysOutOfTurn(o), s.db.books, CallOf(s, op))
  {
    StepStatusMove(s, op, o);
  }

  lemma PathOfStep(s: Sys, ops: seq<Op>, o: string)
    requires SysInv(s) && ops != [] && Enabled(s, ops[0])
    ensures IsPath(StatusTrail(s, ops, o)) <==>
              !Occurs(PaysOutOfTurn(o), s.db.books, CallOf(s, ops[0]))
              && IsPath(StatusTrail(Step(s, ops[0]), ops[1..], o))
  {
    if o in s.db.books.orders {
      MoveOfStep(s, ops[0], o);
      TrailOfStored(s, ops, o);
    } else {
      TrailOfAbsent(s, ops, o);
    }
  }

  // Along every run, the statuses of an order follow the table exactly when the run never pays the order
  // in New, InProgress or Done.
  lemma {:induction false} TrailIsPathExact(s: Sys, ops: seq<Op>, o: string)
    requires SysInv(s) && Legal(s, ops)
    ensures IsPath(StatusTrail(s, ops, o)) <==> Never(PaysOutOfTurn(o), s, ops)
    decreases ops
  {
    if ops != [] {
      StepKeepsInv(s, ops[0]);
      TrailIsPathExact(Step(s, ops[0]), ops[1..], o);
      PathOfStep(s, ops, o);
    }
  }

  lemma ForwardOfStep(s: Sys, ops: seq<Op>, o: string)
    requires SysInv(s) && ops != [] && Enabled(s, ops[0]) && NotNew(s, o)
    ensures Forward(StatusTrail(s, ops, o)) <==>
              !Occurs(PaysOutOfTurn(o), s.db.books, CallOf(s, ops[0]))
              && Forward(StatusTrail(Step(s, ops[0]), ops[1..], o))
  {
    if o in s.db.books.orders {
      StepForward(s, ops[0], o);
      TrailOfStored(s, ops, o);
    } else {
      TrailOfAbsent(s, ops, o);
    }
  }

  // For an order that is not in New, and no reachable order is, fulfilment never goes back along a run
  // exactly under the same condition: an out-of-turn payment always undoes a phase.
  lemma {:induction false} ForwardExact(s: Sys, ops: seq<Op>, o: string)
    requires SysInv(s) && Legal(s, ops) && NotNew(s, o)
    ensures Forward(StatusTrail(s, ops, o)) <==> Never(PaysOutOfTurn(o), s, ops)
    decreases ops
  {
    if ops != [] {
      StepKeepsInv(s, ops[0]);
      NotNewKept(s, ops[0], o);
      ForwardExact(Step(s, ops[0]), ops[1..], o);
      ForwardOfStep(s, ops, o);
    }
  }

  lemma PathSuffix(path: seq<OrderStatus>, j: nat)
    requires IsPath(path) && j < |path|
    ensures IsPath(path[j..])
  {
    var later := path[j..];
    forall i | 0 <= i < |later| - 1 ensures later[i].CanTransitionTo(later[i + 1]) {
      assert path[j + i].CanTransitionTo(path[j + i + 1]);
    }
  }

  // One status of an order, and a later one: the phase did not go back, an order that left checkout did
  // not return, done and cancelled are final, and Paid comes from checkout.
  ghost predicate MovedForward(a: OrderStatus, b: OrderStatus) {
    && Phase(a) <= Phase(b)
    && (!a.IsOpen() ==> !b.IsOpen())
    && (a in {Done, Cancelled} ==> b == a)
    && (b == Paid && a != Paid ==> a in {PendingPayment, PaymentFailed})
  }

  lemma PathMovesForward(path: seq<OrderStatus>, j: nat, k: nat)
    requires IsPath(path) && j <= k < |path|
    ensures MovedForward(path[j], path[k])
  {
    PathSuffix(path, j);
    PathsMoveForward(path[j..], k - j);
  }

  // In a run without out-of-turn payments an order moves forward between any two states.
  lemma OrdersMoveForward(s: Sys, ops: seq<Op>, o: string, j: nat, k: nat)
    requires SysInv(s) && Legal(s, ops) && Never(PaysOutOfTurn(o), s, ops)
    requires j <= k < |StatusTrail(s, ops, o)|
    ensures MovedForward(StatusTrail(s, ops, o)[j], StatusTrail(s, ops, o)[k])
  {
    TrailIsPathExact(s, ops, o);
    PathMovesForward(StatusTrail(s, ops, o), j, k);
  }

  lemma LooseCons(first: OrderStatus, rest: seq<OrderStatus>)
    requires rest != [] && IsLoosePath(rest) && (first.CanTransitionTo(rest[0]) || rest[0] == Paid)
    ensures IsLoosePath([first] + rest)
  {
    var path := [first] + rest;
    forall i | 0 <= i < |path| - 1 ensures path[i].CanTransitionTo(path[i + 1]) || path[i + 1] == Paid {
      if i > 0 {
        assert rest[i - 1].CanTransitionTo(rest[i - 1 + 1]) || rest[i - 1 + 1] == Paid;
      }
    }
  }

  lemma StepIsLoose(s: Sys, op: Op, o: string)
    requires SysInv(s) && Enabled(s, op) && o in s.db.books.orders
    ensures o in Step(s, op).db.books.orders
    ensures s.db.books.orders[o].status.CanTransitionTo(Step(s, op).db.books.orders[o].status)
            || Step(s, op).db.books.orders[o].status == Paid
  {
    StepStatusMove(s, op, o);
    if Occurs(PaysOutOfTurn(o), s.db.books, CallOf(s, op)) {
      PaidOutOfTurn(s, op, o);
    }
  }

  lemma {:induction false} TrailIsLoose(s: Sys, ops: seq<Op>, o: string)
    requires SysInv(s) && Legal(s, ops)
    ensures IsLoosePath(StatusTrail(s, ops, o))
    decreases ops
  {
    if ops != [] {
      StepKeepsInv(s, ops[0]);
      TrailIsLoose(Step(s, ops[0]), ops[1..], o);
      if o in s.db.books.orders {
        StepIsLoose(s, ops[0], o);
        LooseCons(s.db.books.orders[o].status, StatusTrail(Step(s, ops[0]), ops[1..], o));
      } else {
        assert StatusTrail(s, ops, o) == StatusTrail(Step(s, ops[0]), ops[1..], o);
      }
    }
  }

  lemma {:induction false} NewTrailStartsPending(s: Sys, ops: seq<Op>, o: string)
    requires SysInv(s) && Legal(s, ops) && o !in s.db.books.orders
    ensures StatusTrail(s, ops, o) != [] ==> StatusTrail(s, ops, o)[0] == PendingPayment
    decreases ops
  {
    if ops != [] {
      StepKeepsInv(s, ops[0]);
      assert StatusTrail(s, ops, o) == StatusTrail(Step(s, ops[0]), ops[1..], o);
      if o in Step(s, ops[0]).db.books.orders {
        CallsArePossible(s, ops[0]);
        StepIsCall(s, ops[0]);
        NewOrders(s.db.books, CallOf(s, ops[0]), o);
      } else {
        NewTrailStartsPending(Step(s, ops[0]), ops[1..], o);
      }
    }
  }

  // Whatever happens in a run, an order placed in it is in fulfilment only after it was Paid, and done
  // only after it was in progress.
  lemma FulfilledWerePaid(s: Sys, ops: seq<Op>, o: string, k: nat)
    requires SysInv(s) && Legal(s, ops) && o !in s.db.books.orders && k < |StatusTrail(s, ops, o)|
    ensures var trail := StatusTrail(s, ops, o);
            && (trail[k] in {InProgress, Done} ==> exists j :: 0 <= j < k && trail[j] == Paid)
            && (trail[k] == Done ==> exists j :: 0 <= j < k && trail[j] == InProgress)
  {
    TrailIsLoose(s, ops, o);
    NewTrailStartsPending(s, ops, o);
    FulfilmentPassesThroughPaid(StatusTrail(s, ops, o), k);
  }
}
