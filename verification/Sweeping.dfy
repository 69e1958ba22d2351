/** One sweep on its own: grouping the fetched rows by order and settling the groups one after the other. */
module Sweeping {
  import opened OrderStatuses
  import opened Counters
  import opened Reservations
  import opened BookKeeping

  // The fetched rows of one order.
  function Group(batch: seq<Reservation>, orderId: string): seq<Reservation> {
    if batch == [] then []
    else
      var r := batch[|batch| - 1];
      Group(batch[..|batch| - 1], orderId) + if r.orderId == orderId then [r] else []
  }

  function Others(batch: seq<Reservation>, orderId: string): seq<Reservation> {
    if batch == [] then []
    else
      var r := batch[|batch| - 1];
      Others(batch[..|batch| - 1], orderId) + if r.orderId == orderId then [] else [r]
  }

  lemma {:induction false} GroupExact(batch: seq<Reservation>, o: string)
    ensures forall r :: r in Group(batch, o) <==> r in batch && r.orderId == o
    ensures forall r :: r in Others(batch, o) <==> r in batch && r.orderId != o
  {
    if batch != [] {
      GroupExact(batch[..|batch| - 1], o);
      assert batch == batch[..|batch| - 1] + [batch[|batch| - 1]];
    }
  }

  lemma {:induction false} GroupDistinct(batch: seq<Reservation>, o: string)
    requires DistinctIds(batch)
    ensures DistinctIds(Group(batch, o)) && DistinctIds(Others(batch, o))
  {
    if batch != [] {
      var init, r := batch[..|batch| - 1], batch[|batch| - 1];
      GroupDistinct(init, o);
      GroupExact(init, o);
      forall x | x in init ensures x.id != r.id {
        var j :| 0 <= j < |init| && init[j] == x;
        assert batch[j].id != batch[|batch| - 1].id;
      }
      SnocDistinct(Group(init, o), r);
      SnocDistinct(Others(init, o), r);
    }
  }

  lemma SnocDistinct(g: seq<Reservation>, r: Reservation)
    requires DistinctIds(g) && forall x :: x in g ==> x.id != r.id
    ensures DistinctIds(g + [r])
  {
    forall i, j | 0 <= i < j < |g + [r]| ensures (g + [r])[i].id != (g + [r])[j].id {
      assert g[i] in g;
    }
  }

  lemma GroupKeepsTrace(rows: Rows, batch: seq<Reservation>, o: string)
    requires Stale(rows, batch) && AllActive(batch)
    ensures Stale(rows, Group(batch, o)) && AllActive(Group(batch, o))
    ensures Stale(rows, Others(batch, o)) && AllActive(Others(batch, o))
    ensures forall i :: 0 <= i < |Group(batch, o)| ==> Group(batch, o)[i].orderId == o
  {
    GroupExact(batch, o);
    GroupDistinct(batch, o);
    forall r | r in batch
      ensures r.id < |rows| && rows[r.id] == r.(status := rows[r.id].status) && r.status == Active
    {
      var j :| 0 <= j < |batch| && batch[j] == r;
    }
    forall i | 0 <= i < |Group(batch, o)| ensures Group(batch, o)[i] in batch {
    }
    forall i | 0 <= i < |Others(batch, o)| ensures Others(batch, o)[i] in batch {
    }
  }

  function OrdersOf(batch: seq<Reservation>): set<string> {
    set r | r in batch :: r.orderId
  }

  // The fetched rows that the sweep settles once it has visited the given orders: those whose order is
  // missing, new or pending payment.
  function Reached(orders: Orders, batch: seq<Reservation>, visited: set<string>): seq<Reservation> {
    if batch == [] then []
    else
      var r := batch[|batch| - 1];
      Reached(orders, batch[..|batch| - 1], visited)
      + if r.orderId in visited && Sweepable(orders, r.orderId) then [r] else []
  }

  // The whole effect of the visits at once: reached rows are released, the existing orders among those
  // visited are cancelled if they can be swept, and each counter drops by the sum of its reached rows.
  function CancelSwept(orders: Orders, visited: set<string>): Orders {
    map o | o in orders :: if o in visited && Sweepable(orders, o) then orders[o].(status := Cancelled) else orders[o]
  }

  function SweepDone(b: Books, batch: seq<Reservation>, visited: set<string>): Books {
    var g := Reached(b.orders, batch, visited);
    Books(AllMoved(Release, b.products, DemandsOf(g)), CancelSwept(b.orders, visited), WithStatus(b.rows, Ids(g), Released))
  }

  // Rows counted by the sweep for the orders it visited, whether it settled them or skipped them.
  function CountedRows(batch: seq<Reservation>, visited: set<string>): nat {
    if batch == [] then 0
    else CountedRows(batch[..|batch| - 1], visited) + if batch[|batch| - 1].orderId in visited then 1 else 0
  }

  function SkippedRows(orders: Orders, batch: seq<Reservation>, visited: set<string>): nat {
    if batch == [] then 0
    else
      var r := batch[|batch| - 1];
      SkippedRows(orders, batch[..|batch| - 1], visited)
      + if r.orderId in visited && !Sweepable(orders, r.orderId) then 1 else 0
  }

  // The count a sweep returns exceeds the rows it released by exactly the rows of skipped groups.
  lemma {:induction false} CountExcess(orders: Orders, batch: seq<Reservation>, visited: set<string>)
    ensures CountedRows(batch, visited) == |Reached(orders, batch, visited)| + SkippedRows(orders, batch, visited)
  {
    if batch != [] {
      CountExcess(orders, batch[..|batch| - 1], visited);
    }
  }

  lemma {:induction false} CountOfAll(batch: seq<Reservation>, visited: set<string>)
    requires forall i :: 0 <= i < |batch| ==> batch[i].orderId in visited
    ensures CountedRows(batch, visited) == |batch|
  {
    if batch != [] {
      CountOfAll(batch[..|batch| - 1], visited);
    }
  }

  lemma {:induction false} CountOfVisit(batch: seq<Reservation>, visited: set<string>, o: string)
    requires o !in visited
    ensures CountedRows(batch, visited + {o}) == CountedRows(batch, visited) + |Group(batch, o)|
  {
    if batch != [] {
      CountOfVisit(batch[..|batch| - 1], visited, o);
    }
  }

  lemma {:induction false} ReachedExact(orders: Orders, batch: seq<Reservation>, visited: set<string>)
    ensures forall r :: r in Reached(orders, batch, visited) <==>
                          r in batch && r.orderId in visited && Sweepable(orders, r.orderId)
  {
    if batch != [] {
      ReachedExact(orders, batch[..|batch| - 1], visited);
      assert batch == batch[..|batch| - 1] + [batch[|batch| - 1]];
    }
  }

  lemma {:induction false} ReachedDistinct(orders: Orders, batch: seq<Reservation>, visited: set<string>)
    requires DistinctIds(batch)
    ensures DistinctIds(Reached(orders, batch, visited))
  {
    if batch != [] {
      var init, r := batch[..|batch| - 1], batch[|batch| - 1];
      ReachedDistinct(orders, init, visited);
      ReachedExact(orders, init, visited);
      forall x | x in init ensures x.id != r.id {
        var j :| 0 <= j < |init| && init[j] == x;
        assert batch[j].id != batch[|batch| - 1].id;
      }
      SnocDistinct(Reached(orders, init, visited), r);
    }
  }

  lemma {:induction false} NeedOfVisit(orders: Orders, batch: seq<Reservation>, visited: set<string>, o: string, p: string)
    requires o !in visited
    ensures Need(DemandsOf(Reached(orders, batch, visited + {o})), p)
            == Need(DemandsOf(Reached(orders, batch, visited)), p)
               + if Sweepable(orders, o) then Need(DemandsOf(Group(batch, o)), p) else 0
  {
    if batch != [] {
      var init, r := batch[..|batch| - 1], batch[|batch| - 1];
      NeedOfVisit(orders, init, visited, o, p);
      NeedOfReached(orders, batch, visited + {o}, p);
      NeedOfReached(orders, batch, visited, p);
      NeedOfOptional(Group(init, o), r, p);
    }
  }

  lemma NeedOfReached(orders: Orders, batch: seq<Reservation>, visited: set<string>, p: string)
    requires batch != []
    ensures var r := batch[|batch| - 1];
            Need(DemandsOf(Reached(orders, batch, visited)), p)
            == Need(DemandsOf(Reached(orders, batch[..|batch| - 1], visited)), p)
               + if r.orderId in visited && Sweepable(orders, r.orderId) && r.productId == p then r.quantity else 0
  {
    NeedOfOptional(Reached(orders, batch[..|batch| - 1], visited), batch[|batch| - 1], p);
  }

  lemma NeedOfOptional(g: seq<Reservation>, r: Reservation, p: string)
    ensures Need(DemandsOf(g + [r]), p) == Need(DemandsOf(g), p) + if r.productId == p then r.quantity else 0
    ensures g + [] == g
  {
    NeedOfLast(g + [r], p);
    assert (g + [r])[..|g|] == g;
  }

  lemma VisitIds(orders: Orders, batch: seq<Reservation>, visited: set<string>, o: string, id: nat)
    ensures id in Ids(Reached(orders, batch, visited + {o})) <==>
              id in Ids(Reached(orders, batch, visited)) || (Sweepable(orders, o) && id in Ids(Group(batch, o)))
  {
    IdsOfMember(Reached(orders, batch, visited + {o}), id);
    IdsOfMember(Reached(orders, batch, visited), id);
    IdsOfMember(Group(batch, o), id);
    ReachedExact(orders, batch, visited);
    ReachedExact(orders, batch, visited + {o});
    GroupExact(batch, o);
  }

  // What a visit does to rows and orders does not depend on the counters.
  lemma VisitRows(b: Books, batch: seq<Reservation>, visited: set<string>, o: string)
    ensures WithStatus(b.rows, Ids(Reached(b.orders, batch, visited + {o})), Released)
            == if Sweepable(b.orders, o)
               then WithStatus(WithStatus(b.rows, Ids(Reached(b.orders, batch, visited)), Released), Ids(Group(batch, o)), Released)
               else WithStatus(b.rows, Ids(Reached(b.orders, batch, visited)), Released)
  {
    forall i | 0 <= i < |b.rows|
      ensures i in Ids(Reached(b.orders, batch, visited + {o})) <==>
                i in Ids(Reached(b.orders, batch, visited)) || (Sweepable(b.orders, o) && i in Ids(Group(batch, o)))
    {
      VisitIds(b.orders, batch, visited, o, i);
    }
  }

  lemma VisitOrders(orders: Orders, visited: set<string>, o: string)
    requires o !in visited
    ensures Sweepable(CancelSwept(orders, visited), o) == Sweepable(orders, o)
    ensures CancelSwept(orders, visited + {o})
            == if Sweepable(orders, o) && o in orders
               then CancelSwept(orders, visited)[o := orders[o].(status := Cancelled)]
               else CancelSwept(orders, visited)
  {
  }

  lemma IdsOfMember(g: seq<Reservation>, id: nat)
    ensures id in Ids(g) <==> exists r :: r in g && r.id == id
  {
    IdsMember(g, id);
    if r :| r in g && r.id == id {
      var j :| 0 <= j < |g| && g[j] == r;
    }
  }

  lemma GroupCovered(b: Books, batch: seq<Reservation>, visited: set<string>, o: string)
    requires Consistent(b) && Picks(b.rows, batch) && AllActive(batch) && o !in visited
    ensures Coverable(Release, SweepDone(b, batch, visited).products, DemandsOf(Group(batch, o)))
  {
    var settled := Settle(b, Release, Reached(b.orders, batch, visited), Released);
    ReachedPicks(b, batch, visited);
    GroupStillActive(b, batch, visited, o);
    SettleKeepsConsistent(b, Release, Reached(b.orders, batch, visited), Released);
    SettlementCovered(settled, Group(batch, o));
  }

  lemma VisitProducts(b: Books, batch: seq<Reservation>, visited: set<string>, o: string)
    requires Consistent(b) && Picks(b.rows, batch) && AllActive(batch) && o !in visited && Sweepable(b.orders, o)
    ensures Drain(SweepDone(b, batch, visited).products, DemandsOf(Group(batch, o)))
            == SweepDone(b, batch, visited + {o}).products
  {
    GroupCovered(b, batch, visited, o);
    DrainIsRelease(SweepDone(b, batch, visited).products, DemandsOf(Group(batch, o)));
    var a, g, both := DemandsOf(Reached(b.orders, batch, visited)), DemandsOf(Group(batch, o)),
                      DemandsOf(Reached(b.orders, batch, visited + {o}));
    forall p ensures Need(both, p) == Need(a, p) + Need(g, p) {
      NeedOfVisit(b.orders, batch, visited, o, p);
    }
    MovedTwice(Release, b.products, a, g, both);
  }

  lemma SkippedReach(orders: Orders, batch: seq<Reservation>, visited: set<string>, o: string)
    requires !Sweepable(orders, o)
    ensures Reached(orders, batch, visited + {o}) == Reached(orders, batch, visited)
  {
  }

  // From consistent books one more visit continues the one-shot effect: no counter is drained.
  lemma VisitContinues(b: Books, batch: seq<Reservation>, visited: set<string>, o: string)
    requires Consistent(b) && Picks(b.rows, batch) && AllActive(batch) && o !in visited
    ensures SweepGroup(SweepDone(b, batch, visited), o, Group(batch, o)) == SweepDone(b, batch, visited + {o})
  {
    VisitRows(b, batch, visited, o);
    VisitOrders(b.orders, visited, o);
    if Sweepable(b.orders, o) {
      VisitProducts(b, batch, visited, o);
    } else {
      SkippedReach(b.orders, batch, visited, o);
    }
  }

  lemma ReachedPicks(b: Books, batch: seq<Reservation>, visited: set<string>)
    requires Picks(b.rows, batch) && AllActive(batch)
    ensures Picks(b.rows, Reached(b.orders, batch, visited)) && AllActive(Reached(b.orders, batch, visited))
  {
    var g := Reached(b.orders, batch, visited);
    ReachedExact(b.orders, batch, visited);
    ReachedDistinct(b.orders, batch, visited);
    forall i | 0 <= i < |g| ensures g[i].id < |b.rows| && b.rows[g[i].id] == g[i] && g[i].status == Active {
      assert g[i] in batch;
      var j :| 0 <= j < |batch| && batch[j] == g[i];
    }
  }

  lemma GroupStillActive(b: Books, batch: seq<Reservation>, visited: set<string>, o: string)
    requires Numbered(b.rows) && Picks(b.rows, batch) && AllActive(batch) && o !in visited
    ensures Picks(SweepDone(b, batch, visited).rows, Group(batch, o)) && AllActive(Group(batch, o))
  {
    var g, reached := Group(batch, o), Reached(b.orders, batch, visited);
    GroupExact(batch, o);
    GroupDistinct(batch, o);
    ReachedExact(b.orders, batch, visited);
    ReachedPicks(b, batch, visited);
    SettledRows(b.rows, reached, Released);
    forall i | 0 <= i < |g|
      ensures g[i].id < |b.rows| && SweepDone(b, batch, visited).rows[g[i].id] == g[i] && g[i].status == Active
    {
      assert g[i] in batch && g[i].orderId == o;
      var j :| 0 <= j < |batch| && batch[j] == g[i];
      assert g[i] !in reached;
    }
  }

  // ------------------------------------------------------------------ any visiting order

  function VisitAll(b: Books, batch: seq<Reservation>, visits: seq<string>): Books {
    if visits == [] then b
    else
      var o := visits[|visits| - 1];
      SweepGroup(VisitAll(b, batch, visits[..|visits| - 1]), o, Group(batch, o))
  }

  lemma {:induction false} NothingReached(orders: Orders, batch: seq<Reservation>)
    ensures Reached(orders, batch, {}) == []
  {
    if batch != [] {
      NothingReached(orders, batch[..|batch| - 1]);
    }
  }

  lemma SweepOfNone(b: Books, batch: seq<Reservation>)
    ensures SweepDone(b, batch, {}) == b
  {
    NothingReached(b.orders, batch);
    assert DemandsOf([]) == [] && Ids([]) == [];
    assert WithStatus(b.rows, [], Released) == b.rows;
  }

  lemma LastVisit(visits: seq<string>)
    requires visits != [] && forall i, j :: 0 <= i < j < |visits| ==> visits[i] != visits[j]
    ensures var init, o := visits[..|visits| - 1], visits[|visits| - 1];
            && o !in (set x | x in init)
            && (set x | x in visits) == (set x | x in init) + {o}
  {
    assert visits == visits[..|visits| - 1] + [visits[|visits| - 1]];
  }

  // Whatever order the groups are visited in, and whichever groups fail and are left out, the books end
  // up as the one-shot update for the set of visited orders.
  lemma {:induction false} AnyVisitingOrder(b: Books, batch: seq<Reservation>, visits: seq<string>)
    requires Consistent(b) && Picks(b.rows, batch) && AllActive(batch)
    requires forall i, j :: 0 <= i < j < |visits| ==> visits[i] != visits[j]
    ensures VisitAll(b, batch, visits) == SweepDone(b, batch, set o | o in visits)
  {
    if visits == [] {
      assert (set o | o in visits) == {};
      SweepOfNone(b, batch);
    } else {
      var init, o := visits[..|visits| - 1], visits[|visits| - 1];
      AnyVisitingOrder(b, batch, init);
      LastVisit(visits);
      VisitContinues(b, batch, (set x | x in init), o);
    }
  }

  // A sweep whose batch stayed below the limit leaves no expired row behind that it could release: what
  // is still active and expired belongs to orders the sweeper passes over.
  lemma SweepClears(b: Books, now: int, limit: nat, batch: seq<Reservation>, i: nat)
    requires Numbered(b.rows) && IsExpiredBatch(b.rows, now, limit, batch) && |batch| < limit && i < |b.rows|
    requires SweepDone(b, batch, OrdersOf(batch)).rows[i].status == Active && b.rows[i].expiresAt < now
    ensures !Sweepable(b.orders, b.rows[i].orderId)
  {
    var g := Reached(b.orders, batch, OrdersOf(batch));
    assert b.rows[i].status == Active && i !in Ids(g);
    assert b.rows[i] in batch;
    ReachedExact(b.orders, batch, OrdersOf(batch));
    IdsOfMember(g, i);
    assert b.rows[i] !in g;
  }

  lemma {:induction false} NoneReached(orders: Orders, batch: seq<Reservation>, visited: set<string>)
    requires forall i :: 0 <= i < |batch| ==> !Sweepable(orders, batch[i].orderId)
    ensures Reached(orders, batch, visited) == []
  {
    if batch != [] {
      NoneReached(orders, batch[..|batch| - 1], visited);
    }
  }

  lemma NoneCancelled(orders: Orders, batch: seq<Reservation>)
    requires forall i :: 0 <= i < |batch| ==> !Sweepable(orders, batch[i].orderId)
    ensures CancelSwept(orders, OrdersOf(batch)) == orders
  {
    forall o | o in OrdersOf(batch) ensures !Sweepable(orders, o) {
      var r :| r in batch && r.orderId == o;
    }
  }

  // A batch made of such rows alone is reported as released in full, yet nothing changes, so the next
  // fetch may return it again.
  lemma StalledSweep(b: Books, batch: seq<Reservation>)
    requires forall i :: 0 <= i < |batch| ==> !Sweepable(b.orders, batch[i].orderId)
    ensures CountedRows(batch, OrdersOf(batch)) == |batch|
    ensures SweepDone(b, batch, OrdersOf(batch)) == b
  {
    CountOfAll(batch, OrdersOf(batch));
    NoneReached(b.orders, batch, OrdersOf(batch));
    NoneCancelled(b.orders, batch);
    SweepOfNone(b, []);
  }
}
