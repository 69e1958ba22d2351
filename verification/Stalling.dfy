/**
 Progress of the sweeper. The expiry query does not look at orders, so rows of orders that the sweep
 passes over stay in its answer and can fill the whole batch.
 */
module Stalling {
  import opened Common
  import opened Counters
  import opened Reservations
  import opened BookKeeping
  import opened Database
  import opened Sweeping
  import opened Runs

  // Expired rows that the query returns but no sweep settles: their order has left checkout or failed.
  predicate IsPassedOver(orders: Orders, now: int, r: Reservation) {
    r.status == Active && r.expiresAt < now && !Sweepable(orders, r.orderId)
  }

  function PassedOver(rows: Rows, orders: Orders, now: int): seq<Reservation> {
    if rows == [] then []
    else
      var r := rows[|rows| - 1];
      PassedOver(rows[..|rows| - 1], orders, now) + if IsPassedOver(orders, now, r) then [r] else []
  }

  // An expired row that a sweep should release.
  predicate IsReleasable(b: Books, now: int, i: nat) {
    && i < |b.rows| && b.rows[i].status == Active && b.rows[i].expiresAt < now
    && Sweepable(b.orders, b.rows[i].orderId)
  }

  predicate FindsNone(orders: Orders, batch: seq<Reservation>) {
    forall i :: 0 <= i < |batch| ==> !Sweepable(orders, batch[i].orderId)
  }

  lemma {:induction false} PassedOverExact(rows: Rows, orders: Orders, now: int)
    requires Numbered(rows)
    ensures Picks(rows, PassedOver(rows, orders, now))
    ensures forall r :: r in PassedOver(rows, orders, now) ==> r in rows && r.id < |rows| && IsPassedOver(orders, now, r)
    ensures forall i :: 0 <= i < |rows| ==> (rows[i] in PassedOver(rows, orders, now) <==> IsPassedOver(orders, now, rows[i]))
  {
    if rows != [] {
      PassedOverExact(rows[..|rows| - 1], orders, now);
    }
  }

  // ------------------------------------------------------------------ counting rows

  lemma {:induction false} ElementsOf(g: seq<Reservation>)
    ensures |set r | r in g| <= |g|
    ensures DistinctIds(g) ==> |set r | r in g| == |g|
  {
    if g == [] {
      assert (set r | r in g) == {};
    } else {
      var init, last := g[..|g| - 1], g[|g| - 1];
      ElementsOf(init);
      assert g == init + [last];
      assert (set r | r in g) == (set r | r in init) + {last};
      if DistinctIds(g) {
        forall j | 0 <= j < |init| ensures init[j] != last {
          assert g[j].id != g[|g| - 1].id;
        }
      }
    }
  }

  lemma NoMoreThan(g: seq<Reservation>, h: seq<Reservation>)
    requires DistinctIds(g) && forall r :: r in g ==> r in h
    ensures |g| <= |h|
  {
    ElementsOf(g);
    ElementsOf(h);
    var a, b := set r | r in g, set r | r in h;
    assert b == a + (b - a);
  }

  // ------------------------------------------------------------------ one sweep

  lemma ReleasesOne(b: Books, batch: seq<Reservation>, i: nat)
    requires Picks(b.rows, batch) && AllActive(batch) && i < |batch| && Sweepable(b.orders, batch[i].orderId)
    ensures SweepDone(b, batch, OrdersOf(batch)).rows[batch[i].id].status == Released
  {
    ReachedExact(b.orders, batch, OrdersOf(batch));
    IdsOfMember(Reached(b.orders, batch, OrdersOf(batch)), batch[i].id);
    assert batch[i] in batch;
  }

  // A sweep leaves the books as they were exactly when every fetched row belongs to an order it passes
  // over.
  lemma StalledExact(b: Books, batch: seq<Reservation>)
    requires Picks(b.rows, batch) && AllActive(batch)
    ensures SweepDone(b, batch, OrdersOf(batch)) == b <==> FindsNone(b.orders, batch)
  {
    if FindsNone(b.orders, batch) {
      StalledSweep(b, batch);
    } else {
      var i :| 0 <= i < |batch| && Sweepable(b.orders, batch[i].orderId);
      ReleasesOne(b, batch, i);
      assert b.rows[batch[i].id].status == Active;
    }
  }

  // The batch a query may return when enough passed-over rows are there to fill it.
  function StallingBatch(b: Books, now: int, limit: nat): seq<Reservation> {
    var g := PassedOver(b.rows, b.orders, now);
    if limit <= |g| then g[..limit] else g
  }

  lemma StallingBatchIsLegal(b: Books, now: int, later: int, limit: nat)
    requires Numbered(b.rows) && limit <= |PassedOver(b.rows, b.orders, now)| && now <= later
    ensures IsExpiredBatch(b.rows, later, limit, StallingBatch(b, now, limit))
    ensures FindsNone(b.orders, StallingBatch(b, now, limit))
  {
    var g := PassedOver(b.rows, b.orders, now);
    PassedOverExact(b.rows, b.orders, now);
    forall i | 0 <= i < limit ensures IsPassedOver(b.orders, now, g[i]) {
      assert g[i] in g;
    }
  }

  lemma ShortBatchesProgress(b: Books, now: int, limit: nat, batch: seq<Reservation>, i: nat)
    requires Numbered(b.rows) && IsReleasable(b, now, i) && |PassedOver(b.rows, b.orders, now)| < limit
    requires IsExpiredBatch(b.rows, now, limit, batch)
    ensures !FindsNone(b.orders, batch)
  {
    if FindsNone(b.orders, batch) {
      PassedOverExact(b.rows, b.orders, now);
      forall r | r in batch ensures r in PassedOver(b.rows, b.orders, now) {
        var j :| 0 <= j < |batch| && batch[j] == r;
        assert b.rows[r.id] == r;
      }
      NoMoreThan(batch, PassedOver(b.rows, b.orders, now));
    }
  }

  // While some expired row could be released, every answer of the expiry query leads to progress exactly
  // when fewer rows than the limit are expired and passed over.
  lemma ProgressExact(b: Books, now: int, limit: nat, i: nat)
    requires Numbered(b.rows) && IsReleasable(b, now, i)
    ensures (forall batch :: IsExpiredBatch(b.rows, now, limit, batch) ==> SweepDone(b, batch, OrdersOf(batch)) != b)
            <==> |PassedOver(b.rows, b.orders, now)| < limit
  {
    if |PassedOver(b.rows, b.orders, now)| < limit {
      forall batch | IsExpiredBatch(b.rows, now, limit, batch)
        ensures SweepDone(b, batch, OrdersOf(batch)) != b
      {
        ShortBatchesProgress(b, now, limit, batch, i);
        StalledExact(b, batch);
      }
    } else {
      StallingBatchIsLegal(b, now, now, limit);
      StalledExact(b, StallingBatch(b, now, limit));
    }
  }

  // ------------------------------------------------------------------ runs of sweeps

  lemma {:induction false} OthersShorter(batch: seq<Reservation>, o: string)
    ensures |Others(batch, o)| <= |batch|
    ensures batch != [] && batch[|batch| - 1].orderId == o ==> |Others(batch, o)| < |batch|
  {
    if batch != [] {
      OthersShorter(batch[..|batch| - 1], o);
    }
  }

  // The visits of one sweep to every order of its batch.
  function Visits(k: nat, batch: seq<Reservation>): seq<Op>
    decreases |batch|
  {
    if batch == [] then []
    else
      var o := batch[|batch| - 1].orderId;
      OthersShorter(batch, o);
      [Visit(k, o, false)] + Visits(k, Others(batch, o))
  }

  // One sweep after the other, at the given times, each fetching the same batch.
  function SweepsInTurn(k: nat, times: seq<int>, batchSize: int, batch: seq<Reservation>): seq<Op>
    decreases |times|
  {
    if times == [] then []
    else [Fetch(k, times[0], batchSize, batch)] + Visits(k, batch) + SweepsInTurn(k + 1, times[1..], batchSize, batch)
  }

  lemma PassingVisit(s: Sys, k: nat, batch: seq<Reservation>, o: string)
    requires k in s.sweeps && s.sweeps[k] == batch && batch != [] && batch[|batch| - 1].orderId == o
    requires FindsNone(s.db.books.orders, batch)
    ensures Enabled(s, Visit(k, o, false))
    ensures Step(s, Visit(k, o, false)) == s.(sweeps := s.sweeps[k := Others(batch, o)])
    ensures FindsNone(s.db.books.orders, Others(batch, o))
  {
    GroupExact(batch, o);
    assert batch[|batch| - 1] in batch;
    forall i | 0 <= i < |Others(batch, o)| ensures Others(batch, o)[i] in batch {
    }
  }

  lemma {:induction false} PassingVisits(s: Sys, k: nat, batch: seq<Reservation>)
    requires k in s.sweeps && s.sweeps[k] == batch && FindsNone(s.db.books.orders, batch)
    ensures Legal(s, Visits(k, batch))
    ensures Exec(s, Visits(k, batch)) == s.(sweeps := s.sweeps[k := []])
    decreases |batch|
  {
    if batch == [] {
      assert s.sweeps == s.sweeps[k := []];
    } else {
      var o := batch[|batch| - 1].orderId;
      PassingVisit(s, k, batch, o);
      OthersShorter(batch, o);
      var next := Step(s, Visit(k, o, false));
      PassingVisits(next, k, Others(batch, o));
      assert Visits(k, batch)[0] == Visit(k, o, false) && Visits(k, batch)[1..] == Visits(k, Others(batch, o));
      assert next.sweeps[k := []] == s.sweeps[k := []];
    }
  }

  lemma OneStalledSweep(s: Sys, k: nat, time: int, batchSize: int, batch: seq<Reservation>)
    requires k !in s.sweeps && FindsNone(s.db.books.orders, batch)
    requires IsExpiredBatch(s.db.books.rows, time, BatchLimit(batchSize), batch)
    ensures var sweep := [Fetch(k, time, batchSize, batch)] + Visits(k, batch);
            Legal(s, sweep) && Exec(s, sweep) == s.(sweeps := s.sweeps[k := []])
  {
    var fetch := Fetch(k, time, batchSize, batch);
    var fetched := Step(s, fetch);
    PassingVisits(fetched, k, batch);
    assert ([fetch] + Visits(k, batch))[1..] == Visits(k, batch);
    assert fetched.sweeps[k := []] == s.sweeps[k := []];
  }

  // The other side of ProgressExact over runs: with that many passed-over rows, any number of sweeps, at
  // any later times, may one after the other change no table at all.
  lemma {:induction false} StalledForever(s: Sys, now: int, k: nat, times: seq<int>, batchSize: int)
    requires Numbered(s.db.books.rows)
    requires BatchLimit(batchSize) <= |PassedOver(s.db.books.rows, s.db.books.orders, now)|
    requires forall j :: j in s.sweeps ==> j < k
    requires forall j :: 0 <= j < |times| ==> now <= times[j]
    ensures var run := SweepsInTurn(k, times, batchSize, StallingBatch(s.db.books, now, BatchLimit(batchSize)));
            Legal(s, run) && Exec(s, run).db == s.db
    decreases |times|
  {
    if times != [] {
      var batch := StallingBatch(s.db.books, now, BatchLimit(batchSize));
      var sweep := [Fetch(k, times[0], batchSize, batch)] + Visits(k, batch);
      StallingBatchIsLegal(s.db.books, now, times[0], BatchLimit(batchSize));
      OneStalledSweep(s, k, times[0], batchSize, batch);
      StalledForever(Exec(s, sweep), now, k + 1, times[1..], batchSize);
      RunConcat(s, sweep, SweepsInTurn(k + 1, times[1..], batchSize, batch));
    }
  }
}
