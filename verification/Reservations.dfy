/**
 The reservation table: rows are kept in insertion order and a row's id is its position, so an id is
 never reused. Rows are never deleted; only their status changes.
 */
module Reservations {
  import opened Counters

  datatype ReservationStatus = Active | Committed | Released

  datatype Reservation = Reservation(
    id: nat, orderId: string, productId: string, quantity: nat, status: ReservationStatus, expiresAt: int)

  type Rows = seq<Reservation>

  ghost predicate Numbered(rows: Rows) {
    forall i :: 0 <= i < |rows| ==> rows[i].id == i
  }

  function Ids(g: seq<Reservation>): (ids: seq<nat>)
    ensures |ids| == |g|
    ensures forall i :: 0 <= i < |g| ==> ids[i] == g[i].id
  {
    seq(|g|, i requires 0 <= i < |g| => g[i].id)
  }

  function DemandsOf(g: seq<Reservation>): (ds: seq<Demand>)
    ensures |ds| == |g|
    ensures forall i :: 0 <= i < |g| ==> ds[i] == Demand(g[i].productId, g[i].quantity)
  {
    seq(|g|, i requires 0 <= i < |g| => Demand(g[i].productId, g[i].quantity))
  }

  // Units of a product on rows with the given status.
  function Held(rows: Rows, productId: string, st: ReservationStatus): nat {
    if rows == [] then 0
    else
      var r := rows[|rows| - 1];
      Held(rows[..|rows| - 1], productId, st) + Share(r, productId, st)
  }

  function Share(r: Reservation, productId: string, st: ReservationStatus): nat {
    if r.productId == productId && r.status == st then r.quantity else 0
  }

  // UPDATE ... SET status WHERE id IN ids, whatever the status of the named rows was.
  function WithStatus(rows: Rows, ids: seq<nat>, st: ReservationStatus): (r: Rows)
    ensures |r| == |rows|
    ensures forall i :: 0 <= i < |rows| ==> r[i] == if i in ids then rows[i].(status := st) else rows[i]
  {
    seq(|rows|, i requires 0 <= i < |rows| => if i in ids then rows[i].(status := st) else rows[i])
  }

  // The rows an order still holds. The query has no ORDER BY; insertion order stands for any order.
  function FindActive(rows: Rows, orderId: string): seq<Reservation> {
    if rows == [] then []
    else
      var r := rows[|rows| - 1];
      FindActive(rows[..|rows| - 1], orderId) + if r.orderId == orderId && r.status == Active then [r] else []
  }

  // A list of distinct rows in their current state.
  ghost predicate Picks(rows: Rows, g: seq<Reservation>) {
    && (forall i :: 0 <= i < |g| ==> g[i].id < |rows| && rows[g[i].id] == g[i])
    && DistinctIds(g)
  }

  ghost predicate DistinctIds(g: seq<Reservation>) {
    forall i, j :: 0 <= i < j < |g| ==> g[i].id != g[j].id
  }

  ghost predicate AllActive(g: seq<Reservation>) {
    forall i :: 0 <= i < |g| ==> g[i].status == Active
  }

  lemma {:induction false} FindActiveExact(rows: Rows, orderId: string)
    requires Numbered(rows)
    ensures Picks(rows, FindActive(rows, orderId)) && AllActive(FindActive(rows, orderId))
    ensures forall i :: 0 <= i < |rows| ==>
                          (rows[i] in FindActive(rows, orderId) <==> rows[i].orderId == orderId && rows[i].status == Active)
    ensures forall r :: r in FindActive(rows, orderId) ==> r.orderId == orderId && r.id < |rows|
  {
    if rows != [] {
      FindActiveExact(rows[..|rows| - 1], orderId);
    }
  }

  // The result of the expiry query: distinct active rows past their deadline, cut at the limit in no
  // particular order, and complete when the limit was not reached.
  ghost predicate IsExpiredBatch(rows: Rows, now: int, limit: nat, batch: seq<Reservation>) {
    && Picks(rows, batch)
    && AllActive(batch)
    && (forall i :: 0 <= i < |batch| ==> batch[i].expiresAt < now)
    && |batch| <= limit
    && (|batch| < limit ==>
          forall i :: 0 <= i < |rows| && rows[i].status == Active && rows[i].expiresAt < now ==> rows[i] in batch)
  }

  // The rows that CreateMany inserts for one order.
  function NewRows(start: nat, orderId: string, ds: seq<Demand>, expiresAt: int): (r: seq<Reservation>)
    ensures |r| == |ds|
    ensures forall i :: 0 <= i < |ds| ==>
                          r[i] == Reservation(start + i, orderId, ds[i].productId, ds[i].quantity, Active, expiresAt)
  {
    seq(|ds|, i requires 0 <= i < |ds| =>
      Reservation(start + i, orderId, ds[i].productId, ds[i].quantity, Active, expiresAt))
  }

  // ------------------------------------------------------------------ sums under updates

  lemma {:induction false} HeldOfUpdate(rows: Rows, k: nat, r: Reservation, p: string, st: ReservationStatus)
    requires k < |rows|
    ensures Held(rows[k := r], p, st) == Held(rows, p, st) - Share(rows[k], p, st) + Share(r, p, st)
  {
    var n := |rows| - 1;
    if k < n {
      HeldOfUpdate(rows[..n], k, r, p, st);
      assert rows[k := r][..n] == rows[..n][k := r];
    } else {
      assert rows[k := r][..n] == rows[..n];
    }
  }

  lemma {:induction false} HeldOfInsert(rows: Rows, orderId: string, ds: seq<Demand>, expiresAt: int, p: string, st: ReservationStatus)
    ensures var more := rows + NewRows(|rows|, orderId, ds, expiresAt);
            Held(more, p, st) == Held(rows, p, st) + if st == Active then Need(ds, p) else 0
  {
    var more := rows + NewRows(|rows|, orderId, ds, expiresAt);
    if ds == [] {
      assert more == rows;
    } else {
      var n := |ds| - 1;
      HeldOfInsert(rows, orderId, ds[..n], expiresAt, p, st);
      assert more[..|more| - 1] == rows + NewRows(|rows|, orderId, ds[..n], expiresAt);
    }
  }

  lemma IdsMember(g: seq<Reservation>, id: nat)
    ensures id in Ids(g) <==> exists j :: 0 <= j < |g| && g[j].id == id
  {
    if id in Ids(g) {
      var j :| 0 <= j < |g| && Ids(g)[j] == id;
      assert g[j].id == id;
    }
    if j :| 0 <= j < |g| && g[j].id == id {
      assert Ids(g)[j] == id;
    }
  }

  lemma WithStatusOfLast(rows: Rows, g: seq<Reservation>, st: ReservationStatus)
    requires Picks(rows, g) && g != []
    ensures var n := |g| - 1;
            && WithStatus(rows, Ids(g[..n]), st)[g[n].id] == g[n]
            && WithStatus(rows, Ids(g), st) == WithStatus(rows, Ids(g[..n]), st)[g[n].id := g[n].(status := st)]
  {
    var n := |g| - 1;
    IdsMember(g[..n], g[n].id);
    forall i | 0 <= i < |rows| ensures i in Ids(g) <==> i in Ids(g[..n]) || i == g[n].id {
      IdsMember(g, i);
      IdsMember(g[..n], i);
      if j :| 0 <= j < |g| && g[j].id == i && i != g[n].id {
        assert g[..n][j].id == i;
      }
    }
  }

  lemma NeedOfLast(g: seq<Reservation>, p: string)
    requires g != []
    ensures var n := |g| - 1;
            Need(DemandsOf(g), p) == Need(DemandsOf(g[..n]), p) + if g[n].productId == p then g[n].quantity else 0
  {
    assert DemandsOf(g)[..|g| - 1] == DemandsOf(g[..|g| - 1]);
  }

  lemma PicksPrefix(rows: Rows, g: seq<Reservation>, k: nat)
    requires k <= |g| && Picks(rows, g) && AllActive(g)
    ensures Picks(rows, g[..k]) && AllActive(g[..k])
  {
  }

  // Settling a list of distinct active rows moves exactly their quantities from the active sum to the
  // sum of the new status, and touches no other sum.
  lemma {:induction false} HeldOfSettle(rows: Rows, g: seq<Reservation>, st: ReservationStatus, p: string, x: ReservationStatus)
    requires Picks(rows, g) && AllActive(g) && st != Active
    ensures Held(WithStatus(rows, Ids(g), st), p, x) == Held(rows, p, x)
              + (if x == st then Need(DemandsOf(g), p) else 0) - (if x == Active then Need(DemandsOf(g), p) else 0)
  {
    if g == [] {
      assert WithStatus(rows, Ids(g), st) == rows;
    } else {
      var init, r := g[..|g| - 1], g[|g| - 1];
      PicksPrefix(rows, g, |g| - 1);
      HeldOfSettle(rows, init, st, p, x);
      WithStatusOfLast(rows, g, st);
      NeedOfLast(g, p);
      var before := WithStatus(rows, Ids(init), st);
      HeldOfUpdate(before, r.id, r.(status := st), p, x);
      assert r.status == Active;
      assert Held(WithStatus(rows, Ids(g), st), p, x) == Held(before, p, x) - Share(r, p, x) + Share(r.(status := st), p, x);
    }
  }

  lemma PickedFits(rows: Rows, g: seq<Reservation>, p: string)
    requires Picks(rows, g) && AllActive(g)
    ensures Need(DemandsOf(g), p) <= Held(rows, p, Active)
  {
    HeldOfSettle(rows, g, Released, p, Active);
  }

  // ------------------------------------------------------------------ row histories

  // Everything that may happen to the table: rows are added, and an active row may change its status
  // once. The other columns never change and a settled row is frozen.
  ghost predicate OnlySettles(before: Rows, after: Rows) {
    && |before| <= |after|
    && forall i :: 0 <= i < |before| ==>
                     && after[i] == before[i].(status := after[i].status)
                     && (before[i].status != Active ==> after[i] == before[i])
  }

  lemma OnlySettlesTransitive(a: Rows, b: Rows, c: Rows)
    requires OnlySettles(a, b) && OnlySettles(b, c)
    ensures OnlySettles(a, c)
  {
    forall i | 0 <= i < |a|
      ensures c[i] == a[i].(status := c[i].status)
      ensures a[i].status != Active ==> c[i] == a[i]
    {
      assert b[i] == a[i].(status := b[i].status);
    }
  }

  // Units of a product on the rows that were active before and are not active afterwards.
  function LeftActive(before: Rows, after: Rows, p: string): nat
    requires |before| <= |after|
  {
    if before == [] then 0
    else
      var n := |before| - 1;
      LeftActive(before[..n], after, p) + if after[n].status == Active then 0 else Share(before[n], p, Active)
  }

  lemma {:induction false} HeldConcat(a: Rows, b: Rows, p: string, st: ReservationStatus)
    ensures Held(a + b, p, st) == Held(a, p, st) + Held(b, p, st)
  {
    if b == [] {
      assert a + b == a;
    } else {
      HeldConcat(a, b[..|b| - 1], p, st);
      assert (a + b)[..|a + b| - 1] == a + b[..|b| - 1];
    }
  }

  lemma {:induction false} HeldOfPrefix(before: Rows, after: Rows, p: string)
    requires OnlySettles(before, after)
    ensures Held(after[..|before|], p, Active) == Held(before, p, Active) - LeftActive(before, after, p)
  {
    if before != [] {
      var n := |before| - 1;
      HeldOfPrefix(before[..n], after, p);
      assert after[..n + 1][..n] == after[..n];
      assert after[n] == before[n].(status := after[n].status);
    }
  }

  // The active sum after a one-way history: less the rows that left Active, more the rows added.
  lemma HeldOfHistory(before: Rows, after: Rows, p: string)
    requires OnlySettles(before, after)
    ensures Held(after, p, Active)
            == Held(before, p, Active) - LeftActive(before, after, p) + Held(after[|before|..], p, Active)
  {
    HeldOfPrefix(before, after, p);
    HeldConcat(after[..|before|], after[|before|..], p, Active);
    assert after[..|before|] + after[|before|..] == after;
  }

  // Copies fetched earlier: still the same rows, except perhaps for the status.
  ghost predicate Stale(rows: Rows, g: seq<Reservation>) {
    && (forall i :: 0 <= i < |g| ==> g[i].id < |rows| && rows[g[i].id] == g[i].(status := rows[g[i].id].status))
    && DistinctIds(g)
  }

  lemma StaleMember(rows: Rows, g: seq<Reservation>, r: Reservation)
    requires Stale(rows, g) && r in g
    ensures r.id < |rows| && rows[r.id].orderId == r.orderId && rows[r.id] == r.(status := rows[r.id].status)
  {
    var j :| 0 <= j < |g| && g[j] == r;
    assert rows[g[j].id] == g[j].(status := rows[g[j].id].status);
  }

  lemma StaleKept(a: Rows, b: Rows, g: seq<Reservation>)
    requires OnlySettles(a, b) && Stale(a, g)
    ensures Stale(b, g)
  {
    forall i | 0 <= i < |g|
      ensures g[i].id < |b| && b[g[i].id] == g[i].(status := b[g[i].id].status)
    {
      assert b[g[i].id] == a[g[i].id].(status := b[g[i].id].status);
    }
  }
}
