/** The product counters and the guarded updates that move them. */
module Counters {
  import opened Common

  datatype Product = Product(price: real, stock: int, reserved: int)

  type Products = map<string, Product>

  // A quantity asked of one product: an order line, or a reservation being settled.
  datatype Demand = Demand(productId: string, quantity: nat)

  // The guarded single-row updates. Each runs only if the quantity fits the slack of its row.
  datatype Move = Reserve | Commit | Release | Decrement

  function Slack(m: Move, p: Product): int {
    match m
    case Reserve => p.stock - p.reserved
    case Commit => if p.reserved <= p.stock then p.reserved else p.stock
    case Release => p.reserved
    case Decrement => p.stock - p.reserved
  }

  function Moved(m: Move, p: Product, q: int): Product {
    match m
    case Reserve => p.(reserved := p.reserved + q)
    case Commit => p.(stock := p.stock - q, reserved := p.reserved - q)
    case Release => p.(reserved := p.reserved - q)
    case Decrement => p.(stock := p.stock - q)
  }

  // The update affects one row.
  predicate Affects(m: Move, ps: Products, id: string, q: nat) {
    id in ps && q <= Slack(m, ps[id])
  }

  // Total quantity that a list of demands asks of one product.
  function Need(ds: seq<Demand>, id: string): nat {
    if ds == [] then 0
    else
      var last := ds[|ds| - 1];
      Need(ds[..|ds| - 1], id) + if last.productId == id then last.quantity else 0
  }

  // All demands applied at once: every counter moves by the total asked of it.
  function AllMoved(m: Move, ps: Products, ds: seq<Demand>): Products {
    map id | id in ps :: Moved(m, ps[id], Need(ds, id))
  }

  // The aggregate check: every product asked for exists and its total fits the slack.
  predicate Coverable(m: Move, ps: Products, ds: seq<Demand>) {
    forall i :: 0 <= i < |ds| ==>
                  ds[i].productId in ps && Need(ds, ds[i].productId) <= Slack(m, ps[ds[i].productId])
  }

  // Index of the first demand at which the running total no longer fits.
  function FirstRefused(m: Move, ps: Products, ds: seq<Demand>): (k: nat)
    requires !Coverable(m, ps, ds)
    ensures k < |ds|
    ensures Coverable(m, ps, ds[..k])
    ensures ds[k].productId in ps ==> Need(ds[..k + 1], ds[k].productId) > Slack(m, ps[ds[k].productId])
  {
    var n := |ds| - 1;
    if Coverable(m, ps, ds[..n]) then
      CoverStep(m, ps, ds, n);
      assert ds[..n + 1] == ds;
      n
    else
      var k := FirstRefused(m, ps, ds[..n]);
      assert ds[..n][..k] == ds[..k] && ds[..n][..k + 1] == ds[..k + 1];
      k
  }

  lemma {:induction false} NeedConcat(a: seq<Demand>, b: seq<Demand>, id: string)
    ensures Need(a + b, id) == Need(a, id) + Need(b, id)
  {
    if b == [] {
      assert a + b == a;
    } else {
      NeedConcat(a, b[..|b| - 1], id);
      assert (a + b)[..|a + b| - 1] == a + b[..|b| - 1];
    }
  }

  lemma {:induction false} NeedOfAbsent(ds: seq<Demand>, id: string)
    requires forall i :: 0 <= i < |ds| ==> ds[i].productId != id
    ensures Need(ds, id) == 0
  {
    if ds != [] {
      NeedOfAbsent(ds[..|ds| - 1], id);
    }
  }

  lemma NeedOfPrefix(ds: seq<Demand>, k: nat, id: string)
    requires k <= |ds|
    ensures Need(ds[..k], id) <= Need(ds, id)
  {
    NeedConcat(ds[..k], ds[k..], id);
    assert ds[..k] + ds[k..] == ds;
  }

  lemma NeedOfNext(ds: seq<Demand>, i: nat, id: string)
    requires i < |ds|
    ensures Need(ds[..i + 1], id) == Need(ds[..i], id) + if ds[i].productId == id then ds[i].quantity else 0
  {
    assert ds[..i + 1][..i] == ds[..i];
  }

  lemma NeedOfMember(ds: seq<Demand>, i: nat)
    requires i < |ds|
    ensures Need(ds, ds[i].productId) >= ds[i].quantity
  {
    NeedOfNext(ds, i, ds[i].productId);
    NeedOfPrefix(ds, i + 1, ds[i].productId);
  }

  lemma CoverPrefix(m: Move, ps: Products, ds: seq<Demand>, k: nat)
    requires k <= |ds| && Coverable(m, ps, ds)
    ensures Coverable(m, ps, ds[..k])
  {
    forall i | 0 <= i < k
      ensures ds[..k][i].productId in ps && Need(ds[..k], ds[i].productId) <= Slack(m, ps[ds[i].productId])
    {
      NeedOfPrefix(ds, k, ds[i].productId);
    }
  }

  lemma CoverNext(m: Move, ps: Products, ds: seq<Demand>, i: nat)
    requires i < |ds| && Coverable(m, ps, ds[..i])
    ensures Coverable(m, ps, ds[..i + 1]) <==>
              ds[i].productId in ps && Need(ds[..i + 1], ds[i].productId) <= Slack(m, ps[ds[i].productId])
  {
    if Coverable(m, ps, ds[..i + 1]) {
      assert ds[..i + 1][i] == ds[i];
    }
    if ds[i].productId in ps && Need(ds[..i + 1], ds[i].productId) <= Slack(m, ps[ds[i].productId]) {
      forall j | 0 <= j < i + 1
        ensures ds[..i + 1][j].productId in ps
        ensures Need(ds[..i + 1], ds[j].productId) <= Slack(m, ps[ds[j].productId])
      {
        NeedOfNext(ds, i, ds[j].productId);
        if j < i {
          assert ds[..i][j] == ds[j];
        }
      }
    }
  }

  lemma MoveNext(m: Move, ps: Products, ds: seq<Demand>, i: nat)
    requires i < |ds| && ds[i].productId in ps
    ensures var now := AllMoved(m, ps, ds[..i]); var id := ds[i].productId;
            now[id := Moved(m, now[id], ds[i].quantity)] == AllMoved(m, ps, ds[..i + 1])
  {
    forall x ensures Need(ds[..i + 1], x) == Need(ds[..i], x) + if x == ds[i].productId then ds[i].quantity else 0 {
      NeedOfNext(ds, i, x);
    }
  }

  // One more guarded update after the first i: it affects its row exactly when the aggregate check
  // still holds with the new demand included, and then the counters are again those of the one-shot
  // update.
  lemma CoverStep(m: Move, ps: Products, ds: seq<Demand>, i: nat)
    requires i < |ds| && Coverable(m, ps, ds[..i])
    ensures Affects(m, AllMoved(m, ps, ds[..i]), ds[i].productId, ds[i].quantity)
            <==> ds[i].productId in ps && Need(ds[..i + 1], ds[i].productId) <= Slack(m, ps[ds[i].productId])
    ensures Affects(m, AllMoved(m, ps, ds[..i]), ds[i].productId, ds[i].quantity) <==> Coverable(m, ps, ds[..i + 1])
    ensures var now := AllMoved(m, ps, ds[..i]);
            Affects(m, now, ds[i].productId, ds[i].quantity) ==>
              now[ds[i].productId := Moved(m, now[ds[i].productId], ds[i].quantity)] == AllMoved(m, ps, ds[..i + 1])
  {
    NeedOfNext(ds, i, ds[i].productId);
    CoverNext(m, ps, ds, i);
    if ds[i].productId in ps {
      MoveNext(m, ps, ds, i);
    }
  }

  lemma TotalFits(m: Move, ps: Products, ds: seq<Demand>, id: string)
    requires Coverable(m, ps, ds) && id in ps
    ensures Need(ds, id) == 0 || Need(ds, id) <= Slack(m, ps[id])
  {
    if j :| 0 <= j < |ds| && ds[j].productId == id {
    } else {
      NeedOfAbsent(ds, id);
    }
  }

  lemma FitsInPrefix(m: Move, ps: Products, ds: seq<Demand>, k: nat, i: nat)
    requires i < k <= |ds| && Coverable(m, ps, ds[..k])
    ensures ds[i].productId in ps && Need(ds[..i + 1], ds[i].productId) <= Slack(m, ps[ds[i].productId])
  {
    assert ds[..k][i] == ds[i];
    NeedOfPrefix(ds[..k], i + 1, ds[i].productId);
    assert ds[..k][..i + 1] == ds[..i + 1];
  }

  // The guarded updates run in list order, so the first refusal found by such a loop is FirstRefused.
  lemma RefusedAt(m: Move, ps: Products, ds: seq<Demand>, i: nat)
    requires i < |ds| && Coverable(m, ps, ds[..i])
    requires !Affects(m, AllMoved(m, ps, ds[..i]), ds[i].productId, ds[i].quantity)
    ensures !Coverable(m, ps, ds) && FirstRefused(m, ps, ds) == i
  {
    CoverStep(m, ps, ds, i);
    if Coverable(m, ps, ds) {
      CoverPrefix(m, ps, ds, i + 1);
      assert false;
    }
    var k := FirstRefused(m, ps, ds);
    if k < i {
      FitsInPrefix(m, ps, ds, i, k);
    } else if i < k {
      FitsInPrefix(m, ps, ds, k, i);
    }
  }

  lemma MovedByNone(m: Move, ps: Products)
    ensures AllMoved(m, ps, []) == ps
  {
  }

  lemma MovedTwice(m: Move, ps: Products, a: seq<Demand>, b: seq<Demand>, both: seq<Demand>)
    requires forall id :: Need(both, id) == Need(a, id) + Need(b, id)
    ensures AllMoved(m, AllMoved(m, ps, a), b) == AllMoved(m, ps, both)
  {
  }

  lemma NeedOfRemoved(ds: seq<Demand>, j: nat, id: string)
    requires j < |ds|
    ensures Need(ds, id)
            == Need(ds[..j] + ds[j + 1..], id) + if ds[j].productId == id then ds[j].quantity else 0
  {
    NeedConcat(ds[..j], ds[j + 1..], id);
    NeedConcat(ds[..j + 1], ds[j + 1..], id);
    NeedOfNext(ds, j, id);
    assert ds == ds[..j + 1] + ds[j + 1..];
  }

  lemma {:induction false} NeedOfPermutation(a: seq<Demand>, b: seq<Demand>, id: string)
    requires multiset(a) == multiset(b)
    ensures Need(a, id) == Need(b, id)
  {
    SameMembers(a, b);
    if a != [] {
      var j := RemoveOne(a, b);
      NeedOfPermutation(a[..|a| - 1], b[..j] + b[j + 1..], id);
      NeedOfRemoved(b, j, id);
    }
  }

  // Line order and the split of a product's quantity over several lines do not matter: acceptance and
  // the resulting counters depend on the multiset of demands only.
  lemma OrderOfDemandsIrrelevant(m: Move, ps: Products, a: seq<Demand>, b: seq<Demand>)
    requires multiset(a) == multiset(b)
    ensures Coverable(m, ps, a) <==> Coverable(m, ps, b)
    ensures AllMoved(m, ps, a) == AllMoved(m, ps, b)
  {
    forall id ensures Need(a, id) == Need(b, id) {
      NeedOfPermutation(a, b, id);
    }
    if Coverable(m, ps, a) {
      CoverableByMember(m, ps, a, b);
    }
    if Coverable(m, ps, b) {
      CoverableByMember(m, ps, b, a);
    }
  }

  lemma CoverableByMember(m: Move, ps: Products, a: seq<Demand>, b: seq<Demand>)
    requires multiset(a) == multiset(b) && Coverable(m, ps, a)
    requires forall id :: Need(a, id) == Need(b, id)
    ensures Coverable(m, ps, b)
  {
    forall i | 0 <= i < |b|
      ensures b[i].productId in ps && Need(b, b[i].productId) <= Slack(m, ps[b[i].productId])
    {
      assert b[i] in multiset(a);
      var j :| 0 <= j < |a| && a[j] == b[i];
    }
  }

  // ------------------------------------------------------------------ the sweeper's lenient release

  // One release in the sweeper: a drained counter is left alone and the release counts as done.
  function DrainOne(ps: Products, d: Demand): Products {
    if Affects(Release, ps, d.productId, d.quantity)
    then ps[d.productId := Moved(Release, ps[d.productId], d.quantity)]
    else ps
  }

  function Drain(ps: Products, ds: seq<Demand>): Products {
    if ds == [] then ps else DrainOne(Drain(ps, ds[..|ds| - 1]), ds[|ds| - 1])
  }

  lemma DrainOneExact(ps: Products, d: Demand)
    ensures DrainOne(ps, d)
            == if d.productId in ps && ps[d.productId].reserved >= d.quantity
               then ps[d.productId := ps[d.productId].(reserved := ps[d.productId].reserved - d.quantity)]
               else ps
  {
  }

  // One more lenient release takes the quantity off if the counter still covers it; a drained counter is
  // left exactly as it is.
  lemma DrainExact(ps: Products, ds: seq<Demand>)
    requires ds != []
    ensures var now, d := Drain(ps, ds[..|ds| - 1]), ds[|ds| - 1];
            Drain(ps, ds) == if d.productId in now && now[d.productId].reserved >= d.quantity
                             then now[d.productId := now[d.productId].(reserved := now[d.productId].reserved - d.quantity)]
                             else now
  {
    DrainOneExact(Drain(ps, ds[..|ds| - 1]), ds[|ds| - 1]);
  }

  // When the counters cover the demands the drift branch is never taken: the lenient releases are the
  // one-shot release.
  lemma {:induction false} DrainIsRelease(ps: Products, ds: seq<Demand>)
    requires Coverable(Release, ps, ds)
    ensures Drain(ps, ds) == AllMoved(Release, ps, ds)
  {
    if ds != [] {
      var n := |ds| - 1;
      CoverPrefix(Release, ps, ds, n);
      DrainIsRelease(ps, ds[..n]);
      CoverStep(Release, ps, ds, n);
      assert ds[..n + 1] == ds;
    }
  }

  // Whatever the counters held, a lenient release never invents or loses stock, never drives a counter
  // below zero and never raises one.
  lemma {:induction false} DrainIsSafe(ps: Products, ds: seq<Demand>)
    ensures Drain(ps, ds).Keys == ps.Keys
    ensures forall id :: id in ps ==>
                           && Drain(ps, ds)[id].stock == ps[id].stock
                           && Drain(ps, ds)[id].price == ps[id].price
                           && Drain(ps, ds)[id].reserved <= ps[id].reserved
                           && (ps[id].reserved >= 0 ==> Drain(ps, ds)[id].reserved >= 0)
                           && Drain(ps, ds)[id].reserved >= ps[id].reserved - Need(ds, id)
  {
    if ds != [] {
      DrainIsSafe(ps, ds[..|ds| - 1]);
    }
  }
}
