/**
 The rate limiter: one counter per client in a key-value store, created by INCR on the first hit and
 given its lifetime by EXPIRE on that same hit. Times and the window length are in the same unit.
 */
module RateLimit {
  import opened Common

  // Without a deadline the key never expires: the EXPIRE that follows the first INCR is best effort.
  datatype Counter = Counter(count: nat, deadline: Option<int>)

  type Counters = map<string, Counter>

  // A request as the limiter sees it. `incrOk` and `expireOk` say whether the two store commands
  // succeed, were they to be sent.
  datatype Request = Request(client: string, path: string, time: int, incrOk: bool, expireOk: bool)

  predicate OccursAt(s: string, sub: string, i: nat) {
    i + |sub| <= |s| && s[i..i + |sub|] == sub
  }

  predicate Contains(s: string, sub: string) {
    exists i :: 0 <= i <= |s| && OccursAt(s, sub, i)
  }

  const EXEMPT_PATHS := ["/webhooks/"]

  predicate Exempt(path: string) {
    exists i :: 0 <= i < |EXEMPT_PATHS| && Contains(path, EXEMPT_PATHS[i])
  }

  predicate Live(cs: Counters, client: string, now: int) {
    client in cs && (cs[client].deadline.Some? ==> now < cs[client].deadline.value)
  }

  function Incremented(cs: Counters, r: Request, window: int): Counters {
    if Live(cs, r.client, r.time) then cs[r.client := cs[r.client].(count := cs[r.client].count + 1)]
    else cs[r.client := Counter(1, if r.expireOk then Some(r.time + window) else None)]
  }

  datatype Verdict = Verdict(counters: Counters, admitted: bool)

  function Decide(cs: Counters, r: Request, max: int, window: int): Verdict {
    if max <= 0 || Exempt(r.path) || !r.incrOk then Verdict(cs, true)
    else
      var after := Incremented(cs, r, window);
      Verdict(after, after[r.client].count <= max)
  }

  class Limiter {
    var store: Counters
    const max: int
    const window: int

    constructor (max: int, window: int)
      ensures this.max == max && this.window == window && store == map[]
    {
      this.max, this.window := max, window;
      store := map[];
    }

    // INCR of a missing or expired key starts from zero; EXPIRE is sent when the new count is one.
    method Incr(r: Request) returns (count: nat, ok: bool)
      requires Counted(store)
      modifies this`store
      ensures ok == r.incrOk
      ensures store == if ok then Incremented(old(store), r, window) else old(store)
      ensures ok ==> count == store[r.client].count
    {
      if !r.incrOk {
        return 0, false;
      }
      var current := if Live(store, r.client, r.time) then store[r.client] else Counter(0, None);
      count := current.count + 1;
      store := store[r.client := current.(count := count)];
      if count == 1 {
        if r.expireOk {
          store := store[r.client := Counter(count, Some(r.time + window))];
        }
      }
      return count, true;
    }

    method Admit(r: Request) returns (admitted: bool)
      requires Counted(store)
      modifies this`store
      ensures Counted(store)
      ensures Verdict(store, admitted) == Decide(old(store), r, max, window)
    {
      if max <= 0 {
        return true;
      }
      var i := 0;
      while i < |EXEMPT_PATHS|
        invariant 0 <= i <= |EXEMPT_PATHS|
        invariant forall j :: 0 <= j < i ==> !Contains(r.path, EXEMPT_PATHS[j])
      {
        if Contains(r.path, EXEMPT_PATHS[i]) {
          return true;
        }
        i := i + 1;
      }
      var count, ok := Incr(r);
      if !ok {
        return true;
      }
      admitted := count <= max;
    }
  }

  // A stored counter has counted at least one hit.
  ghost predicate Counted(cs: Counters) {
    forall c :: c in cs ==> cs[c].count >= 1
  }

  // ------------------------------------------------------------------ the decision

  // Exempt are the paths with the webhook segment anywhere in them.
  lemma ExemptExact(path: string)
    ensures Exempt(path) <==> exists a: string, b: string :: path == a + "/webhooks/" + b
  {
    var segment := "/webhooks/";
    if Exempt(path) {
      assert Contains(path, EXEMPT_PATHS[0]);
      var i :| 0 <= i <= |path| && OccursAt(path, segment, i);
      assert path == path[..i] + "/webhooks/" + path[i + |segment|..];
    }
    if a: string, b: string :| path == a + "/webhooks/" + b {
      assert path[|a|..|a| + |segment|] == segment;
      assert OccursAt(path, segment, |a|);
      assert Contains(path, EXEMPT_PATHS[0]);
    }
  }

  // A request is let through without being counted when no limit is set, its path is exempt or the store
  // fails; otherwise it is counted, and let through as long as the count is within the limit.
  lemma DecideExact(cs: Counters, r: Request, max: int, window: int)
    ensures var v := Decide(cs, r, max, window);
            var running := r.client in cs && (cs[r.client].deadline == None || r.time < cs[r.client].deadline.value);
            var hits := if running then cs[r.client].count + 1 else 1;
            if max <= 0 || Exempt(r.path) || !r.incrOk then v == Verdict(cs, true)
            else && (v.admitted <==> hits <= max)
                 && v.counters.Keys == cs.Keys + {r.client}
                 && v.counters[r.client].count == hits
                 && (running ==> v.counters[r.client].deadline == cs[r.client].deadline)
                 && (!running ==> v.counters[r.client].deadline == if r.expireOk then Some(r.time + window) else None)
                 && forall c :: c in cs && c != r.client ==> v.counters[c] == cs[c]
  {
  }

  // ------------------------------------------------------------------ traces

  function After(cs: Counters, reqs: seq<Request>, max: int, window: int): Counters {
    if reqs == [] then cs
    else Decide(After(cs, reqs[..|reqs| - 1], max, window), reqs[|reqs| - 1], max, window).counters
  }

  // The request is subject to the limit, belongs to the client and falls in [a, a + window).
  predicate InScope(r: Request, client: string, a: int, window: int) {
    r.client == client && !Exempt(r.path) && a <= r.time < a + window
  }

  // How many requests in scope the limiter let through, starting from an empty store.
  function AdmittedIn(reqs: seq<Request>, max: int, window: int, client: string, a: int): nat {
    if reqs == [] then 0
    else
      var init, r := reqs[..|reqs| - 1], reqs[|reqs| - 1];
      AdmittedIn(init, max, window, client, a)
      + if InScope(r, client, a, window) && Decide(After(map[], init, max, window), r, max, window).admitted then 1 else 0
  }

  // Requests arrive in time order and both store commands succeed.
  ghost predicate Orderly(reqs: seq<Request>) {
    && (forall i, j :: 0 <= i <= j < |reqs| ==> reqs[i].time <= reqs[j].time)
    && (forall i :: 0 <= i < |reqs| ==> reqs[i].incrOk && reqs[i].expireOk)
  }

  function Min(x: int, y: int): int {
    if x <= y then x else y
  }

  // The state of one client's counter against the requests let through so far in [a, a + window).
  ghost predicate Tallied(cs: Counters, client: string, n: nat, a: int, max: int, window: int) {
    if client !in cs then n == 0
    else
      var k := cs[client];
      && k.count >= 1 && k.deadline.Some?
      && if k.deadline.value - window < a then n <= Min(k.count, max) - 1
         else n <= max - 1 + Min(k.count, max)
  }

  lemma Tally(cs: Counters, r: Request, client: string, n: nat, a: int, max: int, window: int)
    requires max >= 1 && window > 0 && r.incrOk && r.expireOk && r.time < a + window
    requires Tallied(cs, client, n, a, max, window) && (r.time < a ==> n == 0)
    ensures var v := Decide(cs, r, max, window);
            Tallied(v.counters, client, n + if InScope(r, client, a, window) && v.admitted then 1 else 0, a, max, window)
  {
  }

  lemma {:induction false} TalliedThroughout(reqs: seq<Request>, max: int, window: int, client: string, a: int)
    requires max >= 1 && window > 0 && Orderly(reqs)
    ensures reqs != [] && reqs[|reqs| - 1].time < a ==> AdmittedIn(reqs, max, window, client, a) == 0
    ensures reqs == [] || reqs[|reqs| - 1].time < a + window ==>
              Tallied(After(map[], reqs, max, window), client, AdmittedIn(reqs, max, window, client, a), a, max, window)
    ensures AdmittedIn(reqs, max, window, client, a) <= 2 * max - 1
  {
    if reqs != [] {
      var init, r := reqs[..|reqs| - 1], reqs[|reqs| - 1];
      TalliedThroughout(init, max, window, client, a);
      if r.time < a + window {
        Tally(After(map[], init, max, window), r, client, AdmittedIn(init, max, window, client, a), a, max, window);
      }
    }
  }

  // Over any trace of any clients, every half-open interval as long as the window lets through at most
  // 2 * max - 1 limited requests of one client: the request that opened the older of the two counter
  // windows lies before the interval.
  lemma IntervalBound(reqs: seq<Request>, max: int, window: int, client: string, a: int)
    requires max >= 1 && Orderly(reqs)
    ensures AdmittedIn(reqs, max, window, client, a) <= 2 * max - 1
  {
    if window > 0 {
      TalliedThroughout(reqs, max, window, client, a);
    } else {
      NoneInScope(reqs, max, window, client, a);
    }
  }

  // ------------------------------------------------------------------ one counter window

  lemma {:induction false} HitsPrecedeDeadline(reqs: seq<Request>, max: int, window: int, client: string)
    requires max >= 1 && window > 0 && Orderly(reqs)
    ensures var cs := After(map[], reqs, max, window);
            && (client in cs ==>
                  && cs[client].deadline.Some? && cs[client].count >= 1
                  && reqs != [] && cs[client].deadline.value - window <= reqs[|reqs| - 1].time)
            && forall i :: 0 <= i < |reqs| && reqs[i].client == client && !Exempt(reqs[i].path) ==>
                 client in cs && reqs[i].time < cs[client].deadline.value
  {
    if reqs != [] {
      HitsPrecedeDeadline(reqs[..|reqs| - 1], max, window, client);
    }
  }

  lemma {:induction false} NoneInScope(reqs: seq<Request>, max: int, window: int, client: string, a: int)
    requires forall i :: 0 <= i < |reqs| ==> !InScope(reqs[i], client, a, window)
    ensures AdmittedIn(reqs, max, window, client, a) == 0
  {
    if reqs != [] {
      NoneInScope(reqs[..|reqs| - 1], max, window, client, a);
    }
  }

  // A counter window lets through exactly the first max of its hits.
  lemma {:induction false} WindowAdmitsUpToMax(reqs: seq<Request>, max: int, window: int, client: string)
    requires max >= 1 && window > 0 && Orderly(reqs) && client in After(map[], reqs, max, window)
    ensures var k := After(map[], reqs, max, window)[client];
            && k.deadline.Some?
            && AdmittedIn(reqs, max, window, client, k.deadline.value - window) == Min(k.count, max)
  {
    var n := |reqs| - 1;
    var init, r := reqs[..n], reqs[n];
    var before := After(map[], init, max, window);
    HitsPrecedeDeadline(init, max, window, client);
    if r.client == client && !Exempt(r.path) && !Live(before, client, r.time) {
      forall i | 0 <= i < |init| ensures !InScope(init[i], client, r.time, window) {
      }
      NoneInScope(init, max, window, client, r.time);
    } else {
      WindowAdmitsUpToMax(init, max, window, client);
    }
  }

  // ------------------------------------------------------------------ the bound is attained

  function Hit(client: string, time: int): Request {
    Request(client, "/", time, true, true)
  }

  function Burst(client: string, time: int, k: nat): seq<Request> {
    if k == 0 then [] else Burst(client, time, k - 1) + [Hit(client, time)]
  }

  lemma RootNotExempt()
    ensures !Exempt("/")
  {
    assert |EXEMPT_PATHS[0]| > |"/"|;
  }

  // The client's counter is running at time t and has counted n hits.
  ghost predicate Running(reqs: seq<Request>, client: string, t: int, n: nat, max: int, window: int) {
    var cs := After(map[], reqs, max, window);
    Live(cs, client, t) && cs[client].count == n
  }

  lemma HitAdmitted(reqs: seq<Request>, client: string, t: int, n: nat, max: int, window: int, a: int)
    requires max >= 1 && a <= t < a + window && Running(reqs, client, t, n, max, window) && n + 1 <= max
    ensures Running(reqs + [Hit(client, t)], client, t, n + 1, max, window)
    ensures AdmittedIn(reqs + [Hit(client, t)], max, window, client, a) == AdmittedIn(reqs, max, window, client, a) + 1
    ensures After(map[], reqs + [Hit(client, t)], max, window)[client].deadline == After(map[], reqs, max, window)[client].deadline
  {
    var longer := reqs + [Hit(client, t)];
    assert longer[..|longer| - 1] == reqs && longer[|longer| - 1] == Hit(client, t);
    RootNotExempt();
  }

  lemma LongerBurst(reqs: seq<Request>, client: string, t: int, k: nat)
    requires k > 0
    ensures reqs + Burst(client, t, k) == reqs + Burst(client, t, k - 1) + [Hit(client, t)]
  {
  }

  lemma {:induction false} BurstAdmitted(
    reqs: seq<Request>, longer: seq<Request>, client: string, t: int, n: nat, k: nat, max: int, window: int, a: int)
    requires max >= 1 && a <= t < a + window && Running(reqs, client, t, n, max, window) && n + k <= max
    requires longer == reqs + Burst(client, t, k)
    ensures Running(longer, client, t, n + k, max, window)
    ensures AdmittedIn(longer, max, window, client, a) == AdmittedIn(reqs, max, window, client, a) + k
    ensures After(map[], longer, max, window)[client].deadline == After(map[], reqs, max, window)[client].deadline
    decreases k
  {
    if k == 0 {
      assert longer == reqs;
    } else {
      var shorter := reqs + Burst(client, t, k - 1);
      BurstAdmitted(reqs, shorter, client, t, n, k - 1, max, window, a);
      HitAdmitted(shorter, client, t, n + (k - 1), max, window, a);
      LongerBurst(reqs, client, t, k);
    }
  }

  function WorstCase(client: string, max: int, window: int): seq<Request>
    requires max >= 1
  {
    [Hit(client, 0)] + Burst(client, window - 1, max - 1) + [Hit(client, window)] + Burst(client, window, max - 1)
  }

  lemma {:induction false} BurstIsUniform(client: string, time: int, k: nat)
    ensures |Burst(client, time, k)| == k
    ensures forall i :: 0 <= i < k ==> Burst(client, time, k)[i] == Hit(client, time)
  {
    if k > 0 {
      BurstIsUniform(client, time, k - 1);
    }
  }

  lemma WorstCaseIsOrderly(client: string, max: int, window: int)
    requires max >= 1 && window >= 1
    ensures Orderly(WorstCase(client, max, window))
  {
    BurstIsUniform(client, window - 1, max - 1);
    BurstIsUniform(client, window, max - 1);
    var w := WorstCase(client, max, window);
    assert forall i :: 0 <= i < |w| ==> w[i] == Hit(client, if i == 0 then 0 else if i < max then window - 1 else window);
  }

  // For every limit and every window of at least two time units some interval lets through that many.
  lemma BoundIsAttained(client: string, max: int, window: int)
    requires max >= 1 && window >= 2
    ensures Orderly(WorstCase(client, max, window))
    ensures AdmittedIn(WorstCase(client, max, window), max, window, client, window - 1) == 2 * max - 1
  {
    WorstCaseIsOrderly(client, max, window);
    var a := window - 1;
    var first := [Hit(client, 0)];
    FirstHit(client, max, window);
    var second := first + Burst(client, window - 1, max - 1);
    BurstAdmitted(first, second, client, window - 1, 1, max - 1, max, window, a);
    var third := second + [Hit(client, window)];
    Reopened(second, client, max, window, a);
    BurstAdmitted(third, third + Burst(client, window, max - 1), client, window, 1, max - 1, max, window, a);
    assert WorstCase(client, max, window) == third + Burst(client, window, max - 1);
  }

  lemma FirstHit(client: string, max: int, window: int)
    requires max >= 1 && window >= 2
    ensures Running([Hit(client, 0)], client, window - 1, 1, max, window)
    ensures After(map[], [Hit(client, 0)], max, window)[client].deadline == Some(window)
    ensures AdmittedIn([Hit(client, 0)], max, window, client, window - 1) == 0
  {
    RootNotExempt();
    assert [Hit(client, 0)][..0] == [];
  }

  // A hit at the deadline opens the next counter window and is let through.
  lemma Reopened(reqs: seq<Request>, client: string, max: int, window: int, a: int)
    requires max >= 1 && a <= window < a + window
    requires client in After(map[], reqs, max, window) && After(map[], reqs, max, window)[client].deadline == Some(window)
    ensures Running(reqs + [Hit(client, window)], client, window, 1, max, window)
    ensures AdmittedIn(reqs + [Hit(client, window)], max, window, client, a) == AdmittedIn(reqs, max, window, client, a) + 1
  {
    var longer := reqs + [Hit(client, window)];
    assert longer[..|longer| - 1] == reqs && longer[|longer| - 1] == Hit(client, window);
    RootNotExempt();
  }

  // ------------------------------------------------------------------ when EXPIRE fails

  // A counter that missed its EXPIRE never ends: once it has reached the limit every further limited
  // request of the client is refused, at any time.
  lemma {:induction false} WithoutDeadlineRefusedForever(cs: Counters, reqs: seq<Request>, max: int, window: int, client: string)
    requires max >= 1 && client in cs && cs[client].deadline.None? && cs[client].count >= max
    requires forall i :: 0 <= i < |reqs| ==> reqs[i].incrOk
    ensures var end := After(cs, reqs, max, window);
            && client in end && end[client].deadline.None? && end[client].count >= max
            && forall r: Request :: r.client == client && r.incrOk && !Exempt(r.path) ==> !Decide(end, r, max, window).admitted
  {
    if reqs != [] {
      WithoutDeadlineRefusedForever(cs, reqs[..|reqs| - 1], max, window, client);
    }
  }
}
