/**
 The single-flight token refresh of the web client. Handlers run to their next await without
 interruption, so each is one step; responses, refresh answers, continuations of waiting requests and
 token changes made elsewhere in the application interleave in any order.
 */
module TokenRefresh {
  import opened Common

  // Requests are numbered in the order they are first sent.
  type Id = nat

  // One call of a promise's resolve or reject function, by the refresh with the given number.
  datatype Settlement = Settlement(round: nat, ok: bool)

  // The promise a request waits on. `round` is the number of the refresh in flight when it was queued.
  datatype Promise = Promise(request: Id, round: nat, settlements: seq<Settlement>)

  // What the interceptor module keeps. Queue entries are positions in the list of promises; `posts`
  // counts refresh calls without an answer and `round` all refresh calls made so far.
  datatype Client = Client(
    isRefreshing: bool, failedQueue: seq<nat>, access: Option<string>, refresh: Option<string>,
    promises: seq<Promise>, posts: nat, round: nat)

  datatype Action = Reject | Wait | StartRefresh(token: string)

  datatype Reaction = Reaction(client: Client, retry: bool, action: Action)

  function Enqueued(c: Client, r: Id): Client {
    c.(promises := c.promises + [Promise(r, c.round, [])], failedQueue := c.failedQueue + [|c.promises|])
  }

  // An empty string in storage counts as no token.
  predicate HasRefresh(c: Client) {
    c.refresh.Some? && c.refresh.value != ""
  }

  // The handler of a 401 response to a request, given the request's _retry flag.
  function OnUnauthorized(c: Client, r: Id, retry: bool): Reaction {
    if retry then Reaction(c, retry, Reject)
    else if !HasRefresh(c) then Reaction(c.(access := None, refresh := None), retry, Reject)
    else if c.isRefreshing then Reaction(Enqueued(c, r), retry, Wait)
    else Reaction(c.(isRefreshing := true, posts := c.posts + 1, round := c.round + 1), true, StartRefresh(c.refresh.value))
  }

  function Settle(ps: seq<Promise>, k: nat, s: Settlement): seq<Promise> {
    if k < |ps| then ps[k := ps[k].(settlements := ps[k].settlements + [s])] else ps
  }

  // processQueue: one settlement per queue entry, in queue order.
  function SettleAll(ps: seq<Promise>, queue: seq<nat>, s: Settlement): (r: seq<Promise>)
    ensures |r| == |ps|
  {
    if queue == [] then ps else Settle(SettleAll(ps, queue[..|queue| - 1], s), queue[|queue| - 1], s)
  }

  function OnRefreshed(c: Client, access: string, refresh: string): Client {
    c.(access := Some(access), refresh := Some(refresh),
       promises := SettleAll(c.promises, c.failedQueue, Settlement(c.round, true)), failedQueue := [],
       isRefreshing := false, posts := if c.posts > 0 then c.posts - 1 else 0)
  }

  function OnRefreshFailed(c: Client): Client {
    c.(access := None, refresh := None,
       promises := SettleAll(c.promises, c.failedQueue, Settlement(c.round, false)), failedQueue := [],
       isRefreshing := false, posts := if c.posts > 0 then c.posts - 1 else 0)
  }

  // ------------------------------------------------------------------ the module's own code

  // A request's configuration object carries its retry flag.
  class RequestConfig {
    const id: Id
    var retry: bool

    constructor (id: Id)
      ensures this.id == id && !retry
    {
      this.id, retry := id, false;
    }
  }

  class Interceptor {
    var isRefreshing: bool
    var failedQueue: seq<nat>
    var access: Option<string>
    var refresh: Option<string>
    var promises: seq<Promise>
    var posts: nat
    var round: nat

    function View(): Client
      reads this
    {
      Client(isRefreshing, failedQueue, access, refresh, promises, posts, round)
    }

    constructor (access: Option<string>, refresh: Option<string>)
      ensures View() == Client(false, [], access, refresh, [], 0, 0)
    {
      isRefreshing, failedQueue := false, [];
      this.access, this.refresh := access, refresh;
      promises, posts, round := [], 0, 0;
    }

    method ClearTokens()
      modifies this`access, this`refresh
      ensures access == None && refresh == None
    {
      access, refresh := None, None;
    }

    method HandleUnauthorized(request: RequestConfig) returns (action: Action)
      modifies this, request`retry
      ensures Reaction(View(), request.retry, action) == OnUnauthorized(old(View()), request.id, old(request.retry))
    {
      if request.retry {
        return Reject;
      }
      if refresh.None? || refresh.value == "" {
        ClearTokens();
        return Reject;
      }
      var token := refresh.value;
      if isRefreshing {
        failedQueue := failedQueue + [|promises|];
        promises := promises + [Promise(request.id, round, [])];
        return Wait;
      }
      request.retry := true;
      isRefreshing := true;
      posts, round := posts + 1, round + 1;
      return StartRefresh(token);
    }

    method ProcessQueue(ok: bool)
      modifies this`failedQueue, this`promises
      ensures failedQueue == []
      ensures promises == SettleAll(old(promises), old(failedQueue), Settlement(round, ok))
    {
      var i := 0;
      while i < |failedQueue|
        invariant 0 <= i <= |failedQueue| && failedQueue == old(failedQueue)
        invariant promises == SettleAll(old(promises), failedQueue[..i], Settlement(round, ok))
      {
        assert failedQueue[..i + 1][..i] == failedQueue[..i];
        promises := Settle(promises, failedQueue[i], Settlement(round, ok));
        i := i + 1;
      }
      assert failedQueue[..i] == failedQueue;
      failedQueue := [];
    }

    method HandleRefreshed(newAccess: string, newRefresh: string)
      modifies this
      ensures View() == OnRefreshed(old(View()), newAccess, newRefresh)
      ensures access == Some(newAccess) && refresh == Some(newRefresh) && !isRefreshing && failedQueue == []
    {
      access, refresh := Some(newAccess), Some(newRefresh);
      ProcessQueue(true);
      isRefreshing := false;
      posts := if posts > 0 then posts - 1 else 0;
    }

    method HandleRefreshFailed()
      modifies this
      ensures View() == OnRefreshFailed(old(View()))
      ensures access == None && refresh == None && !isRefreshing && failedQueue == []
    {
      ProcessQueue(false);
      ClearTokens();
      isRefreshing := false;
      posts := if posts > 0 then posts - 1 else 0;
    }
  }

  // ------------------------------------------------------------------ the protocol

  // Where a request is: on the wire, waiting in the queue, released from the queue but not sent again
  // yet, waiting for the refresh it started, or answered for good.
  datatype Place = Sent | Queued | Resumed | Leading | Answered

  datatype Request = Request(retried: bool, place: Place)

  // `outcomes` records how each refresh call was answered, in order: whether it brought new tokens.
  datatype World = World(client: Client, requests: seq<Request>, outcomes: seq<bool>)

  datatype Event =
    | Issue
    | Unauthorized(r: Id)
    | Answer(r: Id)
    | Refreshed(access: string, refresh: string)
    | RefreshFailed
    | Resume(r: Id)
    | ChangeTokens(newAccess: Option<string>, newRefresh: Option<string>)

  ghost predicate At(w: World, r: Id, p: Place) {
    r < |w.requests| && w.requests[r].place == p
  }

  ghost predicate Enabled(w: World, e: Event) {
    match e
    case Issue => true
    case Unauthorized(r) => At(w, r, Sent)
    case Answer(r) => At(w, r, Sent)
    case Refreshed(_, _) => exists r :: At(w, r, Leading)
    case RefreshFailed => exists r :: At(w, r, Leading)
    case Resume(r) => At(w, r, Resumed)
    case ChangeTokens(_, _) => true
  }

  // A queued promise of the request is settled by the running processQueue.
  predicate InQueue(c: Client, r: Id) {
    exists i :: 0 <= i < |c.failedQueue| && c.failedQueue[i] < |c.promises| && c.promises[c.failedQueue[i]].request == r
  }

  // The requests after a refresh ends: waiting ones and the one that started it move on.
  function Released(w: World, waiting: Place, leading: Place): (rs: seq<Request>)
    ensures |rs| == |w.requests|
    ensures forall r :: 0 <= r < |rs| ==>
                          rs[r] == if InQueue(w.client, r) then w.requests[r].(place := waiting)
                                   else if w.requests[r].place == Leading then w.requests[r].(place := leading)
                                   else w.requests[r]
  {
    seq(|w.requests|, r requires 0 <= r < |w.requests| =>
      if InQueue(w.client, r) then w.requests[r].(place := waiting)
      else if w.requests[r].place == Leading then w.requests[r].(place := leading)
      else w.requests[r])
  }

  function PlaceAfter(a: Action): Place {
    match a
    case Reject => Answered
    case Wait => Queued
    case StartRefresh(_) => Leading
  }

  function Move(w: World, r: Id, p: Place): World {
    if r < |w.requests| then w.(requests := w.requests[r := w.requests[r].(place := p)]) else w
  }

  function Step(w: World, e: Event): World {
    match e
    case Issue => w.(requests := w.requests + [Request(false, Sent)])
    case Unauthorized(r) =>
      if r >= |w.requests| then w
      else
        var reaction := OnUnauthorized(w.client, r, w.requests[r].retried);
        World(reaction.client, w.requests[r := Request(reaction.retry, PlaceAfter(reaction.action))], w.outcomes)
    case Answer(r) => Move(w, r, Answered)
    case Refreshed(access, refresh) =>
      World(OnRefreshed(w.client, access, refresh), Released(w, Resumed, Sent), w.outcomes + [true])
    case RefreshFailed => World(OnRefreshFailed(w.client), Released(w, Answered, Answered), w.outcomes + [false])
    case Resume(r) => Move(w, r, Sent)
    case ChangeTokens(a, t) => w.(client := w.client.(access := a, refresh := t))
  }

  // ------------------------------------------------------------------ the invariant

  ghost predicate Distinct(queue: seq<nat>) {
    forall i, j :: 0 <= i < j < |queue| ==> queue[i] != queue[j]
  }

  // One refresh at a time, started by one request, and a queue only while it runs.
  ghost predicate SingleFlight(w: World) {
    && w.client.posts == (if w.client.isRefreshing then 1 else 0)
    && (w.client.isRefreshing <==> exists r :: At(w, r, Leading))
    && (forall r, q :: At(w, r, Leading) && At(w, q, Leading) ==> r == q)
    && (!w.client.isRefreshing ==> w.client.failedQueue == [])
  }

  // A promise is either queued, for the refresh in flight and untouched, or was settled exactly once,
  // by the refresh it waited on.
  ghost predicate PromisesKept(c: Client) {
    && Distinct(c.failedQueue)
    && (forall i :: 0 <= i < |c.failedQueue| ==> c.failedQueue[i] < |c.promises|)
    && forall k :: 0 <= k < |c.promises| ==>
                     if k in c.failedQueue then c.promises[k].settlements == [] && c.promises[k].round == c.round
                     else |c.promises[k].settlements| == 1 && c.promises[k].settlements[0].round == c.promises[k].round
  }

  // The requests that wait are those whose promise is queued.
  ghost predicate WaitersQueued(w: World) {
    && (forall i :: 0 <= i < |w.client.failedQueue| && w.client.failedQueue[i] < |w.client.promises| ==>
          At(w, w.client.promises[w.client.failedQueue[i]].request, Queued))
    && (forall r :: At(w, r, Queued) ==> InQueue(w.client, r))
  }

  function Unretried(rs: seq<Request>): nat {
    if rs == [] then 0 else Unretried(rs[..|rs| - 1]) + if rs[|rs| - 1].retried then 0 else 1
  }

  // Each refresh was started by a different request, whose flag keeps it from starting another.
  ghost predicate RefreshesCounted(w: World) {
    w.client.round + Unretried(w.requests) == |w.requests|
  }

  // Every refresh call but the one in flight has an outcome, and a promise that was settled by a refresh
  // was resolved if that refresh brought tokens and rejected if it failed.
  ghost predicate OutcomesKept(w: World) {
    && |w.outcomes| == w.client.round - w.client.posts
    && forall k :: 0 <= k < |w.client.promises| && |w.client.promises[k].settlements| == 1 ==>
                     var x := w.client.promises[k].settlements[0];
                     1 <= x.round <= |w.outcomes| && x.ok == w.outcomes[x.round - 1]
  }

  ghost predicate Inv(w: World) {
    SingleFlight(w) && PromisesKept(w.client) && WaitersQueued(w) && RefreshesCounted(w) && OutcomesKept(w)
  }

  // ------------------------------------------------------------------ promises

  lemma {:induction false} SettleAllExact(ps: seq<Promise>, queue: seq<nat>, s: Settlement)
    requires Distinct(queue) && forall i :: 0 <= i < |queue| ==> queue[i] < |ps|
    ensures forall k :: 0 <= k < |ps| ==>
                          SettleAll(ps, queue, s)[k]
                          == if k in queue then ps[k].(settlements := ps[k].settlements + [s]) else ps[k]
  {
    if queue != [] {
      var init, last := queue[..|queue| - 1], queue[|queue| - 1];
      SettleAllExact(ps, init, s);
      assert queue == init + [last];
      forall i | 0 <= i < |init| ensures init[i] != last {
        assert queue[i] != queue[|queue| - 1];
      }
    }
  }

  lemma QueueingKeepsPromises(c: Client, r: Id)
    requires PromisesKept(c)
    ensures PromisesKept(Enqueued(c, r))
  {
    var after := Enqueued(c, r);
    forall k | 0 <= k < |after.promises|
      ensures k in after.failedQueue <==> k in c.failedQueue || k == |c.promises|
    {
    }
  }

  lemma SettlingKeepsPromises(c: Client, ok: bool)
    requires PromisesKept(c)
    ensures PromisesKept(c.(promises := SettleAll(c.promises, c.failedQueue, Settlement(c.round, ok)), failedQueue := []))
  {
    SettleAllExact(c.promises, c.failedQueue, Settlement(c.round, ok));
  }

  lemma PromisesStayKept(w: World, e: Event)
    requires SingleFlight(w) && PromisesKept(w.client) && Enabled(w, e)
    ensures PromisesKept(Step(w, e).client)
  {
    match e
    case Unauthorized(r) => QueueingKeepsPromises(w.client, r);
    case Refreshed(_, _) => SettlingKeepsPromises(w.client, true);
    case RefreshFailed => SettlingKeepsPromises(w.client, false);
    case _ =>
  }

  // ------------------------------------------------------------------ places

  lemma EnqueuedInQueue(c: Client, r: Id, x: Id)
    requires PromisesKept(c)
    ensures InQueue(Enqueued(c, r), x) <==> InQueue(c, x) || x == r
  {
    var after := Enqueued(c, r);
    if InQueue(c, x) {
      var i :| 0 <= i < |c.failedQueue| && c.failedQueue[i] < |c.promises| && c.promises[c.failedQueue[i]].request == x;
      assert after.failedQueue[i] == c.failedQueue[i] && after.promises[c.failedQueue[i]].request == x;
    }
    assert after.failedQueue[|c.failedQueue|] == |c.promises| && after.promises[|c.promises|].request == r;
    if InQueue(after, x) && x != r {
      var i :| 0 <= i < |after.failedQueue| && after.failedQueue[i] < |after.promises|
               && after.promises[after.failedQueue[i]].request == x;
      assert i < |c.failedQueue| && c.failedQueue[i] < |c.promises|;
    }
  }

  lemma WaitStep(w: World, r: Id)
    requires Inv(w) && At(w, r, Sent)
    ensures var v := World(Enqueued(w.client, r), w.requests[r := w.requests[r].(place := Queued)], w.outcomes);
            WaitersQueued(v)
  {
    var v := World(Enqueued(w.client, r), w.requests[r := w.requests[r].(place := Queued)], w.outcomes);
    forall x | At(v, x, Queued) ensures InQueue(v.client, x) {
      EnqueuedInQueue(w.client, r, x);
      assert x != r ==> At(w, x, Queued);
    }
    forall i | 0 <= i < |v.client.failedQueue| && v.client.failedQueue[i] < |v.client.promises|
      ensures At(v, v.client.promises[v.client.failedQueue[i]].request, Queued)
    {
      if i < |w.client.failedQueue| {
        assert v.client.promises[w.client.failedQueue[i]] == w.client.promises[w.client.failedQueue[i]];
        assert At(w, w.client.promises[w.client.failedQueue[i]].request, Queued);
      }
    }
  }

  // A request that was not waiting moves to another place outside the queue; the queue is unchanged.
  lemma MoveStep(w: World, v: World, r: Id)
    requires WaitersQueued(w) && r < |w.requests| && w.requests[r].place != Queued
    requires |v.requests| == |w.requests| && v.requests[r].place != Queued
    requires forall x :: 0 <= x < |w.requests| && x != r ==> v.requests[x] == w.requests[x]
    requires v.client.failedQueue == w.client.failedQueue && v.client.promises == w.client.promises
    ensures WaitersQueued(v)
  {
    forall i | 0 <= i < |w.client.failedQueue| && w.client.failedQueue[i] < |w.client.promises|
      ensures At(v, w.client.promises[w.client.failedQueue[i]].request, Queued)
    {
      assert At(w, w.client.promises[w.client.failedQueue[i]].request, Queued);
    }
    forall x | At(v, x, Queued) ensures InQueue(v.client, x) {
      assert At(w, x, Queued);
      assert InQueue(w.client, x);
    }
  }

  lemma UnauthorizedKeepsWaiters(w: World, r: Id)
    requires Inv(w) && At(w, r, Sent)
    ensures WaitersQueued(Step(w, Unauthorized(r)))
  {
    var v := Step(w, Unauthorized(r));
    if OnUnauthorized(w.client, r, w.requests[r].retried).action == Wait {
      WaitStep(w, r);
    } else {
      MoveStep(w, v, r);
    }
  }

  lemma WaitersStayQueued(w: World, e: Event)
    requires Inv(w) && Enabled(w, e)
    ensures WaitersQueued(Step(w, e))
  {
    var v := Step(w, e);
    match e
    case Unauthorized(r) => UnauthorizedKeepsWaiters(w, r);
    case Answer(r) => MoveStep(w, v, r);
    case Resume(r) => MoveStep(w, v, r);
    case Issue =>
      forall x | At(v, x, Queued) ensures InQueue(v.client, x) {
        assert At(w, x, Queued);
      }
    case ChangeTokens(_, _) =>
      forall x | At(v, x, Queued) ensures InQueue(v.client, x) {
        assert At(w, x, Queued);
        assert InQueue(w.client, x);
      }
    case Refreshed(_, _) =>
      forall x | At(v, x, Queued) ensures false {
        assert At(w, x, Queued);
      }
    case RefreshFailed =>
      forall x | At(v, x, Queued) ensures false {
        assert At(w, x, Queued);
      }
  }

  lemma FlightAfterUnauthorized(w: World, r: Id)
    requires Inv(w) && At(w, r, Sent)
    ensures SingleFlight(Step(w, Unauthorized(r)))
  {
    var v := Step(w, Unauthorized(r));
    if OnUnauthorized(w.client, r, w.requests[r].retried).action.StartRefresh? {
      assert At(v, r, Leading);
      forall x | At(v, x, Leading) ensures x == r {
        assert x != r ==> At(w, x, Leading);
      }
    } else {
      SameLeaders(w, v);
    }
  }

  lemma SameLeaders(w: World, v: World)
    requires SingleFlight(w)
    requires forall x :: At(v, x, Leading) <==> At(w, x, Leading)
    requires v.client.isRefreshing == w.client.isRefreshing && v.client.posts == w.client.posts
    requires w.client.failedQueue == [] && !w.client.isRefreshing ==> v.client.failedQueue == []
    ensures SingleFlight(v)
  {
    if x :| At(w, x, Leading) {
      assert At(v, x, Leading);
    }
    if x :| At(v, x, Leading) {
      assert At(w, x, Leading);
    }
  }

  lemma FlightKept(w: World, e: Event)
    requires Inv(w) && Enabled(w, e)
    ensures SingleFlight(Step(w, e))
  {
    match e
    case Unauthorized(r) => FlightAfterUnauthorized(w, r);
    case Refreshed(_, _) =>
    case RefreshFailed =>
    case _ => SameLeaders(w, Step(w, e));
  }

  // ------------------------------------------------------------------ counting

  function Weight(p: Place): nat {
    match p
    case Resumed => 3
    case Sent => 2
    case Queued => 1
    case Leading => 1
    case Answered => 0
  }

  // How far the requests still have to go while no refresh starts or ends.
  function Distance(rs: seq<Request>): nat {
    if rs == [] then 0 else Distance(rs[..|rs| - 1]) + Weight(rs[|rs| - 1].place)
  }

  lemma {:induction false} SumsOfUpdate(rs: seq<Request>, k: nat, x: Request)
    requires k < |rs|
    ensures Unretried(rs[k := x]) == Unretried(rs) - (if rs[k].retried then 0 else 1) + if x.retried then 0 else 1
    ensures Distance(rs[k := x]) == Distance(rs) - Weight(rs[k].place) + Weight(x.place)
  {
    var n := |rs| - 1;
    if k < n {
      SumsOfUpdate(rs[..n], k, x);
      assert rs[k := x][..n] == rs[..n][k := x];
    } else {
      assert rs[k := x][..n] == rs[..n];
    }
  }

  lemma {:induction false} SameFlags(a: seq<Request>, b: seq<Request>)
    requires |a| == |b| && forall i :: 0 <= i < |a| ==> a[i].retried == b[i].retried
    ensures Unretried(a) == Unretried(b)
  {
    if a != [] {
      SameFlags(a[..|a| - 1], b[..|b| - 1]);
    }
  }

  lemma {:induction false} DistanceBound(rs: seq<Request>)
    ensures Distance(rs) <= 3 * |rs| && Unretried(rs) <= |rs|
  {
    if rs != [] {
      DistanceBound(rs[..|rs| - 1]);
    }
  }

  lemma CountKept(w: World, e: Event)
    requires Inv(w) && Enabled(w, e)
    ensures RefreshesCounted(Step(w, e))
  {
    var v := Step(w, e);
    match e
    case Unauthorized(r) => SumsOfUpdate(w.requests, r, v.requests[r]);
    case Answer(r) => SumsOfUpdate(w.requests, r, v.requests[r]);
    case Resume(r) => SumsOfUpdate(w.requests, r, v.requests[r]);
    case Refreshed(_, _) => SameFlags(w.requests, v.requests);
    case RefreshFailed => SameFlags(w.requests, v.requests);
    case Issue => assert v.requests[..|v.requests| - 1] == w.requests;
    case ChangeTokens(_, _) =>
  }

  lemma SettlingKeepsOutcomes(w: World, v: World, ok: bool)
    requires Inv(w) && w.client.isRefreshing
    requires v.client.promises == SettleAll(w.client.promises, w.client.failedQueue, Settlement(w.client.round, ok))
    requires v.outcomes == w.outcomes + [ok] && v.client.round == w.client.round && v.client.posts == 0
    ensures OutcomesKept(v)
  {
    SettleAllExact(w.client.promises, w.client.failedQueue, Settlement(w.client.round, ok));
    forall k | 0 <= k < |v.client.promises| && |v.client.promises[k].settlements| == 1
      ensures 1 <= v.client.promises[k].settlements[0].round <= |v.outcomes|
      ensures v.client.promises[k].settlements[0].ok == v.outcomes[v.client.promises[k].settlements[0].round - 1]
    {
      if k !in w.client.failedQueue {
        assert v.client.promises[k] == w.client.promises[k];
      }
    }
  }

  lemma OutcomesStayKept(w: World, e: Event)
    requires Inv(w) && Enabled(w, e)
    ensures OutcomesKept(Step(w, e))
  {
    match e
    case Refreshed(_, _) => SettlingKeepsOutcomes(w, Step(w, e), true);
    case RefreshFailed => SettlingKeepsOutcomes(w, Step(w, e), false);
    case _ =>
  }

  // Every step keeps the protocol: at most one refresh call is without an answer, requests queue only
  // while one is, and each promise is settled exactly once, by the refresh its request waited on.
  lemma StepKeepsInv(w: World, e: Event)
    requires Inv(w) && Enabled(w, e)
    ensures Inv(Step(w, e))
  {
    PromisesStayKept(w, e);
    WaitersStayQueued(w, e);
    FlightKept(w, e);
    CountKept(w, e);
    OutcomesStayKept(w, e);
  }

  // ------------------------------------------------------------------ what a refresh does to the waiters

  // The end of a refresh settles the promise of each waiting request once: resolved by new tokens, and
  // then the request is sent again, or rejected by a failure, and then the request is answered. The tokens
  // of the answer are stored each in its place; a failure clears both.
  lemma RefreshEnds(w: World, e: Event, i: nat)
    requires Inv(w) && Enabled(w, e) && (e.Refreshed? || e.RefreshFailed?) && i < |w.client.failedQueue|
    ensures var k := w.client.failedQueue[i]; var v := Step(w, e);
            && k < |w.client.promises| && |v.client.promises| == |w.client.promises|
            && v.client.promises[k].settlements == [Settlement(w.client.round, e.Refreshed?)]
            && At(w, w.client.promises[k].request, Queued)
            && At(v, w.client.promises[k].request, if e.Refreshed? then Resumed else Answered)
  {
    var k := w.client.failedQueue[i];
    SettleAllExact(w.client.promises, w.client.failedQueue, Settlement(w.client.round, e.Refreshed?));
    assert k in w.client.failedQueue;
    assert InQueue(w.client, w.client.promises[k].request);
  }

  lemma TokensAfterRefresh(w: World, e: Event)
    ensures e.Refreshed? ==>
              Step(w, e).client.access == Some(e.access) && Step(w, e).client.refresh == Some(e.refresh)
    ensures e.RefreshFailed? ==> Step(w, e).client.access == None && Step(w, e).client.refresh == None
    ensures e.Refreshed? || e.RefreshFailed? ==>
              && !Step(w, e).client.isRefreshing && Step(w, e).client.failedQueue == []
              && Step(w, e).outcomes == w.outcomes + [e.Refreshed?]
  {
  }

  // A waiting request moves on in no other way: it is resumed exactly when new tokens arrive, and
  // answered exactly when the refresh fails; only waiting requests are ever resumed. The request that
  // started the refresh is sent again or answered with it.
  lemma WaitersMoveExactly(w: World, e: Event, r: Id)
    requires Inv(w) && Enabled(w, e) && r < |w.requests|
    ensures At(w, r, Queued) ==>
              && (At(Step(w, e), r, Resumed) <==> e.Refreshed?)
              && (At(Step(w, e), r, Answered) <==> e.RefreshFailed?)
              && (At(Step(w, e), r, Queued) <==> !e.Refreshed? && !e.RefreshFailed?)
    ensures At(Step(w, e), r, Resumed) && !At(w, r, Resumed) ==> At(w, r, Queued) && e.Refreshed?
    ensures At(w, r, Leading) ==>
              && (At(Step(w, e), r, Sent) <==> e.Refreshed?)
              && (At(Step(w, e), r, Answered) <==> e.RefreshFailed?)
              && (At(Step(w, e), r, Leading) <==> !e.Refreshed? && !e.RefreshFailed?)
  {
    if InQueue(w.client, r) {
      assert At(w, r, Queued);
    }
  }

  // The other moves of a request: a new one is sent without the flag, a released one is sent again, an
  // answered one is done, and each leaves every other request where it was.
  lemma OtherMoves(w: World, e: Event, x: Id)
    requires Enabled(w, e) && x < |w.requests|
    ensures e.Issue? ==> Step(w, e) == w.(requests := w.requests + [Request(false, Sent)])
    ensures e.Resume? ==>
              Step(w, e).client == w.client && Step(w, e).requests[x]
              == if x == e.r then w.requests[x].(place := Sent) else w.requests[x]
    ensures e.Answer? ==>
              Step(w, e).client == w.client && Step(w, e).requests[x]
              == if x == e.r then w.requests[x].(place := Answered) else w.requests[x]
    ensures e.Unauthorized? && x != e.r ==> Step(w, e).requests[x] == w.requests[x]
  {
  }

  // What the handler of a 401 answer decides.
  lemma UnauthorizedExact(c: Client, r: Id, retry: bool)
    ensures var out := OnUnauthorized(c, r, retry); var hasToken := c.refresh.Some? && c.refresh.value != "";
            && (out.action == Reject <==> retry || !hasToken)
            && (out.action == Wait <==> !retry && hasToken && c.isRefreshing)
            && (out.action.StartRefresh? <==> !retry && hasToken && !c.isRefreshing)
            && (out.action.StartRefresh? ==>
                  && out.action.token == c.refresh.value && out.retry
                  && out.client == c.(isRefreshing := true, posts := c.posts + 1, round := c.round + 1))
            && (!out.action.StartRefresh? ==> out.retry == retry)
            && (retry ==> out.client == c)
            && (!retry && !hasToken ==> out.client == c.(access := None, refresh := None))
            && (out.action == Wait ==>
                  && out.client.promises == c.promises + [Promise(r, c.round, [])]
                  && out.client.failedQueue == c.failedQueue + [|c.promises|]
                  && out.client == c.(promises := out.client.promises, failedQueue := out.client.failedQueue))
  {
  }

  // ------------------------------------------------------------------ runs

  function Exec(w: World, es: seq<Event>): World
    decreases es
  {
    if es == [] then w else Exec(Step(w, es[0]), es[1..])
  }

  ghost predicate Legal(w: World, es: seq<Event>)
    decreases es
  {
    es == [] || (Enabled(w, es[0]) && Legal(Step(w, es[0]), es[1..]))
  }

  function Fresh(access: Option<string>, refresh: Option<string>): World {
    World(Client(false, [], access, refresh, [], 0, 0), [], [])
  }

  lemma FreshIsFine(access: Option<string>, refresh: Option<string>)
    ensures Inv(Fresh(access, refresh))
  {
  }

  // In every run the protocol holds at the end, and there were at most as many refresh calls as
  // distinct requests.
  lemma {:induction false} RunsKeepInv(w: World, es: seq<Event>)
    requires Inv(w) && Legal(w, es)
    ensures Inv(Exec(w, es))
    ensures Exec(w, es).client.round <= |Exec(w, es).requests|
    decreases es
  {
    if es != [] {
      StepKeepsInv(w, es[0]);
      RunsKeepInv(Step(w, es[0]), es[1..]);
    }
  }

  // Once no refresh is in flight every promise has been settled exactly once, by the refresh its
  // request waited on, and no request is left waiting.
  lemma NobodyLeftWaiting(w: World, k: nat, r: Id)
    requires Inv(w) && !w.client.isRefreshing && k < |w.client.promises|
    ensures |w.client.promises[k].settlements| == 1
    ensures w.client.promises[k].settlements[0].round == w.client.promises[k].round
    ensures !At(w, r, Queued) && !At(w, r, Leading)
  {
  }

  // In every run a settled promise was resolved exactly if the refresh it waited on brought tokens.
  lemma SettledAsAnswered(access: Option<string>, refresh: Option<string>, es: seq<Event>, k: nat)
    requires Legal(Fresh(access, refresh), es)
    ensures var end := Exec(Fresh(access, refresh), es);
            k < |end.client.promises| && end.client.promises[k].settlements != [] ==>
              var p := end.client.promises[k];
              && 1 <= p.round <= |end.outcomes|
              && p.settlements == [Settlement(p.round, end.outcomes[p.round - 1])]
  {
    FreshIsFine(access, refresh);
    RunsKeepInv(Fresh(access, refresh), es);
  }

  // From the state in which the module is loaded, whatever happens: there are at most as many refresh
  // calls as requests, at most one is without an answer, and when none is, nobody waits and every
  // promise was settled once.
  lemma LoadedClients(access: Option<string>, refresh: Option<string>, es: seq<Event>, k: nat, r: Id)
    requires Legal(Fresh(access, refresh), es)
    ensures var end := Exec(Fresh(access, refresh), es);
            && end.client.round <= |end.requests|
            && end.client.posts == (if end.client.isRefreshing then 1 else 0)
            && (!end.client.isRefreshing && k < |end.client.promises| ==>
                  && |end.client.promises[k].settlements| == 1
                  && end.client.promises[k].settlements[0].round == end.client.promises[k].round
                  && !At(end, r, Queued) && !At(end, r, Leading))
  {
    FreshIsFine(access, refresh);
    RunsKeepInv(Fresh(access, refresh), es);
  }

  // ------------------------------------------------------------------ termination

  function Rank(w: World): nat {
    2 * Unretried(w.requests) + if w.client.isRefreshing then 1 else 0
  }

  // Lexicographic in rank and distance, as one number.
  function Measure(w: World): nat {
    Combined(Rank(w), 3 * |w.requests| + 1, Distance(w.requests))
  }

  function Combined(rank: nat, base: nat, distance: nat): nat {
    rank * base + distance
  }

  predicate IsProtocolStep(e: Event) {
    !e.Issue? && !e.ChangeTokens?
  }

  // Each protocol step lowers the rank, or keeps it and lowers the distance.
  lemma StepProgresses(w: World, e: Event)
    requires Inv(w) && Enabled(w, e) && IsProtocolStep(e)
    ensures |Step(w, e).requests| == |w.requests|
    ensures Rank(Step(w, e)) < Rank(w)
            || (Rank(Step(w, e)) == Rank(w) && Distance(Step(w, e).requests) < Distance(w.requests))
  {
    var v := Step(w, e);
    match e
    case Unauthorized(r) => SumsOfUpdate(w.requests, r, v.requests[r]);
    case Answer(r) => SumsOfUpdate(w.requests, r, v.requests[r]);
    case Resume(r) => SumsOfUpdate(w.requests, r, v.requests[r]);
    case Refreshed(_, _) => SameFlags(w.requests, v.requests);
    case RefreshFailed => SameFlags(w.requests, v.requests);
    case _ =>
  }

  lemma LowerRank(a: nat, b: nat, base: nat, x: nat, y: nat)
    requires a < b && x < base
    ensures Combined(a, base, x) < Combined(b, base, y)
  {
    TimesMonotone(a + 1, b, base);
    assert (a + 1) * base == a * base + base;
  }

  lemma SameRank(rank: nat, base: nat, x: nat, y: nat)
    requires x < y
    ensures Combined(rank, base, x) < Combined(rank, base, y)
  {
  }

  lemma MeasureOfLower(w: World, v: World)
    requires |v.requests| == |w.requests|
    requires Rank(v) < Rank(w) || (Rank(v) == Rank(w) && Distance(v.requests) < Distance(w.requests))
    ensures Measure(v) < Measure(w)
  {
    var base := 3 * |w.requests| + 1;
    DistanceBound(v.requests);
    if Rank(v) < Rank(w) {
      LowerRank(Rank(v), Rank(w), base, Distance(v.requests), Distance(w.requests));
    } else {
      SameRank(Rank(w), base, Distance(v.requests), Distance(w.requests));
    }
  }

  lemma MeasureDrops(w: World, e: Event)
    requires Inv(w) && Enabled(w, e) && IsProtocolStep(e)
    ensures Measure(Step(w, e)) < Measure(w)
  {
    StepProgresses(w, e);
    MeasureOfLower(w, Step(w, e));
  }

  function ProtocolSteps(es: seq<Event>): nat {
    if es == [] then 0 else ProtocolSteps(es[1..]) + if IsProtocolStep(es[0]) then 1 else 0
  }

  // A run that issues no new request makes at most as many protocol steps as the measure of its first
  // state, whatever tokens come and go: refreshing cannot loop.
  lemma {:induction false} RefreshingTerminates(w: World, es: seq<Event>)
    requires Inv(w) && Legal(w, es) && forall i :: 0 <= i < |es| ==> !es[i].Issue?
    ensures ProtocolSteps(es) <= Measure(w)
    decreases es
  {
    if es != [] {
      StepKeepsInv(w, es[0]);
      RefreshingTerminates(Step(w, es[0]), es[1..]);
      if IsProtocolStep(es[0]) {
        MeasureDrops(w, es[0]);
      }
    }
  }
}
