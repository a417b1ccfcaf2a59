/**
 The HTTP handlers of `server.py` that touch the proxy pool: the relay
 handler `proxy(url)` with its bounded retry loop, and `/random/proxy`.

 The upstream request, the re-check probe and `random.choice` are replaced by
 a script of injected outcomes, one entry per loop iteration.
 */
module Server {
  import opened Wrappers
  import opened ProxyProvider

  /** Raw response bytes. */
  type Bytes = seq<bv8>

  /** The largest value of `attempts` for which the loop body still runs. */
  const MaxAttempts: nat := 20

  /** The scheme prefix that `proxy(url)` strips to recover the endpoint. */
  const HttpsPrefix: string := "https://"

  /** The outcome classes of the upstream GET as the handler distinguishes them. */
  datatype Upstream =
    | Fetched(content: Bytes)   // the call returned a response, whatever its status
    | MissingSchema             // `requests.exceptions.MissingSchema`
    | ValueFault                // any other `ValueError` the call raises
    | Transient                 // every other exception: timeout, refused, dead proxy, ...

  /** The injected nondeterminism of one loop iteration. */
  datatype Attempt = Attempt(
    pick: nat,            // `random.choice`; a pick past the end is clamped to the last index
    upstream: Upstream,   // what the upstream GET does
    recheckAlive: bool)   // what the re-check probe after a transient failure answers

  /** How one upstream request was sent. */
  datatype Route = Direct | Through(proxies: SchemeMap)

  /** The terminal results of `proxy(url)`; the message wording is not modelled. */
  datatype Reply =
    | Relayed(content: Bytes)       // 200 with the upstream body
    | BadUrl(url: string)           // 400, no schema supplied
    | NoProxy(url: string)          // 500, no proxy available
    | Exhausted(url: string, attempts: nat)  // 500 after every attempt failed

  /** Everything one run of the handler produces: its reply, the pool it leaves, the requests it sent. */
  datatype Outcome = Outcome(reply: Reply, pool: Pool, routes: seq<Route>)

  /** The HTTP status of each reply. */
  function Status(r: Reply): (code: int)
    ensures code == 200 <==> r.Relayed?
    ensures code == 400 <==> r.BadUrl?
    ensures code == 500 <==> r.NoProxy? || r.Exhausted?
  {
    match r
    case Relayed(_) => 200
    case BadUrl(_) => 400
    case NoProxy(_) => 500
    case Exhausted(_, _) => 500
  }

  /** The index `random.choice` lands on, given the injected pick. */
  function Choose(pool: Pool, pick: nat): (i: nat)
    ensures |pool| > 0 ==> i < |pool|
  {
    if pick < |pool| then pick else if |pool| == 0 then 0 else |pool| - 1
  }

  // ---------------------------------------------------------------------------
  // `str.replace(pat, "")`

  /** `pat` occurs in `s` as a contiguous block. */
  ghost predicate Occurs(pat: string, s: string) {
    exists k :: OccursAt(pat, s, k)
  }

  /** `pat` occurs in `s` starting at index `k`. */
  predicate OccursAt(pat: string, s: string, k: int) {
    0 <= k <= |s| - |pat| && s[k..k + |pat|] == pat
  }

  /**
   `s.replace(pat, "")`: scanning left to right, every non-overlapping
   occurrence of `pat` is deleted.
   */
  function RemoveAll(s: string, pat: string): (r: string)
    requires |pat| > 0
    ensures |r| <= |s|
    decreases |s|
  {
    if |s| < |pat| then s
    else if s[..|pat|] == pat then RemoveAll(s[|pat|..], pat)
    else [s[0]] + RemoveAll(s[1..], pat)
  }

  /** A leading `pat` is deleted and the scan goes on after it. */
  lemma RemoveAllLeading(pat: string, t: string)
    requires |pat| > 0
    ensures RemoveAll(pat + t, pat) == RemoveAll(t, pat)
  {
    assert (pat + t)[..|pat|] == pat;
    assert (pat + t)[|pat|..] == t;
  }

  /** An occurrence in `s[1..]` is an occurrence in `s` one place further on. */
  lemma OccursAtShift(pat: string, s: string, k: nat)
    requires |s| > 0
    ensures OccursAt(pat, s[1..], k) <==> OccursAt(pat, s, k + 1)
  {
    if k + 1 <= |s| - |pat| {
      assert s[1..][k..k + |pat|] == s[k + 1..k + 1 + |pat|];
    }
  }

  /** No occurrence of `pat` in `a + t` starts inside `a`. */
  predicate HeadFree(pat: string, a: string, t: string) {
    forall k :: 0 <= k < |a| ==> !OccursAt(pat, a + t, k)
  }

  /** Dropping the first character of a head that `pat` does not start in. */
  lemma HeadFreeShift(pat: string, a: string, t: string)
    requires |a| > 0 && HeadFree(pat, a, t)
    ensures HeadFree(pat, a[1..], t) && !OccursAt(pat, a + t, 0)
  {
    var s := a + t;
    assert s[1..] == a[1..] + t;
    forall k | 0 <= k < |a| - 1
      ensures !OccursAt(pat, a[1..] + t, k)
    {
      assert !OccursAt(pat, s, k + 1);
      OccursAtShift(pat, s, k);
    }
  }

  /** Where no occurrence starts at the front, the first character is kept and the scan moves on. */
  lemma RemoveAllNoMatchHere(pat: string, s: string)
    requires |pat| > 0 && |s| > 0
    requires !OccursAt(pat, s, 0)
    ensures RemoveAll(s, pat) == [s[0]] + RemoveAll(s[1..], pat)
  {
    if |s| < |pat| {
      assert RemoveAll(s[1..], pat) == s[1..];
      assert s == [s[0]] + s[1..];
    } else {
      assert s[..|pat|] != pat;
    }
  }

  /** A head `a` in which no occurrence of `pat` starts is kept as it is, and the scan goes on in `t`. */
  lemma {:induction false} RemoveAllKeepsHead(pat: string, a: string, t: string)
    requires |pat| > 0
    requires HeadFree(pat, a, t)
    ensures RemoveAll(a + t, pat) == a + RemoveAll(t, pat)
    decreases |a|
  {
    var s := a + t;
    if |a| == 0 {
      assert s == t;
    } else {
      HeadFreeShift(pat, a, t);
      RemoveAllKeepsHead(pat, a[1..], t);
      RemoveAllNoMatchHere(pat, s);
      assert s[1..] == a[1..] + t;
      assert a + RemoveAll(t, pat) == [a[0]] + (a[1..] + RemoveAll(t, pat));
    }
  }

  /** A string in which `pat` does not occur is left unchanged. */
  lemma RemoveAllUnchanged(pat: string, s: string)
    requires |pat| > 0
    ensures !Occurs(pat, s) ==> RemoveAll(s, pat) == s
  {
    if !Occurs(pat, s) {
      assert s + [] == s;
      RemoveAllKeepsHead(pat, s, []);
    }
  }

  /**
   The endpoint the failure path hands to `check_again`: when the `https`
   value starts with `https://`, that prefix is dropped and the scan deletes
   every later occurrence too; a remainder without `https://` is returned whole.
   */
  function RecheckTarget(proxies: SchemeMap): (e: Endpoint)
    ensures |e| <= |proxies.https|
    ensures |proxies.https| >= |HttpsPrefix| && proxies.https[..|HttpsPrefix|] == HttpsPrefix ==>
      && e == RemoveAll(proxies.https[|HttpsPrefix|..], HttpsPrefix)
      && (!Occurs(HttpsPrefix, proxies.https[|HttpsPrefix|..]) ==> e == proxies.https[|HttpsPrefix|..])
  {
    if |proxies.https| >= |HttpsPrefix| && proxies.https[..|HttpsPrefix|] == HttpsPrefix then
      var tail := proxies.https[|HttpsPrefix|..];
      assert proxies.https == HttpsPrefix + tail;
      RemoveAllUnchanged(HttpsPrefix, tail);
      RemoveAllLeading(HttpsPrefix, tail);
      RemoveAll(proxies.https, HttpsPrefix)
    else
      RemoveAll(proxies.https, HttpsPrefix)
  }

  /**
   Stripping `https://` from the `https` entry built by `get_single_proxy`
   gives back the endpoint, provided the endpoint contains no `https://`.
   */
  lemma StripRecoversEndpoint(e: Endpoint)
    requires !Occurs(HttpsPrefix, e)
    ensures RecheckTarget(SchemeMap("http://" + e, HttpsPrefix + e)) == e
  {
    var s := HttpsPrefix + e;
    assert s[..|HttpsPrefix|] == HttpsPrefix;
    assert s[|HttpsPrefix|..] == e;
  }

  // ---------------------------------------------------------------------------
  // The retry loop of `proxy(url)`

  /** Where one iteration of the loop leaves the handler. */
  datatype Transition =
    | Stop(reply: Reply, sent: seq<Route>)   // the handler returns; `sent` is the request made, if any
    | Retry(route: Route, pool: Pool)        // the request failed; the pool after the re-check

  /** The route of the request sent with counter `attempts` once `proxies` was looked up. */
  function RouteFor(proxies: SchemeMap, attempts: nat): (r: Route)
    ensures r.Direct? <==> attempts == MaxAttempts
    ensures r.Through? ==> r.proxies == proxies
  {
    if attempts == MaxAttempts then Direct else Through(proxies)
  }

  /**
   One iteration of the loop body: look up a proxy and stop with 500 when
   there is none (also on the direct attempt), otherwise send the request and
   classify its outcome. Only a transient failure re-checks and retries.
   */
  function Step(url: string, pool: Pool, step: Attempt, attempts: nat): (t: Transition)
    ensures |pool| == 0 ==> t == Stop(NoProxy(url), [])
    ensures |pool| > 0 ==>
      var m := GetSingleProxy(pool, Choose(pool, step.pick)).value;
      (t.Stop? ==> t.sent == [RouteFor(m, attempts)]) && (t.Retry? ==> t.route == RouteFor(m, attempts))
    ensures |pool| > 0 && t.Stop? ==> |t.sent| == 1 && (t.sent[0].Direct? <==> attempts == MaxAttempts)
    ensures t.Retry? ==> |pool| > 0 && step.upstream == Transient && (t.route.Direct? <==> attempts == MaxAttempts)
    ensures |pool| > 0 && step.upstream.Fetched? ==> t.Stop? && t.reply == Relayed(step.upstream.content)
    ensures |pool| > 0 && step.upstream.MissingSchema? ==> t.Stop? && t.reply == BadUrl(url)
    ensures |pool| > 0 && step.upstream.ValueFault? ==> t.Stop? && t.reply == NoProxy(url)
    ensures |pool| > 0 && step.upstream.Transient? ==>
      t.Retry? && t.pool == CheckAgain(pool, RemoveAll(HttpsPrefix + pool[Choose(pool, step.pick)], HttpsPrefix), step.recheckAlive)
  {
    match GetSingleProxy(pool, Choose(pool, step.pick))
    case None => Stop(NoProxy(url), [])
    case Some(proxies) =>
      var route := RouteFor(proxies, attempts);
      match step.upstream
      case Fetched(content) => Stop(Relayed(content), [route])
      case MissingSchema => Stop(BadUrl(url), [route])
      case ValueFault => Stop(NoProxy(url), [route])
      case Transient => Retry(route, CheckAgain(pool, RecheckTarget(proxies), step.recheckAlive))
  }

  /**
   The loop of `proxy(url)` from the iteration with counter `attempts` on:
   iterate `Step` until it stops, or report exhaustion once the counter
   passes `MaxAttempts`. At most one request is sent per remaining counter value.
   */
  function Relay(url: string, pool: Pool, script: seq<Attempt>, attempts: nat): (o: Outcome)
    requires attempts <= MaxAttempts + 1
    requires |script| > MaxAttempts
    ensures |o.routes| <= MaxAttempts + 1 - attempts
    ensures o.reply.Exhausted? ==> o.reply == Exhausted(url, MaxAttempts + 1) && |o.routes| == MaxAttempts + 1 - attempts
    decreases MaxAttempts + 1 - attempts
  {
    if attempts > MaxAttempts then Outcome(Exhausted(url, attempts), pool, [])
    else
      match Step(url, pool, script[attempts], attempts)
      case Stop(reply, sent) => Outcome(reply, pool, sent)
      case Retry(route, pool') =>
        var rest := Relay(url, pool', script, attempts + 1);
        Outcome(rest.reply, rest.pool, [route] + rest.routes)
  }

  /** Of `routes`, sent with counter values `first`, `first + 1`, ..., exactly the one sent at 20 is direct. */
  predicate DirectOnlyAtLast(routes: seq<Route>, first: nat) {
    forall i :: 0 <= i < |routes| ==> (routes[i].Direct? <==> first + i == MaxAttempts)
  }

  /** Prepending the route sent at `first` to routes sent from `first + 1` on. */
  lemma DirectOnlyAtLastCons(route: Route, rest: seq<Route>, first: nat)
    requires route.Direct? <==> first == MaxAttempts
    requires DirectOnlyAtLast(rest, first + 1)
    ensures DirectOnlyAtLast([route] + rest, first)
  {
    var routes := [route] + rest;
    forall i | 0 <= i < |routes|
      ensures routes[i].Direct? <==> first + i == MaxAttempts
    {
      if i > 0 {
        assert routes[i] == rest[i - 1];
      }
    }
  }

  /** The request sent with counter value `attempts + i` goes direct exactly when that value is 20. */
  lemma {:induction false} RelayDirectOnlyLast(url: string, pool: Pool, script: seq<Attempt>, attempts: nat)
    requires attempts <= MaxAttempts + 1
    requires |script| > MaxAttempts
    ensures DirectOnlyAtLast(Relay(url, pool, script, attempts).routes, attempts)
    decreases MaxAttempts + 1 - attempts
  {
    if attempts <= MaxAttempts {
      var step := script[attempts];
      var o := Relay(url, pool, script, attempts);
      if |pool| > 0 {
        var t := Step(url, pool, step, attempts);
        if step.upstream == Transient {
          RelayDirectOnlyLast(url, t.pool, script, attempts + 1);
          var rest := Relay(url, t.pool, script, attempts + 1).routes;
          assert o.routes == [t.route] + rest;
          DirectOnlyAtLastCons(t.route, rest, attempts);
        } else {
          assert o.routes == t.sent && |t.sent| == 1;
        }
      }
    }
  }

  /** Before counter 20, the request of an iteration goes through the scheme map its lookup returned. */
  lemma ThroughLookedUpProxy(url: string, pool: Pool, script: seq<Attempt>, attempts: nat)
    requires attempts < MaxAttempts
    requires |script| > MaxAttempts
    requires |pool| > 0
    ensures var o := Relay(url, pool, script, attempts);
      |o.routes| > 0 && o.routes[0] == Through(GetSingleProxy(pool, Choose(pool, script[attempts].pick)).value)
  {
    var t := Step(url, pool, script[attempts], attempts);
    if t.Retry? {
      RelayRetries(url, pool, script, attempts);
    } else {
      RelayStops(url, pool, script, attempts);
    }
  }

  /** The requests sent with counter values `from` to `from + count - 1` all failed transiently. */
  predicate FailedTransiently(script: seq<Attempt>, from: nat, count: nat)
    requires from + count <= |script|
  {
    forall i :: from <= i < from + count ==> script[i].upstream == Transient
  }

  /** The script entries that decided a run started at counter `attempts`. */
  predicate Decided(script: seq<Attempt>, attempts: nat, o: Outcome)
    requires attempts + |o.routes| <= |script|
  {
    && (|o.routes| > 0 ==> FailedTransiently(script, attempts, |o.routes| - 1))
    && (o.reply.Relayed? ==> |o.routes| > 0 && script[attempts + |o.routes| - 1].upstream == Fetched(o.reply.content))
    && (o.reply.BadUrl? ==> |o.routes| > 0 && script[attempts + |o.routes| - 1].upstream == MissingSchema)
    && (o.reply.Exhausted? ==> FailedTransiently(script, attempts, |o.routes|))
    && (o.reply.NoProxy? ==> |o.pool| == 0 || (|o.routes| > 0 && script[attempts + |o.routes| - 1].upstream == ValueFault))
  }

  /**
   Which script entries decided the run: every request but the last failed
   transiently; a 200 or 400 reply is the outcome of the last request; a 500
   "no proxy available" comes from an empty lookup or a `ValueError` on the
   last request; and exhaustion happens only when every request failed transiently.
   */
  lemma {:induction false} RelayTrace(url: string, pool: Pool, script: seq<Attempt>, attempts: nat)
    requires attempts <= MaxAttempts + 1
    requires |script| > MaxAttempts
    ensures Decided(script, attempts, Relay(url, pool, script, attempts))
    decreases MaxAttempts + 1 - attempts
  {
    if attempts <= MaxAttempts {
      if |pool| > 0 && script[attempts].upstream == Transient {
        var t := Step(url, pool, script[attempts], attempts);
        RelayTrace(url, t.pool, script, attempts + 1);
        RetryDecided(url, pool, script, attempts);
      } else {
        StopDecided(url, pool, script, attempts);
      }
    }
  }

  /** A run whose first iteration stops is decided by that iteration's script entry. */
  lemma StopDecided(url: string, pool: Pool, script: seq<Attempt>, attempts: nat)
    requires attempts <= MaxAttempts
    requires |script| > MaxAttempts
    requires |pool| == 0 || script[attempts].upstream != Transient
    ensures Decided(script, attempts, Relay(url, pool, script, attempts))
  {
    var o := Relay(url, pool, script, attempts);
    if |pool| == 0 {
      assert o == Outcome(NoProxy(url), pool, []);
    } else {
      var t := Step(url, pool, script[attempts], attempts);
      assert o == Outcome(t.reply, pool, t.sent) && |t.sent| == 1;
    }
  }

  /** A run whose first iteration fails transiently is decided as its remainder is. */
  lemma RetryDecided(url: string, pool: Pool, script: seq<Attempt>, attempts: nat)
    requires attempts <= MaxAttempts
    requires |script| > MaxAttempts
    requires |pool| > 0 && script[attempts].upstream == Transient
    requires Decided(script, attempts + 1, Relay(url, Step(url, pool, script[attempts], attempts).pool, script, attempts + 1))
    ensures Decided(script, attempts, Relay(url, pool, script, attempts))
  {
    var t := Step(url, pool, script[attempts], attempts);
    var rest := Relay(url, t.pool, script, attempts + 1);
    assert Relay(url, pool, script, attempts) == Outcome(rest.reply, rest.pool, [t.route] + rest.routes);
    TraceCons(script, attempts, rest.routes);
  }

  /** Extending a decided run from `attempts + 1` by a transient failure at `attempts`. */
  lemma TraceCons(script: seq<Attempt>, attempts: nat, rest: seq<Route>)
    requires attempts + 1 + |rest| <= |script|
    requires script[attempts].upstream == Transient
    requires |rest| > 0 ==> FailedTransiently(script, attempts + 1, |rest| - 1)
    ensures FailedTransiently(script, attempts, |rest|)
  {
  }

  /** Unfolding `Relay` once when its first iteration stops. */
  lemma RelayStops(url: string, pool: Pool, script: seq<Attempt>, attempts: nat)
    requires attempts <= MaxAttempts
    requires |script| > MaxAttempts
    requires Step(url, pool, script[attempts], attempts).Stop?
    ensures var t := Step(url, pool, script[attempts], attempts);
      Relay(url, pool, script, attempts) == Outcome(t.reply, pool, t.sent)
  {
  }

  /** Unfolding `Relay` once when its first iteration retries. */
  lemma RelayRetries(url: string, pool: Pool, script: seq<Attempt>, attempts: nat)
    requires attempts <= MaxAttempts
    requires |script| > MaxAttempts
    requires Step(url, pool, script[attempts], attempts).Retry?
    ensures var t := Step(url, pool, script[attempts], attempts);
      var rest := Relay(url, t.pool, script, attempts + 1);
      Relay(url, pool, script, attempts) == Outcome(rest.reply, rest.pool, [t.route] + rest.routes)
  {
  }

  /**
   `proxy(url)`: the handler's `while attempts <= 20` loop, running `Step` once
   per iteration on the script entry for the current counter. It returns the
   reply, the pool afterwards, and the route of every upstream request it sent.
   */
  method Proxy(url: string, pool0: Pool, script: seq<Attempt>) returns (reply: Reply, pool: Pool, routes: seq<Route>)
    requires |script| > MaxAttempts
    ensures Outcome(reply, pool, routes) == Relay(url, pool0, script, 0)
    ensures |routes| <= MaxAttempts + 1
    ensures forall i :: 0 <= i < |routes| ==> (routes[i].Direct? <==> i == MaxAttempts)
    ensures reply.Exhausted? ==> reply.attempts == MaxAttempts + 1 && |routes| == MaxAttempts + 1
    ensures |pool0| == 0 ==> reply == NoProxy(url) && routes == [] && pool == pool0
  {
    reply, pool, routes := Loop(url, pool0, script);
    RelayDirectOnlyLast(url, pool0, script, 0);
    if |pool0| == 0 {
      RelayStops(url, pool0, script, 0);
    }
  }

  /** The loop itself, proved to compute `Relay` from counter 0. */
  method Loop(url: string, pool0: Pool, script: seq<Attempt>) returns (reply: Reply, pool: Pool, routes: seq<Route>)
    requires |script| > MaxAttempts
    ensures Outcome(reply, pool, routes) == Relay(url, pool0, script, 0)
  {
    ghost var whole := Relay(url, pool0, script, 0);
    var attempts: nat := 0;
    pool := pool0;
    routes := [];
    ghost var rest := whole;
    while attempts <= MaxAttempts
      invariant attempts <= MaxAttempts + 1
      invariant rest == Relay(url, pool, script, attempts)
      invariant whole == Outcome(rest.reply, rest.pool, routes + rest.routes)
      decreases MaxAttempts + 1 - attempts
    {
      var t := Step(url, pool, script[attempts], attempts);
      if t.Stop? {
        RelayStops(url, pool, script, attempts);
        reply, routes := t.reply, routes + t.sent;
        return;
      }
      RelayRetries(url, pool, script, attempts);
      ghost var before := routes;
      pool, routes, attempts := t.pool, routes + [t.route], attempts + 1;
      rest := Relay(url, pool, script, attempts);
      assert before + ([t.route] + rest.routes) == routes + rest.routes;
    }
    reply := Exhausted(url, attempts);
  }

  // ---------------------------------------------------------------------------
  // Properties of the retry loop

  /**
   A lookup that finds the pool empty ends the request with 500 "no proxy
   available" on that iteration, including the direct one: nothing is sent and
   nothing is re-checked.
   */
  lemma EmptyLookupStopsHard(url: string, pool: Pool, script: seq<Attempt>, attempts: nat)
    requires attempts <= MaxAttempts
    requires |script| > MaxAttempts
    requires |pool| == 0
    ensures Relay(url, pool, script, attempts) == Outcome(NoProxy(url), pool, [])
  {
  }

  /**
   An upstream success on the first attempt returns its body with 200 after
   exactly one request, sent through the chosen proxy.
   */
  lemma FirstAttemptSuccess(url: string, pool: Pool, script: seq<Attempt>, content: Bytes)
    requires |script| > MaxAttempts
    requires |pool| > 0
    requires script[0].upstream == Fetched(content)
    ensures var o := Relay(url, pool, script, 0);
      && o.reply == Relayed(content) && Status(o.reply) == 200 && o.pool == pool
      && o.routes == [Through(GetSingleProxy(pool, Choose(pool, script[0].pick)).value)]
  {
  }

  /** A missing scheme returns 400 on the first attempt: one request, no re-check, no retry. */
  lemma MissingSchemaShortCircuits(url: string, pool: Pool, script: seq<Attempt>)
    requires |script| > MaxAttempts
    requires |pool| > 0
    requires script[0].upstream == MissingSchema
    ensures var o := Relay(url, pool, script, 0);
      o.reply == BadUrl(url) && Status(o.reply) == 400 && o.pool == pool && |o.routes| == 1
  {
  }

  /**
   When every request fails transiently and every re-check succeeds, the pool
   never empties, so the loop runs to the end: 500 reporting 21 attempts, the
   last of them direct.
   */
  lemma {:induction false} AllTransientExhausts(url: string, pool: Pool, script: seq<Attempt>, attempts: nat)
    requires attempts <= MaxAttempts + 1
    requires |script| > MaxAttempts
    requires |pool| > 0
    requires forall i :: attempts <= i <= MaxAttempts ==> script[i].upstream == Transient && script[i].recheckAlive
    ensures var o := Relay(url, pool, script, attempts);
      && o.reply == Exhausted(url, MaxAttempts + 1) && Status(o.reply) == 500
      && |o.routes| == MaxAttempts + 1 - attempts
      && (attempts <= MaxAttempts ==> o.routes[|o.routes| - 1] == Direct)
    decreases MaxAttempts + 1 - attempts
  {
    if attempts <= MaxAttempts {
      var t := Step(url, pool, script[attempts], attempts);
      assert t.Retry?;
      AllTransientExhausts(url, t.pool, script, attempts + 1);
    }
  }

  /**
   The single-proxy scenario: the pool holds one endpoint, the first request
   fails and the re-check finds the proxy dead. The re-check empties the pool,
   so the second lookup ends the request with 500 "no proxy available" after
   one request rather than 21.
   */
  lemma DeadOnlyProxyEndsEarly(url: string, e: Endpoint, script: seq<Attempt>)
    requires |script| > MaxAttempts
    requires !Occurs(HttpsPrefix, e)
    requires script[0].upstream == Transient && !script[0].recheckAlive
    ensures var o := Relay(url, [e], script, 0);
      o.reply == NoProxy(url) && o.pool == [] && |o.routes| == 1
  {
    StripRecoversEndpoint(e);
    var t := Step(url, [e], script[0], 0);
    assert t.pool == CheckAgain([e], e, false);
    assert t.pool == [];
    EmptyLookupStopsHard(url, t.pool, script, 1);
  }

  // ---------------------------------------------------------------------------
  // `/random/proxy`

  /** The body of `/random/proxy`: a scheme map, or the "server is busy" text. */
  datatype RandomBody = Found(proxies: SchemeMap) | Busy

  /** A body paired with an HTTP status, as a Flask view returns it. */
  datatype RandomResponse = RandomResponse(body: RandomBody, status: int)

  /**
   `get_random_proxy` as written: `a if c else b, 503` parses as
   `(a if c else b), 503`, so the status is 503 in both branches.
   */
  function RandomProxyAsWritten(pool: Pool, choice: nat): (r: RandomResponse)
    requires |pool| > 0 ==> choice < |pool|
    ensures r.status == 503
    ensures r.body.Found? <==> |pool| > 0
    ensures r.body.Found? ==> Some(r.body.proxies) == GetSingleProxy(pool, choice)
  {
    var proxy := GetSingleProxy(pool, choice);
    RandomResponse(if proxy != None then Found(proxy.value) else Busy, 503)
  }

  /** `get_random_proxy` as evidently intended: 200 with the scheme map, or 503 when the pool is empty. */
  function RandomProxy(pool: Pool, choice: nat): (r: RandomResponse)
    requires |pool| > 0 ==> choice < |pool|
    ensures r.body.Found? <==> |pool| > 0
    ensures r.body.Found? ==> Some(r.body.proxies) == GetSingleProxy(pool, choice)
    ensures r.status == 200 <==> r.body.Found?
    ensures r.status == 503 <==> r.body.Busy?
  {
    match GetSingleProxy(pool, choice)
    case Some(proxies) => RandomResponse(Found(proxies), 200)
    case None => RandomResponse(Busy, 503)
  }

  /** A proxy that is found is still reported with 503 by the handler as written. */
  lemma FoundProxyReportedBusy(pool: Pool, choice: nat)
    requires 0 <= choice < |pool|
    ensures RandomProxyAsWritten(pool, choice).body.Found?
    ensures RandomProxyAsWritten(pool, choice).status == 503
    ensures RandomProxy(pool, choice).status == 200
  {
  }
}
