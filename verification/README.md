# Proxy pool and retrying relay — a Dafny model

This project models the two stateful pieces of a small proxy server written in Python:

- **The proxy pool of `ProxyProviderService`** (module `ProxyProvider`, `proxy_provider.dfy`). The
  service keeps a list of `host:port` strings, `checked_proxy_list`. A liveness probe appends a
  proxy that answers and drops every copy of one that does not. A batch of probes is followed by
  `remove_duplicates`, and `get_single_proxy` returns a random member wrapped in an
  `http`/`https` scheme map. The probe result is a boolean parameter and `random.choice` is a
  caller-supplied index, so every operation is a pure function on `seq<string>`.
- **The relay handler `proxy(url)` of `server.py`** (module `Server`, `server.dfy`). It is a
  bounded retry loop. The attempt counter runs from 0 to 20. Every iteration looks up a proxy,
  and an empty pool stops the request with 500. Attempt 20 is sent directly, without a proxy.
  Success returns the upstream body with 200, and a missing URL scheme returns 400. Any other
  failure re-checks the proxy, increments the counter and retries. Running out of attempts
  returns 500 with the count. Each iteration's random pick, upstream outcome and re-check answer
  come from a script of injected values. `Step` is the transition of one iteration and `Relay`
  iterates it. `Loop` is the handler's `while` loop, proved to compute exactly what `Relay` does, and `Proxy` adds the facts about the whole run.
  The module also models `/random/proxy`.

`wrappers.dfy` holds the `Option` datatype, which stands in for Python's `None`.

Notes on what the code does:

- A successful probe appends the proxy even when it is already present. Duplicates last until
  `remove_duplicates` runs; the pool is not kept duplicate-free on every insertion.
- `check_proxies` runs a de-duplication pass after the probes.
- The relay handler catches every `ValueError`, not only the one it raises itself for an empty
  pool. An upstream error in that class therefore also yields 500 "no proxy available"
  (`Upstream.ValueFault`).
- `/random/proxy` answers 503 even when it found a proxy (see Findings).

## Model

| member | source | states |
|---|---|---|
| `ProxyProvider.NewPool` | services/proxy_provider.py:25-26 | a newly constructed service holds no proxy, and a lookup on it returns `None` |
| `ProxyProvider.Without` | services/proxy_provider.py:111-112 | the filter keeps exactly the members other than the proxy, and leaves a list without the proxy unchanged |
| `ProxyProvider.WithoutCounts` | services/proxy_provider.py:111-112 | the filter removes every copy of the proxy and keeps every other entry with its number of copies |
| `ProxyProvider.WithoutKeepsOrder` | services/proxy_provider.py:111-112 | the entries that survive the filter keep their relative order |
| `ProxyProvider.CheckProxy` | services/proxy_provider.py:102-112 | a successful probe adds exactly that proxy at the end and keeps the earlier entries, so the length grows by one even if the proxy was present; a failed probe leaves no copy, and changes nothing when the proxy was absent; no other endpoint's membership changes either way |
| `ProxyProvider.FailedProbeFilters` | services/proxy_provider.py:109-112 | a failed probe drops exactly the copies of the proxy and keeps every other entry, with its multiplicity, in its relative order |
| `ProxyProvider.AppendKeepsDistinctIff` | services/proxy_provider.py:106-108 | on a duplicate-free pool, a successful probe keeps it duplicate-free if and only if the proxy was not already there |
| `ProxyProvider.RemovalKeepsDistinct` | services/proxy_provider.py:109-112 | a failed probe never introduces a duplicate |
| `ProxyProvider.CheckAgain` | services/proxy_provider.py:132-133 | the re-check has exactly the effect of `check_proxy` on the pool |
| `ProxyProvider.Dedup` | services/proxy_provider.py:127-129 | `list(set(pool))` has no duplicates, the same members as the pool, and is no longer than it |
| `ProxyProvider.DedupOfDistinct` | services/proxy_provider.py:127-129 | a pool that already has no duplicates is returned unchanged |
| `ProxyProvider.DedupIdempotent` | services/proxy_provider.py:127-129 | de-duplicating twice gives the same pool as de-duplicating once |
| `ProxyProvider.CheckAll` | services/proxy_provider.py:114-117 | after probing every candidate in order, a proxy is present if and only if its last probe succeeded; a proxy that was never probed keeps its old membership |
| `ProxyProvider.CheckProxies` | services/proxy_provider.py:114-118 | after the probes and de-duplication the pool has no duplicates; unprobed entries keep their membership; a probed candidate is present if and only if its last probe succeeded |
| `ProxyProvider.GetSingleProxy` | services/proxy_provider.py:120-125 | the result is `None` if and only if the pool is empty; otherwise it is `{http: "http://"+e, https: "https://"+e}` for the member `e` at the chosen index |
| `ProxyProvider.EveryMemberSelectable` | services/proxy_provider.py:121-123 | every member of the pool is returned for some index that `random.choice` can produce |
| `Server.Status` | server.py:55-66 | the status is 200 exactly for a relayed body, 400 exactly for a missing scheme, and 500 exactly for no proxy or exhausted retries |
| `Server.RemoveAll` | server.py:63 | `str.replace(pat, "")` never lengthens the string |
| `Server.RemoveAllLeading` | server.py:63 | an occurrence of `pat` at the front is deleted and the scan continues after it, so later occurrences are deleted too |
| `Server.RemoveAllKeepsHead` | server.py:63 | a head in which no occurrence of `pat` starts is kept unchanged, and the rest is scanned on its own |
| `Server.RemoveAllUnchanged` | server.py:63 | a string in which `pat` does not occur is returned unchanged |
| `Server.RecheckTarget` | server.py:63 | the endpoint passed to `check_again` is no longer than the `https` value; when that value starts with `https://`, the prefix is dropped and every later `https://` is deleted as well; a remainder without `https://` comes back whole |
| `Server.StripRecoversEndpoint` | server.py:63 | stripping `https://` from the `https` value of the scheme map gives back the endpoint, provided the endpoint itself contains no `https://` |
| `Server.RouteFor` | server.py:48-52 | the request goes direct exactly on attempt 20, and through the looked-up scheme map otherwise |
| `Server.Step` | server.py:43-64 | one iteration: an empty pool stops with 500 "no proxy available" and sends nothing; otherwise exactly one request goes out, direct on attempt 20 and through the scheme map returned by this iteration's lookup on every other attempt; success gives 200 with the body, a missing scheme gives 400, any other `ValueError` gives 500 "no proxy available"; only a transient error retries, after re-checking the endpoint recovered from the `https` value, even on the direct attempt |
| `Server.Relay` | server.py:41-66 | the loop from a given counter sends at most one request per remaining counter value, so at most 21 from counter 0; exhaustion reports 21 attempts and comes only after a request for every remaining counter value |
| `Server.RelayDirectOnlyLast` | server.py:48-52 | of the requests the loop sends, exactly the one with counter value 20 goes direct |
| `Server.ThroughLookedUpProxy` | server.py:44-52 | before counter 20, with a non-empty pool, the iteration sends its request through the scheme map that its lookup returned |
| `Server.RelayTrace` | server.py:42-66 | every request before the last one failed transiently; a 200 reply carries the body of the last request; a 400 reply follows a missing scheme on the last request; a 500 "no proxy available" means either the pool was found empty or the last request raised a `ValueError`; exhaustion happens only when every request failed transiently |
| `Server.Loop` | server.py:41-66 | the `while attempts <= 20` loop computes exactly the reply, final pool and sent routes that `Relay` gives from counter 0 |
| `Server.Proxy` | server.py:39-66 | the handler gives `Relay`'s outcome from counter 0: at most 21 requests, only the 21st direct; exhaustion reports 21 attempts after 21 requests; an empty pool at the start gives 500 with nothing sent and the pool untouched |
| `Server.EmptyLookupStopsHard` | server.py:44-60 | a lookup that finds the pool empty ends the request with 500 "no proxy available", even at counter 20, with no request and no re-check |
| `Server.FirstAttemptSuccess` | server.py:52-55 | an upstream success on the first attempt returns that body with 200 after one request through the chosen proxy, with the pool untouched |
| `Server.MissingSchemaShortCircuits` | server.py:56-58 | a missing scheme returns 400 after exactly one request, with no re-check and no retry |
| `Server.AllTransientExhausts` | server.py:42-66 | if every request fails transiently and every re-check succeeds, the reply is 500 reporting 21 attempts, and the last request is direct |
| `Server.DeadOnlyProxyEndsEarly` | server.py:44-64 | with a single endpoint that fails and is found dead on re-check, the pool empties and the request ends with 500 "no proxy available" after one request, not 21 |
| `Server.RandomProxyAsWritten` | server.py:32-36 | as written, `/random/proxy` returns status 503 in both branches; the body is the scheme map exactly when the pool is non-empty |
| `Server.RandomProxy` | server.py:32-36 | as intended, a found proxy comes back with 200 and an empty pool with 503 "server busy" |
| `Server.FoundProxyReportedBusy` | server.py:36 | whenever a proxy is found, the handler as written reports it with 503 where the intended handler gives 200 |

## Left out

- The four `scrape_proxies_from_*` methods (services/proxy_provider.py:33-100): HTTP fetches, HTML parsing and base64 decoding. Their only role here is to produce the candidate list, which `CheckProxies` receives as a sequence of probes.
- The `requests` calls, both the httpbin liveness probe and the upstream GET, with their headers and timeouts. A probe becomes a boolean, and an upstream call becomes one of four outcome classes. The model does not decide which concrete `requests` exceptions subclass `ValueError`.
- Concurrency: the `ThreadPoolExecutor` fan-out in `check_proxies`, `search_proxies`, and the APScheduler jobs (server.py:69-98). Probes are folded sequentially in candidate order, and the "present if and only if its last probe succeeded" of `CheckAll` and `CheckProxies` holds only for that sequential fold. With threads, the read-filter-rebind at services/proxy_provider.py:112 is not atomic. A concurrent `append` of another proxy can be lost, and two filters that overlap can bring back a proxy that one of them removed. The model does not represent these interleavings.
- Randomness: `random.choice` is a caller-supplied index. Inside the relay loop an injected pick past the end of the pool is clamped to the last index. `generate_user_agent` has no effect on control flow and is omitted.
- ProxyProvider.Dedup: the order of `list(set(...))` depends on string hashing. The model keeps the last copy of each entry in list order. Its contract only promises order-independent facts, but `DedupOfDistinct` and `DedupIdempotent` are equalities about that fixed order.
- Server.Relay: the reply messages are not rendered as text. A reply carries its kind, the URL and, for exhaustion, the attempt count; the formatting of `request.args` is not modelled.
- Flask routing, `welcome`, the global exception handler, configuration loading, `run_server`, the singleton `get_instance` mechanics, and the logging in `utils/log.py`.

## Findings

| source | as written | input that shows it | evidently intended | confidence | as-written member | corrected member |
|---|---|---|---|---|---|---|
| server.py:36 | `return proxy if proxy is not None else "...busy...", 503` parses as a tuple whose second element is always 503 | any non-empty pool, e.g. `["1.2.3.4:8080"]`: the scheme map is returned with status 503 | the scheme map with 200 when a proxy is found, 503 "server busy" only when the pool is empty | high (precedence rule of Python conditional expressions), not executed | `Server.RandomProxyAsWritten` (shown by `Server.FoundProxyReportedBusy`) | `Server.RandomProxy` |
