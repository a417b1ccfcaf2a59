/**
 The proxy pool of `ProxyProviderService`.

 The service keeps one list of `host:port` strings, `checked_proxy_list`.
 The network probe against the echo endpoint and `random.choice` are not
 modelled: a probe's result is a boolean given by the caller, and the random
 choice is an index given by the caller. Every operation is then a pure
 function from the old list to the new one.
 */
module ProxyProvider {
  import opened Wrappers

  /** A proxy endpoint, by string identity (`host:port`). */
  type Endpoint = string

  /** The contents of `checked_proxy_list`, in list order. */
  type Pool = seq<Endpoint>

  /** One liveness probe of a candidate and whether it answered. */
  datatype Probe = Probe(proxy: Endpoint, alive: bool)

  /** The scheme map handed to the HTTP client: the `http` and `https` proxy URLs. */
  datatype SchemeMap = SchemeMap(http: string, https: string)

  // ---------------------------------------------------------------------------
  // Sequence vocabulary

  /** No value occurs twice. */
  predicate NoDuplicates<T(==)>(s: seq<T>) {
    forall i, j :: 0 <= i < j < |s| ==> s[i] != s[j]
  }

  /** `a` is obtained from `b` by deleting entries, keeping the relative order of the rest. */
  predicate IsSubsequence<T(==)>(a: seq<T>, b: seq<T>)
    decreases |b|
  {
    if a == [] then true
    else if b == [] then false
    else if a[0] == b[0] then IsSubsequence(a[1..], b[1..])
    else IsSubsequence(a, b[1..])
  }

  /** Every sequence is a subsequence of itself. */
  lemma {:induction false} SubsequenceReflexive<T>(s: seq<T>)
    ensures IsSubsequence(s, s)
    decreases |s|
  {
    if s != [] {
      SubsequenceReflexive(s[1..]);
    }
  }

  // ---------------------------------------------------------------------------
  // The service

  /** `__init__`: a freshly constructed service holds no proxies. */
  function NewPool(): (p: Pool)
    ensures forall e :: e !in p
    ensures GetSingleProxy(p, 0) == None
  {
    []
  }

  /**
   The list comprehension of the failure branch of `check_proxy`: every copy of
   `x` is dropped (see `WithoutCounts` and `WithoutKeepsOrder` for the rest).
   */
  function Without(s: Pool, x: Endpoint): (r: Pool)
    ensures forall e :: e in r <==> e in s && e != x
    ensures x !in s ==> r == s
    decreases |s|
  {
    if s == [] then []
    else
      var rest := Without(s[1..], x);
      if s[0] == x then rest else [s[0]] + rest
  }

  /** The filter removes exactly the copies of `x`: every other entry keeps its number of copies. */
  lemma {:induction false} WithoutCounts(s: Pool, x: Endpoint)
    ensures multiset(Without(s, x)) == multiset(s)[x := 0]
    decreases |s|
  {
    if s != [] {
      WithoutCounts(s[1..], x);
      assert s == [s[0]] + s[1..];
    }
  }

  /** The entries that survive the filter keep their relative order. */
  lemma {:induction false} WithoutKeepsOrder(s: Pool, x: Endpoint)
    ensures IsSubsequence(Without(s, x), s)
    decreases |s|
  {
    if s != [] {
      WithoutKeepsOrder(s[1..], x);
      var rest := Without(s[1..], x);
      if s[0] != x {
        assert ([s[0]] + rest)[1..] == rest;
      }
    }
  }

  /**
   `check_proxy`: on a successful probe the proxy is appended (even when it is
   already present); on a failed probe every copy is removed, if there is one.
   */
  function CheckProxy(pool: Pool, proxy: Endpoint, alive: bool): (r: Pool)
    ensures alive ==> |r| == |pool| + 1 && r[..|pool|] == pool && r[|pool|] == proxy
    ensures !alive ==> proxy !in r
    ensures !alive && proxy !in pool ==> r == pool
    ensures forall e :: e != proxy ==> (e in r <==> e in pool)
  {
    if alive then
      pool + [proxy]
    else if proxy in pool then
      Without(pool, proxy)
    else
      pool
  }

  /**
   A failed probe drops exactly the copies of the proxy and keeps every other
   entry, with its multiplicity, in its relative order.
   */
  lemma FailedProbeFilters(pool: Pool, proxy: Endpoint)
    ensures var r := CheckProxy(pool, proxy, false);
      multiset(r) == multiset(pool)[proxy := 0] && IsSubsequence(r, pool)
  {
    if proxy in pool {
      WithoutCounts(pool, proxy);
      WithoutKeepsOrder(pool, proxy);
    } else {
      SubsequenceReflexive(pool);
      assert multiset(pool)[proxy] == 0;
      assert multiset(pool)[proxy := 0] == multiset(pool);
    }
  }

  /** `check_again`: re-probing a proxy has exactly the effect of `check_proxy`. */
  function CheckAgain(pool: Pool, proxy: Endpoint, alive: bool): (r: Pool)
    ensures r == CheckProxy(pool, proxy, alive)
  {
    CheckProxy(pool, proxy, alive)
  }

  /**
   `remove_duplicates`, i.e. `list(set(pool))`. Python's set fixes an order by
   hashing; this model keeps the last copy of each entry in list order, and its
   contract states only what holds for every order.
   */
  function Dedup(s: Pool): (r: Pool)
    ensures NoDuplicates(r)
    ensures forall e :: e in r <==> e in s
    ensures |r| <= |s|
    decreases |s|
  {
    if s == [] then []
    else
      var rest := Dedup(s[1..]);
      if s[0] in s[1..] then rest
      else
        assert forall i :: 0 < i < |[s[0]] + rest| ==> ([s[0]] + rest)[i] == rest[i - 1];
        [s[0]] + rest
  }

  /** A pool without duplicates is left exactly as it is by de-duplication. */
  lemma {:induction false} DedupOfDistinct(s: Pool)
    requires NoDuplicates(s)
    ensures Dedup(s) == s
    decreases |s|
  {
    if s != [] {
      assert s[0] !in s[1..] by {
        forall k | 0 <= k < |s[1..]|
          ensures s[1..][k] != s[0]
        {
          assert s[1..][k] == s[k + 1];
        }
      }
      assert NoDuplicates(s[1..]) by {
        forall i, j | 0 <= i < j < |s[1..]|
          ensures s[1..][i] != s[1..][j]
        {
          assert s[1..][i] == s[i + 1] && s[1..][j] == s[j + 1];
        }
      }
      DedupOfDistinct(s[1..]);
      assert s == [s[0]] + s[1..];
    }
  }

  /** Running `remove_duplicates` twice gives the same pool as running it once. */
  lemma {:induction false} DedupIdempotent(s: Pool)
    ensures Dedup(Dedup(s)) == Dedup(s)
  {
    DedupOfDistinct(Dedup(s));
  }

  /**
   The verdict of the last probe of `e` in `probes`, or `None` when `e` is
   never probed.
   */
  function LastVerdict(probes: seq<Probe>, e: Endpoint): (v: Option<bool>)
    ensures v == None <==> forall i :: 0 <= i < |probes| ==> probes[i].proxy != e
    ensures v != None ==> exists i :: 0 <= i < |probes| && probes[i] == Probe(e, v.value)
                                     && forall j :: i < j < |probes| ==> probes[j].proxy != e
    decreases |probes|
  {
    if probes == [] then None
    else
      var later := LastVerdict(probes[1..], e);
      if later != None then
        var k :| 0 <= k < |probes[1..]| && probes[1..][k] == Probe(e, later.value)
                 && forall j :: k < j < |probes[1..]| ==> probes[1..][j].proxy != e;
        assert probes[k + 1] == Probe(e, later.value);
        assert forall j :: k + 1 < j < |probes| ==> probes[j] == probes[1..][j - 1];
        later
      else if probes[0].proxy == e then
        assert forall j :: 0 < j < |probes| ==> probes[j] == probes[1..][j - 1];
        Some(probes[0].alive)
      else
        assert forall i :: 0 < i < |probes| ==> probes[i] == probes[1..][i - 1];
        None
  }

  /**
   The worker fan-out of `check_proxies`, as a sequential fold of `check_proxy`
   over the probes in order. A proxy is present afterwards iff its last probe
   succeeded; a proxy that is never probed keeps its membership.
   */
  function CheckAll(pool: Pool, probes: seq<Probe>): (r: Pool)
    ensures forall e :: e in r <==> (match LastVerdict(probes, e)
                                     case Some(alive) => alive
                                     case None => e in pool)
    decreases |probes|
  {
    if probes == [] then pool
    else CheckAll(CheckProxy(pool, probes[0].proxy, probes[0].alive), probes[1..])
  }

  /**
   `check_proxies`: all probes, then `remove_duplicates`. The result has no
   duplicates, its members are the proxies whose last probe succeeded plus the
   unprobed members of the old pool.
   */
  function CheckProxies(pool: Pool, probes: seq<Probe>): (r: Pool)
    ensures NoDuplicates(r)
    ensures forall e :: (forall i :: 0 <= i < |probes| ==> probes[i].proxy != e) ==> (e in r <==> e in pool)
    ensures forall e :: LastVerdict(probes, e) != None ==> (e in r <==> LastVerdict(probes, e).value)
  {
    Dedup(CheckAll(pool, probes))
  }

  /**
   `get_single_proxy`: `None` on an empty pool, otherwise the scheme map of the
   entry at the chosen index. `choice` stands for `random.choice`.
   */
  function GetSingleProxy(pool: Pool, choice: nat): (r: Option<SchemeMap>)
    requires |pool| > 0 ==> choice < |pool|
    ensures r == None <==> |pool| == 0
    ensures r != None ==> exists e :: e in pool && r.value == SchemeMap("http://" + e, "https://" + e)
    ensures r != None ==> r.value.https == "https://" + pool[choice]
  {
    if |pool| > 0 then
      var endpoint := pool[choice];
      Some(SchemeMap("http://" + endpoint, "https://" + endpoint))
    else
      None
  }

  /** Every member of the pool can be the one `get_single_proxy` returns. */
  lemma EveryMemberSelectable(pool: Pool, e: Endpoint)
    requires e in pool
    ensures exists choice :: 0 <= choice < |pool| && GetSingleProxy(pool, choice) == Some(SchemeMap("http://" + e, "https://" + e))
  {
    var k :| 0 <= k < |pool| && pool[k] == e;
    assert GetSingleProxy(pool, k) == Some(SchemeMap("http://" + e, "https://" + e));
  }

  /** A successful probe keeps a duplicate-free pool duplicate-free iff the proxy was absent. */
  lemma AppendKeepsDistinctIff(pool: Pool, proxy: Endpoint)
    requires NoDuplicates(pool)
    ensures NoDuplicates(CheckProxy(pool, proxy, true)) <==> proxy !in pool
  {
    var r := CheckProxy(pool, proxy, true);
    if proxy in pool {
      var k :| 0 <= k < |pool| && pool[k] == proxy;
      assert r[k] == r[|pool|];
    }
  }

  /** A failed probe keeps a duplicate-free pool duplicate-free. */
  lemma {:induction false} RemovalKeepsDistinct(pool: Pool, proxy: Endpoint)
    requires NoDuplicates(pool)
    ensures NoDuplicates(CheckProxy(pool, proxy, false))
  {
    var r := CheckProxy(pool, proxy, false);
    FailedProbeFilters(pool, proxy);
    forall e ensures multiset(r)[e] <= 1 {
      DistinctCount(pool, e);
    }
    CountBoundDistinct(r);
  }

  /** In a duplicate-free sequence every value occurs at most once. */
  lemma {:induction false} DistinctCount<T>(s: seq<T>, x: T)
    requires NoDuplicates(s)
    ensures multiset(s)[x] <= 1
    decreases |s|
  {
    if s != [] {
      assert s == [s[0]] + s[1..];
      assert NoDuplicates(s[1..]) by {
        forall i, j | 0 <= i < j < |s[1..]|
          ensures s[1..][i] != s[1..][j]
        {
          assert s[1..][i] == s[i + 1] && s[1..][j] == s[j + 1];
        }
      }
      DistinctCount(s[1..], x);
      if s[0] == x {
        assert x !in s[1..] by {
          forall k | 0 <= k < |s[1..]|
            ensures s[1..][k] != x
          {
            assert s[1..][k] == s[k + 1];
          }
        }
      }
    }
  }

  /** A sequence in which every value occurs at most once has no duplicates. */
  lemma CountBoundDistinct<T>(s: seq<T>)
    requires forall e :: multiset(s)[e] <= 1
    ensures NoDuplicates(s)
  {
    forall i, j | 0 <= i < j < |s|
      ensures s[i] != s[j]
    {
      var a, b, c := s[..i], s[i + 1..j], s[j + 1..];
      assert s == a + [s[i]] + b + [s[j]] + c;
      assert multiset(s) == multiset(a) + multiset{s[i]} + multiset(b) + multiset{s[j]} + multiset(c);
      assert multiset(s)[s[i]] >= 1 + multiset{s[j]}[s[i]];
    }
  }
}
