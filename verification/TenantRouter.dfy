/** The tenant database router, called by one thread: an exact least-recently-used cache of pools. */
module TenantRouting {
  import opened Results
  import opened Ordering
  import opened Registry
  import opened PoolNumbers

  datatype Entry = Entry(tenant: TenantId, pool: PoolId)

  /** The cache as an ordered dictionary, least recently used first. */
  type Cache = seq<Entry>

  datatype Pools = Pools(cache: Cache, built: nat)

  /** The tenant a pool was built for, and the database it connects to. */
  datatype Target = Target(tenant: TenantId, place: Place)

  /** Each cached pool was built for the tenant it is cached under; `targets` lists what pools were built for. */
  ghost predicate OwnPools(cache: Cache, targets: seq<Target>) {
    forall e :: e in cache ==> e.pool < |targets| && targets[e.pool].tenant == e.tenant
  }

  function Keys(cache: Cache): (keys: seq<TenantId>)
    ensures |keys| == |cache| && forall i :: 0 <= i < |cache| ==> keys[i] == cache[i].tenant
  {
    seq(|cache|, i requires 0 <= i < |cache| => cache[i].tenant)
  }

  function Find(cache: Cache, t: TenantId): Option<PoolId> {
    if cache == [] then None
    else if cache[0].tenant == t then Some(cache[0].pool)
    else Find(cache[1..], t)
  }

  lemma {:induction false} FindLooksUp(cache: Cache, t: TenantId)
    ensures Find(cache, t).None? <==> t !in Keys(cache)
    ensures Find(cache, t).Some? ==> Entry(t, Find(cache, t).value) in cache
  {
    if cache != [] {
      FindLooksUp(cache[1..], t);
      assert Keys(cache) == [cache[0].tenant] + Keys(cache[1..]);
    }
  }

  function Remove(cache: Cache, t: TenantId): Cache {
    if cache == [] then []
    else if cache[0].tenant == t then Remove(cache[1..], t)
    else [cache[0]] + Remove(cache[1..], t)
  }

  function Last<T>(s: seq<T>, n: nat): seq<T> {
    if |s| <= n then s else s[|s| - n..]
  }

  lemma LastOfRest<T>(s: seq<T>, n: nat)
    requires |s| > n
    ensures Last(s[1..], n) == Last(s, n)
  {}

  /** One successful `for_tenant` call: a hit moves to the fresh end, a miss builds and trims the old end. */
  function Serve(s: Pools, maxCached: nat, t: TenantId): Pools {
    match Find(s.cache, t)
    case Some(pool) => Pools(Remove(s.cache, t) + [Entry(t, pool)], s.built)
    case None => Pools(Last(s.cache + [Entry(t, s.built)], maxCached), s.built + 1)
  }

  /** The cached pools, with multiplicity. */
  ghost function PoolsOf(cache: Cache): multiset<PoolId> {
    if cache == [] then multiset{} else PoolsOf(cache[..|cache| - 1]) + multiset{cache[|cache| - 1].pool}
  }

  ghost predicate OncePerTenant(cache: Cache) {
    cache == [] ||
    (cache[|cache| - 1].tenant !in Keys(cache[..|cache| - 1]) && OncePerTenant(cache[..|cache| - 1]))
  }

  lemma {:induction false} OnceIsDistinct(cache: Cache)
    ensures OncePerTenant(cache) <==> Distinct(Keys(cache))
  {
    if cache != [] {
      var front := cache[..|cache| - 1];
      OnceIsDistinct(front);
      assert Keys(cache) == Keys(front) + [cache[|cache| - 1].tenant];
      if cache[|cache| - 1].tenant in Keys(front) {
        var i := IndexOfEntry(front, cache[|cache| - 1].tenant);
        assert Keys(cache)[i] == Keys(cache)[|cache| - 1];
      }
      assert forall i :: 0 <= i < |front| ==> Keys(cache)[i] == Keys(front)[i];
    }
  }

  /** Every pool ever built is cached once or disposed once, never both; a tenant has one pool at most. */
  ghost predicate Accounted(cache: Cache, built: nat, disposed: multiset<PoolId>) {
    OncePerTenant(cache) && PoolsOf(cache) + disposed == Issued(built)
  }

  lemma {:induction false} PoolsOfWithout(cache: Cache, i: nat)
    requires i < |cache|
    ensures PoolsOf(cache) == PoolsOf(cache[..i] + cache[i + 1..]) + multiset{cache[i].pool}
    decreases |cache|
  {
    var front, last := cache[..|cache| - 1], cache[|cache| - 1];
    if i == |front| {
      assert cache[..i] + cache[i + 1..] == front;
    } else {
      PoolsOfWithout(front, i);
      var rest := cache[..i] + cache[i + 1..];
      assert rest[..|rest| - 1] == front[..i] + front[i + 1..];
      assert rest[|rest| - 1] == last;
    }
  }

  lemma KeysWithout(cache: Cache, i: nat)
    requires i < |cache| && Distinct(Keys(cache))
    ensures Distinct(Keys(cache[..i] + cache[i + 1..]))
    ensures forall t :: t in Keys(cache[..i] + cache[i + 1..]) <==> t in Keys(cache) && t != cache[i].tenant
  {
    var keys := Keys(cache);
    assert Keys(cache[..i] + cache[i + 1..]) == keys[..i] + keys[i + 1..];
    assert keys == keys[..i] + [keys[i]] + keys[i + 1..];
    assert keys[i] !in keys[..i] && keys[i] !in keys[i + 1..];
  }

  lemma IndexOfEntry(cache: Cache, t: TenantId) returns (i: nat)
    requires t in Keys(cache)
    ensures i < |cache| && cache[i].tenant == t
  {
    i :| 0 <= i < |cache| && Keys(cache)[i] == t;
  }

  lemma {:induction false} RemoveAbsent(cache: Cache, t: TenantId)
    requires t !in Keys(cache)
    ensures Remove(cache, t) == cache
  {
    if cache != [] {
      assert Keys(cache)[0] == cache[0].tenant;
      assert Keys(cache)[1..] == Keys(cache[1..]);
      RemoveAbsent(cache[1..], t);
    }
  }

  lemma {:induction false} RemoveAt(cache: Cache, i: nat)
    requires i < |cache| && Distinct(Keys(cache))
    ensures Remove(cache, cache[i].tenant) == cache[..i] + cache[i + 1..]
  {
    assert Keys(cache)[1..] == Keys(cache[1..]);
    if i == 0 {
      assert Keys(cache)[0] !in Keys(cache)[1..];
      RemoveAbsent(cache[1..], cache[0].tenant);
    } else {
      assert Keys(cache)[0] != Keys(cache)[i];
      RemoveAt(cache[1..], i - 1);
    }
  }

  lemma RemoveFound(cache: Cache, i: nat)
    requires i < |cache| && OncePerTenant(cache)
    ensures Remove(cache, cache[i].tenant) == cache[..i] + cache[i + 1..]
    ensures cache[i].tenant !in Keys(cache[..i] + cache[i + 1..])
  {
    OnceIsDistinct(cache);
    RemoveAt(cache, i);
    KeysWithout(cache, i);
  }

  lemma AccountedTouch(cache: Cache, built: nat, disposed: multiset<PoolId>, i: nat)
    requires Accounted(cache, built, disposed) && i < |cache|
    ensures Remove(cache, cache[i].tenant) == cache[..i] + cache[i + 1..]
    ensures Accounted(cache[..i] + cache[i + 1..] + [cache[i]], built, disposed)
  {
    AccountedDrop(cache, built, disposed, i);
    RemoveFound(cache, i);
    AppendEntry(cache[..i] + cache[i + 1..], cache[i]);
  }

  lemma AppendEntry(cache: Cache, e: Entry)
    requires OncePerTenant(cache) && e.tenant !in Keys(cache)
    ensures OncePerTenant(cache + [e]) && PoolsOf(cache + [e]) == PoolsOf(cache) + multiset{e.pool}
  {
    assert (cache + [e])[..|cache|] == cache;
  }

  lemma AccountedDrop(cache: Cache, built: nat, disposed: multiset<PoolId>, i: nat)
    requires Accounted(cache, built, disposed) && i < |cache|
    ensures Accounted(cache[..i] + cache[i + 1..], built, disposed + multiset{cache[i].pool})
  {
    OnceIsDistinct(cache);
    KeysWithout(cache, i);
    OnceIsDistinct(cache[..i] + cache[i + 1..]);
    PoolsOfWithout(cache, i);
  }

  function PoolIn(found: Option<PoolId>): multiset<PoolId> {
    if found.Some? then multiset{found.value} else multiset{}
  }

  /** The tenant's cached pool, if there is one. */
  function PoolOf(cache: Cache, t: TenantId): multiset<PoolId> {
    PoolIn(Find(cache, t))
  }

  /** Taking out a tenant's entry, and disposing its pool if there was one. */
  lemma AccountedEvict(cache: Cache, built: nat, disposed: multiset<PoolId>, t: TenantId)
    requires Accounted(cache, built, disposed)
    ensures Accounted(Remove(cache, t), built, disposed + PoolOf(cache, t))
    ensures t !in Keys(Remove(cache, t)) && |Remove(cache, t)| <= |cache|
  {
    if Find(cache, t).Some? {
      var i := IndexOfFound(cache, t);
      RemoveFound(cache, i);
      AccountedDrop(cache, built, disposed, i);
    } else {
      FindLooksUp(cache, t);
      RemoveAbsent(cache, t);
      assert disposed + multiset{} == disposed;
    }
  }

  lemma OwnAfterEvict(cache: Cache, targets: seq<Target>, t: TenantId)
    requires OwnPools(cache, targets)
    ensures OwnPools(Remove(cache, t), targets)
  {
    RemoveKeepsOthers(cache, t);
  }

  /** What the balance says of one pool. */
  lemma AccountedMeaning(cache: Cache, built: nat, disposed: multiset<PoolId>, p: PoolId)
    requires Accounted(cache, built, disposed)
    ensures PoolsOf(cache)[p] + disposed[p] == if p < built then 1 else 0
  {
    IssuedOnce(built, p);
  }

  class TenantDatabaseRouter {
    const maxCached: nat
    const servers: set<string>
    var cache: Cache
    var targets: seq<Target>
    var disposed: multiset<PoolId>

    ghost predicate Valid()
      reads this
    {
      maxCached >= 1 && |cache| <= maxCached && Accounted(cache, |targets|, disposed) && OwnPools(cache, targets)
    }

    constructor (maxCached: nat, servers: set<string>)
      requires maxCached >= 1
      ensures Valid() && cache == [] && targets == [] && this.maxCached == maxCached && this.servers == servers
    {
      this.maxCached := maxCached;
      this.servers := servers;
      cache, targets, disposed := [], [], multiset{};
    }

    /** A cached pool is handed out without looking at the registry; a miss asks it first and builds a pool for
        the tenant at the place it names.  Either way the pool returned was built for this tenant. */
    method ForTenant(tenants: Tenants, t: TenantId) returns (r: Result<PoolId, RouteError>)
      requires Valid()
      modifies this
      ensures Valid()
      ensures r == Failure(TenantNotFound) <==> t !in Keys(old(cache)) && t !in tenants
      ensures r == Failure(TenantUnavailable) <==>
        t !in Keys(old(cache)) && t in tenants && tenants[t].status != Ready
      ensures r == Failure(UnknownServer) <==>
        && t !in Keys(old(cache)) && t in tenants
        && tenants[t].status == Ready && tenants[t].place.server !in servers
      ensures r.Failure? ==> cache == old(cache) && targets == old(targets) && disposed == old(disposed)
      ensures r.Success? ==> Pools(cache, |targets|) == Serve(Pools(old(cache), |old(targets)|), maxCached, t)
      ensures r.Success? ==> cache != [] && cache[|cache| - 1] == Entry(t, r.value)
      ensures r.Success? ==> r.value < |targets| && targets[r.value].tenant == t
      ensures targets == old(targets) +
        if r.Success? && t !in Keys(old(cache)) && t in tenants then [Target(t, tenants[t].place)] else []
    {
      FindLooksUp(cache, t);
      var cached := Find(cache, t);
      if cached.Some? {
        assert Entry(t, cached.value) in cache;
        MoveToEnd(t, cached.value);
        return Success(cached.value);
      }
      var placement := Placement(tenants, servers, t);
      if placement.Failure? {
        return Failure(placement.error);
      }
      var database := Install(t, placement.value);
      r := Success(database);
    }

    method MoveToEnd(t: TenantId, pool: PoolId)
      requires Valid() && Find(cache, t) == Some(pool)
      modifies this`cache
      ensures Valid() && cache == Remove(old(cache), t) + [Entry(t, pool)]
    {
      ghost var i := IndexOfFound(cache, t);
      AccountedTouch(cache, |targets|, disposed, i);
      RemoveKeepsOthers(cache, t);
      cache := Remove(cache, t) + [Entry(t, pool)];
    }

    method Install(t: TenantId, place: Place) returns (database: PoolId)
      requires Valid() && t !in Keys(cache)
      modifies this`cache, this`targets, this`disposed
      ensures Valid() && database == |old(targets)| && targets == old(targets) + [Target(t, place)]
      ensures cache == Last(old(cache) + [Entry(t, database)], maxCached)
    {
      database := |targets|;
      AppendEntry(cache, Entry(t, database));
      targets := targets + [Target(t, place)];
      cache := cache + [Entry(t, database)];
      Trim();
    }

    /** Drop and dispose the oldest pools until the bound holds. */
    method Trim()
      requires maxCached >= 1 && Accounted(cache, |targets|, disposed) && OwnPools(cache, targets)
      modifies this`cache, this`disposed
      ensures Valid() && cache == Last(old(cache), maxCached)
    {
      while |cache| > maxCached
        invariant Last(cache, maxCached) == Last(old(cache), maxCached)
        invariant Accounted(cache, |targets|, disposed) && OwnPools(cache, targets)
        decreases |cache|
      {
        LastOfRest(cache, maxCached);
        PopOldest();
      }
    }

    method PopOldest()
      requires cache != [] && Accounted(cache, |targets|, disposed)
      modifies this`cache, this`disposed
      ensures cache == old(cache)[1..] && disposed == old(disposed) + multiset{old(cache)[0].pool}
      ensures Accounted(cache, |targets|, disposed)
    {
      AccountedDrop(cache, |targets|, disposed, 0);
      assert cache[..0] + cache[1..] == cache[1..];
      disposed := disposed + multiset{cache[0].pool};
      cache := cache[1..];
    }

    method Evict(t: TenantId)
      requires Valid()
      modifies this`cache, this`disposed
      ensures Valid() && cache == Remove(old(cache), t)
      ensures t !in Keys(cache)
      ensures disposed == old(disposed) + PoolOf(old(cache), t)
    {
      AccountedEvict(cache, |targets|, disposed, t);
      OwnAfterEvict(cache, targets, t);
      var evicted := Pop(t);
      Dispose(evicted);
    }

    method DisposeAll()
      requires Valid()
      modifies this
      ensures Valid() && cache == [] && targets == old(targets)
      ensures disposed == Issued(|targets|) == old(disposed) + PoolsOf(old(cache))
    {
      var databases := cache;
      cache := [];
      DisposeEach(databases);
    }

    /** Take the tenant's entry out of the cache. */
    method Pop(t: TenantId) returns (evicted: Option<PoolId>)
      modifies this`cache
      ensures cache == Remove(old(cache), t) && evicted == Find(old(cache), t)
    {
      evicted := Find(cache, t);
      cache := Remove(cache, t);
    }

    method Dispose(evicted: Option<PoolId>)
      modifies this`disposed
      ensures disposed == old(disposed) + PoolIn(evicted)
    {
      if evicted.Some? {
        disposed := disposed + multiset{evicted.value};
      }
    }

    method DisposeEach(databases: Cache)
      modifies this`disposed
      ensures disposed == old(disposed) + PoolsOf(databases)
    {
      for i := 0 to |databases|
        invariant disposed == old(disposed) + PoolsOf(databases[..i])
      {
        assert databases[..i + 1][..i] == databases[..i];
        disposed := disposed + multiset{databases[i].pool};
      }
      assert databases[..|databases|] == databases;
    }
  }

  lemma {:induction false} IndexOfFound(cache: Cache, t: TenantId) returns (i: nat)
    requires Find(cache, t).Some?
    ensures i < |cache| && cache[i] == Entry(t, Find(cache, t).value)
  {
    if cache[0].tenant == t {
      i := 0;
    } else {
      var j := IndexOfFound(cache[1..], t);
      i := j + 1;
    }
  }

  // ---------------------------------------------------------------- what the cache means in terms of the calls

  /** The router after the successful calls `history`, from empty. */
  function Run(history: seq<TenantId>, maxCached: nat): Pools {
    if history == [] then Pools([], 0)
    else Serve(Run(history[..|history| - 1], maxCached), maxCached, history[|history| - 1])
  }

  /** The position of the last call for `t`, -1 if there was none. */
  function LastUse(history: seq<TenantId>, t: TenantId): int {
    if history == [] then -1
    else if history[|history| - 1] == t then |history| - 1
    else LastUse(history[..|history| - 1], t)
  }

  /** The other tenants routed since the last call for `t`. */
  function Since(history: seq<TenantId>, t: TenantId): set<TenantId> {
    set x | x in history && LastUse(history, t) < LastUse(history, x)
  }

  ghost predicate Staler(history: seq<TenantId>, a: TenantId, b: TenantId) {
    LastUse(history, a) < LastUse(history, b) || (LastUse(history, a) == LastUse(history, b) && a < b)
  }

  ghost function ByLastUse(history: seq<TenantId>): (TenantId, TenantId) -> bool {
    (a: TenantId, b: TenantId) => Staler(history, a, b)
  }

  /** All tenants routed so far, least recently used first. */
  ghost function ByRecency(history: seq<TenantId>): (r: seq<TenantId>)
    ensures Ascending(r, ByLastUse(history)) && Elements(r) == Elements(history)
  {
    assert StrictOrder(ByLastUse(history));
    Sorted(Elements(history), ByLastUse(history))
  }

  lemma {:induction false} LastUseIsLast(history: seq<TenantId>, t: TenantId)
    ensures -1 <= LastUse(history, t) < |history|
    ensures LastUse(history, t) >= 0 <==> t in history
    ensures LastUse(history, t) >= 0 ==> history[LastUse(history, t)] == t
    ensures forall k :: LastUse(history, t) < k < |history| ==> history[k] != t
  {
    if history != [] {
      LastUseIsLast(history[..|history| - 1], t);
      assert history == history[..|history| - 1] + [history[|history| - 1]];
    }
  }

  /** `Since` is what stands in the history after the last call. */
  lemma SinceIsTheRest(history: seq<TenantId>, t: TenantId)
    requires t in history
    ensures 0 <= LastUse(history, t) < |history|
    ensures Since(history, t) == Elements(history[LastUse(history, t) + 1..])
  {
    LastUseIsLast(history, t);
    var rest := history[LastUse(history, t) + 1..];
    forall x ensures x in rest <==> x in Since(history, t) {
      LastUseIsLast(history, x);
      if x in rest {
        var k :| 0 <= k < |rest| && rest[k] == x;
        assert history[LastUse(history, t) + 1 + k] == x;
      }
      if x in Since(history, t) {
        assert rest[LastUse(history, x) - LastUse(history, t) - 1] == x;
      }
    }
  }

  function Without(s: seq<TenantId>, t: TenantId): seq<TenantId> {
    Restrict(s, Elements(s) - {t})
  }

  lemma LastUseAfterCall(history: seq<TenantId>, t: TenantId, x: TenantId)
    ensures LastUse(history + [t], x) == if x == t then |history| else LastUse(history, x)
  {
    assert (history + [t])[..|history|] == history;
  }

  lemma OrderAfterCall(history: seq<TenantId>, t: TenantId, s: seq<TenantId>)
    requires Ascending(s, ByLastUse(history)) && t !in s
    ensures Ascending(s + [t], ByLastUse(history + [t]))
  {
    forall i, j | 0 <= i < j < |s + [t]| ensures ByLastUse(history + [t])((s + [t])[i], (s + [t])[j]) {
      assert s[i] in s;
      LastUseIsLast(history, s[i]);
      LastUseAfterCall(history, t, s[i]);
      LastUseAfterCall(history, t, (s + [t])[j]);
      if j < |s| {
        assert s[j] in s;
        assert ByLastUse(history)(s[i], s[j]);
      }
    }
  }

  lemma ElementsAppend(s: seq<TenantId>, t: TenantId)
    ensures Elements(s + [t]) == Elements(s) + {t}
  {}

  /** A call makes its tenant the freshest and leaves the order of the others alone. */
  lemma RecencyAfterCall(history: seq<TenantId>, t: TenantId)
    ensures ByRecency(history + [t]) == Without(ByRecency(history), t) + [t]
  {
    var r := ByRecency(history);
    var kept := Without(r, t);
    assert StrictOrder(ByLastUse(history)) && StrictOrder(ByLastUse(history + [t]));
    RestrictAscending(r, Elements(r) - {t}, ByLastUse(history));
    OrderAfterCall(history, t, kept);
    assert Elements(kept) == Elements(r) - {t};
    ElementsAppend(kept, t);
    ElementsAppend(history, t);
    assert Elements(kept + [t]) == Elements(history + [t]);
    AscendingIsUnique(ByRecency(history + [t]), kept + [t], ByLastUse(history + [t]));
  }

  lemma RecencyIsDistinct(history: seq<TenantId>)
    ensures Distinct(ByRecency(history))
  {
    assert StrictOrder(ByLastUse(history));
    AscendingIsDistinct(ByRecency(history), ByLastUse(history));
  }

  /** Those routed since the last call for a tenant are the ones behind it by recency. */
  lemma RecencyCountsSince(history: seq<TenantId>, i: nat)
    requires i < |ByRecency(history)|
    ensures |Since(history, ByRecency(history)[i])| == |ByRecency(history)| - 1 - i
  {
    var r := ByRecency(history);
    RecencyIsDistinct(history);
    forall x ensures x in r[i + 1..] <==> x in Since(history, r[i]) {
      assert x in r <==> x in Elements(r);
      assert r[i] in Elements(r);
      LastUseIsLast(history, x);
      LastUseIsLast(history, r[i]);
      if x in r {
        var j :| 0 <= j < |r| && r[j] == x;
        if i < j {
          assert r[i + 1..][j - i - 1] == x;
          assert ByLastUse(history)(r[i], r[j]);
        } else if j < i {
          assert ByLastUse(history)(r[j], r[i]);
        }
      }
    }
    assert Elements(r[i + 1..]) == Since(history, r[i]);
    DistinctLength(r[i + 1..]);
  }

  lemma {:induction false} RemoveKeys(cache: Cache, t: TenantId, keep: set<TenantId>)
    requires forall e :: e in cache ==> (e.tenant in keep <==> e.tenant != t)
    ensures Keys(Remove(cache, t)) == Restrict(Keys(cache), keep)
  {
    if cache != [] {
      assert Keys(cache)[1..] == Keys(cache[1..]);
      RemoveKeys(cache[1..], t, keep);
    }
  }

  lemma RemovedKeys(cache: Cache, t: TenantId)
    ensures Keys(Remove(cache, t)) == Without(Keys(cache), t)
  {
    forall e | e in cache ensures e.tenant in Keys(cache) {
      var i :| 0 <= i < |cache| && cache[i] == e;
      assert Keys(cache)[i] == e.tenant;
    }
    RemoveKeys(cache, t, Elements(Keys(cache)) - {t});
  }

  /** The cache holds the freshest end of the recency list, in its order. */
  lemma {:induction false} CacheIsFreshEnd(history: seq<TenantId>, maxCached: nat)
    requires maxCached >= 1
    ensures Keys(Run(history, maxCached).cache) == Last(ByRecency(history), maxCached)
  {
    if history == [] {
      assert Elements(ByRecency(history)) == {};
      assert ByRecency(history) == [];
    } else {
      var front, t := history[..|history| - 1], history[|history| - 1];
      assert history == front + [t];
      CacheIsFreshEnd(front, maxCached);
      RecencyIsDistinct(front);
      RecencyAfterCall(front, t);
      FreshEndAfterCall(ByRecency(front), maxCached, t);
      ServedKeys(Run(front, maxCached), maxCached, t);
    }
  }

  lemma ServedKeys(s: Pools, maxCached: nat, t: TenantId)
    ensures Keys(Serve(s, maxCached, t).cache)
      == if t in Keys(s.cache) then Without(Keys(s.cache), t) + [t] else Last(Keys(s.cache) + [t], maxCached)
  {
    FindLooksUp(s.cache, t);
    match Find(s.cache, t)
    case Some(pool) =>
      RemovedKeys(s.cache, t);
      KeysAppend(Remove(s.cache, t), Entry(t, pool));
    case None =>
      KeysAppend(s.cache, Entry(t, s.built));
      KeysLast(s.cache + [Entry(t, s.built)], maxCached);
  }

  lemma KeysAppend(cache: Cache, e: Entry)
    ensures Keys(cache + [e]) == Keys(cache) + [e.tenant]
  {}

  lemma KeysLast(cache: Cache, n: nat)
    ensures Keys(Last(cache, n)) == Last(Keys(cache), n)
  {}

  lemma {:induction false} RestrictAll<T(!new)>(s: seq<T>, keep: set<T>)
    requires forall x :: x in s ==> x in keep
    ensures Restrict(s, keep) == s
  {
    if s != [] { RestrictAll(s[1..], keep); }
  }

  lemma WithoutAbsent(s: seq<TenantId>, t: TenantId)
    requires t !in s
    ensures Without(s, t) == s
  {
    RestrictAll(s, Elements(s) - {t});
  }

  /** Taking out the one occurrence of `t`. */
  lemma WithoutAt(s: seq<TenantId>, i: nat)
    requires Distinct(s) && i < |s|
    ensures Without(s, s[i]) == s[..i] + s[i + 1..]
  {
    var keep := Elements(s) - {s[i]};
    assert s == s[..i] + ([s[i]] + s[i + 1..]);
    RestrictAppends(s[..i], [s[i]] + s[i + 1..], keep);
    RestrictAppends([s[i]], s[i + 1..], keep);
    RestrictAll(s[..i], keep);
    RestrictAll(s[i + 1..], keep);
    assert Restrict([s[i]], keep) == [];
  }

  lemma MoveToEndInside(r: seq<TenantId>, gone: nat, i: nat)
    requires gone <= i < |r|
    ensures (r[..i] + r[i + 1..] + [r[i]])[gone..] == r[gone..][..i - gone] + r[gone..][i - gone + 1..] + [r[i]]
  {
    var moved, rest := r[..i] + r[i + 1..] + [r[i]], r[gone..];
    var expected := rest[..i - gone] + rest[i - gone + 1..] + [r[i]];
    forall k | 0 <= k < |rest| ensures moved[gone..][k] == expected[k] {}
  }

  lemma WithoutInsideLast(r: seq<TenantId>, n: nat, i: nat)
    requires Distinct(r) && n >= 1 && i < |r| && i >= |r| - |Last(r, n)|
    ensures r[i] in Last(r, n)
    ensures var gone := |r| - |Last(r, n)|;
      Without(Last(r, n), r[i]) == r[gone..][..i - gone] + r[gone..][i - gone + 1..]
  {
    var gone := |r| - |Last(r, n)|;
    assert Last(r, n) == r[gone..];
    assert r[gone..][i - gone] == r[i];
    WithoutAt(r[gone..], i - gone);
  }

  lemma LastOfMoved(r: seq<TenantId>, n: nat, i: nat, without: seq<TenantId>, kept: seq<TenantId>)
    requires n >= 1 && i < |r| && i >= |r| - |Last(r, n)|
    requires without == r[..i] + r[i + 1..]
    requires var gone := |r| - |Last(r, n)|; kept == r[gone..][..i - gone] + r[gone..][i - gone + 1..]
    ensures Last(without + [r[i]], n) == kept + [r[i]]
  {
    var gone := |r| - |Last(r, n)|;
    var moved := without + [r[i]];
    MoveToEndInside(r, gone, i);
    assert |moved| == |r| && Last(moved, n) == moved[gone..];
  }

  lemma FreshEndAfterHit(r: seq<TenantId>, n: nat, i: nat)
    requires Distinct(r) && n >= 1 && i < |r| && i >= |r| - |Last(r, n)|
    ensures r[i] in Last(r, n)
    ensures Last(Without(r, r[i]) + [r[i]], n) == Without(Last(r, n), r[i]) + [r[i]]
  {
    WithoutAt(r, i);
    WithoutInsideLast(r, n, i);
    LastOfMoved(r, n, i, Without(r, r[i]), Without(Last(r, n), r[i]));
  }

  lemma FreshEndAfterReload(r: seq<TenantId>, n: nat, i: nat)
    requires Distinct(r) && n >= 1 && i < |r| - |Last(r, n)|
    ensures r[i] !in Last(r, n)
    ensures Last(Without(r, r[i]) + [r[i]], n) == Last(Last(r, n) + [r[i]], n)
  {
    var rest := r[i + 1..];
    WithoutAt(r, i);
    assert r == r[..i + 1] + rest;
    LastAcross(r[..i + 1], rest, n);
    assert r[..i] + rest + [r[i]] == r[..i] + (rest + [r[i]]);
    LastAcross(r[..i], rest + [r[i]], n);
    LastAppend(rest, n, r[i]);
    LastIsInside(rest, n, r[i]);
  }

  lemma LastAcross<T>(a: seq<T>, b: seq<T>, n: nat)
    requires |b| >= n
    ensures Last(a + b, n) == Last(b, n)
  {}

  lemma LastIsInside(r: seq<TenantId>, n: nat, t: TenantId)
    requires t !in r
    ensures t !in Last(r, n)
  {}

  lemma LastAppend(r: seq<TenantId>, n: nat, t: TenantId)
    requires n >= 1
    ensures Last(r + [t], n) == Last(Last(r, n) + [t], n)
  {}

  lemma FreshEndAfterNew(r: seq<TenantId>, n: nat, t: TenantId)
    requires n >= 1 && t !in r
    ensures t !in Last(r, n)
    ensures Last(Without(r, t) + [t], n) == Last(Last(r, n) + [t], n)
  {
    WithoutAbsent(r, t);
    LastIsInside(r, n, t);
    LastAppend(r, n, t);
  }

  lemma FreshEndAfterCall(r: seq<TenantId>, n: nat, t: TenantId)
    requires Distinct(r) && n >= 1
    ensures Last(Without(r, t) + [t], n)
      == if t in Last(r, n) then Without(Last(r, n), t) + [t] else Last(Last(r, n) + [t], n)
  {
    if t !in r {
      FreshEndAfterNew(r, n, t);
    } else {
      var i :| 0 <= i < |r| && r[i] == t;
      if i >= |r| - |Last(r, n)| {
        FreshEndAfterHit(r, n, i);
      } else {
        FreshEndAfterReload(r, n, i);
      }
    }
  }

  lemma FreshEndMembers(r: seq<TenantId>, n: nat, i: nat)
    requires Distinct(r) && i < |r|
    ensures r[i] in Last(r, n) <==> |r| - 1 - i < n
  {
    var kept := Last(r, n);
    var gone := |r| - |kept|;
    assert forall k :: 0 <= k < |kept| ==> kept[k] == r[gone + k];
    if i >= gone { assert kept[i - gone] == r[i]; }
  }

  /** After any run of successful calls from empty, a tenant is cached exactly when fewer than
      `maxCached` other tenants were routed since its last call ... */
  lemma CachedIffFewSince(history: seq<TenantId>, maxCached: nat, t: TenantId)
    requires maxCached >= 1
    ensures t in Keys(Run(history, maxCached).cache) <==> t in history && |Since(history, t)| < maxCached
  {
    var r := ByRecency(history);
    CacheIsFreshEnd(history, maxCached);
    RecencyIsDistinct(history);
    assert t in history <==> t in Elements(r);
    assert t in Last(r, maxCached) ==> t in r;
    if t in r {
      var i :| 0 <= i < |r| && r[i] == t;
      RecencyCountsSince(history, i);
      FreshEndMembers(r, maxCached, i);
    }
  }

  /** ... the entries stand in order of last use, and the cache is as full as the calls allow. */
  lemma CacheInOrderOfUse(history: seq<TenantId>, maxCached: nat)
    requires maxCached >= 1
    ensures Ascending(Keys(Run(history, maxCached).cache), ByLastUse(history))
    ensures |Run(history, maxCached).cache|
      == if |Elements(history)| < maxCached then |Elements(history)| else maxCached
  {
    var r := ByRecency(history);
    CacheIsFreshEnd(history, maxCached);
    RecencyIsDistinct(history);
    DistinctLength(r);
    var kept := Last(r, maxCached);
    var gone := |r| - |kept|;
    forall i, j | 0 <= i < j < |kept| ensures ByLastUse(history)(kept[i], kept[j]) {
      assert ByLastUse(history)(r[gone + i], r[gone + j]);
    }
  }

  // ---------------------------------------------------------------- pool identity

  lemma ServedEntries(s: Pools, maxCached: nat, t: TenantId)
    requires maxCached >= 1
    ensures var after := Serve(s, maxCached, t);
      && (forall e :: e in after.cache ==> e in s.cache || e == Entry(t, s.built))
      && s.built <= after.built
      && (Entry(t, s.built) in after.cache ==> Entry(t, s.built) in s.cache || s.built < after.built)
      && (t !in Keys(s.cache) ==> after.built == s.built + 1)
      && after.cache != []
      && after.cache[|after.cache| - 1] == Entry(t, if Find(s.cache, t).Some? then Find(s.cache, t).value else s.built)
  {
    FindLooksUp(s.cache, t);
    RemoveKeepsOthers(s.cache, t);
  }

  lemma {:induction false} RemoveKeepsOthers(cache: Cache, t: TenantId)
    ensures forall e :: e in Remove(cache, t) <==> e in cache && e.tenant != t
  {
    if cache != [] { RemoveKeepsOthers(cache[1..], t); }
  }

  lemma {:induction false} RunIssues(history: seq<TenantId>, maxCached: nat)
    requires maxCached >= 1
    ensures forall e :: e in Run(history, maxCached).cache ==> e.pool < Run(history, maxCached).built
    ensures history != [] ==> Run(history, maxCached).cache != []
  {
    if history != [] {
      RunIssues(history[..|history| - 1], maxCached);
      ServedEntries(Run(history[..|history| - 1], maxCached), maxCached, history[|history| - 1]);
    }
  }

  lemma RunKeysDistinct(history: seq<TenantId>, maxCached: nat)
    requires maxCached >= 1
    ensures Distinct(Keys(Run(history, maxCached).cache))
  {
    CacheIsFreshEnd(history, maxCached);
    RecencyIsDistinct(history);
  }

  lemma OneEntryPerTenant(cache: Cache, e: Entry, e': Entry)
    requires Distinct(Keys(cache)) && e in cache && e' in cache && e.tenant == e'.tenant
    ensures e == e'
  {
    var i :| 0 <= i < |cache| && cache[i] == e;
    var j :| 0 <= j < |cache| && cache[j] == e';
    assert Keys(cache)[i] == Keys(cache)[j];
  }

  /** The pool the last call of `history` returned. */
  function Answer(history: seq<TenantId>, maxCached: nat): PoolId
    requires history != [] && maxCached >= 1
  {
    RunIssues(history, maxCached);
    var cache := Run(history, maxCached).cache;
    cache[|cache| - 1].pool
  }

  /** What each call answers: the cached pool, or else a pool never seen before. */
  lemma AnswerIs(history: seq<TenantId>, maxCached: nat)
    requires history != [] && maxCached >= 1
    ensures var s, t := Run(history[..|history| - 1], maxCached), history[|history| - 1];
      Answer(history, maxCached) == if Find(s.cache, t).Some? then Find(s.cache, t).value else s.built
  {
    ServedEntries(Run(history[..|history| - 1], maxCached), maxCached, history[|history| - 1]);
  }

  lemma AnswerIsCached(history: seq<TenantId>, maxCached: nat)
    requires history != [] && maxCached >= 1
    ensures Entry(history[|history| - 1], Answer(history, maxCached)) in Run(history, maxCached).cache
  {
    ServedEntries(Run(history[..|history| - 1], maxCached), maxCached, history[|history| - 1]);
  }

  /** A tenant that stays cached through calls for others keeps its pool. */
  lemma {:induction false} CachedKeepsPool(history: seq<TenantId>, n: nat, maxCached: nat)
    requires maxCached >= 1 && 0 < n <= |history|
    requires history[n - 1] !in history[n..]
    requires history[n - 1] in Keys(Run(history, maxCached).cache)
    ensures Entry(history[n - 1], Answer(history[..n], maxCached)) in Run(history, maxCached).cache
    decreases |history|
  {
    if n == |history| {
      assert history[..n] == history;
      AnswerIsCached(history, maxCached);
    } else {
      var front, u := history[..|history| - 1], history[|history| - 1];
      assert u == history[n..][|history| - 1 - n];
      assert front[..n] == history[..n] && front[n..] == history[n..][..|history| - 1 - n];
      StayedCached(Run(front, maxCached), maxCached, u, history[n - 1]);
      CachedKeepsPool(front, n, maxCached);
      RunKeysDistinct(front, maxCached);
      EntrySurvives(Run(front, maxCached), maxCached, u, Entry(history[n - 1], Answer(history[..n], maxCached)));
    }
  }

  lemma StayedCached(s: Pools, maxCached: nat, u: TenantId, t: TenantId)
    requires u != t && t in Keys(Serve(s, maxCached, u).cache)
    ensures t in Keys(s.cache)
  {
    ServedKeys(s, maxCached, u);
  }

  lemma EntrySurvives(s: Pools, maxCached: nat, u: TenantId, e: Entry)
    requires maxCached >= 1 && u != e.tenant && e in s.cache && e.tenant in Keys(Serve(s, maxCached, u).cache)
    requires Distinct(Keys(s.cache))
    ensures e in Serve(s, maxCached, u).cache
  {
    var after := Serve(s, maxCached, u).cache;
    var i := IndexOfEntry(after, e.tenant);
    ServedEntries(s, maxCached, u);
    OneEntryPerTenant(s.cache, e, after[i]);
  }

  /** A repeated call returns the same pool exactly when fewer than `maxCached` other tenants were
      routed in between. */
  lemma SamePoolIffRecent(history: seq<TenantId>, n: nat, maxCached: nat)
    requires maxCached >= 1 && 0 < n < |history|
    requires history[n - 1] == history[|history| - 1] && history[n - 1] !in history[n..|history| - 1]
    ensures Answer(history, maxCached) == Answer(history[..n], maxCached)
      <==> |Elements(history[n..|history| - 1])| < maxCached
  {
    var front, t := history[..|history| - 1], history[n - 1];
    assert front[..n] == history[..n] && front[n..] == history[n..|history| - 1];
    CachedIffRecent(front, n, maxCached);
    AnswerIs(history, maxCached);
    var s := Run(front, maxCached);
    FindLooksUp(s.cache, t);
    if t in Keys(s.cache) {
      CachedKeepsPool(front, n, maxCached);
      RunKeysDistinct(front, maxCached);
      OneEntryPerTenant(s.cache, Entry(t, Answer(history[..n], maxCached)), Entry(t, Find(s.cache, t).value));
    } else {
      BuiltGrows(front, n, maxCached);
      AnswerIsCached(history[..n], maxCached);
      RunIssues(history[..n], maxCached);
    }
  }

  lemma CachedIffRecent(front: seq<TenantId>, n: nat, maxCached: nat)
    requires maxCached >= 1 && 0 < n <= |front| && front[n - 1] !in front[n..]
    ensures front[n - 1] in Keys(Run(front, maxCached).cache) <==> |Elements(front[n..])| < maxCached
  {
    LastCallAt(front, n);
    SinceIsTheRest(front, front[n - 1]);
    CachedIffFewSince(front, maxCached, front[n - 1]);
  }

  lemma LastCallAt(history: seq<TenantId>, n: nat)
    requires 0 < n <= |history| && history[n - 1] !in history[n..]
    ensures LastUse(history, history[n - 1]) == n - 1
  {
    assert forall i :: n <= i < |history| ==> history[i] == history[n..][i - n];
    LastUseIsLast(history, history[n - 1]);
  }

  lemma {:induction false} BuiltGrows(history: seq<TenantId>, n: nat, maxCached: nat)
    requires n <= |history| && maxCached >= 1
    ensures Run(history[..n], maxCached).built <= Run(history, maxCached).built
    decreases |history|
  {
    if n < |history| {
      assert history[..|history| - 1][..n] == history[..n];
      BuiltGrows(history[..|history| - 1], n, maxCached);
      ServedEntries(Run(history[..|history| - 1], maxCached), maxCached, history[|history| - 1]);
    } else {
      assert history[..n] == history;
    }
  }
}
