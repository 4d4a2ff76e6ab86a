/** The tenant database router shared by threads.

    `for_tenant` uses two separate critical sections with the pool built between them, outside the
    lock; `evict` and `dispose_all` take pools out under the lock and dispose them after leaving
    it.  Every statement that matters to another thread is a step of its own. */
module RouterThreads {
  import opened Results
  import opened Registry
  import opened PoolNumbers
  import opened TenantRouting

  datatype Thread =
    | Idle
    | Placing(tenant: TenantId)                                   // missed; reading the placement, lock free
    | Located(tenant: TenantId, place: Place)                     // placement read, lock free
    | Holding(tenant: TenantId, pool: PoolId)                     // pool built, lock free
    | LostRace(tenant: TenantId, own: PoolId, winner: PoolId)     // lock held: another thread's pool is cached
    | Trimming(tenant: TenantId, own: PoolId)                     // lock held: own pool installed
    | Dropping(tenant: TenantId, own: PoolId, victim: PoolId)     // lock held: victim popped, not yet disposed
    | Disposing(victims: seq<PoolId>)                             // lock left: evict or dispose_all finishing

  datatype State = State(
    maxCached: nat,
    cache: Cache,
    targets: seq<Target>,          // what each pool was built for, by number
    disposed: multiset<PoolId>,
    lock: Option<nat>,
    threads: seq<Thread>)

  datatype Action =
    | Hit(i: nat, t: TenantId)
    | Miss(i: nat, t: TenantId)
    | PlacementFails(i: nat)
    | Locate(i: nat, place: Place)
    | Build(i: nat)
    | Install(i: nat)
    | Lose(i: nat)
    | DisposeOwn(i: nat)
    | Pop(i: nat)
    | DisposeVictim(i: nat)
    | Release(i: nat)
    | Evict(i: nat, t: TenantId)
    | DisposeAll(i: nat)
    | DisposeNext(i: nat)
    | Finish(i: nat)

  function PoolList(cache: Cache): seq<PoolId> {
    seq(|cache|, i requires 0 <= i < |cache| => cache[i].pool)
  }

  ghost predicate Init(s: State) {
    && s.maxCached >= 1 && s.cache == [] && s.targets == [] && s.disposed == multiset{} && s.lock == None
    && forall i :: 0 <= i < |s.threads| ==> s.threads[i] == Idle
  }

  /** When a step may be taken: `for_tenant` enters a critical section only while the lock is free. */
  predicate Enabled(s: State, a: Action) {
    && a.i < |s.threads|
    && var th := s.threads[a.i];
    match a
    case Hit(_, t) => th.Idle? && s.lock == None && Find(s.cache, t).Some?
    case Miss(_, t) => th.Idle? && s.lock == None && Find(s.cache, t).None?
    case PlacementFails(_) => th.Placing?
    case Locate(_, _) => th.Placing?
    case Build(_) => th.Located?
    case Install(_) => th.Holding? && s.lock == None && Find(s.cache, th.tenant).None?
    case Lose(_) => th.Holding? && s.lock == None && Find(s.cache, th.tenant).Some?
    case DisposeOwn(_) => th.LostRace?
    case Pop(_) => th.Trimming? && |s.cache| > s.maxCached
    case DisposeVictim(_) => th.Dropping?
    case Release(_) => th.Trimming? && |s.cache| <= s.maxCached
    case Evict(_, t) => th.Idle? && s.lock == None
    case DisposeAll(_) => th.Idle? && s.lock == None
    case DisposeNext(_) => th.Disposing? && th.victims != []
    case Finish(_) => th == Disposing([])
  }

  function ThreadAfter(s: State, a: Action): Thread
    requires Enabled(s, a)
  {
    var th := s.threads[a.i];
    match a
    case Hit(_, _) => Idle
    case Miss(_, t) => Placing(t)
    case PlacementFails(_) => Idle
    case Locate(_, place) => Located(th.tenant, place)
    case Build(_) => Holding(th.tenant, |s.targets|)
    case Install(_) => Trimming(th.tenant, th.pool)
    case Lose(_) => LostRace(th.tenant, th.pool, Find(s.cache, th.tenant).value)
    case DisposeOwn(_) => Idle
    case Pop(_) => Dropping(th.tenant, th.own, s.cache[0].pool)
    case DisposeVictim(_) => Trimming(th.tenant, th.own)
    case Release(_) => Idle
    case Evict(_, t) => Disposing(if Find(s.cache, t).Some? then [Find(s.cache, t).value] else [])
    case DisposeAll(_) => Disposing(PoolList(s.cache))
    case DisposeNext(_) => Disposing(th.victims[1..])
    case Finish(_) => Idle
  }

  function CacheAfter(s: State, a: Action): Cache
    requires Enabled(s, a)
  {
    match a
    case Hit(_, t) => Remove(s.cache, t) + [Entry(t, Find(s.cache, t).value)]
    case Install(i) => s.cache + [Entry(s.threads[i].tenant, s.threads[i].pool)]
    case Pop(_) => s.cache[1..]
    case Evict(_, t) => Remove(s.cache, t)
    case DisposeAll(_) => []
    case _ => s.cache
  }

  /** A pool is built for the tenant its thread serves, at the place that thread read. */
  function TargetsAfter(s: State, a: Action): seq<Target>
    requires Enabled(s, a)
  {
    match a
    case Build(i) => s.targets + [Target(s.threads[i].tenant, s.threads[i].place)]
    case _ => s.targets
  }

  /** The pool a step disposes, if any. */
  function DisposedBy(s: State, a: Action): Option<PoolId>
    requires Enabled(s, a)
  {
    match a
    case DisposeOwn(i) => Some(s.threads[i].own)
    case DisposeVictim(i) => Some(s.threads[i].victim)
    case DisposeNext(i) => Some(s.threads[i].victims[0])
    case _ => None
  }

  function LockAfter(s: State, a: Action): Option<nat> {
    match a
    case Install(i) => Some(i)
    case Lose(i) => Some(i)
    case DisposeOwn(_) => None
    case Release(_) => None
    case _ => s.lock
  }

  function Apply(s: State, a: Action): State
    requires Enabled(s, a)
  {
    State(s.maxCached, CacheAfter(s, a), TargetsAfter(s, a),
          if DisposedBy(s, a).Some? then s.disposed + multiset{DisposedBy(s, a).value} else s.disposed,
          LockAfter(s, a), s.threads[a.i := ThreadAfter(s, a)])
  }

  predicate Step(s: State, a: Action, s': State) {
    Enabled(s, a) && s' == Apply(s, a)
  }

  ghost predicate Execution(trace: seq<State>, actions: seq<Action>) {
    && |trace| == |actions| + 1 && Init(trace[0])
    && forall i :: 0 <= i < |actions| ==> Step(trace[i], actions[i], trace[i + 1])
  }

  // ---------------------------------------------------------------- who holds which pool

  function Occurrences(pools: seq<PoolId>, p: PoolId): nat {
    if pools == [] then 0 else (if pools[0] == p then 1 else 0) + Occurrences(pools[1..], p)
  }

  function One(found: Option<PoolId>, p: PoolId): nat {
    if found == Some(p) then 1 else 0
  }

  /** How often `p` is among the pools a thread has built and not installed, or taken out and not disposed. */
  function HeldBy(th: Thread, p: PoolId): nat {
    match th
    case Holding(_, pool) => if pool == p then 1 else 0
    case LostRace(_, own, _) => if own == p then 1 else 0
    case Dropping(_, _, victim) => if victim == p then 1 else 0
    case Disposing(victims) => Occurrences(victims, p)
    case _ => 0
  }

  function Held(threads: seq<Thread>, p: PoolId): nat {
    if threads == [] then 0 else Held(threads[..|threads| - 1], p) + HeldBy(threads[|threads| - 1], p)
  }

  lemma {:induction false} HeldAfter(threads: seq<Thread>, i: nat, th: Thread, p: PoolId)
    requires i < |threads|
    ensures Held(threads[i := th], p) + HeldBy(threads[i], p) == Held(threads, p) + HeldBy(th, p)
    decreases |threads|
  {
    var n := |threads| - 1;
    var after := threads[i := th];
    assert Held(after, p) == Held(after[..n], p) + HeldBy(after[n], p);
    if i < n {
      HeldAfter(threads[..n], i, th, p);
      assert after[..n] == threads[..n][i := th];
    } else {
      assert after[..n] == threads[..n];
    }
  }

  lemma {:induction false} IdleHoldsNothing(threads: seq<Thread>, p: PoolId)
    requires forall i :: 0 <= i < |threads| ==> threads[i] == Idle
    ensures Held(threads, p) == 0
  {
    if threads != [] { IdleHoldsNothing(threads[..|threads| - 1], p); }
  }

  /** `p` is in exactly one place if it was ever built: cached, held by a thread, or disposed. */
  ghost predicate Balanced(s: State, p: PoolId) {
    PoolsOf(s.cache)[p] + Held(s.threads, p) + s.disposed[p] == if p < |s.targets| then 1 else 0
  }

  lemma {:induction false} OccurrencesAppend(pools: seq<PoolId>, last: PoolId, p: PoolId)
    ensures Occurrences(pools + [last], p) == Occurrences(pools, p) + if last == p then 1 else 0
  {
    if pools == [] {
      assert ([] + [last])[1..] == [];
    } else {
      assert (pools + [last])[1..] == pools[1..] + [last];
      OccurrencesAppend(pools[1..], last, p);
    }
  }

  lemma OccurrencesOne(pool: PoolId, p: PoolId)
    ensures Occurrences([pool], p) == if pool == p then 1 else 0
  {
    assert [pool][1..] == [];
  }

  lemma {:induction false} PoolListCounts(cache: Cache, p: PoolId)
    ensures Occurrences(PoolList(cache), p) == PoolsOf(cache)[p]
  {
    if cache != [] {
      var front := cache[..|cache| - 1];
      PoolListCounts(front, p);
      assert PoolList(cache) == PoolList(front) + [cache[|cache| - 1].pool];
      OccurrencesAppend(PoolList(front), cache[|cache| - 1].pool, p);
    }
  }

  ghost predicate InCriticalSection(th: Thread) {
    th.LostRace? || th.Trimming? || th.Dropping?
  }

  /** No pool is lost or counted twice; whoever is inside holds the lock; a free lock means a bounded cache. */
  ghost predicate Invariant(s: State) {
    && s.maxCached >= 1
    && OncePerTenant(s.cache)
    && (forall p :: Balanced(s, p))
    && LockInvariant(s)
  }

  ghost predicate LockInvariant(s: State) {
    && (forall i :: 0 <= i < |s.threads| && InCriticalSection(s.threads[i]) ==> s.lock == Some(i))
    && (s.lock == None ==> |s.cache| <= s.maxCached)
    && (s.lock.Some? ==>
          s.lock.value < |s.threads| && InCriticalSection(s.threads[s.lock.value])
          && InsideFacts(s.cache, s.maxCached, s.threads[s.lock.value]))
  }

  /** What the lock holder may rely on about the cache. */
  ghost predicate InsideFacts(cache: Cache, maxCached: nat, th: Thread) {
    match th
    case LostRace(t, _, winner) => |cache| <= maxCached && Entry(t, winner) in cache
    case Trimming(t, own) => cache != [] && cache[|cache| - 1] == Entry(t, own)
    case Dropping(t, own, _) => |cache| >= maxCached && cache != [] && cache[|cache| - 1] == Entry(t, own)
    case _ => true
  }

  // ---------------------------------------------------------------- preservation

  lemma TouchKeepsPools(cache: Cache, t: TenantId, p: PoolId)
    requires OncePerTenant(cache) && Find(cache, t).Some?
    ensures var touched := Remove(cache, t) + [Entry(t, Find(cache, t).value)];
      && OncePerTenant(touched) && |touched| == |cache|
      && PoolsOf(touched)[p] == PoolsOf(cache)[p]
      && touched[|touched| - 1].pool == Find(cache, t).value
  {
    var i := IndexOfFound(cache, t);
    RemoveFound(cache, i);
    OnceWithout(cache, i);
    PoolsOfWithout(cache, i);
    AppendEntry(Remove(cache, t), cache[i]);
  }

  lemma EvictTakesPool(cache: Cache, t: TenantId, p: PoolId)
    requires OncePerTenant(cache)
    ensures OncePerTenant(Remove(cache, t)) && |Remove(cache, t)| <= |cache|
    ensures PoolsOf(cache)[p] == PoolsOf(Remove(cache, t))[p] + if Find(cache, t) == Some(p) then 1 else 0
  {
    if Find(cache, t).Some? {
      var i := IndexOfFound(cache, t);
      RemoveFound(cache, i);
      OnceWithout(cache, i);
      PoolsOfWithout(cache, i);
    } else {
      FindLooksUp(cache, t);
      RemoveAbsent(cache, t);
    }
  }

  lemma OnceWithout(cache: Cache, i: nat)
    requires OncePerTenant(cache) && i < |cache|
    ensures OncePerTenant(cache[..i] + cache[i + 1..])
  {
    OnceIsDistinct(cache);
    KeysWithout(cache, i);
    OnceIsDistinct(cache[..i] + cache[i + 1..]);
  }

  lemma PopTakesPool(cache: Cache, p: PoolId)
    requires OncePerTenant(cache) && cache != []
    ensures OncePerTenant(cache[1..])
    ensures PoolsOf(cache)[p] == PoolsOf(cache[1..])[p] + if cache[0].pool == p then 1 else 0
  {
    OnceWithout(cache, 0);
    PoolsOfWithout(cache, 0);
    assert cache[..0] + cache[1..] == cache[1..];
  }

  /** Whether a step takes `p` out of the cache. */
  ghost function TakenOut(s: State, a: Action, p: PoolId): nat
    requires Enabled(s, a)
  {
    match a
    case Pop(_) => if s.cache[0].pool == p then 1 else 0
    case Evict(_, t) => if Find(s.cache, t) == Some(p) then 1 else 0
    case DisposeAll(_) => PoolsOf(s.cache)[p]
    case _ => 0
  }

  ghost predicate CacheMoved(s: State, a: Action, p: PoolId)
    requires Enabled(s, a)
  {
    PoolsOf(CacheAfter(s, a))[p] + TakenOut(s, a, p)
      == PoolsOf(s.cache)[p] + if a.Install? && s.threads[a.i].pool == p then 1 else 0
  }

  /** Where one pool moves in one step: what is built is cached, held or disposed. */
  ghost predicate PoolMoved(s: State, a: Action, p: PoolId)
    requires Enabled(s, a)
  {
    PoolsOf(CacheAfter(s, a))[p] + HeldBy(ThreadAfter(s, a), p) + One(DisposedBy(s, a), p)
      == PoolsOf(s.cache)[p] + HeldBy(s.threads[a.i], p) + if a.Build? && p == |s.targets| then 1 else 0
  }

  /** What a step does to the cache and to one pool in it. */
  lemma StepMovesCached(s: State, a: Action, p: PoolId)
    requires OncePerTenant(s.cache) && Enabled(s, a)
    ensures OncePerTenant(CacheAfter(s, a))
    ensures CacheMoved(s, a, p)
  {
    match a
    case Hit(_, t) => TouchKeepsPools(s.cache, t, p);
    case Install(i) =>
      FindLooksUp(s.cache, s.threads[i].tenant);
      AppendEntry(s.cache, Entry(s.threads[i].tenant, s.threads[i].pool));
    case Pop(_) => PopTakesPool(s.cache, p);
    case Evict(_, t) => EvictTakesPool(s.cache, t, p);
    case _ =>
  }

  /** Steps that take the lock and keep it, or are taken while holding it. */
  predicate Inside(a: Action) {
    a.Install? || a.Lose? || a.DisposeOwn? || a.Pop? || a.DisposeVictim? || a.Release?
  }

  lemma InstallMovesPool(s: State, a: Action, p: PoolId)
    requires Enabled(s, a) && CacheMoved(s, a, p) && (a.Install? || a.Lose? || a.DisposeOwn?)
    ensures PoolMoved(s, a, p)
  {}

  lemma PopMovesPool(s: State, a: Action, p: PoolId)
    requires Enabled(s, a) && CacheMoved(s, a, p) && a.Pop?
    ensures PoolMoved(s, a, p)
  {}

  lemma TrimMovesPool(s: State, a: Action, p: PoolId)
    requires Enabled(s, a) && CacheMoved(s, a, p) && (a.DisposeVictim? || a.Release?)
    ensures PoolMoved(s, a, p)
  {}

  lemma CallMovesPool(s: State, a: Action, p: PoolId)
    requires Enabled(s, a) && CacheMoved(s, a, p) && (a.Hit? || a.Miss? || a.PlacementFails? || a.Locate? || a.Build?)
    ensures PoolMoved(s, a, p)
  {}

  lemma EvictMovesPool(s: State, a: Action, p: PoolId)
    requires Enabled(s, a) && CacheMoved(s, a, p) && a.Evict?
    ensures PoolMoved(s, a, p)
  {
    if Find(s.cache, a.t).Some? { OccurrencesOne(Find(s.cache, a.t).value, p); }
  }

  lemma DisposeAllMovesPool(s: State, a: Action, p: PoolId)
    requires Enabled(s, a) && CacheMoved(s, a, p) && a.DisposeAll?
    ensures PoolMoved(s, a, p)
  {
    PoolListCounts(s.cache, p);
  }

  lemma DisposalMovesPool(s: State, a: Action, p: PoolId)
    requires Enabled(s, a) && CacheMoved(s, a, p) && (a.DisposeNext? || a.Finish?)
    ensures PoolMoved(s, a, p)
  {}

  lemma StepMovesPool(s: State, a: Action, p: PoolId)
    requires OncePerTenant(s.cache) && Enabled(s, a)
    ensures PoolMoved(s, a, p)
  {
    StepMovesCached(s, a, p);
    if a.Install? || a.Lose? || a.DisposeOwn? {
      InstallMovesPool(s, a, p);
    } else if a.Pop? {
      PopMovesPool(s, a, p);
    } else if a.DisposeVictim? || a.Release? {
      TrimMovesPool(s, a, p);
    } else if a.Hit? || a.Miss? || a.PlacementFails? || a.Locate? || a.Build? {
      CallMovesPool(s, a, p);
    } else if a.Evict? {
      EvictMovesPool(s, a, p);
    } else if a.DisposeAll? {
      DisposeAllMovesPool(s, a, p);
    } else {
      DisposalMovesPool(s, a, p);
    }
  }

  /** The balance of pools survives every step. */
  lemma StepKeepsBalance(s: State, a: Action, s': State, p: PoolId)
    requires OncePerTenant(s.cache) && Balanced(s, p) && Step(s, a, s')
    ensures Balanced(s', p)
  {
    StepMovesPool(s, a, p);
    HeldAfter(s.threads, a.i, ThreadAfter(s, a), p);
  }

  lemma StepKeepsCritical(s: State, a: Action, s': State)
    requires LockInvariant(s) && Step(s, a, s')
    ensures forall i :: 0 <= i < |s'.threads| && InCriticalSection(s'.threads[i]) ==> s'.lock == Some(i)
    ensures s'.lock.Some? ==> s'.lock.value < |s'.threads| && InCriticalSection(s'.threads[s'.lock.value])
  {
    forall i | 0 <= i < |s'.threads| && InCriticalSection(s'.threads[i]) ensures s'.lock == Some(i) {
      if i != a.i { assert s'.threads[i] == s.threads[i]; }
    }
  }

  lemma InsideStepKeepsFacts(s: State, a: Action, s': State)
    requires s.maxCached >= 1 && LockInvariant(s) && Step(s, a, s') && Inside(a)
    ensures s'.lock == None ==> |s'.cache| <= s'.maxCached
    ensures s'.lock.Some? && s'.lock.value < |s'.threads| ==>
      InsideFacts(s'.cache, s'.maxCached, s'.threads[s'.lock.value])
  {
    match a
    case Install(_) =>
    case Lose(i) => FindLooksUp(s.cache, s.threads[i].tenant);
    case DisposeOwn(_) =>
    case Pop(_) =>
    case DisposeVictim(_) =>
    case Release(_) =>
  }

  lemma OutsideStepKeepsFacts(s: State, a: Action, s': State)
    requires OncePerTenant(s.cache) && LockInvariant(s) && Step(s, a, s') && !Inside(a)
    ensures s'.lock == None ==> |s'.cache| <= s'.maxCached
    ensures s'.lock.Some? && s'.lock.value < |s'.threads| ==>
      InsideFacts(s'.cache, s'.maxCached, s'.threads[s'.lock.value])
  {
    match a
    case Hit(_, t) => TouchKeepsPools(s.cache, t, 0);
    case Evict(_, t) => EvictTakesPool(s.cache, t, 0);
    case _ =>
  }

  lemma StepKeepsInvariant(s: State, a: Action, s': State)
    requires Invariant(s) && Step(s, a, s')
    ensures Invariant(s')
  {
    StepMovesCached(s, a, 0);
    forall p ensures Balanced(s', p) {
      assert Balanced(s, p);
      StepKeepsBalance(s, a, s', p);
    }
    StepKeepsCritical(s, a, s');
    if Inside(a) { InsideStepKeepsFacts(s, a, s'); } else { OutsideStepKeepsFacts(s, a, s'); }
  }

  lemma InitHasInvariant(s: State)
    requires Init(s)
    ensures Invariant(s) && PoolsAreOwn(s)
  {
    forall p ensures Balanced(s, p) { IdleHoldsNothing(s.threads, p); }
  }

  lemma {:induction false} InvariantThroughout(trace: seq<State>, actions: seq<Action>, n: nat)
    requires Execution(trace, actions) && n < |trace|
    ensures Invariant(trace[n])
  {
    if n == 0 {
      InitHasInvariant(trace[0]);
    } else {
      InvariantThroughout(trace, actions, n - 1);
      StepKeepsInvariant(trace[n - 1], actions[n - 1], trace[n]);
    }
  }

  // ---------------------------------------------------------------- what callers are promised

  /** In every interleaving each pool ever built is in exactly one place, once: in flight with one
      thread, cached, taken out and awaiting disposal, or disposed. */
  lemma EveryPoolInOnePlace(trace: seq<State>, actions: seq<Action>, n: nat, p: PoolId)
    requires Execution(trace, actions) && n < |trace|
    ensures var s := trace[n];
      PoolsOf(s.cache)[p] + Held(s.threads, p) + s.disposed[p] == if p < |s.targets| then 1 else 0
  {
    InvariantThroughout(trace, actions, n);
    assert Balanced(trace[n], p);
  }

  /** With no call under way nothing leaks: what was built and not disposed is exactly what is
      cached, and the cache is within its bound. */
  lemma QuiescentMeansNoLeak(trace: seq<State>, actions: seq<Action>, n: nat)
    requires Execution(trace, actions) && n < |trace|
    requires forall i :: 0 <= i < |trace[n].threads| ==> trace[n].threads[i] == Idle
    ensures forall p: PoolId :: p in PoolsOf(trace[n].cache) <==> p < |trace[n].targets| && p !in trace[n].disposed
    ensures |trace[n].cache| <= trace[n].maxCached
  {
    InvariantThroughout(trace, actions, n);
    var s := trace[n];
    forall p: PoolId ensures p in PoolsOf(s.cache) <==> p < |s.targets| && p !in s.disposed {
      assert Balanced(s, p);
      IdleHoldsNothing(s.threads, p);
    }
  }

  /** The pool a `for_tenant` call returns, with the tenant it was called for; none for the other steps. */
  function Returned(s: State, a: Action): Option<Entry>
    requires Enabled(s, a)
  {
    match a
    case Hit(_, t) => Some(Entry(t, Find(s.cache, t).value))
    case DisposeOwn(i) => Some(Entry(s.threads[i].tenant, s.threads[i].winner))
    case Release(i) => Some(Entry(s.threads[i].tenant, s.threads[i].own))
    case _ => None
  }

  lemma ReturnedIsCached(s: State, a: Action, s': State)
    requires Invariant(s) && Step(s, a, s') && Returned(s, a).Some?
    ensures Returned(s, a).value in s'.cache
  {
    if a.DisposeOwn? || a.Release? { assert s.lock == Some(a.i); }
  }

  lemma CachedIsLive(s: State, e: Entry)
    requires Invariant(s) && e in s.cache
    ensures e.pool < |s.targets| && s.disposed[e.pool] == 0
  {
    var i :| 0 <= i < |s.cache| && s.cache[i] == e;
    PoolsOfWithout(s.cache, i);
    assert Balanced(s, e.pool);
  }

  /** The pool a call returns is cached under the tenant it was called for, and hence not disposed, at the moment it
      is returned: a thread that lost the race returns the winner's pool and a thread never evicts the pool it has
      just installed. */
  lemma ReturnedPoolIsLive(trace: seq<State>, actions: seq<Action>, n: nat)
    requires Execution(trace, actions) && n < |actions| && Enabled(trace[n], actions[n])
    requires Returned(trace[n], actions[n]).Some?
    ensures var e := Returned(trace[n], actions[n]).value;
      e in trace[n + 1].cache && trace[n + 1].disposed[e.pool] == 0
  {
    assert Step(trace[n], actions[n], trace[n + 1]);
    InvariantThroughout(trace, actions, n);
    ReturnedIsCached(trace[n], actions[n], trace[n + 1]);
    StepKeepsInvariant(trace[n], actions[n], trace[n + 1]);
    CachedIsLive(trace[n + 1], Returned(trace[n], actions[n]).value);
  }

  // ---------------------------------------------------------------- whose pool it is

  /** What a thread holds for its tenant was built for that tenant. */
  ghost predicate OwnTarget(targets: seq<Target>, th: Thread) {
    th.Holding? ==> th.pool < |targets| && targets[th.pool].tenant == th.tenant
  }

  /** No pool ever serves a tenant it was not built for. */
  ghost predicate PoolsAreOwn(s: State) {
    && OwnPools(s.cache, s.targets)
    && forall i :: 0 <= i < |s.threads| ==> OwnTarget(s.targets, s.threads[i])
  }

  lemma StepKeepsCacheOwn(s: State, a: Action, s': State)
    requires PoolsAreOwn(s) && Step(s, a, s')
    ensures OwnPools(s'.cache, s'.targets)
  {
    match a
    case Hit(_, t) =>
      FindLooksUp(s.cache, t);
      RemoveKeepsOthers(s.cache, t);
    case Install(i) => assert OwnTarget(s.targets, s.threads[i]);
    case Evict(_, t) => RemoveKeepsOthers(s.cache, t);
    case _ =>
  }

  lemma StepKeepsPoolsOwn(s: State, a: Action, s': State)
    requires PoolsAreOwn(s) && Step(s, a, s')
    ensures PoolsAreOwn(s')
  {
    StepKeepsCacheOwn(s, a, s');
    forall i | 0 <= i < |s'.threads| ensures OwnTarget(s'.targets, s'.threads[i]) {
      assert OwnTarget(s.targets, s.threads[i]);
    }
  }

  lemma {:induction false} PoolsOwnThroughout(trace: seq<State>, actions: seq<Action>, n: nat)
    requires Execution(trace, actions) && n < |trace|
    ensures PoolsAreOwn(trace[n])
  {
    if n > 0 {
      PoolsOwnThroughout(trace, actions, n - 1);
      StepKeepsPoolsOwn(trace[n - 1], actions[n - 1], trace[n]);
    }
  }

  /** In every interleaving a call for a tenant returns a pool built for that tenant, never another's. */
  lemma ReturnedPoolIsOwn(trace: seq<State>, actions: seq<Action>, n: nat)
    requires Execution(trace, actions) && n < |actions| && Enabled(trace[n], actions[n])
    requires Returned(trace[n], actions[n]).Some?
    ensures var e := Returned(trace[n], actions[n]).value;
      e.pool < |trace[n + 1].targets| && trace[n + 1].targets[e.pool].tenant == e.tenant
  {
    ReturnedPoolIsLive(trace, actions, n);
    PoolsOwnThroughout(trace, actions, n + 1);
  }

  // ---------------------------------------------------------------- the lock is always released

  /** Steps the lock holder has left before it lets go. */
  ghost function HolderWork(s: State): nat
    requires LockInvariant(s)
  {
    if s.lock == None then 0
    else
      var over := if |s.cache| > s.maxCached then |s.cache| - s.maxCached else 0;
      1 + 2 * over + if s.threads[s.lock.value].Dropping? then 1 else 0
  }

  ghost function HolderStep(s: State): Action
    requires LockInvariant(s) && s.lock.Some?
  {
    var i := s.lock.value;
    match s.threads[i]
    case LostRace(_, _, _) => DisposeOwn(i)
    case Dropping(_, _, _) => DisposeVictim(i)
    case _ => if |s.cache| > s.maxCached then Pop(i) else Release(i)
  }

  /** The holder is never stuck, each of its steps brings the release nearer, and no other thread's
      step postpones it. */
  lemma LockIsReleased(s: State, a: Action, s': State)
    requires Invariant(s) && s.lock.Some? && Step(s, a, s')
    ensures Enabled(s, HolderStep(s))
    ensures Invariant(s')
    ensures a.i == s.lock.value ==> a == HolderStep(s) && HolderWork(s') < HolderWork(s)
    ensures a.i != s.lock.value ==> s'.lock == s.lock && HolderWork(s') == HolderWork(s)
  {
    StepKeepsInvariant(s, a, s');
    assert InCriticalSection(s.threads[s.lock.value]);
    if a.i != s.lock.value { assert !InCriticalSection(s.threads[a.i]); }
  }
}
