/** A `for_tenant` call that no other thread interrupts does what the sequential router specifies. */
module RouterRefinement {
  import opened Results
  import opened Registry
  import opened TenantRouting
  import opened RouterThreads

  /** Steps of one thread, from `s` to `s'`. */
  ghost predicate RunOf(i: nat, s: State, trace: seq<State>, actions: seq<Action>, s': State) {
    && |trace| == |actions| + 1 && trace[0] == s && trace[|actions|] == s'
    && forall k :: 0 <= k < |actions| ==> actions[k].i == i && Step(trace[k], actions[k], trace[k + 1])
  }

  lemma OneStep(i: nat, s: State, a: Action) returns (s': State)
    requires Enabled(s, a) && a.i == i
    ensures s' == Apply(s, a) && RunOf(i, s, [s, s'], [a], s')
  {
    s' := Apply(s, a);
  }

  lemma Join(i: nat, s: State, first: seq<State>, before: seq<Action>, m: State,
             second: seq<State>, after: seq<Action>, s': State)
    requires RunOf(i, s, first, before, m) && RunOf(i, m, second, after, s')
    ensures RunOf(i, s, first + second[1..], before + after, s')
  {
    var trace, actions := first + second[1..], before + after;
    forall k | 0 <= k < |actions| ensures actions[k].i == i && Step(trace[k], actions[k], trace[k + 1]) {
      if k >= |before| {
        assert trace[k] == second[k - |before|] && trace[k + 1] == second[k - |before| + 1];
        assert Step(second[k - |before|], after[k - |before|], second[k - |before| + 1]);
      }
    }
  }

  /** A miss up to the built pool: no lock is held and nothing shared has changed but the list of pools. */
  lemma MissAlone(s: State, i: nat, t: TenantId, place: Place)
    returns (trace: seq<State>, actions: seq<Action>, s': State)
    requires i < |s.threads| && s.threads[i] == Idle && s.lock == None && Find(s.cache, t).None?
    ensures RunOf(i, s, trace, actions, s')
    ensures s' == s.(targets := s.targets + [Target(t, place)], threads := s.threads[i := Holding(t, |s.targets|)])
  {
    var s1 := OneStep(i, s, Miss(i, t));
    var s2 := OneStep(i, s1, Locate(i, place));
    s' := OneStep(i, s2, Build(i));
    Join(i, s, [s, s1], [Miss(i, t)], s1, [s1, s2], [Locate(i, place)], s2);
    var two := [s, s1] + [s1, s2][1..];
    Join(i, s, two, [Miss(i, t)] + [Locate(i, place)], s2, [s2, s'], [Build(i)], s');
    trace, actions := two + [s2, s'][1..], [Miss(i, t)] + [Locate(i, place)] + [Build(i)];
    assert s'.threads == s.threads[i := Holding(t, |s.targets|)];
  }

  /** Trimming a cache that is over its bound by one. */
  lemma TrimAlone(s: State, i: nat, t: TenantId, own: nat) returns (trace: seq<State>, actions: seq<Action>, s': State)
    requires i < |s.threads| && s.threads[i] == Trimming(t, own) && s.lock == Some(i)
    requires s.maxCached >= 1 && |s.cache| <= s.maxCached + 1
    ensures RunOf(i, s, trace, actions, s') && actions != []
    ensures s'.cache == Last(s.cache, s.maxCached) && s'.targets == s.targets && s'.maxCached == s.maxCached
    ensures s'.lock == None && s'.threads == s.threads[i := Idle]
    ensures actions[|actions| - 1] == Release(i) && trace[|actions| - 1].threads[i] == Trimming(t, own)
    ensures Enabled(trace[|actions| - 1], Release(i))
  {
    if |s.cache| > s.maxCached {
      var s1 := OneStep(i, s, Pop(i));
      var s2 := OneStep(i, s1, DisposeVictim(i));
      s' := OneStep(i, s2, Release(i));
      Join(i, s, [s, s1], [Pop(i)], s1, [s1, s2], [DisposeVictim(i)], s2);
      var two := [s, s1] + [s1, s2][1..];
      Join(i, s, two, [Pop(i)] + [DisposeVictim(i)], s2, [s2, s'], [Release(i)], s');
      trace, actions := two + [s2, s'][1..], [Pop(i)] + [DisposeVictim(i)] + [Release(i)];
      assert s'.threads == s.threads[i := Idle];
    } else {
      s' := OneStep(i, s, Release(i));
      trace, actions := [s, s'], [Release(i)];
    }
  }

  /** A call that misses, to its end. */
  lemma MissedCallAlone(s: State, i: nat, t: TenantId, place: Place)
    returns (trace: seq<State>, actions: seq<Action>, s': State)
    requires i < |s.threads| && s.threads[i] == Idle && s.lock == None && Find(s.cache, t).None?
    requires s.maxCached >= 1 && |s.cache| <= s.maxCached
    ensures RunOf(i, s, trace, actions, s') && actions != []
    ensures s'.cache == Last(s.cache + [Entry(t, |s.targets|)], s.maxCached)
    ensures s'.targets == s.targets + [Target(t, place)]
    ensures s'.threads == s.threads && s'.lock == None && s'.maxCached == s.maxCached
    ensures actions[|actions| - 1] == Release(i) && Enabled(trace[|actions| - 1], Release(i))
    ensures trace[|actions| - 1].threads[i] == Trimming(t, |s.targets|)
  {
    var first, before, held := MissAlone(s, i, t, place);
    var installed := OneStep(i, held, Install(i));
    Join(i, s, first, before, held, [held, installed], [Install(i)], installed);
    var second, after := first + [held, installed][1..], before + [Install(i)];
    var third, rest, done := TrimAlone(installed, i, t, |s.targets|);
    Join(i, s, second, after, installed, third, rest, done);
    trace, actions, s' := second + third[1..], after + rest, done;
    BackToIdle(s.threads, i, installed.threads);
    LastOfJoined(second, after, third, rest);
  }

  lemma BackToIdle(threads: seq<Thread>, i: nat, busy: seq<Thread>)
    requires i < |threads| == |busy| && threads[i] == Idle
    requires forall k :: 0 <= k < |threads| && k != i ==> busy[k] == threads[k]
    ensures busy[i := Idle] == threads
  {}

  lemma LastOfJoined(first: seq<State>, before: seq<Action>, second: seq<State>, after: seq<Action>)
    requires |first| == |before| + 1 && |second| == |after| + 1 && after != [] && first[|before|] == second[0]
    ensures (before + after)[|before + after| - 1] == after[|after| - 1]
    ensures (first + second[1..])[|before + after| - 1] == second[|after| - 1]
  {}

  /** From any reachable state with the lock free, a call made to its end by an idle thread is one sequential call:
      same cache in the same order, same pool numbering, and the pool it returns is the one at the fresh end.  On a
      miss it builds that pool at the place it was given. */
  lemma CallAloneIsServe(s: State, i: nat, t: TenantId, place: Place)
    returns (trace: seq<State>, actions: seq<Action>, s': State)
    requires Invariant(s) && i < |s.threads| && s.threads[i] == Idle && s.lock == None
    ensures RunOf(i, s, trace, actions, s') && actions != []
    ensures Pools(s'.cache, |s'.targets|) == Serve(Pools(s.cache, |s.targets|), s.maxCached, t)
    ensures s'.targets == s.targets + if Find(s.cache, t).None? then [Target(t, place)] else []
    ensures s'.threads == s.threads && s'.lock == None && s'.maxCached == s.maxCached
    ensures Enabled(trace[|actions| - 1], actions[|actions| - 1])
    ensures s'.cache != []
    ensures Returned(trace[|actions| - 1], actions[|actions| - 1]) == Some(s'.cache[|s'.cache| - 1])
  {
    if Find(s.cache, t).Some? {
      s' := OneStep(i, s, Hit(i, t));
      trace, actions := [s, s'], [Hit(i, t)];
    } else {
      trace, actions, s' := MissedCallAlone(s, i, t, place);
    }
  }

  /** A call that misses and whose look-up raises leaves everything as it was. */
  lemma FailedCallAlone(s: State, i: nat, t: TenantId)
    requires i < |s.threads| && s.threads[i] == Idle && s.lock == None && Find(s.cache, t).None?
    ensures var asked := Apply(s, Miss(i, t));
      RunOf(i, s, [s, asked, s], [Miss(i, t), PlacementFails(i)], s)
  {
    var asked := OneStep(i, s, Miss(i, t));
    var failed := OneStep(i, asked, PlacementFails(i));
    assert failed.threads == s.threads;
  }

  // ---------------------------------------------------------------- evict and dispose_all

  /** A thread left to itself disposes all it has taken out, and nothing else changes. */
  lemma {:induction false} DisposalAlone(s: State, i: nat)
    returns (trace: seq<State>, actions: seq<Action>, s': State)
    requires i < |s.threads| && s.threads[i].Disposing?
    ensures RunOf(i, s, trace, actions, s')
    ensures s' == s.(disposed := s.disposed + multiset(s.threads[i].victims), threads := s.threads[i := Idle])
    decreases |s.threads[i].victims|
  {
    var victims := s.threads[i].victims;
    if victims == [] {
      s' := OneStep(i, s, Finish(i));
      trace, actions := [s, s'], [Finish(i)];
      assert s.disposed + multiset(victims) == s.disposed;
    } else {
      var s1 := OneStep(i, s, DisposeNext(i));
      var rest, more, done := DisposalAlone(s1, i);
      Join(i, s, [s, s1], [DisposeNext(i)], s1, rest, more, done);
      trace, actions, s' := [s, s1] + rest[1..], [DisposeNext(i)] + more, done;
      assert victims == [victims[0]] + victims[1..];
      assert s1.disposed + multiset(victims[1..]) == s.disposed + multiset(victims);
      assert s1.threads[i := Idle] == s.threads[i := Idle];
    }
  }

  /** An uninterrupted `evict` is the sequential one: the tenant's entry goes, and its pool, if there was one, is
      disposed. */
  lemma EvictAlone(s: State, i: nat, t: TenantId) returns (trace: seq<State>, actions: seq<Action>, s': State)
    requires i < |s.threads| && s.threads[i] == Idle && s.lock == None
    ensures RunOf(i, s, trace, actions, s')
    ensures s' == s.(cache := Remove(s.cache, t), disposed := s.disposed +
      PoolOf(s.cache, t))
  {
    var s1 := OneStep(i, s, Evict(i, t));
    var rest, more, done := DisposalAlone(s1, i);
    Join(i, s, [s, s1], [Evict(i, t)], s1, rest, more, done);
    trace, actions, s' := [s, s1] + rest[1..], [Evict(i, t)] + more, done;
    assert s'.threads == s.threads;
  }

  lemma {:induction false} PoolListHolds(cache: Cache)
    ensures multiset(PoolList(cache)) == PoolsOf(cache)
  {
    if cache != [] {
      var front := cache[..|cache| - 1];
      PoolListHolds(front);
      assert PoolList(cache) == PoolList(front) + [cache[|cache| - 1].pool];
    }
  }

  /** An uninterrupted `dispose_all` is the sequential one: the cache is empty and its pools are disposed. */
  lemma DisposeAllAlone(s: State, i: nat) returns (trace: seq<State>, actions: seq<Action>, s': State)
    requires i < |s.threads| && s.threads[i] == Idle && s.lock == None
    ensures RunOf(i, s, trace, actions, s')
    ensures s' == s.(cache := [], disposed := s.disposed + PoolsOf(s.cache))
  {
    var s1 := OneStep(i, s, DisposeAll(i));
    var rest, more, done := DisposalAlone(s1, i);
    Join(i, s, [s, s1], [DisposeAll(i)], s1, rest, more, done);
    trace, actions, s' := [s, s1] + rest[1..], [DisposeAll(i)] + more, done;
    PoolListHolds(s.cache);
    assert s'.threads == s.threads;
  }
}
