/** Per-tenant module enablement, one call at a time. */
module TenantModuleState {
  import opened Results
  import opened Ordering
  import opened DependencyGraph
  import opened ModuleCatalogs
  import Registry

  type TenantId = Registry.TenantId

  /** The "TenantModules" table: (tenant, module) to isEnabled. */
  type Stored = map<(TenantId, string), bool>

  datatype ModuleError =
    | NoSuchModule(key: string)
    | TenantNotFound
    | CoreModule(key: string)
    | ChangeRejected(blocking: seq<string>)
    | ModuleDisabled(key: string)

  function EnabledKeys(stored: Stored, t: TenantId): set<string> {
    set p | p in stored && p.0 == t && stored[p] :: p.1
  }

  /** What the tenant may use: core modules, and stored ones that are still installed. */
  function Enabled(c: ModuleCatalog, stored: Stored, t: TenantId): set<string> {
    CoreKeys(c) + (EnabledKeys(stored, t) * c.modules.Keys)
  }

  function UpsertAll(stored: Stored, t: TenantId, keys: seq<string>, flag: bool): Stored {
    if keys == [] then stored
    else UpsertAll(stored, t, keys[..|keys| - 1], flag)[(t, keys[|keys| - 1]) := flag]
  }

  // ---------------------------------------------------------------- what each call decides

  /** The modules `enable` switches on, given what is on now, or why it refuses. */
  ghost function EnableDecision(c: ModuleCatalog, current: set<string>, key: string, withDependencies: bool)
    : Result<seq<string>, ModuleError>
  {
    var missing := Restrict(DependenciesOf(c, key), Elements(DependenciesOf(c, key)) - current);
    if missing != [] && !withDependencies then Failure(ChangeRejected(missing))
    else Success(missing + if key in current then [] else [key])
  }

  /** The modules `disable` switches off: the key if it is on, unless something enabled needs it. */
  ghost function DisableDecision(c: ModuleCatalog, current: set<string>, key: string)
    : Result<seq<string>, ModuleError>
  {
    var blocking := Restrict(DependentsOf(c, key), current);
    if blocking != [] then Failure(ChangeRejected(blocking))
    else Success(if key in current then [key] else [])
  }

  class TenantModules {
    const catalog: ModuleCatalog
    var tenants: set<TenantId>
    var stored: Stored

    constructor (catalog: ModuleCatalog, tenants: set<TenantId>)
      ensures this.catalog == catalog && this.tenants == tenants && stored == map[]
    {
      this.catalog := catalog;
      this.tenants := tenants;
      this.stored := map[];
    }

    function EnabledFor(t: TenantId): set<string>
      reads this
    {
      Enabled(catalog, stored, t)
    }

    method Require(t: TenantId, key: string) returns (r: Option<ModuleError>)
      ensures r == None <==> key in EnabledFor(t)
      ensures r.Some? ==> r.value == if key in catalog.modules then ModuleDisabled(key) else NoSuchModule(key)
    {
      var enabled := EnabledFor(t);
      if key in enabled {
        r := None;
      } else if key in catalog.modules {
        r := Some(ModuleDisabled(key));
      } else {
        r := Some(NoSuchModule(key));
      }
    }

    method Enable(t: TenantId, key: string, withDependencies: bool) returns (r: Result<seq<string>, ModuleError>)
      requires ValidCatalog(catalog)
      modifies this`stored
      ensures r ==
        if key !in catalog.modules then Failure(NoSuchModule(key))
        else if t !in tenants then Failure(TenantNotFound)
        else EnableDecision(catalog, old(EnabledFor(t)), key, withDependencies)
      ensures stored == if r.Success? then UpsertAll(old(stored), t, r.value, true) else old(stored)
    {
      if key !in catalog.modules { return Failure(NoSuchModule(key)); }
      if t !in tenants { return Failure(TenantNotFound); }
      var current := EnabledFor(t);
      var dependencies := Dependencies(catalog, key);
      var missing := Restrict(dependencies.value, Elements(dependencies.value) - current);
      if missing != [] && !withDependencies {
        return Failure(ChangeRejected(missing));
      }
      var newlyEnabled := missing + if key in current then [] else [key];
      UpsertEach(t, newlyEnabled, true);
      r := Success(newlyEnabled);
    }

    method Disable(t: TenantId, key: string) returns (r: Result<seq<string>, ModuleError>)
      requires ValidCatalog(catalog)
      modifies this`stored
      ensures r ==
        if key !in catalog.modules then Failure(NoSuchModule(key))
        else if catalog.modules[key].core then Failure(CoreModule(key))
        else if t !in tenants then Failure(TenantNotFound)
        else DisableDecision(catalog, old(EnabledFor(t)), key)
      ensures stored == if r.Success? then UpsertAll(old(stored), t, r.value, false) else old(stored)
    {
      if key !in catalog.modules { return Failure(NoSuchModule(key)); }
      if catalog.modules[key].core { return Failure(CoreModule(key)); }
      if t !in tenants { return Failure(TenantNotFound); }
      var current := EnabledFor(t);
      var dependents := Dependents(catalog, key);
      var blocking := Restrict(dependents.value, current);
      if blocking != [] {
        return Failure(ChangeRejected(blocking));
      }
      var change := if key in current then [key] else [];
      UpsertEach(t, change, false);
      r := Success(change);
    }

    method UpsertEach(t: TenantId, keys: seq<string>, flag: bool)
      modifies this`stored
      ensures stored == UpsertAll(old(stored), t, keys, flag)
    {
      for i := 0 to |keys|
        invariant stored == UpsertAll(old(stored), t, keys[..i], flag)
      {
        stored := stored[(t, keys[i]) := flag];
        assert keys[..i + 1][..i] == keys[..i];
      }
      assert keys[..|keys|] == keys;
    }
  }

  // ---------------------------------------------------------------- what the rows mean

  /** A module is usable exactly when it is installed, and core or switched on for the tenant. */
  lemma EnabledIs(c: ModuleCatalog, stored: Stored, t: TenantId, key: string)
    ensures key in Enabled(c, stored, t) <==>
      key in c.modules && (c.modules[key].core || ((t, key) in stored && stored[(t, key)]))
  {
    if (t, key) in stored && stored[(t, key)] { assert (t, key).1 in EnabledKeys(stored, t); }
  }

  /** A tenant without rows has the core modules and no others. */
  lemma NoRowsMeansCore(c: ModuleCatalog, stored: Stored, t: TenantId)
    requires forall k :: (t, k) !in stored
    ensures forall k :: k in Enabled(c, stored, t) <==> k in c.modules && c.modules[k].core
  {
    forall k ensures k in Enabled(c, stored, t) <==> k in c.modules && c.modules[k].core {
      EnabledIs(c, stored, t, k);
    }
  }

  /** Writing rows sets the flag of the listed keys of one tenant and touches no other row. */
  lemma {:induction false} UpsertAllRows(stored: Stored, t: TenantId, keys: seq<string>, flag: bool, u: TenantId,
                                         k: string)
    ensures (u, k) in UpsertAll(stored, t, keys, flag) <==> (u, k) in stored || (u == t && k in keys)
    ensures u == t && k in keys ==> UpsertAll(stored, t, keys, flag)[(u, k)] == flag
    ensures (u, k) in stored && !(u == t && k in keys) ==> UpsertAll(stored, t, keys, flag)[(u, k)] == stored[(u, k)]
  {
    if keys != [] {
      UpsertAllRows(stored, t, keys[..|keys| - 1], flag, u, k);
      assert keys == keys[..|keys| - 1] + [keys[|keys| - 1]];
    }
  }

  // ---------------------------------------------------------------- the invariant

  /** Core modules are in, and every member's transitive dependencies are in. */
  ghost predicate ClosedSet(c: ModuleCatalog, s: set<string>) {
    && CoreKeys(c) <= s <= c.modules.Keys
    && forall k :: k in s ==> Reachable(DependsOn(c.modules), k) <= s
  }

  /** Direct dependencies are enough to check. */
  lemma DirectlyClosed(c: ModuleCatalog, s: set<string>)
    requires ValidCatalog(c) && CoreKeys(c) <= s <= c.modules.Keys
    requires forall k, d :: k in s && d in c.modules[k].dependsOn ==> d in s
    ensures ClosedSet(c, s)
  {
    var g := DependsOn(c.modules);
    forall k, d | k in s && d in Reachable(g, k) ensures d in s {
      var p :| PathBetween(g, p, k, d);
      ClosedSetHoldsReachable(g, k, s, p);
    }
  }

  lemma CoreIsClosed(c: ModuleCatalog)
    requires ValidCatalog(c)
    ensures ClosedSet(c, CoreKeys(c))
  {
    DirectlyClosed(c, CoreKeys(c));
  }

  /** Writing rows for one tenant: what it can use changes by exactly those modules, and no other tenant notices. */
  lemma {:induction false} UpsertedEnabled(c: ModuleCatalog, stored: Stored, t: TenantId, keys: seq<string>, flag: bool)
    requires Elements(keys) <= c.modules.Keys - CoreKeys(c)
    ensures Enabled(c, UpsertAll(stored, t, keys, flag), t)
      == if flag then Enabled(c, stored, t) + Elements(keys) else Enabled(c, stored, t) - Elements(keys)
    ensures forall u :: u != t ==> Enabled(c, UpsertAll(stored, t, keys, flag), u) == Enabled(c, stored, u)
  {
    if keys == [] {
      assert Elements(keys) == {};
    } else {
      var front, last := keys[..|keys| - 1], keys[|keys| - 1];
      assert keys == front + [last];
      assert Elements(keys) == Elements(front) + {last};
      UpsertedEnabled(c, stored, t, front, flag);
      OneUpsert(UpsertAll(stored, t, front, flag), t, last, flag);
      InstalledKey(c, last);
    }
  }

  lemma InstalledKey(c: ModuleCatalog, key: string)
    requires key in c.modules.Keys - CoreKeys(c)
    ensures forall s: set<string> ::
      CoreKeys(c) + ((s + {key}) * c.modules.Keys) == CoreKeys(c) + (s * c.modules.Keys) + {key}
    ensures forall s: set<string> ::
      CoreKeys(c) + ((s - {key}) * c.modules.Keys) == CoreKeys(c) + (s * c.modules.Keys) - {key}
  {}

  lemma OneUpsert(stored: Stored, t: TenantId, key: string, flag: bool)
    ensures EnabledKeys(stored[(t, key) := flag], t)
      == if flag then EnabledKeys(stored, t) + {key} else EnabledKeys(stored, t) - {key}
    ensures forall u :: u != t ==> EnabledKeys(stored[(t, key) := flag], u) == EnabledKeys(stored, u)
  {
    var after := stored[(t, key) := flag];
    forall u: TenantId, k ensures k in EnabledKeys(after, u) <==> (u, k) in after && after[(u, k)] {}
    forall u: TenantId, k ensures k in EnabledKeys(stored, u) <==> (u, k) in stored && stored[(u, k)] {}
  }

  // ---------------------------------------------------------------- enable

  lemma DependencyKeys(c: ModuleCatalog, key: string)
    requires ValidCatalog(c)
    ensures Elements(DependenciesOf(c, key)) == Reachable(DependsOn(c.modules), key)
    ensures Ascending(DependenciesOf(c, key), ByLevel(DependsOn(c.modules)))
  {
    forall k ensures k in DependenciesOf(c, key) <==> k in Reachable(DependsOn(c.modules), key) {
      OrderHoldsKeys(c, k);
    }
    ByLevelIsStrict(DependsOn(c.modules));
    RestrictAscending(c.order, Reachable(DependsOn(c.modules), key), ByLevel(DependsOn(c.modules)));
  }

  lemma MissingKeys(c: ModuleCatalog, current: set<string>, key: string)
    requires ValidCatalog(c)
    ensures var missing := Restrict(DependenciesOf(c, key), Elements(DependenciesOf(c, key)) - current);
      && Elements(missing) == Reachable(DependsOn(c.modules), key) - current
      && Ascending(missing, ByLevel(DependsOn(c.modules)))
  {
    DependencyKeys(c, key);
    var dependencies := DependenciesOf(c, key);
    ByLevelIsStrict(DependsOn(c.modules));
    RestrictAscending(dependencies, Elements(dependencies) - current, ByLevel(DependsOn(c.modules)));
    assert forall k :: k in dependencies <==> k in Elements(dependencies);
  }

  lemma AppendKey(c: ModuleCatalog, keys: seq<string>, key: string)
    requires ValidCatalog(c) && Elements(keys) <= Reachable(DependsOn(c.modules), key)
    requires Ascending(keys, ByLevel(DependsOn(c.modules)))
    ensures Ascending(keys + [key], ByLevel(DependsOn(c.modules)))
  {
    forall i | 0 <= i < |keys| ensures ByLevel(DependsOn(c.modules))(keys[i], key) {
      assert keys[i] in Elements(keys);
      ReachesDescends(DependsOn(c.modules), key, keys[i]);
    }
  }

  lemma NewlyEnabledKeys(c: ModuleCatalog, current: set<string>, key: string, withDependencies: bool)
    requires ValidCatalog(c) && ClosedSet(c, current) && key in c.modules
    requires EnableDecision(c, current, key, withDependencies).Success?
    ensures var newly := EnableDecision(c, current, key, withDependencies).value;
      && Elements(newly) == (Reachable(DependsOn(c.modules), key) + {key}) - current
      && Elements(newly) <= c.modules.Keys - CoreKeys(c)
      && Ascending(newly, ByLevel(DependsOn(c.modules)))
  {
    var missing := Restrict(DependenciesOf(c, key), Elements(DependenciesOf(c, key)) - current);
    MissingKeys(c, current, key);
    AppendKey(c, missing, key);
    NewlyElements(c, current, key, missing);
  }

  lemma NewlyElements(c: ModuleCatalog, current: set<string>, key: string, missing: seq<string>)
    requires ClosedSet(c, current) && key in c.modules
    requires Elements(missing) == Reachable(DependsOn(c.modules), key) - current
    ensures var newly := missing + if key in current then [] else [key];
      && Elements(newly) == (Reachable(DependsOn(c.modules), key) + {key}) - current
      && Elements(newly) <= c.modules.Keys - CoreKeys(c)
      && (key in current ==> newly == missing)
  {
    assert Elements(missing + [key]) == Elements(missing) + {key};
    assert missing + [] == missing;
  }

  /** When `enable` refuses: exactly without consent to dependencies that are missing, and it names just those, in
      enable order. */
  lemma EnableRefusesIff(c: ModuleCatalog, current: set<string>, key: string, withDependencies: bool)
    requires ValidCatalog(c) && key in c.modules
    ensures var r := EnableDecision(c, current, key, withDependencies);
      && (r.Success? <==> withDependencies || Reachable(DependsOn(c.modules), key) <= current)
      && (r.Failure? ==>
            && r.error.ChangeRejected?
            && Elements(r.error.blocking) == Reachable(DependsOn(c.modules), key) - current
            && Ascending(r.error.blocking, ByLevel(DependsOn(c.modules))))
  {
    var missing := Restrict(DependenciesOf(c, key), Elements(DependenciesOf(c, key)) - current);
    MissingKeys(c, current, key);
    assert missing != [] ==> missing[0] in Elements(missing);
    assert missing == [] ==> Elements(missing) == {};
  }

  /** A closed set grown in enable order is closed after every single addition. */
  lemma PrefixClosed(c: ModuleCatalog, base: set<string>, keys: seq<string>, n: nat)
    requires ValidCatalog(c) && ClosedSet(c, base) && ClosedSet(c, base + Elements(keys))
    requires Ascending(keys, ByLevel(DependsOn(c.modules))) && n <= |keys|
    ensures ClosedSet(c, base + Elements(keys[..n]))
  {
    var g := DependsOn(c.modules);
    var s := base + Elements(keys[..n]);
    forall k, d | k in s && d in c.modules[k].dependsOn ensures d in s {
      EdgeReaches(g, k, d);
      assert d in Reachable(g, k);
      if k in base {
        assert d in base;
      } else {
        assert k in Elements(keys);
        if d !in base { LowerKeyIsEarlier(g, keys, n, k, d); }
      }
    }
    DirectlyClosed(c, s);
  }

  lemma LowerKeyIsEarlier(g: Graph, keys: seq<string>, n: nat, k: string, d: string)
    requires Closed(g) && !Cyclic(g) && Ascending(keys, ByLevel(g)) && n <= |keys|
    requires k in keys[..n] && d in keys && Reaches(g, k, d)
    ensures d in keys[..n]
  {
    var j :| 0 <= j < n && keys[j] == k;
    var m :| 0 <= m < |keys| && keys[m] == d;
    assert j < m ==> ByLevel(g)(keys[j], keys[m]);
    ReachesDescends(g, k, d);
    assert keys[..n][m] == d;
  }

  /** `enable` adds the key and all it reaches, and leaves every other tenant as it was. */
  lemma EnableAdds(c: ModuleCatalog, stored: Stored, t: TenantId, key: string, withDependencies: bool)
    requires ValidCatalog(c) && ClosedSet(c, Enabled(c, stored, t)) && key in c.modules
    requires EnableDecision(c, Enabled(c, stored, t), key, withDependencies).Success?
    ensures var newly := EnableDecision(c, Enabled(c, stored, t), key, withDependencies).value;
      var after := UpsertAll(stored, t, newly, true);
      && Enabled(c, after, t) == Enabled(c, stored, t) + Reachable(DependsOn(c.modules), key) + {key}
      && forall u :: u != t ==> Enabled(c, after, u) == Enabled(c, stored, u)
  {
    var current := Enabled(c, stored, t);
    NewlyEnabledKeys(c, current, key, withDependencies);
    UpsertedEnabled(c, stored, t, EnableDecision(c, current, key, withDependencies).value, true);
  }

  /** What is on after `enable` is the least closed superset of what was on that holds the key. */
  lemma EnableGivesLeastClosure(c: ModuleCatalog, stored: Stored, t: TenantId, key: string, withDependencies: bool)
    requires ValidCatalog(c) && ClosedSet(c, Enabled(c, stored, t)) && key in c.modules
    requires EnableDecision(c, Enabled(c, stored, t), key, withDependencies).Success?
    ensures var newly := EnableDecision(c, Enabled(c, stored, t), key, withDependencies).value;
      var after := Enabled(c, UpsertAll(stored, t, newly, true), t);
      && Enabled(c, stored, t) + {key} <= after
      && ClosedSet(c, after)
      && (forall s :: ClosedSet(c, s) && Enabled(c, stored, t) + {key} <= s ==> after <= s)
  {
    EnableAdds(c, stored, t, key, withDependencies);
    AddingReachableCloses(c, Enabled(c, stored, t), key);
    forall s | ClosedSet(c, s) && Enabled(c, stored, t) + {key} <= s
      ensures Enabled(c, stored, t) + Reachable(DependsOn(c.modules), key) + {key} <= s
    {
      assert key in s;
    }
  }

  /** The set is closed after every single row `enable` writes. */
  lemma EnableClosedAfterEachUpsert(c: ModuleCatalog, stored: Stored, t: TenantId, key: string,
                                    withDependencies: bool, n: nat)
    requires ValidCatalog(c) && ClosedSet(c, Enabled(c, stored, t)) && key in c.modules
    requires EnableDecision(c, Enabled(c, stored, t), key, withDependencies).Success?
    requires n <= |EnableDecision(c, Enabled(c, stored, t), key, withDependencies).value|
    ensures var newly := EnableDecision(c, Enabled(c, stored, t), key, withDependencies).value;
      ClosedSet(c, Enabled(c, UpsertAll(stored, t, newly[..n], true), t))
  {
    var current := Enabled(c, stored, t);
    var newly := EnableDecision(c, current, key, withDependencies).value;
    NewlyEnabledKeys(c, current, key, withDependencies);
    AddingReachableCloses(c, current, key);
    assert current + Elements(newly) == current + Reachable(DependsOn(c.modules), key) + {key};
    PrefixClosed(c, current, newly, n);
    PrefixElements(newly, n);
    UpsertedEnabled(c, stored, t, newly[..n], true);
  }

  lemma PrefixElements(keys: seq<string>, n: nat)
    requires n <= |keys|
    ensures Elements(keys[..n]) <= Elements(keys)
  {}

  lemma AddingReachableCloses(c: ModuleCatalog, current: set<string>, key: string)
    requires ValidCatalog(c) && ClosedSet(c, current) && key in c.modules
    ensures ClosedSet(c, current + Reachable(DependsOn(c.modules), key) + {key})
  {
    var g := DependsOn(c.modules);
    var s := current + Reachable(g, key) + {key};
    forall k, d | k in s && d in c.modules[k].dependsOn ensures d in s {
      EdgeReaches(g, k, d);
      assert d in Reachable(g, k);
      if k in Reachable(g, key) { ReachesTransitive(g, key, k, d); }
    }
    DirectlyClosed(c, s);
  }

  // ---------------------------------------------------------------- disable

  lemma DependentKeys(c: ModuleCatalog, key: string)
    requires ValidCatalog(c) && key in c.modules
    ensures forall k :: k in DependentsOf(c, key) <==> k in c.modules && key in Reachable(DependsOn(c.modules), k)
    ensures key !in Reachable(DependsOn(c.modules), key)
  {
    forall k ensures k in DependentsOf(c, key) <==> k in c.modules && key in Reachable(DependsOn(c.modules), k) {
      OrderHoldsKeys(c, k);
    }
  }

  /** `disable` of an optional module is accepted exactly when what remains is closed. */
  lemma DisableAcceptedIffClosed(c: ModuleCatalog, current: set<string>, key: string)
    requires ValidCatalog(c) && ClosedSet(c, current) && key in c.modules && !c.modules[key].core
    ensures DisableDecision(c, current, key).Success? <==> ClosedSet(c, current - {key})
  {
    DependentKeys(c, key);
    ClosedWithout(c, current, key);
    var blocking := Restrict(DependentsOf(c, key), current);
    assert forall k :: k in blocking <==> k in current && key in Reachable(DependsOn(c.modules), k);
    if blocking != [] { assert blocking[0] in blocking; }
  }

  /** When `disable` refuses: exactly while an enabled module needs the key, and it names just those, in enable order;
      otherwise it switches off the key alone, if it is on. */
  lemma DisableRefusesIff(c: ModuleCatalog, current: set<string>, key: string)
    requires ValidCatalog(c) && key in c.modules && current <= c.modules.Keys
    ensures var r := DisableDecision(c, current, key);
      && (r.Success? <==> forall k :: k in current ==> key !in Reachable(DependsOn(c.modules), k))
      && (r.Success? ==> r.value == if key in current then [key] else [])
      && (r.Failure? ==>
            && r.error.ChangeRejected?
            && Elements(r.error.blocking) == (set k | k in current && key in Reachable(DependsOn(c.modules), k))
            && Ascending(r.error.blocking, ByLevel(DependsOn(c.modules))))
  {
    DependentKeys(c, key);
    var blocking := Restrict(DependentsOf(c, key), current);
    assert forall k :: k in blocking <==> k in current && key in Reachable(DependsOn(c.modules), k);
    assert blocking != [] ==> blocking[0] in blocking;
    ByLevelIsStrict(DependsOn(c.modules));
    RestrictAscending(c.order, Reaching(DependsOn(c.modules), key), ByLevel(DependsOn(c.modules)));
    RestrictAscending(DependentsOf(c, key), current, ByLevel(DependsOn(c.modules)));
  }

  lemma ClosedWithout(c: ModuleCatalog, current: set<string>, key: string)
    requires ClosedSet(c, current) && key !in CoreKeys(c) && key !in Reachable(DependsOn(c.modules), key)
    ensures ClosedSet(c, current - {key}) <==>
            forall k :: k in current ==> key !in Reachable(DependsOn(c.modules), k)
  {}

  /** Disabling a list from its last key to its first; None if some call is refused. */
  ghost function DisableFromLast(c: ModuleCatalog, stored: Stored, t: TenantId, keys: seq<string>): Option<Stored>
    decreases |keys|
  {
    if keys == [] then Some(stored)
    else
      var last := keys[|keys| - 1];
      if last !in c.modules || c.modules[last].core then None
      else match DisableDecision(c, Enabled(c, stored, t), last)
        case Failure(_) => None
        case Success(change) =>
          DisableFromLast(c, UpsertAll(stored, t, change, false), t, keys[..|keys| - 1])
  }

  /** Keys stacked in enable order on a closed set come off again in reverse without a refusal. */
  lemma {:induction false} UnstackSucceeds(c: ModuleCatalog, stored: Stored, t: TenantId,
                                           base: set<string>, keys: seq<string>)
    requires ValidCatalog(c) && ClosedSet(c, base) && ClosedSet(c, base + Elements(keys))
    requires Ascending(keys, ByLevel(DependsOn(c.modules))) && Elements(keys) !! base
    requires Enabled(c, stored, t) == base + Elements(keys)
    decreases |keys|
    ensures DisableFromLast(c, stored, t, keys).Some?
    ensures Enabled(c, DisableFromLast(c, stored, t, keys).value, t) == base
    ensures forall u :: u != t ==>
      Enabled(c, DisableFromLast(c, stored, t, keys).value, u) == Enabled(c, stored, u)
  {
    if keys == [] {
      assert base + Elements(keys) == base;
    } else {
      var front, last := keys[..|keys| - 1], keys[|keys| - 1];
      StackTop(c, base, keys);
      PopSucceeds(c, stored, t, base + Elements(keys), last);
      UnstackSucceeds(c, UpsertAll(stored, t, [last], false), t, base, front);
    }
  }

  lemma PopSucceeds(c: ModuleCatalog, stored: Stored, t: TenantId, current: set<string>, key: string)
    requires ValidCatalog(c) && ClosedSet(c, current) && ClosedSet(c, current - {key})
    requires key in current && key !in CoreKeys(c) && Enabled(c, stored, t) == current
    ensures DisableDecision(c, current, key) == Success([key])
    ensures Enabled(c, UpsertAll(stored, t, [key], false), t) == current - {key}
    ensures forall u :: u != t ==> Enabled(c, UpsertAll(stored, t, [key], false), u) == Enabled(c, stored, u)
  {
    DisableAcceptedIffClosed(c, current, key);
    assert Elements([key]) == {key};
    UpsertedEnabled(c, stored, t, [key], false);
  }

  lemma StackTop(c: ModuleCatalog, base: set<string>, keys: seq<string>)
    requires ValidCatalog(c) && ClosedSet(c, base) && ClosedSet(c, base + Elements(keys))
    requires Ascending(keys, ByLevel(DependsOn(c.modules))) && Elements(keys) !! base && keys != []
    ensures var front, last := keys[..|keys| - 1], keys[|keys| - 1];
      && last in base + Elements(keys) && last !in CoreKeys(c)
      && base + Elements(keys) - {last} == base + Elements(front)
      && ClosedSet(c, base + Elements(front)) && Elements(front) !! base
  {
    var front, last := keys[..|keys| - 1], keys[|keys| - 1];
    assert keys == front + [last];
    assert Elements(keys) == Elements(front) + {last};
    ByLevelIsStrict(DependsOn(c.modules));
    AscendingIsDistinct(keys, ByLevel(DependsOn(c.modules)));
    assert last !in front;
    PrefixClosed(c, base, keys, |keys| - 1);
  }

  /** Disabling the list `enable` returned, in reverse, is never refused and restores the original set. */
  lemma DisableUndoesEnable(c: ModuleCatalog, stored: Stored, t: TenantId, key: string, withDependencies: bool)
    requires ValidCatalog(c) && ClosedSet(c, Enabled(c, stored, t)) && key in c.modules
    requires EnableDecision(c, Enabled(c, stored, t), key, withDependencies).Success?
    ensures var newly := EnableDecision(c, Enabled(c, stored, t), key, withDependencies).value;
      var undone := DisableFromLast(c, UpsertAll(stored, t, newly, true), t, newly);
      undone.Some? && forall u :: Enabled(c, undone.value, u) == Enabled(c, stored, u)
  {
    var current := Enabled(c, stored, t);
    var newly := EnableDecision(c, current, key, withDependencies).value;
    NewlyEnabledKeys(c, current, key, withDependencies);
    UpsertedEnabled(c, stored, t, newly, true);
    AddingReachableCloses(c, current, key);
    assert current + Elements(newly) == current + Reachable(DependsOn(c.modules), key) + {key};
    UnstackSucceeds(c, UpsertAll(stored, t, newly, true), t, current, newly);
  }

  /** Disabling every enabled optional module in reverse catalogue order always ends at the core set. */
  lemma DisableAllEndsAtCore(c: ModuleCatalog, stored: Stored, t: TenantId)
    requires ValidCatalog(c) && ClosedSet(c, Enabled(c, stored, t))
    ensures var optional := Restrict(c.order, Enabled(c, stored, t) - CoreKeys(c));
      var cleared := DisableFromLast(c, stored, t, optional);
      cleared.Some? && Enabled(c, cleared.value, t) == CoreKeys(c)
  {
    var current := Enabled(c, stored, t);
    var optional := Restrict(c.order, current - CoreKeys(c));
    OptionalKeys(c, current);
    CoreIsClosed(c);
    UnstackSucceeds(c, stored, t, CoreKeys(c), optional);
  }

  lemma OptionalKeys(c: ModuleCatalog, current: set<string>)
    requires ValidCatalog(c) && ClosedSet(c, current)
    ensures var optional := Restrict(c.order, current - CoreKeys(c));
      && Elements(optional) !! CoreKeys(c) && CoreKeys(c) + Elements(optional) == current
      && Ascending(optional, ByLevel(DependsOn(c.modules)))
  {
    var optional := Restrict(c.order, current - CoreKeys(c));
    forall k ensures k in optional <==> k in current - CoreKeys(c) { OrderHoldsKeys(c, k); }
    ByLevelIsStrict(DependsOn(c.modules));
    RestrictAscending(c.order, current - CoreKeys(c), ByLevel(DependsOn(c.modules)));
  }
}
