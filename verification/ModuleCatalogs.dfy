/** The module catalogue: validation, enable order, transitive dependencies. */
module ModuleCatalogs {
  import opened Results
  import opened Ordering
  import opened KeyOrder
  import opened DependencyGraph

  datatype ModuleManifest = ModuleManifest(key: string, name: string, dependsOn: seq<string>, core: bool)

  datatype ModuleCatalogError =
    | DuplicateKey(key: string)
    | UnknownDependency(key: string, dependency: string)
    | CoreNeedsOptional(key: string, dependency: string)
    | DependencyCycle(keys: seq<string>)
    | UnknownModule(key: string)

  type Modules = map<string, ModuleManifest>

  /** A catalogue never changes once built, so it is a value. */
  datatype ModuleCatalog = ModuleCatalog(modules: Modules, order: seq<string>)

  function DependsOn(modules: Modules): Graph {
    map k | k in modules :: Elements(modules[k].dependsOn)
  }

  // ---------------------------------------------------------------- what a legal set of manifests is

  ghost predicate DistinctKeys(manifests: seq<ModuleManifest>) {
    forall i, j :: 0 <= i < j < |manifests| ==> manifests[i].key != manifests[j].key
  }

  function Installed(manifests: seq<ModuleManifest>): Modules {
    if manifests == [] then map[]
    else
      var last := manifests[|manifests| - 1];
      Installed(manifests[..|manifests| - 1])[last.key := last]
  }

  lemma {:induction false} InstalledHolds(manifests: seq<ModuleManifest>)
    ensures forall k :: k in Installed(manifests) ==>
      Installed(manifests)[k] in manifests && Installed(manifests)[k].key == k
    ensures forall m :: m in manifests ==> m.key in Installed(manifests)
    ensures DistinctKeys(manifests) ==> forall m :: m in manifests ==> Installed(manifests)[m.key] == m
  {
    if manifests != [] {
      var front := manifests[..|manifests| - 1];
      InstalledHolds(front);
      assert manifests == front + [manifests[|manifests| - 1]];
      forall m | m in front && DistinctKeys(manifests) ensures m.key != manifests[|manifests| - 1].key {
        var i :| 0 <= i < |front| && front[i] == m;
        assert manifests[i] == m;
      }
    }
  }

  /** What is wrong with one declared dependency, if anything. */
  function Defect(modules: Modules, manifest: ModuleManifest, dependency: string): Option<ModuleCatalogError> {
    if dependency !in modules then Some(UnknownDependency(manifest.key, dependency))
    else if manifest.core && !modules[dependency].core then Some(CoreNeedsOptional(manifest.key, dependency))
    else None
  }

  ghost predicate Sound(modules: Modules, manifest: ModuleManifest) {
    forall d :: d in manifest.dependsOn ==> Defect(modules, manifest, d) == None
  }

  /** `error` is the first defect in declaration order. */
  ghost predicate FirstDefect(modules: Modules, manifest: ModuleManifest, error: ModuleCatalogError) {
    exists i :: 0 <= i < |manifest.dependsOn|
      && Defect(modules, manifest, manifest.dependsOn[i]) == Some(error)
      && forall j :: 0 <= j < i ==> Defect(modules, manifest, manifest.dependsOn[j]) == None
  }

  ghost predicate AllSound(manifests: seq<ModuleManifest>) {
    forall m :: m in manifests ==> Sound(Installed(manifests), m)
  }

  /** The manifests a catalogue accepts. */
  ghost predicate Legal(manifests: seq<ModuleManifest>) {
    DistinctKeys(manifests) && AllSound(manifests) && !Cyclic(DependsOn(Installed(manifests)))
  }

  /** The error raised for manifests that are not legal: the earliest check to fail decides. */
  ghost predicate Raises(manifests: seq<ModuleManifest>, error: ModuleCatalogError) {
    match error
    case DuplicateKey(key) =>
      exists j, i :: 0 <= j < i < |manifests| && manifests[j].key == key == manifests[i].key
                     && DistinctKeys(manifests[..i])
    case DependencyCycle(keys) =>
      && DistinctKeys(manifests) && AllSound(manifests)
      && Cyclic(DependsOn(Installed(manifests)))
      && Ascending(keys, KeyLess)
      && forall k :: k in keys <==> LeadsToCycle(DependsOn(Installed(manifests)), k)
    case UnknownModule(_) => false
    case _ =>
      && DistinctKeys(manifests)
      && (exists i :: 0 <= i < |manifests| && FirstDefect(Installed(manifests), manifests[i], error)
                      && forall j :: 0 <= j < i ==> Sound(Installed(manifests), manifests[j]))
  }

  // ---------------------------------------------------------------- the same, read off the manifests

  /** Every dependency is the key of some manifest, of a core one if the dependent is core. */
  ghost predicate DependenciesMet(manifests: seq<ModuleManifest>) {
    forall m, d :: m in manifests && d in m.dependsOn ==> MetBy(manifests, m, d)
  }

  ghost predicate MetBy(manifests: seq<ModuleManifest>, m: ModuleManifest, d: string) {
    exists n :: n in manifests && n.key == d && (m.core ==> n.core)
  }

  /** Some manifest with this key declares that dependency. */
  ghost predicate Declares(manifests: seq<ModuleManifest>, key: string, d: string) {
    exists m :: m in manifests && m.key == key && d in m.dependsOn
  }

  /** A round trip along declared dependencies; one step is enough if a module depends on itself. */
  ghost predicate Loop(manifests: seq<ModuleManifest>, p: seq<string>) {
    |p| >= 2 && p[0] == p[|p| - 1] && forall i :: 0 <= i < |p| - 1 ==> Declares(manifests, p[i], p[i + 1])
  }

  lemma SoundMeans(manifests: seq<ModuleManifest>, m: ModuleManifest, d: string)
    requires DistinctKeys(manifests) && m in manifests && d in m.dependsOn
    ensures Defect(Installed(manifests), m, d) == None <==> MetBy(manifests, m, d)
  {
    InstalledHolds(manifests);
    if d in Installed(manifests) {
      assert Installed(manifests)[d] in manifests;
      forall n | n in manifests && n.key == d ensures n == Installed(manifests)[d] {}
    }
  }

  lemma AllSoundMeans(manifests: seq<ModuleManifest>)
    requires DistinctKeys(manifests)
    ensures AllSound(manifests) <==> DependenciesMet(manifests)
  {
    forall m, d | m in manifests && d in m.dependsOn
      ensures Defect(Installed(manifests), m, d) == None <==> MetBy(manifests, m, d)
    {
      SoundMeans(manifests, m, d);
    }
    if AllSound(manifests) {
      forall m, d | m in manifests && d in m.dependsOn ensures MetBy(manifests, m, d) {
        assert Sound(Installed(manifests), m);
      }
    }
  }

  lemma EdgeIsDeclared(manifests: seq<ModuleManifest>, a: string, b: string)
    requires DistinctKeys(manifests)
    ensures var g := DependsOn(Installed(manifests)); (a in g && b in g[a]) <==> Declares(manifests, a, b)
  {
    InstalledHolds(manifests);
    if a in Installed(manifests) && b in Installed(manifests)[a].dependsOn {
      assert Installed(manifests)[a] in manifests;
    }
  }

  lemma CyclicMeans(manifests: seq<ModuleManifest>)
    requires DistinctKeys(manifests) && AllSound(manifests)
    ensures Cyclic(DependsOn(Installed(manifests))) <==> exists p :: Loop(manifests, p)
  {
    var g := DependsOn(Installed(manifests));
    if Cyclic(g) {
      var k :| Reaches(g, k, k);
      var p :| PathBetween(g, p, k, k);
      forall i | 0 <= i < |p| - 1 ensures Declares(manifests, p[i], p[i + 1]) {
        assert p[i + 1] in g[p[i]];
        EdgeIsDeclared(manifests, p[i], p[i + 1]);
      }
      assert Loop(manifests, p);
    }
    if exists p :: Loop(manifests, p) {
      var p :| Loop(manifests, p);
      LoopIsPath(manifests, p);
      assert PathBetween(g, p, p[0], p[0]);
      assert Reaches(g, p[0], p[0]);
    }
  }

  lemma LoopIsPath(manifests: seq<ModuleManifest>, p: seq<string>)
    requires DistinctKeys(manifests) && Loop(manifests, p)
    ensures IsPath(DependsOn(Installed(manifests)), p)
  {
    var g := DependsOn(Installed(manifests));
    forall i | 0 <= i < |p| - 1 ensures p[i] in g && p[i + 1] in g[p[i]] {
      assert Declares(manifests, p[i], p[i + 1]);
      EdgeIsDeclared(manifests, p[i], p[i + 1]);
    }
  }

  /** Exactly the manifests with one manifest a key, every dependency met and no round trip are accepted. */
  lemma LegalMeans(manifests: seq<ModuleManifest>)
    ensures Legal(manifests) <==>
      && (forall i, j :: 0 <= i < j < |manifests| ==> manifests[i].key != manifests[j].key)
      && DependenciesMet(manifests)
      && !exists p :: Loop(manifests, p)
  {
    if DistinctKeys(manifests) {
      AllSoundMeans(manifests);
      if AllSound(manifests) { CyclicMeans(manifests); }
    }
  }

  /** Each error tells the truth about the manifests. */
  lemma ErrorsAreTrue(manifests: seq<ModuleManifest>, error: ModuleCatalogError)
    requires Raises(manifests, error)
    ensures error.DuplicateKey? ==>
      exists i, j :: 0 <= i < j < |manifests| && manifests[i].key == error.key == manifests[j].key
    ensures error.UnknownDependency? ==>
      Declares(manifests, error.key, error.dependency) && forall n :: n in manifests ==> n.key != error.dependency
    ensures error.CoreNeedsOptional? ==>
      && (exists m :: m in manifests && m.key == error.key && m.core && error.dependency in m.dependsOn)
      && (exists n :: n in manifests && n.key == error.dependency && !n.core)
    ensures error.DependencyCycle? ==> exists p :: Loop(manifests, p)
  {
    InstalledHolds(manifests);
    match error
    case DuplicateKey(_) =>
    case DependencyCycle(_) => CyclicMeans(manifests);
    case UnknownModule(_) =>
    case _ =>
      var i :| 0 <= i < |manifests| && FirstDefect(Installed(manifests), manifests[i], error);
      assert manifests[i] in manifests;
      DefectIsTrue(manifests, manifests[i], error);
  }

  /** The i-th manifest is the first to repeat a key. */
  ghost predicate FirstRepeat(manifests: seq<ModuleManifest>, i: nat, key: string) {
    && i < |manifests| && manifests[i].key == key
    && (exists j :: 0 <= j < i && manifests[j].key == key)
    && (forall a, b :: 0 <= a < b < i ==> manifests[a].key != manifests[b].key)
  }

  /** Which error wins: a repeated key, the first there is, before any dependency is looked at ... */
  lemma RepeatWins(manifests: seq<ModuleManifest>, error: ModuleCatalogError)
    requires Raises(manifests, error)
    ensures error.DuplicateKey? ==> exists i: nat :: FirstRepeat(manifests, i, error.key)
    ensures !error.DuplicateKey? ==>
      forall a, b :: 0 <= a < b < |manifests| ==> manifests[a].key != manifests[b].key
  {
    if error.DuplicateKey? {
      var j, i :| 0 <= j < i < |manifests| && manifests[j].key == error.key == manifests[i].key
        && DistinctKeys(manifests[..i]);
      forall a, b | 0 <= a < b < i ensures manifests[a].key != manifests[b].key {
        assert manifests[..i][a].key != manifests[..i][b].key;
      }
      assert FirstRepeat(manifests, i, error.key);
    }
  }

  /** ... then the earliest unmet dependency of the earliest manifest that has one ... */
  lemma UnmetWins(manifests: seq<ModuleManifest>, error: ModuleCatalogError) returns (i: nat, j: nat)
    requires Raises(manifests, error) && (error.UnknownDependency? || error.CoreNeedsOptional?)
    ensures FirstUnmet(manifests, i, j)
    ensures manifests[i].key == error.key && manifests[i].dependsOn[j] == error.dependency
  {
    i :| 0 <= i < |manifests| && FirstDefect(Installed(manifests), manifests[i], error)
      && forall a :: 0 <= a < i ==> Sound(Installed(manifests), manifests[a]);
    j := FirstDefectIsUnmet(manifests, i, error);
  }

  /** ... and a cycle only when every dependency is met. */
  lemma CycleComesLast(manifests: seq<ModuleManifest>, error: ModuleCatalogError)
    requires Raises(manifests, error) && error.DependencyCycle?
    ensures DependenciesMet(manifests)
  {
    AllSoundMeans(manifests);
  }

  /** The j-th dependency of the i-th manifest is the first that is not met. */
  ghost predicate FirstUnmet(manifests: seq<ModuleManifest>, i: nat, j: nat) {
    && i < |manifests| && j < |manifests[i].dependsOn|
    && !MetBy(manifests, manifests[i], manifests[i].dependsOn[j])
    && (forall b :: 0 <= b < j ==> MetBy(manifests, manifests[i], manifests[i].dependsOn[b]))
    && (forall a, d :: 0 <= a < i && d in manifests[a].dependsOn ==> MetBy(manifests, manifests[a], d))
  }

  lemma FirstDefectIsUnmet(manifests: seq<ModuleManifest>, i: nat, error: ModuleCatalogError) returns (j: nat)
    requires DistinctKeys(manifests) && i < |manifests|
    requires FirstDefect(Installed(manifests), manifests[i], error)
    requires error.UnknownDependency? || error.CoreNeedsOptional?
    requires forall a :: 0 <= a < i ==> Sound(Installed(manifests), manifests[a])
    ensures FirstUnmet(manifests, i, j)
    ensures manifests[i].key == error.key && manifests[i].dependsOn[j] == error.dependency
  {
    var m := manifests[i];
    j :| 0 <= j < |m.dependsOn| && Defect(Installed(manifests), m, m.dependsOn[j]) == Some(error)
      && forall b :: 0 <= b < j ==> Defect(Installed(manifests), m, m.dependsOn[b]) == None;
    SoundMeans(manifests, m, m.dependsOn[j]);
    forall b | 0 <= b < j ensures MetBy(manifests, m, m.dependsOn[b]) { SoundMeans(manifests, m, m.dependsOn[b]); }
    forall a, d | 0 <= a < i && d in manifests[a].dependsOn ensures MetBy(manifests, manifests[a], d) {
      assert Sound(Installed(manifests), manifests[a]);
      SoundMeans(manifests, manifests[a], d);
    }
  }

  lemma DefectIsTrue(manifests: seq<ModuleManifest>, m: ModuleManifest, error: ModuleCatalogError)
    requires m in manifests && FirstDefect(Installed(manifests), m, error)
    ensures error.UnknownDependency? ==>
      && m.key == error.key && error.dependency in m.dependsOn
      && forall n :: n in manifests ==> n.key != error.dependency
    ensures error.CoreNeedsOptional? ==>
      && m.key == error.key && m.core && error.dependency in m.dependsOn
      && (exists n :: n in manifests && n.key == error.dependency && !n.core)
  {
    InstalledHolds(manifests);
    var i :| 0 <= i < |m.dependsOn| && Defect(Installed(manifests), m, m.dependsOn[i]) == Some(error);
    if error.CoreNeedsOptional? { assert Installed(manifests)[error.dependency] in manifests; }
  }

  // ---------------------------------------------------------------- construction

  method ValidateDependencies(modules: Modules, manifest: ModuleManifest) returns (r: Option<ModuleCatalogError>)
    ensures r.None? <==> Sound(modules, manifest)
    ensures r.Some? ==> FirstDefect(modules, manifest, r.value)
  {
    for i := 0 to |manifest.dependsOn|
      invariant forall j :: 0 <= j < i ==> Defect(modules, manifest, manifest.dependsOn[j]) == None
    {
      var dependency := manifest.dependsOn[i];
      assert dependency in manifest.dependsOn;
      if dependency !in modules {
        return Some(UnknownDependency(manifest.key, dependency));
      }
      if manifest.core && !modules[dependency].core {
        return Some(CoreNeedsOptional(manifest.key, dependency));
      }
    }
    r := None;
  }

  /** The keys still unsorted after `round` rounds are those a chain of `round` edges starts from. */
  ghost predicate RoundState(g: Graph, round: nat, remaining: Graph, order: seq<string>) {
    && (forall k :: k in remaining <==> HasChain(g, k, round))
    && (forall k :: k in remaining ==> remaining[k] == g[k] * remaining.Keys)
    && (forall k :: k in order <==> k in g && k !in remaining)
    && Ascending(order, ByLevel(g))
  }

  /** A key is free of unsorted dependencies exactly when its longest chain has `round` edges. */
  lemma ReadyHaveLevel(g: Graph, round: nat, remaining: Graph, order: seq<string>, k: string)
    requires RoundState(g, round, remaining, order) && Closed(g) && k in remaining
    ensures remaining[k] == {} <==> !HasChain(g, k, round + 1)
    ensures remaining[k] == {} ==> Level(g, k) == round
  {
    assert forall d :: d in g[k] ==> (d in remaining[k] <==> HasChain(g, d, round));
    if remaining[k] == {} {
      LevelIs(g, k, round);
    } else {
      var d :| d in remaining[k];
      assert d in g[k] && HasChain(g, d, round);
    }
  }

  lemma SortedAreBelow(g: Graph, round: nat, remaining: Graph, order: seq<string>, k: string)
    requires RoundState(g, round, remaining, order) && k in order
    ensures Level(g, k) < round
  {
    assert !HasChain(g, k, round);
    if Level(g, k) >= round { ChainShortens(g, k, Level(g, k), round); }
  }

  ghost predicate IsReady(remaining: Graph, ready: seq<string>) {
    Ascending(ready, KeyLess) && Elements(ready) == set k | k in remaining && remaining[k] == {}
  }

  function Without(remaining: Graph, ready: seq<string>): Graph {
    map k | k in remaining && k !in ready :: remaining[k] - Elements(ready)
  }

  /** One round of the sort moves a whole level out of `remaining` ... */
  lemma RoundShrinks(g: Graph, round: nat, remaining: Graph, order: seq<string>, ready: seq<string>)
    requires RoundState(g, round, remaining, order) && Closed(g) && IsReady(remaining, ready)
    ensures forall k :: k in Without(remaining, ready) <==> HasChain(g, k, round + 1)
    ensures forall k :: k in Without(remaining, ready) ==>
      Without(remaining, ready)[k] == g[k] * Without(remaining, ready).Keys
    ensures forall k :: k in order + ready <==> k in g && k !in Without(remaining, ready)
  {
    var remaining' := Without(remaining, ready);
    assert forall k :: k in ready <==> k in Elements(ready);
    forall k ensures k in remaining' <==> HasChain(g, k, round + 1) {
      if k in remaining {
        ReadyHaveLevel(g, round, remaining, order, k);
      } else if HasChain(g, k, round + 1) {
        ChainShortens(g, k, round + 1, round);
      }
    }
    assert remaining'.Keys == remaining.Keys - Elements(ready);
  }

  /** ... and to the end of `order`, by key. */
  lemma RoundAppends(g: Graph, round: nat, remaining: Graph, order: seq<string>, ready: seq<string>)
    requires RoundState(g, round, remaining, order) && Closed(g) && IsReady(remaining, ready)
    ensures Ascending(order + ready, ByLevel(g))
  {
    var order' := order + ready;
    forall i, j | 0 <= i < j < |order'| ensures ByLevel(g)(order'[i], order'[j]) {
      var a, b := order'[i], order'[j];
      if i < |order| {
        assert a == order[i];
        SortedAreBelow(g, round, remaining, order, a);
      } else {
        assert a == ready[i - |order|] && a in Elements(ready);
        ReadyHaveLevel(g, round, remaining, order, a);
      }
      if j < |order| {
        assert b == order[j];
      } else {
        assert b == ready[j - |order|] && b in Elements(ready);
        ReadyHaveLevel(g, round, remaining, order, b);
      }
    }
  }

  lemma RoundAdvances(g: Graph, round: nat, remaining: Graph, order: seq<string>, ready: seq<string>)
    requires RoundState(g, round, remaining, order) && Closed(g) && IsReady(remaining, ready)
    ensures RoundState(g, round + 1, Without(remaining, ready), order + ready)
  {
    RoundShrinks(g, round, remaining, order, ready);
    RoundAppends(g, round, remaining, order, ready);
  }

  lemma RoundStart(g: Graph)
    requires Closed(g)
    ensures RoundState(g, 0, g, [])
  {
    forall k | k in g ensures g[k] == g[k] * g.Keys {}
  }

  /** Where every key still has a dependency among the keys, chains never end. */
  lemma {:induction false} StuckChainsGrow(g: Graph, keys: set<string>, k: string, n: nat)
    requires k in keys && forall x :: x in keys ==> x in g && g[x] * keys != {}
    ensures HasChain(g, k, n)
    decreases n
  {
    if n > 0 {
      var d :| d in g[k] * keys;
      StuckChainsGrow(g, keys, d, n - 1);
    }
  }

  lemma StuckMeansCycle(g: Graph, round: nat, remaining: Graph, order: seq<string>)
    requires RoundState(g, round, remaining, order) && Closed(g)
    requires remaining != map[] && IsReady(remaining, [])
    ensures Cyclic(g)
    ensures forall k :: k in remaining.Keys <==> LeadsToCycle(g, k)
  {
    forall x | x in remaining ensures x in g && g[x] * remaining.Keys != {} {
      assert x !in Elements<string>([]);
      ChainShortens(g, x, round, 0);
    }
    forall k ensures k in remaining <==> LeadsToCycle(g, k) {
      if k in remaining {
        StuckChainsGrow(g, remaining.Keys, k, |g|);
        LongChainMeetsCycle(g, k);
      }
      if LeadsToCycle(g, k) { CycleMakesLongChains(g, k, round); }
    }
    var k :| k in remaining;
    assert LeadsToCycle(g, k);
  }

  lemma DrainedMeansAcyclic(g: Graph, round: nat, order: seq<string>)
    requires RoundState(g, round, map[], order)
    ensures !Cyclic(g) && order == EnableOrder(g)
  {
    if Cyclic(g) {
      var k :| Reaches(g, k, k);
      assert LeadsToCycle(g, k);
      CycleMakesLongChains(g, k, round);
      assert false;
    }
    ByLevelIsStrict(g);
    assert Elements(order) == g.Keys;
    AscendingIsUnique(order, EnableOrder(g), ByLevel(g));
  }

  /** Append the ready keys and strike them from what remains. */
  method TakeReady(order0: seq<string>, remaining0: Graph, ready: seq<string>)
    returns (order: seq<string>, remaining: Graph)
    requires ready != [] && ready[0] in remaining0
    ensures order == order0 + ready
    ensures remaining == Without(remaining0, ready) && |remaining| < |remaining0|
  {
    order, remaining := order0, remaining0;
    for i := 0 to |ready|
      invariant order == order0 + ready[..i]
      invariant remaining == map k | k in remaining0 && k !in ready[..i] :: remaining0[k]
    {
      order := order + [ready[i]];
      remaining := remaining - {ready[i]};
    }
    assert ready[..|ready|] == ready;
    remaining := map k | k in remaining :: remaining[k] - Elements(ready);
    SubsetLength(remaining.Keys, remaining0.Keys - {ready[0]});
    assert |remaining| == |remaining.Keys| && |remaining0| == |remaining0.Keys|;
  }

  /** `sorted` of a set of keys. */
  method SortedKeys(keys: set<string>) returns (listing: seq<string>)
    ensures Ascending(listing, KeyLess) && Elements(listing) == keys
    ensures forall k :: k in listing <==> k in keys
  {
    KeyOrderIsStrict();
    listing := Sorted(keys, KeyLess);
    assert forall k :: k in listing <==> k in Elements(listing);
  }

  method ReadyKeys(remaining: Graph) returns (ready: seq<string>)
    ensures IsReady(remaining, ready)
    ensures ready != [] ==> ready[0] in remaining
  {
    ready := SortedKeys(set k | k in remaining && remaining[k] == {});
    if ready != [] { assert ready[0] in ready; }
  }

  /** Layered topological sort.  The cycle error lists exactly the keys on a cycle or leading into one. */
  method TopologicalOrder(modules: Modules) returns (r: Result<seq<string>, ModuleCatalogError>)
    requires Closed(DependsOn(modules))
    ensures r.Failure? <==> Cyclic(DependsOn(modules))
    ensures r.Success? ==> r.value == EnableOrder(DependsOn(modules))
    ensures r.Failure? ==>
      && r.error.DependencyCycle?
      && Ascending(r.error.keys, KeyLess)
      && forall k :: k in r.error.keys <==> LeadsToCycle(DependsOn(modules), k)
  {
    ghost var g := DependsOn(modules);
    ghost var round := 0;
    var remaining: Graph := DependsOn(modules);
    var order := [];
    RoundStart(g);
    while remaining != map[]
      invariant RoundState(g, round, remaining, order)
      decreases |remaining|
    {
      var ready := ReadyKeys(remaining);
      if ready == [] {
        StuckMeansCycle(g, round, remaining, order);
        var stuck := SortedKeys(remaining.Keys);
        return Failure(DependencyCycle(stuck));
      }
      RoundAdvances(g, round, remaining, order, ready);
      order, remaining := TakeReady(order, remaining, ready);
      round := round + 1;
    }
    DrainedMeansAcyclic(g, round, order);
    r := Success(order);
  }

  /** Check every manifest's dependencies, in listing order. */
  method FindDefect(manifests: seq<ModuleManifest>, modules: Modules) returns (r: Option<ModuleCatalogError>)
    requires modules == Installed(manifests) && DistinctKeys(manifests)
    ensures r.None? <==> AllSound(manifests)
    ensures r.Some? ==> Raises(manifests, r.value)
  {
    for i := 0 to |manifests|
      invariant forall j :: 0 <= j < i ==> Sound(modules, manifests[j])
    {
      r := ValidateDependencies(modules, manifests[i]);
      if r.Some? {
        assert manifests[i] in manifests;
        return;
      }
    }
    r := None;
  }

  lemma FillStep(manifests: seq<ModuleManifest>, i: nat)
    requires i < |manifests| && DistinctKeys(manifests[..i])
    ensures var manifest := manifests[i];
      && Installed(manifests[..i + 1]) == Installed(manifests[..i])[manifest.key := manifest]
      && (manifest.key in Installed(manifests[..i]) ==>
            Raises(manifests, DuplicateKey(manifest.key)) && !DistinctKeys(manifests))
      && (manifest.key !in Installed(manifests[..i]) ==> DistinctKeys(manifests[..i + 1]))
  {
    var front, manifest := manifests[..i], manifests[i];
    InstalledHolds(front);
    assert manifests[..i + 1] == front + [manifest];
    assert (front + [manifest])[..i] == front;
    if manifest.key in Installed(front) {
      var j :| 0 <= j < i && front[j] == Installed(front)[manifest.key];
      assert manifests[j].key == manifest.key;
    } else {
      forall j | 0 <= j < i ensures front[j].key != manifest.key { assert front[j] in front; }
    }
  }

  /** The manifests by key; the first key met twice raises. */
  method Fill(manifests: seq<ModuleManifest>) returns (r: Result<Modules, ModuleCatalogError>)
    ensures r.Success? <==> DistinctKeys(manifests)
    ensures r.Success? ==> r.value == Installed(manifests)
    ensures r.Failure? ==> Raises(manifests, r.error)
  {
    var modules: Modules := map[];
    for i := 0 to |manifests|
      invariant modules == Installed(manifests[..i])
      invariant DistinctKeys(manifests[..i])
    {
      FillStep(manifests, i);
      var manifest := manifests[i];
      if manifest.key in modules {
        return Failure(DuplicateKey(manifest.key));
      }
      modules := modules[manifest.key := manifest];
    }
    assert manifests[..|manifests|] == manifests;
    r := Success(modules);
  }

  /** The catalogue constructor: success exactly on legal manifests, else the earliest failing check. */
  method Construct(manifests: seq<ModuleManifest>) returns (r: Result<ModuleCatalog, ModuleCatalogError>)
    ensures r.Success? <==> Legal(manifests)
    ensures r.Success? ==>
      r.value == ModuleCatalog(Installed(manifests), EnableOrder(DependsOn(Installed(manifests))))
    ensures r.Success? ==> ValidCatalog(r.value)
    ensures r.Failure? ==> Raises(manifests, r.error)
  {
    var filled := Fill(manifests);
    if filled.Failure? {
      return Failure(filled.error);
    }
    var modules := filled.value;
    var defect := FindDefect(manifests, modules);
    if defect.Some? {
      return Failure(defect.value);
    }
    SoundMeansClosed(modules, manifests);
    var order := TopologicalOrder(modules);
    if order.Success? { LegalGivesValid(manifests); }
    r := match order
      case Success(keys) => Success(ModuleCatalog(modules, keys))
      case Failure(error) => Failure(error);
  }

  lemma SoundMeansClosed(modules: Modules, manifests: seq<ModuleManifest>)
    requires modules == Installed(manifests) && forall m :: m in manifests ==> Sound(modules, m)
    ensures Closed(DependsOn(modules))
  {
    InstalledHolds(manifests);
    forall k, d | k in modules && d in modules[k].dependsOn ensures d in modules {
      assert Sound(modules, modules[k]);
      assert Defect(modules, modules[k], d) == None;
    }
  }

  lemma SameManifestsSameModules(a: seq<ModuleManifest>, b: seq<ModuleManifest>)
    requires DistinctKeys(a) && DistinctKeys(b) && forall m :: m in a <==> m in b
    ensures Installed(a) == Installed(b) && (Legal(a) <==> Legal(b))
  {
    InstalledHolds(a);
    InstalledHolds(b);
    assert forall k :: k in Installed(a) ==> Installed(a)[k] in b;
    assert forall k :: k in Installed(b) ==> Installed(b)[k] in a;
  }

  /** The order in which manifests are listed never shows in the catalogue. */
  lemma ListingOrderIsIrrelevant(a: seq<ModuleManifest>, b: seq<ModuleManifest>)
    requires multiset(a) == multiset(b)
    ensures Legal(a) <==> Legal(b)
    ensures Legal(a) ==> Installed(a) == Installed(b)
  {
    assert forall m :: m in a <==> m in multiset(a);
    assert forall m :: m in b <==> m in multiset(b);
    if DistinctKeys(a) || DistinctKeys(b) {
      if DistinctKeys(a) {
        PermutationKeepsDistinctKeys(a, b);
      } else {
        PermutationKeepsDistinctKeys(b, a);
      }
      SameManifestsSameModules(a, b);
    }
  }

  lemma PermutationKeepsDistinctKeys(a: seq<ModuleManifest>, b: seq<ModuleManifest>)
    requires multiset(a) == multiset(b) && DistinctKeys(a)
    ensures DistinctKeys(b)
  {
    forall i, j | 0 <= i < j < |b| ensures b[i].key != b[j].key {
      if b[i].key == b[j].key {
        assert b[i] in multiset(b) && b[j] in multiset(b);
        var i' :| 0 <= i' < |a| && a[i'] == b[i];
        var j' :| 0 <= j' < |a| && a[j'] == b[j];
        if i' == j' {
          TwiceInSequence(b, i, j);
          OnceInSequence(a, i');
          assert false;
        }
        assert false;
      }
    }
  }

  lemma TwiceInSequence<T>(s: seq<T>, i: nat, j: nat)
    requires i < j < |s| && s[i] == s[j]
    ensures multiset(s)[s[i]] >= 2
  {
    assert s == s[..i] + [s[i]] + s[i + 1..j] + [s[j]] + s[j + 1..];
  }

  lemma OnceInSequence(s: seq<ModuleManifest>, i: nat)
    requires DistinctKeys(s) && i < |s|
    ensures multiset(s)[s[i]] == 1
  {
    assert s == s[..i] + [s[i]] + s[i + 1..];
    assert s[i] !in s[..i] && s[i] !in s[i + 1..];
  }

  // ---------------------------------------------------------------- queries on a built catalogue

  /** What construction establishes. */
  ghost predicate ValidCatalog(c: ModuleCatalog) {
    && Closed(DependsOn(c.modules)) && !Cyclic(DependsOn(c.modules))
    && Ascending(c.order, ByLevel(DependsOn(c.modules))) && Elements(c.order) == c.modules.Keys
    && (forall k, d :: k in c.modules && c.modules[k].core && d in c.modules[k].dependsOn ==>
          d in c.modules && c.modules[d].core)
  }

  lemma LegalGivesValid(manifests: seq<ModuleManifest>)
    requires Legal(manifests)
    ensures ValidCatalog(ModuleCatalog(Installed(manifests), EnableOrder(DependsOn(Installed(manifests)))))
  {
    var modules := Installed(manifests);
    SoundMeansClosed(modules, manifests);
    InstalledHolds(manifests);
    forall k, d | k in modules && modules[k].core && d in modules[k].dependsOn ensures modules[d].core {
      assert Defect(modules, modules[k], d) == None;
    }
  }

  function CoreKeys(c: ModuleCatalog): set<string> {
    set k | k in c.modules && c.modules[k].core
  }

  ghost function DependenciesOf(c: ModuleCatalog, key: string): seq<string> {
    Restrict(c.order, Reachable(DependsOn(c.modules), key))
  }

  ghost function DependentsOf(c: ModuleCatalog, key: string): seq<string> {
    Restrict(c.order, Reaching(DependsOn(c.modules), key))
  }

  /** Everything found so far is reachable, and everything reachable is found or behind the stack. */
  ghost predicate Exploring(g: Graph, key: string, needed: set<string>, stack: seq<string>) {
    && key in g
    && needed <= Reachable(g, key)
    && Elements(stack) <= Reachable(g, key)
    && g[key] <= needed + Elements(stack)
    && (forall k :: k in needed && k in g ==> g[k] <= needed + Elements(stack))
  }

  lemma ExploreStart(g: Graph, key: string, stack: seq<string>)
    requires Closed(g) && key in g && Elements(stack) == g[key]
    ensures Exploring(g, key, {}, stack)
  {
    forall d | d in g[key] ensures d in Reachable(g, key) { EdgeReaches(g, key, d); }
  }

  lemma ExploreStep(g: Graph, key: string, needed: set<string>, stack: seq<string>, d: string, more: seq<string>)
    requires Closed(g) && key in g && Exploring(g, key, needed, stack + [d]) && d in g && Elements(more) == g[d]
    ensures Exploring(g, key, needed + {d}, stack + more)
  {
    assert Elements(stack + [d]) == Elements(stack) + {d};
    assert Elements(stack + more) == Elements(stack) + g[d];
    forall e | e in g[d] ensures e in Reachable(g, key) {
      EdgeReaches(g, d, e);
      ReachesTransitive(g, key, d, e);
    }
  }

  lemma ExploreSkip(g: Graph, key: string, needed: set<string>, stack: seq<string>, d: string)
    requires key in g && Exploring(g, key, needed, stack + [d]) && d in needed
    ensures Exploring(g, key, needed, stack)
  {
    assert Elements(stack + [d]) == Elements(stack) + {d};
  }

  lemma ExploreEnd(g: Graph, key: string, needed: set<string>)
    requires Closed(g) && key in g && Exploring(g, key, needed, [])
    ensures needed == Reachable(g, key)
  {
    assert Elements<string>([]) == {};
    forall k | k in Reachable(g, key) ensures k in needed {
      var p :| PathBetween(g, p, key, k);
      ClosedSetHoldsReachable(g, key, needed, p);
    }
  }

  /** Worklist closure: exactly the keys reachable over one or more edges, in enable order. */
  method Dependencies(c: ModuleCatalog, key: string) returns (r: Result<seq<string>, ModuleCatalogError>)
    requires ValidCatalog(c)
    ensures key !in c.modules ==> r == Failure(UnknownModule(key))
    ensures key in c.modules ==> r == Success(DependenciesOf(c, key))
  {
    if key !in c.modules {
      return Failure(UnknownModule(key));
    }
    ghost var g := DependsOn(c.modules);
    var needed: set<string> := {};
    var stack := c.modules[key].dependsOn;
    ExploreStart(g, key, stack);
    while stack != []
      invariant Exploring(g, key, needed, stack)
      decreases g.Keys - needed, |stack|
    {
      var rest, dependency := stack[..|stack| - 1], stack[|stack| - 1];
      assert stack == rest + [dependency];
      assert dependency in Elements(stack);
      if dependency !in needed {
        ExploreStep(g, key, needed, rest, dependency, c.modules[dependency].dependsOn);
        needed := needed + {dependency};
        stack := rest + c.modules[dependency].dependsOn;
      } else {
        ExploreSkip(g, key, needed, rest, dependency);
        stack := rest;
      }
    }
    ExploreEnd(g, key, needed);
    r := Success(Restrict(c.order, needed));
  }

  lemma OrderHoldsKeys(c: ModuleCatalog, key: string)
    requires ValidCatalog(c)
    ensures key in c.order <==> key in c.modules
  {
    assert key in c.order <==> key in Elements(c.order);
  }

  lemma FoundAmongDependencies(c: ModuleCatalog, k: string, key: string)
    requires ValidCatalog(c) && k in c.order && key in c.modules
    ensures k in c.modules
    ensures key in DependenciesOf(c, k) <==> Reaches(DependsOn(c.modules), k, key)
  {
    OrderHoldsKeys(c, k);
    OrderHoldsKeys(c, key);
  }

  method IsDependency(c: ModuleCatalog, k: string, key: string) returns (found: bool)
    requires ValidCatalog(c) && k in c.order && key in c.modules
    ensures found <==> k in Reaching(DependsOn(c.modules), key)
  {
    FoundAmongDependencies(c, k, key);
    var dependencies := Dependencies(c, k);
    found := key in dependencies.value;
  }

  /** The modules that reach `key`, found by asking each module in turn. */
  method Dependents(c: ModuleCatalog, key: string) returns (r: Result<seq<string>, ModuleCatalogError>)
    requires ValidCatalog(c)
    ensures key !in c.modules ==> r == Failure(UnknownModule(key))
    ensures key in c.modules ==> r == Success(DependentsOf(c, key))
  {
    if key !in c.modules {
      return Failure(UnknownModule(key));
    }
    ghost var wanted := Reaching(DependsOn(c.modules), key);
    var found := [];
    for i := 0 to |c.order|
      invariant found == Restrict(c.order[..i], wanted)
    {
      var k := c.order[i];
      var isDependent := IsDependency(c, k, key);
      if isDependent {
        found := found + [k];
      }
      RestrictAppends(c.order[..i], [k], wanted);
      assert [k][1..] == [];
      assert c.order[..i + 1] == c.order[..i] + [k];
    }
    assert c.order[..|c.order|] == c.order;
    r := Success(found);
  }

  /** Dependencies and dependents are converse relations, and neither ever holds the key itself. */
  lemma DependentsAreConverse(c: ModuleCatalog, a: string, b: string)
    requires ValidCatalog(c) && a in c.modules && b in c.modules
    ensures a in DependenciesOf(c, b) <==> b in DependentsOf(c, a)
    ensures a in DependenciesOf(c, b) ==> b !in DependenciesOf(c, a)
    ensures a !in DependenciesOf(c, a) && a !in DependentsOf(c, a)
  {
    OrderHoldsKeys(c, a);
    OrderHoldsKeys(c, b);
    var g := DependsOn(c.modules);
    if Reaches(g, a, b) && Reaches(g, b, a) {
      ReachesTransitive(g, a, b, a);
      assert false;
    }
  }

  /** `dependencies` lists each key once, each after everything it needs itself. */
  lemma DependenciesAreOrdered(c: ModuleCatalog, key: string, i: nat, j: nat)
    requires ValidCatalog(c) && i < |DependenciesOf(c, key)| && j < |DependenciesOf(c, key)|
    ensures DependenciesOf(c, key)[i] == DependenciesOf(c, key)[j] ==> i == j
    ensures Reaches(DependsOn(c.modules), DependenciesOf(c, key)[i], DependenciesOf(c, key)[j]) ==> j < i
  {
    var g := DependsOn(c.modules);
    var keys := DependenciesOf(c, key);
    ByLevelIsStrict(g);
    RestrictAscending(c.order, Reachable(g, key), ByLevel(g));
    assert forall x :: !ByLevel(g)(x, x);
    if i < j { assert ByLevel(g)(keys[i], keys[j]); }
    if j < i { assert ByLevel(g)(keys[j], keys[i]); }
    if Reaches(g, keys[i], keys[j]) { ReachesDescends(g, keys[i], keys[j]); }
  }
}
