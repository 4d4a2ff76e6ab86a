/** `upgrade_all` gives every tenant what a visit of its own would have given it. */
module UpgradeRounds {
  import opened Results
  import opened Ordering
  import opened Registry
  import opened Provisioning
  import opened ProvisioningCalls
  import opened TenantProvisioners
  import Recovery = ProvisioningRecovery

  /** Database names are unique in the registry, and no call is at work. */
  ghost predicate Settled(s: State) {
    && s.runs == map[]
    && forall t, u :: t in s.tenants && u in s.tenants && s.tenants[t].place == s.tenants[u].place ==> t == u
  }

  lemma VisitIsLocal(s: State, t: TenantId, faults: Faults, u: TenantId)
    requires Settled(s) && t in s.tenants && u in s.tenants && u != t
    ensures Alike(UpgradeCall(s, t, faults), s, u, s.tenants[u].place)
  {
    var place := s.tenants[t].place;
    DriveIsLocal(Start(s, t, Migrating(place, false)), t, faults, place);
  }

  lemma VisitKeepsSettled(s: State, t: TenantId, faults: Faults)
    requires Settled(s) && t in s.tenants
    ensures var s' := UpgradeCall(s, t, faults);
      && Settled(s') && s'.tenants.Keys == s.tenants.Keys
      && forall u :: u in s.tenants ==> s'.tenants[u].place == s.tenants[u].place
  {
    var place := s.tenants[t].place;
    var started := Start(s, t, Migrating(place, false));
    DriveIsLocal(started, t, faults, place);
    var s' := UpgradeCall(s, t, faults);
    forall u, v | u in s'.tenants && v in s'.tenants && s'.tenants[u].place == s'.tenants[v].place ensures u == v {
      assert s.tenants[u].place == s.tenants[v].place;
    }
  }

  lemma VisitDependsOnOwn(a: State, b: State, t: TenantId, faults: Faults)
    requires t in a.tenants && Alike(a, b, t, a.tenants[t].place)
    ensures Alike(UpgradeCall(a, t, faults), UpgradeCall(b, t, faults), t, a.tenants[t].place)
  {
    var place := a.tenants[t].place;
    DriveDependsOnOwn(Start(a, t, Migrating(place, false)), Start(b, t, Migrating(place, false)), t, faults, place);
  }

  lemma {:induction false} RoundKeepsSettled(s: State, ids: seq<TenantId>, faults: map<TenantId, Faults>)
    requires Settled(s)
    ensures var s' := UpgradeEach(s, ids, faults);
      && Settled(s') && s'.tenants.Keys == s.tenants.Keys
      && forall u :: u in s.tenants ==> s'.tenants[u].place == s.tenants[u].place
  {
    if ids != [] {
      var front, t := ids[..|ids| - 1], ids[|ids| - 1];
      RoundKeepsSettled(s, front, faults);
      var s' := UpgradeEach(s, front, faults);
      if t in s'.tenants { VisitKeepsSettled(s', t, FaultsOf(faults, t)); }
    }
  }

  /** Visits to others leave a tenant's row and database as they were. */
  lemma {:induction false} RoundLeavesOthers(s: State, ids: seq<TenantId>, faults: map<TenantId, Faults>, u: TenantId)
    requires Settled(s) && u in s.tenants && u !in ids
    ensures Alike(UpgradeEach(s, ids, faults), s, u, s.tenants[u].place)
  {
    if ids != [] {
      var front, t := ids[..|ids| - 1], ids[|ids| - 1];
      RoundLeavesOthers(s, front, faults, u);
      RoundKeepsSettled(s, front, faults);
      var s' := UpgradeEach(s, front, faults);
      if t in s'.tenants { VisitIsLocal(s', t, FaultsOf(faults, t), u); }
    }
  }

  /** Whatever befalls the other visits, a visited tenant's row and database end as they would have if it had
      been the only one. */
  lemma {:induction false} RoundIsEachAlone(s: State, ids: seq<TenantId>, faults: map<TenantId, Faults>, u: TenantId)
    requires Settled(s) && u in s.tenants && u in ids && Distinct(ids)
    ensures Alike(UpgradeEach(s, ids, faults), UpgradeCall(s, u, FaultsOf(faults, u)), u, s.tenants[u].place)
  {
    var front, t := ids[..|ids| - 1], ids[|ids| - 1];
    assert ids == front + [t];
    RoundKeepsSettled(s, front, faults);
    var s' := UpgradeEach(s, front, faults);
    if t == u {
      RoundLeavesOthers(s, front, faults, u);
      VisitDependsOnOwn(s', s, u, FaultsOf(faults, u));
    } else {
      RoundIsEachAlone(s, front, faults, u);
      if t in s'.tenants { VisitIsLocal(s', t, FaultsOf(faults, t), u); }
    }
  }

  // ---------------------------------------------------------------- whom a round reaches

  /** No ready tenant listed before `u` meets a raising recording. */
  ghost predicate Reached(tenants: Tenants, faults: map<TenantId, Faults>, u: TenantId) {
    forall v: TenantId :: ReadyTenant(tenants, v) && v < u ==> !RecordingRaisesFor(faults, v)
  }

  lemma {:induction false} FirstRaising(ids: seq<TenantId>, faults: map<TenantId, Faults>, k: nat) returns (n: nat)
    requires k <= |ids| && AllRecorded(ids[..k], faults)
    ensures k <= n <= |ids| && AllRecorded(ids[..n], faults) && (n < |ids| ==> RecordingRaisesFor(faults, ids[n]))
    decreases |ids| - k
  {
    n := k;
    if k < |ids| && !RecordingRaisesFor(faults, ids[k]) {
      assert ids[..k + 1] == ids[..k] + [ids[k]];
      n := FirstRaising(ids, faults, k + 1);
    }
  }

  /** A round visits a prefix of the list, up to the first recording that raises. */
  lemma VisitedIsPrefix(ids: seq<TenantId>, faults: map<TenantId, Faults>) returns (n: nat)
    ensures n <= |ids| && Visited(ids, faults) == ids[..n]
    ensures forall k :: 0 <= k < |ids| ==> (k < n <==> AllRecorded(ids[..k], faults))
  {
    var first := FirstRaising(ids, faults, 0);
    VisitedUpTo(ids, faults, first);
    n := if first < |ids| then first + 1 else first;
    forall k | 0 <= k < |ids| ensures k < n <==> AllRecorded(ids[..k], faults) {
      if k < n { assert AllRecorded(ids[..first][..k], faults) && ids[..first][..k] == ids[..k]; }
      if k >= n { assert ids[..k][first] == ids[first]; }
    }
  }

  /** A ready tenant is visited exactly when no earlier visit's recording raises. */
  lemma VisitedIffReached(tenants: Tenants, faults: map<TenantId, Faults>, u: TenantId)
    requires ReadyTenant(tenants, u)
    ensures var visited := Visited(WithDatabaseStatus(tenants, Ready), faults);
      (u in visited <==> Reached(tenants, faults, u)) && Distinct(visited)
  {
    var ids := WithDatabaseStatus(tenants, Ready);
    var k := ListedInOrder(tenants, u);
    var n := VisitedIsPrefix(ids, faults);
    ListedOnce(tenants, Ready);
    assert ids[k] in ids[..n] <==> k < n;
    ReachedIffRecorded(tenants, faults, u, k);
  }

  lemma ReachedIffRecorded(tenants: Tenants, faults: map<TenantId, Faults>, u: TenantId, k: nat)
    requires ReadyTenant(tenants, u) && k < |WithDatabaseStatus(tenants, Ready)|
    requires var ids := WithDatabaseStatus(tenants, Ready); forall j :: 0 <= j < |ids| ==> (ids[j] < u <==> j < k)
    ensures AllRecorded(WithDatabaseStatus(tenants, Ready)[..k], faults) <==> Reached(tenants, faults, u)
  {
    var ids := WithDatabaseStatus(tenants, Ready);
    if AllRecorded(ids[..k], faults) {
      forall v: TenantId | ReadyTenant(tenants, v) && v < u ensures !RecordingRaisesFor(faults, v) {
        var j := ListedInOrder(tenants, v);
        assert ids[j] < u && ids[..k][j] == v;
      }
    }
    if Reached(tenants, faults, u) {
      ListedOnce(tenants, Ready);
      forall j | 0 <= j < k ensures !RecordingRaisesFor(faults, ids[..k][j]) {
        assert ReadyTenant(tenants, ids[j]) && ids[j] < u;
      }
    }
  }

  lemma ListedInOrder(tenants: Tenants, u: TenantId) returns (k: nat)
    requires ReadyTenant(tenants, u)
    ensures var ids := WithDatabaseStatus(tenants, Ready);
      && k < |ids| && ids[k] == u
      && (forall j :: 0 <= j < |ids| ==> (ids[j] < u <==> j < k))
  {
    var ids := WithDatabaseStatus(tenants, Ready);
    ListedAscending(tenants, Ready);
    k :| 0 <= k < |ids| && ids[k] == u;
  }

  /** `upgrade_all` as a whole: a reached tenant ends as after a visit of its own, whatever befalls the others; one
      that is not reached is left as it was. */
  lemma RoundReaches(s: State, faults: map<TenantId, Faults>, u: TenantId)
    requires Settled(s) && ReadyTenant(s.tenants, u)
    ensures var end := UpgradeEach(s, Visited(WithDatabaseStatus(s.tenants, Ready), faults), faults);
      Alike(end, if Reached(s.tenants, faults, u) then UpgradeCall(s, u, FaultsOf(faults, u)) else s,
            u, s.tenants[u].place)
  {
    var visited := Visited(WithDatabaseStatus(s.tenants, Ready), faults);
    VisitedIffReached(s.tenants, faults, u);
    if u in visited {
      RoundIsEachAlone(s, visited, faults, u);
    } else {
      RoundLeavesOthers(s, visited, faults, u);
    }
  }

  predicate Upgradable(s: State, place: Place) {
    place.server in s.servers && place in s.databases && s.databases[place].revision <= s.head
  }

  /** A ready tenant that meets no fault and is reached is upgraded exactly when its database is there and not ahead
      of this release, however the others fare; otherwise it ends failed with its recorded revision kept.  One that
      is not reached keeps its row and database. */
  lemma UpgradeAllReaches(s: State, faults: map<TenantId, Faults>, u: TenantId)
    requires Settled(s) && ReadyTenant(s.tenants, u) && FaultsOf(faults, u) == map[]
    ensures var end := UpgradeEach(s, Visited(WithDatabaseStatus(s.tenants, Ready), faults), faults);
      var place := s.tenants[u].place;
      && u in end.tenants
      && (Reached(s.tenants, faults, u) && Upgradable(s, place) ==>
            && end.tenants[u] == s.tenants[u].(schemaRevision := Some(s.head), lastMigrationFailed := false)
            && place in end.databases && end.databases[place] == s.databases[place].(revision := s.head))
      && (Reached(s.tenants, faults, u) && !Upgradable(s, place) ==>
            && end.tenants[u] == s.tenants[u].(status := Failed, lastMigrationFailed := true)
            && SameDatabase(end.databases, s.databases, place))
      && (!Reached(s.tenants, faults, u) ==>
            end.tenants[u] == s.tenants[u] && SameDatabase(end.databases, s.databases, place))
  {
    RoundReaches(s, faults, u);
    Recovery.UpgradeEnds(s, u);
  }

  /** The promise that failures don't stop others, without the condition, is not kept: recording the first tenant's
      outcome raises, and the second, which meets no fault, stays at its old revision. */
  lemma RecordingCanStopTheRound() returns (s: State, faults: map<TenantId, Faults>, u: TenantId)
    ensures Settled(s) && ReadyTenant(s.tenants, u) && FaultsOf(faults, u) == map[]
    ensures Upgradable(s, s.tenants[u].place)
    ensures var end := UpgradeEach(s, Visited(WithDatabaseStatus(s.tenants, Ready), faults), faults);
      u in end.tenants && end.tenants[u].schemaRevision != Some(s.head)
  {
    var first, second := Place("default", "first"), Place("default", "second");
    var database := PhysicalDatabase(false, {}, 1, None);
    s := State(2, [], {"default"},
               map[1 := Tenant("A", true, first, Ready, Some(1), false),
                   2 := Tenant("B", true, second, Ready, Some(1), false)],
               map[first := database.(owner := Some(1)), second := database.(owner := Some(2))], {}, map[]);
    faults, u := map[1 := map[Operation.Record := false]], 2;
    assert first.name != second.name;
    assert ReadyTenant(s.tenants, 1) && RecordingRaisesFor(faults, 1);
    assert !Reached(s.tenants, faults, u);
    UpgradeAllReaches(s, faults, u);
  }
}
