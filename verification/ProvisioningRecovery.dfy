/** Crash recovery: what a failure-free `complete` achieves, and from which states. */
module ProvisioningRecovery {
  import opened Results
  import opened Ordering
  import opened Registry
  import opened Provisioning
  import opened ProvisioningCalls

  const NO_FAULTS: Faults := map[]

  /** What an operator can check before calling `complete`. */
  predicate Recoverable(s: State, t: TenantId)
    requires t in s.tenants
  {
    var row := s.tenants[t];
    && row.place.server in s.servers
    && (if row.place in s.databases
        then s.databases[row.place].revision <= s.head && s.databases[row.place].owner in {None, Some(t)}
        else row.schemaRevision == None)
  }

  function Found(s: State, place: Place): PhysicalDatabase {
    if place in s.databases then s.databases[place] else NEW_DATABASE
  }

  /** The state every successful `complete` ends in. */
  function Restored(s: State, t: TenantId): State
    requires t in s.tenants
  {
    var place := s.tenants[t].place;
    s.(tenants := RecordDatabaseState(s.tenants, t, Ready, Some(s.head), false),
       databases := s.databases[place :=
         PhysicalDatabase(false, Found(s, place).granted + Elements(s.roles), s.head, Some(t))])
  }

  /** What a `complete` that fails leaves on the servers: a database ahead of this release, or bound to another
      tenant, is granted before the failure shows, and in the second case migrated too. */
  function LeftBehind(s: State, t: TenantId): Databases
    requires t in s.tenants
  {
    var place := s.tenants[t].place;
    if place.server !in s.servers || place !in s.databases then s.databases
    else
      var db := s.databases[place].(publicConnect := false, granted := s.databases[place].granted + Elements(s.roles));
      s.databases[place := if db.revision > s.head then db else db.(revision := s.head)]
  }

  function RecordedFailure(s: State, t: TenantId, databases: Databases): State {
    s.(tenants := RecordDatabaseState(s.tenants, t, Failed, None, true), databases := databases, runs := s.runs - {t})
  }

  lemma FailingEnds(s: State, t: TenantId)
    requires t in s.runs && s.runs[t].Failing?
    ensures Drive(s, t, NO_FAULTS) == RecordedFailure(s, t, s.databases)
  {}

  /** From the binding on. */
  lemma BindingEnds(s: State, t: TenantId, place: Place)
    requires t in s.runs && s.runs[t] == Binding(place, s.head)
    requires place in s.databases && s.databases[place].revision == s.head && s.head >= 1
    ensures var owner := s.databases[place].owner;
      Drive(s, t, NO_FAULTS) ==
      if owner in {None, Some(t)}
      then s.(tenants := RecordDatabaseState(s.tenants, t, Ready, Some(s.head), false),
              databases := s.databases[place := s.databases[place].(owner := Some(t))], runs := s.runs - {t})
      else RecordedFailure(s, t, s.databases)
  {
    var s' := Act(s, t);
    assert Drive(s, t, NO_FAULTS) == Drive(s', t, NO_FAULTS) == Act(s', t);
    assert s'.runs - {t} == s.runs - {t};
    if s.databases[place].owner == Some(t) {
      assert s.databases[place := s.databases[place].(owner := Some(t))] == s.databases;
    }
  }

  /** From the migration on. */
  lemma MigratingEnds(s: State, t: TenantId, place: Place)
    requires t in s.runs && s.runs[t] == Migrating(place, true)
    requires place in s.databases && place.server in s.servers && s.head >= 1
    ensures var db := s.databases[place];
      Drive(s, t, NO_FAULTS) ==
      if db.revision > s.head then RecordedFailure(s, t, s.databases)
      else if db.owner in {None, Some(t)}
      then s.(tenants := RecordDatabaseState(s.tenants, t, Ready, Some(s.head), false),
              databases := s.databases[place := db.(revision := s.head, owner := Some(t))], runs := s.runs - {t})
      else RecordedFailure(s, t, s.databases[place := db.(revision := s.head)])
  {
    var s1 := Act(s, t);
    assert Drive(s, t, NO_FAULTS) == Drive(s1, t, NO_FAULTS);
    assert s1.runs - {t} == s.runs - {t};
    if s.databases[place].revision > s.head {
      FailingEnds(s1, t);
    } else {
      var s2 := Act(s1, t);
      assert Drive(s1, t, NO_FAULTS) == Drive(s2, t, NO_FAULTS);
      assert s2.runs - {t} == s.runs - {t};
      BindingEnds(s2, t, place);
      var db := s.databases[place];
      assert s2.databases[place := s2.databases[place].(owner := Some(t))]
          == s.databases[place := db.(revision := s.head, owner := Some(t))];
    }
  }

  /** Grants from role `done - 1` on, then the rest. */
  lemma {:induction false} GrantingEnds(s: State, t: TenantId, place: Place, done: nat)
    requires t in s.runs && s.runs[t] == Granting(place, done) && 1 <= done <= |s.roles|
    requires place in s.databases
    ensures Drive(s, t, NO_FAULTS) == Drive(AllGranted(s, t, place, done), t, NO_FAULTS)
    decreases |s.roles| - done
  {
    OneGrant(s, t, place, done);
    OneStep(s, t);
    if done < |s.roles| {
      GrantingEnds(Act(s, t), t, place, done + 1);
    }
  }

  lemma OneStep(s: State, t: TenantId)
    requires t in s.runs && Underway(s.runs[t])
    ensures t in Act(s, t).runs && Drive(s, t, NO_FAULTS) == Drive(Act(s, t), t, NO_FAULTS)
  {}

  lemma OneGrant(s: State, t: TenantId, place: Place, done: nat)
    requires t in s.runs && s.runs[t] == Granting(place, done) && 1 <= done <= |s.roles| && place in s.databases
    ensures done == |s.roles| ==> Act(s, t) == AllGranted(s, t, place, done)
    ensures var s' := Act(s, t);
      done < |s.roles| ==>
        && t in s'.runs && s'.runs[t] == Granting(place, done + 1) && place in s'.databases && s'.roles == s.roles
        && AllGranted(s', t, place, done + 1) == AllGranted(s, t, place, done)
  {
    GrantSplits(s.databases[place].granted, s.roles, done);
  }

  lemma Revocation(s: State, t: TenantId, place: Place)
    requires t in s.runs && s.runs[t] == Granting(place, 0) && place in s.databases
    ensures s.roles == [] ==> Act(s, t) == GrantedAll(s, t, place)
    ensures var s' := Act(s, t);
      s.roles != [] ==>
        && t in s'.runs && s'.runs[t] == Granting(place, 1) && place in s'.databases && s'.roles == s.roles
        && AllGranted(s', t, place, 1) == GrantedAll(s, t, place)
  {
    assert s.roles[0..] == s.roles;
    var db := s.databases[place];
    if s.roles == [] { assert db.granted + Elements(s.roles) == db.granted; }
  }

  lemma GrantSplits(granted: set<string>, roles: seq<string>, done: nat)
    requires 1 <= done <= |roles|
    ensures granted + Elements(roles[done - 1..]) == granted + {roles[done - 1]} + Elements(roles[done..])
    ensures done == |roles| ==> granted + Elements(roles[done - 1..]) == granted + {roles[done - 1]}
  {
    assert roles[done - 1..] == [roles[done - 1]] + roles[done..];
  }

  function AllGranted(s: State, t: TenantId, place: Place, done: nat): State
    requires place in s.databases && 1 <= done <= |s.roles| + 1
  {
    var db := s.databases[place];
    s.(databases := s.databases[place := db.(granted := db.granted + Elements(s.roles[done - 1..]))],
       runs := s.runs[t := Migrating(place, true)])
  }

  /** From the revocation on. */
  lemma RevokingEnds(s: State, t: TenantId, place: Place)
    requires t in s.runs && s.runs[t] == Granting(place, 0) && place in s.databases
    ensures Drive(s, t, NO_FAULTS) == Drive(GrantedAll(s, t, place), t, NO_FAULTS)
  {
    OneStep(s, t);
    Revocation(s, t, place);
    if s.roles != [] { GrantingEnds(Act(s, t), t, place, 1); }
  }

  /** From the grants on, in a world whose database exists. */
  lemma ExistingEnds(s: State, t: TenantId, place: Place)
    requires t in s.tenants && place == s.tenants[t].place && t in s.runs && s.runs[t] == Granting(place, 0)
    requires place in s.databases && place.server in s.servers && s.head >= 1
    ensures var db, end := s.databases[place], Drive(s, t, NO_FAULTS);
      if db.revision <= s.head && db.owner in {None, Some(t)}
      then end == Restored(s, t).(runs := s.runs - {t})
      else end == RecordedFailure(s, t, LeftBehind(s, t))
  {
    RevokingEnds(s, t, place);
    var s' := GrantedAll(s, t, place);
    MigratingEnds(s', t, place);
    GrantedAllThenOwned(s, t, place);
  }

  function GrantedAll(s: State, t: TenantId, place: Place): State
    requires place in s.databases
  {
    var db := s.databases[place];
    s.(databases := s.databases[place := db.(publicConnect := false, granted := db.granted + Elements(s.roles))],
       runs := s.runs[t := Migrating(place, true)])
  }

  lemma GrantedAllThenOwned(s: State, t: TenantId, place: Place)
    requires t in s.tenants && place == s.tenants[t].place && place in s.databases
    ensures var s' := GrantedAll(s, t, place);
      && s'.runs - {t} == s.runs - {t}
      && s'.databases[place := s'.databases[place].(revision := s.head, owner := Some(t))] == Restored(s, t).databases
      && (place.server in s.servers && s.databases[place].revision > s.head ==> LeftBehind(s, t) == s'.databases)
      && (place.server in s.servers && s.databases[place].revision <= s.head ==>
            LeftBehind(s, t) == s'.databases[place := s'.databases[place].(revision := s.head)])
  {}

  lemma LookFails(s: State, t: TenantId, place: Place)
    requires t in s.tenants && place == s.tenants[t].place && t !in s.runs
    requires place.server !in s.servers || (place !in s.databases && s.tenants[t].schemaRevision.Some?)
    ensures Drive(Start(s, t, Looking(place, s.tenants[t].schemaRevision)), t, NO_FAULTS)
      == RecordedFailure(s, t, s.databases)
  {
    var s0 := Start(s, t, Looking(place, s.tenants[t].schemaRevision));
    OneStep(s0, t);
    FailingEnds(Act(s0, t), t);
    assert Act(s0, t).runs - {t} == s.runs - {t};
  }

  lemma LookFinds(s: State, t: TenantId, place: Place)
    requires t in s.tenants && place == s.tenants[t].place && t !in s.runs
    requires place in s.databases && place.server in s.servers && s.head >= 1
    ensures var db := s.databases[place];
      var end := Drive(Start(s, t, Looking(place, s.tenants[t].schemaRevision)), t, NO_FAULTS);
      if db.revision <= s.head && db.owner in {None, Some(t)} then end == Restored(s, t)
      else end == RecordedFailure(s, t, LeftBehind(s, t))
  {
    var s0 := Start(s, t, Looking(place, s.tenants[t].schemaRevision));
    OneStep(s0, t);
    var s1 := Act(s0, t);
    assert s1.runs - {t} == s.runs - {t} == s.runs;
    ExistingEnds(s1, t, place);
  }

  lemma LookCreates(s: State, t: TenantId, place: Place)
    requires t in s.tenants && place == s.tenants[t].place && t !in s.runs
    requires place !in s.databases && s.tenants[t].schemaRevision == None && place.server in s.servers && s.head >= 1
    ensures Drive(Start(s, t, Looking(place, None)), t, NO_FAULTS) == Restored(s, t)
  {
    var s0 := Start(s, t, Looking(place, None));
    OneStep(s0, t);
    OneStep(Act(s0, t), t);
    var s2 := Act(Act(s0, t), t);
    Creation(s, t, place);
    ExistingEnds(s2, t, place);
  }

  lemma Creation(s: State, t: TenantId, place: Place)
    requires t in s.tenants && place == s.tenants[t].place && t !in s.runs
    requires place !in s.databases && place.server in s.servers
    ensures var s0 := Start(s, t, Looking(place, None));
      && Act(s0, t).runs[t] == Creating(place)
      && var s2 := Act(Act(s0, t), t);
      && t in s2.runs && s2.runs[t] == Granting(place, 0) && s2.runs - {t} == s.runs && place in s2.databases
      && s2 == s.(databases := s2.databases, runs := s2.runs)
      && Restored(s2, t).databases == Restored(s, t).databases
  {
    var s0 := Start(s, t, Looking(place, None));
    var s2 := Act(Act(s0, t), t);
    assert s2.runs - {t} == s.runs;
    assert s2.databases == s.databases[place := NEW_DATABASE];
  }

  /** A failure-free `complete` makes the tenant ready exactly when the state was recoverable, and then there
      is one state it can end in: the database exists, closed to PUBLIC and granted to the runtime roles, at the head
      revision and bound to this tenant; the row says so; nothing else has changed.  A failure is recorded with the
      revision kept, and never creates anything. */
  lemma CompleteRecovers(s: State, t: TenantId)
    requires t in s.tenants && t !in s.runs && s.head >= 1
    ensures ReadyTenant(CompleteCall(s, t, NO_FAULTS).tenants, t) <==> Recoverable(s, t)
    ensures Recoverable(s, t) ==> CompleteCall(s, t, NO_FAULTS) == Restored(s, t)
    ensures !Recoverable(s, t) ==> CompleteCall(s, t, NO_FAULTS) == RecordedFailure(s, t, LeftBehind(s, t))
  {
    var place := s.tenants[t].place;
    var s0 := Start(s, t, Looking(place, s.tenants[t].schemaRevision));
    OneStep(s0, t);
    if place.server !in s.servers || (place !in s.databases && s.tenants[t].schemaRevision.Some?) {
      LookFails(s, t, place);
    } else if place in s.databases {
      LookFinds(s, t, place);
    } else {
      LookCreates(s, t, place);
    }
  }

  /** A second `complete` changes nothing. */
  lemma CompleteIsIdempotent(s: State, t: TenantId)
    requires t in s.tenants && t !in s.runs && s.head >= 1 && Recoverable(s, t)
    ensures CompleteCall(Restored(s, t), t, NO_FAULTS) == Restored(s, t)
  {
    var e := Restored(s, t);
    var place := s.tenants[t].place;
    CompleteRecovers(e, t);
    var granted := e.databases[place].granted;
    assert granted + Elements(s.roles) == granted;
    assert Restored(e, t).databases == e.databases;
    assert Restored(e, t).tenants == e.tenants;
  }

  /** A `complete` whose recording raised is made good by the next one. */
  lemma RetryAfterLostRecording(s: State, t: TenantId)
    requires t in s.tenants && t !in s.runs && s.head >= 1 && Recoverable(s, t)
    ensures var e := CompleteCall(s, t, map[Record := false]);
      && e == Restored(s, t).(tenants := s.tenants)
      && CompleteCall(e, t, NO_FAULTS) == Restored(s, t)
  {
    var place := s.tenants[t].place;
    RecordingRaises(Start(s, t, Looking(place, s.tenants[t].schemaRevision)), t, map[Record := false]);
    assert map[Record := false] - {Record} == NO_FAULTS;
    CompleteRecovers(s, t);
    var e := Restored(s, t).(tenants := s.tenants);
    CompleteRecovers(e, t);
    var granted := e.databases[place].granted;
    assert granted + Elements(s.roles) == granted;
    assert Restored(e, t).databases == e.databases;
  }

  /** Likewise one visit of `upgrade_all`: ready afterwards exactly when the database is there, not ahead of
      this release; it is moved to the head revision and its owner is left alone. */
  lemma UpgradeEnds(s: State, t: TenantId)
    requires t in s.tenants && t !in s.runs
    ensures var place, end := s.tenants[t].place, UpgradeCall(s, t, NO_FAULTS);
      if place.server in s.servers && place in s.databases && s.databases[place].revision <= s.head
      then end == s.(tenants := RecordDatabaseState(s.tenants, t, Ready, Some(s.head), false),
                     databases := s.databases[place := s.databases[place].(revision := s.head)])
      else end == RecordedFailure(s, t, s.databases)
  {
    var place := s.tenants[t].place;
    var s0 := Start(s, t, Migrating(place, false));
    var s1 := Act(s0, t);
    assert Drive(s0, t, NO_FAULTS) == Drive(s1, t, NO_FAULTS);
    assert s0.runs - {t} == s1.runs - {t} == s.runs - {t} == s.runs;
    if s1.runs[t].Failing? {
      FailingEnds(s1, t);
    } else {
      var s2 := Act(s1, t);
      assert Drive(s1, t, NO_FAULTS) == Drive(s2, t, NO_FAULTS) == Act(s2, t);
      assert s2.runs - {t} == s.runs;
    }
  }
}
