/** Calls that meet failures: an operation that raises ends the call as failed, and nothing else does. */
module ProvisioningFaults {
  import opened Results
  import opened Ordering
  import opened Registry
  import opened Provisioning
  import opened ProvisioningCalls
  import opened ProvisioningRecovery

  /** Some operation inside the try block that the call gets to raises. */
  predicate MeetsFault(s: State, t: TenantId, faults: Faults)
    requires t in s.runs
    decreases Remaining(s, s.runs[t])
  {
    Underway(s.runs[t]) && (OperationOf(s.runs[t]) in faults || MeetsFault(Act(s, t), t, faults))
  }

  /** The world in which the first such operation is performed. */
  function MetAt(s: State, t: TenantId, faults: Faults): State
    requires t in s.runs && MeetsFault(s, t, faults)
    decreases Remaining(s, s.runs[t])
  {
    if OperationOf(s.runs[t]) in faults then s else MetAt(Act(s, t), t, faults)
  }

  lemma {:induction false} MetAtIsUnderway(s: State, t: TenantId, faults: Faults)
    requires t in s.runs && MeetsFault(s, t, faults)
    ensures var m := MetAt(s, t, faults);
      && t in m.runs && Underway(m.runs[t]) && OperationOf(m.runs[t]) in faults && m.tenants == s.tenants
    decreases Remaining(s, s.runs[t])
  {
    if OperationOf(s.runs[t]) !in faults { MetAtIsUnderway(Act(s, t), t, faults); }
  }

  /** Faults that are not met make no difference. */
  lemma {:induction false} UnmetFaults(s: State, t: TenantId, faults: Faults)
    requires t in s.runs && Record !in faults && !MeetsFault(s, t, faults)
    ensures Drive(s, t, faults) == Drive(s, t, NO_FAULTS)
    decreases Remaining(s, s.runs[t])
  {
    if Underway(s.runs[t]) {
      OneStep(s, t);
      UnmetFaults(Act(s, t), t, faults);
    }
  }

  /** An exception from the first faulty operation ends the call: its effect stands if it took place, nothing more
      is done to the server, and the row says failed with its revision kept. */
  lemma {:induction false} FaultEndsTheCall(s: State, t: TenantId, faults: Faults)
    requires t in s.runs && Record !in faults && MeetsFault(s, t, faults)
    ensures var m := MetAt(s, t, faults);
      && t in m.runs && OperationOf(m.runs[t]) in faults
      && Drive(s, t, faults).databases
           == (if faults[OperationOf(m.runs[t])] then Act(m, t).databases else m.databases)
      && Drive(s, t, faults).tenants == RecordDatabaseState(s.tenants, t, Failed, None, true)
    decreases Remaining(s, s.runs[t])
  {
    if OperationOf(s.runs[t]) in faults {
      var s' := ActOrRaise(s, t, faults);
      assert t in s'.runs && s'.runs[t] == Failing;
      assert Drive(s, t, faults) == Drive(s', t, faults) == Act(s', t);
    } else {
      FaultEndsTheCall(Act(s, t), t, faults);
    }
  }

  // ---------------------------------------------------------------- complete

  function Begun(s: State, t: TenantId): State
    requires t in s.tenants
  {
    Start(s, t, Looking(s.tenants[t].place, s.tenants[t].schemaRevision))
  }

  /** The database is there, closed to PUBLIC, open to every runtime role, at the head and owned by `t`. */
  predicate Established(databases: Databases, roles: seq<string>, head: Revision, t: TenantId, place: Place) {
    && place in databases
    && !databases[place].publicConnect
    && (forall role :: role in roles ==> role in databases[place].granted)
    && databases[place].revision == head
    && databases[place].owner == Some(t)
  }

  predicate RowSaysReady(tenants: Tenants, t: TenantId, head: Revision) {
    && t in tenants && tenants[t].status == Ready
    && tenants[t].schemaRevision == Some(head) && !tenants[t].lastMigrationFailed
  }

  predicate RowSaysFailed(before: State, after: State, t: TenantId) {
    && t in before.tenants && t in after.tenants
    && after.tenants[t].status == Failed && after.tenants[t].lastMigrationFailed
    && after.tenants[t].schemaRevision == before.tenants[t].schemaRevision
  }

  /** `complete` under any faults but those of recording: it ends ready exactly if the state was recoverable and no
      operation it got to raised, and then everything is established; otherwise the row says failed and keeps its
      revision. */
  lemma CompleteUnderFaults(s: State, t: TenantId, faults: Faults)
    requires t in s.tenants && t !in s.runs && s.head >= 1 && Record !in faults
    ensures var end := CompleteCall(s, t, faults);
      var succeeds := Recoverable(s, t) && !MeetsFault(Begun(s, t), t, faults);
      && (ReadyTenant(end.tenants, t) <==> succeeds)
      && (succeeds ==>
            && RowSaysReady(end.tenants, t, s.head)
            && Established(end.databases, s.roles, s.head, t, s.tenants[t].place))
      && (!succeeds ==> RowSaysFailed(s, end, t))
  {
    if MeetsFault(Begun(s, t), t, faults) {
      FaultEndsTheCall(Begun(s, t), t, faults);
    } else {
      UnmetFaults(Begun(s, t), t, faults);
      CompleteRecovers(s, t);
    }
  }

  /** Likewise a visit of `upgrade_all`. */
  lemma UpgradeUnderFaults(s: State, t: TenantId, faults: Faults)
    requires t in s.tenants && t !in s.runs && Record !in faults
    ensures var place, end := s.tenants[t].place, UpgradeCall(s, t, faults);
      var succeeds := place.server in s.servers && place in s.databases && s.databases[place].revision <= s.head
        && !MeetsFault(Start(s, t, Migrating(place, false)), t, faults);
      && (ReadyTenant(end.tenants, t) <==> succeeds)
      && (succeeds ==>
            RowSaysReady(end.tenants, t, s.head) && place in end.databases && end.databases[place].revision == s.head)
      && (!succeeds ==> RowSaysFailed(s, end, t))
  {
    var started := Start(s, t, Migrating(s.tenants[t].place, false));
    if MeetsFault(started, t, faults) {
      FaultEndsTheCall(started, t, faults);
    } else {
      UnmetFaults(started, t, faults);
      UpgradeEnds(s, t);
    }
  }

  /** A new database is open to PUBLIC until the first statement of the grants: a call that stops in between leaves it
      so, with no roles, no migration and no owner. */
  lemma CreatedButNotClosed(s: State, t: TenantId)
    requires t in s.tenants && t !in s.runs && s.tenants[t].place !in s.databases
    requires s.tenants[t].place.server in s.servers && s.tenants[t].schemaRevision == None
    ensures var place, end := s.tenants[t].place, CompleteCall(s, t, map[Grant(0) := false]);
      && RowSaysFailed(s, end, t)
      && place in end.databases && end.databases[place].publicConnect && end.databases[place].granted == {}
      && end.databases[place].revision == 0 && end.databases[place].owner == None
  {
    var s0, faults := Begun(s, t), map[Grant(0) := false];
    var s1 := Act(s0, t);
    var s2 := Act(s1, t);
    assert !(OperationOf(s0.runs[t]) in faults) && !(OperationOf(s1.runs[t]) in faults);
    assert MetAt(s2, t, faults) == s2 && MetAt(s1, t, faults) == s2 && MetAt(s0, t, faults) == s2;
    FaultEndsTheCall(s0, t, faults);
  }

  /** A database that is dropped after its revision was recorded is reported, and not re-created, by every `complete`
      whose outcome gets recorded; nothing else on the servers is touched. */
  lemma LostDatabaseIsReported(s: State, t: TenantId, s': State, faults: Faults)
    requires t in s.tenants && t !in s.runs && s.tenants[t].schemaRevision.Some?
    requires Step(s, Drop(s.tenants[t].place), s') && s.head >= 1 && Record !in faults
    ensures var end := CompleteCall(s', t, faults);
      && RowSaysFailed(s, end, t)
      && end.databases.Keys == s.databases.Keys - {s.tenants[t].place}
      && forall p :: p in end.databases ==> end.databases[p] == s.databases[p]
  {
    CompleteUnderFaults(s', t, faults);
    NothingCreated(Begun(s', t), t, faults);
  }

  lemma NothingCreated(s: State, t: TenantId, faults: Faults)
    requires t in s.runs && s.runs[t].Looking? && s.runs[t].recorded.Some? && s.runs[t].place !in s.databases
    requires Record !in faults
    ensures Drive(s, t, faults).databases == s.databases
  {
    var s' := ActOrRaise(s, t, faults);
    assert t in s'.runs && s'.runs[t] == Failing && s'.databases == s.databases;
    assert Drive(s, t, faults) == Drive(s', t, faults) == Act(s', t);
  }

  // ---------------------------------------------------------------- calls are runs

  /** Steps from `s` to `s'`. */
  ghost predicate RunFrom(s: State, trace: seq<State>, actions: seq<Action>, s': State) {
    && |trace| == |actions| + 1 && trace[0] == s && trace[|actions|] == s'
    && forall i :: 0 <= i < |actions| ==> Step(trace[i], actions[i], trace[i + 1])
  }

  lemma StartedIsARun(s: State, t: TenantId, first: Action, started: State, faults: Faults)
    returns (trace: seq<State>, actions: seq<Action>)
    requires Step(s, first, started) && t in started.runs
    ensures RunFrom(s, trace, actions, Drive(started, t, faults)) && actions != [] && actions[0] == first
  {
    var rest, more := DriveIsARun(started, t, faults);
    trace, actions := [s] + rest, [first] + more;
    forall i | 0 <= i < |actions| ensures Step(trace[i], actions[i], trace[i + 1]) {
      if i > 0 { assert Step(rest[i - 1], more[i - 1], rest[i]); }
    }
  }

  /** `complete` may be called for any tenant that no call is at work on, whatever its row says. */
  lemma CompleteIsARun(s: State, t: TenantId, faults: Faults) returns (trace: seq<State>, actions: seq<Action>)
    requires t in s.tenants && t !in s.runs
    ensures RunFrom(s, trace, actions, CompleteCall(s, t, faults)) && actions != [] && actions[0] == Complete(t)
  {
    trace, actions := StartedIsARun(s, t, Complete(t), Begun(s, t), faults);
  }

  /** A visit of `upgrade_all` to a tenant it has listed; the tenant is then off the list. */
  lemma UpgradeIsARun(s: State, t: TenantId, faults: Faults) returns (trace: seq<State>, actions: seq<Action>)
    requires t in s.tenants && t !in s.runs && t in s.listed
    ensures RunFrom(s, trace, actions, UpgradeCall(s.(listed := s.listed - {t}), t, faults))
    ensures actions != [] && actions[0] == Action.Upgrade(t)
  {
    var unlisted := s.(listed := s.listed - {t});
    var started := Start(unlisted, t, Migrating(s.tenants[t].place, false));
    trace, actions := StartedIsARun(s, t, Action.Upgrade(t), started, faults);
  }
}
