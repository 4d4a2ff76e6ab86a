/** The provisioner as an operator's command calls it, one call at a time.

    Each method carries out its operations in order and stops at the first that raises; its contract says
    that this is the call the step system describes. */
module TenantProvisioners {
  import opened Results
  import opened Ordering
  import opened Registry
  import opened Provisioning
  import opened ProvisioningCalls
  import ProvisioningFaults
  import Recovery = ProvisioningRecovery

  datatype ProvisioningError = UnknownTenant | RowConflict | CallFailed

  /** No revision stands for an error. */
  datatype MigrationOutcome = MigrationOutcome(t: TenantId, revision: Option<Revision>)

  /** What a call reports: the row it has just written. */
  function RecordedOutcome(tenants: Tenants, t: TenantId): Option<Revision> {
    if ReadyTenant(tenants, t) then tenants[t].schemaRevision else None
  }

  /** The revision recorded, or an error: because the call failed, or because recording its outcome raised. */
  function Answer(tenants: Tenants, t: TenantId, faults: Faults): Result<Revision, ProvisioningError> {
    var outcome := RecordedOutcome(tenants, t);
    if Operation.Record !in faults && outcome.Some? then Success(outcome.value) else Failure(CallFailed)
  }

  /** What `complete` answers: the head revision exactly if the state was recoverable, no operation the call got to
      raised, and recording did not raise; an error otherwise. */
  lemma CompleteAnswers(s: State, t: TenantId, faults: Faults)
    requires t in s.tenants && t !in s.runs && s.head >= 1
    ensures var r := Answer(CompleteCall(s, t, faults).tenants, t, faults);
      r == if Operation.Record !in faults && Recovery.Recoverable(s, t)
              && !ProvisioningFaults.MeetsFault(ProvisioningFaults.Begun(s, t), t, faults)
           then Success(s.head) else Failure(CallFailed)
  {
    if Operation.Record !in faults { ProvisioningFaults.CompleteUnderFaults(s, t, faults); }
  }

  /** Tenants with the given database status, by id. */
  function WithDatabaseStatus(tenants: Tenants, status: DatabaseStatus): seq<TenantId> {
    Sorted((set t | t in tenants && tenants[t].status == status), IdLess)
  }

  function FaultsOf(faults: map<TenantId, Faults>, t: TenantId): Faults {
    if t in faults then faults[t] else map[]
  }

  predicate RecordingRaisesFor(faults: map<TenantId, Faults>, t: TenantId) {
    Operation.Record in FaultsOf(faults, t)
  }

  /** The tenants `upgrade_all` gets to visit: recording stands outside its try block, so the first recording to
      raise ends the round. */
  function Visited(ids: seq<TenantId>, faults: map<TenantId, Faults>): seq<TenantId> {
    if ids == [] then []
    else if RecordingRaisesFor(faults, ids[0]) then [ids[0]]
    else [ids[0]] + Visited(ids[1..], faults)
  }

  ghost predicate AllRecorded(ids: seq<TenantId>, faults: map<TenantId, Faults>) {
    forall i :: 0 <= i < |ids| ==> !RecordingRaisesFor(faults, ids[i])
  }

  lemma {:induction false} VisitedUpTo(ids: seq<TenantId>, faults: map<TenantId, Faults>, n: nat)
    requires n <= |ids| && AllRecorded(ids[..n], faults)
    ensures n == |ids| ==> Visited(ids, faults) == ids
    ensures n < |ids| && RecordingRaisesFor(faults, ids[n]) ==> Visited(ids, faults) == ids[..n + 1]
  {
    if n > 0 {
      assert ids[1..][..n - 1] == ids[..n][1..] && ids[..n][0] == ids[0];
      VisitedUpTo(ids[1..], faults, n - 1);
      assert n < |ids| ==> [ids[0]] + ids[1..][..n] == ids[..n + 1];
    }
  }

  /** The visits of `upgrade_all`, in turn. */
  ghost function UpgradeEach(s: State, ids: seq<TenantId>, faults: map<TenantId, Faults>): State {
    if ids == [] then s
    else
      var s', t := UpgradeEach(s, ids[..|ids| - 1], faults), ids[|ids| - 1];
      if t in s'.tenants then UpgradeCall(s', t, FaultsOf(faults, t)) else s'
  }

  lemma ListedOnce(tenants: Tenants, status: DatabaseStatus)
    ensures var ids := WithDatabaseStatus(tenants, status);
      && Distinct(ids)
      && (forall i :: 0 <= i < |ids| ==> ids[i] in tenants && tenants[ids[i]].status == status)
  {
    var ids := WithDatabaseStatus(tenants, status);
    AscendingIsDistinct(ids, IdLess);
    forall i | 0 <= i < |ids| ensures ids[i] in tenants && tenants[ids[i]].status == status {
      assert ids[i] in Elements(ids);
    }
  }

  /** One outcome for each visited tenant, in the order of the visits: what its row now records. */
  ghost predicate Tells(outcomes: seq<MigrationOutcome>, ids: seq<TenantId>, tenants: Tenants) {
    && |outcomes| == |ids|
    && forall i :: 0 <= i < |ids| ==> outcomes[i] == MigrationOutcome(ids[i], RecordedOutcome(tenants, ids[i]))
  }

  lemma TellsNext(outcomes: seq<MigrationOutcome>, ids: seq<TenantId>, i: nat, was: Tenants, now: Tenants)
    requires Distinct(ids) && i < |ids| && Tells(outcomes, ids[..i], was) && was.Keys == now.Keys
    requires forall u :: u in now && u != ids[i] ==> now[u] == was[u]
    ensures Tells(outcomes + [MigrationOutcome(ids[i], RecordedOutcome(now, ids[i]))], ids[..i + 1], now)
  {}

  lemma ListedAscending(tenants: Tenants, status: DatabaseStatus)
    ensures var ids := WithDatabaseStatus(tenants, status);
      && (forall t :: t in tenants && tenants[t].status == status ==> t in ids)
      && (forall i, j :: 0 <= i < j < |ids| ==> ids[i] < ids[j])
  {
    var ids := WithDatabaseStatus(tenants, status);
    forall t | t in tenants && tenants[t].status == status ensures t in ids {
      assert t in Elements(ids);
    }
    forall i, j | 0 <= i < j < |ids| ensures ids[i] < ids[j] {
      assert IdLess(ids[i], ids[j]);
    }
  }

  lemma NextVisit(s: State, ids: seq<TenantId>, i: nat, faults: map<TenantId, Faults>)
    requires i < |ids|
    ensures var s' := UpgradeEach(s, ids[..i], faults);
      UpgradeEach(s, ids[..i + 1], faults)
        == if ids[i] in s'.tenants then UpgradeCall(s', ids[i], FaultsOf(faults, ids[i])) else s'
  {
    assert ids[..i + 1][..i] == ids[..i];
  }

  lemma OneOperation(s: State, t: TenantId, faults: Faults)
    requires t in s.runs && Underway(s.runs[t])
    ensures Drive(s, t, faults) == Drive(ActOrRaise(s, t, faults), t, faults)
  {}

  class TenantProvisioner {
    const head: Revision
    const roles: seq<string>
    const servers: set<string>
    const server: string
    var tenants: Tenants
    var databases: Databases

    constructor (head: Revision, roles: seq<string>, servers: set<string>, server: string,
                 tenants: Tenants, databases: Databases)
      ensures World() == State(head, roles, servers, tenants, databases, {}, map[]) && this.server == server
    {
      this.head, this.roles, this.servers, this.server := head, roles, servers, server;
      this.tenants, this.databases := tenants, databases;
    }

    ghost function World(): State
      reads this
    {
      State(head, roles, servers, tenants, databases, {}, map[])
    }

    /** The world while this call is at work on `t`. */
    ghost function During(t: TenantId, stage: Stage): State
      reads this
    {
      World().(runs := map[t := stage])
    }

    /** Ask the server; a server nobody knows raises. */
    method Exists(ghost t: TenantId, place: Place, ghost recorded: Option<Revision>, faults: Faults)
      returns (found: Option<bool>)
      ensures During(t, AfterLook(place, recorded, found)) == ActOrRaise(During(t, Looking(place, recorded)), t, faults)
      ensures found.Some? ==> found.value == (place in databases) && place.server in servers
    {
      if Operation.Exists in faults || place.server !in servers {
        return None;
      }
      return Some(place in databases);
    }

    ghost function AfterLook(place: Place, recorded: Option<Revision>, found: Option<bool>): Stage {
      match found
      case None => Failing
      case Some(true) => Granting(place, 0)
      case Some(false) => if recorded.Some? then Failing else Creating(place)
    }

    method Create(ghost t: TenantId, place: Place, faults: Faults) returns (ok: bool)
      modifies `databases
      ensures During(t, if ok then Granting(place, 0) else Failing)
        == ActOrRaise(old(During(t, Creating(place))), t, faults)
    {
      if Operation.Create in faults && !faults[Operation.Create] {
        return false;
      }
      if place in databases {
        return false;
      }
      databases := databases[place := NEW_DATABASE];
      return Operation.Create !in faults;
    }

    /** One statement on an autocommitting connection. */
    method Execute(ghost t: TenantId, place: Place, done: nat, faults: Faults) returns (ok: bool)
      requires done <= |roles|
      modifies `databases
      ensures During(t, AfterStatement(place, done, ok))
        == ActOrRaise(old(During(t, Granting(place, done))), t, faults)
    {
      if Grant(done) in faults && !faults[Grant(done)] {
        return false;
      }
      if place !in databases {
        return false;
      }
      databases := databases[place := Granted(databases[place], roles, done)];
      return Grant(done) !in faults;
    }

    method GrantConnect(ghost t: TenantId, place: Place, faults: Faults) returns (ok: bool)
      modifies `databases
      ensures Drive(old(During(t, Granting(place, 0))), t, faults)
        == Drive(During(t, if ok then Migrating(place, true) else Failing), t, faults)
    {
      ghost var end := Drive(During(t, Granting(place, 0)), t, faults);
      OneOperation(During(t, Granting(place, 0)), t, faults);
      ok := Execute(t, place, 0, faults);
      var next := 0;
      while ok && next < |roles|
        invariant 0 <= next <= |roles|
        invariant end == Drive(During(t, AfterStatement(place, next, ok)), t, faults)
      {
        OneOperation(During(t, AfterStatement(place, next, ok)), t, faults);
        ok := Execute(t, place, next + 1, faults);
        next := next + 1;
      }
    }

    ghost function AfterStatement(place: Place, done: nat, ok: bool): Stage {
      if !ok then Failing else if done < |roles| then Granting(place, done + 1) else Migrating(place, true)
    }

    /** Migrate to the head revision in one transaction. */
    method Migrate(ghost t: TenantId, place: Place, ghost binds: bool, faults: Faults) returns (ok: bool)
      modifies `databases
      ensures During(t, if ok then ReadingRevision(place, binds) else Failing)
        == ActOrRaise(old(During(t, Migrating(place, binds))), t, faults)
      ensures ok ==> place in databases
    {
      var raises := Operation.Upgrade in faults;
      var possible := place.server in servers && place in databases && databases[place].revision <= head;
      if possible && (!raises || faults[Operation.Upgrade]) {
        databases := databases[place := databases[place].(revision := head)];
      }
      return possible && !raises;
    }

    /** Migrate, then read the revision back. */
    method Upgrade(ghost t: TenantId, place: Place, ghost binds: bool, faults: Faults)
      returns (revision: Option<Revision>)
      modifies `databases
      ensures Drive(old(During(t, Migrating(place, binds))), t, faults)
        == Drive(During(t, AfterUpgrade(place, binds, revision)), t, faults)
    {
      OneOperation(During(t, Migrating(place, binds)), t, faults);
      var migrated := Migrate(t, place, binds, faults);
      if migrated {
        OneOperation(During(t, ReadingRevision(place, binds)), t, faults);
        revision := CurrentRevision(t, place, binds, faults);
      } else {
        revision := None;
      }
    }

    method CurrentRevision(ghost t: TenantId, place: Place, ghost binds: bool, faults: Faults)
      returns (revision: Option<Revision>)
      requires place in databases
      ensures During(t, AfterUpgrade(place, binds, revision))
        == ActOrRaise(During(t, ReadingRevision(place, binds)), t, faults)
    {
      revision := if Operation.CurrentRevision in faults then None else Some(databases[place].revision);
    }

    ghost function AfterUpgrade(place: Place, binds: bool, revision: Option<Revision>): Stage {
      match revision
      case None => Failing
      case Some(r) => if binds then Binding(place, r) else Succeeded(r)
    }

    /** Insert unless a binding exists, then compare the binding. */
    method BindOwner(t: TenantId, place: Place, ghost revision: Revision, faults: Faults) returns (ok: bool)
      modifies `databases
      ensures During(t, if ok then Succeeded(revision) else Failing)
        == ActOrRaise(old(During(t, Binding(place, revision))), t, faults)
    {
      if Operation.BindOwner in faults && !faults[Operation.BindOwner] {
        return false;
      }
      if place !in databases || databases[place].revision == 0 {
        return false;
      }
      if databases[place].owner == None {
        databases := databases[place := databases[place].(owner := Some(t))];
      }
      return Operation.BindOwner !in faults && databases[place].owner == Some(t);
    }

    /** Where the try block leaves a call. */
    ghost function Ended(revision: Option<Revision>): Stage {
      if revision.Some? then Succeeded(revision.value) else Failing
    }

    /** Record the outcome in a transaction of its own; a missing revision leaves the recorded one in place. */
    method Record(t: TenantId, revision: Option<Revision>, faults: Faults) returns (ok: bool)
      modifies `tenants
      ensures World() == ActOrRaise(old(During(t, Ended(revision))), t, faults)
      ensures ok <==> Operation.Record !in faults
      ensures ok ==> t in tenants ==> RecordedOutcome(tenants, t) == revision
    {
      ok := Operation.Record !in faults;
      if ok || faults[Operation.Record] {
        tenants := RecordDatabaseState(tenants, t, if revision.Some? then Ready else Failed, revision, revision.None?);
      }
    }

    /** Look for the database; create it only if no revision was ever recorded. */
    method EnsureExists(ghost t: TenantId, place: Place, recorded: Option<Revision>, faults: Faults) returns (ok: bool)
      modifies `databases
      ensures Drive(old(During(t, Looking(place, recorded))), t, faults)
        == Drive(During(t, if ok then Granting(place, 0) else Failing), t, faults)
    {
      OneOperation(During(t, Looking(place, recorded)), t, faults);
      var found := Exists(t, place, recorded, faults);
      if found == None {
        return false;
      }
      if !found.value {
        if recorded.Some? {
          return false;
        }
        OneOperation(During(t, Creating(place)), t, faults);
        ok := Create(t, place, faults);
      } else {
        ok := true;
      }
    }

    /** The try block of `complete`. */
    method Establish(t: TenantId, place: Place, recorded: Option<Revision>, faults: Faults)
      returns (revision: Option<Revision>)
      modifies `databases
      ensures Drive(old(During(t, Looking(place, recorded))), t, faults)
        == Drive(During(t, Ended(revision)), t, faults)
    {
      var ok := EnsureExists(t, place, recorded, faults);
      if ok {
        ok := GrantConnect(t, place, faults);
      }
      if !ok {
        return None;
      }
      revision := Upgrade(t, place, true, faults);
      if revision.Some? {
        OneOperation(During(t, Binding(place, revision.value)), t, faults);
        var bound := BindOwner(t, place, revision.value, faults);
        revision := if bound then revision else None;
      }
    }

    /** Create, migrate and bind the database. */
    method Complete(t: TenantId, faults: Faults) returns (r: Result<Revision, ProvisioningError>)
      modifies this
      ensures t !in old(tenants) ==> r == Failure(UnknownTenant) && World() == old(World())
      ensures t in old(tenants) ==> World() == CompleteCall(old(World()), t, faults)
      ensures t in old(tenants) ==> r == Answer(tenants, t, faults)
    {
      if t !in tenants {
        return Failure(UnknownTenant);
      }
      var revision := Establish(t, tenants[t].place, tenants[t].schemaRevision, faults);
      var recorded := Record(t, revision, faults);
      if !recorded || revision == None {
        return Failure(CallFailed);
      }
      return Success(revision.value);
    }

    /** Register a new tenant, then complete it; the row outlives a failure. */
    method Provision(t: TenantId, account: string, name: string, faults: Faults)
      returns (r: Result<Revision, ProvisioningError>)
      requires t !in tenants
      modifies this
      ensures !Registrable(old(tenants), account, Place(server, name)) ==>
        r == Failure(RowConflict) && World() == old(World())
      ensures Registrable(old(tenants), account, Place(server, name)) ==>
        && World() == CompleteCall(Registered(old(World()), t, account, Place(server, name)), t, faults)
        && r == Answer(tenants, t, faults)
    {
      var place := Place(server, name);
      if !Registrable(tenants, account, place) {
        return Failure(RowConflict);
      }
      tenants := tenants[t := Tenant(account, true, place, DatabaseStatus.Provisioning, None, false)];
      r := Complete(t, faults);
    }

    /** One visit; the outcome counts only if it was recorded. */
    method UpgradeVisit(t: TenantId, faults: Faults) returns (recorded: bool, revision: Option<Revision>)
      requires t in tenants
      modifies this
      ensures World() == UpgradeCall(old(World()), t, faults)
      ensures recorded <==> Operation.Record !in faults
      ensures recorded ==> revision == RecordedOutcome(tenants, t)
      ensures tenants.Keys == old(tenants).Keys
      ensures forall u :: u in tenants && u != t ==> tenants[u] == old(tenants)[u]
    {
      revision := Upgrade(t, tenants[t].place, false, faults);
      recorded := Record(t, revision, faults);
    }

    /** Upgrade every ready tenant.  A failing upgrade does not stop the others; a recording that raises ends the
        round, with no outcomes reported. */
    method UpgradeAll(faults: map<TenantId, Faults>) returns (r: Result<seq<MigrationOutcome>, ProvisioningError>)
      modifies this
      ensures var ids := WithDatabaseStatus(old(tenants), Ready);
        && World() == UpgradeEach(old(World()), Visited(ids, faults), faults)
        && (r.Success? <==> AllRecorded(ids, faults))
        && (r.Success? ==> Tells(r.value, ids, tenants))
    {
      ListedOnce(tenants, Ready);
      r := UpgradeListed(WithDatabaseStatus(tenants, Ready), faults);
    }

    method UpgradeListed(ids: seq<TenantId>, faults: map<TenantId, Faults>)
      returns (r: Result<seq<MigrationOutcome>, ProvisioningError>)
      requires Distinct(ids) && forall i :: 0 <= i < |ids| ==> ids[i] in tenants
      modifies this
      ensures World() == UpgradeEach(old(World()), Visited(ids, faults), faults)
      ensures r.Success? <==> AllRecorded(ids, faults)
      ensures r.Success? ==> Tells(r.value, ids, tenants)
    {
      ghost var before := World();
      var outcomes := [];
      for i := 0 to |ids|
        invariant World() == UpgradeEach(before, ids[..i], faults)
        invariant tenants.Keys == before.tenants.Keys
        invariant AllRecorded(ids[..i], faults)
        invariant Tells(outcomes, ids[..i], tenants)
      {
        ghost var was := tenants;
        NextVisit(before, ids, i, faults);
        var recorded, revision := UpgradeVisit(ids[i], FaultsOf(faults, ids[i]));
        if !recorded {
          VisitedUpTo(ids, faults, i);
          assert RecordingRaisesFor(faults, ids[i]);
          return Failure(CallFailed);
        }
        TellsNext(outcomes, ids, i, was, tenants);
        outcomes := outcomes + [MigrationOutcome(ids[i], revision)];
      }
      assert ids[..|ids|] == ids;
      VisitedUpTo(ids, faults, |ids|);
      r := Success(outcomes);
    }
  }
}
