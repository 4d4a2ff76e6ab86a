/** Provisioning of tenant databases, operation by operation.

    `complete` and `upgrade_all` work on two stores that share no transaction: the registry row and
    the database server.  Each operation on either store is a step; after any of them the call may
    see an error, or the process may die. */
module Provisioning {
  import opened Results
  import opened Registry

  /** A tenant database as its server knows it; revision 0 means no migration has run. */
  datatype PhysicalDatabase = PhysicalDatabase(
    publicConnect: bool,
    granted: set<string>,
    revision: Revision,
    owner: Option<TenantId>)

  type Databases = map<Place, PhysicalDatabase>

  /** Where a call for one tenant stands: the operation it is about to perform. */
  datatype Stage =
    | Looking(place: Place, recorded: Option<Revision>)
    | Creating(place: Place)
    | Granting(place: Place, done: nat)
    | Migrating(place: Place, binds: bool)
    | ReadingRevision(place: Place, binds: bool)
    | Binding(place: Place, revision: Revision)
    | Succeeded(revision: Revision)
    | Failing

  datatype State = State(
    head: Revision,
    roles: seq<string>,
    servers: set<string>,
    tenants: Tenants,
    databases: Databases,
    listed: set<TenantId>,             // found ready by upgrade_all, not yet visited
    runs: map<TenantId, Stage>)        // at most one call at work on a tenant

  datatype Action =
    | Provision(t: TenantId, account: string, place: Place)
    | Complete(t: TenantId)
    | ListReady
    | Upgrade(t: TenantId)
    | Advance(t: TenantId)
    | Fail(t: TenantId, tookEffect: bool)
    | Die(t: TenantId)
    | Release(head: Revision)
    | Drop(place: Place)

  const NEW_DATABASE := PhysicalDatabase(true, {}, 0, None)

  /** Statement `done` of the grants: first the revocation from PUBLIC, then one grant a role. */
  function Granted(db: PhysicalDatabase, roles: seq<string>, done: nat): PhysicalDatabase {
    if done == 0 then db.(publicConnect := false)
    else if done <= |roles| then db.(granted := db.granted + {roles[done - 1]})
    else db
  }

  /** What the pending operation does to the databases. */
  function DatabasesAfter(s: State, t: TenantId): Databases
    requires t in s.runs
  {
    var dbs := s.databases;
    match s.runs[t]
    case Creating(place) => if place in dbs then dbs else dbs[place := NEW_DATABASE]
    case Granting(place, done) => if place in dbs then dbs[place := Granted(dbs[place], s.roles, done)] else dbs
    case Migrating(place, _) =>
      if place.server in s.servers && place in dbs && dbs[place].revision <= s.head
      then dbs[place := dbs[place].(revision := s.head)] else dbs
    case Binding(place, _) =>
      // insert on conflict do nothing: the first binding stays
      if place in dbs && dbs[place].revision > 0 && dbs[place].owner == None
      then dbs[place := dbs[place].(owner := Some(t))] else dbs
    case _ => dbs
  }

  /** The operation that follows a pending one; an operation that cannot succeed raises. */
  function StageAfter(s: State, t: TenantId): Stage
    requires t in s.runs && Underway(s.runs[t])
  {
    var dbs := s.databases;
    match s.runs[t]
    case Looking(place, recorded) =>
      if place.server !in s.servers then Failing
      else if place in dbs then Granting(place, 0)
      else if recorded.Some? then Failing
      else Creating(place)
    case Creating(place) => if place in dbs then Failing else Granting(place, 0)
    case Granting(place, done) =>
      if place !in dbs then Failing
      else if done < |s.roles| then Granting(place, done + 1)
      else Migrating(place, true)
    case Migrating(place, binds) =>
      if place.server in s.servers && place in dbs && dbs[place].revision <= s.head
      then ReadingRevision(place, binds) else Failing
    case ReadingRevision(place, binds) =>
      if place !in dbs then Failing
      else if binds then Binding(place, dbs[place].revision)
      else Succeeded(dbs[place].revision)
    case Binding(place, revision) =>
      if place in dbs && dbs[place].revision > 0 && (dbs[place].owner == None || dbs[place].owner == Some(t))
      then Succeeded(revision) else Failing
    case Succeeded(_) => Failing
    case Failing => Failing
  }

  /** Still inside the try block. */
  predicate Underway(stage: Stage) {
    !stage.Succeeded? && !stage.Failing?
  }

  /** `place` is the only database the stage's operations touch. */
  predicate At(stage: Stage, place: Place) {
    !Underway(stage) || stage.place == place
  }

  /** The pending operation raises, before or after taking effect. */
  function Raised(s: State, t: TenantId, tookEffect: bool): State
    requires t in s.runs
  {
    s.(databases := if tookEffect then DatabasesAfter(s, t) else s.databases, runs := s.runs[t := Failing])
  }

  /** The call ends with nothing recorded: the process died, or recording the outcome raised. */
  function Abandoned(s: State, t: TenantId): State {
    s.(runs := s.runs - {t})
  }

  /** Perform the pending operation of `t`'s call; the last one records the outcome and ends it. */
  function Act(s: State, t: TenantId): State
    requires t in s.runs
  {
    match s.runs[t]
    case Succeeded(revision) =>
      s.(tenants := RecordDatabaseState(s.tenants, t, Ready, Some(revision), false), runs := s.runs - {t})
    case Failing =>
      s.(tenants := RecordDatabaseState(s.tenants, t, Failed, None, true), runs := s.runs - {t})
    case _ => s.(databases := DatabasesAfter(s, t), runs := s.runs[t := StageAfter(s, t)])
  }

  /** Account numbers and database names are unique in the registry. */
  predicate Registrable(tenants: Tenants, account: string, place: Place) {
    forall u :: u in tenants ==> tenants[u].accountNumber != account && tenants[u].place.name != place.name
  }

  function Registered(s: State, t: TenantId, account: string, place: Place): State {
    s.(tenants := s.tenants[t := Tenant(account, true, place, DatabaseStatus.Provisioning, None, false)])
  }

  predicate ReadyTenant(tenants: Tenants, t: TenantId) {
    t in tenants && tenants[t].status == Ready
  }

  ghost predicate Step(s: State, a: Action, s': State) {
    match a
    case Provision(t, account, place) =>
      && t !in s.tenants && Registrable(s.tenants, account, place)
      && s' == Registered(s, t, account, place)
    case Complete(t) =>
      && t in s.tenants && t !in s.runs
      && s' == s.(runs := s.runs[t := Looking(s.tenants[t].place, s.tenants[t].schemaRevision)])
    case ListReady =>
      s' == s.(listed := s.listed + set t | t in s.tenants && s.tenants[t].status == Ready)
    case Upgrade(t) =>
      && t in s.listed && t in s.tenants && t !in s.runs
      && s' == s.(listed := s.listed - {t}, runs := s.runs[t := Migrating(s.tenants[t].place, false)])
    case Advance(t) => t in s.runs && s' == Act(s, t)
    case Fail(t, tookEffect) =>
      t in s.runs && Underway(s.runs[t]) && s' == Raised(s, t, tookEffect)
    case Die(t) => t in s.runs && s' == Abandoned(s, t)
    case Release(head) => head >= s.head && s' == s.(head := head)
    case Drop(place) => s' == s.(databases := s.databases - {place})
  }

  ghost predicate Init(s: State) {
    s.tenants == map[] && s.listed == {} && s.runs == map[] && s.head >= 1
  }

  ghost predicate Execution(trace: seq<State>, actions: seq<Action>) {
    && |trace| == |actions| + 1 && Init(trace[0])
    && forall i :: 0 <= i < |actions| ==> Step(trace[i], actions[i], trace[i + 1])
  }

  ghost predicate NoDrops(actions: seq<Action>) {
    forall i :: 0 <= i < |actions| ==> !actions[i].Drop?
  }
}
