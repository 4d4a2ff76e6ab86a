/** The registry row of a tenant: where its database is and what state it is in. */
module Registry {
  import opened Results

  type TenantId = nat

  /** The order of `ORDER BY` on tenant ids. */
  predicate IdLess(a: TenantId, b: TenantId) {
    a < b
  }

  /** Tenant migrations form one line; a revision is a position on it, 0 an unmigrated database. */
  type Revision = nat

  datatype DatabaseStatus = Provisioning | Ready | Failed

  datatype Place = Place(server: string, name: string)

  datatype Tenant = Tenant(
    accountNumber: string,
    active: bool,
    place: Place,
    status: DatabaseStatus,
    schemaRevision: Option<Revision>,
    lastMigrationFailed: bool)

  type Tenants = map<TenantId, Tenant>

  /** A missing revision leaves the recorded one in place. */
  function RecordDatabaseState(tenants: Tenants, t: TenantId, status: DatabaseStatus,
                               revision: Option<Revision>, failed: bool): Tenants
  {
    if t !in tenants then tenants
    else
      tenants[t := tenants[t].(
        status := status,
        lastMigrationFailed := failed,
        schemaRevision := if revision.Some? then revision else tenants[t].schemaRevision)]
  }

  /** What recording keeps: every other row; of its own row all but the status, the error and, if a revision is
      given, the revision. */
  lemma RecordKeepsTheRest(tenants: Tenants, t: TenantId, status: DatabaseStatus, revision: Option<Revision>,
                           failed: bool)
    ensures var after := RecordDatabaseState(tenants, t, status, revision, failed);
      && after.Keys == tenants.Keys
      && (forall u :: u in tenants && u != t ==> after[u] == tenants[u])
      && (t in tenants ==>
            && after[t].place == tenants[t].place && after[t].accountNumber == tenants[t].accountNumber
            && after[t].active == tenants[t].active
            && after[t].status == status && after[t].lastMigrationFailed == failed
            && (after[t].schemaRevision == None <==> revision == None && tenants[t].schemaRevision == None)
            && (revision.Some? ==> after[t].schemaRevision == revision)
            && (revision == None ==> after[t].schemaRevision == tenants[t].schemaRevision))
  {}

  datatype RouteError = TenantNotFound | TenantUnavailable | UnknownServer

  /** Where a router may connect for `t`. */
  function Placement(tenants: Tenants, servers: set<string>, t: TenantId): Result<Place, RouteError> {
    if t !in tenants then Failure(TenantNotFound)
    else if tenants[t].status != Ready then Failure(TenantUnavailable)
    else if tenants[t].place.server !in servers then Failure(UnknownServer)
    else Success(tenants[t].place)
  }

  /** The four answers, read off the row. */
  lemma PlacementIs(tenants: Tenants, servers: set<string>, t: TenantId)
    ensures var r := Placement(tenants, servers, t);
      && (r == Failure(TenantNotFound) <==> t !in tenants)
      && (r == Failure(TenantUnavailable) <==> t in tenants && tenants[t].status != Ready)
      && (r == Failure(UnknownServer) <==>
            t in tenants && tenants[t].status == Ready && tenants[t].place.server !in servers)
      && (r.Success? <==> t in tenants && tenants[t].status == Ready && tenants[t].place.server in servers)
      && (r.Success? ==> r.value == tenants[t].place)
  {}
}
