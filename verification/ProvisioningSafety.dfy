/** What the provisioning steps keep, over every run. */
module ProvisioningSafety {
  import opened Results
  import opened Registry
  import opened Provisioning

  // ---------------------------------------------------------------- the registry

  /** A new tenant is active, not yet ready, and without revision or error. */
  lemma NewTenantRow(s: State, t: TenantId, account: string, place: Place, s': State)
    requires Step(s, Provision(t, account, place), s')
    ensures t !in s.tenants && t in s'.tenants && s'.tenants.Keys == s.tenants.Keys + {t}
    ensures s'.tenants[t].accountNumber == account && s'.tenants[t].place == place && s'.tenants[t].active
    ensures s'.tenants[t].status != Ready && s'.tenants[t].schemaRevision == None && !s'.tenants[t].lastMigrationFailed
    ensures forall u :: u in s.tenants ==> s'.tenants[u] == s.tenants[u]
  {}

  ghost predicate Unique(tenants: Tenants) {
    forall t, u :: t in tenants && u in tenants && t != u ==>
      tenants[t].accountNumber != tenants[u].accountNumber && tenants[t].place.name != tenants[u].place.name
  }

  lemma StepKeepsUnique(s: State, a: Action, s': State)
    requires Unique(s.tenants) && Step(s, a, s')
    ensures Unique(s'.tenants)
  {
    forall t, u | t in s'.tenants && u in s'.tenants && t != u
      ensures s'.tenants[t].accountNumber != s'.tenants[u].accountNumber
      ensures s'.tenants[t].place.name != s'.tenants[u].place.name
    {
      StepKeepsIdentity(s, a, s', t);
      StepKeepsIdentity(s, a, s', u);
    }
  }

  /** The account number and the place of a row are those it was registered with. */
  lemma StepKeepsIdentity(s: State, a: Action, s': State, t: TenantId)
    requires Step(s, a, s') && t in s'.tenants
    ensures t in s.tenants ==>
      s'.tenants[t].accountNumber == s.tenants[t].accountNumber && s'.tenants[t].place == s.tenants[t].place
    ensures t !in s.tenants ==>
      && a.Provision? && a.t == t && Registrable(s.tenants, a.account, a.place)
      && s'.tenants[t].accountNumber == a.account && s'.tenants[t].place == a.place
  {}

  /** No two tenants ever share an account number or a database name. */
  lemma {:induction false} UniqueThroughout(trace: seq<State>, actions: seq<Action>, n: nat)
    requires Execution(trace, actions) && n < |trace|
    ensures Unique(trace[n].tenants)
  {
    if n > 0 {
      UniqueThroughout(trace, actions, n - 1);
      StepKeepsUnique(trace[n - 1], actions[n - 1], trace[n]);
    }
  }

  /** `upgrade_all` works on tenants that were ready when it listed them, and on each once a listing. */
  lemma {:induction false} ListedWasReady(trace: seq<State>, actions: seq<Action>, n: nat, t: TenantId) returns (i: nat)
    requires Execution(trace, actions) && n < |trace| && t in trace[n].listed
    ensures i < n && actions[i] == ListReady && ReadyTenant(trace[i].tenants, t)
    ensures forall k :: i < k < n ==> actions[k] != Upgrade(t)
  {
    assert Step(trace[n - 1], actions[n - 1], trace[n]);
    if actions[n - 1] == ListReady && ReadyTenant(trace[n - 1].tenants, t) {
      i := n - 1;
    } else {
      i := ListedWasReady(trace, actions, n - 1, t);
    }
  }

  /** ... and lists every one of them. */
  lemma ReadyAreListed(s: State, s': State, t: TenantId)
    requires Step(s, ListReady, s') && t in s.tenants && s.tenants[t].status == Ready
    ensures t in s'.listed
  {}

  /** A tenant can be registered whenever its account number and its database name are free. */
  lemma MayRegister(s: State, t: TenantId, account: string, place: Place) returns (s': State)
    requires t !in s.tenants
    requires forall u :: u in s.tenants ==> s.tenants[u].accountNumber != account
    requires forall u :: u in s.tenants ==> s.tenants[u].place.name != place.name
    ensures Step(s, Provision(t, account, place), s')
  {
    s' := Registered(s, t, account, place);
  }

  /** A call may die at any operation, and releases may move the head forward under the calls at work. */
  lemma AtAnyTime(s: State, t: TenantId, head: Revision)
    ensures t in s.runs ==> Step(s, Die(t), s.(runs := s.runs - {t}))
    ensures head >= s.head ==> Step(s, Release(head), s.(head := head))
  {}

  // ---------------------------------------------------------------- never re-created empty

  /** A call works on its own tenant's database and creates it only while no revision is recorded. */
  ghost predicate RunSound(s: State, t: TenantId)
    requires t in s.runs
  {
    && t in s.tenants
    && At(s.runs[t], s.tenants[t].place)
    && (s.runs[t].Looking? ==> s.runs[t].recorded == s.tenants[t].schemaRevision)
    && (s.runs[t].Creating? ==> s.tenants[t].schemaRevision == None)
  }

  ghost predicate RunsSound(s: State) {
    && (forall t :: t in s.runs ==> RunSound(s, t))
    && (forall t, u ::
          t in s.tenants && u in s.tenants && s.tenants[t].place.name == s.tenants[u].place.name ==> t == u)
  }

  lemma StepKeepsRunSound(s: State, a: Action, s': State, t: TenantId)
    requires Step(s, a, s') && t in s'.runs && (t in s.runs ==> RunSound(s, t))
    ensures RunSound(s', t)
  {}

  lemma StepKeepsRunsSound(s: State, a: Action, s': State)
    requires RunsSound(s) && Step(s, a, s')
    ensures RunsSound(s')
  {
    forall t | t in s'.runs ensures RunSound(s', t) { StepKeepsRunSound(s, a, s', t); }
    forall t, u | t in s'.tenants && u in s'.tenants && s'.tenants[t].place.name == s'.tenants[u].place.name
      ensures t == u
    {
      StepKeepsNames(s, a, s', t, u);
    }
  }

  lemma StepKeepsNames(s: State, a: Action, s': State, t: TenantId, u: TenantId)
    requires Step(s, a, s') && t in s'.tenants && u in s'.tenants
    requires s'.tenants[t].place.name == s'.tenants[u].place.name
    requires t in s.tenants && u in s.tenants && s.tenants[t].place.name == s.tenants[u].place.name ==> t == u
    ensures t == u
  {}

  lemma {:induction false} RunsSoundThroughout(trace: seq<State>, actions: seq<Action>, n: nat)
    requires Execution(trace, actions) && n < |trace|
    ensures RunsSound(trace[n])
  {
    if n > 0 {
      RunsSoundThroughout(trace, actions, n - 1);
      StepKeepsRunsSound(trace[n - 1], actions[n - 1], trace[n]);
    }
  }

  /** A tenant's row is never removed or moved, and a recorded revision never returns to none. */
  lemma StepKeepsRecord(s: State, a: Action, s': State, t: TenantId)
    requires Step(s, a, s') && t in s.tenants
    ensures t in s'.tenants && s'.tenants[t].place == s.tenants[t].place
    ensures s.tenants[t].schemaRevision.Some? ==> s'.tenants[t].schemaRevision.Some?
  {}

  /** No step brings back a database that is gone once its tenant's revision is recorded. */
  lemma StepNeverRecreates(s: State, a: Action, s': State, t: TenantId)
    requires RunsSound(s) && Step(s, a, s') && t in s.tenants && s.tenants[t].schemaRevision.Some?
    requires s.tenants[t].place !in s.databases
    ensures s.tenants[t].place !in s'.databases
  {
    if a.Advance? || a.Fail? {
      assert RunSound(s, a.t);
      if s.runs[a.t].Creating? { assert a.t != t; }
    }
  }

  /** Even with databases dropped at any moment: once a revision is recorded for a tenant, no later
      step of any call re-creates that tenant's database. */
  lemma {:induction false} NeverRecreatedEmpty(trace: seq<State>, actions: seq<Action>, i: nat, j: nat, k: nat,
                                               t: TenantId)
    requires Execution(trace, actions) && i <= j <= k < |trace|
    requires t in trace[i].tenants && trace[i].tenants[t].schemaRevision.Some?
    requires trace[i].tenants[t].place !in trace[j].databases
    ensures t in trace[k].tenants && trace[k].tenants[t].schemaRevision.Some?
    ensures trace[k].tenants[t].place == trace[i].tenants[t].place
    ensures trace[i].tenants[t].place !in trace[k].databases
    decreases k - i
  {
    if j < k {
      NeverRecreatedEmpty(trace, actions, i, j, k - 1, t);
      RecordedInRun(trace, actions, k - 1, t);
      NotRecreatedInRun(trace, actions, k - 1, t);
    } else {
      RecordPersists(trace, actions, i, j, t);
    }
  }

  lemma RecordedInRun(trace: seq<State>, actions: seq<Action>, n: nat, t: TenantId)
    requires Execution(trace, actions) && n < |actions| && t in trace[n].tenants
    ensures t in trace[n + 1].tenants && trace[n + 1].tenants[t].place == trace[n].tenants[t].place
    ensures trace[n].tenants[t].schemaRevision.Some? ==> trace[n + 1].tenants[t].schemaRevision.Some?
  {
    StepKeepsRecord(trace[n], actions[n], trace[n + 1], t);
  }

  lemma NotRecreatedInRun(trace: seq<State>, actions: seq<Action>, n: nat, t: TenantId)
    requires Execution(trace, actions) && n < |actions|
    requires t in trace[n].tenants && trace[n].tenants[t].schemaRevision.Some?
    requires trace[n].tenants[t].place !in trace[n].databases
    ensures trace[n].tenants[t].place !in trace[n + 1].databases
  {
    RunsSoundThroughout(trace, actions, n);
    StepNeverRecreates(trace[n], actions[n], trace[n + 1], t);
  }

  lemma {:induction false} RecordPersists(trace: seq<State>, actions: seq<Action>, i: nat, j: nat, t: TenantId)
    requires Execution(trace, actions) && i <= j < |trace|
    requires t in trace[i].tenants
    ensures t in trace[j].tenants && trace[j].tenants[t].place == trace[i].tenants[t].place
    ensures trace[i].tenants[t].schemaRevision.Some? ==> trace[j].tenants[t].schemaRevision.Some?
    decreases j - i
  {
    if i < j {
      RecordPersists(trace, actions, i, j - 1, t);
      RecordedInRun(trace, actions, j - 1, t);
    }
  }

  /** ... and no call is even about to create a database at its place. */
  lemma NoCreateOnceRecorded(trace: seq<State>, actions: seq<Action>, i: nat, k: nat, t: TenantId, u: TenantId)
    requires Execution(trace, actions) && i <= k < |trace|
    requires t in trace[i].tenants && trace[i].tenants[t].schemaRevision.Some?
    requires u in trace[k].runs
    ensures trace[k].runs[u] != Creating(trace[i].tenants[t].place)
  {
    RecordPersists(trace, actions, i, k, t);
    RunsSoundThroughout(trace, actions, k);
    assert RunSound(trace[k], u);
  }

  // ---------------------------------------------------------------- ready means mine

  /** Without drops a database only moves forward: it stays, its owner stays, its revision never falls. */
  ghost predicate Forward(before: Databases, after: Databases) {
    forall p :: p in before ==>
      && p in after
      && before[p].revision <= after[p].revision
      && (before[p].owner.Some? ==> after[p].owner == before[p].owner)
  }

  lemma StepMovesForward(s: State, a: Action, s': State)
    requires Step(s, a, s') && !a.Drop?
    ensures Forward(s.databases, s'.databases)
  {}

  predicate BoundTo(databases: Databases, place: Place, u: TenantId) {
    place in databases && databases[place].owner == Some(u)
  }

  /** The tenant's database exists, is bound to it, and has reached `revision`. */
  ghost predicate Mine(s: State, t: TenantId, revision: Revision) {
    && t in s.tenants && s.tenants[t].place in s.databases
    && s.databases[s.tenants[t].place].owner == Some(t)
    && revision <= s.databases[s.tenants[t].place].revision
  }

  ghost predicate RecordTrue(s: State, t: TenantId)
    requires t in s.tenants
  {
    && (s.tenants[t].status == Ready ==> s.tenants[t].schemaRevision.Some?)
    && (s.tenants[t].schemaRevision.Some? ==> Mine(s, t, s.tenants[t].schemaRevision.value))
  }

  ghost predicate RunTrue(s: State, t: TenantId)
    requires t in s.runs
  {
    match s.runs[t]
    case Migrating(_, binds) => binds || Mine(s, t, 0)
    case ReadingRevision(_, binds) => binds || Mine(s, t, 0)
    case Binding(place, revision) => place in s.databases && revision <= s.databases[place].revision
    case Succeeded(revision) => Mine(s, t, revision)
    case _ => true
  }

  ghost predicate ReadyInvariant(s: State) {
    && RunsSound(s)
    && (forall t :: t in s.tenants ==> RecordTrue(s, t))
    && (forall t :: t in s.runs ==> RunTrue(s, t))
    && (forall t :: t in s.listed && t in s.tenants ==> s.tenants[t].schemaRevision.Some?)
    && (forall t :: t in s.listed ==> t in s.tenants)
  }

  /** The outcome of the pending operation is as true as what it started from. */
  lemma AdvanceKeepsRunTrue(s: State, t: TenantId)
    requires t in s.runs && RunTrue(s, t) && RunSound(s, t) && Underway(s.runs[t])
    ensures RunTrue(s.(databases := DatabasesAfter(s, t), runs := s.runs[t := StageAfter(s, t)]), t)
  {}

  lemma StartedRunIsTrue(s: State, t: TenantId, a: Action, s': State)
    requires Step(s, a, s') && t !in s.runs && t in s'.runs
    requires t in s.tenants ==> RecordTrue(s, t)
    requires t in s.listed ==> t in s.tenants && s.tenants[t].schemaRevision.Some?
    ensures RunTrue(s', t)
  {}

  lemma WaitingRunStaysTrue(s: State, a: Action, s': State, t: TenantId)
    requires Step(s, a, s') && Forward(s.databases, s'.databases) && t in s.runs && t in s'.runs
    requires RunTrue(s, t) && RunSound(s, t) && a != Advance(t) && (!a.Fail? || a.t != t)
    ensures RunTrue(s', t)
  {
    StepKeepsRecord(s, a, s', t);
    assert s'.runs[t] == s.runs[t];
  }

  lemma StepKeepsRunTrue(s: State, a: Action, s': State, t: TenantId)
    requires ReadyInvariant(s) && Step(s, a, s') && !a.Drop? && t in s'.runs
    ensures RunTrue(s', t)
  {
    if t in s.runs {
      assert RunTrue(s, t) && RunSound(s, t);
      if a == Advance(t) {
        AdvanceKeepsRunTrue(s, t);
      } else if !a.Fail? || a.t != t {
        StepMovesForward(s, a, s');
        WaitingRunStaysTrue(s, a, s', t);
      }
    } else {
      assert t in s.tenants ==> RecordTrue(s, t);
      StartedRunIsTrue(s, t, a, s');
    }
  }

  lemma StepKeepsRecordTrue(s: State, a: Action, s': State, t: TenantId)
    requires Step(s, a, s') && Forward(s.databases, s'.databases) && t in s'.tenants
    requires t in s.tenants ==> RecordTrue(s, t)
    requires a == Advance(t) && t in s.runs ==> RunTrue(s, t)
    ensures RecordTrue(s', t)
  {}

  lemma StepKeepsReadyInvariant(s: State, a: Action, s': State)
    requires ReadyInvariant(s) && Step(s, a, s') && !a.Drop?
    ensures ReadyInvariant(s')
  {
    StepKeepsRunsSound(s, a, s');
    StepMovesForward(s, a, s');
    forall t | t in s'.tenants ensures RecordTrue(s', t) {
      assert t in s.tenants ==> RecordTrue(s, t);
      assert t in s.runs ==> RunTrue(s, t);
      StepKeepsRecordTrue(s, a, s', t);
    }
    forall t | t in s'.runs ensures RunTrue(s', t) { StepKeepsRunTrue(s, a, s', t); }
    forall t | t in s'.listed ensures t in s'.tenants && s'.tenants[t].schemaRevision.Some? {
      assert RecordTrue(s, t);
      StepKeepsRecord(s, a, s', t);
    }
  }

  lemma {:induction false} ReadyInvariantThroughout(trace: seq<State>, actions: seq<Action>, n: nat)
    requires Execution(trace, actions) && NoDrops(actions) && n < |trace|
    ensures ReadyInvariant(trace[n])
  {
    if n > 0 {
      ReadyInvariantThroughout(trace, actions, n - 1);
      StepKeepsReadyInvariant(trace[n - 1], actions[n - 1], trace[n]);
    }
  }

  /** Ready means mine: with no external drops, whatever databases stood on the servers to begin with, a
      ready tenant's database exists, is bound to that tenant and has reached the recorded revision. */
  lemma ReadyMeansMine(trace: seq<State>, actions: seq<Action>, n: nat, t: TenantId)
    requires Execution(trace, actions) && NoDrops(actions) && n < |trace|
    requires ReadyTenant(trace[n].tenants, t)
    ensures trace[n].tenants[t].schemaRevision.Some?
    ensures Mine(trace[n], t, trace[n].tenants[t].schemaRevision.value)
  {
    ReadyInvariantThroughout(trace, actions, n);
    assert RecordTrue(trace[n], t);
  }

  /** No two ready tenants share a physical database. */
  lemma ReadyTenantsAreSeparate(trace: seq<State>, actions: seq<Action>, n: nat, t: TenantId, u: TenantId)
    requires Execution(trace, actions) && NoDrops(actions) && n < |trace|
    requires ReadyTenant(trace[n].tenants, t) && ReadyTenant(trace[n].tenants, u)
    requires trace[n].tenants[t].place == trace[n].tenants[u].place
    ensures t == u
  {
    ReadyMeansMine(trace, actions, n, t);
    ReadyMeansMine(trace, actions, n, u);
  }

  /** A placement names a database owned by the tenant asked for. */
  lemma PlacementIsOwn(s: State, t: TenantId, place: Place)
    requires ReadyInvariant(s) && Placement(s.tenants, s.servers, t) == Success(place)
    ensures BoundTo(s.databases, place, t)
  {
    assert RecordTrue(s, t);
  }

  /** Every placement the router can be given, in any run, names a database owned by the tenant asked for. */
  lemma PlacementsAreOwn(trace: seq<State>, actions: seq<Action>, n: nat, t: TenantId)
    requires Execution(trace, actions) && NoDrops(actions) && n < |trace|
    requires Placement(trace[n].tenants, trace[n].servers, t).Success?
    ensures var place := Placement(trace[n].tenants, trace[n].servers, t).value;
      place in trace[n].databases && trace[n].databases[place].owner == Some(t)
  {
    ReadyInvariantThroughout(trace, actions, n);
    PlacementIsOwn(trace[n], t, trace[n].tenants[t].place);
  }

  lemma BindingStaysInRun(trace: seq<State>, actions: seq<Action>, n: nat, place: Place, u: TenantId)
    requires Execution(trace, actions) && NoDrops(actions) && n < |actions|
    requires BoundTo(trace[n].databases, place, u)
    ensures BoundTo(trace[n + 1].databases, place, u)
  {
    StepMovesForward(trace[n], actions[n], trace[n + 1]);
  }

  /** The first binding is never overwritten. */
  lemma {:induction false} FirstBindingStays(trace: seq<State>, actions: seq<Action>, i: nat, j: nat,
                                             place: Place, u: TenantId)
    requires Execution(trace, actions) && NoDrops(actions) && i <= j < |trace|
    requires BoundTo(trace[i].databases, place, u)
    ensures BoundTo(trace[j].databases, place, u)
    decreases j - i
  {
    if i < j {
      BindingStaysInRun(trace, actions, i, place, u);
      FirstBindingStays(trace, actions, i + 1, j, place, u);
    }
  }
}
