/** Provisioning and routing together: which database a caller of `for_tenant` ends up connected to.

    Provisioning calls and router threads interleave freely.  A router thread that has missed the cache reads
    the placement from the registry as it stands at that moment, and builds its pool later. */
module TenantAccess {
  import opened Results
  import opened Registry
  import opened TenantRouting
  import Provisioning
  import Safety = ProvisioningSafety
  import Router = RouterThreads

  datatype State = State(provisioning: Provisioning.State, router: Router.State)

  datatype Action = Provision(change: Provisioning.Action) | Route(call: Router.Action)

  ghost predicate Init(s: State) {
    Provisioning.Init(s.provisioning) && Router.Init(s.router)
  }

  /** What the registry answers a thread that asks for its tenant's placement. */
  predicate Answered(s: State, call: Router.Action) {
    call.Locate? && Router.Enabled(s.router, call) ==>
      Placement(s.provisioning.tenants, s.provisioning.servers, s.router.threads[call.i].tenant) == Success(call.place)
  }

  ghost predicate Step(s: State, a: Action, s': State) {
    match a
    case Provision(change) => Provisioning.Step(s.provisioning, change, s'.provisioning) && s'.router == s.router
    case Route(call) =>
      && Router.Step(s.router, call, s'.router) && s'.provisioning == s.provisioning
      && Answered(s, call)
  }

  ghost predicate Execution(trace: seq<State>, actions: seq<Action>) {
    && |trace| == |actions| + 1 && Init(trace[0])
    && forall i :: 0 <= i < |actions| ==> Step(trace[i], actions[i], trace[i + 1])
  }

  predicate Drops(a: Action) {
    a.Provision? && a.change.Drop?
  }

  ghost predicate NoDrops(actions: seq<Action>) {
    forall i :: 0 <= i < |actions| ==> !Drops(actions[i])
  }

  // ---------------------------------------------------------------- the invariant

  /** The database at a place is bound to the tenant it was read for. */
  ghost predicate Reaches(s: State, target: Target) {
    Safety.BoundTo(s.provisioning.databases, target.place, target.tenant)
  }

  ghost predicate LocatedOwn(s: State, th: Router.Thread) {
    th.Located? ==> Reaches(s, Target(th.tenant, th.place))
  }

  /** Every pool ever built, and every placement read and not yet used, leads to its own tenant's database. */
  ghost predicate AllOwn(s: State) {
    && (forall p :: 0 <= p < |s.router.targets| ==> Reaches(s, s.router.targets[p]))
    && (forall i :: 0 <= i < |s.router.threads| ==> LocatedOwn(s, s.router.threads[i]))
  }

  ghost predicate Invariant(s: State) {
    Safety.ReadyInvariant(s.provisioning) && Router.Invariant(s.router) && Router.PoolsAreOwn(s.router) && AllOwn(s)
  }

  /** Bindings outlive every provisioning step. */
  lemma ProvisionKeepsOwn(s: State, a: Action, s': State)
    requires AllOwn(s) && Step(s, a, s') && a.Provision? && !Drops(a)
    ensures AllOwn(s')
  {
    Safety.StepMovesForward(s.provisioning, a.change, s'.provisioning);
    forall p | 0 <= p < |s'.router.targets| ensures Reaches(s', s'.router.targets[p]) {
      assert Reaches(s, s.router.targets[p]);
    }
    forall i | 0 <= i < |s'.router.threads| ensures LocatedOwn(s', s'.router.threads[i]) {
      assert LocatedOwn(s, s.router.threads[i]);
    }
  }

  lemma RouteKeepsLocated(s: State, a: Action, s': State, i: nat)
    requires Safety.ReadyInvariant(s.provisioning) && AllOwn(s) && Step(s, a, s') && a.Route?
    requires i < |s'.router.threads|
    ensures LocatedOwn(s', s'.router.threads[i])
  {
    assert LocatedOwn(s, s.router.threads[i]);
    if a.call.Locate? && a.call.i == i {
      Safety.PlacementIsOwn(s.provisioning, s.router.threads[i].tenant, a.call.place);
    }
  }

  lemma RouteKeepsOwn(s: State, a: Action, s': State)
    requires Safety.ReadyInvariant(s.provisioning) && AllOwn(s) && Step(s, a, s') && a.Route?
    ensures AllOwn(s')
  {
    forall p | 0 <= p < |s'.router.targets| ensures Reaches(s', s'.router.targets[p]) {
      if p < |s.router.targets| {
        assert Reaches(s, s.router.targets[p]);
      } else {
        assert a.call.Build? && LocatedOwn(s, s.router.threads[a.call.i]);
      }
    }
    forall i | 0 <= i < |s'.router.threads| ensures LocatedOwn(s', s'.router.threads[i]) {
      RouteKeepsLocated(s, a, s', i);
    }
  }

  lemma StepKeepsInvariant(s: State, a: Action, s': State)
    requires Invariant(s) && Step(s, a, s') && !Drops(a)
    ensures Invariant(s')
  {
    match a
    case Provision(change) =>
      Safety.StepKeepsReadyInvariant(s.provisioning, change, s'.provisioning);
      ProvisionKeepsOwn(s, a, s');
    case Route(call) =>
      Router.StepKeepsInvariant(s.router, call, s'.router);
      Router.StepKeepsPoolsOwn(s.router, call, s'.router);
      RouteKeepsOwn(s, a, s');
  }

  lemma InitHasInvariant(s: State)
    requires Init(s)
    ensures Invariant(s)
  {
    Router.InitHasInvariant(s.router);
  }

  lemma {:induction false} InvariantThroughout(trace: seq<State>, actions: seq<Action>, n: nat)
    requires Execution(trace, actions) && NoDrops(actions) && n < |trace|
    ensures Invariant(trace[n])
  {
    if n == 0 {
      InitHasInvariant(trace[0]);
    } else {
      InvariantThroughout(trace, actions, n - 1);
      StepKeepsInvariant(trace[n - 1], actions[n - 1], trace[n]);
    }
  }

  // ---------------------------------------------------------------- neither part holds up the other

  /** Provisioning goes on whatever the router's threads are doing. */
  lemma ProvisioningIsFree(s: State, change: Provisioning.Action, provisioned: Provisioning.State)
    requires Provisioning.Step(s.provisioning, change, provisioned)
    ensures Step(s, Provision(change), State(provisioned, s.router))
  {}

  /** So does routing; a thread that asks for a placement gets it if the row is ready and its server known. */
  lemma RoutingIsFree(s: State, call: Router.Action)
    requires Router.Enabled(s.router, call)
    requires call.Locate? ==>
      && var t, tenants := s.router.threads[call.i].tenant, s.provisioning.tenants;
      && t in tenants && tenants[t].status == Ready
      && tenants[t].place == call.place && call.place.server in s.provisioning.servers
    ensures Step(s, Route(call), State(s.provisioning, Router.Apply(s.router, call)))
  {}

  // ---------------------------------------------------------------- what callers are promised

  /** Without drops, in every interleaving of provisioning calls and router threads, every pool ever built
      connects to a database bound to the tenant it was built for, from then on. */
  lemma EveryPoolReachesItsTenant(trace: seq<State>, actions: seq<Action>, n: nat, p: nat)
    requires Execution(trace, actions) && NoDrops(actions) && n < |trace| && p < |trace[n].router.targets|
    ensures Reaches(trace[n], trace[n].router.targets[p])
  {
    InvariantThroughout(trace, actions, n);
  }

  /** A call for a tenant, whether it hits, misses or loses the race, returns a live pool that was built for that
      tenant and connects to a database that tenant owns. */
  lemma CallReachesOwnDatabase(trace: seq<State>, actions: seq<Action>, n: nat)
    requires Execution(trace, actions) && NoDrops(actions) && n < |actions|
    requires actions[n].Route? && Router.Enabled(trace[n].router, actions[n].call)
    requires Router.Returned(trace[n].router, actions[n].call).Some?
    ensures var e, s := Router.Returned(trace[n].router, actions[n].call).value, trace[n + 1];
      && e in s.router.cache && s.router.disposed[e.pool] == 0
      && e.pool < |s.router.targets| && s.router.targets[e.pool].tenant == e.tenant
      && Safety.BoundTo(s.provisioning.databases, s.router.targets[e.pool].place, e.tenant)
  {
    var s, s', call := trace[n], trace[n + 1], actions[n].call;
    InvariantThroughout(trace, actions, n);
    assert Step(s, actions[n], s') && !Drops(actions[n]);
    StepKeepsInvariant(s, actions[n], s');
    var e := Router.Returned(s.router, call).value;
    Router.ReturnedIsCached(s.router, call, s'.router);
    Router.CachedIsLive(s'.router, e);
    assert Reaches(s', s'.router.targets[e.pool]);
  }
}
