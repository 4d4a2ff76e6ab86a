/** From any state the calls can leave behind, one failure-free `complete` restores the tenant. */
module ProvisioningConvergence {
  import opened Results
  import opened Ordering
  import opened Registry
  import opened Provisioning
  import opened ProvisioningSafety
  import opened ProvisioningCalls
  import opened ProvisioningRecovery

  /** A database is named after the tenant's new identifier, so no server has one of that name yet. */
  ghost predicate NewNames(trace: seq<State>, actions: seq<Action>)
    requires Execution(trace, actions)
  {
    forall i :: 0 <= i < |actions| && actions[i].Provision? ==> actions[i].place !in trace[i].databases
  }

  /** What the calls may have left of a tenant's database. */
  ghost predicate OwnOrUnbound(s: State, t: TenantId)
    requires t in s.tenants
  {
    var place := s.tenants[t].place;
    place in s.databases ==>
      && s.databases[place].revision <= s.head
      && s.databases[place].owner in {None, Some(t)}
      && s.databases[place].granted <= Elements(s.roles)
  }

  /** An operation of `u`'s call reaches `t`'s database only if `u` is `t`. */
  lemma CallKeepsOwn(s: State, u: TenantId, databases: Databases, t: TenantId)
    requires u in s.runs && RunSound(s, u) && t in s.tenants && OwnOrUnbound(s, t)
    requires databases == s.databases || databases == DatabasesAfter(s, u)
    requires s.tenants[t].place.name == s.tenants[u].place.name ==> t == u
    ensures OwnOrUnbound(s.(databases := databases), t)
  {}

  lemma StepKeepsOwn(s: State, a: Action, s': State, t: TenantId)
    requires Step(s, a, s') && !a.Drop? && RunsSound(s) && t in s'.tenants
    requires a.Provision? ==> a.place !in s.databases
    requires t in s.tenants ==> OwnOrUnbound(s, t)
    ensures OwnOrUnbound(s', t)
  {
    if a.Advance? || a.Fail? {
      assert RunSound(s, a.t);
      StepKeepsRecord(s, a, s', t);
      CallKeepsOwn(s, a.t, s'.databases, t);
    }
  }

  lemma {:induction false} OwnThroughout(trace: seq<State>, actions: seq<Action>, n: nat, t: TenantId)
    requires Execution(trace, actions) && NoDrops(actions) && NewNames(trace, actions)
    requires n < |trace| && t in trace[n].tenants
    ensures OwnOrUnbound(trace[n], t)
  {
    if n > 0 {
      if t in trace[n - 1].tenants { OwnThroughout(trace, actions, n - 1, t); }
      RunsSoundThroughout(trace, actions, n - 1);
      StepKeepsOwn(trace[n - 1], actions[n - 1], trace[n], t);
    }
  }

  lemma {:induction false} HeadThroughout(trace: seq<State>, actions: seq<Action>, n: nat)
    requires Execution(trace, actions) && n < |trace|
    ensures trace[n].head >= 1
  {
    if n > 0 {
      HeadThroughout(trace, actions, n - 1);
      assert Step(trace[n - 1], actions[n - 1], trace[n]);
    }
  }

  /** Whatever calls failed or died before, and at whichever operation: as long as no database was lost, one
      failure-free `complete` ends in the one good state, and a second changes nothing. */
  lemma CompleteConverges(trace: seq<State>, actions: seq<Action>, n: nat, t: TenantId)
    requires Execution(trace, actions) && NoDrops(actions) && NewNames(trace, actions) && n < |trace|
    requires t in trace[n].tenants && t !in trace[n].runs && trace[n].tenants[t].place.server in trace[n].servers
    ensures var s := trace[n]; var e := CompleteCall(s, t, NO_FAULTS);
      && e == s.(tenants := RecordDatabaseState(s.tenants, t, Ready, Some(s.head), false),
                 databases := s.databases[s.tenants[t].place :=
                   PhysicalDatabase(false, Elements(s.roles), s.head, Some(t))])
      && CompleteCall(e, t, NO_FAULTS) == e
  {
    var s := trace[n];
    ReadyInvariantThroughout(trace, actions, n);
    assert RecordTrue(s, t);
    OwnThroughout(trace, actions, n, t);
    HeadThroughout(trace, actions, n);
    CompleteRecovers(s, t);
    CompleteIsIdempotent(s, t);
    assert Found(s, s.tenants[t].place).granted + Elements(s.roles) == Elements(s.roles);
  }
}
