/** Module changes as concurrent transactions.

    Each enable or disable call is a transaction that locks the tenant's row, reads what is
    enabled, decides, writes rows one at a time and commits.  Steps of any number of
    transactions interleave freely; any of them may be rolled back at any point before commit.
    Writes are private to their transaction until it commits.  A read issued once the row lock is
    held sees the latest committed rows. */
module ModuleChanges {
  import opened Results
  import opened Ordering
  import opened DependencyGraph
  import opened ModuleCatalogs
  import opened TenantModuleState

  type TxnId = nat

  datatype Change = Enable(key: string, withDependencies: bool) | Disable(key: string)

  datatype Txn =
    | Waiting(tenant: TenantId, change: Change)
    | Locked(tenant: TenantId, change: Change)
    | Deciding(tenant: TenantId, change: Change, current: set<string>)
    | Writing(tenant: TenantId, change: Change, plan: seq<string>, next: nat, writes: Stored)

  datatype State = State(tenants: set<TenantId>, stored: Stored, txns: map<TxnId, Txn>)

  datatype Action =
    | Register(tenant: TenantId)
    | Begin(id: TxnId, tenant: TenantId, change: Change)
    | Lock(id: TxnId)
    | Read(id: TxnId)
    | Decide(id: TxnId)
    | Write(id: TxnId)
    | Commit(id: TxnId)
    | Rollback(id: TxnId)

  ghost function Decision(c: ModuleCatalog, current: set<string>, change: Change): Result<seq<string>, ModuleError> {
    match change
    case Enable(key, withDependencies) => EnableDecision(c, current, key, withDependencies)
    case Disable(key) => DisableDecision(c, current, key)
  }

  /** The checks a call passes before it opens a transaction. */
  predicate Admissible(c: ModuleCatalog, change: Change) {
    change.key in c.modules && (change.Disable? ==> !c.modules[change.key].core)
  }

  predicate HoldsLock(s: State, id: TxnId, t: TenantId) {
    id in s.txns && !s.txns[id].Waiting? && s.txns[id].tenant == t
  }

  ghost predicate Init(s: State) {
    s.stored == map[] && s.txns == map[]
  }

  ghost predicate Step(c: ModuleCatalog, s: State, a: Action, s': State) {
    match a
    case Register(t) => s' == s.(tenants := s.tenants + {t})
    case Begin(id, t, change) =>
      id !in s.txns && Admissible(c, change) && s' == s.(txns := s.txns[id := Waiting(t, change)])
    case Lock(id) =>
      && id in s.txns && s.txns[id].Waiting?
      && var txn := s.txns[id];
      && txn.tenant in s.tenants
      && (forall other :: !HoldsLock(s, other, txn.tenant))
      && s' == s.(txns := s.txns[id := Locked(txn.tenant, txn.change)])
    case Read(id) =>
      && id in s.txns && s.txns[id].Locked?
      && var txn := s.txns[id];
      s' == s.(txns := s.txns[id := Deciding(txn.tenant, txn.change, Enabled(c, s.stored, txn.tenant))])
    case Decide(id) =>
      && id in s.txns && s.txns[id].Deciding?
      && var txn := s.txns[id];
      && Decision(c, txn.current, txn.change).Success?
      && s' == s.(txns := s.txns[id :=
           Writing(txn.tenant, txn.change, Decision(c, txn.current, txn.change).value, 0, map[])])
    case Write(id) =>
      && id in s.txns && s.txns[id].Writing?
      && var txn := s.txns[id];
      && txn.next < |txn.plan|
      && s' == s.(txns := s.txns[id := txn.(next := txn.next + 1,
           writes := txn.writes[(txn.tenant, txn.plan[txn.next]) := txn.change.Enable?])])
    case Commit(id) =>
      && id in s.txns && s.txns[id].Writing? && s.txns[id].next == |s.txns[id].plan|
      && s' == s.(stored := s.stored + s.txns[id].writes, txns := s.txns - {id})
    case Rollback(id) =>
      // a refused change, an unknown tenant, a crash: the transaction leaves nothing behind
      id in s.txns && s' == s.(txns := s.txns - {id})
  }

  ghost predicate Execution(c: ModuleCatalog, trace: seq<State>, actions: seq<Action>) {
    && |trace| == |actions| + 1 && Init(trace[0])
    && forall i :: 0 <= i < |actions| ==> Step(c, trace[i], actions[i], trace[i + 1])
  }

  // ---------------------------------------------------------------- the invariant

  ghost predicate TxnInvariant(c: ModuleCatalog, stored: Stored, txn: Txn) {
    && Admissible(c, txn.change)
    && (txn.Deciding? ==> txn.current == Enabled(c, stored, txn.tenant))
    && (txn.Writing? ==>
          && Decision(c, Enabled(c, stored, txn.tenant), txn.change) == Success(txn.plan)
          && txn.next <= |txn.plan|
          && txn.writes == UpsertAll(map[], txn.tenant, txn.plan[..txn.next], txn.change.Enable?))
  }

  ghost predicate Invariant(c: ModuleCatalog, s: State) {
    && (forall t :: ClosedSet(c, Enabled(c, s.stored, t)))
    && (forall id, other, t :: HoldsLock(s, id, t) && HoldsLock(s, other, t) ==> id == other)
    && (forall id :: id in s.txns ==> TxnInvariant(c, s.stored, s.txns[id]))
  }

  /** Rows written privately and merged at commit are the rows the sequential call would have upserted. */
  lemma {:induction false} PrivateWritesMerge(stored: Stored, t: TenantId, keys: seq<string>, flag: bool)
    ensures stored + UpsertAll(map[], t, keys, flag) == UpsertAll(stored, t, keys, flag)
  {
    if keys != [] {
      PrivateWritesMerge(stored, t, keys[..|keys| - 1], flag);
    }
  }

  lemma DecidedKeysAreOptional(c: ModuleCatalog, current: set<string>, change: Change)
    requires ValidCatalog(c) && ClosedSet(c, current) && Admissible(c, change) && Decision(c, current, change).Success?
    ensures Elements(Decision(c, current, change).value) <= c.modules.Keys - CoreKeys(c)
  {
    match change
    case Enable(key, withDependencies) => NewlyEnabledKeys(c, current, key, withDependencies);
    case Disable(key) =>
  }

  /** A decided change, carried out, leaves the tenant closed and other tenants untouched. */
  lemma DecisionKeepsClosed(c: ModuleCatalog, stored: Stored, t: TenantId, change: Change)
    requires ValidCatalog(c) && ClosedSet(c, Enabled(c, stored, t)) && Admissible(c, change)
    requires Decision(c, Enabled(c, stored, t), change).Success?
    ensures var after := UpsertAll(stored, t, Decision(c, Enabled(c, stored, t), change).value, change.Enable?);
      && ClosedSet(c, Enabled(c, after, t))
      && forall u :: u != t ==> Enabled(c, after, u) == Enabled(c, stored, u)
  {
    var current := Enabled(c, stored, t);
    DecidedKeysAreOptional(c, current, change);
    UpsertedEnabled(c, stored, t, Decision(c, current, change).value, change.Enable?);
    match change
    case Enable(key, withDependencies) => EnableGivesLeastClosure(c, stored, t, key, withDependencies);
    case Disable(key) =>
      DisableAcceptedIffClosed(c, current, key);
      var plan := Decision(c, current, change).value;
      assert current - Elements(plan) == current - {key} by {
        assert Elements([key]) == {key} && Elements<string>([]) == {};
      }
  }

  lemma CommitIsUpsert(c: ModuleCatalog, s: State, id: TxnId, s': State)
    requires Invariant(c, s) && Step(c, s, Commit(id), s')
    ensures s'.stored == UpsertAll(s.stored, s.txns[id].tenant, s.txns[id].plan, s.txns[id].change.Enable?)
  {
    var txn := s.txns[id];
    assert TxnInvariant(c, s.stored, txn);
    assert txn.plan[..txn.next] == txn.plan;
    PrivateWritesMerge(s.stored, txn.tenant, txn.plan, txn.change.Enable?);
  }

  /** Each commit does to the latest committed rows what the same call made alone would do. */
  lemma CommitIsSequentialCall(c: ModuleCatalog, s: State, id: TxnId, s': State)
    requires ValidCatalog(c) && Invariant(c, s) && Step(c, s, Commit(id), s')
    ensures var t, change := s.txns[id].tenant, s.txns[id].change;
      var decision := Decision(c, Enabled(c, s.stored, t), change);
      && decision.Success?
      && s'.stored == UpsertAll(s.stored, t, decision.value, change.Enable?)
      && ClosedSet(c, Enabled(c, s'.stored, t))
      && forall u :: u != t ==> Enabled(c, s'.stored, u) == Enabled(c, s.stored, u)
  {
    var txn := s.txns[id];
    assert TxnInvariant(c, s.stored, txn);
    CommitIsUpsert(c, s, id, s');
    DecisionKeepsClosed(c, s.stored, txn.tenant, txn.change);
  }

  /** A transaction without the lock, or on another tenant, has nothing a commit could change. */
  lemma OtherTxnUnaffected(c: ModuleCatalog, stored: Stored, stored': Stored, txn: Txn)
    requires TxnInvariant(c, stored, txn)
    requires txn.Waiting? || Enabled(c, stored', txn.tenant) == Enabled(c, stored, txn.tenant)
    ensures TxnInvariant(c, stored', txn)
  {}

  lemma CommitKeepsInvariant(c: ModuleCatalog, s: State, id: TxnId, s': State)
    requires ValidCatalog(c) && Invariant(c, s) && Step(c, s, Commit(id), s')
    ensures Invariant(c, s')
  {
    CommitIsSequentialCall(c, s, id, s');
    forall other | other in s'.txns ensures TxnInvariant(c, s'.stored, s'.txns[other]) {
      assert HoldsLock(s, id, s.txns[id].tenant);
      assert !HoldsLock(s, other, s.txns[id].tenant);
      OtherTxnUnaffected(c, s.stored, s'.stored, s.txns[other]);
    }
    LocksSurvive(s, s');
    forall t ensures ClosedSet(c, Enabled(c, s'.stored, t)) {
      assert ClosedSet(c, Enabled(c, s.stored, t));
    }
  }

  /** Every step but a commit touches one transaction and no committed row. */
  lemma PrivateStepKeepsTxns(c: ModuleCatalog, s: State, a: Action, s': State)
    requires Invariant(c, s) && Step(c, s, a, s') && !a.Commit?
    ensures s'.stored == s.stored
    ensures forall id :: id in s'.txns ==> TxnInvariant(c, s'.stored, s'.txns[id])
  {
    forall id | id in s'.txns ensures TxnInvariant(c, s'.stored, s'.txns[id]) {
      if id in s.txns { assert TxnInvariant(c, s.stored, s.txns[id]); }
      if a == Write(id) { WriteKeepsTxn(c, s, id, s'); } else { QuietStepKeepsTxn(c, s, a, s', id); }
    }
  }

  lemma QuietStepKeepsTxn(c: ModuleCatalog, s: State, a: Action, s': State, id: TxnId)
    requires Step(c, s, a, s') && !a.Commit? && a != Write(id) && id in s'.txns
    requires id in s.txns ==> TxnInvariant(c, s.stored, s.txns[id])
    ensures TxnInvariant(c, s'.stored, s'.txns[id])
  {}

  lemma WriteKeepsTxn(c: ModuleCatalog, s: State, id: TxnId, s': State)
    requires Step(c, s, Write(id), s') && id in s.txns && TxnInvariant(c, s.stored, s.txns[id])
    ensures id in s'.txns && TxnInvariant(c, s'.stored, s'.txns[id])
  {
    var txn := s.txns[id];
    assert txn.plan[..txn.next + 1][..txn.next] == txn.plan[..txn.next];
  }

  lemma PrivateStepKeepsLocks(c: ModuleCatalog, s: State, a: Action, s': State)
    requires Invariant(c, s) && Step(c, s, a, s') && !a.Commit?
    ensures forall id, other, t :: HoldsLock(s', id, t) && HoldsLock(s', other, t) ==> id == other
  {
    forall i, j, t | HoldsLock(s', i, t) && HoldsLock(s', j, t) ensures i == j {
      assert HoldsLock(s, i, t) || a == Lock(i);
      assert HoldsLock(s, j, t) || a == Lock(j);
    }
  }

  lemma StepKeepsInvariant(c: ModuleCatalog, s: State, a: Action, s': State)
    requires ValidCatalog(c) && Invariant(c, s) && Step(c, s, a, s')
    ensures Invariant(c, s')
  {
    if a.Commit? {
      CommitKeepsInvariant(c, s, a.id, s');
    } else {
      PrivateStepKeepsTxns(c, s, a, s');
      PrivateStepKeepsLocks(c, s, a, s');
      forall t ensures ClosedSet(c, Enabled(c, s'.stored, t)) {
        assert ClosedSet(c, Enabled(c, s.stored, t));
      }
    }
  }

  lemma LocksSurvive(s: State, s': State)
    requires forall id, t :: HoldsLock(s', id, t) ==> HoldsLock(s, id, t)
    requires forall id, other, t :: HoldsLock(s, id, t) && HoldsLock(s, other, t) ==> id == other
    ensures forall id, other, t :: HoldsLock(s', id, t) && HoldsLock(s', other, t) ==> id == other
  {}

  lemma {:induction false} InvariantThroughout(c: ModuleCatalog, trace: seq<State>, actions: seq<Action>, n: nat)
    requires ValidCatalog(c) && Execution(c, trace, actions) && n < |trace|
    ensures Invariant(c, trace[n])
  {
    if n == 0 {
      CoreIsClosed(c);
      assert forall t :: Enabled(c, map[], t) == CoreKeys(c);
    } else {
      InvariantThroughout(c, trace, actions, n - 1);
      StepKeepsInvariant(c, trace[n - 1], actions[n - 1], trace[n]);
    }
  }

  // ---------------------------------------------------------------- serial equivalence

  datatype Call = Call(tenant: TenantId, change: Change)

  function CallOf(s: State, id: TxnId): Call
    requires id in s.txns
  {
    Call(s.txns[id].tenant, s.txns[id].change)
  }

  /** The calls committed in the first `n` steps, in commit order. */
  function CommittedCalls(trace: seq<State>, actions: seq<Action>, n: nat): seq<Call>
    requires n <= |actions| < |trace|
  {
    if n == 0 then []
    else
      var before, a := CommittedCalls(trace, actions, n - 1), actions[n - 1];
      if a.Commit? && a.id in trace[n - 1].txns
      then before + [CallOf(trace[n - 1], a.id)]
      else before
  }

  /** One call made alone: it is accepted, and these are the rows it leaves. */
  ghost predicate Makes(c: ModuleCatalog, stored: Stored, call: Call, stored': Stored) {
    var decision := Decision(c, Enabled(c, stored, call.tenant), call.change);
    decision.Success? && stored' == UpsertAll(stored, call.tenant, decision.value, call.change.Enable?)
  }

  /** The calls made one after the other, starting from no rows; `rows` are the tables in between. */
  ghost predicate MadeInTurn(c: ModuleCatalog, calls: seq<Call>, rows: seq<Stored>) {
    && |rows| == |calls| + 1 && rows[0] == map[]
    && forall k {:trigger calls[k]} :: 0 <= k < |calls| ==> Makes(c, rows[k], calls[k], rows[k + 1])
  }

  lemma OneMoreCall(c: ModuleCatalog, calls: seq<Call>, rows: seq<Stored>, call: Call, stored: Stored)
    requires MadeInTurn(c, calls, rows) && Makes(c, rows[|calls|], call, stored)
    ensures MadeInTurn(c, calls + [call], rows + [stored])
  {
    forall k | 0 <= k < |calls| + 1
      ensures Makes(c, (rows + [stored])[k], (calls + [call])[k], (rows + [stored])[k + 1])
    {
      if k < |calls| { assert Makes(c, rows[k], calls[k], rows[k + 1]); }
    }
  }

  /** Every interleaved run is equivalent to a serial one: the committed rows are those left by making the committed
      calls one after the other in commit order, each of them accepted there. */
  lemma {:induction false} RunIsSerial(c: ModuleCatalog, trace: seq<State>, actions: seq<Action>, n: nat)
    returns (rows: seq<Stored>)
    requires ValidCatalog(c) && Execution(c, trace, actions) && n <= |actions|
    ensures MadeInTurn(c, CommittedCalls(trace, actions, n), rows) && rows[|rows| - 1] == trace[n].stored
  {
    if n == 0 {
      rows := [map[]];
    } else {
      rows := RunIsSerial(c, trace, actions, n - 1);
      StepIsSerial(c, trace, actions, n - 1);
      var calls := CommittedCalls(trace, actions, n - 1);
      if actions[n - 1].Commit? {
        var call := CallOf(trace[n - 1], actions[n - 1].id);
        OneMoreCall(c, calls, rows, call, trace[n].stored);
        rows := rows + [trace[n].stored];
      }
    }
  }

  /** One step of the run, as far as committed rows go. */
  lemma StepIsSerial(c: ModuleCatalog, trace: seq<State>, actions: seq<Action>, n: nat)
    requires ValidCatalog(c) && Execution(c, trace, actions) && n < |actions|
    ensures !actions[n].Commit? ==> trace[n + 1].stored == trace[n].stored
    ensures actions[n].Commit? ==>
      actions[n].id in trace[n].txns
      && Makes(c, trace[n].stored, CallOf(trace[n], actions[n].id), trace[n + 1].stored)
  {
    InvariantThroughout(c, trace, actions, n);
    assert Step(c, trace[n], actions[n], trace[n + 1]);
    if actions[n].Commit? {
      CommitIsSequentialCall(c, trace[n], actions[n].id, trace[n + 1]);
    } else {
      PrivateStepKeepsTxns(c, trace[n], actions[n], trace[n + 1]);
    }
  }

  // ---------------------------------------------------------------- what a committed call has done

  /** Transaction `id` neither commits nor is rolled back in steps i to j. */
  ghost predicate StaysOpen(actions: seq<Action>, i: nat, j: nat, id: TxnId)
    requires i <= j <= |actions|
  {
    forall k :: i <= k < j ==> actions[k] != Commit(id) && actions[k] != Rollback(id)
  }

  predicate Carries(s: State, id: TxnId, t: TenantId, change: Change) {
    id in s.txns && s.txns[id].tenant == t && s.txns[id].change == change
  }

  lemma OpenStepCarries(c: ModuleCatalog, trace: seq<State>, actions: seq<Action>, n: nat, id: TxnId,
                        t: TenantId, change: Change)
    requires Execution(c, trace, actions) && n < |actions| && Carries(trace[n], id, t, change)
    requires actions[n] != Commit(id) && actions[n] != Rollback(id)
    ensures Carries(trace[n + 1], id, t, change)
  {
    assert Step(c, trace[n], actions[n], trace[n + 1]);
  }

  lemma {:induction false} OpenCarries(c: ModuleCatalog, trace: seq<State>, actions: seq<Action>, i: nat, j: nat,
                                       id: TxnId, t: TenantId, change: Change)
    requires Execution(c, trace, actions) && i <= j <= |actions| && StaysOpen(actions, i, j, id)
    requires Carries(trace[i], id, t, change)
    ensures Carries(trace[j], id, t, change)
    decreases j - i
  {
    if i < j {
      OpenStepCarries(c, trace, actions, i, id, t, change);
      OpenCarries(c, trace, actions, i + 1, j, id, t, change);
    }
  }

  /** A call that was begun and went on to commit has done what it was asked: the module is on, with everything it
      needs, or it is off; and no other tenant's modules have changed. */
  lemma CommittedCallTookEffect(c: ModuleCatalog, trace: seq<State>, actions: seq<Action>, i: nat, j: nat,
                                id: TxnId, t: TenantId, change: Change)
    requires ValidCatalog(c) && Execution(c, trace, actions) && i < j < |actions|
    requires actions[i] == Begin(id, t, change) && actions[j] == Commit(id) && StaysOpen(actions, i + 1, j, id)
    ensures var before, after := Enabled(c, trace[j].stored, t), Enabled(c, trace[j + 1].stored, t);
      && (change.Enable? ==> after == before + Reachable(DependsOn(c.modules), change.key) + {change.key})
      && (change.Disable? ==> after == before - {change.key})
    ensures forall u :: u != t ==> Enabled(c, trace[j + 1].stored, u) == Enabled(c, trace[j].stored, u)
  {
    assert Step(c, trace[i], actions[i], trace[i + 1]);
    OpenCarries(c, trace, actions, i + 1, j, id, t, change);
    InvariantThroughout(c, trace, actions, j);
    StepIsSerial(c, trace, actions, j);
    assert TxnInvariant(c, trace[j].stored, trace[j].txns[id]);
    DecisionTakesEffect(c, trace[j].stored, t, change);
  }

  lemma DecisionTakesEffect(c: ModuleCatalog, stored: Stored, t: TenantId, change: Change)
    requires ValidCatalog(c) && ClosedSet(c, Enabled(c, stored, t)) && Admissible(c, change)
    requires Decision(c, Enabled(c, stored, t), change).Success?
    ensures var after := UpsertAll(stored, t, Decision(c, Enabled(c, stored, t), change).value, change.Enable?);
      && (change.Enable? ==>
            Enabled(c, after, t) == Enabled(c, stored, t) + Reachable(DependsOn(c.modules), change.key) + {change.key})
      && (change.Disable? ==> Enabled(c, after, t) == Enabled(c, stored, t) - {change.key})
      && (forall u :: u != t ==> Enabled(c, after, u) == Enabled(c, stored, u))
  {
    match change
    case Enable(key, withDependencies) => EnableAdds(c, stored, t, key, withDependencies);
    case Disable(key) =>
      var current := Enabled(c, stored, t);
      var plan := Decision(c, current, change).value;
      DecidedKeysAreOptional(c, current, change);
      UpsertedEnabled(c, stored, t, plan, false);
      assert current - Elements(plan) == current - {key} by {
        assert Elements([key]) == {key} && Elements<string>([]) == {};
      }
  }

  // ---------------------------------------------------------------- a call made alone is a run

  ghost predicate RunFrom(c: ModuleCatalog, s: State, trace: seq<State>, actions: seq<Action>, s': State) {
    && |trace| == |actions| + 1 && trace[0] == s && trace[|actions|] == s'
    && forall i :: 0 <= i < |actions| ==> Step(c, trace[i], actions[i], trace[i + 1])
  }

  lemma OneMoreStep(c: ModuleCatalog, s: State, a: Action, m: State, trace: seq<State>, actions: seq<Action>, s': State)
    requires Step(c, s, a, m) && RunFrom(c, m, trace, actions, s')
    ensures RunFrom(c, s, [s] + trace, [a] + actions, s')
  {
    forall i | 0 <= i < |actions| + 1 ensures Step(c, ([s] + trace)[i], ([a] + actions)[i], ([s] + trace)[i + 1]) {
      if i > 0 { assert Step(c, trace[i - 1], actions[i - 1], trace[i]); }
    }
  }

  /** The rows still to be written, then the commit. */
  lemma {:induction false} WritesAreARun(c: ModuleCatalog, s: State, id: TxnId)
    returns (trace: seq<State>, actions: seq<Action>, s': State)
    requires id in s.txns && s.txns[id].Writing? && s.txns[id].next <= |s.txns[id].plan|
    requires var txn := s.txns[id];
      txn.writes == UpsertAll(map[], txn.tenant, txn.plan[..txn.next], txn.change.Enable?)
    ensures RunFrom(c, s, trace, actions, s')
    ensures var txn := s.txns[id];
      s' == s.(stored := UpsertAll(s.stored, txn.tenant, txn.plan, txn.change.Enable?), txns := s.txns - {id})
    decreases |s.txns[id].plan| - s.txns[id].next
  {
    var txn := s.txns[id];
    if txn.next == |txn.plan| {
      assert txn.plan[..txn.next] == txn.plan;
      PrivateWritesMerge(s.stored, txn.tenant, txn.plan, txn.change.Enable?);
      s' := s.(stored := s.stored + txn.writes, txns := s.txns - {id});
      trace, actions := [s, s'], [Commit(id)];
    } else {
      var written := txn.(next := txn.next + 1,
        writes := txn.writes[(txn.tenant, txn.plan[txn.next]) := txn.change.Enable?]);
      var m := s.(txns := s.txns[id := written]);
      assert txn.plan[..txn.next + 1][..txn.next] == txn.plan[..txn.next];
      var rest, more, done := WritesAreARun(c, m, id);
      OneMoreStep(c, s, Write(id), m, rest, more, done);
      assert m.txns - {id} == s.txns - {id};
      trace, actions, s' := [s] + rest, [Write(id)] + more, done;
    }
  }

  /** Any call the class accepts can be made as a transaction while no other holds the tenant's row, and ends in the
      rows the class leaves. */
  lemma CallAloneIsARun(c: ModuleCatalog, s: State, id: TxnId, t: TenantId, change: Change)
    returns (trace: seq<State>, actions: seq<Action>, s': State)
    requires change.key in c.modules && (change.Disable? ==> !c.modules[change.key].core)
    requires id !in s.txns && t in s.tenants
    requires forall other :: !HoldsLock(s, other, t)
    requires Decision(c, Enabled(c, s.stored, t), change).Success?
    ensures RunFrom(c, s, trace, actions, s')
    ensures var plan := Decision(c, Enabled(c, s.stored, t), change).value;
      s' == s.(stored := UpsertAll(s.stored, t, plan, change.Enable?))
  {
    var plan := Decision(c, Enabled(c, s.stored, t), change).value;
    var begun := s.(txns := s.txns[id := Waiting(t, change)]);
    var locked := s.(txns := s.txns[id := Locked(t, change)]);
    var deciding := s.(txns := s.txns[id := Deciding(t, change, Enabled(c, s.stored, t))]);
    var writing := s.(txns := s.txns[id := Writing(t, change, plan, 0, map[])]);
    forall other ensures !HoldsLock(begun, other, t) { assert !HoldsLock(s, other, t); }
    assert begun.txns[id := Locked(t, change)] == locked.txns;
    assert locked.txns[id := Deciding(t, change, Enabled(c, s.stored, t))] == deciding.txns;
    assert deciding.txns[id := Writing(t, change, plan, 0, map[])] == writing.txns;
    assert plan[..0] == [];
    trace, actions, s' := WritesAreARun(c, writing, id);
    assert writing.txns - {id} == s.txns;
    OneMoreStep(c, deciding, Decide(id), writing, trace, actions, s');
    trace, actions := [deciding] + trace, [Decide(id)] + actions;
    OneMoreStep(c, locked, Read(id), deciding, trace, actions, s');
    trace, actions := [locked] + trace, [Read(id)] + actions;
    OneMoreStep(c, begun, Lock(id), locked, trace, actions, s');
    trace, actions := [begun] + trace, [Lock(id)] + actions;
    OneMoreStep(c, s, Begin(id, t, change), begun, trace, actions, s');
    trace, actions := [s] + trace, [Begin(id, t, change)] + actions;
  }

  /** A tenant may be registered at any moment, and once it is, it can be given any installed module; it then has that
      module, all the module needs, and the core modules. */
  lemma NewTenantCanEnable(c: ModuleCatalog, s: State, id: TxnId, t: TenantId, key: string)
    returns (trace: seq<State>, actions: seq<Action>, s': State)
    requires ValidCatalog(c) && key in c.modules && id !in s.txns && t !in s.tenants
    requires (forall k :: (t, k) !in s.stored) && (forall other :: !HoldsLock(s, other, t))
    ensures RunFrom(c, s, trace, actions, s') && s'.tenants == s.tenants + {t} && s'.txns == s.txns
    ensures Enabled(c, s'.stored, t) == CoreKeys(c) + Reachable(DependsOn(c.modules), key) + {key}
    ensures forall u :: u != t ==> Enabled(c, s'.stored, u) == Enabled(c, s.stored, u)
  {
    var m, change := s.(tenants := s.tenants + {t}), Enable(key, true);
    forall other ensures !HoldsLock(m, other, t) { assert !HoldsLock(s, other, t); }
    NoRowsMeansCore(c, s.stored, t);
    assert Enabled(c, s.stored, t) == CoreKeys(c);
    CoreIsClosed(c);
    DecisionTakesEffect(c, s.stored, t, change);
    var rest, more, done := CallAloneIsARun(c, m, id, t, change);
    OneMoreStep(c, s, Register(t), m, rest, more, done);
    trace, actions, s' := [s] + rest, [Register(t)] + more, done;
  }

  /** An open call may end at any moment, refused or broken off, and then leaves no row behind. */
  lemma StopsAtAnyTime(c: ModuleCatalog, s: State, id: TxnId)
    requires id in s.txns
    ensures Step(c, s, Rollback(id), s.(txns := s.txns - {id}))
  {}

  /** Only tenants that exist are locked, so rows are only ever written for those. */
  ghost predicate KnownTenants(s: State) {
    && (forall id :: id in s.txns && !s.txns[id].Waiting? ==> s.txns[id].tenant in s.tenants)
    && (forall id, p :: id in s.txns && s.txns[id].Writing? && p in s.txns[id].writes ==> p.0 == s.txns[id].tenant)
    && (forall p :: p in s.stored ==> p.0 in s.tenants)
  }

  lemma StepKeepsKnown(c: ModuleCatalog, s: State, a: Action, s': State)
    requires KnownTenants(s) && Step(c, s, a, s')
    ensures KnownTenants(s')
  {}

  lemma {:induction false} RowsOfKnownTenants(c: ModuleCatalog, trace: seq<State>, actions: seq<Action>, n: nat)
    requires Execution(c, trace, actions) && n < |trace|
    ensures KnownTenants(trace[n])
  {
    if n > 0 {
      RowsOfKnownTenants(c, trace, actions, n - 1);
      StepKeepsKnown(c, trace[n - 1], actions[n - 1], trace[n]);
    }
  }

  // ---------------------------------------------------------------- what readers see

  /** Safety over every interleaving: whatever a lock-free reader sees as enabled comes with all its
      transitive dependencies and all core modules, in every reachable state, for every tenant. */
  lemma ReadersSeeClosedSets(c: ModuleCatalog, trace: seq<State>, actions: seq<Action>, n: nat, t: TenantId,
                             key: string)
    requires ValidCatalog(c) && Execution(c, trace, actions) && n < |trace|
    requires key in Enabled(c, trace[n].stored, t)
    ensures CoreKeys(c) <= Enabled(c, trace[n].stored, t)
    ensures forall d :: Reaches(DependsOn(c.modules), key, d) ==> d in Enabled(c, trace[n].stored, t)
  {
    InvariantThroughout(c, trace, actions, n);
    forall d | Reaches(DependsOn(c.modules), key, d) ensures d in Enabled(c, trace[n].stored, t) {
      var p :| PathBetween(DependsOn(c.modules), p, key, d);
      assert d in Reachable(DependsOn(c.modules), key);
    }
  }

  /** Inside an open transaction too: the rows as its own statements see them are closed after each write. */
  lemma OwnWritesStayClosed(c: ModuleCatalog, trace: seq<State>, actions: seq<Action>, n: nat, id: TxnId)
    requires ValidCatalog(c) && Execution(c, trace, actions) && n < |trace|
    requires id in trace[n].txns && trace[n].txns[id].Writing?
    ensures var txn := trace[n].txns[id];
      ClosedSet(c, Enabled(c, trace[n].stored + txn.writes, txn.tenant))
  {
    InvariantThroughout(c, trace, actions, n);
    var s, txn := trace[n], trace[n].txns[id];
    assert TxnInvariant(c, s.stored, txn);
    PrivateWritesMerge(s.stored, txn.tenant, txn.plan[..txn.next], txn.change.Enable?);
    if txn.next == 0 {
      assert txn.plan[..0] == [];
    } else if txn.change.Enable? {
      EnableClosedAfterEachUpsert(c, s.stored, txn.tenant, txn.change.key, txn.change.withDependencies, txn.next);
    } else {
      assert txn.plan[..txn.next] == txn.plan;
      DecisionKeepsClosed(c, s.stored, txn.tenant, txn.change);
    }
  }
}
