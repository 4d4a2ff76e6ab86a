/** The outbox relay: claim, publish each claimed event in turn, commit; and one pass over all tenants. */
module OutboxRelays {
  import opened Results
  import opened Ordering
  import opened Registry
  import opened OutboxTable

  datatype Call = Call(id: EventId, accepted: bool)

  /** The message broker: it may accept or refuse any call. */
  class Publisher {
    var calls: seq<Call>

    constructor ()
      ensures calls == []
    {
      calls := [];
    }

    method Publish(id: EventId) returns (accepted: bool)
      modifies this
      ensures calls == old(calls) + [Call(id, accepted)]
    {
      accepted := *;
      calls := calls + [Call(id, accepted)];
    }
  }

  /** A claimed row loaded into the relay's session. */
  class OutboxEvent {
    const id: EventId
    const occurredAt: int
    var dispatched: bool
    var attemptCount: nat
    var lastError: bool

    constructor (row: Row)
      ensures AsRow() == row
    {
      id, occurredAt := row.id, row.occurredAt;
      dispatched, attemptCount, lastError := row.dispatched, row.attempts, row.lastError;
    }

    function AsRow(): Row
      reads this
    {
      Row(id, occurredAt, dispatched, attemptCount, lastError)
    }
  }

  /** The outboxes of all tenant databases, as committed. */
  class TenantDatabases {
    var outbox: map<TenantId, seq<Row>>

    constructor (outbox: map<TenantId, seq<Row>>)
      ensures this.outbox == outbox
    {
      this.outbox := outbox;
    }
  }

  /** How a tenant's part of a pass ends: it commits, its transaction is lost, or no connection is had. */
  datatype Outcome = Commits | RollsBack | Unreachable

  function CallsFor(claim: seq<Row>, results: seq<bool>): (calls: seq<Call>)
    requires |claim| == |results|
    ensures |calls| == |claim|
  {
    seq(|claim|, i requires 0 <= i < |claim| => Call(claim[i].id, results[i]))
  }

  /** Claimed rows after their publish attempts. */
  function AttemptedAll(claim: seq<Row>, results: seq<bool>): (rows: seq<Row>)
    requires |claim| == |results|
    ensures |rows| == |claim|
  {
    seq(|claim|, i requires 0 <= i < |claim| => Attempted(claim[i], results[i]))
  }

  /** An UPDATE by primary key. */
  function WriteBack(rows: seq<Row>, row: Row): seq<Row> {
    if rows == [] then []
    else [if rows[0].id == row.id then row else rows[0]] + WriteBack(rows[1..], row)
  }

  function WriteBackAll(rows: seq<Row>, changed: seq<Row>): seq<Row> {
    if changed == [] then rows
    else WriteBack(WriteBackAll(rows, changed[..|changed| - 1]), changed[|changed| - 1])
  }

  lemma {:induction false} WriteBackAllSkips(row: Row, rest: seq<Row>, changed: seq<Row>)
    requires forall c :: c in changed ==> c.id != row.id
    ensures WriteBackAll([row] + rest, changed) == [row] + WriteBackAll(rest, changed)
    decreases |changed|
  {
    if changed != [] {
      var front, last := changed[..|changed| - 1], changed[|changed| - 1];
      assert last in changed;
      WriteBackAllSkips(row, rest, front);
      assert ([row] + WriteBackAll(rest, front))[1..] == WriteBackAll(rest, front);
    }
  }

  lemma {:induction false} WriteBackAllSplits(rows: seq<Row>, first: Row, changed: seq<Row>)
    ensures WriteBackAll(rows, [first] + changed) == WriteBackAll(WriteBack(rows, first), changed)
    decreases |changed|
  {
    var all := [first] + changed;
    if changed == [] {
      assert all[..0] == [] && all == [first];
    } else {
      assert all[..|all| - 1] == [first] + changed[..|changed| - 1];
      WriteBackAllSplits(rows, first, changed[..|changed| - 1]);
    }
  }

  lemma {:induction false} WriteBackAbsent(rows: seq<Row>, row: Row)
    requires forall r :: r in rows ==> r.id != row.id
    ensures WriteBack(rows, row) == rows
  {
    if rows != [] { WriteBackAbsent(rows[1..], row); }
  }

  lemma AttemptedAllHead(claim: seq<Row>, results: seq<bool>)
    requires |claim| == |results| && claim != []
    ensures AttemptedAll(claim, results)
      == [Attempted(claim[0], results[0])] + AttemptedAll(claim[1..], results[1..])
  {}

  /** Flushing the changed head, then rows with other keys behind it. */
  lemma FlushHead(row: Row, rest: seq<Row>, head: Row, changed: seq<Row>)
    requires head.id == row.id
    requires forall r :: r in rest ==> r.id != row.id
    requires forall c :: c in changed ==> c.id != row.id
    ensures WriteBackAll([row] + rest, [head] + changed) == [head] + WriteBackAll(rest, changed)
  {
    WriteBackAllSplits([row] + rest, head, changed);
    WriteBackAbsent(rest, head);
    assert ([row] + rest)[1..] == rest;
    assert WriteBack([row] + rest, head) == [head] + rest;
    WriteBackAllSkips(head, rest, changed);
  }

  /** Flushing the session's rows by key leaves the table a committed pass describes. */
  lemma {:induction false} FlushIsPass(rows: seq<Row>, locked: set<EventId>, limit: nat, maxAttempts: nat,
                                       results: seq<bool>)
    requires InOrder(rows) && |results| == |ClaimPending(rows, locked, limit, maxAttempts)|
    ensures WriteBackAll(rows, AttemptedAll(ClaimPending(rows, locked, limit, maxAttempts), results))
      == Pass(rows, locked, limit, maxAttempts, results)
  {
    var claim := ClaimPending(rows, locked, limit, maxAttempts);
    if rows != [] && limit > 0 {
      TailInOrder(rows);
      assert rows == [rows[0]] + rows[1..];
      if Available(rows[0], locked, maxAttempts) {
        var rest := ClaimPending(rows[1..], locked, limit - 1, maxAttempts);
        assert claim[0] == rows[0] && claim[1..] == rest;
        AttemptedAllHead(claim, results);
        AttemptedIds(rows[1..], locked, limit - 1, maxAttempts, results[1..], rows[0].id);
        FlushHead(rows[0], rows[1..], Attempted(rows[0], results[0]), AttemptedAll(rest, results[1..]));
        FlushIsPass(rows[1..], locked, limit - 1, maxAttempts, results[1..]);
      } else {
        AttemptedIds(rows[1..], locked, limit, maxAttempts, results, rows[0].id);
        WriteBackAllSkips(rows[0], rows[1..], AttemptedAll(claim, results));
        FlushIsPass(rows[1..], locked, limit, maxAttempts, results);
      }
    } else {
      assert AttemptedAll(claim, results) == [];
    }
  }

  lemma AttemptedIds(rows: seq<Row>, locked: set<EventId>, limit: nat, maxAttempts: nat, results: seq<bool>,
                     other: EventId)
    requires InOrder(rows) && |results| == |ClaimPending(rows, locked, limit, maxAttempts)|
    requires forall r :: r in rows ==> r.id != other
    ensures forall c :: c in AttemptedAll(ClaimPending(rows, locked, limit, maxAttempts), results) ==> c.id != other
  {
    var claim := ClaimPending(rows, locked, limit, maxAttempts);
    ClaimedRows(rows, locked, limit, maxAttempts);
    forall i | 0 <= i < |claim| ensures AttemptedAll(claim, results)[i].id != other {
      assert claim[i] in claim;
    }
  }

  class OutboxRelay {
    const databases: TenantDatabases
    const tenant: TenantId
    const publisher: Publisher
    const batchSize: nat
    const maxAttempts: nat

    constructor (databases: TenantDatabases, tenant: TenantId, publisher: Publisher, batchSize: nat, maxAttempts: nat)
      ensures this.databases == databases && this.tenant == tenant && this.publisher == publisher
      ensures this.batchSize == batchSize && this.maxAttempts == maxAttempts
    {
      this.databases, this.tenant, this.publisher := databases, tenant, publisher;
      this.batchSize, this.maxAttempts := batchSize, maxAttempts;
    }

    /** One publish attempt, recorded on the event whatever the broker answers. */
    method Dispatch(event: OutboxEvent) returns (accepted: bool)
      modifies event, publisher
      ensures publisher.calls == old(publisher.calls) + [Call(event.id, accepted)]
      ensures event.AsRow() == Attempted(old(event.AsRow()), accepted)
      ensures event.attemptCount == old(event.attemptCount) + 1
      ensures event.dispatched <==> old(event.dispatched) || accepted
      ensures event.lastError <==> old(event.lastError) || !accepted
    {
      event.attemptCount := event.attemptCount + 1;
      accepted := publisher.Publish(event.id);
      if !accepted {
        event.lastError := true;
        return false;
      }
      event.dispatched := true;
      return true;
    }

    /** One pass, finding the rows `locked` held by others: every claimed event is offered to the broker once, in
        claim order.  If the transaction is lost after that, the calls stand and the table does not change. */
    method RunOnce(locked: set<EventId>, commits: bool) returns (r: Result<nat, ()>, ghost results: seq<bool>)
      requires tenant in databases.outbox && InOrder(databases.outbox[tenant])
      modifies databases, publisher
      ensures |results| == |ClaimPending(old(databases.outbox)[tenant], locked, batchSize, maxAttempts)|
      ensures publisher.calls == old(publisher.calls)
        + CallsFor(ClaimPending(old(databases.outbox)[tenant], locked, batchSize, maxAttempts), results)
      ensures commits ==> r == Success(Accepted(results))
      ensures commits ==> databases.outbox == old(databases.outbox)[tenant :=
        Pass(old(databases.outbox)[tenant], locked, batchSize, maxAttempts, results)]
      ensures !commits ==> r == Failure(()) && databases.outbox == old(databases.outbox)
    {
      var rows := databases.outbox[tenant];
      var claim := ClaimPending(rows, locked, batchSize, maxAttempts);
      var events := Load(claim);
      var published := 0;
      results := [];
      for i := 0 to |events|
        invariant databases.outbox == old(databases.outbox)
        invariant |results| == i && published == Accepted(results)
        invariant publisher.calls == old(publisher.calls) + CallsFor(claim[..i], results)
        invariant forall j :: 0 <= j < i ==> events[j].AsRow() == Attempted(claim[j], results[j])
        invariant forall j :: i <= j < |events| ==> events[j].AsRow() == claim[j]
      {
        var accepted := Dispatch(events[i]);
        if accepted {
          published := published + 1;
        }
        AcceptedAppend(results, accepted);
        results := results + [accepted];
        assert CallsFor(claim[..i + 1], results) == CallsFor(claim[..i], results[..i]) + [Call(claim[i].id, accepted)];
      }
      assert claim[..|claim|] == claim;
      if !commits {
        return Failure(()), results;
      }
      var flushed := Flush(rows, events, AttemptedAll(claim, results));
      FlushIsPass(rows, locked, batchSize, maxAttempts, results);
      databases.outbox := databases.outbox[tenant := flushed];
      r := Success(published);
    }

    /** Write each event's values back to its row. */
    method Flush(rows: seq<Row>, events: seq<OutboxEvent>, ghost changed: seq<Row>) returns (flushed: seq<Row>)
      requires |events| == |changed| && forall i :: 0 <= i < |events| ==> events[i].AsRow() == changed[i]
      ensures flushed == WriteBackAll(rows, changed)
    {
      flushed := rows;
      for i := 0 to |events|
        invariant flushed == WriteBackAll(rows, changed[..i])
      {
        assert changed[..i + 1][..i] == changed[..i];
        flushed := WriteBack(flushed, events[i].AsRow());
      }
      assert changed[..|events|] == changed;
    }

    method Load(claim: seq<Row>) returns (events: seq<OutboxEvent>)
      ensures |events| == |claim|
      ensures forall i :: 0 <= i < |events| ==> fresh(events[i]) && events[i].AsRow() == claim[i]
      ensures forall i, j :: 0 <= i < j < |events| ==> events[i] != events[j]
    {
      events := [];
      for i := 0 to |claim|
        invariant |events| == i
        invariant forall j :: 0 <= j < i ==> fresh(events[j]) && events[j].AsRow() == claim[j]
        invariant forall j, k :: 0 <= j < k < i ==> events[j] != events[k]
      {
        var event := new OutboxEvent(claim[i]);
        events := events + [event];
      }
    }
  }

  lemma {:induction false} AcceptedAppend(results: seq<bool>, accepted: bool)
    ensures Accepted(results + [accepted]) == Accepted(results) + if accepted then 1 else 0
  {
    if results == [] {
      assert ([] + [accepted])[1..] == [];
    } else {
      assert (results + [accepted])[1..] == results[1..] + [accepted];
      AcceptedAppend(results[1..], accepted);
    }
  }

  // ---------------------------------------------------------------- one pass over every tenant

  /** The tenants a pass visits: active, with a ready database, in id order. */
  function ActiveIds(tenants: Tenants): seq<TenantId> {
    Sorted((set t | t in tenants && tenants[t].active && tenants[t].status == Ready), IdLess)
  }

  /** The rows of `t` that other relays hold. */
  function LockedIn(locked: map<TenantId, set<EventId>>, t: TenantId): set<EventId> {
    if t in locked then locked[t] else {}
  }

  ghost predicate OutboxesInOrder(outbox: map<TenantId, seq<Row>>) {
    forall t :: t in outbox ==> InOrder(outbox[t])
  }

  /** Rows marked dispatched in all the outboxes of `ids`. */
  function DispatchedTotal(outbox: map<TenantId, seq<Row>>, ids: seq<TenantId>): nat {
    if ids == [] then 0
    else DispatchedTotal(outbox, ids[..|ids| - 1]) + DispatchedIn(outbox, ids[|ids| - 1])
  }

  function DispatchedIn(outbox: map<TenantId, seq<Row>>, t: TenantId): nat {
    if t in outbox then DispatchedCount(outbox[t]) else 0
  }

  /** What a visit may leave in one tenant's outbox: its own committed pass, or nothing at all if it failed. */
  ghost predicate TenantAfter(before: map<TenantId, seq<Row>>, after: map<TenantId, seq<Row>>, t: TenantId,
                              locked: set<EventId>, outcome: Outcome, answers: seq<bool>,
                              batchSize: nat, maxAttempts: nat)
    requires t in before && t in after
  {
    if outcome == Commits then
      |answers| == |ClaimPending(before[t], locked, batchSize, maxAttempts)|
      && after[t] == Pass(before[t], locked, batchSize, maxAttempts, answers)
    else after[t] == before[t]
  }

  /** The publish calls of one visit: one for each event claimed, whether or not the pass goes on to commit. */
  function CallsOfVisit(before: map<TenantId, seq<Row>>, t: TenantId, locked: set<EventId>, outcome: Outcome,
                        answers: seq<bool>, batchSize: nat, maxAttempts: nat): seq<Call>
  {
    if outcome == Unreachable || t !in before then []
    else
      var claim := ClaimPending(before[t], locked, batchSize, maxAttempts);
      if |answers| == |claim| then CallsFor(claim, answers) else []
  }

  function OutcomeOf(outcomes: map<TenantId, Outcome>, t: TenantId): Outcome {
    if t in outcomes then outcomes[t] else Unreachable
  }

  function AnswersOf(answers: map<TenantId, seq<bool>>, t: TenantId): seq<bool> {
    if t in answers then answers[t] else []
  }

  /** The publish calls of a pass, tenant after tenant. */
  function CallsOfPass(before: map<TenantId, seq<Row>>, ids: seq<TenantId>, locked: map<TenantId, set<EventId>>,
                       outcomes: map<TenantId, Outcome>, answers: map<TenantId, seq<bool>>,
                       batchSize: nat, maxAttempts: nat): seq<Call>
  {
    if ids == [] then []
    else
      var t := ids[|ids| - 1];
      CallsOfPass(before, ids[..|ids| - 1], locked, outcomes, answers, batchSize, maxAttempts)
      + CallsOfVisit(before, t, LockedIn(locked, t), OutcomeOf(outcomes, t), AnswersOf(answers, t),
                     batchSize, maxAttempts)
  }

  class TenantOutboxRelay {
    const databases: TenantDatabases
    const publisher: Publisher
    const batchSize: nat
    const maxAttempts: nat

    constructor (databases: TenantDatabases, publisher: Publisher, batchSize: nat, maxAttempts: nat)
      ensures this.databases == databases && this.publisher == publisher
      ensures this.batchSize == batchSize && this.maxAttempts == maxAttempts
    {
      this.databases, this.publisher := databases, publisher;
      this.batchSize, this.maxAttempts := batchSize, maxAttempts;
    }

    /** One tenant's part of a pass; a failure is swallowed after leaving the outbox as it was, its calls standing. */
    method Visit(t: TenantId, locked: set<EventId>, outcome: Outcome) returns (published: nat, ghost answers: seq<bool>)
      requires outcome != Unreachable ==> t in databases.outbox
      requires OutboxesInOrder(databases.outbox)
      modifies databases, publisher
      ensures OutboxesInOrder(databases.outbox)
      ensures Visited(old(databases.outbox), databases.outbox, t, locked, outcome, answers, published,
                      batchSize, maxAttempts)
      ensures publisher.calls == old(publisher.calls)
        + CallsOfVisit(old(databases.outbox), t, locked, outcome, answers, batchSize, maxAttempts)
    {
      published, answers := 0, [];
      if outcome != Unreachable {
        ghost var rows := databases.outbox[t];
        var relay := new OutboxRelay(databases, t, publisher, batchSize, maxAttempts);
        var result, results := relay.RunOnce(locked, outcome == Commits);
        answers := results;
        if result.Success? {
          PassEffect(rows, locked, batchSize, maxAttempts, results);
          PassKeepsOrder(rows, locked, batchSize, maxAttempts, results);
          published := result.value;
        }
      }
    }

    /** A failing tenant is skipped: it neither changes nor keeps any other tenant from its own pass,
        and the total counts exactly the rows newly committed as dispatched. */
    method RunPass(tenants: Tenants, locked: map<TenantId, set<EventId>>, outcomes: map<TenantId, Outcome>)
      returns (total: nat, ghost answers: map<TenantId, seq<bool>>)
      requires OutboxesInOrder(databases.outbox)
      requires forall t :: t in ActiveIds(tenants) ==> t in outcomes
      requires forall t :: t in ActiveIds(tenants) && outcomes[t] != Unreachable ==> t in databases.outbox
      modifies databases, publisher
      ensures PassResult(old(databases.outbox), databases.outbox, ActiveIds(tenants), locked, outcomes, answers,
                         batchSize, maxAttempts)
      ensures publisher.calls == old(publisher.calls)
        + CallsOfPass(old(databases.outbox), ActiveIds(tenants), locked, outcomes, answers, batchSize, maxAttempts)
      ensures DispatchedTotal(databases.outbox, ActiveIds(tenants))
        == DispatchedTotal(old(databases.outbox), ActiveIds(tenants)) + total
    {
      ActiveIdsDistinct(tenants);
      total, answers := VisitEach(ActiveIds(tenants), locked, outcomes);
    }

    method VisitEach(ids: seq<TenantId>, locked: map<TenantId, set<EventId>>, outcomes: map<TenantId, Outcome>)
      returns (total: nat, ghost answers: map<TenantId, seq<bool>>)
      requires OutboxesInOrder(databases.outbox) && Distinct(ids)
      requires forall t :: t in ids ==> t in outcomes
      requires forall t :: t in ids && outcomes[t] != Unreachable ==> t in databases.outbox
      modifies databases, publisher
      ensures PassResult(old(databases.outbox), databases.outbox, ids, locked, outcomes, answers,
                         batchSize, maxAttempts)
      ensures publisher.calls == old(publisher.calls)
        + CallsOfPass(old(databases.outbox), ids, locked, outcomes, answers, batchSize, maxAttempts)
      ensures DispatchedTotal(databases.outbox, ids) == DispatchedTotal(old(databases.outbox), ids) + total
    {
      ghost var before, calls := databases.outbox, publisher.calls;
      total, answers := 0, map[];
      for i := 0 to |ids|
        invariant OutboxesInOrder(databases.outbox)
        invariant SoFar(before, databases.outbox, ids[..i], locked, outcomes, answers, total, batchSize, maxAttempts)
        invariant Called(calls, publisher.calls, before, ids[..i], locked, outcomes, answers, batchSize, maxAttempts)
      {
        ghost var current, made := databases.outbox, publisher.calls;
        FreshId(ids, i);
        var published, given := Visit(ids[i], LockedIn(locked, ids[i]), outcomes[ids[i]]);
        UntouchedYet(before, current, ids[..i], ids[i], locked, outcomes, answers, total, batchSize, maxAttempts);
        CalledSoFar(before, current, calls, made, ids[..i], ids[i], locked, outcomes, answers, given,
                    batchSize, maxAttempts);
        ResultSoFar(before, current, databases.outbox, ids[..i], ids[i], locked, outcomes, answers, given,
                    total, published, batchSize, maxAttempts);
        total := total + published;
        answers := answers[ids[i] := given];
        assert ids[..i + 1] == ids[..i] + [ids[i]];
      }
      assert ids[..|ids|] == ids;
    }
  }

  /** Where a pass stands after visiting some tenants. */
  ghost predicate SoFar(before: map<TenantId, seq<Row>>, after: map<TenantId, seq<Row>>, visited: seq<TenantId>,
                        locked: map<TenantId, set<EventId>>, outcomes: map<TenantId, Outcome>,
                        answers: map<TenantId, seq<bool>>, total: nat, batchSize: nat, maxAttempts: nat)
  {
    && PassResult(before, after, visited, locked, outcomes, answers, batchSize, maxAttempts)
    && DispatchedTotal(after, visited) == DispatchedTotal(before, visited) + total
  }

  ghost predicate Called(calls: seq<Call>, made: seq<Call>, before: map<TenantId, seq<Row>>, visited: seq<TenantId>,
                         locked: map<TenantId, set<EventId>>, outcomes: map<TenantId, Outcome>,
                         answers: map<TenantId, seq<bool>>, batchSize: nat, maxAttempts: nat)
  {
    made == calls + CallsOfPass(before, visited, locked, outcomes, answers, batchSize, maxAttempts)
  }

  /** What one visit does. */
  ghost predicate Visited(current: map<TenantId, seq<Row>>, after: map<TenantId, seq<Row>>, t: TenantId,
                          locked: set<EventId>, outcome: Outcome, given: seq<bool>, published: nat,
                          batchSize: nat, maxAttempts: nat)
  {
    && after.Keys == current.Keys
    && (forall u :: u in after && u != t ==> after[u] == current[u])
    && (t in after ==> TenantAfter(current, after, t, locked, outcome, given, batchSize, maxAttempts))
    && (t in after && outcome != Unreachable ==>
          |given| == |ClaimPending(current[t], locked, batchSize, maxAttempts)|)
    && DispatchedIn(after, t) == DispatchedIn(current, t) + published
  }

  lemma UntouchedYet(before: map<TenantId, seq<Row>>, current: map<TenantId, seq<Row>>, visited: seq<TenantId>,
                     t: TenantId, locked: map<TenantId, set<EventId>>, outcomes: map<TenantId, Outcome>,
                     answers: map<TenantId, seq<bool>>, total: nat, batchSize: nat, maxAttempts: nat)
    requires SoFar(before, current, visited, locked, outcomes, answers, total, batchSize, maxAttempts) && t !in visited
    ensures (t in before <==> t in current) && (t in before ==> current[t] == before[t])
  {}

  lemma CalledSoFar(before: map<TenantId, seq<Row>>, current: map<TenantId, seq<Row>>,
                    calls: seq<Call>, made: seq<Call>, visited: seq<TenantId>, t: TenantId,
                    locked: map<TenantId, set<EventId>>, outcomes: map<TenantId, Outcome>,
                    answers: map<TenantId, seq<bool>>, given: seq<bool>, batchSize: nat, maxAttempts: nat)
    requires Called(calls, made, before, visited, locked, outcomes, answers, batchSize, maxAttempts)
    requires t !in visited && t in outcomes
    requires (t in before <==> t in current) && (t in before ==> current[t] == before[t])
    ensures Called(calls,
      made + CallsOfVisit(current, t, LockedIn(locked, t), outcomes[t], given, batchSize, maxAttempts),
      before, visited + [t], locked, outcomes, answers[t := given], batchSize, maxAttempts)
  {
    CallsExtend(before, current, visited, t, locked, outcomes, answers, given, batchSize, maxAttempts);
  }

  lemma ResultSoFar(before: map<TenantId, seq<Row>>, current: map<TenantId, seq<Row>>, after: map<TenantId, seq<Row>>,
                    visited: seq<TenantId>, t: TenantId,
                    locked: map<TenantId, set<EventId>>, outcomes: map<TenantId, Outcome>,
                    answers: map<TenantId, seq<bool>>, given: seq<bool>, total: nat, published: nat,
                    batchSize: nat, maxAttempts: nat)
    requires SoFar(before, current, visited, locked, outcomes, answers, total, batchSize, maxAttempts)
    requires t !in visited && t in outcomes
    requires Visited(current, after, t, LockedIn(locked, t), outcomes[t], given, published, batchSize, maxAttempts)
    ensures SoFar(before, after, visited + [t], locked, outcomes, answers[t := given], total + published,
                  batchSize, maxAttempts)
  {
    VisitExtends(before, current, after, visited, t, locked, outcomes, answers, given, batchSize, maxAttempts);
    TotalExtends(before, current, after, visited, t, total, published);
  }

  /** Another tenant's answers do not matter to the calls made so far. */
  lemma {:induction false} CallsAgree(before: map<TenantId, seq<Row>>, ids: seq<TenantId>,
                                      locked: map<TenantId, set<EventId>>, outcomes: map<TenantId, Outcome>,
                                      answers: map<TenantId, seq<bool>>, t: TenantId, given: seq<bool>,
                                      batchSize: nat, maxAttempts: nat)
    requires t !in ids
    ensures CallsOfPass(before, ids, locked, outcomes, answers[t := given], batchSize, maxAttempts)
      == CallsOfPass(before, ids, locked, outcomes, answers, batchSize, maxAttempts)
  {
    if ids != [] {
      assert ids[|ids| - 1] in ids;
      CallsAgree(before, ids[..|ids| - 1], locked, outcomes, answers, t, given, batchSize, maxAttempts);
    }
  }

  lemma CallsExtend(before: map<TenantId, seq<Row>>, current: map<TenantId, seq<Row>>, visited: seq<TenantId>,
                    t: TenantId,
                    locked: map<TenantId, set<EventId>>, outcomes: map<TenantId, Outcome>,
                    answers: map<TenantId, seq<bool>>, given: seq<bool>, batchSize: nat, maxAttempts: nat)
    requires t in outcomes && t !in visited
    requires (t in before <==> t in current) && (t in before ==> current[t] == before[t])
    ensures CallsOfPass(before, visited + [t], locked, outcomes, answers[t := given], batchSize, maxAttempts)
      == CallsOfPass(before, visited, locked, outcomes, answers, batchSize, maxAttempts)
       + CallsOfVisit(current, t, LockedIn(locked, t), outcomes[t], given, batchSize, maxAttempts)
  {
    assert (visited + [t])[..|visited|] == visited;
    CallsAgree(before, visited, locked, outcomes, answers, t, given, batchSize, maxAttempts);
  }

  /** The outboxes of the visited tenants after a pass, each on its own; the others untouched. */
  ghost predicate PassResult(before: map<TenantId, seq<Row>>, after: map<TenantId, seq<Row>>, visited: seq<TenantId>,
                             locked: map<TenantId, set<EventId>>, outcomes: map<TenantId, Outcome>,
                             answers: map<TenantId, seq<bool>>, batchSize: nat, maxAttempts: nat)
  {
    && after.Keys == before.Keys
    && (forall t :: t in visited ==> t in outcomes)
    && (forall t :: t in before && t !in visited ==> after[t] == before[t])
    && (forall t :: t in before && t in visited ==>
          TenantAfter(before, after, t, LockedIn(locked, t), outcomes[t], AnswersOf(answers, t),
                      batchSize, maxAttempts))
    && (forall t :: t in before && t in visited && outcomes[t] != Unreachable ==>
          |AnswersOf(answers, t)| == |ClaimPending(before[t], LockedIn(locked, t), batchSize, maxAttempts)|)
  }

  lemma FreshId(ids: seq<TenantId>, i: nat)
    requires Distinct(ids) && i < |ids|
    ensures ids[i] in ids && ids[i] !in ids[..i]
  {}

  lemma TotalExtends(before: map<TenantId, seq<Row>>, current: map<TenantId, seq<Row>>, after: map<TenantId, seq<Row>>,
                     visited: seq<TenantId>, t: TenantId, total: nat, published: nat)
    requires t !in visited && after.Keys == current.Keys && forall u :: u in after && u != t ==> after[u] == current[u]
    requires (t in before <==> t in current) && (t in before ==> current[t] == before[t])
    requires DispatchedTotal(current, visited) == DispatchedTotal(before, visited) + total
    requires DispatchedIn(after, t) == DispatchedIn(current, t) + published
    ensures DispatchedTotal(after, visited + [t]) == DispatchedTotal(before, visited + [t]) + total + published
  {
    TotalUnchanged(after, current, visited, t);
    assert (visited + [t])[..|visited|] == visited;
  }

  lemma VisitExtends(before: map<TenantId, seq<Row>>, current: map<TenantId, seq<Row>>, after: map<TenantId, seq<Row>>,
                     visited: seq<TenantId>, t: TenantId,
                     locked: map<TenantId, set<EventId>>, outcomes: map<TenantId, Outcome>,
                     answers: map<TenantId, seq<bool>>, given: seq<bool>, batchSize: nat, maxAttempts: nat)
    requires PassResult(before, current, visited, locked, outcomes, answers, batchSize, maxAttempts)
    requires t !in visited && t in outcomes && after.Keys == current.Keys
    requires forall u :: u in after && u != t ==> after[u] == current[u]
    requires t in after ==>
      TenantAfter(current, after, t, LockedIn(locked, t), outcomes[t], given, batchSize, maxAttempts)
    requires t in after && outcomes[t] != Unreachable ==>
      |given| == |ClaimPending(current[t], LockedIn(locked, t), batchSize, maxAttempts)|
    ensures PassResult(before, after, visited + [t], locked, outcomes, answers[t := given], batchSize, maxAttempts)
  {
    forall u | u in before && u in visited
      ensures TenantAfter(before, after, u, LockedIn(locked, u), outcomes[u], AnswersOf(answers, u),
                          batchSize, maxAttempts)
    {
      assert TenantAfter(before, current, u, LockedIn(locked, u), outcomes[u], AnswersOf(answers, u),
                         batchSize, maxAttempts);
    }
  }

  /** The dispatched rows of the listed tenants, each by tenant and position. */
  function DispatchedRows(outbox: map<TenantId, seq<Row>>, ids: seq<TenantId>): set<(TenantId, nat)> {
    if ids == [] then {}
    else
      var t := ids[|ids| - 1];
      DispatchedRows(outbox, ids[..|ids| - 1]) + if t in outbox then Marked(t, DispatchedAt(outbox[t])) else {}
  }

  lemma {:induction false} DispatchedRowsAre(outbox: map<TenantId, seq<Row>>, ids: seq<TenantId>, t: TenantId, i: nat)
    ensures (t, i) in DispatchedRows(outbox, ids)
      <==> t in ids && t in outbox && i < |outbox[t]| && outbox[t][i].dispatched
  {
    if ids != [] {
      var front, last := ids[..|ids| - 1], ids[|ids| - 1];
      DispatchedRowsAre(outbox, front, t, i);
      assert ids == front + [last];
      assert last in outbox ==> ((t, i) in Marked(last, DispatchedAt(outbox[last])) <==>
        t == last && i in DispatchedAt(outbox[last]));
    }
  }

  /** The total is the number of dispatched rows. */
  lemma {:induction false} DispatchedTotalIs(outbox: map<TenantId, seq<Row>>, ids: seq<TenantId>)
    requires Distinct(ids)
    ensures DispatchedTotal(outbox, ids) == |DispatchedRows(outbox, ids)|
  {
    if ids != [] {
      var front, last := ids[..|ids| - 1], ids[|ids| - 1];
      DispatchedTotalIs(outbox, front);
      assert last !in front;
      if last in outbox {
        DispatchedCountIs(outbox[last]);
        MarkedSize(last, DispatchedAt(outbox[last]));
        forall x | x in Marked(last, DispatchedAt(outbox[last])) ensures x !in DispatchedRows(outbox, front) {
          DispatchedRowsAre(outbox, front, x.0, x.1);
        }
      }
    }
  }

  function Marked(t: TenantId, indices: set<nat>): set<(TenantId, nat)> {
    set i | i in indices :: (t, i)
  }

  lemma {:induction false} MarkedSize(t: TenantId, indices: set<nat>)
    ensures |Marked(t, indices)| == |indices|
    decreases indices
  {
    if indices != {} {
      var i :| i in indices;
      MarkedSize(t, indices - {i});
      assert Marked(t, indices) == Marked(t, indices - {i}) + {(t, i)};
    }
  }

  /** Exactly the active tenants with a ready database, each once, by id. */
  lemma ActiveIdsAre(tenants: Tenants)
    ensures forall t :: t in ActiveIds(tenants) <==> t in tenants && tenants[t].active && tenants[t].status == Ready
    ensures forall i, j :: 0 <= i < j < |ActiveIds(tenants)| ==> ActiveIds(tenants)[i] < ActiveIds(tenants)[j]
  {
    var ids := ActiveIds(tenants);
    forall t ensures t in ids <==> t in tenants && tenants[t].active && tenants[t].status == Ready {
      assert t in ids <==> t in Elements(ids);
    }
    forall i, j | 0 <= i < j < |ids| ensures ids[i] < ids[j] {
      assert IdLess(ids[i], ids[j]);
    }
  }

  lemma ActiveIdsDistinct(tenants: Tenants)
    ensures Distinct(ActiveIds(tenants))
  {
    AscendingIsDistinct(ActiveIds(tenants), IdLess);
  }

  lemma {:induction false} TotalUnchanged(a: map<TenantId, seq<Row>>, b: map<TenantId, seq<Row>>,
                                          ids: seq<TenantId>, t: TenantId)
    requires t !in ids && a.Keys == b.Keys && forall u :: u in a && u != t ==> a[u] == b[u]
    ensures DispatchedTotal(a, ids) == DispatchedTotal(b, ids)
  {
    if ids != [] {
      assert ids[|ids| - 1] in ids;
      TotalUnchanged(a, b, ids[..|ids| - 1], t);
    }
  }
}
