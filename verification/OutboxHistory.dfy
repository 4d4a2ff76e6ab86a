/** Which events a run delivers: exactly those enqueued by a business transaction that committed. */
module OutboxHistory {
  import opened OutboxTable
  import opened OutboxDelivery
  import opened EndToEndDelivery

  predicate Enqueues(a: Action, x: TxnId, row: Row) {
    a == Send(Enqueue(x, row))
  }

  predicate Commits(a: Action, x: TxnId) {
    a == Send(CommitBusiness(x))
  }

  predicate RollsBack(a: Action, x: TxnId) {
    a == Send(RollbackBusiness(x))
  }

  /** Transaction `x` stays open through steps i to j. */
  ghost predicate StaysOpen(actions: seq<Action>, i: nat, j: nat, x: TxnId)
    requires i <= j <= |actions|
  {
    forall k :: i <= k < j ==> !Commits(actions[k], x) && !RollsBack(actions[k], x)
  }

  // ---------------------------------------------------------------- committed transactions

  /** An open transaction keeps what was enqueued in it. */
  lemma OpenStepKeepsRow(maxAttempts: nat, trace: seq<State>, actions: seq<Action>, n: nat, x: TxnId, e: EventId)
    requires Execution(maxAttempts, trace, actions) && n < |actions|
    requires !Commits(actions[n], x) && !RollsBack(actions[n], x)
    requires x in trace[n].sender.business && e in trace[n].sender.business[x]
    ensures x in trace[n + 1].sender.business && e in trace[n + 1].sender.business[x]
    ensures trace[n + 1].sender.business[x][e] == trace[n].sender.business[x][e]
  {
    InvariantThroughout(maxAttempts, trace, actions, n);
    assert Step(maxAttempts, trace[n], actions[n], trace[n + 1]);
    if actions[n].Send? {
      SendKeepsOpenRow(maxAttempts, trace[n].sender, actions[n].send, trace[n + 1].sender, x, e);
    }
  }

  lemma SendKeepsOpenRow(maxAttempts: nat, s: Sender, a: SendAction, s': Sender, x: TxnId, e: EventId)
    requires SendStep(maxAttempts, s, a, s') && a != CommitBusiness(x) && a != RollbackBusiness(x)
    requires x in s.business && e in s.business[x] && e in s.issued
    ensures x in s'.business && e in s'.business[x] && s'.business[x][e] == s.business[x][e]
  {}

  lemma {:induction false} OpenKeepsRow(maxAttempts: nat, trace: seq<State>, actions: seq<Action>, i: nat, j: nat,
                                        x: TxnId, e: EventId)
    requires Execution(maxAttempts, trace, actions) && i <= j <= |actions| && StaysOpen(actions, i, j, x)
    requires x in trace[i].sender.business && e in trace[i].sender.business[x]
    ensures x in trace[j].sender.business && e in trace[j].sender.business[x]
    ensures trace[j].sender.business[x][e] == trace[i].sender.business[x][e]
    decreases j - i
  {
    if i < j {
      OpenStepKeepsRow(maxAttempts, trace, actions, i, x, e);
      OpenKeepsRow(maxAttempts, trace, actions, i + 1, j, x, e);
    }
  }

  /** An event enqueued in a transaction that goes on to commit is a row of the outbox from then on: at the commit
      undispatched, with no attempts and no error, and never afterwards taken away. */
  lemma EnqueuedThenCommitted(maxAttempts: nat, trace: seq<State>, actions: seq<Action>, i: nat, j: nat, n: nat,
                              x: TxnId, row: Row)
    requires Execution(maxAttempts, trace, actions) && i < j < n <= |actions|
    requires Enqueues(actions[i], x, row) && Commits(actions[j], x) && StaysOpen(actions, i + 1, j, x)
    ensures row.id in trace[j + 1].sender.rows
    ensures trace[j + 1].sender.rows[row.id] == Row(row.id, row.occurredAt, false, 0, false)
    ensures row.id in trace[n].sender.rows && trace[n].sender.rows[row.id].occurredAt == row.occurredAt
  {
    assert Step(maxAttempts, trace[i], actions[i], trace[i + 1]);
    OpenKeepsRow(maxAttempts, trace, actions, i + 1, j, x, row.id);
    assert Step(maxAttempts, trace[j], actions[j], trace[j + 1]);
    RowsOnlyAdvance(maxAttempts, trace, actions, j + 1, n, row.id);
  }

  /** Any event with a new id can be enqueued and committed at any time, whatever else is going on. */
  lemma EnqueueAndCommit(maxAttempts: nat, s: Sender, x: TxnId, e: EventId, occurredAt: int)
    returns (begun: Sender, filled: Sender, done: Sender)
    requires x !in s.business && e !in s.issued
    ensures SendStep(maxAttempts, s, BeginBusiness(x), begun)
    ensures SendStep(maxAttempts, begun, Enqueue(x, Row(e, occurredAt, false, 0, false)), filled)
    ensures SendStep(maxAttempts, filled, CommitBusiness(x), done)
    ensures done.rows == s.rows[e := Row(e, occurredAt, false, 0, false)]
    ensures done.business == s.business && done.passes == s.passes && done.calls == s.calls
  {
    var row := Row(e, occurredAt, false, 0, false);
    begun := s.(business := s.business[x := map[]]);
    filled := begun.(issued := s.issued + {e}, business := begun.business[x := With(map[], e, row)]);
    done := filled.(rows := s.rows + With(map[], e, row), business := filled.business - {x});
    assert filled.business - {x} == s.business;
  }

  /** A transaction or a pass may be lost at any moment; the committed rows and the calls made stay. */
  lemma LostAtAnyTime(maxAttempts: nat, s: Sender, x: TxnId, p: PassId)
    ensures x in s.business ==>
      SendStep(maxAttempts, s, RollbackBusiness(x), s.(business := s.business - {x}))
    ensures p in s.passes ==>
      SendStep(maxAttempts, s, LosePass(p), s.(passes := s.passes - {p}, fates := s.fates[p := Lost]))
  {}

  // ---------------------------------------------------------------- rolled-back transactions

  /** The id was handed out, and no row bears it, committed or not. */
  ghost predicate Gone(s: Sender, e: EventId) {
    e in s.issued && e !in s.rows && forall x :: x in s.business ==> e !in s.business[x]
  }

  lemma GoneStays(maxAttempts: nat, trace: seq<State>, actions: seq<Action>, n: nat, e: EventId)
    requires Execution(maxAttempts, trace, actions) && n < |actions| && Gone(trace[n].sender, e)
    ensures Gone(trace[n + 1].sender, e)
  {
    InvariantThroughout(maxAttempts, trace, actions, n);
    assert Step(maxAttempts, trace[n], actions[n], trace[n + 1]);
    if actions[n].Send? {
      var s, a, s' := trace[n].sender, actions[n].send, trace[n + 1].sender;
      if e in s'.rows { NewRowIsBusiness(maxAttempts, s, a, s', e); }
    }
  }

  lemma {:induction false} GoneThroughout(maxAttempts: nat, trace: seq<State>, actions: seq<Action>, i: nat, n: nat,
                                          e: EventId)
    requires Execution(maxAttempts, trace, actions) && i <= n <= |actions| && Gone(trace[i].sender, e)
    ensures Gone(trace[n].sender, e)
    decreases n - i
  {
    if i < n {
      GoneStays(maxAttempts, trace, actions, i, e);
      GoneThroughout(maxAttempts, trace, actions, i + 1, n, e);
    }
  }

  lemma RollbackLeavesGone(maxAttempts: nat, trace: seq<State>, actions: seq<Action>, n: nat, x: TxnId, e: EventId)
    requires Execution(maxAttempts, trace, actions) && n < |actions| && RollsBack(actions[n], x)
    requires x in trace[n].sender.business && e in trace[n].sender.business[x]
    ensures Gone(trace[n + 1].sender, e)
  {
    InvariantThroughout(maxAttempts, trace, actions, n);
    assert Step(maxAttempts, trace[n], actions[n], trace[n + 1]);
  }

  /** An event of a rolled-back transaction never becomes a row, so it is never published and never reaches the
      broker. */
  lemma EnqueuedThenRolledBack(maxAttempts: nat, trace: seq<State>, actions: seq<Action>, i: nat, j: nat, n: nat,
                               x: TxnId, row: Row)
    requires Execution(maxAttempts, trace, actions) && i < j < n <= |actions|
    requires Enqueues(actions[i], x, row) && RollsBack(actions[j], x) && StaysOpen(actions, i + 1, j, x)
    ensures row.id !in trace[n].sender.rows && row.id !in trace[n].sender.wire
    ensures forall c :: c in trace[n].sender.calls ==> c.event != row.id
  {
    assert Step(maxAttempts, trace[i], actions[i], trace[i + 1]);
    OpenKeepsRow(maxAttempts, trace, actions, i + 1, j, x, row.id);
    RollbackLeavesGone(maxAttempts, trace, actions, j, x, row.id);
    GoneThroughout(maxAttempts, trace, actions, j + 1, n, row.id);
    InvariantThroughout(maxAttempts, trace, actions, n);
  }

  // ---------------------------------------------------------------- and no others

  /** Transaction `x` is open and holds this row under the key `e`. */
  predicate Holds(s: Sender, x: TxnId, e: EventId, row: Row) {
    x in s.business && e in s.business[x] && s.business[x][e] == row
  }

  lemma SendHolds(maxAttempts: nat, s: Sender, a: SendAction, s': Sender, x: TxnId, e: EventId, row: Row)
    requires SendStep(maxAttempts, s, a, s') && Holds(s', x, e, row)
    ensures a == Enqueue(x, row) || (Holds(s, x, e, row) && a != CommitBusiness(x) && a != RollbackBusiness(x))
  {}

  lemma RunHolds(maxAttempts: nat, trace: seq<State>, actions: seq<Action>, n: nat, x: TxnId, e: EventId, row: Row)
    requires Execution(maxAttempts, trace, actions) && n < |actions| && Holds(trace[n + 1].sender, x, e, row)
    ensures Enqueues(actions[n], x, row)
      || (Holds(trace[n].sender, x, e, row) && !Commits(actions[n], x) && !RollsBack(actions[n], x))
  {
    assert Step(maxAttempts, trace[n], actions[n], trace[n + 1]);
    if actions[n].Send? {
      SendHolds(maxAttempts, trace[n].sender, actions[n].send, trace[n + 1].sender, x, e, row);
    }
  }

  /** Where the uncommitted rows of a transaction come from. */
  lemma {:induction false} OpenRowWasEnqueued(maxAttempts: nat, trace: seq<State>, actions: seq<Action>, n: nat,
                                              x: TxnId, e: EventId, row: Row) returns (i: nat)
    requires Execution(maxAttempts, trace, actions) && n <= |actions| && Holds(trace[n].sender, x, e, row)
    ensures i < n && Enqueues(actions[i], x, row) && StaysOpen(actions, i + 1, n, x)
  {
    RunHolds(maxAttempts, trace, actions, n - 1, x, e, row);
    if Enqueues(actions[n - 1], x, row) {
      i := n - 1;
    } else {
      i := OpenRowWasEnqueued(maxAttempts, trace, actions, n - 1, x, e, row);
    }
  }

  lemma NewRowIsCommitted(maxAttempts: nat, trace: seq<State>, actions: seq<Action>, n: nat, e: EventId)
    returns (x: TxnId)
    requires Execution(maxAttempts, trace, actions) && n < |actions|
    requires e in trace[n + 1].sender.rows && e !in trace[n].sender.rows
    ensures Commits(actions[n], x) && x in trace[n].sender.business && e in trace[n].sender.business[x]
  {
    InvariantThroughout(maxAttempts, trace, actions, n);
    assert Step(maxAttempts, trace[n], actions[n], trace[n + 1]);
    NewRowIsBusiness(maxAttempts, trace[n].sender, actions[n].send, trace[n + 1].sender, e);
    x := actions[n].send.txn;
  }

  /** Every row of the outbox was enqueued in a transaction that then committed. */
  lemma {:induction false} RowWasEnqueuedAndCommitted(maxAttempts: nat, trace: seq<State>, actions: seq<Action>, n: nat,
                                                      e: EventId) returns (i: nat, j: nat, x: TxnId, row: Row)
    requires Execution(maxAttempts, trace, actions) && n <= |actions| && e in trace[n].sender.rows
    ensures i < j < n && Enqueues(actions[i], x, row) && Commits(actions[j], x) && StaysOpen(actions, i + 1, j, x)
    ensures row.id == e
  {
    if e in trace[n - 1].sender.rows {
      i, j, x, row := RowWasEnqueuedAndCommitted(maxAttempts, trace, actions, n - 1, e);
    } else {
      j := n - 1;
      x := NewRowIsCommitted(maxAttempts, trace, actions, j, e);
      row := trace[j].sender.business[x][e];
      i := OpenRowWasEnqueued(maxAttempts, trace, actions, j, x, e, row);
      InvariantThroughout(maxAttempts, trace, actions, j);
    }
  }

  // ---------------------------------------------------------------- what a publish call may do

  /** An accepted call puts the message on the wire, and one that raises may have done so too. */
  lemma CallMayReachBroker(maxAttempts: nat, trace: seq<State>, actions: seq<Action>, n: nat, p: PassId,
                           accepted: bool, arrived: bool)
    requires Execution(maxAttempts, trace, actions) && n < |actions|
    requires actions[n] == Send(Publish(p, accepted, arrived))
    ensures p in trace[n].sender.passes && trace[n].sender.passes[p].next < |trace[n].sender.passes[p].ids|
    ensures var e := trace[n].sender.passes[p].ids[trace[n].sender.passes[p].next];
      && trace[n + 1].sender.calls == trace[n].sender.calls + [PublishCall(p, e, accepted)]
      && trace[n + 1].sender.wire == trace[n].sender.wire + if accepted || arrived then {e} else {}
  {
    assert Step(maxAttempts, trace[n], actions[n], trace[n + 1]);
  }
}
