/** Both halves together: any interleaving of senders, relays, broker redeliveries and consumers. */
module EndToEndDelivery {
  import opened OutboxTable
  import opened OutboxDelivery
  import opened EventInbox

  datatype State = State(sender: Sender, inbox: Inbox)

  datatype Action = Send(send: SendAction) | Receive(receive: ReceiveAction)

  ghost predicate Init(s: State) {
    SendInit(s.sender) && InboxInit(s.inbox)
  }

  /** A consumer handles a message only if one reached the broker; the broker may deliver it any
      number of times. */
  ghost predicate Step(maxAttempts: nat, s: State, a: Action, s': State) {
    match a
    case Send(send) => SendStep(maxAttempts, s.sender, send, s'.sender) && s'.inbox == s.inbox
    case Receive(receive) =>
      && ReceiveStep(s.inbox, receive, s'.inbox) && s'.sender == s.sender
      && (receive.ConsumeOnce? ==> receive.key.event in s.sender.wire)
  }

  ghost predicate Execution(maxAttempts: nat, trace: seq<State>, actions: seq<Action>) {
    && |trace| == |actions| + 1 && Init(trace[0])
    && forall i :: 0 <= i < |actions| ==> Step(maxAttempts, trace[i], actions[i], trace[i + 1])
  }

  /** Every key touched belongs to an event whose message reached the broker. */
  ghost predicate KeysDelivered(s: State) {
    && (forall key :: key in s.inbox.processed ==> key.event in s.sender.wire)
    && (forall w, key :: w in s.inbox.handlings && key in s.inbox.handlings[w].claims ==> key.event in s.sender.wire)
  }

  ghost predicate Invariant(maxAttempts: nat, s: State) {
    SendInvariant(maxAttempts, s.sender) && InboxInvariant(s.inbox) && KeysDelivered(s)
  }

  lemma WireGrows(maxAttempts: nat, s: Sender, a: SendAction, s': Sender)
    requires SendStep(maxAttempts, s, a, s')
    ensures s.wire <= s'.wire
  {}

  lemma StepKeepsInvariant(maxAttempts: nat, s: State, a: Action, s': State)
    requires Invariant(maxAttempts, s) && Step(maxAttempts, s, a, s')
    ensures Invariant(maxAttempts, s')
  {
    match a
    case Send(send) =>
      SendStepKeeps(maxAttempts, s.sender, send, s'.sender);
      WireGrows(maxAttempts, s.sender, send, s'.sender);
    case Receive(receive) => ReceiveStepKeeps(s.inbox, receive, s'.inbox);
  }

  lemma {:induction false} InvariantThroughout(maxAttempts: nat, trace: seq<State>, actions: seq<Action>, n: nat)
    requires Execution(maxAttempts, trace, actions) && n < |trace|
    ensures Invariant(maxAttempts, trace[n])
  {
    if n > 0 {
      InvariantThroughout(maxAttempts, trace, actions, n - 1);
      StepKeepsInvariant(maxAttempts, trace[n - 1], actions[n - 1], trace[n]);
    }
  }

  // ---------------------------------------------------------------- what a consumer may do

  /** Any consumer may take a message that has reached the broker, at any moment, unless another is at work on it: then
      either its handler runs and the effect is committed, or it fails and nothing has happened. */
  lemma MessageMayBeConsumed(maxAttempts: nat, s: State, w: WorkerId, key: Key)
    returns (begun: State, claimed: State, handled: State, done: State)
    requires key.event in s.sender.wire && key !in s.inbox.processed
    requires w !in s.inbox.handlings && !MustWait(s.inbox, w, key)
    ensures Step(maxAttempts, s, Receive(BeginHandling(w)), begun)
    ensures Step(maxAttempts, begun, Receive(ConsumeOnce(w, key)), claimed)
    ensures Step(maxAttempts, claimed, Receive(ApplyEffect(w, key)), handled)
    ensures Step(maxAttempts, handled, Receive(CommitHandling(w)), done)
    ensures done.sender == s.sender && done.inbox.handlings == s.inbox.handlings
    ensures done.inbox.processed == s.inbox.processed + {key} && done.inbox.effects == s.inbox.effects + multiset{key}
    ensures Step(maxAttempts, claimed, Receive(RollbackHandling(w)), s)
  {
    var open := s.inbox.handlings[w := Handling({}, {}, multiset{})];
    begun := s.(inbox := s.inbox.(handlings := open));
    claimed := s.(inbox := s.inbox.(handlings := open[w := Handling({} + {key}, {} + {key}, multiset{})]));
    handled := s.(inbox := s.inbox.(handlings := open[w := Handling({key}, {}, multiset{key})]));
    done := s.(inbox := Inbox(s.inbox.processed + {key}, s.inbox.effects + multiset{key}, s.inbox.handlings));
    forall v | v in open && v != w ensures key !in open[v].claims { assert v in s.inbox.handlings; }
    assert {} + {key} == {key} && {key} - {key} == {} && multiset{} + multiset{key} == multiset{key};
    assert claimed.inbox.handlings[w := handled.inbox.handlings[w]] == handled.inbox.handlings;
    assert handled.inbox.handlings - {w} == s.inbox.handlings == claimed.inbox.handlings - {w};
  }

  // ---------------------------------------------------------------- the promises

  /** Exactly once, end to end: a (consumer, event) pair has one committed effect if its dedup record
      is committed and none otherwise, and an effect exists only for an event whose business
      transaction committed. */
  lemma ExactlyOnce(maxAttempts: nat, trace: seq<State>, actions: seq<Action>, n: nat, key: Key)
    requires Execution(maxAttempts, trace, actions) && n < |trace|
    ensures trace[n].inbox.effects[key] == Once(key in trace[n].inbox.processed)
    ensures trace[n].inbox.effects[key] > 0 ==> key.event in trace[n].sender.rows
  {
    InvariantThroughout(maxAttempts, trace, actions, n);
    assert KeyAccounted(trace[n].inbox, key);
  }

  /** Nothing is published for an event that is not committed, so a rolled-back business transaction
      leaves no trace outside. */
  lemma PublishedOnlyIfCommitted(maxAttempts: nat, trace: seq<State>, actions: seq<Action>, n: nat, c: PublishCall)
    requires Execution(maxAttempts, trace, actions) && n < |trace| && c in trace[n].sender.calls
    ensures c.event in trace[n].sender.rows
    ensures forall x :: x in trace[n].sender.business ==> c.event !in trace[n].sender.business[x]
  {
    InvariantThroughout(maxAttempts, trace, actions, n);
  }

  /** Delivery accounting: publish calls for an event are the committed attempt count plus the calls of
      lost and open passes; accepted ones are the dispatch mark plus those of lost and open passes; the
      committed attempt count never exceeds the limit, and there is an error exactly if one of them was refused. */
  lemma DeliveryAccounting(maxAttempts: nat, trace: seq<State>, actions: seq<Action>, n: nat, e: EventId)
    requires Execution(maxAttempts, trace, actions) && n < |trace| && e in trace[n].sender.rows
    ensures var s := trace[n].sender;
      && CallsFor(s.calls, e, false) == s.rows[e].attempts
           + CallsWith(s.calls, s.fates, Lost, e, false) + CallsWith(s.calls, s.fates, Open, e, false)
      && CallsFor(s.calls, e, true) == Once(s.rows[e].dispatched)
           + CallsWith(s.calls, s.fates, Lost, e, true) + CallsWith(s.calls, s.fates, Open, e, true)
      && s.rows[e].attempts <= maxAttempts
      && (s.rows[e].lastError <==> Once(s.rows[e].dispatched) < s.rows[e].attempts)
  {
    InvariantThroughout(maxAttempts, trace, actions, n);
    var s := trace[n].sender;
    assert RowAccounted(maxAttempts, s, e);
    CallsSplitByFate(s.calls, s.fates, e, false);
    CallsSplitByFate(s.calls, s.fates, e, true);
  }

  /** At least once: a row marked dispatched has a message the broker holds. */
  lemma DispatchedIsDelivered(maxAttempts: nat, trace: seq<State>, actions: seq<Action>, n: nat, e: EventId)
    requires Execution(maxAttempts, trace, actions) && n < |trace|
    requires e in trace[n].sender.rows && trace[n].sender.rows[e].dispatched
    ensures e in trace[n].sender.wire && CallsFor(trace[n].sender.calls, e, true) >= 1
  {
    InvariantThroughout(maxAttempts, trace, actions, n);
    assert RowAccounted(maxAttempts, trace[n].sender, e);
    DeliveryAccounting(maxAttempts, trace, actions, n, e);
  }

  /** No event is ever held by two passes at once. */
  lemma NoEventHeldTwice(maxAttempts: nat, trace: seq<State>, actions: seq<Action>, n: nat, p: PassId, q: PassId,
                         e: EventId)
    requires Execution(maxAttempts, trace, actions) && n < |trace|
    requires p in trace[n].sender.passes && e in trace[n].sender.passes[p].ids
    requires q in trace[n].sender.passes && e in trace[n].sender.passes[q].ids
    ensures p == q
  {
    InvariantThroughout(maxAttempts, trace, actions, n);
  }

  lemma StepKeepsRow(maxAttempts: nat, s: State, a: Action, s': State, e: EventId)
    requires SendInvariant(maxAttempts, s.sender) && Step(maxAttempts, s, a, s') && e in s.sender.rows
    ensures e in s'.sender.rows && Advanced(s.sender.rows[e], s'.sender.rows[e])
  {
    if a.Send? { StepAdvancesRow(maxAttempts, s.sender, a.send, s'.sender, e); }
  }

  lemma RunKeepsRow(maxAttempts: nat, trace: seq<State>, actions: seq<Action>, n: nat, e: EventId)
    requires Execution(maxAttempts, trace, actions) && n < |actions| && e in trace[n].sender.rows
    ensures e in trace[n + 1].sender.rows && Advanced(trace[n].sender.rows[e], trace[n + 1].sender.rows[e])
  {
    InvariantThroughout(maxAttempts, trace, actions, n);
    StepKeepsRow(maxAttempts, trace[n], actions[n], trace[n + 1], e);
  }

  /** Over any stretch of a run a committed row is kept, its attempts never go down, and once
      dispatched it never changes, so it is never claimed again. */
  lemma {:induction false} RowsOnlyAdvance(maxAttempts: nat, trace: seq<State>, actions: seq<Action>, i: nat,
                                           j: nat, e: EventId)
    requires Execution(maxAttempts, trace, actions) && i <= j < |trace| && e in trace[i].sender.rows
    ensures e in trace[j].sender.rows && Advanced(trace[i].sender.rows[e], trace[j].sender.rows[e])
    decreases j - i
  {
    if i < j {
      RowsOnlyAdvance(maxAttempts, trace, actions, i, j - 1, e);
      RunKeepsRow(maxAttempts, trace, actions, j - 1, e);
    }
  }
}
