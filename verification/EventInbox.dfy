/** The receiving half: consumers deduplicate by (consumer, event) in the transaction that carries
    their effects. */
module EventInbox {
  import opened Results
  import opened OutboxTable

  type WorkerId = nat

  datatype Key = Key(consumer: string, event: EventId)

  /** An open consumer transaction: keys inserted, keys whose handler has not yet run, effects made. */
  datatype Handling = Handling(claims: set<Key>, pending: set<Key>, effects: multiset<Key>)

  datatype Inbox = Inbox(
    processed: set<Key>,               // committed "ProcessedEvents" keys
    effects: multiset<Key>,            // committed effects
    handlings: map<WorkerId, Handling>)

  datatype ReceiveAction =
    | BeginHandling(w: WorkerId)
    | ConsumeOnce(w: WorkerId, key: Key)
    | ApplyEffect(w: WorkerId, key: Key)
    | CommitHandling(w: WorkerId)
    | RollbackHandling(w: WorkerId)

  ghost predicate InboxInit(s: Inbox) {
    s == Inbox({}, multiset{}, map[])
  }

  /** The insert waits while another open transaction holds the same key. */
  ghost predicate MustWait(s: Inbox, w: WorkerId, key: Key) {
    exists v :: v in s.handlings && v != w && key in s.handlings[v].claims
  }

  /** What `consume_once` answers: True exactly when its insert takes effect. */
  predicate Consumed(s: Inbox, w: WorkerId, key: Key)
    requires w in s.handlings
  {
    key !in s.processed && key !in s.handlings[w].claims
  }

  ghost predicate ReceiveStep(s: Inbox, a: ReceiveAction, s': Inbox) {
    match a
    case BeginHandling(w) =>
      w !in s.handlings && s' == s.(handlings := s.handlings[w := Handling({}, {}, multiset{})])
    case ConsumeOnce(w, key) =>
      && w in s.handlings && !MustWait(s, w, key)
      && var h := s.handlings[w];
      s' == if Consumed(s, w, key)
            then s.(handlings := s.handlings[w := h.(claims := h.claims + {key}, pending := h.pending + {key})])
            else s
    case ApplyEffect(w, key) =>
      // the handler runs, in the same transaction, only when `consume_once` answered True
      && w in s.handlings && key in s.handlings[w].pending
      && var h := s.handlings[w];
      s' == s.(handlings := s.handlings[w := h.(pending := h.pending - {key}, effects := h.effects + multiset{key})])
    case CommitHandling(w) =>
      && w in s.handlings && s.handlings[w].pending == {}
      && s' == s.(processed := s.processed + s.handlings[w].claims,
                  effects := s.effects + s.handlings[w].effects,
                  handlings := s.handlings - {w})
    case RollbackHandling(w) =>
      w in s.handlings && s' == s.(handlings := s.handlings - {w})
  }

  function Once(present: bool): nat { if present then 1 else 0 }

  /** Committed and in-flight effects of one key match its dedup records. */
  ghost predicate KeyAccounted(s: Inbox, key: Key) {
    && s.effects[key] == Once(key in s.processed)
    && forall w :: w in s.handlings ==>
         s.handlings[w].effects[key] == Once(key in s.handlings[w].claims && key !in s.handlings[w].pending)
  }

  ghost predicate InboxInvariant(s: Inbox) {
    && (forall key :: KeyAccounted(s, key))
    && (forall w, key :: w in s.handlings && key in s.handlings[w].pending ==> key in s.handlings[w].claims)
    && (forall w, key :: w in s.handlings && key in s.handlings[w].claims ==> key !in s.processed)
    && (forall v, w, key ::
          v in s.handlings && w in s.handlings && key in s.handlings[v].claims && key in s.handlings[w].claims
          ==> v == w)
  }

  lemma ReceiveStepAccounts(s: Inbox, a: ReceiveAction, s': Inbox, key: Key)
    requires InboxInvariant(s) && ReceiveStep(s, a, s')
    ensures KeyAccounted(s', key)
  {
    assert KeyAccounted(s, key);
  }

  lemma ReceiveStepKeeps(s: Inbox, a: ReceiveAction, s': Inbox)
    requires InboxInvariant(s) && ReceiveStep(s, a, s')
    ensures InboxInvariant(s')
  {
    forall key ensures KeyAccounted(s', key) { ReceiveStepAccounts(s, a, s', key); }
    if a.ConsumeOnce? && Consumed(s, a.w, a.key) {
      forall v | v in s.handlings && v != a.w ensures a.key !in s.handlings[v].claims {
        assert !MustWait(s, a.w, a.key);
      }
    }
  }

  /** A rolled-back handler leaves the event free to be processed: the next transaction to claim the
      key is answered True. */
  lemma RetryMayProcess(s: Inbox, w: WorkerId, s': Inbox, v: WorkerId, key: Key)
    requires InboxInvariant(s) && ReceiveStep(s, RollbackHandling(w), s')
    requires key in s.handlings[w].claims && v in s'.handlings
    ensures !MustWait(s', v, key) && Consumed(s', v, key)
  {}

  /** One consumer's transaction on the inbox tables. */
  class ConsumerSession {
    const worker: WorkerId
    var inbox: Inbox

    constructor (worker: WorkerId, inbox: Inbox)
      ensures this.worker == worker && this.inbox == inbox
    {
      this.worker, this.inbox := worker, inbox;
    }

    /** Insert the key on conflict do nothing; True if a row came back. */
    method ConsumeOnce(key: Key) returns (first: bool)
      requires worker in inbox.handlings && !MustWait(inbox, worker, key)
      modifies this`inbox
      ensures ReceiveStep(old(inbox), ReceiveAction.ConsumeOnce(worker, key), inbox)
      ensures first == Consumed(old(inbox), worker, key)
    {
      var h := inbox.handlings[worker];
      first := key !in inbox.processed && key !in h.claims;
      if first {
        inbox := inbox.(handlings := inbox.handlings[worker :=
          h.(claims := h.claims + {key}, pending := h.pending + {key})]);
      }
    }

    method Begin()
      requires worker !in inbox.handlings
      modifies this`inbox
      ensures ReceiveStep(old(inbox), BeginHandling(worker), inbox)
    {
      inbox := inbox.(handlings := inbox.handlings[worker := Handling({}, {}, multiset{})]);
    }

    method Apply(key: Key)
      requires worker in inbox.handlings && key in inbox.handlings[worker].pending
      modifies this`inbox
      ensures ReceiveStep(old(inbox), ApplyEffect(worker, key), inbox)
    {
      var h := inbox.handlings[worker];
      inbox := inbox.(handlings := inbox.handlings[worker :=
        h.(pending := h.pending - {key}, effects := h.effects + multiset{key})]);
    }

    method Commit()
      requires worker in inbox.handlings && inbox.handlings[worker].pending == {}
      modifies this`inbox
      ensures ReceiveStep(old(inbox), CommitHandling(worker), inbox)
    {
      var h := inbox.handlings[worker];
      inbox := Inbox(inbox.processed + h.claims, inbox.effects + h.effects, inbox.handlings - {worker});
    }

    method Rollback()
      requires worker in inbox.handlings
      modifies this`inbox
      ensures ReceiveStep(old(inbox), RollbackHandling(worker), inbox)
    {
      inbox := inbox.(handlings := inbox.handlings - {worker});
    }

    /** Open a transaction and claim the key in it. */
    method Claim(key: Key) returns (first: bool)
      requires InboxInvariant(inbox) && worker !in inbox.handlings && !MustWait(inbox, worker, key)
      modifies this`inbox
      ensures InboxInvariant(inbox) && first == (key !in inbox.processed)
      ensures var claims: set<Key> := if first then {key} else {};
        inbox == old(inbox).(handlings := old(inbox).handlings[worker := Handling(claims, claims, multiset{})])
    {
      Begin();
      ReceiveStepKeeps(old(inbox), BeginHandling(worker), inbox);
      ghost var begun := inbox;
      first := ConsumeOnce(key);
      ReceiveStepKeeps(begun, ReceiveAction.ConsumeOnce(worker, key), inbox);
      assert {} + {key} == {key};
      ghost var h := inbox.handlings[worker];
      assert begun.handlings[worker := h] == old(inbox).handlings[worker := h];
    }

    /** Carry out the handler for a key just claimed, and commit. */
    method Handle(key: Key)
      requires InboxInvariant(inbox) && worker in inbox.handlings
      requires inbox.handlings[worker] == Handling({key}, {key}, multiset{})
      modifies this`inbox
      ensures InboxInvariant(inbox)
      ensures inbox == Inbox(old(inbox).processed + {key}, old(inbox).effects + multiset{key},
                             old(inbox).handlings - {worker})
    {
      Apply(key);
      ReceiveStepKeeps(old(inbox), ApplyEffect(worker, key), inbox);
      ghost var handled := inbox;
      Commit();
      ReceiveStepKeeps(handled, CommitHandling(worker), inbox);
      assert inbox.handlings == old(inbox).handlings - {worker};
    }

    /** A delivery handled in a transaction of its own: claim, run the handler if the claim was new, commit.
        A failing handler takes its claim down with it; a redelivery after a success changes nothing. */
    method Deliver(key: Key, handlerFails: bool) returns (r: Result<bool, ()>)
      requires InboxInvariant(inbox) && worker !in inbox.handlings && !MustWait(inbox, worker, key)
      modifies this`inbox
      ensures InboxInvariant(inbox) && inbox.handlings == old(inbox).handlings
      ensures key in old(inbox).processed ==> r == Success(false) && inbox == old(inbox)
      ensures key !in old(inbox).processed && handlerFails ==> r == Failure(()) && inbox == old(inbox)
      ensures key !in old(inbox).processed && !handlerFails ==>
        && r == Success(true) && inbox.processed == old(inbox).processed + {key}
        && inbox.effects == old(inbox).effects + multiset{key} && inbox.effects[key] == 1
    {
      ghost var before := inbox;
      assert KeyAccounted(before, key);
      var first := Claim(key);
      ghost var claimed := inbox;
      assert claimed.handlings - {worker} == before.handlings;
      if first && !handlerFails {
        Handle(key);
        return Success(true);
      } else if first {
        Rollback();
        ReceiveStepKeeps(claimed, RollbackHandling(worker), inbox);
        return Failure(());
      } else {
        Commit();
        ReceiveStepKeeps(claimed, CommitHandling(worker), inbox);
        return Success(false);
      }
    }
  }
}
