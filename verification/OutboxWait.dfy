/** Bounded wait under concurrency: failing events delay the ones behind them by a bounded number of committed
    passes, however many relays are at work and however many of their passes are lost. */
module OutboxWait {
  import opened Ordering
  import opened OutboxTable
  import opened OutboxDelivery
  import opened EndToEndDelivery
  import opened OutboxBudget

  /** The committed events ahead of `e` in claim order. */
  ghost function Ahead(rows: Table, e: EventId): set<EventId>
    requires e in rows
  {
    set d | d in rows && Before(rows[d], rows[e])
  }

  /** `e` has waited from `start` to `s`: its row is as it was, no pass holds it, nothing new stands ahead of it, and
      each pass begun since holds `batch` events or more, all of them ahead of `e`. */
  ghost predicate Waiting(start: Sender, s: Sender, e: EventId, batch: nat, maxAttempts: nat) {
    && e in start.rows && e in s.rows && s.rows[e] == start.rows[e] && Claimable(s.rows[e], maxAttempts)
    && Ahead(s.rows, e) == Ahead(start.rows, e)
    && start.fates.Keys <= s.fates.Keys
    && (forall p :: p in s.passes ==> e !in s.passes[p].ids)
    && (forall p :: p in s.passes && p !in start.fates ==> HoldsAhead(start, s.passes[p], e, batch))
  }

  ghost predicate HoldsAhead(start: Sender, pass: RelayPass, e: EventId, batch: nat)
    requires e in start.rows
  {
    batch <= |pass.ids| && forall d :: d in pass.ids ==> d in Ahead(start.rows, e)
  }

  /** Attempts left ahead of `e`. */
  ghost function LeftAhead(start: Sender, s: Sender, e: EventId, maxAttempts: nat): nat
    requires e in start.rows && Ahead(start.rows, e) <= s.rows.Keys
  {
    LeftIn(s.rows, Ahead(start.rows, e), maxAttempts)
  }

  /** A step while `e` waits: claims ask for `batch` rows or more and leave `e` out, and no event is committed ahead
      of it. */
  ghost predicate PassesOver(s: Sender, a: SendAction, e: EventId, batch: nat)
    requires e in s.rows
  {
    && (a.Claim? ==> batch <= a.limit && e !in a.ids)
    && (a.CommitBusiness? && a.txn in s.business ==>
          forall d :: d in s.business[a.txn] ==> !Before(s.business[a.txn][d], s.rows[e]))
  }

  /** A step commits a pass begun since `start`. */
  predicate LateCommit(start: Sender, a: SendAction) {
    a.CommitPass? && a.pass !in start.fates
  }

  // ---------------------------------------------------------------- one step

  /** Keys and times of committed rows never change, so neither does what stands ahead. */
  lemma StepKeepsAhead(maxAttempts: nat, s: Sender, a: SendAction, s': Sender, e: EventId, batch: nat)
    requires SendInvariant(maxAttempts, s) && SendStep(maxAttempts, s, a, s')
    requires e in s.rows && PassesOver(s, a, e, batch)
    ensures e in s'.rows && Ahead(s'.rows, e) == Ahead(s.rows, e)
  {
    StepAdvancesRow(maxAttempts, s, a, s', e);
    forall d ensures d in Ahead(s'.rows, e) <==> d in Ahead(s.rows, e) {
      if d in s.rows {
        StepAdvancesRow(maxAttempts, s, a, s', d);
      } else if d in s'.rows {
        NewRowIsBusiness(maxAttempts, s, a, s', d);
      }
    }
  }

  lemma StepKeepsRowOf(maxAttempts: nat, s: Sender, a: SendAction, s': Sender, e: EventId)
    requires SendInvariant(maxAttempts, s) && SendStep(maxAttempts, s, a, s') && e in s.rows
    requires forall p :: p in s.passes ==> e !in s.passes[p].ids
    ensures e in s'.rows && s'.rows[e] == s.rows[e]
  {
    if a.CommitPass? {
      assert PassInvariant(maxAttempts, s, a.pass);
      if e in s.passes[a.pass].work { CommittedRowSpent(maxAttempts, s, a.pass, e); }
    }
  }

  /** A claim that passes over a claimable, unlocked `e` is full, and all it takes stands ahead of `e`. */
  lemma ClaimHoldsAhead(maxAttempts: nat, start: Sender, s: Sender, a: SendAction, s': Sender, e: EventId, batch: nat)
    requires Waiting(start, s, e, batch, maxAttempts) && SendStep(maxAttempts, s, a, s') && a.Claim?
    requires PassesOver(s, a, e, batch)
    ensures HoldsAhead(start, s'.passes[a.pass], e, batch)
  {
    assert e !in LockedRows(s);
    forall d | d in a.ids ensures d in Ahead(s.rows, e) {}
  }

  lemma StepKeepsPasses(maxAttempts: nat, start: Sender, s: Sender, a: SendAction, s': Sender, e: EventId, batch: nat)
    requires Waiting(start, s, e, batch, maxAttempts) && SendStep(maxAttempts, s, a, s') && PassesOver(s, a, e, batch)
    ensures start.fates.Keys <= s'.fates.Keys
    ensures forall p :: p in s'.passes ==> e !in s'.passes[p].ids
    ensures forall p :: p in s'.passes && p !in start.fates ==> HoldsAhead(start, s'.passes[p], e, batch)
  {
    forall p | p in s'.passes && p !in start.fates ensures HoldsAhead(start, s'.passes[p], e, batch) {
      if a.Claim? && a.pass == p {
        ClaimHoldsAhead(maxAttempts, start, s, a, s', e, batch);
      } else {
        assert HoldsAhead(start, s.passes[p], e, batch);
      }
    }
  }

  lemma StepKeepsWaiting(maxAttempts: nat, start: Sender, s: Sender, a: SendAction, s': Sender, e: EventId, batch: nat)
    requires SendInvariant(maxAttempts, s) && Waiting(start, s, e, batch, maxAttempts)
    requires SendStep(maxAttempts, s, a, s') && PassesOver(s, a, e, batch)
    ensures Waiting(start, s', e, batch, maxAttempts)
  {
    StepKeepsRowOf(maxAttempts, s, a, s', e);
    StepKeepsAhead(maxAttempts, s, a, s', e, batch);
    StepKeepsPasses(maxAttempts, start, s, a, s', e, batch);
  }

  /** What a committing pass spends ahead of `e`: a batch, if it was begun while `e` waited. */
  lemma CommitSpendsAhead(maxAttempts: nat, start: Sender, s: Sender, p: PassId, s': Sender, e: EventId, batch: nat)
    requires p in s.passes && PassInvariant(maxAttempts, s, p) && SendStep(maxAttempts, s, CommitPass(p), s')
    requires e in start.rows && Ahead(start.rows, e) <= s.rows.Keys
    requires p !in start.fates ==> HoldsAhead(start, s.passes[p], e, batch)
    ensures Ahead(start.rows, e) <= s'.rows.Keys
    ensures LeftAhead(start, s', e, maxAttempts) + (if p !in start.fates then batch else 0)
      <= LeftAhead(start, s, e, maxAttempts)
  {
    var pass := s.passes[p];
    forall d | d in pass.work
      ensures d in s.rows && Left(pass.work[d], maxAttempts) + 1 <= Left(s.rows[d], maxAttempts)
    {
      CommittedRowSpent(maxAttempts, s, p, d);
    }
    var spent := if p !in start.fates then Elements(pass.ids) else {};
    DistinctLength(pass.ids);
    SpentFromEach(s.rows, s'.rows, Ahead(start.rows, e), spent, maxAttempts);
  }

  lemma StepSpendsAhead(maxAttempts: nat, start: Sender, s: Sender, a: SendAction, s': Sender, e: EventId, batch: nat)
    requires SendInvariant(maxAttempts, s) && Waiting(start, s, e, batch, maxAttempts)
    requires SendStep(maxAttempts, s, a, s')
    ensures Ahead(start.rows, e) <= s.rows.Keys && Ahead(start.rows, e) <= s'.rows.Keys
    ensures LeftAhead(start, s', e, maxAttempts) + (if LateCommit(start, a) then batch else 0)
      <= LeftAhead(start, s, e, maxAttempts)
  {
    assert Ahead(start.rows, e) == Ahead(s.rows, e);
    if a.CommitPass? {
      assert PassInvariant(maxAttempts, s, a.pass);
      CommitSpendsAhead(maxAttempts, start, s, a.pass, s', e, batch);
    } else {
      forall d | d in Ahead(start.rows, e) ensures d in s'.rows && s'.rows[d] == s.rows[d] {
        if a.CommitBusiness? { AddedApart(s, a.txn); }
      }
      SameLeft(s.rows, s'.rows, Ahead(start.rows, e), maxAttempts);
    }
  }

  // ---------------------------------------------------------------- whole runs

  ghost predicate StepPassesOver(s: State, a: Action, e: EventId, batch: nat) {
    a.Send? ==> e in s.sender.rows && PassesOver(s.sender, a.send, e, batch)
  }

  /** From step i to j no claim takes `e`, each asks for a batch, and nothing is committed ahead of `e`. */
  ghost predicate PassedOver(trace: seq<State>, actions: seq<Action>, i: nat, j: nat, e: EventId, batch: nat)
    requires i <= j <= |actions| < |trace|
  {
    forall k :: i <= k < j ==> StepPassesOver(trace[k], actions[k], e, batch)
  }

  /** Passes begun after `start` that commit in steps i to j. */
  function LateCommits(start: Sender, actions: seq<Action>, i: nat, j: nat): nat
    requires i <= j <= |actions|
    decreases j - i
  {
    if i == j then 0
    else
      (if actions[i].Send? && LateCommit(start, actions[i].send) then 1 else 0)
      + LateCommits(start, actions, i + 1, j)
  }

  ghost predicate WaitingAt(maxAttempts: nat, start: Sender, s: State, e: EventId, batch: nat) {
    Waiting(start, s.sender, e, batch, maxAttempts) && Ahead(start.rows, e) <= s.sender.rows.Keys
  }

  lemma RunStepWaits(maxAttempts: nat, start: Sender, trace: seq<State>, actions: seq<Action>, n: nat,
                     e: EventId, batch: nat)
    requires Execution(maxAttempts, trace, actions) && n < |actions|
    requires WaitingAt(maxAttempts, start, trace[n], e, batch) && StepPassesOver(trace[n], actions[n], e, batch)
    ensures WaitingAt(maxAttempts, start, trace[n + 1], e, batch)
    ensures LeftAhead(start, trace[n + 1].sender, e, maxAttempts)
      + (if actions[n].Send? && LateCommit(start, actions[n].send) then batch else 0)
      <= LeftAhead(start, trace[n].sender, e, maxAttempts)
  {
    InvariantThroughout(maxAttempts, trace, actions, n);
    assert Step(maxAttempts, trace[n], actions[n], trace[n + 1]);
    if actions[n].Send? {
      StepKeepsWaiting(maxAttempts, start, trace[n].sender, actions[n].send, trace[n + 1].sender, e, batch);
      StepSpendsAhead(maxAttempts, start, trace[n].sender, actions[n].send, trace[n + 1].sender, e, batch);
    }
  }

  lemma {:induction false} WaitSpends(maxAttempts: nat, start: Sender, trace: seq<State>, actions: seq<Action>,
                                      i: nat, j: nat, e: EventId, batch: nat)
    requires Execution(maxAttempts, trace, actions) && i <= j <= |actions|
    requires WaitingAt(maxAttempts, start, trace[i], e, batch) && PassedOver(trace, actions, i, j, e, batch)
    ensures Granted(batch, LateCommits(start, actions, i, j)) <= LeftAhead(start, trace[i].sender, e, maxAttempts)
    decreases j - i
  {
    if i < j {
      assert StepPassesOver(trace[i], actions[i], e, batch);
      RunStepWaits(maxAttempts, start, trace, actions, i, e, batch);
      WaitSpends(maxAttempts, start, trace, actions, i + 1, j, e, batch);
    }
  }

  /** With `A` attempts left ahead of a claimable event that no pass holds, at most floor(A / batch) passes begun while
      it waits can commit: with any number of relays, any number of lost passes, and whatever is committed behind it. */
  lemma CommitsWhileWaiting(maxAttempts: nat, trace: seq<State>, actions: seq<Action>, i: nat, j: nat,
                            e: EventId, batch: nat)
    requires Execution(maxAttempts, trace, actions) && i <= j <= |actions| && batch >= 1
    requires e in trace[i].sender.rows && Claimable(trace[i].sender.rows[e], maxAttempts)
    requires e !in LockedRows(trace[i].sender)
    requires PassedOver(trace, actions, i, j, e, batch)
    ensures LateCommits(trace[i].sender, actions, i, j)
      <= LeftIn(trace[i].sender.rows, Ahead(trace[i].sender.rows, e), maxAttempts) / batch
  {
    var start := trace[i].sender;
    InvariantThroughout(maxAttempts, trace, actions, i);
    WaitStarts(maxAttempts, start, e, batch);
    WaitSpends(maxAttempts, start, trace, actions, i, j, e, batch);
    GrantedIsProduct(batch, LateCommits(start, actions, i, j));
    AtMostQuotient(LateCommits(start, actions, i, j), batch, LeftAhead(start, start, e, maxAttempts));
  }

  lemma WaitStarts(maxAttempts: nat, s: Sender, e: EventId, batch: nat)
    requires SendInvariant(maxAttempts, s) && e in s.rows && Claimable(s.rows[e], maxAttempts) && e !in LockedRows(s)
    ensures Waiting(s, s, e, batch, maxAttempts)
  {
    forall p | p in s.passes ensures p in s.fates && e !in s.passes[p].ids {
      assert PassInvariant(maxAttempts, s, p);
    }
  }

  lemma AtMostQuotient(n: nat, d: nat, a: nat)
    requires d >= 1 && d * n <= a
    ensures n <= a / d
  {
    var q := a / d;
    assert a < d * q + d;
    assert n >= q + 1 ==> d * n >= d * (q + 1);
  }

  predicate Claims(a: Action, e: EventId) {
    a.Send? && a.send.Claim? && e in a.send.ids
  }

  /** ... so once more than floor(A / batch) passes begun since then have committed, one of the claims has taken it. */
  lemma ClaimedOnceEnoughCommit(maxAttempts: nat, trace: seq<State>, actions: seq<Action>, i: nat, j: nat,
                                e: EventId, batch: nat)
    requires Execution(maxAttempts, trace, actions) && i <= j <= |actions| && batch >= 1
    requires e in trace[i].sender.rows && Claimable(trace[i].sender.rows[e], maxAttempts)
    requires e !in LockedRows(trace[i].sender)
    requires forall k :: i <= k < j && !Claims(actions[k], e) ==> StepPassesOver(trace[k], actions[k], e, batch)
    requires LateCommits(trace[i].sender, actions, i, j)
      > LeftIn(trace[i].sender.rows, Ahead(trace[i].sender.rows, e), maxAttempts) / batch
    ensures exists k :: i <= k < j && Claims(actions[k], e)
  {
    if forall k :: i <= k < j ==> !Claims(actions[k], e) {
      CommitsWhileWaiting(maxAttempts, trace, actions, i, j, e, batch);
    }
  }
}
