/** The sending half of event delivery, as a transition system for one tenant database.

    Business transactions enqueue events and commit or roll back; any number of relay passes claim
    batches, publish them one by one and commit, or are lost at any point after any number of
    publish calls.  A claimed row stays locked until its pass ends, and a claim skips locked rows. */
module OutboxDelivery {
  import opened Ordering
  import opened OutboxTable

  type TxnId = nat
  type PassId = nat

  datatype Fate = Open | Committed | Lost

  datatype PublishCall = PublishCall(pass: PassId, event: EventId, accepted: bool)

  /** An open pass: the rows it holds, how many it has offered to the broker, and its uncommitted changes. */
  datatype RelayPass = RelayPass(ids: seq<EventId>, next: nat, work: Table)

  datatype Sender = Sender(
    rows: Table,                          // committed outbox rows
    issued: set<EventId>,              // every id ever handed out
    business: map<TxnId, Table>,          // open business transactions and what they enqueued
    passes: map<PassId, RelayPass>,       // open relay passes
    fates: map<PassId, Fate>,             // every pass ever begun
    calls: seq<PublishCall>,              // every publish call ever made
    wire: set<EventId>)                   // events whose message reached the broker

  datatype SendAction =
    | BeginBusiness(txn: TxnId)
    | Enqueue(txn: TxnId, row: Row)
    | CommitBusiness(txn: TxnId)
    | RollbackBusiness(txn: TxnId)
    | Claim(pass: PassId, limit: nat, ids: seq<EventId>)
    | Publish(pass: PassId, accepted: bool, arrived: bool)
    | CommitPass(pass: PassId)
    | LosePass(pass: PassId)

  ghost function LockedRows(s: Sender): set<EventId> {
    set p, e | p in s.passes && e in s.passes[p].ids :: e
  }

  function With(table: Table, e: EventId, row: Row): Table {
    table[e := row]
  }

  ghost predicate SendInit(s: Sender) {
    s == Sender(map[], {}, map[], map[], map[], [], {})
  }

  function Selected(table: Table, ids: seq<EventId>): Table {
    map e | e in ids && e in table :: table[e]
  }

  predicate HasTurn(s: Sender, p: PassId) {
    && p in s.passes && s.passes[p].next < |s.passes[p].ids|
    && s.passes[p].ids[s.passes[p].next] in s.passes[p].work
  }

  /** One publish call by pass `p`; a call that raises may still have reached the broker. */
  function AfterPublish(s: Sender, p: PassId, accepted: bool, arrived: bool): Sender
    requires HasTurn(s, p)
  {
    var pass := s.passes[p];
    var e := pass.ids[pass.next];
    var work := With(pass.work, e, Attempted(pass.work[e], accepted));
    s.(passes := s.passes[p := RelayPass(pass.ids, pass.next + 1, work)],
       calls := s.calls + [PublishCall(p, e, accepted)],
       wire := if accepted || arrived then s.wire + {e} else s.wire)
  }

  ghost predicate SendStep(maxAttempts: nat, s: Sender, a: SendAction, s': Sender) {
    match a
    case BeginBusiness(x) =>
      x !in s.business && s' == s.(business := s.business[x := map[]])
    case Enqueue(x, row) =>
      && x in s.business && row.id !in s.issued
      && row == Row(row.id, row.occurredAt, false, 0, false)
      && s' == s.(issued := s.issued + {row.id},
                  business := s.business[x := With(s.business[x], row.id, row)])
    case CommitBusiness(x) =>
      x in s.business && s' == s.(rows := s.rows + s.business[x], business := s.business - {x})
    case RollbackBusiness(x) =>
      x in s.business && s' == s.(business := s.business - {x})
    case Claim(p, limit, ids) =>
      && p !in s.fates && IsClaim(s.rows, LockedRows(s), limit, maxAttempts, ids)
      && s' == s.(passes := s.passes[p := RelayPass(ids, 0, Selected(s.rows, ids))],
                  fates := s.fates[p := Open])
    case Publish(p, accepted, arrived) =>
      HasTurn(s, p) && s' == AfterPublish(s, p, accepted, arrived)
    case CommitPass(p) =>
      && p in s.passes && s.passes[p].next == |s.passes[p].ids|
      && s' == s.(rows := s.rows + s.passes[p].work, passes := s.passes - {p}, fates := s.fates[p := Committed])
    case LosePass(p) =>
      p in s.passes && s' == s.(passes := s.passes - {p}, fates := s.fates[p := Lost])
  }

  // ---------------------------------------------------------------- counting publish calls

  predicate Counts(c: PublishCall, e: EventId, acceptedOnly: bool) {
    c.event == e && (acceptedOnly ==> c.accepted)
  }

  /** Calls one pass made for one event. */
  function CallsBy(calls: seq<PublishCall>, p: PassId, e: EventId, acceptedOnly: bool): nat {
    if calls == [] then 0
    else
      var c := calls[|calls| - 1];
      CallsBy(calls[..|calls| - 1], p, e, acceptedOnly) + if c.pass == p && Counts(c, e, acceptedOnly) then 1 else 0
  }

  /** Calls for one event made by passes that ended the given way. */
  function CallsWith(calls: seq<PublishCall>, fates: map<PassId, Fate>, fate: Fate, e: EventId,
                     acceptedOnly: bool): nat {
    if calls == [] then 0
    else
      var c := calls[|calls| - 1];
      CallsWith(calls[..|calls| - 1], fates, fate, e, acceptedOnly)
      + if c.pass in fates && fates[c.pass] == fate && Counts(c, e, acceptedOnly) then 1 else 0
  }

  /** All calls for one event. */
  function CallsFor(calls: seq<PublishCall>, e: EventId, acceptedOnly: bool): nat {
    if calls == [] then 0
    else CallsFor(calls[..|calls| - 1], e, acceptedOnly) + if Counts(calls[|calls| - 1], e, acceptedOnly) then 1 else 0
  }

  lemma {:induction false} NoCallsBy(calls: seq<PublishCall>, p: PassId, e: EventId, acceptedOnly: bool)
    requires forall c :: c in calls ==> c.pass != p || c.event != e
    ensures CallsBy(calls, p, e, acceptedOnly) == 0
  {
    if calls != [] { NoCallsBy(calls[..|calls| - 1], p, e, acceptedOnly); }
  }

  lemma {:induction false} NoCallsWith(calls: seq<PublishCall>, fates: map<PassId, Fate>, fate: Fate, e: EventId,
                                       acceptedOnly: bool)
    requires forall c :: c in calls ==> c.event != e
    ensures CallsWith(calls, fates, fate, e, acceptedOnly) == 0
  {
    if calls != [] { NoCallsWith(calls[..|calls| - 1], fates, fate, e, acceptedOnly); }
  }

  lemma {:induction false} AcceptedAmongCalls(calls: seq<PublishCall>, p: PassId, e: EventId)
    ensures CallsBy(calls, p, e, true) <= CallsBy(calls, p, e, false)
  {
    if calls != [] { AcceptedAmongCalls(calls[..|calls| - 1], p, e); }
  }

  /** When a pass ends, its calls move to the count of its fate. */
  lemma {:induction false} FateDecided(calls: seq<PublishCall>, fates: map<PassId, Fate>, p: PassId, fate: Fate,
                                       e: EventId, acceptedOnly: bool)
    requires p in fates && fates[p] == Open && fate != Open
    ensures CallsWith(calls, fates[p := fate], fate, e, acceptedOnly)
      == CallsWith(calls, fates, fate, e, acceptedOnly) + CallsBy(calls, p, e, acceptedOnly)
  {
    if calls != [] { FateDecided(calls[..|calls| - 1], fates, p, fate, e, acceptedOnly); }
  }

  /** A fate other than Committed leaves the committed count alone. */
  lemma {:induction false} FateElsewhere(calls: seq<PublishCall>, fates: map<PassId, Fate>, p: PassId, fate: Fate,
                                         e: EventId, acceptedOnly: bool)
    requires fate != Committed && (p in fates ==> fates[p] == Open)
    ensures CallsWith(calls, fates[p := fate], Committed, e, acceptedOnly)
      == CallsWith(calls, fates, Committed, e, acceptedOnly)
  {
    if calls != [] { FateElsewhere(calls[..|calls| - 1], fates, p, fate, e, acceptedOnly); }
  }

  lemma CallAppended(calls: seq<PublishCall>, c: PublishCall, fates: map<PassId, Fate>, p: PassId, e: EventId,
                     acceptedOnly: bool)
    ensures CallsBy(calls + [c], p, e, acceptedOnly)
      == CallsBy(calls, p, e, acceptedOnly) + if c.pass == p && Counts(c, e, acceptedOnly) then 1 else 0
    ensures c.pass in fates && fates[c.pass] == Open ==>
      CallsWith(calls + [c], fates, Committed, e, acceptedOnly) == CallsWith(calls, fates, Committed, e, acceptedOnly)
  {
    assert (calls + [c])[..|calls|] == calls;
  }

  /** Every call was made by a pass that committed, was lost, or is still open. */
  lemma {:induction false} CallsSplitByFate(calls: seq<PublishCall>, fates: map<PassId, Fate>, e: EventId,
                                            acceptedOnly: bool)
    requires forall c :: c in calls ==> c.pass in fates
    ensures CallsFor(calls, e, acceptedOnly)
      == CallsWith(calls, fates, Committed, e, acceptedOnly) + CallsWith(calls, fates, Lost, e, acceptedOnly)
       + CallsWith(calls, fates, Open, e, acceptedOnly)
  {
    if calls != [] { CallsSplitByFate(calls[..|calls| - 1], fates, e, acceptedOnly); }
  }

  // ---------------------------------------------------------------- the invariant

  /** The attempt counter and the dispatch mark say exactly what committed passes did. */
  ghost predicate RowAccounted(maxAttempts: nat, s: Sender, e: EventId)
    requires e in s.rows
  {
    && s.rows[e].id == e && e in s.issued
    && s.rows[e].attempts <= maxAttempts
    && s.rows[e].attempts == CallsWith(s.calls, s.fates, Committed, e, false)
    && (if s.rows[e].dispatched then 1 else 0) == CallsWith(s.calls, s.fates, Committed, e, true)
    && (s.rows[e].lastError <==>
          CallsWith(s.calls, s.fates, Committed, e, true) < CallsWith(s.calls, s.fates, Committed, e, false))
    && (s.rows[e].dispatched ==> e in s.wire)
  }

  /** The k-th row a pass holds: untouched in the table, attempted once in its work if its turn has come. */
  ghost predicate HeldRow(maxAttempts: nat, s: Sender, p: PassId, k: nat)
    requires p in s.passes && k < |s.passes[p].ids|
  {
    var pass := s.passes[p];
    var e := pass.ids[k];
    && e in s.rows && e in pass.work && Claimable(s.rows[e], maxAttempts)
    && CallsBy(s.calls, p, e, false) == (if k < pass.next then 1 else 0)
    && pass.work[e] == (if k < pass.next then Attempted(s.rows[e], CallsBy(s.calls, p, e, true) == 1) else s.rows[e])
    && (pass.work[e].dispatched ==> e in s.wire)
  }

  ghost predicate PassInvariant(maxAttempts: nat, s: Sender, p: PassId)
    requires p in s.passes
  {
    var pass := s.passes[p];
    && p in s.fates && s.fates[p] == Open
    && Distinct(pass.ids) && pass.next <= |pass.ids|
    && pass.work.Keys == Elements(pass.ids)
    && (forall k {:trigger HeldRow(maxAttempts, s, p, k)} :: 0 <= k < |pass.ids| ==> HeldRow(maxAttempts, s, p, k))
    && (forall e :: e !in pass.ids ==> CallsBy(s.calls, p, e, false) == 0)
  }

  /** No event is held by two passes. */
  ghost predicate HeldOnce(s: Sender) {
    forall p, q, e :: p in s.passes && q in s.passes && e in s.passes[p].ids && e in s.passes[q].ids ==> p == q
  }

  ghost predicate BusinessInvariant(s: Sender) {
    && (forall x, e :: x in s.business && e in s.business[x] ==>
          && e in s.issued && e !in s.rows
          && s.business[x][e] == Row(e, s.business[x][e].occurredAt, false, 0, false))
    && (forall x, y, e :: x in s.business && y in s.business && e in s.business[x] && e in s.business[y] ==> x == y)
  }

  /** Nothing is published for an event that is not committed. */
  ghost predicate CallsInvariant(s: Sender) {
    && (forall c :: c in s.calls ==> c.pass in s.fates && c.event in s.rows && (c.accepted ==> c.event in s.wire))
    && s.wire <= s.rows.Keys
  }

  ghost predicate SendInvariant(maxAttempts: nat, s: Sender) {
    && (forall e :: e in s.rows ==> RowAccounted(maxAttempts, s, e))
    && (forall p :: p in s.passes ==> PassInvariant(maxAttempts, s, p))
    && HeldOnce(s)
    && BusinessInvariant(s)
    && CallsInvariant(s)
  }

  // ---------------------------------------------------------------- preservation, step by step

  /** What a pass relies on is untouched if its own record, its rows and its calls are. */
  lemma PassUnaffected(maxAttempts: nat, s: Sender, s': Sender, p: PassId)
    requires p in s.passes && PassInvariant(maxAttempts, s, p)
    requires p in s'.passes && s'.passes[p] == s.passes[p] && p in s'.fates && s'.fates[p] == Open
    requires forall e :: e in s.passes[p].ids ==> e in s'.rows && e in s.rows && s'.rows[e] == s.rows[e]
    requires forall e, acceptedOnly :: CallsBy(s'.calls, p, e, acceptedOnly) == CallsBy(s.calls, p, e, acceptedOnly)
    requires s.wire <= s'.wire
    ensures PassInvariant(maxAttempts, s', p)
  {
    forall k | 0 <= k < |s.passes[p].ids| ensures HeldRow(maxAttempts, s', p, k) {
      assert HeldRow(maxAttempts, s, p, k);
      assert s.passes[p].ids[k] in s.passes[p].ids;
    }
  }

  lemma BusinessStepKeeps(maxAttempts: nat, s: Sender, a: SendAction, s': Sender)
    requires SendInvariant(maxAttempts, s) && SendStep(maxAttempts, s, a, s')
    requires a.BeginBusiness? || a.Enqueue? || a.RollbackBusiness?
    ensures SendInvariant(maxAttempts, s')
  {
    forall e | e in s'.rows ensures RowAccounted(maxAttempts, s', e) { assert RowAccounted(maxAttempts, s, e); }
    forall p | p in s'.passes ensures PassInvariant(maxAttempts, s', p) {
      forall e | e in s.passes[p].ids ensures e in s.rows { HeldRowsExist(maxAttempts, s, p, e); }
      PassUnaffected(maxAttempts, s, s', p);
    }
    OpenBusinessKeeps(maxAttempts, s, a, s');
  }

  lemma OpenBusinessKeeps(maxAttempts: nat, s: Sender, a: SendAction, s': Sender)
    requires BusinessInvariant(s) && SendStep(maxAttempts, s, a, s')
    requires a.BeginBusiness? || a.Enqueue? || a.RollbackBusiness?
    requires forall e :: e in s.rows ==> e in s.issued
    ensures BusinessInvariant(s')
  {
    if a.Enqueue? { EnqueueKeeps(maxAttempts, s, a, s'); }
  }

  /** What an open transaction holds after an enqueue: what it held before, and in its own case the new row. */
  lemma EnqueueKeeps(maxAttempts: nat, s: Sender, a: SendAction, s': Sender)
    requires BusinessInvariant(s) && SendStep(maxAttempts, s, a, s') && a.Enqueue?
    requires forall e :: e in s.rows ==> e in s.issued
    ensures BusinessInvariant(s')
  {
    forall x, e | x in s'.business && e in s'.business[x]
      ensures e in s'.issued && e !in s'.rows
        && s'.business[x][e] == Row(e, s'.business[x][e].occurredAt, false, 0, false)
    {
      assert (x == a.txn && e == a.row.id) || (x in s.business && e in s.business[x]);
    }
    forall x, y, e | x in s'.business && y in s'.business && e in s'.business[x] && e in s'.business[y]
      ensures x == y
    {
      assert e == a.row.id ==> x == a.txn && y == a.txn;
      assert e != a.row.id ==> e in s.business[x] && e in s.business[y];
    }
  }

  lemma CommitBusinessKeeps(maxAttempts: nat, s: Sender, a: SendAction, s': Sender)
    requires SendInvariant(maxAttempts, s) && SendStep(maxAttempts, s, a, s') && a.CommitBusiness?
    ensures SendInvariant(maxAttempts, s')
  {
    forall e | e in s'.rows ensures RowAccounted(maxAttempts, s', e) {
      if e in s.rows {
        assert RowAccounted(maxAttempts, s, e);
      } else {
        NoCallsWith(s.calls, s.fates, Committed, e, false);
        NoCallsWith(s.calls, s.fates, Committed, e, true);
      }
    }
    forall p | p in s'.passes ensures PassInvariant(maxAttempts, s', p) {
      forall e | e in s.passes[p].ids ensures e in s.rows && e in s'.rows && s'.rows[e] == s.rows[e] {
        HeldRowsExist(maxAttempts, s, p, e);
      }
      PassUnaffected(maxAttempts, s, s', p);
    }
  }

  lemma HeldRowsExist(maxAttempts: nat, s: Sender, p: PassId, e: EventId)
    requires p in s.passes && PassInvariant(maxAttempts, s, p) && e in s.passes[p].ids
    ensures e in s.rows && Claimable(s.rows[e], maxAttempts)
  {
    var k :| 0 <= k < |s.passes[p].ids| && s.passes[p].ids[k] == e;
    assert HeldRow(maxAttempts, s, p, k);
  }

  lemma ClaimAccounts(maxAttempts: nat, s: Sender, a: SendAction, s': Sender, e: EventId)
    requires SendStep(maxAttempts, s, a, s') && a.Claim? && e in s.rows && RowAccounted(maxAttempts, s, e)
    ensures e in s'.rows && RowAccounted(maxAttempts, s', e)
  {
    FateElsewhere(s.calls, s.fates, a.pass, Open, e, false);
    FateElsewhere(s.calls, s.fates, a.pass, Open, e, true);
  }

  lemma ClaimHoldsOnce(maxAttempts: nat, s: Sender, a: SendAction, s': Sender)
    requires SendStep(maxAttempts, s, a, s') && a.Claim? && HeldOnce(s)
    ensures HeldOnce(s')
  {
    assert forall q, e :: q in s.passes && e in s.passes[q].ids ==> e in LockedRows(s);
  }

  lemma ClaimKeeps(maxAttempts: nat, s: Sender, a: SendAction, s': Sender)
    requires SendInvariant(maxAttempts, s) && SendStep(maxAttempts, s, a, s') && a.Claim?
    ensures SendInvariant(maxAttempts, s')
  {
    forall e | e in s'.rows ensures RowAccounted(maxAttempts, s', e) { ClaimAccounts(maxAttempts, s, a, s', e); }
    forall q | q in s'.passes ensures PassInvariant(maxAttempts, s', q) {
      if q == a.pass {
        ClaimedPassHolds(maxAttempts, s, a, s');
      } else {
        ClaimKeepsOther(maxAttempts, s, a, s', q);
      }
    }
    ClaimHoldsOnce(maxAttempts, s, a, s');
  }

  lemma ClaimedPassHolds(maxAttempts: nat, s: Sender, a: SendAction, s': Sender)
    requires CallsInvariant(s) && SendStep(maxAttempts, s, a, s') && a.Claim?
    ensures PassInvariant(maxAttempts, s', a.pass)
  {
    forall e ensures CallsBy(s.calls, a.pass, e, false) == 0 { NoCallsBy(s.calls, a.pass, e, false); }
    forall k | 0 <= k < |a.ids| ensures HeldRow(maxAttempts, s', a.pass, k) {
      assert a.ids[k] in a.ids;
    }
  }

  lemma ClaimKeepsOther(maxAttempts: nat, s: Sender, a: SendAction, s': Sender, q: PassId)
    requires SendStep(maxAttempts, s, a, s') && a.Claim? && q in s.passes && PassInvariant(maxAttempts, s, q)
    ensures q in s'.passes && PassInvariant(maxAttempts, s', q)
  {
    forall e | e in s.passes[q].ids ensures e in s.rows { HeldRowsExist(maxAttempts, s, q, e); }
    PassUnaffected(maxAttempts, s, s', q);
  }

  lemma PublishKeepsOthers(maxAttempts: nat, s: Sender, a: SendAction, s': Sender, q: PassId)
    requires SendInvariant(maxAttempts, s) && SendStep(maxAttempts, s, a, s') && a.Publish?
    requires q in s.passes && q != a.pass
    ensures PassInvariant(maxAttempts, s', q)
  {
    var c := s'.calls[|s.calls|];
    forall e, acceptedOnly ensures CallsBy(s'.calls, q, e, acceptedOnly) == CallsBy(s.calls, q, e, acceptedOnly) {
      CallAppended(s.calls, c, s.fates, q, e, acceptedOnly);
    }
    forall e | e in s.passes[q].ids ensures e in s.rows { HeldRowsExist(maxAttempts, s, q, e); }
    PassUnaffected(maxAttempts, s, s', q);
  }

  lemma PublishKeepsOwn(maxAttempts: nat, s: Sender, a: SendAction, s': Sender)
    requires SendInvariant(maxAttempts, s) && SendStep(maxAttempts, s, a, s') && a.Publish?
    ensures PassInvariant(maxAttempts, s', a.pass)
  {
    var p := a.pass;
    var pass, pass' := s.passes[p], s'.passes[p];
    var c := s'.calls[|s.calls|];
    var turn := pass.next;
    assert PassInvariant(maxAttempts, s, p);
    forall k | 0 <= k < |pass.ids| ensures HeldRow(maxAttempts, s', p, k) {
      var e := pass.ids[k];
      assert HeldRow(maxAttempts, s, p, k);
      CallAppended(s.calls, c, s.fates, p, e, false);
      CallAppended(s.calls, c, s.fates, p, e, true);
      AcceptedAmongCalls(s.calls, p, e);
      assert k != turn ==> e != pass.ids[turn];
    }
    forall e | e !in pass.ids ensures CallsBy(s'.calls, p, e, false) == 0 {
      CallAppended(s.calls, c, s.fates, p, e, false);
      assert pass.ids[turn] in pass.ids;
    }
    assert pass.ids[turn] in pass.ids;
    assert pass'.work.Keys == Elements(pass'.ids);
  }

  lemma PublishKeepsRow(maxAttempts: nat, s: Sender, a: SendAction, s': Sender, e: EventId)
    requires SendInvariant(maxAttempts, s) && SendStep(maxAttempts, s, a, s') && a.Publish? && e in s.rows
    ensures e in s'.rows && RowAccounted(maxAttempts, s', e)
  {
    assert PassInvariant(maxAttempts, s, a.pass);
    assert RowAccounted(maxAttempts, s, e);
    CallAppended(s.calls, s'.calls[|s.calls|], s.fates, a.pass, e, false);
    CallAppended(s.calls, s'.calls[|s.calls|], s.fates, a.pass, e, true);
  }

  lemma PublishKeepsHeld(maxAttempts: nat, s: Sender, a: SendAction, s': Sender)
    requires SendStep(maxAttempts, s, a, s') && a.Publish? && HeldOnce(s) && BusinessInvariant(s)
    ensures HeldOnce(s') && BusinessInvariant(s')
  {
    assert forall q :: q in s'.passes ==> q in s.passes && s'.passes[q].ids == s.passes[q].ids;
  }

  lemma PublishKeepsCalls(maxAttempts: nat, s: Sender, a: SendAction, s': Sender)
    requires SendStep(maxAttempts, s, a, s') && a.Publish? && PassInvariant(maxAttempts, s, a.pass)
    requires CallsInvariant(s)
    ensures CallsInvariant(s')
  {
    HeldRowsExist(maxAttempts, s, a.pass, s.passes[a.pass].ids[s.passes[a.pass].next]);
  }

  lemma PublishKeeps(maxAttempts: nat, s: Sender, a: SendAction, s': Sender)
    requires SendInvariant(maxAttempts, s) && SendStep(maxAttempts, s, a, s') && a.Publish?
    ensures SendInvariant(maxAttempts, s')
  {
    PublishKeepsHeld(maxAttempts, s, a, s');
    PublishKeepsCalls(maxAttempts, s, a, s');
    forall e | e in s'.rows ensures RowAccounted(maxAttempts, s', e) { PublishKeepsRow(maxAttempts, s, a, s', e); }
    forall q | q in s'.passes ensures PassInvariant(maxAttempts, s', q) {
      if q == a.pass { PublishKeepsOwn(maxAttempts, s, a, s'); } else { PublishKeepsOthers(maxAttempts, s, a, s', q); }
    }
  }

  lemma EndedPassKeepsOthers(maxAttempts: nat, s: Sender, a: SendAction, s': Sender, q: PassId)
    requires SendInvariant(maxAttempts, s) && SendStep(maxAttempts, s, a, s') && (a.CommitPass? || a.LosePass?)
    requires q in s'.passes
    ensures PassInvariant(maxAttempts, s', q)
  {
    assert PassInvariant(maxAttempts, s, a.pass);
    forall e | e in s.passes[q].ids ensures e in s.rows && e in s'.rows && s'.rows[e] == s.rows[e] {
      HeldRowsExist(maxAttempts, s, q, e);
      assert e !in Elements(s.passes[a.pass].ids);
    }
    PassUnaffected(maxAttempts, s, s', q);
  }

  lemma CommitPassAccounts(maxAttempts: nat, s: Sender, a: SendAction, s': Sender, e: EventId)
    requires SendInvariant(maxAttempts, s) && SendStep(maxAttempts, s, a, s') && a.CommitPass?
    requires e in s'.rows
    ensures RowAccounted(maxAttempts, s', e)
  {
    var p := a.pass;
    var pass := s.passes[p];
    assert PassInvariant(maxAttempts, s, p);
    FateDecided(s.calls, s.fates, p, Committed, e, false);
    FateDecided(s.calls, s.fates, p, Committed, e, true);
    AcceptedAmongCalls(s.calls, p, e);
    if e in pass.ids {
      var k :| 0 <= k < |pass.ids| && pass.ids[k] == e;
      assert HeldRow(maxAttempts, s, p, k);
      assert RowAccounted(maxAttempts, s, e);
    } else {
      assert e !in Elements(pass.ids);
      assert RowAccounted(maxAttempts, s, e);
    }
  }

  lemma CommitPassKeeps(maxAttempts: nat, s: Sender, a: SendAction, s': Sender)
    requires SendInvariant(maxAttempts, s) && SendStep(maxAttempts, s, a, s') && a.CommitPass?
    ensures SendInvariant(maxAttempts, s')
  {
    assert PassInvariant(maxAttempts, s, a.pass);
    forall e | e in s.passes[a.pass].work ensures e in s.rows {
      assert e in Elements(s.passes[a.pass].ids);
      HeldRowsExist(maxAttempts, s, a.pass, e);
    }
    assert s'.rows.Keys == s.rows.Keys;
    forall e | e in s'.rows ensures RowAccounted(maxAttempts, s', e) { CommitPassAccounts(maxAttempts, s, a, s', e); }
    forall q | q in s'.passes ensures PassInvariant(maxAttempts, s', q) {
      EndedPassKeepsOthers(maxAttempts, s, a, s', q);
    }
  }

  lemma LosePassAccounts(maxAttempts: nat, s: Sender, a: SendAction, s': Sender, e: EventId)
    requires SendStep(maxAttempts, s, a, s') && a.LosePass? && e in s.rows && RowAccounted(maxAttempts, s, e)
    requires PassInvariant(maxAttempts, s, a.pass)
    ensures e in s'.rows && RowAccounted(maxAttempts, s', e)
  {
    FateElsewhere(s.calls, s.fates, a.pass, Lost, e, false);
    FateElsewhere(s.calls, s.fates, a.pass, Lost, e, true);
  }

  lemma LosePassKeeps(maxAttempts: nat, s: Sender, a: SendAction, s': Sender)
    requires SendInvariant(maxAttempts, s) && SendStep(maxAttempts, s, a, s') && a.LosePass?
    ensures SendInvariant(maxAttempts, s')
  {
    assert PassInvariant(maxAttempts, s, a.pass);
    forall e | e in s'.rows ensures RowAccounted(maxAttempts, s', e) { LosePassAccounts(maxAttempts, s, a, s', e); }
    forall q | q in s'.passes ensures PassInvariant(maxAttempts, s', q) {
      EndedPassKeepsOthers(maxAttempts, s, a, s', q);
    }
  }

  lemma SendStepKeeps(maxAttempts: nat, s: Sender, a: SendAction, s': Sender)
    requires SendInvariant(maxAttempts, s) && SendStep(maxAttempts, s, a, s')
    ensures SendInvariant(maxAttempts, s')
  {
    match a
    case CommitBusiness(_) => CommitBusinessKeeps(maxAttempts, s, a, s');
    case Claim(_, _, _) => ClaimKeeps(maxAttempts, s, a, s');
    case Publish(_, _, _) => PublishKeeps(maxAttempts, s, a, s');
    case CommitPass(_) => CommitPassKeeps(maxAttempts, s, a, s');
    case LosePass(_) => LosePassKeeps(maxAttempts, s, a, s');
    case _ => BusinessStepKeeps(maxAttempts, s, a, s');
  }

  // ---------------------------------------------------------------- rows only move forward

  predicate Advanced(row: Row, row': Row) {
    row'.id == row.id && row'.occurredAt == row.occurredAt && row.attempts <= row'.attempts
    && (row.dispatched ==> row' == row)
  }

  /** A committed row is never lost or reset, and a dispatched one never changes again. */
  lemma StepAdvancesRow(maxAttempts: nat, s: Sender, a: SendAction, s': Sender, e: EventId)
    requires SendInvariant(maxAttempts, s) && SendStep(maxAttempts, s, a, s') && e in s.rows
    ensures e in s'.rows && Advanced(s.rows[e], s'.rows[e])
  {
    if a.CommitPass? {
      assert PassInvariant(maxAttempts, s, a.pass);
      if e in s.passes[a.pass].work {
        assert e in Elements(s.passes[a.pass].ids);
        var k :| 0 <= k < |s.passes[a.pass].ids| && s.passes[a.pass].ids[k] == e;
        assert HeldRow(maxAttempts, s, a.pass, k);
      }
    }
  }

  /** Only a business commit adds rows, and it adds what the transaction enqueued. */
  lemma NewRowIsBusiness(maxAttempts: nat, s: Sender, a: SendAction, s': Sender, d: EventId)
    requires SendInvariant(maxAttempts, s) && SendStep(maxAttempts, s, a, s') && d in s'.rows && d !in s.rows
    ensures a.CommitBusiness? && d in s.business[a.txn] && s'.rows[d] == s.business[a.txn][d]
  {
    if a.CommitPass? {
      assert PassInvariant(maxAttempts, s, a.pass);
      if d in s.passes[a.pass].work {
        assert d in Elements(s.passes[a.pass].ids);
        HeldRowsExist(maxAttempts, s, a.pass, d);
      }
    }
  }
}
