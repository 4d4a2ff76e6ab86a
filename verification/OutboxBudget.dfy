/** Progress under concurrency: however many relays are at work, and however many of their passes are lost, the
    attempts left bound the passes that can commit. */
module OutboxBudget {
  import opened Ordering
  import opened OutboxTable
  import opened OutboxDelivery
  import opened EndToEndDelivery

  ghost function LeftIn(table: Table, keys: set<EventId>, maxAttempts: nat): nat
    requires keys <= table.Keys
  {
    if keys == {} then 0
    else
      var e :| e in keys;
      Left(table[e], maxAttempts) + LeftIn(table, keys - {e}, maxAttempts)
  }

  /** Attempts left over all committed rows. */
  ghost function AttemptsLeft(s: Sender, maxAttempts: nat): nat {
    LeftIn(s.rows, s.rows.Keys, maxAttempts)
  }

  /** The sum may be taken in any order. */
  lemma {:induction false} TakeOut(table: Table, keys: set<EventId>, maxAttempts: nat, e: EventId)
    requires keys <= table.Keys && e in keys
    ensures LeftIn(table, keys, maxAttempts) == Left(table[e], maxAttempts) + LeftIn(table, keys - {e}, maxAttempts)
    decreases keys
  {
    var c :| c in keys && LeftIn(table, keys, maxAttempts)
      == Left(table[c], maxAttempts) + LeftIn(table, keys - {c}, maxAttempts);
    if c != e {
      TakeOut(table, keys - {c}, maxAttempts, e);
      TakeOut(table, keys - {e}, maxAttempts, c);
      assert keys - {c} - {e} == keys - {e} - {c};
    }
  }

  /** If no row gains attempts and each row in `spent` loses one, the sum falls by the number of those. */
  lemma {:induction false} SpentFromEach(before: Table, after: Table, keys: set<EventId>, spent: set<EventId>,
                                         maxAttempts: nat)
    requires keys <= before.Keys && keys <= after.Keys && spent <= keys
    requires forall e :: e in keys ==>
      Left(after[e], maxAttempts) + (if e in spent then 1 else 0) <= Left(before[e], maxAttempts)
    ensures LeftIn(after, keys, maxAttempts) + |spent| <= LeftIn(before, keys, maxAttempts)
    decreases keys
  {
    if keys != {} {
      var e :| e in keys;
      TakeOut(before, keys, maxAttempts, e);
      TakeOut(after, keys, maxAttempts, e);
      SpentFromEach(before, after, keys - {e}, spent - {e}, maxAttempts);
      if e !in spent { assert spent - {e} == spent; }
    }
  }

  /** The attempts granted to `n` events. */
  function Granted(maxAttempts: nat, n: nat): nat {
    if n == 0 then 0 else maxAttempts + Granted(maxAttempts, n - 1)
  }

  lemma {:induction false} GrantsAdd(maxAttempts: nat, a: nat, b: nat)
    ensures Granted(maxAttempts, a + b) == Granted(maxAttempts, a) + Granted(maxAttempts, b)
  {
    if b > 0 { GrantsAdd(maxAttempts, a, b - 1); }
  }

  lemma {:induction false} GrantedIsProduct(maxAttempts: nat, n: nat)
    ensures Granted(maxAttempts, n) == maxAttempts * n
  {
    if n > 0 {
      GrantedIsProduct(maxAttempts, n - 1);
      assert maxAttempts * n == maxAttempts * (n - 1) + maxAttempts;
    }
  }

  lemma {:induction false} LeftInBound(table: Table, keys: set<EventId>, maxAttempts: nat)
    requires keys <= table.Keys
    ensures LeftIn(table, keys, maxAttempts) <= Granted(maxAttempts, |keys|)
    decreases keys
  {
    if keys != {} {
      var e :| e in keys;
      TakeOut(table, keys, maxAttempts, e);
      LeftInBound(table, keys - {e}, maxAttempts);
    }
  }

  lemma {:induction false} LeftInJoin(table: Table, a: set<EventId>, b: set<EventId>, maxAttempts: nat)
    requires a + b <= table.Keys && a !! b
    ensures LeftIn(table, a + b, maxAttempts) == LeftIn(table, a, maxAttempts) + LeftIn(table, b, maxAttempts)
    decreases a
  {
    if a == {} {
      assert a + b == b;
    } else {
      var e :| e in a;
      TakeOut(table, a, maxAttempts, e);
      TakeOut(table, a + b, maxAttempts, e);
      LeftInJoin(table, a - {e}, b, maxAttempts);
      assert a + b - {e} == (a - {e}) + b;
    }
  }

  /** Nothing is left exactly when no row is claimable. */
  lemma {:induction false} NothingLeftIff(table: Table, keys: set<EventId>, maxAttempts: nat)
    requires keys <= table.Keys
    ensures LeftIn(table, keys, maxAttempts) == 0 <==> forall e :: e in keys ==> !Claimable(table[e], maxAttempts)
    decreases keys
  {
    if keys != {} {
      var e :| e in keys;
      TakeOut(table, keys, maxAttempts, e);
      NothingLeftIff(table, keys - {e}, maxAttempts);
      assert keys == keys - {e} + {e};
    }
  }

  /** The sum over a listing of the table is the same sum. */
  lemma {:induction false} BudgetIsSum(rows: seq<Row>, maxAttempts: nat)
    requires InOrder(rows)
    ensures Budget(rows, maxAttempts) == LeftIn(TableOf(rows), TableOf(rows).Keys, maxAttempts)
  {
    if rows != [] {
      var rest, table := TableOf(rows[1..]), TableOf(rows);
      TailInOrder(rows);
      TableHoldsRows(rows[1..]);
      BudgetIsSum(rows[1..], maxAttempts);
      assert rows[0].id !in rest;
      assert table.Keys - {rows[0].id} == rest.Keys;
      TakeOut(table, table.Keys, maxAttempts, rows[0].id);
      SameLeft(rest, table, rest.Keys, maxAttempts);
    }
  }

  lemma SameLeft(a: Table, b: Table, keys: set<EventId>, maxAttempts: nat)
    requires keys <= a.Keys && keys <= b.Keys && forall e :: e in keys ==> a[e] == b[e]
    ensures LeftIn(a, keys, maxAttempts) == LeftIn(b, keys, maxAttempts)
  {
    SpentFromEach(a, b, keys, {}, maxAttempts);
    SpentFromEach(b, a, keys, {}, maxAttempts);
  }

  // ---------------------------------------------------------------- one step

  /** The rows a step's committed pass had claimed. */
  function SpentBy(s: Sender, a: SendAction): nat {
    if a.CommitPass? && a.pass in s.passes then |s.passes[a.pass].ids| else 0
  }

  /** A committing pass has used one attempt of every row it holds. */
  lemma CommittedRowSpent(maxAttempts: nat, s: Sender, p: PassId, e: EventId)
    requires p in s.passes && PassInvariant(maxAttempts, s, p) && s.passes[p].next == |s.passes[p].ids|
    requires e in s.passes[p].work
    ensures e in s.passes[p].ids && e in s.rows
    ensures Left(s.passes[p].work[e], maxAttempts) + 1 <= Left(s.rows[e], maxAttempts)
  {
    assert e in Elements(s.passes[p].ids);
    var k :| 0 <= k < |s.passes[p].ids| && s.passes[p].ids[k] == e;
    assert HeldRow(maxAttempts, s, p, k);
  }

  lemma CommitPassSpends(maxAttempts: nat, s: Sender, p: PassId, s': Sender)
    requires p in s.passes && PassInvariant(maxAttempts, s, p) && SendStep(maxAttempts, s, CommitPass(p), s')
    ensures AttemptsLeft(s', maxAttempts) + |s.passes[p].ids| <= AttemptsLeft(s, maxAttempts)
  {
    var pass := s.passes[p];
    forall e | e in pass.work
      ensures e in s.rows && Left(pass.work[e], maxAttempts) + 1 <= Left(s.rows[e], maxAttempts)
    {
      CommittedRowSpent(maxAttempts, s, p, e);
    }
    assert s'.rows.Keys == s.rows.Keys;
    DistinctLength(pass.ids);
    SpentFromEach(s.rows, s'.rows, s.rows.Keys, pass.work.Keys, maxAttempts);
  }

  lemma SameSize(a: Table, b: Table)
    requires a.Keys == b.Keys
    ensures |a| == |b|
  {
    assert |a| == |a.Keys| && |b| == |b.Keys|;
  }

  /** Apart from a business commit, no step gives attempts back, and a pass commit spends one for each row it
      claimed. */
  lemma StepSpends(maxAttempts: nat, s: Sender, a: SendAction, s': Sender)
    requires SendInvariant(maxAttempts, s) && SendStep(maxAttempts, s, a, s') && !a.CommitBusiness?
    ensures AttemptsLeft(s', maxAttempts) + SpentBy(s, a) <= AttemptsLeft(s, maxAttempts)
    ensures |s'.rows| == |s.rows|
  {
    if a.CommitPass? {
      assert PassInvariant(maxAttempts, s, a.pass);
      CommitPassSpends(maxAttempts, s, a.pass, s');
      forall e | e in s.passes[a.pass].work ensures e in s.rows { CommittedRowSpent(maxAttempts, s, a.pass, e); }
      SameSize(s.rows, s'.rows);
    } else {
      assert s'.rows == s.rows;
    }
  }

  /** A business commit grants `maxAttempts` for each event it adds, and no more. */
  lemma BusinessGrants(maxAttempts: nat, s: Sender, a: SendAction, s': Sender)
    requires SendInvariant(maxAttempts, s) && SendStep(maxAttempts, s, a, s') && a.CommitBusiness?
    ensures AttemptsLeft(s', maxAttempts) + Granted(maxAttempts, |s.rows|)
      <= AttemptsLeft(s, maxAttempts) + Granted(maxAttempts, |s'.rows|)
  {
    AddedApart(s, a.txn);
    JoinGrants(s.rows, s.business[a.txn], maxAttempts);
  }

  lemma JoinGrants(rows: Table, added: Table, maxAttempts: nat)
    requires rows.Keys !! added.Keys
    ensures LeftIn(rows + added, (rows + added).Keys, maxAttempts) + Granted(maxAttempts, |rows|)
      <= LeftIn(rows, rows.Keys, maxAttempts) + Granted(maxAttempts, |rows + added|)
  {
    var all := rows + added;
    assert all.Keys == rows.Keys + added.Keys;
    LeftInJoin(all, rows.Keys, added.Keys, maxAttempts);
    SpentFromEach(rows, all, rows.Keys, {}, maxAttempts);
    LeftInBound(all, added.Keys, maxAttempts);
    assert |added| == |added.Keys| && |rows| == |rows.Keys| && |all| == |all.Keys|;
    GrantsAdd(maxAttempts, |rows|, |added|);
  }

  lemma AddedApart(s: Sender, x: TxnId)
    requires BusinessInvariant(s) && x in s.business
    ensures s.rows.Keys !! s.business[x].Keys
  {}

  lemma StepBounded(maxAttempts: nat, s: Sender, a: SendAction, s': Sender)
    requires SendInvariant(maxAttempts, s) && SendStep(maxAttempts, s, a, s')
    ensures AttemptsLeft(s', maxAttempts) + SpentBy(s, a) + Granted(maxAttempts, |s.rows|)
      <= AttemptsLeft(s, maxAttempts) + Granted(maxAttempts, |s'.rows|)
  {
    if a.CommitBusiness? {
      BusinessGrants(maxAttempts, s, a, s');
    } else {
      StepSpends(maxAttempts, s, a, s');
    }
  }

  // ---------------------------------------------------------------- whole runs

  /** Rows claimed by the passes that commit in steps i to j. */
  function Spent(trace: seq<State>, actions: seq<Action>, i: nat, j: nat): nat
    requires i <= j <= |actions| < |trace|
    decreases j - i
  {
    if i == j then 0
    else (if actions[i].Send? then SpentBy(trace[i].sender, actions[i].send) else 0) + Spent(trace, actions, i + 1, j)
  }

  predicate CommitsRows(s: State, a: Action) {
    a.Send? && SpentBy(s.sender, a.send) > 0
  }

  /** Passes with a non-empty claim that commit in steps i to j. */
  function NonEmptyCommits(trace: seq<State>, actions: seq<Action>, i: nat, j: nat): nat
    requires i <= j <= |actions| < |trace|
    decreases j - i
  {
    if i == j then 0
    else (if CommitsRows(trace[i], actions[i]) then 1 else 0) + NonEmptyCommits(trace, actions, i + 1, j)
  }

  lemma {:induction false} CommitsSpend(trace: seq<State>, actions: seq<Action>, i: nat, j: nat)
    requires i <= j <= |actions| < |trace|
    ensures NonEmptyCommits(trace, actions, i, j) <= Spent(trace, actions, i, j)
    decreases j - i
  {
    if i < j { CommitsSpend(trace, actions, i + 1, j); }
  }

  ghost predicate NoNewEvents(actions: seq<Action>, i: nat, j: nat)
    requires i <= j <= |actions|
  {
    forall k :: i <= k < j ==> !(actions[k].Send? && actions[k].send.CommitBusiness?)
  }

  lemma RunStepSpends(maxAttempts: nat, trace: seq<State>, actions: seq<Action>, n: nat)
    requires Execution(maxAttempts, trace, actions) && n < |actions|
    requires !(actions[n].Send? && actions[n].send.CommitBusiness?)
    ensures AttemptsLeft(trace[n + 1].sender, maxAttempts) + Spent(trace, actions, n, n + 1)
      <= AttemptsLeft(trace[n].sender, maxAttempts)
  {
    InvariantThroughout(maxAttempts, trace, actions, n);
    assert Step(maxAttempts, trace[n], actions[n], trace[n + 1]);
    if actions[n].Send? { StepSpends(maxAttempts, trace[n].sender, actions[n].send, trace[n + 1].sender); }
  }

  /** With no new events, over any stretch of a run of any number of relays: each committed pass uses up an attempt for
      every row it claimed, so at most as many non-empty passes commit as there were attempts left. */
  lemma {:induction false} RelaysSpendBudget(maxAttempts: nat, trace: seq<State>, actions: seq<Action>, i: nat, j: nat)
    requires Execution(maxAttempts, trace, actions) && i <= j <= |actions| && NoNewEvents(actions, i, j)
    ensures AttemptsLeft(trace[j].sender, maxAttempts) + Spent(trace, actions, i, j)
      <= AttemptsLeft(trace[i].sender, maxAttempts)
    ensures NonEmptyCommits(trace, actions, i, j) <= AttemptsLeft(trace[i].sender, maxAttempts)
    decreases j - i
  {
    if i < j {
      RunStepSpends(maxAttempts, trace, actions, i);
      RelaysSpendBudget(maxAttempts, trace, actions, i + 1, j);
    }
    CommitsSpend(trace, actions, i, j);
  }

  lemma RunStepBounded(maxAttempts: nat, trace: seq<State>, actions: seq<Action>, n: nat)
    requires Execution(maxAttempts, trace, actions) && n < |actions|
    ensures var s, s' := trace[n].sender, trace[n + 1].sender;
      AttemptsLeft(s', maxAttempts) + Spent(trace, actions, n, n + 1) + Granted(maxAttempts, |s.rows|)
      <= AttemptsLeft(s, maxAttempts) + Granted(maxAttempts, |s'.rows|)
  {
    InvariantThroughout(maxAttempts, trace, actions, n);
    assert Step(maxAttempts, trace[n], actions[n], trace[n + 1]);
    if actions[n].Send? { StepBounded(maxAttempts, trace[n].sender, actions[n].send, trace[n + 1].sender); }
  }

  lemma {:induction false} StretchIsBounded(maxAttempts: nat, trace: seq<State>, actions: seq<Action>, i: nat, j: nat)
    requires Execution(maxAttempts, trace, actions) && i <= j <= |actions|
    ensures var s, s' := trace[i].sender, trace[j].sender;
      AttemptsLeft(s', maxAttempts) + Spent(trace, actions, i, j) + Granted(maxAttempts, |s.rows|)
      <= AttemptsLeft(s, maxAttempts) + Granted(maxAttempts, |s'.rows|)
    decreases j - i
  {
    if i < j {
      RunStepBounded(maxAttempts, trace, actions, i);
      StretchIsBounded(maxAttempts, trace, actions, i + 1, j);
    }
  }

  /** Over any whole run, new events included: at most `maxAttempts` non-empty passes for each committed event ever
      commit, by all relays together. */
  lemma CommitsAreBounded(maxAttempts: nat, trace: seq<State>, actions: seq<Action>)
    requires Execution(maxAttempts, trace, actions)
    ensures NonEmptyCommits(trace, actions, 0, |actions|) <= maxAttempts * |trace[|actions|].sender.rows|
  {
    StretchIsBounded(maxAttempts, trace, actions, 0, |actions|);
    CommitsSpend(trace, actions, 0, |actions|);
    assert |trace[0].sender.rows| == 0;
    GrantedIsProduct(maxAttempts, |trace[|actions|].sender.rows|);
  }

  ghost predicate Drained(s: Sender, maxAttempts: nat) {
    forall e :: e in s.rows ==> !Claimable(s.rows[e], maxAttempts)
  }

  /** When a relay's claim comes back empty and no pass is open, every event has been dispatched or has used up its
      attempts, and this stays so, with no non-empty pass committing, until new events are committed. */
  lemma EmptyClaimMeansDrained(maxAttempts: nat, trace: seq<State>, actions: seq<Action>, i: nat, j: nat)
    requires Execution(maxAttempts, trace, actions) && i < j <= |actions| && NoNewEvents(actions, i, j)
    requires trace[i].sender.passes == map[]
    requires actions[i].Send? && actions[i].send.Claim? && actions[i].send.limit >= 1 && actions[i].send.ids == []
    ensures Drained(trace[j].sender, maxAttempts)
    ensures NonEmptyCommits(trace, actions, i, j) == 0
  {
    assert Step(maxAttempts, trace[i], actions[i], trace[i + 1]);
    var s := trace[i].sender;
    assert LockedRows(s) == {};
    NothingLeftIff(s.rows, s.rows.Keys, maxAttempts);
    RelaysSpendBudget(maxAttempts, trace, actions, i, j);
    NothingLeftIff(trace[j].sender.rows, trace[j].sender.rows.Keys, maxAttempts);
  }
}
