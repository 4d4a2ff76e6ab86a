/** Progress of a relay whose passes commit: the outbox drains, and failing events delay the ones
    behind them by a bounded number of passes. */
module OutboxProgress {
  import opened OutboxTable

  /** `after` is the table a committed pass may leave, whatever the publisher answers. */
  ghost predicate PassStep(before: seq<Row>, limit: nat, maxAttempts: nat, after: seq<Row>) {
    exists results: seq<bool> :: |results| == |ClaimPending(before, {}, limit, maxAttempts)|
      && after == Pass(before, {}, limit, maxAttempts, results)
  }

  ghost predicate Passes(tables: seq<seq<Row>>, limit: nat, maxAttempts: nat) {
    tables != [] && forall i :: 0 <= i < |tables| - 1 ==> PassStep(tables[i], limit, maxAttempts, tables[i + 1])
  }

  // ---------------------------------------------------------------- the relay drains

  /** Each pass uses up at least one attempt for every row it claims. */
  lemma {:induction false} PassesSpendBudget(tables: seq<seq<Row>>, limit: nat, maxAttempts: nat, n: nat)
    requires Passes(tables, limit, maxAttempts) && n < |tables|
    requires forall i :: 0 <= i < n ==> ClaimPending(tables[i], {}, limit, maxAttempts) != []
    ensures Budget(tables[n], maxAttempts) + n <= Budget(tables[0], maxAttempts)
  {
    if n > 0 {
      PassesSpendBudget(tables, limit, maxAttempts, n - 1);
      var results: seq<bool> :| |results| == |ClaimPending(tables[n - 1], {}, limit, maxAttempts)|
        && tables[n] == Pass(tables[n - 1], {}, limit, maxAttempts, results);
      PassEffect(tables[n - 1], {}, limit, maxAttempts, results);
    }
  }

  lemma {:induction false} EmptyClaimIsIdle(rows: seq<Row>, limit: nat, maxAttempts: nat, after: seq<Row>)
    requires ClaimPending(rows, {}, limit, maxAttempts) == [] && PassStep(rows, limit, maxAttempts, after)
    ensures after == rows
  {
    var results: seq<bool> :| |results| == 0 && after == Pass(rows, {}, limit, maxAttempts, results);
    if rows != [] && limit > 0 {
      EmptyClaimIsIdle(rows[1..], limit, maxAttempts, after[1..]) by {
        assert after[1..] == Pass(rows[1..], {}, limit, maxAttempts, results);
        assert PassStep(rows[1..], limit, maxAttempts, after[1..]);
      }
    }
  }

  lemma {:induction false} NothingClaimed(rows: seq<Row>, limit: nat, maxAttempts: nat)
    requires limit > 0
    ensures ClaimPending(rows, {}, limit, maxAttempts) == [] <==> forall r :: r in rows ==> !Claimable(r, maxAttempts)
  {
    if rows != [] {
      NothingClaimed(rows[1..], limit, maxAttempts);
      assert rows == [rows[0]] + rows[1..];
    }
  }

  lemma {:induction false} StaysIdle(tables: seq<seq<Row>>, limit: nat, maxAttempts: nat, i: nat, n: nat)
    requires Passes(tables, limit, maxAttempts) && i <= n < |tables|
    requires ClaimPending(tables[i], {}, limit, maxAttempts) == []
    ensures tables[n] == tables[i]
    decreases n - i
  {
    if i < n {
      StaysIdle(tables, limit, maxAttempts, i, n - 1);
      EmptyClaimIsIdle(tables[n - 1], limit, maxAttempts, tables[n]);
    }
  }

  /** With no new events, once as many passes have committed as there were attempts left, every event
      has been dispatched or has used up its attempts, and further passes change nothing. */
  lemma RelayDrains(tables: seq<seq<Row>>, limit: nat, maxAttempts: nat, n: nat)
    requires Passes(tables, limit, maxAttempts) && limit >= 1
    requires Budget(tables[0], maxAttempts) <= n < |tables|
    ensures forall r :: r in tables[n] ==> r.dispatched || r.attempts >= maxAttempts
    ensures forall m :: n <= m < |tables| ==> tables[m] == tables[n]
  {
    var bound := Budget(tables[0], maxAttempts);
    if forall i :: 0 <= i < bound ==> ClaimPending(tables[i], {}, limit, maxAttempts) != [] {
      PassesSpendBudget(tables, limit, maxAttempts, bound);
      NoBudgetNoClaim(tables[bound], limit, maxAttempts);
      StaysIdle(tables, limit, maxAttempts, bound, n);
    } else {
      var i :| 0 <= i < bound && ClaimPending(tables[i], {}, limit, maxAttempts) == [];
      StaysIdle(tables, limit, maxAttempts, i, n);
    }
    NothingClaimed(tables[n], limit, maxAttempts);
    forall m | n <= m < |tables| ensures tables[m] == tables[n] {
      StaysIdle(tables, limit, maxAttempts, n, m);
    }
  }

  lemma {:induction false} NoBudgetNoClaim(rows: seq<Row>, limit: nat, maxAttempts: nat)
    requires Budget(rows, maxAttempts) == 0
    ensures ClaimPending(rows, {}, limit, maxAttempts) == []
  {
    if rows != [] { NoBudgetNoClaim(rows[1..], limit, maxAttempts); }
  }

  // ---------------------------------------------------------------- bounded wait behind failing events

  /** Committing new events: each takes its place in claim order. */
  function Insert(rows: seq<Row>, row: Row): seq<Row> {
    if rows == [] || Before(row, rows[0]) then [row] + rows
    else [rows[0]] + Insert(rows[1..], row)
  }

  function InsertAll(rows: seq<Row>, arrivals: seq<Row>): seq<Row>
    decreases |arrivals|
  {
    if arrivals == [] then rows else InsertAll(Insert(rows, arrivals[0]), arrivals[1..])
  }

  /** One pass, then events committed behind `mark`. */
  ghost predicate Round(before: seq<Row>, limit: nat, maxAttempts: nat, mark: Row, after: seq<Row>) {
    exists passed, arrivals: seq<Row> :: PassStep(before, limit, maxAttempts, passed)
      && (forall r :: r in arrivals ==> Before(mark, r))
      && after == InsertAll(passed, arrivals)
  }

  lemma {:induction false} InsertBehind(rows: seq<Row>, n: nat, row: Row)
    requires n <= |rows| && forall i :: 0 <= i < n ==> !Before(row, rows[i])
    ensures |Insert(rows, row)| == |rows| + 1 && Insert(rows, row)[..n] == rows[..n]
    decreases n
  {
    if n > 0 {
      InsertBehind(rows[1..], n - 1, row);
      assert rows[..n] == [rows[0]] + rows[1..][..n - 1];
      assert Insert(rows, row)[..n] == [rows[0]] + Insert(rows[1..], row)[..n - 1];
    } else {
      InsertGrows(rows, row);
    }
  }

  lemma {:induction false} InsertGrows(rows: seq<Row>, row: Row)
    ensures |Insert(rows, row)| == |rows| + 1
  {
    if rows != [] && !Before(row, rows[0]) { InsertGrows(rows[1..], row); }
  }

  lemma {:induction false} InsertAllBehind(rows: seq<Row>, n: nat, arrivals: seq<Row>)
    requires n <= |rows| && forall r, i :: r in arrivals && 0 <= i < n ==> !Before(r, rows[i])
    ensures |InsertAll(rows, arrivals)| >= |rows| && InsertAll(rows, arrivals)[..n] == rows[..n]
    decreases |arrivals|
  {
    if arrivals != [] {
      assert arrivals[0] in arrivals;
      InsertBehind(rows, n, arrivals[0]);
      var next := Insert(rows, arrivals[0]);
      forall r, i | r in arrivals[1..] && 0 <= i < n ensures !Before(r, next[i]) {
        assert next[i] == next[..n][i] == rows[..n][i];
        assert r in arrivals;
      }
      InsertAllBehind(next, n, arrivals[1..]);
    }
  }

  /** What stands at and ahead of position `at` evolves by the pass alone. */
  lemma RoundKeepsPrefix(before: seq<Row>, limit: nat, maxAttempts: nat, at: nat, after: seq<Row>)
    returns (results: seq<bool>)
    requires InOrder(before) && at < |before| && Round(before, limit, maxAttempts, before[at], after)
    ensures |results| == |ClaimPending(before, {}, limit, maxAttempts)| && at < |after|
    ensures after[..at + 1] == Pass(before, {}, limit, maxAttempts, results)[..at + 1]
  {
    var passed, arrivals: seq<Row> :| PassStep(before, limit, maxAttempts, passed)
      && (forall r :: r in arrivals ==> Before(before[at], r)) && after == InsertAll(passed, arrivals);
    results :| |results| == |ClaimPending(before, {}, limit, maxAttempts)|
      && passed == Pass(before, {}, limit, maxAttempts, results);
    forall r, i | r in arrivals && 0 <= i < at + 1 ensures !Before(r, passed[i]) {
      PassAt(before, {}, limit, maxAttempts, results, i);
      if i < at { assert Precedes(before[i], before[at]); }
    }
    InsertAllBehind(passed, at + 1, arrivals);
  }

  /** Unless its own turn comes, a pass spends `limit` attempts ahead of a waiting event. */
  lemma {:induction false} PassSpendsAhead(rows: seq<Row>, limit: nat, maxAttempts: nat, results: seq<bool>, at: nat)
    requires |results| == |ClaimPending(rows, {}, limit, maxAttempts)| && at <= |rows|
    ensures var after := Pass(rows, {}, limit, maxAttempts, results);
      Budget(after[..at], maxAttempts) + Min(limit, Count(rows[..at], {}, maxAttempts))
      <= Budget(rows[..at], maxAttempts)
    decreases |rows|
  {
    if at > 0 && limit > 0 {
      var after := Pass(rows, {}, limit, maxAttempts, results);
      assert rows[..at][1..] == rows[1..][..at - 1];
      assert after[..at][1..] == after[1..][..at - 1];
      if Claimable(rows[0], maxAttempts) {
        PassSpendsAhead(rows[1..], limit - 1, maxAttempts, results[1..], at - 1);
      } else {
        PassSpendsAhead(rows[1..], limit, maxAttempts, results, at - 1);
      }
    }
  }

  /** Whether the next pass claims the event at `at`. */
  predicate ClaimedNext(rows: seq<Row>, locked: set<EventId>, limit: nat, maxAttempts: nat, at: nat)
    requires at < |rows|
  {
    rows[at] in ClaimPending(rows, locked, limit, maxAttempts)
  }

  lemma {:induction false} ClaimedNextIff(rows: seq<Row>, locked: set<EventId>, limit: nat, maxAttempts: nat, at: nat)
    requires InOrder(rows) && at < |rows|
    ensures ClaimedNext(rows, locked, limit, maxAttempts, at)
      <==> Available(rows[at], locked, maxAttempts) && Count(rows[..at], locked, maxAttempts) < limit
    decreases |rows|
  {
    if limit > 0 {
      TailInOrder(rows);
      if at > 0 {
        assert rows[at] == rows[1..][at - 1];
        assert rows[..at][1..] == rows[1..][..at - 1];
        if Available(rows[0], locked, maxAttempts) {
          ClaimedNextIff(rows[1..], locked, limit - 1, maxAttempts, at - 1);
          assert rows[at] in rows[1..];
        } else {
          ClaimedNextIff(rows[1..], locked, limit, maxAttempts, at - 1);
        }
      } else {
        ClaimedRows(rows[1..], locked, limit, maxAttempts);
      }
    }
  }

  /** A run in which nothing is committed ahead of the event at position `at`. */
  ghost predicate WaitingRun(tables: seq<seq<Row>>, limit: nat, maxAttempts: nat, at: nat) {
    && tables != []
    && (forall i :: 0 <= i < |tables| ==> InOrder(tables[i]) && at < |tables[i]|)
    && (forall i :: 0 <= i < |tables| - 1 ==> Round(tables[i], limit, maxAttempts, tables[i][at], tables[i + 1]))
  }

  lemma {:induction false} WaitSpendsBudget(tables: seq<seq<Row>>, limit: nat, maxAttempts: nat, at: nat, n: nat)
    requires WaitingRun(tables, limit, maxAttempts, at) && n < |tables|
    requires Claimable(tables[0][at], maxAttempts)
    requires forall i :: 0 <= i < n ==> !ClaimedNext(tables[i], {}, limit, maxAttempts, at)
    ensures tables[n][at] == tables[0][at]
    ensures Budget(tables[n][..at], maxAttempts) + n * limit <= Budget(tables[0][..at], maxAttempts)
  {
    if n > 0 {
      WaitSpendsBudget(tables, limit, maxAttempts, at, n - 1);
      var before, after := tables[n - 1], tables[n];
      var results := RoundKeepsPrefix(before, limit, maxAttempts, at, after);
      ClaimedNextIff(before, {}, limit, maxAttempts, at);
      PassAt(before, {}, limit, maxAttempts, results, at);
      PassSpendsAhead(before, limit, maxAttempts, results, at);
      var passed := Pass(before, {}, limit, maxAttempts, results);
      assert after[at] == after[..at + 1][at] == passed[at];
      assert after[..at] == after[..at + 1][..at] == passed[..at];
      assert n * limit == (n - 1) * limit + limit;
    }
  }

  /** Bounded wait: with `A` attempts left ahead of a claimable event, it is claimed within the first
      floor(A / limit) + 1 passes, however the publisher answers and whatever is committed behind it. */
  lemma ClaimedWithinBound(tables: seq<seq<Row>>, limit: nat, maxAttempts: nat, at: nat)
    requires WaitingRun(tables, limit, maxAttempts, at) && limit >= 1
    requires Claimable(tables[0][at], maxAttempts)
    requires |tables| > Budget(tables[0][..at], maxAttempts) / limit
    ensures exists n ::
      0 <= n <= Budget(tables[0][..at], maxAttempts) / limit
      && tables[n][at] == tables[0][at] && ClaimedNext(tables[n], {}, limit, maxAttempts, at)
  {
    var ahead := Budget(tables[0][..at], maxAttempts);
    var n := ahead / limit;
    if forall i :: 0 <= i < n ==> !ClaimedNext(tables[i], {}, limit, maxAttempts, at) {
      WaitSpendsBudget(tables, limit, maxAttempts, at, n);
      BudgetCoversCount(tables[n][..at], maxAttempts);
      DivisionRemainder(ahead, limit);
      ClaimedNextIff(tables[n], {}, limit, maxAttempts, at);
    } else {
      FirstClaim(tables, limit, maxAttempts, at, n);
    }
  }

  lemma {:induction false} FirstClaim(tables: seq<seq<Row>>, limit: nat, maxAttempts: nat, at: nat, n: nat)
    requires WaitingRun(tables, limit, maxAttempts, at) && Claimable(tables[0][at], maxAttempts) && n < |tables|
    requires exists i :: 0 <= i < n && ClaimedNext(tables[i], {}, limit, maxAttempts, at)
    ensures exists i ::
      0 <= i < n && tables[i][at] == tables[0][at] && ClaimedNext(tables[i], {}, limit, maxAttempts, at)
  {
    if exists i :: 0 <= i < n - 1 && ClaimedNext(tables[i], {}, limit, maxAttempts, at) {
      FirstClaim(tables, limit, maxAttempts, at, n - 1);
    } else {
      WaitSpendsBudget(tables, limit, maxAttempts, at, n - 1);
    }
  }

  lemma {:induction false} BudgetCoversCount(rows: seq<Row>, maxAttempts: nat)
    ensures Count(rows, {}, maxAttempts) <= Budget(rows, maxAttempts)
  {
    if rows != [] { BudgetCoversCount(rows[1..], maxAttempts); }
  }

  lemma DivisionRemainder(a: nat, b: nat)
    requires b >= 1
    ensures a - (a / b) * b < b
  {}
}
