/** The outbox rows of one tenant database: what a claim selects and what a relay pass does to them. */
module OutboxTable {
  import opened Ordering

  type EventId = nat

  datatype Row = Row(id: EventId, occurredAt: int, dispatched: bool, attempts: nat, lastError: bool)

  predicate Before(a: Row, b: Row) {
    a.occurredAt < b.occurredAt || (a.occurredAt == b.occurredAt && a.id < b.id)
  }

  ghost predicate Precedes(a: Row, b: Row) {
    Before(a, b) && a.id != b.id
  }

  /** The table, listed in the order claims follow; ids are a primary key. */
  ghost predicate InOrder(rows: seq<Row>) {
    forall i, j {:trigger Precedes(rows[i], rows[j])} :: 0 <= i < j < |rows| ==> Precedes(rows[i], rows[j])
  }

  predicate Claimable(row: Row, maxAttempts: nat) {
    !row.dispatched && row.attempts < maxAttempts
  }

  /** What a claim may take: a claimable row that no other transaction holds locked. */
  predicate Available(row: Row, locked: set<EventId>, maxAttempts: nat) {
    row.id !in locked && Claimable(row, maxAttempts)
  }

  /** Attempts an event still has before it. */
  function Left(row: Row, maxAttempts: nat): nat {
    if Claimable(row, maxAttempts) then maxAttempts - row.attempts else 0
  }

  /** One publish attempt on a claimed row; an earlier error text is never cleared. */
  function Attempted(row: Row, accepted: bool): Row {
    row.(attempts := row.attempts + 1,
         dispatched := row.dispatched || accepted,
         lastError := row.lastError || !accepted)
  }

  /** The oldest claimable rows, at most `limit` of them. */
  function ClaimPending(rows: seq<Row>, locked: set<EventId>, limit: nat, maxAttempts: nat): seq<Row> {
    if rows == [] || limit == 0 then []
    else if Available(rows[0], locked, maxAttempts) then
      [rows[0]] + ClaimPending(rows[1..], locked, limit - 1, maxAttempts)
    else ClaimPending(rows[1..], locked, limit, maxAttempts)
  }

  /** The table after a committed pass whose publish calls were answered `results`, in claim order. */
  function Pass(rows: seq<Row>, locked: set<EventId>, limit: nat, maxAttempts: nat,
                results: seq<bool>): (after: seq<Row>)
    requires |results| == |ClaimPending(rows, locked, limit, maxAttempts)|
    ensures |after| == |rows|
  {
    if rows == [] || limit == 0 then rows
    else if Available(rows[0], locked, maxAttempts) then
      [Attempted(rows[0], results[0])] + Pass(rows[1..], locked, limit - 1, maxAttempts, results[1..])
    else [rows[0]] + Pass(rows[1..], locked, limit, maxAttempts, results)
  }

  function Count(rows: seq<Row>, locked: set<EventId>, maxAttempts: nat): nat {
    if rows == [] then 0
    else (if Available(rows[0], locked, maxAttempts) then 1 else 0) + Count(rows[1..], locked, maxAttempts)
  }

  function DispatchedCount(rows: seq<Row>): nat {
    if rows == [] then 0 else (if rows[0].dispatched then 1 else 0) + DispatchedCount(rows[1..])
  }

  function Accepted(results: seq<bool>): nat {
    if results == [] then 0 else (if results[0] then 1 else 0) + Accepted(results[1..])
  }

  function DispatchedAt(rows: seq<Row>): set<nat> {
    set i | 0 <= i < |rows| && rows[i].dispatched
  }

  lemma {:induction false} DispatchedCountIs(rows: seq<Row>)
    ensures DispatchedCount(rows) == |DispatchedAt(rows)|
  {
    if rows != [] {
      var last := |rows| - 1;
      DispatchedCountIs(rows[..last]);
      DispatchedCountSnoc(rows[..last], rows[last]);
      assert rows == rows[..last] + [rows[last]];
      var before := DispatchedAt(rows[..last]);
      assert last !in before;
      assert DispatchedAt(rows) == if rows[last].dispatched then before + {last} else before;
    }
  }

  lemma {:induction false} DispatchedCountSnoc(rows: seq<Row>, row: Row)
    ensures DispatchedCount(rows + [row]) == DispatchedCount(rows) + if row.dispatched then 1 else 0
  {
    if rows == [] {
      assert ([] + [row])[1..] == [];
    } else {
      assert (rows + [row])[1..] == rows[1..] + [row];
      DispatchedCountSnoc(rows[1..], row);
    }
  }

  /** Attempts the claimable rows still have before them. */
  function Budget(rows: seq<Row>, maxAttempts: nat): nat {
    if rows == [] then 0
    else Left(rows[0], maxAttempts) + Budget(rows[1..], maxAttempts)
  }

  function Min(a: nat, b: nat): nat { if a < b then a else b }

  // ---------------------------------------------------------------- the meaning of a claim

  type Table = map<EventId, Row>

  /** What the locking query promises of the claimed keys, whatever rows others hold locked. */
  ghost predicate IsClaim(table: Table, locked: set<EventId>, limit: nat, maxAttempts: nat, ids: seq<EventId>) {
    && Distinct(ids) && |ids| <= limit
    && (forall e :: e in ids ==> e in table && e !in locked && Claimable(table[e], maxAttempts))
    && (forall i, j :: 0 <= i < j < |ids| ==> Before(table[ids[i]], table[ids[j]]))
    && (forall e :: e in table && e !in locked && e !in ids && Claimable(table[e], maxAttempts) ==>
          |ids| == limit && forall d :: d in ids ==> Before(table[d], table[e]))
  }

  function Ids(rows: seq<Row>): (ids: seq<EventId>)
    ensures |ids| == |rows| && forall i :: 0 <= i < |rows| ==> ids[i] == rows[i].id
  {
    seq(|rows|, i requires 0 <= i < |rows| => rows[i].id)
  }

  function TableOf(rows: seq<Row>): Table {
    if rows == [] then map[] else TableOf(rows[1..])[rows[0].id := rows[0]]
  }

  lemma TailInOrder(rows: seq<Row>)
    requires InOrder(rows) && rows != []
    ensures InOrder(rows[1..])
    ensures forall r :: r in rows[1..] ==> Precedes(rows[0], r)
  {
    forall j | 0 < j < |rows| ensures Precedes(rows[0], rows[j]) {}
    assert rows == [rows[0]] + rows[1..];
    forall i, j | 0 <= i < j < |rows[1..]|
      ensures Precedes(rows[1..][i], rows[1..][j])
    {
      assert Precedes(rows[i + 1], rows[j + 1]);
    }
  }

  lemma {:induction false} TableHoldsRows(rows: seq<Row>)
    requires InOrder(rows)
    ensures forall e :: e in TableOf(rows) <==> exists r :: r in rows && r.id == e
    ensures forall r :: r in rows ==> TableOf(rows)[r.id] == r
    ensures forall e :: e in TableOf(rows) ==> TableOf(rows)[e] in rows && TableOf(rows)[e].id == e
  {
    if rows != [] {
      TailInOrder(rows);
      TableHoldsRows(rows[1..]);
      assert rows == [rows[0]] + rows[1..];
      forall e | e in TableOf(rows) ensures exists r :: r in rows && r.id == e {
        assert TableOf(rows)[e] in rows;
      }
    }
  }

  lemma {:induction false} ClaimedRows(rows: seq<Row>, locked: set<EventId>, limit: nat, maxAttempts: nat)
    requires InOrder(rows)
    ensures var claim := ClaimPending(rows, locked, limit, maxAttempts);
      && |claim| == Min(limit, Count(rows, locked, maxAttempts))
      && InOrder(claim)
      && (forall r :: r in claim ==> r in rows && Available(r, locked, maxAttempts))
      && (forall r :: r in rows && Available(r, locked, maxAttempts) && r !in claim ==>
            |claim| == limit && forall c :: c in claim ==> Before(c, r))
  {
    if rows != [] && limit > 0 {
      TailInOrder(rows);
      if Available(rows[0], locked, maxAttempts) {
        ClaimedRows(rows[1..], locked, limit - 1, maxAttempts);
        PrependInOrder(rows[0], ClaimPending(rows[1..], locked, limit - 1, maxAttempts));
      } else {
        ClaimedRows(rows[1..], locked, limit, maxAttempts);
      }
      assert forall r :: r in rows ==> r == rows[0] || r in rows[1..];
    }
  }

  lemma PrependInOrder(row: Row, rest: seq<Row>)
    requires InOrder(rest) && forall r :: r in rest ==> Precedes(row, r)
    ensures InOrder([row] + rest)
  {
    var all := [row] + rest;
    forall i, j | 0 <= i < j < |all| ensures Precedes(all[i], all[j]) {
      assert all[j] == rest[j - 1] && rest[j - 1] in rest;
      if i > 0 { assert Precedes(rest[i - 1], rest[j - 1]); }
    }
  }

  /** The oldest available rows are the claim the query promises, whatever rows are locked. */
  lemma ClaimIsOldest(rows: seq<Row>, locked: set<EventId>, limit: nat, maxAttempts: nat)
    requires InOrder(rows)
    ensures IsClaim(TableOf(rows), locked, limit, maxAttempts, Ids(ClaimPending(rows, locked, limit, maxAttempts)))
  {
    var claim := ClaimPending(rows, locked, limit, maxAttempts);
    var table, ids := TableOf(rows), Ids(claim);
    ClaimedRows(rows, locked, limit, maxAttempts);
    TableHoldsRows(rows);
    assert forall i :: 0 <= i < |ids| ==> claim[i] in claim && table[ids[i]] == claim[i];
    forall i, j | 0 <= i < j < |ids| ensures Before(table[ids[i]], table[ids[j]]) && ids[i] != ids[j] {
      assert Precedes(claim[i], claim[j]);
    }
    forall e | e in table && e !in locked && e !in ids && Claimable(table[e], maxAttempts)
      ensures |ids| == limit && forall d :: d in ids ==> Before(table[d], table[e])
    {
      assert forall k :: 0 <= k < |claim| ==> claim[k].id == ids[k];
    }
  }

  /** A claim read off the rows: undispatched, with attempts left, not locked, by time and then id; and a row left
      out for want of room is later than every row taken. */
  lemma ClaimByTime(table: Table, locked: set<EventId>, limit: nat, maxAttempts: nat, ids: seq<EventId>)
    requires IsClaim(table, locked, limit, maxAttempts, ids)
    ensures forall e :: e in ids ==>
      e in table && e !in locked && !table[e].dispatched && table[e].attempts < maxAttempts
    ensures forall i, j :: 0 <= i < j < |ids| ==> Later(table[ids[i]], table[ids[j]])
    ensures forall e ::
      e in table && e !in locked && e !in ids && !table[e].dispatched && table[e].attempts < maxAttempts ==>
        |ids| == limit && forall d :: d in ids ==> Later(table[d], table[e])
  {}

  predicate Later(a: Row, b: Row) {
    if a.occurredAt == b.occurredAt then b.id > a.id else b.occurredAt > a.occurredAt
  }

  /** The rows ahead of `e` that a claim could take. */
  ghost function AvailableAhead(table: Table, locked: set<EventId>, maxAttempts: nat, e: EventId): set<EventId>
    requires e in table
  {
    set d | d in table && d !in locked && Claimable(table[d], maxAttempts) && Before(table[d], table[e])
  }

  /** An event is in a claim exactly when it is claimable, not locked, and fewer than a batch of claimable, unlocked
      events stand ahead of it. */
  lemma ClaimedIffFewAhead(table: Table, locked: set<EventId>, limit: nat, maxAttempts: nat, ids: seq<EventId>,
                           e: EventId)
    requires IsClaim(table, locked, limit, maxAttempts, ids) && e in table
    ensures e in ids <==>
      e !in locked && Claimable(table[e], maxAttempts) && |AvailableAhead(table, locked, maxAttempts, e)| < limit
  {
    var ahead := AvailableAhead(table, locked, maxAttempts, e);
    DistinctLength(ids);
    if e in ids {
      forall d | d in ahead ensures d in Elements(ids) - {e} {
        assert d in ids || Before(table[e], table[d]);
      }
      SubsetLength(ahead, Elements(ids) - {e});
    } else if e !in locked && Claimable(table[e], maxAttempts) {
      SubsetLength(Elements(ids), ahead);
    }
  }

  // ---------------------------------------------------------------- what a committed pass changes

  /** A pass leaves rows in place, counts one attempt on each claimed row and marks the accepted ones. */
  lemma {:induction false} PassEffect(rows: seq<Row>, locked: set<EventId>, limit: nat, maxAttempts: nat,
                                      results: seq<bool>)
    requires |results| == |ClaimPending(rows, locked, limit, maxAttempts)|
    ensures var after := Pass(rows, locked, limit, maxAttempts, results);
      && DispatchedCount(after) == DispatchedCount(rows) + Accepted(results)
      && Budget(after, maxAttempts) + |results| <= Budget(rows, maxAttempts)
  {
    if rows != [] && limit > 0 {
      if Available(rows[0], locked, maxAttempts) {
        PassEffect(rows[1..], locked, limit - 1, maxAttempts, results[1..]);
      } else {
        PassEffect(rows[1..], locked, limit, maxAttempts, results);
      }
    }
  }

  /** Row by row: a pass attempts some claimable rows and leaves the others alone. */
  lemma {:induction false} PassAt(rows: seq<Row>, locked: set<EventId>, limit: nat, maxAttempts: nat,
                                  results: seq<bool>, i: nat)
    requires |results| == |ClaimPending(rows, locked, limit, maxAttempts)| && i < |rows|
    ensures var row, row' := rows[i], Pass(rows, locked, limit, maxAttempts, results)[i];
      if Available(row, locked, maxAttempts) && Count(rows[..i], locked, maxAttempts) < limit
      then row' == Attempted(row, true) || row' == Attempted(row, false)
      else row' == row
    decreases |rows|
  {
    if limit > 0 && i > 0 {
      assert rows[..i][1..] == rows[1..][..i - 1];
      if Available(rows[0], locked, maxAttempts) {
        PassAt(rows[1..], locked, limit - 1, maxAttempts, results[1..], i - 1);
      } else {
        PassAt(rows[1..], locked, limit, maxAttempts, results, i - 1);
      }
    }
  }

  lemma PassKeepsOrder(rows: seq<Row>, locked: set<EventId>, limit: nat, maxAttempts: nat, results: seq<bool>)
    requires |results| == |ClaimPending(rows, locked, limit, maxAttempts)| && InOrder(rows)
    ensures InOrder(Pass(rows, locked, limit, maxAttempts, results))
  {
    var after := Pass(rows, locked, limit, maxAttempts, results);
    forall i, j | 0 <= i < j < |rows| ensures Precedes(after[i], after[j]) {
      PassAt(rows, locked, limit, maxAttempts, results, i);
      PassAt(rows, locked, limit, maxAttempts, results, j);
      assert Precedes(rows[i], rows[j]);
    }
  }
}
