/** The relay's pass, as its own code carries it out alone, is a run of the delivery protocol. */
module RelayRefinement {
  import opened OutboxTable
  import opened OutboxRelays
  import opened OutboxDelivery

  ghost predicate SendRun(maxAttempts: nat, trace: seq<Sender>, actions: seq<SendAction>) {
    |trace| == |actions| + 1 &&
    forall i :: 0 <= i < |actions| ==> SendStep(maxAttempts, trace[i], actions[i], trace[i + 1])
  }

  /** The pass's uncommitted rows after its first `k` publish calls. */
  function Working(claim: seq<Row>, results: seq<bool>, k: nat): seq<Row>
    requires |claim| == |results| && k <= |claim|
  {
    AttemptedAll(claim[..k], results[..k]) + claim[k..]
  }

  lemma {:induction false} ReplaceInTable(rows: seq<Row>, k: nat, row: Row)
    requires InOrder(rows) && k < |rows| && row.id == rows[k].id
    ensures TableOf(rows[k := row]) == TableOf(rows)[row.id := row]
  {
    TailInOrder(rows);
    if k > 0 {
      ReplaceInTable(rows[1..], k - 1, row);
      assert rows[k := row][1..] == rows[1..][k - 1 := row];
      assert rows[1..][k - 1] in rows[1..];
    } else {
      assert rows[k := row][1..] == rows[1..];
    }
  }

  lemma WorkingInOrder(claim: seq<Row>, results: seq<bool>, k: nat)
    requires |claim| == |results| && k <= |claim| && InOrder(claim)
    ensures InOrder(Working(claim, results, k)) && Ids(Working(claim, results, k)) == Ids(claim)
  {
    var w := Working(claim, results, k);
    forall i, j | 0 <= i < j < |w| ensures Precedes(w[i], w[j]) {
      assert Precedes(claim[i], claim[j]);
    }
  }

  lemma WorkingNext(claim: seq<Row>, results: seq<bool>, k: nat)
    requires |claim| == |results| && k < |claim|
    ensures |Working(claim, results, k)| == |claim| && Working(claim, results, k)[k] == claim[k]
    ensures Working(claim, results, k + 1) == Working(claim, results, k)[k := Attempted(claim[k], results[k])]
  {}

  lemma WorkingStep(claim: seq<Row>, results: seq<bool>, k: nat)
    requires |claim| == |results| && k < |claim| && InOrder(claim)
    ensures claim[k].id in TableOf(Working(claim, results, k))
    ensures TableOf(Working(claim, results, k + 1))
      == With(TableOf(Working(claim, results, k)), claim[k].id,
              Attempted(TableOf(Working(claim, results, k))[claim[k].id], results[k]))
  {
    var w := Working(claim, results, k);
    WorkingNext(claim, results, k);
    WorkingInOrder(claim, results, k);
    RowInTable(w, k);
    ReplaceInTable(w, k, Attempted(claim[k], results[k]));
  }

  lemma RowInTable(rows: seq<Row>, k: nat)
    requires InOrder(rows) && k < |rows|
    ensures rows[k].id in TableOf(rows) && TableOf(rows)[rows[k].id] == rows[k]
  {
    TableHoldsRows(rows);
    assert rows[k] in rows;
  }

  function Publishing(p: PassId, results: seq<bool>): seq<SendAction> {
    seq(|results|, i requires 0 <= i < |results| => Publish(p, results[i], false))
  }

  /** The first `k` calls the relay's code makes. */
  function CallsOf(p: PassId, claim: seq<Row>, results: seq<bool>, k: nat): seq<PublishCall>
    requires |claim| == |results| && k <= |claim|
  {
    seq(k, i requires 0 <= i < k => PublishCall(p, claim[i].id, results[i]))
  }

  /** What `k` publish calls of pass `p` make of a sender. */
  ghost predicate Published(s: Sender, p: PassId, claim: seq<Row>, results: seq<bool>, k: nat, s': Sender)
    requires |claim| == |results| && k <= |claim|
  {
    && s'.rows == s.rows && s'.fates == s.fates && s'.business == s.business
    && s'.passes == s.passes[p := RelayPass(Ids(claim), k, TableOf(Working(claim, results, k)))]
    && s'.calls == s.calls + CallsOf(p, claim, results, k)
  }

  lemma PublishOne(maxAttempts: nat, s: Sender, p: PassId, claim: seq<Row>, results: seq<bool>, k: nat, last: Sender)
    returns (next: Sender)
    requires |claim| == |results| && k < |claim| && InOrder(claim) && Published(s, p, claim, results, k, last)
    ensures SendStep(maxAttempts, last, Publish(p, results[k], false), next)
    ensures Published(s, p, claim, results, k + 1, next)
  {
    WorkingStep(claim, results, k);
    next := AfterPublish(last, p, results[k], false);
  }

  /** The first `k` publish calls of a pass, one protocol step each. */
  lemma {:induction false} PublishRun(maxAttempts: nat, s: Sender, p: PassId, claim: seq<Row>, results: seq<bool>,
                                      k: nat)
    returns (trace: seq<Sender>)
    requires |claim| == |results| && k <= |claim| && InOrder(claim)
    requires p in s.passes && s.passes[p] == RelayPass(Ids(claim), 0, TableOf(claim))
    ensures SendRun(maxAttempts, trace, Publishing(p, results[..k])) && trace[0] == s
    ensures Published(s, p, claim, results, k, trace[k])
  {
    if k == 0 {
      assert Working(claim, results, 0) == claim;
      trace := [s];
    } else {
      var before := PublishRun(maxAttempts, s, p, claim, results, k - 1);
      var next := PublishOne(maxAttempts, s, p, claim, results, k - 1, before[k - 1]);
      ExtendRun(maxAttempts, before, Publishing(p, results[..k - 1]), Publish(p, results[k - 1], false), next);
      assert Publishing(p, results[..k]) == Publishing(p, results[..k - 1]) + [Publish(p, results[k - 1], false)];
      trace := before + [next];
    }
  }

  lemma ExtendRun(maxAttempts: nat, trace: seq<Sender>, actions: seq<SendAction>, a: SendAction, s': Sender)
    requires SendRun(maxAttempts, trace, actions) && SendStep(maxAttempts, trace[|trace| - 1], a, s')
    ensures SendRun(maxAttempts, trace + [s'], actions + [a])
  {}

  /** One step before a run and one after it. */
  lemma EncloseRun(maxAttempts: nat, s: Sender, a: SendAction, middle: seq<Sender>, actions: seq<SendAction>,
                   b: SendAction, final: Sender) returns (trace: seq<Sender>)
    requires SendRun(maxAttempts, middle, actions) && SendStep(maxAttempts, s, a, middle[0])
    requires SendStep(maxAttempts, middle[|middle| - 1], b, final)
    ensures SendRun(maxAttempts, trace, [a] + (actions + [b]))
    ensures trace[0] == s && trace[|trace| - 1] == final
  {
    ExtendRun(maxAttempts, middle, actions, b, final);
    var tail, rest := middle + [final], actions + [b];
    trace := [s] + tail;
    forall i | 0 <= i < |rest| + 1 ensures SendStep(maxAttempts, trace[i], ([a] + rest)[i], trace[i + 1]) {
      if i > 0 { assert SendStep(maxAttempts, tail[i - 1], rest[i - 1], tail[i]); }
    }
  }

  /** Merging a pass's rows into the table is what a committed pass does to the listing. */
  lemma {:induction false} PassMergesWork(rows: seq<Row>, locked: set<EventId>, limit: nat, maxAttempts: nat,
                                          results: seq<bool>)
    requires InOrder(rows) && |results| == |ClaimPending(rows, locked, limit, maxAttempts)|
    ensures TableOf(rows) + TableOf(AttemptedAll(ClaimPending(rows, locked, limit, maxAttempts), results))
      == TableOf(Pass(rows, locked, limit, maxAttempts, results))
  {
    var claim := ClaimPending(rows, locked, limit, maxAttempts);
    if rows != [] && limit > 0 {
      TailInOrder(rows);
      if Available(rows[0], locked, maxAttempts) {
        assert claim[1..] == ClaimPending(rows[1..], locked, limit - 1, maxAttempts);
        AttemptedAllHead(claim, results);
        PassMergesWork(rows[1..], locked, limit - 1, maxAttempts, results[1..]);
      } else {
        PassMergesWork(rows[1..], locked, limit, maxAttempts, results);
        AttemptedIds(rows[1..], locked, limit, maxAttempts, results, rows[0].id);
        AbsentFromTable(AttemptedAll(claim, results), rows[0].id);
      }
    } else {
      assert AttemptedAll(claim, results) == [];
    }
  }

  lemma {:induction false} AbsentFromTable(rows: seq<Row>, e: EventId)
    requires forall r :: r in rows ==> r.id != e
    ensures e !in TableOf(rows)
  {
    if rows != [] { AbsentFromTable(rows[1..], e); }
  }

  lemma ClaimedWork(rows: seq<Row>, locked: set<EventId>, limit: nat, maxAttempts: nat)
    requires InOrder(rows)
    ensures var claim := ClaimPending(rows, locked, limit, maxAttempts);
      InOrder(claim) && TableOf(claim) == Selected(TableOf(rows), Ids(claim))
  {
    var claim := ClaimPending(rows, locked, limit, maxAttempts);
    ClaimedRows(rows, locked, limit, maxAttempts);
    TableHoldsRows(rows);
    TableHoldsRows(claim);
    IdsInTable(claim);
    forall e | e in Ids(claim) ensures e in TableOf(rows) && TableOf(claim)[e] == TableOf(rows)[e] {
      assert TableOf(claim)[e] in claim;
    }
  }

  lemma IdsInTable(rows: seq<Row>)
    requires InOrder(rows)
    ensures forall e :: e in Ids(rows) <==> e in TableOf(rows)
  {
    TableHoldsRows(rows);
    forall e ensures e in Ids(rows) <==> e in TableOf(rows) {
      if e in Ids(rows) {
        var i :| 0 <= i < |rows| && Ids(rows)[i] == e;
        assert rows[i] in rows;
      }
      if e in TableOf(rows) {
        var i :| 0 <= i < |rows| && rows[i] == TableOf(rows)[e];
        assert Ids(rows)[i] == e;
      }
    }
  }

  lemma ClaimStep(maxAttempts: nat, s: Sender, p: PassId, rows: seq<Row>, limit: nat) returns (claimed: Sender)
    requires InOrder(rows) && s.rows == TableOf(rows) && p !in s.fates
    ensures var claim := ClaimPending(rows, LockedRows(s), limit, maxAttempts);
      && InOrder(claim)
      && claimed == s.(passes := s.passes[p := RelayPass(Ids(claim), 0, TableOf(claim))], fates := s.fates[p := Open])
      && SendStep(maxAttempts, s, Claim(p, limit, Ids(claim)), claimed)
  {
    var claim := ClaimPending(rows, LockedRows(s), limit, maxAttempts);
    ClaimedWork(rows, LockedRows(s), limit, maxAttempts);
    ClaimIsOldest(rows, LockedRows(s), limit, maxAttempts);
    claimed := s.(passes := s.passes[p := RelayPass(Ids(claim), 0, TableOf(claim))], fates := s.fates[p := Open]);
  }

  lemma CommitStep(maxAttempts: nat, claimed: Sender, p: PassId, rows: seq<Row>, locked: set<EventId>, limit: nat,
                   results: seq<bool>, last: Sender)
    returns (final: Sender)
    requires InOrder(rows) && claimed.rows == TableOf(rows)
    requires |results| == |ClaimPending(rows, locked, limit, maxAttempts)|
    requires var claim := ClaimPending(rows, locked, limit, maxAttempts);
      Published(claimed, p, claim, results, |claim|, last)
    ensures SendStep(maxAttempts, last, CommitPass(p), final)
    ensures final.rows == TableOf(Pass(rows, locked, limit, maxAttempts, results))
    ensures final.passes == last.passes - {p} && final.business == claimed.business && final.calls == last.calls
  {
    var claim := ClaimPending(rows, locked, limit, maxAttempts);
    assert Working(claim, results, |claim|) == AttemptedAll(claim, results) by {
      assert claim[..|claim|] == claim && claim[|claim|..] == [] && results[..|claim|] == results;
    }
    PassMergesWork(rows, locked, limit, maxAttempts, results);
    final := last.(rows := last.rows + last.passes[p].work, passes := last.passes - {p},
                   fates := last.fates[p := Committed]);
  }

  /** The claim of a pass, its first `k` publish calls and an ending are steps of the protocol. */
  lemma PassRun(maxAttempts: nat, s: Sender, p: PassId, rows: seq<Row>, limit: nat, results: seq<bool>, k: nat)
    returns (claimed: Sender, middle: seq<Sender>)
    requires InOrder(rows) && s.rows == TableOf(rows) && p !in s.fates
    requires |results| == |ClaimPending(rows, LockedRows(s), limit, maxAttempts)| && k <= |results|
    ensures var claim := ClaimPending(rows, LockedRows(s), limit, maxAttempts);
      && claimed == s.(passes := s.passes[p := RelayPass(Ids(claim), 0, TableOf(claim))], fates := s.fates[p := Open])
      && SendStep(maxAttempts, s, Claim(p, limit, Ids(claim)), claimed)
      && SendRun(maxAttempts, middle, Publishing(p, results[..k])) && middle[0] == claimed
      && Published(claimed, p, claim, results, k, middle[k])
  {
    claimed := ClaimStep(maxAttempts, s, p, rows, limit);
    middle := PublishRun(maxAttempts, claimed, p, ClaimPending(rows, LockedRows(s), limit, maxAttempts), results, k);
  }

  /** Whatever other passes are open, the relay's claim, its publish calls in order and its commit are steps of the
      protocol; they make the calls and end in the table that the relay's own code does. */
  lemma CommittedPassIsARun(maxAttempts: nat, s: Sender, p: PassId, rows: seq<Row>, limit: nat, results: seq<bool>)
    returns (trace: seq<Sender>, actions: seq<SendAction>)
    requires InOrder(rows) && s.rows == TableOf(rows) && p !in s.fates && p !in s.passes
    requires |results| == |ClaimPending(rows, LockedRows(s), limit, maxAttempts)|
    ensures var claim := ClaimPending(rows, LockedRows(s), limit, maxAttempts);
      && actions == [Claim(p, limit, Ids(claim))] + (Publishing(p, results) + [CommitPass(p)])
      && SendRun(maxAttempts, trace, actions) && trace[0] == s
      && trace[|trace| - 1].calls == s.calls + CallsOf(p, claim, results, |claim|)
    ensures trace[|trace| - 1].rows == TableOf(Pass(rows, LockedRows(s), limit, maxAttempts, results))
    ensures trace[|trace| - 1].passes == s.passes && trace[|trace| - 1].business == s.business
  {
    var locked := LockedRows(s);
    var claim := ClaimPending(rows, locked, limit, maxAttempts);
    var claimed, middle := PassRun(maxAttempts, s, p, rows, limit, results, |claim|);
    assert results[..|claim|] == results;
    var final := CommitStep(maxAttempts, claimed, p, rows, locked, limit, results, middle[|claim|]);
    actions := [Claim(p, limit, Ids(claim))] + (Publishing(p, results) + [CommitPass(p)]);
    trace := EncloseRun(maxAttempts, s, Claim(p, limit, Ids(claim)), middle, Publishing(p, results), CommitPass(p),
                        final);
  }

  /** A pass lost after any number of its publish calls is a run of the protocol too: those calls stand, and nothing
      else has changed for anyone. */
  lemma LostPassIsARun(maxAttempts: nat, s: Sender, p: PassId, rows: seq<Row>, limit: nat, results: seq<bool>, k: nat)
    returns (trace: seq<Sender>, actions: seq<SendAction>)
    requires InOrder(rows) && s.rows == TableOf(rows) && p !in s.fates && p !in s.passes
    requires |results| == |ClaimPending(rows, LockedRows(s), limit, maxAttempts)| && k <= |results|
    ensures var claim := ClaimPending(rows, LockedRows(s), limit, maxAttempts);
      && actions == [Claim(p, limit, Ids(claim))] + (Publishing(p, results[..k]) + [LosePass(p)])
      && SendRun(maxAttempts, trace, actions) && trace[0] == s
      && trace[|trace| - 1].calls == s.calls + CallsOf(p, claim, results, k)
    ensures trace[|trace| - 1].rows == s.rows && trace[|trace| - 1].passes == s.passes
    ensures trace[|trace| - 1].business == s.business
  {
    var claim := ClaimPending(rows, LockedRows(s), limit, maxAttempts);
    var claimed, middle := PassRun(maxAttempts, s, p, rows, limit, results, k);
    var last := middle[k];
    var final := last.(passes := last.passes - {p}, fates := last.fates[p := Lost]);
    actions := [Claim(p, limit, Ids(claim))] + (Publishing(p, results[..k]) + [LosePass(p)]);
    trace := EncloseRun(maxAttempts, s, Claim(p, limit, Ids(claim)), middle, Publishing(p, results[..k]), LosePass(p),
                        final);
  }
}
