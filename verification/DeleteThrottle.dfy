/** How often the provider is asked to delete a tenant's service, over any replies, in cycles that complete. */
module DeleteThrottle {
  import opened Wrappers
  import opened TenantTable
  import opened TenantRuntime
  import opened Reconciler

  predicate IsDoomed(row: Tenant) {
    row.desired == WantDeleted && !row.isStatic
  }

  predicate IsDeleting(row: Tenant) {
    IsDoomed(row) && row.runtime == Deleting
  }

  predicate AsksToDelete(row: Tenant, turn: Turn) {
    DeleteRequest in TurnTrace(row, turn).requests
  }

  predicate Fails(row: Tenant, turn: Turn) {
    TurnTrace(row, turn).result.NotApplied?
  }

  function RunRow(row: Tenant, turns: seq<Turn>): Option<Tenant>
    decreases |turns|
  {
    if turns == [] then Some(row)
    else
      var r := CycleRow(row, turns[0]);
      if r.None? then None else RunRow(r.value, turns[1..])
  }

  /** A clock that does not go back: every turn ends after it starts and before the next. */
  predicate Clocked(turns: seq<Turn>, from: Time) {
    && (turns != [] ==> from <= turns[0].replies.now)
    && (forall i :: 0 <= i < |turns| ==> turns[i].replies.now <= turns[i].finishedAt)
    && (forall i :: 0 <= i < |turns| - 1 ==> turns[i].finishedAt <= turns[i + 1].replies.now)
  }

  // A turn of a row marked deleted restarts the timer exactly when it asks or fails.
  lemma TurnOfDoomed(row: Tenant, turn: Turn)
    requires IsDoomed(row)
    ensures AsksToDelete(row, turn) ==> QueuesDelete(row, turn.replies.now)
    ensures var r := CycleRow(row, turn);
            r.Some? ==> && IsDoomed(r.value)
                        && (r.value.runtime == Deleting <==> row.runtime == Deleting || !Fails(row, turn))
                        && r.value.lastReconciled == (if Fails(row, turn) || AsksToDelete(row, turn)
                                                      then Some(turn.finishedAt) else row.lastReconciled)
    ensures CycleRow(row, turn).Some? && !Fails(row, turn) ==>
              (AsksToDelete(row, turn) <==> QueuesDelete(row, turn.replies.now))
  {
    WrittenOnce(row, Status(Deleting, ""));
  }

  lemma {:induction false} MarkNeverMovesBack(row: Tenant, turns: seq<Turn>, from: Time)
    requires IsDeleting(row) && row.lastReconciled.Some? && from <= row.lastReconciled.value
    requires Clocked(turns, row.lastReconciled.value)
    ensures var r := RunRow(row, turns);
            r.Some? ==> IsDeleting(r.value) && r.value.lastReconciled.Some? && from <= r.value.lastReconciled.value
    decreases |turns|
  {
    if turns != [] {
      TurnOfDoomed(row, turns[0]);
      var r := CycleRow(row, turns[0]);
      if r.Some? { MarkNeverMovesBack(r.value, turns[1..], from); }
    }
  }

  /** The row asks in the turn `first`, is left in `deleting` as r, and after further turns is s. */
  predicate AskedAndRan(row: Tenant, first: Turn, r: Tenant, between: seq<Turn>, s: Tenant) {
    && IsDoomed(row) && AsksToDelete(row, first)
    && CycleRow(row, first) == Some(r) && IsDeleting(r) && RunRow(r, between) == Some(s)
  }

  /** Two requests for a row that the first left in `deleting`, whatever happened in between, are the interval apart. */
  lemma RequestsAreSpaced(row: Tenant, first: Turn, r: Tenant, between: seq<Turn>, s: Tenant, second: Turn)
    requires AskedAndRan(row, first, r, between, s) && AsksToDelete(s, second)
    requires first.replies.now <= first.finishedAt && Clocked(between, first.finishedAt)
    ensures second.replies.now - first.finishedAt >= DELETE_REQUEUE_INTERVAL
    ensures second.replies.now - first.replies.now >= DELETE_REQUEUE_INTERVAL
  {
    TurnOfDoomed(row, first);
    MarkNeverMovesBack(r, between, first.finishedAt);
    TurnOfDoomed(s, second);
  }

  /** The bound is reached: the interval after a request whose deletion is still in progress, the next one is sent. */
  lemma IntervalIsReached(row: Tenant, env: Replies) returns (r: Tenant)
    requires IsDoomed(row) && row.refs.resource != "" && QueuesDelete(row, 0)
    requires env.service.Service? && env.check == Done && env.deletion == Done
    ensures var first := Turn(true, env.(now := 0), true, 0);
            var second := Turn(true, env.(now := DELETE_REQUEUE_INTERVAL), true, DELETE_REQUEUE_INTERVAL);
            AskedAndRan(row, first, r, [], r) && AsksToDelete(r, second)
  {
    var first := Turn(true, env.(now := 0), true, 0);
    TurnOfDoomed(row, first);
    assert TurnTrace(row, first).requests == [DeleteRequest];
    r := CycleRow(row, first).value;
    assert r.refs == row.refs by { WrittenOnce(row, Status(Deleting, "")); }
  }

  /** When the timer was last restarted: by the last failed turn, or before all of these. */
  function LastRestart(row: Tenant, turns: seq<Turn>, from: Time): Time
    decreases |turns|
  {
    if turns == [] then from
    else
      var r := CycleRow(row, turns[0]);
      if r.None? then from
      else LastRestart(r.value, turns[1..], if Fails(row, turns[0]) then turns[0].finishedAt else from)
  }

  /** No turn of these asks. */
  predicate Silent(row: Tenant, turns: seq<Turn>)
    decreases |turns|
  {
    if turns == [] then true
    else
      !AsksToDelete(row, turns[0]) &&
      (CycleRow(row, turns[0]).Some? ==> Silent(CycleRow(row, turns[0]).value, turns[1..]))
  }

  lemma {:induction false} SilentTurnsKeepTheTimer(row: Tenant, turns: seq<Turn>)
    requires IsDeleting(row) && row.lastReconciled.Some? && Silent(row, turns) && RunRow(row, turns).Some?
    ensures IsDeleting(RunRow(row, turns).value)
    ensures RunRow(row, turns).value.lastReconciled == Some(LastRestart(row, turns, row.lastReconciled.value))
    decreases |turns|
  {
    if turns != [] {
      TurnOfDoomed(row, turns[0]);
      SilentTurnsKeepTheTimer(CycleRow(row, turns[0]).value, turns[1..]);
    }
  }

  /** After a request and turns that did not ask, a turn whose lookup succeeds asks again exactly when the interval has
      passed since the request or the last failure, whichever is later. */
  lemma AsksAgainIff(row: Tenant, first: Turn, r: Tenant, between: seq<Turn>, s: Tenant, second: Turn)
    requires AskedAndRan(row, first, r, between, s) && Silent(r, between)
    requires CycleRow(s, second).Some? && !Fails(s, second)
    ensures AsksToDelete(s, second) <==>
            second.replies.now - LastRestart(r, between, first.finishedAt) >= DELETE_REQUEUE_INTERVAL
  {
    TurnOfDoomed(row, first);
    SilentTurnsKeepTheTimer(r, between);
    TurnOfDoomed(s, second);
  }

  predicate NoneFails(row: Tenant, turns: seq<Turn>)
    decreases |turns|
  {
    if turns == [] then true
    else
      !Fails(row, turns[0]) &&
      (CycleRow(row, turns[0]).Some? ==> NoneFails(CycleRow(row, turns[0]).value, turns[1..]))
  }

  lemma {:induction false} NoFailureNoRestart(row: Tenant, turns: seq<Turn>, from: Time)
    requires NoneFails(row, turns)
    ensures LastRestart(row, turns, from) == from
    decreases |turns|
  {
    if turns != [] && CycleRow(row, turns[0]).Some? {
      NoFailureNoRestart(CycleRow(row, turns[0]).value, turns[1..], from);
    }
  }

  /** While no turn fails, the first turn at or after the interval asks again. */
  lemma AsksAgainInTime(row: Tenant, first: Turn, r: Tenant, between: seq<Turn>, s: Tenant, second: Turn)
    requires AskedAndRan(row, first, r, between, s) && Silent(r, between) && NoneFails(r, between)
    requires CycleRow(s, second).Some? && !Fails(s, second)
    requires second.replies.now - first.finishedAt >= DELETE_REQUEUE_INTERVAL
    ensures AsksToDelete(s, second)
  {
    NoFailureNoRestart(r, between, first.finishedAt);
    AsksAgainIff(row, first, r, between, s, second);
  }

  /** A failed lookup postpones the next request: here by a minute. */
  lemma FailedLookupPostpones(row: Tenant, env: Replies)
    requires IsDeleting(row) && row.refs.resource != "" && row.lastReconciled == Some(0) && env.service.Service?
    ensures var failing := Turn(true, env.(check := Failed("timeout"), now := 60_000_000_000), true, 60_000_000_000);
            var later := Turn(true, env.(check := Done, now := DELETE_REQUEUE_INTERVAL), true, DELETE_REQUEUE_INTERVAL);
            && AsksToDelete(row, later)
            && CycleRow(row, failing).Some? && !AsksToDelete(CycleRow(row, failing).value, later)
  {
  }
}
