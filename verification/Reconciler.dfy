/** One pass over all tenants (internal/controlplane/reconciler.go), abandoned as soon as the lease is lost. */
module Reconciler {
  import opened Wrappers
  import opened Collections
  import opened TenantTable
  import opened DesiredTenants
  import opened TenantRuntime

  /** What the environment contributes to one tenant's turn: the two lease checks, the replies and the clock. */
  datatype Turn = Turn(leadsBefore: bool, replies: Replies, leadsAfter: bool, finishedAt: Time)

  datatype Run = Run(id: TenantId, desired: DesiredState, observed: RuntimeState, action: Action, status: string)

  function PreservedTenantError(row: Tenant, action: Action): string {
    if action != Noop then row.lastError
    else if row.runtime == Degraded || row.runtime == Provisioning || row.runtime == Deleting then row.lastError
    else ""
  }

  function LastError(row: Tenant, action: Action, result: Result): string {
    match result
    case NotApplied(e) => e
    case Applied(_, _, lastError, _, _) => if lastError.Some? then lastError.value
      else PreservedTenantError(row, action)
  }

  function RunOf(id: TenantId, row: Tenant, result: Result): Run {
    Run(id, row.desired,
        if result.Applied? && result.observed.Some? then result.observed.value else row.runtime,
        PlanTenantAction(row),
        if result.NotApplied? then "failed" else result.status)
  }

  function TurnTrace(row: Tenant, turn: Turn): Trace {
    ApplySpec(row, PlanTenantAction(row), turn.replies)
  }

  function RowAt(t: Table, id: TenantId): Option<Tenant> {
    if id in t then Some(t[id]) else None
  }

  /** What a turn planned for `row` makes of the row `current` that is stored by then. */
  function Concluded(current: Tenant, row: Tenant, turn: Turn): Option<Tenant> {
    var trace := TurnTrace(row, turn);
    if trace.result.Applied? && trace.result.deleteCompleted then None
    else
      var written := Written(current, trace.writes);
      if trace.result.Applied? && trace.result.skipMark then Some(written)
      else Some(MarkReconciled(written, turn.finishedAt, LastError(row, PlanTenantAction(row), trace.result)))
  }

  /** What an abandoned turn leaves: the runtime's writes, if it got that far. */
  function Abandoned(current: Option<Tenant>, row: Tenant, turn: Turn): Option<Tenant> {
    if current.None? then None
    else Some(if turn.leadsBefore then Written(current.value, TurnTrace(row, turn).writes) else current.value)
  }

  /** What a completed turn makes of a row that nobody else has changed since it was listed. */
  function CycleRow(row: Tenant, turn: Turn): Option<Tenant> {
    Concluded(row, row, turn)
  }

  predicate Completed(turn: Turn) {
    turn.leadsBefore && turn.leadsAfter
  }

  /** What the environment contributes to each tenant's turn. */
  type Turns = TenantId -> Turn

  /** What a completed turn makes of each row. */
  ghost function Outcomes(before: Table, turns: Turns): map<TenantId, Option<Tenant>> {
    map id | id in before :: CycleRow(before[id], turns(id))
  }

  /** And what it records. */
  ghost function Records(before: Table, turns: Turns): map<TenantId, Run> {
    map id | id in before :: RunOf(id, before[id], TurnTrace(before[id], turns(id)).result)
  }

  ghost predicate AfterTurns(before: Table, after: Table, listed: seq<TenantId>,
                             outcomes: map<TenantId, Option<Tenant>>) {
    && (forall id :: id in listed ==> id in outcomes && RowAt(after, id) == outcomes[id])
    && (forall id :: id !in listed ==> RowAt(after, id) == RowAt(before, id))
  }

  /** The run records of these tenants, in order. */
  ghost function RunsOf(listed: seq<TenantId>, records: map<TenantId, Run>): seq<Run>
    requires forall id :: id in listed ==> id in records
    decreases |listed|
  {
    if listed == [] then []
    else RunsOf(listed[..|listed| - 1], records) + [records[listed[|listed| - 1]]]
  }

  datatype Summary = Summary(scanned: nat, applied: nat, noop: nat, deferred: nat, failures: nat)

  function Tally(s: Summary, status: string): Summary {
    if status == "failed" then s.(failures := s.failures + 1)
    else if status == "noop" then s.(noop := s.noop + 1)
    else if status == "deferred" then s.(deferred := s.deferred + 1)
    else s.(applied := s.applied + 1)
  }

  /** How many of the records have this status. */
  function CountStatus(runs: seq<Run>, status: string): nat
    decreases |runs|
  {
    if runs == [] then 0
    else CountStatus(runs[..|runs| - 1], status) + if runs[|runs| - 1].status == status then 1 else 0
  }

  function TallyAll(scanned: nat, runs: seq<Run>): (s: Summary)
    ensures s.scanned == scanned && s.applied + s.noop + s.deferred + s.failures == |runs|
    decreases |runs|
  {
    if runs == [] then Summary(scanned, 0, 0, 0, 0)
    else Tally(TallyAll(scanned, runs[..|runs| - 1]), runs[|runs| - 1].status)
  }

  /** The summary counts the failed, the idle and the deferred runs; the others are the applied ones. */
  lemma {:induction false} TalliesCount(scanned: nat, runs: seq<Run>)
    ensures var s := TallyAll(scanned, runs);
            && s.scanned == scanned && s.failures == CountStatus(runs, "failed")
            && s.noop == CountStatus(runs, "noop") && s.deferred == CountStatus(runs, "deferred")
            && s.applied == |runs| - s.failures - s.noop - s.deferred
    decreases |runs|
  {
    if runs != [] { TalliesCount(scanned, runs[..|runs| - 1]); }
  }

  /** The run records left when only these tenants are left: a record goes with its tenant (ON DELETE CASCADE). */
  function Surviving(runs: seq<Run>, ids: set<TenantId>): (r: seq<Run>)
    ensures forall run :: run in r <==> run in runs && run.id in ids
    decreases |runs|
  {
    if runs == [] then []
    else
      var last := runs[|runs| - 1];
      Surviving(runs[..|runs| - 1], ids) + if last.id in ids then [last] else []
  }

  lemma SurvivingStep(runs: seq<Run>, run: Run, ids: set<TenantId>)
    ensures Surviving(runs + [run], ids) == Surviving(runs, ids) + if run.id in ids then [run] else []
  {
    assert (runs + [run])[..|runs|] == runs;
  }

  lemma {:induction false} SurvivesTwice(runs: seq<Run>, ids: set<TenantId>, fewer: set<TenantId>)
    requires fewer <= ids
    ensures Surviving(Surviving(runs, ids), fewer) == Surviving(runs, fewer)
    decreases |runs|
  {
    if runs != [] {
      var front, last := runs[..|runs| - 1], runs[|runs| - 1];
      SurvivesTwice(front, ids, fewer);
      SurvivingStep(Surviving(front, ids), last, fewer);
      assert Surviving(front, ids) + [] == Surviving(front, ids);
      assert Surviving(Surviving(front, ids), fewer) + [] == Surviving(Surviving(front, ids), fewer);
    }
  }

  lemma {:induction false} AllSurvive(runs: seq<Run>, ids: set<TenantId>)
    requires forall run :: run in runs ==> run.id in ids
    ensures Surviving(runs, ids) == runs
    decreases |runs|
  {
    if runs != [] {
      AllSurvive(runs[..|runs| - 1], ids);
      assert runs == runs[..|runs| - 1] + [runs[|runs| - 1]];
    }
  }

  // One record more, after some tenants have gone.
  lemma SurvivingRecord(all: seq<Run>, ids: set<TenantId>, run: Run, fewer: set<TenantId>)
    requires fewer <= ids
    ensures Surviving(Surviving(all, ids) + [run], fewer) == Surviving(all + [run], fewer)
  {
    SurvivingStep(Surviving(all, ids), run, fewer);
    SurvivesTwice(all, ids, fewer);
    SurvivingStep(all, run, fewer);
  }

  lemma RunsStep(past: seq<Run>, listed: seq<TenantId>, n: nat, records: map<TenantId, Run>)
    requires n < |listed| && forall id :: id in listed ==> id in records
    ensures past + RunsOf(listed[..n + 1], records) == past + RunsOf(listed[..n], records) + [records[listed[n]]]
    ensures TallyAll(|listed|, RunsOf(listed[..n + 1], records)) ==
            Tally(TallyAll(|listed|, RunsOf(listed[..n], records)), records[listed[n]].status)
  {
    assert listed[..n + 1][..n] == listed[..n];
    var runs := RunsOf(listed[..n + 1], records);
    assert runs == RunsOf(listed[..n], records) + [records[listed[n]]];
    assert runs[..|runs| - 1] == RunsOf(listed[..n], records);
  }

  predicate CompletedTurns(listed: seq<TenantId>, turns: Turns) {
    forall i :: 0 <= i < |listed| ==> Completed(turns(listed[i]))
  }

  /** A pass over `listed`, all rows: the first n are concluded. If the lease was lost, the next has at most the
      runtime's own writes, and no later one is touched. */
  ghost predicate Passed(before: Table, after: Table, listed: seq<TenantId>, n: nat, turns: Turns) {
    && Distinct(listed) && (forall id :: id in listed <==> id in before)
    && n <= |listed| && CompletedTurns(listed[..n], turns)
    && (forall id :: id in listed[..n] ==> RowAt(after, id) == CycleRow(before[id], turns(id)))
    && (n < |listed| ==>
          !Completed(turns(listed[n])) &&
          RowAt(after, listed[n]) == Abandoned(RowAt(before, listed[n]), before[listed[n]], turns(listed[n])))
    && (forall id :: id !in listed[..n] && (n < |listed| ==> id != listed[n]) ==> RowAt(after, id) == RowAt(before, id))
  }

  /** A pass that has concluded the first n of its turns. */
  ghost predicate Underway(before: Table, now: Table, listed: seq<TenantId>, n: nat, turns: Turns) {
    && Distinct(listed) && (forall id :: id in listed <==> id in before)
    && n <= |listed| && CompletedTurns(listed[..n], turns)
    && AfterTurns(before, now, listed[..n], Outcomes(before, turns))
  }

  lemma NotYet(before: Table, now: Table, listed: seq<TenantId>, n: nat, turns: Turns)
    requires n < |listed| && Underway(before, now, listed, n, turns)
    ensures listed[n] in before && listed[n] !in listed[..n] && RowAt(now, listed[n]) == Some(before[listed[n]])
  {
  }

  lemma AfterOneMore(before: Table, now: Table, after: Table, listed: seq<TenantId>, n: nat,
                     outcomes: map<TenantId, Option<Tenant>>)
    requires n < |listed| && listed[n] !in listed[..n] && AfterTurns(before, now, listed[..n], outcomes)
    requires listed[n] in outcomes && RowAt(after, listed[n]) == outcomes[listed[n]]
    requires forall j :: j != listed[n] ==> RowAt(after, j) == RowAt(now, j)
    ensures AfterTurns(before, after, listed[..n + 1], outcomes)
  {
    assert listed[..n + 1] == listed[..n] + [listed[n]];
  }

  lemma CompletedOneMore(listed: seq<TenantId>, n: nat, turns: Turns)
    requires n < |listed| && CompletedTurns(listed[..n], turns) && Completed(turns(listed[n]))
    ensures CompletedTurns(listed[..n + 1], turns)
  {
    assert listed[..n + 1] == listed[..n] + [listed[n]];
  }

  lemma TurnConcluded(before: Table, now: Table, after: Table, listed: seq<TenantId>, n: nat, turns: Turns)
    requires n < |listed| && Underway(before, now, listed, n, turns) && listed[n] in before
    requires Completed(turns(listed[n])) && RowAt(after, listed[n]) == CycleRow(before[listed[n]], turns(listed[n]))
    requires forall j :: j != listed[n] ==> RowAt(after, j) == RowAt(now, j)
    ensures Underway(before, after, listed, n + 1, turns)
  {
    NotYet(before, now, listed, n, turns);
    CompletedOneMore(listed, n, turns);
    AfterOneMore(before, now, after, listed, n, Outcomes(before, turns));
  }

  lemma TurnAbandoned(before: Table, now: Table, after: Table, listed: seq<TenantId>, n: nat, turns: Turns)
    requires n < |listed| && Underway(before, now, listed, n, turns) && listed[n] in before
    requires !Completed(turns(listed[n]))
    requires RowAt(after, listed[n]) == Abandoned(Some(before[listed[n]]), before[listed[n]], turns(listed[n]))
    requires forall j :: j != listed[n] ==> RowAt(after, j) == RowAt(now, j)
    ensures Passed(before, after, listed, n, turns)
  {
    NotYet(before, now, listed, n, turns);
  }

  lemma PassEnds(before: Table, after: Table, listed: seq<TenantId>, turns: Turns)
    requires Underway(before, after, listed, |listed|, turns)
    ensures Passed(before, after, listed, |listed|, turns)
  {
    assert listed[..|listed|] == listed;
  }

  /** How a turn ends: concluded, cut short by the lost lease, or with an error, since the row is gone and its run
      cannot be recorded. */
  datatype TurnEnd = Settled | LeaseLost | Unrecorded

  lemma NothingRecorded(past: seq<Run>, ids: set<TenantId>)
    requires forall run :: run in past ==> run.id in ids
    ensures past == Surviving(past + [], ids)
  {
    assert past + [] == past;
    AllSurvive(past, ids);
  }

  lemma SameKeys(now: Table, after: Table, id: TenantId)
    requires id in now && forall j :: j != id ==> RowAt(after, j) == RowAt(now, j)
    ensures after.Keys <= now.Keys && (RowAt(after, id).Some? ==> after.Keys == now.Keys)
  {
    forall j | j in after.Keys ensures j in now.Keys { assert j != id ==> RowAt(after, j) == RowAt(now, j); }
    forall j | j in now.Keys && j != id ensures j in after.Keys { assert RowAt(after, j) == RowAt(now, j); }
  }

  class TenantReconciler {
    const store: Store
    const runtime: CoolifyTenantRuntime
    var runs: seq<Run>

    constructor (store: Store, runtime: CoolifyTenantRuntime)
      ensures this.store == store && this.runtime == runtime && runs == []
    {
      this.store, this.runtime, runs := store, runtime, [];
    }

    ghost predicate Valid()
      reads this, store
    {
      runtime.store == store && store.Valid() && forall run :: run in runs ==> run.id in store.tenants
    }

    // Records the run and settles the row; a run of a tenant that is gone breaks the foreign key.
    method Conclude(id: TenantId, row: Tenant, result: Result, finishedAt: Time) returns (recorded: bool)
      requires Valid()
      modifies this`runs, store
      ensures Valid() && (recorded <==> id in old(store.tenants))
      ensures !recorded ==> store.tenants == old(store.tenants) && runs == old(runs)
      ensures recorded ==>
                store.tenants ==
                  if result.Applied? && result.deleteCompleted then old(store.tenants) - {id}
                  else if result.Applied? && result.skipMark then old(store.tenants)
                  else old(store.tenants)[id := MarkReconciled(old(store.tenants)[id], finishedAt,
                                                               LastError(row, PlanTenantAction(row), result))]
      ensures recorded ==> runs == Surviving(old(runs) + [RunOf(id, row, result)], store.tenants.Keys)
    {
      var lastError := PreservedTenantError(row, PlanTenantAction(row));
      if result.Applied? && result.lastError.Some? { lastError := result.lastError.value; }
      if result.NotApplied? { lastError := result.error; }
      if id !in store.tenants { return false; }
      runs := runs + [RunOf(id, row, result)];
      if result.Applied? && result.deleteCompleted {
        store.DeleteTenantInstance(id);
        runs := Surviving(runs, store.tenants.Keys);
        return true;
      }
      AllSurvive(runs, store.tenants.Keys);
      if result.Applied? && result.skipMark { return true; }
      store.MarkTenantReconciled(id, finishedAt, lastError);
      AllSurvive(runs, store.tenants.Keys);
      return true;
    }

    /** One tenant's turn; the stored row may have changed, or gone, since it was listed. */
    method TakeTurn(id: TenantId, row: Tenant, turn: Turn) returns (end: TurnEnd)
      requires Valid()
      modifies this`runs, store, runtime
      ensures Valid()
      ensures end == (if !Completed(turn) then LeaseLost else if id in old(store.tenants) then Settled else Unrecorded)
      ensures end.Settled? ==> RowAt(store.tenants, id) == Concluded(old(store.tenants)[id], row, turn)
      ensures end.Settled? ==>
                runs == Surviving(old(runs) + [RunOf(id, row, TurnTrace(row, turn).result)], store.tenants.Keys)
      ensures end.LeaseLost? ==> RowAt(store.tenants, id) == Abandoned(RowAt(old(store.tenants), id), row, turn)
      ensures end.Unrecorded? ==> store.tenants == old(store.tenants)
      ensures !end.Settled? ==> runs == old(runs)
      ensures forall j :: j != id ==> RowAt(store.tenants, j) == RowAt(old(store.tenants), j)
    {
      if !turn.leadsBefore { return LeaseLost; }
      var result := runtime.Apply(id, row, PlanTenantAction(row), turn.replies);
      if !turn.leadsAfter { return LeaseLost; }
      var recorded := Conclude(id, row, result, turn.finishedAt);
      end := if recorded then Settled else Unrecorded;
    }

    method RunOnce(turns: Turns) returns (listed: seq<TenantId>, n: nat, summary: Summary)
      requires Valid()
      modifies this`runs, store, runtime
      ensures Valid() && Passed(old(store.tenants), store.tenants, listed, n, turns)
      ensures runs == Surviving(old(runs) + RunsOf(listed[..n], Records(old(store.tenants), turns)), store.tenants.Keys)
      ensures summary == TallyAll(|listed|, RunsOf(listed[..n], Records(old(store.tenants), turns)))
    {
      var tenants := store.tenants;
      ghost var past, records := runs, Records(tenants, turns);
      listed := store.ListTenantInstances();
      n, summary := 0, Summary(|listed|, 0, 0, 0, 0);
      NothingRecorded(past, tenants.Keys);
      while n < |listed|
        invariant Valid() && n <= |listed|
        invariant Underway(tenants, store.tenants, listed, n, turns)
        invariant runs == Surviving(past + RunsOf(listed[..n], records), store.tenants.Keys)
        invariant summary == TallyAll(|listed|, RunsOf(listed[..n], records))
      {
        ghost var ids := store.tenants.Keys;
        var run := NextTurn(tenants, listed, n, turns);
        if run.None? { return; }
        RunsStep(past, listed, n, records);
        SurvivingRecord(past + RunsOf(listed[..n], records), ids, run.value, store.tenants.Keys);
        summary := Tally(summary, run.value.status);
        n := n + 1;
      }
      PassEnds(tenants, store.tenants, listed, turns);
    }

    // One more turn of a pass over the rows `before`.
    method NextTurn(before: Table, listed: seq<TenantId>, n: nat, turns: Turns) returns (run: Option<Run>)
      requires Valid() && n < |listed| && Underway(before, store.tenants, listed, n, turns)
      modifies this`runs, store, runtime
      ensures Valid() && store.tenants.Keys <= old(store.tenants).Keys
      ensures run.Some? ==> Underway(before, store.tenants, listed, n + 1, turns)
      ensures run.None? ==> Passed(before, store.tenants, listed, n, turns)
      ensures run.Some? ==> run.value == Records(before, turns)[listed[n]]
      ensures run.Some? ==> runs == Surviving(old(runs) + [run.value], store.tenants.Keys)
      ensures run.None? ==> runs == old(runs) && store.tenants.Keys == old(store.tenants).Keys
    {
      NotYet(before, store.tenants, listed, n, turns);
      var id := listed[n];
      ghost var now := store.tenants;
      var end := TakeTurn(id, before[id], turns(id));
      SameKeys(now, store.tenants, id);
      if !end.Settled? {
        TurnAbandoned(before, now, store.tenants, listed, n, turns);
        return None;
      }
      TurnConcluded(before, now, store.tenants, listed, n, turns);
      var result := TurnTrace(before[id], turns(id)).result;
      run := Some(RunOf(id, before[id], result));
    }

    /** A whole cycle: the lease is checked before and after every part, and each failure ends it. `synced` is the
        outcome of the grant sync, `specs` the desired tenants it left; `desired` is the table between the parts. */
    method RunReconcileCycle(leads: bool, synced: bool, stillLeads: bool, specs: seq<Spec>, leadsAfter: bool,
                             turns: Turns)
      returns (reached: Stage, listed: seq<TenantId>, n: nat, summary: Summary, ghost desired: Table)
      requires Valid()
      modifies this`runs, store, runtime
      ensures Valid()
      ensures reached == NotLeader <==> !leads || (synced && !stillLeads)
      ensures reached == SyncFailed <==> leads && !synced
      ensures reached == TenantsFailed ==> !NoConflict(old(store.tenants), DesiredMap(specs))
      ensures reached.LostLease? || reached.Ran? ==> (reached.Ran? <==> leadsAfter)
      ensures reached.NotLeader? || reached.SyncFailed? || reached.TenantsFailed? ==>
                store.tenants == old(store.tenants) && runs == old(runs)
      ensures reached.LostLease? || reached.Ran? ==> Reconciled(old(store.tenants), desired, DesiredMap(specs))
      ensures reached.LostLease? ==> store.tenants == desired && runs == old(runs)
      ensures reached.Ran? ==> Passed(desired, store.tenants, listed, n, turns)
      ensures reached.Ran? ==>
                runs == Surviving(old(runs) + RunsOf(listed[..n], Records(desired, turns)), store.tenants.Keys)
      ensures reached.Ran? ==> summary == TallyAll(|listed|, RunsOf(listed[..n], Records(desired, turns)))
    {
      listed, n, summary, desired := [], 0, Summary(0, 0, 0, 0, 0), store.tenants;
      if !leads { return NotLeader, listed, n, summary, desired; }
      if !synced { return SyncFailed, listed, n, summary, desired; }
      if !stillLeads { return NotLeader, listed, n, summary, desired; }
      var ok := store.ReconcileDesiredTenants(specs);
      desired := store.tenants;
      if !ok { return TenantsFailed, listed, n, summary, desired; }
      if !leadsAfter { return LostLease, listed, n, summary, desired; }
      listed, n, summary := RunOnce(turns);
      reached := Ran;
    }
  }

  datatype Stage = NotLeader | SyncFailed | TenantsFailed | LostLease | Ran
}
