/** Whole reconcile cycles, each the grant reconciliation followed by a pass over all tenants, under grants that stay
    as they are: every granted pair ends with a tenant in its desired state, its service running or not accordingly. */
module WholeCycles {
  import opened Wrappers
  import opened TenantTable
  import opened DesiredTenants
  import opened TenantRuntime
  import opened Reconciler
  import opened Convergence
  import TenantRuns

  /** Cycle i starts from `fleets[i]`, reconciles it to the table `desired[i]`, and passes to `fleets[i + 1]`. */
  datatype History = History(fleets: seq<Fleet>, desired: seq<Table>, inputs: seq<TenantId -> Input>)

  ghost predicate WholeCycle(setup: Setup, specs: map<string, Spec>, f: Fleet, desired: Table, f': Fleet,
                             i: TenantId -> Input) {
    Reconciled(f.tenants, desired, specs) && PassStep(setup, Fleet(desired, f.worlds), f', i)
  }

  function NextWorlds(setup: Setup, f: Fleet, inputs: TenantId -> Input): TenantId -> World {
    (id: TenantId) => Cycle(setup, StateOf(f, id), inputs(id)).world
  }

  /** This is what `RunReconcileCycle` does when it keeps the lease and the provider answers. */
  lemma CycleIsWhole(setup: Setup, specs: map<string, Spec>, f: Fleet, desired: Table, after: Table,
                     listed: seq<TenantId>, turns: Turns, inputs: TenantId -> Input)
    requires Reconciled(f.tenants, desired, specs) && Passed(desired, after, listed, |listed|, turns)
    requires forall j :: j in desired ==> turns(j) == GoodTurn(setup, desired[j], f.worlds(j), inputs(j))
    ensures WholeCycle(setup, specs, f, desired, Fleet(after, NextWorlds(setup, Fleet(desired, f.worlds), inputs)),
            inputs)
  {
    var mid := Fleet(desired, f.worlds);
    forall id ensures RowAt(after, id) == Cycle(setup, StateOf(mid, id), inputs(id)).row {
      FullPassIsCycle(setup, mid, after, listed, turns, inputs, id);
    }
  }

  /** The database gives every new row an id that no row has had before. */
  ghost predicate IdsAreNew(h: History)
    requires |h.fleets| > |h.desired|
  {
    forall i, j, id :: 0 <= j < i < |h.desired| && id in h.desired[j] && id in h.desired[i] ==>
      id in h.fleets[i].tenants
  }

  ghost predicate IsRun(setup: Setup, specs: map<string, Spec>, h: History) {
    && |h.fleets| == |h.desired| + 1 && |h.inputs| == |h.desired|
    && (forall i :: 0 <= i < |h.desired| ==>
         WholeCycle(setup, specs, h.fleets[i], h.desired[i], h.fleets[i + 1], h.inputs[i]))
    && IdsAreNew(h)
  }

  /** What pass i starts from; after the last pass, what it left. */
  function Before(h: History, i: nat): Fleet
    requires |h.fleets| == |h.desired| + 1 && i <= |h.desired|
  {
    if i < |h.desired| then Fleet(h.desired[i], h.fleets[i].worlds) else h.fleets[i]
  }

  // What a turn leaves alone.

  function Identity(row: Tenant): (string, string, string, string, string, DesiredState, bool) {
    (row.subject, row.service, row.subjectKey, row.name, row.dnsName, row.desired, row.isStatic)
  }

  lemma {:induction false} WrittenKeepsIdentity(row: Tenant, writes: seq<RuntimeUpdate>)
    ensures Identity(Written(row, writes)) == Identity(row)
    decreases |writes|
  {
    if writes != [] { WrittenKeepsIdentity(Updated(row, writes[0]), writes[1..]); }
  }

  /** A turn keeps what identifies the row and what is wanted of it, and removes only rows marked deleted. */
  lemma TurnKeepsIdentity(row: Tenant, turn: Turn)
    ensures CycleRow(row, turn).None? ==> row.desired == WantDeleted
    ensures CycleRow(row, turn).Some? ==> Identity(CycleRow(row, turn).value) == Identity(row)
  {
    TenantRuns.CompletesIff(row, turn.replies);
    WrittenKeepsIdentity(row, TurnTrace(row, turn).writes);
  }

  // Grants that stay as they are ask for no further change of a row they have settled.

  lemma SettledStaysSettled(row: Tenant, row': Tenant, specs: map<string, Spec>)
    requires AfterRow(row, specs) == row && Identity(row') == Identity(row)
    ensures AfterRow(row', specs) == row'
  {
    assert RowKey(row') == RowKey(row);
  }

  lemma PassedRow(setup: Setup, specs: map<string, Spec>, h: History, i: nat, id: TenantId)
    requires IsRun(setup, specs, h) && i < |h.desired| && id in h.fleets[i + 1].tenants
    ensures id in h.desired[i] && Identity(h.fleets[i + 1].tenants[id]) == Identity(h.desired[i][id])
    ensures AfterRow(h.fleets[i + 1].tenants[id], specs) == h.fleets[i + 1].tenants[id]
  {
    var s := StateOf(Fleet(h.desired[i], h.fleets[i].worlds), id);
    assert StateOf(h.fleets[i + 1], id) == Cycle(setup, s, h.inputs[i](id));
    var row := h.desired[i][id];
    TurnKeepsIdentity(row, GoodTurn(setup, row, s.world, h.inputs[i](id)));
    assert WholeCycle(setup, specs, h.fleets[i], h.desired[i], h.fleets[i + 1], h.inputs[i]);
    RunTwice(h.fleets[i].tenants, h.desired[i], specs, id);
    SettledStaysSettled(row, h.fleets[i + 1].tenants[id], specs);
  }

  lemma NextReconcileKeepsRow(setup: Setup, specs: map<string, Spec>, h: History, m: nat, i: nat, id: TenantId)
    requires IsRun(setup, specs, h) && m <= i < |h.desired| - 1 && id in h.desired[m]
    ensures RowAt(h.desired[i + 1], id) == RowAt(h.fleets[i + 1].tenants, id)
  {
    assert WholeCycle(setup, specs, h.fleets[i + 1], h.desired[i + 1], h.fleets[i + 2], h.inputs[i + 1]);
    if id in h.fleets[i + 1].tenants { PassedRow(setup, specs, h, i, id); }
  }

  ghost predicate Advances(setup: Setup, h: History, i: nat, id: TenantId)
    requires |h.fleets| == |h.desired| + 1 && |h.inputs| == |h.desired| && i < |h.desired|
  {
    StateOf(Before(h, i + 1), id) == Cycle(setup, StateOf(Before(h, i), id), h.inputs[i](id))
  }

  /** From the first reconciliation that has it, a row advances by one cycle of its own in every whole cycle. */
  lemma RowAdvances(setup: Setup, specs: map<string, Spec>, h: History, m: nat, i: nat, id: TenantId)
    requires IsRun(setup, specs, h) && m <= i < |h.desired| && id in h.desired[m]
    ensures Advances(setup, h, i, id)
  {
    assert WholeCycle(setup, specs, h.fleets[i], h.desired[i], h.fleets[i + 1], h.inputs[i]);
    if i + 1 < |h.desired| { NextReconcileKeepsRow(setup, specs, h, m, i, id); }
  }

  lemma CyclesStep(setup: Setup, s: Convergence.State, inputs: seq<Input>, m: nat, k: nat)
    requires m < k <= |inputs|
    ensures Cycles(setup, s, inputs[m..k]) == Cycle(setup, Cycles(setup, s, inputs[m..k - 1]), inputs[k - 1])
  {
    assert inputs[m..k] == inputs[m..k - 1] + [inputs[k - 1]];
    CyclesAppend(setup, s, inputs[m..k - 1], inputs[k - 1]);
  }

  lemma {:induction false} AdvancesBy(setup: Setup, h: History, m: nat, k: nat, id: TenantId)
    requires |h.fleets| == |h.desired| + 1 && |h.inputs| == |h.desired| && m <= k <= |h.desired|
    requires forall i :: m <= i < k ==> Advances(setup, h, i, id)
    ensures StateOf(Before(h, k), id) == Cycles(setup, StateOf(Before(h, m), id), InputsOf(h.inputs, id)[m..k])
    decreases k
  {
    if m < k {
      AdvancesBy(setup, h, m, k - 1, id);
      CyclesStep(setup, StateOf(Before(h, m), id), InputsOf(h.inputs, id), m, k);
      assert Advances(setup, h, k - 1, id);
    }
  }

  lemma RowAlwaysAdvances(setup: Setup, specs: map<string, Spec>, h: History, m: nat, id: TenantId)
    requires IsRun(setup, specs, h) && m < |h.desired| && id in h.desired[m]
    ensures forall i :: m <= i < |h.desired| ==> Advances(setup, h, i, id)
  {
    forall i | m <= i < |h.desired| ensures Advances(setup, h, i, id) { RowAdvances(setup, specs, h, m, i, id); }
  }

  lemma {:induction false} LaterIsNotEarlier(inputs: seq<Input>, now: Time, period: Time, m: nat)
    requires period > 0 && Spaced(inputs, now, period) && m < |inputs|
    ensures inputs[m].now >= now
  {
    if m > 0 { LaterIsNotEarlier(inputs, now, period, m - 1); }
  }

  /** A row that settles is at its goal once the cycles outnumber its measure. */
  lemma RowConverges(setup: Setup, specs: map<string, Spec>, h: History, m: nat, k: nat, id: TenantId, now: Time,
                     period: Time)
    requires IsRun(setup, specs, h) && m <= k <= |h.desired| && m < |h.desired| && id in h.desired[m]
    requires period > 0 && Spaced(InputsOf(h.inputs, id), now, period) && Settles(StateOf(Before(h, m), id))
    requires Measure(setup, StateOf(Before(h, m), id), now, period) <= k - m
    ensures AtGoal(StateOf(Before(h, k), id))
  {
    var all := InputsOf(h.inputs, id);
    if m < k { LaterIsNotEarlier(all, now, period, m); }
    RowAlwaysAdvances(setup, specs, h, m, id);
    AdvancesBy(setup, h, m, k, id);
    Converges(setup, StateOf(Before(h, m), id), all[m..k], now, period);
  }

  lemma {:induction false} RowKeepsIdentity(setup: Setup, specs: map<string, Spec>, h: History, m: nat, k: nat,
                                            id: TenantId)
    requires IsRun(setup, specs, h) && m <= k <= |h.desired| && m < |h.desired| && id in h.desired[m]
    ensures id in Before(h, k).tenants ==> Identity(Before(h, k).tenants[id]) == Identity(h.desired[m][id])
    ensures h.desired[m][id].desired != WantDeleted ==> id in Before(h, k).tenants
    decreases k
  {
    if m < k {
      RowKeepsIdentity(setup, specs, h, m, k - 1, id);
      RowAdvances(setup, specs, h, m, k - 1, id);
      if id in Before(h, k - 1).tenants {
        var f := Before(h, k - 1);
        TurnKeepsIdentity(f.tenants[id], GoodTurn(setup, f.tenants[id], f.worlds(id), h.inputs[k - 1](id)));
      }
    }
  }

  lemma {:induction false} WarmupShrinks(setup: Setup, specs: map<string, Spec>, h: History, i: nat, id: TenantId)
    requires IsRun(setup, specs, h) && i <= |h.desired|
    ensures h.fleets[i].worlds(id).warmup <= h.fleets[0].worlds(id).warmup
  {
    if i > 0 {
      WarmupShrinks(setup, specs, h, i - 1, id);
      assert WholeCycle(setup, specs, h.fleets[i - 1], h.desired[i - 1], h.fleets[i], h.inputs[i - 1]);
      assert StateOf(h.fleets[i], id) ==
             Cycle(setup, StateOf(Fleet(h.desired[i - 1], h.fleets[i - 1].worlds), id), h.inputs[i - 1](id));
    }
  }

  // The pair's row.

  ghost predicate HasTenantAtGoal(f: Fleet, key: string) {
    exists id :: id in f.tenants && RowKey(f.tenants[id]) == key && AtGoal(StateOf(f, id))
  }

  /** A row that is kept ends as the pair's tenant at its goal. */
  lemma KeptRowServes(setup: Setup, specs: map<string, Spec>, h: History, m: nat, id: TenantId, now: Time, period: Time)
    requires IsRun(setup, specs, h) && m < |h.desired| && id in h.desired[m] && h.desired[m][id].desired != WantDeleted
    requires period > 0 && Spaced(InputsOf(h.inputs, id), now, period) && Settles(StateOf(Before(h, m), id))
    requires Measure(setup, StateOf(Before(h, m), id), now, period) <= |h.desired| - m
    ensures HasTenantAtGoal(h.fleets[|h.desired|], RowKey(h.desired[m][id]))
  {
    RowConverges(setup, specs, h, m, |h.desired|, id, now, period);
    RowKeepsIdentity(setup, specs, h, m, |h.desired|, id);
    assert Before(h, |h.desired|) == h.fleets[|h.desired|];
  }

  lemma KeyIsGone(before: Table, passed: Table, key: string, first: TenantId)
    requires UniqueKeys(before) && first in before && RowKey(before[first]) == key && first !in passed
    requires forall id :: id in passed ==> id in before && RowKey(passed[id]) == RowKey(before[id])
    ensures !HasKey(passed, key)
  {
    forall id | id in passed ensures RowKey(passed[id]) != key {
      assert RowKey(before[id]) == key ==> id == first;
    }
  }

  lemma ReconciledAt(setup: Setup, specs: map<string, Spec>, h: History, i: nat)
    requires IsRun(setup, specs, h) && i < |h.desired|
    ensures Reconciled(h.fleets[i].tenants, h.desired[i], specs)
  {
    assert WholeCycle(setup, specs, h.fleets[i], h.desired[i], h.fleets[i + 1], h.inputs[i]);
  }

  lemma MissingIsInsertedAt(setup: Setup, specs: map<string, Spec>, h: History, i: nat, key: string)
    requires IsRun(setup, specs, h) && i < |h.desired| && key in specs && !HasKey(h.fleets[i].tenants, key)
    ensures exists id ::
              id in h.desired[i] && RowKey(h.desired[i][id]) == key &&
              h.desired[i][id] == Inserted(specs[key])
  {
    ReconciledAt(setup, specs, h, i);
    MissingIsInserted(h.fleets[i].tenants, h.desired[i], specs, key);
  }

  lemma HasRowAt(setup: Setup, specs: map<string, Spec>, h: History, i: nat, key: string)
    requires IsRun(setup, specs, h) && i < |h.desired| && key in specs
    ensures HasKey(h.desired[i], key) && UniqueKeys(h.desired[i])
  {
    ReconciledAt(setup, specs, h, i);
  }

  lemma PassedRows(setup: Setup, specs: map<string, Spec>, h: History, i: nat)
    requires IsRun(setup, specs, h) && i < |h.desired|
    ensures forall id :: id in h.fleets[i + 1].tenants ==>
              id in h.desired[i] && RowKey(h.fleets[i + 1].tenants[id]) == RowKey(h.desired[i][id])
  {
    forall id | id in h.fleets[i + 1].tenants
      ensures id in h.desired[i] && RowKey(h.fleets[i + 1].tenants[id]) == RowKey(h.desired[i][id])
    {
      PassedRow(setup, specs, h, i, id);
    }
  }

  lemma GoneStaysGone(setup: Setup, specs: map<string, Spec>, h: History, i: nat, id: TenantId)
    requires IsRun(setup, specs, h) && i < |h.desired| && id !in h.desired[i]
    ensures id !in h.fleets[i].tenants
  {
    ReconciledAt(setup, specs, h, i);
  }

  lemma KeyIsGoneAt(setup: Setup, specs: map<string, Spec>, h: History, i: nat, first: TenantId, key: string)
    requires IsRun(setup, specs, h) && i < |h.desired| && key in specs
    requires first in h.desired[i] && RowKey(h.desired[i][first]) == key && first !in h.fleets[i + 1].tenants
    ensures !HasKey(h.fleets[i + 1].tenants, key)
  {
    HasRowAt(setup, specs, h, i, key);
    PassedRows(setup, specs, h, i);
    KeyIsGone(h.desired[i], h.fleets[i + 1].tenants, key, first);
  }

  /** When the pair's row has gone, the next reconciliation inserts a new one. */
  lemma GoneIsReplaced(setup: Setup, specs: map<string, Spec>, h: History, j: nat, first: TenantId, key: string)
    requires IsRun(setup, specs, h) && 0 < j < |h.desired| && key in specs
    requires first in h.desired[j - 1] && first !in h.desired[j] && RowKey(h.desired[j - 1][first]) == key
    ensures exists id ::
              id in h.desired[j] && RowKey(h.desired[j][id]) == key &&
              h.desired[j][id] == Inserted(specs[key])
  {
    GoneStaysGone(setup, specs, h, j, first);
    KeyIsGoneAt(setup, specs, h, j - 1, first, key);
    MissingIsInsertedAt(setup, specs, h, j, key);
  }

  /** The first reconciliation without a row that has gone by cycle k. */
  lemma {:induction false} FirstWithout(h: History, k: nat, id: TenantId) returns (j: nat)
    requires |h.fleets| == |h.desired| + 1 && 0 < k < |h.desired|
    requires id in h.desired[0] && id !in h.desired[k]
    ensures 0 < j <= k && id in h.desired[j - 1] && id !in h.desired[j]
  {
    if id in h.desired[k - 1] { j := k; } else { j := FirstWithout(h, k - 1, id); }
  }

  /** A pair whose row is marked deleted gets a new row, and that one its tenant. */
  lemma ReplacedRowServes(setup: Setup, specs: map<string, Spec>, h: History, first: TenantId, gone: nat, warmup: nat,
                          now: Time, period: Time)
    requires IsRun(setup, specs, h) && 0 < gone && gone + 2 * warmup + 2 <= |h.desired|
    requires first in h.desired[0] && RowKey(h.desired[0][first]) in specs && first !in h.desired[gone]
    requires forall id :: h.fleets[0].worlds(id).warmup <= warmup
    requires period > 0 && forall id :: Spaced(InputsOf(h.inputs, id), now, period)
    ensures HasTenantAtGoal(h.fleets[|h.desired|], RowKey(h.desired[0][first]))
  {
    var j := FirstWithout(h, gone, first);
    RowKeepsIdentity(setup, specs, h, 0, j - 1, first);
    var key := RowKey(h.desired[0][first]);
    GoneIsReplaced(setup, specs, h, j, first, key);
    var id :| id in h.desired[j] && RowKey(h.desired[j][id]) == key && h.desired[j][id] == Inserted(specs[key]);
    WarmupShrinks(setup, specs, h, j, id);
    KeptRowServes(setup, specs, h, j, id, now, period);
  }

  /** Enough cycles for the rows of a pair: what the row there is needs to settle, and what a new one would need. */
  ghost predicate EnoughCycles(setup: Setup, h: History, key: string, warmup: nat, now: Time, period: Time)
    requires |h.fleets| == |h.desired| + 1 && period > 0
  {
    |h.desired| > 0 && forall id :: id in h.desired[0] && RowKey(h.desired[0][id]) == key ==>
      && Settles(StateOf(Before(h, 0), id))
      && Measure(setup, StateOf(Before(h, 0), id), now, period) + 2 * warmup + 2 <= |h.desired|
  }

  /** While grants stay as they are, every granted pair has a tenant in its desired state once there have been enough
      cycles: also a pair whose row was marked deleted, which is first removed and then inserted anew. */
  lemma EveryGrantGetsItsTenant(setup: Setup, specs: map<string, Spec>, h: History, key: string, warmup: nat,
                                now: Time, period: Time)
    requires IsRun(setup, specs, h) && key in specs
    requires period > 0 && forall id :: Spaced(InputsOf(h.inputs, id), now, period)
    requires forall id :: h.fleets[0].worlds(id).warmup <= warmup
    requires EnoughCycles(setup, h, key, warmup, now, period)
    ensures HasTenantAtGoal(h.fleets[|h.desired|], key)
  {
    HasRowAt(setup, specs, h, 0, key);
    var id :| id in h.desired[0] && RowKey(h.desired[0][id]) == key;
    if h.desired[0][id].desired != WantDeleted {
      KeptRowServes(setup, specs, h, 0, id, now, period);
    } else {
      var gone := Measure(setup, StateOf(Before(h, 0), id), now, period);
      RowConverges(setup, specs, h, 0, gone, id, now, period);
      RowKeepsIdentity(setup, specs, h, 0, gone, id);
      ReplacedRowServes(setup, specs, h, id, gone, warmup, now, period);
    }
  }
}
