/** The tenant table over every interleaving of grant reconciliation, operators and reconcile loops that work on stale
    snapshots of the table. */
module TenantRuns {
  import opened TenantTable
  import opened DesiredTenants
  import opened TenantRuntime
  import Convergence

  type Worker = nat

  /** `snapshots`: the table as each loop last listed it. Ids below `nextId` have been used. */
  datatype State = State(tenants: Table, nextId: TenantId, snapshots: map<Worker, Table>)

  datatype Step =
    | ReconcileGrants(specs: seq<Spec>)
    | SuspendTenant(subject: string, service: string)
    | ResumeTenant(subject: string, service: string, granted: bool)
    | BindStatic(id: TenantId, spec: Spec, upstream: string, now: Time)
    | ListTenants(worker: Worker)
    | WriteStatus(worker: Worker, id: TenantId, env: Replies, k: nat)
    | MarkTenant(worker: Worker, id: TenantId, now: Time, lastError: string)
    | RemoveTenant(worker: Worker, id: TenantId, env: Replies)

  function TraceOf(row: Tenant, env: Replies): Trace {
    ApplySpec(row, PlanTenantAction(row), env)
  }

  predicate Completes(t: Trace) {
    t.result.Applied? && t.result.deleteCompleted
  }

  predicate Listed(s: State, worker: Worker, id: TenantId) {
    worker in s.snapshots && id in s.snapshots[worker]
  }

  function PlannedTrace(s: State, worker: Worker, id: TenantId, env: Replies): Trace
    requires Listed(s, worker, id)
  {
    TraceOf(s.snapshots[worker][id], env)
  }

  ghost predicate Reconciles(s: State, s': State, specs: seq<Spec>) {
    && Reconciled(s.tenants, s'.tenants, DesiredMap(specs))
    && (forall id :: id in s'.tenants && id !in s.tenants ==> s.nextId <= id < s'.nextId)
    && s.nextId <= s'.nextId && s'.snapshots == s.snapshots
  }

  function Replace(s: State, id: TenantId, row: Tenant): State {
    s.(tenants := s.tenants[id := row])
  }

  /** The binding inserts a row for a pair that has none, and takes over the row of a pair that has one. */
  ghost predicate Binds(s: State, s': State, id: TenantId, spec: Spec, upstream: string, now: Time) {
    if id in s.tenants
    then s.tenants[id].subject == spec.subject && s.tenants[id].service == spec.service
         && s' == Replace(s, id, MadeStatic(s.tenants[id], spec, upstream, now))
    else id >= s.nextId && s' == Replace(s, id, MadeStatic(Inserted(spec), spec, upstream, now)).(nextId := id + 1)
  }

  ghost predicate Next(s: State, s': State, step: Step) {
    match step
    case ReconcileGrants(specs) => Reconciles(s, s', specs) || s' == s
    case SuspendTenant(subject, service) => s' == s.(tenants := Suspend(s.tenants, subject, service))
    case ResumeTenant(subject, service, granted) => s' == s.(tenants := Resume(s.tenants, subject, service, granted))
    case BindStatic(id, spec, upstream, now) => Binds(s, s', id, spec, upstream, now)
    case ListTenants(w) => s' == s.(snapshots := s.snapshots[w := s.tenants])
    case WriteStatus(w, id, env, k) =>
      && Listed(s, w, id) && k < |PlannedTrace(s, w, id, env).writes|
      && s' == if id in s.tenants then Replace(s, id, Updated(s.tenants[id], PlannedTrace(s, w, id, env).writes[k]))
           else s
    case MarkTenant(w, id, now, e) =>
      Listed(s, w, id) && s' == if id in s.tenants then Replace(s, id, MarkReconciled(s.tenants[id], now, e)) else s
    case RemoveTenant(w, id, env) =>
      && Listed(s, w, id) && Completes(PlannedTrace(s, w, id, env))
      && s' == s.(tenants := s.tenants - {id})
  }

  ghost predicate IsRun(states: seq<State>, steps: seq<Step>) {
    |states| == |steps| + 1 && forall i :: 0 <= i < |steps| ==> Next(states[i], states[i + 1], steps[i])
  }

  const START := State(map[], 0, map[])

  // The invariant, in parts.

  predicate DeletingIsDesired(t: Table) {
    forall id :: id in t && !t[id].isStatic && t[id].runtime == Deleting ==> t[id].desired == WantDeleted
  }

  /** What a stale row may rely on: a static row stays static, and a row marked deleted stays so unless made static. */
  predicate Follows(now: Tenant, stale: Tenant) {
    (stale.isStatic ==> now.isStatic) && (stale.desired == WantDeleted ==> now.isStatic || now.desired == WantDeleted)
  }

  predicate TableFollows(now: Table, stale: Table) {
    forall id :: id in stale && id in now ==> Follows(now[id], stale[id])
  }

  predicate Used(t: Table, nextId: TenantId) {
    forall id :: id in t ==> id < nextId
  }

  predicate Inv(s: State) {
    && DeletingIsDesired(s.tenants)
    && Used(s.tenants, s.nextId)
    && (forall w :: w in s.snapshots ==> Used(s.snapshots[w], s.nextId) && TableFollows(s.tenants, s.snapshots[w]))
  }

  /** A step may drop rows, add rows with unused ids, and change rows only in ways that stale snapshots survive. */
  predicate Evolves(s: State, s': State) {
    && s.nextId <= s'.nextId
    && TableFollows(s'.tenants, s.tenants)
    && (forall id :: id in s'.tenants && id !in s.tenants ==> s.nextId <= id < s'.nextId)
  }

  predicate NeverDeleting(writes: seq<RuntimeUpdate>) {
    forall k :: 0 <= k < |writes| ==> writes[k].runtime != Deleting
  }

  lemma EnsureNeverDeletes(row: Tenant, env: Replies)
    ensures NeverDeleting(EnsureSpec(row, env).writes)
  {
    ConvergeNeverDeletes(row.refs.resource, false, if env.rendering.Rendered? then env.rendering.upstream else "", env);
    if env.rendering.Rendered? && env.creation.Created? {
      ConvergeNeverDeletes(env.creation.uuid, true, env.rendering.upstream, env);
    }
  }

  lemma ConvergeNeverDeletes(resource: string, created: bool, upstream: string, env: Replies)
    ensures NeverDeleting(ConvergeSpec(resource, created, upstream, env).writes)
  {
    assert NeverDeleting(ProvisionSpec(resource, upstream, env).writes);
    assert NeverDeleting(EnvsSpec(resource, created, upstream, env).writes);
  }

  lemma EnableNeverDeletes(row: Tenant, portPath: string, env: Replies)
    ensures NeverDeleting(EnableSpec(row, portPath, env).writes)
  {
    EnsureNeverDeletes(row, env);
  }

  // Only the delete action writes `deleting`, and only for rows that are not static.
  lemma DeletingIsWrittenByDelete(row: Tenant, action: Action, env: Replies, k: nat)
    requires k < |ApplySpec(row, action, env).writes| && ApplySpec(row, action, env).writes[k].runtime == Deleting
    ensures action == Action.Delete && !row.isStatic
  {
    EnsureNeverDeletes(row, env);
    EnableNeverDeletes(row, if env.service.Service? then env.service.portPath else "", env);
  }

  predicate DeletingRowIsDesired(row: Tenant) {
    !row.isStatic && row.runtime == Deleting ==> row.desired == WantDeleted
  }

  lemma ReconciledRow(row: Tenant, desired: map<string, Spec>)
    requires DeletingRowIsDesired(row)
    ensures Follows(AfterRow(row, desired), row) && DeletingRowIsDesired(AfterRow(row, desired))
  {
  }

  lemma ReconcileStep(s: State, s': State, specs: seq<Spec>)
    requires Inv(s) && Reconciles(s, s', specs)
    ensures Evolves(s, s') && DeletingIsDesired(s'.tenants)
  {
    var desired := DesiredMap(specs);
    forall id | id in s'.tenants
      ensures DeletingRowIsDesired(s'.tenants[id]) && (id in s.tenants ==> Follows(s'.tenants[id], s.tenants[id]))
    {
      if id in s.tenants {
        ReconciledRow(s.tenants[id], desired);
        assert s'.tenants[id] == AfterRow(s.tenants[id], desired);
      }
    }
  }

  lemma OperatorSteps(s: State, s': State, step: Step)
    requires Inv(s) && Next(s, s', step)
    requires step.ReconcileGrants? || step.SuspendTenant? || step.ResumeTenant? || step.BindStatic?
    ensures Evolves(s, s') && DeletingIsDesired(s'.tenants) && s'.snapshots == s.snapshots
  {
    if step.ReconcileGrants? && s' != s { ReconcileStep(s, s', step.specs); }
  }

  lemma WriteStep(s: State, s': State, step: Step)
    requires Inv(s) && Next(s, s', step) && step.WriteStatus?
    ensures Evolves(s, s') && DeletingIsDesired(s'.tenants) && s'.snapshots == s.snapshots
  {
    var stale := s.snapshots[step.worker][step.id];
    var u := PlannedTrace(s, step.worker, step.id, step.env).writes[step.k];
    if step.id in s.tenants && u.runtime == Deleting {
      DeletingIsWrittenByDelete(stale, PlanTenantAction(stale), step.env, step.k);
      assert Follows(s.tenants[step.id], stale);
    }
  }

  lemma LoopSteps(s: State, s': State, step: Step)
    requires Inv(s) && Next(s, s', step) && (step.ListTenants? || step.MarkTenant? || step.RemoveTenant?)
    ensures Evolves(s, s') && DeletingIsDesired(s'.tenants)
    ensures !step.ListTenants? ==> s'.snapshots == s.snapshots
  {
  }

  lemma FollowsIsTransitive(a: Tenant, b: Tenant, c: Tenant)
    requires Follows(b, a) && Follows(c, b)
    ensures Follows(c, a)
  {
  }

  lemma SnapshotsSurvive(s: State, s': State)
    requires Inv(s) && Evolves(s, s')
    ensures forall w :: w in s.snapshots ==> Used(s.snapshots[w], s'.nextId) && TableFollows(s'.tenants, s.snapshots[w])
  {
    forall w | w in s.snapshots ensures TableFollows(s'.tenants, s.snapshots[w]) {
      forall id | id in s.snapshots[w] && id in s'.tenants ensures Follows(s'.tenants[id], s.snapshots[w][id]) {
        assert id < s.nextId && id in s.tenants;
        FollowsIsTransitive(s.snapshots[w][id], s.tenants[id], s'.tenants[id]);
      }
    }
  }

  lemma NextKeepsInv(s: State, s': State, step: Step)
    requires Inv(s) && Next(s, s', step)
    ensures Inv(s') && Evolves(s, s')
  {
    if step.ListTenants? || step.MarkTenant? || step.RemoveTenant? {
      LoopSteps(s, s', step);
    } else if step.WriteStatus? {
      WriteStep(s, s', step);
    } else {
      OperatorSteps(s, s', step);
    }
    SnapshotsSurvive(s, s');
  }

  lemma {:induction false} RunKeepsInv(states: seq<State>, steps: seq<Step>, n: nat)
    requires IsRun(states, steps) && states[0] == START && n < |states|
    ensures Inv(states[n])
  {
    if n > 0 {
      RunKeepsInv(states, steps, n - 1);
      NextKeepsInv(states[n - 1], states[n], steps[n - 1]);
    }
  }

  /** `deleting` is only ever the state of a row that is to be deleted, so a row that is not static always settles. */
  lemma DeletingMeansDeleted(states: seq<State>, steps: seq<Step>, n: nat, id: TenantId)
    requires IsRun(states, steps) && states[0] == START && n < |states|
    requires id in states[n].tenants && !states[n].tenants[id].isStatic
    ensures states[n].tenants[id].runtime == Deleting ==> states[n].tenants[id].desired == WantDeleted
    ensures Convergence.RowSettles(states[n].tenants[id])
  {
    RunKeepsInv(states, steps, n);
  }

  /** How what is wanted of a row changes: operators suspend, resume and bind; the grants mark deleted; no loop changes
      it. */
  lemma DesiredStep(s: State, s': State, step: Step, id: TenantId)
    requires Next(s, s', step) && id in s.tenants && id in s'.tenants
    ensures var row, desired := s.tenants[id], s'.tenants[id].desired;
            match step
            case ReconcileGrants(specs) =>
              s' == s ||
              desired == if RowKey(row) !in DesiredMap(specs) && !row.isStatic then WantDeleted else row.desired
            case SuspendTenant(subject, service) =>
              desired == if IsPair(row, subject, service) && row.desired != WantDeleted then WantDisabled
                         else row.desired
            case ResumeTenant(subject, service, granted) =>
              desired == if granted && IsPair(row, subject, service) && row.desired != WantDeleted then WantEnabled
                         else row.desired
            case BindStatic(j, _, _, _) => desired == if j == id then WantEnabled else row.desired
            case _ => desired == row.desired
  {
    if step.ReconcileGrants? && s' != s { assert s'.tenants[id] == AfterRow(s.tenants[id], DesiredMap(step.specs)); }
  }

  predicate SpecsArePlain(specs: seq<Spec>) {
    forall s :: s in specs ==> NoColon(s.service)
  }

  /** Over every run, a row becomes marked deleted only by a reconciliation whose grants do not want it. */
  lemma OnlyLostGrantsMarkDeleted(states: seq<State>, steps: seq<Step>, n: nat, id: TenantId)
    requires IsRun(states, steps) && n < |steps|
    requires id in states[n].tenants && states[n].tenants[id].desired != WantDeleted
    requires id in states[n + 1].tenants && states[n + 1].tenants[id].desired == WantDeleted
    requires NoColon(states[n].tenants[id].service) && (steps[n].ReconcileGrants? ==> SpecsArePlain(steps[n].specs))
    ensures steps[n].ReconcileGrants? && !states[n].tenants[id].isStatic
    ensures !Wanted(steps[n].specs, states[n].tenants[id].subject, states[n].tenants[id].service)
  {
    DesiredStep(states[n], states[n + 1], steps[n], id);
    if steps[n].ReconcileGrants? { WantedIsKeyed(steps[n].specs, states[n].tenants[id]); }
  }

  /** Gone, or static, or still marked deleted. */
  predicate StillDeleted(s: State, id: TenantId) {
    id < s.nextId && (id in s.tenants ==> s.tenants[id].isStatic || s.tenants[id].desired == WantDeleted)
  }

  /** Marked deleted once, marked deleted for good: the row never comes back unless an operator makes it static. */
  lemma {:induction false} DeletedIsForGood(states: seq<State>, steps: seq<Step>, m: nat, n: nat, id: TenantId)
    requires IsRun(states, steps) && states[0] == START && m <= n < |states|
    requires id in states[m].tenants && states[m].tenants[id].desired == WantDeleted
    ensures StillDeleted(states[n], id)
    decreases n
  {
    RunKeepsInv(states, steps, n);
    if m < n {
      DeletedIsForGood(states, steps, m, n - 1, id);
      RunKeepsInv(states, steps, n - 1);
      NextKeepsInv(states[n - 1], states[n], steps[n - 1]);
    }
  }

  predicate NoDeletion(requests: seq<Request>) {
    DeleteRequest !in requests
  }

  lemma ConvergeAsksForNoDeletion(resource: string, created: bool, upstream: string, env: Replies)
    ensures NoDeletion(ConvergeSpec(resource, created, upstream, env).requests)
  {
  }

  lemma EnsureAsksForNoDeletion(row: Tenant, portPath: string, env: Replies)
    ensures NoDeletion(EnsureSpec(row, env).requests) && NoDeletion(EnableSpec(row, portPath, env).requests)
  {
    var upstream := if env.rendering.Rendered? then env.rendering.upstream else "";
    ConvergeAsksForNoDeletion(row.refs.resource, false, upstream, env);
    if env.creation.Created? { ConvergeAsksForNoDeletion(env.creation.uuid, true, upstream, env); }
  }

  lemma DeletionIsAskedByDelete(row: Tenant, action: Action, env: Replies)
    requires DeleteRequest in ApplySpec(row, action, env).requests
    ensures action == Action.Delete && !row.isStatic
  {
    EnsureAsksForNoDeletion(row, if env.service.Service? then env.service.portPath else "", env);
  }

  /** The provider is asked to delete only services of rows marked deleted, however stale the asking loop's view. */
  lemma OnlyDeletedRowsAreDestroyed(states: seq<State>, steps: seq<Step>, n: nat, worker: Worker, id: TenantId,
                                    env: Replies)
    requires IsRun(states, steps) && states[0] == START && n < |states| && Listed(states[n], worker, id)
    requires DeleteRequest in PlannedTrace(states[n], worker, id, env).requests
    ensures StillDeleted(states[n], id)
  {
    RunKeepsInv(states, steps, n);
    var stale := states[n].snapshots[worker][id];
    DeletionIsAskedByDelete(stale, PlanTenantAction(stale), env);
    if id in states[n].tenants { assert Follows(states[n].tenants[id], stale); }
  }

  // When a loop removes a row.

  /** What makes the delete action end with the removal of the row it was planned for. */
  predicate DeletionCompletes(row: Tenant, env: Replies) {
    && row.desired == WantDeleted
    && (row.isStatic
        || (env.service.Service?
            && (row.refs.resource == "" || env.check == NotFound
                || (env.check == Done && QueuesDelete(row, env.now) && env.deletion == NotFound))))
  }

  lemma ConvergeNeverCompletes(resource: string, created: bool, upstream: string, env: Replies)
    ensures !Completes(ConvergeSpec(resource, created, upstream, env))
  {
    assert !Completes(ProvisionSpec(resource, upstream, env));
    assert !Completes(EnvsSpec(resource, created, upstream, env));
  }

  lemma OnlyDeletionCompletes(row: Tenant, portPath: string, env: Replies)
    ensures !Completes(EnsureSpec(row, env)) && !Completes(EnableSpec(row, portPath, env))
  {
    var upstream := if env.rendering.Rendered? then env.rendering.upstream else "";
    ConvergeNeverCompletes(row.refs.resource, false, upstream, env);
    if env.creation.Created? { ConvergeNeverCompletes(env.creation.uuid, true, upstream, env); }
  }

  lemma CompletesIff(row: Tenant, env: Replies)
    ensures Completes(TraceOf(row, env)) <==> DeletionCompletes(row, env)
  {
    OnlyDeletionCompletes(row, if env.service.Service? then env.service.portPath else "", env);
  }

  /** A loop may remove a stored row exactly when the row as it was listed, however long ago, was marked deleted and the
      provider has no service for it any more. The stored row is then still marked deleted, unless it has been bound
      static in the meantime. */
  lemma RemovalIff(states: seq<State>, steps: seq<Step>, n: nat, worker: Worker, id: TenantId, env: Replies)
    requires IsRun(states, steps) && states[0] == START && n < |states| && Listed(states[n], worker, id)
    requires id in states[n].tenants
    ensures var s, stale := states[n], states[n].snapshots[worker][id];
            && (Next(s, s.(tenants := s.tenants - {id}), RemoveTenant(worker, id, env)) <==>
                 DeletionCompletes(stale, env))
            && (DeletionCompletes(stale, env) ==> s.tenants[id].isStatic || s.tenants[id].desired == WantDeleted)
  {
    RunKeepsInv(states, steps, n);
    var stale := states[n].snapshots[worker][id];
    CompletesIff(stale, env);
    assert Follows(states[n].tenants[id], stale);
  }

  /** The meantime exists: a grant comes and goes, a loop lists the row, an operator binds it static, and the loop
      removes what has just been bound. */
  lemma StaleRemovalTakesBoundRow(spec: Spec, upstream: string, now: Time, env: Replies)
    returns (states: seq<State>, steps: seq<Step>)
    requires env.service.Service?
    ensures IsRun(states, steps) && |states| == 6 && states[0] == START
    ensures 0 in states[4].tenants && states[4].tenants[0].isStatic && states[4].tenants[0].desired == WantEnabled
    ensures steps[4] == RemoveTenant(0, 0, env) && states[5].tenants == map[]
  {
    var row := Inserted(spec);
    var gone := row.(desired := WantDeleted);
    var bound := MadeStatic(gone, spec, upstream, now);
    var s1, s2 := State(map[0 := row], 1, map[]), State(map[0 := gone], 1, map[]);
    var s3 := s2.(snapshots := map[0 := s2.tenants]);
    var s4 := s3.(tenants := map[0 := bound]);
    var s5 := s4.(tenants := map[]);
    states := [START, s1, s2, s3, s4, s5];
    steps := [ReconcileGrants([spec]), ReconcileGrants([]), ListTenants(0), BindStatic(0, spec, upstream, now),
      RemoveTenant(0, 0, env)];
    GrantComesAndGoes(spec);
    CompletesIff(gone, env);
    assert Next(START, s1, steps[0]) && Next(s1, s2, steps[1]);
    assert s2.snapshots[0 := s2.tenants] == s3.snapshots && s3.tenants[0 := bound] == s4.tenants;
    assert s4.tenants - {0} == map[];
    assert Next(s3, s4, steps[3]) && Next(s4, s5, steps[4]);
  }

  lemma GrantComesAndGoes(spec: Spec)
    ensures var row := Inserted(spec);
            && Reconciled(map[], map[0 := row], DesiredMap([spec]))
            && Reconciled(map[0 := row], map[0 := row.(desired := WantDeleted)], DesiredMap([]))
  {
    var row := Inserted(spec);
    var t: Table := map[0 := row];
    var desired := DesiredMap([spec]);
    assert spec in [spec] && RowKey(row) == SpecKey(spec);
    forall k | k in desired ensures k == SpecKey(spec) && desired[k] == spec && HasKey(t, k) {
      assert desired[k] in [spec];
      assert 0 in t && RowKey(t[0]) == k;
    }
  }
}
