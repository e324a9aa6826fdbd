/** What the row and the run record say after a completed turn, whatever the environment answered. */
module TurnOutcomes {
  import opened Wrappers
  import opened GoStrings
  import opened TenantTable
  import opened TenantRuntime
  import opened Reconciler
  import TenantRuns

  // How a turn ends, by what it met.

  predicate NeedsEnsure(row: Tenant, env: Replies) {
    Unready(row) && (row.runtime == Disabled && row.refs.resource != "" ==> env.start == NotFound)
  }

  /** A service is asked for and refused. */
  predicate Refused(row: Tenant, env: Replies) {
    env.service.Service? && NeedsEnsure(row, env) && Reachable(row, env) && Missing(row, env) &&
    env.creation.NotCreated?
  }

  /** The service is found or created, and corrected. */
  predicate Ensured(row: Tenant, env: Replies) {
    && env.service.Service? && NeedsEnsure(row, env) && Reachable(row, env)
    && (Missing(row, env) ==> env.creation.Created?) && Converged(Missing(row, env), env)
  }

  predicate Started(row: Tenant, env: Replies) {
    env.service.Service? && Unready(row) && row.runtime == Disabled && row.refs.resource != "" && env.start == Done
  }

  predicate WasReady(row: Tenant, env: Replies) {
    env.service.Service? && row.desired == WantEnabled && !row.isStatic && row.runtime == Ready
  }

  predicate StaticProbed(row: Tenant, env: Replies) {
    && env.service.Service? && row.isStatic && TrimSpace(row.refs.upstream) != ""
    && (row.desired == WantEnabled || (row.desired == WantDisabled && row.runtime == Disabled))
  }

  predicate Probed(row: Tenant, env: Replies) {
    Ensured(row, env) || Started(row, env) || WasReady(row, env) || StaticProbed(row, env)
  }

  predicate Switched(row: Tenant, env: Replies) {
    && env.service.Service? && row.desired == WantDisabled && row.runtime != Disabled
    && (!row.isStatic && row.refs.resource != "" ==> !env.stop.Failed?)
  }

  predicate AwaitsDeletion(row: Tenant, env: Replies) {
    && env.service.Service? && row.desired == WantDeleted && !row.isStatic && row.refs.resource != ""
    && env.check == Done && (QueuesDelete(row, env.now) ==> env.deletion == Done)
  }

  predicate Rests(row: Tenant, env: Replies) {
    && env.service.Service? && !row.isStatic
    && ((row.desired == WantEnabled && row.runtime == Deleting) ||
        (row.desired == WantDisabled && row.runtime == Disabled))
  }

  // What the row says then.

  /** The upstream that is probed. */
  function ProbedUpstream(row: Tenant, env: Replies): string
    requires Probed(row, env)
  {
    if Ensured(row, env) then env.rendering.upstream
    else if row.refs.upstream != "" then row.refs.upstream
    else BuildUpstreamURL(row, env.service.portPath)
  }

  predicate SaysProbe(row: Tenant, r: Tenant, env: Replies) {
    match env.probe
    case Healthy => r.runtime == Ready && r.lastError == "" && r.lastHealthy == Some(env.now)
    case Unhealthy(e) => r.runtime == Degraded && r.lastError == e && r.lastHealthy == row.lastHealthy
    case ProbeFailed(e) => r.runtime == Degraded && r.lastError == e && r.lastHealthy == row.lastHealthy
  }

  predicate Refers(row: Tenant, r: Tenant, resource: string, upstream: string) {
    r.refs == References(Keep(resource, row.refs.resource), row.refs.application, Keep(upstream, row.refs.upstream))
  }

  lemma ObservedOnce(row: Tenant, resource: string, upstream: string, env: Replies)
    ensures var r := Written(row, ObserveSpec(resource, upstream, env).writes);
            SaysProbe(row, r, env) && Refers(row, r, resource, upstream)
  {
    WrittenOnce(row, ObserveSpec(resource, upstream, env).writes[0]);
  }

  lemma ObservedAfter(row: Tenant, u: RuntimeUpdate, resource: string, upstream: string, env: Replies)
    requires !u.clear && u.lastHealthy.None? && u.refs.application == ""
    requires u.refs.resource == "" || u.refs.resource == resource
    requires u.refs.upstream == "" || u.refs.upstream == upstream
    ensures var r := Written(row, [u] + ObserveSpec(resource, upstream, env).writes);
            SaysProbe(row, r, env) && Refers(row, r, resource, upstream)
  {
    WrittenConcat(row, [u], ObserveSpec(resource, upstream, env).writes);
    WrittenOnce(row, u);
    ObservedOnce(Updated(row, u), resource, upstream, env);
  }

  function WrittenByTurn(row: Tenant, env: Replies): Tenant {
    Written(row, ApplySpec(row, PlanTenantAction(row), env).writes)
  }

  predicate EndsObserved(row: Tenant, env: Replies, t: Trace) {
    t.result == if env.probe.Healthy? then Applied("ready", Some(Ready), Some(""), false, false)
                else Applied("degraded", Some(Degraded), Some(Detail(env.probe)), false, false)
  }

  function Detail(probe: Probe): string {
    match probe
    case Healthy => ""
    case Unhealthy(e) => e
    case ProbeFailed(e) => e
  }

  lemma EnsuredTells(row: Tenant, env: Replies)
    requires Ensured(row, env)
    ensures var t := EnsureSpec(row, env);
            var r := Written(row, t.writes);
            && EndsObserved(row, env, t) && SaysProbe(row, r, env)
            && Refers(row, r, if Missing(row, env) then env.creation.uuid else row.refs.resource,
                      env.rendering.upstream)
            && t.writes[0].runtime == Provisioning
  {
    var resource := if Missing(row, env) then env.creation.uuid else row.refs.resource;
    var upstream := env.rendering.upstream;
    var u := RuntimeUpdate(Provisioning, References(resource, "", upstream), None, "", false);
    ObservedAfter(row, u, resource, upstream, env);
    ConvergeCorrectsDrift(resource, Missing(row, env), upstream, env);
    ConvergeEnds(resource, Missing(row, env), upstream, env);
  }

  lemma ConvergeEnds(resource: string, created: bool, upstream: string, env: Replies)
    requires Converged(created, env)
    ensures var t, p := ConvergeSpec(resource, created, upstream, env), ProvisionSpec(resource, upstream, env);
            t.writes == p.writes && t.result == p.result
  {
  }

  lemma StartedTells(row: Tenant, env: Replies)
    requires Started(row, env)
    ensures var t := EnableSpec(row, env.service.portPath, env);
            var r := Written(row, t.writes);
            && EndsObserved(row, env, t) && SaysProbe(row, r, env)
            && Refers(row, r, row.refs.resource, UpstreamOf(row, env.service.portPath))
            && t.writes[0].runtime == Provisioning
  {
    ObservedAfter(row, Status(Provisioning, ""), row.refs.resource, UpstreamOf(row, env.service.portPath), env);
  }

  /** After a turn that reached its probe the row says what the probe found, of which upstream, and when it last found
      it healthy; a service is said to be provisioned before it is probed. */
  lemma ProbedTells(row: Tenant, env: Replies)
    requires Probed(row, env)
    ensures var t := ApplySpec(row, PlanTenantAction(row), env);
            var r := WrittenByTurn(row, env);
            && EndsObserved(row, env, t) && SaysProbe(row, r, env)
            && Refers(row, r, if Ensured(row, env) && Missing(row, env) then env.creation.uuid else row.refs.resource,
                      ProbedUpstream(row, env))
            && (Ensured(row, env) || Started(row, env) ==> t.writes[0].runtime == Provisioning)
  {
    if Ensured(row, env) {
      EnsuredTells(row, env);
    } else if Started(row, env) {
      StartedTells(row, env);
    } else {
      ObservedOnce(row, if row.isStatic then "" else row.refs.resource, UpstreamOf(row, env.service.portPath), env);
    }
  }

  predicate Succeeds(row: Tenant, env: Replies) {
    || Probed(row, env) || Switched(row, env) || AwaitsDeletion(row, env) || Rests(row, env)
    || TenantRuns.DeletionCompletes(row, env)
  }

  lemma EnsureFails(row: Tenant, env: Replies)
    requires env.service.Service? && NeedsEnsure(row, env) && !Ensured(row, env)
    ensures var t := EnsureSpec(row, env);
            t.result.NotApplied? &&
            Written(row, t.writes) ==
              if Refused(row, env) then
                row.(runtime := Degraded, refs := NO_REFERENCES, lastHealthy := None, lastError := env.creation.error)
              else row
    ensures Refused(row, env) ==> EnsureSpec(row, env).result == NotApplied(env.creation.error)
  {
    if env.rendering.Rendered? {
      ConvergeCorrectsDrift(row.refs.resource, false, env.rendering.upstream, env);
      if env.creation.Created? { ConvergeCorrectsDrift(env.creation.uuid, true, env.rendering.upstream, env); }
      if Refused(row, env) {
        WrittenOnce(row, RuntimeUpdate(Degraded, NO_REFERENCES, None, env.creation.error, true));
      }
    }
  }

  /** A turn that fails leaves the row as it was, except that a refused creation drops the references. */
  lemma FailedTells(row: Tenant, env: Replies)
    requires !Succeeds(row, env)
    ensures ApplySpec(row, PlanTenantAction(row), env).result.NotApplied?
    ensures WrittenByTurn(row, env) ==
            if Refused(row, env) then
              row.(runtime := Degraded, refs := NO_REFERENCES, lastHealthy := None, lastError := env.creation.error)
            else row
    ensures Refused(row, env) ==>
              ApplySpec(row, PlanTenantAction(row), env).result == NotApplied(env.creation.error)
  {
    if env.service.Service? && NeedsEnsure(row, env) { EnsureFails(row, env); }
  }

  lemma OthersTell(row: Tenant, env: Replies)
    requires Switched(row, env) || AwaitsDeletion(row, env) || Rests(row, env)
    ensures var t := ApplySpec(row, PlanTenantAction(row), env);
            t.result.Applied? && !t.result.deleteCompleted &&
            WrittenByTurn(row, env) ==
              if Switched(row, env) then row.(runtime := Disabled, lastError := "")
              else if AwaitsDeletion(row, env) then row.(runtime := Deleting, lastError := "")
              else row
  {
    WrittenOnce(row, Status(Disabled, ""));
    WrittenOnce(row, Status(Deleting, ""));
  }

  /** What the turn itself wrote, with the time and the error it ends with. The timer of a pending deletion goes on. */
  lemma RowTellsTurn(row: Tenant, turn: Turn)
    requires !TenantRuns.DeletionCompletes(row, turn.replies)
    ensures var env, r := turn.replies, CycleRow(row, turn);
            && r.Some?
            && r.value == WrittenByTurn(row, env).(lastError := r.value.lastError,
                                                   lastReconciled := r.value.lastReconciled)
            && r.value.lastReconciled ==
               (if AwaitsDeletion(row, env) && !QueuesDelete(row, env.now) then row.lastReconciled
                else Some(turn.finishedAt))
            && r.value.lastError ==
               (if !Succeeds(row, env) then TurnTrace(row, turn).result.error
                else if Probed(row, env) then Detail(env.probe)
                else if Rests(row, env) && row.runtime == Deleting then row.lastError
                else "")
  {
    var env := turn.replies;
    TenantRuns.CompletesIff(row, env);
    if Probed(row, env) {
      ProbedTells(row, env);
    } else if Switched(row, env) || AwaitsDeletion(row, env) || Rests(row, env) {
      OthersTell(row, env);
    } else {
      FailedTells(row, env);
    }
  }

  /** The run record says failed exactly when the turn failed, and otherwise names the state of the row; after a failure
      it names the state before the turn, which differs exactly when a creation was refused to a row not degraded. */
  lemma RecordTellsRow(id: TenantId, row: Tenant, turn: Turn)
    requires !TenantRuns.DeletionCompletes(row, turn.replies)
    ensures var run := RunOf(id, row, TurnTrace(row, turn).result);
            var r := CycleRow(row, turn);
            && r.Some? && (run.status == "failed" <==> !Succeeds(row, turn.replies))
            && (run.observed == r.value.runtime <==> !(Refused(row, turn.replies) && row.runtime != Degraded))
            && (Succeeds(row, turn.replies) ==>
                  run.status == if Rests(row, turn.replies) then "noop" else StatusOf(r.value.runtime))
  {
    var env := turn.replies;
    RowTellsTurn(row, turn);
    if Probed(row, env) {
      ProbedTells(row, env);
    } else if Switched(row, env) || AwaitsDeletion(row, env) || Rests(row, env) {
      OthersTell(row, env);
    } else {
      FailedTells(row, env);
    }
  }

  function StatusOf(runtime: RuntimeState): string {
    match runtime
    case Provisioning => "provisioning"
    case Ready => "ready"
    case Degraded => "degraded"
    case Disabled => "disabled"
    case Deleting => "deleting"
  }

  // Whose upstream it is.

  lemma HostIsFirst(x: string, p: string, y: string, q: string)
    requires ':' !in x && ':' !in y && x + ":" + p == y + ":" + q
    ensures x == y
  {
    var s, t := x + ":" + p, y + ":" + q;
    assert s[|x|] == ':' && t[|y|] == ':';
    assert (forall k :: 0 <= k < |x| ==> s[k] == x[k]) && forall k :: 0 <= k < |y| ==> t[k] == y[k];
    assert x == s[..|x|] && y == t[..|y|];
  }

  /** Tenants of different names never share a built upstream. */
  lemma UpstreamIsOwn(a: Tenant, b: Tenant, p: string, q: string)
    requires BuildUpstreamURL(a, p) == BuildUpstreamURL(b, q)
    requires ':' !in a.service && ':' !in a.subjectKey && ':' !in b.service && ':' !in b.subjectKey
    ensures BuildTenantInstanceName(a.service, a.subjectKey) == BuildTenantInstanceName(b.service, b.subjectKey)
  {
    var x, y := BuildTenantInstanceName(a.service, a.subjectKey), BuildTenantInstanceName(b.service, b.subjectKey);
    var s, t := BuildUpstreamURL(a, p), BuildUpstreamURL(b, q);
    assert s[7..] == x + ":" + p && t[7..] == y + ":" + q;
    HostIsFirst(x, p, y, q);
  }

  /** A row just bound to a static upstream is probed there, and keeps it. */
  lemma BoundIsProbed(row: Tenant, spec: Spec, upstream: string, now: Time, turn: Turn)
    requires turn.replies.service.Service? && TrimSpace(upstream) != ""
    ensures var bound := MadeStatic(row, spec, upstream, now);
            && Probed(bound, turn.replies) && ProbedUpstream(bound, turn.replies) == upstream
            && CycleRow(bound, turn).Some? && CycleRow(bound, turn).value.refs == bound.refs
            && SaysProbe(bound, CycleRow(bound, turn).value, turn.replies)
            && bound.lastHealthy == Some(now) && bound.lastError == "" && bound.refs.resource == ""
  {
    var bound := MadeStatic(row, spec, upstream, now);
    RowTellsTurn(bound, turn);
    ProbedTells(bound, turn.replies);
  }
}
